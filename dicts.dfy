/** A JavaScript object used as a dictionary whose key order is observable:
    `Object.keys` lists string keys in insertion order, and the store picks "the first
    tournament" and "the first matching draft" by that order. */
module Dicts {
  import opened Js

  /** The own keys in insertion order, and the value under each. */
  datatype DictRep<V> = DictRep(keys: seq<Id>, vals: map<Id, V>)

  ghost predicate WellFormed<V>(d: DictRep<V>)
  {
    Distinct(d.keys) && forall k :: k in d.vals <==> k in d.keys
  }

  type Dict<V> = d: DictRep<V> | WellFormed(d) witness DictRep([], map[])

  /** `{}`. */
  function Empty<V>(): Dict<V> { DictRep([], map[]) }

  /** `o[k] = v`: an existing key keeps its position, a new key goes last. */
  function Put<V>(d: Dict<V>, k: Id, v: V): Dict<V>
  {
    if k in d.vals then DictRep(d.keys, d.vals[k := v])
    else
      assert k !in d.keys;
      DictRep(d.keys + [k], d.vals[k := v])
  }

  /** Writing a key twice leaves the second value, at the key's old position. */
  lemma PutTwice<V>(d: Dict<V>, k: Id, a: V, b: V)
    requires k in d.vals
    ensures Put(Put(d, k, a), k, b) == Put(d, k, b)
  {
    assert d.vals[k := a][k := b] == d.vals[k := b];
  }

  /** `delete o[k]`. */
  function Delete<V>(d: Dict<V>, k: Id): Dict<V>
  {
    DictRep(Without(d.keys, k), d.vals - {k})
  }

  /** `Object.keys(o)[0]`, or `undefined` for an empty object. */
  function FirstKey<V>(d: Dict<V>): Id
  {
    if |d.keys| > 0 then d.keys[0] else ""
  }

  /** The same keys, in the same order, each value passed through `f`. */
  function MapValues<V, W>(d: Dict<V>, f: V -> W): (r: Dict<W>)
    ensures r.keys == d.keys && r.vals.Keys == d.vals.Keys
    ensures forall k :: k in d.vals ==> r.vals[k] == f(d.vals[k])
  {
    DictRep(d.keys, map k | k in d.vals :: f(d.vals[k]))
  }

  /** `for (const v of Object.values(o)) <fix v>`: each value replaced in key order. */
  method MapEach<V, W>(d: Dict<V>, f: V -> W) returns (r: Dict<W>)
    ensures r == MapValues(d, f)
  {
    var vals: map<Id, W> := map[];
    for i := 0 to |d.keys|
      invariant forall k :: k in vals <==> k in d.keys[..i]
      invariant forall k :: k in vals ==> k in d.vals && vals[k] == f(d.vals[k])
    {
      assert d.keys[..i + 1] == d.keys[..i] + [d.keys[i]];
      assert d.keys[i] in d.keys;
      vals := vals[d.keys[i] := f(d.vals[d.keys[i]])];
    }
    assert d.keys[..|d.keys|] == d.keys;
    assert vals == MapValues(d, f).vals;
    r := DictRep(d.keys, vals);
  }
}
