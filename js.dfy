/** The few JavaScript built-ins the board and the store rely on, as functions on values. */
module Js {

  /** Player, tournament and draft ids. The code only ever generates non-empty UUID
      strings, so the empty string stands for `undefined` wherever an id may be missing. */
  type Id = string

  datatype Option<+T> = None | Some(value: T)

  /** The outcome of a call that either returns a value or throws (a `TypeError` from
      reading a property of `undefined`). */
  datatype Result<+T> = Ok(value: T) | Throws

  /** JavaScript truthiness of a string: only the empty string is falsy. */
  predicate Truthy(s: string) { s != "" }

  /** `a || b` on strings. */
  function Or(a: string, b: string): string { if Truthy(a) then a else b }

  /** No id occurs twice. */
  ghost predicate Distinct(s: seq<Id>) { forall x :: multiset(s)[x] <= 1 }

  lemma DistinctTail(s: seq<Id>)
    requires Distinct(s) && s != []
    ensures Distinct(s[1..]) && s[0] !in s[1..]
  {
    assert s == [s[0]] + s[1..];
    forall x ensures multiset(s[1..])[x] <= 1 {
      assert multiset(s)[x] <= 1;
    }
    assert multiset(s)[s[0]] <= 1;
  }

  /** `a` is an order-preserving subsequence of `b` (greedy matching decides it). */
  ghost predicate Subseq(a: seq<Id>, b: seq<Id>)
    decreases |b|
  {
    a == [] || (b != [] && if a[0] == b[0] then Subseq(a[1..], b[1..]) else Subseq(a, b[1..]))
  }

  lemma {:induction false} SubseqReflexive(s: seq<Id>)
    ensures Subseq(s, s)
    decreases |s|
  {
    if s != [] { SubseqReflexive(s[1..]); }
  }

  /** `s.filter(y => y !== x)`: `s` with every occurrence of `x` taken out. */
  function Without(s: seq<Id>, x: Id): (r: seq<Id>)
    ensures x !in r
    ensures forall y :: y != x ==> (y in r <==> y in s)
    ensures multiset(r) == multiset(s)[x := 0]
    decreases |s|
  {
    if s == [] then []
    else
      assert s == [s[0]] + s[1..];
      var rest := Without(s[1..], x);
      if s[0] != x then [s[0]] + rest else rest
  }

  /** What `filter` keeps is an order-preserving subsequence of what it was given. */
  lemma {:induction false} WithoutSubseq(s: seq<Id>, x: Id)
    ensures Subseq(Without(s, x), s)
    decreases |s|
  {
    if s != [] {
      WithoutSubseq(s[1..], x);
      var rest := Without(s[1..], x);
      if s[0] == x && rest != [] {
        assert rest[0] in rest;
      }
    }
  }

  /** Filtering out an id that does not occur changes nothing. */
  lemma {:induction false} WithoutAbsent(s: seq<Id>, x: Id)
    requires x !in s
    ensures Without(s, x) == s
    decreases |s|
  {
    if s != [] {
      WithoutAbsent(s[1..], x);
      assert Without(s, x) == [s[0]] + Without(s[1..], x);
    }
  }

  /** `s.filter(id => m[id])`: the ids of `s` that have an entry in `m`, in order (the
      entries are objects, so always truthy). */
  function KeepPresent<V>(s: seq<Id>, m: map<Id, V>): (r: seq<Id>)
    ensures |r| <= |s|
    ensures forall x :: x in r <==> x in s && x in m
    decreases |s|
  {
    if s == [] then []
    else
      assert s == [s[0]] + s[1..];
      var rest := KeepPresent(s[1..], m);
      if s[0] in m then [s[0]] + rest else rest
  }

  /** The filter keeps every occurrence of an id with an entry and none of the others. */
  lemma {:induction false} KeepPresentCount<V>(s: seq<Id>, m: map<Id, V>, x: Id)
    ensures multiset(KeepPresent(s, m))[x] == if x in m then multiset(s)[x] else 0
    decreases |s|
  {
    if s != [] {
      KeepPresentCount(s[1..], m, x);
      KeepPresentCons(s[0], s[1..], m);
      assert s == [s[0]] + s[1..];
    }
  }

  lemma {:induction false} KeepPresentSubseq<V>(s: seq<Id>, m: map<Id, V>)
    ensures Subseq(KeepPresent(s, m), s)
    decreases |s|
  {
    if s != [] {
      KeepPresentSubseq(s[1..], m);
      var rest := KeepPresent(s[1..], m);
      if s[0] !in m && rest != [] {
        assert rest[0] in rest;
      }
    }
  }

  /** One step of the filter: the head is kept exactly when it has an entry. */
  lemma KeepPresentCons<V>(x: Id, s: seq<Id>, m: map<Id, V>)
    ensures KeepPresent([x] + s, m) == if x in m then [x] + KeepPresent(s, m) else KeepPresent(s, m)
  {
    assert ([x] + s)[1..] == s;
  }

  /** The filter works element by element, so it distributes over concatenation. */
  lemma {:induction false} KeepPresentConcat<V>(a: seq<Id>, c: seq<Id>, m: map<Id, V>)
    ensures KeepPresent(a + c, m) == KeepPresent(a, m) + KeepPresent(c, m)
    decreases |a|
  {
    if a == [] {
      assert a + c == c;
    } else {
      KeepPresentConcat(a[1..], c, m);
      assert (a + c)[0] == a[0] && (a + c)[1..] == a[1..] + c;
    }
  }

  /** Taking an id out and keeping the ids with entries can be done in either order. */
  lemma {:induction false} KeepPresentWithout<V>(s: seq<Id>, m: map<Id, V>, x: Id)
    ensures KeepPresent(Without(s, x), m) == Without(KeepPresent(s, m), x)
    decreases |s|
  {
    if s != [] {
      KeepPresentWithout(s[1..], m, x);
      assert s == [s[0]] + s[1..];
      KeepPresentCons(s[0], s[1..], m);
      var rest := Without(s[1..], x);
      if s[0] != x {
        KeepPresentCons(s[0], rest, m);
      }
      if s[0] in m {
        var kept := KeepPresent(s[1..], m);
        assert ([s[0]] + kept)[1..] == kept;
      }
    }
  }

  /** Every id has an entry: nothing is filtered out. */
  lemma {:induction false} KeepPresentAll<V>(s: seq<Id>, m: map<Id, V>)
    requires forall x :: x in s ==> x in m
    ensures KeepPresent(s, m) == s
    decreases |s|
  {
    if s != [] {
      KeepPresentAll(s[1..], m);
    }
  }

  /** An entry for an id that `s` does not contain changes nothing. */
  lemma {:induction false} KeepPresentIgnores<V>(s: seq<Id>, m: map<Id, V>, k: Id, v: V)
    requires k !in s
    ensures KeepPresent(s, m[k := v]) == KeepPresent(s, m)
    decreases |s|
  {
    if s != [] {
      KeepPresentIgnores(s[1..], m, k, v);
    }
  }

  /** `s.indexOf(x)`: the first position of `x`, or -1 when it is absent. */
  function IndexOf(s: seq<Id>, x: Id): (i: int)
    ensures -1 <= i && (i == -1 <==> x !in s)
    ensures 0 <= i ==> i < |s| && s[i] == x && x !in s[..i]
    decreases |s|
  {
    if s == [] then -1
    else if s[0] == x then 0
    else
      var j := IndexOf(s[1..], x);
      if j == -1 then -1
      else
        assert s[..j + 1] == [s[0]] + s[1..][..j];
        j + 1
  }

  /** The first position of `x` is the one position holding `x` with no `x` before it. */
  lemma IndexOfAt(s: seq<Id>, x: Id, i: nat)
    requires i < |s| && s[i] == x && x !in s[..i]
    ensures IndexOf(s, x) == i
  {
  }

  /** Where `Array.prototype.splice` starts for a given `start`: a negative start counts
      from the end, and both ends are clamped. */
  function SpliceStart(len: nat, start: int): (k: nat)
    ensures k <= len
    ensures 0 <= start <= len ==> k == start
  {
    if start < 0 then (if len + start < 0 then 0 else len + start)
    else if start > len then len
    else start
  }

  /** The array left by `arr.splice(start, 0, x)`. */
  function SpliceInsert(s: seq<Id>, start: int, x: Id): seq<Id>
  {
    var k := SpliceStart(|s|, start);
    s[..k] + [x] + s[k..]
  }

  /** `s.startsWith(q)`. */
  predicate StartsWith(s: string, q: string) { |q| <= |s| && s[..|q|] == q }

  /** `s.includes(q)`: `q` occurs in `s` as a contiguous block. */
  predicate Contains(s: string, q: string)
    decreases |s|
  {
    StartsWith(s, q) || (s != [] && Contains(s[1..], q))
  }

  /** The white space and line terminators `String.prototype.trim` removes. */
  predicate IsSpace(c: char)
  {
    c == ' ' || c == '\t' || c == '\n' || c == '\r' || c == '\U{000B}' || c == '\U{000C}'
    || c == '\U{00A0}' || c == '\U{1680}' || ('\U{2000}' <= c <= '\U{200A}')
    || c == '\U{2028}' || c == '\U{2029}' || c == '\U{202F}' || c == '\U{205F}'
    || c == '\U{3000}' || c == '\U{FEFF}'
  }

  /** `s.trimStart()`: the suffix of `s` after its leading white space. */
  function TrimStart(s: string): (r: string)
    ensures |r| <= |s| && r == s[|s| - |r|..]
    ensures forall k :: 0 <= k < |s| - |r| ==> IsSpace(s[k])
    ensures r == [] || !IsSpace(r[0])
    decreases |s|
  {
    if s != [] && IsSpace(s[0]) then TrimStart(s[1..]) else s
  }

  /** `s.trimEnd()`: the prefix of `s` before its trailing white space. */
  function TrimEnd(s: string): (r: string)
    ensures |r| <= |s| && r == s[..|r|]
    ensures forall k :: |r| <= k < |s| ==> IsSpace(s[k])
    ensures r == [] || !IsSpace(r[|r| - 1])
    decreases |s|
  {
    if s != [] && IsSpace(s[|s| - 1]) then TrimEnd(s[..|s| - 1]) else s
  }

  /** `r` is `s` with some white space cut from its start and some from its end. */
  ghost predicate TrimmedOf(s: string, r: string)
  {
    exists i, j :: 0 <= i <= j <= |s| && r == s[i..j]
      && (forall k :: 0 <= k < i ==> IsSpace(s[k]))
      && (forall k :: j <= k < |s| ==> IsSpace(s[k]))
  }

  /** `r` is `s` with all of its white space cut from both ends: what is left is empty
      exactly when everything was white space, and otherwise starts and ends with
      something else. */
  ghost predicate TrimOf(s: string, r: string)
  {
    && TrimmedOf(s, r)
    && (r == [] <==> forall k :: 0 <= k < |s| ==> IsSpace(s[k]))
    && (r != [] ==> !IsSpace(r[0]) && !IsSpace(r[|r| - 1]))
  }

  /** `s.trim()`. */
  function Trim(s: string): (r: string)
    ensures TrimOf(s, r)
  {
    TrimBothEnds(s);
    TrimEnd(TrimStart(s))
  }

  /** Trimming the start and then the end trims both ends. */
  lemma TrimBothEnds(s: string)
    ensures TrimOf(s, TrimEnd(TrimStart(s)))
  {
    var front := TrimStart(s);
    var r := TrimEnd(front);
    var n := |s| - |front|;
    TrimmedSlice(s, n, front, r);
    if r != [] {
      assert r[0] == front[0];
      assert front[0] == s[n];
    }
  }

  /** What is cut from the end of the suffix `front` of `s` is cut from the end of `s`. */
  lemma TrimmedSlice(s: string, n: nat, front: string, r: string)
    requires n <= |s| && front == s[n..] && |r| <= |front| && r == front[..|r|]
    requires forall k :: |r| <= k < |front| ==> IsSpace(front[k])
    ensures r == s[n..n + |r|] && forall k :: n + |r| <= k < |s| ==> IsSpace(s[k])
  {
    forall k | n + |r| <= k < |s| ensures IsSpace(s[k]) {
      assert s[k] == front[k - n];
    }
  }

  /** The decimal digits of `n`, as a template literal prints it. */
  function NatToString(n: nat): (s: string)
    ensures s != []
    decreases n
  {
    if n < 10 then ["0123456789"[n]] else NatToString(n / 10) + ["0123456789"[n % 10]]
  }
}
