/** The board the mutation engine works on: a player map and four ordered id lists. */
module Boards {
  import opened Js

  datatype Player = Player(id: Id, name: string, notes: string)

  datatype Buckets = Buckets(yes: seq<Id>, maybe: seq<Id>, no: seq<Id>)

  /** `{ players, availableOrder, buckets: { yes, maybe, no } }`. */
  datatype Board = Board(players: map<Id, Player>, availableOrder: seq<Id>, buckets: Buckets)

  /** The droppable ids of the four lists: 'available', 'yes', 'maybe', 'no'. */
  datatype ListKey = Available | Yes | Maybe | No

  /** The `droppableId` of a list, which is also its key in `buckets`. */
  function ListName(k: ListKey): string
  {
    match k
    case Available => "available"
    case Yes => "yes"
    case Maybe => "maybe"
    case No => "no"
  }

  /** `getFullList(state, listName)`. */
  function FullList(b: Board, k: ListKey): seq<Id>
  {
    match k
    case Available => b.availableOrder
    case Yes => b.buckets.yes
    case Maybe => b.buckets.maybe
    case No => b.buckets.no
  }

  /** `setFullList(next, listName, arr)`: the board with list `k` replaced by `s`. */
  function SetFullList(b: Board, k: ListKey, s: seq<Id>): (r: Board)
    ensures FullList(r, k) == s && r.players == b.players
    ensures forall k' :: k' != k ==> FullList(r, k') == FullList(b, k')
  {
    match k
    case Available => b.(availableOrder := s)
    case Yes => b.(buckets := b.buckets.(yes := s))
    case Maybe => b.(buckets := b.buckets.(maybe := s))
    case No => b.(buckets := b.buckets.(no := s))
  }

  /** All four lists one after another, in the order the CSV export walks them. */
  function Listed(b: Board): seq<Id>
  {
    b.availableOrder + b.buckets.yes + b.buckets.maybe + b.buckets.no
  }

  /** How often `id` occurs across the four lists. */
  function Occurrences(b: Board, id: Id): nat
  {
    multiset(b.availableOrder)[id] + multiset(b.buckets.yes)[id]
    + multiset(b.buckets.maybe)[id] + multiset(b.buckets.no)[id]
  }

  /** Each id sits in at most one list, at most once. */
  ghost predicate Exclusive(b: Board)
  {
    forall id :: Occurrences(b, id) <= 1
  }

  /** An id is listed exactly when it has a player entry. */
  ghost predicate Covered(b: Board)
  {
    forall id :: id in b.players <==> Occurrences(b, id) > 0
  }

  /** The board invariant: every player sits in exactly one list, exactly once, and
      every listed id has a player. */
  ghost predicate Valid(b: Board)
  {
    Exclusive(b) && Covered(b)
  }

  lemma OccurrencesOfListed(b: Board, id: Id)
    ensures Occurrences(b, id) == multiset(Listed(b))[id]
    ensures id in Listed(b) <==> Occurrences(b, id) > 0
  {
  }

  /** Replacing one list changes the occurrence count by the difference of the two lists. */
  lemma OccurrencesAfterSet(b: Board, k: ListKey, s: seq<Id>, id: Id)
    ensures Occurrences(SetFullList(b, k, s), id)
            == Occurrences(b, id) - multiset(FullList(b, k))[id] + multiset(s)[id]
  {
  }

  /** On a board where no id is listed twice, an id sits in at most one list, once. */
  lemma ListedOnce(b: Board, k: ListKey, id: Id)
    requires Exclusive(b)
    ensures multiset(FullList(b, k))[id] <= 1
    ensures id in FullList(b, k) ==> forall k' :: k' != k ==> id !in FullList(b, k')
  {
    assert Occurrences(b, id) <= 1;
  }

  /** The sample roster both `defaultState` and `createDefaultBoard` start from. */
  const SampleNames: seq<string> := ["Alice", "Bob", "Charlie", "Deepa", "Ethan", "Fatima", "Ganesh", "Hana"]

  /** The default board: one player per sample name under the given fresh ids, all of
      them in the Available list in roster order, and empty buckets. */
  function SampleBoard(ids: seq<Id>): (b: Board)
    requires |ids| == |SampleNames| && Distinct(ids)
    ensures Valid(b)
    ensures b.availableOrder == ids && b.buckets == Buckets([], [], [])
    ensures forall i :: 0 <= i < |ids| ==> b.players[ids[i]] == Player(ids[i], SampleNames[i], "")
  {
    assert forall i, j :: 0 <= i < j < |ids| ==> ids[i] != ids[j] by {
      forall i, j | 0 <= i < j < |ids| ensures ids[i] != ids[j] {
        DistinctAt(ids, i, j);
      }
    }
    var players := map i | 0 <= i < |ids| :: ids[i] := Player(ids[i], SampleNames[i], "");
    var b := Board(players, ids, Buckets([], [], []));
    assert forall id :: id in players <==> id in ids by {
      forall id ensures id in players <==> id in ids {
        if id in ids {
          var i :| 0 <= i < |ids| && ids[i] == id;
          assert id in players;
        }
      }
    }
    b
  }

  lemma DistinctAt(s: seq<Id>, i: nat, j: nat)
    requires Distinct(s) && i < j < |s|
    ensures s[i] != s[j]
  {
    assert s == s[..j] + [s[j]] + s[j + 1..];
    assert multiset(s)[s[j]] >= multiset(s[..j])[s[j]] + 1;
    assert s[i] == s[..j][i];
  }
}
