/** `onDragEnd`: a drop index that refers to the search-filtered view, translated into an
    insertion point in the full list through the id it lands in front of. */
module DragDrop {
  import opened Js
  import opened Boards
  import Search

  /** `destination`: the list dropped on, and the index within its displayed list. */
  datatype Location = Location(list: ListKey, index: nat)

  /** `anchorId`: the id at the drop index of the displayed destination list, the dragged id
      taken out first when the drag stays in one list; `undefined` past the end. */
  function Anchor(shown: seq<Id>, sameList: bool, dragged: Id, index: nat): (anchor: Id)
    ensures anchor == "" || (anchor in shown && !(sameList && anchor == dragged))
  {
    var rest := if sameList then Without(shown, dragged) else shown;
    if index < |rest| then rest[index] else ""
  }

  /** `insertIndex`: the first position of a truthy anchor in the full list, else its end. */
  function InsertIndex(before: seq<Id>, anchor: Id): (k: int)
    ensures Truthy(anchor) && anchor in before ==>
              0 <= k < |before| && before[k] == anchor && anchor !in before[..k]
    ensures !Truthy(anchor) ==> k == |before|
  {
    if Truthy(anchor) then IndexOf(before, anchor) else |before|
  }

  /** `splice(insertIndex, 0, draggableId)` on a copy of the full list. */
  function Place(before: seq<Id>, anchor: Id, dragged: Id): seq<Id>
  {
    SpliceInsert(before, InsertIndex(before, anchor), dragged)
  }

  /** `toArrFullBefore`: the full destination list, without the dragged id when the drag
      stays in one list. */
  function Before(b: Board, from: ListKey, to: ListKey, dragged: Id): seq<Id>
  {
    if from == to then Without(FullList(b, from), dragged) else FullList(b, to)
  }

  /** The anchor of a drop, read off the filtered view of the board. */
  function DropAnchor(b: Board, query: string, lower: string -> string, from: ListKey,
                      dest: Location, dragged: Id): Id
  {
    Anchor(FullList(Search.Filter(b, query, lower), dest.list), from == dest.list, dragged, dest.index)
  }

  /** `onDragEnd(result)`, the displayed lists being those of the board's own filtered view.
      A drop outside every list leaves the board as it is. */
  function DragEnd(b: Board, query: string, lower: string -> string, from: ListKey,
                   destination: Option<Location>, dragged: Id): Board
  {
    if destination.None? then b
    else
      var to := destination.value.list;
      var placed := Place(Before(b, from, to, dragged),
                          DropAnchor(b, query, lower, from, destination.value, dragged), dragged);
      if from == to then SetFullList(b, from, placed)
      else SetFullList(SetFullList(b, from, Without(FullList(b, from), dragged)), to, placed)
  }

  /** A truthy anchor always occurs in the full list it is looked up in, so `indexOf` never
      yields -1 and the splice never counts from the end. */
  lemma AnchorIsListed(b: Board, query: string, lower: string -> string, from: ListKey,
                       dest: Location, dragged: Id)
    ensures var anchor := DropAnchor(b, query, lower, from, dest, dragged);
      anchor == "" || anchor in Before(b, from, dest.list, dragged)
    ensures 0 <= InsertIndex(Before(b, from, dest.list, dragged), DropAnchor(b, query, lower, from, dest, dragged))
  {
    Search.FilteredList(b, query, lower, dest.list);
  }

  /** Where `Place` puts the dragged id, when the anchor is absent or listed. */
  lemma PlaceAt(before: seq<Id>, anchor: Id, dragged: Id)
    requires anchor == "" || anchor in before
    ensures var k := InsertIndex(before, anchor);
      0 <= k <= |before| && Place(before, anchor, dragged) == before[..k] + [dragged] + before[k..]
  {
  }

  /** Inserting the dragged id before the anchor: the list gains exactly that one id, and
      taking it out again gives back the list it was inserted into. */
  lemma {:induction false} PlaceInserts(before: seq<Id>, anchor: Id, dragged: Id)
    requires dragged !in before
    requires anchor == "" || anchor in before
    ensures multiset(Place(before, anchor, dragged)) == multiset(before) + multiset{dragged}
    ensures Without(Place(before, anchor, dragged), dragged) == before
  {
    var k := InsertIndex(before, anchor);
    PlaceAt(before, anchor, dragged);
    assert before == before[..k] + before[k..];
    InsertThenRemove(before[..k], before[k..], dragged);
  }

  /** Taking out an id that was inserted once into a list without it undoes the insert. */
  lemma {:induction false} InsertThenRemove(front: seq<Id>, back: seq<Id>, x: Id)
    requires x !in front && x !in back
    ensures Without(front + [x] + back, x) == front + back
    decreases |front|
  {
    var s := front + [x] + back;
    if front == [] {
      assert s == [x] + back && s[1..] == back;
      WithoutAbsent(back, x);
    } else {
      assert s[0] == front[0] && s[1..] == front[1..] + [x] + back;
      InsertThenRemove(front[1..], back, x);
      assert front + back == [front[0]] + (front[1..] + back);
    }
  }

  /** The dragged id lands right in front of a truthy anchor, and last when there is none. */
  lemma PlaceBeforeAnchor(before: seq<Id>, anchor: Id, dragged: Id)
    requires dragged !in before
    requires anchor == "" || anchor in before
    ensures var placed := Place(before, anchor, dragged);
      if Truthy(anchor) then IndexOf(placed, anchor) == IndexOf(placed, dragged) + 1
      else placed == before + [dragged]
  {
    var k := InsertIndex(before, anchor);
    var placed := Place(before, anchor, dragged);
    PlaceAt(before, anchor, dragged);
    if Truthy(anchor) {
      assert placed[..k] == before[..k];
      IndexOfAt(placed, dragged, k);
      assert placed[..k + 1] == before[..k] + [dragged];
      IndexOfAt(placed, anchor, k + 1);
    }
  }

  /** Filtering after inserting in front of the id at a position of the filtered list puts
      the inserted id at that position of the filtered list (last, past its end). */
  lemma ShownInsert<V>(before: seq<Id>, m: map<Id, V>, dragged: Id, index: nat)
    requires Distinct(before) && dragged !in before && dragged in m && "" !in before
    ensures var rest := KeepPresent(before, m);
      var j := if index < |rest| then index else |rest|;
      KeepPresent(Place(before, if index < |rest| then rest[index] else "", dragged), m)
        == rest[..j] + [dragged] + rest[j..]
  {
    var rest := KeepPresent(before, m);
    var anchor := if index < |rest| then rest[index] else "";
    PlaceAt(before, anchor, dragged);
    var k := InsertIndex(before, anchor);
    assert before == before[..k] + before[k..];
    KeepPresentConcat(before[..k], before[k..], m);
    KeepAround(before[..k], dragged, before[k..], m);
    if index < |rest| {
      AnchorPosition(before, m, k, index);
    }
  }

  /** Filtering keeps an id with an entry where it stands between the rest. */
  lemma KeepAround<V>(front: seq<Id>, x: Id, back: seq<Id>, m: map<Id, V>)
    requires x in m
    ensures KeepPresent(front + [x] + back, m) == KeepPresent(front, m) + [x] + KeepPresent(back, m)
  {
    KeepPresentConcat(front + [x], back, m);
    KeepPresentConcat(front, [x], m);
    KeepPresentCons(x, [], m);
    assert [x] + [] == [x];
  }

  /** In a list without repeats, the id at filtered position `index` sits at full position
      `k` exactly when `index` counts the kept ids in front of `k`. */
  lemma AnchorPosition<V>(before: seq<Id>, m: map<Id, V>, k: nat, index: nat)
    requires Distinct(before) && k < |before|
    requires index < |KeepPresent(before, m)| && before[k] == KeepPresent(before, m)[index]
    ensures index == |KeepPresent(before[..k], m)|
  {
    var rest := KeepPresent(before, m);
    var x := KeepPresent(before[..k], m);
    assert before[k] in m;
    assert before == before[..k] + ([before[k]] + before[k + 1..]);
    KeepPresentConcat(before[..k], [before[k]] + before[k + 1..], m);
    KeepPresentCons(before[k], before[k + 1..], m);
    assert rest[|x|] == before[k];
    assert Distinct(rest) by {
      forall y ensures multiset(rest)[y] <= 1 {
        KeepPresentCount(before, m, y);
      }
    }
    if index < |x| {
      DistinctAt(rest, index, |x|);
    } else if |x| < index {
      DistinctAt(rest, |x|, index);
    }
  }

  /** What the user sees: when the dragged id is shown, the displayed destination list after
      the drop is the one it was dropped on (the dragged id taken out first when the drag
      stays in one list) with the dragged id at the drop index, or last when the index is
      past its end, whatever the query. */
  lemma DropShowsAtIndex(b: Board, query: string, lower: string -> string, from: ListKey,
                         dest: Location, dragged: Id)
    requires Exclusive(b) && dragged in FullList(b, from) && "" !in FullList(b, dest.list)
    requires query != "" ==> dragged in b.players && Search.Matches(b.players[dragged], query, lower)
    ensures var shown := FullList(Search.Filter(b, query, lower), dest.list);
      var rest := if from == dest.list then Without(shown, dragged) else shown;
      var j := if dest.index < |rest| then dest.index else |rest|;
      FullList(Search.Filter(DragEnd(b, query, lower, from, Some(dest), dragged), query, lower), dest.list)
        == rest[..j] + [dragged] + rest[j..]
  {
    var to := dest.list;
    var after := DragEnd(b, query, lower, from, Some(dest), dragged);
    var before := Before(b, from, to, dragged);
    var anchor := DropAnchor(b, query, lower, from, dest, dragged);
    var placed := Place(before, anchor, dragged);
    DropInto(b, query, lower, from, dest, dragged);
    if query == "" {
      var m := map id | id in before + [dragged] :: true;
      KeepPresentAll(before, m);
      AnchorIsListed(b, query, lower, from, dest, dragged);
      PlaceInserts(before, anchor, dragged);
      forall id | id in placed ensures id in m {
        assert multiset(placed)[id] > 0;
      }
      KeepPresentAll(placed, m);
      ShownInsert(before, m, dragged, dest.index);
    } else {
      var shownIds := Search.Filter(b, query, lower).players;
      Search.FilterShows(b, after, query, lower, to);
      Search.FilterShows(after, after, query, lower, to);
      if from == to {
        KeepPresentWithout(FullList(b, from), shownIds, dragged);
      }
      ShownInsert(before, shownIds, dragged, dest.index);
    }
  }

  /** The full destination list after a drop is the list it was inserted into with the
      dragged id spliced in; that list has no repeats, no `undefined` and not the dragged id. */
  lemma DropInto(b: Board, query: string, lower: string -> string, from: ListKey,
                 dest: Location, dragged: Id)
    requires Exclusive(b) && dragged in FullList(b, from) && "" !in FullList(b, dest.list)
    ensures var before := Before(b, from, dest.list, dragged);
      var after := DragEnd(b, query, lower, from, Some(dest), dragged);
      && FullList(after, dest.list) == Place(before, DropAnchor(b, query, lower, from, dest, dragged), dragged)
      && after.players == b.players
      && Distinct(before) && dragged !in before && "" !in before
  {
    var before := Before(b, from, dest.list, dragged);
    ListedOnce(b, from, dragged);
    forall y ensures multiset(before)[y] <= 1 {
      ListedOnce(b, dest.list, y);
    }
  }

  /** A drag within one list (of a board where the dragged id sits there once) permutes
      that list, keeps the other ids in their relative order, puts the dragged id in front
      of the anchor or last, and changes nothing else. */
  lemma SameListDrag(b: Board, query: string, lower: string -> string, from: ListKey,
                     dest: Location, dragged: Id)
    requires dest.list == from && Exclusive(b) && dragged in FullList(b, from)
    ensures var after := DragEnd(b, query, lower, from, Some(dest), dragged);
      var anchor := DropAnchor(b, query, lower, from, dest, dragged);
      && multiset(FullList(after, from)) == multiset(FullList(b, from))
      && Without(FullList(after, from), dragged) == Without(FullList(b, from), dragged)
      && (if Truthy(anchor)
          then IndexOf(FullList(after, from), anchor) == IndexOf(FullList(after, from), dragged) + 1
          else FullList(after, from) == Without(FullList(b, from), dragged) + [dragged])
      && after.players == b.players
      && forall k :: k != from ==> FullList(after, k) == FullList(b, k)
  {
    var anchor := DropAnchor(b, query, lower, from, dest, dragged);
    var before := Before(b, from, from, dragged);
    var placed := Place(before, anchor, dragged);
    assert DragEnd(b, query, lower, from, Some(dest), dragged) == SetFullList(b, from, placed);
    assert before == Without(FullList(b, from), dragged);
    assert multiset(FullList(b, from)) == multiset(before) + multiset{dragged} by {
      ListedOnce(b, from, dragged);
    }
    AnchorIsListed(b, query, lower, from, dest, dragged);
    PlaceInserts(before, anchor, dragged);
    PlaceBeforeAnchor(before, anchor, dragged);
  }

  /** A drag across lists takes exactly the dragged id out of the source list and puts it
      in front of the anchor (or last) in the destination; the destination gains exactly
      that id, and the other two lists and the players are untouched. */
  lemma CrossListDrag(b: Board, query: string, lower: string -> string, from: ListKey,
                      dest: Location, dragged: Id)
    requires dest.list != from && dragged !in FullList(b, dest.list)
    ensures var after := DragEnd(b, query, lower, from, Some(dest), dragged);
      var anchor := DropAnchor(b, query, lower, from, dest, dragged);
      && FullList(after, from) == Without(FullList(b, from), dragged)
      && multiset(FullList(after, dest.list)) == multiset(FullList(b, dest.list)) + multiset{dragged}
      && Without(FullList(after, dest.list), dragged) == FullList(b, dest.list)
      && (if Truthy(anchor)
          then IndexOf(FullList(after, dest.list), anchor) == IndexOf(FullList(after, dest.list), dragged) + 1
          else FullList(after, dest.list) == FullList(b, dest.list) + [dragged])
      && after.players == b.players
      && forall k :: k != from && k != dest.list ==> FullList(after, k) == FullList(b, k)
  {
    AnchorIsListed(b, query, lower, from, dest, dragged);
    PlaceInserts(FullList(b, dest.list), DropAnchor(b, query, lower, from, dest, dragged), dragged);
    PlaceBeforeAnchor(FullList(b, dest.list), DropAnchor(b, query, lower, from, dest, dragged), dragged);
  }

  /** Whatever the query and drop index, a drag of a listed id keeps every id's number of
      list entries, so a valid board stays valid; a drop with no destination changes
      nothing at all. */
  lemma DragEndKeepsValid(b: Board, query: string, lower: string -> string, from: ListKey,
                          destination: Option<Location>, dragged: Id)
    requires Valid(b) && dragged in FullList(b, from)
    ensures var after := DragEnd(b, query, lower, from, destination, dragged);
      && (destination.None? ==> after == b)
      && (forall id :: Occurrences(after, id) == Occurrences(b, id))
      && Valid(after)
  {
    if destination.Some? {
      if destination.value.list == from {
        SameListKeepsCounts(b, query, lower, from, destination.value, dragged);
      } else {
        CrossListKeepsCounts(b, query, lower, from, destination.value, dragged);
      }
    }
  }

  lemma SameListKeepsCounts(b: Board, query: string, lower: string -> string, from: ListKey,
                            dest: Location, dragged: Id)
    requires dest.list == from && Exclusive(b) && dragged in FullList(b, from)
    ensures forall id :: Occurrences(DragEnd(b, query, lower, from, Some(dest), dragged), id) == Occurrences(b, id)
  {
    var after := DragEnd(b, query, lower, from, Some(dest), dragged);
    var placed := FullList(after, from);
    assert after == SetFullList(b, from, placed) && multiset(placed) == multiset(FullList(b, from)) by {
      SameListDrag(b, query, lower, from, dest, dragged);
    }
    forall id ensures Occurrences(after, id) == Occurrences(b, id) {
      OccurrencesAfterSet(b, from, placed, id);
    }
  }

  lemma CrossListKeepsCounts(b: Board, query: string, lower: string -> string, from: ListKey,
                             dest: Location, dragged: Id)
    requires dest.list != from && Exclusive(b) && dragged in FullList(b, from)
    ensures forall id :: Occurrences(DragEnd(b, query, lower, from, Some(dest), dragged), id) == Occurrences(b, id)
  {
    var after := DragEnd(b, query, lower, from, Some(dest), dragged);
    var to := dest.list;
    var mid := SetFullList(b, from, Without(FullList(b, from), dragged));
    var placed := FullList(after, to);
    assert multiset(FullList(b, from))[dragged] == 1 && dragged !in FullList(b, to) by {
      ListedOnce(b, from, dragged);
    }
    assert after == SetFullList(mid, to, placed) && FullList(mid, to) == FullList(b, to)
           && multiset(placed) == multiset(FullList(b, to)) + multiset{dragged} by {
      CrossListDrag(b, query, lower, from, dest, dragged);
    }
    forall id ensures Occurrences(after, id) == Occurrences(b, id) {
      OccurrencesAfterSet(b, from, FullList(mid, from), id);
      OccurrencesAfterSet(mid, to, placed, id);
    }
  }

  lemma {:induction false} LacksChar(s: string, c: char)
    requires forall i :: 0 <= i < |s| ==> s[i] != c
    ensures !Contains(s, [c])
    decreases |s|
  {
    if s != [] {
      LacksChar(s[1..], c);
      assert s[..1][0] == s[0];
      assert !StartsWith(s, [c]);
    }
  }

  function Identity(s: string): string { s }

  /** Four players, named ann, bob, cat and dan, all of them in Available in that order. */
  function ExampleBoard(a: Id, b: Id, c: Id, d: Id): Board
  {
    Board(map[a := Player(a, "ann", ""), b := Player(b, "bob", ""),
              c := Player(c, "cat", ""), d := Player(d, "dan", "")],
          [a, b, c, d], Buckets([], [], []))
  }

  /** Four distinct non-empty ids, as `uuidv4` yields them. */
  ghost predicate FourIds(a: Id, b: Id, c: Id, d: Id)
  {
    && Truthy(a) && Truthy(b) && Truthy(c) && Truthy(d)
    && a != b && a != c && a != d && b != c && b != d && c != d
  }

  lemma ExampleView(a: Id, b: Id, c: Id, d: Id)
    requires FourIds(a, b, c, d)
    ensures var view := Search.Filter(ExampleBoard(a, b, c, d), "a", Identity);
      a in view.players && b !in view.players && c in view.players && d in view.players
  {
    var players := ExampleBoard(a, b, c, d).players;
    assert players[a].name == "ann" && players[b].name == "bob";
    assert players[c].name == "cat" && players[d].name == "dan";
    assert Identity("a") == "a" == ['a'];
    assert Search.Matches(players[a], "a", Identity) by {
      assert Identity("ann" + " " + "") == "ann " && "ann "[..1] == "a";
    }
    assert !Search.Matches(players[b], "a", Identity) by {
      assert Identity("bob" + " " + "") == "bob ";
      LacksChar("bob ", 'a');
    }
    assert Search.Matches(players[c], "a", Identity) by {
      assert Identity("cat" + " " + "") == "cat " && "cat "[1..] == "at " && "at "[..1] == "a";
    }
    assert Search.Matches(players[d], "a", Identity) by {
      assert Identity("dan" + " " + "") == "dan " && "dan "[1..] == "an " && "an "[..1] == "a";
    }
  }

  lemma ExampleShown(a: Id, b: Id, c: Id, d: Id, players: map<Id, Player>)
    requires a in players && b !in players && c in players && d in players
    ensures KeepPresent([a, b, c, d], players) == [a, c, d]
  {
    var s3: seq<Id> := [d];
    var s2 := [c] + s3;
    var s1 := [b] + s2;
    assert [a] + s1 == [a, b, c, d];
    KeepPresentCons(d, [], players);
    assert [d] + [] == s3;
    KeepPresentCons(c, s3, players);
    KeepPresentCons(b, s2, players);
    KeepPresentCons(a, s1, players);
  }

  lemma ExampleWithout(front: seq<Id>, x: Id)
    requires x !in front
    ensures Without(front + [x], x) == front
  {
    InsertThenRemove(front, [], x);
    assert front + [x] + [] == front + [x];
  }

  lemma ExampleShownList(a: Id, b: Id, c: Id, d: Id)
    requires FourIds(a, b, c, d)
    ensures FullList(Search.Filter(ExampleBoard(a, b, c, d), "a", Identity), Available) == [a, c, d]
  {
    ExampleView(a, b, c, d);
    ExampleShown(a, b, c, d, Search.Filter(ExampleBoard(a, b, c, d), "a", Identity).players);
  }

  lemma AnchorOfShown(a: Id, c: Id, d: Id)
    requires d != a && d != c
    ensures Anchor([a, c, d], true, d, 0) == a
  {
    assert [a, c, d] == [a, c] + [d];
    ExampleWithout([a, c], d);
  }

  lemma ExampleAnchor(a: Id, b: Id, c: Id, d: Id)
    requires FourIds(a, b, c, d)
    ensures DropAnchor(ExampleBoard(a, b, c, d), "a", Identity, Available, Location(Available, 0), d) == a
  {
    ExampleShownList(a, b, c, d);
    AnchorOfShown(a, c, d);
  }

  lemma ExampleBefore(a: Id, b: Id, c: Id, d: Id)
    requires FourIds(a, b, c, d)
    ensures Before(ExampleBoard(a, b, c, d), Available, Available, d) == [a, b, c]
  {
    assert ExampleBoard(a, b, c, d).availableOrder == [a, b, c] + [d];
    ExampleWithout([a, b, c], d);
  }

  /** The reorder example: with `b` hidden by the query "a", dragging `d` to the top of the
      filtered Available list `[a, c, d]` yields the full list `[d, a, b, c]`, not a list
      that loses `b`. */
  lemma ReorderUnderFilter(a: Id, b: Id, c: Id, d: Id)
    requires FourIds(a, b, c, d)
    ensures DragEnd(ExampleBoard(a, b, c, d), "a", Identity, Available, Some(Location(Available, 0)), d)
              .availableOrder == [d, a, b, c]
  {
    var board := ExampleBoard(a, b, c, d);
    var dest := Location(Available, 0);
    calc {
      DragEnd(board, "a", Identity, Available, Some(dest), d).availableOrder;
      { DropOnSameList(board, "a", Identity, dest, d); }
      Place(Before(board, Available, Available, d), DropAnchor(board, "a", Identity, Available, dest, d), d);
      { ExampleAnchor(a, b, c, d); ExampleBefore(a, b, c, d); }
      Place([a, b, c], a, d);
      { PlaceInFront([a, b, c], a, d); }
      [d, a, b, c];
    }
  }

  lemma DropOnSameList(b: Board, query: string, lower: string -> string, dest: Location, dragged: Id)
    ensures FullList(DragEnd(b, query, lower, dest.list, Some(dest), dragged), dest.list)
            == Place(Before(b, dest.list, dest.list, dragged), DropAnchor(b, query, lower, dest.list, dest, dragged), dragged)
  {
  }

  lemma PlaceInFront(before: seq<Id>, anchor: Id, dragged: Id)
    requires before != [] && before[0] == anchor && anchor != ""
    ensures Place(before, anchor, dragged) == [dragged] + before
  {
    PlaceAt(before, anchor, dragged);
    assert before[..0] == [] && before[0..] == before;
  }
}
