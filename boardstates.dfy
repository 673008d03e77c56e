/** The board as the store keeps it for each draft: the prototype board plus the four column
    titles, and the repair pass that turns whatever was read back into that shape. */
module BoardStates {
  import opened Js
  import opened Boards

  /** `titles: { available, yes, maybe, no }`. */
  datatype Titles = Titles(available: string, yes: string, maybe: string, no: string)

  /** A stored draft board. */
  datatype BoardState = BoardState(board: Board, titles: Titles)

  const DefaultTitles: Titles := Titles("Available", "YES", "MAYBE", "NO")

  /** `buckets` as read back: each list, when it is an array (`None` when it is not). */
  datatype RawBuckets = RawBuckets(yes: Option<seq<Id>>, maybe: Option<seq<Id>>, no: Option<seq<Id>>)

  /** A board as read back, before repair. A field that is missing or falsy is `None`; a
      title that is missing or empty is the empty string. */
  datatype RawBoard = RawBoard(players: Option<map<Id, Player>>, availableOrder: Option<seq<Id>>,
                               buckets: Option<RawBuckets>, titles: Option<Titles>)

  /** `{}`: what `s || {}` makes of a missing board. */
  const NoBoard: RawBoard := RawBoard(None, None, None, None)

  function ListOrEmpty(s: Option<seq<Id>>): seq<Id>
  {
    if s.Some? then s.value else []
  }

  /** Every title is non-empty. */
  predicate TitlesSet(t: Titles)
  {
    Truthy(t.available) && Truthy(t.yes) && Truthy(t.maybe) && Truthy(t.no)
  }

  /** `normalizeBoardState(s)`: a missing player map becomes `{}`, a list that is not an
      array becomes `[]`, and a missing or empty title becomes its default. Every field
      that was already well formed is kept. */
  function Normalize(s: RawBoard): (r: BoardState)
    ensures TitlesSet(r.titles)
    ensures s.players.Some? ==> r.board.players == s.players.value
    ensures s.players.None? ==> r.board.players == map[]
    ensures s.availableOrder.Some? ==> r.board.availableOrder == s.availableOrder.value
    ensures s.availableOrder.None? ==> r.board.availableOrder == []
    ensures s.buckets.None? ==> r.board.buckets == Buckets([], [], [])
    ensures s.buckets.Some? ==>
              && (s.buckets.value.yes.Some? ==> r.board.buckets.yes == s.buckets.value.yes.value)
              && (s.buckets.value.maybe.Some? ==> r.board.buckets.maybe == s.buckets.value.maybe.value)
              && (s.buckets.value.no.Some? ==> r.board.buckets.no == s.buckets.value.no.value)
              && (s.buckets.value.yes.None? ==> r.board.buckets.yes == [])
              && (s.buckets.value.maybe.None? ==> r.board.buckets.maybe == [])
              && (s.buckets.value.no.None? ==> r.board.buckets.no == [])
    ensures s.titles.None? ==> r.titles == DefaultTitles
    ensures s.titles.Some? ==>
              && (Truthy(s.titles.value.available) ==> r.titles.available == s.titles.value.available)
              && (Truthy(s.titles.value.yes) ==> r.titles.yes == s.titles.value.yes)
              && (Truthy(s.titles.value.maybe) ==> r.titles.maybe == s.titles.value.maybe)
              && (Truthy(s.titles.value.no) ==> r.titles.no == s.titles.value.no)
              && (!Truthy(s.titles.value.available) ==> r.titles.available == DefaultTitles.available)
              && (!Truthy(s.titles.value.yes) ==> r.titles.yes == DefaultTitles.yes)
              && (!Truthy(s.titles.value.maybe) ==> r.titles.maybe == DefaultTitles.maybe)
              && (!Truthy(s.titles.value.no) ==> r.titles.no == DefaultTitles.no)
  {
    var players := if s.players.Some? then s.players.value else map[];
    var buckets := if s.buckets.None? then Buckets([], [], [])
                   else Buckets(ListOrEmpty(s.buckets.value.yes), ListOrEmpty(s.buckets.value.maybe),
                                ListOrEmpty(s.buckets.value.no));
    var titles := if s.titles.None? then DefaultTitles
                  else Titles(Or(s.titles.value.available, "Available"), Or(s.titles.value.yes, "YES"),
                              Or(s.titles.value.maybe, "MAYBE"), Or(s.titles.value.no, "NO"));
    BoardState(Board(players, ListOrEmpty(s.availableOrder), buckets), titles)
  }

  /** A stored board written out and read back as it is. */
  function ToRaw(s: BoardState): RawBoard
  {
    RawBoard(Some(s.board.players), Some(s.board.availableOrder),
             Some(RawBuckets(Some(s.board.buckets.yes), Some(s.board.buckets.maybe), Some(s.board.buckets.no))),
             Some(s.titles))
  }

  /** Repair leaves a stored board exactly as it is precisely when all four titles are set. */
  lemma NormalizeFixes(s: BoardState)
    ensures Normalize(ToRaw(s)) == s <==> TitlesSet(s.titles)
  {
  }

  /** Repairing twice is repairing once. */
  lemma NormalizeIdempotent(s: RawBoard)
    ensures Normalize(ToRaw(Normalize(s))) == Normalize(s)
  {
    NormalizeFixes(Normalize(s));
  }

  /** `createDefaultBoard()`: the sample roster under fresh ids, with the default titles. */
  function CreateDefaultBoard(ids: seq<Id>): (s: BoardState)
    requires |ids| == |SampleNames| && Distinct(ids)
    ensures Valid(s.board) && |s.board.players| == 8 && s.titles == DefaultTitles
    ensures s.board.availableOrder == ids && s.board.buckets == Buckets([], [], [])
    ensures forall i :: 0 <= i < |ids| ==> s.board.players[ids[i]] == Player(ids[i], SampleNames[i], "")
  {
    var b := SampleBoard(ids);
    assert b.players.Keys == set id | id in ids;
    DistinctCard(ids);
    BoardState(b, DefaultTitles)
  }

  /** `createEmptyBoard()`. */
  function CreateEmptyBoard(): (s: BoardState)
    ensures Valid(s.board) && s.board.players == map[] && s.titles == DefaultTitles
    ensures forall k :: FullList(s.board, k) == []
  {
    BoardState(Board(map[], [], Buckets([], [], [])), DefaultTitles)
  }

  /** A list without repetitions has as many distinct elements as entries. */
  lemma {:induction false} DistinctCard(s: seq<Id>)
    requires Distinct(s)
    ensures |set x | x in s| == |s|
    decreases |s|
  {
    if s != [] {
      DistinctTail(s);
      DistinctCard(s[1..]);
      assert (set x | x in s) == {s[0]} + (set x | x in s[1..]);
    }
  }
}
