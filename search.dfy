/** The search projection: the board as the columns display it while a query is typed. */
module Search {
  import opened Js
  import opened Boards

  /** Whether the lower-cased `name + ' ' + notes` of a player contains the lower-cased
      query. Lower-casing is left to the caller (`lower`), since Unicode case mapping is
      not modelled. */
  predicate Matches(p: Player, query: string, lower: string -> string)
  {
    Contains(lower(p.name + " " + p.notes), lower(query))
  }

  /** The `filtered` memo: an empty query yields the board itself; otherwise the players
      whose text matches, and each list narrowed to the ids that kept a player. */
  function Filter(b: Board, query: string, lower: string -> string): (v: Board)
    ensures query == "" ==> v == b
    ensures query != "" ==>
              forall id :: id in v.players <==> id in b.players && Matches(b.players[id], query, lower)
    ensures forall id :: id in v.players ==> id in b.players && v.players[id] == b.players[id]
  {
    if query == "" then b
    else
      var players := map id | id in b.players && Matches(b.players[id], query, lower) :: b.players[id];
      Board(players, KeepPresent(b.availableOrder, players),
            Buckets(KeepPresent(b.buckets.yes, players),
                    KeepPresent(b.buckets.maybe, players),
                    KeepPresent(b.buckets.no, players)))
  }

  /** Each displayed list is the order-preserving subsequence of the full list made of the
      ids that kept a player entry (every occurrence of them); with an empty query it is the
      full list itself, ids without a player included. */
  lemma FilteredList(b: Board, query: string, lower: string -> string, k: ListKey)
    ensures Subseq(FullList(Filter(b, query, lower), k), FullList(b, k))
    ensures forall id :: id in FullList(Filter(b, query, lower), k) ==> id in FullList(b, k)
    ensures query != "" ==> forall id ::
              multiset(FullList(Filter(b, query, lower), k))[id]
              == if id in Filter(b, query, lower).players then multiset(FullList(b, k))[id] else 0
    ensures query == "" ==> FullList(Filter(b, query, lower), k) == FullList(b, k)
  {
    if query == "" {
      SubseqReflexive(FullList(b, k));
    } else {
      KeepPresentSubseq(FullList(b, k), Filter(b, query, lower).players);
      forall id ensures multiset(FullList(Filter(b, query, lower), k))[id]
                        == if id in Filter(b, query, lower).players then multiset(FullList(b, k))[id] else 0 {
        KeepPresentCount(FullList(b, k), Filter(b, query, lower).players, id);
      }
    }
  }

  /** With a query, each displayed list is the full list filtered down to the ids whose
      players match; the matching players depend on the players alone, not on the lists. */
  lemma FilterShows(b: Board, b': Board, query: string, lower: string -> string, k: ListKey)
    requires query != "" && b'.players == b.players
    ensures FullList(Filter(b, query, lower), k) == KeepPresent(FullList(b, k), Filter(b, query, lower).players)
    ensures Filter(b', query, lower).players == Filter(b, query, lower).players
  {
  }

  /** The view of a valid board is valid: searching never shows a player twice and never
      shows an id without its player. */
  lemma FilterKeepsValid(b: Board, query: string, lower: string -> string)
    requires Valid(b)
    ensures Valid(Filter(b, query, lower))
  {
    var v := Filter(b, query, lower);
    if query != "" {
      FilteredList(b, query, lower, Available);
      FilteredList(b, query, lower, Yes);
      FilteredList(b, query, lower, Maybe);
      FilteredList(b, query, lower, No);
      forall id ensures Occurrences(v, id) <= 1 && (id in v.players <==> Occurrences(v, id) > 0) {
        assert Occurrences(b, id) <= 1;
      }
    }
  }
}
