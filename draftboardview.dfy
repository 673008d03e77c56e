/** What the board component adds on top of the app's board: the search projection with the
    column titles carried along, and the rules for committing an edited column title. */
module DraftBoardView {
  import opened Js
  import opened Boards
  import opened BoardStates
  import Search

  /** The component's `filtered` memo: the app's search projection of the board, with the
      stored titles passed through. */
  function FilterTitled(s: BoardState, query: string, lower: string -> string): BoardState
  {
    BoardState(Search.Filter(s.board, query, lower), s.titles)
  }

  /** With an empty query the view is the stored board itself, ids without a player
      included; otherwise it keeps exactly the players whose text matches, each list is the
      order-preserving subsequence of the ids that kept their player; the titles pass
      through unchanged, and a valid board gives a valid view. */
  lemma FilterTitledView(s: BoardState, query: string, lower: string -> string, k: ListKey)
    ensures var v := FilterTitled(s, query, lower);
      && v.titles == s.titles
      && (query == "" ==> v == s)
      && (query != "" ==> forall id :: id in v.board.players <==> id in s.board.players && Search.Matches(s.board.players[id], query, lower))
      && Subseq(FullList(v.board, k), FullList(s.board, k))
      && (query != "" ==> forall id :: id in FullList(v.board, k) <==> id in FullList(s.board, k) && id in v.board.players)
      && (Valid(s.board) ==> Valid(v.board))
  {
    Search.FilteredList(s.board, query, lower, k);
    if Valid(s.board) {
      Search.FilterKeepsValid(s.board, query, lower);
    }
    if query != "" {
      var v := FilterTitled(s, query, lower);
      forall id ensures id in FullList(v.board, k) <==> id in FullList(s.board, k) && id in v.board.players {
        assert id in FullList(v.board, k) <==> multiset(FullList(v.board, k))[id] > 0;
        assert id in FullList(s.board, k) <==> multiset(FullList(s.board, k))[id] > 0;
      }
    }
  }

  /** `commitAvailable`: the edited title, trimmed, or `Available` when nothing is left; it
      is reported (`Some`) only when it differs from the current title, a missing current
      title counting as `Available`. */
  function CommitAvailable(draft: string, current: string): Option<string>
  {
    var next := Or(Trim(draft), "Available");
    if next != Or(current, "Available") then Some(next) else None
  }

  /** The Column component's `commit`: the edited text as it is, reported only when it
      differs from the column's title. */
  function CommitColumn(draft: string, title: string): Option<string>
  {
    if draft != title then Some(draft) else None
  }

  /** A title without white space at either end is its own trim. */
  lemma TrimTrimmed(s: string)
    requires s == [] || (!IsSpace(s[0]) && !IsSpace(s[|s| - 1]))
    ensures Trim(s) == s
  {
  }

  /** The Available title reported is never empty and has no white space at either end,
      and committing it again reports nothing. */
  lemma CommitAvailableTrims(draft: string, current: string)
    ensures var r := CommitAvailable(draft, current);
      && (r.Some? ==> r.value != [] && !IsSpace(r.value[0]) && !IsSpace(r.value[|r.value| - 1]))
      && (r.Some? ==> CommitAvailable(r.value, r.value) == None)
  {
    var r := CommitAvailable(draft, current);
    if r.Some? {
      var v := r.value;
      if Trim(draft) == [] {
        assert v == "Available";
        assert v[0] == 'A' && v[|v| - 1] == 'e';
      }
      TrimTrimmed(v);
    }
  }

  /** The title is reported exactly when, once trimmed and defaulted, it differs from the
      current one (a missing current title counting as `Available`); a blank edit stands
      for `Available`. */
  lemma CommitAvailableReports(draft: string, current: string)
    ensures var r := CommitAvailable(draft, current);
      && (r.None? <==> Or(Trim(draft), "Available") == Or(current, "Available"))
      && (r.Some? ==> r.value == Or(Trim(draft), "Available") && r.value != Or(current, "Available"))
      && ((forall i :: 0 <= i < |draft| ==> IsSpace(draft[i])) ==> r.None? || r.value == "Available")
  {
  }

  /** The bucket columns do neither: a blank edit is reported as it is. Only the Available
      column trims and falls back to a default. */
  lemma OnlyAvailableTrims(draft: string, title: string)
    requires draft != [] && forall i :: 0 <= i < |draft| ==> IsSpace(draft[i])
    requires title != draft
    ensures CommitColumn(draft, title) == Some(draft)
    ensures CommitAvailable(draft, title) != Some(draft)
  {
  }
}
