/** The `App` component's two state cells, `state` and `lastSnapshot`, and the handlers
    that overwrite them: every mutator first snapshots the board, `undo` puts the snapshot
    back once. */
module App {
  import opened Js
  import opened Boards
  import Mutations
  import DragDrop
  import Csv

  class DraftSession {
    /** The board being edited. */
    var state: Board
    /** The board before the last mutation; `null` once undone. */
    var lastSnapshot: Option<Board>

    /** The initial cells: the stored board if there is one, else the sample board under
        fresh ids, and no snapshot. */
    constructor (stored: Option<Board>, sampleIds: seq<Id>)
      requires |sampleIds| == |SampleNames| && Distinct(sampleIds)
      ensures stored.Some? ==> state == stored.value
      ensures stored.None? ==> state == SampleBoard(sampleIds) && Valid(state)
      ensures lastSnapshot == None
    {
      state := if stored.Some? then stored.value else SampleBoard(sampleIds);
      lastSnapshot := None;
    }

    /** `snapshotAnd(() => setState(...))` with the new board already computed. */
    method Commit(next: Board)
      modifies this
      ensures lastSnapshot == Some(old(state)) && state == next
    {
      lastSnapshot := Some(state);
      state := next;
    }

    /** `addPlayer(name, notes)`, `id` being the fresh `uuidv4()`. */
    method AddPlayer(id: Id, name: string, notes: string)
      modifies this
      ensures lastSnapshot == Some(old(state))
      ensures state == Mutations.AddPlayer(old(state), id, name, notes)
      ensures Valid(old(state)) && id !in old(state).players ==> Valid(state) && state.availableOrder[0] == id
    {
      if Valid(state) && id !in state.players {
        Mutations.AddPlayerKeepsValid(state, id, name, notes);
      }
      Commit(Mutations.AddPlayer(state, id, name, notes));
    }

    /** `editPlayer(updated)`. */
    method EditPlayer(updated: Player)
      modifies this
      ensures lastSnapshot == Some(old(state))
      ensures state == Mutations.EditPlayer(old(state), updated)
      ensures Valid(old(state)) && updated.id in old(state).players ==> Valid(state)
    {
      Mutations.EditPlayerKeepsLists(state, updated);
      Commit(Mutations.EditPlayer(state, updated));
    }

    /** `removePlayer(id)`. */
    method RemovePlayer(id: Id)
      modifies this
      ensures lastSnapshot == Some(old(state))
      ensures state == Mutations.RemovePlayer(old(state), id)
      ensures id !in state.players && Occurrences(state, id) == 0
      ensures Valid(old(state)) ==> Valid(state)
    {
      Mutations.RemovePlayerForgets(state, id);
      Commit(Mutations.RemovePlayer(state, id));
    }

    /** `sendToAvailable(id)`. */
    method SendToAvailable(id: Id)
      modifies this
      ensures lastSnapshot == Some(old(state))
      ensures state == Mutations.SendToAvailable(old(state), id)
      ensures Valid(old(state)) && id in old(state).players ==> Valid(state)
    {
      if Valid(state) {
        Mutations.SendToAvailableUnassigns(state, id);
      }
      Commit(Mutations.SendToAvailable(state, id));
    }

    /** `handleRemove(id)`: a hard delete for a player in Available, an un-assign for any
        other; either way after a snapshot. */
    method HandleRemove(id: Id)
      modifies this
      ensures lastSnapshot == Some(old(state))
      ensures state == Mutations.HandleRemove(old(state), id)
      ensures id in old(state).availableOrder ==> id !in state.players
      ensures id !in old(state).availableOrder ==> id in state.availableOrder && state.players == old(state).players
    {
      if id in state.availableOrder {
        RemovePlayer(id);
      } else {
        SendToAvailable(id);
      }
    }

    /** `undo()`: restore the snapshot and drop it; without one, nothing happens. */
    method Undo()
      modifies this
      ensures old(lastSnapshot).Some? ==> state == old(lastSnapshot).value
      ensures old(lastSnapshot).None? ==> state == old(state)
      ensures lastSnapshot == None
    {
      if lastSnapshot.None? {
        return;
      }
      state := lastSnapshot.value;
      lastSnapshot := None;
    }

    /** `importCSVText(text)` once the text is parsed into `rows`; `ids` are the fresh ids
        generated for the rows, in row order. */
    method ImportCsvText(rows: seq<Csv.CsvRecord>, ids: seq<Id>)
      requires |ids| == |rows|
      modifies this
      ensures lastSnapshot == Some(old(state))
      ensures state == Csv.ImportAll(old(state), rows, ids)
    {
      var next := Csv.ImportRows(state, rows, ids);
      Commit(next);
    }

    /** `onDragEnd(result)`, the displayed lists being the filtered view of the current
        board under `query`. A drop outside every list takes no snapshot. */
    method DragEnd(query: string, lower: string -> string, from: ListKey,
                   destination: Option<DragDrop.Location>, dragged: Id)
      modifies this
      ensures destination.None? ==> state == old(state) && lastSnapshot == old(lastSnapshot)
      ensures destination.Some? ==> lastSnapshot == Some(old(state))
      ensures state == DragDrop.DragEnd(old(state), query, lower, from, destination, dragged)
      ensures Valid(old(state)) && dragged in FullList(old(state), from) ==> Valid(state)
    {
      if destination.None? {
        return;
      }
      if Valid(state) && dragged in FullList(state, from) {
        DragDrop.DragEndKeepsValid(state, query, lower, from, destination, dragged);
      }
      Commit(DragDrop.DragEnd(state, query, lower, from, destination, dragged));
    }

    /** `exportCSV()` up to the CSV text: the rows of the current board. */
    method ExportCsv() returns (r: Result<seq<Csv.ExportRow>>)
      ensures r.Throws? <==> !Csv.AllPlayers(state, Listed(state))
      ensures Valid(state) ==> r.Ok?
      ensures r.Ok? ==> Csv.Exported(state, r.value)
    {
      r := Csv.ExportRows(state);
    }
  }

  /** Undo after a mutation gives back the exact board from before it, and a second undo
      with no mutation in between changes nothing. */
  method AddThenUndoTwice(s: DraftSession, id: Id, name: string, notes: string)
    modifies s
    ensures s.state == old(s.state) && s.lastSnapshot == None
  {
    s.AddPlayer(id, name, notes);
    s.Undo();
    ghost var restored := s.state;
    s.Undo();
    assert s.state == restored;
  }
}
