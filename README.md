# Squad Draft: board engine and tournament store

Squad Draft is a client-side roster-sorting board. This model covers its two pieces of logic.

**The board engine.** It comes from `App.jsx`, plus the search projection and title rules of `DraftBoard.jsx`.
- A board is a player map plus four ordered id lists: Available, YES, MAYBE and NO.
- Mutators add, edit, remove and un-assign players, and drag them between or within lists.
- Drag-and-drop drops onto a search-filtered view. The drop index is translated into the full list through the id the dragged one lands in front of (the anchor).
- The app keeps the current board and a one-level snapshot for undo. These two state cells are the class `App.DraftSession`.
- CSV import turns parsed rows into players. CSV export flattens the four lists into rows.

**The tournament store.** It comes from `lib/storage.js`.
- A root holds an ordered dictionary of tournaments, an ordered dictionary of drafts (each with its board and column titles), and the selected tournament and draft.
- The repair passes are `normalizeBoardState` and `ensureValidRoot`.
- `loadRoot` branches between v2 data, migration from v1 and a default root.
- The organisational operations add, rename, delete (with cascade), duplicate and move tournaments and drafts.
- Every store function deep-copies its input, so the store is modelled by functions on datatypes.
- The loops of `ensureValidRoot`, `deleteTournament` and `duplicateTournament` are also written as methods, each proved equal to its function.

**Modelling conventions.**
- Ids are strings. The empty string stands for JavaScript `undefined`: an empty selection, a failed `find`, `[][0]`.
- `Object.keys` order is observable ("first tournament"). So tournaments and drafts are a `Dict`: a key sequence in insertion order plus a map.
- A store call takes fresh ids and a timestamp as parameters. These replace `generateId()` and `nowTs()`. Lower-casing is a parameter `lower` as well.
- A call that throws a `TypeError` in JavaScript returns `Throws`.

The model states these integrity properties about a root.
- `Keyed`: every entry sits under its own non-empty id.
- `Linked`: every `draftIds` entry names a draft that points back.
- `Owned`: every draft belongs to a tournament that lists it.
- `SelectionOk`: the selection names a tournament and one of its drafts.

For each operation, the model proves which of these it keeps, and when the selection holds afterwards.

## Model

| member | source | states |
|---|---|---|
| `Js.Without` | squad-draft/src/App.jsx:238 | `filter(x => x !== id)` removes every occurrence of the id. Every other id keeps its membership and its multiplicity. |
| `Js.WithoutSubseq` | squad-draft/src/App.jsx:238-241 | What the filter keeps is an order-preserving subsequence of the original list. |
| `Js.WithoutAbsent` | squad-draft/src/App.jsx:238 | Filtering out an id the list does not hold leaves the list as it is. |
| `Js.KeepPresent` | squad-draft/src/App.jsx:352 | `filter(id => players[id])` keeps exactly the ids that have a player entry, and never lengthens the list. |
| `Js.KeepPresentCount` | squad-draft/src/App.jsx:352-356 | The filter keeps every occurrence of an id with an entry and no occurrence of any other id. |
| `Js.KeepPresentSubseq` | squad-draft/src/App.jsx:352-356 | The filtered list is an order-preserving subsequence of the full list. |
| `Js.KeepPresentAll` | squad-draft/src/App.jsx:352 | When every id has an entry, nothing is filtered out. |
| `Js.KeepPresentConcat` | squad-draft/src/App.jsx:352 | Filtering a concatenation is concatenating the filtered parts. |
| `Js.KeepPresentWithout` | squad-draft/src/App.jsx:352 | Filtering by player entry and removing the dragged id can be done in either order. |
| `Js.IndexOf` | squad-draft/src/App.jsx:413 | `indexOf` returns -1 exactly when the id is absent. Otherwise it returns a position holding the id with no earlier occurrence. |
| `Js.Trim` | squad-draft/src/components/DraftBoard.jsx:185 | `trim()` is the input with white space cut from both ends, and only white space. It is empty exactly when every character is white space. Otherwise it starts and ends with a non-space character, so no more could have been cut. |
| `Boards.SetFullList` | squad-draft/src/App.jsx:387-390 | `setFullList` replaces exactly the named list. The players and the other three lists are unchanged. |
| `Boards.OccurrencesAfterSet` | squad-draft/src/App.jsx:387-390 | Replacing one list changes an id's count across the four lists by the difference between the new list and the old one. |
| `Boards.SampleBoard` | squad-draft/src/App.jsx:177-190 | `defaultState` gives a valid board: one player per sample name under its fresh id, every id in Available in roster order, and empty buckets. |
| `BoardStates.Normalize` | squad-draft/src/lib/storage.js:38-52 | A missing player map becomes `{}`. A missing or non-array list becomes `[]`, each bucket separately. Missing titles become the four defaults, and each empty title becomes its own default `Available`/`YES`/`MAYBE`/`NO`. Every well-formed field is kept, and all four titles end up set. |
| `BoardStates.NormalizeFixes` | squad-draft/src/lib/storage.js:38-52 | Normalizing leaves a stored board unchanged exactly when its four titles are set. |
| `BoardStates.NormalizeIdempotent` | squad-draft/src/lib/storage.js:38-52 | Normalizing twice is the same as normalizing once. |
| `BoardStates.CreateDefaultBoard` | squad-draft/src/lib/storage.js:22-36 | `createDefaultBoard` gives a valid board of 8 players. The player under the i-th fresh id is the i-th sample name (Alice, Bob, Charlie, Deepa, Ethan, Fatima, Ganesh, Hana) with empty notes. All ids are in Available in that order, the buckets are empty, and the titles are exactly the defaults. |
| `BoardStates.CreateEmptyBoard` | squad-draft/src/lib/storage.js:163-170 | `createEmptyBoard` gives no players, four empty lists and titles exactly `Available`/`YES`/`MAYBE`/`NO`. |
| `Search.Filter` | squad-draft/src/App.jsx:348-359 | An empty query gives the board itself. Otherwise the view keeps exactly the players whose lower-cased `name + ' ' + notes` contains the lower-cased query, each with its record unchanged. |
| `Search.FilteredList` | squad-draft/src/App.jsx:352-356 | Each displayed list is an order-preserving subsequence of the full list. It holds every occurrence of the ids that kept a player and nothing else. With an empty query it is the full list. |
| `Search.FilterShows` | squad-draft/src/App.jsx:348-359 | With a query, each displayed list is the full list filtered by the matching players, and which players match depends on the players alone. |
| `Search.FilterKeepsValid` | squad-draft/src/App.jsx:348-359 | The view of a valid board is valid: no player is shown twice, and no id is shown without its player. |
| `Mutations.AddPlayer` | squad-draft/src/App.jsx:216-224 | Defines `addPlayer`. Its contract is `Mutations.AddPlayerKeepsValid`. |
| `Mutations.EditPlayer` | squad-draft/src/App.jsx:226-232 | Defines `editPlayer`. Its contract is `Mutations.EditPlayerKeepsLists`. |
| `Mutations.RemovePlayer` | squad-draft/src/App.jsx:234-244 | Defines `removePlayer`. Its contract is `Mutations.RemovePlayerForgets` and `Mutations.RemovePlayerKeepsOrder`. |
| `Mutations.SendToAvailable` | squad-draft/src/App.jsx:246-255 | Defines `sendToAvailable`. Its contract is `Mutations.SendToAvailableUnassigns`, `Mutations.SendToAvailableCounts` and `Mutations.SendToAvailableKeepsOrder`. |
| `Mutations.HandleRemove` | squad-draft/src/App.jsx:375-381 | Defines `handleRemove`. Its contract is `Mutations.HandleRemoveDispatch`. |
| `Mutations.AddPlayerKeepsValid` | squad-draft/src/App.jsx:216-224 | A new player under a fresh id keeps the board valid. Its id becomes `availableOrder[0]`, in front of the old list. The player map gains exactly the record `{id, name, notes}`, and the buckets and the other players are untouched. |
| `Mutations.EditPlayerKeepsLists` | squad-draft/src/App.jsx:226-232 | `editPlayer` stores the record under its id and moves no id. The player map changes in that one entry only, and a valid board stays valid when the player exists. |
| `Mutations.RemovePlayerForgets` | squad-draft/src/App.jsx:234-244 | After `removePlayer(id)`, the id is gone from the map and from all four lists. The map loses exactly that entry, every other id keeps its count, and validity is kept. |
| `Mutations.RemovePlayerKeepsOrder` | squad-draft/src/App.jsx:238-241 | Each list after removal is an order-preserving subsequence of the list before. |
| `Mutations.SendToAvailableUnassigns` | squad-draft/src/App.jsx:246-255 | `sendToAvailable(id)` takes the id out of YES, MAYBE and NO and leaves it in Available exactly once. The players are unchanged, other ids keep their counts, and a valid board stays valid. |
| `Mutations.SendToAvailableCounts` | squad-draft/src/App.jsx:249-252 | After `sendToAvailable(id)` the id occurs exactly once across the lists, and every other id keeps its count. |
| `Mutations.SendToAvailableKeepsOrder` | squad-draft/src/App.jsx:249-252 | Every bucket keeps its order. An Available list that already held the id is left exactly as it was. Otherwise the id is put at the front of Available. |
| `Mutations.HandleRemoveDispatch` | squad-draft/src/App.jsx:375-381 | `handleRemove` hard-deletes exactly when the id is in Available. Otherwise it keeps the player and sends it to Available. |
| `Csv.RowName` | squad-draft/src/App.jsx:292 | Defines the imported name. Its contract is `Csv.RowNameChoices`. |
| `Csv.RowNotes` | squad-draft/src/App.jsx:292 | Defines the notes `importCSVText` imports. Its contract is `Csv.RowNotesChoices`. |
| `Csv.RowNotesImportCsv` | squad-draft/src/App.jsx:273 | Defines the notes `importCSV` imports. `Csv.ImportCsvDropsCapitalisedNotes` shows how it differs from `Csv.RowNotes`. |
| `Csv.ImportAll` | squad-draft/src/App.jsx:288-296 | Defines the rows added one by one. Its contract is `Csv.ImportOrder`, `Csv.ImportPlayers` and `Csv.ImportKeepsValid`. |
| `Csv.RowNameChoices` | squad-draft/src/App.jsx:292 | An imported name is never empty. It is the first non-empty cell of `name`, `Name` and `NAME`, in that order of precedence, else `Unnamed`. |
| `Csv.RowNotesChoices` | squad-draft/src/App.jsx:292 | Imported notes are the first non-empty cell of `notes`, `Notes` and `NOTES`, in that order of precedence. They are empty exactly when all three are. |
| `Csv.ImportCsvDropsCapitalisedNotes` | squad-draft/src/App.jsx:273 | A row whose notes are headed `Notes` keeps its notes through `importCSVText` and loses them through `importCSV`. |
| `Csv.ImportOrder` | squad-draft/src/App.jsx:290-294 | Each imported id goes to the front of Available in turn. The new ids therefore end up in reverse row order, ahead of the old list, and the buckets are unchanged. |
| `Csv.ImportPlayers` | squad-draft/src/App.jsx:290-294 | Row i becomes the player `{id, name, notes}` under fresh id i. Every existing player is kept. |
| `Csv.ImportKeepsValid` | squad-draft/src/App.jsx:288-296 | Importing under fresh distinct ids keeps a valid board valid. |
| `Csv.ImportRows` | squad-draft/src/App.jsx:290-295 | The `forEach` loop over the rows builds the same board as the one-by-one import. |
| `Csv.PushList` | squad-draft/src/App.jsx:303-307 | Pushing a list keeps the rows already there and appends one row per id, with zero-based positions. It throws exactly when an id has no player. |
| `Csv.ExportRows` | squad-draft/src/App.jsx:301-308 | The export lays out Available, then `yes`, `maybe` and `no`, with one row per entry, a per-list position and the list's key as bucket. It throws exactly when a listed id has no player, so never on a valid board. |
| `DragDrop.DragEnd` | squad-draft/src/App.jsx:396-429 | Defines `onDragEnd`. Its contract is `DragDrop.SameListDrag`, `DragDrop.CrossListDrag`, `DragDrop.DragEndKeepsValid` and `DragDrop.DropShowsAtIndex`. |
| `DragDrop.DropAnchor` | squad-draft/src/App.jsx:406-411 | Defines the anchor read off the filtered view. `DragDrop.AnchorIsListed` states where it occurs. |
| `DragDrop.Place` | squad-draft/src/App.jsx:413-417 | Defines the splice before the anchor. Its contract is `DragDrop.PlaceAt`, `DragDrop.PlaceInserts` and `DragDrop.PlaceBeforeAnchor`. |
| `DragDrop.Anchor` | squad-draft/src/App.jsx:409-411 | The anchor is `undefined` or an id shown in the destination view, and never the dragged id within one list. |
| `DragDrop.InsertIndex` | squad-draft/src/App.jsx:413 | A truthy anchor gives its first position in the full list. A missing one gives the list's end. |
| `DragDrop.PlaceAt` | squad-draft/src/App.jsx:413-417 | The splice puts the dragged id at the insert index, which lies within the list, with the entries before and after it unchanged. |
| `DragDrop.AnchorIsListed` | squad-draft/src/App.jsx:406-413 | A truthy anchor always occurs in the full destination list, so the insert index is never -1. |
| `DragDrop.PlaceInserts` | squad-draft/src/App.jsx:416-417 | The splice adds exactly the dragged id. Removing it again gives back the list before. |
| `DragDrop.PlaceBeforeAnchor` | squad-draft/src/App.jsx:413-417 | The dragged id lands immediately before the anchor, or last when there is no anchor. |
| `DragDrop.SameListDrag` | squad-draft/src/App.jsx:406-418 | A drag within one list permutes that list. The other ids keep their relative order, the dragged id sits in front of the anchor (or last), and the players and other lists are unchanged. |
| `DragDrop.CrossListDrag` | squad-draft/src/App.jsx:419-425 | A drag across lists removes exactly the dragged id from the source and inserts it before the anchor (or last) in the destination. The other two lists and the players are unchanged. |
| `DragDrop.DragEndKeepsValid` | squad-draft/src/App.jsx:396-429 | A drop outside every list changes nothing. Any drag of a listed id keeps every id's count across the lists, so a valid board stays valid. |
| `DragDrop.ReorderUnderFilter` | squad-draft/src/App.jsx:406-418 | Example: with `b` hidden by the query, dragging `d` to the top of the shown list `[a, c, d]` gives the full list `[d, a, b, c]`. |
| `DragDrop.ShownInsert` | squad-draft/src/App.jsx:409-417 | In a list without repeats, inserting in front of the id at position i of the filtered list puts the inserted id at position i of the filtered list, or last when i is past its end. |
| `DragDrop.DropShowsAtIndex` | squad-draft/src/App.jsx:396-429 | For any query, when the dragged id is shown, the displayed destination list after the drop is the displayed list it was dropped on (without the dragged id for a drag within one list), with the dragged id at the drop index, or last past its end. |
| `DraftBoardView.FilterTitledView` | squad-draft/src/components/DraftBoard.jsx:196-207 | The component's projection is the app's search projection, and the titles pass through unchanged. An empty query shows the board itself. Otherwise each list keeps, in order, exactly the ids whose player matched. |
| `DraftBoardView.CommitAvailable` | squad-draft/src/components/DraftBoard.jsx:183-187 | Defines `commitAvailable`. Its contract is `DraftBoardView.CommitAvailableReports` and `DraftBoardView.CommitAvailableTrims`. |
| `DraftBoardView.CommitColumn` | squad-draft/src/components/DraftBoard.jsx:139 | Defines the Column `commit`. Its contract is `DraftBoardView.OnlyAvailableTrims`. |
| `DraftBoardView.CommitAvailableReports` | squad-draft/src/components/DraftBoard.jsx:183-187 | The Available title is reported exactly when the trimmed title (defaulting to `Available`) differs from the current title, where a missing current title counts as `Available`. |
| `DraftBoardView.CommitAvailableTrims` | squad-draft/src/components/DraftBoard.jsx:185 | A reported Available title is non-empty and has no white space at either end. Committing it again reports nothing. |
| `DraftBoardView.OnlyAvailableTrims` | squad-draft/src/components/DraftBoard.jsx:139 | A bucket column reports a blank edit as it is, while the Available column never reports the blank text. |
| `Dicts.MapValues` | squad-draft/src/lib/storage.js:136-138 | Fixing every value keeps the keys and their order, and applies the fix to each value. |
| `Dicts.MapEach` | squad-draft/src/lib/storage.js:157-159 | The loop over `Object.values` builds the same dictionary as fixing every value. |
| `Roots.CreateDefaultRoot` | squad-draft/src/lib/storage.js:54-69 | The result is a consistent root with one tournament listing exactly one draft. The draft has the default board, points back, and both are selected. |
| `Roots.MigrateFromV1` | squad-draft/src/lib/storage.js:71-87 | The same single-draft shape, where the draft's board is the normalized v1 board. |
| `Roots.PickDraft` | squad-draft/src/lib/storage.js:154 | Defines the fallback draft `draftIds[0] \|\| <first owned draft>`. Its contract is `Roots.PickDraftFinds`. |
| `Roots.FindOwned` | squad-draft/src/lib/storage.js:154 | `find` returns a key whose draft belongs to the tournament, and no key before it in order has one; or `undefined` when there is none. |
| `Roots.FindDraft` | squad-draft/src/lib/storage.js:154 | The first draft in key order that belongs to the tournament, or `undefined` when the tournament owns none. |
| `Roots.PickDraftFinds` | squad-draft/src/lib/storage.js:154 | The fallback draft belongs to the tournament exactly when the tournament has a draft. A non-empty `draftIds` gives its first entry. |
| `Roots.RepairedTournaments` | squad-draft/src/lib/storage.js:136-146 | Every tournament keeps its key, order and fields, and a non-array `draftIds` becomes `[]`. With no drafts at all, the first tournament lists only the new draft. |
| `Roots.RepairedDrafts` | squad-draft/src/lib/storage.js:139-159 | Every draft keeps its metadata and gets a normalized board. With no drafts, exactly one sample draft `Draft 1` is created under the first tournament. |
| `Roots.SelectTournament` | squad-draft/src/lib/storage.js:148-150 | The selected tournament is kept when it is a real id that exists. Otherwise the first tournament is selected. |
| `Roots.EnsureValidRoot` | squad-draft/src/lib/storage.js:123-161 | Defines `ensureValidRoot`. Its contract is `Roots.EnsureValidRootStartsOver`, `Roots.EnsureValidRootKeeps`, `Roots.EnsureValidRootSelects`, `Roots.EnsureValidRootFixesConsistent` and `Roots.EnsureValidRootIdempotent`. |
| `Roots.EnsureValidRootSteps` | squad-draft/src/lib/storage.js:123-161 | The loops of `ensureValidRoot` compute the same root as its specification. |
| `Roots.EnsureValidRootStartsOver` | squad-draft/src/lib/storage.js:129-134 | With no tournament, the result is the default root. |
| `Roots.EnsureValidRootKeeps` | squad-draft/src/lib/storage.js:124-146 | The version is 2. Every tournament is kept in order with `draftIds` made an array, and every draft keeps its metadata with a normalized board. When there is no draft, one is added and listed alone by the first tournament. |
| `Roots.EnsureValidRootSelects` | squad-draft/src/lib/storage.js:147-155 | The selected tournament exists afterwards. The selected draft is kept only when it belongs to that tournament; otherwise it becomes `draftIds[0]` or the first draft of that tournament. |
| `Roots.EnsureValidRootFixesConsistent` | squad-draft/src/lib/storage.js:123-161 | A consistent root comes back unchanged. |
| `Roots.EnsureValidRootIdempotent` | squad-draft/src/lib/storage.js:123-161 | Repairing a repaired root changes nothing, whatever fresh values the second pass draws. |
| `Roots.LoadRoot` | squad-draft/src/lib/storage.js:89-112 | Defines `loadRoot`. Its contract is `Roots.LoadRootOutcome`. |
| `Roots.LoadRootOutcome` | squad-draft/src/lib/storage.js:89-112 | A root is saved exactly when no v2 root was parsed, and a saved root is consistent. Every loaded root has version 2, a selected tournament that exists and normalized boards, and repair leaves it alone. |
| `Organize.AddTournament` | squad-draft/src/lib/storage.js:172-184 | Defines `addTournament`. Its contract is `Organize.AddTournamentAddsOne`. |
| `Organize.AddTournamentAddsOne` | squad-draft/src/lib/storage.js:172-184 | The new tournament is named `name` or `Tournament n+1` and comes last. It lists exactly one new empty draft that points back, and both are selected. Nothing else changes, and the result is consistent. |
| `Organize.AddDraft` | squad-draft/src/lib/storage.js:186-196 | Defines `addDraft`, with an empty board. Its contract is `Organize.AddDraftAppends`. |
| `Organize.AddDraftWithBoard` | squad-draft/src/lib/storage.js:198-209 | Defines `addDraftWithBoard`, with a normalized copy of the board. Its contract is `Organize.AddDraftAppends`. |
| `Organize.AddDraftAppends` | squad-draft/src/lib/storage.js:186-209 | An unknown tournament changes nothing. Otherwise the draft (named `name` or `Draft n+1`) is appended to `draftIds` and points back, and only `currentDraftId` changes. This holds for any root with integrity, whatever it selects. Integrity is kept, and the selection holds exactly when the tournament was the selected one. |
| `Organize.RenameTournament` | squad-draft/src/lib/storage.js:211-218 | Defines `renameTournament`. Its contract is `Organize.RenameTournamentOnlyRenames`. |
| `Organize.RenameDraft` | squad-draft/src/lib/storage.js:220-227 | Defines `renameDraft`. Its contract is `Organize.RenameDraftOnlyRenames`. |
| `Organize.RenameTournamentOnlyRenames` | squad-draft/src/lib/storage.js:211-218 | An unknown id changes nothing. A falsy name keeps the old one. Only the name and `updatedAt` change, and consistency is kept. |
| `Organize.RenameDraftOnlyRenames` | squad-draft/src/lib/storage.js:220-227 | The same rules for a draft. |
| `Organize.DeleteAll` | squad-draft/src/lib/storage.js:234-236 | After the cascade, a draft remains exactly when it was there and not listed, and it keeps its value. |
| `Organize.DeleteListed` | squad-draft/src/lib/storage.js:234-236 | The delete loop computes the cascade. |
| `Organize.DeleteTournament` | squad-draft/src/lib/storage.js:229-248 | Defines `deleteTournament`. Its contract is `Organize.DeleteTournamentCascades`. |
| `Organize.DeleteTournamentCascades` | squad-draft/src/lib/storage.js:229-248 | An unknown id changes nothing, and deleting the last tournament gives the default root. Otherwise the tournament and exactly its drafts go, and the others keep their order and contents. The first remaining tournament is selected with its first listed draft, or `undefined` when it lists none. Integrity is kept, and the selection holds exactly when that tournament has a draft. |
| `Organize.DeleteDraft` | squad-draft/src/lib/storage.js:250-271 | Defines `deleteDraft`. Its contract is `Organize.DeleteDraftThrows` and `Organize.DeleteDraftReselects`. |
| `Organize.DeleteDraftThrows` | squad-draft/src/lib/storage.js:256-267 | `deleteDraft` throws exactly when the draft exists and its owner does not. |
| `Organize.DeleteDraftReselects` | squad-draft/src/lib/storage.js:250-271 | The draft leaves the drafts and its owner's list, and everything else is kept. The owner is never left empty: a sample draft refills it. The owner's first draft is selected, integrity is kept, and the selection holds exactly when the owner is the selected tournament. |
| `Organize.DuplicateDraft` | squad-draft/src/lib/storage.js:273-290 | Defines `duplicateDraft`. Its contract is `Organize.DuplicateDraftAppends`. |
| `Organize.DuplicateDraftAppends` | squad-draft/src/lib/storage.js:273-290 | The copy, `Copy of <name>` with the original's owner and board, ends the owner's list and is selected. Nothing else changes, and integrity is kept. |
| `Organize.CopyDraftsCount` | squad-draft/src/lib/storage.js:300-312 | The copy loop makes one copy per listed draft that exists. |
| `Organize.DuplicateTournament` | squad-draft/src/lib/storage.js:292-316 | Defines `duplicateTournament`. Its contract is `Organize.DuplicateTournamentCopies`, `Organize.DuplicateTournamentCopiesAll` and `Organize.DuplicateTournamentKeepsIntegrity`. |
| `Organize.DuplicateTournamentSteps` | squad-draft/src/lib/storage.js:292-316 | The loop computes the same root as the specification of `duplicateTournament`. |
| `Organize.DuplicateTournamentCopies` | squad-draft/src/lib/storage.js:292-316 | The copy `Copy of <name>` comes last. It lists, in order, a copy of each existing listed draft under the fresh ids, each keeping its name and board. Nothing existing changes, and the copy and its first draft are selected. |
| `Organize.DuplicateTournamentCopiesAll` | squad-draft/src/lib/storage.js:300-312 | On a root with integrity, every listed draft gets its copy. |
| `Organize.DuplicateTournamentKeepsIntegrity` | squad-draft/src/lib/storage.js:292-316 | Duplicating keeps integrity. The selection holds exactly when the original tournament had a draft. |
| `Organize.MoveDraft` | squad-draft/src/lib/storage.js:318-330 | Defines `moveDraft`. Its contract is `Organize.MoveDraftRelinks` and `Organize.MoveDraftKeepsIntegrity`. |
| `Organize.MoveDraftRelinks` | squad-draft/src/lib/storage.js:318-330 | An unknown draft or target changes nothing. Otherwise the draft points at the target and ends its list, and the source loses it without being refilled. Nothing else changes, and both are selected. |
| `Organize.MoveDraftKeepsIntegrity` | squad-draft/src/lib/storage.js:318-330 | Moving keeps integrity, and the selection holds afterwards. |
| `App.DraftSession.constructor` | squad-draft/src/App.jsx:193 | The session starts from the stored board, or else the sample board, with no snapshot. |
| `App.DraftSession.Commit` | squad-draft/src/App.jsx:211-214 | `snapshotAnd` saves the board before the change, then installs the new board. |
| `App.DraftSession.AddPlayer` | squad-draft/src/App.jsx:216-224 | The board becomes the added-player board and the old board is snapshotted. A fresh id keeps validity and is first in Available. |
| `App.DraftSession.EditPlayer` | squad-draft/src/App.jsx:226-232 | The edited board is installed with a snapshot, and validity is kept for an existing player. |
| `App.DraftSession.RemovePlayer` | squad-draft/src/App.jsx:234-244 | The id is gone from the map and from every list, validity is kept, and the old board is snapshotted. |
| `App.DraftSession.SendToAvailable` | squad-draft/src/App.jsx:246-255 | The un-assigned board is installed with a snapshot, and validity is kept for an existing player. |
| `App.DraftSession.HandleRemove` | squad-draft/src/App.jsx:375-381 | A player in Available is deleted. Any other player stays and ends up in Available. |
| `App.DraftSession.Undo` | squad-draft/src/App.jsx:257-261 | A snapshot is restored and cleared. Without a snapshot, nothing changes. |
| `App.DraftSession.ImportCsvText` | squad-draft/src/App.jsx:282-299 | The imported board is installed with a snapshot. |
| `App.DraftSession.DragEnd` | squad-draft/src/App.jsx:396-429 | A drop outside every list changes neither cell. Otherwise the dragged board is installed with a snapshot, and validity is kept. |
| `App.DraftSession.ExportCsv` | squad-draft/src/App.jsx:301-308 | The rows are the export of the current board, list by list with per-list positions. Throws exactly when a listed id has no player, so never on a valid board. |
| `App.AddThenUndoTwice` | squad-draft/src/App.jsx:257-261 | Undo after a mutation restores the exact earlier board. A second undo changes nothing. |

## Left out

- Browser storage: `localStorage`, `JSON.parse`/`stringify` and `saveRoot`. Stored text is an input: missing, unparsable or a parsed value. `loadRoot` reports whether it would save. JSON round-tripping is the identity on these values.
- Only a parse failure reaches `loadRoot`'s `catch`. Other throws inside `ensureValidRoot` are not modelled. One example is a tournament value that is not an object, which would fail in strict mode.
- Values that are truthy but not objects are not modelled. `RawBoard` cannot express `titles` or `buckets` as a string or a number. In strict mode, `normalizeBoardState` throws on such a value when it assigns a property of it (storage.js:43-50). So `addDraftWithBoard` and `migrateFromV1` would throw, as would the repair inside `ensureValidRoot`.
- `Dict` keys are own properties only. An id that names an `Object.prototype` member (`constructor`, `toString`, `__proto__`) is found through the prototype by `obj[id]` in JavaScript, but is absent here. Generated ids never collide with these names, so only hand-edited storage can reach this. For such an id, the model's promises differ from the source in four places:
  - `Roots.SelectTournament`, `Roots.EnsureValidRootSelects` and `Roots.LoadRootOutcome` replace it with the first tournament, where storage.js:150 keeps it.
  - `deleteDraft` (storage.js:252) and `duplicateDraft` (storage.js:275) would throw, but the model leaves the root unchanged.
  - `moveDraft` (storage.js:320) would list the draft under it, but the model leaves the root unchanged.
- `generateId` and `nowTs`, and `uuidv4` in the app. Fresh ids and timestamps are parameters, and the lemmas require the ids to be new.
- `toLowerCase` and Unicode case mapping. Lower-casing is the parameter `lower`, and `includes` is a contiguous-substring predicate.
- PapaParse. Import starts from the parsed rows (`header: true`, empty lines skipped), and export stops at the row objects, before the CSV text, Blob and download. PNG and PDF export are not modelled either.
- The debounced save, the dark-mode toggle, `prompt()` in `handleEdit`, and all React rendering and drag-and-drop library wiring. The displayed lists a drop refers to are taken to be the current board's own filtered view.
- The key order of `buckets` is taken to be `yes`, `maybe`, `no`, as the literal creates it. A stored board with its buckets in another order would export them in that order.
- A draft spreads its board fields next to its metadata. Here the board is a separate `state` field, so a board field cannot overwrite a metadata field of the same name.
- `Roots.EnsureValidRootSteps`: the source normalizes boards last, while this method maps them before the selection is repaired. The selection reads only ids and owners, so the result is the same.
- The `App.jsx` board has no titles. Its `defaultState` and `SampleBoard` are the titled `createDefaultBoard` without titles.
- `importCSV` (file input) is modelled only by its notes rule (`Csv.RowNotesImportCsv`). It otherwise behaves as `importCSVText`.
- `Organize.DuplicateTournamentSteps`: the k-th copy takes `newIds[k]` for the k-th listed draft that exists, rather than a fresh id drawn per iteration.

## Findings

| source | as written | input that shows it | evidently intended | confidence | as-written member | corrected member |
|---|---|---|---|---|---|---|
| squad-draft/src/App.jsx:273 | `importCSV` reads notes as `r.notes \|\| r.notes \|\| ''`, so a `Notes` or `NOTES` column is ignored | a row `{ Notes: 'left foot' }` imports with empty notes | `r.notes \|\| r.Notes \|\| r.NOTES \|\| ''`, as in `importCSVText` at line 292 | not executed | `Csv.ImportCsvDropsCapitalisedNotes` | `Csv.RowNotesChoices` |
