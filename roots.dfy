/** The multi-tournament root the store persists: tournaments, drafts and the selection, the
    repair pass run on whatever is read back, the v1 migration and the load decision. */
module Roots {
  import opened Js
  import opened Dicts
  import opened Boards
  import opened BoardStates

  /** Timestamps are `Date.now()` milliseconds. */
  type Timestamp = int

  datatype Tournament = Tournament(id: Id, name: string, draftIds: seq<Id>, createdAt: Timestamp, updatedAt: Timestamp)

  /** A draft: its metadata spread together with the fields of its board. */
  datatype Draft = Draft(id: Id, tournamentId: Id, name: string, createdAt: Timestamp, updatedAt: Timestamp,
                         state: BoardState)

  /** `ui`: the selected tournament and draft; the empty string is `undefined`. */
  datatype Selection = Selection(currentTournamentId: Id, currentDraftId: Id)

  datatype Root = Root(version: int, tournaments: Dict<Tournament>, drafts: Dict<Draft>, ui: Selection)

  /** A tournament as read back: `draftIds` is `None` when it is not an array. */
  datatype RawTournament = RawTournament(id: Id, name: string, draftIds: Option<seq<Id>>,
                                         createdAt: Timestamp, updatedAt: Timestamp)

  datatype RawDraft = RawDraft(id: Id, tournamentId: Id, name: string, createdAt: Timestamp, updatedAt: Timestamp,
                               state: RawBoard)

  /** A root as read back: a missing or falsy `tournaments`, `drafts` or `ui` is `None`. */
  datatype RawRoot = RawRoot(version: int, tournaments: Option<Dict<RawTournament>>,
                             drafts: Option<Dict<RawDraft>>, ui: Option<Selection>)

  /** What one call may draw from `generateId()` and `nowTs()`: a tournament id, a draft id,
      the ids of a sample roster, and the time. */
  datatype Fresh = Fresh(tournamentId: Id, draftId: Id, sampleIds: seq<Id>, now: Timestamp)

  ghost predicate FreshOk(f: Fresh)
  {
    && |f.sampleIds| == |SampleNames| && Distinct(f.sampleIds)
    && Truthy(f.tournamentId) && Truthy(f.draftId) && f.tournamentId != f.draftId
  }

  /** The draft `did` exists and belongs to tournament `tid`. */
  predicate DraftOf(drafts: Dict<Draft>, did: Id, tid: Id)
  {
    did in drafts.vals && drafts.vals[did].tournamentId == tid
  }

  /** Every tournament and every draft is stored under its own id, which is a real
      (non-empty) id. */
  ghost predicate Keyed(r: Root)
  {
    && (forall k :: k in r.tournaments.vals ==> Truthy(k))
    && (forall k :: k in r.drafts.vals ==> Truthy(k))
    && (forall k :: k in r.tournaments.vals ==> r.tournaments.vals[k].id == k)
    && (forall k :: k in r.drafts.vals ==> r.drafts.vals[k].id == k)
  }

  /** Every `draftIds` entry names a draft whose `tournamentId` points back. */
  ghost predicate Linked(r: Root)
  {
    forall t, d :: t in r.tournaments.vals && d in r.tournaments.vals[t].draftIds ==> DraftOf(r.drafts, d, t)
  }

  /** Every draft belongs to an existing tournament that lists it. */
  ghost predicate Owned(r: Root)
  {
    forall d :: d in r.drafts.vals ==>
      r.drafts.vals[d].tournamentId in r.tournaments.vals
      && d in r.tournaments.vals[r.drafts.vals[d].tournamentId].draftIds
  }

  /** The selection names an existing tournament and one of its drafts. */
  ghost predicate SelectionOk(r: Root)
  {
    r.ui.currentTournamentId in r.tournaments.vals && DraftOf(r.drafts, r.ui.currentDraftId, r.ui.currentTournamentId)
  }

  /** Every stored board has its four titles. */
  ghost predicate Normalized(r: Root)
  {
    forall d :: d in r.drafts.vals ==> TitlesSet(r.drafts.vals[d].state.titles)
  }

  /** The referential integrity the store aims at, apart from the selection. */
  ghost predicate Integrity(r: Root)
  {
    r.version == 2 && Keyed(r) && Linked(r) && Owned(r) && Normalized(r)
  }

  /** Integrity, and a selection that points at existing entities. */
  ghost predicate Consistent(r: Root)
  {
    Integrity(r) && SelectionOk(r)
  }

  /** A root with one tournament `My Tournament` holding one draft `Draft 1` with the given
      board, both selected: what `createDefaultRoot` and `migrateFromV1` build. */
  function SingleDraftRoot(f: Fresh, state: BoardState): (r: Root)
    requires Truthy(f.tournamentId) && Truthy(f.draftId) && f.tournamentId != f.draftId
    requires TitlesSet(state.titles)
    ensures r.version == 2 && Consistent(r)
    ensures r.tournaments.keys == [f.tournamentId] && r.tournaments.vals[f.tournamentId].draftIds == [f.draftId]
    ensures r.drafts.keys == [f.draftId] && r.drafts.vals[f.draftId].tournamentId == f.tournamentId
    ensures r.drafts.vals[f.draftId].state == state
    ensures r.ui == Selection(f.tournamentId, f.draftId)
  {
    var t, d := f.tournamentId, f.draftId;
    Root(2, DictRep([t], map[t := Tournament(t, "My Tournament", [d], f.now, f.now)]),
         DictRep([d], map[d := Draft(d, t, "Draft 1", f.now, f.now, state)]), Selection(t, d))
  }

  /** `createDefaultRoot()`: the single-draft root around the sample board. */
  function CreateDefaultRoot(f: Fresh): (r: Root)
    requires FreshOk(f)
    ensures Consistent(r) && r.ui == Selection(f.tournamentId, f.draftId)
    ensures r.tournaments.keys == [f.tournamentId] && r.tournaments.vals[f.tournamentId].draftIds == [f.draftId]
    ensures r.drafts.keys == [f.draftId] && r.drafts.vals[f.draftId].tournamentId == f.tournamentId
    ensures r.drafts.vals[f.draftId].state == CreateDefaultBoard(f.sampleIds)
  {
    SingleDraftRoot(f, CreateDefaultBoard(f.sampleIds))
  }

  /** `migrateFromV1(v1)`: the single-draft root around the repaired v1 board. */
  function MigrateFromV1(v1: RawBoard, f: Fresh): (r: Root)
    requires Truthy(f.tournamentId) && Truthy(f.draftId) && f.tournamentId != f.draftId
    ensures Consistent(r) && r.ui == Selection(f.tournamentId, f.draftId)
    ensures r.tournaments.keys == [f.tournamentId] && r.tournaments.vals[f.tournamentId].draftIds == [f.draftId]
    ensures r.drafts.keys == [f.draftId] && r.drafts.vals[f.draftId].tournamentId == f.tournamentId
    ensures r.drafts.vals[f.draftId].state == Normalize(v1)
  {
    SingleDraftRoot(f, Normalize(v1))
  }

  function FixTournament(t: RawTournament): Tournament
  {
    Tournament(t.id, t.name, ListOrEmpty(t.draftIds), t.createdAt, t.updatedAt)
  }

  function FixDraft(d: RawDraft): Draft
  {
    Draft(d.id, d.tournamentId, d.name, d.createdAt, d.updatedAt, Normalize(d.state))
  }

  /** `a[0]`, or `undefined` for an empty array. */
  function First(ids: seq<Id>): Id
  {
    if |ids| > 0 then ids[0] else ""
  }

  /** `keys.find(id => drafts[id].tournamentId === tid)`: the first key, in order, whose
      draft belongs to `tid`, or `undefined` when none does. */
  function FindOwned(keys: seq<Id>, drafts: map<Id, Draft>, tid: Id): (r: Id)
    requires forall k :: k in keys ==> k in drafts
    ensures (r in keys && drafts[r].tournamentId == tid)
            || (r == "" && forall k :: k in keys ==> drafts[k].tournamentId != tid)
    ensures r in keys ==> forall j :: 0 <= j < IndexOf(keys, r) ==> drafts[keys[j]].tournamentId != tid
    decreases |keys|
  {
    if keys == [] then ""
    else if drafts[keys[0]].tournamentId == tid then keys[0]
    else FindOwned(keys[1..], drafts, tid)
  }

  /** The first draft, in key order, that belongs to `tid`. */
  function FindDraft(drafts: Dict<Draft>, tid: Id): (r: Id)
    ensures DraftOf(drafts, r, tid) || (r == "" && forall k :: k in drafts.vals ==> drafts.vals[k].tournamentId != tid)
    ensures r in drafts.keys ==>
              forall j :: 0 <= j < IndexOf(drafts.keys, r) ==> drafts.vals[drafts.keys[j]].tournamentId != tid
  {
    FindOwned(drafts.keys, drafts.vals, tid)
  }

  /** `t.draftIds[0] || <first draft of t>`: the draft selected when the selection is
      repaired or the selected tournament changes. */
  function PickDraft(tournaments: Dict<Tournament>, drafts: Dict<Draft>, tid: Id): Id
    requires tid in tournaments.vals
  {
    Or(First(tournaments.vals[tid].draftIds), FindDraft(drafts, tid))
  }

  /** The tournaments once every `draftIds` is an array, and, when there is no draft at all,
      with the first tournament's `draftIds` replaced by the one new draft. Every other
      field is kept. */
  function RepairedTournaments(raw: Dict<RawTournament>, noDrafts: bool, f: Fresh): (ts: Dict<Tournament>)
    requires |raw.keys| > 0
    ensures ts.keys == raw.keys
    ensures forall k :: k in raw.vals ==>
              ts.vals[k].(draftIds := []) == FixTournament(raw.vals[k]).(draftIds := [])
    ensures forall k :: k in raw.vals && (k != raw.keys[0] || !noDrafts) ==>
              ts.vals[k].draftIds == ListOrEmpty(raw.vals[k].draftIds)
    ensures noDrafts ==> ts.vals[raw.keys[0]].draftIds == [f.draftId]
  {
    var fixed := MapValues(raw, FixTournament);
    if noDrafts then Put(fixed, fixed.keys[0], fixed.vals[fixed.keys[0]].(draftIds := [f.draftId]))
    else fixed
  }

  /** The drafts with every board repaired and every other field kept, and the one new
      sample draft when there was none. */
  function RepairedDrafts(raw: Dict<RawDraft>, firstTid: Id, f: Fresh): (ds: Dict<Draft>)
    requires FreshOk(f)
    ensures ds.keys != [] && forall k :: k in ds.vals ==> TitlesSet(ds.vals[k].state.titles)
    ensures raw.keys != [] ==> ds.keys == raw.keys && forall k :: k in raw.vals ==> ds.vals[k] == FixDraft(raw.vals[k])
    ensures raw.keys == [] ==>
              && ds.keys == [f.draftId]
              && ds.vals[f.draftId] == Draft(f.draftId, firstTid, "Draft 1", f.now, f.now, CreateDefaultBoard(f.sampleIds))
  {
    var fixed := MapValues(raw, FixDraft);
    if |raw.keys| == 0 then
      assert fixed.vals == map[];
      Put(fixed, f.draftId, Draft(f.draftId, firstTid, "Draft 1", f.now, f.now, CreateDefaultBoard(f.sampleIds)))
    else fixed
  }

  /** The selected tournament: kept when it is a real id that exists, otherwise the first. */
  function SelectTournament(ts: Dict<Tournament>, sel: Selection): (tid: Id)
    requires ts.keys != []
    ensures tid in ts.vals
    ensures Truthy(sel.currentTournamentId) && sel.currentTournamentId in ts.vals ==> tid == sel.currentTournamentId
    ensures !(Truthy(sel.currentTournamentId) && sel.currentTournamentId in ts.vals) ==> tid == ts.keys[0]
  {
    if Truthy(sel.currentTournamentId) && sel.currentTournamentId in ts.vals then sel.currentTournamentId
    else assert ts.keys[0] in ts.keys; ts.keys[0]
  }

  /** The selected draft: kept when it is a real id of a draft of `tid`, otherwise
      `PickDraft`. */
  function SelectDraft(ts: Dict<Tournament>, ds: Dict<Draft>, tid: Id, sel: Selection): Id
    requires tid in ts.vals
  {
    if Truthy(sel.currentDraftId) && DraftOf(ds, sel.currentDraftId, tid) then sel.currentDraftId
    else PickDraft(ts, ds, tid)
  }

  /** When the listed drafts of `tid` are real ids of its own drafts and every draft key is
      a real id, `PickDraft` names a draft of `tid` exactly when `tid` has one, and is
      `undefined` otherwise; a non-empty list gives its first entry. */
  lemma PickDraftFinds(ts: Dict<Tournament>, ds: Dict<Draft>, tid: Id)
    requires tid in ts.vals
    requires forall d :: d in ts.vals[tid].draftIds ==> DraftOf(ds, d, tid)
    requires forall k :: k in ds.vals ==> Truthy(k)
    ensures DraftOf(ds, PickDraft(ts, ds, tid), tid) <==> exists k :: DraftOf(ds, k, tid)
    ensures PickDraft(ts, ds, tid) == "" <==> !exists k :: DraftOf(ds, k, tid)
    ensures ts.vals[tid].draftIds != [] ==> PickDraft(ts, ds, tid) == ts.vals[tid].draftIds[0]
  {
    var ids := ts.vals[tid].draftIds;
    if ids != [] {
      assert ids[0] in ids;
    }
  }

  /** The repair of a root that has at least one tournament. */
  function Repair(tournaments: Dict<RawTournament>, drafts: Dict<RawDraft>, sel: Selection, f: Fresh): Root
    requires FreshOk(f) && tournaments.keys != []
  {
    var ts := RepairedTournaments(tournaments, drafts.keys == [], f);
    var ds := RepairedDrafts(drafts, tournaments.keys[0], f);
    var tid := SelectTournament(ts, sel);
    Root(2, ts, ds, Selection(tid, SelectDraft(ts, ds, tid, sel)))
  }

  /** `ensureValidRoot(root)`. */
  function EnsureValidRoot(raw: RawRoot, f: Fresh): Root
    requires FreshOk(f)
  {
    var tournaments := if raw.tournaments.Some? then raw.tournaments.value else Empty();
    if tournaments.keys == [] then CreateDefaultRoot(f)
    else
      Repair(tournaments, if raw.drafts.Some? then raw.drafts.value else Empty(),
             if raw.ui.Some? then raw.ui.value else Selection("", ""), f)
  }

  /** `ensureValidRoot(root)` step by step: every `draftIds` fixed in one loop and every
      board repaired in another, the sample draft added when there is none, and the
      selection repaired. */
  method EnsureValidRootSteps(raw: RawRoot, f: Fresh) returns (r: Root)
    requires FreshOk(f)
    ensures r == EnsureValidRoot(raw, f)
  {
    var tournaments := if raw.tournaments.Some? then raw.tournaments.value else Empty();
    var drafts := if raw.drafts.Some? then raw.drafts.value else Empty();
    var sel := if raw.ui.Some? then raw.ui.value else Selection("", "");
    if tournaments.keys == [] {
      return CreateDefaultRoot(f);
    }
    var ts := MapEach(tournaments, FixTournament);
    var ds := MapEach(drafts, FixDraft);
    if drafts.keys == [] {
      var first := tournaments.keys[0];
      assert first in tournaments.keys;
      ds := Put(ds, f.draftId, Draft(f.draftId, first, "Draft 1", f.now, f.now, CreateDefaultBoard(f.sampleIds)));
      ts := Put(ts, first, ts.vals[first].(draftIds := [f.draftId]));
    }
    var tid := SelectTournament(ts, sel);
    r := Root(2, ts, ds, Selection(tid, SelectDraft(ts, ds, tid, sel)));
  }

  function ToRawTournament(t: Tournament): RawTournament
  {
    RawTournament(t.id, t.name, Some(t.draftIds), t.createdAt, t.updatedAt)
  }

  function ToRawDraft(d: Draft): RawDraft
  {
    RawDraft(d.id, d.tournamentId, d.name, d.createdAt, d.updatedAt, ToRaw(d.state))
  }

  /** A root written out with `saveRoot` and read back as it is. */
  function ToRawRoot(r: Root): RawRoot
  {
    RawRoot(r.version, Some(MapValues(r.tournaments, ToRawTournament)), Some(MapValues(r.drafts, ToRawDraft)),
            Some(r.ui))
  }

  lemma TournamentsRoundTrip(ts: Dict<Tournament>)
    ensures MapValues(MapValues(ts, ToRawTournament), FixTournament) == ts
  {
    var back := MapValues(MapValues(ts, ToRawTournament), FixTournament);
    assert back.vals == ts.vals;
  }

  lemma DraftsRoundTrip(ds: Dict<Draft>)
    requires forall k :: k in ds.vals ==> TitlesSet(ds.vals[k].state.titles)
    ensures MapValues(MapValues(ds, ToRawDraft), FixDraft) == ds
  {
    var back := MapValues(MapValues(ds, ToRawDraft), FixDraft);
    forall k | k in ds.vals ensures back.vals[k] == ds.vals[k] {
      NormalizeFixes(ds.vals[k].state);
    }
    assert back.vals == ds.vals;
  }

  /** With no tournament at all (or none stored), repair starts over from the default root,
      whatever drafts or selection were stored. */
  lemma EnsureValidRootStartsOver(raw: RawRoot, f: Fresh)
    requires FreshOk(f)
    requires raw.tournaments.None? || raw.tournaments.value.keys == []
    ensures EnsureValidRoot(raw, f) == CreateDefaultRoot(f)
  {
  }

  /** Repair keeps every stored tournament, in order, and every stored draft with its
      metadata, turning a non-array `draftIds` into `[]` and repairing every board; when no
      draft is stored, it adds one sample draft under the first tournament, which then lists
      exactly that draft. The version becomes 2 and every board has its titles. */
  lemma EnsureValidRootKeeps(raw: RawRoot, f: Fresh)
    requires FreshOk(f) && raw.tournaments.Some? && raw.tournaments.value.keys != []
    ensures var r := EnsureValidRoot(raw, f);
      var ts, first := raw.tournaments.value, raw.tournaments.value.keys[0];
      var ds := if raw.drafts.Some? then raw.drafts.value else Empty();
      && r.version == 2 && Normalized(r)
      && r.tournaments.keys == ts.keys
      && (forall k :: k in ts.vals ==> r.tournaments.vals[k].(draftIds := []) == FixTournament(ts.vals[k]).(draftIds := []))
      && (forall k :: k in ts.vals && (k != first || ds.keys != []) ==>
            r.tournaments.vals[k].draftIds == ListOrEmpty(ts.vals[k].draftIds))
      && (ds.keys != [] ==> r.drafts.keys == ds.keys && forall k :: k in ds.vals ==> r.drafts.vals[k] == FixDraft(ds.vals[k]))
      && (ds.keys == [] ==>
            && r.drafts.keys == [f.draftId] && r.tournaments.vals[first].draftIds == [f.draftId]
            && r.drafts.vals[f.draftId] == Draft(f.draftId, first, "Draft 1", f.now, f.now, CreateDefaultBoard(f.sampleIds)))
  {
  }

  /** The selected tournament is kept when it is a real id that exists, and is otherwise the
      first one; the selected draft is kept when it is a real id of a draft of that
      tournament, and is otherwise that tournament's first listed draft or, failing that,
      its first draft in key order. */
  lemma EnsureValidRootSelects(raw: RawRoot, f: Fresh)
    requires FreshOk(f) && raw.tournaments.Some? && raw.tournaments.value.keys != []
    ensures var r := EnsureValidRoot(raw, f);
      var sel := if raw.ui.Some? then raw.ui.value else Selection("", "");
      var tid := r.ui.currentTournamentId;
      && tid in r.tournaments.vals
      && (Truthy(sel.currentTournamentId) && sel.currentTournamentId in r.tournaments.vals ==> tid == sel.currentTournamentId)
      && (!(Truthy(sel.currentTournamentId) && sel.currentTournamentId in r.tournaments.vals) ==> tid == r.tournaments.keys[0])
      && (Truthy(sel.currentDraftId) && DraftOf(r.drafts, sel.currentDraftId, tid) ==> r.ui.currentDraftId == sel.currentDraftId)
      && (!(Truthy(sel.currentDraftId) && DraftOf(r.drafts, sel.currentDraftId, tid)) ==>
            r.ui.currentDraftId == PickDraft(r.tournaments, r.drafts, tid))
  {
  }

  /** A consistent root is left exactly as it is by repair. */
  lemma EnsureValidRootFixesConsistent(r: Root, f: Fresh)
    requires FreshOk(f) && Consistent(r)
    ensures EnsureValidRoot(ToRawRoot(r), f) == r
  {
    TournamentsRoundTrip(r.tournaments);
    DraftsRoundTrip(r.drafts);
    assert r.ui.currentTournamentId in r.tournaments.vals;
    assert r.tournaments.keys != [] by {
      assert r.ui.currentTournamentId in r.tournaments.keys;
    }
    assert r.drafts.keys != [] by {
      assert r.ui.currentDraftId in r.drafts.keys;
    }
  }

  /** Repairing a repaired root changes nothing, whatever fresh values the second pass
      could draw. */
  lemma EnsureValidRootIdempotent(raw: RawRoot, f: Fresh, g: Fresh)
    requires FreshOk(f) && FreshOk(g)
    ensures EnsureValidRoot(ToRawRoot(EnsureValidRoot(raw, f)), g) == EnsureValidRoot(raw, f)
  {
    var r := EnsureValidRoot(raw, f);
    if raw.tournaments.None? || raw.tournaments.value.keys == [] {
      EnsureValidRootFixesConsistent(r, g);
    } else {
      RepairIdempotent(raw.tournaments.value, if raw.drafts.Some? then raw.drafts.value else Empty(),
                       if raw.ui.Some? then raw.ui.value else Selection("", ""), f, g);
    }
  }

  /** The non-empty case of `EnsureValidRootIdempotent`: each repair step leaves its own
      output alone. */
  lemma RepairIdempotent(ts: Dict<RawTournament>, ds: Dict<RawDraft>, sel: Selection, f: Fresh, g: Fresh)
    requires FreshOk(f) && FreshOk(g) && ts.keys != []
    ensures EnsureValidRoot(ToRawRoot(Repair(ts, ds, sel, f)), g) == Repair(ts, ds, sel, f)
  {
    var r := Repair(ts, ds, sel, f);
    var raw := ToRawRoot(r);
    assert raw.tournaments.value.keys == r.tournaments.keys == ts.keys;
    assert r.drafts.keys != [];
    assert RepairedTournaments(raw.tournaments.value, raw.drafts.value.keys == [], g) == r.tournaments by {
      TournamentsRoundTrip(r.tournaments);
    }
    assert RepairedDrafts(raw.drafts.value, ts.keys[0], g) == r.drafts by {
      DraftsRoundTrip(r.drafts);
    }
    var tid := r.ui.currentTournamentId;
    assert SelectTournament(r.tournaments, r.ui) == tid;
    assert SelectDraft(r.tournaments, r.drafts, tid, r.ui) == r.ui.currentDraftId;
  }

  /** What `localStorage` held under a key: nothing (or the empty string), text that is not
      JSON, or a parsed value. */
  datatype Stored<T> = Missing | Unparsable | Parsed(value: T)

  /** The root `loadRoot` returns, and whether it wrote it back with `saveRoot`. */
  datatype Loaded = Loaded(root: Root, saved: bool)

  /** `loadRoot()`: a stored v2 root is repaired and returned unsaved; otherwise a stored v1
      board is migrated, or the default root built, and either is saved. Text that does
      not parse lands in the `catch`, which saves the default root. A v1 value of `null`
      is the empty board. */
  function LoadRoot(v2: Stored<RawRoot>, v1: Stored<RawBoard>, f: Fresh): Loaded
    requires FreshOk(f)
  {
    match v2
    case Parsed(root) => Loaded(EnsureValidRoot(root, f), false)
    case Unparsable => Loaded(CreateDefaultRoot(f), true)
    case Missing =>
      match v1
      case Parsed(board) => Loaded(MigrateFromV1(board, f), true)
      case _ => Loaded(CreateDefaultRoot(f), true)
  }

  /** The root is saved exactly when no v2 root was parsed; it always has version 2, a
      selected tournament and repaired boards, a saved root is consistent, and every loaded
      root is one that repair leaves alone. */
  lemma LoadRootOutcome(v2: Stored<RawRoot>, v1: Stored<RawBoard>, f: Fresh, g: Fresh)
    requires FreshOk(f) && FreshOk(g)
    ensures var l := LoadRoot(v2, v1, f);
      && (l.saved <==> !v2.Parsed?)
      && l.root.version == 2 && l.root.ui.currentTournamentId in l.root.tournaments.vals && Normalized(l.root)
      && (l.saved ==> Consistent(l.root))
      && EnsureValidRoot(ToRawRoot(l.root), g) == l.root
  {
    var l := LoadRoot(v2, v1, f);
    if v2.Parsed? {
      var raw := v2.value;
      EnsureValidRootIdempotent(raw, f, g);
      if raw.tournaments.Some? && raw.tournaments.value.keys != [] {
        EnsureValidRootKeeps(raw, f);
        EnsureValidRootSelects(raw, f);
      }
    } else {
      EnsureValidRootFixesConsistent(l.root, g);
    }
  }
}
