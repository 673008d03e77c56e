/** The organisational operations of the store: adding, renaming, deleting, duplicating and
    moving tournaments and drafts. Each starts from a deep copy of the root it is given, so
    each is a function from the old root to the new one. */
module Organize {
  import opened Js
  import opened Dicts
  import opened BoardStates
  import opened Roots

  /** Ids that may be drawn for a new entity: real ids that are not keys yet. */
  ghost predicate FreshTournament(r: Root, id: Id) { Truthy(id) && id !in r.tournaments.vals }

  ghost predicate FreshDraft(r: Root, id: Id) { Truthy(id) && id !in r.drafts.vals }

  /** `addTournament(root, name)`: a tournament named `name`, or `Tournament <n+1>` for
      `n` existing ones, holding one empty draft; both become selected. */
  function AddTournament(r: Root, name: string, tid: Id, did: Id, now: Timestamp): Root
  {
    var tname := Or(name, "Tournament " + NatToString(|r.tournaments.keys| + 1));
    Root(r.version,
         Put(r.tournaments, tid, Tournament(tid, tname, [did], now, now)),
         Put(r.drafts, did, Draft(did, tid, "Draft 1", now, now, CreateEmptyBoard())),
         Selection(tid, did))
  }

  /** The new tournament comes last in key order and lists exactly its one empty draft, which
      points back; both are selected; every other tournament and draft is unchanged, and
      integrity is kept (the selection now holds as well). */
  lemma AddTournamentAddsOne(r: Root, name: string, tid: Id, did: Id, now: Timestamp)
    requires Integrity(r) && FreshTournament(r, tid) && FreshDraft(r, did)
    ensures var r' := AddTournament(r, name, tid, did, now);
      && Consistent(r')
      && r'.tournaments.keys == r.tournaments.keys + [tid] && r'.drafts.keys == r.drafts.keys + [did]
      && r'.tournaments.vals[tid].draftIds == [did] && r'.drafts.vals[did].tournamentId == tid
      && r'.drafts.vals[did].state == CreateEmptyBoard()
      && r'.ui == Selection(tid, did)
      && (Truthy(name) ==> r'.tournaments.vals[tid].name == name)
      && (!Truthy(name) ==> r'.tournaments.vals[tid].name == "Tournament " + NatToString(|r.tournaments.keys| + 1))
      && (forall k :: k in r.tournaments.vals ==> r'.tournaments.vals[k] == r.tournaments.vals[k])
      && (forall k :: k in r.drafts.vals ==> r'.drafts.vals[k] == r.drafts.vals[k])
  {
    AddTournamentConsistent(r, name, tid, did, now);
  }

  lemma AddTournamentConsistent(r: Root, name: string, tid: Id, did: Id, now: Timestamp)
    requires Integrity(r) && FreshTournament(r, tid) && FreshDraft(r, did)
    ensures Consistent(AddTournament(r, name, tid, did, now))
  {
    var r' := AddTournament(r, name, tid, did, now);
    AddTournamentOwned(r, name, tid, did, now);
    assert Linked(r') by {
      forall t, d | t in r'.tournaments.vals && d in r'.tournaments.vals[t].draftIds
        ensures DraftOf(r'.drafts, d, t)
      {
        if t != tid {
          assert DraftOf(r.drafts, d, t);
        }
      }
    }
  }

  lemma AddTournamentOwned(r: Root, name: string, tid: Id, did: Id, now: Timestamp)
    requires Integrity(r) && FreshTournament(r, tid) && FreshDraft(r, did)
    ensures Owned(AddTournament(r, name, tid, did, now))
  {
    var r' := AddTournament(r, name, tid, did, now);
    forall d | d in r'.drafts.vals
      ensures r'.drafts.vals[d].tournamentId in r'.tournaments.vals
      ensures d in r'.tournaments.vals[r'.drafts.vals[d].tournamentId].draftIds
    {
      if d != did {
        assert r.drafts.vals[d].tournamentId in r.tournaments.vals;
      }
    }
  }

  /** `addDraft` and `addDraftWithBoard` once the board is chosen: nothing for an unknown
      tournament, and otherwise a draft named `name`, or `Draft <n+1>` for `n` listed drafts,
      appended to the tournament's `draftIds` and selected as the current draft. */
  function AddDraftOf(r: Root, tid: Id, name: string, state: BoardState, did: Id, now: Timestamp): Root
  {
    if tid !in r.tournaments.vals then r
    else
      var t := r.tournaments.vals[tid];
      var dname := Or(name, "Draft " + NatToString(|t.draftIds| + 1));
      r.(tournaments := Put(r.tournaments, tid, t.(draftIds := t.draftIds + [did])),
         drafts := Put(r.drafts, did, Draft(did, tid, dname, now, now, state)),
         ui := r.ui.(currentDraftId := did))
  }

  /** `addDraft(root, tournamentId, name)`: the new draft has an empty board. */
  function AddDraft(r: Root, tid: Id, name: string, did: Id, now: Timestamp): Root
  {
    AddDraftOf(r, tid, name, CreateEmptyBoard(), did, now)
  }

  /** `addDraftWithBoard(root, tournamentId, name, board)`: the new draft has the repaired
      copy of `board` (a missing board is `NoBoard`). */
  function AddDraftWithBoard(r: Root, tid: Id, name: string, board: RawBoard, did: Id, now: Timestamp): Root
  {
    AddDraftOf(r, tid, name, Normalize(board), did, now)
  }

  /** Adding to an unknown tournament changes nothing. Otherwise the new id ends the
      tournament's `draftIds` and its draft points back; only `currentDraftId` of the
      selection changes; other entries are unchanged; integrity is kept, and the selection
      holds afterwards exactly when the draft went to the selected tournament. The root
      needs integrity only: its selection may already be stale. */
  lemma AddDraftAppends(r: Root, tid: Id, name: string, state: BoardState, did: Id, now: Timestamp)
    requires Integrity(r) && FreshDraft(r, did) && TitlesSet(state.titles)
    ensures var r' := AddDraftOf(r, tid, name, state, did, now);
      && (tid !in r.tournaments.vals ==> r' == r)
      && (tid in r.tournaments.vals ==>
            && Integrity(r')
            && (SelectionOk(r') <==> tid == r.ui.currentTournamentId)
            && r'.tournaments.keys == r.tournaments.keys && r'.drafts.keys == r.drafts.keys + [did]
            && r'.tournaments.vals[tid].draftIds == r.tournaments.vals[tid].draftIds + [did]
            && r'.drafts.vals[did] == Draft(did, tid, r'.drafts.vals[did].name, now, now, state)
            && (Truthy(name) ==> r'.drafts.vals[did].name == name)
            && (!Truthy(name) ==>
                  r'.drafts.vals[did].name == "Draft " + NatToString(|r.tournaments.vals[tid].draftIds| + 1))
            && r'.ui == Selection(r.ui.currentTournamentId, did)
            && (forall k :: k in r.tournaments.vals && k != tid ==> r'.tournaments.vals[k] == r.tournaments.vals[k])
            && (forall k :: k in r.drafts.vals ==> r'.drafts.vals[k] == r.drafts.vals[k]))
  {
    if tid in r.tournaments.vals {
      var r' := AddDraftOf(r, tid, name, state, did, now);
      var d := Draft(did, tid, Or(name, "Draft " + NatToString(|r.tournaments.vals[tid].draftIds| + 1)), now, now, state);
      assert AppendsDraft(r, r', tid, d);
      AppendKeepsIntegrity(r, r', tid, d);
    }
  }

  /** `renameTournament(root, tournamentId, name)`: a falsy name keeps the old one, but
      `updatedAt` is refreshed either way. */
  function RenameTournament(r: Root, tid: Id, name: string, now: Timestamp): Root
  {
    if tid !in r.tournaments.vals then r
    else
      var t := r.tournaments.vals[tid];
      r.(tournaments := Put(r.tournaments, tid, t.(name := Or(name, t.name), updatedAt := now)))
  }

  /** `renameDraft(root, draftId, name)`. */
  function RenameDraft(r: Root, did: Id, name: string, now: Timestamp): Root
  {
    if did !in r.drafts.vals then r
    else
      var d := r.drafts.vals[did];
      r.(drafts := Put(r.drafts, did, d.(name := Or(name, d.name), updatedAt := now)))
  }

  /** Renaming an unknown tournament changes nothing; otherwise only its name and
      `updatedAt` change, the name only when the new one is non-empty, and consistency is
      kept. */
  lemma RenameTournamentOnlyRenames(r: Root, tid: Id, name: string, now: Timestamp)
    ensures var r' := RenameTournament(r, tid, name, now);
      && (tid !in r.tournaments.vals ==> r' == r)
      && (tid in r.tournaments.vals ==>
            var t, t' := r.tournaments.vals[tid], r'.tournaments.vals[tid];
            && t' == t.(name := t'.name, updatedAt := now)
            && t'.name == (if Truthy(name) then name else t.name)
            && r'.tournaments.keys == r.tournaments.keys && r'.drafts == r.drafts && r'.ui == r.ui
            && (forall k :: k in r.tournaments.vals && k != tid ==> r'.tournaments.vals[k] == r.tournaments.vals[k]))
      && (Consistent(r) ==> Consistent(r'))
  {
    if tid in r.tournaments.vals {
      var t := r.tournaments.vals[tid];
      var r' := r.(tournaments := Put(r.tournaments, tid, t.(name := Or(name, t.name), updatedAt := now)));
      assert RenameTournament(r, tid, name, now) == r';
      if Consistent(r) {
        ReplaceTournamentKeepsConsistent(r, r', tid, t.(name := Or(name, t.name), updatedAt := now));
      }
    }
  }

  /** Replacing a tournament by a record with the same id and the same list keeps
      consistency. */
  lemma ReplaceTournamentKeepsConsistent(r: Root, r': Root, tid: Id, t: Tournament)
    requires Consistent(r) && tid in r.tournaments.vals
    requires t.id == tid && t.draftIds == r.tournaments.vals[tid].draftIds
    requires r' == r.(tournaments := Put(r.tournaments, tid, t))
    ensures Consistent(r')
  {
    assert Linked(r') by {
      forall u, d | u in r'.tournaments.vals && d in r'.tournaments.vals[u].draftIds
        ensures DraftOf(r'.drafts, d, u)
      {
        assert d in r.tournaments.vals[u].draftIds;
      }
    }
    assert Owned(r') by {
      forall d | d in r'.drafts.vals
        ensures r'.drafts.vals[d].tournamentId in r'.tournaments.vals
        ensures d in r'.tournaments.vals[r'.drafts.vals[d].tournamentId].draftIds
      {
        assert r.drafts.vals[d].tournamentId in r.tournaments.vals;
      }
    }
  }

  /** Replacing a draft by a record with the same id, owner and board keeps
      consistency. */
  lemma ReplaceDraftKeepsConsistent(r: Root, r': Root, did: Id, d: Draft)
    requires Consistent(r) && did in r.drafts.vals
    requires d.id == did && d.tournamentId == r.drafts.vals[did].tournamentId && d.state == r.drafts.vals[did].state
    requires r' == r.(drafts := Put(r.drafts, did, d))
    ensures Consistent(r')
  {
    assert Linked(r') by {
      forall u, x | u in r'.tournaments.vals && x in r'.tournaments.vals[u].draftIds
        ensures DraftOf(r'.drafts, x, u)
      {
        assert DraftOf(r.drafts, x, u);
      }
    }
    assert Owned(r') by {
      forall x | x in r'.drafts.vals
        ensures r'.drafts.vals[x].tournamentId in r'.tournaments.vals
        ensures x in r'.tournaments.vals[r'.drafts.vals[x].tournamentId].draftIds
      {
        assert r.drafts.vals[x].tournamentId in r.tournaments.vals;
      }
    }
  }

  /** Renaming an unknown draft changes nothing; otherwise only its name and `updatedAt`
      change, the name only when the new one is non-empty, and consistency is kept. */
  lemma RenameDraftOnlyRenames(r: Root, did: Id, name: string, now: Timestamp)
    ensures var r' := RenameDraft(r, did, name, now);
      && (did !in r.drafts.vals ==> r' == r)
      && (did in r.drafts.vals ==>
            var d, d' := r.drafts.vals[did], r'.drafts.vals[did];
            && d' == d.(name := d'.name, updatedAt := now)
            && d'.name == (if Truthy(name) then name else d.name)
            && r'.drafts.keys == r.drafts.keys && r'.tournaments == r.tournaments && r'.ui == r.ui
            && (forall k :: k in r.drafts.vals && k != did ==> r'.drafts.vals[k] == r.drafts.vals[k]))
      && (Consistent(r) ==> Consistent(r'))
  {
    if did in r.drafts.vals {
      var d := r.drafts.vals[did];
      var r' := r.(drafts := Put(r.drafts, did, d.(name := Or(name, d.name), updatedAt := now)));
      assert RenameDraft(r, did, name, now) == r';
      if Consistent(r) {
        ReplaceDraftKeepsConsistent(r, r', did, d.(name := Or(name, d.name), updatedAt := now));
      }
    }
  }

  /** The drafts left once every id of `ids` is deleted, one after another. */
  function DeleteAll(ds: Dict<Draft>, ids: seq<Id>): (r: Dict<Draft>)
    ensures forall k :: k in r.vals <==> k in ds.vals && k !in ids
    ensures forall k :: k in r.vals ==> r.vals[k] == ds.vals[k]
    decreases |ids|
  {
    if ids == [] then ds else DeleteAll(Delete(ds, ids[0]), ids[1..])
  }

  /** The loop of `deleteTournament` that deletes each listed draft. */
  method DeleteListed(ds: Dict<Draft>, ids: seq<Id>) returns (r: Dict<Draft>)
    ensures r == DeleteAll(ds, ids)
  {
    r := ds;
    for i := 0 to |ids|
      invariant DeleteAll(r, ids[i..]) == DeleteAll(ds, ids)
    {
      assert ids[i..][1..] == ids[i + 1..];
      r := Delete(r, ids[i]);
    }
  }

  /** `deleteTournament(root, tournamentId)`: the tournament and its listed drafts go; with
      no tournament left the result is `ensureValidRoot(createDefaultRoot())`, otherwise the
      first remaining tournament and its first draft are selected. */
  function DeleteTournament(r: Root, tid: Id, f: Fresh): Root
    requires FreshOk(f)
  {
    if tid !in r.tournaments.vals then r
    else
      var ds := DeleteAll(r.drafts, r.tournaments.vals[tid].draftIds);
      var ts := Delete(r.tournaments, tid);
      if ts.keys == [] then EnsureValidRoot(ToRawRoot(CreateDefaultRoot(f)), f)
      else
        assert ts.keys[0] in ts.keys;
        Root(r.version, ts, ds, Selection(ts.keys[0], PickDraft(ts, ds, ts.keys[0])))
  }

  /** Deleting an unknown tournament changes nothing. Deleting the last one gives the
      default root. Otherwise the tournament goes, the other tournaments keep their order
      and contents, exactly the drafts that belonged to it go, the first remaining
      tournament and its first listed draft (`undefined` when it lists none) are selected,
      integrity is kept, and the selection holds exactly when that
      tournament has a draft. */
  lemma DeleteTournamentCascades(r: Root, tid: Id, f: Fresh)
    requires FreshOk(f) && Integrity(r)
    ensures var r' := DeleteTournament(r, tid, f);
      && (tid !in r.tournaments.vals ==> r' == r)
      && (tid in r.tournaments.vals && r.tournaments.keys == [tid] ==> r' == CreateDefaultRoot(f))
      && (tid in r.tournaments.vals && r.tournaments.keys != [tid] ==>
            && r'.tournaments.keys == Without(r.tournaments.keys, tid)
            && (forall k :: k in r'.tournaments.vals ==> k != tid && r'.tournaments.vals[k] == r.tournaments.vals[k])
            && (forall k :: k in r'.drafts.vals <==> k in r.drafts.vals && r.drafts.vals[k].tournamentId != tid)
            && (forall k :: k in r'.drafts.vals ==> r'.drafts.vals[k] == r.drafts.vals[k])
            && r'.ui.currentTournamentId == r'.tournaments.keys[0]
            && r'.ui.currentDraftId == First(r'.tournaments.vals[r'.tournaments.keys[0]].draftIds)
            && Integrity(r')
            && (SelectionOk(r') <==> exists k :: DraftOf(r'.drafts, k, r'.tournaments.keys[0])))
  {
    if tid in r.tournaments.vals {
      var ts := Delete(r.tournaments, tid);
      if ts.keys == [] {
        assert r.tournaments.keys == [tid] by {
          WithoutKeys(r.tournaments.keys, tid);
        }
        EnsureValidRootFixesConsistent(CreateDefaultRoot(f), f);
      } else {
        assert r.tournaments.keys != [tid];
        DeleteTournamentKeeps(r, tid, f);
      }
    }
  }

  lemma WithoutKeys(keys: seq<Id>, x: Id)
    requires Distinct(keys) && x in keys && Without(keys, x) == []
    ensures keys == [x]
  {
    assert multiset(keys)[x := 0] == multiset{};
    assert multiset(keys)[x] == 1;
    assert multiset(keys) == multiset{x} by {
      forall y ensures multiset(keys)[y] == multiset{x}[y] {
        if y != x {
          assert multiset(keys)[x := 0][y] == 0;
        }
      }
    }
    assert |keys| == 1;
    assert keys[0] in multiset(keys);
  }

  lemma DeleteTournamentKeeps(r: Root, tid: Id, f: Fresh)
    requires FreshOk(f) && Integrity(r) && tid in r.tournaments.vals && Delete(r.tournaments, tid).keys != []
    ensures var r' := DeleteTournament(r, tid, f);
      && (forall k :: k in r'.drafts.vals <==> k in r.drafts.vals && r.drafts.vals[k].tournamentId != tid)
      && Integrity(r')
      && (SelectionOk(r') <==> exists k :: DraftOf(r'.drafts, k, r'.tournaments.keys[0]))
      && r'.ui.currentDraftId == First(r'.tournaments.vals[r'.tournaments.keys[0]].draftIds)
  {
    var r' := DeleteTournament(r, tid, f);
    var listed := r.tournaments.vals[tid].draftIds;
    forall k ensures k in r'.drafts.vals <==> k in r.drafts.vals && r.drafts.vals[k].tournamentId != tid {
      if k in listed {
        assert DraftOf(r.drafts, k, tid);
      }
    }
    assert Linked(r') by {
      forall t, d | t in r'.tournaments.vals && d in r'.tournaments.vals[t].draftIds
        ensures DraftOf(r'.drafts, d, t)
      {
        assert DraftOf(r.drafts, d, t);
      }
    }
    assert Owned(r');
    var first := r'.tournaments.keys[0];
    PickDraftFinds(r'.tournaments, r'.drafts, first);
    if r'.tournaments.vals[first].draftIds == [] {
      assert !exists k :: DraftOf(r'.drafts, k, first);
    }
  }

  /** `deleteDraft(root, draftId)`: the draft goes and leaves its owner's `draftIds`; the
      owner's next listed draft is selected, or, when it has none, a new sample draft is
      made its only one and selected. With the owner missing there is nothing to make the
      new draft's list on, and the call throws. An unknown draft changes nothing. */
  function DeleteDraft(r: Root, did: Id, f: Fresh): Result<Root>
    requires FreshOk(f)
  {
    if did !in r.drafts.vals then Ok(r)
    else
      var tid := r.drafts.vals[did].tournamentId;
      var ds := Delete(r.drafts, did);
      var ts := if tid in r.tournaments.vals
                then Put(r.tournaments, tid, r.tournaments.vals[tid].(draftIds := Without(r.tournaments.vals[tid].draftIds, did)))
                else r.tournaments;
      var nextDid := if tid in ts.vals then First(ts.vals[tid].draftIds) else "";
      if Truthy(nextDid) then Ok(Root(r.version, ts, ds, r.ui.(currentDraftId := nextDid)))
      else if tid !in ts.vals then Throws
      else
        Ok(Root(r.version, Put(ts, tid, ts.vals[tid].(draftIds := [f.draftId])),
                Put(ds, f.draftId, Draft(f.draftId, tid, "Draft 1", f.now, f.now, CreateDefaultBoard(f.sampleIds))),
                r.ui.(currentDraftId := f.draftId)))
  }

  /** `deleteDraft` throws exactly when the draft exists and its owner does not. */
  lemma DeleteDraftThrows(r: Root, did: Id, f: Fresh)
    requires FreshOk(f)
    ensures DeleteDraft(r, did, f).Throws? <==> did in r.drafts.vals && r.drafts.vals[did].tournamentId !in r.tournaments.vals
  {
  }

  /** On a root with integrity, deleting a draft removes it from the drafts and from its
      owner's list and keeps everything else; the owner is never left without a draft (a
      new sample draft fills an emptied list), its first draft becomes the selected one,
      the selected tournament stays, integrity is kept, and the selection holds exactly
      when the owner is the selected tournament. */
  lemma DeleteDraftReselects(r: Root, did: Id, f: Fresh)
    requires FreshOk(f) && FreshDraft(r, f.draftId) && Integrity(r) && did in r.drafts.vals
    ensures var tid := r.drafts.vals[did].tournamentId;
      var rest := Without(r.tournaments.vals[tid].draftIds, did);
      && DeleteDraft(r, did, f).Ok?
      && var r' := DeleteDraft(r, did, f).value;
      && did !in r'.drafts.vals
      && r'.tournaments.keys == r.tournaments.keys
      && r'.tournaments.vals[tid].draftIds == (if rest != [] then rest else [f.draftId])
      && (rest == [] ==> r'.drafts.vals[f.draftId] == Draft(f.draftId, tid, "Draft 1", f.now, f.now, CreateDefaultBoard(f.sampleIds)))
      && (forall k :: k in r.tournaments.vals && k != tid ==> r'.tournaments.vals[k] == r.tournaments.vals[k])
      && (forall k :: k in r.drafts.vals && k != did ==> k in r'.drafts.vals && r'.drafts.vals[k] == r.drafts.vals[k])
      && r'.ui == Selection(r.ui.currentTournamentId, r'.tournaments.vals[tid].draftIds[0])
      && Integrity(r')
      && (SelectionOk(r') <==> tid == r.ui.currentTournamentId)
  {
    var tid := r.drafts.vals[did].tournamentId;
    if Without(r.tournaments.vals[tid].draftIds, did) != [] {
      DeleteDraftKeepsOthers(r, did, f);
    } else {
      DeleteDraftRefills(r, did, f);
      var r' := DeleteDraft(r, did, f).value;
      assert tid in r.tournaments.vals && r'.drafts.vals[f.draftId].tournamentId == tid;
      assert r'.tournaments.vals[tid].draftIds[0] == f.draftId;
    }
  }

  /** The owner keeps other drafts: the next one is selected. */
  lemma DeleteDraftKeepsOthers(r: Root, did: Id, f: Fresh)
    requires FreshOk(f) && Integrity(r) && did in r.drafts.vals
    requires Without(r.tournaments.vals[r.drafts.vals[did].tournamentId].draftIds, did) != []
    ensures var tid := r.drafts.vals[did].tournamentId;
      var rest := Without(r.tournaments.vals[tid].draftIds, did);
      && DeleteDraft(r, did, f) == Ok(r.(tournaments := Put(r.tournaments, tid, r.tournaments.vals[tid].(draftIds := rest)),
                                          drafts := Delete(r.drafts, did), ui := r.ui.(currentDraftId := rest[0])))
      && Integrity(DeleteDraft(r, did, f).value)
      && DraftOf(DeleteDraft(r, did, f).value.drafts, rest[0], tid)
  {
    var tid := r.drafts.vals[did].tournamentId;
    var rest := Without(r.tournaments.vals[tid].draftIds, did);
    var r' := r.(tournaments := Put(r.tournaments, tid, r.tournaments.vals[tid].(draftIds := rest)),
                 drafts := Delete(r.drafts, did), ui := r.ui.(currentDraftId := rest[0]));
    assert tid in r.tournaments.vals;
    assert DraftOf(r.drafts, rest[0], tid) && rest[0] != did by {
      assert rest[0] in rest;
    }
    assert Truthy(rest[0]);
    assert DeleteDraft(r, did, f) == Ok(r');
    UnlistKeepsIntegrity(r, r', did);
  }

  /** `r'` is `r` with the draft `did` deleted and taken out of the list of its owner,
      which exists. */
  ghost predicate UnlistsDraft(r: Root, r': Root, did: Id)
  {
    && did in r.drafts.vals && r.drafts.vals[did].tournamentId in r.tournaments.vals
    && var tid := r.drafts.vals[did].tournamentId;
       && r'.version == r.version
       && r'.tournaments == Put(r.tournaments, tid, r.tournaments.vals[tid].(draftIds := Without(r.tournaments.vals[tid].draftIds, did)))
       && r'.drafts == Delete(r.drafts, did)
  }

  /** Deleting a draft and taking it out of its owner's list keeps integrity. */
  lemma UnlistKeepsIntegrity(r: Root, r': Root, did: Id)
    requires Integrity(r) && UnlistsDraft(r, r', did)
    ensures Integrity(r')
  {
    UnlistKeepsKeyed(r, r', did);
    UnlistKeepsLinked(r, r', did);
    UnlistKeepsOwned(r, r', did);
  }

  lemma UnlistKeepsKeyed(r: Root, r': Root, did: Id)
    requires Keyed(r) && Normalized(r) && UnlistsDraft(r, r', did)
    ensures Keyed(r') && Normalized(r')
  {
  }

  lemma UnlistKeepsLinked(r: Root, r': Root, did: Id)
    requires Linked(r) && UnlistsDraft(r, r', did)
    ensures Linked(r')
  {
    forall u, d | u in r'.tournaments.vals && d in r'.tournaments.vals[u].draftIds
      ensures DraftOf(r'.drafts, d, u)
    {
      assert DraftOf(r.drafts, d, u);
    }
  }

  lemma UnlistKeepsOwned(r: Root, r': Root, did: Id)
    requires Owned(r) && UnlistsDraft(r, r', did)
    ensures Owned(r')
  {
    forall d | d in r'.drafts.vals
      ensures r'.drafts.vals[d].tournamentId in r'.tournaments.vals
      ensures d in r'.tournaments.vals[r'.drafts.vals[d].tournamentId].draftIds
    {
      assert r.drafts.vals[d].tournamentId in r.tournaments.vals;
    }
  }

  /** The owner had no other draft: a new sample draft becomes its only one. */
  lemma DeleteDraftRefills(r: Root, did: Id, f: Fresh)
    requires FreshOk(f) && FreshDraft(r, f.draftId) && Integrity(r) && did in r.drafts.vals
    requires Without(r.tournaments.vals[r.drafts.vals[did].tournamentId].draftIds, did) == []
    ensures var tid := r.drafts.vals[did].tournamentId;
      var ds := Delete(r.drafts, did);
      && DeleteDraft(r, did, f)
         == Ok(r.(tournaments := Put(r.tournaments, tid, r.tournaments.vals[tid].(draftIds := [f.draftId])),
                  drafts := Put(ds, f.draftId, Draft(f.draftId, tid, "Draft 1", f.now, f.now, CreateDefaultBoard(f.sampleIds))),
                  ui := r.ui.(currentDraftId := f.draftId)))
      && Integrity(DeleteDraft(r, did, f).value)
  {
    DeleteDraftRefillResult(r, did, f);
    RefillKeepsIntegrity(r, did, f);
  }

  /** Deleting the only draft of its owner and listing a new sample draft alone keeps
      integrity. */
  lemma RefillKeepsIntegrity(r: Root, did: Id, f: Fresh)
    requires FreshOk(f) && FreshDraft(r, f.draftId) && Integrity(r) && did in r.drafts.vals
    requires Without(r.tournaments.vals[r.drafts.vals[did].tournamentId].draftIds, did) == []
    ensures var tid := r.drafts.vals[did].tournamentId;
      Integrity(r.(tournaments := Put(r.tournaments, tid, r.tournaments.vals[tid].(draftIds := [f.draftId])),
                   drafts := Put(Delete(r.drafts, did), f.draftId, Draft(f.draftId, tid, "Draft 1", f.now, f.now, CreateDefaultBoard(f.sampleIds))),
                   ui := r.ui.(currentDraftId := f.draftId)))
  {
    var tid := r.drafts.vals[did].tournamentId;
    var t := r.tournaments.vals[tid];
    assert tid in r.tournaments.vals;
    var mid := r.(tournaments := Put(r.tournaments, tid, t.(draftIds := Without(t.draftIds, did))),
                  drafts := Delete(r.drafts, did));
    UnlistKeepsIntegrity(r, mid, did);
    var d := Draft(f.draftId, tid, "Draft 1", f.now, f.now, CreateDefaultBoard(f.sampleIds));
    var r' := r.(tournaments := Put(r.tournaments, tid, t.(draftIds := [f.draftId])), drafts := Put(mid.drafts, f.draftId, d),
                 ui := r.ui.(currentDraftId := f.draftId));
    assert mid.tournaments.vals[tid].draftIds == [];
    assert r'.tournaments == Put(mid.tournaments, tid, mid.tournaments.vals[tid].(draftIds := [f.draftId])) by {
      assert mid.tournaments.vals[tid].(draftIds := [f.draftId]) == t.(draftIds := [f.draftId]);
      PutTwice(r.tournaments, tid, t.(draftIds := Without(t.draftIds, did)), t.(draftIds := [f.draftId]));
    }
    assert [] + [d.id] == [f.draftId];
    AppendKeepsIntegrity(mid, r', tid, d);
  }

  lemma DeleteDraftRefillResult(r: Root, did: Id, f: Fresh)
    requires FreshOk(f) && Integrity(r) && did in r.drafts.vals
    requires Without(r.tournaments.vals[r.drafts.vals[did].tournamentId].draftIds, did) == []
    ensures var tid := r.drafts.vals[did].tournamentId;
      DeleteDraft(r, did, f)
      == Ok(r.(tournaments := Put(r.tournaments, tid, r.tournaments.vals[tid].(draftIds := [f.draftId])),
               drafts := Put(Delete(r.drafts, did), f.draftId, Draft(f.draftId, tid, "Draft 1", f.now, f.now, CreateDefaultBoard(f.sampleIds))),
               ui := r.ui.(currentDraftId := f.draftId)))
  {
    var tid := r.drafts.vals[did].tournamentId;
    var t := r.tournaments.vals[tid];
    assert tid in r.tournaments.vals;
    var t2 := t.(draftIds := [f.draftId]);
    var mid := r.(tournaments := Put(r.tournaments, tid, t.(draftIds := Without(t.draftIds, did))),
                  drafts := Delete(r.drafts, did));
    assert mid.tournaments.vals[tid].(draftIds := [f.draftId]) == t2;
    PutTwice(r.tournaments, tid, t.(draftIds := Without(t.draftIds, did)), t2);
    assert First(mid.tournaments.vals[tid].draftIds) == "";
  }

  /** `r'` is `r` with the new draft `d` stored and appended to the list of its owner
      `tid`, which exists. */
  ghost predicate AppendsDraft(r: Root, r': Root, tid: Id, d: Draft)
  {
    && tid in r.tournaments.vals && d.tournamentId == tid && d.id !in r.drafts.vals
    && r'.version == r.version
    && r'.tournaments == Put(r.tournaments, tid, r.tournaments.vals[tid].(draftIds := r.tournaments.vals[tid].draftIds + [d.id]))
    && r'.drafts == Put(r.drafts, d.id, d)
  }

  /** Listing a new draft with a real id and a repaired board at the end of its owner's
      list keeps integrity. */
  lemma AppendKeepsIntegrity(r: Root, r': Root, tid: Id, d: Draft)
    requires Integrity(r) && AppendsDraft(r, r', tid, d) && Truthy(d.id) && TitlesSet(d.state.titles)
    ensures Integrity(r')
  {
    AppendKeepsKeyed(r, r', tid, d);
    AppendKeepsLinked(r, r', tid, d);
    AppendKeepsOwned(r, r', tid, d);
  }

  lemma AppendKeepsKeyed(r: Root, r': Root, tid: Id, d: Draft)
    requires Keyed(r) && Normalized(r) && AppendsDraft(r, r', tid, d) && Truthy(d.id) && TitlesSet(d.state.titles)
    ensures Keyed(r') && Normalized(r')
  {
  }

  lemma AppendKeepsLinked(r: Root, r': Root, tid: Id, d: Draft)
    requires Linked(r) && AppendsDraft(r, r', tid, d)
    ensures Linked(r')
  {
    forall u, x | u in r'.tournaments.vals && x in r'.tournaments.vals[u].draftIds
      ensures DraftOf(r'.drafts, x, u)
    {
      if x != d.id {
        assert x in r.tournaments.vals[u].draftIds;
        assert DraftOf(r.drafts, x, u);
      }
    }
  }

  lemma AppendKeepsOwned(r: Root, r': Root, tid: Id, d: Draft)
    requires Owned(r) && AppendsDraft(r, r', tid, d)
    ensures Owned(r')
  {
    forall x | x in r'.drafts.vals
      ensures r'.drafts.vals[x].tournamentId in r'.tournaments.vals
      ensures x in r'.tournaments.vals[r'.drafts.vals[x].tournamentId].draftIds
    {
      if x != d.id {
        assert r.drafts.vals[x].tournamentId in r.tournaments.vals;
      }
    }
  }

  /** `duplicateDraft(root, draftId)`: a copy named `Copy of <name>` (or `Copy of Draft`)
      with fresh timestamps, appended to its owner's list when the owner exists, and
      selected. */
  function DuplicateDraft(r: Root, did: Id, newId: Id, now: Timestamp): Root
  {
    if did !in r.drafts.vals then r
    else
      var src := r.drafts.vals[did];
      var copy := src.(id := newId, name := "Copy of " + Or(src.name, "Draft"), createdAt := now, updatedAt := now);
      var tid := src.tournamentId;
      var ts := if tid in r.tournaments.vals
                then Put(r.tournaments, tid, r.tournaments.vals[tid].(draftIds := r.tournaments.vals[tid].draftIds + [newId]))
                else r.tournaments;
      Root(r.version, ts, Put(r.drafts, newId, copy), r.ui.(currentDraftId := newId))
  }

  /** Duplicating an unknown draft changes nothing. Otherwise the copy has the original's
      owner and board, ends the owner's list and is selected; nothing else changes, integrity
      is kept, and the selection holds exactly when the owner is the selected tournament. */
  lemma DuplicateDraftAppends(r: Root, did: Id, newId: Id, now: Timestamp)
    requires Integrity(r) && FreshDraft(r, newId)
    ensures var r' := DuplicateDraft(r, did, newId, now);
      && (did !in r.drafts.vals ==> r' == r)
      && (did in r.drafts.vals ==>
            var src := r.drafts.vals[did];
            && r'.drafts.keys == r.drafts.keys + [newId]
            && r'.drafts.vals[newId] == Draft(newId, src.tournamentId, "Copy of " + Or(src.name, "Draft"), now, now, src.state)
            && r'.tournaments.keys == r.tournaments.keys
            && r'.tournaments.vals[src.tournamentId].draftIds == r.tournaments.vals[src.tournamentId].draftIds + [newId]
            && (forall k :: k in r.tournaments.vals && k != src.tournamentId ==> r'.tournaments.vals[k] == r.tournaments.vals[k])
            && (forall k :: k in r.drafts.vals ==> r'.drafts.vals[k] == r.drafts.vals[k])
            && r'.ui == Selection(r.ui.currentTournamentId, newId)
            && Integrity(r')
            && (SelectionOk(r') <==> src.tournamentId == r.ui.currentTournamentId))
  {
    if did in r.drafts.vals {
      var r' := DuplicateDraft(r, did, newId, now);
      var src := r.drafts.vals[did];
      assert src.tournamentId in r.tournaments.vals;
      var copy := src.(id := newId, name := "Copy of " + Or(src.name, "Draft"), createdAt := now, updatedAt := now);
      assert AppendsDraft(r, r', src.tournamentId, copy);
      AppendKeepsIntegrity(r, r', src.tournamentId, copy);
    }
  }

  /** A draft copied into tournament `newTid` under id `id`: name and board kept, fresh
      timestamps. */
  function CopyOf(src: Draft, id: Id, newTid: Id, now: Timestamp): Draft
  {
    src.(id := id, tournamentId := newTid, createdAt := now, updatedAt := now)
  }

  /** The drafts and the ids of the copies made so far by the copy loop of
      `duplicateTournament`. */
  datatype Copies = Copies(drafts: Dict<Draft>, ids: seq<Id>)

  /** The copy loop as a recursion over the listed ids: a listed draft that exists is copied
      under the next fresh id; a listed id without a draft is skipped and uses up no id. */
  function CopyDrafts(ds: Dict<Draft>, listed: seq<Id>, newTid: Id, newIds: seq<Id>, now: Timestamp): (c: Copies)
    requires |listed| <= |newIds|
    ensures |c.ids| <= |listed| && c.ids == newIds[..|c.ids|]
    decreases |listed|
  {
    if listed == [] then Copies(ds, [])
    else if listed[0] !in ds.vals then CopyDrafts(ds, listed[1..], newTid, newIds, now)
    else
      var rest := CopyDrafts(Put(ds, newIds[0], CopyOf(ds.vals[listed[0]], newIds[0], newTid, now)),
                             listed[1..], newTid, newIds[1..], now);
      assert [newIds[0]] + newIds[1..][..|rest.ids|] == newIds[..|rest.ids| + 1];
      Copies(rest.drafts, [newIds[0]] + rest.ids)
  }

  /** Fresh ids that are new, distinct and not listed. */
  ghost predicate NewIds(ds: Dict<Draft>, listed: seq<Id>, newIds: seq<Id>)
  {
    |listed| <= |newIds| && Distinct(newIds) && forall x :: x in newIds ==> x !in ds.vals && x !in listed
  }

  lemma NewIdsTail(ds: Dict<Draft>, listed: seq<Id>, newIds: seq<Id>, newTid: Id, now: Timestamp)
    requires NewIds(ds, listed, newIds) && listed != [] && listed[0] in ds.vals
    ensures NewIds(Put(ds, newIds[0], CopyOf(ds.vals[listed[0]], newIds[0], newTid, now)), listed[1..], newIds[1..])
    ensures newIds[0] !in ds.vals && newIds[0] !in listed[1..] && newIds[0] !in newIds[1..]
  {
    DistinctTail(newIds);
    assert newIds[0] in newIds;
    forall x | x in newIds[1..] ensures x !in ds.vals && x != newIds[0] && x !in listed[1..] {
      assert x in newIds;
    }
  }

  /** One copy is made per listed draft that exists. Only the fresh ids not being listed
      matters here. */
  lemma {:induction false} CopyDraftsCount(ds: Dict<Draft>, listed: seq<Id>, newTid: Id, newIds: seq<Id>, now: Timestamp)
    requires |listed| <= |newIds| && forall x :: x in newIds ==> x !in listed
    ensures |CopyDrafts(ds, listed, newTid, newIds, now).ids| == |KeepPresent(listed, ds.vals)|
    decreases |listed|
  {
    if listed != [] {
      if listed[0] !in ds.vals {
        CopyDraftsCount(ds, listed[1..], newTid, newIds, now);
      } else {
        var copy := CopyOf(ds.vals[listed[0]], newIds[0], newTid, now);
        assert newIds[0] in newIds;
        forall x | x in newIds[1..] ensures x !in listed[1..] {
          assert x in newIds;
        }
        CopyDraftsCount(Put(ds, newIds[0], copy), listed[1..], newTid, newIds[1..], now);
        KeepPresentIgnores(listed[1..], ds.vals, newIds[0], copy);
      }
    }
  }

  /** The copies' keys come after the existing ones, which keep their drafts. */
  lemma {:induction false} CopyDraftsKeeps(ds: Dict<Draft>, listed: seq<Id>, newTid: Id, newIds: seq<Id>, now: Timestamp)
    requires NewIds(ds, listed, newIds)
    ensures var c := CopyDrafts(ds, listed, newTid, newIds, now);
      && c.drafts.keys == ds.keys + c.ids
      && (forall k :: k in ds.vals ==> c.drafts.vals[k] == ds.vals[k])
    decreases |listed|
  {
    if listed != [] {
      if listed[0] !in ds.vals {
        CopyDraftsKeeps(ds, listed[1..], newTid, newIds, now);
      } else {
        var copy := CopyOf(ds.vals[listed[0]], newIds[0], newTid, now);
        var ds' := Put(ds, newIds[0], copy);
        NewIdsTail(ds, listed, newIds, newTid, now);
        CopyDraftsKeeps(ds', listed[1..], newTid, newIds[1..], now);
        var rest := CopyDrafts(ds', listed[1..], newTid, newIds[1..], now);
        assert ds'.keys + rest.ids == ds.keys + ([newIds[0]] + rest.ids);
      }
    }
  }

  /** The i-th copy is the i-th listed draft that exists, with its name and board, moved
      into the new tournament under the i-th fresh id. */
  lemma {:induction false} CopyDraftsCopies(ds: Dict<Draft>, listed: seq<Id>, newTid: Id, newIds: seq<Id>, now: Timestamp)
    requires NewIds(ds, listed, newIds)
    ensures var c, present := CopyDrafts(ds, listed, newTid, newIds, now), KeepPresent(listed, ds.vals);
      && |c.ids| == |present|
      && (forall i :: 0 <= i < |c.ids| ==> c.ids[i] in c.drafts.vals)
      && forall i :: 0 <= i < |present| ==> c.drafts.vals[c.ids[i]] == CopyOf(ds.vals[present[i]], c.ids[i], newTid, now)
    decreases |listed|
  {
    CopyDraftsCount(ds, listed, newTid, newIds, now);
    CopyDraftsKeeps(ds, listed, newTid, newIds, now);
    if listed != [] {
      if listed[0] !in ds.vals {
        CopyDraftsCopies(ds, listed[1..], newTid, newIds, now);
      } else {
        var copy := CopyOf(ds.vals[listed[0]], newIds[0], newTid, now);
        var ds' := Put(ds, newIds[0], copy);
        NewIdsTail(ds, listed, newIds, newTid, now);
        CopyDraftsCopies(ds', listed[1..], newTid, newIds[1..], now);
        CopyDraftsCount(ds', listed[1..], newTid, newIds[1..], now);
        CopyDraftsKeeps(ds', listed[1..], newTid, newIds[1..], now);
        KeepPresentIgnores(listed[1..], ds.vals, newIds[0], copy);
        var c := CopyDrafts(ds, listed, newTid, newIds, now);
        var present := KeepPresent(listed, ds.vals);
        assert present == [listed[0]] + KeepPresent(listed[1..], ds.vals);
        forall i | 0 <= i < |present|
          ensures c.drafts.vals[c.ids[i]] == CopyOf(ds.vals[present[i]], c.ids[i], newTid, now)
        {
          if i > 0 {
            assert present[i] in listed[1..];
          }
        }
      }
    }
  }

  /** `duplicateTournament(root, tournamentId)`: a tournament `Copy of <name>` (or `Copy of
      Tournament`) holding a copy of each listed draft that exists, selected together with
      its first draft (`undefined` when it has none). The k-th copy takes `newIds[k]`. */
  function DuplicateTournament(r: Root, tid: Id, newTid: Id, newIds: seq<Id>, now: Timestamp): Root
    requires tid in r.tournaments.vals ==> |r.tournaments.vals[tid].draftIds| <= |newIds|
  {
    if tid !in r.tournaments.vals then r
    else
      var t := r.tournaments.vals[tid];
      var c := CopyDrafts(r.drafts, t.draftIds, newTid, newIds, now);
      Root(r.version, Put(r.tournaments, newTid, Tournament(newTid, "Copy of " + Or(t.name, "Tournament"), c.ids, now, now)),
           c.drafts, Selection(newTid, First(c.ids)))
  }

  /** `duplicateTournament` step by step: one copy per listed draft that exists, each id
      pushed onto the new tournament's list (`ids` here), which is stored at the end. */
  method DuplicateTournamentSteps(r: Root, tid: Id, newTid: Id, newIds: seq<Id>, now: Timestamp) returns (r': Root)
    requires tid in r.tournaments.vals ==> |r.tournaments.vals[tid].draftIds| <= |newIds|
    ensures r' == DuplicateTournament(r, tid, newTid, newIds, now)
  {
    if tid !in r.tournaments.vals {
      return r;
    }
    var t := r.tournaments.vals[tid];
    var listed := t.draftIds;
    var drafts := r.drafts;
    var ids: seq<Id> := [];
    ghost var goal := CopyDrafts(r.drafts, listed, newTid, newIds, now);
    assert listed[0..] == listed && newIds[0..] == newIds;
    for i := 0 to |listed|
      invariant CopyLoop(goal, drafts, listed, i, ids, newTid, newIds, now)
    {
      if listed[i] in drafts.vals {
        var id := newIds[|ids|];
        CopyLoopCopies(goal, drafts, listed, i, ids, newTid, newIds, now);
        drafts := Put(drafts, id, CopyOf(drafts.vals[listed[i]], id, newTid, now));
        ids := ids + [id];
      } else {
        CopyLoopSkips(goal, drafts, listed, i, ids, newTid, newIds, now);
      }
    }
    CopyLoopDone(goal, drafts, listed, ids, newTid, newIds, now);
    r' := Root(r.version, Put(r.tournaments, newTid, Tournament(newTid, "Copy of " + Or(t.name, "Tournament"), ids, now, now)),
               drafts, Selection(newTid, First(ids)));
  }

  /** The copy loop's invariant: copying the rest of the list from the current drafts,
      after the ids pushed so far, gives the copies of the whole list. */
  ghost predicate CopyLoop(goal: Copies, ds: Dict<Draft>, listed: seq<Id>, i: nat, ids: seq<Id>, newTid: Id,
                           newIds: seq<Id>, now: Timestamp)
  {
    && |ids| <= i <= |listed| <= |newIds|
    && var rest := CopyDrafts(ds, listed[i..], newTid, newIds[|ids|..], now);
       goal == Copies(rest.drafts, ids + rest.ids)
  }

  /** A turn of the copy loop over a listed draft that exists. */
  lemma CopyLoopCopies(goal: Copies, ds: Dict<Draft>, listed: seq<Id>, i: nat, ids: seq<Id>, newTid: Id,
                       newIds: seq<Id>, now: Timestamp)
    requires CopyLoop(goal, ds, listed, i, ids, newTid, newIds, now) && i < |listed| && listed[i] in ds.vals
    ensures var id := newIds[|ids|];
      CopyLoop(goal, Put(ds, id, CopyOf(ds.vals[listed[i]], id, newTid, now)), listed, i + 1, ids + [id], newTid, newIds, now)
  {
    var n := |ids|;
    assert listed[i..][1..] == listed[i + 1..];
    assert newIds[n..][1..] == newIds[n + 1..];
    var ds' := Put(ds, newIds[n], CopyOf(ds.vals[listed[i]], newIds[n], newTid, now));
    var rest := CopyDrafts(ds', listed[i + 1..], newTid, newIds[n + 1..], now);
    assert CopyDrafts(ds, listed[i..], newTid, newIds[n..], now) == Copies(rest.drafts, [newIds[n]] + rest.ids);
    assert ids + ([newIds[n]] + rest.ids) == (ids + [newIds[n]]) + rest.ids;
    assert (ids + [newIds[n]]) == ids + [newIds[|ids|]] && |ids + [newIds[n]]| == n + 1;
  }

  /** A turn of the copy loop over a listed id without a draft. */
  lemma CopyLoopSkips(goal: Copies, ds: Dict<Draft>, listed: seq<Id>, i: nat, ids: seq<Id>, newTid: Id,
                      newIds: seq<Id>, now: Timestamp)
    requires CopyLoop(goal, ds, listed, i, ids, newTid, newIds, now) && i < |listed| && listed[i] !in ds.vals
    ensures CopyLoop(goal, ds, listed, i + 1, ids, newTid, newIds, now)
  {
    assert listed[i..][1..] == listed[i + 1..];
  }

  /** When the loop ends, the drafts and ids it built are the copies. */
  lemma CopyLoopDone(goal: Copies, ds: Dict<Draft>, listed: seq<Id>, ids: seq<Id>, newTid: Id,
                     newIds: seq<Id>, now: Timestamp)
    requires CopyLoop(goal, ds, listed, |listed|, ids, newTid, newIds, now)
    ensures goal == Copies(ds, ids)
  {
    assert listed[|listed|..] == [];
    assert ids + [] == ids;
  }

  /** Duplicating an unknown tournament changes nothing. Otherwise the copy comes last in key
      order, named `Copy of <name>`; it lists one copy per listed draft that exists, in list
      order, under the fresh ids in order, each keeping the original's name and board; every
      existing tournament and draft is unchanged; the copy and its first draft are
      selected. */
  lemma DuplicateTournamentCopies(r: Root, tid: Id, newTid: Id, newIds: seq<Id>, now: Timestamp)
    requires newTid !in r.tournaments.vals
    requires tid in r.tournaments.vals ==> NewIds(r.drafts, r.tournaments.vals[tid].draftIds, newIds)
    ensures var r' := DuplicateTournament(r, tid, newTid, newIds, now);
      && (tid !in r.tournaments.vals ==> r' == r)
      && (tid in r.tournaments.vals ==>
            var t := r.tournaments.vals[tid];
            var present := KeepPresent(t.draftIds, r.drafts.vals);
            var ids := newIds[..|present|];
            && r'.tournaments.keys == r.tournaments.keys + [newTid]
            && r'.tournaments.vals[newTid] == Tournament(newTid, "Copy of " + Or(t.name, "Tournament"), ids, now, now)
            && (forall k :: k in r.tournaments.vals ==> r'.tournaments.vals[k] == r.tournaments.vals[k])
            && r'.drafts.keys == r.drafts.keys + ids
            && (forall i :: 0 <= i < |ids| ==> r'.drafts.vals[ids[i]] == CopyOf(r.drafts.vals[present[i]], ids[i], newTid, now))
            && (forall k :: k in r.drafts.vals ==> r'.drafts.vals[k] == r.drafts.vals[k])
            && r'.ui == Selection(newTid, First(ids)))
  {
    if tid in r.tournaments.vals {
      var t := r.tournaments.vals[tid];
      CopyDraftsCount(r.drafts, t.draftIds, newTid, newIds, now);
      CopyDraftsKeeps(r.drafts, t.draftIds, newTid, newIds, now);
      CopyDraftsCopies(r.drafts, t.draftIds, newTid, newIds, now);
    }
  }

  /** The fresh ids a duplication of tournament `tid` of a root with integrity may use. */
  ghost predicate CopyIds(r: Root, tid: Id, newIds: seq<Id>)
    requires tid in r.tournaments.vals
  {
    |r.tournaments.vals[tid].draftIds| <= |newIds| && Distinct(newIds)
    && forall x :: x in newIds ==> Truthy(x) && x !in r.drafts.vals
  }

  /** On a root with integrity every listed draft exists, so each gets its copy. */
  lemma DuplicateTournamentCopiesAll(r: Root, tid: Id, newTid: Id, newIds: seq<Id>, now: Timestamp)
    requires Integrity(r) && FreshTournament(r, newTid) && tid in r.tournaments.vals && CopyIds(r, tid, newIds)
    ensures var r' := DuplicateTournament(r, tid, newTid, newIds, now);
      var listed := r.tournaments.vals[tid].draftIds;
      && r'.tournaments.vals[newTid].draftIds == newIds[..|listed|]
      && (forall i :: 0 <= i < |listed| ==>
            && listed[i] in r.drafts.vals && newIds[i] in r'.drafts.vals
            && r'.drafts.vals[newIds[i]] == CopyOf(r.drafts.vals[listed[i]], newIds[i], newTid, now))
  {
    var listed := r.tournaments.vals[tid].draftIds;
    forall x | x in listed ensures x in r.drafts.vals {
      assert DraftOf(r.drafts, x, tid);
    }
    KeepPresentAll(listed, r.drafts.vals);
    DuplicateTournamentCopies(r, tid, newTid, newIds, now);
  }

  /** Duplicating a tournament keeps integrity, and the selection holds exactly when the
      tournament had a draft. */
  lemma DuplicateTournamentKeepsIntegrity(r: Root, tid: Id, newTid: Id, newIds: seq<Id>, now: Timestamp)
    requires Integrity(r) && FreshTournament(r, newTid) && tid in r.tournaments.vals && CopyIds(r, tid, newIds)
    ensures Integrity(DuplicateTournament(r, tid, newTid, newIds, now))
    ensures SelectionOk(DuplicateTournament(r, tid, newTid, newIds, now)) <==> r.tournaments.vals[tid].draftIds != []
  {
    var listed := r.tournaments.vals[tid].draftIds;
    var r' := DuplicateTournament(r, tid, newTid, newIds, now);
    var ids := newIds[..|listed|];
    DuplicateCopiesPointBack(r, tid, newTid, newIds, now);
    DuplicateTournamentFrame(r, tid, newTid, newIds, now);
    DuplicateIntegrity(r, r', newTid, ids);
    if listed != [] {
      assert DraftOf(r'.drafts, ids[0], newTid);
    }
  }

  /** Every copy sits under its own real id, belongs to the new tournament and keeps the
      titles of its original. */
  lemma DuplicateCopiesPointBack(r: Root, tid: Id, newTid: Id, newIds: seq<Id>, now: Timestamp)
    requires Integrity(r) && FreshTournament(r, newTid) && tid in r.tournaments.vals && CopyIds(r, tid, newIds)
    ensures var r' := DuplicateTournament(r, tid, newTid, newIds, now);
      var ids := newIds[..|r.tournaments.vals[tid].draftIds|];
      forall i :: 0 <= i < |ids| ==>
        && Truthy(ids[i]) && DraftOf(r'.drafts, ids[i], newTid)
        && r'.drafts.vals[ids[i]].id == ids[i] && TitlesSet(r'.drafts.vals[ids[i]].state.titles)
  {
    var listed := r.tournaments.vals[tid].draftIds;
    var r' := DuplicateTournament(r, tid, newTid, newIds, now);
    var ids := newIds[..|listed|];
    DuplicateTournamentCopiesAll(r, tid, newTid, newIds, now);
    forall i | 0 <= i < |ids|
      ensures Truthy(ids[i]) && DraftOf(r'.drafts, ids[i], newTid)
      ensures r'.drafts.vals[ids[i]].id == ids[i] && TitlesSet(r'.drafts.vals[ids[i]].state.titles)
    {
      assert ids[i] in newIds;
      assert TitlesSet(r.drafts.vals[listed[i]].state.titles);
    }
  }

  /** The duplicate adds the new tournament listing the copies and the copies themselves,
      keeps every existing entry, and selects the new tournament and its first copy. */
  lemma DuplicateTournamentFrame(r: Root, tid: Id, newTid: Id, newIds: seq<Id>, now: Timestamp)
    requires Integrity(r) && FreshTournament(r, newTid) && tid in r.tournaments.vals && CopyIds(r, tid, newIds)
    ensures var r' := DuplicateTournament(r, tid, newTid, newIds, now);
      var ids := newIds[..|r.tournaments.vals[tid].draftIds|];
      && r'.version == r.version
      && newTid in r'.tournaments.vals && r'.tournaments.vals[newTid].id == newTid
      && r'.tournaments.vals[newTid].draftIds == ids
      && (forall k :: k in r'.tournaments.vals ==> k == newTid || k in r.tournaments.vals)
      && (forall k :: k in r.tournaments.vals ==> k in r'.tournaments.vals && r'.tournaments.vals[k] == r.tournaments.vals[k])
      && (forall k :: k in r'.drafts.vals ==> k in ids || k in r.drafts.vals)
      && (forall k :: k in r.drafts.vals ==> k in r'.drafts.vals && r'.drafts.vals[k] == r.drafts.vals[k])
      && r'.ui == Selection(newTid, First(ids))
  {
    var r' := DuplicateTournament(r, tid, newTid, newIds, now);
    var ids := newIds[..|r.tournaments.vals[tid].draftIds|];
    DuplicateTournamentCopiesAll(r, tid, newTid, newIds, now);
    DuplicateTournamentCopies(r, tid, newTid, newIds, now);
    forall k | k in r'.tournaments.vals ensures k == newTid || k in r.tournaments.vals {
      assert k in r.tournaments.keys + [newTid];
    }
    forall k | k in r'.drafts.vals ensures k in ids || k in r.drafts.vals {
      assert k in r.drafts.keys + ids;
    }
  }

  /** A root made from one with integrity by adding a new tournament that lists exactly some
      new drafts pointing back at it has integrity. */
  lemma DuplicateIntegrity(r: Root, r': Root, newTid: Id, ids: seq<Id>)
    requires Integrity(r) && Truthy(newTid) && newTid !in r.tournaments.vals && r'.version == r.version
    requires newTid in r'.tournaments.vals && r'.tournaments.vals[newTid].id == newTid
    requires r'.tournaments.vals[newTid].draftIds == ids
    requires forall k :: k in r'.tournaments.vals ==> k == newTid || k in r.tournaments.vals
    requires forall k :: k in r.tournaments.vals ==> k in r'.tournaments.vals && r'.tournaments.vals[k] == r.tournaments.vals[k]
    requires forall k :: k in r'.drafts.vals ==> k in ids || k in r.drafts.vals
    requires forall k :: k in r.drafts.vals ==> k in r'.drafts.vals && r'.drafts.vals[k] == r.drafts.vals[k]
    requires forall i :: 0 <= i < |ids| ==>
               && Truthy(ids[i]) && DraftOf(r'.drafts, ids[i], newTid)
               && r'.drafts.vals[ids[i]].id == ids[i] && TitlesSet(r'.drafts.vals[ids[i]].state.titles)
    ensures Integrity(r')
  {
    assert Keyed(r') && Normalized(r') by {
      forall k | k in r'.drafts.vals
        ensures Truthy(k) && r'.drafts.vals[k].id == k && TitlesSet(r'.drafts.vals[k].state.titles)
      {
        if k in ids {
          var i :| 0 <= i < |ids| && ids[i] == k;
        }
      }
    }
    DuplicateLinked(r, r', newTid, ids);
    DuplicateOwned(r, r', newTid, ids);
  }

  lemma DuplicateLinked(r: Root, r': Root, newTid: Id, ids: seq<Id>)
    requires Linked(r) && newTid !in r.tournaments.vals
    requires newTid in r'.tournaments.vals && r'.tournaments.vals[newTid].draftIds == ids
    requires forall k :: k in r'.tournaments.vals ==> k == newTid || k in r.tournaments.vals
    requires forall k :: k in r.tournaments.vals ==> k in r'.tournaments.vals && r'.tournaments.vals[k] == r.tournaments.vals[k]
    requires forall k :: k in r.drafts.vals ==> k in r'.drafts.vals && r'.drafts.vals[k] == r.drafts.vals[k]
    requires forall i :: 0 <= i < |ids| ==> DraftOf(r'.drafts, ids[i], newTid)
    ensures Linked(r')
  {
    forall u, d | u in r'.tournaments.vals && d in r'.tournaments.vals[u].draftIds
      ensures DraftOf(r'.drafts, d, u)
    {
      if u != newTid {
        assert DraftOf(r.drafts, d, u);
      }
    }
  }

  lemma DuplicateOwned(r: Root, r': Root, newTid: Id, ids: seq<Id>)
    requires Owned(r) && newTid !in r.tournaments.vals
    requires newTid in r'.tournaments.vals && r'.tournaments.vals[newTid].draftIds == ids
    requires forall k :: k in r.tournaments.vals ==> k in r'.tournaments.vals && r'.tournaments.vals[k] == r.tournaments.vals[k]
    requires forall k :: k in r'.drafts.vals ==> k in ids || k in r.drafts.vals
    requires forall k :: k in r.drafts.vals ==> k in r'.drafts.vals && r'.drafts.vals[k] == r.drafts.vals[k]
    requires forall i :: 0 <= i < |ids| ==> DraftOf(r'.drafts, ids[i], newTid)
    ensures Owned(r')
  {
    forall d | d in r'.drafts.vals
      ensures r'.drafts.vals[d].tournamentId in r'.tournaments.vals
      ensures d in r'.tournaments.vals[r'.drafts.vals[d].tournamentId].draftIds
    {
      if d in ids {
        var i :| 0 <= i < |ids| && ids[i] == d;
        assert DraftOf(r'.drafts, ids[i], newTid);
      } else {
        assert r.drafts.vals[d].tournamentId in r.tournaments.vals;
      }
    }
  }

  /** `moveDraft(root, draftId, targetTournamentId)`: the id leaves its source's list and is
      appended to the target's, and the draft points at the target, which is selected with
      it. When source and target are the same tournament the append sees the filtered list.
      An unknown draft or target changes nothing. */
  function MoveDraft(r: Root, did: Id, target: Id): Root
  {
    if did !in r.drafts.vals || target !in r.tournaments.vals then r
    else
      var d := r.drafts.vals[did];
      var src := d.tournamentId;
      var ts := if src in r.tournaments.vals
                then Put(r.tournaments, src, r.tournaments.vals[src].(draftIds := Without(r.tournaments.vals[src].draftIds, did)))
                else r.tournaments;
      var t := ts.vals[target];
      Root(r.version, Put(ts, target, t.(draftIds := t.draftIds + [did])), Put(r.drafts, did, d.(tournamentId := target)),
           Selection(target, did))
  }

  /** Moving an unknown draft, or to an unknown tournament, changes nothing. Otherwise the
      draft points at the target and ends the target's list, the source's list loses it and
      is not refilled when that leaves it empty, nothing else changes, and both are
      selected. */
  lemma MoveDraftRelinks(r: Root, did: Id, target: Id)
    ensures var r' := MoveDraft(r, did, target);
      && (did !in r.drafts.vals || target !in r.tournaments.vals ==> r' == r)
      && (did in r.drafts.vals && target in r.tournaments.vals ==>
            var d := r.drafts.vals[did];
            var src := d.tournamentId;
            && r'.drafts.keys == r.drafts.keys && r'.tournaments.keys == r.tournaments.keys
            && r'.drafts.vals[did] == d.(tournamentId := target)
            && (forall k :: k in r.drafts.vals && k != did ==> r'.drafts.vals[k] == r.drafts.vals[k])
            && r'.tournaments.vals[target].draftIds
               == (if src == target then Without(r.tournaments.vals[target].draftIds, did)
                   else r.tournaments.vals[target].draftIds) + [did]
            && (src != target && src in r.tournaments.vals ==>
                  r'.tournaments.vals[src].draftIds == Without(r.tournaments.vals[src].draftIds, did))
            && (src != target && src in r.tournaments.vals && r.tournaments.vals[src].draftIds == [did] ==>
                  r'.tournaments.vals[src].draftIds == [])
            && (forall k :: k in r.tournaments.vals && k != src && k != target ==>
                  r'.tournaments.vals[k] == r.tournaments.vals[k])
            && r'.ui == Selection(target, did))
  {
    if did in r.drafts.vals && target in r.tournaments.vals {
      assert Without([did], did) == [];
    }
  }

  /** Moving a draft keeps integrity, and the selection holds afterwards. */
  lemma MoveDraftKeepsIntegrity(r: Root, did: Id, target: Id)
    requires Integrity(r) && did in r.drafts.vals && target in r.tournaments.vals
    ensures Integrity(MoveDraft(r, did, target)) && SelectionOk(MoveDraft(r, did, target))
  {
    var r' := MoveDraft(r, did, target);
    assert Keyed(r') && Normalized(r') && SelectionOk(r') by {
      MoveDraftRelinks(r, did, target);
    }
    MoveDraftLinked(r, did, target);
    MoveDraftOwned(r, did, target);
  }

  lemma MoveDraftLinked(r: Root, did: Id, target: Id)
    requires Linked(r) && did in r.drafts.vals && target in r.tournaments.vals
    ensures Linked(MoveDraft(r, did, target))
  {
    var r' := MoveDraft(r, did, target);
    MoveDraftRelinks(r, did, target);
    forall u, d | u in r'.tournaments.vals && d in r'.tournaments.vals[u].draftIds
      ensures DraftOf(r'.drafts, d, u)
    {
      if d != did {
        assert d in r.tournaments.vals[u].draftIds;
        assert DraftOf(r.drafts, d, u);
      }
    }
  }

  lemma MoveDraftOwned(r: Root, did: Id, target: Id)
    requires Owned(r) && did in r.drafts.vals && target in r.tournaments.vals
    ensures Owned(MoveDraft(r, did, target))
  {
    var r' := MoveDraft(r, did, target);
    MoveDraftRelinks(r, did, target);
    forall d | d in r'.drafts.vals
      ensures r'.drafts.vals[d].tournamentId in r'.tournaments.vals
      ensures d in r'.tournaments.vals[r'.drafts.vals[d].tournamentId].draftIds
    {
      if d != did {
        var u := r.drafts.vals[d].tournamentId;
        assert u in r.tournaments.vals && d in r.tournaments.vals[u].draftIds;
      }
    }
  }
}
