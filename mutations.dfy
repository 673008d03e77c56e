/** The board mutators of the prototype app. Each works on a deep copy of the previous
    board, so each is a function from the old board to the new one. */
module Mutations {
  import opened Js
  import opened Boards

  /** `addPlayer`: a new player under `id`, whose id goes to the front of Available. */
  function AddPlayer(b: Board, id: Id, name: string, notes: string): Board
  {
    b.(players := b.players[id := Player(id, name, notes)], availableOrder := [id] + b.availableOrder)
  }

  /** `editPlayer`: the record under `updated.id` is replaced; no list changes. */
  function EditPlayer(b: Board, updated: Player): Board
  {
    b.(players := b.players[updated.id := updated])
  }

  /** `removePlayer`: the hard delete. */
  function RemovePlayer(b: Board, id: Id): Board
  {
    Board(b.players - {id}, Without(b.availableOrder, id),
          Buckets(Without(b.buckets.yes, id), Without(b.buckets.maybe, id), Without(b.buckets.no, id)))
  }

  /** `sendToAvailable`: out of every bucket, and to the front of Available unless it is
      already there. */
  function SendToAvailable(b: Board, id: Id): Board
  {
    Board(b.players, if id in b.availableOrder then b.availableOrder else [id] + b.availableOrder,
          Buckets(Without(b.buckets.yes, id), Without(b.buckets.maybe, id), Without(b.buckets.no, id)))
  }

  /** `handleRemove`: a player in Available is deleted, any other is un-assigned. */
  function HandleRemove(b: Board, id: Id): Board
  {
    if id in b.availableOrder then RemovePlayer(b, id) else SendToAvailable(b, id)
  }

  /** A new player under a fresh id keeps the board valid, and its only place is the head of
      Available; the buckets and every other player are untouched. */
  lemma AddPlayerKeepsValid(b: Board, id: Id, name: string, notes: string)
    requires Valid(b) && id !in b.players
    ensures var b' := AddPlayer(b, id, name, notes);
      && Valid(b')
      && b'.availableOrder[0] == id && Occurrences(b', id) == 1
      && b'.availableOrder[1..] == b.availableOrder && b'.buckets == b.buckets
      && b'.players == b.players[id := Player(id, name, notes)]
      && forall x :: x != id ==> (x in b'.players <==> x in b.players)
  {
    var b' := AddPlayer(b, id, name, notes);
    assert multiset(b'.availableOrder) == multiset{id} + multiset(b.availableOrder);
    assert Occurrences(b, id) == 0;
    forall x ensures Occurrences(b', x) == Occurrences(b, x) + (if x == id then 1 else 0) {
    }
  }

  /** After `removePlayer(id)` the id is gone from the map and from all four lists, every
      other player record is kept, every other id keeps its count, and a valid board stays
      valid. */
  lemma RemovePlayerForgets(b: Board, id: Id)
    ensures var b' := RemovePlayer(b, id);
      && id !in b'.players && Occurrences(b', id) == 0
      && b'.players == b.players - {id}
      && (forall x :: x != id ==> Occurrences(b', x) == Occurrences(b, x))
      && (Valid(b) ==> Valid(b'))
  {
    var b' := RemovePlayer(b, id);
    forall x ensures Occurrences(b', x) == if x == id then 0 else Occurrences(b, x) {
    }
  }

  /** Removing an id from a list keeps the other ids in their relative order. */
  lemma RemovePlayerKeepsOrder(b: Board, id: Id, k: ListKey)
    ensures Subseq(FullList(RemovePlayer(b, id), k), FullList(b, k))
  {
    WithoutSubseq(FullList(b, k), id);
  }

  /** `sendToAvailable(id)` empties the buckets of `id` and leaves it in Available exactly
      once (given that no list held it twice); the player map is unchanged, and a valid
      board stays valid when the player exists. */
  lemma SendToAvailableUnassigns(b: Board, id: Id)
    requires Exclusive(b)
    ensures var b' := SendToAvailable(b, id);
      && b'.players == b.players
      && id !in b'.buckets.yes && id !in b'.buckets.maybe && id !in b'.buckets.no
      && multiset(b'.availableOrder)[id] == 1 && Occurrences(b', id) == 1
      && (forall x :: x != id ==> Occurrences(b', x) == Occurrences(b, x))
      && (Valid(b) && id in b.players ==> Valid(b'))
  {
    SendToAvailableCounts(b, id);
  }

  lemma SendToAvailableCounts(b: Board, id: Id)
    requires Exclusive(b)
    ensures forall x :: Occurrences(SendToAvailable(b, id), x) == if x == id then 1 else Occurrences(b, x)
    ensures multiset(SendToAvailable(b, id).availableOrder)[id] == 1
  {
    var b' := SendToAvailable(b, id);
    assert Occurrences(b, id) <= 1;
    if id !in b.availableOrder {
      assert multiset(b'.availableOrder) == multiset{id} + multiset(b.availableOrder);
    }
  }

  /** `sendToAvailable` keeps every bucket in order, leaves an Available list that already
      held the id as it was, and otherwise puts the id at its front. */
  lemma SendToAvailableKeepsOrder(b: Board, id: Id, k: ListKey)
    ensures k != Available ==> Subseq(FullList(SendToAvailable(b, id), k), FullList(b, k))
    ensures id in b.availableOrder ==> SendToAvailable(b, id).availableOrder == b.availableOrder
    ensures id !in b.availableOrder ==> SendToAvailable(b, id).availableOrder == [id] + b.availableOrder
  {
    WithoutSubseq(FullList(b, k), id);
  }

  /** `handleRemove(id)` keeps the player exactly when it was not in Available: a player in
      Available is hard-deleted, one in a bucket is sent back to Available. */
  lemma HandleRemoveDispatch(b: Board, id: Id)
    requires Exclusive(b)
    ensures var b' := HandleRemove(b, id);
      && (id in b'.players <==> id in b.players && id !in b.availableOrder)
      && (id in b'.availableOrder <==> id !in b.availableOrder)
      && Occurrences(b', id) == (if id in b.availableOrder then 0 else 1)
  {
    if id in b.availableOrder {
      RemovePlayerForgets(b, id);
    } else {
      SendToAvailableUnassigns(b, id);
    }
  }

  /** `editPlayer` never moves a player; it keeps a valid board valid when the record it
      writes is one that exists. */
  lemma EditPlayerKeepsLists(b: Board, updated: Player)
    ensures var b' := EditPlayer(b, updated);
      && (forall k :: FullList(b', k) == FullList(b, k))
      && b'.players[updated.id] == updated
      && b'.players == b.players[updated.id := updated]
      && (forall x :: x != updated.id ==> (x in b'.players <==> x in b.players))
      && (Valid(b) && updated.id in b.players ==> Valid(b'))
  {
    var b' := EditPlayer(b, updated);
    forall x ensures Occurrences(b', x) == Occurrences(b, x) {
    }
  }
}
