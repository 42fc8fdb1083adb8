// What a synchronisation makes of an order, in one table, and what becomes of its result when it is merged.
module SyncOutcome {
  import opened Orders
  import opened PeerOrder
  import opened OrderCells

  // ------------------------------------------------------------------------------------------ marked orders

  // The mark of a failed owner spreads: it is not undone in the round in which a node learns of it, so that the node
  // passes it on.
  lemma MarkSpreads(own: Order, alive: set<Order>, others: seq<Order>)
    requires own.syncState == Confirmed && ORPHAN_ORDER in alive
    ensures SyncCell(own, alive, others) == ORPHAN_ORDER
  {
    FollowingInventsNothing(ORPHAN_ORDER, others);
  }

  // A marked order is confirmed again, without an owner, exactly when all alive nodes know about it.
  lemma MarkedIsRevivedExactly(alive: set<Order>, others: seq<Order>)
    ensures SyncCell(ORPHAN_ORDER, alive, others) ==
            if forall o :: o in alive ==> o.syncState == Unconfirmed || o.syncState == Confirmed
            then Order(Confirmed, NO_OWNER) else ORPHAN_ORDER
  {
    FollowingInventsNothing(ORPHAN_ORDER, others);
  }

  // ------------------------------------------------------------------------------------------ the table

  ghost function Outcome(own: Order, peers: seq<Order>): Order {
    if Present(own, peers, None) && (Present(own, peers, DeleteProposed) || own.syncState == Confirmed) then
      EMPTY_ORDER
    else if Present(own, peers, DeleteProposed) then
      if Present(own, peers, Unconfirmed) || Present(own, peers, Confirmed)
      then Order(DeleteProposed, own.ownerId) else EMPTY_ORDER
    else if Present(own, peers, Confirmed) then
      Order(Confirmed, own.ownerId)
    else if Present(own, peers, Unconfirmed) then
      Order(if Present(own, peers, None) then Unconfirmed else Confirmed, own.ownerId)
    else
      EMPTY_ORDER
  }

  lemma AliveInAre(own: Order, peers: seq<Order>, s: SyncState, t: SyncState)
    ensures (forall o :: o in Alive(own, peers) ==> o.syncState == s || o.syncState == t) <==>
            (forall r :: Present(own, peers, r) ==> r == s || r == t)
  {
    if forall o :: o in Alive(own, peers) ==> o.syncState == s || o.syncState == t {
      forall r | Present(own, peers, r)
        ensures r == s || r == t
      {
        SeenIsAlive(own, peers, r);
      }
    }
    if forall r :: Present(own, peers, r) ==> r == s || r == t {
      forall o | o in Alive(own, peers)
        ensures o.syncState == s || o.syncState == t
      {
        AliveIsSeen(own, peers, o);
      }
    }
  }

  lemma AliveIsSeen(own: Order, peers: seq<Order>, o: Order)
    requires o in Alive(own, peers)
    ensures Present(own, peers, o.syncState)
  {
    if o != own {
      var i :| 0 <= i < |peers| && peers[i] == o;
      assert Among(peers, o.syncState);
    }
  }

  // All four steps for every unmarked order in every view that is not tangled: a function of the states seen.
  lemma SyncExactly(own: Order, peers: seq<Order>)
    requires !FollowsNobody(own, peers) && !Tangled(own, peers)
    ensures SyncCell(own, Alive(own, peers), peers) == Outcome(own, peers)
  {
    DegradedAmong(own, peers);
    FollowClosedForm(own, peers);
    AliveInAre(own, peers, Unconfirmed, Confirmed);
    AliveInAre(own, peers, DeleteProposed, None);
  }

  // ------------------------------------------------------------------------------------------ merging

  // One state ahead or more, or the completed cycle, or the mark of a failed owner.
  predicate Advances(local: Order, sync: Order) {
    || (local.syncState == None && sync.syncState != None)
    || (local.syncState == Unconfirmed && (sync.syncState == Confirmed || sync.syncState == DeleteProposed))
    || (local.syncState == Confirmed && (sync.syncState == DeleteProposed ||
                                         (sync.syncState == Unconfirmed && sync.ownerId == PEER_DIED)))
    || (local.syncState == DeleteProposed && sync.syncState == None)
  }

  // The result was computed before the owner failed.
  predicate IsOutdatedOwner(local: Order, sync: Order) {
    local == ORPHAN_ORDER && sync.syncState == Confirmed && sync.ownerId != NO_OWNER
  }

  // Exactly what a merge takes over: a result that advances the order is taken as it is, one in the same state
  // leaves an owner in place, and everything else is outdated.
  lemma MergeExactly(local: Order, sync: Order)
    ensures Advances(local, sync) && !IsOutdatedOwner(local, sync) ==> Merge(local, sync) == sync
    ensures local.syncState == sync.syncState ==>
              Merge(local, sync) == Order(local.syncState, if local.ownerId != NO_OWNER && local.syncState != None
                                                           then local.ownerId else sync.ownerId)
    ensures !Advances(local, sync) && local.syncState != sync.syncState ==> Merge(local, sync) == local
    ensures IsOutdatedOwner(local, sync) ==> Merge(local, sync) == local
  {
  }

  // A result that is merged at once is taken over completely, unless the node has confirmed what its peers have
  // dropped.
  lemma FreshIsTakenOverExactly(own: Order, peers: seq<Order>)
    requires WellFormed(own) && (FollowsNobody(own, peers) || !Tangled(own, peers))
    ensures var sync := SyncCell(own, Alive(own, peers), peers);
            Merge(own, sync) == sync <==> !(own.syncState == Confirmed && sync.syncState == None)
  {
    if own.syncState == Confirmed && ORPHAN_ORDER in peers {
      MarkSpreads(own, Alive(own, peers), peers);
    } else if own.ownerId == PEER_DIED {
      MarkedIsRevivedExactly(Alive(own, peers), peers);
    } else {
      SyncExactly(own, peers);
    }
  }

  // With up-to-date views: a node that has confirmed an order gives it up as soon as any alive node has it marked.
  lemma MarkReachesEverySync(cells: Cells, me: string, others: seq<Order>)
    requires me in cells && cells[me].syncState == Confirmed && ORPHAN_ORDER in cells.Values
    ensures Synced(cells, me, others) == ORPHAN_ORDER
  {
    MarkSpreads(cells[me], cells.Values, others);
  }
}
