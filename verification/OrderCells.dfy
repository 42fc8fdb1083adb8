// One hall order across all alive nodes: agreement, well-formedness, and convergence, node by node.
module OrderCells {
  import opened Orders

  // The order as each alive node has it.
  type Cells = map<string, Order>

  // Ids of real elevators are neither of the two special owner values.
  predicate RealId(id: string) {
    id != PEER_DIED && id != NO_OWNER
  }

  // ------------------------------------------------------------------------------------------ what a node can do

  // Everything that can happen to an order at a node except a synchronisation: a press, a service, the loss or the
  // error of a node, an assignment.
  ghost predicate LocalMove(o: Order, o': Order) {
    || o' == o
    || o' == Pressed(o)
    || o' == Served(o)
    || (exists lostId :: RealId(lostId) && o' == MarkedDead(o, lostId))
    || (exists id :: RealId(id) && o' == Assigned(o, id))
  }

  // The alive peers' orders, each at least once and nothing else.
  ghost predicate ArePeers(cells: Cells, me: string, others: seq<Order>) {
    && (forall o :: o in others ==> exists id :: id in cells && id != me && cells[id] == o)
    && (forall id :: id in cells && id != me ==> cells[id] in others)
  }

  // A synchronisation with up-to-date views followed by the merge of its result.
  ghost predicate SyncMove(cells: Cells, me: string, o': Order) {
    me in cells && exists others: seq<Order> :: ArePeers(cells, me, others) && o' == Synced(cells, me, others)
  }

  ghost function Synced(cells: Cells, me: string, others: seq<Order>): Order
    requires me in cells
  {
    Merge(cells[me], SyncCell(cells[me], cells.Values, others))
  }

  // ------------------------------------------------------------------------------------------ agreement

  // No two alive nodes hold the order Confirmed and None at the same time.
  ghost predicate Agreement(cells: Cells) {
    forall a, b :: a in cells && b in cells ==> !(cells[a].syncState == Confirmed && cells[b].syncState == None)
  }

  // A node may newly confirm an order only if no alive node has it as None, and may newly drop it only if no alive
  // node has it confirmed.
  ghost predicate KeepsAgreement(cells: Cells, me: string, o': Order)
    requires me in cells
  {
    && (o'.syncState == Confirmed && cells[me].syncState != Confirmed ==>
          forall id :: id in cells ==> cells[id].syncState != None)
    && (o'.syncState == None && cells[me].syncState != None ==>
          forall id :: id in cells ==> cells[id].syncState != Confirmed)
  }

  lemma AgreementIsKept(cells: Cells, me: string, o': Order)
    requires Agreement(cells) && me in cells && KeepsAgreement(cells, me, o')
    ensures Agreement(cells[me := o'])
  {
  }

  lemma LocalMoveKeepsAgreement(cells: Cells, me: string, o': Order)
    requires me in cells && LocalMove(cells[me], o')
    ensures KeepsAgreement(cells, me, o')
  {
  }

  lemma SyncMoveKeepsAgreement(cells: Cells, me: string, o': Order)
    requires Agreement(cells) && SyncMove(cells, me, o')
    ensures KeepsAgreement(cells, me, o')
  {
    var others: seq<Order> :| ArePeers(cells, me, others) && o' == Synced(cells, me, others);
    var start := Degraded(cells[me], cells.Values);
    FollowingInventsNothing(start, others);
    var s := FollowAll(start, others).syncState;
    if s != start.syncState {
      var i :| 0 <= i < |others| && others[i].syncState == s;
      assert others[i] in others;
      var id :| id in cells && id != me && cells[id] == others[i];
    }
    assert forall id :: id in cells ==> cells[id] in cells.Values;
  }

  // ------------------------------------------------------------------------------------------ well-formed orders

  // An order that does not exist has no owner, and only an unconfirmed order is marked.
  predicate WellFormed(o: Order) {
    (o.syncState == None ==> o.ownerId == NO_OWNER) && (o.ownerId == PEER_DIED ==> o.syncState == Unconfirmed)
  }

  // A step of one node whose sync result may stem from arbitrarily old views: from any earlier order of its own and
  // any orders of any peers.
  ghost predicate StaleSyncMove(o: Order, o': Order) {
    exists own, alive, others :: WellFormed(own) && o' == Merge(o, SyncCell(own, alive, others))
  }

  ghost predicate NodeMove(o: Order, o': Order) {
    LocalMove(o, o') || StaleSyncMove(o, o')
  }

  lemma SyncCellIsWellFormed(own: Order, alive: set<Order>, others: seq<Order>)
    requires WellFormed(own)
    ensures WellFormed(SyncCell(own, alive, others))
  {
    FollowingInventsNothing(Degraded(own, alive), others);
  }

  lemma NodeMoveKeepsWellFormed(o: Order, o': Order)
    requires WellFormed(o) && NodeMove(o, o')
    ensures WellFormed(o')
  {
    if !LocalMove(o, o') {
      var own, alive, others :| WellFormed(own) && o' == Merge(o, SyncCell(own, alive, others));
      SyncCellIsWellFormed(own, alive, others);
    }
  }

  // Whatever a node does, a confirmed order with a real owner keeps that owner, or leaves Confirmed in one of the
  // two legitimate ways.
  lemma ConfirmedOwnerIsStable(o: Order, o': Order)
    requires o.syncState == Confirmed && RealId(o.ownerId) && NodeMove(o, o')
    ensures o' == o || o'.syncState == DeleteProposed || o' == ORPHAN_ORDER
  {
    if !LocalMove(o, o') {
      var own, alive, others :| WellFormed(own) && o' == Merge(o, SyncCell(own, alive, others));
      SyncCellIsWellFormed(own, alive, others);
    }
  }

  // The history of one order at one node.
  ghost predicate IsHistory(history: seq<Order>) {
    && history != [] && WellFormed(history[0])
    && forall k :: 0 < k < |history| ==> MovesTo(history, k)
  }

  ghost predicate MovesTo(history: seq<Order>, k: int) {
    0 < k < |history| && NodeMove(history[k - 1], history[k])
  }

  lemma {:induction false} HistoryIsWellFormed(history: seq<Order>, k: nat)
    requires IsHistory(history) && k < |history|
    ensures WellFormed(history[k])
  {
    if k > 0 {
      HistoryIsWellFormed(history, k - 1);
      assert MovesTo(history, k);
      NodeMoveKeepsWellFormed(history[k - 1], history[k]);
    }
  }

  // A real owner is never replaced for as long as the order stays confirmed, however stale the sync results are.
  lemma {:induction false} OwnerIsStable(history: seq<Order>, i: nat, j: nat)
    requires IsHistory(history) && i <= j < |history|
    requires RealId(history[i].ownerId) && forall k :: i <= k <= j ==> history[k].syncState == Confirmed
    ensures history[j].ownerId == history[i].ownerId
    decreases j - i
  {
    if i < j {
      OwnerIsStable(history, i, j - 1);
      assert MovesTo(history, j);
      ConfirmedOwnerIsStable(history[j - 1], history[j]);
    }
  }

  // ------------------------------------------------------------------------------------------ late results

  // Merging `sync` makes this node confirm, or drop, an order that it had not confirmed, or dropped, before.
  predicate ConfirmsLate(o: Order, sync: Order) {
    && sync.syncState == Confirmed && (o.syncState == None || o.syncState == Unconfirmed)
    && !(o == ORPHAN_ORDER && sync.ownerId != NO_OWNER)
  }

  predicate DropsLate(o: Order, sync: Order) {
    sync.syncState == None && o.syncState == DeleteProposed
  }

  ghost predicate AnotherIn(cells: Cells, me: string, s: SyncState) {
    exists id :: id in cells && id != me && cells[id].syncState == s
  }

  // The two kinds of results that came too late.
  ghost predicate BreaksAgreement(cells: Cells, me: string, sync: Order)
    requires me in cells
  {
    || (ConfirmsLate(cells[me], sync) && AnotherIn(cells, me, None))
    || (DropsLate(cells[me], sync) && AnotherIn(cells, me, Confirmed))
  }

  // Whatever views a result stems from, merging it keeps agreement if and only if it neither confirms an order that
  // another alive node does not have, nor drops one that another alive node has confirmed.
  lemma LateMergeKeepsAgreementExactly(cells: Cells, me: string, sync: Order)
    requires me in cells && Agreement(cells)
    ensures Agreement(cells[me := Merge(cells[me], sync)]) <==> !BreaksAgreement(cells, me, sync)
  {
    var cells' := cells[me := Merge(cells[me], sync)];
    if ConfirmsLate(cells[me], sync) && AnotherIn(cells, me, None) {
      var id :| id in cells && id != me && cells[id].syncState == None;
      assert cells'[me].syncState == Confirmed && cells'[id].syncState == None;
    } else if DropsLate(cells[me], sync) && AnotherIn(cells, me, Confirmed) {
      var id :| id in cells && id != me && cells[id].syncState == Confirmed;
      assert cells'[id].syncState == Confirmed && cells'[me].syncState == None;
    } else {
      forall a, b | a in cells' && b in cells'
        ensures !(cells'[a].syncState == Confirmed && cells'[b].syncState == None)
      {
        assert !(cells[a].syncState == Confirmed && cells[b].syncState == None);
      }
    }
  }

  // ------------------------------------------------------------------------------------------ convergence

  ghost predicate NobodyMarked(cells: Cells) {
    forall id :: id in cells ==> cells[id].ownerId != PEER_DIED
  }

  // An order that has been called for and not yet served.
  ghost predicate Rising(cells: Cells) {
    && NobodyMarked(cells) && Agreement(cells)
    && (forall id :: id in cells ==> cells[id].syncState != DeleteProposed)
    && (exists id :: id in cells && cells[id].syncState != None)
  }

  ghost predicate NobodyNone(cells: Cells) {
    forall id :: id in cells ==> cells[id].syncState != None
  }

  lemma PeersArePresent(cells: Cells, me: string, mine: Order, others: seq<Order>)
    requires me in cells && ArePeers(cells, me, others) && mine == cells[me]
    ensures forall s :: Present(mine, others, s) <==> exists id :: id in cells && cells[id].syncState == s
  {
    forall s
      ensures Present(mine, others, s) <==> exists id :: id in cells && cells[id].syncState == s
    {
      if i :| 0 <= i < |others| && others[i].syncState == s {
        assert others[i] in others;
        var id :| id in cells && id != me && cells[id] == others[i];
      }
      if id :| id in cells && id != me && cells[id].syncState == s {
        assert cells[id] in others;
        var i :| 0 <= i < |others| && others[i] == cells[id];
      }
    }
  }

  lemma NotDegraded(cells: Cells, me: string)
    requires NobodyMarked(cells) && me in cells
    ensures Degraded(cells[me], cells.Values) == cells[me]
  {
    assert ORPHAN_ORDER !in cells.Values;
  }

  // What the node's own order has become after it has followed its peers.
  lemma RisingFollows(cells: Cells, me: string, others: seq<Order>)
    requires Rising(cells) && me in cells && ArePeers(cells, me, others)
    ensures var o := FollowAll(Degraded(cells[me], cells.Values), others);
            && Ready(o.syncState) && o.ownerId != PEER_DIED
            && (cells[me].syncState == Confirmed ==> o.syncState == Confirmed)
  {
    NotDegraded(cells, me);
    PeersArePresent(cells, me, cells[me], others);
    TangledInAgreement(cells[me], others);
    FollowClosedForm(cells[me], others);
    var id :| id in cells && cells[id].syncState != None;
    assert Present(cells[me], others, cells[id].syncState);
    assert Present(cells[me], others, cells[me].syncState);
  }

  lemma RisingOutcome(cells: Cells, me: string, others: seq<Order>)
    requires Rising(cells) && me in cells && ArePeers(cells, me, others)
    ensures var o' := Synced(cells, me, others);
            && Ready(o'.syncState) && o'.ownerId != PEER_DIED
            && (NobodyNone(cells) ==> o'.syncState == Confirmed)
  {
    var own := cells[me];
    RisingFollows(cells, me, others);
    assert forall o :: o in cells.Values ==> exists id :: id in cells && cells[id] == o;
  }

  // A synchronising node joins a rising order; once nobody is left out, it confirms it.
  lemma RisingSync(cells: Cells, me: string, o': Order)
    requires Rising(cells) && SyncMove(cells, me, o')
    ensures Ready(o'.syncState)
    ensures NobodyNone(cells) ==> o'.syncState == Confirmed
    ensures Rising(cells[me := o'])
  {
    SyncMoveKeepsAgreement(cells, me, o');
    AgreementIsKept(cells, me, o');
    var others: seq<Order> :| ArePeers(cells, me, others) && o' == Synced(cells, me, others);
    RisingOutcome(cells, me, others);
    assert cells[me := o'][me] == o';
  }

  // An order that has been served, or is on its way out at every node.
  ghost predicate Falling(cells: Cells) {
    && NobodyMarked(cells)
    && (AllGone(cells) ||
        (NobodyNone(cells) && exists id :: id in cells && cells[id].syncState == DeleteProposed))
  }

  ghost predicate AllGone(cells: Cells) {
    forall id :: id in cells ==> Gone(cells[id].syncState)
  }

  // A synchronising node joins a falling order; once everybody has, it drops it.
  lemma FallingSync(cells: Cells, me: string, o': Order)
    requires Falling(cells) && SyncMove(cells, me, o')
    ensures Gone(o'.syncState)
    ensures AllGone(cells) ==> o'.syncState == None
    ensures Falling(cells[me := o'])
  {
    var others: seq<Order> :| ArePeers(cells, me, others) && o' == Synced(cells, me, others);
    FallingOutcome(cells, me, others);
    var cells' := cells[me := o'];
    if AllGone(cells) {
      assert AllGone(cells');
    } else {
      assert cells'[me].syncState == DeleteProposed;
      assert NobodyNone(cells');
    }
  }

  lemma FallingOutcome(cells: Cells, me: string, others: seq<Order>)
    requires Falling(cells) && me in cells && ArePeers(cells, me, others)
    ensures var o' := Synced(cells, me, others);
            && Gone(o'.syncState) && o'.ownerId != PEER_DIED
            && (AllGone(cells) ==> o'.syncState == None)
            && (o'.syncState == None && cells[me].syncState != None ==> AllGone(cells))
  {
    FallingFollows(cells, me, others);
    assert forall id :: id in cells ==> cells[id] in cells.Values;
    assert forall o :: o in cells.Values ==> exists id :: id in cells && cells[id] == o;
  }

  lemma FallingFollows(cells: Cells, me: string, others: seq<Order>)
    requires Falling(cells) && me in cells && ArePeers(cells, me, others)
    ensures var o := FollowAll(Degraded(cells[me], cells.Values), others);
            && Gone(o.syncState) && o.ownerId != PEER_DIED
            && (!AllGone(cells) ==> o.syncState == DeleteProposed)
  {
    NotDegraded(cells, me);
    PeersArePresent(cells, me, cells[me], others);
    TangledInAgreement(cells[me], others);
    FollowClosedForm(cells[me], others);
    if !AllGone(cells) {
      var id :| id in cells && cells[id].syncState == DeleteProposed;
      assert Present(cells[me], others, DeleteProposed);
    }
  }
}
