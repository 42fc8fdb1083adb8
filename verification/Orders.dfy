// One hall order as one node sees it: its cyclic state, how a node follows its peers, when the nodes agree, and
// which results of a synchronisation a node accepts.
module Orders {

  datatype SyncState = None | Unconfirmed | Confirmed | DeleteProposed

  datatype Order = Order(syncState: SyncState, ownerId: string)

  const PEER_DIED := "peerDied"
  const NO_OWNER := ""

  const EMPTY_ORDER := Order(None, NO_OWNER)
  const ORPHAN_ORDER := Order(Unconfirmed, PEER_DIED)

  function Number(s: SyncState): nat {
    match s
    case None => 0
    case Unconfirmed => 1
    case Confirmed => 2
    case DeleteProposed => 3
  }

  function NextState(s: SyncState): SyncState {
    match s
    case None => Unconfirmed
    case Unconfirmed => Confirmed
    case Confirmed => DeleteProposed
    case DeleteProposed => None
  }

  function SecondToNextState(s: SyncState): SyncState {
    match s
    case None => Confirmed
    case Unconfirmed => DeleteProposed
    case _ => None
  }

  // ------------------------------------------------------------------------------------------ synchronisation

  // Step 0: an alive peer reports that the owner of an order confirmed here is gone.
  function DegradeBy(mine: Order, peer: Order): Order {
    if peer == ORPHAN_ORDER && mine.syncState == Confirmed then ORPHAN_ORDER else mine
  }

  // Step 1: follow one peer that is one or two states ahead.
  function FollowPeer(mine: Order, peer: Order): Order {
    if mine == peer then mine else
      var once := if NextState(mine.syncState) == peer.syncState && mine.ownerId != PEER_DIED
                  then mine.(syncState := peer.syncState) else mine;
      if SecondToNextState(mine.syncState) == peer.syncState && mine.ownerId != PEER_DIED
      then once.(syncState := peer.syncState) else once
  }

  // Follow the peers in the order in which they are met.
  function FollowAll(mine: Order, peers: seq<Order>): Order
    decreases |peers|
  {
    if peers == [] then mine else FollowAll(FollowPeer(mine, peers[0]), peers[1..])
  }

  predicate Ready(s: SyncState) {
    s == Unconfirmed || s == Confirmed
  }

  predicate Gone(s: SyncState) {
    s == DeleteProposed || s == None
  }

  // Step 2: advance when all alive nodes agree; `known` is the state this node has already broadcast.
  ghost function Consensus(known: SyncState, mine: Order, alive: set<Order>): Order {
    match mine.syncState
    case Unconfirmed =>
      if known == Unconfirmed && forall o :: o in alive ==> Ready(o.syncState) then
        Order(Confirmed, if mine.ownerId == PEER_DIED then NO_OWNER else mine.ownerId)
      else mine
    case DeleteProposed =>
      if forall o :: o in alive ==> Gone(o.syncState) then EMPTY_ORDER else mine
    case _ => mine
  }

  // Step 3: an order that does not exist has no owner.
  function Normalise(o: Order): Order {
    if o.syncState == None then EMPTY_ORDER else o
  }

  // All four steps for one order: `own` is this node's order, `alive` the orders of all alive nodes, `others` those
  // of the alive peers in the order in which they are met.
  ghost function Degraded(own: Order, alive: set<Order>): Order {
    if own.syncState == Confirmed && ORPHAN_ORDER in alive then ORPHAN_ORDER else own
  }

  ghost function SyncCell(own: Order, alive: set<Order>, others: seq<Order>): Order {
    Normalise(Consensus(own.syncState, FollowAll(Degraded(own, alive), others), alive))
  }

  // Step 0 met peer by peer.
  function DegradeAll(mine: Order, peers: seq<Order>): Order
    decreases |peers|
  {
    if peers == [] then mine else DegradeAll(DegradeBy(mine, peers[0]), peers[1..])
  }

  lemma {:induction false} DegradeIgnoresOrder(mine: Order, peers: seq<Order>)
    ensures DegradeAll(mine, peers) ==
            if mine.syncState == Confirmed && ORPHAN_ORDER in peers then ORPHAN_ORDER else mine
    decreases |peers|
  {
    if peers != [] { DegradeIgnoresOrder(DegradeBy(mine, peers[0]), peers[1..]); }
  }

  // ------------------------------------------------------------------------------------------ acceptance

  predicate ShouldAccept(local: Order, sync: Order) {
    if local.ownerId == PEER_DIED && local.syncState == Unconfirmed && sync.syncState == Confirmed &&
       sync.ownerId != NO_OWNER then false
    else if sync.syncState == local.syncState then true
    else if Number(sync.syncState) > Number(local.syncState) then true
    else if local.syncState == DeleteProposed && sync.syncState == None then true
    else if local.syncState == Confirmed && sync.syncState == Unconfirmed && sync.ownerId == PEER_DIED then true
    else false
  }

  function Merge(local: Order, sync: Order): Order {
    if !ShouldAccept(local, sync) then local
    else if sync.syncState == local.syncState && local.ownerId != NO_OWNER && local.syncState != None then
      sync.(ownerId := local.ownerId)
    else sync
  }

  // ------------------------------------------------------------------------------------------ local events

  function Pressed(o: Order): Order {
    if o.syncState == None then Order(Unconfirmed, NO_OWNER) else o
  }

  function MarkedDead(o: Order, lostId: string): Order {
    if o.ownerId == lostId && o.syncState == Confirmed then ORPHAN_ORDER else o
  }

  function Served(o: Order): Order {
    if o.syncState == Confirmed then o.(syncState := DeleteProposed) else o
  }

  predicate CanAssign(o: Order) {
    o.syncState == Confirmed && (o.ownerId == NO_OWNER || o.ownerId == PEER_DIED)
  }

  function Assigned(o: Order, id: string): Order {
    if CanAssign(o) then o.(ownerId := id) else o
  }

  // ------------------------------------------------------------------------------------------ following peers

  ghost predicate Among(peers: seq<Order>, s: SyncState) {
    exists i :: 0 <= i < |peers| && peers[i].syncState == s
  }

  ghost predicate Present(mine: Order, peers: seq<Order>, s: SyncState) {
    mine.syncState == s || Among(peers, s)
  }

  // Following never touches the owner and never invents a state.
  lemma {:induction false} FollowingInventsNothing(mine: Order, peers: seq<Order>)
    ensures FollowAll(mine, peers).ownerId == mine.ownerId
    ensures Present(mine, peers, FollowAll(mine, peers).syncState)
    ensures mine.ownerId == PEER_DIED ==> FollowAll(mine, peers) == mine
    decreases |peers|
  {
    if peers != [] {
      var m := FollowPeer(mine, peers[0]);
      FollowingInventsNothing(m, peers[1..]);
      var s := FollowAll(mine, peers).syncState;
      if i :| 0 <= i < |peers[1..]| && peers[1..][i].syncState == s {
        assert peers[i + 1].syncState == s;
      } else if m.syncState != mine.syncState {
        assert peers[0].syncState == s;
      }
    }
  }

  lemma {:induction false} FollowInTwoParts(mine: Order, ps: seq<Order>, qs: seq<Order>)
    ensures FollowAll(mine, ps + qs) == FollowAll(FollowAll(mine, ps), qs)
    decreases |ps|
  {
    if ps == [] {
      assert ps + qs == qs;
    } else {
      assert (ps + qs)[1..] == ps[1..] + qs;
      FollowInTwoParts(FollowPeer(mine, ps[0]), ps[1..], qs);
    }
  }

  ghost predicate AllPresentIn(mine: Order, peers: seq<Order>, states: set<SyncState>) {
    mine.syncState in states && forall i :: 0 <= i < |peers| ==> peers[i].syncState in states
  }

  // No state seen is further along than `s`, and `s` is seen.
  ghost predicate IsFurthest(mine: Order, peers: seq<Order>, s: SyncState) {
    && Present(mine, peers, s)
    && forall r :: Present(mine, peers, r) ==> Number(r) <= Number(s)
  }

  // Among {Unconfirmed, Confirmed, DeleteProposed}, and among {None, Unconfirmed}, a node ends up at the furthest state
  // it has seen, in whatever order it meets its peers.
  lemma {:induction false} FollowReachesFurthest(mine: Order, peers: seq<Order>)
    requires mine.ownerId != PEER_DIED
    requires AllPresentIn(mine, peers, {Unconfirmed, Confirmed, DeleteProposed}) ||
             AllPresentIn(mine, peers, {None, Unconfirmed})
    ensures IsFurthest(mine, peers, FollowAll(mine, peers).syncState)
    decreases |peers|
  {
    if peers != [] {
      var first := peers[0].syncState;
      assert first in {Unconfirmed, Confirmed, DeleteProposed} || first in {None, Unconfirmed};
      var m := FollowPeer(mine, peers[0]);
      assert m.syncState == if Number(mine.syncState) < Number(peers[0].syncState) then peers[0].syncState
                            else mine.syncState;
      FollowReachesFurthest(m, peers[1..]);
      FollowingInventsNothing(mine, peers);
      var s := FollowAll(mine, peers).syncState;
      assert Present(m, peers[1..], m.syncState);
      forall r | Present(mine, peers, r)
        ensures Number(r) <= Number(s)
      {
        if r != mine.syncState && r != peers[0].syncState {
          var i :| 0 <= i < |peers| && peers[i].syncState == r;
          assert peers[1..][i - 1].syncState == r;
          assert Present(m, peers[1..], r);
        }
      }
    }
  }

  // Among {DeleteProposed, None} one None is enough.
  lemma {:induction false} FollowReachesNone(mine: Order, peers: seq<Order>)
    requires mine.ownerId != PEER_DIED && AllPresentIn(mine, peers, {DeleteProposed, None})
    ensures FollowAll(mine, peers).syncState == if Present(mine, peers, None) then None else DeleteProposed
    decreases |peers|
  {
    if peers != [] {
      var m := FollowPeer(mine, peers[0]);
      FollowReachesNone(m, peers[1..]);
      if Present(mine, peers, None) && mine.syncState != None && peers[0].syncState != None {
        var i :| 0 <= i < |peers| && peers[i].syncState == None;
        assert peers[1..][i - 1].syncState == None;
      }
      if Present(m, peers[1..], None) && m.syncState != None {
        var i :| 0 <= i < |peers[1..]| && peers[1..][i].syncState == None;
        assert peers[i + 1].syncState == None;
      }
    }
  }

  // ------------------------------------------------------------------------------------------ tangled views

  // The combinations of states in which it matters whom a node meets first.
  ghost predicate Tangled(mine: Order, peers: seq<Order>) {
    || (Present(mine, peers, None) && Present(mine, peers, Unconfirmed) && Present(mine, peers, DeleteProposed))
    || match mine.syncState
       case None => Among(peers, Confirmed) && (Among(peers, None) || Among(peers, DeleteProposed))
       case Confirmed => Among(peers, None) && (Among(peers, Confirmed) || Among(peers, Unconfirmed))
       case _ => Among(peers, None) && Among(peers, Confirmed)
  }

  // While nobody has the order confirmed beside somebody without it, only one combination is tangled.
  lemma TangledInAgreement(mine: Order, peers: seq<Order>)
    requires !(Present(mine, peers, None) && Present(mine, peers, Confirmed))
    ensures Tangled(mine, peers) <==>
            Present(mine, peers, None) && Present(mine, peers, Unconfirmed) && Present(mine, peers, DeleteProposed)
  {
  }

  lemma PeersIn(peers: seq<Order>, states: set<SyncState>)
    requires forall s :: Among(peers, s) ==> s in states
    ensures forall i :: 0 <= i < |peers| ==> peers[i].syncState in states
  {
    forall i | 0 <= i < |peers|
      ensures peers[i].syncState in states
    {
      assert Among(peers, peers[i].syncState);
    }
  }

  // After a first peer has been followed, what is seen is the same, except for the state that was left.
  lemma FirstPeer(mine: Order, peers: seq<Order>)
    requires peers != []
    ensures FollowAll(mine, peers) == FollowAll(FollowPeer(mine, peers[0]), peers[1..])
    ensures forall s :: Among(peers, s) <==> peers[0].syncState == s || Among(peers[1..], s)
  {
    forall s
      ensures Among(peers, s) <==> peers[0].syncState == s || Among(peers[1..], s)
    {
      if i :| 0 < i < |peers| && peers[i].syncState == s {
        assert peers[1..][i - 1].syncState == s;
      }
      if i :| 0 <= i < |peers[1..]| && peers[1..][i].syncState == s {
        assert peers[i + 1].syncState == s;
      }
    }
  }

  // A node without the order joins the furthest of its peers, if they are all Unconfirmed or Confirmed.
  lemma FollowFromNone(mine: Order, peers: seq<Order>)
    requires mine.ownerId != PEER_DIED && mine.syncState == None && peers != []
    requires forall i :: 0 <= i < |peers| ==> Ready(peers[i].syncState)
    ensures IsFurthest(mine, peers, FollowAll(mine, peers).syncState)
  {
    assert Ready(peers[0].syncState);
    FirstPeer(mine, peers);
    FollowReachesFurthest(FollowPeer(mine, peers[0]), peers[1..]);
  }

  // A node that has the order confirmed drops it, if its peers propose to delete it or have dropped it.
  lemma FollowFromConfirmed(mine: Order, peers: seq<Order>)
    requires mine.ownerId != PEER_DIED && mine.syncState == Confirmed && Among(peers, None)
    requires forall i :: 0 <= i < |peers| ==> Gone(peers[i].syncState)
    ensures FollowAll(mine, peers).syncState == None
  {
    assert Gone(peers[0].syncState);
    FirstPeer(mine, peers);
    FollowReachesNone(FollowPeer(mine, peers[0]), peers[1..]);
  }

  // The outcome when the view is not tangled: a function of what is seen.
  lemma FollowClosedForm(mine: Order, peers: seq<Order>)
    requires mine.ownerId != PEER_DIED && !Tangled(mine, peers)
    ensures FollowAll(mine, peers).ownerId == mine.ownerId
    ensures if Present(mine, peers, None) && (Present(mine, peers, DeleteProposed) || mine.syncState == Confirmed)
            then FollowAll(mine, peers).syncState == None
            else IsFurthest(mine, peers, FollowAll(mine, peers).syncState)
  {
    FollowingInventsNothing(mine, peers);
    if !Present(mine, peers, None) {
      PeersIn(peers, {Unconfirmed, Confirmed, DeleteProposed});
      FollowReachesFurthest(mine, peers);
    } else if mine.syncState == Confirmed {
      PeersIn(peers, {DeleteProposed, None});
      FollowFromConfirmed(mine, peers);
    } else if Present(mine, peers, DeleteProposed) {
      PeersIn(peers, {DeleteProposed, None});
      FollowReachesNone(mine, peers);
    } else if Among(peers, Confirmed) {
      PeersIn(peers, {Unconfirmed, Confirmed});
      FollowFromNone(mine, peers);
    } else {
      PeersIn(peers, {None, Unconfirmed});
      FollowReachesFurthest(mine, peers);
    }
  }
}
