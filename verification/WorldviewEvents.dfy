// What each event of the worldview loop does to each order and each cab call.
module WorldviewEvents {
  import opened ElevatorAlgorithm
  import opened Orders
  import opened Worldviews

  // ------------------------------------------------------------------------------------------ a report

  // The car stands with its door open at the floor, or has just closed it there, and has no request for the call.
  ghost predicate HasServed(prev: CarState, now: CarState, f: int, d: HallDir) {
    && 0 <= now.floor < |now.requests| && 0 <= f < |now.requests|
    && (now.behaviour == DoorOpen ==> f == now.floor)
    && (now.behaviour != DoorOpen ==> prev.behaviour == DoorOpen && f == prev.floor)
    && !(if d == ToUp then now.requests[f].up else now.requests[f].down)
  }

  // The call was one of the car's own.
  ghost predicate WasTheirs(o: Order, prev: CarState, f: int, d: HallDir, myID: string)
    requires 0 <= f < |prev.requests|
  {
    (if d == ToUp then prev.requests[f].up else prev.requests[f].down) || o.ownerId == myID
  }

  // Exactly which orders a report changes: confirmed ones, which the car has served, or which its own node gives up
  // because of an error.
  lemma ReportExactly(wv: Worldview, now: CarState, myID: string, f: nat, d: HallDir)
    requires ShapedWorldview(wv, |now.requests|) && f < |wv.hallOrders|
    ensures var (o, o') := (wv.hallOrders[f].At(d), AfterReport(wv, now, myID).hallOrders[f].At(d));
            var served := HasServed(wv.state, now, f, d) && WasTheirs(o, wv.state, f, d, myID);
            o' == if o.syncState == Confirmed && served then Order(DeleteProposed, o.ownerId)
                  else if o.syncState == Confirmed && now.error && o.ownerId == myID then ORPHAN_ORDER
                  else o
  {
  }

  // A report drops the node's own cab call at the floor, and no other one of anybody.
  lemma ReportServesCab(wv: Worldview, now: CarState, myID: string, id: string, f: nat)
    requires ShapedWorldview(wv, |now.requests|) && id in wv.allCabOrders && f < |now.requests|
    ensures var wv' := AfterReport(wv, now, myID);
            && wv'.allCabOrders.Keys == wv.allCabOrders.Keys && |wv'.allCabOrders[id]| == |wv.allCabOrders[id]|
            && (wv'.allCabOrders[id][f] <==> wv.allCabOrders[id][f] && !(id == myID && f == now.floor))
  {
  }

  lemma ReportIsStored(wv: Worldview, now: CarState, myID: string)
    requires ShapedWorldview(wv, |now.requests|)
    ensures var wv' := AfterReport(wv, now, myID);
            && wv'.state == now && (wv'.errorState <==> now.error)
            && wv'.dead == wv.dead && wv'.idElevator == wv.idElevator
  {
  }

  // ------------------------------------------------------------------------------------------ the loss of a node

  // Exactly the confirmed orders of the lost node are marked, in the own orders only; and the lost node counts as dead
  // from then on.
  lemma LossExactly(views: Views, floors: nat, myID: string, lostId: string)
    requires myID in views && lostId != myID
    ensures var (ho, after) := (views[myID].hallOrders, AfterLoss(views, floors, myID, lostId));
            && after.Keys == views.Keys + {lostId} && after[lostId].dead
            && (forall id :: id in views && id != myID && id != lostId ==> after[id] == views[id])
            && (lostId in views ==> after[lostId] == views[lostId].(dead := true))
            && (lostId !in views ==> forall row :: row in after[lostId].hallOrders ==>
                  row.up == row.down == EMPTY_ORDER)
            && after[myID] == views[myID].(hallOrders := after[myID].hallOrders) && |after[myID].hallOrders| == |ho|
            && forall f: nat, d :: f < |ho| ==>
                 var o := ho[f].At(d);
                 after[myID].hallOrders[f].At(d) ==
                   if o.syncState == Confirmed && o.ownerId == lostId then ORPHAN_ORDER else o
  {
  }

  lemma OwnLossIsIgnored(views: Views, floors: nat, myID: string)
    requires myID in views
    ensures AfterLoss(views, floors, myID, myID) == views
  {
  }

  // ------------------------------------------------------------------------------------------ a peer

  // A peer's worldview replaces what was known of it. Of the own worldview only the copy of the peer's cab calls
  // changes, and, if the peer reports an error, its confirmed orders.
  lemma PeerExactly(views: Views, floors: nat, myID: string, peer: Worldview)
    requires myID in views && peer.idElevator != myID
    ensures var (id, own, after) := (peer.idElevator, views[myID], AfterPeer(views, floors, myID, peer));
            && after.Keys == views.Keys + {id} && after[id] == peer
            && (forall other :: other in views && other != myID && other != id ==> after[other] == views[other])
            && after[myID] == own.(hallOrders := after[myID].hallOrders, allCabOrders := after[myID].allCabOrders)
            && |after[myID].hallOrders| == |own.hallOrders|
            && (forall f: nat, d :: f < |own.hallOrders| ==>
                  var o := own.hallOrders[f].At(d);
                  after[myID].hallOrders[f].At(d) ==
                    if peer.errorState && o.syncState == Confirmed && o.ownerId == id then ORPHAN_ORDER else o)
            && after[myID].allCabOrders.Keys == own.allCabOrders.Keys + {id}
            && (forall other :: other in own.allCabOrders && other != id ==>
                  after[myID].allCabOrders[other] == own.allCabOrders[other])
            && (id in peer.allCabOrders ==> after[myID].allCabOrders[id] == peer.allCabOrders[id])
            && (id !in peer.allCabOrders ==> forall f :: f in after[myID].allCabOrders[id] ==> !f)
  {
  }

  lemma OwnEchoIsIgnored(views: Views, floors: nat, myID: string, peer: Worldview)
    requires myID in views && peer.idElevator == myID
    ensures AfterPeer(views, floors, myID, peer) == views
  {
  }

  // ------------------------------------------------------------------------------------------ a hall button

  // A press creates the order if it does not exist, and does nothing else.
  lemma HallPressExactly(wv: Worldview, f: int, d: HallDir)
    ensures var wv' := AfterHallPress(wv, f, d);
            && wv' == wv.(hallOrders := wv'.hallOrders) && |wv'.hallOrders| == |wv.hallOrders|
            && forall g: nat, e :: g < |wv.hallOrders| ==>
                 wv'.hallOrders[g].At(e) ==
                   if g == f && e == d && wv.hallOrders[g].At(e).syncState == None
                   then Order(Unconfirmed, NO_OWNER) else wv.hallOrders[g].At(e)
  {
  }

  // ------------------------------------------------------------------------------------------ an assignment

  ghost predicate Gives(assignment: map<string, seq<seq<bool>>>, id: string, f: nat, d: HallDir) {
    && id in assignment && f < |assignment[id]| && 2 <= |assignment[id][f]|
    && (if d == ToUp then assignment[id][f][0] else assignment[id][f][1])
  }

  // An assignment gives exactly the confirmed orders without a living owner to elevators it names for them, and leaves
  // the states alone.
  lemma AssignmentExactly(ho: HallOrders, ho': HallOrders, assignment: map<string, seq<seq<bool>>>, f: nat, d: HallDir)
    requires AssignedOrders(ho, ho', assignment) && f < |ho|
    ensures |ho'| == |ho| && ho'[f].At(d).syncState == ho[f].At(d).syncState
    ensures var (o, o') := (ho[f].At(d), ho'[f].At(d));
            if o.syncState == Confirmed && (o.ownerId == NO_OWNER || o.ownerId == PEER_DIED) &&
               exists id :: Gives(assignment, id, f, d)
            then Gives(assignment, o'.ownerId, f, d) else o' == o
  {
    assert AssignedCell(ho[f].At(d), ho'[f].At(d), assignment, f, d);
    assert forall id :: Gives(assignment, id, f, d) <==> Names(assignment, id, f, d);
  }
}
