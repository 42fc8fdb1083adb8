// The node's event loop: one method for each kind of event, updating the node's map of worldviews.
module WorldviewNode {
  import opened ElevatorAlgorithm
  import opened Orders
  import opened Worldviews

  method MarkPeerDead(orders: HallOrders, lostId: string) returns (ho: HallOrders)
    ensures ho == MarkedDeadOrders(orders, lostId)
  {
    ho := orders;
    for f := 0 to |orders|
      invariant |ho| == |orders|
      invariant forall g :: 0 <= g < f ==> ho[g] == MarkedDeadOrders(orders, lostId)[g]
      invariant forall g :: f <= g < |orders| ==> ho[g] == orders[g]
    {
      ho := MarkCell(ho, f, ToUp, lostId);
      ho := MarkCell(ho, f, ToDown, lostId);
    }
  }

  method MarkCell(orders: HallOrders, f: nat, d: HallDir, lostId: string) returns (ho: HallOrders)
    requires f < |orders|
    ensures ho == orders[f := orders[f].With(d, MarkedDead(orders[f].At(d), lostId))]
  {
    var order := orders[f].At(d);
    if order.ownerId == lostId && order.syncState == Confirmed {
      order := order.(syncState := Unconfirmed);
      order := order.(ownerId := PEER_DIED);
    }
    ho := orders[f := orders[f].With(d, order)];
  }

  method MergeSynced(local: HallOrders, synced: HallOrders) returns (ho: HallOrders)
    requires |local| == |synced|
    ensures ho == MergeOrders(local, synced)
  {
    ho := synced;
    for f := 0 to |local|
      invariant |ho| == |synced|
      invariant forall g :: 0 <= g < f ==> ho[g] == MergeOrders(local, synced)[g]
      invariant forall g :: f <= g < |synced| ==> ho[g] == synced[g]
    {
      ho := MergeCell(local, ho, f, ToUp);
      ho := MergeCell(local, ho, f, ToDown);
    }
  }

  method MergeCell(local: HallOrders, synced: HallOrders, f: nat, d: HallDir) returns (ho: HallOrders)
    requires f < |local| == |synced|
    ensures ho == synced[f := synced[f].With(d, Merge(local[f].At(d), synced[f].At(d)))]
  {
    ho := synced;
    var localOrder := local[f].At(d);
    var syncOrder := synced[f].At(d);
    if !ShouldAccept(localOrder, syncOrder) {
      ho := ho[f := ho[f].With(d, localOrder)];
      return;
    }
    if syncOrder.syncState == localOrder.syncState && localOrder.ownerId != NO_OWNER && localOrder.syncState != None {
      ho := ho[f := ho[f].With(d, syncOrder.(ownerId := localOrder.ownerId))];
    }
  }

  // The assignment is a map; the first elevator met that it names for an order becomes the owner.
  method AssignOwner(order: Order, assignment: map<string, seq<seq<bool>>>, f: nat, d: HallDir) returns (o: Order)
    ensures AssignedCell(order, o, assignment, f, d)
  {
    o := order;
    if CanAssign(order) {
      var left := assignment.Keys;
      while left != {}
        invariant left <= assignment.Keys && o == order
        invariant forall id :: Names(assignment, id, f, d) ==> id in left
      {
        var id :| id in left;
        left := left - {id};
        if Names(assignment, id, f, d) {
          o := o.(ownerId := id);
          assert o == Assigned(order, id);
          break;
        }
      }
    }
  }

  method UpdateOwnerIDs(orders: HallOrders, assignment: map<string, seq<seq<bool>>>) returns (ho: HallOrders)
    ensures AssignedOrders(orders, ho, assignment)
  {
    ho := orders;
    for f := 0 to |orders|
      invariant |ho| == |orders|
      invariant forall g: nat, d :: g < f ==> AssignedCell(orders[g].At(d), ho[g].At(d), assignment, g, d)
      invariant forall g :: f <= g < |orders| ==> ho[g] == orders[g]
    {
      var up := AssignOwner(ho[f].At(ToUp), assignment, f, ToUp);
      ho := ho[f := ho[f].With(ToUp, up)];
      var down := AssignOwner(ho[f].At(ToDown), assignment, f, ToDown);
      ho := ho[f := ho[f].With(ToDown, down)];
      assert orders[f].At(ToUp) == orders[f].up && orders[f].At(ToDown) == orders[f].down;
    }
  }

  method ServeCell(orders: HallOrders, prev: CarState, now: CarState, f: nat, d: HallDir, myID: string)
    returns (ho: HallOrders)
    requires f < |orders| && f < |prev.requests| && f < |now.requests|
    ensures ho == orders[f := orders[f].With(d, if IsServed(orders[f].At(d), prev, now, f, d, myID)
                                                then Served(orders[f].At(d)) else orders[f].At(d))]
  {
    ho := orders;
    var order := orders[f].At(d);
    if order.syncState == Confirmed && !now.requests[f].Has(HallCall(d)) &&
       (prev.requests[f].Has(HallCall(d)) || order.ownerId == myID) {
      order := order.(syncState := DeleteProposed);
      ho := ho[f := ho[f].With(d, order)];
    }
  }

  ghost function ServedOrders(ho: HallOrders, prev: CarState, now: CarState, myID: string): HallOrders
    requires |prev.requests| == |now.requests|
  {
    seq(|ho|, f requires 0 <= f < |ho| =>
      HallRow(ServedCell(ho[f].up, prev, now, f, ToUp, myID), ServedCell(ho[f].down, prev, now, f, ToDown, myID)))
  }

  // What a report of the own elevator does to the worldview, before errors are looked at.
  method UpdateWithElevatorState(worldview: Worldview, now: CarState, myID: string) returns (wv: Worldview)
    requires ShapedWorldview(worldview, |now.requests|)
    ensures wv == worldview.(state := now, allCabOrders := CabsAfter(worldview.allCabOrders, now, myID),
                             hallOrders := ServedOrders(worldview.hallOrders, worldview.state, now, myID))
  {
    wv := worldview;
    var prev := worldview.state;
    var floors := |now.requests|;
    wv := wv.(state := now);
    if 0 <= now.floor < floors {
      if myID in wv.allCabOrders && wv.allCabOrders[myID][now.floor] {
        wv := wv.(allCabOrders := wv.allCabOrders[myID := wv.allCabOrders[myID][now.floor := false]]);
      }
      var checkFloor := -1;
      if now.behaviour == DoorOpen {
        checkFloor := now.floor;
      } else if prev.behaviour == DoorOpen {
        checkFloor := prev.floor;
      }
      if 0 <= checkFloor < floors {
        var ho := ServeCell(wv.hallOrders, prev, now, checkFloor, ToUp, myID);
        ho := ServeCell(ho, prev, now, checkFloor, ToDown, myID);
        wv := wv.(hallOrders := ho);
      }
    }
    assert wv.hallOrders == ServedOrders(worldview.hallOrders, prev, now, myID);
  }

  class Node {
    const floors: nat
    const myID: string
    var views: Views
    var hasNetwork: bool

    ghost predicate Valid()
      reads this
    {
      myID in views && ShapedViews(views, floors)
    }

    constructor (myID: string, floors: nat, initial: Worldview)
      requires ShapedWorldview(initial, floors)
      ensures Valid() && this.myID == myID && this.floors == floors && hasNetwork && views == map[myID := initial]
    {
      this.myID := myID;
      this.floors := floors;
      views := map[myID := initial];
      hasNetwork := true;
    }

    method OnElevatorState(now: CarState)
      requires Valid() && |now.requests| == floors
      modifies this
      ensures Valid() && hasNetwork == old(hasNetwork)
      ensures views == old(views)[myID := AfterReport(old(views[myID]), now, myID)]
    {
      var wv := UpdateWithElevatorState(views[myID], now, myID);
      if now.error {
        wv := wv.(errorState := true);
        var ho := MarkPeerDead(wv.hallOrders, myID);
        wv := wv.(hallOrders := ho);
      } else {
        wv := wv.(errorState := false);
      }
      assert wv.hallOrders == AfterReport(views[myID], now, myID).hallOrders;
      views := views[myID := wv];
    }

    method OnSynced(synced: HallOrders)
      requires Valid() && |synced| == floors
      modifies this
      ensures Valid() && hasNetwork == old(hasNetwork)
      ensures var own := old(views[myID]);
              views == old(views)[myID := own.(hallOrders := MergeOrders(own.hallOrders, synced))]
    {
      var ho := MergeSynced(views[myID].hallOrders, synced);
      views := views[myID := views[myID].(hallOrders := ho)];
    }

    method OnPeerWorldview(peer: Worldview)
      requires Valid() && ShapedWorldview(peer, floors)
      modifies this
      ensures Valid() && hasNetwork == old(hasNetwork)
      ensures views == AfterPeer(old(views), floors, myID, peer)
    {
      if peer.idElevator == myID {
        return;
      }
      var id := peer.idElevator;
      views := views[id := peer];
      var wv := views[myID];
      var cabs := if id in peer.allCabOrders then peer.allCabOrders[id] else seq(floors, f => false);
      wv := wv.(allCabOrders := wv.allCabOrders[id := cabs]);
      if peer.errorState {
        var ho := MarkPeerDead(wv.hallOrders, id);
        wv := wv.(hallOrders := ho);
      }
      views := views[myID := wv];
    }

    method OnLostPeer(lostId: string)
      requires Valid()
      modifies this
      ensures Valid() && hasNetwork == (old(hasNetwork) && lostId != myID)
      ensures views == AfterLoss(old(views), floors, myID, lostId)
    {
      if lostId == myID {
        hasNetwork := false;
        return;
      }
      var lost := if lostId in views then views[lostId] else BlankWorldview(floors);
      views := views[lostId := lost.(dead := true)];
      var ho := MarkPeerDead(views[myID].hallOrders, lostId);
      views := views[myID := views[myID].(hallOrders := ho)];
    }

    // A button outside the matrix is ignored, and so is every button while the node has no network.
    method OnHallButton(f: int, d: HallDir)
      requires Valid()
      modifies this
      ensures Valid() && hasNetwork == old(hasNetwork)
      ensures views == if hasNetwork then old(views)[myID := AfterHallPress(old(views[myID]), f, d)] else old(views)
    {
      if hasNetwork {
        var wv := views[myID];
        if 0 <= f < |wv.hallOrders| {
          var order := wv.hallOrders[f].At(d);
          if order.syncState == None {
            order := order.(syncState := Unconfirmed);
            order := order.(ownerId := NO_OWNER);
          }
          wv := wv.(hallOrders := wv.hallOrders[f := wv.hallOrders[f].With(d, order)]);
        }
        views := views[myID := wv];
      }
    }

    method OnAssignment(assignment: map<string, seq<seq<bool>>>)
      requires Valid()
      modifies this
      ensures Valid() && hasNetwork == old(hasNetwork)
      ensures exists ho :: AssignedOrders(old(views[myID]).hallOrders, ho, assignment) &&
                           views == old(views)[myID := old(views[myID]).(hallOrders := ho)]
    {
      var ho := UpdateOwnerIDs(views[myID].hallOrders, assignment);
      views := views[myID := views[myID].(hallOrders := ho)];
    }
  }
}
