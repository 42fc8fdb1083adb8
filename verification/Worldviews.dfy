// The worldview a node keeps: its hall orders, its elevator's state, the cab orders of everybody, and what it has
// last heard from its peers. Functions of the events a node reacts to, cell by cell over its hall orders.
module Worldviews {
  import opened ElevatorAlgorithm
  import opened Orders

  datatype HallDir = ToUp | ToDown

  datatype HallRow = HallRow(up: Order, down: Order) {
    function At(d: HallDir): Order {
      if d == ToUp then up else down
    }

    function With(d: HallDir, o: Order): HallRow {
      if d == ToUp then this.(up := o) else this.(down := o)
    }
  }

  type HallOrders = seq<HallRow>

  datatype CarState = CarState(floor: int, dirn: Dirn, behaviour: Behaviour, requests: seq<Calls>, error: bool)

  datatype Worldview = Worldview(idElevator: string, hallOrders: HallOrders, state: CarState,
                                 allCabOrders: map<string, seq<bool>>, errorState: bool, dead: bool)

  type Views = map<string, Worldview>

  function HallCall(d: HallDir): CallType {
    if d == ToUp then HallUp else HallDown
  }

  // All matrices have one row for each floor.
  ghost predicate ShapedWorldview(wv: Worldview, floors: nat) {
    && |wv.hallOrders| == |wv.state.requests| == floors
    && forall id :: id in wv.allCabOrders ==> |wv.allCabOrders[id]| == floors
  }

  ghost predicate ShapedViews(views: Views, floors: nat) {
    forall id :: id in views ==> ShapedWorldview(views[id], floors)
  }

  // ------------------------------------------------------------------------------------------ events

  // The floor whose hall orders may just have been served: the one where the door is open, or was until now.
  function CheckFloor(prev: CarState, now: CarState): int {
    if now.behaviour == DoorOpen then now.floor
    else if prev.behaviour == DoorOpen then prev.floor
    else -1
  }

  predicate IsServed(o: Order, prev: CarState, now: CarState, f: int, d: HallDir, myID: string)
    requires 0 <= f < |prev.requests| && f < |now.requests|
  {
    !now.requests[f].Has(HallCall(d)) && (prev.requests[f].Has(HallCall(d)) || o.ownerId == myID)
  }

  function ServedCell(o: Order, prev: CarState, now: CarState, f: int, d: HallDir, myID: string): Order
    requires |prev.requests| == |now.requests|
  {
    if 0 <= now.floor < |now.requests| && f == CheckFloor(prev, now) && 0 <= f < |now.requests| &&
       IsServed(o, prev, now, f, d, myID)
    then Served(o) else o
  }

  // The effect of a report of the node's own elevator on one hall order, including an error report.
  function ReportedCell(o: Order, prev: CarState, now: CarState, f: int, d: HallDir, myID: string): Order
    requires |prev.requests| == |now.requests|
  {
    var served := ServedCell(o, prev, now, f, d, myID);
    if now.error then MarkedDead(served, myID) else served
  }

  function CabsAfter(cabs: map<string, seq<bool>>, now: CarState, myID: string): map<string, seq<bool>>
    requires forall id :: id in cabs ==> |cabs[id]| == |now.requests|
  {
    if 0 <= now.floor < |now.requests| && myID in cabs && cabs[myID][now.floor]
    then cabs[myID := cabs[myID][now.floor := false]] else cabs
  }

  function ReportedOrders(ho: HallOrders, prev: CarState, now: CarState, myID: string): HallOrders
    requires |prev.requests| == |now.requests|
  {
    seq(|ho|, f requires 0 <= f < |ho| =>
      HallRow(ReportedCell(ho[f].up, prev, now, f, ToUp, myID), ReportedCell(ho[f].down, prev, now, f, ToDown, myID)))
  }

  function AfterReport(wv: Worldview, now: CarState, myID: string): Worldview
    requires |wv.state.requests| == |now.requests|
    requires forall id :: id in wv.allCabOrders ==> |wv.allCabOrders[id]| == |now.requests|
  {
    wv.(state := now, errorState := now.error, allCabOrders := CabsAfter(wv.allCabOrders, now, myID),
        hallOrders := ReportedOrders(wv.hallOrders, wv.state, now, myID))
  }

  // The orders of a node that has stopped serving what it owned.
  function MarkedDeadOrders(ho: HallOrders, lostId: string): HallOrders {
    seq(|ho|, f requires 0 <= f < |ho| => HallRow(MarkedDead(ho[f].up, lostId), MarkedDead(ho[f].down, lostId)))
  }

  function AfterHallPress(wv: Worldview, f: int, d: HallDir): Worldview {
    if 0 <= f < |wv.hallOrders| then
      wv.(hallOrders := wv.hallOrders[f := wv.hallOrders[f].With(d, Pressed(wv.hallOrders[f].At(d)))])
    else wv
  }

  // A worldview nobody has ever sent.
  function BlankWorldview(floors: nat): Worldview {
    Worldview("", seq(floors, f => HallRow(EMPTY_ORDER, EMPTY_ORDER)),
              CarState(0, Stop, Idle, seq(floors, f => Calls(false, false, false)), false), map[], false, false)
  }

  function AfterLoss(views: Views, floors: nat, myID: string, lostId: string): Views
    requires myID in views
  {
    if lostId == myID then views else
      var lost := (if lostId in views then views[lostId] else BlankWorldview(floors)).(dead := true);
      views[lostId := lost][myID := views[myID].(hallOrders := MarkedDeadOrders(views[myID].hallOrders, lostId))]
  }

  function AfterPeer(views: Views, floors: nat, myID: string, peer: Worldview): Views
    requires myID in views
  {
    if peer.idElevator == myID then views else
      var id := peer.idElevator;
      var wv := views[myID];
      var cabs := if id in peer.allCabOrders then peer.allCabOrders[id] else seq(floors, f => false);
      var orders := if peer.errorState then MarkedDeadOrders(wv.hallOrders, id) else wv.hallOrders;
      views[id := peer][myID := wv.(allCabOrders := wv.allCabOrders[id := cabs], hallOrders := orders)]
  }

  // The result of an assignment: each confirmed order without a living owner goes to one of the elevators the
  // assignment names for it, if there is any.
  ghost predicate AssignedCell(o: Order, o': Order, assignment: map<string, seq<seq<bool>>>, f: nat, d: HallDir) {
    if CanAssign(o) && exists id :: Names(assignment, id, f, d) then
      exists id :: Names(assignment, id, f, d) && o' == Assigned(o, id)
    else o' == o
  }

  predicate Names(assignment: map<string, seq<seq<bool>>>, id: string, f: nat, d: HallDir) {
    id in assignment && f < |assignment[id]| && 2 <= |assignment[id][f]| &&
    assignment[id][f][if d == ToUp then 0 else 1]
  }

  ghost predicate AssignedOrders(ho: HallOrders, ho': HallOrders, assignment: map<string, seq<seq<bool>>>) {
    |ho'| == |ho| && forall f: nat, d :: f < |ho| ==> AssignedCell(ho[f].At(d), ho'[f].At(d), assignment, f, d)
  }

  // ------------------------------------------------------------------------------------------ synchronisation

  // The orders of all alive nodes for one cell.
  ghost function AliveAt(views: Views, floors: nat, f: nat, d: HallDir): set<Order>
    requires ShapedViews(views, floors) && f < floors
  {
    set id | id in views && !views[id].dead :: views[id].hallOrders[f].At(d)
  }

  // The orders of the alive peers for one cell, in the order in which the map is traversed.
  ghost function OthersAt(views: Views, floors: nat, myID: string, visit: seq<string>, f: nat, d: HallDir): seq<Order>
    requires ShapedViews(views, floors) && f < floors
    requires forall id :: id in visit ==> id in views
  {
    if visit == [] then [] else
      var id := visit[|visit| - 1];
      var before := OthersAt(views, floors, myID, visit[..|visit| - 1], f, d);
      if views[id].dead || views[id].idElevator == myID then before else before + [views[id].hallOrders[f].At(d)]
  }

  // A traversal of the map meets every key once.
  ghost predicate IsTraversal(visit: seq<string>, ids: set<string>) {
    multiset(visit) == multiset(ids)
  }

  lemma TraversalMeetsKeys(visit: seq<string>, ids: set<string>)
    requires IsTraversal(visit, ids)
    ensures forall id :: id in visit <==> id in ids
  {
    forall id
      ensures id in visit <==> id in ids
    {
      assert id in visit <==> id in multiset(visit);
    }
  }

  ghost predicate SyncedWith(views: Views, floors: nat, myID: string, visit: seq<string>, synced: HallOrders)
    requires ShapedViews(views, floors) && myID in views
  {
    && |synced| == floors
    && (forall id :: id in visit ==> id in views)
    && forall f: nat, d :: f < floors ==>
         synced[f].At(d) == SyncCell(views[myID].hallOrders[f].At(d), AliveAt(views, floors, f, d),
                                     OthersAt(views, floors, myID, visit, f, d))
  }

  function MergeRow(local: HallRow, synced: HallRow): HallRow {
    HallRow(Merge(local.up, synced.up), Merge(local.down, synced.down))
  }

  function MergeOrders(local: HallOrders, synced: HallOrders): HallOrders
    requires |local| == |synced|
  {
    seq(|local|, f requires 0 <= f < |local| => MergeRow(local[f], synced[f]))
  }
}
