// The hall request assigner as functions on values: the requests and simulated elevators it works on, the initial
// move, the single move, the immediate assignment and the published result.
module HallRequests {
  import opened ElevatorAlgorithm

  // Durations are in milliseconds, simulated clocks in microseconds.
  datatype Config = Config(doorOpenDuration: int, travelDuration: int, clearRequestType: ClearRequestType,
                           includeCab: bool)

  datatype LocalElevatorState =
    LocalElevatorState(behaviour: Behaviour, floor: int, direction: Dirn, cabRequests: seq<bool>)
  {
    predicate AnyCab() {
      exists f :: 0 <= f < |cabRequests| && cabRequests[f]
    }
  }

  // A simulated elevator and its clock.
  datatype State = State(id: string, state: LocalElevatorState, time: int)

  datatype HallCall = Upward | Downward

  // The empty string is the "nobody yet" value of `assignedTo`.
  datatype Req = Req(active: bool, assignedTo: string) {
    predicate IsUnassigned() {
      active && assignedTo == ""
    }
  }

  datatype HallCalls = HallCalls(up: bool, down: bool) {
    predicate At(c: HallCall) {
      if c == Upward then up else down
    }
  }

  datatype FloorReqs = FloorReqs(up: Req, down: Req) {
    function At(c: HallCall): Req {
      if c == Upward then up else down
    }

    function With(c: HallCall, r: Req): FloorReqs {
      if c == Upward then this.(up := r) else this.(down := r)
    }
  }

  type Reqs = seq<FloorReqs>
  type Fleet = map<string, LocalElevatorState>
  type Assignment = map<string, seq<seq<bool>>>

  function CallOf(c: HallCall): CallType {
    if c == Upward then HallUp else HallDown
  }

  // The contract the original asserts on entry.
  predicate ValidInput(hallReqs: seq<HallCalls>, fleet: Fleet) {
    && fleet.Keys != {}
    && forall id :: id in fleet.Keys ==>
         && |fleet[id].cabRequests| == |hallReqs|
         && 0 <= fleet[id].floor < |hallReqs|
         && (fleet[id].behaviour == Moving ==> 0 <= fleet[id].floor + Delta(fleet[id].direction) < |hallReqs|)
  }

  // -------------------------------------------------------------------------------------------- set-up

  function ToReq(hallReqs: seq<HallCalls>): Reqs {
    seq(|hallReqs|, f requires 0 <= f < |hallReqs| => FloorReqs(Req(hallReqs[f].up, ""), Req(hallReqs[f].down, "")))
  }

  // Strings are compared character by character; a proper prefix comes first.
  predicate LexLeq(a: string, b: string) {
    if a == [] then true
    else if b == [] then false
    else a[0] < b[0] || (a[0] == b[0] && LexLeq(a[1..], b[1..]))
  }

  // The dictionary order: after a common beginning, `a` ends or has the smaller character.
  lemma {:induction false} LexLeqExactly(a: string, b: string)
    ensures LexLeq(a, b) <==> exists k :: DiffersAt(a, b, k)
  {
    if a != [] && b != [] && a[0] == b[0] {
      LexLeqExactly(a[1..], b[1..]);
      if k :| DiffersAt(a[1..], b[1..], k) {
        assert a[..k + 1] == [a[0]] + a[1..][..k] && b[..k + 1] == [b[0]] + b[1..][..k];
        assert DiffersAt(a, b, k + 1);
      }
      if k :| DiffersAt(a, b, k) {
        assert k != 0;
        assert a[1..][..k - 1] == a[..k][1..] && b[1..][..k - 1] == b[..k][1..];
        assert DiffersAt(a[1..], b[1..], k - 1);
      }
    } else {
      assert LexLeq(a, b) ==> DiffersAt(a, b, 0);
      if k :| DiffersAt(a, b, k) {
        assert k > 0 ==> a[..k][0] == b[..k][0];
      }
    }
  }

  ghost predicate DiffersAt(a: string, b: string, k: int) {
    0 <= k <= |a| && k <= |b| && a[..k] == b[..k] && (k == |a| || (k < |b| && a[k] < b[k]))
  }

  lemma {:induction false} LexTotal(a: string, b: string)
    ensures LexLeq(a, b) || LexLeq(b, a)
    ensures LexLeq(a, b) && LexLeq(b, a) ==> a == b
  {
    if a != [] && b != [] {
      LexTotal(a[1..], b[1..]);
      assert a == [a[0]] + a[1..] && b == [b[0]] + b[1..];
    }
  }

  lemma {:induction false} LexTransitive(a: string, b: string, c: string)
    requires LexLeq(a, b) && LexLeq(b, c)
    ensures LexLeq(a, c)
  {
    if a != [] && b != [] && c != [] && a[0] == b[0] == c[0] {
      LexTransitive(a[1..], b[1..], c[1..]);
    }
  }

  predicate IsFirstId(first: string, ids: set<string>) {
    first in ids && forall id :: id in ids ==> LexLeq(first, id)
  }

  lemma {:induction false} FirstIdExists(ids: set<string>)
    requires ids != {}
    ensures exists first :: IsFirstId(first, ids)
  {
    var some :| some in ids;
    var rest := ids - {some};
    LexTotal(some, some);
    if rest == {} {
      assert ids == {some};
      assert IsFirstId(some, ids);
    } else {
      FirstIdExists(rest);
      var other :| IsFirstId(other, rest);
      LexTotal(some, other);
      var first := if LexLeq(some, other) then some else other;
      forall id | id in ids
        ensures LexLeq(first, id)
      {
        if id in rest && first == some { LexTransitive(some, other, id); }
      }
      assert IsFirstId(first, ids);
    }
  }

  lemma FirstIdUnique(ids: set<string>)
    ensures forall a, b :: IsFirstId(a, ids) && IsFirstId(b, ids) ==> a == b
  {
    forall a, b | IsFirstId(a, ids) && IsFirstId(b, ids)
      ensures a == b
    {
      LexTotal(a, b);
    }
  }

  // The ids in ascending order.
  function SortedIds(ids: set<string>): (sorted: seq<string>)
    ensures multiset(sorted) == multiset(ids)
    ensures |sorted| == |ids|
  {
    if ids == {} then [] else
      FirstIdExists(ids);
      FirstIdUnique(ids);
      var first :| first in ids && IsFirstId(first, ids);
      assert multiset(ids) == multiset{first} + multiset(ids - {first});
      [first] + SortedIds(ids - {first})
  }

  lemma {:induction false} SortedIdsAscend(ids: set<string>)
    ensures forall i, j :: 0 <= i < j < |ids| ==> LexLeq(SortedIds(ids)[i], SortedIds(ids)[j])
  {
    if ids != {} {
      var sorted := SortedIds(ids);
      SortedIdsAscend(ids - {sorted[0]});
      forall i | 0 <= i < |ids|
        ensures sorted[i] in ids
      {
        assert sorted[i] in multiset(sorted);
      }
    }
  }

  // Elevators in ascending id order; the i-th clock starts at i microseconds.
  function InitialStates(fleet: Fleet): (states: seq<State>) {
    var ids := SortedIds(fleet.Keys);
    assert forall i :: 0 <= i < |ids| ==> ids[i] in multiset(ids);
    seq(|ids|, i requires 0 <= i < |ids| => assert ids[i] in multiset(ids); State(ids[i], fleet[ids[i]], i))
  }

  // The conversions of a simulated elevator and the requests nobody has taken yet into the algorithm's input.
  function View(s: State, reqs: Reqs): ElevatorState
    requires |s.state.cabRequests| == |reqs|
  {
    var l := s.state;
    ElevatorState(l.behaviour, l.floor, l.direction,
                  seq(|reqs|, f requires 0 <= f < |reqs| =>
                    Calls(reqs[f].up.IsUnassigned(), reqs[f].down.IsUnassigned(), l.cabRequests[f])))
  }

  predicate InBounds(s: State, floors: nat) {
    |s.state.cabRequests| == floors && 0 <= s.state.floor < floors
  }

  predicate AnyUnassigned(reqs: Reqs) {
    exists f :: 0 <= f < |reqs| && (reqs[f].up.IsUnassigned() || reqs[f].down.IsUnassigned())
  }

  // -------------------------------------------------------------------------------------------- moves

  // The initial move takes every *active* request, even one that an earlier elevator has taken.
  function Take(r: Req, id: string): Req {
    if r.active then r.(assignedTo := id) else r
  }

  function InitialMove(cfg: Config, s: State, reqs: Reqs): (State, Reqs)
    requires s.state.behaviour != Moving ==> 0 <= s.state.floor < |reqs|
  {
    if s.state.behaviour == Moving then
      (s.(state := s.state.(floor := s.state.floor + Delta(s.state.direction)),
          time := s.time + 500 * cfg.travelDuration), reqs)
    else
      var here := reqs[s.state.floor];
      var closing := if s.state.behaviour == DoorOpen then 500 * cfg.doorOpenDuration else 0;
      var serving := (if here.up.active then 1000 * cfg.doorOpenDuration else 0) +
                     (if here.down.active then 1000 * cfg.doorOpenDuration else 0);
      (s.(time := s.time + closing + serving),
       reqs[s.state.floor := FloorReqs(Take(here.up, s.id), Take(here.down, s.id))])
  }

  // The effect of the clearing callbacks of one stop on the requests and on the elevator's own cab calls.
  function ServedReq(cfg: Config, s: State, reqs: Reqs, c: HallCall): Req
    requires InBounds(s, |reqs|)
  {
    var r := reqs[s.state.floor].At(c);
    if Clears(cfg.clearRequestType, View(s, reqs), CallOf(c)) then r.(assignedTo := s.id) else r
  }

  function ServedReqs(cfg: Config, s: State, reqs: Reqs): Reqs
    requires InBounds(s, |reqs|)
  {
    reqs[s.state.floor := FloorReqs(ServedReq(cfg, s, reqs, Upward), ServedReq(cfg, s, reqs, Downward))]
  }

  function ServedCabs(cfg: Config, s: State, reqs: Reqs): seq<bool>
    requires InBounds(s, |reqs|)
  {
    if Clears(cfg.clearRequestType, View(s, reqs), Cab) then s.state.cabRequests[s.state.floor := false]
    else s.state.cabRequests
  }

  // One move of the simulation. What a stop clears depends on the direction from before this move.
  function SingleMove(cfg: Config, s: State, reqs: Reqs): (State, Reqs)
    requires InBounds(s, |reqs|)
  {
    var e := View(s, reqs);
    var l := s.state;
    if l.behaviour == Moving then
      if ShouldStop(e) then
        (State(s.id, l.(behaviour := DoorOpen, cabRequests := ServedCabs(cfg, s, reqs)),
               s.time + 1000 * cfg.doorOpenDuration),
         ServedReqs(cfg, s, reqs))
      else
        (State(s.id, l.(floor := l.floor + Delta(l.direction)), s.time + 1000 * cfg.travelDuration), reqs)
    else
      var d := ChooseDirection(e);
      if d != Stop then
        (State(s.id, l.(direction := d, behaviour := Moving, floor := l.floor + Delta(d)),
               s.time + 1000 * cfg.travelDuration), reqs)
      else if AnyRequestsAtFloor(e) then
        (State(s.id, l.(direction := Stop, behaviour := DoorOpen, cabRequests := ServedCabs(cfg, s, reqs)),
               s.time + 1000 * cfg.doorOpenDuration),
         ServedReqs(cfg, s, reqs))
      else
        (s.(state := l.(direction := Stop, behaviour := Idle)), reqs)
  }

  // -------------------------------------------------------------------------------------------- the shortcut

  predicate Free(s: State, f: int) {
    s.state.floor == f && !s.state.AnyCab()
  }

  predicate ImmediatelyAssignable(reqs: Reqs, states: seq<State>) {
    && (forall s :: s in states ==> !s.state.AnyCab())
    && (forall f :: 0 <= f < |reqs| ==> !(reqs[f].up.active && reqs[f].down.active))
    && (forall f, c :: 0 <= f < |reqs| && reqs[f].At(c).IsUnassigned() ==> exists s :: s in states && Free(s, f))
  }

  // A request is offered to the first `k` elevators in order; each takes it if it is still unassigned and the
  // elevator stands free at the floor.
  function Offer(cfg: Config, r: Req, f: int, states: seq<State>, k: nat): (out: (Req, seq<State>))
    requires k <= |states|
    ensures |out.1| == |states|
  {
    if k == 0 then (r, states) else
      var (r1, states1) := Offer(cfg, r, f, states, k - 1);
      var s := states1[k - 1];
      if r1.IsUnassigned() && Free(s, f) then
        (r1.(assignedTo := s.id), states1[k - 1 := s.(time := s.time + 1000 * cfg.doorOpenDuration)])
      else
        (r1, states1)
  }

  function OfferAll(cfg: Config, r: Req, f: int, states: seq<State>): (out: (Req, seq<State>))
    ensures |out.1| == |states|
  {
    Offer(cfg, r, f, states, |states|)
  }

  // The assignment of the requests on the floors below `f`.
  function AssignBelow(cfg: Config, reqs: Reqs, states: seq<State>, f: nat): (out: (Reqs, seq<State>))
    requires f <= |reqs|
    ensures |out.0| == |reqs| && |out.1| == |states|
  {
    if f == 0 then (reqs, states) else
      var (reqs1, states1) := AssignBelow(cfg, reqs, states, f - 1);
      var (up, states2) := OfferAll(cfg, reqs1[f - 1].up, f - 1, states1);
      var (down, states3) := OfferAll(cfg, reqs1[f - 1].down, f - 1, states2);
      (reqs1[f - 1 := FloorReqs(up, down)], states3)
  }

  // -------------------------------------------------------------------------------------------- the result

  // One row of the result: the two hall calls and, when asked for, the cab call of the input.
  function Row(cfg: Config, fleet: Fleet, r: FloorReqs, id: string, f: nat): seq<bool>
    requires id in fleet && f < |fleet[id].cabRequests|
  {
    [r.up.active && r.up.assignedTo == id, r.down.active && r.down.assignedTo == id] +
    (if cfg.includeCab then [fleet[id].cabRequests[f]] else [])
  }

  function Publish(cfg: Config, fleet: Fleet, reqs: Reqs): Assignment
    requires forall id :: id in fleet ==> |fleet[id].cabRequests| == |reqs|
  {
    map id | id in fleet :: seq(|reqs|, f requires 0 <= f < |reqs| => Row(cfg, fleet, reqs[f], id, f))
  }
}
