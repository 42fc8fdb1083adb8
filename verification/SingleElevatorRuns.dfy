// Runs of one elevator under any interleaving of button presses, floor arrivals and door timeouts.
module SingleElevatorRuns {
  import opened ElevatorAlgorithm
  import opened SingleElevator

  datatype Event = Pressed(floor: int, call: CallType) | Arrived | TimedOut

  // Buttons can be pressed at any time. The car reaches the next floor in its direction of travel only while it is
  // moving, and the timer goes off only while it is armed.
  predicate Possible(c: Car, ev: Event) {
    match ev
    case Pressed(f, _) => 0 <= f < |c.e.requests|
    case Arrived => c.e.behaviour == Moving
    case TimedOut => c.timerArmed
  }

  ghost predicate Inv(c: Car) {
    && OnFloor(c.e)
    && (c.e.behaviour == Idle ==> c.e.direction == Stop && !RequestsAbove(c.e) && !RequestsBelow(c.e) &&
                                  !AnyRequestsAtFloor(c.e))
    && (c.e.behaviour == Moving ==> RequestAhead(c.e))
    && (c.e.behaviour == DoorOpen ==> NothingToServeHere(c.e))
    && c.motor == (if c.e.behaviour == Moving then c.e.direction else Stop)
    && c.doorLamp == c.timerArmed == (c.e.behaviour == DoorOpen)
    && c.lamps == c.e.requests
  }

  ghost predicate RequestAhead(e: ElevatorState) {
    match e.direction
    case Up => RequestsAbove(e)
    case Down => RequestsBelow(e)
    case Stop => false
  }

  ghost predicate NothingToServeHere(e: ElevatorState)
    requires OnFloor(e)
  {
    var here := e.requests[e.floor];
    && !here.cab
    && (e.direction != Down ==> !here.up)
    && (e.direction != Up ==> !here.down)
  }

  // Safe states: the motor never pushes the car past an end floor and never runs with the door open; an open door
  // has its timer running; the lamps show exactly what is requested.
  ghost predicate Safe(c: Car) {
    && (c.motor == Up ==> 0 <= c.e.floor < |c.e.requests| - 1)
    && (c.motor == Down ==> 0 < c.e.floor < |c.e.requests|)
    && !(c.motor != Stop && c.doorLamp)
    && (c.doorLamp ==> c.timerArmed)
    && c.lamps == c.e.requests
  }

  function After(c: Car, ev: Event): Car
    requires Possible(c, ev) && OnFloor(c.e)
    requires ev == Arrived ==> 0 <= c.e.floor + Delta(c.e.direction) < |c.e.requests|
  {
    match ev
    case Pressed(f, b) => Press(c, f, b)
    case Arrived => Arrive(c, c.e.floor + Delta(c.e.direction))
    case TimedOut => DoorTimeout(c)
  }

  // In a state that satisfies the invariant every possible event can be handled.
  lemma ArrivalStaysInShaft(c: Car)
    requires Inv(c) && c.e.behaviour == Moving
    ensures 0 <= c.e.floor + Delta(c.e.direction) < |c.e.requests|
  {
  }

  ghost function Step(c: Car, ev: Event): Car
    requires Inv(c) && Possible(c, ev)
  {
    if ev == Arrived then ArrivalStaysInShaft(c); After(c, ev) else After(c, ev)
  }

  // ------------------------------------------------------------------------------------------ preservation

  // Requests above and below only depend on what is requested there and on where the elevator is.
  lemma AheadAfterClear(e: ElevatorState, e': ElevatorState, here: Calls)
    requires OnFloor(e) && e'.floor == e.floor && e'.requests == e.requests[e.floor := here]
    ensures RequestsAbove(e') == RequestsAbove(e) && RequestsBelow(e') == RequestsBelow(e)
  {
    SameElsewhere(e, e');
  }

  lemma AheadAfterRequest(e: ElevatorState, f: int, b: CallType)
    requires OnFloor(e) && 0 <= f < |e.requests|
    ensures RequestsAbove(Request(e, f, b)) <==> RequestsAbove(e) || e.floor < f
    ensures RequestsBelow(Request(e, f, b)) <==> RequestsBelow(e) || f < e.floor
  {
    var e' := Request(e, f, b);
    assert e'.requests[f].Any();
    if g :| e.floor < g < |e.requests| && 0 <= g && e.requests[g].Any() {
      assert e'.requests[g].Any();
    }
    if g :| 0 <= g < e.floor && g < |e.requests| && e.requests[g].Any() {
      assert e'.requests[g].Any();
    }
    if g :| e.floor < g < |e.requests| && 0 <= g && e'.requests[g].Any() {
      assert g == f || e.requests[g].Any();
    }
    if g :| 0 <= g < e.floor && g < |e.requests| && e'.requests[g].Any() {
      assert g == f || e.requests[g].Any();
    }
  }

  // One floor further up there is a request at the new floor or still one ahead; the same downwards.
  lemma AheadAfterMove(e: ElevatorState, e': ElevatorState)
    requires OnFloor(e) && RequestAhead(e)
    requires e' == e.(floor := e.floor + Delta(e.direction))
    ensures OnFloor(e') && (AnyRequestsAtFloor(e') || RequestAhead(e'))
  {
    if e.direction == Up {
      var g :| e.floor < g < |e.requests| && 0 <= g && e.requests[g].Any();
      assert g == e'.floor || RequestsAbove(e');
    } else {
      var g :| 0 <= g < e.floor && g < |e.requests| && e.requests[g].Any();
      assert g == e'.floor || RequestsBelow(e');
    }
  }

  lemma PressKeepsInv(c: Car, f: int, b: CallType)
    requires Inv(c) && 0 <= f < |c.e.requests|
    ensures Inv(Press(c, f, b))
  {
    AheadAfterRequest(c.e, f, b);
    var e := Request(c.e, f, b);
    if c.e.behaviour == Idle {
      var (d, h) := ChoosePair(e);
      var e' := e.(direction := d, behaviour := h);
      AheadAfterClear(e', ClearAtCurrentFloor(e'), ClearedHere(e'));
    }
  }

  lemma ArrivalKeepsInv(c: Car)
    requires Inv(c) && c.e.behaviour == Moving
    ensures Inv(Step(c, Arrived))
  {
    var e := c.e.(floor := c.e.floor + Delta(c.e.direction));
    AheadAfterMove(c.e, e);
    AheadAfterClear(e, ClearAtCurrentFloor(e), ClearedHere(e));
  }

  lemma TimeoutKeepsInv(c: Car)
    requires Inv(c) && c.timerArmed
    ensures Inv(Step(c, TimedOut))
  {
    var (d, h) := ChoosePair(c.e);
    var e := c.e.(direction := d, behaviour := h);
    AheadAfterClear(e, ClearAtCurrentFloor(e), ClearedHere(e));
  }

  lemma StepKeepsInv(c: Car, ev: Event)
    requires Inv(c) && Possible(c, ev)
    ensures Inv(Step(c, ev)) && |Step(c, ev).e.requests| == |c.e.requests|
  {
    match ev
    case Pressed(f, b) => PressKeepsInv(c, f, b);
    case Arrived => ArrivalKeepsInv(c);
    case TimedOut => TimeoutKeepsInv(c);
  }

  // ------------------------------------------------------------------------------------------ start-up

  // The state between homing and the first arrival.
  ghost predicate JustHoming(c: Car) {
    && c.e.behaviour == Moving && c.e.direction == Down && c.motor == Down
    && !c.doorLamp && !c.timerArmed && c.lamps == c.e.requests
  }

  ghost function PressAll(c: Car, presses: seq<(nat, CallType)>): (c': Car)
    requires c.e.behaviour == Moving && forall p :: p in presses ==> p.0 < |c.e.requests|
    ensures c'.e.behaviour == Moving && |c'.e.requests| == |c.e.requests|
    decreases |presses|
  {
    if presses == [] then c else PressAll(Press(c, presses[0].0, presses[0].1), presses[1..])
  }

  lemma {:induction false} HomingStays(c: Car, presses: seq<(nat, CallType)>)
    requires JustHoming(c) && forall p :: p in presses ==> p.0 < |c.e.requests|
    ensures JustHoming(PressAll(c, presses))
    decreases |presses|
  {
    if presses != [] { HomingStays(Press(c, presses[0].0, presses[0].1), presses[1..]); }
  }

  // An elevator that starts between floors goes down; whatever was pressed on the way, its first arrival at any
  // floor establishes the invariant.
  lemma HomingEstablishesInv(floors: nat, presses: seq<(nat, CallType)>, floor: int)
    requires 0 <= floor < floors && forall p :: p in presses ==> p.0 < floors
    ensures Inv(Arrive(PressAll(Homing(Uninitialized(floors)), presses), floor))
  {
    HomingStays(Homing(Uninitialized(floors)), presses);
    var c := PressAll(Homing(Uninitialized(floors)), presses);
    var e := c.e.(floor := floor);
    AheadAfterClear(e, ClearAtCurrentFloor(e), ClearedHere(e));
  }

  // So does the first arrival of an elevator that starts at a floor.
  lemma ArrivalAtRestEstablishesInv(floors: nat, floor: int)
    requires 0 <= floor < floors
    ensures Inv(Arrive(Uninitialized(floors), floor))
  {
  }

  // ------------------------------------------------------------------------------------------ runs

  ghost predicate CanRun(c: Car, evs: seq<Event>)
    requires Inv(c)
    decreases |evs|
  {
    evs != [] ==> Possible(c, evs[0]) && (StepKeepsInv(c, evs[0]); CanRun(Step(c, evs[0]), evs[1..]))
  }

  ghost function Run(c: Car, evs: seq<Event>): Car
    requires Inv(c) && CanRun(c, evs)
    decreases |evs|
  {
    if evs == [] then c else
      StepKeepsInv(c, evs[0]);
      Run(Step(c, evs[0]), evs[1..])
  }

  // In every state reached after the first arrival the elevator is safe and satisfies the invariant.
  lemma {:induction false} RunsAreSafe(c: Car, evs: seq<Event>)
    requires Inv(c) && CanRun(c, evs)
    ensures Inv(Run(c, evs)) && Safe(Run(c, evs))
    decreases |evs|
  {
    if evs != [] {
      StepKeepsInv(c, evs[0]);
      RunsAreSafe(Step(c, evs[0]), evs[1..]);
    }
  }
}
