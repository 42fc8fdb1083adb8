// What each event does to one elevator, in terms of what is requested where.
module SingleElevatorHandlers {
  import opened ElevatorAlgorithm
  import opened SingleElevator
  import opened SingleElevatorRuns
  import opened SingleElevatorService

  // ------------------------------------------------------------------------------------------ who is waiting

  ghost predicate WaitingAt(e: ElevatorState, f: int) {
    exists b :: Requested(e, f, b)
  }

  ghost predicate WaitingAbove(e: ElevatorState) {
    exists f :: e.floor < f && WaitingAt(e, f)
  }

  ghost predicate WaitingBelow(e: ElevatorState) {
    exists f :: f < e.floor && WaitingAt(e, f)
  }

  ghost predicate WaitingAhead(e: ElevatorState, d: Dirn) {
    (d == Up && WaitingAbove(e)) || (d == Down && WaitingBelow(e))
  }

  function Reverse(d: Dirn): Dirn {
    match d
    case Up => Down
    case Down => Up
    case Stop => Stop
  }

  // The hall call for the direction.
  predicate GoesAlong(b: CallType, d: Dirn) {
    (b == HallUp && d == Up) || (b == HallDown && d == Down)
  }

  lemma AnyIsWaiting(e: ElevatorState, f: int)
    requires 0 <= f < |e.requests|
    ensures e.requests[f].Any() <==> WaitingAt(e, f)
  {
    if e.requests[f].Any() {
      assert Requested(e, f, HallUp) || Requested(e, f, HallDown) || Requested(e, f, Cab);
    }
  }

  lemma RequestsAreWaiting(e: ElevatorState)
    requires OnFloor(e)
    ensures RequestsAbove(e) <==> WaitingAbove(e)
    ensures RequestsBelow(e) <==> WaitingBelow(e)
    ensures AnyRequestsAtFloor(e) <==> WaitingAt(e, e.floor)
  {
    forall f | 0 <= f < |e.requests|
      ensures e.requests[f].Any() <==> WaitingAt(e, f)
    {
      AnyIsWaiting(e, f);
    }
    if RequestsAbove(e) {
      var g :| e.floor < g < |e.requests| && 0 <= g && e.requests[g].Any();
      assert WaitingAt(e, g);
    }
    if RequestsBelow(e) {
      var g :| 0 <= g < e.floor && g < |e.requests| && e.requests[g].Any();
      assert WaitingAt(e, g);
    }
  }

  // ------------------------------------------------------------------------------------------ start-up

  // Before it has been anywhere the car is at no floor, rests, has nothing to do, and everything is off.
  lemma UninitializedKnowsNothing(floors: nat)
    ensures var c := Uninitialized(floors);
            && c.e.floor == -1 && c.e.behaviour == Idle && c.e.direction == Stop && |c.e.requests| == floors
            && (forall f, b :: !Requested(c.e, f, b)) && c.lamps == c.e.requests
            && c.motor == Stop && !c.doorLamp && !c.timerArmed
  {
  }

  // Between floors it sets out downwards, and opens its door at the first floor it meets.
  lemma HomingOpensDoor(floors: nat, floor: int)
    requires 0 <= floor < floors
    ensures var (c, h) := (Uninitialized(floors), Homing(Uninitialized(floors)));
            && h == c.(e := h.e, motor := Down) && h.e == c.e.(direction := Down, behaviour := Moving)
            && Arrive(h, floor).e.behaviour == DoorOpen && Arrive(h, floor).e.floor == floor
  {
    var e := Homing(Uninitialized(floors)).e.(floor := floor);
    assert forall f :: !WaitingAt(e, f);
    RequestsAreWaiting(e);
  }

  // ------------------------------------------------------------------------------------------ a press

  // A press at an open door is answered by the open door exactly if the car is at that floor and whoever pressed can
  // go where the car is going; any other one is recorded, and nothing else changes.
  lemma OpenDoorAnswersExactly(c: Car, f: int, b: CallType)
    requires 0 <= f < |c.e.requests| && c.e.behaviour == DoorOpen
    ensures var c' := Press(c, f, b);
            && (c.e.floor == f && (b == Cab || c.e.direction == Stop || GoesAlong(b, c.e.direction)) ==>
                  c' == c.(timerArmed := true, lamps := c.e.requests))
            && (!(c.e.floor == f && (b == Cab || c.e.direction == Stop || GoesAlong(b, c.e.direction))) ==>
                  && c' == c.(e := c'.e, lamps := c'.e.requests) && c'.e == c.e.(requests := c'.e.requests)
                  && forall g, d :: Requested(c'.e, g, d) <==> Requested(c.e, g, d) || (g == f && d == b))
  {
  }

  // A moving car records every press, and goes on as before.
  lemma MovingRecordsEveryPress(c: Car, f: int, b: CallType)
    requires 0 <= f < |c.e.requests| && c.e.behaviour == Moving
    ensures var c' := Press(c, f, b);
            && c' == c.(e := c'.e, lamps := c'.e.requests) && c'.e == c.e.(requests := c'.e.requests)
            && forall g, d :: Requested(c'.e, g, d) <==> Requested(c.e, g, d) || (g == f && d == b)
  {
  }

  // An idle car opens its door for a press at its own floor, and otherwise sets out straight for the floor.
  lemma IdleGoesStraightThere(c: Car, f: int, b: CallType)
    requires Inv(c) && 0 <= f < |c.e.requests| && c.e.behaviour == Idle
    ensures var c' := Press(c, f, b);
            && c'.e.floor == c.e.floor && (forall g, d :: Requested(c'.e, g, d) <==> f != c.e.floor && g == f && d == b)
            && c'.e.behaviour == (if f == c.e.floor then DoorOpen else Moving)
            && c'.e.direction == (if f == c.e.floor then Stop else if c.e.floor < f then Up else Down)
  {
    var e := Request(c.e, f, b);
    NothingRequestedWhenIdle(c);
    forall g, d
      ensures Requested(e, g, d) <==> g == f && d == b
    {
      assert !Requested(c.e, g, d);
    }
    assert Requested(e, f, b) && WaitingAt(e, f);
    assert forall g :: WaitingAt(e, g) ==> g == f;
    RequestsAreWaiting(e);
    if f == c.e.floor { ServesExactly(e.(direction := Stop)); }
  }

  // No press is forgotten: one that is not recorded is answered by a door that is open there, for a car that goes the
  // right way.
  lemma UnrecordedPressIsAnswered(c: Car, f: int, b: CallType)
    requires Inv(c) && 0 <= f < |c.e.requests|
    ensures var c' := Press(c, f, b);
            !Requested(c'.e, f, b) ==>
              && c'.e.behaviour == DoorOpen && c'.e.floor == f
              && (b == HallUp ==> c'.e.direction != Down) && (b == HallDown ==> c'.e.direction != Up)
  {
    match c.e.behaviour
    case Idle => IdleGoesStraightThere(c, f, b);
    case Moving => MovingRecordsEveryPress(c, f, b);
    case DoorOpen => OpenDoorAnswersExactly(c, f, b);
  }

  // ------------------------------------------------------------------------------------------ an arrival

  // Exactly where a moving car stops, and what else changes: it passes nobody who wants to get on or off, and goes no
  // further than somebody is waiting.
  lemma ArrivalStopsExactly(c: Car, floor: int)
    requires 0 <= floor < |c.e.requests| && c.e.behaviour == Moving
    ensures var (e, c') := (c.e.(floor := floor), Arrive(c, floor));
            var along := exists b :: Requested(e, floor, b) && GoesAlong(b, e.direction);
            var stops := Requested(e, floor, Cab) || along || !WaitingAhead(e, e.direction);
            && c'.e.floor == floor && c'.e.direction == c.e.direction
            && (c'.e.behaviour == DoorOpen <==> stops)
            && (stops ==> c'.motor == Stop && c'.doorLamp && c'.timerArmed && c'.lamps == c'.e.requests)
            && (!stops ==> c' == c.(e := e))
  {
    var e := c.e.(floor := floor);
    RequestsAreWaiting(e);
    assert Requested(e, floor, HallUp) <==> e.requests[floor].up;
    assert Requested(e, floor, HallDown) <==> e.requests[floor].down;
    if b :| Requested(e, floor, b) && GoesAlong(b, e.direction) {
      assert MustStop(e);
    }
    if e.direction == Up && e.requests[floor].up { assert GoesAlong(HallUp, e.direction); }
    if e.direction == Down && e.requests[floor].down { assert GoesAlong(HallDown, e.direction); }
  }

  // Exactly what is left of the calls at a floor that a car in the given direction serves: a hall call in the opposite
  // direction, if the car has something to go on for.
  ghost predicate IsLeft(e: ElevatorState, b: CallType)
    requires OnFloor(e)
  {
    && Requested(e, e.floor, b) && b != Cab && e.direction != Stop && GoesAlong(b, Reverse(e.direction))
    && (WaitingAhead(e, e.direction) || exists d :: Requested(e, e.floor, d) && GoesAlong(d, e.direction))
  }

  lemma ServesExactly(e: ElevatorState)
    requires OnFloor(e)
    ensures var e' := ClearAtCurrentFloor(e);
            && e' == e.(requests := e'.requests)
            && forall f, b :: Requested(e', f, b) <==> if f == e.floor then IsLeft(e, b) else Requested(e, f, b)
  {
    var e' := ClearAtCurrentFloor(e);
    RequestsAreWaiting(e);
    assert Requested(e, e.floor, HallUp) <==> e.requests[e.floor].up;
    assert Requested(e, e.floor, HallDown) <==> e.requests[e.floor].down;
    assert GoesAlong(HallUp, Up) && GoesAlong(HallDown, Down);
    forall b
      ensures Requested(e', e.floor, b) <==> IsLeft(e, b)
    {
      match b
      case HallUp =>
      case HallDown =>
      case Cab =>
    }
  }

  // A stop serves the floor, and no other.
  lemma ArrivalServesExactly(c: Car, floor: int)
    requires 0 <= floor < |c.e.requests| && c.e.behaviour == Moving
    ensures var (e, c') := (c.e.(floor := floor), Arrive(c, floor));
            forall f, b :: Requested(c'.e, f, b) <==>
              if f == floor && c'.e.behaviour == DoorOpen then IsLeft(e, b) else Requested(e, f, b)
  {
    ServesExactly(c.e.(floor := floor));
  }

  // ------------------------------------------------------------------------------------------ a timeout

  // Where a car goes that closes its door: on for as long as somebody waits ahead; else it turns, with the door open
  // if somebody is left at the floor and on its way if somebody waits on the other side; else it rests. A car without
  // a direction looks at its floor first, and then up before down.
  lemma TimeoutExactly(c: Car)
    requires OnFloor(c.e) && c.e.behaviour == DoorOpen
    ensures var c' := DoorTimeout(c);
            var (d, e) := (c.e.direction, c.e);
            && c'.e.floor == e.floor
            && (d != Stop && WaitingAhead(e, d) ==> Leaves(c, c', d))
            && (d != Stop && !WaitingAhead(e, d) && WaitingAt(e, e.floor) ==> Reopens(c, c', Reverse(d)))
            && (d != Stop && !WaitingAhead(e, d) && !WaitingAt(e, e.floor) && WaitingAhead(e, Reverse(d)) ==>
                  Leaves(c, c', Reverse(d)))
            && (d == Stop && WaitingAt(e, e.floor) ==> Reopens(c, c', Stop))
            && (d == Stop && !WaitingAt(e, e.floor) && WaitingAbove(e) ==> Leaves(c, c', Up))
            && (d == Stop && !WaitingAt(e, e.floor) && !WaitingAbove(e) && WaitingBelow(e) ==> Leaves(c, c', Down))
            && (!WaitingAt(e, e.floor) && !WaitingAbove(e) && !WaitingBelow(e) ==> Rests(c, c'))
  {
    RequestsAreWaiting(c.e);
    ServesExactly(c.e.(direction := Reverse(c.e.direction)));
  }

  ghost predicate Leaves(c: Car, c': Car, d: Dirn) {
    c' == c.(e := c.e.(direction := d, behaviour := Moving), motor := d, doorLamp := false, timerArmed := false)
  }

  ghost predicate Rests(c: Car, c': Car) {
    c' == c.(e := c.e.(direction := Stop, behaviour := Idle), motor := Stop, doorLamp := false, timerArmed := false)
  }

  ghost predicate Reopens(c: Car, c': Car, d: Dirn)
    requires OnFloor(c.e)
  {
    var e := c.e.(direction := d);
    && c' == c.(e := c'.e, timerArmed := true, lamps := c'.e.requests) && c'.e == e.(requests := c'.e.requests)
    && forall f, b :: Requested(c'.e, f, b) <==> if f == e.floor then IsLeft(e, b) else Requested(e, f, b)
  }
}
