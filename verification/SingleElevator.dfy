// The event handlers of one elevator: button press, floor arrival, door timeout, and homing at start-up.
// Besides the elevator itself they drive a motor, a door lamp, a door timer and the button lamps.
module SingleElevator {
  import opened ElevatorAlgorithm

  datatype Car = Car(e: ElevatorState, motor: Dirn, doorLamp: bool, timerArmed: bool, lamps: seq<Calls>)

  predicate Requested(e: ElevatorState, f: int, b: CallType) {
    0 <= f < |e.requests| && e.requests[f].Has(b)
  }

  function WithCall(k: Calls, b: CallType): Calls {
    match b
    case HallUp => k.(up := true)
    case HallDown => k.(down := true)
    case Cab => k.(cab := true)
  }

  function Request(e: ElevatorState, f: int, b: CallType): ElevatorState
    requires 0 <= f < |e.requests|
  {
    e.(requests := e.requests[f := WithCall(e.requests[f], b)])
  }

  // The new direction and behaviour of an elevator that stands still.
  function ChoosePair(e: ElevatorState): (Dirn, Behaviour)
    requires OnFloor(e)
  {
    match e.direction
    case Up =>
      if RequestsAbove(e) then (Up, Moving)
      else if AnyRequestsAtFloor(e) then (Down, DoorOpen)
      else if RequestsBelow(e) then (Down, Moving)
      else (Stop, Idle)
    case Down =>
      if RequestsBelow(e) then (Down, Moving)
      else if AnyRequestsAtFloor(e) then (Up, DoorOpen)
      else if RequestsAbove(e) then (Up, Moving)
      else (Stop, Idle)
    case Stop =>
      if AnyRequestsAtFloor(e) then (Stop, DoorOpen)
      else if RequestsAbove(e) then (Up, Moving)
      else if RequestsBelow(e) then (Down, Moving)
      else (Stop, Idle)
  }

  predicate MustStop(e: ElevatorState)
    requires OnFloor(e)
  {
    var here := e.requests[e.floor];
    match e.direction
    case Down => here.down || here.cab || !RequestsBelow(e)
    case Up => here.up || here.cab || !RequestsAbove(e)
    case Stop => true
  }

  predicate ClearsImmediately(e: ElevatorState, f: int, b: CallType) {
    e.floor == f && ((e.direction == Up && b == HallUp) || (e.direction == Down && b == HallDown) ||
                     e.direction == Stop || b == Cab)
  }

  function ClearedHere(e: ElevatorState): Calls
    requires OnFloor(e)
  {
    var here := e.requests[e.floor];
    match e.direction
    case Up => Calls(false, here.down && (RequestsAbove(e) || here.up), false)
    case Down => Calls(here.up && (RequestsBelow(e) || here.down), false, false)
    case Stop => Calls(false, false, false)
  }

  function ClearAtCurrentFloor(e: ElevatorState): ElevatorState
    requires OnFloor(e)
  {
    e.(requests := e.requests[e.floor := ClearedHere(e)])
  }

  function NoRequests(floors: nat): seq<Calls> {
    seq(floors, f => Calls(false, false, false))
  }

  // Not yet at any floor, nothing requested, everything off.
  function Uninitialized(floors: nat): Car {
    Car(ElevatorState(Idle, -1, Stop, NoRequests(floors)), Stop, false, false, NoRequests(floors))
  }

  // ------------------------------------------------------------------------------------------ handlers

  function Homing(c: Car): Car {
    c.(e := c.e.(direction := Down, behaviour := Moving), motor := Down)
  }

  // An idle elevator looks at its own floor, so it must know it.
  function Press(c: Car, f: int, b: CallType): Car
    requires 0 <= f < |c.e.requests| && (c.e.behaviour == Idle ==> OnFloor(c.e))
  {
    match c.e.behaviour
    case DoorOpen =>
      if ClearsImmediately(c.e, f, b) then c.(timerArmed := true, lamps := c.e.requests)
      else Lit(c.(e := Request(c.e, f, b)))
    case Moving =>
      Lit(c.(e := Request(c.e, f, b)))
    case Idle =>
      var e := Request(c.e, f, b);
      var (d, h) := ChoosePair(e);
      var e' := e.(direction := d, behaviour := h);
      if h == DoorOpen then Lit(c.(e := ClearAtCurrentFloor(e'), doorLamp := true, timerArmed := true))
      else if h == Moving then Lit(c.(e := e', motor := d))
      else Lit(c.(e := e'))
  }

  function Lit(c: Car): Car {
    c.(lamps := c.e.requests)
  }

  function Arrive(c: Car, floor: int): Car
    requires 0 <= floor < |c.e.requests|
  {
    var e := c.e.(floor := floor);
    if e.behaviour == Moving && MustStop(e) then
      var e' := ClearAtCurrentFloor(e).(behaviour := DoorOpen);
      Lit(c.(e := e', motor := Stop, doorLamp := true, timerArmed := true))
    else
      c.(e := e)
  }

  // The main loop disarms the timer before it reports the timeout.
  function DoorTimeout(c: Car): Car
    requires c.e.behaviour == DoorOpen ==> OnFloor(c.e)
  {
    var c1 := c.(timerArmed := false);
    if c.e.behaviour == DoorOpen then
      var (d, h) := ChoosePair(c.e);
      var e := c.e.(direction := d, behaviour := h);
      if h == DoorOpen then Lit(c1.(e := ClearAtCurrentFloor(e), timerArmed := true))
      else c1.(e := e, doorLamp := false, motor := d)
    else c1
  }

  // -------------------------------------------------------------------------------- the handlers as methods

  class Elevator {
    var floor: int
    var dirn: Dirn
    var behaviour: Behaviour
    var requests: seq<Calls>
    var motor: Dirn
    var doorLamp: bool
    var timerArmed: bool
    var lamps: seq<Calls>

    ghost function Value(): Car
      reads this
    {
      Car(ElevatorState(behaviour, floor, dirn, requests), motor, doorLamp, timerArmed, lamps)
    }

    constructor (floors: nat)
      ensures Value() == Uninitialized(floors)
    {
      floor := -1;
      dirn := Stop;
      behaviour := Idle;
      requests := NoRequests(floors);
      motor := Stop;
      doorLamp := false;
      timerArmed := false;
      lamps := NoRequests(floors);
    }

    method IsRequestedAbove() returns (found: bool)
      requires -1 <= floor
      ensures found == RequestsAbove(Value().e)
    {
      var f := floor + 1;
      while f < |requests|
        invariant floor < f
        invariant forall g :: floor < g < f && g < |requests| ==> !requests[g].Any()
      {
        if requests[f].Any() {
          return true;
        }
        f := f + 1;
      }
      return false;
    }

    method IsRequestedBelow() returns (found: bool)
      requires floor <= |requests|
      ensures found == RequestsBelow(Value().e)
    {
      var f := 0;
      while f < floor
        invariant 0 <= f
        invariant forall g :: 0 <= g < f && g < floor ==> !requests[g].Any()
      {
        if requests[f].Any() {
          return true;
        }
        f := f + 1;
      }
      return false;
    }

    method Choose() returns (d: Dirn, h: Behaviour)
      requires OnFloor(Value().e)
      ensures (d, h) == ChoosePair(Value().e)
    {
      var above := IsRequestedAbove();
      var below := IsRequestedBelow();
      var here := requests[floor].Any();
      match dirn {
        case Up =>
          if above { return Up, Moving; }
          else if here { return Down, DoorOpen; }
          else if below { return Down, Moving; }
          return Stop, Idle;
        case Down =>
          if below { return Down, Moving; }
          else if here { return Up, DoorOpen; }
          else if above { return Up, Moving; }
          return Stop, Idle;
        case Stop =>
          if here { return Stop, DoorOpen; }
          else if above { return Up, Moving; }
          else if below { return Down, Moving; }
          return Stop, Idle;
      }
    }

    method ClearCall(b: CallType)
      requires OnFloor(Value().e)
      modifies this`requests
      ensures requests == old(requests)[floor := old(requests[floor]).Without(b)]
    {
      requests := requests[floor := requests[floor].Without(b)];
    }

    method ClearCalls()
      requires OnFloor(Value().e)
      modifies this`requests
      ensures Value() == old(Value()).(e := ClearAtCurrentFloor(old(Value().e)))
    {
      ghost var e := Value().e;
      ClearCall(Cab);
      var above := IsRequestedAbove();
      var below := IsRequestedBelow();
      SameElsewhere(e, Value().e);
      match dirn {
        case Up =>
          if !above && !requests[floor].up {
            ClearCall(HallDown);
          }
          ClearCall(HallUp);
        case Down =>
          if !below && !requests[floor].down {
            ClearCall(HallUp);
          }
          ClearCall(HallDown);
        case Stop =>
          ClearCall(HallUp);
          ClearCall(HallDown);
      }
      assert requests == e.requests[floor := ClearedHere(e)];
    }

    method OnInitBetweenFloors()
      modifies this
      ensures Value() == Homing(old(Value()))
    {
      motor := Down;
      dirn := Down;
      behaviour := Moving;
    }

    method OnRequestButtonPress(btnFloor: int, btnType: CallType)
      requires 0 <= btnFloor < |requests| && (behaviour == Idle ==> OnFloor(Value().e))
      modifies this
      ensures Value() == Press(old(Value()), btnFloor, btnType)
    {
      match behaviour {
        case DoorOpen =>
          if floor == btnFloor && ((dirn == Up && btnType == HallUp) || (dirn == Down && btnType == HallDown) ||
                                   dirn == Stop || btnType == Cab) {
            timerArmed := true;
          } else {
            requests := requests[btnFloor := WithCall(requests[btnFloor], btnType)];
          }
        case Moving =>
          requests := requests[btnFloor := WithCall(requests[btnFloor], btnType)];
        case Idle =>
          requests := requests[btnFloor := WithCall(requests[btnFloor], btnType)];
          var d, h := Choose();
          dirn := d;
          behaviour := h;
          match h {
            case DoorOpen =>
              doorLamp := true;
              timerArmed := true;
              ClearCalls();
            case Moving =>
              motor := dirn;
            case Idle =>
          }
      }
      lamps := requests;
    }

    method OnFloorArrival(newFloor: int)
      requires 0 <= newFloor < |requests|
      modifies this
      ensures Value() == Arrive(old(Value()), newFloor)
    {
      floor := newFloor;
      if behaviour == Moving {
        var above := IsRequestedAbove();
        var below := IsRequestedBelow();
        var here := requests[floor];
        var stop := match dirn
          case Down => here.down || here.cab || !below
          case Up => here.up || here.cab || !above
          case Stop => true;
        if stop {
          motor := Stop;
          doorLamp := true;
          ClearCalls();
          timerArmed := true;
          lamps := requests;
          behaviour := DoorOpen;
        }
      }
    }

    method OnDoorTimeout()
      requires behaviour == DoorOpen ==> OnFloor(Value().e)
      modifies this
      ensures Value() == DoorTimeout(old(Value()))
    {
      timerArmed := false;
      if behaviour == DoorOpen {
        var d, h := Choose();
        dirn := d;
        behaviour := h;
        match behaviour {
          case DoorOpen =>
            timerArmed := true;
            ClearCalls();
            lamps := requests;
          case _ =>
            doorLamp := false;
            motor := dirn;
        }
      }
    }
  }
}
