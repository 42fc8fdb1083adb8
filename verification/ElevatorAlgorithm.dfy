// The single-elevator algorithm that the hall request assigner simulates:
// when to stop, where to go next, and which calls a stop clears, in both clear modes.
module ElevatorAlgorithm {

  datatype Dirn = Down | Stop | Up
  datatype Behaviour = Idle | Moving | DoorOpen
  datatype CallType = HallUp | HallDown | Cab
  datatype ClearRequestType = All | InDirn

  // The three calls of one floor.
  datatype Calls = Calls(up: bool, down: bool, cab: bool) {
    predicate Any() {
      up || down || cab
    }

    predicate Has(c: CallType) {
      match c
      case HallUp => up
      case HallDown => down
      case Cab => cab
    }

    function Without(c: CallType): Calls {
      match c
      case HallUp => this.(up := false)
      case HallDown => this.(down := false)
      case Cab => this.(cab := false)
    }
  }

  datatype ElevatorState = ElevatorState(behaviour: Behaviour, floor: int, direction: Dirn, requests: seq<Calls>)

  function Delta(d: Dirn): int {
    match d
    case Down => -1
    case Stop => 0
    case Up => 1
  }

  predicate OnFloor(e: ElevatorState) {
    0 <= e.floor < |e.requests|
  }

  predicate RequestsAbove(e: ElevatorState) {
    exists g :: e.floor < g < |e.requests| && 0 <= g && e.requests[g].Any()
  }

  predicate RequestsBelow(e: ElevatorState) {
    exists g :: 0 <= g < e.floor && g < |e.requests| && e.requests[g].Any()
  }

  predicate AnyRequestsAtFloor(e: ElevatorState)
    requires OnFloor(e)
  {
    e.requests[e.floor].Any()
  }

  predicate ShouldStop(e: ElevatorState)
    requires OnFloor(e)
  {
    var here := e.requests[e.floor];
    match e.direction
    case Up => here.up || here.cab || !RequestsAbove(e) || e.floor == 0 || e.floor == |e.requests| - 1
    case Down => here.down || here.cab || !RequestsBelow(e) || e.floor == 0 || e.floor == |e.requests| - 1
    case Stop => true
  }

  function ChooseDirection(e: ElevatorState): Dirn
    requires OnFloor(e)
  {
    if e.direction == Up then
      if RequestsAbove(e) then Up
      else if AnyRequestsAtFloor(e) then Stop
      else if RequestsBelow(e) then Down
      else Stop
    else
      if RequestsBelow(e) then Down
      else if AnyRequestsAtFloor(e) then Stop
      else if RequestsAbove(e) then Up
      else Stop
  }

  // Whether a stop at the current floor clears call `c`.
  predicate Clears(mode: ClearRequestType, e: ElevatorState, c: CallType)
    requires OnFloor(e)
  {
    var here := e.requests[e.floor];
    here.Has(c) &&
    (mode.All? || c.Cab? ||
      match e.direction
      case Up => c.HallUp? || (!here.up && !RequestsAbove(e))
      case Down => c.HallDown? || (!here.down && !RequestsBelow(e))
      case Stop => true)
  }

  // `e2` is `e` without the calls at its floor that are cleared, each listed once.
  ghost predicate ClearsExactly(
    mode: ClearRequestType, e: ElevatorState, e2: ElevatorState, cleared: seq<CallType>)
    requires OnFloor(e)
  {
    && (forall c :: c in cleared <==> Clears(mode, e, c))
    && (forall i, j :: 0 <= i < j < |cleared| ==> cleared[i] != cleared[j])
    && IsRest(e, e2, cleared)
  }

  ghost predicate IsRest(e: ElevatorState, e2: ElevatorState, cleared: seq<CallType>)
    requires OnFloor(e)
  {
    e2 == e.(requests := e.requests[e.floor := Remaining(e.requests[e.floor], cleared)])
  }

  function Remaining(here: Calls, cleared: seq<CallType>): Calls {
    Calls(here.up && HallUp !in cleared, here.down && HallDown !in cleared, here.cab && Cab !in cleared)
  }

  lemma CallByCall(mode: ClearRequestType, e: ElevatorState, cleared: seq<CallType>)
    requires OnFloor(e)
    requires HallUp in cleared <==> Clears(mode, e, HallUp)
    requires HallDown in cleared <==> Clears(mode, e, HallDown)
    requires Cab in cleared <==> Clears(mode, e, Cab)
    ensures forall c :: c in cleared <==> Clears(mode, e, c)
  {
    forall c
      ensures c in cleared <==> Clears(mode, e, c)
    {
      match c
      case HallUp =>
      case HallDown =>
      case Cab =>
    }
  }

  // The original hands a callback to the clearing routine and calls it once for each call it clears, before
  // clearing it; `cleared` is the list of the arguments of these callbacks.
  method ClearReqsAtFloor(mode: ClearRequestType, e: ElevatorState)
    returns (e2: ElevatorState, cleared: seq<CallType>)
    requires OnFloor(e)
    ensures ClearsExactly(mode, e, e2, cleared)
  {
    e2, cleared := e, [];
    assert IsRest(e, e2, []);
    match mode {
      case All =>
        e2, cleared := Clear(e, e2, cleared, HallUp);
        e2, cleared := Clear(e, e2, cleared, HallDown);
        e2, cleared := Clear(e, e2, cleared, Cab);
      case InDirn =>
        e2, cleared := Clear(e, e2, cleared, Cab);
        e2, cleared := ClearInDirn(e, e2, cleared);
    }
    CallByCall(mode, e, cleared);
  }

  // What is left to do when the cab call has been cleared, and only calls in the direction of travel are to be.
  method ClearInDirn(ghost e: ElevatorState, now: ElevatorState, already: seq<CallType>)
    returns (e2: ElevatorState, cleared: seq<CallType>)
    requires OnFloor(e) && IsRest(e, now, already) && already == if e.requests[e.floor].cab then [Cab] else []
    ensures ClearsExactly(InDirn, e, e2, cleared)
  {
    e2, cleared := now, already;
    SameElsewhere(e, now);
    match now.direction {
      case Up =>
        if e2.requests[e2.floor].up {
          e2, cleared := Clear(e, e2, cleared, HallUp);
        } else if !RequestsAbove(e2) {
          e2, cleared := Clear(e, e2, cleared, HallDown);
        }
      case Down =>
        if e2.requests[e2.floor].down {
          e2, cleared := Clear(e, e2, cleared, HallDown);
        } else if !RequestsBelow(e2) {
          e2, cleared := Clear(e, e2, cleared, HallUp);
        }
      case Stop =>
        e2, cleared := Clear(e, e2, cleared, HallUp);
        e2, cleared := Clear(e, e2, cleared, HallDown);
    }
    CallByCall(InDirn, e, cleared);
  }

  method Clear(ghost e: ElevatorState, now: ElevatorState, already: seq<CallType>, c: CallType)
    returns (e2: ElevatorState, cleared: seq<CallType>)
    requires OnFloor(e) && IsRest(e, now, already)
    ensures IsRest(e, e2, cleared)
    ensures cleared == if e.requests[e.floor].Has(c) && c !in already then already + [c] else already
  {
    e2, cleared := now, already;
    if now.requests[now.floor].Has(c) {
      cleared := cleared + [c];
      e2 := now.(requests := now.requests[now.floor := now.requests[now.floor].Without(c)]);
    }
  }

  // Requests strictly above and below do not depend on what is requested at the floor itself.
  lemma SameElsewhere(e: ElevatorState, e2: ElevatorState)
    requires e2.floor == e.floor && |e2.requests| == |e.requests|
    requires forall g :: 0 <= g < |e.requests| && g != e.floor ==> e2.requests[g] == e.requests[g]
    ensures RequestsAbove(e2) == RequestsAbove(e) && RequestsBelow(e2) == RequestsBelow(e)
  {
    if RequestsAbove(e) {
      var g :| e.floor < g < |e.requests| && 0 <= g && e.requests[g].Any();
      assert e2.requests[g].Any();
    }
    if RequestsBelow(e) {
      var g :| 0 <= g < e.floor && g < |e.requests| && e.requests[g].Any();
      assert e2.requests[g].Any();
    }
  }

  // It is leaving an end floor, and the only call there is in the direction it is not going.
  predicate PassesBy(e: ElevatorState)
    requires OnFloor(e)
  {
    var here := e.requests[e.floor];
    match e.direction
    case Up => e.floor == 0 && RequestsAbove(e) && !here.cab && !here.up && here.down
    case Down => e.floor == |e.requests| - 1 && RequestsBelow(e) && !here.cab && !here.down && here.up
    case Stop => false
  }

  // Exactly when an elevator that has to stop clears something.
  lemma StopClearsExactly(mode: ClearRequestType, e: ElevatorState)
    requires OnFloor(e) && ShouldStop(e)
    ensures (exists c :: Clears(mode, e, c)) <==> AnyRequestsAtFloor(e) && !(mode.InDirn? && PassesBy(e))
  {
    var here := e.requests[e.floor];
    if here.cab {
      assert Clears(mode, e, Cab);
    } else if AnyRequestsAtFloor(e) && !(mode.InDirn? && PassesBy(e)) {
      assert Clears(mode, e, HallUp) || Clears(mode, e, HallDown);
    }
  }

  // A moving elevator that has a request at or beyond its floor, in its own direction, never stops for nothing;
  // neither does an elevator that chooses to serve the floor it is standing at.
  lemma StopClearsSomething(mode: ClearRequestType, e: ElevatorState)
    requires OnFloor(e)
    requires
      || (e.direction == Up && 0 < e.floor && ShouldStop(e) && (RequestsAbove(e) || AnyRequestsAtFloor(e)))
      || (e.direction == Down && e.floor < |e.requests| - 1 && ShouldStop(e) &&
          (RequestsBelow(e) || AnyRequestsAtFloor(e)))
      || (ChooseDirection(e) == Stop && AnyRequestsAtFloor(e))
    ensures exists c :: Clears(mode, e, c)
  {
    var here := e.requests[e.floor];
    if here.cab {
      assert Clears(mode, e, Cab);
    } else if here.up && here.down {
      assert Clears(mode, e, if e.direction == Down then HallDown else HallUp);
    } else if here.up {
      assert Clears(mode, e, HallUp);
    } else {
      assert Clears(mode, e, HallDown);
    }
  }
}
