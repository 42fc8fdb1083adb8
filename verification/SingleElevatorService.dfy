// What the elevator does for its passengers: nothing is lost, no stop is for nothing, nobody starves, and without
// new presses everything gets served.
module SingleElevatorService {
  import opened Totals
  import opened ElevatorAlgorithm
  import opened SingleElevator
  import opened SingleElevatorRuns

  // ------------------------------------------------------------------ requests come and go for a reason

  lemma PressLosesNothing(c: Car, g: nat, d: CallType, f: int, b: CallType)
    requires Inv(c) && g < |c.e.requests|
    ensures var c' := Press(c, g, d);
            && (Requested(c.e, f, b) ==> Requested(c'.e, f, b))
            && (!Requested(c.e, f, b) && Requested(c'.e, f, b) ==> f == g && b == d)
            && (f == g && b == d ==> Requested(c'.e, f, b) || (c'.e.behaviour == DoorOpen && c'.e.floor == f))
  {
    if c.e.behaviour == Idle && Requested(c.e, f, b) {
      NothingRequestedWhenIdle(c);
    }
  }

  lemma ArrivalLosesNothing(c: Car, f: int, b: CallType)
    requires Inv(c) && Possible(c, Arrived)
    ensures var c' := Step(c, Arrived);
            && (Requested(c'.e, f, b) ==> Requested(c.e, f, b))
            && (Requested(c.e, f, b) && !Requested(c'.e, f, b) ==> c'.e.behaviour == DoorOpen && c'.e.floor == f)
  {
    ArrivalStaysInShaft(c);
  }

  lemma TimeoutLosesNothing(c: Car, f: int, b: CallType)
    requires Inv(c) && Possible(c, TimedOut)
    ensures var c' := Step(c, TimedOut);
            && (Requested(c'.e, f, b) ==> Requested(c.e, f, b))
            && (Requested(c.e, f, b) && !Requested(c'.e, f, b) ==> c'.e.behaviour == DoorOpen && c'.e.floor == f)
  {
  }

  // A request disappears only when the car stands at its floor with the door open, and appears only by a press;
  // a press is either recorded or answered at once with the door open at that floor.
  lemma RequestsAreNeverLost(c: Car, ev: Event, f: int, b: CallType)
    requires Inv(c) && Possible(c, ev)
    ensures var c' := Step(c, ev);
            && (Requested(c.e, f, b) && !Requested(c'.e, f, b) ==>
                  c'.e.behaviour == DoorOpen && c'.e.floor == f && !ev.Pressed?)
            && (!Requested(c.e, f, b) && Requested(c'.e, f, b) ==> ev == Pressed(f, b))
            && (ev == Pressed(f, b) ==> Requested(c'.e, f, b) || (c'.e.behaviour == DoorOpen && c'.e.floor == f))
  {
    match ev
    case Pressed(g, d) => PressLosesNothing(c, g, d, f, b);
    case Arrived => ArrivalLosesNothing(c, f, b);
    case TimedOut => TimeoutLosesNothing(c, f, b);
  }

  lemma NothingRequestedWhenIdle(c: Car)
    requires Inv(c) && c.e.behaviour == Idle
    ensures forall f, b :: !Requested(c.e, f, b)
  {
    forall f, b | 0 <= f < |c.e.requests|
      ensures !c.e.requests[f].Has(b)
    {
      assert !c.e.requests[f].Any();
    }
  }

  function CallCount(k: Calls): int {
    (if k.up then 1 else 0) + (if k.down then 1 else 0) + (if k.cab then 1 else 0)
  }

  ghost function Count(e: ElevatorState): int {
    Sum(CallCount, e.requests)
  }

  lemma CountNonNegative(e: ElevatorState)
    ensures 0 <= Count(e)
  {
    SumNonNegative(CallCount, e.requests);
  }

  // Opening the door on arrival, and opening or keeping it open after a timeout, serves at least one request.
  lemma NoEmptyStops(c: Car, ev: Event)
    requires Inv(c) && Possible(c, ev) && !ev.Pressed?
    ensures var c' := Step(c, ev);
            if c'.e.behaviour == DoorOpen then Count(c'.e) < Count(c.e) else c'.e.requests == c.e.requests
  {
    var c' := Step(c, ev);
    var f := c'.e.floor;
    if ev == Arrived {
      AheadAfterMove(c.e, c.e.(floor := c.e.floor + Delta(c.e.direction)));
    }
    if c'.e.behaviour == DoorOpen {
      SumUpdate(CallCount, c.e.requests, f, c'.e.requests[f]);
      assert c'.e.requests == c.e.requests[f := c'.e.requests[f]];
    }
  }

  // ------------------------------------------------------------------------------------------ starvation

  // The most floors the car can still travel, going up from floor `f` with `n` floors, before call (g, b) is served.
  function UpRank(n: nat, f: int, g: int, b: CallType): int {
    match b
    case HallUp => if f < g then g - f else (n - 1 - f) + (n - 1) + g
    case Cab => if f < g then g - f else (n - 1 - f) + (n - 1 - g)
    case HallDown => (n - 1 - f) + (n - 1 - g)
  }

  function DownRank(n: nat, f: int, g: int, b: CallType): int {
    match b
    case HallDown => if g < f then f - g else f + (n - 1) + (n - 1 - g)
    case Cab => if g < f then f - g else f + g
    case HallUp => f + g
  }

  function Rank(e: ElevatorState, g: int, b: CallType): int {
    var n := |e.requests|;
    match e.direction
    case Up => UpRank(n, e.floor, g, b)
    case Down => DownRank(n, e.floor, g, b)
    case Stop => var u := UpRank(n, e.floor, g, b);
                 var d := DownRank(n, e.floor, g, b);
                 if u < d then d else u
  }

  lemma RankIsBounded(c: Car, g: int, b: CallType)
    requires Inv(c) && Requested(c.e, g, b)
    ensures 0 <= Rank(c.e, g, b) <= 2 * (|c.e.requests| - 1)
  {
    if c.e.behaviour == Idle { NothingRequestedWhenIdle(c); }
  }

  // While a request is waiting, each floor travelled lowers its rank, and no press, timeout or reversal raises it.
  lemma RankFalls(c: Car, ev: Event, g: int, b: CallType)
    requires Inv(c) && Possible(c, ev)
    requires Requested(c.e, g, b) && Requested(Step(c, ev).e, g, b)
    ensures Rank(Step(c, ev).e, g, b) <= Rank(c.e, g, b) - (if ev == Arrived then 1 else 0)
  {
    if c.e.behaviour == Idle {
      NothingRequestedWhenIdle(c);
    } else if ev == Arrived {
      ArrivalStaysInShaft(c);
    } else if ev == TimedOut {
      assert c.e.requests[g].Any();
      assert g < c.e.floor ==> RequestsBelow(c.e);
      assert c.e.floor < g ==> RequestsAbove(c.e);
    }
  }

  ghost predicate WaitsThroughout(c: Car, evs: seq<Event>, g: int, b: CallType)
    requires Inv(c) && CanRun(c, evs)
    decreases |evs|
  {
    && Requested(c.e, g, b)
    && (evs != [] ==>
          (StepKeepsInv(c, evs[0]); WaitsThroughout(Step(c, evs[0]), evs[1..], g, b)))
  }

  function IsArrival(ev: Event): int {
    if ev == Arrived then 1 else 0
  }

  lemma {:induction false} TravelLowersRank(c: Car, evs: seq<Event>, g: int, b: CallType)
    requires Inv(c) && CanRun(c, evs) && WaitsThroughout(c, evs, g, b)
    ensures Sum(IsArrival, evs) + Rank(Run(c, evs).e, g, b) <= Rank(c.e, g, b)
    ensures Inv(Run(c, evs)) && Requested(Run(c, evs).e, g, b) && |Run(c, evs).e.requests| == |c.e.requests|
    decreases |evs|
  {
    if evs != [] {
      StepKeepsInv(c, evs[0]);
      RankFalls(c, evs[0], g, b);
      TravelLowersRank(Step(c, evs[0]), evs[1..], g, b);
    }
  }

  // However the buttons are pressed meanwhile, a waiting request is served before the car has travelled more than
  // twice the height of the shaft.
  lemma NobodyStarves(c: Car, evs: seq<Event>, g: int, b: CallType)
    requires Inv(c) && CanRun(c, evs) && WaitsThroughout(c, evs, g, b)
    ensures Sum(IsArrival, evs) <= 2 * (|c.e.requests| - 1)
  {
    TravelLowersRank(c, evs, g, b);
    RankIsBounded(c, g, b);
    RankIsBounded(Run(c, evs), g, b);
  }

  // ------------------------------------------------------------------------------------------ drain

  // How many arrivals and timeouts there can still be before the next request is served.
  function Distance(c: Car): int {
    match c.e.behaviour
    case Idle => 0
    case DoorOpen => |c.e.requests|
    case Moving => if c.e.direction == Up then |c.e.requests| - 1 - c.e.floor else c.e.floor
  }

  ghost function Work(c: Car): int {
    Count(c.e) * (|c.e.requests| + 1) + Distance(c)
  }

  lemma Weighted(count: int, count': int, w: nat, d: nat, d': nat)
    requires 0 <= count' && d' < w
    requires count' < count || (count' == count && d' < d)
    ensures 0 <= count' * w + d' < count * w + d
  {
    Product(count', w);
    if count' < count {
      var k := count - count' - 1;
      Product(k, w);
      assert count * w == (count' + k + 1) * w == count' * w + k * w + w;
    }
  }

  lemma Product(a: nat, b: nat)
    ensures 0 <= a * b
  {
  }

  lemma DistanceShrinks(c: Car, ev: Event)
    requires Inv(c) && Possible(c, ev) && !ev.Pressed?
    ensures var c' := Step(c, ev);
            0 <= Distance(c') <= |c.e.requests| && (c'.e.behaviour != DoorOpen ==> Distance(c') < Distance(c))
  {
    StepKeepsInv(c, ev);
    if ev == Arrived { ArrivalStaysInShaft(c); }
  }

  lemma WorkShrinks(c: Car, ev: Event)
    requires Inv(c) && Possible(c, ev) && !ev.Pressed?
    ensures 0 <= Work(Step(c, ev)) < Work(c)
  {
    StepKeepsInv(c, ev);
    NoEmptyStops(c, ev);
    DistanceShrinks(c, ev);
    CountNonNegative(Step(c, ev).e);
    Weighted(Count(c.e), Count(Step(c, ev).e), |c.e.requests| + 1, Distance(c), Distance(Step(c, ev)));
  }

  ghost predicate NoPresses(evs: seq<Event>) {
    forall i :: 0 <= i < |evs| ==> !evs[i].Pressed?
  }

  // Without presses a run cannot go on for longer than this.
  lemma {:induction false} DrainIsBounded(c: Car, evs: seq<Event>)
    requires Inv(c) && CanRun(c, evs) && NoPresses(evs)
    ensures |evs| <= Work(c)
    decreases |evs|
  {
    if evs == [] {
      CountNonNegative(c.e);
      assert 0 <= Count(c.e) * (|c.e.requests| + 1);
    } else {
      StepKeepsInv(c, evs[0]);
      WorkShrinks(c, evs[0]);
      DrainIsBounded(Step(c, evs[0]), evs[1..]);
    }
  }

  // And it can only come to rest with nothing left to do.
  lemma RestsOnlyWhenServed(c: Car)
    requires Inv(c) && !Possible(c, Arrived) && !Possible(c, TimedOut)
    ensures c.e.behaviour == Idle && forall f, b :: !Requested(c.e, f, b)
  {
    NothingRequestedWhenIdle(c);
  }

  // So it does come to rest: from every state, some press-free run of bounded length reaches an idle elevator with
  // no requests left.
  lemma {:induction false} Drains(c: Car) returns (evs: seq<Event>)
    requires Inv(c)
    ensures CanRun(c, evs) && NoPresses(evs) && |evs| <= Work(c)
    ensures Run(c, evs).e.behaviour == Idle && forall f, b :: !Requested(Run(c, evs).e, f, b)
    decreases Work(c)
  {
    CountNonNegative(c.e);
    assert 0 <= Count(c.e) * (|c.e.requests| + 1);
    if c.e.behaviour == Idle {
      evs := [];
      RestsOnlyWhenServed(c);
    } else {
      var ev := if c.e.behaviour == Moving then Arrived else TimedOut;
      StepKeepsInv(c, ev);
      WorkShrinks(c, ev);
      var rest := Drains(Step(c, ev));
      evs := [ev] + rest;
      assert evs[1..] == rest;
    }
  }
}
