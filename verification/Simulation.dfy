// Runs of the assigner's simulation loop, for every outcome of its unstable sort.
// A run lists the simulated elevators and requests each time the loop has just sorted them.
module Simulation {
  import opened ElevatorAlgorithm
  import opened HallRequests

  datatype Sim = Sim(states: seq<State>, reqs: Reqs)

  ghost predicate SortedByTime(states: seq<State>) {
    forall i, j :: 0 <= i < j < |states| ==> states[i].time <= states[j].time
  }

  // All that is known about the sort: the outcome is an ordered rearrangement.
  ghost predicate SortedCopy(states: seq<State>, sorted: seq<State>) {
    multiset(sorted) == multiset(states) && SortedByTime(sorted)
  }

  ghost predicate Movable(c: Sim) {
    forall s :: s in c.states ==> s.state.behaviour != Moving ==> 0 <= s.state.floor < |c.reqs|
  }

  // The initial moves of the first `k` elevators, in id order.
  ghost function InitialMoves(cfg: Config, c: Sim, k: nat): (out: Sim)
    requires k <= |c.states| && Movable(c)
    ensures |out.states| == |c.states| && |out.reqs| == |c.reqs|
    ensures forall i :: k <= i < |c.states| ==> out.states[i] == c.states[i]
  {
    if k == 0 then c else
      var d := InitialMoves(cfg, c, k - 1);
      assert d.states[k - 1] == c.states[k - 1] && c.states[k - 1] in c.states;
      var (s, reqs) := InitialMove(cfg, d.states[k - 1], d.reqs);
      Sim(d.states[k - 1 := s], reqs)
  }

  ghost function Begin(hallReqs: seq<HallCalls>, fleet: Fleet): Sim {
    Sim(InitialStates(fleet), ToReq(hallReqs))
  }

  lemma BeginMovable(hallReqs: seq<HallCalls>, fleet: Fleet)
    requires ValidInput(hallReqs, fleet)
    ensures Movable(Begin(hallReqs, fleet))
    ensures forall s :: s in InitialStates(fleet) ==> s.id in fleet && s.state == fleet[s.id]
  {
    var ids := SortedIds(fleet.Keys);
    forall i | 0 <= i < |ids|
      ensures ids[i] in fleet
    {
      assert ids[i] in multiset(ids);
    }
  }

  ghost predicate IsStart(cfg: Config, hallReqs: seq<HallCalls>, fleet: Fleet, c: Sim)
    requires ValidInput(hallReqs, fleet)
  {
    BeginMovable(hallReqs, fleet);
    var b := Begin(hallReqs, fleet);
    var moved := InitialMoves(cfg, b, |b.states|);
    c.reqs == moved.reqs && SortedCopy(moved.states, c.states)
  }

  ghost predicate Continues(c: Sim) {
    AnyUnassigned(c.reqs) && !ImmediatelyAssignable(c.reqs, c.states)
  }

  // One iteration: the elevator with the earliest clock moves, then the loop sorts again.
  ghost predicate Next(cfg: Config, c: Sim, c': Sim) {
    && Continues(c)
    && c.states != []
    && InBounds(c.states[0], |c.reqs|)
    && var (s, reqs) := SingleMove(cfg, c.states[0], c.reqs);
       c'.reqs == reqs && SortedCopy(c.states[0 := s], c'.states)
  }

  ghost predicate NextAt(cfg: Config, run: seq<Sim>, k: int) {
    0 <= k < |run| - 1 && Next(cfg, run[k], run[k + 1])
  }

  ghost predicate IsRun(cfg: Config, hallReqs: seq<HallCalls>, fleet: Fleet, run: seq<Sim>) {
    && ValidInput(hallReqs, fleet)
    && run != []
    && IsStart(cfg, hallReqs, fleet, run[0])
    && forall k :: 0 <= k < |run| - 1 ==> NextAt(cfg, run, k)
  }

  ghost predicate IsCompleteRun(cfg: Config, hallReqs: seq<HallCalls>, fleet: Fleet, run: seq<Sim>) {
    IsRun(cfg, hallReqs, fleet, run) && !Continues(run[|run| - 1])
  }

  lemma ExtendRun(cfg: Config, hallReqs: seq<HallCalls>, fleet: Fleet, run: seq<Sim>, c: Sim)
    requires IsRun(cfg, hallReqs, fleet, run) && Next(cfg, run[|run| - 1], c)
    ensures IsRun(cfg, hallReqs, fleet, run + [c])
  {
    var longer := run + [c];
    forall k | 0 <= k < |longer| - 1
      ensures NextAt(cfg, longer, k)
    {
      if k < |run| - 1 { assert NextAt(cfg, run, k); }
    }
  }

  // ------------------------------------------------------------------------------------------ one move

  // Inside the loop an elevator travelling up has left the bottom floor, one travelling down the top floor.
  ghost predicate Placed(s: State, floors: nat) {
    && InBounds(s, floors)
    && (s.state.behaviour == Moving && s.state.direction == Up ==> 0 < s.state.floor)
    && (s.state.behaviour == Moving && s.state.direction == Down ==> s.state.floor < floors - 1)
  }

  ghost predicate Pending(s: State, reqs: Reqs, f: int)
    requires InBounds(s, |reqs|)
  {
    0 <= f < |reqs| && (reqs[f].up.IsUnassigned() || reqs[f].down.IsUnassigned() || s.state.cabRequests[f])
  }

  lemma ViewPending(s: State, reqs: Reqs)
    requires InBounds(s, |reqs|)
    ensures OnFloor(View(s, reqs))
    ensures forall f :: 0 <= f < |reqs| ==> (View(s, reqs).requests[f].Any() <==> Pending(s, reqs, f))
    ensures RequestsAbove(View(s, reqs)) <==> exists f :: s.state.floor < f && Pending(s, reqs, f)
    ensures RequestsBelow(View(s, reqs)) <==> exists f :: f < s.state.floor && Pending(s, reqs, f)
  {
    var e := View(s, reqs);
    if f :| s.state.floor < f && Pending(s, reqs, f) {
      assert e.requests[f].Any();
    }
    if f :| f < s.state.floor && Pending(s, reqs, f) {
      assert e.requests[f].Any();
    }
  }

  // What one move can do to the requests: it takes unassigned ones, at the floor where the elevator stands.
  ghost predicate TakesOnlyHere(s: State, reqs: Reqs, reqs': Reqs) {
    && |reqs'| == |reqs|
    && forall f, c :: 0 <= f < |reqs| ==>
         || reqs'[f].At(c) == reqs[f].At(c)
         || (f == s.state.floor && reqs[f].At(c).IsUnassigned() && reqs'[f].At(c) == Req(true, s.id))
  }

  ghost predicate CabsShrinkHere(s: State, s': State) {
    && |s'.state.cabRequests| == |s.state.cabRequests|
    && forall f :: 0 <= f < |s.state.cabRequests| ==>
         || s'.state.cabRequests[f] == s.state.cabRequests[f]
         || (f == s.state.floor == s'.state.floor && s.state.cabRequests[f] && !s'.state.cabRequests[f])
  }

  lemma MoveIsLocal(cfg: Config, s: State, reqs: Reqs)
    requires Placed(s, |reqs|)
    ensures var (s', reqs') := SingleMove(cfg, s, reqs);
            && s'.id == s.id && Placed(s', |reqs|)
            && TakesOnlyHere(s, reqs, reqs')
            && (reqs' != reqs ==> s'.state.floor == s.state.floor)
            && CabsShrinkHere(s, s')
  {
    ViewPending(s, reqs);
    var e := View(s, reqs);
    var served := ServedReqs(cfg, s, reqs);
    forall f, c | 0 <= f < |reqs|
      ensures || served[f].At(c) == reqs[f].At(c)
              || (f == s.state.floor && reqs[f].At(c).IsUnassigned() && served[f].At(c) == Req(true, s.id))
    {
      assert e.requests[s.state.floor].Has(CallOf(c)) <==> reqs[s.state.floor].At(c).IsUnassigned();
    }
  }

  // With something left to serve, a move is never idle and costs exactly one door or one travel time.
  lemma MoveIsNeverIdle(cfg: Config, s: State, reqs: Reqs, f: int)
    requires InBounds(s, |reqs|) && Pending(s, reqs, f)
    ensures var (s', _) := SingleMove(cfg, s, reqs);
            && s'.state.behaviour != Idle
            && (s'.time == s.time + 1000 * cfg.doorOpenDuration || s'.time == s.time + 1000 * cfg.travelDuration)
  {
    ViewPending(s, reqs);
  }

  // Inside the loop a stop clears something exactly if there is a call at the floor: the end floors, where a stop could
  // leave the opposite hall call behind, are never stopped at on the way out.
  lemma StopsServeWhoIsThere(cfg: Config, s: State, reqs: Reqs)
    requires Placed(s, |reqs|) && s.state.behaviour == Moving && ShouldStop(View(s, reqs))
    ensures (exists c :: Clears(cfg.clearRequestType, View(s, reqs), c)) <==> AnyRequestsAtFloor(View(s, reqs))
  {
    StopClearsExactly(cfg.clearRequestType, View(s, reqs));
  }

  // How far an elevator can still move before it serves something, if nobody else does.
  ghost function Potential(s: State, reqs: Reqs): nat
    requires InBounds(s, |reqs|)
  {
    var n := |reqs|;
    if s.state.behaviour != Moving then n
    else if s.state.direction == Up && exists f :: s.state.floor <= f && Pending(s, reqs, f) then
      n - s.state.floor
    else if s.state.direction == Down && exists f :: f <= s.state.floor && Pending(s, reqs, f) then
      s.state.floor + 1
    else n + 1
  }

  // Every move either serves something or brings the elevator closer to serving something.
  lemma MoveMakesProgress(cfg: Config, s: State, reqs: Reqs, g: int)
    requires Placed(s, |reqs|) && Pending(s, reqs, g)
    ensures var (s', reqs') := SingleMove(cfg, s, reqs);
            || (exists c :: Clears(cfg.clearRequestType, View(s, reqs), c) && reqs' == ServedReqs(cfg, s, reqs) &&
                            s'.state.cabRequests == ServedCabs(cfg, s, reqs))
            || (InBounds(s', |reqs'|) && reqs' == reqs && s'.state.cabRequests == s.state.cabRequests &&
                Potential(s', reqs') < Potential(s, reqs))
  {
    ViewPending(s, reqs);
    var e := View(s, reqs);
    var (s', reqs') := SingleMove(cfg, s, reqs);
    assert forall f :: 0 <= f < |reqs| && s'.state.cabRequests == s.state.cabRequests && reqs' == reqs ==>
        (Pending(s', reqs, f) <==> Pending(s, reqs, f));
    if c :| Clears(cfg.clearRequestType, e, c) {
      if !(s.state.behaviour == Moving && ShouldStop(e)) && !(s.state.behaviour != Moving && ChooseDirection(e) == Stop)
      {
        MoveTravels(cfg, s, reqs, g);
      }
    } else if s.state.behaviour == Moving && ShouldStop(e) {
      if e.direction != Stop &&
         (AnyRequestsAtFloor(e) || (if e.direction == Up then RequestsAbove(e) else RequestsBelow(e)))
      {
        StopClearsSomething(cfg.clearRequestType, e);
        assert false;
      }
      assert reqs' == reqs;
    } else if s.state.behaviour != Moving && ChooseDirection(e) == Stop {
      StopClearsSomething(cfg.clearRequestType, e);
      assert false;
    } else {
      MoveTravels(cfg, s, reqs, g);
    }
  }

  lemma MoveTravels(cfg: Config, s: State, reqs: Reqs, g: int)
    requires Placed(s, |reqs|) && Pending(s, reqs, g)
    requires if s.state.behaviour == Moving then !ShouldStop(View(s, reqs)) else ChooseDirection(View(s, reqs)) != Stop
    ensures var (s', reqs') := SingleMove(cfg, s, reqs);
            && InBounds(s', |reqs'|) && reqs' == reqs && s'.state.cabRequests == s.state.cabRequests
            && Potential(s', reqs') < Potential(s, reqs)
  {
    ViewPending(s, reqs);
    var e := View(s, reqs);
    var (s', _) := SingleMove(cfg, s, reqs);
    assert forall f :: Pending(s', reqs, f) <==> Pending(s, reqs, f);
    if s'.state.direction == Up {
      var f :| s.state.floor < f && Pending(s, reqs, f);
      assert Pending(s', reqs, f);
    } else {
      var f :| f < s.state.floor && Pending(s, reqs, f);
      assert Pending(s', reqs, f);
    }
  }
}
