// The simulated clocks: how far they drift apart, and why equal clocks never meet the unstable sort.
module SimulationClocks {
  import opened Totals
  import opened ElevatorAlgorithm
  import opened HallRequests
  import opened Simulation
  import opened SimulationInvariant

  // ------------------------------------------------------------------------------------------ spread

  ghost predicate Within(states: seq<State>, spread: int) {
    forall s, t :: s in states && t in states ==> s.time - t.time <= spread
  }

  ghost predicate CoversSteps(cfg: Config, spread: int) {
    1000 * cfg.doorOpenDuration <= spread && 1000 * cfg.travelDuration <= spread
  }

  // The elevator with the earliest clock is moved, so a spread that covers one move is never exceeded.
  lemma IterationKeepsSpread(cfg: Config, hallReqs: seq<HallCalls>, fleet: Fleet, c: Sim, c': Sim, spread: int)
    requires Inv(hallReqs, fleet, c) && SortedByTime(c.states) && Next(cfg, c, c')
    requires 0 <= cfg.doorOpenDuration && 0 <= cfg.travelDuration && CoversSteps(cfg, spread)
    requires Within(c.states, spread)
    ensures Within(c'.states, spread)
  {
    var s := SingleMove(cfg, c.states[0], c.reqs).0;
    IterationIsLocal(cfg, hallReqs, fleet, c, c');
    EarliestMovesWithin(c.states, s, c'.states, spread);
  }

  lemma EarliestMovesWithin(states: seq<State>, s: State, states': seq<State>, spread: int)
    requires states != [] && SortedByTime(states) && Within(states, spread)
    requires states[0].time <= s.time <= states[0].time + spread
    requires multiset(states') == multiset(states[0 := s])
    ensures Within(states', spread)
  {
    assert states[0] in states;
    forall x | x in states'
      ensures x == s || x in states
    {
      assert x in multiset(states[0 := s]);
    }
  }

  lemma RunIsSorted(cfg: Config, hallReqs: seq<HallCalls>, fleet: Fleet, run: seq<Sim>, k: nat)
    requires IsRun(cfg, hallReqs, fleet, run) && k < |run|
    ensures SortedByTime(run[k].states)
  {
    if k > 0 { assert NextAt(cfg, run, k - 1); }
  }

  lemma StepKeepsSpread(cfg: Config, hallReqs: seq<HallCalls>, fleet: Fleet, run: seq<Sim>, k: nat, spread: int)
    requires IsRun(cfg, hallReqs, fleet, run) && k + 1 < |run|
    requires 0 <= cfg.doorOpenDuration && 0 <= cfg.travelDuration && CoversSteps(cfg, spread)
    requires Within(run[k].states, spread)
    ensures Within(run[k + 1].states, spread)
  {
    RunInv(cfg, hallReqs, fleet, run, k);
    RunIsSorted(cfg, hallReqs, fleet, run, k);
    assert NextAt(cfg, run, k);
    IterationKeepsSpread(cfg, hallReqs, fleet, run[k], run[k + 1], spread);
  }

  // From the spread the initial moves leave behind, or one move, whichever is larger, the clocks never drift apart.
  lemma {:induction false} SpreadIsBounded(
    cfg: Config, hallReqs: seq<HallCalls>, fleet: Fleet, run: seq<Sim>, k: nat, spread: int)
    requires IsRun(cfg, hallReqs, fleet, run) && k < |run|
    requires 0 <= cfg.doorOpenDuration && 0 <= cfg.travelDuration && CoversSteps(cfg, spread)
    requires Within(run[0].states, spread)
    ensures Within(run[k].states, spread)
  {
    if k > 0 {
      SpreadIsBounded(cfg, hallReqs, fleet, run, k - 1, spread);
      StepKeepsSpread(cfg, hallReqs, fleet, run, k - 1, spread);
    }
  }

  // The distance between the fastest and the slowest clock.
  ghost predicate IsSpread(states: seq<State>, spread: int) {
    Within(states, spread) && exists s, t :: s in states && t in states && s.time - t.time == spread
  }

  lemma {:induction false} SpreadExists(states: seq<State>) returns (first: State, last: State)
    requires states != []
    ensures first in states && last in states
    ensures forall s :: s in states ==> first.time <= s.time <= last.time
  {
    first, last := states[0], states[0];
    if |states| > 1 {
      var rest := states[1..];
      var f, l := SpreadExists(rest);
      first := if f.time < states[0].time then f else states[0];
      last := if states[0].time < l.time then l else states[0];
      forall s | s in states
        ensures first.time <= s.time <= last.time
      {
        assert s == states[0] || s in rest;
      }
    }
  }

  function Larger(a: int, b: int): int {
    if a < b then b else a
  }

  // In every run, the spread after the initial moves, or one move if that takes longer, is never exceeded.
  lemma ClocksNeverDriftApart(cfg: Config, hallReqs: seq<HallCalls>, fleet: Fleet, run: seq<Sim>)
    returns (spread: int)
    requires IsRun(cfg, hallReqs, fleet, run) && 0 <= cfg.doorOpenDuration && 0 <= cfg.travelDuration
    ensures IsSpread(run[0].states, spread)
    ensures var bound := Larger(spread, 1000 * Larger(cfg.doorOpenDuration, cfg.travelDuration));
            forall k :: 0 <= k < |run| ==> Within(run[k].states, bound)
  {
    RunInv(cfg, hallReqs, fleet, run, 0);
    var first, last := SpreadExists(run[0].states);
    spread := last.time - first.time;
    var bound := Larger(spread, 1000 * Larger(cfg.doorOpenDuration, cfg.travelDuration));
    forall k | 0 <= k < |run|
      ensures Within(run[k].states, bound)
    {
      SpreadIsBounded(cfg, hallReqs, fleet, run, k, bound);
    }
  }

  // ------------------------------------------------------------------------------------------ determinism

  // Clock values stay a multiple of half a millisecond away from the elevator's position in id order.
  ghost predicate OnBeat(ids: seq<string>, s: State) {
    exists i, halves :: IsBeat(ids, s, i, halves)
  }

  ghost predicate IsBeat(ids: seq<string>, s: State, i: int, halves: int) {
    0 <= i < |ids| && ids[i] == s.id && s.time == i + 500 * halves
  }

  ghost predicate AllOnBeat(ids: seq<string>, states: seq<State>) {
    forall s :: s in states ==> OnBeat(ids, s)
  }

  lemma LaterOnBeat(ids: seq<string>, s: State, s': State, halves: int)
    requires OnBeat(ids, s) && s'.id == s.id && s'.time == s.time + 500 * halves
    ensures OnBeat(ids, s')
  {
    var i, h :| IsBeat(ids, s, i, h);
    assert IsBeat(ids, s', i, h + halves);
  }

  lemma InitialMoveOnBeat(cfg: Config, ids: seq<string>, s: State, reqs: Reqs)
    requires s.state.behaviour != Moving ==> 0 <= s.state.floor < |reqs|
    requires OnBeat(ids, s)
    ensures OnBeat(ids, InitialMove(cfg, s, reqs).0)
  {
    var s' := InitialMove(cfg, s, reqs).0;
    if s.state.behaviour == Moving {
      LaterOnBeat(ids, s, s', cfg.travelDuration);
    } else {
      var here := reqs[s.state.floor];
      LaterOnBeat(ids, s, s', (if s.state.behaviour == DoorOpen then cfg.doorOpenDuration else 0) +
                              (if here.up.active then 2 * cfg.doorOpenDuration else 0) +
                              (if here.down.active then 2 * cfg.doorOpenDuration else 0));
    }
  }

  lemma {:induction false} InitialMovesOnBeat(cfg: Config, ids: seq<string>, c: Sim, k: nat)
    requires k <= |c.states| && Movable(c) && AllOnBeat(ids, c.states)
    ensures AllOnBeat(ids, InitialMoves(cfg, c, k).states)
  {
    if k > 0 {
      InitialMovesOnBeat(cfg, ids, c, k - 1);
      var d := InitialMoves(cfg, c, k - 1);
      assert d.states[k - 1] == c.states[k - 1] && c.states[k - 1] in c.states;
      InitialMoveOnBeat(cfg, ids, d.states[k - 1], d.reqs);
    }
  }

  lemma StartOnBeat(cfg: Config, hallReqs: seq<HallCalls>, fleet: Fleet, c: Sim)
    requires ValidInput(hallReqs, fleet) && IsStart(cfg, hallReqs, fleet, c)
    ensures AllOnBeat(SortedIds(fleet.Keys), c.states)
  {
    BeginMovable(hallReqs, fleet);
    var ids := SortedIds(fleet.Keys);
    var b := Begin(hallReqs, fleet);
    forall s | s in b.states
      ensures OnBeat(ids, s)
    {
      var i :| 0 <= i < |b.states| && b.states[i] == s;
      assert IsBeat(ids, s, i, 0);
    }
    InitialMovesOnBeat(cfg, ids, b, |b.states|);
    var moved := InitialMoves(cfg, b, |b.states|).states;
    assert forall s :: s in c.states ==> s in multiset(moved);
  }

  lemma IterationOnBeat(cfg: Config, hallReqs: seq<HallCalls>, fleet: Fleet, ids: seq<string>, c: Sim, c': Sim)
    requires Inv(hallReqs, fleet, c) && Next(cfg, c, c') && AllOnBeat(ids, c.states)
    ensures AllOnBeat(ids, c'.states)
  {
    IterationIsLocal(cfg, hallReqs, fleet, c, c');
    var m := c.states[0];
    var s' := SingleMove(cfg, m, c.reqs).0;
    assert m in c.states;
    LaterOnBeat(ids, m, s', if s'.time == m.time + 1000 * cfg.doorOpenDuration then 2 * cfg.doorOpenDuration
                            else 2 * cfg.travelDuration);
    forall s | s in c'.states
      ensures OnBeat(ids, s)
    {
      assert s in multiset(c'.states);
    }
  }

  lemma StepOnBeat(cfg: Config, hallReqs: seq<HallCalls>, fleet: Fleet, run: seq<Sim>, k: nat)
    requires IsRun(cfg, hallReqs, fleet, run) && k < |run| - 1 && AllOnBeat(SortedIds(fleet.Keys), run[k].states)
    ensures AllOnBeat(SortedIds(fleet.Keys), run[k + 1].states)
  {
    RunInv(cfg, hallReqs, fleet, run, k);
    assert NextAt(cfg, run, k);
    IterationOnBeat(cfg, hallReqs, fleet, SortedIds(fleet.Keys), run[k], run[k + 1]);
  }

  lemma {:induction false} RunOnBeat(cfg: Config, hallReqs: seq<HallCalls>, fleet: Fleet, run: seq<Sim>, k: nat)
    requires IsRun(cfg, hallReqs, fleet, run) && k < |run|
    ensures AllOnBeat(SortedIds(fleet.Keys), run[k].states)
  {
    if k == 0 {
      StartOnBeat(cfg, hallReqs, fleet, run[0]);
    } else {
      RunOnBeat(cfg, hallReqs, fleet, run, k - 1);
      StepOnBeat(cfg, hallReqs, fleet, run, k - 1);
    }
  }

  ghost predicate DistinctTimes(states: seq<State>) {
    forall i, j :: 0 <= i < j < |states| ==> states[i].time != states[j].time
  }

  lemma DistinctIds(fleet: Fleet, states: seq<State>, i: nat, j: nat)
    requires OneStateEach(fleet, states) && i < j < |states|
    ensures states[i].id != states[j].id
  {
    SumAtLeastTwo(HasId(states[i].id), states, i, j);
  }

  lemma BeatsDiffer(fleet: Fleet, ids: seq<string>, states: seq<State>)
    requires OneStateEach(fleet, states) && AllOnBeat(ids, states) && |ids| <= 500
    ensures DistinctTimes(states)
  {
    forall i: nat, j: nat | i < j < |states|
      ensures states[i].time != states[j].time
    {
      DistinctIds(fleet, states, i, j);
      assert states[i] in states && states[j] in states;
      var a, h :| IsBeat(ids, states[i], a, h);
      var b, g :| IsBeat(ids, states[j], b, g);
      assert a != b;
    }
  }

  // With at most 500 elevators no two clocks are equal at any sort of any run.
  lemma ClocksStayDistinct(cfg: Config, hallReqs: seq<HallCalls>, fleet: Fleet, run: seq<Sim>, k: nat)
    requires IsRun(cfg, hallReqs, fleet, run) && k < |run| && |fleet.Keys| <= 500
    ensures DistinctTimes(run[k].states)
  {
    RunOnBeat(cfg, hallReqs, fleet, run, k);
    RunInv(cfg, hallReqs, fleet, run, k);
    BeatsDiffer(fleet, SortedIds(fleet.Keys), run[k].states);
  }

  lemma SortedHeadsAgree(xs: seq<State>, ys: seq<State>)
    requires multiset(xs) == multiset(ys) && SortedByTime(xs) && SortedByTime(ys) && DistinctTimes(xs)
    requires xs != [] && ys != []
    ensures xs[0] == ys[0]
  {
    assert xs[0] in multiset(ys) && ys[0] in multiset(xs);
    var i :| 0 <= i < |ys| && ys[i] == xs[0];
    var j :| 0 <= j < |xs| && xs[j] == ys[0];
    assert xs[0].time <= xs[j].time;
    assert ys[0].time <= ys[i].time;
  }

  lemma TailOfSorted(xs: seq<State>)
    requires xs != [] && SortedByTime(xs)
    ensures SortedByTime(xs[1..]) && (DistinctTimes(xs) ==> DistinctTimes(xs[1..]))
    ensures multiset(xs[1..]) == multiset(xs) - multiset{xs[0]}
  {
    assert xs == [xs[0]] + xs[1..];
  }

  lemma HeadAndTail<T>(xs: seq<T>, ys: seq<T>)
    requires xs != [] && ys != [] && xs[0] == ys[0] && xs[1..] == ys[1..]
    ensures xs == ys
  {
    assert xs == [xs[0]] + xs[1..] && ys == [ys[0]] + ys[1..];
  }

  lemma SameLength<T>(xs: seq<T>, ys: seq<T>)
    requires multiset(xs) == multiset(ys)
    ensures |xs| == |ys|
  {
    assert |xs| == |multiset(xs)| == |multiset(ys)| == |ys|;
  }

  lemma {:induction false} SortIsUnique(xs: seq<State>, ys: seq<State>)
    requires multiset(xs) == multiset(ys) && SortedByTime(xs) && SortedByTime(ys) && DistinctTimes(xs)
    ensures xs == ys
  {
    SameLength(xs, ys);
    if xs != [] {
      SortedHeadsAgree(xs, ys);
      TailOfSorted(xs);
      TailOfSorted(ys);
      SortIsUnique(xs[1..], ys[1..]);
      HeadAndTail(xs, ys);
    }
  }

  lemma SortedCopiesAgree(states: seq<State>, xs: seq<State>, ys: seq<State>)
    requires SortedCopy(states, xs) && SortedCopy(states, ys) && DistinctTimes(xs)
    ensures xs == ys
  {
    SortIsUnique(xs, ys);
  }

  lemma NextAgrees(cfg: Config, c: Sim, c1: Sim, c2: Sim)
    requires Next(cfg, c, c1) && Next(cfg, c, c2) && DistinctTimes(c1.states)
    ensures c1 == c2
  {
    SortedCopiesAgree(c.states[0 := SingleMove(cfg, c.states[0], c.reqs).0], c1.states, c2.states);
  }

  lemma StartsAgree(cfg: Config, hallReqs: seq<HallCalls>, fleet: Fleet, c1: Sim, c2: Sim)
    requires ValidInput(hallReqs, fleet) && IsStart(cfg, hallReqs, fleet, c1) && IsStart(cfg, hallReqs, fleet, c2)
    requires DistinctTimes(c1.states)
    ensures c1 == c2
  {
    BeginMovable(hallReqs, fleet);
    var b := Begin(hallReqs, fleet);
    SortedCopiesAgree(InitialMoves(cfg, b, |b.states|).states, c1.states, c2.states);
  }

  lemma RunsContinueAlike(
    cfg: Config, hallReqs: seq<HallCalls>, fleet: Fleet, run1: seq<Sim>, run2: seq<Sim>, k: nat)
    requires IsRun(cfg, hallReqs, fleet, run1) && IsRun(cfg, hallReqs, fleet, run2) && |fleet.Keys| <= 500
    requires k + 1 < |run1| && k + 1 < |run2| && run1[k] == run2[k]
    ensures run1[k + 1] == run2[k + 1]
  {
    ClocksStayDistinct(cfg, hallReqs, fleet, run1, k + 1);
    assert NextAt(cfg, run1, k) && NextAt(cfg, run2, k);
    NextAgrees(cfg, run1[k], run1[k + 1], run2[k + 1]);
  }

  lemma RunsStartAlike(cfg: Config, hallReqs: seq<HallCalls>, fleet: Fleet, run1: seq<Sim>, run2: seq<Sim>)
    requires IsRun(cfg, hallReqs, fleet, run1) && IsRun(cfg, hallReqs, fleet, run2) && |fleet.Keys| <= 500
    ensures run1[0] == run2[0]
  {
    ClocksStayDistinct(cfg, hallReqs, fleet, run1, 0);
    StartsAgree(cfg, hallReqs, fleet, run1[0], run2[0]);
  }

  // Two runs on the same input pass through the same states, although the sort is unstable.
  lemma {:induction false} RunsAgree(
    cfg: Config, hallReqs: seq<HallCalls>, fleet: Fleet, run1: seq<Sim>, run2: seq<Sim>, k: nat)
    requires IsRun(cfg, hallReqs, fleet, run1) && IsRun(cfg, hallReqs, fleet, run2)
    requires k < |run1| && k < |run2| && |fleet.Keys| <= 500
    ensures run1[k] == run2[k]
  {
    if k == 0 {
      RunsStartAlike(cfg, hallReqs, fleet, run1, run2);
    } else {
      RunsAgree(cfg, hallReqs, fleet, run1, run2, k - 1);
      RunsContinueAlike(cfg, hallReqs, fleet, run1, run2, k - 1);
    }
  }

  // So with at most 500 elevators the outcome is a function of the input.
  lemma OutcomeIsDetermined(cfg: Config, hallReqs: seq<HallCalls>, fleet: Fleet, run1: seq<Sim>, run2: seq<Sim>)
    requires IsCompleteRun(cfg, hallReqs, fleet, run1) && IsCompleteRun(cfg, hallReqs, fleet, run2)
    requires |fleet.Keys| <= 500
    ensures run1 == run2
  {
    forall k: nat | k < |run1| && k < |run2|
      ensures run1[k] == run2[k]
    {
      RunsAgree(cfg, hallReqs, fleet, run1, run2, k);
    }
    CompleteRunsAreMaximal(cfg, hallReqs, fleet, run1, run2);
    CompleteRunsAreMaximal(cfg, hallReqs, fleet, run2, run1);
  }

  lemma ContinuesInside(cfg: Config, hallReqs: seq<HallCalls>, fleet: Fleet, run: seq<Sim>, k: nat)
    requires IsRun(cfg, hallReqs, fleet, run) && k + 1 < |run|
    ensures Continues(run[k])
  {
    assert NextAt(cfg, run, k);
  }

  lemma CompleteRunsAreMaximal(cfg: Config, hallReqs: seq<HallCalls>, fleet: Fleet, run1: seq<Sim>, run2: seq<Sim>)
    requires IsCompleteRun(cfg, hallReqs, fleet, run1) && IsRun(cfg, hallReqs, fleet, run2)
    requires |fleet.Keys| <= 500
    ensures |run2| <= |run1|
  {
    if |run1| < |run2| {
      ContinuesInside(cfg, hallReqs, fleet, run2, |run1| - 1);
      RunsAgree(cfg, hallReqs, fleet, run1, run2, |run1| - 1);
    }
  }
}
