// Why the assigner's `while(true)` loop ends, how long it can take, and exactly when it may not end.
module SimulationTermination {
  import opened Totals
  import opened ElevatorAlgorithm
  import opened HallRequests
  import opened Simulation
  import opened SimulationInvariant

  function Truth(b: bool): int {
    if b then 1 else 0
  }

  function OpenCalls(r: FloorReqs): int {
    Truth(r.up.IsUnassigned()) + Truth(r.down.IsUnassigned())
  }

  function ActiveCalls(h: HallCalls): int {
    Truth(h.up) + Truth(h.down)
  }

  // Only elevators with a non-empty id count: what an elevator called "" takes stays unassigned.
  ghost function NamedCabs(s: State): int {
    if s.id == "" then 0 else Sum(Truth, s.state.cabRequests)
  }

  ghost function NamedPotential(reqs: Reqs): State -> int {
    (s: State) => if s.id == "" || !InBounds(s, |reqs|) then 0 else Potential(s, reqs)
  }

  ghost function Outstanding(c: Sim): int {
    Sum(OpenCalls, c.reqs) + Sum(NamedCabs, c.states)
  }

  // One more than the largest sum of potentials.
  function Weight(elevators: nat, floors: nat): nat {
    elevators * (floors + 1) + 1
  }

  // Multiplication by repeated addition, so that products only appear where they are needed.
  function Times(a: int, w: nat): nat {
    if a <= 0 then 0 else Times(a - 1, w) + w
  }

  lemma {:induction false} TimesMonotone(a: int, b: int, w: nat)
    requires a <= b
    ensures Times(a, w) <= Times(b, w)
    ensures 0 <= a < b ==> Times(a, w) + w <= Times(b, w)
    decreases b - a
  {
    if a < b { TimesMonotone(a, b - 1, w); }
  }

  lemma {:induction false} TimesIsProduct(a: nat, w: nat)
    ensures Times(a, w) == a * w
  {
    if a > 0 {
      TimesIsProduct(a - 1, w);
      assert a * w == (a - 1) * w + w;
    }
  }

  ghost function Distances(c: Sim): int {
    Sum(NamedPotential(c.reqs), c.states)
  }

  ghost function Measure(c: Sim): int {
    Times(Outstanding(c), Weight(|c.states|, |c.reqs|)) + Distances(c)
  }

  // ------------------------------------------------------------------------------------------ bounds

  lemma {:induction false} CabsNonNegative(cabs: seq<bool>)
    ensures 0 <= Sum(Truth, cabs)
  {
    SumNonNegative(Truth, cabs);
  }

  lemma MeasureParts(c: Sim)
    ensures 0 <= Distances(c) < Weight(|c.states|, |c.reqs|)
    ensures 0 <= Outstanding(c)
    ensures 0 <= Measure(c) < Times(Outstanding(c) + 1, Weight(|c.states|, |c.reqs|))
  {
    SumBounds(NamedPotential(c.reqs), c.states, 0, |c.reqs| + 1);
    SumNonNegative(OpenCalls, c.reqs);
    forall s | s in c.states
      ensures 0 <= NamedCabs(s)
    {
      CabsNonNegative(s.state.cabRequests);
    }
    SumNonNegative(NamedCabs, c.states);
  }

  lemma SortKeepsMeasure(c: Sim, sorted: seq<State>)
    requires multiset(sorted) == multiset(c.states)
    ensures Measure(Sim(sorted, c.reqs)) == Measure(c) && |sorted| == |c.states|
  {
    SumPermutation(NamedCabs, c.states, sorted);
    SumPermutation(NamedPotential(c.reqs), c.states, sorted);
    assert |multiset(sorted)| == |sorted| && |multiset(c.states)| == |c.states|;
  }

  // ------------------------------------------------------------------------------------------ one move

  // A move that clears a call leaves fewer outstanding calls behind.
  lemma ClearingShrinksOutstanding(cfg: Config, c: Sim, s: State, call: CallType)
    requires c.states != [] && c.states[0].id != "" && InBounds(c.states[0], |c.reqs|)
    requires Clears(cfg.clearRequestType, View(c.states[0], c.reqs), call)
    requires s.id == c.states[0].id && s.state.cabRequests == ServedCabs(cfg, c.states[0], c.reqs)
    ensures Outstanding(Sim(c.states[0 := s], ServedReqs(cfg, c.states[0], c.reqs))) < Outstanding(c)
  {
    var m := c.states[0];
    var f := m.state.floor;
    var reqs := ServedReqs(cfg, m, c.reqs);
    SumUpdate(OpenCalls, c.reqs, f, reqs[f]);
    SumUpdate(Truth, m.state.cabRequests, f, false);
    SumUpdate(NamedCabs, c.states, 0, s);
  }

  lemma NamedMoveShrinksParts(cfg: Config, c: Sim, g: int)
    requires c.states != [] && c.states[0].id != "" && Placed(c.states[0], |c.reqs|)
    requires Pending(c.states[0], c.reqs, g)
    ensures var (s, reqs) := SingleMove(cfg, c.states[0], c.reqs);
            var c' := Sim(c.states[0 := s], reqs);
            || Outstanding(c') < Outstanding(c)
            || (Outstanding(c') == Outstanding(c) && Distances(c') < Distances(c))
  {
    var m := c.states[0];
    var (s, reqs) := SingleMove(cfg, m, c.reqs);
    MoveIsLocal(cfg, m, c.reqs);
    MoveMakesProgress(cfg, m, c.reqs, g);
    if call :| && Clears(cfg.clearRequestType, View(m, c.reqs), call)
               && reqs == ServedReqs(cfg, m, c.reqs) && s.state.cabRequests == ServedCabs(cfg, m, c.reqs)
    {
      ClearingShrinksOutstanding(cfg, c, s, call);
    } else {
      SumUpdate(NamedPotential(c.reqs), c.states, 0, s);
      SumUpdate(NamedCabs, c.states, 0, s);
    }
  }

  lemma NamedMoveShrinksMeasure(cfg: Config, c: Sim, g: int)
    requires c.states != [] && c.states[0].id != "" && Placed(c.states[0], |c.reqs|)
    requires Pending(c.states[0], c.reqs, g)
    ensures var (s, reqs) := SingleMove(cfg, c.states[0], c.reqs);
            Measure(Sim(c.states[0 := s], reqs)) < Measure(c)
  {
    var (s, reqs) := SingleMove(cfg, c.states[0], c.reqs);
    var c' := Sim(c.states[0 := s], reqs);
    MoveIsLocal(cfg, c.states[0], c.reqs);
    NamedMoveShrinksParts(cfg, c, g);
    MeasureParts(c);
    MeasureParts(c');
    TimesMonotone(Outstanding(c'), Outstanding(c), Weight(|c.states|, |c.reqs|));
  }

  // An elevator whose id is the empty string changes no hall request at all.
  lemma NamelessMoveChangesNothing(cfg: Config, c: Sim)
    requires c.states != [] && c.states[0].id == "" && Placed(c.states[0], |c.reqs|)
    ensures var (s, reqs) := SingleMove(cfg, c.states[0], c.reqs);
            reqs == c.reqs && Measure(Sim(c.states[0 := s], reqs)) == Measure(c)
  {
    var m := c.states[0];
    var (s, reqs) := SingleMove(cfg, m, c.reqs);
    MoveIsLocal(cfg, m, c.reqs);
    forall f | 0 <= f < |c.reqs|
      ensures reqs[f] == c.reqs[f]
    {
      assert reqs[f].At(Upward) == c.reqs[f].At(Upward) && reqs[f].At(Downward) == c.reqs[f].At(Downward);
    }
    assert reqs == c.reqs;
    SumUpdate(NamedPotential(c.reqs), c.states, 0, s);
    SumUpdate(NamedCabs, c.states, 0, s);
  }

  // ------------------------------------------------------------------ fleets without an empty id

  lemma IterationShrinksMeasure(cfg: Config, hallReqs: seq<HallCalls>, fleet: Fleet, c: Sim, c': Sim)
    requires Inv(hallReqs, fleet, c) && Next(cfg, c, c') && c.states[0].id != ""
    ensures Measure(c') < Measure(c)
  {
    var m := c.states[0];
    assert m in c.states && StateOk(fleet, |hallReqs|, m);
    var g := UnassignedIsPending(c, m);
    NamedMoveShrinksMeasure(cfg, c, g);
    var (s, reqs) := SingleMove(cfg, m, c.reqs);
    SortKeepsMeasure(Sim(c.states[0 := s], reqs), c'.states);
  }

  lemma MoverIsNamed(hallReqs: seq<HallCalls>, fleet: Fleet, c: Sim)
    requires Inv(hallReqs, fleet, c) && "" !in fleet
    ensures c.states[0].id != ""
  {
    assert c.states[0] in c.states;
  }

  lemma StepShrinksMeasure(cfg: Config, hallReqs: seq<HallCalls>, fleet: Fleet, run: seq<Sim>, k: nat)
    requires IsRun(cfg, hallReqs, fleet, run) && k + 1 < |run| && "" !in fleet
    ensures Measure(run[k + 1]) < Measure(run[k])
  {
    RunInv(cfg, hallReqs, fleet, run, k);
    assert NextAt(cfg, run, k);
    MoverIsNamed(hallReqs, fleet, run[k]);
    IterationShrinksMeasure(cfg, hallReqs, fleet, run[k], run[k + 1]);
  }

  lemma {:induction false} RunShrinksMeasure(cfg: Config, hallReqs: seq<HallCalls>, fleet: Fleet, run: seq<Sim>, k: nat)
    requires IsRun(cfg, hallReqs, fleet, run) && k < |run| && "" !in fleet
    ensures Measure(run[k]) + k <= Measure(run[0])
  {
    if k > 0 {
      RunShrinksMeasure(cfg, hallReqs, fleet, run, k - 1);
      StepShrinksMeasure(cfg, hallReqs, fleet, run, k - 1);
    }
  }

  // All calls of the input: hall calls and cab calls.
  ghost function TotalCalls(hallReqs: seq<HallCalls>, fleet: Fleet): int {
    Sum(ActiveCalls, hallReqs) + Sum(NamedCabs, InitialStates(fleet))
  }

  lemma {:induction false} InitialMovesKeepCabs(cfg: Config, c: Sim, k: nat)
    requires k <= |c.states| && Movable(c)
    ensures Sum(NamedCabs, InitialMoves(cfg, c, k).states) == Sum(NamedCabs, c.states)
  {
    if k > 0 {
      InitialMovesKeepCabs(cfg, c, k - 1);
      var d := InitialMoves(cfg, c, k - 1);
      assert d.states[k - 1] == c.states[k - 1] && c.states[k - 1] in c.states;
      SumUpdate(NamedCabs, d.states, k - 1, InitialMove(cfg, d.states[k - 1], d.reqs).0);
    }
  }

  lemma {:induction false} OpenAtMostActive(reqs: Reqs, hallReqs: seq<HallCalls>)
    requires |reqs| == |hallReqs|
    requires forall f, c :: 0 <= f < |reqs| ==> reqs[f].At(c).active == hallReqs[f].At(c)
    ensures Sum(OpenCalls, reqs) <= Sum(ActiveCalls, hallReqs)
  {
    if reqs != [] {
      forall f, c | 0 <= f < |reqs[1..]|
        ensures reqs[1..][f].At(c).active == hallReqs[1..][f].At(c)
      {
        assert reqs[1 + f].At(c).active == hallReqs[1 + f].At(c);
      }
      OpenAtMostActive(reqs[1..], hallReqs[1..]);
      assert reqs[0].At(Upward).active == hallReqs[0].At(Upward);
      assert reqs[0].At(Downward).active == hallReqs[0].At(Downward);
    }
  }

  lemma StartHasTotalCalls(cfg: Config, hallReqs: seq<HallCalls>, fleet: Fleet, c: Sim)
    requires ValidInput(hallReqs, fleet) && IsStart(cfg, hallReqs, fleet, c)
    ensures Outstanding(c) <= TotalCalls(hallReqs, fleet)
  {
    StartInv(cfg, hallReqs, fleet, c);
    BeginMovable(hallReqs, fleet);
    var b := Begin(hallReqs, fleet);
    InitialMovesKeepCabs(cfg, b, |b.states|);
    SumPermutation(NamedCabs, InitialMoves(cfg, b, |b.states|).states, c.states);
    OpenAtMostActive(c.reqs, hallReqs);
  }

  lemma StartMeasureIsBounded(cfg: Config, hallReqs: seq<HallCalls>, fleet: Fleet, c: Sim)
    requires ValidInput(hallReqs, fleet) && IsStart(cfg, hallReqs, fleet, c)
    ensures 0 <= TotalCalls(hallReqs, fleet)
    ensures Measure(c) < Times(TotalCalls(hallReqs, fleet) + 1, Weight(|fleet.Keys|, |hallReqs|))
  {
    StartInv(cfg, hallReqs, fleet, c);
    MeasureParts(c);
    StartHasTotalCalls(cfg, hallReqs, fleet, c);
    TimesMonotone(Outstanding(c) + 1, TotalCalls(hallReqs, fleet) + 1, Weight(|fleet.Keys|, |hallReqs|));
  }

  // Whatever the sort does with equal clocks, and whatever the configured times are, the loop makes fewer than
  // (calls + 1) * (elevators * (floors + 1) + 1) iterations when no elevator's id is the empty string.
  lemma LoopIsBounded(cfg: Config, hallReqs: seq<HallCalls>, fleet: Fleet, run: seq<Sim>)
    requires IsRun(cfg, hallReqs, fleet, run) && "" !in fleet
    ensures |run| <= (TotalCalls(hallReqs, fleet) + 1) * Weight(|fleet.Keys|, |hallReqs|)
  {
    RunShrinksMeasure(cfg, hallReqs, fleet, run, |run| - 1);
    MeasureParts(run[|run| - 1]);
    StartMeasureIsBounded(cfg, hallReqs, fleet, run[0]);
    TimesIsProduct(TotalCalls(hallReqs, fleet) + 1, Weight(|fleet.Keys|, |hallReqs|));
  }
}
