// The empty string as an elevator id. It is also the "nobody yet" mark, so what such an elevator takes stays
// unassigned. This file settles exactly when the loop still ends.
module SimulationEmptyId {
  import opened Totals
  import opened ElevatorAlgorithm
  import opened HallRequests
  import opened Simulation
  import opened SimulationInvariant
  import opened SimulationTermination
  import opened SimulationClocks
  import opened SimulationCalm

  ghost predicate BoundedBy(cfg: Config, hallReqs: seq<HallCalls>, fleet: Fleet, bound: nat) {
    forall run :: IsRun(cfg, hallReqs, fleet, run) ==> |run| <= bound
  }

  ghost predicate Terminates(cfg: Config, hallReqs: seq<HallCalls>, fleet: Fleet) {
    exists bound :: BoundedBy(cfg, hallReqs, fleet, bound)
  }

  // ------------------------------------------------------------------ the latest clock of a real id

  ghost predicate HasNamed(states: seq<State>) {
    exists s :: s in states && s.id != ""
  }

  ghost predicate IsLatestNamed(states: seq<State>, latest: int) {
    && (exists s :: s in states && s.id != "" && s.time == latest)
    && (forall s :: s in states && s.id != "" ==> s.time <= latest)
  }

  lemma {:induction false} LatestNamedExists(states: seq<State>)
    requires HasNamed(states)
    ensures exists latest :: IsLatestNamed(states, latest)
  {
    if HasNamed(states[1..]) {
      LatestNamedExists(states[1..]);
      var rest :| IsLatestNamed(states[1..], rest);
      var latest := if states[0].id != "" && rest < states[0].time then states[0].time else rest;
      assert states[0] in states;
      var s :| s in states[1..] && s.id != "" && s.time == rest;
      assert s in states;
      assert IsLatestNamed(states, latest);
    } else {
      var s :| s in states && s.id != "";
      assert s == states[0];
      assert IsLatestNamed(states, s.time);
    }
  }

  ghost function LatestNamed(states: seq<State>): int
    requires HasNamed(states)
  {
    LatestNamedExists(states);
    var latest :| IsLatestNamed(states, latest);
    latest
  }

  lemma LatestNamedIs(states: seq<State>, latest: int)
    requires IsLatestNamed(states, latest)
    ensures HasNamed(states) && LatestNamed(states) == latest
  {
    LatestNamedExists(states);
  }

  lemma FleetHasNamed(hallReqs: seq<HallCalls>, fleet: Fleet, c: Sim, id: string)
    requires Inv(hallReqs, fleet, c) && id in fleet && id != ""
    ensures HasNamed(c.states)
  {
    var i := SumWitness(HasId(id), c.states);
    assert c.states[i] in c.states;
  }

  lemma SameLatest(states: seq<State>, states': seq<State>)
    requires HasNamed(states) && multiset(states') == multiset(states)
    ensures HasNamed(states') && LatestNamed(states') == LatestNamed(states)
  {
    LatestNamedExists(states);
    assert forall x :: x in states <==> x in multiset(states');
    LatestNamedIs(states', LatestNamed(states));
  }

  lemma NamelessMoveKeepsLatest(states: seq<State>, s: State)
    requires states != [] && states[0].id == "" && s.id == "" && HasNamed(states)
    ensures HasNamed(states[0 := s]) && LatestNamed(states[0 := s]) == LatestNamed(states)
  {
    LatestNamedExists(states);
    var latest, moved := LatestNamed(states), states[0 := s];
    var t :| t in states && t.id != "" && t.time == latest;
    var i :| 0 <= i < |states| && states[i] == t;
    assert moved[i] == t;
    LatestNamedIs(moved, latest);
  }

  // The real elevator with the earliest clock moves, so the latest one goes up by one move at most.
  lemma NamedMoveRaisesLatest(states: seq<State>, s: State, cost: nat)
    requires states != [] && states[0].id != "" && s.id != "" && s.time <= states[0].time + cost
    ensures HasNamed(states) && HasNamed(states[0 := s])
    ensures LatestNamed(states[0 := s]) <= LatestNamed(states) + cost
  {
    var moved := states[0 := s];
    assert states[0] in states && moved[0] in moved;
    LatestNamedExists(states);
    LatestNamedExists(moved);
    var latest := LatestNamed(states);
    assert states[0].time <= latest;
    var t :| t in moved && t.id != "" && t.time == LatestNamed(moved);
    assert t == s || t in states;
  }

  // ------------------------------------------------------------------ what is left to the nameless elevator

  function Abs(x: int): nat {
    if x < 0 then -x else x
  }

  // How long it can go on before every real elevator is behind it.
  function Lead(latest: int, s: State): nat {
    if s.time <= latest then latest - s.time + 1 else 0
  }

  // Travelling may even take it back in time, but only until it has settled.
  function TravelWeight(cfg: Config): nat {
    1000 * Abs(cfg.travelDuration) + 1
  }

  ghost function Left(cfg: Config, latest: int, reqs: Reqs): State -> int {
    (s: State) => if s.id != "" || !InBounds(s, |reqs|) then 0 else
                    Times(Calm(s, reqs), TravelWeight(cfg)) + Lead(latest, s)
  }

  ghost function TotalLeft(cfg: Config, c: Sim): int
    requires HasNamed(c.states)
  {
    Sum(Left(cfg, LatestNamed(c.states), c.reqs), c.states)
  }

  lemma {:induction false} TimesAdds(a: nat, b: nat, w: nat)
    ensures Times(a + b, w) == Times(a, w) + Times(b, w)
  {
    if b > 0 { TimesAdds(a, b - 1, w); }
  }

  lemma NamelessMoveUsesUp(cfg: Config, s: State, reqs: Reqs, g: int, latest: int)
    requires s.id == "" && Placed(s, |reqs|) && Pending(s, reqs, g)
    requires 1 <= cfg.doorOpenDuration && s.time <= latest
    ensures Left(cfg, latest, reqs)(SingleMove(cfg, s, reqs).0) < Left(cfg, latest, reqs)(s)
  {
    var s' := SingleMove(cfg, s, reqs).0;
    NamelessMoveCalms(cfg, s, reqs, g);
    MoveIsLocal(cfg, s, reqs);
    TimesMonotone(Calm(s', reqs), Calm(s, reqs), TravelWeight(cfg));
  }

  // One iteration that moves the nameless elevator.
  lemma NamelessIterationUsesUp(cfg: Config, hallReqs: seq<HallCalls>, fleet: Fleet, c: Sim, c': Sim)
    requires Inv(hallReqs, fleet, c) && SortedByTime(c.states) && Next(cfg, c, c')
    requires c.states[0].id == "" && HasNamed(c.states) && 1 <= cfg.doorOpenDuration
    ensures Measure(c') == Measure(c)
    ensures HasNamed(c'.states) && TotalLeft(cfg, c') < TotalLeft(cfg, c)
  {
    var m := c.states[0];
    assert m in c.states && StateOk(fleet, |hallReqs|, m);
    var (s, reqs) := SingleMove(cfg, m, c.reqs);
    var f := UnassignedIsPending(c, m);
    var moved := c.states[0 := s];
    NamelessMoveChangesNothing(cfg, c);
    MoveIsLocal(cfg, m, c.reqs);
    SortKeepsMeasure(Sim(moved, reqs), c'.states);
    EarliestIsBeforeLatest(c.states);
    NamelessMoveUsesUp(cfg, m, c.reqs, f, LatestNamed(c.states));
    NamelessMoveKeepsLatest(c.states, s);
    SameLatest(moved, c'.states);
    var left := Left(cfg, LatestNamed(c.states), c.reqs);
    SumUpdate(left, c.states, 0, s);
    SumPermutation(left, moved, c'.states);
  }

  lemma EarliestIsBeforeLatest(states: seq<State>)
    requires SortedByTime(states) && HasNamed(states)
    ensures states[0].time <= LatestNamed(states)
  {
    LatestNamedExists(states);
    var t :| t in states && t.id != "" && t.time == LatestNamed(states);
  }

  // What one move of a real elevator can add for each nameless one.
  function Gain(cfg: Config, floors: nat): nat {
    Times(2 * floors, TravelWeight(cfg)) + 1000 * Abs(cfg.doorOpenDuration) + 1000 * Abs(cfg.travelDuration)
  }

  lemma OthersAddLittle(cfg: Config, x: State, reqs: Reqs, reqs': Reqs, latest: int, latest': int)
    requires |reqs'| == |reqs|
    requires latest' <= latest + 1000 * Abs(cfg.doorOpenDuration) + 1000 * Abs(cfg.travelDuration)
    ensures Left(cfg, latest', reqs')(x) <= Left(cfg, latest, reqs)(x) + Gain(cfg, |reqs|)
  {
    if x.id == "" && InBounds(x, |reqs|) {
      var w := TravelWeight(cfg);
      OthersUnsettleLittle(x, reqs, reqs');
      TimesMonotone(Calm(x, reqs'), Calm(x, reqs) + 2 * |reqs|, w);
      TimesAdds(Calm(x, reqs), 2 * |reqs|, w);
    }
  }

  lemma {:induction false} SumGains<T>(f: T -> int, g: T -> int, xs: seq<T>, gain: nat)
    requires forall x :: x in xs ==> g(x) <= f(x) + gain
    ensures Sum(g, xs) <= Sum(f, xs) + Times(|xs|, gain)
  {
    if xs != [] { SumGains(f, g, xs[1..], gain); }
  }

  lemma MoveCost(cfg: Config, s: State, reqs: Reqs)
    requires InBounds(s, |reqs|)
    ensures SingleMove(cfg, s, reqs).0.time <=
            s.time + 1000 * Abs(cfg.doorOpenDuration) + 1000 * Abs(cfg.travelDuration)
  {
  }

  // One iteration that moves a real elevator.
  lemma NamedIterationAddsLittle(cfg: Config, hallReqs: seq<HallCalls>, fleet: Fleet, c: Sim, c': Sim)
    requires Inv(hallReqs, fleet, c) && Next(cfg, c, c') && c.states[0].id != ""
    ensures HasNamed(c.states) && HasNamed(c'.states)
    ensures TotalLeft(cfg, c') <= TotalLeft(cfg, c) + Times(|c.states|, Gain(cfg, |c.reqs|))
  {
    var m := c.states[0];
    assert m in c.states && StateOk(fleet, |hallReqs|, m);
    var (s, reqs) := SingleMove(cfg, m, c.reqs);
    var moved := c.states[0 := s];
    MoveIsLocal(cfg, m, c.reqs);
    MoveCost(cfg, m, c.reqs);
    NamedMoveRaisesLatest(c.states, s, 1000 * Abs(cfg.doorOpenDuration) + 1000 * Abs(cfg.travelDuration));
    SameLatest(moved, c'.states);
    var before := Left(cfg, LatestNamed(c.states), c.reqs);
    var after := Left(cfg, LatestNamed(moved), reqs);
    SumUpdate(before, c.states, 0, s);
    forall x | x in moved
      ensures after(x) <= before(x) + Gain(cfg, |c.reqs|)
    {
      OthersAddLittle(cfg, x, c.reqs, reqs, LatestNamed(c.states), LatestNamed(moved));
    }
    SumGains(before, after, moved, Gain(cfg, |c.reqs|));
    SumPermutation(after, moved, c'.states);
  }

  // ------------------------------------------------------------------ the budget of a whole run

  function MoveWeight(cfg: Config, elevators: nat, floors: nat): nat {
    Times(elevators, Gain(cfg, floors)) + 1
  }

  ghost function Budget(cfg: Config, w: nat): Sim -> int {
    (c: Sim) => if HasNamed(c.states) then Times(Measure(c), w) + TotalLeft(cfg, c) else 0
  }

  // Some elevator has a real id, and doors take time.
  ghost predicate Paced(cfg: Config, fleet: Fleet, id: string) {
    id in fleet && id != "" && 1 <= cfg.doorOpenDuration
  }

  lemma BudgetIsNonNegative(cfg: Config, c: Sim, w: nat)
    ensures 0 <= Budget(cfg, w)(c)
  {
    if HasNamed(c.states) {
      SumNonNegative(Left(cfg, LatestNamed(c.states), c.reqs), c.states);
    }
  }

  lemma IterationUsesBudget(cfg: Config, hallReqs: seq<HallCalls>, fleet: Fleet, c: Sim, c': Sim, id: string)
    requires Inv(hallReqs, fleet, c) && SortedByTime(c.states) && Next(cfg, c, c') && Paced(cfg, fleet, id)
    ensures var budget := Budget(cfg, MoveWeight(cfg, |fleet.Keys|, |hallReqs|));
            budget(c') < budget(c)
  {
    var w := MoveWeight(cfg, |fleet.Keys|, |hallReqs|);
    FleetHasNamed(hallReqs, fleet, c, id);
    if c.states[0].id == "" {
      NamelessIterationUsesUp(cfg, hallReqs, fleet, c, c');
    } else {
      NamedIterationAddsLittle(cfg, hallReqs, fleet, c, c');
      IterationShrinksMeasure(cfg, hallReqs, fleet, c, c');
      MeasureParts(c');
      TimesMonotone(Measure(c'), Measure(c), w);
    }
  }

  lemma StepUsesBudget(
    cfg: Config, hallReqs: seq<HallCalls>, fleet: Fleet, run: seq<Sim>, k: nat, id: string)
    requires IsRun(cfg, hallReqs, fleet, run) && k + 1 < |run| && Paced(cfg, fleet, id)
    ensures Falls(Budget(cfg, MoveWeight(cfg, |fleet.Keys|, |hallReqs|)), run, k)
  {
    RunInv(cfg, hallReqs, fleet, run, k);
    RunIsSorted(cfg, hallReqs, fleet, run, k);
    assert NextAt(cfg, run, k);
    IterationUsesBudget(cfg, hallReqs, fleet, run[k], run[k + 1], id);
  }

  lemma SortKeepsBudget(cfg: Config, c: Sim, sorted: seq<State>, w: nat)
    requires multiset(sorted) == multiset(c.states) && HasNamed(c.states)
    ensures Budget(cfg, w)(Sim(sorted, c.reqs)) == Budget(cfg, w)(c)
  {
    SortKeepsMeasure(c, sorted);
    SameLatest(c.states, sorted);
    SumPermutation(Left(cfg, LatestNamed(c.states), c.reqs), c.states, sorted);
  }

  // The budget of the state after the initial moves bounds every run.
  ghost function StartBudget(cfg: Config, hallReqs: seq<HallCalls>, fleet: Fleet): nat
    requires ValidInput(hallReqs, fleet)
  {
    BeginMovable(hallReqs, fleet);
    var b := Begin(hallReqs, fleet);
    var moved := InitialMoves(cfg, b, |b.states|);
    var w := MoveWeight(cfg, |fleet.Keys|, |hallReqs|);
    BudgetIsNonNegative(cfg, moved, w);
    Budget(cfg, w)(moved)
  }

  lemma StartHasBudget(cfg: Config, hallReqs: seq<HallCalls>, fleet: Fleet, c: Sim, id: string)
    requires ValidInput(hallReqs, fleet) && IsStart(cfg, hallReqs, fleet, c) && id in fleet && id != ""
    ensures Budget(cfg, MoveWeight(cfg, |fleet.Keys|, |hallReqs|))(c) == StartBudget(cfg, hallReqs, fleet)
  {
    var w := MoveWeight(cfg, |fleet.Keys|, |hallReqs|);
    var b := Begin(hallReqs, fleet);
    BeginMovable(hallReqs, fleet);
    var moved := InitialMoves(cfg, b, |b.states|);
    StartInv(cfg, hallReqs, fleet, c);
    FleetHasNamed(hallReqs, fleet, c, id);
    assert c == Sim(c.states, moved.reqs);
    SameLatest(c.states, moved.states);
    SortKeepsBudget(cfg, moved, c.states, w);
  }

  lemma PacedRunIsShort(cfg: Config, hallReqs: seq<HallCalls>, fleet: Fleet, run: seq<Sim>, id: string)
    requires IsRun(cfg, hallReqs, fleet, run) && Paced(cfg, fleet, id)
    ensures |run| <= StartBudget(cfg, hallReqs, fleet) + 1
  {
    var budget := Budget(cfg, MoveWeight(cfg, |fleet.Keys|, |hallReqs|));
    forall k | 0 <= k < |run| - 1
      ensures Falls(budget, run, k)
    {
      StepUsesBudget(cfg, hallReqs, fleet, run, k, id);
    }
    BudgetIsNonNegative(cfg, run[|run| - 1], MoveWeight(cfg, |fleet.Keys|, |hallReqs|));
    StartHasBudget(cfg, hallReqs, fleet, run[0], id);
    DescentIsShort(budget, run);
  }

  // One elevator with a non-empty id is enough, as long as doors take time; travelling may take any time, even none.
  lemma OneNamedElevatorSuffices(cfg: Config, hallReqs: seq<HallCalls>, fleet: Fleet, id: string)
    requires ValidInput(hallReqs, fleet) && Paced(cfg, fleet, id)
    ensures Terminates(cfg, hallReqs, fleet)
  {
    var bound := StartBudget(cfg, hallReqs, fleet) + 1;
    forall run | IsRun(cfg, hallReqs, fleet, run)
      ensures |run| <= bound
    {
      PacedRunIsShort(cfg, hallReqs, fleet, run, id);
    }
    assert BoundedBy(cfg, hallReqs, fleet, bound);
  }

  // ------------------------------------------------------------------ nobody else ever moves

  // The elevator called "" is alone, or stands at the bottom floor with its door free of charge and is earlier than
  // all others. At floor `g` nobody has taken either hall call.
  ghost predicate Spinning(cfg: Config, c: Sim, g: nat) {
    && c.states != [] && c.states[0].id == "" && Placed(c.states[0], |c.reqs|) && SortedByTime(c.states)
    && g < |c.reqs| && c.reqs[g].up.IsUnassigned() && c.reqs[g].down.IsUnassigned()
    && (|c.states| == 1 || (g == 0 && cfg.doorOpenDuration <= 0 && StaysFirst(c.states)))
  }

  ghost predicate StaysFirst(states: seq<State>)
    requires states != []
  {
    && states[0].state.floor == 0 && states[0].state.direction == Stop
    && forall i :: 0 < i < |states| ==> states[0].time <= states[i].time
  }

  lemma SpinningGoesOn(cfg: Config, c: Sim, g: nat) returns (c': Sim)
    requires Spinning(cfg, c, g)
    ensures Next(cfg, c, c') && Spinning(cfg, c', g)
  {
    var m := c.states[0];
    var (s, reqs) := SingleMove(cfg, m, c.reqs);
    NamelessMoveChangesNothing(cfg, c);
    MoveIsLocal(cfg, m, c.reqs);
    if |c.states| > 1 { FreeDoor(cfg, m, c.reqs); }
    c' := Sim(c.states[0 := s], reqs);
  }

  lemma FreeDoor(cfg: Config, s: State, reqs: Reqs)
    requires InBounds(s, |reqs|) && s.state.floor == 0 && s.state.direction == Stop
    requires reqs[0].up.IsUnassigned()
    ensures var s' := SingleMove(cfg, s, reqs).0;
            CostsDoor(cfg, s, s') && s'.state.floor == 0 && s'.state.direction == Stop
  {
    ViewPending(s, reqs);
    assert View(s, reqs).requests[0].Any();
  }

  ghost predicate IsSpin(cfg: Config, hallReqs: seq<HallCalls>, fleet: Fleet, run: seq<Sim>, g: nat) {
    IsRun(cfg, hallReqs, fleet, run) && Spinning(cfg, run[|run| - 1], g)
  }

  lemma SpinGoesOn(cfg: Config, hallReqs: seq<HallCalls>, fleet: Fleet, run: seq<Sim>, g: nat)
    returns (longer: seq<Sim>)
    requires IsSpin(cfg, hallReqs, fleet, run, g)
    ensures IsSpin(cfg, hallReqs, fleet, longer, g) && |longer| == |run| + 1
  {
    var next := SpinningGoesOn(cfg, run[|run| - 1], g);
    ExtendRun(cfg, hallReqs, fleet, run, next);
    longer := run + [next];
    assert longer[|longer| - 1] == next;
  }

  lemma {:induction false} SpinsOn(
    cfg: Config, hallReqs: seq<HallCalls>, fleet: Fleet, start: seq<Sim>, g: nat, k: nat)
    returns (run: seq<Sim>)
    requires IsSpin(cfg, hallReqs, fleet, start, g)
    ensures IsSpin(cfg, hallReqs, fleet, run, g) && |run| == |start| + k
  {
    run := start;
    if k > 0 {
      var shorter := SpinsOn(cfg, hallReqs, fleet, start, g, k - 1);
      run := SpinGoesOn(cfg, hallReqs, fleet, shorter, g);
    }
  }

  lemma SpinningNeverEnds(cfg: Config, hallReqs: seq<HallCalls>, fleet: Fleet, c: Sim, g: nat)
    requires ValidInput(hallReqs, fleet) && IsStart(cfg, hallReqs, fleet, c) && Spinning(cfg, c, g)
    ensures !Terminates(cfg, hallReqs, fleet)
  {
    forall bound: nat
      ensures !BoundedBy(cfg, hallReqs, fleet, bound)
    {
      var run := SpinsOn(cfg, hallReqs, fleet, [c], g, bound);
    }
  }

  // A fleet that consists of the elevator "" alone runs for ever on any input that has both hall calls active
  // at some floor, whatever doors and travel take.
  lemma EmptyIdAloneNeverEnds(cfg: Config, hallReqs: seq<HallCalls>, fleet: Fleet, g: nat)
    requires ValidInput(hallReqs, fleet) && fleet.Keys == {""}
    requires g < |hallReqs| && hallReqs[g].up && hallReqs[g].down
    ensures !Terminates(cfg, hallReqs, fleet)
  {
    BeginMovable(hallReqs, fleet);
    var b := Begin(hallReqs, fleet);
    var c := InitialMoves(cfg, b, |b.states|);
    assert |fleet.Keys| == 1;
    StartInv(cfg, hallReqs, fleet, c);
    assert c.states[0] in c.states && StateOk(fleet, |hallReqs|, c.states[0]);
    assert c.reqs[g].At(Upward).active && c.reqs[g].At(Downward).active;
    assert c.reqs[g].At(Upward).assignedTo == "" && c.reqs[g].At(Downward).assignedTo == "" by {
      assert forall call :: c.reqs[g].At(call).assignedTo in fleet.Keys || c.reqs[g].At(call).assignedTo == "";
    }
    SpinningNeverEnds(cfg, hallReqs, fleet, c, g);
  }

  // ------------------------------------------------------------------ doors that take no time

  // Both calls are active at the bottom floor, and nowhere else.
  function BottomCalls(floors: nat): seq<HallCalls> {
    seq(floors, f => HallCalls(f == 0, f == 0))
  }

  // The elevator "" stands idle at the bottom floor, the others one floor up. In a building of one floor they all
  // are just arriving.
  function Waiting(floors: nat, id: string): LocalElevatorState {
    LocalElevatorState(if floors == 1 then Moving else Behaviour.Idle, if floors == 1 || id == "" then 0 else 1,
                       Dirn.Stop, seq(floors, f => false))
  }

  function WaitingFleet(ids: set<string>, floors: nat): Fleet {
    map id | id in ids :: Waiting(floors, id)
  }

  // The time the initial move takes.
  function Delay(cfg: Config, floors: nat, id: string): int {
    if floors == 1 then 500 * cfg.travelDuration else if id == "" then 2000 * cfg.doorOpenDuration else 0
  }

  lemma WaitingMove(cfg: Config, floors: nat, s: State)
    requires floors != 0 && s.state == Waiting(floors, s.id)
    ensures var reqs := ToReq(BottomCalls(floors));
            InitialMove(cfg, s, reqs) == (s.(time := s.time + Delay(cfg, floors, s.id)), reqs)
  {
    var reqs := ToReq(BottomCalls(floors));
    var (s', reqs') := InitialMove(cfg, s, reqs);
    assert reqs' == reqs;
  }

  // The first `k` elevators of `b` have made their initial move.
  ghost predicate Delayed(cfg: Config, floors: nat, b: Sim, c: Sim, k: nat) {
    && c.reqs == b.reqs && |c.states| == |b.states|
    && forall i :: 0 <= i < k && i < |b.states| ==>
         c.states[i] == b.states[i].(time := b.states[i].time + Delay(cfg, floors, b.states[i].id))
  }

  lemma {:induction false} WaitingMoves(cfg: Config, floors: nat, b: Sim, k: nat)
    requires floors != 0 && b.reqs == ToReq(BottomCalls(floors)) && Movable(b) && k <= |b.states|
    requires forall i :: 0 <= i < |b.states| ==> b.states[i].state == Waiting(floors, b.states[i].id)
    ensures Delayed(cfg, floors, b, InitialMoves(cfg, b, k), k)
  {
    if k > 0 {
      WaitingMoves(cfg, floors, b, k - 1);
      assert b.states[k - 1] in b.states;
      WaitingMove(cfg, floors, b.states[k - 1]);
    }
  }

  lemma WaitingBegin(ids: set<string>, floors: nat)
    requires floors != 0 && ids != {}
    ensures var fleet := WaitingFleet(ids, floors);
            var b := Begin(BottomCalls(floors), fleet);
            && ValidInput(BottomCalls(floors), fleet) && fleet.Keys == ids && Movable(b) && |b.states| == |ids|
            && forall i :: 0 <= i < |ids| ==>
                 b.states[i] == State(SortedIds(ids)[i], Waiting(floors, SortedIds(ids)[i]), i)
  {
    WaitingIsValid(ids, floors);
    var fleet := WaitingFleet(ids, floors);
    BeginMovable(BottomCalls(floors), fleet);
    forall i: nat | i < |ids|
      ensures Begin(BottomCalls(floors), fleet).states[i] ==
              State(SortedIds(ids)[i], Waiting(floors, SortedIds(ids)[i]), i)
    {
      BeginAt(BottomCalls(floors), fleet, i);
    }
  }

  lemma WaitingIsValid(ids: set<string>, floors: nat)
    requires floors != 0 && ids != {}
    ensures ValidInput(BottomCalls(floors), WaitingFleet(ids, floors)) && WaitingFleet(ids, floors).Keys == ids
  {
    assert WaitingFleet(ids, floors).Keys == ids;
  }

  lemma BeginAt(hallReqs: seq<HallCalls>, fleet: Fleet, i: nat)
    requires i < |fleet.Keys|
    ensures var id := SortedIds(fleet.Keys)[i];
            id in fleet && Begin(hallReqs, fleet).states[i] == State(id, fleet[id], i)
  {
    assert SortedIds(fleet.Keys)[i] in multiset(SortedIds(fleet.Keys));
  }

  lemma EmptyIdIsFirst(ids: set<string>)
    requires "" in ids
    ensures SortedIds(ids)[0] == ""
  {
    SortedIdsAscend(ids);
    var sorted := SortedIds(ids);
    assert "" in multiset(sorted);
    var i :| 0 <= i < |sorted| && sorted[i] == "";
    assert LexLeq(sorted[0], sorted[i]);
  }

  lemma OnlyFirstIsEmpty(ids: set<string>, i: nat)
    requires "" in ids && 0 < i < |ids|
    ensures SortedIds(ids)[i] != ""
  {
    EmptyIdIsFirst(ids);
    var sorted := SortedIds(ids);
    assert multiset(sorted)[""] <= 1;
    OnceIsDistinct(sorted, 0, i);
  }

  lemma OnceIsDistinct<T>(xs: seq<T>, i: nat, j: nat)
    requires i < j < |xs| && multiset(xs)[xs[i]] <= 1
    ensures xs[i] != xs[j]
  {
    assert xs == xs[..i] + [xs[i]] + xs[i + 1..j] + [xs[j]] + xs[j + 1..];
  }

  // The elevator called "" starts before all others, and stays there.
  lemma WaitingStart(cfg: Config, ids: set<string>, floors: nat, c: Sim)
    requires "" in ids && cfg.doorOpenDuration <= 0 && floors != 0
    requires Delayed(cfg, floors, Begin(BottomCalls(floors), WaitingFleet(ids, floors)), c, |ids|)
    ensures Spinning(cfg, c, 0)
  {
    WaitingBegin(ids, floors);
    EmptyIdIsFirst(ids);
    var door := if floors == 1 then 0 else 2000 * cfg.doorOpenDuration;
    var shift := if floors == 1 then 500 * cfg.travelDuration else 0;
    assert c.states[0].time == door + shift;
    forall i | 0 < i < |ids|
      ensures c.states[i].time == i + shift
    {
      OnlyFirstIsEmpty(ids, i);
    }
  }

  // Beside any other elevators, the elevator called "" runs for ever on some input if doors take no time.
  lemma FreeDoorsNeverEnd(cfg: Config, ids: set<string>, floors: nat)
    requires "" in ids && cfg.doorOpenDuration <= 0 && floors != 0
    ensures var fleet := WaitingFleet(ids, floors);
            && fleet.Keys == ids && ValidInput(BottomCalls(floors), fleet)
            && !Terminates(cfg, BottomCalls(floors), fleet)
  {
    WaitingBegin(ids, floors);
    var fleet := WaitingFleet(ids, floors);
    var b := Begin(BottomCalls(floors), fleet);
    WaitingMoves(cfg, floors, b, |ids|);
    var c := InitialMoves(cfg, b, |ids|);
    WaitingStart(cfg, ids, floors, c);
    SpinningNeverEnds(cfg, BottomCalls(floors), fleet, c, 0);
  }

  // ------------------------------------------------------------------ exactly when the loop ends

  // What can be checked of an input beforehand.
  predicate Ends(cfg: Config, ids: set<string>) {
    "" !in ids || (ids != {""} && 1 <= cfg.doorOpenDuration)
  }

  lemma EndsSuffices(cfg: Config, hallReqs: seq<HallCalls>, fleet: Fleet)
    requires ValidInput(hallReqs, fleet) && Ends(cfg, fleet.Keys)
    ensures Terminates(cfg, hallReqs, fleet)
  {
    if "" in fleet {
      var id :| id in fleet && id != "";
      OneNamedElevatorSuffices(cfg, hallReqs, fleet, id);
    } else {
      var bound := (TotalCalls(hallReqs, fleet) + 1) * Weight(|fleet.Keys|, |hallReqs|);
      forall run | IsRun(cfg, hallReqs, fleet, run)
        ensures |run| <= Abs(bound)
      {
        LoopIsBounded(cfg, hallReqs, fleet, run);
      }
      assert BoundedBy(cfg, hallReqs, fleet, Abs(bound));
    }
  }

  // The exact condition, for any configuration: the loop ends on every input with these ids if and only if none of
  // them is the empty string, or one of them is not and doors take time.
  lemma LoopEndsExactly(cfg: Config, ids: set<string>, floors: nat)
    requires ids != {} && floors != 0
    ensures Ends(cfg, ids) <==>
            forall hallReqs, fleet :: ValidInput(hallReqs, fleet) && |hallReqs| == floors && fleet.Keys == ids ==>
              Terminates(cfg, hallReqs, fleet)
  {
    if Ends(cfg, ids) {
      forall hallReqs, fleet: Fleet | ValidInput(hallReqs, fleet) && |hallReqs| == floors && fleet.Keys == ids
        ensures Terminates(cfg, hallReqs, fleet)
      {
        EndsSuffices(cfg, hallReqs, fleet);
      }
    } else {
      var hallReqs, fleet := BottomCalls(floors), WaitingFleet(ids, floors);
      WaitingBegin(ids, floors);
      if ids == {""} {
        EmptyIdAloneNeverEnds(cfg, hallReqs, fleet, 0);
      } else {
        FreeDoorsNeverEnd(cfg, ids, floors);
      }
    }
  }
}
