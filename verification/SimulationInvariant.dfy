// What every state of every simulation run satisfies.
module SimulationInvariant {
  import opened Totals
  import opened ElevatorAlgorithm
  import opened HallRequests
  import opened Simulation

  ghost function HasId(id: string): State -> int {
    (s: State) => if s.id == id then 1 else 0
  }

  // Each elevator of the input is simulated exactly once.
  ghost predicate OneStateEach(fleet: Fleet, states: seq<State>) {
    forall id :: Sum(HasId(id), states) == if id in fleet then 1 else 0
  }

  ghost predicate StateOk(fleet: Fleet, floors: nat, s: State) {
    && s.id in fleet
    && Placed(s, floors)
    && |fleet[s.id].cabRequests| == floors
    && (forall f :: 0 <= f < floors && s.state.cabRequests[f] ==> fleet[s.id].cabRequests[f])
  }

  ghost predicate ReqsOk(hallReqs: seq<HallCalls>, fleet: Fleet, reqs: Reqs) {
    && |reqs| == |hallReqs|
    && forall f, c :: 0 <= f < |reqs| ==>
         && reqs[f].At(c).active == hallReqs[f].At(c)
         && (reqs[f].At(c).assignedTo == "" || (reqs[f].At(c).active && reqs[f].At(c).assignedTo in fleet))
  }

  ghost predicate Inv(hallReqs: seq<HallCalls>, fleet: Fleet, c: Sim) {
    && ReqsOk(hallReqs, fleet, c.reqs)
    && OneStateEach(fleet, c.states)
    && |c.states| == |fleet.Keys| > 0
    && forall s :: s in c.states ==> StateOk(fleet, |hallReqs|, s)
  }

  // -------------------------------------------------------------------------------- it holds at the start

  lemma {:induction false} SumHasId(id: string, states: seq<State>, ids: seq<string>)
    requires |states| == |ids| && forall i :: 0 <= i < |ids| ==> states[i].id == ids[i]
    ensures Sum(HasId(id), states) == multiset(ids)[id]
  {
    if ids != [] {
      SumHasId(id, states[1..], ids[1..]);
      assert ids == [ids[0]] + ids[1..];
    }
  }

  // Before its initial move, an elevator is where the input says.
  ghost predicate Untouched(fleet: Fleet, s: State) {
    s.id in fleet && s.state == fleet[s.id]
  }

  lemma BeginFacts(hallReqs: seq<HallCalls>, fleet: Fleet)
    requires ValidInput(hallReqs, fleet)
    ensures var b := Begin(hallReqs, fleet);
            && Movable(b)
            && ReqsOk(hallReqs, fleet, b.reqs)
            && OneStateEach(fleet, b.states)
            && |b.states| == |fleet.Keys|
            && forall s :: s in b.states ==> Untouched(fleet, s)
  {
    BeginMovable(hallReqs, fleet);
    var ids := SortedIds(fleet.Keys);
    var states := InitialStates(fleet);
    forall id
      ensures Sum(HasId(id), states) == if id in fleet then 1 else 0
    {
      SumHasId(id, states, ids);
      assert multiset(ids) == multiset(fleet.Keys);
    }
    forall i | 0 <= i < |states|
      ensures Untouched(fleet, states[i])
    {
      assert states[i] in states;
    }
  }

  lemma InitialMoveKeeps(cfg: Config, hallReqs: seq<HallCalls>, fleet: Fleet, s: State, reqs: Reqs)
    requires ValidInput(hallReqs, fleet) && ReqsOk(hallReqs, fleet, reqs) && Untouched(fleet, s)
    ensures var (s', reqs') := InitialMove(cfg, s, reqs);
            s'.id == s.id && StateOk(fleet, |hallReqs|, s') && ReqsOk(hallReqs, fleet, reqs')
  {
    var (s', reqs') := InitialMove(cfg, s, reqs);
    forall f, c | 0 <= f < |reqs'|
      ensures && reqs'[f].At(c).active == hallReqs[f].At(c)
              && (reqs'[f].At(c).assignedTo == "" || (reqs'[f].At(c).active && reqs'[f].At(c).assignedTo in fleet))
    {
      assert reqs[f].At(c).active == hallReqs[f].At(c);
    }
  }

  // The first `k` elevators have made their initial move, the others have not.
  ghost predicate MovedFirst(hallReqs: seq<HallCalls>, fleet: Fleet, c: Sim, k: nat) {
    && ReqsOk(hallReqs, fleet, c.reqs) && OneStateEach(fleet, c.states)
    && (forall i :: 0 <= i < k && i < |c.states| ==> StateOk(fleet, |hallReqs|, c.states[i]))
    && (forall i :: k <= i < |c.states| ==> Untouched(fleet, c.states[i]))
  }

  lemma NextInitialMoveKeeps(cfg: Config, hallReqs: seq<HallCalls>, fleet: Fleet, c: Sim, k: nat)
    requires ValidInput(hallReqs, fleet) && k < |c.states| && MovedFirst(hallReqs, fleet, c, k)
    ensures var (s, reqs) := InitialMove(cfg, c.states[k], c.reqs);
            MovedFirst(hallReqs, fleet, Sim(c.states[k := s], reqs), k + 1)
  {
    InitialMoveKeeps(cfg, hallReqs, fleet, c.states[k], c.reqs);
    SameIdKeepsOneEach(fleet, c.states, k, InitialMove(cfg, c.states[k], c.reqs).0);
  }

  lemma {:induction false} InitialMovesKeep(cfg: Config, hallReqs: seq<HallCalls>, fleet: Fleet, b: Sim, k: nat)
    requires ValidInput(hallReqs, fleet) && Movable(b) && MovedFirst(hallReqs, fleet, b, 0) && k <= |b.states|
    ensures MovedFirst(hallReqs, fleet, InitialMoves(cfg, b, k), k)
  {
    if k > 0 {
      InitialMovesKeep(cfg, hallReqs, fleet, b, k - 1);
      NextInitialMoveKeeps(cfg, hallReqs, fleet, InitialMoves(cfg, b, k - 1), k - 1);
    }
  }

  lemma SameIdKeepsOneEach(fleet: Fleet, states: seq<State>, i: nat, s: State)
    requires OneStateEach(fleet, states) && i < |states| && s.id == states[i].id
    ensures OneStateEach(fleet, states[i := s])
  {
    forall id
      ensures Sum(HasId(id), states[i := s]) == if id in fleet then 1 else 0
    {
      SumUpdate(HasId(id), states, i, s);
    }
  }

  lemma SortKeeps(hallReqs: seq<HallCalls>, fleet: Fleet, c: Sim, sorted: seq<State>)
    requires Inv(hallReqs, fleet, c) && multiset(sorted) == multiset(c.states)
    ensures Inv(hallReqs, fleet, Sim(sorted, c.reqs))
  {
    forall id
      ensures Sum(HasId(id), sorted) == if id in fleet then 1 else 0
    {
      SumPermutation(HasId(id), c.states, sorted);
    }
    assert |sorted| == |multiset(sorted)| == |c.states|;
    forall s | s in sorted
      ensures StateOk(fleet, |hallReqs|, s)
    {
      assert s in multiset(c.states);
    }
  }

  lemma StartInv(cfg: Config, hallReqs: seq<HallCalls>, fleet: Fleet, c: Sim)
    requires ValidInput(hallReqs, fleet) && IsStart(cfg, hallReqs, fleet, c)
    ensures Inv(hallReqs, fleet, c)
  {
    BeginFacts(hallReqs, fleet);
    InitialMovesKeep(cfg, hallReqs, fleet, Begin(hallReqs, fleet), |fleet.Keys|);
    var moved := InitialMoves(cfg, Begin(hallReqs, fleet), |fleet.Keys|);
    SortKeeps(hallReqs, fleet, moved, c.states);
  }

  // -------------------------------------------------------------------------------- every move keeps it

  lemma MoveKeeps(cfg: Config, hallReqs: seq<HallCalls>, fleet: Fleet, c: Sim, f: int)
    requires Inv(hallReqs, fleet, c) && InBounds(c.states[0], |c.reqs|) && Pending(c.states[0], c.reqs, f)
    ensures var (s, reqs) := SingleMove(cfg, c.states[0], c.reqs);
            Inv(hallReqs, fleet, Sim(c.states[0 := s], reqs))
  {
    var m := c.states[0];
    assert m in c.states && StateOk(fleet, |hallReqs|, m);
    var (s, reqs) := SingleMove(cfg, m, c.reqs);
    MoveIsLocal(cfg, m, c.reqs);
    MoveIsNeverIdle(cfg, m, c.reqs, f);
    SameIdKeepsOneEach(fleet, c.states, 0, s);
    assert StateOk(fleet, |hallReqs|, s);
    forall x | x in c.states[0 := s]
      ensures StateOk(fleet, |hallReqs|, x)
    {
      assert x == s || x in c.states;
    }
  }

  // Something unassigned is something the elevator to be moved can serve.
  lemma UnassignedIsPending(c: Sim, s: State) returns (f: int)
    requires AnyUnassigned(c.reqs) && InBounds(s, |c.reqs|)
    ensures Pending(s, c.reqs, f)
  {
    f :| 0 <= f < |c.reqs| && (c.reqs[f].up.IsUnassigned() || c.reqs[f].down.IsUnassigned());
  }

  lemma NextKeeps(cfg: Config, hallReqs: seq<HallCalls>, fleet: Fleet, c: Sim, c': Sim)
    requires Inv(hallReqs, fleet, c) && Next(cfg, c, c')
    ensures Inv(hallReqs, fleet, c')
  {
    var f := UnassignedIsPending(c, c.states[0]);
    MoveKeeps(cfg, hallReqs, fleet, c, f);
    var (s, reqs) := SingleMove(cfg, c.states[0], c.reqs);
    SortKeeps(hallReqs, fleet, Sim(c.states[0 := s], reqs), c'.states);
  }

  lemma {:induction false} RunInv(cfg: Config, hallReqs: seq<HallCalls>, fleet: Fleet, run: seq<Sim>, k: nat)
    requires IsRun(cfg, hallReqs, fleet, run) && k < |run|
    ensures Inv(hallReqs, fleet, run[k])
  {
    if k == 0 {
      StartInv(cfg, hallReqs, fleet, run[0]);
    } else {
      RunInv(cfg, hallReqs, fleet, run, k - 1);
      assert NextAt(cfg, run, k - 1);
      NextKeeps(cfg, hallReqs, fleet, run[k - 1], run[k]);
    }
  }

  // ------------------------------------------------------------------ floors, assignments and cab calls

  // In every state of a run the elevators are on floors that exist, and those travelling in the loop have
  // room ahead of them or have just arrived at an end floor, where they will stop.
  lemma ElevatorsStayInTheShaft(cfg: Config, hallReqs: seq<HallCalls>, fleet: Fleet, run: seq<Sim>, k: nat, s: State)
    requires IsRun(cfg, hallReqs, fleet, run) && k < |run| && s in run[k].states
    ensures Placed(s, |hallReqs|)
  {
    RunInv(cfg, hallReqs, fleet, run, k);
  }

  // One iteration: only the earliest elevator moves; the hall requests it takes are unassigned ones at the floor
  // where it stands; its cab calls shrink at that floor only; it is not idle afterwards, and its clock advances
  // by one door time or one travel time.
  // In every state of every run, an elevator that has to stop serves somebody exactly if somebody is there.
  lemma EveryStopServesWhoIsThere(
    cfg: Config, hallReqs: seq<HallCalls>, fleet: Fleet, run: seq<Sim>, k: nat, s: State)
    requires IsRun(cfg, hallReqs, fleet, run) && k < |run| && s in run[k].states
    ensures InBounds(s, |run[k].reqs|)
    ensures var e := View(s, run[k].reqs);
            s.state.behaviour == Moving && ShouldStop(e) ==>
              ((exists c :: Clears(cfg.clearRequestType, e, c)) <==> AnyRequestsAtFloor(e))
  {
    RunInv(cfg, hallReqs, fleet, run, k);
    assert StateOk(fleet, |hallReqs|, s);
    if s.state.behaviour == Moving && ShouldStop(View(s, run[k].reqs)) {
      StopsServeWhoIsThere(cfg, s, run[k].reqs);
    }
  }

  lemma IterationIsLocal(cfg: Config, hallReqs: seq<HallCalls>, fleet: Fleet, c: Sim, c': Sim)
    requires Inv(hallReqs, fleet, c) && Next(cfg, c, c')
    ensures var s := c.states[0];
            var (s', _) := SingleMove(cfg, s, c.reqs);
            && multiset(c'.states) == multiset(c.states) - multiset{s} + multiset{s'}
            && s'.id == s.id && s'.state.behaviour != Idle
            && TakesOnlyHere(s, c.reqs, c'.reqs)
            && (c'.reqs != c.reqs ==> s'.state.floor == s.state.floor)
            && CabsShrinkHere(s, s')
            && (s'.time == s.time + 1000 * cfg.doorOpenDuration || s'.time == s.time + 1000 * cfg.travelDuration)
  {
    var s := c.states[0];
    assert s in c.states && StateOk(fleet, |hallReqs|, s);
    var f := UnassignedIsPending(c, s);
    MoveIsLocal(cfg, s, c.reqs);
    MoveIsNeverIdle(cfg, s, c.reqs, f);
    ReplaceFirst(c.states, SingleMove(cfg, s, c.reqs).0);
  }

  lemma ReplaceFirst<T>(xs: seq<T>, x: T)
    requires xs != []
    ensures multiset(xs[0 := x]) == multiset(xs) - multiset{xs[0]} + multiset{x}
  {
    assert xs == [xs[0]] + xs[1..] && xs[0 := x] == [x] + xs[1..];
  }

  lemma AssignmentKept(cfg: Config, hallReqs: seq<HallCalls>, fleet: Fleet, c: Sim, c': Sim, f: nat, call: HallCall)
    requires Inv(hallReqs, fleet, c) && Next(cfg, c, c') && f < |hallReqs|
    ensures |c'.reqs| == |c.reqs| == |hallReqs|
    ensures c.reqs[f].At(call).assignedTo != "" ==> c'.reqs[f].At(call) == c.reqs[f].At(call)
  {
    IterationIsLocal(cfg, hallReqs, fleet, c, c');
  }

  ghost predicate Keeps(c: Sim, c': Sim, f: nat, call: HallCall) {
    && f < |c.reqs| == |c'.reqs|
    && (c.reqs[f].At(call).assignedTo != "" ==> c'.reqs[f].At(call) == c.reqs[f].At(call))
  }

  lemma RunKeepsAssignment(
    cfg: Config, hallReqs: seq<HallCalls>, fleet: Fleet, run: seq<Sim>, k: nat, f: nat, call: HallCall)
    requires IsRun(cfg, hallReqs, fleet, run) && k < |run| - 1 && f < |hallReqs|
    ensures |run[k].reqs| == |hallReqs| && Keeps(run[k], run[k + 1], f, call)
  {
    RunInv(cfg, hallReqs, fleet, run, k);
    assert NextAt(cfg, run, k);
    AssignmentKept(cfg, hallReqs, fleet, run[k], run[k + 1], f, call);
  }

  // Once a hall request has an elevator, no later iteration of the run takes it away or changes it.
  lemma {:induction false} AssignmentsAreFinal(
    cfg: Config, hallReqs: seq<HallCalls>, fleet: Fleet, run: seq<Sim>, i: nat, j: nat, f: nat, call: HallCall)
    requires IsRun(cfg, hallReqs, fleet, run) && i <= j < |run| && f < |hallReqs|
    ensures |run[i].reqs| == |run[j].reqs| == |hallReqs|
    ensures run[i].reqs[f].At(call).assignedTo != "" ==> run[j].reqs[f].At(call) == run[i].reqs[f].At(call)
    decreases j - i
  {
    if i == j {
      RunInv(cfg, hallReqs, fleet, run, i);
    } else {
      AssignmentsAreFinal(cfg, hallReqs, fleet, run, i, j - 1, f, call);
      RunKeepsAssignment(cfg, hallReqs, fleet, run, j - 1, f, call);
    }
  }
}
