// What the simulation starts from: who has taken which request in the initial moves, and what the clocks say.
module SimulationStart {
  import opened ElevatorAlgorithm
  import opened HallRequests
  import opened Simulation
  import opened SimulationTermination

  // An elevator that is not between floors stands at the floor it reports.
  ghost predicate StandsAt(fleet: Fleet, id: string, f: int) {
    id in fleet && fleet[id].behaviour != Moving && fleet[id].floor == f
  }

  // The last of the standing elevators, in the order of their ids.
  ghost predicate IsLastAt(fleet: Fleet, id: string, f: int) {
    StandsAt(fleet, id, f) && forall other :: StandsAt(fleet, other, f) ==> LexLeq(other, id)
  }

  ghost predicate NobodyAt(fleet: Fleet, f: int) {
    forall id :: !StandsAt(fleet, id, f)
  }

  // The time of the initial move: half a trip, or what is left of an open door and one door for each call served.
  function InitialDelay(cfg: Config, l: LocalElevatorState, here: HallCalls): int {
    if l.behaviour == Moving then 500 * cfg.travelDuration
    else (if l.behaviour == DoorOpen then 500 * cfg.doorOpenDuration else 0) +
         1000 * cfg.doorOpenDuration * (Truth(here.up) + Truth(here.down))
  }

  function AfterInitialMove(cfg: Config, hallReqs: seq<HallCalls>, s: State): State {
    var l := s.state;
    var here := if 0 <= l.floor < |hallReqs| then hallReqs[l.floor] else HallCalls(false, false);
    State(s.id, if l.behaviour == Moving then l.(floor := l.floor + Delta(l.direction)) else l,
          s.time + InitialDelay(cfg, l, here))
  }

  // The last of the first `k` elevators that stands at the floor, if there is one.
  function LastTaker(states: seq<State>, k: nat, f: int): string
    requires k <= |states|
  {
    if k == 0 then ""
    else if states[k - 1].state.behaviour != Moving && states[k - 1].state.floor == f then states[k - 1].id
    else LastTaker(states, k - 1, f)
  }

  ghost predicate HasMoved(cfg: Config, hallReqs: seq<HallCalls>, b: Sim, c: Sim, k: nat)
    requires k <= |b.states|
  {
    && |c.states| == |b.states| && |c.reqs| == |hallReqs|
    && (forall i :: 0 <= i < k ==> c.states[i] == AfterInitialMove(cfg, hallReqs, b.states[i]))
    && (forall i :: k <= i < |b.states| ==> c.states[i] == b.states[i])
    && forall f, call :: 0 <= f < |hallReqs| ==>
         c.reqs[f].At(call) ==
           Req(hallReqs[f].At(call), if hallReqs[f].At(call) then LastTaker(b.states, k, f) else "")
  }

  lemma OneMoreHasMoved(cfg: Config, hallReqs: seq<HallCalls>, b: Sim, c: Sim, k: nat)
    requires k < |b.states| && HasMoved(cfg, hallReqs, b, c, k)
    requires b.states[k].state.behaviour != Moving ==> 0 <= b.states[k].state.floor < |hallReqs|
    ensures var (s, reqs) := InitialMove(cfg, c.states[k], c.reqs);
            HasMoved(cfg, hallReqs, b, Sim(c.states[k := s], reqs), k + 1)
  {
    var l := b.states[k].state;
    var (s, reqs) := InitialMove(cfg, c.states[k], c.reqs);
    if l.behaviour != Moving {
      var here := c.reqs[l.floor];
      assert here.up == here.At(Upward) && here.down == here.At(Downward);
      assert here.up.active == hallReqs[l.floor].At(Upward) && here.down.active == hallReqs[l.floor].At(Downward);
      assert 1000 * cfg.doorOpenDuration * (Truth(here.up.active) + Truth(here.down.active)) ==
             (if here.up.active then 1000 * cfg.doorOpenDuration else 0) +
             (if here.down.active then 1000 * cfg.doorOpenDuration else 0);
    }
    assert s == AfterInitialMove(cfg, hallReqs, b.states[k]);
  }

  lemma NothingHasMoved(cfg: Config, hallReqs: seq<HallCalls>, b: Sim)
    requires b.reqs == ToReq(hallReqs)
    ensures HasMoved(cfg, hallReqs, b, b, 0)
  {
  }

  lemma {:induction false} InitialMovesHaveMoved(cfg: Config, hallReqs: seq<HallCalls>, b: Sim, k: nat)
    requires b.reqs == ToReq(hallReqs) && Movable(b) && k <= |b.states|
    ensures HasMoved(cfg, hallReqs, b, InitialMoves(cfg, b, k), k)
  {
    if k == 0 {
      NothingHasMoved(cfg, hallReqs, b);
    } else {
      InitialMovesHaveMoved(cfg, hallReqs, b, k - 1);
      assert b.states[k - 1] in b.states;
      OneMoreHasMoved(cfg, hallReqs, b, InitialMoves(cfg, b, k - 1), k - 1);
    }
  }

  lemma {:induction false} LastTakerIsLast(states: seq<State>, k: nat, f: int) returns (j: int)
    requires k <= |states|
    ensures j == -1 || (IsTaker(states, k, f, j) && LastTaker(states, k, f) == states[j].id)
    ensures j == -1 ==> LastTaker(states, k, f) == ""
    ensures forall i :: IsTaker(states, k, f, i) ==> i <= j
  {
    if k == 0 {
      j := -1;
    } else if IsTaker(states, k, f, k - 1) {
      j := k - 1;
    } else {
      j := LastTakerIsLast(states, k - 1, f);
      forall i | IsTaker(states, k, f, i)
        ensures i <= j
      {
        assert IsTaker(states, k - 1, f, i);
      }
    }
  }

  ghost predicate IsTaker(states: seq<State>, k: nat, f: int, i: int) {
    0 <= i < k <= |states| && states[i].state.behaviour != Moving && states[i].state.floor == f
  }

  // What the loop starts from. Every elevator has made its initial move; and every active hall request at a floor
  // where elevators stand belongs to the last of them in the order of their ids, every other one to nobody.
  lemma StartExactly(cfg: Config, hallReqs: seq<HallCalls>, fleet: Fleet, c: Sim)
    requires ValidInput(hallReqs, fleet) && IsStart(cfg, hallReqs, fleet, c)
    ensures multiset(c.states) == multiset(seq(|fleet.Keys|, i requires 0 <= i < |fleet.Keys| =>
              AfterInitialMove(cfg, hallReqs, InitialStates(fleet)[i])))
    ensures |c.reqs| == |hallReqs|
    ensures forall f, call :: 0 <= f < |hallReqs| ==>
              StartsOwnedByLast(fleet, hallReqs[f].At(call), f, c.reqs[f].At(call))
  {
    BeginMovable(hallReqs, fleet);
    var b := Begin(hallReqs, fleet);
    InitialMovesHaveMoved(cfg, hallReqs, b, |b.states|);
    var moved := InitialMoves(cfg, b, |b.states|);
    assert moved.states == seq(|fleet.Keys|, i requires 0 <= i < |fleet.Keys| =>
      AfterInitialMove(cfg, hallReqs, InitialStates(fleet)[i]));
    forall f, call | 0 <= f < |hallReqs|
      ensures StartsOwnedByLast(fleet, hallReqs[f].At(call), f, c.reqs[f].At(call))
    {
      TakerIsLastStanding(fleet, f);
    }
  }

  ghost predicate StartsOwnedByLast(fleet: Fleet, active: bool, f: int, r: Req) {
    && r.active == active
    && (active && !NobodyAt(fleet, f) ==> IsLastAt(fleet, r.assignedTo, f))
    && (!active || NobodyAt(fleet, f) ==> r.assignedTo == "")
  }

  lemma TakerStands(fleet: Fleet, f: int, i: int)
    requires IsTaker(InitialStates(fleet), |InitialStates(fleet)|, f, i)
    ensures var id := SortedIds(fleet.Keys)[i];
            InitialStates(fleet)[i].id == id && StandsAt(fleet, id, f)
  {
    var ids := SortedIds(fleet.Keys);
    assert ids[i] in multiset(ids);
  }

  lemma StandingTakes(fleet: Fleet, f: int, id: string) returns (i: nat)
    requires StandsAt(fleet, id, f)
    ensures IsTaker(InitialStates(fleet), |InitialStates(fleet)|, f, i) && SortedIds(fleet.Keys)[i] == id
  {
    var ids := SortedIds(fleet.Keys);
    assert id in multiset(ids);
    i :| 0 <= i < |ids| && ids[i] == id;
  }

  lemma TakerIsLastStanding(fleet: Fleet, f: int)
    ensures var taker := LastTaker(InitialStates(fleet), |InitialStates(fleet)|, f);
            if NobodyAt(fleet, f) then taker == "" else IsLastAt(fleet, taker, f)
  {
    var ids := SortedIds(fleet.Keys);
    var j := LastTakerIsLast(InitialStates(fleet), |InitialStates(fleet)|, f);
    SortedIdsAscend(fleet.Keys);
    if j != -1 { TakerStands(fleet, f, j); }
    forall id | StandsAt(fleet, id, f)
      ensures j != -1 && LexLeq(id, ids[j])
    {
      var i := StandingTakes(fleet, f, id);
      LexTotal(id, id);
      assert LexLeq(ids[i], ids[j]);
    }
  }
}
