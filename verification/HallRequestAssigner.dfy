// The hall request assigner in the form of the original: elevators and requests are arrays that the moves update in
// place, and the main loop sorts, tests and moves until every request has an owner.
module HallRequestAssigner {
  import opened ElevatorAlgorithm
  import opened HallRequests
  import opened Simulation
  import opened SimulationInvariant
  import opened SimulationEmptyId
  import opened SimulationResult

  method PerformInitialMove(cfg: Config, states: array<State>, i: nat, reqs: array<FloorReqs>)
    requires i < states.Length
    requires states[i].state.behaviour != Moving ==> 0 <= states[i].state.floor < reqs.Length
    modifies states, reqs
    ensures var (s, rs) := InitialMove(cfg, old(states[i]), old(reqs[..]));
            states[..] == old(states[..])[i := s] && reqs[..] == rs
  {
    match states[i].state.behaviour {
      case DoorOpen =>
        states[i] := states[i].(time := states[i].time + 500 * cfg.doorOpenDuration);
        TakeRequestsHere(cfg, states, i, reqs);
      case Idle =>
        TakeRequestsHere(cfg, states, i, reqs);
      case Moving =>
        var s := states[i];
        states[i] := s.(state := s.state.(floor := s.state.floor + Delta(s.state.direction)));
        states[i] := states[i].(time := states[i].time + 500 * cfg.travelDuration);
    }
  }

  // The loop over both hall calls of the elevator's floor.
  method TakeRequestsHere(cfg: Config, states: array<State>, i: nat, reqs: array<FloorReqs>)
    requires i < states.Length && 0 <= states[i].state.floor < reqs.Length
    modifies states, reqs
    ensures var s := old(states[i]);
            var here := old(reqs[s.state.floor]);
            && reqs[..] == old(reqs[..])[s.state.floor := FloorReqs(Take(here.up, s.id), Take(here.down, s.id))]
            && states[..] == old(states[..])[i := s.(time := s.time +
                 (if here.up.active then 1000 * cfg.doorOpenDuration else 0) +
                 (if here.down.active then 1000 * cfg.doorOpenDuration else 0))]
  {
    var f := states[i].state.floor;
    if reqs[f].up.active {
      reqs[f] := reqs[f].(up := reqs[f].up.(assignedTo := states[i].id));
      states[i] := states[i].(time := states[i].time + 1000 * cfg.doorOpenDuration);
    }
    if reqs[f].down.active {
      reqs[f] := reqs[f].(down := reqs[f].down.(assignedTo := states[i].id));
      states[i] := states[i].(time := states[i].time + 1000 * cfg.doorOpenDuration);
    }
  }

  // The callback of the clearing routine.
  method OnClearRequest(states: array<State>, i: nat, reqs: array<FloorReqs>, c: CallType)
    requires i < states.Length && InBounds(states[i], reqs.Length)
    modifies states, reqs
    ensures var s := old(states[i]);
            var f := s.state.floor;
            && states[..] == old(states[..])[i := if c == Cab then
                 s.(state := s.state.(cabRequests := s.state.cabRequests[f := false])) else s]
            && reqs[..] == (match c
                            case HallUp => old(reqs[..])[f := old(reqs[f]).(up := old(reqs[f]).up.(assignedTo := s.id))]
                            case HallDown =>
                              old(reqs[..])[f := old(reqs[f]).(down := old(reqs[f]).down.(assignedTo := s.id))]
                            case Cab => old(reqs[..]))
  {
    var s := states[i];
    var f := s.state.floor;
    match c {
      case HallUp => reqs[f] := reqs[f].(up := reqs[f].up.(assignedTo := s.id));
      case HallDown => reqs[f] := reqs[f].(down := reqs[f].down.(assignedTo := s.id));
      case Cab => states[i] := s.(state := s.state.(cabRequests := s.state.cabRequests[f := false]));
    }
  }

  // Clears the calls at the elevator's floor, as seen by `e`, with the callback above.
  method ClearHere(cfg: Config, states: array<State>, i: nat, reqs: array<FloorReqs>, e: ElevatorState, ghost s: State)
    requires i < states.Length && InBounds(s, reqs.Length) && e == View(s, reqs[..])
    requires states[i].id == s.id && states[i].state.floor == s.state.floor
    requires states[i].state.cabRequests == s.state.cabRequests
    modifies states, reqs
    ensures reqs[..] == ServedReqs(cfg, s, old(reqs[..]))
    ensures var was := old(states[i]);
            states[..] == old(states[..])[i := was.(state := was.state.(
              cabRequests := ServedCabs(cfg, s, old(reqs[..]))))]
  {
    ghost var rs := reqs[..];
    ghost var was := states[i];
    var _, cleared := ClearReqsAtFloor(cfg.clearRequestType, e);
    var f := was.state.floor;
    for k := 0 to |cleared|
      invariant reqs[..] == rs[f := FloorReqs(
                  if HallUp in cleared[..k] then rs[f].up.(assignedTo := s.id) else rs[f].up,
                  if HallDown in cleared[..k] then rs[f].down.(assignedTo := s.id) else rs[f].down)]
      invariant states[..] == old(states[..])[i := was.(state := was.state.(
                  cabRequests := if Cab in cleared[..k] then s.state.cabRequests[f := false]
                                 else s.state.cabRequests))]
    {
      assert cleared[..k + 1] == cleared[..k] + [cleared[k]];
      OnClearRequest(states, i, reqs, cleared[k]);
    }
    assert cleared[..|cleared|] == cleared;
    assert forall c :: c in cleared <==> Clears(cfg.clearRequestType, e, c);
    assert HallUp == CallOf(Upward) && HallDown == CallOf(Downward);
  }

  method PerformSingleMove(cfg: Config, states: array<State>, i: nat, reqs: array<FloorReqs>)
    requires i < states.Length && InBounds(states[i], reqs.Length)
    modifies states, reqs
    ensures var (s, rs) := SingleMove(cfg, old(states[i]), old(reqs[..]));
            states[..] == old(states[..])[i := s] && reqs[..] == rs
  {
    var s := states[i];
    var e := View(s, reqs[..]);
    match s.state.behaviour {
      case Moving =>
        if ShouldStop(e) {
          states[i] := states[i].(state := s.state.(behaviour := DoorOpen));
          states[i] := states[i].(time := s.time + 1000 * cfg.doorOpenDuration);
          ClearHere(cfg, states, i, reqs, e, s);
        } else {
          states[i] := states[i].(state := s.state.(floor := s.state.floor + Delta(s.state.direction)));
          states[i] := states[i].(time := s.time + 1000 * cfg.travelDuration);
        }
      case _ =>
        states[i] := states[i].(state := s.state.(direction := ChooseDirection(e)));
        if states[i].state.direction == Stop {
          if AnyRequestsAtFloor(e) {
            ClearHere(cfg, states, i, reqs, e, s);
            states[i] := states[i].(time := s.time + 1000 * cfg.doorOpenDuration);
            states[i] := states[i].(state := states[i].state.(behaviour := DoorOpen));
          } else {
            states[i] := states[i].(state := states[i].state.(behaviour := Idle));
          }
        } else {
          states[i] := states[i].(state := states[i].state.(behaviour := Moving));
          var l := states[i].state;
          states[i] := states[i].(state := l.(floor := l.floor + Delta(l.direction)));
          states[i] := states[i].(time := s.time + 1000 * cfg.travelDuration);
        }
    }
  }

  method UnvisitedAreImmediatelyAssignable(reqs: array<FloorReqs>, states: array<State>) returns (all: bool)
    ensures all == ImmediatelyAssignable(reqs[..], states[..])
  {
    var ss := states[..];
    if exists i :: 0 <= i < |ss| && ss[i].state.AnyCab() {
      return false;
    }
    var f := 0;
    while f < reqs.Length
      invariant f <= reqs.Length
      invariant forall g :: 0 <= g < f ==> !(reqs[g].up.active && reqs[g].down.active)
      invariant forall g, c :: 0 <= g < f && reqs[g].At(c).IsUnassigned() ==> exists s :: s in ss && Free(s, g)
    {
      if reqs[f].up.active && reqs[f].down.active {
        assert reqs[..][f] == reqs[f];
        return false;
      }
      if reqs[f].up.IsUnassigned() && !exists i :: 0 <= i < |ss| && Free(ss[i], f) {
        assert reqs[..][f].At(Upward).IsUnassigned();
        return false;
      }
      if reqs[f].down.IsUnassigned() && !exists i :: 0 <= i < |ss| && Free(ss[i], f) {
        assert reqs[..][f].At(Downward).IsUnassigned();
        return false;
      }
      f := f + 1;
    }
    return true;
  }

  method AssignImmediate(cfg: Config, reqs: array<FloorReqs>, states: array<State>)
    modifies reqs, states
    ensures (reqs[..], states[..]) == AssignBelow(cfg, old(reqs[..]), old(states[..]), reqs.Length)
  {
    for f := 0 to reqs.Length
      invariant (reqs[..], states[..]) == AssignBelow(cfg, old(reqs[..]), old(states[..]), f)
    {
      ghost var reqs1 := reqs[..];
      AssignOne(cfg, reqs, states, f, Upward);
      AssignOne(cfg, reqs, states, f, Downward);
      assert reqs[..] == reqs1[f := FloorReqs(reqs[f].up, reqs[f].down)];
    }
  }

  // The loop over the elevators for one request.
  method AssignOne(cfg: Config, reqs: array<FloorReqs>, states: array<State>, f: nat, c: HallCall)
    requires f < reqs.Length
    modifies reqs, states
    ensures var (r, ss) := OfferAll(cfg, old(reqs[f]).At(c), f, old(states[..]));
            reqs[..] == old(reqs[..])[f := old(reqs[f]).With(c, r)] && states[..] == ss
  {
    for k := 0 to states.Length
      invariant var (r, ss) := Offer(cfg, old(reqs[f]).At(c), f, old(states[..]), k);
                reqs[..] == old(reqs[..])[f := old(reqs[f]).With(c, r)] && states[..] == ss
    {
      assert reqs[f] == reqs[..][f] && states[k] == states[..][k];
      if reqs[f].At(c).IsUnassigned() {
        if states[k].state.floor == f && !states[k].state.AnyCab() {
          reqs[f] := reqs[f].With(c, reqs[f].At(c).(assignedTo := states[k].id));
          states[k] := states[k].(time := states[k].time + 1000 * cfg.doorOpenDuration);
        }
      }
    }
  }

  function Insert(s: State, sorted: seq<State>): seq<State> {
    if sorted == [] || s.time <= sorted[0].time then [s] + sorted else [sorted[0]] + Insert(s, sorted[1..])
  }

  lemma PrependEarliest(s: State, sorted: seq<State>)
    requires SortedByTime(sorted) && forall i :: 0 <= i < |sorted| ==> s.time <= sorted[i].time
    ensures SortedByTime([s] + sorted)
  {
  }

  lemma {:induction false} InsertKeepsOrder(s: State, sorted: seq<State>)
    requires SortedByTime(sorted)
    ensures SortedByTime(Insert(s, sorted))
  {
    if sorted == [] || s.time <= sorted[0].time {
      PrependEarliest(s, sorted);
    } else {
      var rest := Insert(s, sorted[1..]);
      InsertKeepsOrder(s, sorted[1..]);
      InsertAdds(s, sorted[1..]);
      forall i | 0 <= i < |rest|
        ensures sorted[0].time <= rest[i].time
      {
        assert rest[i] in multiset(rest);
      }
      PrependEarliest(sorted[0], rest);
    }
  }

  lemma {:induction false} InsertAdds(s: State, sorted: seq<State>)
    ensures multiset(Insert(s, sorted)) == multiset(sorted) + multiset{s}
  {
    if sorted != [] {
      InsertAdds(s, sorted[1..]);
      assert sorted == [sorted[0]] + sorted[1..];
    }
  }

  function InsertionSort(states: seq<State>): seq<State> {
    if states == [] then [] else Insert(states[0], InsertionSort(states[1..]))
  }

  lemma {:induction false} InsertionSortSorts(states: seq<State>)
    ensures SortedCopy(states, InsertionSort(states)) && |InsertionSort(states)| == |states|
  {
    if states != [] {
      InsertionSortSorts(states[1..]);
      InsertKeepsOrder(states[0], InsertionSort(states[1..]));
      InsertAdds(states[0], InsertionSort(states[1..]));
      assert states == [states[0]] + states[1..];
    }
    assert |multiset(InsertionSort(states))| == |multiset(states)|;
  }

  // The original uses a library sort that is not stable; callers rely on this contract only.
  method SortByClock(states: array<State>)
    modifies states
    ensures SortedCopy(old(states[..]), states[..])
  {
    var sorted := InsertionSort(states[..]);
    InsertionSortSorts(states[..]);
    forall i | 0 <= i < states.Length {
      states[i] := sorted[i];
    }
    assert states[..] == sorted;
  }

  // -------------------------------------------------------------------------------- the result matrix

  function BlankRow(cfg: Config, fleet: Fleet, id: string, f: nat): seq<bool>
    requires id in fleet && f < |fleet[id].cabRequests|
  {
    [false, false] + (if cfg.includeCab then [fleet[id].cabRequests[f]] else [])
  }

  method BlankResult(cfg: Config, floors: nat, fleet: Fleet) returns (result: Assignment)
    requires forall id :: id in fleet ==> |fleet[id].cabRequests| == floors
    ensures result.Keys == fleet.Keys
    ensures forall id :: id in fleet ==> |result[id]| == floors
    ensures forall id, f :: id in fleet && 0 <= f < floors ==> result[id][f] == BlankRow(cfg, fleet, id, f)
  {
    result := map[];
    var left := fleet.Keys;
    while left != {}
      invariant left <= fleet.Keys && result.Keys == fleet.Keys - left
      invariant forall id :: id in result ==> |result[id]| == floors
      invariant forall id, f :: id in result && 0 <= f < floors ==> result[id][f] == BlankRow(cfg, fleet, id, f)
    {
      var id :| id in left;
      var rows := seq(floors, f => if cfg.includeCab then [false, false, false] else [false, false]);
      if cfg.includeCab {
        for f := 0 to floors
          invariant |rows| == floors
          invariant forall g :: 0 <= g < f ==> rows[g] == BlankRow(cfg, fleet, id, g)
          invariant forall g :: f <= g < floors ==> rows[g] == [false, false, false]
        {
          rows := rows[f := rows[f][2 := fleet[id].cabRequests[f]]];
        }
      }
      result := result[id := rows];
      left := left - {id};
    }
  }

  function MarkedRow(row: seq<bool>, r: FloorReqs, id: string): seq<bool>
    requires 2 <= |row|
  {
    [row[0] || (r.up.active && r.up.assignedTo == id), row[1] || (r.down.active && r.down.assignedTo == id)] + row[2..]
  }

  method MarkFloor(result: Assignment, r: FloorReqs, f: nat) returns (marked: Assignment)
    requires forall c :: r.At(c).active ==> r.At(c).assignedTo in result
    requires forall id :: id in result ==> f < |result[id]| && 2 <= |result[id][f]|
    ensures marked.Keys == result.Keys
    ensures forall id :: id in result ==> marked[id] == result[id][f := MarkedRow(result[id][f], r, id)]
  {
    marked := result;
    assert r.At(Upward) == r.up && r.At(Downward) == r.down;
    if r.up.active {
      var rows := marked[r.up.assignedTo];
      marked := marked[r.up.assignedTo := rows[f := rows[f][0 := true]]];
    }
    if r.down.active {
      var rows := marked[r.down.assignedTo];
      marked := marked[r.down.assignedTo := rows[f := rows[f][1 := true]]];
    }
    forall id | id in result
      ensures marked[id] == result[id][f := MarkedRow(result[id][f], r, id)]
    {
      assert marked[id][f] == MarkedRow(result[id][f], r, id);
      assert marked[id] == result[id][f := marked[id][f]];
    }
  }

  lemma MarkedBlankIsRow(cfg: Config, fleet: Fleet, r: FloorReqs, id: string, f: nat)
    requires id in fleet && f < |fleet[id].cabRequests|
    ensures MarkedRow(BlankRow(cfg, fleet, id, f), r, id) == Row(cfg, fleet, r, id, f)
  {
  }

  ghost predicate PublishedBelow(cfg: Config, fleet: Fleet, reqs: Reqs, result: Assignment, id: string, f: nat) {
    && id in result && id in fleet && |result[id]| == |reqs| == |fleet[id].cabRequests|
    && (forall g :: 0 <= g < f && g < |reqs| ==> result[id][g] == Row(cfg, fleet, reqs[g], id, g))
    && (forall g :: f <= g < |reqs| ==> result[id][g] == BlankRow(cfg, fleet, id, g))
  }

  lemma PublishedBelowGrows(
    cfg: Config, fleet: Fleet, reqs: Reqs, result: Assignment, result': Assignment, id: string, f: nat)
    requires PublishedBelow(cfg, fleet, reqs, result, id, f) && f < |reqs|
    requires id in result' && result'[id] == result[id][f := MarkedRow(BlankRow(cfg, fleet, id, f), reqs[f], id)]
    ensures PublishedBelow(cfg, fleet, reqs, result', id, f + 1)
  {
    MarkedBlankIsRow(cfg, fleet, reqs[f], id, f);
  }

  method PublishResult(cfg: Config, hallReqs: seq<HallCalls>, fleet: Fleet, reqs: array<FloorReqs>)
    returns (result: Assignment)
    requires ValidInput(hallReqs, fleet) && AllOwned(hallReqs, fleet, reqs[..])
    ensures result == Publish(cfg, fleet, reqs[..])
  {
    ghost var rs := reqs[..];
    result := BlankResult(cfg, |hallReqs|, fleet);
    for f := 0 to |hallReqs|
      invariant result.Keys == fleet.Keys
      invariant forall id :: id in fleet ==> PublishedBelow(cfg, fleet, rs, result, id, f)
    {
      forall c
        ensures reqs[f].At(c).active ==> reqs[f].At(c).assignedTo in result
      {
        assert rs[f].At(c).active == hallReqs[f].At(c);
      }
      ghost var before := result;
      assert forall id :: id in result ==> PublishedBelow(cfg, fleet, rs, result, id, f);
      result := MarkFloor(result, reqs[f], f);
      forall id | id in fleet
        ensures PublishedBelow(cfg, fleet, rs, result, id, f + 1)
      {
        PublishedBelowGrows(cfg, fleet, rs, before, result, id, f);
      }
    }
    forall id | id in fleet
      ensures result[id] == Publish(cfg, fleet, rs)[id]
    {
      assert PublishedBelow(cfg, fleet, rs, result, id, |rs|);
    }
  }

  // -------------------------------------------------------------------------------- the assigner

  method InitialiseAndMove(cfg: Config, hallReqs: seq<HallCalls>, fleet: Fleet)
    returns (states: array<State>, reqs: array<FloorReqs>)
    requires ValidInput(hallReqs, fleet)
    ensures fresh(states) && fresh(reqs)
    ensures Movable(Begin(hallReqs, fleet))
    ensures var b := Begin(hallReqs, fleet);
            Sim(states[..], reqs[..]) == InitialMoves(cfg, b, |b.states|)
  {
    BeginMovable(hallReqs, fleet);
    var ss := InitialStates(fleet);
    var rs := ToReq(hallReqs);
    states := new State[|ss|](i requires 0 <= i < |ss| => ss[i]);
    reqs := new FloorReqs[|rs|](f requires 0 <= f < |rs| => rs[f]);
    assert states[..] == ss && reqs[..] == rs;
    MoveInitially(cfg, states, reqs);
  }

  method MoveInitially(cfg: Config, states: array<State>, reqs: array<FloorReqs>)
    requires Movable(Sim(states[..], reqs[..]))
    modifies states, reqs
    ensures Sim(states[..], reqs[..]) == InitialMoves(cfg, old(Sim(states[..], reqs[..])), states.Length)
  {
    ghost var b := Sim(states[..], reqs[..]);
    for i := 0 to states.Length
      invariant Sim(states[..], reqs[..]) == InitialMoves(cfg, b, i)
    {
      assert states[i] == states[..][i] == b.states[i] && b.states[i] in b.states;
      PerformInitialMove(cfg, states, i, reqs);
    }
  }

  // Before each sort: the initial moves have just been made, or one elevator has just moved.
  ghost predicate ReadyToSort(cfg: Config, hallReqs: seq<HallCalls>, fleet: Fleet, run: seq<Sim>, now: Sim) {
    if run == [] then
      Movable(Begin(hallReqs, fleet)) &&
      now == InitialMoves(cfg, Begin(hallReqs, fleet), |Begin(hallReqs, fleet).states|)
    else
      && IsRun(cfg, hallReqs, fleet, run)
      && var c := run[|run| - 1];
         && Continues(c) && c.states != [] && InBounds(c.states[0], |c.reqs|)
         && now == Sim(c.states[0 := SingleMove(cfg, c.states[0], c.reqs).0], SingleMove(cfg, c.states[0], c.reqs).1)
  }

  lemma SortExtendsRun(cfg: Config, hallReqs: seq<HallCalls>, fleet: Fleet, run: seq<Sim>, now: Sim, c: Sim)
    requires ValidInput(hallReqs, fleet) && ReadyToSort(cfg, hallReqs, fleet, run, now)
    requires c.reqs == now.reqs && SortedCopy(now.states, c.states)
    ensures IsRun(cfg, hallReqs, fleet, run + [c]) && Inv(hallReqs, fleet, c) && InBounds(c.states[0], |c.reqs|)
  {
    if run == [] {
      assert run + [c] == [c];
    } else {
      ExtendRun(cfg, hallReqs, fleet, run, c);
    }
    var longer := run + [c];
    RunInv(cfg, hallReqs, fleet, longer, |longer| - 1);
    assert c.states[0] in c.states;
  }

  // The body of the main loop: sort, test, and then either settle everything or move the earliest elevator.
  method Iterate(cfg: Config, states: array<State>, reqs: array<FloorReqs>) returns (done: bool, ghost c: Sim)
    requires states.Length > 0 && forall i :: 0 <= i < states.Length ==> InBounds(states[i], reqs.Length)
    modifies states, reqs
    ensures c.reqs == old(reqs[..]) && SortedCopy(old(states[..]), c.states) && |c.states| == states.Length
    ensures done == !Continues(c)
    ensures InBounds(c.states[0], |c.reqs|)
    ensures if done then reqs[..] == FinalReqs(cfg, c) else
              var (s, rs) := SingleMove(cfg, c.states[0], c.reqs);
              states[..] == c.states[0 := s] && reqs[..] == rs
  {
    SortByClock(states);
    c := Sim(states[..], reqs[..]);
    assert c.states[0] in multiset(old(states[..]));
    done := true;
    if AnyUnassigned(reqs[..]) {
      done := false;
    }
    var immediate := UnvisitedAreImmediatelyAssignable(reqs, states);
    if immediate {
      AssignImmediate(cfg, reqs, states);
      done := true;
    }
    if !done {
      PerformSingleMove(cfg, states, 0, reqs);
    }
  }

  lemma ReadyIsInBounds(cfg: Config, hallReqs: seq<HallCalls>, fleet: Fleet, run: seq<Sim>, now: Sim)
    requires ValidInput(hallReqs, fleet) && ReadyToSort(cfg, hallReqs, fleet, run, now)
    ensures now.states != [] && forall i :: 0 <= i < |now.states| ==> InBounds(now.states[i], |now.reqs|)
  {
    var sorted := InsertionSort(now.states);
    InsertionSortSorts(now.states);
    SortExtendsRun(cfg, hallReqs, fleet, run, now, Sim(sorted, now.reqs));
    forall i | 0 <= i < |now.states|
      ensures InBounds(now.states[i], |now.reqs|)
    {
      assert now.states[i] in multiset(sorted);
      assert StateOk(fleet, |hallReqs|, now.states[i]);
    }
  }

  ghost predicate LoopInv(
    cfg: Config, hallReqs: seq<HallCalls>, fleet: Fleet, bound: nat, run: seq<Sim>, now: Sim, done: bool)
  {
    && |run| <= bound
    && (!done ==> ReadyToSort(cfg, hallReqs, fleet, run, now))
    && (done ==> IsCompleteRun(cfg, hallReqs, fleet, run) && now.reqs == FinalReqs(cfg, run[|run| - 1]))
  }

  lemma IterationKeepsLoopInv(cfg: Config, hallReqs: seq<HallCalls>, fleet: Fleet, bound: nat, run: seq<Sim>,
                              now: Sim, c: Sim, now': Sim, done: bool)
    requires ValidInput(hallReqs, fleet) && ReadyToSort(cfg, hallReqs, fleet, run, now)
    requires BoundedBy(cfg, hallReqs, fleet, bound)
    requires c.reqs == now.reqs && SortedCopy(now.states, c.states) && done == !Continues(c)
    requires c.states != [] && InBounds(c.states[0], |c.reqs|)
    requires if done then now'.reqs == FinalReqs(cfg, c) else
               var (s, rs) := SingleMove(cfg, c.states[0], c.reqs);
               now' == Sim(c.states[0 := s], rs)
    ensures LoopInv(cfg, hallReqs, fleet, bound, run + [c], now', done)
  {
    SortExtendsRun(cfg, hallReqs, fleet, run, now, c);
    var longer := run + [c];
    assert longer[|longer| - 1] == c;
  }

  // The result is what some complete run of the simulation publishes; `run` is that run. The loop has to end on the
  // input; that it does can be checked beforehand with `Ends`, see SimulationEmptyId.LoopEndsExactly.
  method OptimalHallRequests(cfg: Config, hallReqs: seq<HallCalls>, fleet: Fleet)
    returns (result: Assignment, ghost run: seq<Sim>)
    requires ValidInput(hallReqs, fleet) && (Ends(cfg, fleet.Keys) || Terminates(cfg, hallReqs, fleet))
    ensures IsCompleteRun(cfg, hallReqs, fleet, run)
    ensures |FinalReqs(cfg, run[|run| - 1])| == |hallReqs|
    ensures result == Publish(cfg, fleet, FinalReqs(cfg, run[|run| - 1]))
    ensures Shaped(cfg, hallReqs, fleet, result) && IsPartition(hallReqs, fleet, result)
    ensures forall id, f: nat, c :: id in fleet && f < |hallReqs| ==>
              var r := FinalReqs(cfg, run[|run| - 1])[f].At(c);
              Gets(result, id, f, c) <==> r.active && r.assignedTo == id
  {
    if Ends(cfg, fleet.Keys) { EndsSuffices(cfg, hallReqs, fleet); }
    ghost var bound :| BoundedBy(cfg, hallReqs, fleet, bound);
    var states, reqs;
    states, reqs, run := Simulate(cfg, hallReqs, fleet, bound);
    OutcomeIsPartition(cfg, hallReqs, fleet, run);
    result := PublishResult(cfg, hallReqs, fleet, reqs);
    ghost var final := FinalReqs(cfg, run[|run| - 1]);
    forall id, f: nat, c | id in fleet && f < |hallReqs|
      ensures Gets(result, id, f, c) <==> final[f].At(c).active && final[f].At(c).assignedTo == id
    {
      PublishedExactly(cfg, fleet, final, id, f, c);
    }
  }

  method Simulate(cfg: Config, hallReqs: seq<HallCalls>, fleet: Fleet, ghost bound: nat)
    returns (states: array<State>, reqs: array<FloorReqs>, ghost run: seq<Sim>)
    requires ValidInput(hallReqs, fleet) && BoundedBy(cfg, hallReqs, fleet, bound)
    ensures fresh(states) && fresh(reqs)
    ensures IsCompleteRun(cfg, hallReqs, fleet, run) && reqs[..] == FinalReqs(cfg, run[|run| - 1])
  {
    states, reqs := InitialiseAndMove(cfg, hallReqs, fleet);
    run := [];
    var done := false;
    while !done
      invariant LoopInv(cfg, hallReqs, fleet, bound, run, Sim(states[..], reqs[..]), done)
      invariant fresh(states) && fresh(reqs)
      decreases bound - |run|
    {
      ghost var now := Sim(states[..], reqs[..]);
      ghost var c;
      ReadyIsInBounds(cfg, hallReqs, fleet, run, now);
      assert forall i :: 0 <= i < states.Length ==> states[i] == now.states[i];
      done, c := Iterate(cfg, states, reqs);
      IterationKeepsLoopInv(cfg, hallReqs, fleet, bound, run, now, c, Sim(states[..], reqs[..]), done);
      run := run + [c];
    }
  }
}
