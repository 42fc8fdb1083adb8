// What an elevator does whose id is the empty string: left alone, it settles at the lowest floor it can serve and
// from then on only opens its door there.
module SimulationCalm {
  import opened Totals
  import opened ElevatorAlgorithm
  import opened HallRequests
  import opened Simulation
  import opened SimulationTermination

  ghost predicate PendingAtOrBelow(s: State, reqs: Reqs)
    requires InBounds(s, |reqs|)
  {
    exists f :: f <= s.state.floor && Pending(s, reqs, f)
  }

  // How many floors it can still travel before it has settled: up to the top and down again, or down, or first up
  // from where nothing is left at or below it.
  ghost function Settling(s: State, reqs: Reqs): (floors: nat)
    requires InBounds(s, |reqs|)
    ensures floors < 2 * |reqs|
  {
    var n := |reqs|;
    if s.state.direction == Up then (n - 1 - s.state.floor) + (n - 1)
    else if PendingAtOrBelow(s, reqs) then s.state.floor
    else 2 * n - 1
  }

  ghost predicate CostsDoor(cfg: Config, s: State, s': State) {
    s'.time == s.time + 1000 * cfg.doorOpenDuration
  }

  ghost predicate CostsTravel(cfg: Config, s: State, s': State) {
    s'.time == s.time + 1000 * cfg.travelDuration
  }

  lemma SettlesByTravel(cfg: Config, s: State, reqs: Reqs, g: int)
    requires s.id == "" && Placed(s, |reqs|) && Pending(s, reqs, g)
    requires if s.state.behaviour == Moving then !ShouldStop(View(s, reqs)) else ChooseDirection(View(s, reqs)) != Stop
    ensures var s' := SingleMove(cfg, s, reqs).0;
            && InBounds(s', |reqs|) && s'.state.cabRequests == s.state.cabRequests
            && CostsTravel(cfg, s, s') && Settling(s', reqs) < Settling(s, reqs)
  {
    ViewPending(s, reqs);
    var s' := SingleMove(cfg, s, reqs).0;
    assert forall f :: Pending(s', reqs, f) <==> Pending(s, reqs, f);
    if s'.state.direction == Down {
      var f :| f < s.state.floor && Pending(s, reqs, f);
      assert Pending(s', reqs, f) && f <= s'.state.floor;
      assert PendingAtOrBelow(s, reqs);
    }
  }

  lemma SettlesByDoor(cfg: Config, s: State, reqs: Reqs, g: int)
    requires s.id == "" && Placed(s, |reqs|) && Pending(s, reqs, g)
    requires if s.state.behaviour == Moving then ShouldStop(View(s, reqs)) else ChooseDirection(View(s, reqs)) == Stop
    requires !Clears(cfg.clearRequestType, View(s, reqs), Cab)
    ensures var s' := SingleMove(cfg, s, reqs).0;
            && InBounds(s', |reqs|) && s'.state.cabRequests == s.state.cabRequests
            && CostsDoor(cfg, s, s') && Settling(s', reqs) <= Settling(s, reqs)
  {
    ViewPending(s, reqs);
    var s' := SingleMove(cfg, s, reqs).0;
    assert forall f :: Pending(s', reqs, f) <==> Pending(s, reqs, f);
    if s.state.behaviour != Moving {
      assert Pending(s, reqs, s.state.floor);
      assert Pending(s', reqs, s'.state.floor);
    } else if PendingAtOrBelow(s, reqs) {
      var f :| f <= s.state.floor && Pending(s, reqs, f);
      assert Pending(s', reqs, f);
    }
  }

  // ------------------------------------------------------------------------------------------ with cab calls

  // Each of its own cab calls it serves can set it going once more.
  ghost function Calm(s: State, reqs: Reqs): nat
    requires InBounds(s, |reqs|)
  {
    CabsNonNegative(s.state.cabRequests);
    Times(Sum(Truth, s.state.cabRequests), 2 * |reqs|) + Settling(s, reqs)
  }

  lemma CabServed(cfg: Config, s: State, reqs: Reqs)
    requires s.id == "" && Placed(s, |reqs|) && Clears(cfg.clearRequestType, View(s, reqs), Cab)
    requires if s.state.behaviour == Moving then ShouldStop(View(s, reqs)) else ChooseDirection(View(s, reqs)) == Stop
    ensures var s' := SingleMove(cfg, s, reqs).0;
            && InBounds(s', |reqs|) && CostsDoor(cfg, s, s') && Calm(s', reqs) < Calm(s, reqs)
  {
    var cabs, f := s.state.cabRequests, s.state.floor;
    var s' := SingleMove(cfg, s, reqs).0;
    SumUpdate(Truth, cabs, f, false);
    assert s'.state.cabRequests == cabs[f := false];
    CabsNonNegative(s'.state.cabRequests);
    TimesMonotone(Sum(Truth, s'.state.cabRequests), Sum(Truth, cabs), 2 * |reqs|);
  }

  // Every move of such an elevator either opens the door and unsettles nothing, or travels and settles further.
  lemma NamelessMoveCalms(cfg: Config, s: State, reqs: Reqs, g: int)
    requires s.id == "" && Placed(s, |reqs|) && Pending(s, reqs, g)
    ensures var s' := SingleMove(cfg, s, reqs).0;
            && InBounds(s', |reqs|)
            && ((CostsDoor(cfg, s, s') && Calm(s', reqs) <= Calm(s, reqs)) ||
                (CostsTravel(cfg, s, s') && Calm(s', reqs) < Calm(s, reqs)))
  {
    var e := View(s, reqs);
    if if s.state.behaviour == Moving then !ShouldStop(e) else ChooseDirection(e) != Stop {
      SettlesByTravel(cfg, s, reqs, g);
    } else if Clears(cfg.clearRequestType, e, Cab) {
      CabServed(cfg, s, reqs);
    } else {
      SettlesByDoor(cfg, s, reqs, g);
    }
  }

  // What others take can change how far it is from settling, but not by much.
  lemma OthersUnsettleLittle(s: State, reqs: Reqs, reqs': Reqs)
    requires InBounds(s, |reqs|) && |reqs'| == |reqs|
    ensures Calm(s, reqs') < Calm(s, reqs) + 2 * |reqs|
  {
  }
}
