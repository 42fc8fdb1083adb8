// What the moves of simulated elevators mean, in terms of who is waiting where.
module SimulationMoves {
  import opened ElevatorAlgorithm
  import opened HallRequests
  import opened Simulation

  // ------------------------------------------------------------------------------------------ who is waiting

  ghost predicate PendingAbove(s: State, reqs: Reqs)
    requires InBounds(s, |reqs|)
  {
    exists f :: s.state.floor < f && Pending(s, reqs, f)
  }

  ghost predicate PendingBelow(s: State, reqs: Reqs)
    requires InBounds(s, |reqs|)
  {
    exists f :: f < s.state.floor && Pending(s, reqs, f)
  }

  // In the direction of travel.
  ghost predicate PendingAhead(s: State, reqs: Reqs)
    requires InBounds(s, |reqs|)
  {
    (s.state.direction == Up && PendingAbove(s, reqs)) || (s.state.direction == Down && PendingBelow(s, reqs))
  }

  // Somebody at the floor wants to go where the elevator is going.
  ghost predicate WaitsAlong(s: State, reqs: Reqs)
    requires InBounds(s, |reqs|)
  {
    var here := reqs[s.state.floor];
    (s.state.direction == Up && here.up.IsUnassigned()) || (s.state.direction == Down && here.down.IsUnassigned())
  }

  // ------------------------------------------------------------------------------------------ moving

  // Exactly where a moving elevator stops: it passes nobody who wants to get on or off, and travels no further than
  // there is something to do. Passing and stopping both keep the direction.
  lemma StopsExactly(cfg: Config, s: State, reqs: Reqs)
    requires InBounds(s, |reqs|) && s.state.behaviour == Moving
    ensures var (s', reqs') := SingleMove(cfg, s, reqs);
            var stops := s.state.cabRequests[s.state.floor] || WaitsAlong(s, reqs) || !PendingAhead(s, reqs) ||
                         s.state.floor == 0 || s.state.floor == |reqs| - 1;
            && (s'.state.floor == s.state.floor <==> stops || s.state.direction == Stop)
            && s'.state.direction == s.state.direction
            && (s'.state.floor == s.state.floor ==>
                  s'.state.behaviour == DoorOpen && s'.time == s.time + 1000 * cfg.doorOpenDuration)
            && (s'.state.floor != s.state.floor ==>
                  && s'.state.behaviour == Moving && s'.time == s.time + 1000 * cfg.travelDuration
                  && s'.state.floor == s.state.floor + Delta(s.state.direction)
                  && reqs' == reqs && s'.state.cabRequests == s.state.cabRequests)
  {
    ViewPending(s, reqs);
    assert PendingAbove(s, reqs) <==> RequestsAbove(View(s, reqs));
    assert PendingBelow(s, reqs) <==> RequestsBelow(View(s, reqs));
  }

  // ------------------------------------------------------------------------------------------ standing

  // Exactly where a standing elevator goes: on in the direction in which it came for as long as somebody waits there,
  // and otherwise to its own floor before the other direction. One without a direction looks down first.
  lemma DepartsExactly(cfg: Config, s: State, reqs: Reqs)
    requires InBounds(s, |reqs|) && s.state.behaviour != Moving
    ensures var (s', reqs') := SingleMove(cfg, s, reqs);
            var (above, below) := (PendingAbove(s, reqs), PendingBelow(s, reqs));
            var here := Pending(s, reqs, s.state.floor);
            && (s'.state.floor > s.state.floor <==> above && (s.state.direction == Up || (!below && !here)))
            && (s'.state.floor < s.state.floor <==> below && (s.state.direction != Up || (!above && !here)))
            && (s'.state.floor != s.state.floor ==>
                  && s'.state.floor == s.state.floor + Delta(s'.state.direction)
                  && s'.state.behaviour == Moving && s'.time == s.time + 1000 * cfg.travelDuration
                  && reqs' == reqs && s'.state.cabRequests == s.state.cabRequests)
            && (s'.state.floor == s.state.floor ==> s'.state.direction == Stop)
            && (s'.state.floor == s.state.floor && here ==>
                  s'.state.behaviour == DoorOpen && s'.time == s.time + 1000 * cfg.doorOpenDuration)
            && (s'.state.floor == s.state.floor && !here ==>
                  !above && !below && s'.state.behaviour == Idle && s'.time == s.time && reqs' == reqs)
  {
    ViewPending(s, reqs);
    assert PendingAbove(s, reqs) <==> RequestsAbove(View(s, reqs));
    assert PendingBelow(s, reqs) <==> RequestsBelow(View(s, reqs));
  }

  // ------------------------------------------------------------------------------------------ serving

  // Whether a stop takes a hall call. In the directional mode the call in the direction in which the elevator came
  // comes first; the opposite one is for an elevator that has nothing to go on for.
  ghost predicate IsTaken(cfg: Config, s: State, reqs: Reqs, c: HallCall)
    requires InBounds(s, |reqs|)
  {
    && reqs[s.state.floor].At(c).IsUnassigned()
    && (cfg.clearRequestType.InDirn? && s.state.direction != Stop && s.state.direction != Along(c) ==>
          !WaitsAlong(s, reqs) && !PendingAhead(s, reqs))
  }

  function Along(c: HallCall): Dirn {
    if c == Upward then Up else Down
  }

  // Exactly what an elevator serves that stays at a floor where somebody is waiting.
  lemma ServesExactly(cfg: Config, s: State, reqs: Reqs)
    requires InBounds(s, |reqs|) && SingleMove(cfg, s, reqs).0.state.floor == s.state.floor
    requires s.state.behaviour == Moving || Pending(s, reqs, s.state.floor)
    ensures var (s', reqs') := SingleMove(cfg, s, reqs);
            && s'.state.cabRequests == s.state.cabRequests[s.state.floor := false]
            && |reqs'| == |reqs|
            && (forall f :: 0 <= f < |reqs| && f != s.state.floor ==> reqs'[f] == reqs[f])
            && forall c :: reqs'[s.state.floor].At(c) ==
                 if IsTaken(cfg, s, reqs, c) then Req(true, s.id) else reqs[s.state.floor].At(c)
  {
    var e, f := View(s, reqs), s.state.floor;
    ViewPending(s, reqs);
    StopsOrServes(cfg, s, reqs);
    assert PendingAbove(s, reqs) <==> RequestsAbove(e);
    assert PendingBelow(s, reqs) <==> RequestsBelow(e);
    forall c: HallCall
      ensures Clears(cfg.clearRequestType, e, CallOf(c)) <==> IsTaken(cfg, s, reqs, c)
    {
      assert e.requests[f].Has(CallOf(c)) <==> reqs[f].At(c).IsUnassigned();
    }
    assert ServedCabs(cfg, s, reqs) == s.state.cabRequests[f := false];
  }

  lemma StopsOrServes(cfg: Config, s: State, reqs: Reqs)
    requires InBounds(s, |reqs|) && SingleMove(cfg, s, reqs).0.state.floor == s.state.floor
    requires s.state.behaviour == Moving || Pending(s, reqs, s.state.floor)
    ensures SingleMove(cfg, s, reqs).1 == ServedReqs(cfg, s, reqs)
    ensures SingleMove(cfg, s, reqs).0.state.cabRequests == ServedCabs(cfg, s, reqs)
  {
    ViewPending(s, reqs);
  }

  // ------------------------------------------------------------------------------------------ leaving the loop

  // Exactly when the loop goes on: somebody still waits, and there is a reason against settling everything at once.
  lemma ContinuesExactly(c: Sim)
    ensures Continues(c) <==>
            && (exists f, call :: 0 <= f < |c.reqs| && c.reqs[f].At(call).IsUnassigned())
            && (|| (exists s, f :: s in c.states && 0 <= f < |s.state.cabRequests| && s.state.cabRequests[f])
                || (exists f :: 0 <= f < |c.reqs| && c.reqs[f].At(Upward).active && c.reqs[f].At(Downward).active)
                || (exists f, call :: 0 <= f < |c.reqs| && c.reqs[f].At(call).IsUnassigned() &&
                                      NobodyStandsAt(c, f)))
  {
    if AnyUnassigned(c.reqs) {
      var f :| 0 <= f < |c.reqs| && (c.reqs[f].up.IsUnassigned() || c.reqs[f].down.IsUnassigned());
      assert c.reqs[f].At(Upward).IsUnassigned() || c.reqs[f].At(Downward).IsUnassigned();
    }
    if f, call :| 0 <= f < |c.reqs| && c.reqs[f].At(call).IsUnassigned() {
      assert c.reqs[f].up.IsUnassigned() || c.reqs[f].down.IsUnassigned();
    }
    if f :| 0 <= f < |c.reqs| && c.reqs[f].up.active && c.reqs[f].down.active {
      assert c.reqs[f].At(Upward).active && c.reqs[f].At(Downward).active;
    }
  }

  ghost predicate NobodyStandsAt(c: Sim, f: int) {
    forall s :: s in c.states ==> s.state.floor != f
  }
}
