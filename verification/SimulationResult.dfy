// What a complete run of the assigner publishes.
module SimulationResult {
  import opened HallRequests
  import opened Simulation
  import opened SimulationInvariant

  // ------------------------------------------------------------------ the immediate assignment

  ghost predicate SameButTime(states: seq<State>, states': seq<State>) {
    && |states'| == |states|
    && forall i :: 0 <= i < |states| ==> states'[i].id == states[i].id && states'[i].state == states[i].state
  }

  // `r` was free to take and now belongs to an elevator that stands free at floor `f`.
  ghost predicate TakenByFree(r: Req, r': Req, f: int, states: seq<State>) {
    r.IsUnassigned() && exists s :: s in states && Free(s, f) && r' == r.(assignedTo := s.id)
  }

  lemma {:induction false} OfferOutcome(cfg: Config, r: Req, f: int, states: seq<State>, k: nat)
    requires k <= |states|
    ensures var (r', states') := Offer(cfg, r, f, states, k);
            && SameButTime(states, states')
            && (r' == r || TakenByFree(r, r', f, states))
            && (r.IsUnassigned() && (exists i :: 0 <= i < k && Free(states[i], f)) ==> TakenByFree(r, r', f, states))
  {
    if k > 0 {
      OfferOutcome(cfg, r, f, states, k - 1);
      assert states[k - 1] in states;
    }
  }

  lemma OfferAllOutcome(cfg: Config, r: Req, f: int, states: seq<State>)
    requires r.IsUnassigned() ==> exists s :: s in states && Free(s, f)
    ensures var (r', states') := OfferAll(cfg, r, f, states);
            SameButTime(states, states') && if r.IsUnassigned() then TakenByFree(r, r', f, states) else r' == r
  {
    OfferOutcome(cfg, r, f, states, |states|);
    if r.IsUnassigned() {
      var s :| s in states && Free(s, f);
      var i :| 0 <= i < |states| && states[i] == s;
      assert Free(states[i], f);
    }
  }

  lemma SameFree(states: seq<State>, states': seq<State>, r: Req, r': Req, f: int)
    requires SameButTime(states, states')
    ensures (exists s :: s in states && Free(s, f)) <==> (exists s :: s in states' && Free(s, f))
    ensures TakenByFree(r, r', f, states') ==> TakenByFree(r, r', f, states)
  {
    if s :| s in states && Free(s, f) {
      var i :| 0 <= i < |states| && states[i] == s;
      assert states'[i] in states' && Free(states'[i], f);
    }
    if s :| s in states' && Free(s, f) {
      var i :| 0 <= i < |states| && states'[i] == s;
      assert states[i] in states && Free(states[i], f);
    }
    if r.IsUnassigned() {
      if s :| s in states' && Free(s, f) && r' == r.(assignedTo := s.id) {
        var i :| 0 <= i < |states| && states'[i] == s;
        assert states[i] in states && Free(states[i], f) && states[i].id == s.id;
      }
    }
  }

  ghost predicate Assignable(reqs: Reqs, states: seq<State>) {
    forall f, c :: 0 <= f < |reqs| && reqs[f].At(c).IsUnassigned() ==> exists s :: s in states && Free(s, f)
  }

  ghost predicate Settled(reqs: Reqs, reqs': Reqs, states: seq<State>, f: int) {
    && |reqs'| == |reqs|
    && (forall g, c :: 0 <= g < |reqs| && f <= g ==> reqs'[g].At(c) == reqs[g].At(c))
    && (forall g, c :: 0 <= g < |reqs| && g < f ==>
          if reqs[g].At(c).IsUnassigned() then TakenByFree(reqs[g].At(c), reqs'[g].At(c), g, states)
          else reqs'[g].At(c) == reqs[g].At(c))
  }

  // The same for elevators whose clocks have advanced since `states`.
  lemma LaterOfferOutcome(cfg: Config, r: Req, f: int, states: seq<State>, now: seq<State>)
    requires SameButTime(states, now)
    requires r.IsUnassigned() ==> exists s :: s in states && Free(s, f)
    ensures var (r', states') := OfferAll(cfg, r, f, now);
            SameButTime(states, states') && if r.IsUnassigned() then TakenByFree(r, r', f, states) else r' == r
  {
    SameFree(states, now, r, OfferAll(cfg, r, f, now).0, f);
    OfferAllOutcome(cfg, r, f, now);
  }

  lemma SettleFloor(reqs: Reqs, reqs1: Reqs, states: seq<State>, f: nat, up: Req, down: Req)
    requires f < |reqs| && Settled(reqs, reqs1, states, f)
    requires if reqs[f].up.IsUnassigned() then TakenByFree(reqs[f].up, up, f, states) else up == reqs[f].up
    requires if reqs[f].down.IsUnassigned() then TakenByFree(reqs[f].down, down, f, states) else down == reqs[f].down
    ensures Settled(reqs, reqs1[f := FloorReqs(up, down)], states, f + 1)
  {
    var reqs' := reqs1[f := FloorReqs(up, down)];
    forall g, c | 0 <= g < |reqs| && g < f + 1
      ensures if reqs[g].At(c).IsUnassigned() then TakenByFree(reqs[g].At(c), reqs'[g].At(c), g, states)
              else reqs'[g].At(c) == reqs[g].At(c)
    {
      if g < f { assert reqs'[g].At(c) == reqs1[g].At(c); }
    }
  }

  lemma {:induction false} AssignBelowSettles(cfg: Config, reqs: Reqs, states: seq<State>, f: nat)
    requires f <= |reqs| && Assignable(reqs, states)
    ensures var (reqs', states') := AssignBelow(cfg, reqs, states, f);
            SameButTime(states, states') && Settled(reqs, reqs', states, f)
  {
    if f > 0 {
      var g := f - 1;
      AssignBelowSettles(cfg, reqs, states, g);
      var (reqs1, states1) := AssignBelow(cfg, reqs, states, g);
      assert reqs1[g].At(Upward) == reqs[g].At(Upward) && reqs1[g].At(Downward) == reqs[g].At(Downward);
      assert reqs[g].At(Upward) == reqs[g].up && reqs[g].At(Downward) == reqs[g].down;
      LaterOfferOutcome(cfg, reqs[g].up, g, states, states1);
      var (up, states2) := OfferAll(cfg, reqs[g].up, g, states1);
      LaterOfferOutcome(cfg, reqs[g].down, g, states, states2);
      var (down, _) := OfferAll(cfg, reqs[g].down, g, states2);
      SettleFloor(reqs, reqs1, states, g, up, down);
    }
  }

  // ------------------------------------------------------------------ the result

  // The requests as they stand when the loop has been left, by either of its exits.
  ghost function FinalReqs(cfg: Config, c: Sim): Reqs {
    if ImmediatelyAssignable(c.reqs, c.states) then AssignBelow(cfg, c.reqs, c.states, |c.reqs|).0 else c.reqs
  }

  ghost predicate Shaped(cfg: Config, hallReqs: seq<HallCalls>, fleet: Fleet, result: Assignment) {
    && result.Keys == fleet.Keys
    && forall id, f :: id in result && 0 <= f < |hallReqs| ==> RowShaped(cfg, hallReqs, fleet, result, id, f)
  }

  ghost predicate RowShaped(
    cfg: Config, hallReqs: seq<HallCalls>, fleet: Fleet, result: Assignment, id: string, f: int)
  {
    && id in result && id in fleet && |result[id]| == |hallReqs| == |fleet[id].cabRequests|
    && 0 <= f < |hallReqs|
    && |result[id][f]| == (if cfg.includeCab then 3 else 2)
    && (cfg.includeCab ==> result[id][f][2] == fleet[id].cabRequests[f])
  }

  ghost predicate Gets(result: Assignment, id: string, f: int, c: HallCall) {
    && id in result && 0 <= f < |result[id]| && 2 <= |result[id][f]|
    && result[id][f][if c == Upward then 0 else 1]
  }

  // Each active hall request belongs to exactly one elevator of the input, each inactive one to none.
  ghost predicate IsPartition(hallReqs: seq<HallCalls>, fleet: Fleet, result: Assignment) {
    forall f, c :: 0 <= f < |hallReqs| ==>
      if hallReqs[f].At(c) then exists id :: id in fleet && OnlyOwner(result, id, f, c)
      else forall id :: !Gets(result, id, f, c)
  }

  // The published assignment is exactly who took what, and each floor's two calls keep their places.
  lemma PublishedExactly(cfg: Config, fleet: Fleet, reqs: Reqs, id: string, f: nat, c: HallCall)
    requires (forall other :: other in fleet ==> |fleet[other].cabRequests| == |reqs|) && id in fleet && f < |reqs|
    ensures Gets(Publish(cfg, fleet, reqs), id, f, c) <==> reqs[f].At(c).active && reqs[f].At(c).assignedTo == id
    ensures cfg.includeCab ==> Publish(cfg, fleet, reqs)[id][f][2..] == [fleet[id].cabRequests[f]]
  {
  }

  ghost predicate OnlyOwner(result: Assignment, id: string, f: int, c: HallCall) {
    Gets(result, id, f, c) && forall other :: Gets(result, other, f, c) ==> other == id
  }

  ghost predicate AllOwned(hallReqs: seq<HallCalls>, fleet: Fleet, reqs: Reqs) {
    && |reqs| == |hallReqs|
    && forall f, c :: 0 <= f < |reqs| ==>
         && reqs[f].At(c).active == hallReqs[f].At(c)
         && (reqs[f].At(c).active ==> reqs[f].At(c).assignedTo in fleet)
  }

  lemma FinalReqsOwned(cfg: Config, hallReqs: seq<HallCalls>, fleet: Fleet, c: Sim)
    requires Inv(hallReqs, fleet, c) && !Continues(c)
    ensures AllOwned(hallReqs, fleet, FinalReqs(cfg, c))
  {
    var reqs := FinalReqs(cfg, c);
    if ImmediatelyAssignable(c.reqs, c.states) {
      assert Assignable(c.reqs, c.states);
      AssignBelowSettles(cfg, c.reqs, c.states, |c.reqs|);
    }
    forall f, call | 0 <= f < |c.reqs|
      ensures reqs[f].At(call).active == hallReqs[f].At(call)
      ensures reqs[f].At(call).active ==> reqs[f].At(call).assignedTo in fleet
    {
      assert c.reqs[f].At(call).active == hallReqs[f].At(call);
      if ImmediatelyAssignable(c.reqs, c.states) {
        if c.reqs[f].At(call).IsUnassigned() {
          var s :| s in c.states && reqs[f].At(call) == c.reqs[f].At(call).(assignedTo := s.id);
          assert StateOk(fleet, |hallReqs|, s);
        } else {
          assert reqs[f].At(call) == c.reqs[f].At(call);
        }
      } else {
        assert !c.reqs[f].At(call).IsUnassigned();
      }
    }
  }

  lemma PublishedIsPartition(cfg: Config, hallReqs: seq<HallCalls>, fleet: Fleet, reqs: Reqs)
    requires ValidInput(hallReqs, fleet) && AllOwned(hallReqs, fleet, reqs)
    ensures Shaped(cfg, hallReqs, fleet, Publish(cfg, fleet, reqs))
    ensures IsPartition(hallReqs, fleet, Publish(cfg, fleet, reqs))
  {
    var result := Publish(cfg, fleet, reqs);
    forall f, c | 0 <= f < |hallReqs|
      ensures if hallReqs[f].At(c) then exists id :: id in fleet && OnlyOwner(result, id, f, c)
              else forall id :: !Gets(result, id, f, c)
    {
      assert reqs[f].At(c).active == hallReqs[f].At(c);
      if hallReqs[f].At(c) {
        assert OnlyOwner(result, reqs[f].At(c).assignedTo, f, c);
      }
    }
  }

  // Whichever exit the loop takes and whatever the ids are, the published assignment is an exact partition of the
  // active hall requests among the elevators of the input.
  lemma OutcomeIsPartition(cfg: Config, hallReqs: seq<HallCalls>, fleet: Fleet, run: seq<Sim>)
    requires IsCompleteRun(cfg, hallReqs, fleet, run)
    ensures var reqs := FinalReqs(cfg, run[|run| - 1]);
            && AllOwned(hallReqs, fleet, reqs)
            && Shaped(cfg, hallReqs, fleet, Publish(cfg, fleet, reqs))
            && IsPartition(hallReqs, fleet, Publish(cfg, fleet, reqs))
  {
    RunInv(cfg, hallReqs, fleet, run, |run| - 1);
    FinalReqsOwned(cfg, hallReqs, fleet, run[|run| - 1]);
    PublishedIsPartition(cfg, hallReqs, fleet, FinalReqs(cfg, run[|run| - 1]));
  }

  // The shortcut only hands out requests that were still unassigned, each to an elevator that stands at its floor
  // without cab calls.
  lemma ShortcutIsLocal(cfg: Config, c: Sim, f: nat, call: HallCall)
    requires ImmediatelyAssignable(c.reqs, c.states) && f < |c.reqs|
    ensures |FinalReqs(cfg, c)| == |c.reqs|
    ensures if c.reqs[f].At(call).IsUnassigned()
            then TakenByFree(c.reqs[f].At(call), FinalReqs(cfg, c)[f].At(call), f, c.states)
            else FinalReqs(cfg, c)[f].At(call) == c.reqs[f].At(call)
  {
    assert Assignable(c.reqs, c.states);
    AssignBelowSettles(cfg, c.reqs, c.states, |c.reqs|);
  }
}
