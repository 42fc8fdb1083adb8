// Who gets what when everything left is settled at once, and what that costs.
module SimulationShortcut {
  import opened HallRequests
  import opened SimulationTermination

  // At the floor, with no cab call left anywhere.
  ghost predicate StandsFree(s: State, f: int) {
    s.state.floor == f && forall g :: 0 <= g < |s.state.cabRequests| ==> !s.state.cabRequests[g]
  }

  // The elevator takes the requests at floor `f`: it stands there without cab calls, and every one before it that does
  // has the empty id, which takes nothing for good.
  ghost predicate Takes(states: seq<State>, i: int, f: int) {
    && 0 <= i < |states| && StandsFree(states[i], f)
    && forall j :: 0 <= j < i && StandsFree(states[j], f) ==> states[j].id == ""
  }

  // The first free elevator with a real id, in clock order; nobody if there is none.
  ghost predicate IsFirstTaker(states: seq<State>, f: int, id: string) {
    || (id != "" && exists i :: Takes(states, i, f) && states[i].id == id)
    || (id == "" && forall i :: 0 <= i < |states| && StandsFree(states[i], f) ==> states[i].id == "")
  }

  // The same for the first `k` elevators.
  ghost predicate IsFirstTakerOf(states: seq<State>, k: nat, f: int, id: string) {
    || (id != "" && exists i :: i < k && Takes(states, i, f) && states[i].id == id)
    || (id == "" && forall i :: 0 <= i < k && i < |states| && StandsFree(states[i], f) ==> states[i].id == "")
  }

  function Paid(cfg: Config, s: State, doors: int): State {
    s.(time := s.time + 1000 * cfg.doorOpenDuration * doors)
  }

  lemma {:induction false} OfferExactly(cfg: Config, r: Req, f: int, states: seq<State>, k: nat)
    requires k <= |states| && r.IsUnassigned()
    ensures var (r', states') := Offer(cfg, r, f, states, k);
            && r'.active && IsFirstTakerOf(states, k, f, r'.assignedTo)
            && forall i :: 0 <= i < |states| ==>
                 states'[i] == Paid(cfg, states[i], if i < k && Takes(states, i, f) then 1 else 0)
  {
    if k > 0 {
      OfferExactly(cfg, r, f, states, k - 1);
      var (r1, states1) := Offer(cfg, r, f, states, k - 1);
      var s := states1[k - 1];
      assert StandsFree(s, f) == StandsFree(states[k - 1], f) && s.id == states[k - 1].id;
      if r1.assignedTo == "" {
        assert Takes(states, k - 1, f) <==> StandsFree(states[k - 1], f);
      } else {
        var i :| i < k - 1 && Takes(states, i, f) && states[i].id == r1.assignedTo;
        assert !Takes(states, k - 1, f);
      }
    }
  }

  lemma {:induction false} TakenIsNotOffered(cfg: Config, r: Req, f: int, states: seq<State>, k: nat)
    requires k <= |states| && !r.IsUnassigned()
    ensures Offer(cfg, r, f, states, k) == (r, states)
  {
    if k > 0 { TakenIsNotOffered(cfg, r, f, states, k - 1); }
  }

  lemma OfferAllExactly(cfg: Config, r: Req, f: int, states: seq<State>)
    ensures var (r', states') := OfferAll(cfg, r, f, states);
            && (if r.IsUnassigned() then r'.active && IsFirstTaker(states, f, r'.assignedTo) else r' == r)
            && forall i :: 0 <= i < |states| ==>
                 states'[i] == Paid(cfg, states[i], if Takes(states, i, f) then Truth(r.IsUnassigned()) else 0)
  {
    if r.IsUnassigned() {
      OfferExactly(cfg, r, f, states, |states|);
    } else {
      TakenIsNotOffered(cfg, r, f, states, |states|);
    }
  }

  // Only clocks have changed.
  ghost predicate SameButPaid(states: seq<State>, states': seq<State>) {
    |states'| == |states| && forall i :: 0 <= i < |states| ==> states'[i].(time := states[i].time) == states[i]
  }

  lemma PayingChangesNobody(states: seq<State>, states': seq<State>, f: int)
    requires SameButPaid(states, states')
    ensures forall i :: Takes(states', i, f) <==> Takes(states, i, f)
    ensures forall id :: IsFirstTaker(states', f, id) <==> IsFirstTaker(states, f, id)
  {
    forall i | 0 <= i < |states|
      ensures states'[i].id == states[i].id && StandsFree(states'[i], f) == StandsFree(states[i], f)
    {
      assert states'[i].(time := states[i].time) == states[i];
    }
  }

  // What has been settled on the floors below `f`.
  ghost predicate SettledBelow(reqs: Reqs, reqs': Reqs, states: seq<State>, f: nat) {
    && |reqs'| == |reqs|
    && forall g, c :: 0 <= g < |reqs| ==>
         if g < f && reqs[g].At(c).IsUnassigned()
         then reqs'[g].At(c).active && IsFirstTaker(states, g, reqs'[g].At(c).assignedTo)
         else reqs'[g].At(c) == reqs[g].At(c)
  }

  ghost predicate PaidBelow(cfg: Config, reqs: Reqs, states: seq<State>, states': seq<State>, f: nat) {
    && |states'| == |states|
    && forall i :: 0 <= i < |states| ==> states'[i] == Paid(cfg, states[i], Doors(reqs, states, i, f))
  }

  // One door for each request an elevator takes.
  ghost function Doors(reqs: Reqs, states: seq<State>, i: int, f: nat): int
    requires 0 <= i < |states|
  {
    var g := states[i].state.floor;
    if 0 <= g < f && g < |reqs| && Takes(states, i, g) then OpenCalls(reqs[g]) else 0
  }

  lemma FloorExactly(cfg: Config, r: FloorReqs, f: int, states: seq<State>)
    ensures var (up, states1) := OfferAll(cfg, r.up, f, states);
            var (down, states2) := OfferAll(cfg, r.down, f, states1);
            && (if r.up.IsUnassigned() then up.active && IsFirstTaker(states, f, up.assignedTo) else up == r.up)
            && (if r.down.IsUnassigned() then down.active && IsFirstTaker(states, f, down.assignedTo)
                else down == r.down)
            && |states2| == |states|
            && forall i :: 0 <= i < |states| ==>
                 states2[i] == Paid(cfg, states[i], if Takes(states, i, f) then OpenCalls(r) else 0)
  {
    var (up, states1) := OfferAll(cfg, r.up, f, states);
    OfferAllExactly(cfg, r.up, f, states);
    OfferAllExactly(cfg, r.down, f, states1);
    PayingChangesNobody(states, states1, f);
    var (down, states2) := OfferAll(cfg, r.down, f, states1);
    forall i | 0 <= i < |states|
      ensures states2[i] == Paid(cfg, states[i], if Takes(states, i, f) then OpenCalls(r) else 0)
    {
      var door := 1000 * cfg.doorOpenDuration;
      assert door * (Truth(r.up.IsUnassigned()) + Truth(r.down.IsUnassigned())) ==
             door * Truth(r.up.IsUnassigned()) + door * Truth(r.down.IsUnassigned());
    }
  }

  // Exactly what settling everything at once does, whatever is left: each unassigned request goes to the first
  // elevator in clock order that stands free at its floor, which pays one door for each.
  lemma {:induction false} ShortcutExactly(cfg: Config, reqs: Reqs, states: seq<State>, f: nat)
    requires f <= |reqs|
    ensures var (reqs', states') := AssignBelow(cfg, reqs, states, f);
            SettledBelow(reqs, reqs', states, f) && PaidBelow(cfg, reqs, states, states', f)
  {
    if f > 0 {
      var g := f - 1;
      ShortcutExactly(cfg, reqs, states, g);
      var (reqs1, states1) := AssignBelow(cfg, reqs, states, g);
      assert reqs1[g].At(Upward) == reqs[g].At(Upward) && reqs1[g].At(Downward) == reqs[g].At(Downward);
      FloorExactly(cfg, reqs1[g], g, states1);
      PayingChangesNobody(states, states1, g);
      OneMoreFloorPaid(cfg, reqs, states, g);
    }
  }

  lemma OneMoreFloorPaid(cfg: Config, reqs: Reqs, states: seq<State>, g: nat)
    requires g < |reqs|
    ensures forall i :: 0 <= i < |states| ==>
              Paid(cfg, Paid(cfg, states[i], Doors(reqs, states, i, g)),
                   if Takes(states, i, g) then OpenCalls(reqs[g]) else 0) ==
              Paid(cfg, states[i], Doors(reqs, states, i, g + 1))
  {
  }
}
