// Two outstanding results are too many: with at most one at each node the alive nodes always agree, with two they
// need not. In the run below no result is dropped or overtaken; "b" only has its newer views wait in the first of
// the two channels of the original while its older result waits in the second.
module TwoOutstanding {
  import opened ElevatorAlgorithm
  import opened Orders
  import opened Worldviews
  import opened OrderCells
  import opened OrderProtocol
  import opened OrderAgreement

  // ------------------------------------------------------------------------------------------ two nodes

  // Nodes "a" and "b" have these orders for the upward call at the bottom floor and these results for it outstanding;
  // there are no other orders. The car is that of "a"; the one of "b" stands still.
  datatype Pair = Pair(a: Order, b: Order, pa: seq<Order>, pb: seq<Order>, car: CarState)

  function BottomOrders(floors: nat, o: Order): HallOrders {
    seq(floors, f => HallRow(if f == 0 then o else EMPTY_ORDER, EMPTY_ORDER))
  }

  function Car(floors: nat, behaviour: Behaviour, called: bool): CarState {
    CarState(0, Stop, behaviour, seq(floors, f => Calls(f == 0 && called, false, false)), false)
  }

  function Results(floors: nat, results: seq<Order>): seq<HallOrders> {
    seq(|results|, k requires 0 <= k < |results| => BottomOrders(floors, results[k]))
  }

  function View2(floors: nat, id: string, o: Order, car: CarState): Worldview {
    Worldview(id, BottomOrders(floors, o), car, map[], false, false)
  }

  function Both(floors: nat, p: Pair): System {
    System(map["a" := View2(floors, "a", p.a, p.car), "b" := View2(floors, "b", p.b, Car(floors, Idle, false))],
           {"a", "b"}, floors, map["a" := Results(floors, p.pa), "b" := Results(floors, p.pb)])
  }

  lemma BothIsValid(floors: nat, p: Pair)
    requires |p.car.requests| == floors
    ensures ValidSystem(Both(floors, p))
  {
  }

  // One event leads from one pair to another.
  ghost predicate Leads(floors: nat, p: Pair, e: Event, p': Pair) {
    && |p.car.requests| == |p'.car.requests| == floors
    && ValidSystem(Both(floors, p)) && Possible(Both(floors, p), e)
    && After(Both(floors, p), e) == Both(floors, p')
  }

  lemma CallLeads(floors: nat, p: Pair)
    requires |p.car.requests| == floors != 0
    ensures Leads(floors, p, Call("a", 0, ToUp), p.(a := Pressed(p.a)))
    ensures Leads(floors, p, Call("b", 0, ToUp), p.(b := Pressed(p.b)))
  {
    BothIsValid(floors, p);
    assert BottomOrders(floors, p.a)[0 := HallRow(Pressed(p.a), EMPTY_ORDER)] == BottomOrders(floors, Pressed(p.a));
    assert BottomOrders(floors, p.b)[0 := HallRow(Pressed(p.b), EMPTY_ORDER)] == BottomOrders(floors, Pressed(p.b));
  }

  const VISIT := ["a", "b"]

  // What each of the two makes of the current views, at a cell.
  lemma OthersOfTwo(floors: nat, p: Pair, f: nat, d: HallDir)
    requires |p.car.requests| == floors && f < floors
    ensures ValidSystem(Both(floors, p)) && (forall id :: id in VISIT ==> id in View(Both(floors, p)))
    ensures var (a, b) := (BottomOrders(floors, p.a)[f].At(d), BottomOrders(floors, p.b)[f].At(d));
            var views := View(Both(floors, p));
            && OthersAt(views, floors, "a", VISIT, f, d) == [b] && OthersAt(views, floors, "b", VISIT, f, d) == [a]
            && AliveAt(views, floors, f, d) == {a, b}
  {
    BothIsValid(floors, p);
    var views := View(Both(floors, p));
    assert VISIT[..1] == ["a"] && ["a"][..0] == [];
    assert OthersAt(views, floors, "a", [], f, d) == [] && OthersAt(views, floors, "b", [], f, d) == [];
    assert OthersAt(views, floors, "a", ["a"], f, d) == [];
    assert OthersAt(views, floors, "b", ["a"], f, d) == [views["a"].hallOrders[f].At(d)];
    AliveOfTwo(floors, p, f, d);
  }

  lemma AliveOfTwo(floors: nat, p: Pair, f: nat, d: HallDir)
    requires |p.car.requests| == floors && f < floors && ValidSystem(Both(floors, p))
    ensures AliveAt(View(Both(floors, p)), floors, f, d) ==
            {BottomOrders(floors, p.a)[f].At(d), BottomOrders(floors, p.b)[f].At(d)}
  {
    var views := View(Both(floors, p));
    assert views["a"].hallOrders[f].At(d) in AliveAt(views, floors, f, d);
    assert views["b"].hallOrders[f].At(d) in AliveAt(views, floors, f, d);
  }

  lemma FollowOne(mine: Order, peer: Order)
    ensures FollowAll(mine, [peer]) == FollowPeer(mine, peer)
  {
    assert FollowAll(FollowPeer(mine, peer), [peer][1..]) == FollowPeer(mine, peer);
  }

  lemma FreshOrdersOfTwo(floors: nat, p: Pair)
    requires |p.car.requests| == floors
    ensures ValidSystem(Both(floors, p)) && IsTraversal(VISIT, Both(floors, p).nodes.Keys)
    ensures FreshOrders(Both(floors, p), "a", VISIT) == BottomOrders(floors, SyncCell(p.a, {p.a, p.b}, [p.b]))
    ensures FreshOrders(Both(floors, p), "b", VISIT) == BottomOrders(floors, SyncCell(p.b, {p.a, p.b}, [p.a]))
  {
    BothIsValid(floors, p);
    assert Both(floors, p).nodes.Keys == {"a", "b"};
    FollowOne(EMPTY_ORDER, EMPTY_ORDER);
    forall f: nat | f < floors
      ensures FreshOrders(Both(floors, p), "a", VISIT)[f] ==
              BottomOrders(floors, SyncCell(p.a, {p.a, p.b}, [p.b]))[f]
      ensures FreshOrders(Both(floors, p), "b", VISIT)[f] ==
              BottomOrders(floors, SyncCell(p.b, {p.a, p.b}, [p.a]))[f]
    {
      OthersOfTwo(floors, p, f, ToUp);
      OthersOfTwo(floors, p, f, ToDown);
    }
  }

  lemma ResultsGrow(floors: nat, results: seq<Order>, o: Order)
    ensures Results(floors, results) + [BottomOrders(floors, o)] == Results(floors, results + [o])
  {
  }

  // What has to be shown of a change to the results only.
  lemma PendingLeads(floors: nat, p: Pair, e: Event, p': Pair)
    requires |p.car.requests| == floors && ValidSystem(Both(floors, p)) && Possible(Both(floors, p), e)
    requires p' == p.(pa := p'.pa, pb := p'.pb)
    requires var s := Both(floors, p);
             After(s, e) == s.(pending := map["a" := Results(floors, p'.pa), "b" := Results(floors, p'.pb)])
    ensures Leads(floors, p, e, p')
  {
  }

  lemma FirstSnapshotLeads(floors: nat, p: Pair)
    requires |p.car.requests| == floors
    ensures Leads(floors, p, Snapshot("a", VISIT), p.(pa := p.pa + [SyncCell(p.a, {p.a, p.b}, [p.b])]))
  {
    var s, o := Both(floors, p), SyncCell(p.a, {p.a, p.b}, [p.b]);
    FreshOrdersOfTwo(floors, p);
    ResultsGrow(floors, p.pa, o);
    assert s.pending["a" := Results(floors, p.pa + [o])] ==
           map["a" := Results(floors, p.pa + [o]), "b" := Results(floors, p.pb)];
    PendingLeads(floors, p, Snapshot("a", VISIT), p.(pa := p.pa + [o]));
  }

  lemma SecondSnapshotLeads(floors: nat, p: Pair)
    requires |p.car.requests| == floors
    ensures Leads(floors, p, Snapshot("b", VISIT), p.(pb := p.pb + [SyncCell(p.b, {p.a, p.b}, [p.a])]))
  {
    var s, o := Both(floors, p), SyncCell(p.b, {p.a, p.b}, [p.a]);
    FreshOrdersOfTwo(floors, p);
    ResultsGrow(floors, p.pb, o);
    assert s.pending["b" := Results(floors, p.pb + [o])] ==
           map["a" := Results(floors, p.pa), "b" := Results(floors, p.pb + [o])];
    PendingLeads(floors, p, Snapshot("b", VISIT), p.(pb := p.pb + [o]));
  }

  lemma MergeOfTwo(floors: nat, o: Order, sync: Order)
    ensures MergeOrders(BottomOrders(floors, o), BottomOrders(floors, sync)) == BottomOrders(floors, Merge(o, sync))
  {
  }

  lemma FirstMergeLeads(floors: nat, p: Pair)
    requires |p.car.requests| == floors && p.pa != []
    ensures Leads(floors, p, MergeOldest("a"), p.(a := Merge(p.a, p.pa[0]), pa := p.pa[1..]))
  {
    BothIsValid(floors, p);
    MergeOfTwo(floors, p.a, p.pa[0]);
    assert Results(floors, p.pa)[1..] == Results(floors, p.pa[1..]);
  }

  lemma SecondMergeLeads(floors: nat, p: Pair)
    requires |p.car.requests| == floors && p.pb != []
    ensures Leads(floors, p, MergeOldest("b"), p.(b := Merge(p.b, p.pb[0]), pb := p.pb[1..]))
  {
    BothIsValid(floors, p);
    MergeOfTwo(floors, p.b, p.pb[0]);
    assert Results(floors, p.pb)[1..] == Results(floors, p.pb[1..]);
  }

  // The assigner gives the order to "a".
  lemma AssignLeads(floors: nat, p: Pair) returns (e: Event)
    requires |p.car.requests| == floors != 0 && CanAssign(p.a)
    ensures e.Assign? && Leads(floors, p, e, p.(a := Assigned(p.a, "a")))
  {
    BothIsValid(floors, p);
    var assignment := map["a" := seq(floors, f => [f == 0, false])];
    var orders := BottomOrders(floors, Assigned(p.a, "a"));
    e := Assign("a", assignment, orders);
    forall f: nat, d | f < floors
      ensures AssignedCell(BottomOrders(floors, p.a)[f].At(d), orders[f].At(d), assignment, f, d)
    {
      if f == 0 && d == ToUp { assert Names(assignment, "a", f, d); }
    }
  }

  // The elevator of "a" reports that it has been called, or that it has opened its door and served the call.
  lemma ReportLeads(floors: nat, p: Pair)
    requires |p.car.requests| == floors != 0
    ensures p.car == Car(floors, Idle, false) ==>
              Leads(floors, p, Report("a", Car(floors, Idle, true)), p.(car := Car(floors, Idle, true)))
    ensures p.car == Car(floors, Idle, true) ==>
              Leads(floors, p, Report("a", Car(floors, DoorOpen, false)),
                    p.(a := Served(p.a), car := Car(floors, DoorOpen, false)))
  {
    BothIsValid(floors, p);
    var called, open := Car(floors, Idle, true), Car(floors, DoorOpen, false);
    if p.car == Car(floors, Idle, false) {
      assert ReportedOrders(BottomOrders(floors, p.a), p.car, called, "a") == BottomOrders(floors, p.a);
    }
    if p.car == called {
      assert ReportedOrders(BottomOrders(floors, p.a), p.car, open, "a") == BottomOrders(floors, Served(p.a));
    }
  }

  // ------------------------------------------------------------------------------------------ runs

  lemma {:induction false} RunOneMore(s: System, evs: seq<Event>, e: Event)
    requires ValidSystem(s) && CanRun(s, evs) && ValidSystem(Run(s, evs)) && Possible(Run(s, evs), e)
    ensures CanRun(s, evs + [e]) && Run(s, evs + [e]) == After(Run(s, evs), e)
    decreases |evs|
  {
    var all := evs + [e];
    if evs == [] {
      assert all == [e] && all[1..] == [];
    } else {
      AfterIsValid(s, evs[0]);
      RunOneMore(After(s, evs[0]), evs[1..], e);
      assert all[0] == evs[0] && all[1..] == evs[1..] + [e];
    }
  }

  lemma {:induction false} AtMostOneMore(s: System, evs: seq<Event>, k: nat, e: Event)
    requires ValidSystem(s) && CanRun(s, evs) && AtMostThroughout(s, evs, k)
    requires CanRun(s, evs + [e]) && ValidSystem(Run(s, evs + [e])) && AtMost(Run(s, evs + [e]), k)
    ensures AtMostThroughout(s, evs + [e], k)
    decreases |evs|
  {
    var all := evs + [e];
    if evs == [] {
      assert all == [e] && all[1..] == [];
      AfterIsValid(s, e);
      assert Run(s, all) == Run(After(s, e), []) == After(s, e);
      assert AtMostThroughout(After(s, e), [], k);
    } else {
      AfterIsValid(s, evs[0]);
      assert all[0] == evs[0] && all[1..] == evs[1..] + [e];
      AtMostOneMore(After(s, evs[0]), evs[1..], k, e);
    }
  }

  function Begin(floors: nat): Pair {
    Pair(EMPTY_ORDER, EMPTY_ORDER, [], [], Car(floors, Idle, false))
  }

  // A run with at most two results outstanding leads from no orders to this pair.
  ghost predicate Reached(floors: nat, p: Pair) {
    && floors != 0 && |p.car.requests| == floors && ValidSystem(Both(floors, Begin(floors)))
    && exists evs :: RunsTo(floors, evs, p)
  }

  ghost predicate RunsTo(floors: nat, evs: seq<Event>, p: Pair)
    requires ValidSystem(Both(floors, Begin(floors)))
  {
    var s := Both(floors, Begin(floors));
    CanRun(s, evs) && AtMostThroughout(s, evs, 2) && Run(s, evs) == Both(floors, p)
  }

  lemma ReachedNext(floors: nat, p: Pair, e: Event, p': Pair)
    requires Reached(floors, p) && Leads(floors, p, e, p') && |p'.pa| <= 2 && |p'.pb| <= 2
    ensures Reached(floors, p')
  {
    var evs :| RunsTo(floors, evs, p);
    BothIsAtMost(floors, p', 2);
    RunsOneFurther(floors, evs, p, e, p');
  }

  lemma BothIsAtMost(floors: nat, p: Pair, k: nat)
    requires |p.car.requests| == floors && |p.pa| <= k && |p.pb| <= k
    ensures ValidSystem(Both(floors, p)) && AtMost(Both(floors, p), k)
  {
    BothIsValid(floors, p);
  }

  lemma RunsOneFurther(floors: nat, evs: seq<Event>, p: Pair, e: Event, p': Pair)
    requires ValidSystem(Both(floors, Begin(floors))) && RunsTo(floors, evs, p) && Leads(floors, p, e, p')
    requires ValidSystem(Both(floors, p')) && AtMost(Both(floors, p'), 2)
    ensures RunsTo(floors, evs + [e], p')
  {
    var s := Both(floors, Begin(floors));
    RunOneMore(s, evs, e);
    AtMostOneMore(s, evs, 2, e);
  }

  lemma BeginIsReached(floors: nat)
    requires floors != 0
    ensures Reached(floors, Begin(floors)) && IsStart(Both(floors, Begin(floors)))
  {
    BothIsValid(floors, Begin(floors));
    assert RunsTo(floors, [], Begin(floors));
  }

  lemma CallsA(floors: nat, p: Pair, p': Pair)
    requires Reached(floors, p) && p' == p.(a := Pressed(p.a)) && |p.pa| <= 2 && |p.pb| <= 2
    ensures Reached(floors, p')
  {
    CallLeads(floors, p);
    ReachedNext(floors, p, Call("a", 0, ToUp), p');
  }

  lemma CallsB(floors: nat, p: Pair, p': Pair)
    requires Reached(floors, p) && p' == p.(b := Pressed(p.b)) && |p.pa| <= 2 && |p.pb| <= 2
    ensures Reached(floors, p')
  {
    CallLeads(floors, p);
    ReachedNext(floors, p, Call("b", 0, ToUp), p');
  }

  lemma SnapshotsA(floors: nat, p: Pair, p': Pair)
    requires Reached(floors, p) && |p.pa| <= 1 && |p.pb| <= 2
    requires p' == p.(pa := p.pa + [SyncCell(p.a, {p.a, p.b}, [p.b])])
    ensures Reached(floors, p')
  {
    FirstSnapshotLeads(floors, p);
    ReachedNext(floors, p, Snapshot("a", VISIT), p');
  }

  lemma SnapshotsB(floors: nat, p: Pair, p': Pair)
    requires Reached(floors, p) && |p.pa| <= 2 && |p.pb| <= 1
    requires p' == p.(pb := p.pb + [SyncCell(p.b, {p.a, p.b}, [p.a])])
    ensures Reached(floors, p')
  {
    SecondSnapshotLeads(floors, p);
    ReachedNext(floors, p, Snapshot("b", VISIT), p');
  }

  lemma MergesA(floors: nat, p: Pair, p': Pair)
    requires Reached(floors, p) && 1 <= |p.pa| <= 2 && |p.pb| <= 2
    requires p' == p.(a := Merge(p.a, p.pa[0]), pa := p.pa[1..])
    ensures Reached(floors, p')
  {
    FirstMergeLeads(floors, p);
    ReachedNext(floors, p, MergeOldest("a"), p');
  }

  lemma MergesB(floors: nat, p: Pair, p': Pair)
    requires Reached(floors, p) && |p.pa| <= 2 && 1 <= |p.pb| <= 2
    requires p' == p.(b := Merge(p.b, p.pb[0]), pb := p.pb[1..])
    ensures Reached(floors, p')
  {
    SecondMergeLeads(floors, p);
    ReachedNext(floors, p, MergeOldest("b"), p');
  }

  // ------------------------------------------------------------------------------------------ the run

  const CALLED := Order(Unconfirmed, NO_OWNER)
  const CONFIRMED := Order(Confirmed, NO_OWNER)
  const SERVED := Order(DeleteProposed, NO_OWNER)

  const MINE := Order(DeleteProposed, "a")

  // The results the two compute in the run below.
  lemma CalledIsConfirmed()
    ensures SyncCell(CALLED, {CALLED, CALLED}, [CALLED]) == CONFIRMED
  {
    FollowOne(CALLED, CALLED);
  }

  lemma ServedIsFollowed()
    ensures SyncCell(CALLED, {MINE, CALLED}, [MINE]) == SERVED
    ensures SyncCell(CALLED, {CALLED, SERVED}, [SERVED]) == SERVED
  {
    FollowOne(CALLED, MINE);
    FollowOne(CALLED, SERVED);
    assert CALLED in {MINE, CALLED} && CALLED in {CALLED, SERVED};
  }

  lemma ServedStays()
    ensures SyncCell(SERVED, {CALLED, SERVED}, [CALLED]) == SERVED
  {
    FollowOne(SERVED, CALLED);
    assert CALLED in {CALLED, SERVED};
  }

  lemma ServedIsDropped()
    ensures SyncCell(MINE, {MINE, SERVED}, [SERVED]) == EMPTY_ORDER
    ensures SyncCell(SERVED, {EMPTY_ORDER, SERVED}, [EMPTY_ORDER]) == EMPTY_ORDER
    ensures SyncCell(SERVED, {SERVED, SERVED}, [SERVED]) == EMPTY_ORDER
  {
    FollowOne(MINE, SERVED);
    FollowOne(SERVED, EMPTY_ORDER);
    FollowOne(SERVED, SERVED);
  }

  lemma NothingStaysNothing()
    ensures SyncCell(EMPTY_ORDER, {EMPTY_ORDER, EMPTY_ORDER}, [EMPTY_ORDER]) == EMPTY_ORDER
  {
    FollowOne(EMPTY_ORDER, EMPTY_ORDER);
  }

  // Both are called, "a" confirms the order, is assigned it and serves it.
  lemma FirstPart(floors: nat)
    requires floors != 0
    ensures Reached(floors, Pair(MINE, CALLED, [], [], Car(floors, DoorOpen, false)))
  {
    var car := Car(floors, Idle, false);
    var p1, p2 := Begin(floors).(a := CALLED), Begin(floors).(a := CALLED, b := CALLED);
    var p3, p4 := p2.(pa := [CONFIRMED]), p2.(a := CONFIRMED);
    var p5 := p4.(a := CONFIRMED.(ownerId := "a"));
    CalledIsConfirmed();
    BeginIsReached(floors);
    CallsA(floors, Begin(floors), p1);
    CallsB(floors, p1, p2);
    SnapshotsA(floors, p2, p3);
    MergesA(floors, p3, p4);
    var e := AssignLeads(floors, p4);
    ReachedNext(floors, p4, e, p5);
    Serves(floors, p5);
  }

  lemma Serves(floors: nat, p: Pair)
    requires Reached(floors, p) && p.car == Car(floors, Idle, false) && p.pa == p.pb == []
    ensures Reached(floors, p.(a := Served(p.a), car := Car(floors, DoorOpen, false)))
  {
    var called := p.(car := Car(floors, Idle, true));
    ReportLeads(floors, p);
    ReachedNext(floors, p, Report("a", Car(floors, Idle, true)), called);
    ReportLeads(floors, called);
    ReachedNext(floors, called, Report("a", Car(floors, DoorOpen, false)),
                p.(a := Served(p.a), car := Car(floors, DoorOpen, false)));
  }

  // "b" follows, "a" drops the order, and "b" has computed that it will drop it, too.
  lemma SecondPart(floors: nat)
    requires floors != 0
    ensures Reached(floors, Pair(EMPTY_ORDER, SERVED, [], [EMPTY_ORDER], Car(floors, DoorOpen, false)))
  {
    var car := Car(floors, DoorOpen, false);
    var p0, p1 := Pair(MINE, CALLED, [], [], car), Pair(MINE, CALLED, [], [SERVED], car);
    var p2, p3 := Pair(MINE, SERVED, [], [], car), Pair(MINE, SERVED, [EMPTY_ORDER], [], car);
    var p4 := Pair(EMPTY_ORDER, SERVED, [], [], car);
    ServedIsFollowed();
    ServedIsDropped();
    FirstPart(floors);
    SnapshotsB(floors, p0, p1);
    MergesB(floors, p1, p2);
    SnapshotsA(floors, p2, p3);
    MergesA(floors, p3, p4);
    SnapshotsB(floors, p4, p4.(pb := [EMPTY_ORDER]));
  }

  // "a" is called again, and takes what "b" still has for the same order as one that is on its way out.
  lemma ThirdPart(floors: nat)
    requires floors != 0
    ensures Reached(floors, Pair(EMPTY_ORDER, SERVED, [], [EMPTY_ORDER, SERVED], Car(floors, DoorOpen, false)))
  {
    var car := Car(floors, DoorOpen, false);
    var p0 := Pair(EMPTY_ORDER, SERVED, [], [EMPTY_ORDER], car);
    var p1, p2 := p0.(a := CALLED), p0.(a := CALLED, pa := [SERVED]);
    var p3 := p2.(pb := [EMPTY_ORDER, SERVED]);
    var p4, p5 := p3.(a := SERVED, pa := []), p3.(a := SERVED, pa := [EMPTY_ORDER]);
    ServedIsFollowed();
    ServedStays();
    ServedIsDropped();
    SecondPart(floors);
    CallsA(floors, p0, p1);
    SnapshotsA(floors, p1, p2);
    SnapshotsB(floors, p2, p3);
    MergesA(floors, p3, p4);
    SnapshotsA(floors, p4, p5);
    MergesA(floors, p5, Pair(EMPTY_ORDER, SERVED, [], [EMPTY_ORDER, SERVED], car));
  }

  // "b" drops the order, and has two results outstanding that belonged to it.
  lemma FourthPart(floors: nat)
    requires floors != 0
    ensures Reached(floors, Pair(CONFIRMED, CALLED, [], [SERVED, EMPTY_ORDER], Car(floors, DoorOpen, false)))
  {
    var car := Car(floors, DoorOpen, false);
    var p0 := Pair(EMPTY_ORDER, SERVED, [], [EMPTY_ORDER, SERVED], car);
    var p1 := Pair(EMPTY_ORDER, EMPTY_ORDER, [], [SERVED], car);
    var p2 := p1.(pb := [SERVED, EMPTY_ORDER]);
    var p3, p4 := p2.(a := CALLED), p2.(a := CALLED, b := CALLED);
    var p5 := p4.(pa := [CONFIRMED]);
    NothingStaysNothing();
    CalledIsConfirmed();
    ThirdPart(floors);
    MergesB(floors, p0, p1);
    SnapshotsB(floors, p1, p2);
    CallsA(floors, p2, p3);
    CallsB(floors, p3, p4);
    SnapshotsA(floors, p4, p5);
    MergesA(floors, p5, Pair(CONFIRMED, CALLED, [], [SERVED, EMPTY_ORDER], car));
  }

  // While "a" has confirmed the next order, "b" merges them, one after the other, and drops it.
  lemma LastPart(floors: nat)
    requires floors != 0
    ensures Reached(floors, Pair(CONFIRMED, EMPTY_ORDER, [], [], Car(floors, DoorOpen, false)))
  {
    var car := Car(floors, DoorOpen, false);
    var p0 := Pair(CONFIRMED, CALLED, [], [SERVED, EMPTY_ORDER], car);
    var p1 := Pair(CONFIRMED, SERVED, [], [EMPTY_ORDER], car);
    FourthPart(floors);
    MergesB(floors, p0, p1);
    MergesB(floors, p1, Pair(CONFIRMED, EMPTY_ORDER, [], [], car));
  }

  // ------------------------------------------------------------------------------------------ exactly

  // The alive nodes agree on every order after every run from no orders with at most `k` results outstanding at each.
  ghost predicate AlwaysAgree(floors: nat, k: nat) {
    forall s, evs, f: nat, d :: IsStartedRun(s, evs, floors, k) && f < floors ==> AgreeAfter(s, evs, f, d)
  }

  ghost predicate IsStartedRun(s: System, evs: seq<Event>, floors: nat, k: nat) {
    IsStart(s) && s.floors == floors && CanRun(s, evs) && AtMostThroughout(s, evs, k)
  }

  ghost predicate AgreeAfter(s: System, evs: seq<Event>, f: nat, d: HallDir) {
    && ValidSystem(s) && CanRun(s, evs) && ValidSystem(Run(s, evs)) && f < Run(s, evs).floors
    && Agreement(CellsAt(Run(s, evs), f, d))
  }

  lemma TwoOutstandingDisagree(floors: nat) returns (s: System, evs: seq<Event>)
    requires floors != 0
    ensures IsStartedRun(s, evs, floors, 2) && !AgreeAfter(s, evs, 0, ToUp)
  {
    BeginIsReached(floors);
    LastPart(floors);
    var p := Pair(CONFIRMED, EMPTY_ORDER, [], [], Car(floors, DoorOpen, false));
    s := Both(floors, Begin(floors));
    evs :| RunsTo(floors, evs, p);
    BothIsValid(floors, p);
    var cells := CellsAt(Both(floors, p), 0, ToUp);
    assert cells["a"] == CONFIRMED && cells["b"] == EMPTY_ORDER;
  }

  lemma {:induction false} MoreIsAllowed(s: System, evs: seq<Event>, j: nat, k: nat)
    requires ValidSystem(s) && CanRun(s, evs) && AtMostThroughout(s, evs, j) && j <= k
    ensures AtMostThroughout(s, evs, k)
    decreases |evs|
  {
    if evs != [] {
      AfterIsValid(s, evs[0]);
      MoreIsAllowed(After(s, evs[0]), evs[1..], j, k);
    }
  }

  // Exactly how many results each node may have outstanding for the alive nodes to agree in every run: one.
  lemma AgreementExactly(floors: nat, k: nat)
    requires floors != 0
    ensures AlwaysAgree(floors, k) <==> k <= 1
  {
    if k <= 1 {
      forall s, evs, f: nat, d | IsStartedRun(s, evs, floors, k) && f < floors
        ensures AgreeAfter(s, evs, f, d)
      {
        MoreIsAllowed(s, evs, k, 1);
        OneOutstandingAgrees(s, evs, f, d);
      }
    } else {
      var s, evs := TwoOutstandingDisagree(floors);
      MoreIsAllowed(s, evs, 2, k);
    }
  }
}
