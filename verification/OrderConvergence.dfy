// Convergence of the whole system, when the alive nodes only synchronise.
module OrderConvergence {
  import opened Worldviews
  import opened OrderCells
  import opened OrderRounds
  import opened OrderProtocol
  import opened Orders
  import opened SyncOutcome

  ghost predicate OnlySyncs(evs: seq<Event>) {
    forall k :: 0 <= k < |evs| ==> evs[k].Sync?
  }

  ghost function NodesOf(evs: seq<Event>): (nodes: seq<string>) {
    seq(|evs|, k requires 0 <= k < |evs| => evs[k].node)
  }

  // In one round every alive node synchronises and merges at least once, in any order, and nothing else happens.
  ghost predicate IsRoundOf(s: System, evs: seq<Event>) {
    OnlySyncs(evs) && forall id :: id in s.alive ==> id in NodesOf(evs)
  }

  lemma SyncIsSyncStep(s: System, e: Event, f: nat, d: HallDir) returns (o': Order)
    requires ValidSystem(s) && Possible(s, e) && e.Sync? && f < s.floors
    ensures var t := After(s, e);
            && ValidSystem(t) && t.floors == s.floors && SyncMove(CellsAt(s, f, d), e.node, o')
            && CellsAt(t, f, d) == CellsAt(s, f, d)[e.node := o']
  {
    o' := After(s, e).nodes[e.node].hallOrders[f].At(d);
    SyncIsSyncMove(s, e, f, d);
    MergeAt(s, e.node, FreshOrders(s, e.node, e.visit), f, d);
  }

  lemma FirstSync(cells: Cells, evs: seq<Event>, o': Order, between: Cells, cells': Cells)
    requires evs != [] && SyncMove(cells, evs[0].node, o') && between == cells[evs[0].node := o']
    requires SyncRun(between, NodesOf(evs[1..]), cells')
    ensures SyncRun(cells, NodesOf(evs), cells')
  {
    assert NodesOf(evs) == [evs[0].node] + NodesOf(evs[1..]);
    SyncRunPrepends(cells, evs[0].node, o', NodesOf(evs[1..]), cells');
  }

  lemma SyncRunStep(s: System, evs: seq<Event>, f: nat, d: HallDir, t: System)
    requires ValidSystem(s) && f < s.floors && evs != [] && Possible(s, evs[0]) && evs[0].Sync?
    requires ValidSystem(t) && t.floors == s.floors
    requires ValidSystem(After(s, evs[0])) && After(s, evs[0]).floors == s.floors
    requires SyncRun(CellsAt(After(s, evs[0]), f, d), NodesOf(evs[1..]), CellsAt(t, f, d))
    ensures SyncRun(CellsAt(s, f, d), NodesOf(evs), CellsAt(t, f, d))
  {
    var o' := SyncIsSyncStep(s, evs[0], f, d);
    FirstSync(CellsAt(s, f, d), evs, o', CellsAt(After(s, evs[0]), f, d), CellsAt(t, f, d));
  }

  // A run of synchronisations is one at every cell.
  lemma {:induction false} SyncsAreSyncRun(s: System, evs: seq<Event>, f: nat, d: HallDir)
    requires ValidSystem(s) && CanRun(s, evs) && OnlySyncs(evs) && f < s.floors
    ensures ValidSystem(Run(s, evs)) && Run(s, evs).floors == s.floors
    ensures SyncRun(CellsAt(s, f, d), NodesOf(evs), CellsAt(Run(s, evs), f, d))
    decreases |evs|
  {
    if evs != [] {
      AfterIsValid(s, evs[0]);
      SyncsAreSyncRun(After(s, evs[0]), evs[1..], f, d);
      SyncRunStep(s, evs, f, d, Run(s, evs));
    }
  }

  // What two rounds do to a system.
  ghost predicate TwoRounds(s: System, round1: seq<Event>, round2: seq<Event>, t: System) {
    && ValidSystem(s) && CanRun(s, round1) && IsRoundOf(s, round1)
    && var r := Run(s, round1);
    && ValidSystem(r) && CanRun(r, round2) && IsRoundOf(s, round2)
    && t == Run(r, round2)
  }

  lemma RoundsAreSyncRuns(s: System, round1: seq<Event>, round2: seq<Event>, t: System, f: nat, d: HallDir)
    returns (between: Cells)
    requires TwoRounds(s, round1, round2, t) && f < s.floors
    ensures ValidSystem(t) && t.alive == s.alive && t.floors == s.floors
    ensures IsRound(CellsAt(s, f, d), NodesOf(round1)) && IsRound(CellsAt(s, f, d), NodesOf(round2))
    ensures SyncRun(CellsAt(s, f, d), NodesOf(round1), between)
    ensures SyncRun(between, NodesOf(round2), CellsAt(t, f, d))
  {
    RunIsValid(s, round1);
    RunIsValid(Run(s, round1), round2);
    SyncsAreSyncRun(s, round1, f, d);
    SyncsAreSyncRun(Run(s, round1), round2, f, d);
    between := CellsAt(Run(s, round1), f, d);
  }

  // An order that at least one alive node knows about and none has served is confirmed everywhere after two rounds.
  lemma TwoRoundsConfirm(s: System, round1: seq<Event>, round2: seq<Event>, t: System, f: nat, d: HallDir)
    requires TwoRounds(s, round1, round2, t) && f < s.floors && Rising(CellsAt(s, f, d))
    ensures ValidSystem(t) && t.alive == s.alive && t.floors == s.floors
    ensures forall id :: id in s.alive ==> CellsAt(t, f, d)[id].syncState == Confirmed
  {
    var between := RoundsAreSyncRuns(s, round1, round2, t, f, d);
    TwoRoundsConfirmCells(CellsAt(s, f, d), NodesOf(round1), between, NodesOf(round2), CellsAt(t, f, d));
  }

  // An order that every alive node knows about and at least one proposes to delete, or that all propose to delete or
  // have dropped, is gone everywhere after two rounds.
  lemma TwoRoundsDelete(s: System, round1: seq<Event>, round2: seq<Event>, t: System, f: nat, d: HallDir)
    requires TwoRounds(s, round1, round2, t) && f < s.floors && Falling(CellsAt(s, f, d))
    ensures ValidSystem(t) && t.alive == s.alive && t.floors == s.floors
    ensures forall id :: id in s.alive ==> CellsAt(t, f, d)[id].syncState == None
  {
    var between := RoundsAreSyncRuns(s, round1, round2, t, f, d);
    TwoRoundsDeleteCells(CellsAt(s, f, d), NodesOf(round1), between, NodesOf(round2), CellsAt(t, f, d));
  }

  // A node that synchronises gives up an order it has confirmed as soon as any alive node has it marked.
  lemma SyncSpreadsMark(s: System, e: Event, f: nat, d: HallDir, id: string)
    requires ValidSystem(s) && Possible(s, e) && e.Sync? && f < s.floors && id in s.alive
    requires s.nodes[id].hallOrders[f].At(d) == ORPHAN_ORDER
    requires s.nodes[e.node].hallOrders[f].At(d).syncState == Confirmed
    ensures var t := After(s, e);
            ValidSystem(t) && t.floors == s.floors && t.nodes[e.node].hallOrders[f].At(d) == ORPHAN_ORDER
  {
    var cells := CellsAt(s, f, d);
    SyncIsSyncMove(s, e, f, d);
    AfterIsValid(s, e);
    assert cells[id] in cells.Values;
    var others: seq<Order> :| ArePeers(cells, e.node, others) &&
      After(s, e).nodes[e.node].hallOrders[f].At(d) == Synced(cells, e.node, others);
    MarkReachesEverySync(cells, e.node, others);
  }
}
