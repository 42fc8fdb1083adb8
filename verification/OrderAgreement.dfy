// Agreement of the alive nodes over whole runs, when no node ever has two synchronisation results outstanding.
module OrderAgreement {
  import opened Orders
  import opened Worldviews
  import opened OrderCells
  import opened OrderPending
  import opened OrderProtocol

  // No alive node has more than `k` results outstanding.
  ghost predicate AtMost(s: System, k: nat)
    requires ValidSystem(s)
  {
    forall id :: id in s.alive ==> |s.pending[id]| <= k
  }

  ghost predicate AtMostThroughout(s: System, evs: seq<Event>, k: nat)
    requires ValidSystem(s) && CanRun(s, evs)
    decreases |evs|
  {
    && AtMost(s, k)
    && (evs != [] ==> (AfterIsValid(s, evs[0]); AtMostThroughout(After(s, evs[0]), evs[1..], k)))
  }

  type AllResults = map<string, seq<HallOrders>>

  // All results have a row for each floor up to `f` at least.
  ghost predicate Reaches(results: AllResults, alive: set<string>, f: nat) {
    forall id :: id in alive ==> id in results && forall k :: 0 <= k < |results[id]| ==> f < |results[id][k]|
  }

  // The oldest result of each alive node for one order.
  ghost function OldestAt(results: AllResults, alive: set<string>, f: nat, d: HallDir): Pending
    requires Reaches(results, alive, f)
  {
    map id | id in alive && results[id] != [] :: results[id][0][f].At(d)
  }

  ghost function PendingAt(s: System, f: nat, d: HallDir): Pending
    requires ValidSystem(s) && f < s.floors
  {
    OldestAt(s.pending, s.alive, f, d)
  }

  ghost predicate WillAgreeAt(s: System, f: nat, d: HallDir)
    requires ValidSystem(s) && f < s.floors
  {
    WillAgree(CellsAt(s, f, d), PendingAt(s, f, d))
  }

  // ------------------------------------------------------------------------------------------ the events, at each cell

  // A valid system in which the alive nodes have the order, and oldest results for it, as given.
  ghost predicate Shows(s: System, floors: nat, f: nat, d: HallDir, cells: Cells, pending: Pending) {
    ValidSystem(s) && s.floors == floors && f < floors && CellsAt(s, f, d) == cells && PendingAt(s, f, d) == pending
  }

  lemma LocalEventAt(s: System, e: Event, f: nat, d: HallDir)
    requires ValidSystem(s) && Possible(s, e) && IsLocal(e) && f < s.floors
    ensures Shows(After(s, e), s.floors, f, d,
                  CellsAt(s, f, d)[e.node := NodeAfter(s, e).hallOrders[f].At(d)], PendingAt(s, f, d))
  {
    var t := After(s, e);
    AfterIsValid(s, e);
    assert s.alive + {e.node} == s.alive;
    NodeCellsAt(s, t, e.node, NodeAfter(s, e), f, d);
    SamePending(s, t, f, d);
  }

  lemma LocalEventKeeps(s: System, e: Event, f: nat, d: HallDir)
    requires ValidSystem(s) && Possible(s, e) && IsLocal(e) && f < s.floors && WillAgreeAt(s, f, d)
    ensures ValidSystem(After(s, e)) && After(s, e).floors == s.floors && WillAgreeAt(After(s, e), f, d)
  {
    LocalEventsAreLocal(s, e, f, d);
    LocalMoveKeepsWillAgree(CellsAt(s, f, d), PendingAt(s, f, d), e.node, NodeAfter(s, e).hallOrders[f].At(d));
    LocalEventAt(s, e, f, d);
  }

  // The results of one node are replaced by at most one.
  lemma PendingChangeAt(s: System, node: string, results: seq<HallOrders>, f: nat, d: HallDir)
    requires ValidSystem(s) && node in s.alive && f < s.floors
    requires forall k :: 0 <= k < |results| ==> |results[k]| == s.floors
    ensures Shows(s.(pending := s.pending[node := results]), s.floors, f, d, CellsAt(s, f, d),
                  if results == [] then PendingAt(s, f, d) - {node}
                  else PendingAt(s, f, d)[node := results[0][f].At(d)])
  {
    var t := s.(pending := s.pending[node := results]);
    PendingIsValid(s, node, results);
    SameCells(s, t, f, d);
    if results == [] {
      ResetAt(s.pending, s.alive, t.alive, node, f, d);
    } else {
      SetAt(s.pending, s.alive, node, results, f, d);
    }
  }

  lemma SameCells(s: System, t: System, f: nat, d: HallDir)
    requires ValidSystem(s) && ValidSystem(t) && t.nodes == s.nodes && t.alive == s.alive && t.floors == s.floors
    requires f < s.floors
    ensures CellsAt(t, f, d) == CellsAt(s, f, d)
  {
  }

  lemma ResetAt(results: AllResults, alive: set<string>, alive': set<string>, node: string, f: nat, d: HallDir)
    requires Reaches(results, alive, f) && Reaches(results[node := []], alive', f)
    requires forall id :: id != node ==> (id in alive' <==> id in alive)
    ensures OldestAt(results[node := []], alive', f, d) == OldestAt(results, alive, f, d) - {node}
  {
    var before, after := OldestAt(results, alive, f, d) - {node}, OldestAt(results[node := []], alive', f, d);
    assert after.Keys == before.Keys;
  }

  lemma SetAt(results: AllResults, alive: set<string>, node: string, latest: seq<HallOrders>, f: nat, d: HallDir)
    requires Reaches(results, alive, f) && node in alive && latest != []
    requires forall k :: 0 <= k < |latest| ==> f < |latest[k]|
    ensures Reaches(results[node := latest], alive, f)
    ensures OldestAt(results[node := latest], alive, f, d) == OldestAt(results, alive, f, d)[node := latest[0][f].At(d)]
  {
  }

  lemma SamePending(s: System, t: System, f: nat, d: HallDir)
    requires ValidSystem(s) && ValidSystem(t) && t.pending == s.pending && t.alive == s.alive && t.floors == s.floors
    requires f < s.floors
    ensures PendingAt(t, f, d) == PendingAt(s, f, d)
  {
  }

  lemma NodeCellsAt(s: System, t: System, node: string, wv: Worldview, f: nat, d: HallDir)
    requires ValidSystem(s) && ValidSystem(t) && t.floors == s.floors && f < s.floors
    requires t.nodes == s.nodes[node := wv] && t.alive == s.alive + {node}
    ensures |wv.hallOrders| == s.floors && CellsAt(t, f, d) == CellsAt(s, f, d)[node := wv.hallOrders[f].At(d)]
  {
    assert ShapedWorldview(t.nodes[node], t.floors);
  }

  lemma SnapshotAt(s: System, node: string, visit: seq<string>, f: nat, d: HallDir) returns (others: seq<Order>)
    requires ValidSystem(s) && Possible(s, Snapshot(node, visit)) && f < s.floors && s.pending[node] == []
    ensures ArePeers(CellsAt(s, f, d), node, others) && node !in PendingAt(s, f, d)
    ensures var cells := CellsAt(s, f, d);
            Shows(After(s, Snapshot(node, visit)), s.floors, f, d, cells,
                  PendingAt(s, f, d)[node := SyncCell(cells[node], cells.Values, others)])
  {
    others := FreshOrdersAt(s, node, visit, f, d);
    SnapshotShows(s, node, visit, f, d);
  }

  lemma SnapshotShows(s: System, node: string, visit: seq<string>, f: nat, d: HallDir)
    requires ValidSystem(s) && Possible(s, Snapshot(node, visit)) && f < s.floors && s.pending[node] == []
    ensures node !in PendingAt(s, f, d)
    ensures Shows(After(s, Snapshot(node, visit)), s.floors, f, d, CellsAt(s, f, d),
                  PendingAt(s, f, d)[node := FreshOrders(s, node, visit)[f].At(d)])
  {
    var orders := FreshOrders(s, node, visit);
    assert s.pending[node] + [orders] == [orders];
    PendingChangeAt(s, node, [orders], f, d);
  }

  lemma SnapshotKeeps(s: System, node: string, visit: seq<string>, f: nat, d: HallDir)
    requires ValidSystem(s) && Possible(s, Snapshot(node, visit)) && f < s.floors && WillAgreeAt(s, f, d)
    requires s.pending[node] == []
    ensures var t := After(s, Snapshot(node, visit));
            ValidSystem(t) && t.floors == s.floors && WillAgreeAt(t, f, d)
  {
    var others := SnapshotAt(s, node, visit, f, d);
    SnapshotKeepsWillAgree(CellsAt(s, f, d), PendingAt(s, f, d), node, others);
  }

  lemma MergeKeeps(s: System, node: string, f: nat, d: HallDir)
    requires ValidSystem(s) && Possible(s, MergeOldest(node)) && f < s.floors && WillAgreeAt(s, f, d)
    requires |s.pending[node]| == 1
    ensures var t := After(s, MergeOldest(node));
            ValidSystem(t) && t.floors == s.floors && WillAgreeAt(t, f, d)
  {
    MergeKeepsWillAgree(CellsAt(s, f, d), PendingAt(s, f, d), node);
    MergeOldestAt(s, node, f, d);
  }

  lemma MergeOldestAt(s: System, node: string, f: nat, d: HallDir)
    requires ValidSystem(s) && Possible(s, MergeOldest(node)) && f < s.floors && |s.pending[node]| == 1
    ensures node in PendingAt(s, f, d)
    ensures Shows(After(s, MergeOldest(node)), s.floors, f, d,
                  CellsAt(s, f, d)[node := Merge(CellsAt(s, f, d)[node], PendingAt(s, f, d)[node])],
                  PendingAt(s, f, d) - {node})
  {
    MergeShows(s, node, s.pending[node][0], f, d);
    assert s.pending[node][1..] == [];
    PendingChangeAt(AfterMerge(s, node, s.pending[node][0]), node, [], f, d);
  }

  lemma MergeShows(s: System, node: string, synced: HallOrders, f: nat, d: HallDir)
    requires ValidSystem(s) && node in s.alive && |synced| == s.floors && f < s.floors
    ensures Shows(AfterMerge(s, node, synced), s.floors, f, d,
                  CellsAt(s, f, d)[node := Merge(CellsAt(s, f, d)[node], synced[f].At(d))], PendingAt(s, f, d))
  {
    MergeAt(s, node, synced, f, d);
    SamePending(s, AfterMerge(s, node, synced), f, d);
  }

  lemma DropKeeps(s: System, node: string, k: nat, f: nat, d: HallDir)
    requires ValidSystem(s) && Possible(s, Drop(node, k)) && f < s.floors && WillAgreeAt(s, f, d)
    requires |s.pending[node]| == 1
    ensures var t := After(s, Drop(node, k));
            ValidSystem(t) && t.floors == s.floors && WillAgreeAt(t, f, d)
  {
    DropKeepsWillAgree(CellsAt(s, f, d), PendingAt(s, f, d), node);
    assert s.pending[node][..k] + s.pending[node][k + 1..] == [];
    PendingChangeAt(s, node, [], f, d);
  }

  lemma LeaveAt(s: System, node: string, f: nat, d: HallDir)
    requires ValidSystem(s) && Possible(s, Leave(node)) && f < s.floors
    ensures Shows(After(s, Leave(node)), s.floors, f, d, CellsAt(s, f, d) - {node}, PendingAt(s, f, d) - {node})
  {
    AfterIsValid(s, Leave(node));
  }

  lemma LeaveKeeps(s: System, node: string, f: nat, d: HallDir)
    requires ValidSystem(s) && Possible(s, Leave(node)) && f < s.floors && WillAgreeAt(s, f, d)
    ensures var t := After(s, Leave(node));
            ValidSystem(t) && t.floors == s.floors && WillAgreeAt(t, f, d)
  {
    LeaveKeepsWillAgree(CellsAt(s, f, d), PendingAt(s, f, d), node);
    LeaveAt(s, node, f, d);
  }

  lemma JoinAt(s: System, e: Event, f: nat, d: HallDir)
    requires ValidSystem(s) && Possible(s, e) && e.Join? && f < s.floors
    ensures Shows(After(s, e), s.floors, f, d, CellsAt(s, f, d)[e.node := e.wv.hallOrders[f].At(d)],
                  PendingAt(s, f, d) - {e.node})
  {
    var t := After(s, e);
    AfterIsValid(s, e);
    NodeCellsAt(s, t, e.node, e.wv, f, d);
    ResetAt(s.pending, s.alive, t.alive, e.node, f, d);
  }

  lemma JoinKeeps(s: System, e: Event, f: nat, d: HallDir)
    requires ValidSystem(s) && Possible(s, e) && e.Join? && f < s.floors && WillAgreeAt(s, f, d)
    ensures ValidSystem(After(s, e)) && After(s, e).floors == s.floors && WillAgreeAt(After(s, e), f, d)
  {
    var cells, o := CellsAt(s, f, d), e.wv.hallOrders[f].At(d);
    if s.alive == {} {
      assert cells == map[];
    } else {
      assert e.from in cells && cells[e.from] == o;
    }
    CopyKeepsWillAgree(cells, PendingAt(s, f, d), e.node, o);
    JoinAt(s, e, f, d);
  }

  lemma SyncKeeps(s: System, node: string, visit: seq<string>, f: nat, d: HallDir)
    requires ValidSystem(s) && Possible(s, Sync(node, visit)) && f < s.floors && WillAgreeAt(s, f, d)
    ensures var t := After(s, Sync(node, visit));
            ValidSystem(t) && t.floors == s.floors && WillAgreeAt(t, f, d)
  {
    SyncIsSnapshotAndMerge(s, node, visit);
    SnapshotKeeps(s, node, visit, f, d);
    MergeKeeps(After(s, Snapshot(node, visit)), node, f, d);
  }

  lemma EventKeeps(s: System, e: Event, f: nat, d: HallDir)
    requires ValidSystem(s) && Possible(s, e) && f < s.floors && WillAgreeAt(s, f, d) && AtMost(s, 1)
    requires ValidSystem(After(s, e)) && AtMost(After(s, e), 1)
    ensures After(s, e).floors == s.floors && WillAgreeAt(After(s, e), f, d)
  {
    match e
    case Snapshot(node, visit) =>
      assert |After(s, e).pending[node]| <= 1;
      SnapshotKeeps(s, node, visit, f, d);
    case MergeOldest(node) => MergeKeeps(s, node, f, d);
    case Drop(node, k) => DropKeeps(s, node, k, f, d);
    case Sync(node, visit) => SyncKeeps(s, node, visit, f, d);
    case Leave(node) => LeaveKeeps(s, node, f, d);
    case Join(_, _, _) => JoinKeeps(s, e, f, d);
    case _ => LocalEventKeeps(s, e, f, d);
  }

  // ------------------------------------------------------------------------------------------ runs

  lemma {:induction false} RunKeeps(s: System, evs: seq<Event>, f: nat, d: HallDir)
    requires ValidSystem(s) && CanRun(s, evs) && AtMostThroughout(s, evs, 1) && f < s.floors && WillAgreeAt(s, f, d)
    ensures ValidSystem(Run(s, evs)) && Run(s, evs).floors == s.floors && WillAgreeAt(Run(s, evs), f, d)
    decreases |evs|
  {
    if evs != [] {
      AfterIsValid(s, evs[0]);
      EventKeeps(s, evs[0], f, d);
      RunKeeps(After(s, evs[0]), evs[1..], f, d);
    }
  }

  // Nobody has any order, and no result is outstanding.
  ghost predicate IsStart(s: System) {
    && ValidSystem(s)
    && (forall id, f: nat, d :: id in s.nodes && f < s.floors ==> s.nodes[id].hallOrders[f].At(d) == EMPTY_ORDER)
    && forall id :: id in s.pending ==> s.pending[id] == []
  }

  // From a system without orders, and with at most one result outstanding at each node, no run of any number of nodes
  // ever has an order Confirmed at one alive node and None at another: whatever happens between a snapshot and the
  // merge of its result, whatever order the peers are met in, and whoever leaves and joins.
  lemma NoConfirmedWhileNone(s: System, evs: seq<Event>, f: nat, d: HallDir, a: string, b: string)
    requires IsStart(s) && CanRun(s, evs) && AtMostThroughout(s, evs, 1) && f < s.floors
    requires a in Run(s, evs).alive && b in Run(s, evs).alive
    ensures var t := Run(s, evs);
            && ValidSystem(t) && t.floors == s.floors
            && !(t.nodes[a].hallOrders[f].At(d).syncState == Confirmed &&
                 t.nodes[b].hallOrders[f].At(d).syncState == None)
  {
    RunIsValid(s, evs);
    OneOutstandingAgrees(s, evs, f, d);
    var cells := CellsAt(Run(s, evs), f, d);
    assert a in cells && b in cells;
  }

  lemma OneOutstandingAgrees(s: System, evs: seq<Event>, f: nat, d: HallDir)
    requires IsStart(s) && CanRun(s, evs) && AtMostThroughout(s, evs, 1) && f < s.floors
    ensures ValidSystem(Run(s, evs)) && Run(s, evs).floors == s.floors && Agreement(CellsAt(Run(s, evs), f, d))
  {
    assert PendingAt(s, f, d) == map[];
    NobodyToBegin(CellsAt(s, f, d), PendingAt(s, f, d));
    RunKeeps(s, evs, f, d);
  }
}
