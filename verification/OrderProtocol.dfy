// All nodes together: the system of their worldviews, and of the synchronisation results that each of them has
// computed, or is about to compute from views it has already passed on, and has not merged yet.
module OrderProtocol {
  import opened Orders
  import opened Worldviews
  import opened OrderCells

  // Every node's own worldview, and its outstanding results, oldest first.
  datatype System = System(nodes: Views, alive: set<string>, floors: nat, pending: map<string, seq<HallOrders>>)

  // What happens at a node: a report of its own elevator, the worldview of an alive peer, the loss of a peer, a hall
  // button, an assignment that resolves to new orders, and the three stages of a synchronisation. The current views
  // are passed on; the oldest result is merged; or a result is dropped, because a newer one takes its place in one of
  // the channels of the original. `Sync` is a synchronisation with nothing else outstanding or in between.
  // Besides, a node can leave the alive ones, and one can join them.
  datatype Event =
    | Report(node: string, now: CarState)
    | Hear(node: string, peer: string)
    | Lose(node: string, lostId: string)
    | Call(node: string, f: int, d: HallDir)
    | Assign(node: string, assignment: map<string, seq<seq<bool>>>, orders: HallOrders)
    | Snapshot(node: string, visit: seq<string>)
    | MergeOldest(node: string)
    | Drop(node: string, k: nat)
    | Sync(node: string, visit: seq<string>)
    | Leave(node: string)
    | Join(node: string, wv: Worldview, from: string)

  // Nothing but the node's own orders changes, and they change by a local move.
  predicate IsLocal(e: Event) {
    e.Report? || e.Hear? || e.Lose? || e.Call? || e.Assign?
  }

  ghost predicate ValidSystem(s: System) {
    && s.alive <= s.nodes.Keys
    && ShapedViews(s.nodes, s.floors)
    && (forall id :: id in s.nodes ==> RealId(id) && s.nodes[id].idElevator == id)
    && s.pending.Keys == s.nodes.Keys
    && forall id, k :: id in s.pending && 0 <= k < |s.pending[id]| ==> |s.pending[id][k]| == s.floors
  }

  // Every node's view of the others is what they have, and marks exactly those that are not alive as dead.
  ghost function View(s: System): Views {
    map id | id in s.nodes :: s.nodes[id].(dead := id !in s.alive)
  }

  ghost predicate Possible(s: System, e: Event)
    requires ValidSystem(s)
  {
    && (if e.Join? then e.node !in s.alive else e.node in s.alive && e.node in s.nodes)
    && match e
       case Report(_, now) => |now.requests| == s.floors
       case Hear(_, peer) => peer in s.alive && peer in s.nodes && peer != e.node
       case Lose(_, lostId) => RealId(lostId) && lostId != e.node
       case Call(_, _, _) => true
       case Assign(_, assignment, orders) =>
         (forall id :: id in assignment ==> RealId(id)) &&
         AssignedOrders(s.nodes[e.node].hallOrders, orders, assignment)
       case Snapshot(_, visit) => IsTraversal(visit, s.nodes.Keys)
       case MergeOldest(node) => s.pending[node] != []
       case Drop(node, k) => k < |s.pending[node]|
       case Sync(node, visit) => IsTraversal(visit, s.nodes.Keys) && s.pending[node] == []
       case Leave(_) => true
       case Join(node, wv, from) =>
         RealId(node) && wv.idElevator == node && ShapedWorldview(wv, s.floors) && CopiesFrom(s, wv, from)
  }

  // A node that starts up or reconnects takes the hall orders of one of its peers, unless it is alone.
  ghost predicate CopiesFrom(s: System, wv: Worldview, from: string)
    requires ValidSystem(s)
  {
    s.alive == {} || (from in s.alive && wv.hallOrders == s.nodes[from].hallOrders)
  }

  ghost function SyncedOrders(views: Views, floors: nat, myID: string, visit: seq<string>): HallOrders
    requires ShapedViews(views, floors) && myID in views && forall id :: id in visit ==> id in views
  {
    seq(floors, f requires 0 <= f < floors =>
      HallRow(SyncCell(views[myID].hallOrders[f].up, AliveAt(views, floors, f, ToUp),
                       OthersAt(views, floors, myID, visit, f, ToUp)),
              SyncCell(views[myID].hallOrders[f].down, AliveAt(views, floors, f, ToDown),
                       OthersAt(views, floors, myID, visit, f, ToDown))))
  }

  // The method of the original computes exactly this.
  lemma SyncedWithIsSyncedOrders(
    views: Views, floors: nat, myID: string, visit: seq<string>, synced: HallOrders)
    requires ShapedViews(views, floors) && myID in views && SyncedWith(views, floors, myID, visit, synced)
    ensures synced == SyncedOrders(views, floors, myID, visit)
  {
    forall f: nat | f < floors
      ensures synced[f] == SyncedOrders(views, floors, myID, visit)[f]
    {
      assert synced[f].up == synced[f].At(ToUp) && synced[f].down == synced[f].At(ToDown);
      assert views[myID].hallOrders[f].up == views[myID].hallOrders[f].At(ToUp);
      assert views[myID].hallOrders[f].down == views[myID].hallOrders[f].At(ToDown);
    }
  }

  // The orders a node makes of the current views.
  ghost function FreshOrders(s: System, node: string, visit: seq<string>): (orders: HallOrders)
    requires ValidSystem(s) && node in s.nodes && IsTraversal(visit, s.nodes.Keys)
    ensures |orders| == s.floors
  {
    TraversalMeetsKeys(visit, s.nodes.Keys);
    SyncedOrders(View(s), s.floors, node, visit)
  }

  ghost function NodeAfter(s: System, e: Event): Worldview
    requires ValidSystem(s) && Possible(s, e) && IsLocal(e)
  {
    var wv := s.nodes[e.node];
    match e
    case Report(_, now) => AfterReport(wv, now, e.node)
    case Hear(_, peer) => AfterPeer(s.nodes, s.floors, e.node, s.nodes[peer])[e.node]
    case Lose(_, lostId) => AfterLoss(s.nodes, s.floors, e.node, lostId)[e.node]
    case Call(_, f, d) => AfterHallPress(wv, f, d)
    case Assign(_, _, orders) => wv.(hallOrders := orders)
  }

  // The node merges `synced`.
  ghost function AfterMerge(s: System, node: string, synced: HallOrders): System
    requires ValidSystem(s) && node in s.nodes && |synced| == s.floors
  {
    var wv := s.nodes[node];
    s.(nodes := s.nodes[node := wv.(hallOrders := MergeOrders(wv.hallOrders, synced))])
  }

  ghost function After(s: System, e: Event): System
    requires ValidSystem(s) && Possible(s, e)
  {
    match e
    case Snapshot(node, visit) =>
      s.(pending := s.pending[node := s.pending[node] + [FreshOrders(s, node, visit)]])
    case MergeOldest(node) =>
      AfterMerge(s, node, s.pending[node][0]).(pending := s.pending[node := s.pending[node][1..]])
    case Drop(node, k) =>
      s.(pending := s.pending[node := s.pending[node][..k] + s.pending[node][k + 1..]])
    case Sync(node, visit) => AfterMerge(s, node, FreshOrders(s, node, visit))
    case Leave(node) => s.(alive := s.alive - {node})
    case Join(node, wv, _) =>
      s.(nodes := s.nodes[node := wv], alive := s.alive + {node}, pending := s.pending[node := []])
    case _ => s.(nodes := s.nodes[e.node := NodeAfter(s, e)])
  }

  lemma AfterIsValid(s: System, e: Event)
    requires ValidSystem(s) && Possible(s, e)
    ensures ValidSystem(After(s, e)) && After(s, e).floors == s.floors
    ensures !e.Leave? && !e.Join? ==> After(s, e).alive == s.alive
  {
    match e
    case Snapshot(node, visit) =>
      PendingIsValid(s, node, s.pending[node] + [FreshOrders(s, node, visit)]);
    case MergeOldest(node) =>
      MergeIsValid(s, node, s.pending[node][0]);
      PendingIsValid(AfterMerge(s, node, s.pending[node][0]), node, s.pending[node][1..]);
    case Drop(node, k) =>
      PendingIsValid(s, node, s.pending[node][..k] + s.pending[node][k + 1..]);
    case Sync(node, visit) =>
      MergeIsValid(s, node, FreshOrders(s, node, visit));
    case Leave(_) =>
    case Join(node, wv, from) =>
      JoinIsValid(s, node, wv, from);
    case _ =>
      LocalIsValid(s, e);
  }

  lemma PendingIsValid(s: System, node: string, results: seq<HallOrders>)
    requires ValidSystem(s) && node in s.nodes && forall k :: 0 <= k < |results| ==> |results[k]| == s.floors
    ensures ValidSystem(s.(pending := s.pending[node := results]))
  {
  }

  lemma MergeIsValid(s: System, node: string, synced: HallOrders)
    requires ValidSystem(s) && node in s.nodes && |synced| == s.floors
    ensures ValidSystem(AfterMerge(s, node, synced))
  {
  }

  lemma JoinIsValid(s: System, node: string, wv: Worldview, from: string)
    requires ValidSystem(s) && Possible(s, Join(node, wv, from))
    ensures ValidSystem(After(s, Join(node, wv, from)))
  {
  }

  lemma LocalIsValid(s: System, e: Event)
    requires ValidSystem(s) && Possible(s, e) && IsLocal(e)
    ensures ValidSystem(After(s, e))
  {
    var wv := NodeAfter(s, e);
    assert wv.idElevator == e.node && ShapedWorldview(wv, s.floors);
    NodeIsValid(s, e.node, wv);
  }

  lemma NodeIsValid(s: System, node: string, wv: Worldview)
    requires ValidSystem(s) && node in s.nodes && wv.idElevator == node && ShapedWorldview(wv, s.floors)
    ensures ValidSystem(s.(nodes := s.nodes[node := wv]))
  {
  }

  // A synchronisation at once is a snapshot whose result is merged before anything else happens.
  lemma SyncIsSnapshotAndMerge(s: System, node: string, visit: seq<string>)
    requires ValidSystem(s) && Possible(s, Sync(node, visit))
    ensures Possible(s, Snapshot(node, visit))
    ensures var t := After(s, Snapshot(node, visit));
            && ValidSystem(t) && Possible(t, MergeOldest(node))
            && After(t, MergeOldest(node)) == After(s, Sync(node, visit))
  {
    var t, orders := After(s, Snapshot(node, visit)), FreshOrders(s, node, visit);
    AfterIsValid(s, Snapshot(node, visit));
    assert s.pending[node] + [orders] == [orders] && [orders][1..] == s.pending[node];
    PutBack(s.pending, node, [orders]);
    assert AfterMerge(t, node, orders) == AfterMerge(s, node, orders).(pending := t.pending);
  }

  lemma PutBack<K, V>(m: map<K, V>, k: K, v: V)
    requires k in m
    ensures m[k := v][k := m[k]] == m
  {
  }

  // ------------------------------------------------------------------------------------------ cell by cell

  ghost function CellsAt(s: System, f: nat, d: HallDir): Cells
    requires ValidSystem(s) && f < s.floors
  {
    map id | id in s.alive :: s.nodes[id].hallOrders[f].At(d)
  }

  lemma {:induction false} OthersArePeers(s: System, me: string, visit: seq<string>, f: nat, d: HallDir)
    requires ValidSystem(s) && f < s.floors && forall id :: id in visit ==> id in s.nodes
    ensures forall o :: o in OthersAt(View(s), s.floors, me, visit, f, d) <==>
              IsPeerOrder(CellsAt(s, f, d), me, visit, o)
  {
    if visit != [] {
      var cells := CellsAt(s, f, d);
      var last, rest := visit[|visit| - 1], visit[..|visit| - 1];
      var before := OthersAt(View(s), s.floors, me, rest, f, d);
      var all := OthersAt(View(s), s.floors, me, visit, f, d);
      OthersArePeers(s, me, rest, f, d);
      assert all == if last in cells && last != me then before + [cells[last]] else before;
      forall o
        ensures o in all <==> IsPeerOrder(cells, me, visit, o)
      {
        PeerOrderOneMore(cells, me, visit, o);
      }
    }
  }

  ghost predicate IsPeerOrder(cells: Cells, me: string, visit: seq<string>, o: Order) {
    exists id :: id in visit && id in cells && id != me && cells[id] == o
  }

  lemma PeerOrderOneMore(cells: Cells, me: string, visit: seq<string>, o: Order)
    requires visit != []
    ensures var last := visit[|visit| - 1];
            IsPeerOrder(cells, me, visit, o) <==>
              IsPeerOrder(cells, me, visit[..|visit| - 1], o) || (last in cells && last != me && cells[last] == o)
  {
    var last := visit[|visit| - 1];
    assert forall id :: id in visit <==> id == last || id in visit[..|visit| - 1];
  }

  lemma AliveAreCells(s: System, f: nat, d: HallDir)
    requires ValidSystem(s) && f < s.floors
    ensures AliveAt(View(s), s.floors, f, d) == CellsAt(s, f, d).Values
  {
    var cells, views := CellsAt(s, f, d), View(s);
    forall o
      ensures o in AliveAt(views, s.floors, f, d) <==> o in cells.Values
    {
      if o in AliveAt(views, s.floors, f, d) {
        var id :| id in views && !views[id].dead && views[id].hallOrders[f].At(d) == o;
        assert id in cells && cells[id] == o;
      }
      if o in cells.Values {
        var id :| id in cells && cells[id] == o;
        assert id in views && !views[id].dead && views[id].hallOrders[f].At(d) == o;
      }
    }
  }

  // What a node makes of the current views is, at each cell, what it makes of the alive nodes' orders.
  lemma FreshOrdersAt(s: System, node: string, visit: seq<string>, f: nat, d: HallDir) returns (others: seq<Order>)
    requires ValidSystem(s) && node in s.alive && IsTraversal(visit, s.nodes.Keys) && f < s.floors
    ensures var cells := CellsAt(s, f, d);
            && ArePeers(cells, node, others)
            && FreshOrders(s, node, visit)[f].At(d) == SyncCell(cells[node], cells.Values, others)
  {
    TraversalMeetsKeys(visit, s.nodes.Keys);
    others := OthersAt(View(s), s.floors, node, visit, f, d);
    OthersArePeers(s, node, visit, f, d);
    AliveAreCells(s, f, d);
  }

  // A synchronisation event is, at each cell, a synchronisation with up-to-date views.
  lemma SyncIsSyncMove(s: System, e: Event, f: nat, d: HallDir)
    requires ValidSystem(s) && Possible(s, e) && e.Sync? && f < s.floors
    ensures SyncMove(CellsAt(s, f, d), e.node, After(s, e).nodes[e.node].hallOrders[f].At(d))
  {
    var others := FreshOrdersAt(s, e.node, e.visit, f, d);
    assert After(s, e).nodes[e.node].hallOrders[f].At(d) == Synced(CellsAt(s, f, d), e.node, others);
  }

  // Every event but the stages of a synchronisation, leaving and joining is, at each cell, a local move.
  lemma LocalEventsAreLocal(s: System, e: Event, f: nat, d: HallDir)
    requires ValidSystem(s) && Possible(s, e) && IsLocal(e) && f < s.floors
    ensures LocalMove(s.nodes[e.node].hallOrders[f].At(d), NodeAfter(s, e).hallOrders[f].At(d))
  {
    var o := s.nodes[e.node].hallOrders[f].At(d);
    var o' := NodeAfter(s, e).hallOrders[f].At(d);
    match e {
      case Report(_, now) =>
        assert o' == ReportedCell(o, s.nodes[e.node].state, now, f, d, e.node);
      case Hear(_, peer) =>
        assert o' == o || o' == MarkedDead(o, peer);
      case Lose(_, lostId) =>
        assert o' == MarkedDead(o, lostId);
      case Call(_, _, _) =>
      case Assign(_, assignment, orders) =>
        assert AssignedCell(o, o', assignment, f, d);
    }
  }

  // However old the views are, merging what was made of them is, at each cell, a stale synchronisation.
  lemma LateMergeIsStaleMove(
    views: Views, floors: nat, me: string, visit: seq<string>, synced: HallOrders, local: HallOrders,
    f: nat, d: HallDir)
    requires ShapedViews(views, floors) && me in views && SyncedWith(views, floors, me, visit, synced)
    requires |local| == floors && f < floors && WellFormed(views[me].hallOrders[f].At(d))
    ensures |MergeOrders(local, synced)| == floors
    ensures StaleSyncMove(local[f].At(d), MergeOrders(local, synced)[f].At(d))
  {
    var own, alive := views[me].hallOrders[f].At(d), AliveAt(views, floors, f, d);
    assert synced[f].At(d) == SyncCell(own, alive, OthersAt(views, floors, me, visit, f, d));
  }

  // Merging any orders at all, as a node with outdated entries of its peers may, keeps the alive nodes in agreement
  // if and only if it neither confirms what another one does not have nor drops what another one has confirmed.
  lemma AnyMergeKeepsAgreementExactly(s: System, node: string, synced: HallOrders, f: nat, d: HallDir)
    requires ValidSystem(s) && node in s.alive && |synced| == s.floors && f < s.floors
    requires Agreement(CellsAt(s, f, d))
    ensures ValidSystem(AfterMerge(s, node, synced)) && AfterMerge(s, node, synced).floors == s.floors
    ensures Agreement(CellsAt(AfterMerge(s, node, synced), f, d)) <==>
            !BreaksAgreement(CellsAt(s, f, d), node, synced[f].At(d))
  {
    MergeAt(s, node, synced, f, d);
    LateMergeKeepsAgreementExactly(CellsAt(s, f, d), node, synced[f].At(d));
  }

  lemma MergeAt(s: System, node: string, synced: HallOrders, f: nat, d: HallDir)
    requires ValidSystem(s) && node in s.alive && |synced| == s.floors && f < s.floors
    ensures var t := AfterMerge(s, node, synced);
            && ValidSystem(t) && t.floors == s.floors && t.alive == s.alive
            && CellsAt(t, f, d) == CellsAt(s, f, d)[node := Merge(CellsAt(s, f, d)[node], synced[f].At(d))]
  {
  }

  // ------------------------------------------------------------------------------------------ runs

  ghost predicate CanRun(s: System, evs: seq<Event>)
    requires ValidSystem(s)
    decreases |evs|
  {
    evs != [] ==> Possible(s, evs[0]) && (AfterIsValid(s, evs[0]); CanRun(After(s, evs[0]), evs[1..]))
  }

  ghost function Run(s: System, evs: seq<Event>): System
    requires ValidSystem(s) && CanRun(s, evs)
    decreases |evs|
  {
    if evs == [] then s else
      AfterIsValid(s, evs[0]);
      Run(After(s, evs[0]), evs[1..])
  }

  lemma {:induction false} RunIsValid(s: System, evs: seq<Event>)
    requires ValidSystem(s) && CanRun(s, evs)
    ensures ValidSystem(Run(s, evs)) && Run(s, evs).floors == s.floors
    ensures (forall k :: 0 <= k < |evs| ==> evs[k].Sync?) ==> Run(s, evs).alive == s.alive
    decreases |evs|
  {
    if evs != [] {
      AfterIsValid(s, evs[0]);
      RunIsValid(After(s, evs[0]), evs[1..]);
    }
  }
}
