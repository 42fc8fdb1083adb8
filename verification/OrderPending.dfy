// One hall order across all alive nodes, when each of them has at most one synchronisation result outstanding:
// computed from views that were current, but not yet merged.
module OrderPending {
  import opened Orders
  import opened OrderCells

  // The outstanding results, by node.
  type Pending = map<string, Order>

  ghost predicate SomebodyIn(cells: Cells, s: SyncState) {
    exists id :: id in cells && cells[id].syncState == s
  }

  // Merging its outstanding result would make the node confirm the order, or drop it.
  ghost predicate WillConfirm(cells: Cells, pending: Pending, id: string) {
    id in cells && id in pending && ConfirmsLate(cells[id], pending[id])
  }

  ghost predicate WillDrop(cells: Cells, pending: Pending, id: string) {
    id in cells && id in pending && DropsLate(cells[id], pending[id])
  }

  // A result never confirms an order its node does not have, nor drops one its node has confirmed.
  ghost predicate FitsItsNode(cells: Cells, pending: Pending, id: string) {
    id in cells && id in pending ==>
      && (cells[id].syncState == None ==> pending[id].syncState != Confirmed)
      && (cells[id].syncState == Confirmed ==> pending[id].syncState != None)
  }

  // The alive nodes agree, and will still agree whichever results are merged in whatever order.
  ghost predicate WillAgree(cells: Cells, pending: Pending) {
    && Agreement(cells)
    && (forall i :: WillConfirm(cells, pending, i) ==> !SomebodyIn(cells, None))
    && (forall i :: WillDrop(cells, pending, i) ==> !SomebodyIn(cells, Confirmed))
    && (forall i, j :: WillConfirm(cells, pending, i) ==> !WillDrop(cells, pending, j))
    && (forall i :: FitsItsNode(cells, pending, i))
  }

  // ------------------------------------------------------------------------------------------ the steps

  lemma NobodyToBegin(cells: Cells, pending: Pending)
    requires pending == map[] && forall id :: id in cells ==> cells[id] == EMPTY_ORDER
    ensures WillAgree(cells, pending)
  {
  }

  lemma LocalMoveKeepsWillAgree(cells: Cells, pending: Pending, me: string, o': Order)
    requires WillAgree(cells, pending) && me in cells && LocalMove(cells[me], o')
    ensures WillAgree(cells[me := o'], pending)
  {
    var o, cells' := cells[me], cells[me := o'];
    assert FitsItsNode(cells, pending, me);
    LocalMoveKeepsAgreement(cells, me, o');
    AgreementIsKept(cells, me, o');
    assert o'.syncState == None ==> o.syncState == None;
    assert o'.syncState == Confirmed ==> o.syncState == Confirmed;
    assert SomebodyIn(cells', None) ==> SomebodyIn(cells, None);
    assert SomebodyIn(cells', Confirmed) ==> SomebodyIn(cells, Confirmed);
    forall i
      ensures WillConfirm(cells', pending, i) ==> WillConfirm(cells, pending, i) || SomebodyIn(cells, Confirmed)
      ensures WillDrop(cells', pending, i) ==> WillDrop(cells, pending, i)
      ensures FitsItsNode(cells', pending, i)
    {
      assert FitsItsNode(cells, pending, i);
      if i == me && WillConfirm(cells', pending, me) && !WillConfirm(cells, pending, me) {
        assert SomebodyIn(cells, Confirmed);
      }
    }
  }

  // What a node makes of current views.
  lemma FreshResult(cells: Cells, me: string, others: seq<Order>)
    requires Agreement(cells) && me in cells && ArePeers(cells, me, others)
    ensures var (o, sync) := (cells[me], SyncCell(cells[me], cells.Values, others));
            && (ConfirmsLate(o, sync) ==>
                  !SomebodyIn(cells, None) &&
                  (SomebodyIn(cells, Confirmed) || forall id :: id in cells ==> Ready(cells[id].syncState)))
            && (DropsLate(o, sync) ==>
                  !SomebodyIn(cells, Confirmed) &&
                  (SomebodyIn(cells, None) || forall id :: id in cells ==> Gone(cells[id].syncState)))
            && (o.syncState == None ==> sync.syncState != Confirmed)
            && (o.syncState == Confirmed ==> sync.syncState != None)
  {
    var start := Degraded(cells[me], cells.Values);
    FollowingInventsNothing(start, others);
    var s := FollowAll(start, others).syncState;
    if s != start.syncState {
      var i :| 0 <= i < |others| && others[i].syncState == s;
      assert others[i] in others;
      var id :| id in cells && id != me && cells[id] == others[i];
    }
    assert forall id :: id in cells ==> cells[id] in cells.Values;
  }

  lemma SnapshotKeepsWillAgree(cells: Cells, pending: Pending, me: string, others: seq<Order>)
    requires WillAgree(cells, pending) && me in cells && me !in pending && ArePeers(cells, me, others)
    ensures WillAgree(cells, pending[me := SyncCell(cells[me], cells.Values, others)])
  {
    var sync := SyncCell(cells[me], cells.Values, others);
    var pending' := pending[me := sync];
    FreshResult(cells, me, others);
    forall i
      ensures i != me && WillConfirm(cells, pending', i) ==> WillConfirm(cells, pending, i)
      ensures i != me && WillDrop(cells, pending', i) ==> WillDrop(cells, pending, i)
      ensures FitsItsNode(cells, pending', i)
    {
      assert FitsItsNode(cells, pending, i);
    }
    forall i | WillConfirm(cells, pending, i)
      ensures !DropsLate(cells[me], sync)
    {
      assert !SomebodyIn(cells, None) && !Gone(cells[i].syncState);
    }
    forall i | WillDrop(cells, pending, i)
      ensures !ConfirmsLate(cells[me], sync)
    {
      assert !SomebodyIn(cells, Confirmed) && !Ready(cells[i].syncState);
    }
  }

  lemma DropKeepsWillAgree(cells: Cells, pending: Pending, me: string)
    requires WillAgree(cells, pending)
    ensures WillAgree(cells, pending - {me})
  {
    forall i
      ensures WillConfirm(cells, pending - {me}, i) ==> WillConfirm(cells, pending, i)
      ensures WillDrop(cells, pending - {me}, i) ==> WillDrop(cells, pending, i)
      ensures FitsItsNode(cells, pending - {me}, i)
    {
      assert FitsItsNode(cells, pending, i);
    }
  }

  lemma MergeKeepsWillAgree(cells: Cells, pending: Pending, me: string)
    requires WillAgree(cells, pending) && me in cells && me in pending
    ensures WillAgree(cells[me := Merge(cells[me], pending[me])], pending - {me})
  {
    var o' := Merge(cells[me], pending[me]);
    var cells', pending' := cells[me := o'], pending - {me};
    assert o'.syncState == Confirmed ==> cells[me].syncState == Confirmed || WillConfirm(cells, pending, me);
    assert o'.syncState == None ==> cells[me].syncState == None || WillDrop(cells, pending, me);
    AgreementIsKept(cells, me, o');
    forall i
      ensures WillConfirm(cells', pending', i) ==> WillConfirm(cells, pending, i) && !SomebodyIn(cells', None)
      ensures WillDrop(cells', pending', i) ==> WillDrop(cells, pending, i) && !SomebodyIn(cells', Confirmed)
      ensures FitsItsNode(cells', pending', i)
    {
      assert FitsItsNode(cells, pending, i);
      if WillConfirm(cells', pending', i) {
        assert WillConfirm(cells, pending, i);
        assert forall id :: id in cells ==> cells[id].syncState != None;
      }
      if WillDrop(cells', pending', i) {
        assert WillDrop(cells, pending, i);
        assert forall id :: id in cells ==> cells[id].syncState != Confirmed;
      }
    }
  }

  lemma LeaveKeepsWillAgree(cells: Cells, pending: Pending, me: string)
    requires WillAgree(cells, pending)
    ensures WillAgree(cells - {me}, pending - {me})
  {
    var cells', pending' := cells - {me}, pending - {me};
    assert SomebodyIn(cells', None) ==> SomebodyIn(cells, None);
    assert SomebodyIn(cells', Confirmed) ==> SomebodyIn(cells, Confirmed);
    forall i
      ensures WillConfirm(cells', pending', i) ==> WillConfirm(cells, pending, i)
      ensures WillDrop(cells', pending', i) ==> WillDrop(cells, pending, i)
      ensures FitsItsNode(cells', pending', i)
    {
      assert FitsItsNode(cells, pending, i);
    }
  }

  // A node that comes back with nothing outstanding, and with the order as one of the alive nodes has it.
  lemma CopyKeepsWillAgree(cells: Cells, pending: Pending, me: string, o: Order)
    requires WillAgree(cells, pending) && me !in cells && (cells != map[] ==> o in cells.Values)
    ensures WillAgree(cells[me := o], pending - {me})
  {
    var cells', pending' := cells[me := o], pending - {me};
    if cells != map[] {
      var from :| from in cells && cells[from] == o;
      assert SomebodyIn(cells', None) ==> SomebodyIn(cells, None);
      assert SomebodyIn(cells', Confirmed) ==> SomebodyIn(cells, Confirmed);
    }
    forall i
      ensures WillConfirm(cells', pending', i) ==> WillConfirm(cells, pending, i)
      ensures WillDrop(cells', pending', i) ==> WillDrop(cells, pending, i)
      ensures FitsItsNode(cells', pending', i)
    {
      assert FitsItsNode(cells, pending, i);
    }
  }
}
