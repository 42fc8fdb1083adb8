// Convergence of one hall order, when the alive nodes only synchronise.
module OrderRounds {
  import opened Orders
  import opened OrderCells

  // Nodes synchronise and merge, one after the other, each with up-to-date views.
  ghost predicate SyncRun(cells: Cells, nodes: seq<string>, cells': Cells)
    decreases |nodes|
  {
    if nodes == [] then cells' == cells else
      exists o' :: SyncMove(cells, nodes[0], o') && SyncRun(cells[nodes[0] := o'], nodes[1..], cells')
  }

  lemma SyncRunPrepends(cells: Cells, node: string, o': Order, nodes: seq<string>, cells': Cells)
    requires SyncMove(cells, node, o') && SyncRun(cells[node := o'], nodes, cells')
    ensures SyncRun(cells, [node] + nodes, cells')
  {
    var all := [node] + nodes;
    assert all[0] == node && all[1..] == nodes;
    assert SyncMove(cells, all[0], o') && SyncRun(cells[all[0] := o'], all[1..], cells');
  }

  // In one round every alive node takes part at least once, in any order.
  ghost predicate IsRound(cells: Cells, nodes: seq<string>) {
    forall id :: id in cells ==> id in nodes
  }

  // ------------------------------------------------------------------------------------------ called for

  ghost predicate Joins(cells: Cells, nodes: seq<string>, cells': Cells) {
    && cells'.Keys == cells.Keys
    && forall id :: id in cells && (id in nodes || Ready(cells[id].syncState)) ==> Ready(cells'[id].syncState)
  }

  // Whoever synchronises knows about the order from then on.
  lemma {:induction false} RisingRun(cells: Cells, nodes: seq<string>, cells': Cells)
    requires Rising(cells) && SyncRun(cells, nodes, cells')
    ensures Rising(cells') && Joins(cells, nodes, cells')
    decreases |nodes|
  {
    if nodes != [] {
      var o' :| SyncMove(cells, nodes[0], o') && SyncRun(cells[nodes[0] := o'], nodes[1..], cells');
      RisingSync(cells, nodes[0], o');
      RisingRun(cells[nodes[0] := o'], nodes[1..], cells');
    }
  }

  ghost predicate Confirms(cells: Cells, nodes: seq<string>, cells': Cells) {
    && cells'.Keys == cells.Keys
    && forall id :: id in cells && (id in nodes || cells[id].syncState == Confirmed) ==>
         cells'[id].syncState == Confirmed
  }

  // Once every node knows about the order, whoever synchronises confirms it.
  lemma {:induction false} RisenRun(cells: Cells, nodes: seq<string>, cells': Cells)
    requires Rising(cells) && NobodyNone(cells) && SyncRun(cells, nodes, cells')
    ensures Confirms(cells, nodes, cells')
    decreases |nodes|
  {
    if nodes != [] {
      var o' :| SyncMove(cells, nodes[0], o') && SyncRun(cells[nodes[0] := o'], nodes[1..], cells');
      RisingSync(cells, nodes[0], o');
      RisenRun(cells[nodes[0] := o'], nodes[1..], cells');
    }
  }

  lemma TwoRoundsConfirmCells(cells: Cells, round1: seq<string>, between: Cells, round2: seq<string>, cells': Cells)
    requires Rising(cells) && IsRound(cells, round1) && IsRound(cells, round2)
    requires SyncRun(cells, round1, between) && SyncRun(between, round2, cells')
    ensures cells'.Keys == cells.Keys && forall id :: id in cells ==> cells'[id].syncState == Confirmed
  {
    RisingRun(cells, round1, between);
    RisenRun(between, round2, cells');
  }

  // ------------------------------------------------------------------------------------------ served

  ghost predicate Leaves(cells: Cells, nodes: seq<string>, cells': Cells) {
    && cells'.Keys == cells.Keys
    && forall id :: id in cells && (id in nodes || Gone(cells[id].syncState)) ==> Gone(cells'[id].syncState)
  }

  // Whoever synchronises proposes to delete the order, or has dropped it, from then on.
  lemma {:induction false} FallingRun(cells: Cells, nodes: seq<string>, cells': Cells)
    requires Falling(cells) && SyncRun(cells, nodes, cells')
    ensures Falling(cells') && Leaves(cells, nodes, cells')
    decreases |nodes|
  {
    if nodes != [] {
      var o' :| SyncMove(cells, nodes[0], o') && SyncRun(cells[nodes[0] := o'], nodes[1..], cells');
      FallingSync(cells, nodes[0], o');
      FallingRun(cells[nodes[0] := o'], nodes[1..], cells');
    }
  }

  ghost predicate Drops(cells: Cells, nodes: seq<string>, cells': Cells) {
    && cells'.Keys == cells.Keys
    && forall id :: id in cells && (id in nodes || cells[id].syncState == None) ==> cells'[id].syncState == None
  }

  // Once every node proposes to delete the order or has dropped it, whoever synchronises drops it.
  lemma {:induction false} FallenRun(cells: Cells, nodes: seq<string>, cells': Cells)
    requires Falling(cells) && AllGone(cells) && SyncRun(cells, nodes, cells')
    ensures Drops(cells, nodes, cells')
    decreases |nodes|
  {
    if nodes != [] {
      var o' :| SyncMove(cells, nodes[0], o') && SyncRun(cells[nodes[0] := o'], nodes[1..], cells');
      FallingSync(cells, nodes[0], o');
      FallenRun(cells[nodes[0] := o'], nodes[1..], cells');
    }
  }

  lemma TwoRoundsDeleteCells(cells: Cells, round1: seq<string>, between: Cells, round2: seq<string>, cells': Cells)
    requires Falling(cells) && IsRound(cells, round1) && IsRound(cells, round2)
    requires SyncRun(cells, round1, between) && SyncRun(between, round2, cells')
    ensures cells'.Keys == cells.Keys && forall id :: id in cells ==> cells'[id].syncState == None
  {
    FallingRun(cells, round1, between);
    FallenRun(between, round2, cells');
  }
}
