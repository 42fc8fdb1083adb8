// When the order in which a node meets its peers decides what a synchronisation makes of an order.
module PeerOrder {
  import opened Orders

  // The orders of this node and of the alive peers.
  ghost function Alive(own: Order, peers: seq<Order>): set<Order> {
    {own} + set o | o in peers
  }

  // All ways of meeting the same peers lead to the same result of the whole synchronisation.
  ghost predicate OrderIndependent(own: Order, peers: seq<Order>) {
    forall qs, rs :: multiset(qs) == multiset(peers) && multiset(rs) == multiset(peers) ==>
      SyncCell(own, Alive(own, peers), qs) == SyncCell(own, Alive(own, peers), rs)
  }

  // The node follows nobody: its order is marked, or gets marked by step 0.
  ghost predicate FollowsNobody(own: Order, peers: seq<Order>) {
    own.ownerId == PEER_DIED || (own.syncState == Confirmed && ORPHAN_ORDER in peers)
  }

  lemma DegradedAmong(own: Order, peers: seq<Order>)
    ensures FollowsNobody(own, peers) <==> Degraded(own, Alive(own, peers)).ownerId == PEER_DIED
    ensures !FollowsNobody(own, peers) ==> Degraded(own, Alive(own, peers)) == own
  {
  }

  // ------------------------------------------------------------------------------------------ independence

  lemma SameAmong(peers: seq<Order>, qs: seq<Order>)
    requires multiset(qs) == multiset(peers)
    ensures forall s :: Among(peers, s) <==> Among(qs, s)
  {
    forall s
      ensures Among(peers, s) <==> Among(qs, s)
    {
      if i :| 0 <= i < |peers| && peers[i].syncState == s {
        assert peers[i] in multiset(qs);
        var j :| 0 <= j < |qs| && qs[j] == peers[i];
      }
      if i :| 0 <= i < |qs| && qs[i].syncState == s {
        assert qs[i] in multiset(peers);
        var j :| 0 <= j < |peers| && peers[j] == qs[i];
      }
    }
  }

  lemma UntangledAgree(mine: Order, peers: seq<Order>, qs: seq<Order>)
    requires multiset(qs) == multiset(peers) && mine.ownerId != PEER_DIED && !Tangled(mine, peers)
    ensures FollowAll(mine, qs) == FollowAll(mine, peers)
  {
    SameAmong(peers, qs);
    FollowClosedForm(mine, peers);
    FollowClosedForm(mine, qs);
    assert forall s :: Present(mine, peers, s) <==> Present(mine, qs, s);
  }

  lemma UntangledIsIndependent(own: Order, peers: seq<Order>)
    requires FollowsNobody(own, peers) || !Tangled(own, peers)
    ensures OrderIndependent(own, peers)
  {
    var mine := Degraded(own, Alive(own, peers));
    DegradedAmong(own, peers);
    forall qs | multiset(qs) == multiset(peers)
      ensures FollowAll(mine, qs) == FollowAll(mine, peers)
    {
      if FollowsNobody(own, peers) {
        FollowingInventsNothing(mine, qs);
        FollowingInventsNothing(mine, peers);
      } else {
        UntangledAgree(mine, peers, qs);
      }
    }
  }

  // ------------------------------------------------------------------------------------------ peers in groups

  // The peers in one state.
  function Select(peers: seq<Order>, s: SyncState): seq<Order> {
    if peers == [] then [] else
      (if peers[0].syncState == s then [peers[0]] else []) + Select(peers[1..], s)
  }

  lemma {:induction false} SelectSelects(peers: seq<Order>, s: SyncState)
    ensures forall o :: o in Select(peers, s) ==> o.syncState == s
    ensures Select(peers, s) != [] <==> Among(peers, s)
  {
    if peers != [] {
      SelectSelects(peers[1..], s);
      FirstPeer(peers[0], peers);
    }
  }

  function Follows(s: SyncState, t: SyncState, seen: bool): SyncState {
    if seen && (NextState(s) == t || SecondToNextState(s) == t) then t else s
  }

  lemma {:induction false} FollowGroup(mine: Order, group: seq<Order>, t: SyncState)
    requires mine.ownerId != PEER_DIED && forall o :: o in group ==> o.syncState == t
    ensures FollowAll(mine, group) == mine.(syncState := Follows(mine.syncState, t, group != []))
    decreases |group|
  {
    if group != [] {
      assert group[0] in group;
      FollowGroup(FollowPeer(mine, group[0]), group[1..], t);
    }
  }

  // The peers group by group, the groups in the given order.
  function Grouped(peers: seq<Order>, states: seq<SyncState>): seq<Order> {
    if states == [] then [] else Select(peers, states[0]) + Grouped(peers, states[1..])
  }

  ghost function FollowsGroups(s: SyncState, peers: seq<Order>, states: seq<SyncState>): SyncState
    decreases |states|
  {
    if states == [] then s else FollowsGroups(Follows(s, states[0], Among(peers, states[0])), peers, states[1..])
  }

  lemma {:induction false} FollowGrouped(mine: Order, peers: seq<Order>, states: seq<SyncState>)
    requires mine.ownerId != PEER_DIED
    ensures FollowAll(mine, Grouped(peers, states)) ==
            mine.(syncState := FollowsGroups(mine.syncState, peers, states))
    decreases |states|
  {
    if states != [] {
      var group := Select(peers, states[0]);
      var next := mine.(syncState := Follows(mine.syncState, states[0], group != []));
      SelectSelects(peers, states[0]);
      FollowInTwoParts(mine, group, Grouped(peers, states[1..]));
      FollowGroup(mine, group, states[0]);
      FollowGrouped(next, peers, states[1..]);
    }
  }

  lemma {:induction false} CountInGroups(peers: seq<Order>, states: seq<SyncState>, o: Order)
    requires forall i, j :: 0 <= i < j < |states| ==> states[i] != states[j]
    ensures multiset(Grouped(peers, states))[o] == if o.syncState in states then multiset(peers)[o] else 0
  {
    if states != [] {
      CountInGroups(peers, states[1..], o);
      CountSelected(peers, states[0], o);
    }
  }

  lemma {:induction false} CountSelected(peers: seq<Order>, s: SyncState, o: Order)
    ensures multiset(Select(peers, s))[o] == if o.syncState == s then multiset(peers)[o] else 0
  {
    if peers != [] {
      CountSelected(peers[1..], s, o);
      assert peers == [peers[0]] + peers[1..];
    }
  }

  const ASCENDING := [None, Unconfirmed, Confirmed, DeleteProposed]
  const DESCENDING := [DeleteProposed, Confirmed, Unconfirmed, None]

  lemma ListsEveryState(s: SyncState)
    ensures s in ASCENDING && s in DESCENDING
  {
    match s
    case None => assert ASCENDING[0] == s && DESCENDING[3] == s;
    case Unconfirmed => assert ASCENDING[1] == s && DESCENDING[2] == s;
    case Confirmed => assert ASCENDING[2] == s && DESCENDING[1] == s;
    case DeleteProposed => assert ASCENDING[3] == s && DESCENDING[0] == s;
  }

  lemma GroupsArePermutation(peers: seq<Order>, states: seq<SyncState>)
    requires forall i, j :: 0 <= i < j < |states| ==> states[i] != states[j]
    requires forall s: SyncState :: s in states
    ensures multiset(Grouped(peers, states)) == multiset(peers)
  {
    forall o: Order
      ensures multiset(Grouped(peers, states))[o] == multiset(peers)[o]
    {
      CountInGroups(peers, states, o);
    }
  }

  // ------------------------------------------------------------------------------------------ dependence

  // Met in ascending and in descending order of their states, the same peers of a tangled view lead elsewhere.
  lemma AscendingAndDescendingDiffer(s: SyncState, peers: seq<Order>, mine: Order)
    requires mine.syncState == s && Tangled(mine, peers)
    ensures FollowsGroups(s, peers, ASCENDING) != FollowsGroups(s, peers, DESCENDING)
  {
    FollowsFour(s, peers, None, Unconfirmed, Confirmed, DeleteProposed);
    FollowsFour(s, peers, DeleteProposed, Confirmed, Unconfirmed, None);
  }

  lemma FollowsFour(s: SyncState, peers: seq<Order>, a: SyncState, b: SyncState, c: SyncState, d: SyncState)
    ensures FollowsGroups(s, peers, [a, b, c, d]) ==
            Follows(Follows(Follows(Follows(s, a, Among(peers, a)), b, Among(peers, b)), c, Among(peers, c)),
                    d, Among(peers, d))
  {
    var s1 := Follows(s, a, Among(peers, a));
    var s2 := Follows(s1, b, Among(peers, b));
    var s3 := Follows(s2, c, Among(peers, c));
    assert [a, b, c, d][1..] == [b, c, d] && [b, c, d][1..] == [c, d] && [c, d][1..] == [d] && [d][1..] == [];
    assert FollowsGroups(s1, peers, [b, c, d]) == FollowsGroups(s2, peers, [c, d]);
    assert FollowsGroups(s2, peers, [c, d]) == FollowsGroups(s3, peers, [d]);
    assert FollowsGroups(s3, peers, [d]) == Follows(s3, d, Among(peers, d));
  }

  lemma SeenIsAlive(own: Order, peers: seq<Order>, s: SyncState)
    requires Present(own, peers, s)
    ensures exists o :: o in Alive(own, peers) && o.syncState == s
  {
    if own.syncState == s {
      assert own in Alive(own, peers);
    } else {
      var i :| 0 <= i < |peers| && peers[i].syncState == s;
      assert peers[i] in Alive(own, peers);
    }
  }

  // In a tangled view the alive nodes never agree, so that step 2 changes nothing.
  lemma NoConsensusWhenTangled(own: Order, peers: seq<Order>, mine: Order)
    requires Tangled(own, peers)
    ensures Consensus(own.syncState, mine, Alive(own, peers)) == mine
  {
    SeenIsAlive(own, peers, None);
    SeenIsAlive(own, peers, if Present(own, peers, Confirmed) then Confirmed else Unconfirmed);
  }

  // In a tangled view two ways of meeting the same peers end differently, after all four steps.
  lemma OrderMatters(own: Order, peers: seq<Order>)
    requires !FollowsNobody(own, peers) && Tangled(own, peers)
    ensures !OrderIndependent(own, peers)
  {
    DegradedAmong(own, peers);
    forall s { ListsEveryState(s); }
    GroupsArePermutation(peers, ASCENDING);
    GroupsArePermutation(peers, DESCENDING);
    var up, down := Grouped(peers, ASCENDING), Grouped(peers, DESCENDING);
    FollowGrouped(own, peers, ASCENDING);
    FollowGrouped(own, peers, DESCENDING);
    AscendingAndDescendingDiffer(own.syncState, peers, own);
    NoConsensusWhenTangled(own, peers, FollowAll(own, up));
    NoConsensusWhenTangled(own, peers, FollowAll(own, down));
    assert SyncCell(own, Alive(own, peers), up).syncState != SyncCell(own, Alive(own, peers), down).syncState;
  }

  // Exactly when the order in which the peers are met is irrelevant to the result of a synchronisation, for every
  // order of this node and of any number of peers.
  lemma PeerOrderIsIrrelevantExactly(own: Order, peers: seq<Order>)
    ensures OrderIndependent(own, peers) <==> FollowsNobody(own, peers) || !Tangled(own, peers)
  {
    if !FollowsNobody(own, peers) && Tangled(own, peers) {
      OrderMatters(own, peers);
    } else {
      UntangledIsIndependent(own, peers);
    }
  }
}
