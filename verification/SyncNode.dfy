// The synchronisation and the worldview handlers in the form of the original: nested loops that overwrite a matrix
// of orders cell by cell, maps traversed in any order, and a node object that updates its map of worldviews.
module SyncNode {
  import opened Orders
  import opened Worldviews

  ghost predicate Pointwise(ho: HallOrders, ho': HallOrders, peer: HallOrders, step: (Order, Order) -> Order) {
    && |ho'| == |ho| == |peer|
    && forall f: nat, d :: f < |ho| ==> ho'[f].At(d) == step(ho[f].At(d), peer[f].At(d))
  }

  // Step 0 for one peer.
  method DegradeByPeer(mine: HallOrders, peer: HallOrders) returns (ho: HallOrders)
    requires |mine| == |peer|
    ensures Pointwise(mine, ho, peer, DegradeBy)
  {
    ho := mine;
    for f := 0 to |mine|
      invariant |ho| == |mine|
      invariant forall g: nat, d :: g < f ==> ho[g].At(d) == DegradeBy(mine[g].At(d), peer[g].At(d))
      invariant forall g :: f <= g < |mine| ==> ho[g] == mine[g]
    {
      ho := DegradeCell(ho, peer, f, ToUp);
      ho := DegradeCell(ho, peer, f, ToDown);
    }
  }

  method DegradeCell(mine: HallOrders, peer: HallOrders, f: nat, d: HallDir) returns (ho: HallOrders)
    requires f < |mine| == |peer|
    ensures ho == mine[f := mine[f].With(d, DegradeBy(mine[f].At(d), peer[f].At(d)))]
  {
    ho := mine;
    var peerOrder := peer[f].At(d);
    if peerOrder.syncState == Unconfirmed && peerOrder.ownerId == PEER_DIED && mine[f].At(d).syncState == Confirmed {
      ho := ho[f := ho[f].With(d, Order(Unconfirmed, PEER_DIED))];
    }
  }

  // Step 1 for one peer.
  method FollowOnePeer(mine: HallOrders, peer: HallOrders) returns (ho: HallOrders)
    requires |mine| == |peer|
    ensures Pointwise(mine, ho, peer, FollowPeer)
  {
    ho := mine;
    for f := 0 to |mine|
      invariant |ho| == |mine|
      invariant forall g: nat, d :: g < f ==> ho[g].At(d) == FollowPeer(mine[g].At(d), peer[g].At(d))
      invariant forall g :: f <= g < |mine| ==> ho[g] == mine[g]
    {
      ho := FollowCell(ho, peer, f, ToUp);
      ho := FollowCell(ho, peer, f, ToDown);
    }
  }

  method FollowCell(mine: HallOrders, peer: HallOrders, f: nat, d: HallDir) returns (ho: HallOrders)
    requires f < |mine| == |peer|
    ensures ho == mine[f := mine[f].With(d, FollowPeer(mine[f].At(d), peer[f].At(d)))]
  {
    ho := mine;
    var myOrder := mine[f].At(d);
    var peerOrder := peer[f].At(d);
    if myOrder == peerOrder {
      return;
    } else if NextState(myOrder.syncState) == peerOrder.syncState && myOrder.ownerId != PEER_DIED {
      ho := ho[f := ho[f].With(d, ho[f].At(d).(syncState := peerOrder.syncState))];
    }
    if SecondToNextState(myOrder.syncState) == peerOrder.syncState && myOrder.ownerId != PEER_DIED {
      ho := ho[f := ho[f].With(d, ho[f].At(d).(syncState := peerOrder.syncState))];
    }
  }

  // Whether every alive node's order at (f, d) is in one of two states.
  method AllAlive(views: Views, ghost floors: nat, f: nat, d: HallDir, s: SyncState, t: SyncState) returns (all: bool)
    requires ShapedViews(views, floors) && f < floors
    ensures all <==> forall o :: o in AliveAt(views, floors, f, d) ==> o.syncState == s || o.syncState == t
  {
    var left := views.Keys;
    while left != {}
      invariant left <= views.Keys
      invariant forall id :: id in views && id !in left && !views[id].dead ==>
                  var o := views[id].hallOrders[f].At(d); o.syncState == s || o.syncState == t
    {
      var id :| id in left;
      left := left - {id};
      if views[id].dead {
        continue;
      }
      var o := views[id].hallOrders[f].At(d);
      if o.syncState != s && o.syncState != t {
        assert o in AliveAt(views, floors, f, d);
        return false;
      }
    }
    return true;
  }

  // Steps 2 and 3 for one cell.
  method AdvanceCell(views: Views, ghost floors: nat, myID: string, mine: HallOrders, f: nat, d: HallDir)
    returns (ho: HallOrders)
    requires ShapedViews(views, floors) && myID in views && f < floors == |mine|
    ensures ho == mine[f := mine[f].With(d, Normalise(Consensus(views[myID].hallOrders[f].At(d).syncState,
                                                                mine[f].At(d), AliveAt(views, floors, f, d))))]
  {
    ho := mine;
    match mine[f].At(d).syncState {
      case Unconfirmed =>
        if views[myID].hallOrders[f].At(d).syncState == Unconfirmed {
          var all := AllAlive(views, floors, f, d, Unconfirmed, Confirmed);
          if all {
            ho := ho[f := ho[f].With(d, ho[f].At(d).(syncState := Confirmed))];
            if ho[f].At(d).ownerId == PEER_DIED {
              ho := ho[f := ho[f].With(d, ho[f].At(d).(ownerId := NO_OWNER))];
            }
          }
        }
      case DeleteProposed =>
        var all := AllAlive(views, floors, f, d, DeleteProposed, None);
        if all {
          ho := ho[f := ho[f].With(d, Order(None, NO_OWNER))];
        }
      case _ =>
    }
    if ho[f].At(d).syncState == None {
      ho := ho[f := ho[f].With(d, ho[f].At(d).(ownerId := NO_OWNER))];
    }
  }

  ghost predicate OrphanSeen(views: Views, floors: nat, visit: seq<string>, f: nat, d: HallDir)
    requires ShapedViews(views, floors) && f < floors
  {
    exists id :: id in visit && id in views && !views[id].dead && views[id].hallOrders[f].At(d) == ORPHAN_ORDER
  }

  // Step 0, for all peers in any order.
  method DegradeByPeers(views: Views, ghost floors: nat, myID: string) returns (ho: HallOrders)
    requires ShapedViews(views, floors) && myID in views
    ensures |ho| == floors
    ensures forall f: nat, d :: f < floors ==>
              ho[f].At(d) == Degraded(views[myID].hallOrders[f].At(d), AliveAt(views, floors, f, d))
  {
    ghost var own := views[myID].hallOrders;
    ho := views[myID].hallOrders;
    var left := views.Keys;
    ghost var visit := [];
    while left != {}
      invariant left <= views.Keys && |ho| == floors
      invariant forall id :: id in views ==> (id in visit <==> id !in left)
      invariant forall f: nat, d :: f < floors ==>
                  ho[f].At(d) == if own[f].At(d).syncState == Confirmed && OrphanSeen(views, floors, visit, f, d)
                                 then ORPHAN_ORDER else own[f].At(d)
    {
      var id :| id in left;
      left := left - {id};
      ghost var seen := visit;
      visit := visit + [id];
      if !views[id].dead {
        ho := DegradeByPeer(ho, views[id].hallOrders);
      }
      forall f: nat, d | f < floors
        ensures OrphanSeen(views, floors, visit, f, d) <==>
                || OrphanSeen(views, floors, seen, f, d)
                || (!views[id].dead && views[id].hallOrders[f].At(d) == ORPHAN_ORDER)
      {
        if other :| other in seen && other in views && !views[other].dead &&
                    views[other].hallOrders[f].At(d) == ORPHAN_ORDER {
          assert other in visit;
        }
        assert id in visit;
      }
    }
    forall f: nat, d | f < floors
      ensures OrphanSeen(views, floors, visit, f, d) <==> ORPHAN_ORDER in AliveAt(views, floors, f, d)
    {
    }
  }

  lemma {:induction false} FollowOneMore(mine: Order, peers: seq<Order>, peer: Order)
    ensures FollowAll(mine, peers + [peer]) == FollowPeer(FollowAll(mine, peers), peer)
  {
    FollowInTwoParts(mine, peers, [peer]);
    assert [peer][1..] == [];
  }

  ghost predicate FollowedSoFar(
    views: Views, floors: nat, myID: string, mine: HallOrders, visit: seq<string>, ho: HallOrders)
    requires ShapedViews(views, floors)
  {
    && |ho| == |mine| == floors
    && (forall id :: id in visit ==> id in views)
    && forall f: nat, d :: f < floors ==>
         ho[f].At(d) == FollowAll(mine[f].At(d), OthersAt(views, floors, myID, visit, f, d))
  }

  lemma OneMoreFollowed(views: Views, floors: nat, myID: string, mine: HallOrders, visit: seq<string>,
                        ho: HallOrders, id: string, ho': HallOrders)
    requires ShapedViews(views, floors) && id in views
    requires FollowedSoFar(views, floors, myID, mine, visit, ho)
    requires if views[id].dead || views[id].idElevator == myID then ho' == ho
             else Pointwise(ho, ho', views[id].hallOrders, FollowPeer)
    ensures FollowedSoFar(views, floors, myID, mine, visit + [id], ho')
  {
    var longer := visit + [id];
    assert longer[..|longer| - 1] == visit;
    forall f: nat, d | f < floors
      ensures ho'[f].At(d) == FollowAll(mine[f].At(d), OthersAt(views, floors, myID, longer, f, d))
    {
      FollowOneMore(mine[f].At(d), OthersAt(views, floors, myID, visit, f, d), views[id].hallOrders[f].At(d));
    }
  }

  // Step 1, for all peers in the order in which they happen to be met.
  method FollowPeers(views: Views, ghost floors: nat, myID: string, mine: HallOrders) returns (ho: HallOrders)
    requires ShapedViews(views, floors) && |mine| == floors
    ensures exists visit :: IsTraversal(visit, views.Keys) && FollowedSoFar(views, floors, myID, mine, visit, ho)
  {
    ho := mine;
    ghost var visit := [];
    var left := views.Keys;
    while left != {}
      invariant left <= views.Keys
      invariant multiset(visit) == multiset(views.Keys - left)
      invariant FollowedSoFar(views, floors, myID, mine, visit, ho)
    {
      var id :| id in left;
      assert views.Keys - (left - {id}) == (views.Keys - left) + {id};
      left := left - {id};
      ghost var before := ho;
      if !views[id].dead && views[id].idElevator != myID {
        ho := FollowOnePeer(ho, views[id].hallOrders);
      }
      OneMoreFollowed(views, floors, myID, mine, visit, before, id, ho);
      visit := visit + [id];
    }
    assert views.Keys - left == views.Keys;
    assert IsTraversal(visit, views.Keys);
  }

  // The synchronisation of all hall orders with the latest worldviews, met in some order.
  method SyncHallOrders(views: Views, ghost floors: nat, myID: string) returns (synced: HallOrders)
    requires ShapedViews(views, floors) && myID in views
    ensures exists visit :: IsTraversal(visit, views.Keys) && SyncedWith(views, floors, myID, visit, synced)
  {
    var degraded := DegradeByPeers(views, floors, myID);
    synced := FollowPeers(views, floors, myID, degraded);
    ghost var visit :| IsTraversal(visit, views.Keys) && FollowedSoFar(views, floors, myID, degraded, visit, synced);
    ghost var followed := synced;
    for f := 0 to |synced|
      invariant |synced| == floors
      invariant forall g :: f <= g < floors ==> synced[g] == followed[g]
      invariant forall g: nat, d :: g < f ==>
                  synced[g].At(d) == Normalise(Consensus(views[myID].hallOrders[g].At(d).syncState,
                                                         followed[g].At(d), AliveAt(views, floors, g, d)))
    {
      synced := AdvanceCell(views, floors, myID, synced, f, ToUp);
      synced := AdvanceCell(views, floors, myID, synced, f, ToDown);
    }
    assert SyncedWith(views, floors, myID, visit, synced);
  }
}
