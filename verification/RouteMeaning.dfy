/**
 What the operations on the mesh route state do and answer, read off the recorded
 subscriptions: who is subscribed to what at which QoS, and over which next hop an owner
 is reached.  Nothing here speaks of slots.
 */
module RouteMeaning {
  import opened Common
  import opened TopicFilter
  import opened RouteModel

  /** The owner's subscription to the filter is recorded with this QoS. */
  ghost predicate HeldAt(nodes: seq<RemoteNode>, owner: NodeId, filter: string, qos: nat) {
    exists i, j :: 0 <= i < |nodes| && nodes[i].inUse && nodes[i].owner == owner
                   && 0 <= j < |nodes[i].subs| && nodes[i].subs[j] == RemoteSub(filter, qos, true)
  }

  ghost predicate IsHeld(nodes: seq<RemoteNode>, owner: NodeId, filter: string) {
    exists qos :: HeldAt(nodes, owner, filter, qos)
  }

  /** The owner has a node, reached over `hop`. */
  ghost predicate ReachedOver(nodes: seq<RemoteNode>, owner: NodeId, hop: NodeId) {
    exists i :: 0 <= i < |nodes| && nodes[i].inUse && nodes[i].owner == owner && nodes[i].nextHop == hop
  }

  ghost predicate Known(nodes: seq<RemoteNode>, owner: NodeId) {
    exists hop :: ReachedOver(nodes, owner, hop)
  }

  ghost predicate HasFree(nodes: seq<RemoteNode>) {
    exists i :: 0 <= i < |nodes| && !nodes[i].inUse
  }

  /** The owner's node has a subscription slot left. */
  ghost predicate HasRoomFor(nodes: seq<RemoteNode>, owner: NodeId) {
    exists i, j :: 0 <= i < |nodes| && nodes[i].inUse && nodes[i].owner == owner
                   && 0 <= j < |nodes[i].subs| && !nodes[i].subs[j].inUse
  }

  lemma HeldIsSubscribed(nodes: seq<RemoteNode>, owner: NodeId, filter: string)
    ensures IsHeld(nodes, owner, filter) <==> Subscribed(nodes, owner, filter)
  {
    if IsHeld(nodes, owner, filter) {
      var qos :| HeldAt(nodes, owner, filter, qos);
      var i, j :| 0 <= i < |nodes| && nodes[i].inUse && nodes[i].owner == owner
                  && 0 <= j < |nodes[i].subs| && nodes[i].subs[j] == RemoteSub(filter, qos, true);
      assert IsSub(nodes[i].subs[j], filter);
      assert Holds(nodes, i, owner, filter);
    }
    if Subscribed(nodes, owner, filter) {
      var i: nat :| Holds(nodes, i, owner, filter);
      var j :| 0 <= j < |nodes[i].subs| && IsSub(nodes[i].subs[j], filter);
      assert nodes[i].subs[j] == RemoteSub(filter, nodes[i].subs[j].qos, true);
      assert HeldAt(nodes, owner, filter, nodes[i].subs[j].qos);
    }
  }

  // ---------- one node replaced ----------

  ghost predicate NodeHolds(n: RemoteNode, filter: string, qos: nat) {
    n.inUse && exists j :: 0 <= j < |n.subs| && n.subs[j] == RemoteSub(filter, qos, true)
  }

  /** With one node for the owner, what is held of it is what that node holds. */
  lemma HeldByNode(nodes: seq<RemoteNode>, i: nat, owner: NodeId, filter: string, qos: nat)
    requires OwnersUnique(nodes) && i < |nodes| && nodes[i].inUse && nodes[i].owner == owner
    ensures HeldAt(nodes, owner, filter, qos) <==> NodeHolds(nodes[i], filter, qos)
  {}

  lemma ReachedByNode(nodes: seq<RemoteNode>, i: nat, owner: NodeId, hop: NodeId)
    requires OwnersUnique(nodes) && i < |nodes| && nodes[i].inUse && nodes[i].owner == owner
    ensures ReachedOver(nodes, owner, hop) <==> nodes[i].nextHop == hop
  {}

  /** Other owners do not notice. */
  lemma OthersSame(nodes: seq<RemoteNode>, i: nat, n: RemoteNode, o: NodeId, filter: string, qos: nat, hop: NodeId)
    requires i < |nodes| && (nodes[i].inUse ==> nodes[i].owner != o) && (n.inUse ==> n.owner != o)
    ensures HeldAt(nodes[i := n], o, filter, qos) <==> HeldAt(nodes, o, filter, qos)
    ensures ReachedOver(nodes[i := n], o, hop) <==> ReachedOver(nodes, o, hop)
  {
    var after := nodes[i := n];
    if HeldAt(nodes, o, filter, qos) {
      var k, j :| 0 <= k < |nodes| && nodes[k].inUse && nodes[k].owner == o
                  && 0 <= j < |nodes[k].subs| && nodes[k].subs[j] == RemoteSub(filter, qos, true);
      assert after[k].subs[j] == RemoteSub(filter, qos, true);
    }
    if HeldAt(after, o, filter, qos) {
      var k, j :| 0 <= k < |after| && after[k].inUse && after[k].owner == o
                  && 0 <= j < |after[k].subs| && after[k].subs[j] == RemoteSub(filter, qos, true);
      assert nodes[k].subs[j] == RemoteSub(filter, qos, true);
    }
    if ReachedOver(nodes, o, hop) {
      var k :| 0 <= k < |nodes| && nodes[k].inUse && nodes[k].owner == o && nodes[k].nextHop == hop;
      assert after[k].nextHop == hop;
    }
    if ReachedOver(after, o, hop) {
      var k :| 0 <= k < |after| && after[k].inUse && after[k].owner == o && after[k].nextHop == hop;
      assert nodes[k].nextHop == hop;
    }
  }

  lemma FindsNode(nodes: seq<RemoteNode>, owner: NodeId)
    ensures FindOwner(nodes, owner, 0) < |nodes| <==> Known(nodes, owner)
  {
    var i := FindOwner(nodes, owner, 0);
    if i < |nodes| {
      assert ReachedOver(nodes, owner, nodes[i].nextHop);
    }
    if Known(nodes, owner) {
      var hop :| ReachedOver(nodes, owner, hop);
      var k :| 0 <= k < |nodes| && nodes[k].inUse && nodes[k].owner == owner && nodes[k].nextHop == hop;
      assert IsOwner(nodes[k], owner);
    }
  }

  // ---------- withdrawing ----------

  /** The slots of one node after a withdrawal. */
  lemma DropsHeld(n: RemoteNode, filter: string, f: string, qos: nat)
    ensures var n' := n.(subs := DropSubs(n.subs, filter));
            NodeHolds(n', f, qos) <==> NodeHolds(n, f, qos) && f != filter
  {
    var n' := n.(subs := DropSubs(n.subs, filter));
    if NodeHolds(n, f, qos) && f != filter {
      var j :| 0 <= j < |n.subs| && n.subs[j] == RemoteSub(f, qos, true);
      assert n'.subs[j] == RemoteSub(f, qos, true);
    }
    if NodeHolds(n', f, qos) {
      var j :| 0 <= j < |n'.subs| && n'.subs[j] == RemoteSub(f, qos, true);
      assert n.subs[j] == RemoteSub(f, qos, true);
    }
  }

  lemma HoldsSomething(n: RemoteNode)
    requires n.inUse
    ensures NoLiveSubs(n) <==> forall f, qos :: !NodeHolds(n, f, qos)
  {
    if !NoLiveSubs(n) {
      var j :| 0 <= j < |n.subs| && n.subs[j].inUse;
      assert n.subs[j] == RemoteSub(n.subs[j].filter, n.subs[j].qos, true);
      assert NodeHolds(n, n.subs[j].filter, n.subs[j].qos);
    }
  }

  /** Exactly the one subscription goes; the answer is whether it was there. */
  lemma UnsubscribeMeaning(t: Tables, owner: NodeId, filter: string, perNode: nat)
    requires NodesOk(t.nodes, perNode)
    ensures var (t', changed) := Unsubscribe(t, owner, filter);
            && (changed <==> IsHeld(t.nodes, owner, filter))
            && (forall o, f, q :: HeldAt(t'.nodes, o, f, q) <==> HeldAt(t.nodes, o, f, q) && !(o == owner && f == filter))
  {
    HeldIsSubscribed(t.nodes, owner, filter);
    forall o, f, q
      ensures HeldAt(Unsubscribe(t, owner, filter).0.nodes, o, f, q) <==> HeldAt(t.nodes, o, f, q) && !(o == owner && f == filter)
    {
      UnsubscribeHeld(t, owner, filter, perNode, o, f, q);
    }
    if Subscribed(t.nodes, owner, filter) {
      FoundHolds(t.nodes, owner, filter, perNode);
    }
    var i := FindOwner(t.nodes, owner, 0);
    if i < |t.nodes| && HasSub(t.nodes[i], filter) {
      assert Holds(t.nodes, i, owner, filter);
    }
  }

  lemma UnsubscribeHeld(t: Tables, owner: NodeId, filter: string, perNode: nat, o: NodeId, f: string, q: nat)
    requires NodesOk(t.nodes, perNode)
    ensures HeldAt(Unsubscribe(t, owner, filter).0.nodes, o, f, q) <==> HeldAt(t.nodes, o, f, q) && !(o == owner && f == filter)
  {
    var i := FindOwner(t.nodes, owner, 0);
    var nodes' := Unsubscribe(t, owner, filter).0.nodes;
    if i < |t.nodes| {
      var n := t.nodes[i].(subs := DropSubs(t.nodes[i].subs, filter));
      if o == owner {
        UnsubscribeShape(t, owner, filter, perNode);
        HeldByNode(t.nodes, i, owner, f, q);
        DropsHeld(t.nodes[i], filter, f, q);
        HoldsSomething(n);
        if nodes'[i].inUse { HeldByNode(nodes', i, owner, f, q); }
      } else {
        OthersSame(t.nodes, i, nodes'[i], o, f, q, 0);
      }
    } else if o == owner {
      FindsNode(t.nodes, owner);
      NotHeld(t.nodes, owner, f, q);
    }
  }

  /** A node is kept, over its hop, while it holds something, and given up when it does
      not; the nodes of other owners stay. */
  lemma UnsubscribeNodes(t: Tables, owner: NodeId, filter: string, perNode: nat, o: NodeId, hop: NodeId)
    requires NodesOk(t.nodes, perNode)
    ensures ReachedOver(Unsubscribe(t, owner, filter).0.nodes, o, hop) <==>
              ReachedOver(t.nodes, o, hop) && (o == owner ==> exists f, q :: HeldAt(t.nodes, owner, f, q) && f != filter)
  {
    var i := FindOwner(t.nodes, owner, 0);
    var nodes' := Unsubscribe(t, owner, filter).0.nodes;
    if i == |t.nodes| {
      FindsNode(t.nodes, owner);
    } else if o != owner {
      OthersSame(t.nodes, i, nodes'[i], o, "", 0, hop);
    } else {
      var n := t.nodes[i].(subs := DropSubs(t.nodes[i].subs, filter));
      UnsubscribeShape(t, owner, filter, perNode);
      ReachedByNode(t.nodes, i, owner, hop);
      HoldsSomething(n);
      OtherFilterHeld(t.nodes, i, owner, filter);
    }
  }

  lemma OtherFilterHeld(nodes: seq<RemoteNode>, i: nat, owner: NodeId, filter: string)
    requires OwnersUnique(nodes) && i < |nodes| && nodes[i].inUse && nodes[i].owner == owner
    ensures var n := nodes[i].(subs := DropSubs(nodes[i].subs, filter));
            (exists f, q :: NodeHolds(n, f, q)) <==> exists f, q :: HeldAt(nodes, owner, f, q) && f != filter
  {
    var n := nodes[i].(subs := DropSubs(nodes[i].subs, filter));
    forall f, q ensures NodeHolds(n, f, q) <==> HeldAt(nodes, owner, f, q) && f != filter {
      HeldByNode(nodes, i, owner, f, q);
      DropsHeld(nodes[i], filter, f, q);
    }
  }

  // ---------- subscribing ----------

  /** Whether the owner can have a node. */
  ghost predicate GetsNode(nodes: seq<RemoteNode>, owner: NodeId) {
    Known(nodes, owner) || HasFree(nodes)
  }

  /** Whether there is a slot for the subscription. */
  ghost predicate GetsSlot(nodes: seq<RemoteNode>, owner: NodeId, filter: string, perNode: nat) {
    if Known(nodes, owner) then IsHeld(nodes, owner, filter) || HasRoomFor(nodes, owner)
    else HasFree(nodes) && perNode > 0
  }

  /** The owner's next hop afterwards: the sender when it is the owner or there was none,
      or only the zero id. */
  ghost predicate TakesHop(nodes: seq<RemoteNode>, owner: NodeId, hop: NodeId) {
    hop == owner || !Known(nodes, owner) || ReachedOver(nodes, owner, 0)
  }

  lemma NodeForMeaning(nodes: seq<RemoteNode>, owner: NodeId, perNode: nat)
    ensures NodeFor(nodes, owner, perNode).Some? <==> GetsNode(nodes, owner)
    ensures NodeFor(nodes, owner, perNode).Some? ==>
              var (i, n) := NodeFor(nodes, owner, perNode).value;
              if Known(nodes, owner) then n == nodes[i] && n.inUse && n.owner == owner
              else !nodes[i].inUse && n == RemoteNode(owner, 0, true, n.subs) && |n.subs| == perNode
                   && forall j :: 0 <= j < perNode ==> !n.subs[j].inUse
  {
    FindsNode(nodes, owner);
    if HasFree(nodes) {
      var i :| 0 <= i < |nodes| && !nodes[i].inUse;
      assert FreeNode(nodes[i]);
    }
  }

  lemma SlotMeaning(n: RemoteNode, filter: string)
    requires n.inUse
    ensures SubSlot(n.subs, filter) < |n.subs| <==>
              (exists q :: NodeHolds(n, filter, q)) || exists j :: 0 <= j < |n.subs| && !n.subs[j].inUse
    ensures var j := SubSlot(n.subs, filter);
            j < |n.subs| ==> if exists q :: NodeHolds(n, filter, q) then n.subs[j].inUse && n.subs[j].filter == filter else !n.subs[j].inUse
  {
    if q :| NodeHolds(n, filter, q) {
      var j :| 0 <= j < |n.subs| && n.subs[j] == RemoteSub(filter, q, true);
      assert IsSub(n.subs[j], filter);
    }
    var j := FindSub(n.subs, filter, 0);
    if j < |n.subs| {
      assert n.subs[j] == RemoteSub(filter, n.subs[j].qos, true);
      assert NodeHolds(n, filter, n.subs[j].qos);
    }
    if k :| 0 <= k < |n.subs| && !n.subs[k].inUse {
      assert FreeSub(n.subs[k]);
    }
  }

  /** The node's slots after its subscription is written. */
  lemma WritesHeld(n: RemoteNode, filter: string, qos: nat, f: string, q: nat)
    requires n.inUse && FiltersUnique(n) && SubSlot(n.subs, filter) < |n.subs|
    ensures var n' := n.(subs := n.subs[SubSlot(n.subs, filter) := RemoteSub(filter, qos, true)]);
            NodeHolds(n', f, q) <==> if f == filter then q == qos else NodeHolds(n, f, q)
  {
    SlotMeaning(n, filter);
    var j := SubSlot(n.subs, filter);
    var n' := n.(subs := n.subs[j := RemoteSub(filter, qos, true)]);
    assert n'.subs[j] == RemoteSub(filter, qos, true);
    if NodeHolds(n, f, q) {
      var k :| 0 <= k < |n.subs| && n.subs[k] == RemoteSub(f, q, true);
      assert f != filter ==> n'.subs[k] == RemoteSub(f, q, true);
    }
    if NodeHolds(n', f, q) {
      var k :| 0 <= k < |n'.subs| && n'.subs[k] == RemoteSub(f, q, true);
      if k != j {
        assert n.subs[k] == RemoteSub(f, q, true);
        assert NodeHolds(n, f, q);
      }
    }
  }

  /** What is held afterwards: the subscription at its new QoS if there was a slot for it,
      and everything else as before. */
  lemma SubscribeHeld(t: Tables, owner: NodeId, filter: string, qos: nat, hop: NodeId, perNode: nat, o: NodeId, f: string, q: nat)
    requires NodesOk(t.nodes, perNode)
    ensures var t' := Subscribe(t, owner, filter, qos, hop, perNode).0;
            HeldAt(t'.nodes, o, f, q) <==>
              if o == owner && f == filter && GetsSlot(t.nodes, owner, filter, perNode) then q == qos else HeldAt(t.nodes, o, f, q)
  {
    var nodes' := Subscribe(t, owner, filter, qos, hop, perNode).0.nodes;
    NodeForMeaning(t.nodes, owner, perNode);
    if GetsNode(t.nodes, owner) {
      var (i, n) := NodeFor(t.nodes, owner, perNode).value;
      SubscribeShape(t, owner, filter, qos, hop, perNode);
      if o != owner {
        OthersSame(t.nodes, i, nodes'[i], o, f, q, 0);
      } else {
        HeldByNode(nodes', i, owner, f, q);
        SlotIsGot(t, owner, filter, perNode);
        FoundHeld(t, owner, perNode, f, q);
        var moved := n.(nextHop := nodes'[i].nextHop);
        assert forall x, y :: NodeHolds(moved, x, y) <==> NodeHolds(n, x, y);
        if SubSlot(n.subs, filter) < |n.subs| {
          WritesHeld(moved, filter, qos, f, q);
        }
      }
    } else if o == owner {
      NotHeld(t.nodes, owner, f, q);
    }
  }

  lemma NotHeld(nodes: seq<RemoteNode>, owner: NodeId, f: string, q: nat)
    requires !Known(nodes, owner)
    ensures !HeldAt(nodes, owner, f, q)
  {
    if HeldAt(nodes, owner, f, q) {
      var i, j :| 0 <= i < |nodes| && nodes[i].inUse && nodes[i].owner == owner
                  && 0 <= j < |nodes[i].subs| && nodes[i].subs[j] == RemoteSub(f, q, true);
      assert ReachedOver(nodes, owner, nodes[i].nextHop);
    }
  }

  lemma FoundHeld(t: Tables, owner: NodeId, perNode: nat, f: string, q: nat)
    requires NodesOk(t.nodes, perNode) && GetsNode(t.nodes, owner)
    ensures NodeFor(t.nodes, owner, perNode).Some?
    ensures var n := NodeFor(t.nodes, owner, perNode).value.1; n.inUse && (HeldAt(t.nodes, owner, f, q) <==> NodeHolds(n, f, q))
  {
    NodeForMeaning(t.nodes, owner, perNode);
    var (i, n) := NodeFor(t.nodes, owner, perNode).value;
    if Known(t.nodes, owner) {
      HeldByNode(t.nodes, i, owner, f, q);
    } else {
      NotHeld(t.nodes, owner, f, q);
    }
  }

  lemma SlotIsGot(t: Tables, owner: NodeId, filter: string, perNode: nat)
    requires NodesOk(t.nodes, perNode) && GetsNode(t.nodes, owner)
    ensures NodeFor(t.nodes, owner, perNode).Some?
    ensures var n := NodeFor(t.nodes, owner, perNode).value.1;
            SubSlot(n.subs, filter) < |n.subs| <==> GetsSlot(t.nodes, owner, filter, perNode)
  {
    NodeForMeaning(t.nodes, owner, perNode);
    var (i, n) := NodeFor(t.nodes, owner, perNode).value;
    SlotMeaning(n, filter);
    forall q ensures HeldAt(t.nodes, owner, filter, q) <==> NodeHolds(n, filter, q) {
      FoundHeld(t, owner, perNode, filter, q);
    }
    if Known(t.nodes, owner) {
      if HasRoomFor(t.nodes, owner) {
        var k, j :| 0 <= k < |t.nodes| && t.nodes[k].inUse && t.nodes[k].owner == owner
                    && 0 <= j < |t.nodes[k].subs| && !t.nodes[k].subs[j].inUse;
        assert k == i;
      }
      if j :| 0 <= j < |n.subs| && !n.subs[j].inUse {
        assert HasRoomFor(t.nodes, owner);
      }
    }
  }

  /** Over which hop owners are reached afterwards. */
  lemma SubscribeHops(t: Tables, owner: NodeId, filter: string, qos: nat, hop: NodeId, perNode: nat, o: NodeId, h: NodeId)
    requires NodesOk(t.nodes, perNode)
    ensures var t' := Subscribe(t, owner, filter, qos, hop, perNode).0;
            ReachedOver(t'.nodes, o, h) <==>
              if o == owner && GetsNode(t.nodes, owner) && TakesHop(t.nodes, owner, hop) then h == hop else ReachedOver(t.nodes, o, h)
  {
    var nodes' := Subscribe(t, owner, filter, qos, hop, perNode).0.nodes;
    NodeForMeaning(t.nodes, owner, perNode);
    if GetsNode(t.nodes, owner) {
      var (i, n) := NodeFor(t.nodes, owner, perNode).value;
      SubscribeShape(t, owner, filter, qos, hop, perNode);
      if o != owner {
        OthersSame(t.nodes, i, nodes'[i], o, "", 0, h);
      } else {
        ReachedByNode(nodes', i, owner, h);
        if Known(t.nodes, owner) {
          ReachedByNode(t.nodes, i, owner, h);
          ReachedByNode(t.nodes, i, owner, 0);
        }
      }
    }
  }

  /** The answer: whether the subscription was recorded and is new, or at another QoS, or
      its owner's next hop was set. */
  lemma SubscribeAnswer(t: Tables, owner: NodeId, filter: string, qos: nat, hop: NodeId, perNode: nat)
    requires NodesOk(t.nodes, perNode)
    ensures Subscribe(t, owner, filter, qos, hop, perNode).1 <==>
              && GetsSlot(t.nodes, owner, filter, perNode)
              && (!HeldAt(t.nodes, owner, filter, qos) || ReachedOver(t.nodes, owner, 0)
                  || (hop == owner && !ReachedOver(t.nodes, owner, owner)))
  {
    NodeForMeaning(t.nodes, owner, perNode);
    if GetsNode(t.nodes, owner) {
      var (i, n) := NodeFor(t.nodes, owner, perNode).value;
      SlotIsGot(t, owner, filter, perNode);
      SlotMeaning(n, filter);
      forall q ensures HeldAt(t.nodes, owner, filter, q) <==> NodeHolds(n, filter, q) {
        FoundHeld(t, owner, perNode, filter, q);
      }
      if Known(t.nodes, owner) {
        ReachedByNode(t.nodes, i, owner, 0);
        ReachedByNode(t.nodes, i, owner, owner);
      }
      var j := SubSlot(n.subs, filter);
      if j < |n.subs| {
        AtItsSlot(n, filter, qos);
      }
    }
  }

  lemma AtItsSlot(n: RemoteNode, filter: string, qos: nat)
    requires n.inUse && SubSlot(n.subs, filter) < |n.subs| && FiltersUnique(n)
    ensures var s := n.subs[SubSlot(n.subs, filter)]; NodeHolds(n, filter, qos) <==> s.inUse && s.qos == qos
  {
    SlotMeaning(n, filter);
    var j := SubSlot(n.subs, filter);
    if NodeHolds(n, filter, qos) {
      var k :| 0 <= k < |n.subs| && n.subs[k] == RemoteSub(filter, qos, true);
      assert k == j;
    }
    if n.subs[j].inUse && n.subs[j].qos == qos {
      assert n.subs[j] == RemoteSub(filter, qos, true);
    }
  }

  // ---------- a peer leaves ----------

  /** Its own subscriptions go, and those of owners reached over it. */
  lemma RemoveHeld(t: Tables, id: NodeId, perNode: nat, o: NodeId, f: string, q: nat)
    requires NodesOk(t.nodes, perNode)
    ensures HeldAt(RemoveNode(t, id).nodes, o, f, q) <==> HeldAt(t.nodes, o, f, q) && o != id && !ReachedOver(t.nodes, o, id)
  {
    var nodes' := RemoveNode(t, id).nodes;
    RemoveShape(t, id, perNode);
    if HeldAt(t.nodes, o, f, q) {
      var i, j :| 0 <= i < |t.nodes| && t.nodes[i].inUse && t.nodes[i].owner == o
                  && 0 <= j < |t.nodes[i].subs| && t.nodes[i].subs[j] == RemoteSub(f, q, true);
      ReachedByNode(t.nodes, i, o, id);
      if o != id && !ReachedOver(t.nodes, o, id) {
        assert nodes'[i].subs[j] == RemoteSub(f, q, true);
      }
    }
    if HeldAt(nodes', o, f, q) {
      var i, j :| 0 <= i < |nodes'| && nodes'[i].inUse && nodes'[i].owner == o
                  && 0 <= j < |nodes'[i].subs| && nodes'[i].subs[j] == RemoteSub(f, q, true);
      assert t.nodes[i].subs[j] == RemoteSub(f, q, true);
      ReachedByNode(t.nodes, i, o, id);
    }
  }

  /** And every route of the peer or over it, no other. */
  lemma RemoveRoutes(t: Tables, id: NodeId, e: Entry)
    ensures e in RemoveNode(t, id).routes <==> e in t.routes && e.owner != id && e.hop != id
  {}

  // ---------- one route ----------

  /** A route put replaces the owner's for the filter; a route dropped is that one. */
  lemma PutAndDrop(routes: set<Entry>, owner: NodeId, filter: string, hop: NodeId, e: Entry)
    ensures e in Put(routes, owner, filter, hop) <==>
              if e.owner == owner && e.filter == filter then e.hop == hop else e in routes
    ensures e in Drop(routes, owner, filter) <==> e in routes && !(e.owner == owner && e.filter == filter)
  {}
}
