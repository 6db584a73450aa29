/**
 The mesh route state as values: what every node knows of the subscriptions of
 the other nodes (`nodes`) and the routes derived from them (`routes`).

 The operations here are the abstract meaning of the methods of RouteTable; the
 lemmas say what every run of them keeps.
 */
module RouteModel {
  import opened Common
  import opened TopicFilter

  /** A node id; zero is the unset id the code tests with id_is_zero. */
  type NodeId = nat
  const NO_ID: NodeId := 0

  datatype RemoteSub = RemoteSub(filter: string, qos: nat, inUse: bool)
  datatype RemoteNode = RemoteNode(owner: NodeId, nextHop: NodeId, inUse: bool, subs: seq<RemoteSub>)

  datatype Entry = Entry(owner: NodeId, filter: string, hop: NodeId)
  datatype Tables = Tables(nodes: seq<RemoteNode>, routes: set<Entry>)

  // ---------- slots ----------

  predicate IsOwner(n: RemoteNode, owner: NodeId) {
    n.inUse && n.owner == owner
  }

  predicate IsSub(s: RemoteSub, filter: string) {
    s.inUse && s.filter == filter
  }

  predicate FreeNode(n: RemoteNode) {
    !n.inUse
  }

  predicate FreeSub(s: RemoteSub) {
    !s.inUse
  }

  /** The first index from `i` on holding `owner`, or |nodes|. */
  function FindOwner(nodes: seq<RemoteNode>, owner: NodeId, i: nat): (r: nat)
    requires i <= |nodes|
    ensures i <= r <= |nodes|
    ensures r < |nodes| ==> IsOwner(nodes[r], owner)
    ensures forall k :: i <= k < r ==> !IsOwner(nodes[k], owner)
    decreases |nodes| - i
  {
    if i == |nodes| || IsOwner(nodes[i], owner) then i else FindOwner(nodes, owner, i + 1)
  }

  function FindSub(subs: seq<RemoteSub>, filter: string, i: nat): (r: nat)
    requires i <= |subs|
    ensures i <= r <= |subs|
    ensures r < |subs| ==> IsSub(subs[r], filter)
    ensures forall k :: i <= k < r ==> !IsSub(subs[k], filter)
    decreases |subs| - i
  {
    if i == |subs| || IsSub(subs[i], filter) then i else FindSub(subs, filter, i + 1)
  }

  function ClearedSubs(n: nat): (r: seq<RemoteSub>)
    ensures |r| == n
    ensures forall i :: 0 <= i < n ==> !r[i].inUse
  {
    seq(n, _ => RemoteSub("", 0, false))
  }

  function ClearedNode(n: nat): RemoteNode {
    RemoteNode(NO_ID, NO_ID, false, ClearedSubs(n))
  }

  ghost predicate HasSub(n: RemoteNode, filter: string) {
    exists j :: 0 <= j < |n.subs| && IsSub(n.subs[j], filter)
  }

  // ---------- routes ----------

  ghost function Put(routes: set<Entry>, owner: NodeId, filter: string, hop: NodeId): set<Entry> {
    (set e | e in routes && !(e.owner == owner && e.filter == filter)) + {Entry(owner, filter, hop)}
  }

  ghost function Drop(routes: set<Entry>, owner: NodeId, filter: string): set<Entry> {
    set e | e in routes && !(e.owner == owner && e.filter == filter)
  }

  ghost function DropNode(routes: set<Entry>, id: NodeId): set<Entry> {
    set e | e in routes && e.owner != id && e.hop != id
  }

  /** Every live subscription among the first `count` of `n` put again, with the
      node's own next hop. */
  ghost function Refresh(routes: set<Entry>, n: RemoteNode, count: nat): set<Entry>
    requires count <= |n.subs|
  {
    if count == 0 then routes
    else
      var before := Refresh(routes, n, count - 1);
      if n.subs[count-1].inUse then Put(before, n.owner, n.subs[count-1].filter, n.nextHop) else before
  }

  // ---------- operations ----------

  predicate MovesHop(n: RemoteNode, hop: NodeId) {
    n.nextHop == NO_ID || (hop == n.owner && n.nextHop != n.owner)
  }

  /** The node slot an operation on `owner` works on, created if need be. */
  function NodeFor(nodes: seq<RemoteNode>, owner: NodeId, perNode: nat): (r: Option<(nat, RemoteNode)>)
    ensures r.Some? ==> r.value.0 < |nodes|
  {
    var i := FindOwner(nodes, owner, 0);
    if i < |nodes| then Some((i, nodes[i]))
    else
      var f := FirstWhere(nodes, FreeNode, 0);
      if f < |nodes| then Some((f, RemoteNode(owner, NO_ID, true, ClearedSubs(perNode)))) else None
  }

  function SubSlot(subs: seq<RemoteSub>, filter: string): (r: nat)
    ensures r <= |subs|
  {
    var j := FindSub(subs, filter, 0);
    if j < |subs| then j else FirstWhere(subs, FreeSub, 0)
  }

  ghost function Subscribe(t: Tables, owner: NodeId, filter: string, qos: nat, hop: NodeId, perNode: nat): (Tables, bool) {
    match NodeFor(t.nodes, owner, perNode)
    case None => (t, false)
    case Some((i, found)) =>
      var moved := MovesHop(found, hop);
      var n := if moved then found.(nextHop := hop) else found;
      var j := SubSlot(n.subs, filter);
      if j == |n.subs| then (Tables(t.nodes[i := n], t.routes), false)
      else
        var n' := n.(subs := n.subs[j := RemoteSub(filter, qos, true)]);
        var changed := moved || !n.subs[j].inUse || n.subs[j].qos != qos;
        var routes := if moved then Refresh(t.routes, n', |n'.subs|)
                      else Put(t.routes, owner, filter, n'.nextHop);
        (Tables(t.nodes[i := n'], routes), changed)
  }

  function DropSubs(subs: seq<RemoteSub>, filter: string): (r: seq<RemoteSub>)
    ensures |r| == |subs|
    ensures forall i :: 0 <= i < |subs| ==>
              r[i] == if IsSub(subs[i], filter) then subs[i].(inUse := false) else subs[i]
  {
    seq(|subs|, i requires 0 <= i < |subs| =>
      if IsSub(subs[i], filter) then subs[i].(inUse := false) else subs[i])
  }

  ghost predicate NoLiveSubs(n: RemoteNode) {
    forall j :: 0 <= j < |n.subs| ==> !n.subs[j].inUse
  }

  ghost function Unsubscribe(t: Tables, owner: NodeId, filter: string): (Tables, bool) {
    var i := FindOwner(t.nodes, owner, 0);
    if i == |t.nodes| then (t, false)
    else
      var n := t.nodes[i].(subs := DropSubs(t.nodes[i].subs, filter));
      var changed := HasSub(t.nodes[i], filter);
      var n' := if NoLiveSubs(n) then ClearedNode(|n.subs|) else n;
      (Tables(t.nodes[i := n'], if changed then Drop(t.routes, owner, filter) else t.routes), changed)
  }

  predicate GoesWith(n: RemoteNode, id: NodeId) {
    n.inUse && (n.owner == id || n.nextHop == id)
  }

  function ClearNodes(nodes: seq<RemoteNode>, id: NodeId): (r: seq<RemoteNode>)
    ensures |r| == |nodes|
    ensures forall i :: 0 <= i < |nodes| ==>
              r[i] == if GoesWith(nodes[i], id) then ClearedNode(|nodes[i].subs|) else nodes[i]
  {
    seq(|nodes|, i requires 0 <= i < |nodes| =>
      if GoesWith(nodes[i], id) then ClearedNode(|nodes[i].subs|) else nodes[i])
  }

  ghost function RemoveNode(t: Tables, id: NodeId): Tables {
    Tables(ClearNodes(t.nodes, id), DropNode(t.routes, id))
  }

  // ---------- invariants ----------

  ghost predicate OwnersUnique(nodes: seq<RemoteNode>) {
    forall i, k :: 0 <= i < k < |nodes| && nodes[i].inUse && nodes[k].inUse ==> nodes[i].owner != nodes[k].owner
  }

  ghost predicate FiltersUnique(n: RemoteNode) {
    forall j, k :: 0 <= j < k < |n.subs| && n.subs[j].inUse && n.subs[k].inUse ==> n.subs[j].filter != n.subs[k].filter
  }

  ghost predicate NodesOk(nodes: seq<RemoteNode>, perNode: nat) {
    && OwnersUnique(nodes)
    && forall i :: 0 <= i < |nodes| ==> |nodes[i].subs| == perNode && FiltersUnique(nodes[i])
  }

  /** The live subscription (owner, filter) is recorded at node slot `i`. */
  ghost predicate Holds(nodes: seq<RemoteNode>, i: nat, owner: NodeId, filter: string) {
    i < |nodes| && IsOwner(nodes[i], owner) && HasSub(nodes[i], filter)
  }

  ghost predicate Subscribed(nodes: seq<RemoteNode>, owner: NodeId, filter: string) {
    exists i: nat :: Holds(nodes, i, owner, filter)
  }

  ghost predicate KeysUnique(routes: set<Entry>) {
    forall a, b :: a in routes && b in routes && a.owner == b.owner && a.filter == b.filter ==> a == b
  }

  ghost predicate HaveSubs(nodes: seq<RemoteNode>, routes: set<Entry>) {
    forall e :: e in routes ==> Subscribed(nodes, e.owner, e.filter)
  }

  /** A route's hop is its node's next hop, unless that has moved to the owner
      itself. */
  ghost predicate HopsOk(nodes: seq<RemoteNode>, routes: set<Entry>) {
    forall e, i :: e in routes && 0 <= i < |nodes| && IsOwner(nodes[i], e.owner)
                   ==> e.hop == nodes[i].nextHop || nodes[i].nextHop == e.owner
  }

  /** Nodes and routes hold nothing twice, and every route its subscription. */
  ghost predicate Housed(t: Tables, perNode: nat) {
    && NodesOk(t.nodes, perNode)
    && KeysUnique(t.routes)
    && HaveSubs(t.nodes, t.routes)
  }

  /** What lets a node be removed with all its routes. */
  ghost predicate Sound(t: Tables, perNode: nat) {
    Housed(t, perNode) && HopsOk(t.nodes, t.routes)
  }

  /** The simple table: one route for each live subscription of each live node. */
  ghost predicate IsRouteOf(nodes: seq<RemoteNode>, e: Entry) {
    exists i: nat :: Holds(nodes, i, e.owner, e.filter) && nodes[i].nextHop == e.hop
  }

  ghost predicate Synced(t: Tables) {
    forall e :: e in t.routes <==> IsRouteOf(t.nodes, e)
  }

  // ---------- Refresh in closed form ----------

  ghost predicate HasSubBelow(n: RemoteNode, filter: string, count: nat)
    requires count <= |n.subs|
  {
    exists j :: 0 <= j < count && IsSub(n.subs[j], filter)
  }

  lemma {:induction false} RefreshMeaning(routes: set<Entry>, n: RemoteNode, count: nat, e: Entry)
    requires count <= |n.subs|
    ensures e in Refresh(routes, n, count) <==>
              if e.owner == n.owner && HasSubBelow(n, e.filter, count)
              then e.hop == n.nextHop else e in routes
  {
    if count > 0 {
      RefreshMeaning(routes, n, count - 1, e);
      var s := n.subs[count-1];
      assert HasSubBelow(n, e.filter, count) <==> HasSubBelow(n, e.filter, count - 1) || IsSub(s, e.filter);
    }
  }

  lemma RefreshAll(routes: set<Entry>, n: RemoteNode)
    ensures forall e :: e in Refresh(routes, n, |n.subs|) <==>
              if e.owner == n.owner && HasSub(n, e.filter) then e.hop == n.nextHop else e in routes
  {
    forall e
      ensures e in Refresh(routes, n, |n.subs|) <==>
                if e.owner == n.owner && HasSub(n, e.filter) then e.hop == n.nextHop else e in routes
    {
      RefreshMeaning(routes, n, |n.subs|, e);
      assert HasSubBelow(n, e.filter, |n.subs|) <==> HasSub(n, e.filter);
    }
  }

  // ---------- every operation keeps Sound ----------

  /** A node after its subscription slot is written. */
  lemma SlotWritten(n: RemoteNode, filter: string, qos: nat)
    requires FiltersUnique(n) && SubSlot(n.subs, filter) < |n.subs|
    ensures var n' := n.(subs := n.subs[SubSlot(n.subs, filter) := RemoteSub(filter, qos, true)]);
            FiltersUnique(n') && forall f :: HasSub(n', f) <==> HasSub(n, f) || f == filter
  {
    var j := SubSlot(n.subs, filter);
    var n' := n.(subs := n.subs[j := RemoteSub(filter, qos, true)]);
    forall f ensures HasSub(n', f) <==> HasSub(n, f) || f == filter {
      if HasSub(n, f) && f != filter {
        var k :| 0 <= k < |n.subs| && IsSub(n.subs[k], f);
        assert IsSub(n'.subs[k], f);
      }
      if f == filter { assert IsSub(n'.subs[j], f); }
      if HasSub(n', f) && f != filter {
        var k :| 0 <= k < |n'.subs| && IsSub(n'.subs[k], f);
        assert IsSub(n.subs[k], f);
      }
    }
  }

  /** The table after an accepted subscribe, read off the recorded subscriptions. */
  lemma SubscribeShape(t: Tables, owner: NodeId, filter: string, qos: nat, hop: NodeId, perNode: nat)
    requires NodesOk(t.nodes, perNode)
    ensures var t' := Subscribe(t, owner, filter, qos, hop, perNode).0;
            NodesOk(t'.nodes, perNode) && |t'.nodes| == |t.nodes|
    ensures var t' := Subscribe(t, owner, filter, qos, hop, perNode).0;
            match NodeFor(t.nodes, owner, perNode)
            case None => t' == t
            case Some((i, n)) =>
              && IsOwner(t'.nodes[i], owner)
              && t'.nodes == t.nodes[i := t'.nodes[i]]
              && t'.nodes[i].nextHop == (if MovesHop(n, hop) then hop else n.nextHop)
              && (forall f :: HasSub(t'.nodes[i], f) <==>
                    HasSub(n, f) || (f == filter && SubSlot(n.subs, filter) < |n.subs|))
  {
    match NodeFor(t.nodes, owner, perNode)
    case None =>
    case Some((i, n)) =>
      var t' := Subscribe(t, owner, filter, qos, hop, perNode).0;
      var j := SubSlot(n.subs, filter);
      var n' := t'.nodes[i];
      if j < |n.subs| {
        SlotWritten(n.(nextHop := n'.nextHop), filter, qos);
        assert forall f :: HasSub(n.(nextHop := n'.nextHop), f) <==> HasSub(n, f);
      } else {
        assert n'.subs == n.subs;
      }
      assert FindOwner(t.nodes, owner, 0) < |t.nodes| || !t.nodes[i].inUse;
  }

  /** A slot's node replaced by one with the same owner and no fewer filters. */
  lemma SubscribedGrows(nodes: seq<RemoteNode>, i: nat, n: RemoteNode, owner: NodeId, filter: string)
    requires i < |nodes| && n.inUse
    requires nodes[i].inUse ==> nodes[i].owner == n.owner
    requires nodes[i].inUse ==> forall f :: HasSub(nodes[i], f) ==> HasSub(n, f)
    requires Subscribed(nodes, owner, filter)
    ensures Subscribed(nodes[i := n], owner, filter)
  {
    var k: nat :| Holds(nodes, k, owner, filter);
    assert Holds(nodes[i := n], k, owner, filter);
  }

  /** Subscribing keeps every route housed, over any hop, full tables included. */
  lemma SubscribeKeepsHoused(t: Tables, owner: NodeId, filter: string, qos: nat, hop: NodeId, perNode: nat)
    requires Housed(t, perNode)
    ensures Housed(Subscribe(t, owner, filter, qos, hop, perNode).0, perNode)
  {
    SubscribeShape(t, owner, filter, qos, hop, perNode);
    match NodeFor(t.nodes, owner, perNode)
    case None =>
    case Some((i, n)) =>
      var t' := Subscribe(t, owner, filter, qos, hop, perNode).0;
      var n' := t'.nodes[i];
      RefreshAll(t.routes, n');
      forall e | e in t.routes ensures Subscribed(t'.nodes, e.owner, e.filter) {
        SubscribedGrows(t.nodes, i, n', e.owner, e.filter);
      }
      forall e | e in t'.routes ensures Subscribed(t'.nodes, e.owner, e.filter) {
        if e !in t.routes {
          assert Holds(t'.nodes, i, e.owner, e.filter);
        }
      }
  }

  /** A new filter offered to an owner with all its slots used moves the node's
      next hop (the move comes before the slot check) but not its routes. */
  predicate MovesStale(t: Tables, owner: NodeId, filter: string, hop: NodeId, perNode: nat) {
    match NodeFor(t.nodes, owner, perNode)
    case None => false
    case Some((_, n)) => MovesHop(n, hop) && hop != n.nextHop && SubSlot(n.subs, filter) == |n.subs|
  }

  /** Such a move away from an unset hop, and not to the owner: the routes it leaves
      behind will not go when the new hop does. */
  predicate Strands(t: Tables, owner: NodeId, filter: string, hop: NodeId, perNode: nat) {
    MovesStale(t, owner, filter, hop, perNode) && hop != owner
  }

  lemma SubscribeKeepsHops(t: Tables, owner: NodeId, filter: string, qos: nat, hop: NodeId, perNode: nat)
    requires Sound(t, perNode) && !Strands(t, owner, filter, hop, perNode)
    ensures var t' := Subscribe(t, owner, filter, qos, hop, perNode).0; HopsOk(t'.nodes, t'.routes)
  {
    SubscribeShape(t, owner, filter, qos, hop, perNode);
    match NodeFor(t.nodes, owner, perNode)
    case None =>
    case Some((i, n)) =>
      var t' := Subscribe(t, owner, filter, qos, hop, perNode).0;
      RefreshAll(t.routes, t'.nodes[i]);
      forall e, k | e in t'.routes && 0 <= k < |t'.nodes| && IsOwner(t'.nodes[k], e.owner)
        ensures e.hop == t'.nodes[k].nextHop || t'.nodes[k].nextHop == e.owner
      {
        if e in t.routes {
          var m: nat :| Holds(t.nodes, m, e.owner, e.filter);
          assert m == k;
        }
      }
  }

  lemma SubscribeKeepsSound(t: Tables, owner: NodeId, filter: string, qos: nat, hop: NodeId, perNode: nat)
    requires Sound(t, perNode) && !Strands(t, owner, filter, hop, perNode)
    ensures Sound(Subscribe(t, owner, filter, qos, hop, perNode).0, perNode)
  {
    SubscribeKeepsHoused(t, owner, filter, qos, hop, perNode);
    SubscribeKeepsHops(t, owner, filter, qos, hop, perNode);
  }

  /** What a stale move leaves: a route of the owner over the hop moved away from. */
  lemma StaleRoute(t: Tables, owner: NodeId, filter: string, qos: nat, hop: NodeId, perNode: nat) returns (e: Entry, i: nat)
    requires Sound(t, perNode) && Synced(t) && perNode > 0 && MovesStale(t, owner, filter, hop, perNode)
    ensures i < |t.nodes| && IsOwner(t.nodes[i], owner) && MovesHop(t.nodes[i], hop)
    ensures var t' := Subscribe(t, owner, filter, qos, hop, perNode).0;
            && e in t'.routes && e.owner == owner && e.hop == t.nodes[i].nextHop != hop
            && |t'.nodes| == |t.nodes| && IsOwner(t'.nodes[i], owner) && t'.nodes[i].nextHop == hop
  {
    SubscribeShape(t, owner, filter, qos, hop, perNode);
    StaleAfterMove(t, owner, filter, hop, perNode);
    i := NodeFor(t.nodes, owner, perNode).value.0;
    var n := t.nodes[i];
    e := Entry(owner, n.subs[0].filter, n.nextHop);
    assert IsSub(n.subs[0], e.filter);
    assert Holds(t.nodes, i, owner, e.filter);
    assert IsRouteOf(t.nodes, e);
  }

  /** From tables in step, a subscribe keeps Sound exactly when it strands nothing. */
  lemma SubscribeSoundIff(t: Tables, owner: NodeId, filter: string, qos: nat, hop: NodeId, perNode: nat)
    requires Sound(t, perNode) && Synced(t) && perNode > 0
    ensures Sound(Subscribe(t, owner, filter, qos, hop, perNode).0, perNode) <==> !Strands(t, owner, filter, hop, perNode)
  {
    if Strands(t, owner, filter, hop, perNode) {
      var e, i := StaleRoute(t, owner, filter, qos, hop, perNode);
    } else {
      SubscribeKeepsSound(t, owner, filter, qos, hop, perNode);
    }
  }

  /** And it strands nothing exactly when removing the peer it came over leaves no
      route without its subscription. */
  lemma OrphansIffStrands(t: Tables, owner: NodeId, filter: string, qos: nat, hop: NodeId, perNode: nat)
    requires Sound(t, perNode) && Synced(t) && perNode > 0
    ensures var left := RemoveNode(Subscribe(t, owner, filter, qos, hop, perNode).0, hop);
            HaveSubs(left.nodes, left.routes) <==> !Strands(t, owner, filter, hop, perNode)
  {
    var t' := Subscribe(t, owner, filter, qos, hop, perNode).0;
    if Strands(t, owner, filter, hop, perNode) {
      var e, i := StaleRoute(t, owner, filter, qos, hop, perNode);
      SubscribeKeepsHoused(t, owner, filter, qos, hop, perNode);
      OrphanAfterRemove(t', e, i, hop, perNode);
    } else {
      SubscribeKeepsSound(t, owner, filter, qos, hop, perNode);
      RemoveKeepsSound(t', hop, perNode);
    }
  }

  lemma OrphanAfterRemove(t: Tables, e: Entry, i: nat, hop: NodeId, perNode: nat)
    requires Housed(t, perNode) && e in t.routes && e.owner != hop && e.hop != hop
    requires i < |t.nodes| && IsOwner(t.nodes[i], e.owner) && t.nodes[i].nextHop == hop
    ensures var left := RemoveNode(t, hop); e in left.routes && !Subscribed(left.nodes, e.owner, e.filter)
  {
    RemoveShape(t, hop, perNode);
    var left := RemoveNode(t, hop);
    forall k: nat ensures !Holds(left.nodes, k, e.owner, e.filter) {
      assert k < |left.nodes| && left.nodes[k].inUse ==> left.nodes[k] == t.nodes[k];
    }
  }

  lemma UnsubscribeShape(t: Tables, owner: NodeId, filter: string, perNode: nat)
    requires NodesOk(t.nodes, perNode)
    ensures var t' := Unsubscribe(t, owner, filter).0;
            && NodesOk(t'.nodes, perNode) && |t'.nodes| == |t.nodes|
            && (forall o, f :: Subscribed(t'.nodes, o, f) <==>
                  Subscribed(t.nodes, o, f) && !(o == owner && f == filter))
            && (forall k :: 0 <= k < |t'.nodes| && t'.nodes[k].inUse ==>
                  t.nodes[k].inUse && t'.nodes[k].owner == t.nodes[k].owner
                  && t'.nodes[k].nextHop == t.nodes[k].nextHop)
  {
    var i := FindOwner(t.nodes, owner, 0);
    var t' := Unsubscribe(t, owner, filter).0;
    if i < |t.nodes| {
      var n, n' := t.nodes[i], t'.nodes[i];
      var kept := n.(subs := DropSubs(n.subs, filter));
      forall f ensures HasSub(kept, f) <==> HasSub(n, f) && f != filter {
        if HasSub(n, f) && f != filter {
          var j :| 0 <= j < |n.subs| && IsSub(n.subs[j], f);
          assert IsSub(kept.subs[j], f);
        }
        if HasSub(kept, f) {
          var j :| 0 <= j < |kept.subs| && IsSub(kept.subs[j], f);
          assert IsSub(n.subs[j], f);
        }
      }
      assert NoLiveSubs(kept) ==> forall f :: !HasSub(kept, f);
      forall o, f ensures Subscribed(t'.nodes, o, f) <==>
                            Subscribed(t.nodes, o, f) && !(o == owner && f == filter) {
        if Subscribed(t.nodes, o, f) && !(o == owner && f == filter) {
          var k: nat :| Holds(t.nodes, k, o, f);
          assert Holds(t'.nodes, k, o, f);
        }
        if Subscribed(t'.nodes, o, f) {
          var k: nat :| Holds(t'.nodes, k, o, f);
          assert Holds(t.nodes, k, o, f);
        }
      }
    } else {
      assert forall k: nat :: !Holds(t.nodes, k, owner, filter);
    }
  }

  /** A subscription held is held by the node a search for its owner finds. */
  lemma FoundHolds(nodes: seq<RemoteNode>, owner: NodeId, filter: string, perNode: nat)
    requires NodesOk(nodes, perNode) && Subscribed(nodes, owner, filter)
    ensures FindOwner(nodes, owner, 0) < |nodes| && HasSub(nodes[FindOwner(nodes, owner, 0)], filter)
  {
    var k: nat :| Holds(nodes, k, owner, filter);
  }

  lemma UnsubscribeKeepsSound(t: Tables, owner: NodeId, filter: string, perNode: nat)
    requires Sound(t, perNode)
    ensures Sound(Unsubscribe(t, owner, filter).0, perNode)
  {
    UnsubscribeKeepsHoused(t, owner, filter, perNode);
    UnsubscribeShape(t, owner, filter, perNode);
  }

  lemma UnsubscribeKeepsHoused(t: Tables, owner: NodeId, filter: string, perNode: nat)
    requires Housed(t, perNode)
    ensures Housed(Unsubscribe(t, owner, filter).0, perNode)
  {
    UnsubscribeShape(t, owner, filter, perNode);
    var t' := Unsubscribe(t, owner, filter).0;
    forall e | e in t'.routes ensures Subscribed(t'.nodes, e.owner, e.filter) {
      FoundHolds(t.nodes, e.owner, e.filter, perNode);
    }
  }

  lemma RemoveShape(t: Tables, id: NodeId, perNode: nat)
    requires NodesOk(t.nodes, perNode)
    ensures var t' := RemoveNode(t, id);
            && NodesOk(t'.nodes, perNode) && |t'.nodes| == |t.nodes|
            && (forall k :: 0 <= k < |t.nodes| && t.nodes[k].inUse && !GoesWith(t.nodes[k], id) ==>
                  t'.nodes[k] == t.nodes[k])
            && (forall k :: 0 <= k < |t.nodes| && t'.nodes[k].inUse ==>
                  t'.nodes[k] == t.nodes[k] && !GoesWith(t.nodes[k], id))
  {
    var t' := RemoveNode(t, id);
    forall i | 0 <= i < |t'.nodes| ensures |t'.nodes[i].subs| == perNode && FiltersUnique(t'.nodes[i]) {
      assert FiltersUnique(t.nodes[i]);
    }
  }

  lemma RemoveKeepsSound(t: Tables, id: NodeId, perNode: nat)
    requires Sound(t, perNode)
    ensures Sound(RemoveNode(t, id), perNode)
  {
    RemoveShape(t, id, perNode);
    var t' := RemoveNode(t, id);
    forall e | e in t'.routes ensures Subscribed(t'.nodes, e.owner, e.filter) {
      var k: nat :| Holds(t.nodes, k, e.owner, e.filter);
      assert !GoesWith(t.nodes[k], id);
      assert Holds(t'.nodes, k, e.owner, e.filter);
    }
  }

  // ---------- when the routes are exactly the live subscriptions ----------

  lemma SubscribeSync(t: Tables, owner: NodeId, filter: string, qos: nat, hop: NodeId, perNode: nat)
    requires Sound(t, perNode) && Synced(t) && perNode > 0
    ensures Synced(Subscribe(t, owner, filter, qos, hop, perNode).0)
            <==> !MovesStale(t, owner, filter, hop, perNode)
  {
    if MovesStale(t, owner, filter, hop, perNode) {
      var e, i := StaleRoute(t, owner, filter, qos, hop, perNode);
      SubscribeShape(t, owner, filter, qos, hop, perNode);
      assert !IsRouteOf(Subscribe(t, owner, filter, qos, hop, perNode).0.nodes, e);
    } else {
      SubscribeStaysSynced(t, owner, filter, qos, hop, perNode);
    }
  }

  /** One slot, filled over 2; the owner itself then offers another filter. */
  lemma StaleMove()
    ensures var t := Tables([RemoteNode(1, 2, true, [RemoteSub("a", 0, true)])], {Entry(1, "a", 2)});
            var t' := Subscribe(t, 1, "b", 0, 1, 1).0;
            MovesStale(t, 1, "b", 1, 1) && t'.nodes[0].nextHop == 1 && Entry(1, "a", 2) in t'.routes
  {
    var t := Tables([RemoteNode(1, 2, true, [RemoteSub("a", 0, true)])], {Entry(1, "a", 2)});
    assert IsOwner(t.nodes[0], 1) && FindOwner(t.nodes, 1, 0) == 0;
    assert !IsSub(t.nodes[0].subs[0], "b") by { assert "a"[0] != "b"[0]; }
    assert SubSlot(t.nodes[0].subs, "b") == 1;
  }

  lemma SubscribeStaysSynced(t: Tables, owner: NodeId, filter: string, qos: nat, hop: NodeId, perNode: nat)
    requires Sound(t, perNode) && Synced(t) && !MovesStale(t, owner, filter, hop, perNode)
    ensures Synced(Subscribe(t, owner, filter, qos, hop, perNode).0)
  {
    SubscribeShape(t, owner, filter, qos, hop, perNode);
    match NodeFor(t.nodes, owner, perNode)
    case None =>
    case Some((i, n)) =>
      var t' := Subscribe(t, owner, filter, qos, hop, perNode).0;
      var n' := t'.nodes[i];
      RefreshAll(t.routes, n');
      forall e ensures e in t'.routes <==> IsRouteOf(t'.nodes, e) {
        var f := e.filter;
        if e.owner != owner {
          forall k: nat ensures Holds(t.nodes, k, e.owner, f) <==> Holds(t'.nodes, k, e.owner, f) {}
        } else if HasSub(n', f) {
          assert Holds(t'.nodes, i, owner, f);
          assert IsRouteOf(t'.nodes, e) <==> e.hop == n'.nextHop;
          assert HasSub(n, f) ==> Holds(t.nodes, i, owner, f);
        }
      }
  }

  /** In the stale case the owner's node is full, hence old. */
  lemma StaleAfterMove(t: Tables, owner: NodeId, filter: string, hop: NodeId, perNode: nat)
    requires NodesOk(t.nodes, perNode) && perNode > 0
    requires MovesStale(t, owner, filter, hop, perNode)
    ensures var (i, n) := NodeFor(t.nodes, owner, perNode).value;
            n == t.nodes[i] && IsOwner(n, owner) && n.subs != [] && n.subs[0].inUse
  {
    var (i, n) := NodeFor(t.nodes, owner, perNode).value;
    assert FirstWhere(n.subs, FreeSub, 0) == |n.subs|;
  }

  lemma UnsubscribeSync(t: Tables, owner: NodeId, filter: string, perNode: nat)
    requires Sound(t, perNode) && Synced(t)
    ensures Synced(Unsubscribe(t, owner, filter).0)
  {
    UnsubscribeShape(t, owner, filter, perNode);
    var t' := Unsubscribe(t, owner, filter).0;
    forall e ensures e in t'.routes <==> IsRouteOf(t'.nodes, e) {
      if IsRouteOf(t.nodes, e) && !(e.owner == owner && e.filter == filter) {
        assert Subscribed(t'.nodes, e.owner, e.filter);
        var k: nat :| Holds(t'.nodes, k, e.owner, e.filter);
        assert IsRouteOf(t'.nodes, e);
      }
      if IsRouteOf(t'.nodes, e) {
        var k: nat :| Holds(t'.nodes, k, e.owner, e.filter) && t'.nodes[k].nextHop == e.hop;
        assert Subscribed(t'.nodes, e.owner, e.filter);
        var m: nat :| Holds(t.nodes, m, e.owner, e.filter);
        assert m == k;
        if e.owner == owner && e.filter == filter { assert false; }
      }
      var i := FindOwner(t.nodes, owner, 0);
      if e in t.routes && e.owner == owner && e.filter == filter {
        assert IsRouteOf(t.nodes, e);
        var k: nat :| Holds(t.nodes, k, owner, filter);
        assert k == i;
      }
    }
  }

  lemma RemoveSync(t: Tables, id: NodeId, perNode: nat)
    requires Sound(t, perNode) && Synced(t)
    ensures Synced(RemoveNode(t, id))
  {
    RemoveShape(t, id, perNode);
    var t' := RemoveNode(t, id);
    forall e ensures e in t'.routes <==> IsRouteOf(t'.nodes, e) {
      if IsRouteOf(t'.nodes, e) {
        var k: nat :| Holds(t'.nodes, k, e.owner, e.filter) && t'.nodes[k].nextHop == e.hop;
        assert Holds(t.nodes, k, e.owner, e.filter);
        assert IsRouteOf(t.nodes, e);
      }
      if e in t'.routes {
        var k: nat :| Holds(t.nodes, k, e.owner, e.filter) && t.nodes[k].nextHop == e.hop;
        assert Holds(t'.nodes, k, e.owner, e.filter);
      }
    }
  }

  // ---------- runs ----------

  datatype Op =
    | Sub(owner: NodeId, filter: string, qos: nat, hop: NodeId)
    | Unsub(owner: NodeId, filter: string)
    | Remove(id: NodeId)

  function EmptyNodes(nodeMax: nat, perNode: nat): (r: seq<RemoteNode>)
    ensures |r| == nodeMax && forall i :: 0 <= i < nodeMax ==> r[i] == ClearedNode(perNode)
  {
    seq(nodeMax, _ => ClearedNode(perNode))
  }

  ghost function Start(nodeMax: nat, perNode: nat): Tables {
    Tables(EmptyNodes(nodeMax, perNode), {})
  }

  ghost function Apply(t: Tables, op: Op, perNode: nat): Tables {
    match op
    case Sub(owner, filter, qos, hop) => Subscribe(t, owner, filter, qos, hop, perNode).0
    case Unsub(owner, filter) => Unsubscribe(t, owner, filter).0
    case Remove(id) => RemoveNode(t, id)
  }

  ghost function Run(t: Tables, ops: seq<Op>, perNode: nat): Tables {
    if ops == [] then t else Apply(Run(t, ops[..|ops|-1], perNode), ops[|ops|-1], perNode)
  }

  /** No step of the run strands a route. */
  ghost predicate NeverStrands(t: Tables, ops: seq<Op>, perNode: nat) {
    forall i :: 0 <= i < |ops| ==> StepSafe(Run(t, ops[..i], perNode), ops[i], perNode)
  }

  predicate StepSafe(t: Tables, op: Op, perNode: nat) {
    op.Sub? ==> !Strands(t, op.owner, op.filter, op.hop, perNode)
  }

  predicate StepInSync(t: Tables, op: Op, perNode: nat) {
    op.Sub? ==> !MovesStale(t, op.owner, op.filter, op.hop, perNode)
  }

  /** No step of the run offers a full owner a new filter over a better path. */
  ghost predicate NeverStale(t: Tables, ops: seq<Op>, perNode: nat) {
    forall i :: 0 <= i < |ops| ==> StepInSync(Run(t, ops[..i], perNode), ops[i], perNode)
  }

  lemma StepKeepsSound(t: Tables, op: Op, perNode: nat)
    requires Sound(t, perNode) && StepSafe(t, op, perNode)
    ensures Sound(Apply(t, op, perNode), perNode) && |Apply(t, op, perNode).nodes| == |t.nodes|
  {
    match op
    case Sub(owner, filter, qos, hop) =>
      SubscribeShape(t, owner, filter, qos, hop, perNode);
      SubscribeKeepsSound(t, owner, filter, qos, hop, perNode);
    case Unsub(owner, filter) => UnsubscribeKeepsSound(t, owner, filter, perNode);
    case Remove(id) => RemoveKeepsSound(t, id, perNode);
  }

  /** In every state reached without stranding a route, full tables or not, no live
      route lacks its subscription. */
  lemma {:induction false} RunKeepsSound(nodeMax: nat, ops: seq<Op>, perNode: nat)
    requires NeverStrands(Start(nodeMax, perNode), ops, perNode)
    ensures Sound(Run(Start(nodeMax, perNode), ops, perNode), perNode)
    ensures |Run(Start(nodeMax, perNode), ops, perNode).nodes| == nodeMax
  {
    var s := Start(nodeMax, perNode);
    if ops == [] {
    } else {
      var before := ops[..|ops|-1];
      assert StepSafe(Run(s, ops[..|ops|-1], perNode), ops[|ops|-1], perNode);
      forall i | 0 <= i < |before| ensures StepSafe(Run(s, before[..i], perNode), before[i], perNode) {
        assert before[..i] == ops[..i] && StepSafe(Run(s, ops[..i], perNode), ops[i], perNode);
      }
      RunKeepsSound(nodeMax, before, perNode);
      StepKeepsSound(Run(s, before, perNode), ops[|ops|-1], perNode);
    }
  }

  lemma StepKeepsSync(t: Tables, op: Op, perNode: nat)
    requires Sound(t, perNode) && Synced(t) && perNode > 0 && StepInSync(t, op, perNode)
    ensures Synced(Apply(t, op, perNode)) && Sound(Apply(t, op, perNode), perNode)
  {
    StepKeepsSound(t, op, perNode);
    match op
    case Sub(owner, filter, qos, hop) => SubscribeSync(t, owner, filter, qos, hop, perNode);
    case Unsub(owner, filter) => UnsubscribeSync(t, owner, filter, perNode);
    case Remove(id) => RemoveSync(t, id, perNode);
  }

  /** While no owner is offered a new filter over a better path with all its slots
      used, the routes are exactly the live subscriptions over their nodes' hops. */
  lemma {:induction false} RunKeepsSync(nodeMax: nat, ops: seq<Op>, perNode: nat)
    requires perNode > 0 && NeverStale(Start(nodeMax, perNode), ops, perNode)
    ensures Synced(Run(Start(nodeMax, perNode), ops, perNode)) && Sound(Run(Start(nodeMax, perNode), ops, perNode), perNode)
  {
    var s := Start(nodeMax, perNode);
    if ops == [] {
    } else {
      var before := ops[..|ops|-1];
      assert StepInSync(Run(s, ops[..|ops|-1], perNode), ops[|ops|-1], perNode);
      forall i | 0 <= i < |before| ensures StepInSync(Run(s, before[..i], perNode), before[i], perNode) {
        assert before[..i] == ops[..i] && StepInSync(Run(s, ops[..i], perNode), ops[i], perNode);
      }
      RunKeepsSync(nodeMax, before, perNode);
      StepKeepsSync(Run(s, before, perNode), ops[|ops|-1], perNode);
    }
  }

  /** A node whose only slot was filled over the zero hop. */
  lemma FirstOverZero()
    ensures var t := Subscribe(Start(1, 1), 1, "a", 0, NO_ID, 1).0;
            && t.nodes == [RemoteNode(1, NO_ID, true, [RemoteSub("a", 0, true)])]
            && Entry(1, "a", NO_ID) in t.routes && Housed(t, 1)
  {
    var t := Subscribe(Start(1, 1), 1, "a", 0, NO_ID, 1).0;
    var made := RemoteNode(1, NO_ID, true, ClearedSubs(1));
    assert FindOwner(Start(1, 1).nodes, 1, 0) == 1 && FirstWhere(Start(1, 1).nodes, FreeNode, 0) == 0;
    assert NodeFor(Start(1, 1).nodes, 1, 1) == Some((0, made));
    assert FindSub(made.subs, "a", 0) == 1 && FirstWhere(made.subs, FreeSub, 0) == 0;
    assert made.subs[0 := RemoteSub("a", 0, true)] == [RemoteSub("a", 0, true)];
    SubscribeKeepsHoused(Start(1, 1), 1, "a", 0, NO_ID, 1);
    RefreshAll({}, t.nodes[0]);
    assert IsSub(t.nodes[0].subs[0], "a");
  }

  lemma SecondStrands(t: Tables)
    requires t.nodes == [RemoteNode(1, NO_ID, true, [RemoteSub("a", 0, true)])]
    ensures Strands(t, 1, "b", 2, 1)
    ensures Subscribe(t, 1, "b", 0, 2, 1).0 == Tables([RemoteNode(1, 2, true, [RemoteSub("a", 0, true)])], t.routes)
  {
    assert IsOwner(t.nodes[0], 1) && FindOwner(t.nodes, 1, 0) == 0;
    var subs := t.nodes[0].subs;
    assert !IsSub(subs[0], "b") by { assert "a"[0] != "b"[0]; }
    assert SubSlot(subs, "b") == 1;
    assert t.nodes[0 := t.nodes[0].(nextHop := 2)] == [RemoteNode(1, 2, true, subs)];
  }

  /** A stranding run: the first peer announces the zero id, which counts as unset,
      the one slot is taken, and the route outlives the node. */
  lemma ZeroHopLeavesOrphan()
    ensures var t := Run(Start(1, 1), [Sub(1, "a", 0, NO_ID), Sub(1, "b", 0, 2), Remove(2)], 1);
            Entry(1, "a", NO_ID) in t.routes && !Subscribed(t.nodes, 1, "a")
  {
    var s, a, b, c := Start(1, 1), Sub(1, "a", 0, NO_ID), Sub(1, "b", 0, 2), Remove(2);
    FirstOverZero();
    SecondStrands(Apply(s, a, 1));
    SubscribeKeepsHoused(Apply(s, a, 1), 1, "b", 0, 2, 1);
    OrphanAfterRemove(Apply(Apply(s, a, 1), b, 1), Entry(1, "a", NO_ID), 0, 2, 1);
    ThreeSteps(s, a, b, c);
  }

  lemma ThreeSteps(t: Tables, a: Op, b: Op, c: Op)
    ensures Run(t, [a, b, c], 1) == Apply(Apply(Apply(t, a, 1), b, 1), c, 1)
  {
    assert [a, b, c][..2] == [a, b] && [a, b][..1] == [a] && [a][..0] == [];
    assert Run(t, [a], 1) == Apply(t, a, 1);
    assert Run(t, [a, b], 1) == Apply(Run(t, [a], 1), b, 1);
  }

  // ---------- the query ----------

  /** The next hops a topic is forwarded to. */
  ghost function Hops(routes: set<Entry>, topic: string, exclude: Option<NodeId>): set<NodeId> {
    set e | e in routes && RouterMatch(e.filter, topic) && exclude != Some(e.hop) :: e.hop
  }

  /** A slot whose node reaches `hop` and holds a filter matching the topic. */
  ghost predicate Wants(n: RemoteNode, topic: string, hop: NodeId) {
    n.inUse && n.nextHop == hop && exists j :: 0 <= j < |n.subs| && n.subs[j].inUse && RouterMatch(n.subs[j].filter, topic)
  }

  /** The route index answers as a plain scan of the subscriptions would. */
  lemma HopsArePlainScan(t: Tables, topic: string, exclude: Option<NodeId>)
    requires Synced(t)
    ensures forall h :: h in Hops(t.routes, topic, exclude) <==>
              exclude != Some(h) && exists i :: 0 <= i < |t.nodes| && Wants(t.nodes[i], topic, h)
  {
    forall h ensures h in Hops(t.routes, topic, exclude) <==>
              exclude != Some(h) && exists i :: 0 <= i < |t.nodes| && Wants(t.nodes[i], topic, h)
    {
      if h in Hops(t.routes, topic, exclude) {
        var e :| e in t.routes && RouterMatch(e.filter, topic) && e.hop == h && exclude != Some(h);
        var i: nat :| Holds(t.nodes, i, e.owner, e.filter) && t.nodes[i].nextHop == h;
        assert Wants(t.nodes[i], topic, h);
      }
      if exclude != Some(h) && exists i :: 0 <= i < |t.nodes| && Wants(t.nodes[i], topic, h) {
        var i :| 0 <= i < |t.nodes| && Wants(t.nodes[i], topic, h);
        var n := t.nodes[i];
        var j :| 0 <= j < |n.subs| && n.subs[j].inUse && RouterMatch(n.subs[j].filter, topic);
        assert IsSub(n.subs[j], n.subs[j].filter);
        assert Holds(t.nodes, i, n.owner, n.subs[j].filter);
        assert IsRouteOf(t.nodes, Entry(n.owner, n.subs[j].filter, h));
      }
    }
  }

  // ---------- room ----------

  /** Routes with distinct keys, each with its live subscription, are no more
      than the subscription slots. */
  lemma RoutesFit(nodes: seq<RemoteNode>, routes: set<Entry>, perNode: nat)
    requires NodesOk(nodes, perNode) && KeysUnique(routes) && HaveSubs(nodes, routes)
    ensures |routes| <= |nodes| * perNode
  {
    var place := (e: Entry) => Place(nodes, e);
    forall a, b | a in routes && b in routes && place(a) == place(b) ensures a == b {
      assert Subscribed(nodes, a.owner, a.filter) && Subscribed(nodes, b.owner, b.filter);
    }
    InjectiveImageSize(place, routes);
    forall p | p in Image(place, routes) ensures p in Grid(|nodes|, perNode) {
      var e :| e in routes && place(e) == p;
      assert Subscribed(nodes, e.owner, e.filter);
    }
    SubsetSize(Image(place, routes), Grid(|nodes|, perNode));
    GridSize(|nodes|, perNode);
  }

  /** The (node slot, subscription slot) a route comes from. */
  ghost function Place(nodes: seq<RemoteNode>, e: Entry): (p: (nat, nat))
    ensures Subscribed(nodes, e.owner, e.filter) ==>
              p.0 < |nodes| && p.1 < |nodes[p.0].subs|
              && IsOwner(nodes[p.0], e.owner) && IsSub(nodes[p.0].subs[p.1], e.filter)
  {
    if Subscribed(nodes, e.owner, e.filter) then
      var i: nat :| Holds(nodes, i, e.owner, e.filter);
      var j: nat :| j < |nodes[i].subs| && IsSub(nodes[i].subs[j], e.filter);
      (i, j)
    else (0, 0)
  }
}
