/**
 Delivery in a full mesh: every broker is a router linked to every other, and
 every table holds the others' filters with direct next hops.
 */
module MeshDelivery {
  import opened Common
  import opened TopicFilter
  import opened RouteModel
  import opened MeshPublish

  type Filters = map<NodeId, set<string>>

  /** The routes each broker holds. */
  type RouteSets = map<NodeId, set<Entry>>

  ghost predicate FullMesh(m: Mesh, filters: Filters) {
    && MeshOk(m)
    && filters.Keys == m.ids
    && |m.ids| <= m.peerMax + 1
    && (forall u, v :: u in m.ids && v in m.ids ==> ((u, v) in m.links <==> u != v))
  }

  /** The others' filters exactly, each over its owner.  A broker may also hold its
      own filters, relayed back to it, over whoever relayed them. */
  ghost predicate DirectTable(ids: set<NodeId>, filters: Filters, v: NodeId, routes: set<Entry>)
    requires filters.Keys == ids
  {
    && (forall w, f :: w in ids && w != v && f in filters[w] ==> Entry(w, f, w) in routes)
    && (forall e :: e in routes && e.owner != v ==> e.owner in ids && e.hop == e.owner && e.filter in filters[e.owner])
    && (forall e :: e in routes && e.owner == v ==> v in ids && e.filter in filters[v] && e.hop in ids && e.hop != v)
  }

  ghost predicate DirectTables(ids: set<NodeId>, filters: Filters, routes: RouteSets) {
    && filters.Keys == ids && routes.Keys == ids
    && forall v :: v in ids ==> DirectTable(ids, filters, v, routes[v])
  }

  /** The step's hops are what the broker's routes answer. */
  ghost predicate Answered(m: Mesh, routes: RouteSets, s: Step) {
    match s
    case Publish(p, topic, _, hops) => p in routes && Answers(routes[p], m.peerMax, topic, None, hops)
    case Deliver(pkt, _, hops) => pkt.to in routes && Answers(routes[pkt.to], m.peerMax, pkt.topic, Some(pkt.from), hops)
  }

  ghost predicate Subscribes(filters: Filters, w: NodeId, topic: string) {
    w in filters && exists f :: f in filters[w] && RouterMatch(f, topic)
  }

  ghost function Others(m: Mesh, filters: Filters, v: NodeId, topic: string, exclude: Option<NodeId>): set<NodeId> {
    set w | w in m.ids && w != v && exclude != Some(w) && Subscribes(filters, w, topic)
  }

  lemma AllOthersLinked(m: Mesh, filters: Filters, v: NodeId)
    requires FullMesh(m, filters) && v in m.ids
    ensures Neighbours(m, v) == m.ids - {v}
  {
    forall w | w in m.ids && w != v ensures w in Neighbours(m, v) {
      assert (v, w) in m.links;
    }
    forall w | w in Neighbours(m, v) ensures w in m.ids - {v} {
      assert (v, w) in m.links;
    }
  }

  lemma WantedCoversOthers(m: Mesh, filters: Filters, v: NodeId, routes: set<Entry>, topic: string, exclude: Option<NodeId>)
    requires FullMesh(m, filters) && v in m.ids && DirectTable(m.ids, filters, v, routes)
    ensures Others(m, filters, v, topic, exclude) <= Hops(routes, topic, exclude) <= m.ids - {v}
  {
    var wanted := Hops(routes, topic, exclude);
    forall w | w in Others(m, filters, v, topic, exclude) ensures w in wanted {
      var f :| f in filters[w] && RouterMatch(f, topic);
      assert Entry(w, f, w) in routes;
    }
  }

  /** In a full mesh a route query names every other subscriber, and only linked brokers. */
  lemma QueryCoversOthers(m: Mesh, filters: Filters, v: NodeId, routes: set<Entry>, topic: string, exclude: Option<NodeId>, hops: set<NodeId>)
    requires FullMesh(m, filters) && v in m.ids && DirectTable(m.ids, filters, v, routes)
    requires Answers(routes, m.peerMax, topic, exclude, hops)
    ensures Others(m, filters, v, topic, exclude) <= hops <= Neighbours(m, v)
  {
    AllOthersLinked(m, filters, v);
    WantedCoversOthers(m, filters, v, routes, topic, exclude);
    var wanted := Hops(routes, topic, exclude);
    assert |m.ids - {v}| == |m.ids| - 1;
    SubsetSize(wanted, m.ids - {v});
    SubsetSize(hops, wanted);
  }

  /** The step's hops reach every subscriber but the broker itself and the sender. */
  ghost predicate ReachesOthers(m: Mesh, filters: Filters, s: Step) {
    match s
    case Publish(p, topic, _, hops) => Others(m, filters, p, topic, None) <= hops
    case Deliver(pkt, _, hops) => Others(m, filters, pkt.to, pkt.topic, Some(pkt.from)) <= hops
  }

  lemma AnsweredReaches(m: Mesh, filters: Filters, routes: RouteSets, s: Step)
    requires FullMesh(m, filters) && DirectTables(m.ids, filters, routes) && Answered(m, routes, s)
    ensures ReachesOthers(m, filters, s)
  {
    match s
    case Publish(p, topic, _, hops) => QueryCoversOthers(m, filters, p, routes[p], topic, None, hops);
    case Deliver(pkt, _, hops) => QueryCoversOthers(m, filters, pkt.to, routes[pkt.to], pkt.topic, Some(pkt.from), hops);
  }

  // ---------- a publish leaves no trace before it is made ----------

  ghost predicate Appears(net: Net, k: Key) {
    || (exists v :: (v, k) in net.delivered)
    || (exists p :: p in net.flight && p.key == k)
  }

  /** What a cache holds was handled. */
  ghost predicate CachedWasHandled(net: Net) {
    forall v, j :: v in net.caches && 0 <= j < |net.caches[v]| && net.caches[v][j] != NO_KEY
      ==> (v, net.caches[v][j]) in net.delivered
  }

  lemma InitialCached(m: Mesh)
    requires MeshOk(m)
    ensures NetOk(m, Initial(m)) && CachedWasHandled(Initial(m))
  {}

  lemma StepAppears(m: Mesh, net: Net, s: Step, k: Key)
    requires MeshOk(m) && NetOk(m, net) && Enabled(m, net, s) && !Publishes(net, s, k)
    ensures Appears(Next(m, net, s), k) ==> Appears(net, k)
  {}

  lemma StepKeepsCached(m: Mesh, net: Net, s: Step, net': Net)
    requires MeshOk(m) && NetOk(m, net) && CachedWasHandled(net)
    requires Enabled(m, net, s) && net' == Next(m, net, s)
    ensures NetOk(m, net') && CachedWasHandled(net')
  {
    StepKeepsNetOk(m, net, s);
    if s.Deliver? {
      ReceiveKeepsCached(m, net, s.packet, s.router, s.hops);
    }
  }

  lemma ReceiveKeepsCached(m: Mesh, net: Net, pkt: Packet, router: bool, hops: set<NodeId>)
    requires MeshOk(m) && NetOk(m, net) && CachedWasHandled(net) && pkt in net.flight
    ensures CachedWasHandled(Receive(m, net, pkt, router, hops))
  {
    var net' := Receive(m, net, pkt, router, hops);
    forall v, j | v in net'.caches && 0 <= j < |net'.caches[v]| && net'.caches[v][j] != NO_KEY
      ensures (v, net'.caches[v][j]) in net'.delivered
    {
      if v != pkt.to || net'.caches[v][j] != pkt.key {
        assert net'.caches[v][j] == net.caches[v][j];
      }
    }
  }

  lemma RunStepKeepsCached(m: Mesh, nets: seq<Net>, steps: seq<Step>, i: nat)
    requires MeshOk(m) && IsRun(m, nets, steps) && i < |steps|
    requires NetOk(m, nets[i]) && CachedWasHandled(nets[i])
    ensures NetOk(m, nets[i+1]) && CachedWasHandled(nets[i+1])
  {
    RunStep(m, nets, steps, i);
    StepKeepsCached(m, nets[i], steps[i], nets[i+1]);
  }

  lemma {:induction false} RunKeepsCached(m: Mesh, nets: seq<Net>, steps: seq<Step>, n: nat)
    requires MeshOk(m) && IsRun(m, nets, steps) && n <= |steps|
    ensures NetOk(m, nets[n]) && CachedWasHandled(nets[n])
  {
    if n > 0 {
      RunKeepsCached(m, nets, steps, n - 1);
      RunStepKeepsCached(m, nets, steps, n - 1);
    } else {
      InitialCached(m);
    }
  }

  ghost predicate PublishedOnlyAt(nets: seq<Net>, steps: seq<Step>, at: nat, k: Key)
    requires |nets| == |steps| + 1
  {
    forall i :: 0 <= i < |steps| ==> (Publishes(nets[i], steps[i], k) <==> i == at)
  }

  lemma StillFresh(m: Mesh, nets: seq<Net>, steps: seq<Step>, at: nat, n: nat, k: Key)
    requires MeshOk(m) && IsRun(m, nets, steps) && n < at < |steps|
    requires PublishedOnlyAt(nets, steps, at, k) && !Appears(nets[n], k)
    ensures !Appears(nets[n+1], k)
  {
    RunNetOk(m, nets, steps, n);
    RunStep(m, nets, steps, n);
    assert !Publishes(nets[n], steps[n], k);
    StepAppears(m, nets[n], steps[n], k);
  }

  lemma {:induction false} FreshBefore(m: Mesh, nets: seq<Net>, steps: seq<Step>, at: nat, n: nat, k: Key)
    requires MeshOk(m) && IsRun(m, nets, steps) && n <= at < |steps|
    requires PublishedOnlyAt(nets, steps, at, k)
    ensures !Appears(nets[n], k)
  {
    if n > 0 {
      FreshBefore(m, nets, steps, at, n - 1, k);
      StillFresh(m, nets, steps, at, n - 1, k);
    }
  }

  // ---------- the two stages of a publish ----------

  /** A frame of the publish is on the way to `w`. */
  ghost predicate Coming(net: Net, w: NodeId, k: Key) {
    exists p :: p in net.flight && p.to == w && p.key == k
  }

  /** Every other subscriber has handled the publish, or will get it. */
  ghost predicate Covered(m: Mesh, filters: Filters, net: Net, p: NodeId, k: Key, topic: string) {
    forall w :: w in m.ids && w != p && Subscribes(filters, w, topic) ==> (w, k) in net.delivered || Coming(net, w, k)
  }

  /** The only frame of the publish is on the way to the shard owner. */
  ghost predicate HandedOver(m: Mesh, net: Net, p: NodeId, o: NodeId, k: Key, topic: string) {
    && o in m.ids && o != p
    && Packet(p, o, k, topic) in net.flight
    && (o, k) !in net.delivered
    && forall q :: q in net.flight && q.key == k ==> q == Packet(p, o, k, topic)
  }

  /** The publisher does not own the shard: one frame, to the owner. */
  lemma PublishHandsOver(m: Mesh, filters: Filters, net: Net, s: Step, k: Key)
    requires FullMesh(m, filters) && NetOk(m, net) && s.Publish? && Enabled(m, net, s)
    requires Publishes(net, s, k) && !Appears(net, k)
    requires s.shardOwner != s.node && s.shardOwner in m.ids
    ensures HandedOver(m, Next(m, net, s), s.node, s.shardOwner, k, s.topic)
  {
    var p, o := s.node, s.shardOwner;
    AllOthersLinked(m, filters, p);
    var sent := Packets(p, {o}, k, s.topic);
    assert PublishTargets(p, o, Neighbours(m, p), s.hops) == {o};
    assert Packet(p, o, k, s.topic) in sent;
    assert forall q :: q in sent ==> q == Packet(p, o, k, s.topic);
    assert forall q :: q in net.flight ==> q.key != k;
  }

  /** Otherwise a frame to each other subscriber. */
  lemma PublishSpreads(m: Mesh, filters: Filters, net: Net, s: Step, k: Key)
    requires FullMesh(m, filters) && NetOk(m, net) && s.Publish? && Enabled(m, net, s) && ReachesOthers(m, filters, s)
    requires Publishes(net, s, k) && (s.shardOwner == s.node || s.shardOwner !in m.ids)
    ensures Covered(m, filters, Next(m, net, s), s.node, k, s.topic)
  {
    var p, net' := s.node, Next(m, net, s);
    AllOthersLinked(m, filters, p);
    var targets := PublishTargets(p, s.shardOwner, Neighbours(m, p), s.hops);
    forall w | w in m.ids && w != p && Subscribes(filters, w, s.topic) ensures Coming(net', w, k) {
      assert w in Others(m, filters, p, s.topic, None) && w in s.hops * Neighbours(m, p);
      assert Packet(p, w, k, s.topic) in Packets(p, targets, k, s.topic);
      assert Packet(p, w, k, s.topic) in net'.flight;
    }
  }

  lemma ReceiveKeepsCovered(m: Mesh, filters: Filters, net: Net, pkt: Packet, router: bool, hops: set<NodeId>,
                            p: NodeId, k: Key, topic: string)
    requires MeshOk(m) && NetOk(m, net) && CachedWasHandled(net) && pkt in net.flight
    requires Covered(m, filters, net, p, k, topic)
    ensures Covered(m, filters, Receive(m, net, pkt, router, hops), p, k, topic)
  {
    var net' := Receive(m, net, pkt, router, hops);
    forall w | w in m.ids && w != p && Subscribes(filters, w, topic)
      ensures (w, k) in net'.delivered || Coming(net', w, k)
    {
      if (w, k) !in net.delivered {
        var q :| q in net.flight && q.to == w && q.key == k;
        if q == pkt {
          assert (w, k) in net'.delivered;
        } else {
          assert q in net'.flight;
        }
      }
    }
  }

  /** The shard owner forwards to everyone but the publisher. */
  lemma OwnerForwards(m: Mesh, filters: Filters, net: Net, pkt: Packet, hops: set<NodeId>,
                      p: NodeId, o: NodeId, k: Key, topic: string)
    requires FullMesh(m, filters) && NetOk(m, net) && CachedWasHandled(net)
    requires HandedOver(m, net, p, o, k, topic) && pkt == Packet(p, o, k, topic)
    requires Others(m, filters, o, topic, Some(p)) <= hops
    ensures Covered(m, filters, Receive(m, net, pkt, true, hops), p, k, topic)
  {
    var net' := Receive(m, net, pkt, true, hops);
    AllOthersLinked(m, filters, o);
    OwnerRelays(m, net, pkt, hops);
    forall w | w in m.ids && w != p && Subscribes(filters, w, topic)
      ensures (w, k) in net'.delivered || Coming(net', w, k)
    {
      if w != o {
        assert w in Others(m, filters, o, topic, Some(p));
        assert Packet(o, w, k, topic) in net'.flight;
      }
    }
  }

  /** A frame not handled here before is handled, and one goes to each target. */
  lemma OwnerRelays(m: Mesh, net: Net, pkt: Packet, hops: set<NodeId>)
    requires MeshOk(m) && NetOk(m, net) && CachedWasHandled(net) && pkt in net.flight && (pkt.to, pkt.key) !in net.delivered
    ensures var net' := Receive(m, net, pkt, true, hops);
            && (pkt.to, pkt.key) in net'.delivered
            && forall w :: w in RelayTargets(m, pkt.to, true, hops) ==> Packet(pkt.to, w, pkt.key, pkt.topic) in net'.flight
  {
    assert !SeenBefore(net.caches[pkt.to], m.slot, pkt.key).0;
    var sent := Packets(pkt.to, RelayTargets(m, pkt.to, true, hops), pkt.key, pkt.topic);
    forall w | w in RelayTargets(m, pkt.to, true, hops)
      ensures Packet(pkt.to, w, pkt.key, pkt.topic) in Receive(m, net, pkt, true, hops).flight
    {
      assert Packet(pkt.to, w, pkt.key, pkt.topic) in sent;
    }
  }

  lemma OthersLeaveHandOver(m: Mesh, net: Net, s: Step, p: NodeId, o: NodeId, k: Key, topic: string)
    requires MeshOk(m) && NetOk(m, net) && Enabled(m, net, s) && HandedOver(m, net, p, o, k, topic)
    requires !Publishes(net, s, k) && (s.Deliver? ==> s.packet.key != k)
    ensures HandedOver(m, Next(m, net, s), p, o, k, topic)
  {}

  lemma OthersKeepCovered(m: Mesh, filters: Filters, net: Net, s: Step, p: NodeId, k: Key, topic: string)
    requires MeshOk(m) && NetOk(m, net) && Enabled(m, net, s) && s.Publish?
    requires Covered(m, filters, net, p, k, topic)
    ensures Covered(m, filters, Next(m, net, s), p, k, topic)
  {
    var net' := Next(m, net, s);
    forall w | Coming(net, w, k) ensures Coming(net', w, k) {
      var q :| q in net.flight && q.to == w && q.key == k;
      assert q in net'.flight;
    }
  }

  ghost predicate AllRouters(steps: seq<Step>) {
    forall i :: 0 <= i < |steps| && steps[i].Deliver? ==> steps[i].router
  }

  ghost predicate AllReach(m: Mesh, filters: Filters, steps: seq<Step>) {
    forall i :: 0 <= i < |steps| ==> ReachesOthers(m, filters, steps[i])
  }

  ghost predicate AllAnswered(m: Mesh, routes: RouteSets, steps: seq<Step>) {
    forall i :: 0 <= i < |steps| ==> Answered(m, routes, steps[i])
  }

  ghost predicate Stage(m: Mesh, filters: Filters, net: Net, pub: Step, k: Key)
    requires pub.Publish?
  {
    Covered(m, filters, net, pub.node, k, pub.topic) || HandedOver(m, net, pub.node, pub.shardOwner, k, pub.topic)
  }

  lemma PublishStarts(m: Mesh, filters: Filters, net: Net, s: Step, net': Net, k: Key)
    requires FullMesh(m, filters) && NetOk(m, net) && s.Publish?
    requires Enabled(m, net, s) && net' == Next(m, net, s)
    requires Publishes(net, s, k) && !Appears(net, k) && ReachesOthers(m, filters, s)
    ensures Stage(m, filters, net', s, k)
  {
    if s.shardOwner != s.node && s.shardOwner in m.ids {
      PublishHandsOver(m, filters, net, s, k);
    } else {
      PublishSpreads(m, filters, net, s, k);
    }
  }

  lemma StepKeepsStage(m: Mesh, filters: Filters, net: Net, s: Step, net': Net, pub: Step, k: Key)
    requires FullMesh(m, filters) && NetOk(m, net) && CachedWasHandled(net) && pub.Publish?
    requires Enabled(m, net, s) && net' == Next(m, net, s) && (s.Deliver? ==> s.router)
    requires !Publishes(net, s, k) && Stage(m, filters, net, pub, k) && ReachesOthers(m, filters, s)
    ensures Stage(m, filters, net', pub, k)
  {
    var p, o, topic := pub.node, pub.shardOwner, pub.topic;
    if Covered(m, filters, net, p, k, topic) {
      match s
      case Publish(_, _, _, _) => OthersKeepCovered(m, filters, net, s, p, k, topic);
      case Deliver(pkt, router, hops) => ReceiveKeepsCovered(m, filters, net, pkt, router, hops, p, k, topic);
    } else if s.Deliver? && s.packet.key == k {
      OwnerForwards(m, filters, net, s.packet, s.hops, p, o, k, topic);
    } else {
      OthersLeaveHandOver(m, net, s, p, o, k, topic);
    }
  }

  lemma RunStarts(m: Mesh, filters: Filters, nets: seq<Net>, steps: seq<Step>, at: nat, k: Key)
    requires FullMesh(m, filters) && IsRun(m, nets, steps) && AllReach(m, filters, steps) && at < |steps|
    requires PublishedOnlyAt(nets, steps, at, k) && steps[at].Publish?
    ensures Stage(m, filters, nets[at+1], steps[at], k)
  {
    RunNetOk(m, nets, steps, at);
    RunStep(m, nets, steps, at);
    FreshBefore(m, nets, steps, at, at, k);
    assert Publishes(nets[at], steps[at], k);
    PublishStarts(m, filters, nets[at], steps[at], nets[at+1], k);
  }

  lemma RunContinues(m: Mesh, filters: Filters, nets: seq<Net>, steps: seq<Step>, at: nat, n: nat, k: Key)
    requires FullMesh(m, filters) && IsRun(m, nets, steps) && AllRouters(steps) && AllReach(m, filters, steps)
    requires at < n < |steps|
    requires PublishedOnlyAt(nets, steps, at, k) && steps[at].Publish?
    requires Stage(m, filters, nets[n], steps[at], k)
    ensures Stage(m, filters, nets[n+1], steps[at], k)
  {
    var net, s, net' := nets[n], steps[n], nets[n+1];
    RunKeepsCached(m, nets, steps, n);
    RunStep(m, nets, steps, n);
    assert !Publishes(net, s, k);
    StepKeepsStage(m, filters, net, s, net', steps[at], k);
  }

  lemma {:induction false} RunCovers(m: Mesh, filters: Filters, nets: seq<Net>, steps: seq<Step>, at: nat, n: nat, k: Key)
    requires FullMesh(m, filters) && IsRun(m, nets, steps) && AllRouters(steps) && AllReach(m, filters, steps)
    requires at < n <= |steps| && PublishedOnlyAt(nets, steps, at, k)
    requires k != NO_KEY && steps[at].Publish?
    ensures Stage(m, filters, nets[n], steps[at], k)
  {
    if n == at + 1 {
      RunStarts(m, filters, nets, steps, at, k);
    } else {
      RunCovers(m, filters, nets, steps, at, n - 1, k);
      RunContinues(m, filters, nets, steps, at, n - 1, k);
    }
  }

  /** When no frame of a publish is left, every other broker with a matching
      filter has handled it, whether or not the publisher owns the shard. */
  lemma FullMeshDelivers(m: Mesh, filters: Filters, routes: RouteSets, nets: seq<Net>, steps: seq<Step>, at: nat, k: Key, w: NodeId)
    requires FullMesh(m, filters) && DirectTables(m.ids, filters, routes)
    requires IsRun(m, nets, steps) && AllRouters(steps) && AllAnswered(m, routes, steps)
    requires at < |steps| && PublishedOnlyAt(nets, steps, at, k) && k != NO_KEY
    requires OnTheWay(nets[|steps|].flight, k) == multiset{}
    requires steps[at].Publish? && w in m.ids && w != steps[at].node && Subscribes(filters, w, steps[at].topic)
    ensures (w, k) in nets[|steps|].delivered
  {
    assert Publishes(nets[at], steps[at], k);
    forall i | 0 <= i < |steps| ensures ReachesOthers(m, filters, steps[i]) {
      AnsweredReaches(m, filters, routes, steps[i]);
    }
    RunCovers(m, filters, nets, steps, at, |steps|, k);
    var net := nets[|steps|];
    assert forall q :: q in net.flight && q.key == k ==> q in OnTheWay(net.flight, k);
  }
}
