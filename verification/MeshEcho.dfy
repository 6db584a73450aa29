/**
 When a publisher handles its own publish.  It does not record what it publishes, so
 a copy that comes back is new to it.  In a full mesh with direct tables one can come
 back exactly when a broker the publish is sent to forwards it to a third one, and
 that one has a route over the publisher.
 */
module MeshEcho {
  import opened Common
  import opened TopicFilter
  import opened RouteModel
  import opened MeshPublish
  import opened MeshDelivery

  ghost function Targets(m: Mesh, s: Step): set<NodeId>
    requires s.Publish?
  {
    PublishTargets(s.node, s.shardOwner, Neighbours(m, s.node), s.hops)
  }

  /** `a`, which has the publish from `p`, forwards it to `w`, and `w`, which would have
      it from `a`, to `p`. */
  ghost predicate ComesBack(routes: RouteSets, p: NodeId, topic: string, targets: set<NodeId>, a: NodeId, w: NodeId) {
    && a in targets && a in routes && w in routes && w != p && w != a
    && w in Hops(routes[a], topic, Some(p)) && p in Hops(routes[w], topic, Some(a))
  }

  ghost predicate CanEcho(routes: RouteSets, p: NodeId, topic: string, targets: set<NodeId>) {
    exists a, w :: ComesBack(routes, p, topic, targets, a, w)
  }

  /** A run whose step `at` is the publish `s` of `k`, which comes back. */
  ghost predicate Echo(m: Mesh, routes: RouteSets, s: Step, nets: seq<Net>, steps: seq<Step>, at: nat, k: Key)
    requires m.cacheSize > 0 && s.Publish?
  {
    && IsRun(m, nets, steps) && AllAnswered(m, routes, steps)
    && at < |steps| && steps[at] == s && PublishedOnlyAt(nets, steps, at, k) && SlotKept(m, steps, k)
    && (s.node, k) in nets[|steps|].delivered
  }

  // ---------- it comes back only so ----------

  /** The pair that any way back gives: `x` has a route over `p`, and some target `a`
      forwards to `w`. */
  lemma WayBack(m: Mesh, filters: Filters, routes: RouteSets, p: NodeId, topic: string, targets: set<NodeId>,
                a: NodeId, w: NodeId, x: NodeId, from: NodeId)
    requires FullMesh(m, filters) && DirectTables(m.ids, filters, routes)
    requires p in m.ids && a in m.ids && x in m.ids && a in targets && a != p && x != p && a != x
    requires w != p && w != a && w in Hops(routes[a], topic, Some(p)) && p in Hops(routes[x], topic, Some(from))
    ensures CanEcho(routes, p, topic, targets)
  {
    var e :| e in routes[x] && RouterMatch(e.filter, topic) && e.hop == p;
    assert w in m.ids by {
      var g :| g in routes[a] && RouterMatch(g.filter, topic) && g.hop == w;
    }
    if e.owner == x {
      assert Entry(x, e.filter, x) in routes[a];
      assert ComesBack(routes, p, topic, targets, a, x);
    } else {
      assert Entry(p, e.filter, p) in routes[w];
      assert ComesBack(routes, p, topic, targets, a, w);
    }
  }

  /** Some target has forwarded the publish. */
  ghost predicate Spread(net: Net, routes: RouteSets, k: Key, p: NodeId, topic: string, targets: set<NodeId>, a: NodeId, w: NodeId) {
    && a in targets && (a, k) in net.delivered && a in routes
    && w != p && w != a && w in Hops(routes[a], topic, Some(p))
  }

  ghost predicate HasSpread(net: Net, routes: RouteSets, k: Key, p: NodeId, topic: string, targets: set<NodeId>) {
    exists a, w :: Spread(net, routes, k, p, topic, targets, a, w)
  }

  ghost predicate FrameAway(net: Net, routes: RouteSets, k: Key, p: NodeId, topic: string, targets: set<NodeId>, q: Packet) {
    && q.topic == topic && q.to != p
    && (q.from == p ==> q.to in targets)
    && (q.from != p ==> HasSpread(net, routes, k, p, topic, targets))
  }

  /** No frame is on the way back, and none has come. */
  ghost predicate Away(net: Net, routes: RouteSets, k: Key, p: NodeId, topic: string, targets: set<NodeId>) {
    && (p, k) !in net.delivered
    && forall q :: q in net.flight && q.key == k ==> FrameAway(net, routes, k, p, topic, targets, q)
  }

  lemma SpreadStays(net: Net, net': Net, routes: RouteSets, k: Key, p: NodeId, topic: string, targets: set<NodeId>)
    requires net.delivered <= net'.delivered && HasSpread(net, routes, k, p, topic, targets)
    ensures HasSpread(net', routes, k, p, topic, targets)
  {
    var a: NodeId, w: NodeId :| Spread(net, routes, k, p, topic, targets, a, w);
    assert net.delivered[(a, k)] <= net'.delivered[(a, k)];
    assert Spread(net', routes, k, p, topic, targets, a, w);
  }

  /** A frame forwarded on first sight: not to the publisher, or the publish can echo. */
  lemma ForwardAway(m: Mesh, filters: Filters, routes: RouteSets, net: Net, pkt: Packet, router: bool, hops: set<NodeId>,
                    k: Key, p: NodeId, targets: set<NodeId>, z: NodeId)
    requires FullMesh(m, filters) && DirectTables(m.ids, filters, routes) && NetOk(m, net)
    requires pkt in net.flight && pkt.key == k && p in m.ids && targets <= m.ids - {p}
    requires Away(net, routes, k, p, pkt.topic, targets) && (pkt.to, k) !in net.delivered
    requires !SeenBefore(net.caches[pkt.to], m.slot, k).0
    requires Answered(m, routes, Deliver(pkt, router, hops)) && z in RelayTargets(m, pkt.to, router, hops)
    ensures CanEcho(routes, p, pkt.topic, targets)
            || FrameAway(Receive(m, net, pkt, router, hops), routes, k, p, pkt.topic, targets, Packet(pkt.to, z, k, pkt.topic))
  {
    var x, y, net' := pkt.to, pkt.from, Receive(m, net, pkt, router, hops);
    assert FrameAway(net, routes, k, p, pkt.topic, targets, pkt);
    assert z in Hops(routes[x], pkt.topic, Some(y));
    assert (x, z) in m.links;
    if y == p {
      assert (x, k) in net'.delivered;
      assert Spread(net', routes, k, p, pkt.topic, targets, x, z);
    } else {
      var a: NodeId, w: NodeId :| Spread(net, routes, k, p, pkt.topic, targets, a, w);
      SpreadStays(net, net', routes, k, p, pkt.topic, targets);
      if z == p {
        WayBack(m, filters, routes, p, pkt.topic, targets, a, w, x, y);
      }
    }
  }

  /** What a reception puts on the way. */
  lemma NewFrame(m: Mesh, net: Net, pkt: Packet, router: bool, hops: set<NodeId>, q: Packet)
    requires MeshOk(m) && NetOk(m, net) && pkt in net.flight
    requires q in Receive(m, net, pkt, router, hops).flight && q !in net.flight
    ensures !SeenBefore(net.caches[pkt.to], m.slot, pkt.key).0
    ensures q.to in RelayTargets(m, pkt.to, router, hops) && q == Packet(pkt.to, q.to, pkt.key, pkt.topic)
  {}

  lemma FirstSight(m: Mesh, net: Net, pkt: Packet)
    requires MeshOk(m) && NetOk(m, net) && Remembers(m, net, pkt.key) && pkt in net.flight
    ensures !SeenBefore(net.caches[pkt.to], m.slot, pkt.key).0 <==> (pkt.to, pkt.key) !in net.delivered
  {
    assert pkt.to in m.ids;
  }

  lemma FrameStaysAway(m: Mesh, filters: Filters, routes: RouteSets, net: Net, pkt: Packet, router: bool, hops: set<NodeId>,
                       k: Key, p: NodeId, topic: string, targets: set<NodeId>, q: Packet)
    requires FullMesh(m, filters) && DirectTables(m.ids, filters, routes) && NetOk(m, net) && Remembers(m, net, k)
    requires pkt in net.flight && p in m.ids && targets <= m.ids - {p} && Away(net, routes, k, p, topic, targets)
    requires Answered(m, routes, Deliver(pkt, router, hops)) && !CanEcho(routes, p, topic, targets)
    requires q in Receive(m, net, pkt, router, hops).flight && q.key == k
    ensures FrameAway(Receive(m, net, pkt, router, hops), routes, k, p, topic, targets, q)
  {
    if q in net.flight {
      OldFrameAway(net, Receive(m, net, pkt, router, hops), routes, k, p, topic, targets, q);
    } else {
      NewFrame(m, net, pkt, router, hops, q);
      FirstSight(m, net, pkt);
      assert FrameAway(net, routes, k, p, topic, targets, pkt);
      ForwardAway(m, filters, routes, net, pkt, router, hops, k, p, targets, q.to);
    }
  }

  lemma ReceiveStaysAway(m: Mesh, filters: Filters, routes: RouteSets, net: Net, pkt: Packet, router: bool, hops: set<NodeId>,
                         k: Key, p: NodeId, topic: string, targets: set<NodeId>)
    requires FullMesh(m, filters) && DirectTables(m.ids, filters, routes) && NetOk(m, net) && Remembers(m, net, k)
    requires pkt in net.flight && p in m.ids && targets <= m.ids - {p} && Away(net, routes, k, p, topic, targets)
    requires Answered(m, routes, Deliver(pkt, router, hops)) && !CanEcho(routes, p, topic, targets)
    ensures Away(Receive(m, net, pkt, router, hops), routes, k, p, topic, targets)
  {
    var net' := Receive(m, net, pkt, router, hops);
    forall q | q in net'.flight && q.key == k ensures FrameAway(net', routes, k, p, topic, targets, q) {
      FrameStaysAway(m, filters, routes, net, pkt, router, hops, k, p, topic, targets, q);
    }
    if pkt.key == k {
      assert FrameAway(net, routes, k, p, topic, targets, pkt);
    }
  }

  lemma OldFrameAway(net: Net, net': Net, routes: RouteSets, k: Key, p: NodeId, topic: string, targets: set<NodeId>, q: Packet)
    requires net.delivered <= net'.delivered && FrameAway(net, routes, k, p, topic, targets, q)
    ensures FrameAway(net', routes, k, p, topic, targets, q)
  {
    if q.from != p {
      SpreadStays(net, net', routes, k, p, topic, targets);
    }
  }

  /** The publish `s` of `k` is away, unless its tables let it echo. */
  ghost predicate AwayOrEcho(m: Mesh, routes: RouteSets, net: Net, s: Step, k: Key)
    requires s.Publish?
  {
    CanEcho(routes, s.node, s.topic, Targets(m, s)) || Away(net, routes, k, s.node, s.topic, Targets(m, s))
  }

  lemma PublishIsAway(m: Mesh, filters: Filters, routes: RouteSets, net: Net, s: Step, k: Key)
    requires FullMesh(m, filters) && NetOk(m, net) && s.Publish? && Enabled(m, net, s)
    requires Publishes(net, s, k) && !Appears(net, k)
    ensures AwayOrEcho(m, routes, Next(m, net, s), s, k)
  {
    AllOthersLinked(m, filters, s.node);
  }

  lemma StepStaysAway(m: Mesh, filters: Filters, routes: RouteSets, net: Net, s: Step, net': Net, pub: Step, k: Key)
    requires FullMesh(m, filters) && DirectTables(m.ids, filters, routes) && NetOk(m, net) && Remembers(m, net, k)
    requires pub.Publish? && pub.node in m.ids && Enabled(m, net, s) && net' == Next(m, net, s)
    requires Answered(m, routes, s) && !Publishes(net, s, k) && AwayOrEcho(m, routes, net, pub, k)
    ensures AwayOrEcho(m, routes, net', pub, k)
  {
    TargetsAreOthers(m, filters, pub);
    if !CanEcho(routes, pub.node, pub.topic, Targets(m, pub)) {
      match s
      case Publish(_, _, _, _) =>
        forall q | q in net'.flight && q.key == k ensures FrameAway(net', routes, k, pub.node, pub.topic, Targets(m, pub), q) {
          OldFrameAway(net, net', routes, k, pub.node, pub.topic, Targets(m, pub), q);
        }
      case Deliver(pkt, router, hops) =>
        ReceiveStaysAway(m, filters, routes, net, pkt, router, hops, k, pub.node, pub.topic, Targets(m, pub));
    }
  }

  lemma TargetsAreOthers(m: Mesh, filters: Filters, s: Step)
    requires FullMesh(m, filters) && s.Publish? && s.node in m.ids
    ensures Targets(m, s) <= m.ids - {s.node}
  {
    AllOthersLinked(m, filters, s.node);
  }

  lemma RunStepStaysAway(m: Mesh, filters: Filters, routes: RouteSets, nets: seq<Net>, steps: seq<Step>, at: nat, n: nat, k: Key)
    requires FullMesh(m, filters) && DirectTables(m.ids, filters, routes)
    requires IsRun(m, nets, steps) && AllAnswered(m, routes, steps) && SlotKept(m, steps, k) && k.origin != NO_ID
    requires at < n < |steps| && steps[at].Publish? && steps[at].node in m.ids && PublishedOnlyAt(nets, steps, at, k)
    requires AwayOrEcho(m, routes, nets[n], steps[at], k)
    ensures AwayOrEcho(m, routes, nets[n+1], steps[at], k)
  {
    var net, s, net' := nets[n], steps[n], nets[n+1];
    RunKeepsMemory(m, nets, steps, n, k);
    RunStep(m, nets, steps, n);
    assert !Publishes(net, s, k) && Answered(m, routes, s);
    StepStaysAway(m, filters, routes, net, s, net', steps[at], k);
  }

  lemma RunStartsAway(m: Mesh, filters: Filters, routes: RouteSets, nets: seq<Net>, steps: seq<Step>, at: nat, k: Key)
    requires FullMesh(m, filters) && IsRun(m, nets, steps) && at < |steps| && steps[at].Publish?
    requires PublishedOnlyAt(nets, steps, at, k)
    ensures AwayOrEcho(m, routes, nets[at+1], steps[at], k)
  {
    RunNetOk(m, nets, steps, at);
    RunStep(m, nets, steps, at);
    FreshBefore(m, nets, steps, at, at, k);
    assert Publishes(nets[at], steps[at], k);
    PublishIsAway(m, filters, routes, nets[at], steps[at], k);
  }

  lemma {:induction false} RunStaysAway(m: Mesh, filters: Filters, routes: RouteSets, nets: seq<Net>, steps: seq<Step>, at: nat, n: nat, k: Key)
    requires FullMesh(m, filters) && DirectTables(m.ids, filters, routes)
    requires IsRun(m, nets, steps) && AllAnswered(m, routes, steps) && SlotKept(m, steps, k) && k.origin != NO_ID
    requires at < n <= |steps| && steps[at].Publish? && steps[at].node in m.ids && PublishedOnlyAt(nets, steps, at, k)
    ensures AwayOrEcho(m, routes, nets[n], steps[at], k)
  {
    if n == at + 1 {
      RunStartsAway(m, filters, routes, nets, steps, at, k);
    } else {
      RunStaysAway(m, filters, routes, nets, steps, at, n - 1, k);
      RunStepStaysAway(m, filters, routes, nets, steps, at, n - 1, k);
    }
  }

  lemma EchoNeeds(m: Mesh, filters: Filters, routes: RouteSets, s: Step, nets: seq<Net>, steps: seq<Step>, at: nat, k: Key)
    requires FullMesh(m, filters) && DirectTables(m.ids, filters, routes)
    requires s.Publish? && s.node in m.ids && Echo(m, routes, s, nets, steps, at, k)
    ensures CanEcho(routes, s.node, s.topic, Targets(m, s))
  {
    assert Publishes(nets[at], steps[at], k);
    RunStaysAway(m, filters, routes, nets, steps, at, |steps|, k);
  }

  // ---------- and so it does ----------

  /** The frame is on the way, and no broker outside `done` has handled anything. */
  ghost predicate Fresh(m: Mesh, net: Net, pkt: Packet, done: set<NodeId>) {
    && NetOk(m, net) && pkt in net.flight
    && forall v :: v in m.ids && v !in done ==> net.caches[v] == EmptyCache(m.cacheSize)
  }

  lemma ForwardFresh(m: Mesh, net: Net, pkt: Packet, hops: set<NodeId>, done: set<NodeId>, t: NodeId)
    requires MeshOk(m) && Fresh(m, net, pkt, done) && pkt.to !in done && t in hops * Neighbours(m, pkt.to)
    ensures Enabled(m, net, Deliver(pkt, true, hops))
    ensures var net' := Receive(m, net, pkt, true, hops);
            Fresh(m, net', Packet(pkt.to, t, pkt.key, pkt.topic), done + {pkt.to}) && (pkt.to, pkt.key) in net'.delivered
  {
    ReceiveKeepsNetOk(m, net, pkt, true, hops);
    assert Packet(pkt.to, t, pkt.key, pkt.topic) in Packets(pkt.to, RelayTargets(m, pkt.to, true, hops), pkt.key, pkt.topic);
    assert Packet(pkt.to, t, pkt.key, pkt.topic) in Receive(m, net, pkt, true, hops).flight;
  }

  lemma HandleFresh(m: Mesh, net: Net, pkt: Packet, hops: set<NodeId>, done: set<NodeId>)
    requires MeshOk(m) && Fresh(m, net, pkt, done) && pkt.to !in done
    ensures Enabled(m, net, Deliver(pkt, true, hops))
    ensures (pkt.to, pkt.key) in Receive(m, net, pkt, true, hops).delivered
  {
    assert pkt.key != NO_KEY;
  }

  lemma PublishFresh(m: Mesh, s: Step, a: NodeId)
    requires MeshOk(m) && s.Publish? && s.node in m.ids && a in Targets(m, s)
    ensures Enabled(m, Initial(m), s) && Publishes(Initial(m), s, Key(s.node, 1))
    ensures Fresh(m, Next(m, Initial(m), s), Packet(s.node, a, Key(s.node, 1), s.topic), {})
  {
    InitialNetOk(m);
    StepKeepsNetOk(m, Initial(m), s);
    assert Packet(s.node, a, Key(s.node, 1), s.topic) in Packets(s.node, Targets(m, s), Key(s.node, 1), s.topic);
    assert Packet(s.node, a, Key(s.node, 1), s.topic) in Next(m, Initial(m), s).flight;
  }

  ghost function WholeDelivery(routes: RouteSets, pkt: Packet): Step
    requires pkt.to in routes
  {
    Deliver(pkt, true, Hops(routes[pkt.to], pkt.topic, Some(pkt.from)))
  }

  /** The broker's routes may answer with every hop, and all of them are linked. */
  ghost predicate AllFit(m: Mesh, routes: RouteSets, pkt: Packet) {
    && pkt.to in routes && Answered(m, routes, WholeDelivery(routes, pkt))
    && WholeDelivery(routes, pkt).hops <= Neighbours(m, pkt.to)
  }

  lemma AlwaysFit(m: Mesh, filters: Filters, routes: RouteSets, pkt: Packet)
    requires FullMesh(m, filters) && DirectTables(m.ids, filters, routes) && pkt.to in m.ids
    ensures AllFit(m, routes, pkt)
  {
    var hops := Hops(routes[pkt.to], pkt.topic, Some(pkt.from));
    AllOthersLinked(m, filters, pkt.to);
    WantedCoversOthers(m, filters, pkt.to, routes[pkt.to], pkt.topic, Some(pkt.from));
    SubsetSize(hops, m.ids - {pkt.to});
    assert |m.ids - {pkt.to}| == |m.ids| - 1;
  }

  /** A run so far in which `k` was published by its first step only. */
  ghost predicate Carrying(m: Mesh, routes: RouteSets, s: Step, nets: seq<Net>, steps: seq<Step>, k: Key)
    requires m.cacheSize > 0
  {
    && IsRun(m, nets, steps) && AllAnswered(m, routes, steps) && SlotKept(m, steps, k)
    && |steps| > 0 && steps[0] == s && PublishedOnlyAt(nets, steps, 0, k)
  }

  lemma DeliverMore(m: Mesh, routes: RouteSets, s: Step, nets: seq<Net>, steps: seq<Step>, k: Key, d: Step)
    returns (nets': seq<Net>, steps': seq<Step>)
    requires m.cacheSize > 0 && Carrying(m, routes, s, nets, steps, k)
    requires d.Deliver? && d.packet.key == k && Answered(m, routes, d) && Enabled(m, nets[|steps|], d)
    ensures Carrying(m, routes, s, nets', steps', k) && nets'[|steps'|] == Next(m, nets[|steps|], d)
  {
    RunExtends(m, nets, steps, d);
    nets', steps' := nets + [Next(m, nets[|steps|], d)], steps + [d];
    forall i | 0 <= i < |steps'| ensures Publishes(nets'[i], steps'[i], k) <==> i == 0 {
      if i < |steps| {
        assert Publishes(nets[i], steps[i], k) <==> i == 0;
      }
    }
  }

  lemma StartCarrying(m: Mesh, routes: RouteSets, s: Step, a: NodeId) returns (nets: seq<Net>, steps: seq<Step>)
    requires MeshOk(m) && s.Publish? && s.node in m.ids && Answered(m, routes, s) && a in Targets(m, s)
    ensures Carrying(m, routes, s, nets, steps, Key(s.node, 1))
    ensures Fresh(m, nets[|steps|], Packet(s.node, a, Key(s.node, 1), s.topic), {})
  {
    PublishFresh(m, s, a);
    RunExtends(m, [Initial(m)], [], s);
    nets, steps := [Initial(m)] + [Next(m, Initial(m), s)], [] + [s];
  }

  /** One forwarding on the way. */
  lemma ForwardOn(m: Mesh, routes: RouteSets, s: Step, nets: seq<Net>, steps: seq<Step>, pkt: Packet, done: set<NodeId>, t: NodeId)
    returns (nets': seq<Net>, steps': seq<Step>)
    requires MeshOk(m) && AllFit(m, routes, pkt)
    requires Carrying(m, routes, s, nets, steps, pkt.key) && Fresh(m, nets[|steps|], pkt, done)
    requires pkt.to !in done && t in Hops(routes[pkt.to], pkt.topic, Some(pkt.from))
    ensures Carrying(m, routes, s, nets', steps', pkt.key)
    ensures Fresh(m, nets'[|steps'|], Packet(pkt.to, t, pkt.key, pkt.topic), done + {pkt.to})
  {
    var d := WholeDelivery(routes, pkt);
    ForwardFresh(m, nets[|steps|], pkt, d.hops, done, t);
    nets', steps' := DeliverMore(m, routes, s, nets, steps, pkt.key, d);
  }

  /** Where the way back goes. */
  lemma WayIsOpen(m: Mesh, filters: Filters, routes: RouteSets, s: Step, a: NodeId, w: NodeId)
    requires FullMesh(m, filters) && DirectTables(m.ids, filters, routes) && s.Publish? && s.node in m.ids
    requires ComesBack(routes, s.node, s.topic, Targets(m, s), a, w)
    ensures a in m.ids && w in m.ids && a != s.node && w != s.node && a != w
  {
    TargetsAreOthers(m, filters, s);
    var g :| g in routes[a] && RouterMatch(g.filter, s.topic) && g.hop == w;
  }

  lemma CarryingEchoes(m: Mesh, routes: RouteSets, s: Step, nets: seq<Net>, steps: seq<Step>, k: Key)
    requires m.cacheSize > 0 && s.Publish? && Carrying(m, routes, s, nets, steps, k)
    requires (s.node, k) in nets[|steps|].delivered
    ensures Echo(m, routes, s, nets, steps, 0, k)
  {}

  /** The publish goes to `a`, on to `w`, and from there back to its publisher. */
  lemma EchoVia(m: Mesh, filters: Filters, routes: RouteSets, s: Step, a: NodeId, w: NodeId) returns (nets: seq<Net>, steps: seq<Step>)
    requires FullMesh(m, filters) && DirectTables(m.ids, filters, routes)
    requires s.Publish? && s.node in m.ids && Answered(m, routes, s)
    requires ComesBack(routes, s.node, s.topic, Targets(m, s), a, w)
    ensures Echo(m, routes, s, nets, steps, 0, Key(s.node, 1))
  {
    var p, k := s.node, Key(s.node, 1);
    WayIsOpen(m, filters, routes, s, a, w);
    AlwaysFit(m, filters, routes, Packet(p, a, k, s.topic));
    AlwaysFit(m, filters, routes, Packet(a, w, k, s.topic));
    AlwaysFit(m, filters, routes, Packet(w, p, k, s.topic));
    nets, steps := StartCarrying(m, routes, s, a);
    nets, steps := FromFirst(m, routes, s, nets, steps, a, w);
  }

  lemma FromFirst(m: Mesh, routes: RouteSets, s: Step, nets: seq<Net>, steps: seq<Step>, a: NodeId, w: NodeId)
    returns (nets': seq<Net>, steps': seq<Step>)
    requires MeshOk(m) && s.Publish? && a != s.node && w != s.node && a != w
    requires AllFit(m, routes, Packet(s.node, a, Key(s.node, 1), s.topic))
    requires AllFit(m, routes, Packet(a, w, Key(s.node, 1), s.topic))
    requires AllFit(m, routes, Packet(w, s.node, Key(s.node, 1), s.topic))
    requires w in Hops(routes[a], s.topic, Some(s.node)) && s.node in Hops(routes[w], s.topic, Some(a))
    requires Carrying(m, routes, s, nets, steps, Key(s.node, 1))
    requires Fresh(m, nets[|steps|], Packet(s.node, a, Key(s.node, 1), s.topic), {})
    ensures Echo(m, routes, s, nets', steps', 0, Key(s.node, 1))
  {
    nets', steps' := ForwardOn(m, routes, s, nets, steps, Packet(s.node, a, Key(s.node, 1), s.topic), {}, w);
    nets', steps' := FromSecond(m, routes, s, nets', steps', a, w, {} + {a});
  }

  lemma FromSecond(m: Mesh, routes: RouteSets, s: Step, nets: seq<Net>, steps: seq<Step>, a: NodeId, w: NodeId, done: set<NodeId>)
    returns (nets': seq<Net>, steps': seq<Step>)
    requires MeshOk(m) && s.Publish?
    requires w !in done && s.node !in done && w != s.node
    requires AllFit(m, routes, Packet(a, w, Key(s.node, 1), s.topic))
    requires AllFit(m, routes, Packet(w, s.node, Key(s.node, 1), s.topic))
    requires s.node in Hops(routes[w], s.topic, Some(a))
    requires Carrying(m, routes, s, nets, steps, Key(s.node, 1))
    requires Fresh(m, nets[|steps|], Packet(a, w, Key(s.node, 1), s.topic), done)
    ensures Echo(m, routes, s, nets', steps', 0, Key(s.node, 1))
  {
    nets', steps' := ForwardOn(m, routes, s, nets, steps, Packet(a, w, Key(s.node, 1), s.topic), done, s.node);
    nets', steps' := FromThird(m, routes, s, nets', steps', w, done + {w});
  }

  lemma FromThird(m: Mesh, routes: RouteSets, s: Step, nets: seq<Net>, steps: seq<Step>, w: NodeId, done: set<NodeId>)
    returns (nets': seq<Net>, steps': seq<Step>)
    requires MeshOk(m) && s.Publish? && s.node !in done
    requires AllFit(m, routes, Packet(w, s.node, Key(s.node, 1), s.topic))
    requires Carrying(m, routes, s, nets, steps, Key(s.node, 1))
    requires Fresh(m, nets[|steps|], Packet(w, s.node, Key(s.node, 1), s.topic), done)
    ensures Echo(m, routes, s, nets', steps', 0, Key(s.node, 1))
  {
    var d := WholeDelivery(routes, Packet(w, s.node, Key(s.node, 1), s.topic));
    HandleFresh(m, nets[|steps|], d.packet, d.hops, done);
    nets', steps' := DeliverMore(m, routes, s, nets, steps, Key(s.node, 1), d);
    CarryingEchoes(m, routes, s, nets', steps', Key(s.node, 1));
  }

  /** Some run in which the publish keeps its cache slot has its publisher handle it,
      exactly when a target forwards to a third broker with a route over the
      publisher. */
  lemma EchoIff(m: Mesh, filters: Filters, routes: RouteSets, s: Step)
    requires FullMesh(m, filters) && DirectTables(m.ids, filters, routes)
    requires s.Publish? && s.node in m.ids && Answered(m, routes, s)
    ensures (exists nets, steps, at: nat, k :: Echo(m, routes, s, nets, steps, at, k))
            <==> CanEcho(routes, s.node, s.topic, Targets(m, s))
  {
    if CanEcho(routes, s.node, s.topic, Targets(m, s)) {
      var a: NodeId, w: NodeId :| ComesBack(routes, s.node, s.topic, Targets(m, s), a, w);
      var nets, steps := EchoVia(m, filters, routes, s, a, w);
    }
    forall nets, steps, at: nat, k | Echo(m, routes, s, nets, steps, at, k)
      ensures CanEcho(routes, s.node, s.topic, Targets(m, s))
    {
      EchoNeeds(m, filters, routes, s, nets, steps, at, k);
    }
  }

  // ---------- an instance ----------

  const ECHO_FILTERS: Filters := map[1 := {"a"}, 2 := {}, 3 := {"a"}]
  const ECHO_ROUTES: RouteSets :=
    map[1 := {Entry(3, "a", 3)}, 2 := {Entry(1, "a", 1), Entry(3, "a", 3)}, 3 := {Entry(1, "a", 1)}]

  ghost function Triangle(slot: Key -> nat): Mesh {
    Mesh({1, 2, 3}, {(1, 2), (2, 1), (1, 3), (3, 1), (2, 3), (3, 2)}, 2, slot, 1)
  }

  lemma TriangleNeighbours(slot: Key -> nat)
    ensures var m := Triangle(slot); Neighbours(m, 1) == {2, 3} && Neighbours(m, 2) == {1, 3} && Neighbours(m, 3) == {1, 2}
  {
    var m := Triangle(slot);
    assert (1, 2) in m.links && (1, 3) in m.links && (2, 1) in m.links && (2, 3) in m.links && (3, 1) in m.links && (3, 2) in m.links;
    assert Neighbours(m, 1) == {2, 3} && Neighbours(m, 2) == {1, 3} && Neighbours(m, 3) == {1, 2};
  }

  lemma TriangleIsFull(slot: Key -> nat)
    ensures FullMesh(Triangle(slot), ECHO_FILTERS)
  {
    TriangleNeighbours(slot);
  }

  /** With 1 and 3 subscribed, a publish made at 1 for the shard owner 2 goes on to 3 and
      comes back to 1. */
  lemma EchoIsHandled(slot: Key -> nat) returns (nets: seq<Net>, steps: seq<Step>)
    ensures FullMesh(Triangle(slot), ECHO_FILTERS) && DirectTables(Triangle(slot).ids, ECHO_FILTERS, ECHO_ROUTES)
    ensures Echo(Triangle(slot), ECHO_ROUTES, Publish(1, "a", 2, {3}), nets, steps, 0, Key(1, 1))
  {
    TriangleIsFull(slot);
    TriangleNeighbours(slot);
    TriangleHops();
    TriangleTables(slot);
    TriangleEchoes(Triangle(slot));
    nets, steps := EchoVia(Triangle(slot), ECHO_FILTERS, ECHO_ROUTES, Publish(1, "a", 2, {3}), 2, 3);
  }

  lemma TriangleHops()
    ensures Hops(ECHO_ROUTES[1], "a", None) == {3}
    ensures Hops(ECHO_ROUTES[2], "a", Some(1)) == {3} && Hops(ECHO_ROUTES[3], "a", Some(2)) == {1}
  {
    ExactMatchesItself("a", "a", false);
    LoneHop(ECHO_ROUTES[1], "a", None, 3);
    LoneHop(ECHO_ROUTES[2], "a", Some(1), 3);
    LoneHop(ECHO_ROUTES[3], "a", Some(2), 1);
  }

  lemma TriangleTables(slot: Key -> nat)
    ensures DirectTables(Triangle(slot).ids, ECHO_FILTERS, ECHO_ROUTES)
  {}

  lemma TriangleEchoes(m: Mesh)
    requires Neighbours(m, 1) == {2, 3} && m.peerMax == 2
    requires Hops(ECHO_ROUTES[1], "a", None) == {3}
    requires Hops(ECHO_ROUTES[2], "a", Some(1)) == {3} && Hops(ECHO_ROUTES[3], "a", Some(2)) == {1}
    ensures var s := Publish(1, "a", 2, {3}); Answered(m, ECHO_ROUTES, s) && ComesBack(ECHO_ROUTES, 1, "a", Targets(m, s), 2, 3)
  {
    assert Targets(m, Publish(1, "a", 2, {3})) == {2};
  }

  lemma LoneHop(routes: set<Entry>, topic: string, exclude: Option<NodeId>, hop: NodeId)
    requires exclude != Some(hop) && Entry(hop, topic, hop) in routes && RouterMatch(topic, topic)
    requires forall e :: e in routes ==> e.hop == hop || exclude == Some(e.hop)
    ensures Hops(routes, topic, exclude) == {hop}
  {
    assert Entry(hop, topic, hop).filter == topic;
  }
}
