/**
 Delivery in any connected mesh of routers.  Once every broker has announced its
 filters to its neighbours and no announcement is on the way, every broker has a route
 for every filter, and routes lead to brokers that learned of the owner earlier.  A
 publish then reaches every subscriber, with one exception: it is not sent back over
 the broker it came from, and the publisher itself may have sent it to the shard owner
 only.
 */
module MeshReach {
  import opened Common
  import opened TopicFilter
  import opened RouteModel
  import opened MeshPublish
  import opened MeshDelivery
  import opened MeshSetup
  import MeshRouting

  // ---------- gossip reaches everyone ----------

  ghost predicate Has(t: Tables, w: NodeId, f: string) {
    Subscribed(t.nodes, w, f)
  }

  /** A frame about the filter is on the link from `v` to `u`. */
  ghost predicate Relayed(net: MeshRouting.Net, v: NodeId, u: NodeId, w: NodeId, f: string) {
    exists q :: MeshRouting.Frame(v, u, w, f, q) in net.flight
  }

  /** A neighbour of a broker that has the filter has it, or will be told. */
  ghost predicate PassedOn(net: MeshRouting.Net, v: NodeId, u: NodeId, w: NodeId, f: string)
    requires v in net.tables && u in net.tables
  {
    v != w && u != w && Has(net.tables[v], w, f) ==> Has(net.tables[u], w, f) || Relayed(net, v, u, w, f)
  }

  /** Who tells of a filter of another broker has it. */
  ghost predicate Teller(net: MeshRouting.Net, g: MeshRouting.Frame, w: NodeId, f: string) {
    g.owner == w && g.filter == f ==> g.from == w || (g.from in net.tables && Has(net.tables[g.from], w, f))
  }

  ghost predicate Spreads(m: MeshRouting.Mesh, net: MeshRouting.Net, w: NodeId, f: string)
    requires MeshRouting.MeshOk(m) && net.tables.Keys == m.ids
  {
    && (forall v, u :: (v, u) in m.links ==> PassedOn(net, v, u, w, f))
    && (forall g :: g in net.flight ==> Teller(net, g, w, f))
  }

  /** What a reception adds to a table, and that something new is a change. */
  lemma ReceiveAdds(m: MeshRouting.Mesh, filters: Filters, v: NodeId, t: Tables, g: MeshRouting.Frame)
    requires Setting(m, filters) && TableInMesh(m, filters, v, t)
    requires g.owner in m.ids && g.filter in filters[g.owner]
    ensures var (t', changed) := Subscribe(t, g.owner, g.filter, g.qos, g.from, m.perNode);
            && (forall w, f :: Has(t, w, f) ==> Has(t', w, f))
            && Has(t', g.owner, g.filter) && (!Has(t, g.owner, g.filter) ==> changed)
            && (forall w, f :: Has(t', w, f) ==> Has(t, w, f) || (w == g.owner && f == g.filter))
  {
    AlwaysSlot(m, filters, v, t, g.owner, g.filter);
    SubscribeShape(t, g.owner, g.filter, g.qos, g.from, m.perNode);
    var (t', changed) := Subscribe(t, g.owner, g.filter, g.qos, g.from, m.perNode);
    var (i, n) := NodeFor(t.nodes, g.owner, m.perNode).value;
    assert Holds(t'.nodes, i, g.owner, g.filter);
    forall w, f | Has(t, w, f) ensures Has(t', w, f) {
      var k: nat :| Holds(t.nodes, k, w, f);
      assert Holds(t'.nodes, k, w, f);
    }
    forall w, f | Has(t', w, f) && !(w == g.owner && f == g.filter) ensures Has(t, w, f) {
      var k: nat :| Holds(t'.nodes, k, w, f);
      assert Holds(t.nodes, k, w, f);
    }
    if !Has(t, g.owner, g.filter) {
      assert !HasSub(n, g.filter) by {
        if t.nodes[i].inUse && HasSub(n, g.filter) { assert Holds(t.nodes, i, g.owner, g.filter); }
      }
    }
  }

  lemma InitialSpreads(m: MeshRouting.Mesh, w: NodeId, f: string)
    requires MeshRouting.MeshOk(m)
    ensures Spreads(m, MeshRouting.Initial(m), w, f)
  {}

  lemma AnnounceSpreads(m: MeshRouting.Mesh, filters: Filters, net: MeshRouting.Net, s: MeshRouting.Step, w: NodeId, f: string)
    requires Setting(m, filters) && InMesh(m, filters, net) && Spreads(m, net, w, f)
    requires s.Announce? && MeshRouting.Enabled(m, net, s)
    ensures Spreads(m, MeshRouting.Next(m, net, s), w, f)
  {
    var net' := MeshRouting.Next(m, net, s);
    forall v, u | (v, u) in m.links ensures PassedOn(net', v, u, w, f) {
      assert PassedOn(net, v, u, w, f);
      if Relayed(net, v, u, w, f) {
        var q :| MeshRouting.Frame(v, u, w, f, q) in net.flight;
        assert MeshRouting.Frame(v, u, w, f, q) in net'.flight;
      }
    }
    forall g | g in net'.flight ensures Teller(net', g, w, f) {
      if g in net.flight { assert Teller(net, g, w, f); }
    }
  }

  /** A router that has just got the filter has told each neighbour but the sender. */
  lemma NewlyTold(m: MeshRouting.Mesh, filters: Filters, net: MeshRouting.Net, g: MeshRouting.Frame, u: NodeId)
    requires Setting(m, filters) && InMesh(m, filters, net) && g in net.flight && g.to in net.tables
    requires !Has(net.tables[g.to], g.owner, g.filter) && (g.to, u) in m.links && u != g.from
    ensures Relayed(MeshRouting.Receive(m, net, g, true), g.to, u, g.owner, g.filter)
  {
    assert FrameInMesh(m, filters, g);
    ReceiveAdds(m, filters, g.to, net.tables[g.to], g);
    assert u in MeshRouting.Neighbours(m, g.to) by { assert (g.to, u).0 == g.to; }
    var relays := MeshRouting.Neighbours(m, g.to) - {g.from};
    assert MeshRouting.Frame(g.to, u, g.owner, g.filter, g.qos) in MeshRouting.Frames(g.to, relays, g.owner, g.filter, g.qos);
    assert MeshRouting.Frame(g.to, u, g.owner, g.filter, g.qos) in MeshRouting.Receive(m, net, g, true).flight;
  }

  lemma DeliverNext(m: MeshRouting.Mesh, filters: Filters, net: MeshRouting.Net, g: MeshRouting.Frame, w: NodeId, f: string, v: NodeId, u: NodeId)
    requires Setting(m, filters) && InMesh(m, filters, net) && Spreads(m, net, w, f)
    requires g in net.flight && g.to in net.tables && (v, u) in m.links
    ensures PassedOn(MeshRouting.Receive(m, net, g, true), v, u, w, f)
  {
    var net' := MeshRouting.Receive(m, net, g, true);
    assert FrameInMesh(m, filters, g);
    ReceiveAdds(m, filters, g.to, net.tables[g.to], g);
    assert PassedOn(net, v, u, w, f) && Teller(net, g, w, f);
    if v != w && u != w && Has(net'.tables[v], w, f) && !Has(net'.tables[u], w, f) {
      if Has(net.tables[v], w, f) {
        var q :| MeshRouting.Frame(v, u, w, f, q) in net.flight;
        assert MeshRouting.Frame(v, u, w, f, q) in net'.flight;
      } else {
        NewlyTold(m, filters, net, g, u);
      }
    }
  }

  /** Nothing is forgotten, and the receiver has what it was told. */
  lemma ReceiveKeepsHas(m: MeshRouting.Mesh, filters: Filters, net: MeshRouting.Net, g: MeshRouting.Frame)
    requires Setting(m, filters) && InMesh(m, filters, net) && g in net.flight && g.to in net.tables
    ensures var net' := MeshRouting.Receive(m, net, g, true);
            && net'.tables.Keys == m.ids && Has(net'.tables[g.to], g.owner, g.filter)
            && forall v, w, f :: v in m.ids && Has(net.tables[v], w, f) ==> Has(net'.tables[v], w, f)
  {
    assert FrameInMesh(m, filters, g);
    ReceiveAdds(m, filters, g.to, net.tables[g.to], g);
    assert MeshRouting.Receive(m, net, g, true).tables.Keys == m.ids;
  }

  lemma DeliverTeller(m: MeshRouting.Mesh, net: MeshRouting.Net, g: MeshRouting.Frame, w: NodeId, f: string, h: MeshRouting.Frame)
    requires g.to in net.tables && h in MeshRouting.Receive(m, net, g, true).flight
    requires var net' := MeshRouting.Receive(m, net, g, true);
             && net'.tables.Keys == net.tables.Keys && Has(net'.tables[g.to], g.owner, g.filter)
             && forall v :: v in net.tables && Has(net.tables[v], w, f) ==> Has(net'.tables[v], w, f)
    requires h in net.flight ==> Teller(net, h, w, f)
    ensures Teller(MeshRouting.Receive(m, net, g, true), h, w, f)
  {
    if h !in net.flight {
      NewTold(m, net, g, h);
    }
  }

  /** What a reception relays. */
  lemma NewTold(m: MeshRouting.Mesh, net: MeshRouting.Net, g: MeshRouting.Frame, h: MeshRouting.Frame)
    requires g.to in net.tables && h in MeshRouting.Receive(m, net, g, true).flight && h !in net.flight
    ensures h.from == g.to && h.owner == g.owner && h.filter == g.filter
  {}

  lemma DeliverSpreads(m: MeshRouting.Mesh, filters: Filters, net: MeshRouting.Net, g: MeshRouting.Frame, w: NodeId, f: string)
    requires Setting(m, filters) && InMesh(m, filters, net) && Spreads(m, net, w, f) && g in net.flight && g.to in net.tables
    ensures MeshRouting.Receive(m, net, g, true).tables.Keys == m.ids && Spreads(m, MeshRouting.Receive(m, net, g, true), w, f)
  {
    var net' := MeshRouting.Receive(m, net, g, true);
    ReceiveKeepsHas(m, filters, net, g);
    forall v, u | (v, u) in m.links ensures PassedOn(net', v, u, w, f) {
      DeliverNext(m, filters, net, g, w, f, v, u);
    }
    forall h | h in net'.flight ensures Teller(net', h, w, f) {
      DeliverTeller(m, net, g, w, f, h);
    }
  }

  ghost predicate RoutersOnly(steps: seq<MeshRouting.Step>) {
    forall i :: 0 <= i < |steps| && steps[i].Deliver? ==> steps[i].router
  }

  lemma RunStepSpreads(m: MeshRouting.Mesh, filters: Filters, nets: seq<MeshRouting.Net>, steps: seq<MeshRouting.Step>, i: nat, w: NodeId, f: string)
    requires Setting(m, filters) && MeshRouting.IsRun(m, nets, steps) && OwnFilters(filters, steps) && RoutersOnly(steps)
    requires i < |steps| && nets[i].tables.Keys == m.ids && Spreads(m, nets[i], w, f)
    ensures nets[i+1].tables.Keys == m.ids && Spreads(m, nets[i+1], w, f)
  {
    RunInMesh(m, filters, nets, steps, i);
    MeshRouting.RunStep(m, nets, steps, i);
    match steps[i]
    case Announce(_, _, _, _) => AnnounceSpreads(m, filters, nets[i], steps[i], w, f);
    case Deliver(g, router) => DeliverSpreads(m, filters, nets[i], g, w, f);
  }

  lemma {:induction false} RunSpreads(m: MeshRouting.Mesh, filters: Filters, nets: seq<MeshRouting.Net>, steps: seq<MeshRouting.Step>, n: nat, w: NodeId, f: string)
    requires Setting(m, filters) && MeshRouting.IsRun(m, nets, steps) && OwnFilters(filters, steps) && RoutersOnly(steps) && n <= |steps|
    ensures nets[n].tables.Keys == m.ids && Spreads(m, nets[n], w, f)
  {
    if n == 0 {
      InitialSpreads(m, w, f);
    } else {
      RunSpreads(m, filters, nets, steps, n - 1, w, f);
      RunStepSpreads(m, filters, nets, steps, n - 1, w, f);
    }
  }

  ghost predicate IsPath(m: MeshRouting.Mesh, path: seq<NodeId>) {
    forall i :: 0 <= i < |path| - 1 ==> (path[i], path[i+1]) in m.links
  }

  ghost predicate Joined(m: MeshRouting.Mesh, u: NodeId, v: NodeId) {
    exists path :: IsPath(m, path) && |path| > 1 && path[0] == u && path[|path|-1] == v
  }

  ghost predicate Connected(m: MeshRouting.Mesh) {
    forall u, v :: u in m.ids && v in m.ids && u != v ==> Joined(m, u, v)
  }

  /** Every broker has announced each of its filters to its neighbours. */
  ghost predicate ToldNeighbours(m: MeshRouting.Mesh, filters: Filters, steps: seq<MeshRouting.Step>) {
    forall w, v, f :: (w, v) in m.links && w in filters && f in filters[w] ==> AnnouncedTo(steps, |steps|, w, f, v)
  }

  /** Gossip is over: everything was announced and nothing is on the way. */
  ghost predicate GossipOver(m: MeshRouting.Mesh, filters: Filters, nets: seq<MeshRouting.Net>, steps: seq<MeshRouting.Step>) {
    && MeshRouting.IsRun(m, nets, steps) && OwnFilters(filters, steps) && RoutersOnly(steps)
    && ToldNeighbours(m, filters, steps) && nets[|steps|].flight == multiset{}
  }

  lemma NeighboursHave(m: MeshRouting.Mesh, filters: Filters, nets: seq<MeshRouting.Net>, steps: seq<MeshRouting.Step>, w: NodeId, f: string, v: NodeId)
    requires Setting(m, filters) && GossipOver(m, filters, nets, steps)
    requires (w, v) in m.links && f in filters[w]
    ensures v in nets[|steps|].tables && Has(nets[|steps|].tables[v], w, f)
  {
    assert AnnouncedTo(steps, |steps|, w, f, v);
    RunTold(m, filters, nets, steps, |steps|, w, f, v);
    var k: nat :| Holds(nets[|steps|].tables[v].nodes, k, w, f);
  }

  lemma {:induction false} PathHas(m: MeshRouting.Mesh, filters: Filters, nets: seq<MeshRouting.Net>, steps: seq<MeshRouting.Step>, w: NodeId, f: string, path: seq<NodeId>, i: nat)
    requires Setting(m, filters) && GossipOver(m, filters, nets, steps) && w in m.ids && f in filters[w]
    requires IsPath(m, path) && path != [] && path[0] == w && i < |path|
    ensures path[i] == w || (path[i] in nets[|steps|].tables && Has(nets[|steps|].tables[path[i]], w, f))
  {
    if i > 0 {
      PathHas(m, filters, nets, steps, w, f, path, i - 1);
      assert (path[i-1], path[i]) in m.links;
      if path[i-1] == w {
        NeighboursHave(m, filters, nets, steps, w, f, path[i]);
      } else {
        RunSpreads(m, filters, nets, steps, |steps|, w, f);
        assert PassedOn(nets[|steps|], path[i-1], path[i], w, f);
      }
    }
  }

  /** Everyone has every filter when gossip is over. */
  lemma EveryoneHas(m: MeshRouting.Mesh, filters: Filters, nets: seq<MeshRouting.Net>, steps: seq<MeshRouting.Step>, w: NodeId, f: string, v: NodeId)
    requires Setting(m, filters) && Connected(m) && GossipOver(m, filters, nets, steps)
    requires w in m.ids && v in m.ids && v != w && f in filters[w]
    ensures v in nets[|steps|].tables && Has(nets[|steps|].tables[v], w, f)
  {
    assert Joined(m, w, v);
    var path :| IsPath(m, path) && |path| > 1 && path[0] == w && path[|path|-1] == v;
    PathHas(m, filters, nets, steps, w, f, path, |path| - 1);
  }

  // ---------- tables that lead to every subscriber ----------

  ghost predicate Knows(routes: set<Entry>, w: NodeId, f: string) {
    exists h :: Entry(w, f, h) in routes
  }

  /** Over a link, to the owner or a broker that learned of it earlier. */
  ghost predicate Descends(links: set<(NodeId, NodeId)>, rank: MeshRouting.Rank, v: NodeId, e: Entry) {
    && (v, e.hop) in links
    && (e.hop == e.owner || ((e.hop, e.owner) in rank && (v, e.owner) in rank && rank[(e.hop, e.owner)] < rank[(v, e.owner)]))
  }

  ghost predicate Leads(ids: set<NodeId>, links: set<(NodeId, NodeId)>, filters: Filters, routes: RouteSets, rank: MeshRouting.Rank) {
    && filters.Keys == ids && routes.Keys == ids
    && (forall v, w, f :: v in ids && w in ids && v != w && f in filters[w] ==> Knows(routes[v], w, f))
    && (forall v, e :: v in ids && e in routes[v] ==> Descends(links, rank, v, e))
  }

  /** When gossip is over the tables lead to every subscriber. */
  lemma GossipLeads(m: MeshRouting.Mesh, filters: Filters, nets: seq<MeshRouting.Net>, steps: seq<MeshRouting.Step>)
    requires Setting(m, filters) && Connected(m) && GossipOver(m, filters, nets, steps)
    ensures Leads(m.ids, m.links, filters, RoutesOf(nets[|steps|]), nets[|steps|].rank)
  {
    var net := nets[|steps|];
    RunInMesh(m, filters, nets, steps, |steps|);
    MeshRouting.RunKeepsInv(m, nets, steps, |steps|);
    forall v, w, f | v in m.ids && w in m.ids && v != w && f in filters[w] ensures Knows(RoutesOf(net)[v], w, f) {
      EveryoneHas(m, filters, nets, steps, w, f, v);
      HasIsRoute(m, filters, v, net.tables[v], w, f);
    }
    forall v, e | v in m.ids && e in RoutesOf(net)[v] ensures Descends(m.links, net.rank, v, e) {
      assert MeshRouting.GoodHop(m, net.rank, v, e.owner, e.hop);
    }
  }

  lemma HasIsRoute(m: MeshRouting.Mesh, filters: Filters, v: NodeId, t: Tables, w: NodeId, f: string)
    requires TableInMesh(m, filters, v, t) && Has(t, w, f)
    ensures Knows(t.routes, w, f)
  {
    var k: nat :| Holds(t.nodes, k, w, f);
    assert IsRouteOf(t.nodes, Entry(w, f, t.nodes[k].nextHop));
  }

  // ---------- a publish on its way to one subscriber ----------

  /** The publish is sent to the shard owner alone. */
  ghost predicate HandsOver(m: Mesh, s: Step)
    requires s.Publish?
  {
    s.shardOwner != s.node && s.shardOwner in Neighbours(m, s.node)
  }

  /** `x` has handled the publish, or will, or has sent it to all its next hops. */
  ghost predicate Reached(m: Mesh, net: Net, s: Step, k: Key, x: NodeId)
    requires s.Publish?
  {
    (x, k) in net.delivered || Coming(net, x, k) || (x == s.node && !HandsOver(m, s))
  }

  /** From `v` the publish has gone on over a route for the filter. */
  ghost predicate Onward(m: Mesh, routes: RouteSets, net: Net, s: Step, k: Key, w: NodeId, f: string, v: NodeId)
    requires s.Publish?
  {
    v == w || (v in routes && exists h :: Entry(w, f, h) in routes[v] && Reached(m, net, s, k, h))
  }

  ghost predicate FrameKnown(m: Mesh, net: Net, s: Step, k: Key, q: Packet)
    requires s.Publish?
  {
    q.topic == s.topic && ((q.from, k) in net.delivered || (q.from == s.node && (HandsOver(m, s) ==> q.to == s.shardOwner)))
  }

  ghost predicate Moving(m: Mesh, routes: RouteSets, net: Net, s: Step, k: Key, w: NodeId, f: string)
    requires s.Publish?
  {
    && (forall v {:trigger Onward(m, routes, net, s, k, w, f, v)} ::
          v in m.ids && ((v, k) in net.delivered || (v == s.node && !HandsOver(m, s))) ==> Onward(m, routes, net, s, k, w, f, v))
    && (forall q :: q in net.flight && q.key == k ==> FrameKnown(m, net, s, k, q))
    && Reached(m, net, s, k, FirstStop(m, s))
  }

  /** Where the publish is first sent on from. */
  ghost function FirstStop(m: Mesh, s: Step): NodeId
    requires s.Publish?
  {
    if HandsOver(m, s) then s.shardOwner else s.node
  }

  /** Every hop is linked, so all of them fit into the answer. */
  lemma WholeAnswer(m: Mesh, routes: set<Entry>, v: NodeId, rank: MeshRouting.Rank, topic: string, exclude: Option<NodeId>, hops: set<NodeId>)
    requires MeshOk(m) && v in m.ids && Answers(routes, m.peerMax, topic, exclude, hops)
    requires forall e :: e in routes ==> Descends(m.links, rank, v, e)
    ensures hops == Hops(routes, topic, exclude) <= Neighbours(m, v)
  {
    var wanted := Hops(routes, topic, exclude);
    forall h | h in wanted ensures h in Neighbours(m, v) {
      var e :| e in routes && RouterMatch(e.filter, topic) && e.hop == h;
      assert Descends(m.links, rank, v, e);
      assert (v, h).0 == v;
    }
    SubsetSize(wanted, Neighbours(m, v));
    SubsetSize(hops, wanted);
  }

  lemma ReachedStays(m: Mesh, net: Net, st: Step, s: Step, k: Key, x: NodeId)
    requires MeshOk(m) && NetOk(m, net) && CachedWasHandled(net) && s.Publish? && k != NO_KEY
    requires Enabled(m, net, st) && Reached(m, net, s, k, x)
    ensures Reached(m, Next(m, net, st), s, k, x)
  {
    var net' := Next(m, net, st);
    if (x, k) !in net.delivered && Coming(net, x, k) {
      var q :| q in net.flight && q.to == x && q.key == k;
      if st.Deliver? && st.packet == q {
        assert (x, k) in net'.delivered;
      } else {
        assert q in net'.flight;
      }
    }
  }

  lemma OnwardStays(m: Mesh, routes: RouteSets, net: Net, st: Step, s: Step, k: Key, w: NodeId, f: string, v: NodeId)
    requires MeshOk(m) && NetOk(m, net) && CachedWasHandled(net) && s.Publish? && k != NO_KEY
    requires Enabled(m, net, st) && Onward(m, routes, net, s, k, w, f, v)
    ensures Onward(m, routes, Next(m, net, st), s, k, w, f, v)
  {
    if v != w {
      var h :| Entry(w, f, h) in routes[v] && Reached(m, net, s, k, h);
      ReachedStays(m, net, st, s, k, h);
    }
  }

  /** The routes of the mesh, and a filter of `w` that the publish matches. */
  ghost predicate Towards(m: Mesh, filters: Filters, routes: RouteSets, rank: MeshRouting.Rank, s: Step, w: NodeId, f: string)
    requires s.Publish?
  {
    && MeshOk(m) && Leads(m.ids, m.links, filters, routes, rank)
    && w in m.ids && w != s.node && f in filters[w] && RouterMatch(f, s.topic)
  }

  /** The publisher is not the shard owner's way to `w`, unless it has sent the publish
      everywhere itself. */
  ghost predicate NotThrough(m: Mesh, routes: RouteSets, s: Step, w: NodeId, f: string)
    requires s.Publish?
  {
    HandsOver(m, s) ==> s.shardOwner in routes && Entry(w, f, s.node) !in routes[s.shardOwner]
  }

  lemma SentOn(m: Mesh, net: Net, pkt: Packet, hops: set<NodeId>, h: NodeId)
    requires MeshOk(m) && NetOk(m, net) && pkt in net.flight && !SeenBefore(net.caches[pkt.to], m.slot, pkt.key).0
    requires h in hops * Neighbours(m, pkt.to)
    ensures Coming(Receive(m, net, pkt, true, hops), h, pkt.key)
  {
    assert Packet(pkt.to, h, pkt.key, pkt.topic) in Packets(pkt.to, RelayTargets(m, pkt.to, true, hops), pkt.key, pkt.topic);
    assert Packet(pkt.to, h, pkt.key, pkt.topic) in Receive(m, net, pkt, true, hops).flight;
  }

  /** A broker that handles the publish for the first time sends it on towards `w`, or
      has it from its own next hop. */
  lemma HandlerSends(m: Mesh, filters: Filters, routes: RouteSets, rank: MeshRouting.Rank, net: Net, pkt: Packet, hops: set<NodeId>,
                     s: Step, k: Key, w: NodeId, f: string)
    requires s.Publish? && Towards(m, filters, routes, rank, s, w, f) && NotThrough(m, routes, s, w, f)
    requires NetOk(m, net) && pkt in net.flight && pkt.key == k && FrameKnown(m, net, s, k, pkt)
    requires !SeenBefore(net.caches[pkt.to], m.slot, k).0 && Answered(m, routes, Deliver(pkt, true, hops))
    ensures Onward(m, routes, Receive(m, net, pkt, true, hops), s, k, w, f, pkt.to)
  {
    var x, net' := pkt.to, Receive(m, net, pkt, true, hops);
    if x != w {
      assert Knows(routes[x], w, f);
      var h :| Entry(w, f, h) in routes[x];
      WholeAnswer(m, routes[x], x, rank, pkt.topic, Some(pkt.from), hops);
      if h != pkt.from {
        assert Entry(w, f, h).filter == f;
        assert h in hops;
        SentOn(m, net, pkt, hops, h);
      } else if (pkt.from, k) in net.delivered {
        assert net.delivered[(h, k)] <= net'.delivered[(h, k)];
      }
      assert Reached(m, net', s, k, h);
    }
  }

  lemma DeliverMoves(m: Mesh, filters: Filters, routes: RouteSets, rank: MeshRouting.Rank, net: Net, st: Step,
                     s: Step, k: Key, w: NodeId, f: string, v: NodeId)
    requires s.Publish? && Towards(m, filters, routes, rank, s, w, f) && NotThrough(m, routes, s, w, f)
    requires NetOk(m, net) && CachedWasHandled(net) && k != NO_KEY && Moving(m, routes, net, s, k, w, f)
    requires Enabled(m, net, st) && st.Deliver? && st.router && Answered(m, routes, st)
    requires v in m.ids && (v, k) in Next(m, net, st).delivered && (v, k) !in net.delivered
    ensures Onward(m, routes, Next(m, net, st), s, k, w, f, v)
  {
    HandlerSends(m, filters, routes, rank, net, st.packet, st.hops, s, k, w, f);
  }

  lemma FramesKnown(m: Mesh, net: Net, st: Step, s: Step, k: Key, q: Packet)
    requires MeshOk(m) && NetOk(m, net) && s.Publish? && Enabled(m, net, st) && !Publishes(net, st, k)
    requires forall p :: p in net.flight && p.key == k ==> FrameKnown(m, net, s, k, p)
    requires q in Next(m, net, st).flight && q.key == k
    ensures FrameKnown(m, Next(m, net, st), s, k, q)
  {
    if q in net.flight {
      assert net.delivered[(q.from, k)] <= Next(m, net, st).delivered[(q.from, k)];
    } else {
      assert st.Deliver? && st.packet.key == k;
      assert FrameKnown(m, net, s, k, st.packet);
    }
  }

  lemma StepMoves(m: Mesh, filters: Filters, routes: RouteSets, rank: MeshRouting.Rank, net: Net, st: Step, net': Net,
                  s: Step, k: Key, w: NodeId, f: string)
    requires s.Publish? && Towards(m, filters, routes, rank, s, w, f) && NotThrough(m, routes, s, w, f)
    requires NetOk(m, net) && CachedWasHandled(net) && k != NO_KEY && Moving(m, routes, net, s, k, w, f)
    requires Enabled(m, net, st) && net' == Next(m, net, st) && (st.Deliver? ==> st.router)
    requires Answered(m, routes, st) && !Publishes(net, st, k)
    ensures Moving(m, routes, net', s, k, w, f)
  {
    forall v | v in m.ids && ((v, k) in net'.delivered || (v == s.node && !HandsOver(m, s)))
      ensures Onward(m, routes, net', s, k, w, f, v)
    {
      if (v, k) in net.delivered || (v == s.node && !HandsOver(m, s)) {
        OnwardStays(m, routes, net, st, s, k, w, f, v);
      } else {
        DeliverMoves(m, filters, routes, rank, net, st, s, k, w, f, v);
      }
    }
    forall q | q in net'.flight && q.key == k ensures FrameKnown(m, net', s, k, q) {
      FramesKnown(m, net, st, s, k, q);
    }
    ReachedStays(m, net, st, s, k, FirstStop(m, s));
  }

  lemma PublishComing(m: Mesh, net: Net, s: Step, k: Key, t: NodeId)
    requires s.Publish? && Enabled(m, net, s) && Publishes(net, s, k)
    requires t in PublishTargets(s.node, s.shardOwner, Neighbours(m, s.node), s.hops)
    ensures Coming(Next(m, net, s), t, k)
  {
    var targets := PublishTargets(s.node, s.shardOwner, Neighbours(m, s.node), s.hops);
    assert Packet(s.node, t, k, s.topic) in Packets(s.node, targets, k, s.topic);
    assert Packet(s.node, t, k, s.topic) in Next(m, net, s).flight;
  }

  lemma PublishOnward(m: Mesh, filters: Filters, routes: RouteSets, rank: MeshRouting.Rank, net: Net, s: Step, k: Key, w: NodeId, f: string)
    requires s.Publish? && Towards(m, filters, routes, rank, s, w, f) && !HandsOver(m, s)
    requires NetOk(m, net) && Enabled(m, net, s) && Publishes(net, s, k) && Answered(m, routes, s)
    ensures Onward(m, routes, Next(m, net, s), s, k, w, f, s.node)
  {
    assert Knows(routes[s.node], w, f);
    var h :| Entry(w, f, h) in routes[s.node];
    WholeAnswer(m, routes[s.node], s.node, rank, s.topic, None, s.hops);
    assert Entry(w, f, h).filter == f;
    assert h in s.hops * Neighbours(m, s.node);
    PublishComing(m, net, s, k, h);
    assert Reached(m, Next(m, net, s), s, k, h);
  }

  lemma PublishMoves(m: Mesh, filters: Filters, routes: RouteSets, rank: MeshRouting.Rank, net: Net, s: Step, k: Key, w: NodeId, f: string)
    requires s.Publish? && Towards(m, filters, routes, rank, s, w, f)
    requires NetOk(m, net) && Enabled(m, net, s) && Publishes(net, s, k) && !Appears(net, k) && Answered(m, routes, s)
    ensures Moving(m, routes, Next(m, net, s), s, k, w, f)
  {
    if HandsOver(m, s) {
      PublishComing(m, net, s, k, s.shardOwner);
    } else {
      PublishOnward(m, filters, routes, rank, net, s, k, w, f);
    }
    forall q | q in Next(m, net, s).flight && q.key == k ensures FrameKnown(m, Next(m, net, s), s, k, q) {
      assert q !in net.flight;
    }
  }

  lemma RunStarts(m: Mesh, filters: Filters, routes: RouteSets, rank: MeshRouting.Rank, nets: seq<Net>, steps: seq<Step>, at: nat,
                  k: Key, w: NodeId, f: string)
    requires IsRun(m, nets, steps) && AllAnswered(m, routes, steps) && at < |steps| && steps[at].Publish?
    requires Towards(m, filters, routes, rank, steps[at], w, f) && PublishedOnlyAt(nets, steps, at, k)
    ensures Moving(m, routes, nets[at+1], steps[at], k, w, f)
  {
    RunNetOk(m, nets, steps, at);
    RunStep(m, nets, steps, at);
    FreshBefore(m, nets, steps, at, at, k);
    assert Publishes(nets[at], steps[at], k) && Answered(m, routes, steps[at]);
    PublishMoves(m, filters, routes, rank, nets[at], steps[at], k, w, f);
  }

  lemma RunStepMoves(m: Mesh, filters: Filters, routes: RouteSets, rank: MeshRouting.Rank, nets: seq<Net>, steps: seq<Step>, at: nat, n: nat,
                     k: Key, w: NodeId, f: string)
    requires IsRun(m, nets, steps) && AllRouters(steps) && AllAnswered(m, routes, steps) && at < n < |steps| && steps[at].Publish?
    requires Towards(m, filters, routes, rank, steps[at], w, f) && NotThrough(m, routes, steps[at], w, f)
    requires PublishedOnlyAt(nets, steps, at, k) && k != NO_KEY && Moving(m, routes, nets[n], steps[at], k, w, f)
    ensures Moving(m, routes, nets[n+1], steps[at], k, w, f)
  {
    var net, st, net' := nets[n], steps[n], nets[n+1];
    RunKeepsCached(m, nets, steps, n);
    RunStep(m, nets, steps, n);
    assert !Publishes(net, st, k) && Answered(m, routes, st);
    StepMoves(m, filters, routes, rank, net, st, net', steps[at], k, w, f);
  }

  ghost predicate StaysMoving(m: Mesh, routes: RouteSets, nets: seq<Net>, s: Step, k: Key, w: NodeId, f: string, i: nat)
    requires s.Publish? && i + 1 < |nets|
  {
    Moving(m, routes, nets[i], s, k, w, f) ==> Moving(m, routes, nets[i+1], s, k, w, f)
  }

  lemma AllStepsMove(m: Mesh, filters: Filters, routes: RouteSets, rank: MeshRouting.Rank, nets: seq<Net>, steps: seq<Step>,
                     at: nat, k: Key, w: NodeId, f: string)
    requires IsRun(m, nets, steps) && AllRouters(steps) && AllAnswered(m, routes, steps) && at < |steps| && steps[at].Publish?
    requires Towards(m, filters, routes, rank, steps[at], w, f) && NotThrough(m, routes, steps[at], w, f)
    requires PublishedOnlyAt(nets, steps, at, k) && k != NO_KEY
    ensures forall i :: at < i < |steps| ==> StaysMoving(m, routes, nets, steps[at], k, w, f, i)
  {
    forall i | at < i < |steps| ensures StaysMoving(m, routes, nets, steps[at], k, w, f, i) {
      if Moving(m, routes, nets[i], steps[at], k, w, f) {
        RunStepMoves(m, filters, routes, rank, nets, steps, at, i, k, w, f);
      }
    }
  }

  lemma {:induction false} RunMoves(m: Mesh, routes: RouteSets, nets: seq<Net>, s: Step, at: nat, n: nat, k: Key, w: NodeId, f: string)
    requires s.Publish? && at < n < |nets| && Moving(m, routes, nets[at+1], s, k, w, f)
    requires forall i :: at < i < |nets| - 1 ==> StaysMoving(m, routes, nets, s, k, w, f, i)
    ensures Moving(m, routes, nets[n], s, k, w, f)
  {
    if at + 1 < n {
      RunMoves(m, routes, nets, s, at, n - 1, k, w, f);
      assert StaysMoving(m, routes, nets, s, k, w, f, n - 1);
    }
  }

  /** With no frame left the publish has come all the way: each broker on it learned of
      `w` earlier than the one before. */
  lemma {:induction false} AllTheWay(m: Mesh, filters: Filters, routes: RouteSets, rank: MeshRouting.Rank, net: Net, s: Step,
                                     k: Key, w: NodeId, f: string, v: NodeId)
    requires s.Publish? && Towards(m, filters, routes, rank, s, w, f) && Moving(m, routes, net, s, k, w, f)
    requires (forall x :: !Coming(net, x, k)) && v in m.ids && Reached(m, net, s, k, v)
    ensures (w, k) in net.delivered
    decreases if v == w then 0 else if (v, w) in rank then rank[(v, w)] + 1 else 0
  {
    if v != w {
      assert Onward(m, routes, net, s, k, w, f, v);
      var h :| Entry(w, f, h) in routes[v] && Reached(m, net, s, k, h);
      assert Descends(m.links, rank, v, Entry(w, f, h));
      assert (v, h).1 == h;
      if h != w {
        AllTheWay(m, filters, routes, rank, net, s, k, w, f, h);
      }
    }
  }

  /** When no frame of a publish is left, every other subscriber has handled it, unless
      it was handed to the shard owner and that one's way to the subscriber is back over
      the publisher. */
  lemma MeshDelivers(m: Mesh, filters: Filters, routes: RouteSets, rank: MeshRouting.Rank, nets: seq<Net>, steps: seq<Step>, at: nat,
                     k: Key, w: NodeId, f: string)
    requires IsRun(m, nets, steps) && AllRouters(steps) && AllAnswered(m, routes, steps) && at < |steps| && steps[at].Publish?
    requires Towards(m, filters, routes, rank, steps[at], w, f) && NotThrough(m, routes, steps[at], w, f)
    requires PublishedOnlyAt(nets, steps, at, k) && k != NO_KEY
    requires MeshPublish.OnTheWay(nets[|steps|].flight, k) == multiset{}
    ensures (w, k) in nets[|steps|].delivered
  {
    RunStarts(m, filters, routes, rank, nets, steps, at, k, w, f);
    AllStepsMove(m, filters, routes, rank, nets, steps, at, k, w, f);
    RunMoves(m, routes, nets, steps[at], at, |steps|, k, w, f);
    NoneComing(nets[|steps|], k);
    FirstStopInMesh(m, routes, steps[at]);
    AllTheWay(m, filters, routes, rank, nets[|steps|], steps[at], k, w, f, FirstStop(m, steps[at]));
  }

  lemma FirstStopInMesh(m: Mesh, routes: RouteSets, s: Step)
    requires MeshOk(m) && s.Publish? && Answered(m, routes, s) && routes.Keys == m.ids
    ensures FirstStop(m, s) in m.ids
  {
    if HandsOver(m, s) {
      assert (s.node, s.shardOwner) in m.links;
    }
  }

  lemma NoneComing(net: Net, k: Key)
    requires MeshPublish.OnTheWay(net.flight, k) == multiset{}
    ensures forall x :: !Coming(net, x, k)
  {
    assert forall q :: q in net.flight && q.key == k ==> q in MeshPublish.OnTheWay(net.flight, k);
  }

  /** The same over the tables that gossip leaves. */
  lemma GossipDelivers(g: MeshRouting.Mesh, filters: Filters, gossip: seq<MeshRouting.Net>, told: seq<MeshRouting.Step>,
                       m: Mesh, nets: seq<Net>, steps: seq<Step>, at: nat, k: Key, w: NodeId, f: string)
    requires Setting(g, filters) && Connected(g) && GossipOver(g, filters, gossip, told)
    requires MeshOk(m) && m.ids == g.ids && m.links == g.links
    requires IsRun(m, nets, steps) && AllRouters(steps) && AllAnswered(m, RoutesOf(gossip[|told|]), steps)
    requires at < |steps| && steps[at].Publish? && PublishedOnlyAt(nets, steps, at, k) && k != NO_KEY
    requires w in m.ids && w != steps[at].node && f in filters[w] && RouterMatch(f, steps[at].topic)
    requires NotThrough(m, RoutesOf(gossip[|told|]), steps[at], w, f)
    requires MeshPublish.OnTheWay(nets[|steps|].flight, k) == multiset{}
    ensures (w, k) in nets[|steps|].delivered
  {
    GossipLeads(g, filters, gossip, told);
    MeshDelivers(m, filters, RoutesOf(gossip[|told|]), gossip[|told|].rank, nets, steps, at, k, w, f);
  }

  // ---------- the exception ----------

  /** 2 - 1 - 3, with 3 subscribed. */
  ghost function Chain(slot: Key -> nat): Mesh {
    Mesh({1, 2, 3}, {(1, 2), (2, 1), (1, 3), (3, 1)}, 2, slot, 1)
  }

  const CHAIN_FILTERS: Filters := map[1 := {}, 2 := {}, 3 := {"a"}]
  const CHAIN_ROUTES: RouteSets := map[1 := {Entry(3, "a", 3)}, 2 := {Entry(3, "a", 1)}, 3 := {}]
  const CHAIN_RANK: MeshRouting.Rank := map[(1, 3) := 0, (2, 3) := 1]

  lemma ChainIsMesh(slot: Key -> nat)
    ensures var m := Chain(slot); MeshOk(m) && Neighbours(m, 1) == {2, 3} && Neighbours(m, 2) == {1}
  {
    var m := Chain(slot);
    assert (1, 2) in m.links && (2, 1) in m.links && (1, 3) in m.links && (3, 1) in m.links;
    assert Neighbours(m, 1) == {2, 3} && Neighbours(m, 2) == {1} && Neighbours(m, 3) == {1};
  }

  lemma ChainLeads(slot: Key -> nat)
    ensures var m := Chain(slot); Leads(m.ids, m.links, CHAIN_FILTERS, CHAIN_ROUTES, CHAIN_RANK)
  {
    var m := Chain(slot);
    assert Entry(3, "a", 3) in CHAIN_ROUTES[1] && Entry(3, "a", 1) in CHAIN_ROUTES[2];
    forall v, e | v in m.ids && e in CHAIN_ROUTES[v] ensures Descends(m.links, CHAIN_RANK, v, e) {
      assert (1, 3) in m.links && (2, 1) in m.links;
    }
  }

  lemma ChainAnswers(slot: Key -> nat)
    ensures var m := Chain(slot);
            && Answered(m, CHAIN_ROUTES, Publish(1, "a", 2, {3}))
            && Answered(m, CHAIN_ROUTES, Deliver(Packet(1, 2, Key(1, 1), "a"), true, {}))
  {
    ExactMatchesItself("a", "a", false);
    assert Entry(3, "a", 3).filter == "a";
    assert Hops(CHAIN_ROUTES[1], "a", None) == {3};
    assert Hops(CHAIN_ROUTES[2], "a", Some(1)) == {};
  }

  lemma ChainPublish(slot: Key -> nat) returns (net: Net)
    ensures var m, s, pkt := Chain(slot), Publish(1, "a", 2, {3}), Packet(1, 2, Key(1, 1), "a");
            && Enabled(m, Initial(m), s) && net == Next(m, Initial(m), s) && Publishes(Initial(m), s, Key(1, 1))
            && net.flight == multiset{pkt} && net.delivered == multiset{} && Enabled(m, net, Deliver(pkt, true, {}))
            && !SeenBefore(net.caches[2], slot, Key(1, 1)).0
  {
    var m, s := Chain(slot), Publish(1, "a", 2, {3});
    ChainIsMesh(slot);
    net := Next(m, Initial(m), s);
    assert PublishTargets(1, 2, Neighbours(m, 1), {3}) == {2};
    assert Packets(1, {2}, Key(1, 1), "a") == {Packet(1, 2, Key(1, 1), "a")};
  }

  lemma ChainEnds(slot: Key -> nat, net: Net)
    requires var pkt := Packet(1, 2, Key(1, 1), "a");
             && Enabled(Chain(slot), net, Deliver(pkt, true, {})) && net.flight == multiset{pkt} && net.delivered == multiset{}
    ensures var net' := Next(Chain(slot), net, Deliver(Packet(1, 2, Key(1, 1), "a"), true, {}));
            net'.flight == multiset{} && (3, Key(1, 1)) !in net'.delivered
  {
    assert RelayTargets(Chain(slot), 2, true, {}) == {};
    assert Packets(2, {}, Key(1, 1), "a") == {};
  }

  lemma ChainRun(slot: Key -> nat) returns (nets: seq<Net>, steps: seq<Step>)
    ensures IsRun(Chain(slot), nets, steps)
    ensures steps == [Publish(1, "a", 2, {3}), Deliver(Packet(1, 2, Key(1, 1), "a"), true, {})]
    ensures Publishes(nets[0], steps[0], Key(1, 1)) && nets[2].flight == multiset{} && (3, Key(1, 1)) !in nets[2].delivered
  {
    var m, s, d := Chain(slot), Publish(1, "a", 2, {3}), Deliver(Packet(1, 2, Key(1, 1), "a"), true, {});
    var net := ChainPublish(slot);
    RunExtends(m, [Initial(m)], [], s);
    nets, steps := [Initial(m)] + [net], [] + [s];
    RunExtends(m, nets, steps, d);
    nets, steps := nets + [Next(m, net, d)], steps + [d];
    ChainEnds(slot, net);
  }

  /** A publish at 1 for the shard owner 2 never reaches 3: 2 has 1 for its next hop and
      does not send it back. */
  lemma ChainMisses(slot: Key -> nat) returns (nets: seq<Net>, steps: seq<Step>)
    ensures var m := Chain(slot); MeshOk(m) && Leads(m.ids, m.links, CHAIN_FILTERS, CHAIN_ROUTES, CHAIN_RANK)
    ensures IsRun(Chain(slot), nets, steps) && AllRouters(steps) && AllAnswered(Chain(slot), CHAIN_ROUTES, steps)
    ensures |steps| == 2 && steps[0] == Publish(1, "a", 2, {3}) && Publishes(nets[0], steps[0], Key(1, 1))
    ensures nets[2].flight == multiset{} && (3, Key(1, 1)) !in nets[2].delivered
  {
    ChainIsMesh(slot);
    ChainLeads(slot);
    ChainAnswers(slot);
    nets, steps := ChainRun(slot);
  }
}
