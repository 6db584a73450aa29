/**
 From gossip to delivery: in a full mesh whose route tables have a slot for every
 broker and every filter, once each broker has announced its filters to all the
 others and no announcement is on the way, every table is direct.
 */
module MeshSetup {
  import opened Common
  import opened RouteModel
  import MeshRouting
  import MeshPublish
  import MeshDelivery

  /** A node slot for every broker and a subscription slot for every filter; no broker
      is linked to itself. */
  ghost predicate Setting(m: MeshRouting.Mesh, filters: MeshDelivery.Filters) {
    && MeshRouting.MeshOk(m) && filters.Keys == m.ids && |m.ids| <= m.nodeMax
    && (forall v :: v in m.ids ==> |filters[v]| <= m.perNode)
    && (forall l :: l in m.links ==> l.0 != l.1)
  }

  // ---------- one table ----------

  ghost predicate NodeInMesh(filters: MeshDelivery.Filters, v: NodeId, n: RemoteNode) {
    n.inUse ==>
      && n.owner in filters && n.nextHop in filters && n.nextHop != v
      && forall f :: HasSub(n, f) ==> f in filters[n.owner]
  }

  /** What broker `v` holds comes from the mesh, and its routes follow its nodes. */
  ghost predicate TableInMesh(m: MeshRouting.Mesh, filters: MeshDelivery.Filters, v: NodeId, t: Tables) {
    && Sound(t, m.perNode) && Synced(t) && |t.nodes| == m.nodeMax
    && forall i :: 0 <= i < |t.nodes| ==> NodeInMesh(filters, v, t.nodes[i])
  }

  /** The filter is held over its owner. */
  ghost predicate Direct(t: Tables, w: NodeId, f: string) {
    exists k: nat :: Holds(t.nodes, k, w, f) && t.nodes[k].nextHop == w
  }

  lemma StartInMesh(m: MeshRouting.Mesh, filters: MeshDelivery.Filters, v: NodeId)
    ensures TableInMesh(m, filters, v, Start(m.nodeMax, m.perNode))
  {}

  /** There is a node slot for every broker. */
  lemma NodeRoom(m: MeshRouting.Mesh, filters: MeshDelivery.Filters, v: NodeId, t: Tables, o: NodeId)
    requires Setting(m, filters) && TableInMesh(m, filters, v, t) && o in m.ids
    ensures NodeFor(t.nodes, o, m.perNode).Some?
  {
    if NodeFor(t.nodes, o, m.perNode) == None {
      var owners := seq(|t.nodes|, i requires 0 <= i < |t.nodes| => t.nodes[i].owner);
      forall i | 0 <= i < |t.nodes| ensures t.nodes[i].inUse && owners[i] in m.ids - {o} {
        assert NodeInMesh(filters, v, t.nodes[i]) && !IsOwner(t.nodes[i], o);
      }
      DistinctSize(owners);
      SubsetSize(Elements(owners), m.ids - {o});
    }
  }

  /** And a subscription slot for every filter. */
  lemma SubRoom(m: MeshRouting.Mesh, filters: MeshDelivery.Filters, n: RemoteNode, filter: string)
    requires Setting(m, filters) && n.owner in m.ids && filter in filters[n.owner]
    requires |n.subs| == m.perNode && FiltersUnique(n) && forall f :: HasSub(n, f) ==> f in filters[n.owner]
    ensures SubSlot(n.subs, filter) < |n.subs|
  {
    if SubSlot(n.subs, filter) == |n.subs| {
      var held := seq(|n.subs|, j requires 0 <= j < |n.subs| => n.subs[j].filter);
      forall j | 0 <= j < |n.subs| ensures n.subs[j].inUse && held[j] in filters[n.owner] - {filter} {
        assert IsSub(n.subs[j], held[j]);
      }
      DistinctSize(held);
      SubsetSize(Elements(held), filters[n.owner] - {filter});
    }
  }

  lemma AlwaysSlot(m: MeshRouting.Mesh, filters: MeshDelivery.Filters, v: NodeId, t: Tables, o: NodeId, filter: string)
    requires Setting(m, filters) && TableInMesh(m, filters, v, t) && o in m.ids && filter in filters[o]
    ensures NodeFor(t.nodes, o, m.perNode).Some?
    ensures var n := NodeFor(t.nodes, o, m.perNode).value.1; SubSlot(n.subs, filter) < |n.subs|
  {
    NodeRoom(m, filters, v, t, o);
    var (i, n) := NodeFor(t.nodes, o, m.perNode).value;
    if t.nodes[i].inUse {
      assert NodeInMesh(filters, v, t.nodes[i]);
    }
    SubRoom(m, filters, n, filter);
  }

  /** An announcement received keeps the table in the mesh. */
  lemma ReceiveKeepsTable(m: MeshRouting.Mesh, filters: MeshDelivery.Filters, v: NodeId, t: Tables, f: MeshRouting.Frame)
    requires Setting(m, filters) && TableInMesh(m, filters, v, t)
    requires f.owner in m.ids && f.filter in filters[f.owner] && f.from in m.ids && f.from != v
    ensures TableInMesh(m, filters, v, Subscribe(t, f.owner, f.filter, f.qos, f.from, m.perNode).0)
  {
    AlwaysSlot(m, filters, v, t, f.owner, f.filter);
    SubscribeKeepsSound(t, f.owner, f.filter, f.qos, f.from, m.perNode);
    SubscribeStaysSynced(t, f.owner, f.filter, f.qos, f.from, m.perNode);
    SubscribeShape(t, f.owner, f.filter, f.qos, f.from, m.perNode);
    var t' := Subscribe(t, f.owner, f.filter, f.qos, f.from, m.perNode).0;
    var (i, n) := NodeFor(t.nodes, f.owner, m.perNode).value;
    if t.nodes[i].inUse {
      assert NodeInMesh(filters, v, t.nodes[i]);
    }
    forall k | 0 <= k < |t'.nodes| ensures NodeInMesh(filters, v, t'.nodes[k]) {
      if k != i {
        assert NodeInMesh(filters, v, t.nodes[k]);
      }
    }
  }

  /** A filter held over its owner stays so; one received from its owner becomes so. */
  lemma ReceiveKeepsDirect(m: MeshRouting.Mesh, filters: MeshDelivery.Filters, v: NodeId, t: Tables, f: MeshRouting.Frame)
    requires Setting(m, filters) && TableInMesh(m, filters, v, t)
    requires f.owner in m.ids && f.filter in filters[f.owner] && f.from in m.ids
    ensures var t' := Subscribe(t, f.owner, f.filter, f.qos, f.from, m.perNode).0;
            && (forall w, g :: w in m.ids && Direct(t, w, g) ==> Direct(t', w, g))
            && (f.from == f.owner ==> Direct(t', f.owner, f.filter))
  {
    AlwaysSlot(m, filters, v, t, f.owner, f.filter);
    SubscribeShape(t, f.owner, f.filter, f.qos, f.from, m.perNode);
    var t' := Subscribe(t, f.owner, f.filter, f.qos, f.from, m.perNode).0;
    var i := NodeFor(t.nodes, f.owner, m.perNode).value.0;
    forall w, g | w in m.ids && Direct(t, w, g) ensures Direct(t', w, g) {
      var k: nat :| Holds(t.nodes, k, w, g) && t.nodes[k].nextHop == w;
      assert Holds(t'.nodes, k, w, g) && t'.nodes[k].nextHop == w;
    }
    if f.from == f.owner {
      assert Holds(t'.nodes, i, f.owner, f.filter) && t'.nodes[i].nextHop == f.owner;
    }
  }

  // ---------- the mesh ----------

  ghost predicate FrameInMesh(m: MeshRouting.Mesh, filters: MeshDelivery.Filters, f: MeshRouting.Frame) {
    (f.from, f.to) in m.links && f.owner in filters && f.filter in filters[f.owner]
  }

  /** An announcement of the filter, by its owner, is on the way to `v`. */
  ghost predicate OnTheWay(net: MeshRouting.Net, w: NodeId, f: string, v: NodeId) {
    exists q :: MeshRouting.Frame(w, v, w, f, q) in net.flight
  }

  ghost predicate Told(net: MeshRouting.Net, w: NodeId, f: string, v: NodeId) {
    v in net.tables && (OnTheWay(net, w, f, v) || Direct(net.tables[v], w, f))
  }

  /** One of the first `n` steps announces the filter to `v`. */
  ghost predicate AnnouncedTo(steps: seq<MeshRouting.Step>, n: nat, w: NodeId, f: string, v: NodeId)
    requires n <= |steps|
  {
    exists i :: 0 <= i < n && Announces(steps[i], w, f, v)
  }

  predicate Announces(s: MeshRouting.Step, w: NodeId, f: string, v: NodeId) {
    s.Announce? && s.owner == w && s.filter == f && v in s.targets
  }

  ghost predicate OwnFilters(filters: MeshDelivery.Filters, steps: seq<MeshRouting.Step>) {
    forall i :: 0 <= i < |steps| ==> OwnFilter(filters, steps[i])
  }

  predicate OwnFilter(filters: MeshDelivery.Filters, s: MeshRouting.Step) {
    s.Announce? ==> s.owner in filters && s.filter in filters[s.owner]
  }

  ghost predicate InMesh(m: MeshRouting.Mesh, filters: MeshDelivery.Filters, net: MeshRouting.Net) {
    && net.tables.Keys == m.ids
    && (forall v :: v in m.ids ==> TableInMesh(m, filters, v, net.tables[v]))
    && (forall f :: f in net.flight ==> FrameInMesh(m, filters, f))
  }

  lemma AnnounceKeepsInMesh(m: MeshRouting.Mesh, filters: MeshDelivery.Filters, net: MeshRouting.Net, s: MeshRouting.Step)
    requires Setting(m, filters) && InMesh(m, filters, net) && s.Announce? && MeshRouting.Enabled(m, net, s) && OwnFilter(filters, s)
    ensures InMesh(m, filters, MeshRouting.Next(m, net, s))
  {
    forall f | f in MeshRouting.Next(m, net, s).flight ensures FrameInMesh(m, filters, f) {
      if f !in net.flight {
        assert f.to in MeshRouting.Neighbours(m, s.owner);
      }
    }
  }

  lemma DeliverKeepsInMesh(m: MeshRouting.Mesh, filters: MeshDelivery.Filters, net: MeshRouting.Net, f: MeshRouting.Frame, router: bool)
    requires Setting(m, filters) && InMesh(m, filters, net) && f in net.flight && f.to in net.tables
    ensures InMesh(m, filters, MeshRouting.Receive(m, net, f, router))
  {
    assert FrameInMesh(m, filters, f);
    ReceiveKeepsTable(m, filters, f.to, net.tables[f.to], f);
    RelaysInMesh(m, filters, net, f, router);
  }

  lemma RelaysInMesh(m: MeshRouting.Mesh, filters: MeshDelivery.Filters, net: MeshRouting.Net, f: MeshRouting.Frame, router: bool)
    requires f.to in net.tables && FrameInMesh(m, filters, f) && forall g :: g in net.flight ==> FrameInMesh(m, filters, g)
    ensures forall g :: g in MeshRouting.Receive(m, net, f, router).flight ==> FrameInMesh(m, filters, g)
  {
    var net' := MeshRouting.Receive(m, net, f, router);
    forall g | g in net'.flight ensures FrameInMesh(m, filters, g) {
      if g !in net.flight {
        assert g.to in MeshRouting.Neighbours(m, f.to);
      }
    }
  }

  lemma StepKeepsInMesh(m: MeshRouting.Mesh, filters: MeshDelivery.Filters, net: MeshRouting.Net, s: MeshRouting.Step)
    requires Setting(m, filters) && InMesh(m, filters, net) && MeshRouting.Enabled(m, net, s) && OwnFilter(filters, s)
    ensures InMesh(m, filters, MeshRouting.Next(m, net, s))
  {
    match s
    case Announce(_, _, _, _) => AnnounceKeepsInMesh(m, filters, net, s);
    case Deliver(f, router) => DeliverKeepsInMesh(m, filters, net, f, router);
  }

  /** What a broker has been told it goes on being told, or holds. */
  lemma StepKeepsTold(m: MeshRouting.Mesh, filters: MeshDelivery.Filters, net: MeshRouting.Net, s: MeshRouting.Step, w: NodeId, f: string, v: NodeId)
    requires Setting(m, filters) && InMesh(m, filters, net) && MeshRouting.Enabled(m, net, s)
    requires w in m.ids && Told(net, w, f, v)
    ensures Told(MeshRouting.Next(m, net, s), w, f, v)
  {
    var net' := MeshRouting.Next(m, net, s);
    match s
    case Announce(_, _, _, _) =>
      if OnTheWay(net, w, f, v) {
        var q :| MeshRouting.Frame(w, v, w, f, q) in net.flight;
        assert MeshRouting.Frame(w, v, w, f, q) in net'.flight;
      }
    case Deliver(g, router) =>
      assert FrameInMesh(m, filters, g);
      ReceiveKeepsDirect(m, filters, g.to, net.tables[g.to], g);
      if OnTheWay(net, w, f, v) {
        var q :| MeshRouting.Frame(w, v, w, f, q) in net.flight;
        assert MeshRouting.Frame(w, v, w, f, q) == g || MeshRouting.Frame(w, v, w, f, q) in net'.flight;
      }
  }

  lemma AnnounceTells(m: MeshRouting.Mesh, net: MeshRouting.Net, s: MeshRouting.Step, w: NodeId, f: string, v: NodeId)
    requires MeshRouting.MeshOk(m) && net.tables.Keys == m.ids && MeshRouting.Enabled(m, net, s) && Announces(s, w, f, v)
    ensures Told(MeshRouting.Next(m, net, s), w, f, v)
  {
    assert v in MeshRouting.Neighbours(m, w);
    assert MeshRouting.Frame(w, v, w, f, s.qos) in MeshRouting.Frames(w, s.targets, w, f, s.qos);
    assert MeshRouting.Frame(w, v, w, f, s.qos) in MeshRouting.Next(m, net, s).flight;
  }

  // ---------- runs ----------

  lemma RunStepInMesh(m: MeshRouting.Mesh, filters: MeshDelivery.Filters, nets: seq<MeshRouting.Net>, steps: seq<MeshRouting.Step>, i: nat)
    requires Setting(m, filters) && MeshRouting.IsRun(m, nets, steps) && OwnFilters(filters, steps)
    requires i < |steps| && InMesh(m, filters, nets[i])
    ensures InMesh(m, filters, nets[i+1])
  {
    MeshRouting.RunStep(m, nets, steps, i);
    assert OwnFilter(filters, steps[i]);
    StepKeepsInMesh(m, filters, nets[i], steps[i]);
  }

  lemma {:induction false} RunInMesh(m: MeshRouting.Mesh, filters: MeshDelivery.Filters, nets: seq<MeshRouting.Net>, steps: seq<MeshRouting.Step>, n: nat)
    requires Setting(m, filters) && MeshRouting.IsRun(m, nets, steps) && OwnFilters(filters, steps) && n <= |steps|
    ensures InMesh(m, filters, nets[n])
  {
    if n == 0 {
      InitialInMesh(m, filters);
    } else {
      RunInMesh(m, filters, nets, steps, n - 1);
      RunStepInMesh(m, filters, nets, steps, n - 1);
    }
  }

  lemma InitialInMesh(m: MeshRouting.Mesh, filters: MeshDelivery.Filters)
    ensures InMesh(m, filters, MeshRouting.Initial(m))
  {
    forall v | v in m.ids ensures TableInMesh(m, filters, v, MeshRouting.Initial(m).tables[v]) {
      StartInMesh(m, filters, v);
    }
  }

  lemma RunStepTold(m: MeshRouting.Mesh, filters: MeshDelivery.Filters, nets: seq<MeshRouting.Net>, steps: seq<MeshRouting.Step>, i: nat, w: NodeId, f: string, v: NodeId)
    requires Setting(m, filters) && MeshRouting.IsRun(m, nets, steps) && OwnFilters(filters, steps) && i < |steps|
    requires w in m.ids && (Told(nets[i], w, f, v) || Announces(steps[i], w, f, v))
    ensures Told(nets[i+1], w, f, v)
  {
    RunInMesh(m, filters, nets, steps, i);
    MeshRouting.RunStep(m, nets, steps, i);
    if Announces(steps[i], w, f, v) {
      AnnounceTells(m, nets[i], steps[i], w, f, v);
    } else {
      StepKeepsTold(m, filters, nets[i], steps[i], w, f, v);
    }
  }

  /** In every reachable state what was announced to a broker is on the way to it, or
      held over its owner. */
  lemma {:induction false} RunTold(m: MeshRouting.Mesh, filters: MeshDelivery.Filters, nets: seq<MeshRouting.Net>, steps: seq<MeshRouting.Step>, n: nat, w: NodeId, f: string, v: NodeId)
    requires Setting(m, filters) && MeshRouting.IsRun(m, nets, steps) && OwnFilters(filters, steps)
    requires n <= |steps| && w in m.ids && AnnouncedTo(steps, n, w, f, v)
    ensures Told(nets[n], w, f, v)
  {
    LastOrBefore(steps, n, w, f, v);
    if !Announces(steps[n-1], w, f, v) {
      RunTold(m, filters, nets, steps, n - 1, w, f, v);
    }
    RunStepTold(m, filters, nets, steps, n - 1, w, f, v);
  }

  lemma LastOrBefore(steps: seq<MeshRouting.Step>, n: nat, w: NodeId, f: string, v: NodeId)
    requires n <= |steps| && AnnouncedTo(steps, n, w, f, v)
    ensures n > 0 && (Announces(steps[n-1], w, f, v) || AnnouncedTo(steps, n - 1, w, f, v))
  {
    var i :| 0 <= i < n && Announces(steps[i], w, f, v);
  }

  // ---------- when the gossip is over ----------

  /** Every broker has announced each of its filters to every other one. */
  ghost predicate AllAnnounced(m: MeshRouting.Mesh, filters: MeshDelivery.Filters, steps: seq<MeshRouting.Step>)
    requires filters.Keys == m.ids
  {
    forall w, v, f :: w in m.ids && v in m.ids && w != v && f in filters[w] ==> AnnouncedTo(steps, |steps|, w, f, v)
  }

  ghost function RoutesOf(net: MeshRouting.Net): MeshDelivery.RouteSets {
    map v | v in net.tables :: net.tables[v].routes
  }

  lemma DirectTableOf(m: MeshRouting.Mesh, filters: MeshDelivery.Filters, v: NodeId, t: Tables)
    requires Setting(m, filters) && v in m.ids && TableInMesh(m, filters, v, t)
    requires forall w, f :: w in m.ids && w != v && f in filters[w] ==> Direct(t, w, f)
    ensures MeshDelivery.DirectTable(m.ids, filters, v, t.routes)
  {
    forall w, f | w in m.ids && w != v && f in filters[w] ensures Entry(w, f, w) in t.routes {
      assert Direct(t, w, f);
      assert IsRouteOf(t.nodes, Entry(w, f, w));
    }
    forall e | e in t.routes
      ensures e.owner in m.ids && e.hop in m.ids && e.hop != v && e.filter in filters[e.owner] && (e.owner != v ==> e.hop == e.owner)
    {
      var i: nat :| Holds(t.nodes, i, e.owner, e.filter) && t.nodes[i].nextHop == e.hop;
      assert NodeInMesh(filters, v, t.nodes[i]);
      if e.owner != v {
        assert Direct(t, e.owner, e.filter);
      }
    }
  }

  /** With every filter announced and no frame left, every table is direct, whatever
      was relayed and in whatever order. */
  lemma GossipMakesDirect(m: MeshRouting.Mesh, filters: MeshDelivery.Filters, nets: seq<MeshRouting.Net>, steps: seq<MeshRouting.Step>)
    requires Setting(m, filters) && MeshRouting.IsRun(m, nets, steps) && OwnFilters(filters, steps)
    requires AllAnnounced(m, filters, steps) && nets[|steps|].flight == multiset{}
    ensures MeshDelivery.DirectTables(m.ids, filters, RoutesOf(nets[|steps|]))
  {
    var net := nets[|steps|];
    RunInMesh(m, filters, nets, steps, |steps|);
    forall v | v in m.ids ensures MeshDelivery.DirectTable(m.ids, filters, v, RoutesOf(net)[v]) {
      forall w, f | w in m.ids && w != v && f in filters[w] ensures Direct(net.tables[v], w, f) {
        RunTold(m, filters, nets, steps, |steps|, w, f, v);
      }
      DirectTableOf(m, filters, v, net.tables[v]);
    }
  }

  /** So after such a gossip every publish reaches every other broker with a matching
      filter by the time none of its frames is left. */
  lemma AnnouncedMeshDelivers(g: MeshRouting.Mesh, filters: MeshDelivery.Filters, gossip: seq<MeshRouting.Net>, told: seq<MeshRouting.Step>,
                              m: MeshPublish.Mesh, nets: seq<MeshPublish.Net>, steps: seq<MeshPublish.Step>,
                              at: nat, k: MeshPublish.Key, w: NodeId)
    requires Setting(g, filters) && MeshRouting.IsRun(g, gossip, told) && OwnFilters(filters, told)
    requires AllAnnounced(g, filters, told) && gossip[|told|].flight == multiset{}
    requires MeshDelivery.FullMesh(m, filters) && m.ids == g.ids && MeshPublish.IsRun(m, nets, steps)
    requires MeshDelivery.AllRouters(steps) && MeshDelivery.AllAnswered(m, RoutesOf(gossip[|told|]), steps)
    requires at < |steps| && MeshDelivery.PublishedOnlyAt(nets, steps, at, k) && k != MeshPublish.NO_KEY
    requires MeshPublish.OnTheWay(nets[|steps|].flight, k) == multiset{}
    requires steps[at].Publish? && w in m.ids && w != steps[at].node && MeshDelivery.Subscribes(filters, w, steps[at].topic)
    ensures (w, k) in nets[|steps|].delivered
  {
    GossipMakesDirect(g, filters, gossip, told);
    MeshDelivery.FullMeshDelivers(m, filters, RoutesOf(gossip[|told|]), nets, steps, at, k, w);
  }
}
