/**
 Subscription gossip between brokers: a node announces its filters to linked
 peers, and a router that learns something new relays it to every linked peer
 but the sender.  Nodes keep their tables as RouteModel says.

 Links are stable: no disconnects and no withdrawals.  `rank` is a history
 variable, the moment at which a node first learned of an owner.
 */
module MeshRouting {
  import opened Common
  import opened RouteModel

  /** A SUB_NOTIFY frame on the link from `from` to `to`. */
  datatype Frame = Frame(from: NodeId, to: NodeId, owner: NodeId, filter: string, qos: nat)

  datatype Mesh = Mesh(ids: set<NodeId>, links: set<(NodeId, NodeId)>, nodeMax: nat, perNode: nat)

  /** (node, owner) to the time the node first had a next hop for the owner. */
  type Rank = map<(NodeId, NodeId), nat>

  datatype Net = Net(tables: map<NodeId, Tables>, flight: multiset<Frame>, rank: Rank, clock: nat)

  datatype Step =
    | Announce(owner: NodeId, filter: string, qos: nat, targets: set<NodeId>)
    | Deliver(frame: Frame, router: bool)

  ghost predicate MeshOk(m: Mesh) {
    && m.perNode > 0
    && NO_ID !in m.ids
    && forall l :: l in m.links ==> l.0 in m.ids && l.1 in m.ids && (l.1, l.0) in m.links
  }

  ghost function Neighbours(m: Mesh, v: NodeId): set<NodeId> {
    set l | l in m.links && l.0 == v :: l.1
  }

  ghost function Frames(from: NodeId, targets: set<NodeId>, owner: NodeId, filter: string, qos: nat): multiset<Frame> {
    multiset(set t | t in targets :: Frame(from, t, owner, filter, qos))
  }

  ghost function Initial(m: Mesh): Net {
    Net(map v | v in m.ids :: Start(m.nodeMax, m.perNode), multiset{}, map[], 0)
  }

  /** The next hop a table holds for an owner. */
  function HopOf(t: Tables, owner: NodeId): Option<NodeId> {
    var i := FindOwner(t.nodes, owner, 0);
    if i < |t.nodes| then Some(t.nodes[i].nextHop) else None
  }

  ghost predicate Enabled(m: Mesh, net: Net, s: Step) {
    match s
    case Announce(owner, _, _, targets) => owner in net.tables && targets <= Neighbours(m, owner)
    case Deliver(frame, _) => frame in net.flight && frame.to in net.tables
  }

  /** The SUB branch of the receive loop: record, and relay what changed. */
  ghost function Receive(m: Mesh, net: Net, f: Frame, router: bool): Net
    requires f.to in net.tables
  {
    var v := f.to;
    var (t, changed) := Subscribe(net.tables[v], f.owner, f.filter, f.qos, f.from, m.perNode);
    var relays := if changed && router then Neighbours(m, v) - {f.from} else {};
    Net(net.tables[v := t],
        net.flight - multiset{f} + Frames(v, relays, f.owner, f.filter, f.qos),
        RankAfter(net.rank, net.clock, v, f.owner, t),
        net.clock + 1)
  }

  function RankAfter(rank: Rank, clock: nat, v: NodeId, owner: NodeId, t: Tables): Rank {
    if (v, owner) !in rank && HopOf(t, owner).Some? then rank[(v, owner) := clock] else rank
  }

  ghost function Next(m: Mesh, net: Net, s: Step): Net
    requires Enabled(m, net, s)
  {
    match s
    case Announce(owner, filter, qos, targets) =>
      net.(flight := net.flight + Frames(owner, targets, owner, filter, qos))
    case Deliver(f, router) => Receive(m, net, f, router)
  }

  ghost predicate StepAt(m: Mesh, nets: seq<Net>, steps: seq<Step>, i: nat)
    requires |nets| == |steps| + 1 && i < |steps|
  {
    Enabled(m, nets[i], steps[i]) && nets[i+1] == Next(m, nets[i], steps[i])
  }

  ghost predicate IsRun(m: Mesh, nets: seq<Net>, steps: seq<Step>) {
    && |nets| == |steps| + 1
    && nets[0] == Initial(m)
    && forall i :: 0 <= i < |steps| ==> StepAt(m, nets, steps, i)
  }

  lemma RunStep(m: Mesh, nets: seq<Net>, steps: seq<Step>, i: nat)
    requires IsRun(m, nets, steps) && i < |steps|
    ensures Enabled(m, nets[i], steps[i]) && nets[i+1] == Next(m, nets[i], steps[i])
  {
    assert StepAt(m, nets, steps, i);
  }

  lemma RunExtends(m: Mesh, nets: seq<Net>, steps: seq<Step>, s: Step)
    requires IsRun(m, nets, steps) && Enabled(m, nets[|steps|], s)
    ensures IsRun(m, nets + [Next(m, nets[|steps|], s)], steps + [s])
  {
    var net' := Next(m, nets[|steps|], s);
    forall i | 0 <= i < |steps| + 1 ensures StepAt(m, nets + [net'], steps + [s], i) {
      if i < |steps| {
        assert StepAt(m, nets, steps, i);
      }
    }
  }

  /** A frame received is taken off its link; a router that learns from it sends one to
      each linked broker but the sender, and nothing else is sent. */
  lemma ReceiveRelays(m: Mesh, net: Net, f: Frame, router: bool, g: Frame)
    requires f in net.flight && f.to in net.tables
    ensures var learned := Subscribe(net.tables[f.to], f.owner, f.filter, f.qos, f.from, m.perNode).1;
            Receive(m, net, f, router).flight[g] == net.flight[g] - (if g == f then 1 else 0)
              + if learned && router && g == Frame(f.to, g.to, f.owner, f.filter, f.qos) && g.to != f.from && (f.to, g.to) in m.links
                then 1 else 0
  {
    assert (f.to, g.to).0 == f.to && (f.to, g.to).1 == g.to;
    assert g.to in Neighbours(m, f.to) <==> (f.to, g.to) in m.links;
    var relays := if Subscribe(net.tables[f.to], f.owner, f.filter, f.qos, f.from, m.perNode).1 && router
                  then Neighbours(m, f.to) - {f.from} else {};
    assert g in (set t | t in relays :: Frame(f.to, t, f.owner, f.filter, f.qos)) <==>
           g.to in relays && g == Frame(f.to, g.to, f.owner, f.filter, f.qos);
  }

  /** An announcement sends one frame to each target and changes no table. */
  lemma AnnounceSends(m: Mesh, net: Net, s: Step, g: Frame)
    requires s.Announce? && Enabled(m, net, s)
    ensures Next(m, net, s).tables == net.tables
    ensures Next(m, net, s).flight[g] == net.flight[g]
              + if g == Frame(s.owner, g.to, s.owner, s.filter, s.qos) && g.to in s.targets then 1 else 0
  {
    assert g in (set t | t in s.targets :: Frame(s.owner, t, s.owner, s.filter, s.qos)) <==>
           g.to in s.targets && g == Frame(s.owner, g.to, s.owner, s.filter, s.qos);
  }

  // ---------- the invariant ----------

  /** `h` is a sound way from `v` towards `o`: the owner itself, or a linked node
      that learned of the owner earlier. */
  ghost predicate GoodHop(m: Mesh, rank: Rank, v: NodeId, o: NodeId, h: NodeId) {
    && (v, h) in m.links
    && (v, o) in rank
    && (h == o || ((h, o) in rank && rank[(h, o)] < rank[(v, o)]))
  }

  ghost predicate Knows(t: Tables, o: NodeId) {
    exists i :: 0 <= i < |t.nodes| && IsOwner(t.nodes[i], o)
  }

  /** No known owner's next hop counts as unset. */
  ghost predicate HopsSet(t: Tables) {
    forall i :: 0 <= i < |t.nodes| && t.nodes[i].inUse ==> t.nodes[i].nextHop != NO_ID
  }

  ghost predicate HopsGood(m: Mesh, rank: Rank, v: NodeId, t: Tables) {
    && (forall i :: 0 <= i < |t.nodes| && t.nodes[i].inUse ==> GoodHop(m, rank, v, t.nodes[i].owner, t.nodes[i].nextHop))
    && (forall e :: e in t.routes ==> GoodHop(m, rank, v, e.owner, e.hop))
  }

  lemma GoodHopsAreSet(m: Mesh, rank: Rank, v: NodeId, t: Tables)
    requires MeshOk(m) && HopsGood(m, rank, v, t)
    ensures HopsSet(t)
  {
    forall i | 0 <= i < |t.nodes| && t.nodes[i].inUse ensures t.nodes[i].nextHop != NO_ID {
      assert GoodHop(m, rank, v, t.nodes[i].owner, t.nodes[i].nextHop);
      assert (v, t.nodes[i].nextHop) in m.links;
    }
  }

  ghost predicate FrameOk(m: Mesh, rank: Rank, f: Frame) {
    (f.from, f.to) in m.links && (f.from == f.owner || (f.from, f.owner) in rank)
  }

  ghost predicate RankOk(rank: Rank, clock: nat, tables: map<NodeId, Tables>) {
    forall p :: p in rank ==> rank[p] < clock && p.0 in tables && Knows(tables[p.0], p.1)
  }

  ghost predicate Inv(m: Mesh, net: Net) {
    && net.tables.Keys == m.ids
    && (forall v :: v in m.ids ==> NodesOk(net.tables[v].nodes, m.perNode))
    && (forall v :: v in m.ids ==> HopsGood(m, net.rank, v, net.tables[v]))
    && (forall f :: f in net.flight ==> FrameOk(m, net.rank, f))
    && RankOk(net.rank, net.clock, net.tables)
  }

  ghost predicate Extends(rank: Rank, rank': Rank) {
    forall p :: p in rank ==> p in rank' && rank'[p] == rank[p]
  }

  lemma GoodStays(m: Mesh, rank: Rank, rank': Rank, v: NodeId, t: Tables)
    requires HopsGood(m, rank, v, t) && Extends(rank, rank')
    ensures HopsGood(m, rank', v, t)
  {
    forall o, h | GoodHop(m, rank, v, o, h) ensures GoodHop(m, rank', v, o, h) {}
  }

  /** Routes after a subscribe are old ones or point where the owner's node does. */
  lemma RoutesAfter(t: Tables, owner: NodeId, filter: string, qos: nat, hop: NodeId, perNode: nat, e: Entry)
    requires NodesOk(t.nodes, perNode)
    requires e in Subscribe(t, owner, filter, qos, hop, perNode).0.routes && e !in t.routes
    ensures NodeFor(t.nodes, owner, perNode).Some?
    ensures var t' := Subscribe(t, owner, filter, qos, hop, perNode).0;
            e.owner == owner && e.hop == t'.nodes[NodeFor(t.nodes, owner, perNode).value.0].nextHop
  {
    SubscribeShape(t, owner, filter, qos, hop, perNode);
    var t' := Subscribe(t, owner, filter, qos, hop, perNode).0;
    var i := NodeFor(t.nodes, owner, perNode).value.0;
    RefreshAll(t.routes, t'.nodes[i]);
  }

  /** After a subscribe the owner is known over its old next hop, the sender, or
      not at all; other owners are known as before.  The sender replaces an old hop
      only as the owner itself, or when that hop is the zero id. */
  lemma KnownAfter(t: Tables, owner: NodeId, filter: string, qos: nat, hop: NodeId, perNode: nat)
    requires NodesOk(t.nodes, perNode)
    ensures var (t', changed) := Subscribe(t, owner, filter, qos, hop, perNode);
            && (forall x :: Knows(t, x) ==> Knows(t', x))
            && (forall x :: Knows(t', x) ==> Knows(t, x) || x == owner)
            && (changed ==> Knows(t', owner))
            && (forall i :: 0 <= i < |t'.nodes| && t'.nodes[i].inUse ==>
                  || (0 <= i < |t.nodes| && IsOwner(t.nodes[i], t'.nodes[i].owner) && t'.nodes[i].nextHop == t.nodes[i].nextHop)
                  || (t'.nodes[i].owner == owner && t'.nodes[i].nextHop == hop
                      && (hop == owner || !Knows(t, owner) || HopOf(t, owner) == Some(NO_ID))))
  {
    SubscribeShape(t, owner, filter, qos, hop, perNode);
    var (t', changed) := Subscribe(t, owner, filter, qos, hop, perNode);
    forall x | Knows(t, x) ensures Knows(t', x) {
      var k :| 0 <= k < |t.nodes| && IsOwner(t.nodes[k], x);
      assert IsOwner(t'.nodes[k], x);
    }
    forall x | Knows(t', x) && x != owner ensures Knows(t, x) {
      var k :| 0 <= k < |t'.nodes| && IsOwner(t'.nodes[k], x);
      assert IsOwner(t.nodes[k], x);
    }
  }

  lemma HopOfKnown(t: Tables, o: NodeId)
    ensures HopOf(t, o).Some? <==> Knows(t, o)
  {}

  /** Receiving one frame keeps every way the receiver may forward good. */
  lemma ReceiveKeepsHops(m: Mesh, rank: Rank, clock: nat, tables: map<NodeId, Tables>, f: Frame)
    requires MeshOk(m) && f.to in tables && RankOk(rank, clock, tables) && FrameOk(m, rank, f)
    requires NodesOk(tables[f.to].nodes, m.perNode) && HopsGood(m, rank, f.to, tables[f.to])
    ensures var t' := Subscribe(tables[f.to], f.owner, f.filter, f.qos, f.from, m.perNode).0;
            HopsGood(m, RankAfter(rank, clock, f.to, f.owner, t'), f.to, t')
  {
    var v, o := f.to, f.owner;
    var t := tables[v];
    var t' := Subscribe(t, o, f.filter, f.qos, f.from, m.perNode).0;
    var rank' := RankAfter(rank, clock, v, o, t');
    assert (v, f.from) in m.links;
    GoodHopsAreSet(m, rank, v, t);
    KnownAfter(t, o, f.filter, f.qos, f.from, m.perNode);
    assert HopOf(t, o) != Some(NO_ID);
    HopOfKnown(t', o);
    GoodStays(m, rank, rank', v, t);
    forall i | 0 <= i < |t'.nodes| && t'.nodes[i].inUse
      ensures GoodHop(m, rank', v, t'.nodes[i].owner, t'.nodes[i].nextHop) {
      if t'.nodes[i].owner == o { assert Knows(t', o); }
      if !Knows(t, o) { assert (v, o) !in rank; }
    }
    forall e | e in t'.routes ensures GoodHop(m, rank', v, e.owner, e.hop) {
      if e !in t.routes {
        RoutesAfter(t, o, f.filter, f.qos, f.from, m.perNode, e);
        SubscribeShape(t, o, f.filter, f.qos, f.from, m.perNode);
      }
    }
  }

  /** What is relayed was learned first. */
  lemma ReceiveKeepsFrames(m: Mesh, net: Net, f: Frame, router: bool)
    requires MeshOk(m) && f.to in net.tables && NodesOk(net.tables[f.to].nodes, m.perNode)
    requires f in net.flight && forall g :: g in net.flight ==> FrameOk(m, net.rank, g)
    ensures var net' := Receive(m, net, f, router);
            forall g :: g in net'.flight ==> FrameOk(m, net'.rank, g)
  {
    var net' := Receive(m, net, f, router);
    assert FrameOk(m, net.rank, f);
    KnownAfter(net.tables[f.to], f.owner, f.filter, f.qos, f.from, m.perNode);
    HopOfKnown(net'.tables[f.to], f.owner);
    forall g | g in net'.flight ensures FrameOk(m, net'.rank, g) {
      if g in net.flight { assert FrameOk(m, net.rank, g); }
    }
  }

  lemma ReceiveKeepsRank(m: Mesh, net: Net, f: Frame, router: bool)
    requires f.to in net.tables && NodesOk(net.tables[f.to].nodes, m.perNode)
    requires RankOk(net.rank, net.clock, net.tables)
    ensures var net' := Receive(m, net, f, router); RankOk(net'.rank, net'.clock, net'.tables)
  {
    var net' := Receive(m, net, f, router);
    KnownAfter(net.tables[f.to], f.owner, f.filter, f.qos, f.from, m.perNode);
    HopOfKnown(net'.tables[f.to], f.owner);
  }

  /** One table replaced by a good one, nothing forgotten. */
  lemma OneTableChanges(m: Mesh, net: Net, net': Net, v: NodeId, t: Tables)
    requires Inv(m, net) && v in m.ids && net'.tables == net.tables[v := t]
    requires Extends(net.rank, net'.rank)
    requires NodesOk(t.nodes, m.perNode) && HopsGood(m, net'.rank, v, t)
    requires forall f :: f in net'.flight ==> FrameOk(m, net'.rank, f)
    requires RankOk(net'.rank, net'.clock, net'.tables)
    ensures Inv(m, net')
  {
    assert net'.tables.Keys == m.ids;
    forall u | u in m.ids ensures HopsGood(m, net'.rank, u, net'.tables[u]) {
      if u != v { GoodStays(m, net.rank, net'.rank, u, net.tables[u]); }
    }
  }

  lemma ReceiveKeepsInv(m: Mesh, net: Net, f: Frame, router: bool)
    requires MeshOk(m) && Inv(m, net) && f in net.flight && f.to in net.tables
    ensures Inv(m, Receive(m, net, f, router))
  {
    assert FrameOk(m, net.rank, f);
    ReceiveKeepsFrames(m, net, f, router);
    ReceiveKeepsRank(m, net, f, router);
    ReceiveKeepsTable(m, net, f, router);
    var net' := Receive(m, net, f, router);
    OneTableChanges(m, net, net', f.to, net'.tables[f.to]);
  }

  lemma ReceiveKeepsTable(m: Mesh, net: Net, f: Frame, router: bool)
    requires MeshOk(m) && f.to in net.tables && RankOk(net.rank, net.clock, net.tables) && FrameOk(m, net.rank, f)
    requires NodesOk(net.tables[f.to].nodes, m.perNode) && HopsGood(m, net.rank, f.to, net.tables[f.to])
    ensures var net' := Receive(m, net, f, router);
            NodesOk(net'.tables[f.to].nodes, m.perNode) && HopsGood(m, net'.rank, f.to, net'.tables[f.to])
            && Extends(net.rank, net'.rank)
  {
    assert (f.from, f.to) in m.links;
    SubscribeShape(net.tables[f.to], f.owner, f.filter, f.qos, f.from, m.perNode);
    ReceiveKeepsHops(m, net.rank, net.clock, net.tables, f);
  }

  lemma AnnounceKeepsInv(m: Mesh, net: Net, s: Step)
    requires MeshOk(m) && Inv(m, net) && s.Announce? && Enabled(m, net, s)
    ensures Inv(m, Next(m, net, s))
  {
    var net' := Next(m, net, s);
    forall g | g in net'.flight ensures FrameOk(m, net'.rank, g) {
      if g in net.flight { assert FrameOk(m, net.rank, g); }
    }
  }

  lemma StepKeepsInv(m: Mesh, net: Net, s: Step, net': Net)
    requires MeshOk(m) && Inv(m, net) && Enabled(m, net, s) && net' == Next(m, net, s)
    ensures Inv(m, net')
  {
    match s
    case Announce(_, _, _, _) => AnnounceKeepsInv(m, net, s);
    case Deliver(f, router) => ReceiveKeepsInv(m, net, f, router);
  }

  lemma {:induction false} RunKeepsInv(m: Mesh, nets: seq<Net>, steps: seq<Step>, n: nat)
    requires MeshOk(m) && IsRun(m, nets, steps) && n <= |steps|
    ensures Inv(m, nets[n])
  {
    if n > 0 {
      RunKeepsInv(m, nets, steps, n - 1);
      RunStepKeepsInv(m, nets, steps, n - 1);
    }
  }

  lemma RunStepKeepsInv(m: Mesh, nets: seq<Net>, steps: seq<Step>, i: nat)
    requires MeshOk(m) && IsRun(m, nets, steps) && i < |steps| && Inv(m, nets[i])
    ensures Inv(m, nets[i+1])
  {
    RunStep(m, nets, steps, i);
    StepKeepsInv(m, nets[i], steps[i], nets[i+1]);
  }

  // ---------- loop freedom ----------

  /** Node `v` forwards towards `o` over `h`: by its node entry or by any route. */
  ghost predicate Forwards(net: Net, v: NodeId, o: NodeId, h: NodeId) {
    v in net.tables && (HopOf(net.tables[v], o) == Some(h)
                        || exists e :: e in net.tables[v].routes && e.owner == o && e.hop == h)
  }

  ghost predicate CanForward(net: Net, v: NodeId, o: NodeId) {
    exists h :: Forwards(net, v, o, h)
  }

  /** A walk towards `o` that stops there. */
  ghost predicate IsWalk(net: Net, o: NodeId, walk: seq<NodeId>) {
    forall i :: 0 <= i < |walk| - 1 ==> walk[i] != o && Forwards(net, walk[i], o, walk[i+1])
  }

  lemma ForwardIsGood(m: Mesh, net: Net, v: NodeId, o: NodeId, h: NodeId)
    requires Inv(m, net) && Forwards(net, v, o, h)
    ensures GoodHop(m, net.rank, v, o, h)
  {
    assert HopsGood(m, net.rank, v, net.tables[v]);
  }

  lemma {:induction false} WalkDescends(m: Mesh, net: Net, o: NodeId, walk: seq<NodeId>, i: nat, j: nat)
    requires Inv(m, net) && IsWalk(net, o, walk)
    requires i < j < |walk| && walk[j] != o
    ensures (walk[i], o) in net.rank && (walk[j], o) in net.rank
    ensures net.rank[(walk[j], o)] < net.rank[(walk[i], o)]
    decreases j - i
  {
    ForwardIsGood(m, net, walk[j-1], o, walk[j]);
    if i < j - 1 {
      WalkDescends(m, net, o, walk, i, j - 1);
    }
  }

  /** In every reachable state no walk towards an owner visits a node twice, and
      a node that is reached and is not the owner can always forward further. */
  lemma LoopFree(m: Mesh, nets: seq<Net>, steps: seq<Step>, o: NodeId, walk: seq<NodeId>)
    requires MeshOk(m) && IsRun(m, nets, steps) && IsWalk(nets[|steps|], o, walk)
    ensures NoDuplicates(walk)
    ensures |walk| > 1 && walk[|walk|-1] != o ==> CanForward(nets[|steps|], walk[|walk|-1], o)
  {
    var net := nets[|steps|];
    RunKeepsInv(m, nets, steps, |steps|);
    forall i, j | 0 <= i < j < |walk| ensures walk[i] != walk[j] {
      if walk[j] != o { WalkDescends(m, net, o, walk, i, j); }
    }
    if |walk| > 1 && walk[|walk|-1] != o {
      var v := walk[|walk|-1];
      WalkDescends(m, net, o, walk, 0, |walk| - 1);
      HopOfKnown(net.tables[v], o);
      assert Forwards(net, v, o, HopOf(net.tables[v], o).value);
    }
  }

  /** The node reached from `v` by `n` next hops, stopping at the owner. */
  function Follow(net: Net, o: NodeId, v: NodeId, n: nat): NodeId
    decreases n
  {
    if n == 0 || v == o || v !in net.tables then v
    else match HopOf(net.tables[v], o)
         case None => v
         case Some(h) => Follow(net, o, h, n - 1)
  }

  lemma {:induction false} FollowEnds(m: Mesh, net: Net, o: NodeId, v: NodeId, n: nat)
    requires Inv(m, net) && (v, o) in net.rank && n > net.rank[(v, o)]
    ensures Follow(net, o, v, n) == o
    decreases n
  {
    if v != o {
      HopOfKnown(net.tables[v], o);
      var h := HopOf(net.tables[v], o).value;
      ForwardIsGood(m, net, v, o, h);
      if h != o {
        FollowEnds(m, net, o, h, n - 1);
      }
    }
  }

  /** From every node holding a next hop for an owner, following next hops ends
      at that owner. */
  lemma NextHopsEndAtOwner(m: Mesh, nets: seq<Net>, steps: seq<Step>, o: NodeId, v: NodeId)
    requires MeshOk(m) && IsRun(m, nets, steps) && v in nets[|steps|].tables
    requires HopOf(nets[|steps|].tables[v], o).Some?
    ensures exists n :: Follow(nets[|steps|], o, v, n) == o
  {
    var net := nets[|steps|];
    RunKeepsInv(m, nets, steps, |steps|);
    ForwardIsGood(m, net, v, o, HopOf(net.tables[v], o).value);
    FollowEnds(m, net, o, v, net.rank[(v, o)] + 1);
  }
}
