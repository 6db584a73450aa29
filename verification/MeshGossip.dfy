/**
 Whether gossip ends.  A relayed subscription is not remembered as a publish is: it
 stops where it changes nothing.  While each filter of an owner has one QoS a table can
 change only so often, so the frames of a run are bounded; with two, two frames can
 follow one another round a ring for ever.  The last part is a run with a broker of the
 zero id in which next hops form a ring.
 */
module MeshGossip {
  import opened Common
  import opened RouteModel
  import opened MeshRouting

  // ---------- how often a table can change ----------

  function FreeSubs(subs: seq<RemoteSub>): nat {
    if subs == [] then 0 else FreeSubs(subs[..|subs|-1]) + if subs[|subs|-1].inUse then 0 else 1
  }

  lemma {:induction false} FreeAfter(subs: seq<RemoteSub>, j: nat, x: RemoteSub)
    requires j < |subs| && x.inUse
    ensures FreeSubs(subs[j := x]) + (if subs[j].inUse then 0 else 1) == FreeSubs(subs)
  {
    var last := |subs| - 1;
    if j == last {
      assert subs[j := x][..last] == subs[..last];
    } else {
      FreeAfter(subs[..last], j, x);
      assert subs[j := x][..last] == subs[..last][j := x];
    }
  }

  lemma {:induction false} FreeCleared(n: nat)
    ensures FreeSubs(ClearedSubs(n)) == n
  {
    if n > 0 {
      FreeCleared(n - 1);
      assert ClearedSubs(n)[..n-1] == ClearedSubs(n - 1);
    }
  }

  /** A next hop is set once, and may once become the owner. */
  function HopCost(n: RemoteNode): nat {
    if n.nextHop == NO_ID then 2 else if n.nextHop != n.owner then 1 else 0
  }

  /** How many more changes a node slot can take. */
  function Weight(n: RemoteNode, perNode: nat): nat {
    if n.inUse then FreeSubs(n.subs) + HopCost(n) else perNode + 2
  }

  function WeightOf(nodes: seq<RemoteNode>, perNode: nat): nat {
    if nodes == [] then 0 else WeightOf(nodes[..|nodes|-1], perNode) + Weight(nodes[|nodes|-1], perNode)
  }

  lemma {:induction false} WeightAfter(nodes: seq<RemoteNode>, i: nat, n: RemoteNode, perNode: nat)
    requires i < |nodes|
    ensures WeightOf(nodes[i := n], perNode) + Weight(nodes[i], perNode) == WeightOf(nodes, perNode) + Weight(n, perNode)
  {
    var last := |nodes| - 1;
    if i == last {
      assert nodes[i := n][..last] == nodes[..last];
    } else {
      WeightAfter(nodes[..last], i, n, perNode);
      assert nodes[i := n][..last] == nodes[..last][i := n];
    }
  }

  lemma {:induction false} WeightOfStart(nodeMax: nat, perNode: nat)
    ensures WeightOf(Start(nodeMax, perNode).nodes, perNode) == Times(nodeMax, perNode + 2)
  {
    if nodeMax > 0 {
      WeightOfStart(nodeMax - 1, perNode);
      assert Start(nodeMax, perNode).nodes[..nodeMax-1] == Start(nodeMax - 1, perNode).nodes;
    }
  }

  // ---------- one QoS for each filter of an owner ----------

  type QosOf = (NodeId, string) -> nat

  predicate NodeAgrees(q: QosOf, n: RemoteNode) {
    n.inUse ==> forall j :: 0 <= j < |n.subs| && n.subs[j].inUse ==> n.subs[j].qos == q(n.owner, n.subs[j].filter)
  }

  ghost predicate TableAgrees(q: QosOf, t: Tables) {
    forall i :: 0 <= i < |t.nodes| ==> NodeAgrees(q, t.nodes[i])
  }

  predicate StepAgrees(q: QosOf, s: Step) {
    s.Announce? ==> s.qos == q(s.owner, s.filter)
  }

  ghost predicate AllAgree(q: QosOf, steps: seq<Step>) {
    forall i :: 0 <= i < |steps| ==> StepAgrees(q, steps[i])
  }

  /** The node slot a subscribe starts from can take no more changes than before. */
  lemma FoundWeight(t: Tables, owner: NodeId, perNode: nat)
    requires NodeFor(t.nodes, owner, perNode).Some?
    ensures var (i, n) := NodeFor(t.nodes, owner, perNode).value;
            n.inUse && n.owner == owner && Weight(n, perNode) <= Weight(t.nodes[i], perNode)
            && forall q :: NodeAgrees(q, t.nodes[i]) ==> NodeAgrees(q, n)
  {
    FreeCleared(perNode);
  }

  /** A subscribe that changes something uses up one of the changes left. */
  lemma SubscribeLowers(q: QosOf, t: Tables, owner: NodeId, filter: string, hop: NodeId, perNode: nat)
    requires TableAgrees(q, t) && hop != NO_ID
    ensures var (t', changed) := Subscribe(t, owner, filter, q(owner, filter), hop, perNode);
            && TableAgrees(q, t')
            && WeightOf(t'.nodes, perNode) + (if changed then 1 else 0) <= WeightOf(t.nodes, perNode)
  {
    match NodeFor(t.nodes, owner, perNode)
    case None =>
    case Some((i, found)) =>
      FoundWeight(t, owner, perNode);
      var n := if MovesHop(found, hop) then found.(nextHop := hop) else found;
      var j := SubSlot(n.subs, filter);
      if j == |n.subs| {
        WeightAfter(t.nodes, i, n, perNode);
      } else {
        FreeAfter(n.subs, j, RemoteSub(filter, q(owner, filter), true));
        WeightAfter(t.nodes, i, n.(subs := n.subs[j := RemoteSub(filter, q(owner, filter), true)]), perNode);
      }
  }

  // ---------- all tables ----------

  /** The changes left in the tables of the brokers of `order`. */
  function TotalOf(tables: map<NodeId, Tables>, order: seq<NodeId>, perNode: nat): nat
    requires forall v :: v in order ==> v in tables
  {
    if order == [] then 0
    else TotalOf(tables, order[..|order|-1], perNode) + WeightOf(tables[order[|order|-1]].nodes, perNode)
  }

  lemma {:induction false} TotalElsewhere(tables: map<NodeId, Tables>, order: seq<NodeId>, perNode: nat, v: NodeId, t: Tables)
    requires (forall u :: u in order ==> u in tables) && v !in order
    ensures TotalOf(tables[v := t], order, perNode) == TotalOf(tables, order, perNode)
  {
    if order != [] {
      TotalElsewhere(tables, order[..|order|-1], perNode, v, t);
      assert order[|order|-1] in order;
    }
  }

  lemma {:induction false} TotalAfter(tables: map<NodeId, Tables>, order: seq<NodeId>, perNode: nat, v: NodeId, t: Tables)
    requires (forall u :: u in order ==> u in tables) && v in order && NoDuplicates(order)
    ensures TotalOf(tables[v := t], order, perNode) + WeightOf(tables[v].nodes, perNode)
            == TotalOf(tables, order, perNode) + WeightOf(t.nodes, perNode)
  {
    var last := |order| - 1;
    if order[last] == v {
      TotalElsewhere(tables, order[..last], perNode, v, t);
    } else {
      TotalAfter(tables, order[..last], perNode, v, t);
    }
  }

  lemma {:induction false} TotalOfStart(tables: map<NodeId, Tables>, order: seq<NodeId>, nodeMax: nat, perNode: nat)
    requires forall v :: v in order ==> v in tables && tables[v] == Start(nodeMax, perNode)
    ensures TotalOf(tables, order, perNode) == Times(|order|, Times(nodeMax, perNode + 2))
  {
    if order != [] {
      TotalOfStart(tables, order[..|order|-1], nodeMax, perNode);
      assert order[|order|-1] in order;
      WeightOfStart(nodeMax, perNode);
    }
  }

  lemma {:induction false} Enumerate(s: set<NodeId>) returns (order: seq<NodeId>)
    ensures NoDuplicates(order) && Elements(order) == s && |order| == |s|
  {
    if s == {} {
      order := [];
      assert Elements<NodeId>([]) == {};
    } else {
      var x :| x in s;
      var rest := Enumerate(s - {x});
      assert x !in Elements(rest);
      order := rest + [x];
      assert Elements(order) == Elements(rest) + {x};
    }
  }

  // ---------- the measure of a state ----------

  ghost predicate NetAgrees(q: QosOf, net: Net) {
    && (forall v :: v in net.tables ==> TableAgrees(q, net.tables[v]))
    && (forall f :: f in net.flight ==> f.qos == q(f.owner, f.filter))
  }

  /** The changes left, each worth a frame to every broker, and the frames on the way. */
  ghost function Measure(m: Mesh, net: Net, order: seq<NodeId>): nat
    requires forall v :: v in order ==> v in net.tables
  {
    Times(TotalOf(net.tables, order, m.perNode), |m.ids|) + |net.flight|
  }

  ghost predicate IsOrder(m: Mesh, net: Net, order: seq<NodeId>) {
    NoDuplicates(order) && Elements(order) == m.ids && net.tables.Keys == m.ids && forall v :: v in order ==> v in net.tables
  }

  lemma {:induction false} FrameCount(from: NodeId, targets: set<NodeId>, owner: NodeId, filter: string, qos: nat)
    ensures |Frames(from, targets, owner, filter, qos)| == |targets|
  {
    if targets == {} {
      assert Frames(from, targets, owner, filter, qos) == multiset{};
    } else {
      var t :| t in targets;
      FrameCount(from, targets - {t}, owner, filter, qos);
      assert Frames(from, targets, owner, filter, qos)
             == Frames(from, targets - {t}, owner, filter, qos) + multiset{Frame(from, t, owner, filter, qos)};
    }
  }

  lemma FramesFit(m: Mesh, from: NodeId, targets: set<NodeId>, owner: NodeId, filter: string, qos: nat)
    requires MeshOk(m) && targets <= Neighbours(m, from)
    ensures |Frames(from, targets, owner, filter, qos)| <= |m.ids|
  {
    forall t | t in targets ensures t in m.ids {
      assert (from, t) in m.links;
    }
    SubsetSize(targets, m.ids);
    FrameCount(from, targets, owner, filter, qos);
  }

  lemma {:induction false} TimesMore(a: nat, b: nat, w: nat)
    requires a <= b
    ensures Times(a, w) + Times(b - a, w) == Times(b, w)
  {
    if a < b {
      TimesMore(a, b - 1, w);
    }
  }

  lemma FlightAfter(m: Mesh, net: Net, f: Frame, router: bool)
    requires MeshOk(m) && f in net.flight && f.to in net.tables
    ensures var changed := Subscribe(net.tables[f.to], f.owner, f.filter, f.qos, f.from, m.perNode).1;
            |Receive(m, net, f, router).flight| <= |net.flight| - 1 + if changed then |m.ids| else 0
  {
    var changed := Subscribe(net.tables[f.to], f.owner, f.filter, f.qos, f.from, m.perNode).1;
    var relays := if changed && router then Neighbours(m, f.to) - {f.from} else {};
    FramesFit(m, f.to, relays, f.owner, f.filter, f.qos);
    FrameCount(f.to, relays, f.owner, f.filter, f.qos);
  }

  lemma TotalLowers(m: Mesh, q: QosOf, net: Net, f: Frame, order: seq<NodeId>)
    requires IsOrder(m, net, order) && NetAgrees(q, net) && f in net.flight && f.to in net.tables && f.from != NO_ID
    ensures var (t, changed) := Subscribe(net.tables[f.to], f.owner, f.filter, f.qos, f.from, m.perNode);
            TotalOf(net.tables[f.to := t], order, m.perNode) + (if changed then 1 else 0) <= TotalOf(net.tables, order, m.perNode)
  {
    assert f.to in Elements(order);
    SubscribeLowers(q, net.tables[f.to], f.owner, f.filter, f.from, m.perNode);
    TotalAfter(net.tables, order, m.perNode, f.to, Subscribe(net.tables[f.to], f.owner, f.filter, f.qos, f.from, m.perNode).0);
  }

  lemma TimesLowers(after: nat, before: nat, w: nat, changed: bool)
    requires after + (if changed then 1 else 0) <= before
    ensures Times(after, w) + (if changed then w else 0) <= Times(before, w)
  {
    TimesMore(after, before, w);
    assert changed ==> Times(before - after, w) >= w;
  }

  lemma DeliverLowers(m: Mesh, q: QosOf, net: Net, f: Frame, router: bool, order: seq<NodeId>)
    requires MeshOk(m) && IsOrder(m, net, order) && NetAgrees(q, net)
    requires f in net.flight && f.to in net.tables && f.from != NO_ID
    ensures var net' := Receive(m, net, f, router);
            IsOrder(m, net', order) && Measure(m, net', order) + 1 <= Measure(m, net, order)
  {
    var net', changed := Receive(m, net, f, router), Subscribe(net.tables[f.to], f.owner, f.filter, f.qos, f.from, m.perNode).1;
    FlightAfter(m, net, f, router);
    TotalLowers(m, q, net, f, order);
    TimesLowers(TotalOf(net'.tables, order, m.perNode), TotalOf(net.tables, order, m.perNode), |m.ids|, changed);
  }

  lemma DeliverAgrees(m: Mesh, q: QosOf, net: Net, f: Frame, router: bool)
    requires NetAgrees(q, net) && f in net.flight && f.to in net.tables && f.from != NO_ID
    ensures NetAgrees(q, Receive(m, net, f, router))
  {
    SubscribeLowers(q, net.tables[f.to], f.owner, f.filter, f.from, m.perNode);
  }

  lemma AnnounceRaises(m: Mesh, q: QosOf, net: Net, s: Step, order: seq<NodeId>)
    requires MeshOk(m) && IsOrder(m, net, order) && s.Announce? && Enabled(m, net, s)
    ensures var net' := Next(m, net, s);
            IsOrder(m, net', order) && Measure(m, net', order) <= Measure(m, net, order) + |m.ids|
  {
    FramesFit(m, s.owner, s.targets, s.owner, s.filter, s.qos);
  }

  lemma StepMeasure(m: Mesh, q: QosOf, net: Net, s: Step, order: seq<NodeId>)
    requires MeshOk(m) && Inv(m, net) && IsOrder(m, net, order) && NetAgrees(q, net) && Enabled(m, net, s) && StepAgrees(q, s)
    ensures var net' := Next(m, net, s);
            && NetAgrees(q, net') && IsOrder(m, net', order)
            && Measure(m, net', order) + (if s.Deliver? then 1 else 0)
               <= Measure(m, net, order) + (if s.Announce? then |m.ids| else 0)
  {
    match s
    case Announce(_, _, _, _) =>
      AnnounceRaises(m, q, net, s, order);
    case Deliver(f, router) =>
      assert FrameOk(m, net.rank, f);
      assert (f.from, f.to) in m.links;
      DeliverLowers(m, q, net, f, router, order);
      DeliverAgrees(m, q, net, f, router);
  }

  // ---------- gossip ends ----------

  function Deliveries(steps: seq<Step>, n: nat): nat
    requires n <= |steps|
  {
    if n == 0 then 0 else Deliveries(steps, n - 1) + if steps[n-1].Deliver? then 1 else 0
  }

  function Announcements(steps: seq<Step>, n: nat): nat
    requires n <= |steps|
  {
    if n == 0 then 0 else Announcements(steps, n - 1) + if steps[n-1].Announce? then 1 else 0
  }

  lemma StartMeasure(m: Mesh, q: QosOf, order: seq<NodeId>)
    requires NoDuplicates(order) && Elements(order) == m.ids && |order| == |m.ids|
    ensures IsOrder(m, Initial(m), order) && NetAgrees(q, Initial(m))
    ensures Measure(m, Initial(m), order) == Times(Times(|m.ids|, Times(m.nodeMax, m.perNode + 2)), |m.ids|)
  {
    assert forall v :: v in order ==> v in Elements(order);
    TotalOfStart(Initial(m).tables, order, m.nodeMax, m.perNode);
  }

  lemma RunStepMeasure(m: Mesh, q: QosOf, nets: seq<Net>, steps: seq<Step>, i: nat, order: seq<NodeId>)
    requires MeshOk(m) && IsRun(m, nets, steps) && AllAgree(q, steps) && i < |steps|
    requires IsOrder(m, nets[i], order) && NetAgrees(q, nets[i])
    ensures NetAgrees(q, nets[i+1]) && IsOrder(m, nets[i+1], order)
    ensures Measure(m, nets[i+1], order) + (if steps[i].Deliver? then 1 else 0)
            <= Measure(m, nets[i], order) + (if steps[i].Announce? then |m.ids| else 0)
  {
    RunKeepsInv(m, nets, steps, i);
    RunStep(m, nets, steps, i);
    assert StepAgrees(q, steps[i]);
    StepMeasure(m, q, nets[i], steps[i], order);
  }

  /** What the first `n` steps have received, and what is left, against what they
      have announced. */
  ghost predicate Bounded(m: Mesh, q: QosOf, net: Net, steps: seq<Step>, n: nat, order: seq<NodeId>)
    requires n <= |steps|
  {
    && NetAgrees(q, net) && IsOrder(m, net, order)
    && Deliveries(steps, n) + Measure(m, net, order)
       <= Times(Times(|m.ids|, Times(m.nodeMax, m.perNode + 2)), |m.ids|) + Times(Announcements(steps, n), |m.ids|)
  }

  lemma StaysBounded(m: Mesh, q: QosOf, nets: seq<Net>, steps: seq<Step>, i: nat, order: seq<NodeId>)
    requires MeshOk(m) && IsRun(m, nets, steps) && AllAgree(q, steps) && i < |steps|
    requires Bounded(m, q, nets[i], steps, i, order)
    ensures Bounded(m, q, nets[i+1], steps, i + 1, order)
  {
    RunStepMeasure(m, q, nets, steps, i, order);
    TimesStep(Announcements(steps, i), |m.ids|, steps[i].Announce?);
  }

  lemma {:induction false} RunMeasure(m: Mesh, q: QosOf, nets: seq<Net>, steps: seq<Step>, n: nat, order: seq<NodeId>)
    requires MeshOk(m) && IsRun(m, nets, steps) && AllAgree(q, steps) && n <= |steps|
    requires NoDuplicates(order) && Elements(order) == m.ids && |order| == |m.ids|
    ensures Bounded(m, q, nets[n], steps, n, order)
  {
    if n == 0 {
      StartMeasure(m, q, order);
    } else {
      RunMeasure(m, q, nets, steps, n - 1, order);
      StaysBounded(m, q, nets, steps, n - 1, order);
    }
  }

  /** Gossip ends: with one QoS for each filter of an owner, the frames received in a run
      and those still on the way are at most so many for the tables of the mesh, and
      one for each broker and announcement. */
  lemma GossipEnds(m: Mesh, q: QosOf, nets: seq<Net>, steps: seq<Step>)
    requires MeshOk(m) && IsRun(m, nets, steps) && AllAgree(q, steps)
    ensures Deliveries(steps, |steps|) + |nets[|steps|].flight|
            <= |m.ids| * (m.nodeMax * (m.perNode + 2)) * |m.ids| + Announcements(steps, |steps|) * |m.ids|
  {
    var order := Enumerate(m.ids);
    RunMeasure(m, q, nets, steps, |steps|, order);
    TimesIsProduct(m.nodeMax, m.perNode + 2);
    TimesIsProduct(|m.ids|, m.nodeMax * (m.perNode + 2));
    TimesIsProduct(|m.ids| * (m.nodeMax * (m.perNode + 2)), |m.ids|);
    TimesIsProduct(Announcements(steps, |steps|), |m.ids|);
  }

  // ---------- tables of one filter ----------

  /** A table of one slot holding `filter` of `owner` over `hop`. */
  function Held(owner: NodeId, filter: string, qos: nat, hop: NodeId): Tables {
    Tables([RemoteNode(owner, hop, true, [RemoteSub(filter, qos, true)])], {Entry(owner, filter, hop)})
  }

  lemma HeldSlots(owner: NodeId, filter: string, qos: nat, hop: NodeId)
    ensures var nodes := Held(owner, filter, qos, hop).nodes;
            NodeFor(nodes, owner, 1) == Some((0, nodes[0])) && SubSlot(nodes[0].subs, filter) == 0
  {
    assert IsOwner(Held(owner, filter, qos, hop).nodes[0], owner);
    assert IsSub(RemoteSub(filter, qos, true), filter);
  }

  lemma RefreshOne(routes: set<Entry>, n: RemoteNode)
    requires |n.subs| == 1 && n.subs[0].inUse
    ensures Refresh(routes, n, 1) == Put(routes, n.owner, n.subs[0].filter, n.nextHop)
  {
    assert Refresh(routes, n, 0) == routes;
  }

  lemma FirstHeld(owner: NodeId, filter: string, qos: nat, hop: NodeId)
    ensures Subscribe(Start(1, 1), owner, filter, qos, hop, 1) == (Held(owner, filter, qos, hop), true)
  {
    var nodes, made := Start(1, 1).nodes, RemoteNode(owner, NO_ID, true, ClearedSubs(1));
    assert FindOwner(nodes, owner, 0) == 1 && FirstWhere(nodes, FreeNode, 0) == 0;
    assert NodeFor(nodes, owner, 1) == Some((0, made));
    assert FindSub(made.subs, filter, 0) == 1 && FirstWhere(made.subs, FreeSub, 0) == 0;
    assert made.subs[0 := RemoteSub(filter, qos, true)] == [RemoteSub(filter, qos, true)];
    var n := RemoteNode(owner, hop, true, [RemoteSub(filter, qos, true)]);
    assert made.(nextHop := hop).(subs := made.subs[0 := RemoteSub(filter, qos, true)]) == n;
    RefreshOne({}, n);
    assert Put({}, owner, filter, hop) == {Entry(owner, filter, hop)};
    assert nodes[0 := n] == [n];
  }

  /** Held already, and the sender no better a hop: only the QoS can change. */
  lemma HeldAgain(owner: NodeId, filter: string, qos: nat, qos': nat, hop: NodeId, from: NodeId)
    requires hop != NO_ID && (from == owner ==> hop == owner)
    ensures Subscribe(Held(owner, filter, qos, hop), owner, filter, qos', from, 1)
            == (Held(owner, filter, qos', hop), qos' != qos)
  {
    HeldSlots(owner, filter, qos, hop);
    var t := Held(owner, filter, qos, hop);
    var n := t.nodes[0].(subs := t.nodes[0].subs[0 := RemoteSub(filter, qos', true)]);
    assert n.subs == [RemoteSub(filter, qos', true)];
    assert t.nodes[0 := n] == Held(owner, filter, qos', hop).nodes;
    assert Put(t.routes, owner, filter, hop) == t.routes;
  }

  /** Held over the zero id: the hop moves to whoever sends next. */
  lemma HeldMoves(owner: NodeId, filter: string, qos: nat, from: NodeId)
    ensures Subscribe(Held(owner, filter, qos, NO_ID), owner, filter, qos, from, 1) == (Held(owner, filter, qos, from), true)
  {
    HeldSlots(owner, filter, qos, NO_ID);
    var t := Held(owner, filter, qos, NO_ID);
    var n := RemoteNode(owner, from, true, [RemoteSub(filter, qos, true)]);
    assert t.nodes[0].subs[0 := RemoteSub(filter, qos, true)] == n.subs;
    assert t.nodes[0 := n] == [n];
    RefreshOne(t.routes, n);
    assert Put(t.routes, owner, filter, from) == {Entry(owner, filter, from)};
  }

  /** One frame received by a router that learns from it. */
  lemma Learns(m: Mesh, nets: seq<Net>, steps: seq<Step>, f: Frame, rest: multiset<Frame>, t: Tables)
    returns (nets': seq<Net>, steps': seq<Step>)
    requires IsRun(m, nets, steps) && nets[|steps|].flight == rest + multiset{f} && f.to in nets[|steps|].tables
    requires Subscribe(nets[|steps|].tables[f.to], f.owner, f.filter, f.qos, f.from, m.perNode) == (t, true)
    ensures IsRun(m, nets', steps') && steps' == steps + [Deliver(f, true)]
    ensures nets'[|steps'|].tables == nets[|steps|].tables[f.to := t]
    ensures nets'[|steps'|].flight == rest + Frames(f.to, Neighbours(m, f.to) - {f.from}, f.owner, f.filter, f.qos)
  {
    var s, net := Deliver(f, true), nets[|steps|];
    RunExtends(m, nets, steps, s);
    nets', steps' := nets + [Next(m, net, s)], steps + [s];
    assert net.flight - multiset{f} == rest;
  }

  lemma OneFrame(from: NodeId, targets: set<NodeId>, t: NodeId, owner: NodeId, filter: string, qos: nat)
    requires targets == {t}
    ensures Frames(from, targets, owner, filter, qos) == multiset{Frame(from, t, owner, filter, qos)}
  {
    assert (set x | x in targets :: Frame(from, x, owner, filter, qos)) == {Frame(from, t, owner, filter, qos)};
  }

  // ---------- two QoS values: gossip that does not end ----------

  function Ring(): Mesh {
    Mesh({1, 2, 3}, {(1, 2), (2, 1), (1, 3), (3, 1), (2, 3), (3, 2)}, 1, 1)
  }

  /** Three brokers in the order in which the frames go round. */
  predicate InTurn(x: NodeId, y: NodeId, z: NodeId) {
    (x == 1 && y == 2 && z == 3) || (x == 2 && y == 3 && z == 1) || (x == 3 && y == 1 && z == 2)
  }

  lemma RingNeighbours(x: NodeId, y: NodeId, z: NodeId)
    requires InTurn(x, y, z)
    ensures Neighbours(Ring(), y) - {x} == {z} && Neighbours(Ring(), 1) == {2, 3}
  {
    var m := Ring();
    assert (1, 2) in m.links && (1, 3) in m.links && (2, 1) in m.links && (2, 3) in m.links && (3, 1) in m.links && (3, 2) in m.links;
    assert Neighbours(m, 1) == {2, 3} && Neighbours(m, 2) == {1, 3} && Neighbours(m, 3) == {1, 2};
  }

  /** Two announcements of one filter of broker 1, at QoS 0 and 1, are on their way from
      `x` to `y`; each broker holds nothing, or the later one over the one before it. */
  ghost predicate Circling(net: Net, x: NodeId, y: NodeId, z: NodeId) {
    && InTurn(x, y, z) && net.tables.Keys == {1, 2, 3}
    && net.flight == multiset{Frame(x, y, 1, "a", 0)} + multiset{Frame(x, y, 1, "a", 1)}
    && Waits(net.tables[y], x) && Waits(net.tables[z], y) && Waits(net.tables[x], z)
  }

  ghost predicate Waits(t: Tables, from: NodeId) {
    t == Start(1, 1) || t == Held(1, "a", 1, from)
  }

  lemma TakesBoth(t: Tables, from: NodeId)
    requires Waits(t, from) && from != NO_ID
    ensures Subscribe(t, 1, "a", 0, from, 1) == (Held(1, "a", 0, from), true)
    ensures Subscribe(Held(1, "a", 0, from), 1, "a", 1, from, 1) == (Held(1, "a", 1, from), true)
  {
    FirstHeld(1, "a", 0, from);
    HeldAgain(1, "a", 1, 0, from, from);
    HeldAgain(1, "a", 0, 1, from, from);
  }

  lemma PassesFirst(nets: seq<Net>, steps: seq<Step>, x: NodeId, y: NodeId, z: NodeId) returns (nets': seq<Net>, steps': seq<Step>)
    requires IsRun(Ring(), nets, steps) && Circling(nets[|steps|], x, y, z)
    ensures IsRun(Ring(), nets', steps') && steps' == steps + [Deliver(Frame(x, y, 1, "a", 0), true)]
    ensures nets'[|steps'|].tables == nets[|steps|].tables[y := Held(1, "a", 0, x)]
    ensures nets'[|steps'|].flight == multiset{Frame(y, z, 1, "a", 0)} + multiset{Frame(x, y, 1, "a", 1)}
  {
    var net, first, second := nets[|steps|], Frame(x, y, 1, "a", 0), Frame(x, y, 1, "a", 1);
    RingNeighbours(x, y, z);
    TakesBoth(net.tables[y], x);
    assert net.flight == multiset{second} + multiset{first};
    nets', steps' := Learns(Ring(), nets, steps, first, multiset{second}, Held(1, "a", 0, x));
    OneFrame(y, Neighbours(Ring(), y) - {x}, z, 1, "a", 0);
  }

  lemma PassesSecond(nets: seq<Net>, steps: seq<Step>, tables: map<NodeId, Tables>, x: NodeId, y: NodeId, z: NodeId)
    returns (nets': seq<Net>, steps': seq<Step>)
    requires IsRun(Ring(), nets, steps) && InTurn(x, y, z) && y in tables
    requires nets[|steps|].tables == tables[y := Held(1, "a", 0, x)]
    requires nets[|steps|].flight == multiset{Frame(y, z, 1, "a", 0)} + multiset{Frame(x, y, 1, "a", 1)}
    ensures IsRun(Ring(), nets', steps') && steps' == steps + [Deliver(Frame(x, y, 1, "a", 1), true)]
    ensures nets'[|steps'|].tables == tables[y := Held(1, "a", 1, x)]
    ensures nets'[|steps'|].flight == multiset{Frame(y, z, 1, "a", 0)} + multiset{Frame(y, z, 1, "a", 1)}
  {
    RingNeighbours(x, y, z);
    HeldAgain(1, "a", 0, 1, x, x);
    nets', steps' := Learns(Ring(), nets, steps, Frame(x, y, 1, "a", 1), multiset{Frame(y, z, 1, "a", 0)}, Held(1, "a", 1, x));
    OneFrame(y, Neighbours(Ring(), y) - {x}, z, 1, "a", 1);
    assert tables[y := Held(1, "a", 0, x)][y := Held(1, "a", 1, x)] == tables[y := Held(1, "a", 1, x)];
  }

  /** Both frames move on by one broker, which changes its table twice. */
  lemma PassesBoth(nets: seq<Net>, steps: seq<Step>, x: NodeId, y: NodeId, z: NodeId) returns (nets': seq<Net>, steps': seq<Step>)
    requires IsRun(Ring(), nets, steps) && Circling(nets[|steps|], x, y, z)
    ensures IsRun(Ring(), nets', steps') && Circling(nets'[|steps'|], y, z, x)
    ensures steps' == steps + [Deliver(Frame(x, y, 1, "a", 0), true)] + [Deliver(Frame(x, y, 1, "a", 1), true)]
  {
    nets', steps' := PassesFirst(nets, steps, x, y, z);
    nets', steps' := PassesSecond(nets', steps', nets[|steps|].tables, x, y, z);
  }

  /** The first two steps, which announce the filter at two QoS values. */
  predicate AnnouncesTwice(steps: seq<Step>) {
    |steps| >= 2 && steps[0] == Announce(1, "a", 0, {2}) && steps[1] == Announce(1, "a", 1, {2})
  }

  lemma AnnounceBoth() returns (nets: seq<Net>, steps: seq<Step>)
    ensures IsRun(Ring(), nets, steps) && |steps| == 2 && AnnouncesTwice(steps) && Circling(nets[|steps|], 1, 2, 3)
  {
    var m, a, b := Ring(), Announce(1, "a", 0, {2}), Announce(1, "a", 1, {2});
    RingNeighbours(1, 2, 3);
    RunExtends(m, [Initial(m)], [], a);
    nets, steps := [Initial(m)] + [Next(m, Initial(m), a)], [] + [a];
    RunExtends(m, nets, steps, b);
    nets, steps := nets + [Next(m, nets[|steps|], b)], steps + [b];
    OneFrame(1, {2}, 2, 1, "a", 0);
    OneFrame(1, {2}, 2, 1, "a", 1);
  }

  ghost predicate OnlyDeliveriesAfter(steps: seq<Step>, n: nat) {
    forall i :: n <= i < |steps| ==> steps[i].Deliver? && steps[i].router
  }

  /** Gossip need not end: in a ring of three, after two announcements of one filter at
      different QoS values, there is a run with as many receptions as one likes. */
  lemma {:induction false} TwoQosNeverEnd(n: nat) returns (nets: seq<Net>, steps: seq<Step>, x: NodeId, y: NodeId, z: NodeId)
    ensures MeshOk(Ring()) && IsRun(Ring(), nets, steps)
    ensures |steps| == 2 + 2 * n && AnnouncesTwice(steps) && OnlyDeliveriesAfter(steps, 2)
    ensures Circling(nets[|steps|], x, y, z)
  {
    if n == 0 {
      nets, steps := AnnounceBoth();
      x, y, z := 1, 2, 3;
    } else {
      nets, steps, x, y, z := TwoQosNeverEnd(n - 1);
      nets, steps := PassesBoth(nets, steps, x, y, z);
      x, y, z := y, z, x;
    }
  }

  // ---------- a broker with the zero id ----------

  /** 4 announces to 0, whose one other neighbour 1 is in a ring with 2 and 3. */
  function ZeroMesh(): Mesh {
    Mesh({0, 1, 2, 3, 4}, {(0, 4), (4, 0), (0, 1), (1, 0), (1, 2), (2, 1), (2, 3), (3, 2), (1, 3), (3, 1)}, 1, 1)
  }

  lemma ZeroNeighbours()
    ensures Neighbours(ZeroMesh(), 4) == {0} && Neighbours(ZeroMesh(), 0) - {4} == {1}
    ensures Neighbours(ZeroMesh(), 1) - {0} == {2, 3} && Neighbours(ZeroMesh(), 1) - {3} == {0, 2}
    ensures Neighbours(ZeroMesh(), 2) - {1} == {3} && Neighbours(ZeroMesh(), 3) - {2} == {1}
  {
    var m := ZeroMesh();
    assert (0, 4) in m.links && (4, 0) in m.links && (0, 1) in m.links && (1, 0) in m.links && (1, 2) in m.links;
    assert (2, 1) in m.links && (2, 3) in m.links && (3, 2) in m.links && (1, 3) in m.links && (3, 1) in m.links;
    assert Neighbours(m, 4) == {0} && Neighbours(m, 0) == {1, 4} && Neighbours(m, 1) == {0, 2, 3};
    assert Neighbours(m, 2) == {1, 3} && Neighbours(m, 3) == {1, 2};
  }

  /** The frame about filter "a" of broker 4 on a link. */
  function Hop(from: NodeId, to: NodeId): Frame {
    Frame(from, to, 4, "a", 0)
  }

  function Over(hop: NodeId): Tables {
    Held(4, "a", 0, hop)
  }

  lemma ReachesOne() returns (nets: seq<Net>, steps: seq<Step>)
    ensures IsRun(ZeroMesh(), nets, steps) && nets[|steps|].tables.Keys == {0, 1, 2, 3, 4}
    ensures nets[|steps|].flight == multiset{} + multiset{Hop(0, 1)}
    ensures forall v :: v in {1, 2, 3} ==> nets[|steps|].tables[v] == Start(1, 1)
  {
    var m, s := ZeroMesh(), Announce(4, "a", 0, {0});
    ZeroNeighbours();
    RunExtends(m, [Initial(m)], [], s);
    nets, steps := [Initial(m)] + [Next(m, Initial(m), s)], [] + [s];
    OneFrame(4, {0}, 0, 4, "a", 0);
    FirstHeld(4, "a", 0, 4);
    nets, steps := Learns(m, nets, steps, Hop(4, 0), multiset{}, Over(4));
    OneFrame(0, {1}, 1, 4, "a", 0);
  }

  /** 1 learns of 4 over the zero id and tells 2 and 3. */
  lemma OverZero(nets: seq<Net>, steps: seq<Step>) returns (nets': seq<Net>, steps': seq<Step>)
    requires IsRun(ZeroMesh(), nets, steps) && nets[|steps|].tables.Keys == {0, 1, 2, 3, 4}
    requires nets[|steps|].flight == multiset{} + multiset{Hop(0, 1)}
    requires forall v :: v in {1, 2, 3} ==> nets[|steps|].tables[v] == Start(1, 1)
    ensures IsRun(ZeroMesh(), nets', steps') && nets'[|steps'|].tables.Keys == {0, 1, 2, 3, 4}
    ensures nets'[|steps'|].flight == multiset{Hop(1, 3)} + multiset{Hop(1, 2)}
    ensures var t := nets'[|steps'|].tables; t[1] == Over(NO_ID) && t[2] == Start(1, 1) && t[3] == Start(1, 1)
  {
    ZeroNeighbours();
    FirstHeld(4, "a", 0, 0);
    nets', steps' := Learns(ZeroMesh(), nets, steps, Hop(0, 1), multiset{}, Over(0));
    assert (set t | t in {2, 3} :: Frame(1, t, 4, "a", 0)) == {Hop(1, 2), Hop(1, 3)};
  }

  /** 2 and 3 learn of it in turn. */
  lemma Around(nets: seq<Net>, steps: seq<Step>) returns (nets': seq<Net>, steps': seq<Step>)
    requires IsRun(ZeroMesh(), nets, steps) && nets[|steps|].tables.Keys == {0, 1, 2, 3, 4}
    requires nets[|steps|].flight == multiset{Hop(1, 3)} + multiset{Hop(1, 2)}
    requires var t := nets[|steps|].tables; t[1] == Over(NO_ID) && t[2] == Start(1, 1) && t[3] == Start(1, 1)
    ensures IsRun(ZeroMesh(), nets', steps') && nets'[|steps'|].tables.Keys == {0, 1, 2, 3, 4}
    ensures nets'[|steps'|].flight == multiset{Hop(1, 3)} + multiset{Hop(3, 1)}
    ensures var t := nets'[|steps'|].tables; t[1] == Over(NO_ID) && t[2] == Over(1) && t[3] == Over(2)
  {
    ZeroNeighbours();
    FirstHeld(4, "a", 0, 1);
    FirstHeld(4, "a", 0, 2);
    nets', steps' := Learns(ZeroMesh(), nets, steps, Hop(1, 2), multiset{Hop(1, 3)}, Over(1));
    OneFrame(2, {3}, 3, 4, "a", 0);
    nets', steps' := Learns(ZeroMesh(), nets', steps', Hop(2, 3), multiset{Hop(1, 3)}, Over(2));
    OneFrame(3, {1}, 1, 4, "a", 0);
  }

  /** With a broker of the zero id next hops can form a ring: 1 has learned of 4 over the
      zero id, which counts as unset, so it takes 3 for its next hop, whose way to 4
      leads over 2 and 1. */
  lemma ZeroIdLoops() returns (nets: seq<Net>, steps: seq<Step>)
    ensures IsRun(ZeroMesh(), nets, steps) && IsWalk(nets[|steps|], 4, [1, 3, 2, 1])
    ensures forall n: nat :: Follow(nets[|steps|], 4, 1, n) != 4
  {
    nets, steps := ReachesOne();
    nets, steps := OverZero(nets, steps);
    nets, steps := Around(nets, steps);
    HeldMoves(4, "a", 0, 3);
    nets, steps := Learns(ZeroMesh(), nets, steps, Hop(3, 1), multiset{Hop(1, 3)}, Over(3));
    RingOfHops(nets[|steps|]);
  }

  ghost predicate InRing(net: Net) {
    && 1 in net.tables && 2 in net.tables && 3 in net.tables
    && HopOf(net.tables[1], 4) == Some(3) && HopOf(net.tables[3], 4) == Some(2) && HopOf(net.tables[2], 4) == Some(1)
  }

  lemma RingOfHops(net: Net)
    requires 1 in net.tables && 2 in net.tables && 3 in net.tables
    requires net.tables[1] == Over(3) && net.tables[2] == Over(1) && net.tables[3] == Over(2)
    ensures IsWalk(net, 4, [1, 3, 2, 1]) && forall n: nat :: Follow(net, 4, 1, n) != 4
  {
    HeldSlots(4, "a", 0, 1);
    HeldSlots(4, "a", 0, 2);
    HeldSlots(4, "a", 0, 3);
    forall n: nat ensures Follow(net, 4, 1, n) != 4 {
      StaysInRing(net, 1, n);
    }
  }

  lemma {:induction false} StaysInRing(net: Net, v: NodeId, n: nat)
    requires InRing(net) && v in {1, 2, 3}
    ensures Follow(net, 4, v, n) in {1, 2, 3}
    decreases n
  {
    if n > 0 {
      StaysInRing(net, HopOf(net.tables[v], 4).value, n - 1);
    }
  }
}
