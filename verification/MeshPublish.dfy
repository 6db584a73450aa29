/**
 Publish forwarding between brokers.  A broker forwards a local publish to the
 shard owner, or over its routes, or to everyone; a router that receives a
 publish it has not seen delivers it and forwards it over its own routes.  What a
 route query answers is any set of nodes here, so the route tables may change in
 any way while publishes travel.

 The seen cache is direct mapped: `slot` is its hash, a parameter.
 `delivered` is a history variable counting the remote deliveries.
 */
module MeshPublish {
  import opened Common
  import opened TopicFilter
  import opened RouteModel

  /** What the seen cache compares: who published, and its running number. */
  datatype Key = Key(origin: NodeId, seqNo: nat)
  datatype Packet = Packet(from: NodeId, to: NodeId, key: Key, topic: string)

  const NO_KEY := Key(NO_ID, 0)
  const SEQ_MOD := 0x1_0000

  // ---------- the seen cache ----------

  /** seen_before: the answer, and the cache it leaves. */
  function SeenBefore(cache: seq<Key>, slot: Key -> nat, k: Key): (r: (bool, seq<Key>))
    requires |cache| > 0
    ensures |r.1| == |cache|
  {
    var i := slot(k) % |cache|;
    (cache[i] == k, cache[i := k])
  }

  function Lookups(cache: seq<Key>, slot: Key -> nat, ks: seq<Key>): (r: seq<Key>)
    requires |cache| > 0
    ensures |r| == |cache|
  {
    if ks == [] then cache else SeenBefore(Lookups(cache, slot, ks[..|ks|-1]), slot, ks[|ks|-1]).1
  }

  function EmptyCache(size: nat): (r: seq<Key>)
    ensures |r| == size && forall i :: 0 <= i < size ==> r[i] == NO_KEY
  {
    seq(size, _ => NO_KEY)
  }

  /** The last of `ks` that falls into the slot of `k` is `k` itself. */
  predicate LastInSlot(slot: Key -> nat, size: nat, ks: seq<Key>, k: Key)
    requires size > 0
  {
    exists j :: 0 <= j < |ks| && ks[j] == k && forall m :: j < m < |ks| ==> slot(ks[m]) % size != slot(k) % size || ks[m] == k
  }

  /** A key is reported as seen exactly when it was looked up before and no
      colliding key has come since. */
  lemma {:induction false} SeenMeaning(size: nat, slot: Key -> nat, ks: seq<Key>, k: Key)
    requires size > 0 && k != NO_KEY
    ensures SeenBefore(Lookups(EmptyCache(size), slot, ks), slot, k).0 <==> LastInSlot(slot, size, ks, k)
  {
    if ks != [] {
      var last := |ks| - 1;
      SeenMeaning(size, slot, ks[..last], k);
      if slot(ks[last]) % size == slot(k) % size {
        if ks[last] == k { assert LastInSlot(slot, size, ks, k); }
      } else {
        if LastInSlot(slot, size, ks[..last], k) {
          var j :| 0 <= j < last && ks[..last][j] == k
                   && forall m :: j < m < last ==> slot(ks[..last][m]) % size != slot(k) % size || ks[..last][m] == k;
          assert forall m :: j < m < last ==> ks[..last][m] == ks[m];
          assert LastInSlot(slot, size, ks, k);
        }
        if LastInSlot(slot, size, ks, k) {
          var j :| 0 <= j < |ks| && ks[j] == k
                   && forall m :: j < m < |ks| ==> slot(ks[m]) % size != slot(k) % size || ks[m] == k;
          assert j < last && ks[..last][j] == k;
          assert LastInSlot(slot, size, ks[..last], k);
        }
      }
    }
  }

  // ---------- the mesh ----------

  datatype Mesh = Mesh(
    ids: set<NodeId>,
    links: set<(NodeId, NodeId)>,
    peerMax: nat,
    slot: Key -> nat,
    cacheSize: nat)

  datatype Net = Net(
    caches: map<NodeId, seq<Key>>,
    seqs: map<NodeId, nat>,
    flight: multiset<Packet>,
    delivered: multiset<(NodeId, Key)>)

  /** `hops` is what the route query answers at that node, any set of nodes here. */
  datatype Step =
    | Publish(node: NodeId, topic: string, shardOwner: NodeId, hops: set<NodeId>)
    | Deliver(packet: Packet, router: bool, hops: set<NodeId>)

  ghost function Neighbours(m: Mesh, v: NodeId): set<NodeId> {
    set l | l in m.links && l.0 == v :: l.1
  }

  ghost predicate MeshOk(m: Mesh) {
    && NO_ID !in m.ids
    && m.peerMax > 0 && m.cacheSize > 0
    && (forall l :: l in m.links ==> l.0 in m.ids && l.1 in m.ids)
    && (forall v {:trigger Neighbours(m, v)} :: v in m.ids ==> |Neighbours(m, v)| <= m.peerMax)
  }

  /** What a route query may answer: wanted hops, all of them if they fit. */
  ghost predicate Answers(routes: set<Entry>, max: nat, topic: string, exclude: Option<NodeId>, hops: set<NodeId>) {
    var wanted := Hops(routes, topic, exclude);
    hops <= wanted && |hops| == if |wanted| <= max then |wanted| else max
  }

  /** Who gets a local publish: the linked shard owner, else the linked next hops,
      else every linked peer. */
  ghost function PublishTargets(p: NodeId, shardOwner: NodeId, linked: set<NodeId>, hops: set<NodeId>): set<NodeId> {
    if shardOwner != p && shardOwner in linked then {shardOwner}
    else if hops * linked != {} then hops * linked
    else linked
  }

  ghost function Packets(from: NodeId, targets: set<NodeId>, k: Key, topic: string): set<Packet> {
    set t | t in targets :: Packet(from, t, k, topic)
  }

  ghost function Initial(m: Mesh): Net {
    Net(map v | v in m.ids :: EmptyCache(m.cacheSize), map v | v in m.ids :: 0, multiset{}, multiset{})
  }

  ghost predicate Enabled(m: Mesh, net: Net, s: Step) {
    match s
    case Publish(p, _, _, _) =>
      p in m.ids && p in net.seqs
    case Deliver(pkt, _, _) =>
      pkt in net.flight && pkt.to in net.caches && |net.caches[pkt.to]| > 0
  }

  function NextKey(seqs: map<NodeId, nat>, p: NodeId): Key
    requires p in seqs
  {
    Key(p, (seqs[p] + 1) % SEQ_MOD)
  }

  /** handle_publish: drop what was seen, else deliver and, as a router, forward. */
  ghost function Receive(m: Mesh, net: Net, pkt: Packet, router: bool, hops: set<NodeId>): Net
    requires pkt.to in net.caches && |net.caches[pkt.to]| > 0
  {
    var v := pkt.to;
    var rest := net.flight - multiset{pkt};
    if SeenBefore(net.caches[v], m.slot, pkt.key).0 then net.(flight := rest)
    else Net(net.caches[v := SeenBefore(net.caches[v], m.slot, pkt.key).1],
             net.seqs,
             rest + multiset(Packets(v, RelayTargets(m, v, router, hops), pkt.key, pkt.topic)),
             net.delivered + multiset{(v, pkt.key)})
  }

  ghost function RelayTargets(m: Mesh, v: NodeId, router: bool, hops: set<NodeId>): set<NodeId> {
    if router then hops * Neighbours(m, v) else {}
  }

  ghost function Next(m: Mesh, net: Net, s: Step): Net
    requires Enabled(m, net, s)
  {
    match s
    case Publish(p, topic, shardOwner, hops) =>
      var k := NextKey(net.seqs, p);
      net.(seqs := net.seqs[p := k.seqNo],
           flight := net.flight + multiset(Packets(p, PublishTargets(p, shardOwner, Neighbours(m, p), hops), k, topic)))
    case Deliver(pkt, router, hops) => Receive(m, net, pkt, router, hops)
  }

  ghost predicate StepAt(m: Mesh, nets: seq<Net>, steps: seq<Step>, i: nat)
    requires |nets| == |steps| + 1 && i < |steps|
  {
    Enabled(m, nets[i], steps[i]) && nets[i+1] == Next(m, nets[i], steps[i])
  }

  ghost predicate IsRun(m: Mesh, nets: seq<Net>, steps: seq<Step>) {
    && |nets| == |steps| + 1
    && nets[0] == Initial(m)
    && forall i :: 0 <= i < |steps| ==> StepAt(m, nets, steps, i)
  }

  lemma RunStep(m: Mesh, nets: seq<Net>, steps: seq<Step>, i: nat)
    requires IsRun(m, nets, steps) && i < |steps|
    ensures Enabled(m, nets[i], steps[i]) && nets[i+1] == Next(m, nets[i], steps[i])
  {
    assert StepAt(m, nets, steps, i);
  }

  lemma RunExtends(m: Mesh, nets: seq<Net>, steps: seq<Step>, s: Step)
    requires IsRun(m, nets, steps) && Enabled(m, nets[|steps|], s)
    ensures IsRun(m, nets + [Next(m, nets[|steps|], s)], steps + [s])
  {
    var net' := Next(m, nets[|steps|], s);
    forall i | 0 <= i < |steps| + 1 ensures StepAt(m, nets + [net'], steps + [s], i) {
      if i < |steps| {
        assert StepAt(m, nets, steps, i);
      }
    }
  }

  // ---------- what a step sends ----------

  /** A publish goes to the shard owner alone when it is linked, else to the linked next
      hops, and when there is none to every linked peer. */
  ghost predicate PublishGoesTo(m: Mesh, s: Step, v: NodeId)
    requires s.Publish?
  {
    && (s.node, v) in m.links
    && if s.shardOwner != s.node && (s.node, s.shardOwner) in m.links then v == s.shardOwner
       else (exists h :: h in s.hops && (s.node, h) in m.links) ==> v in s.hops
  }

  /** One frame to each of them, under the publisher's next number, and nothing else. */
  lemma PublishSends(m: Mesh, net: Net, s: Step, q: Packet)
    requires s.Publish? && Enabled(m, net, s)
    ensures Next(m, net, s).flight[q] == net.flight[q] +
              if q == Packet(s.node, q.to, Key(s.node, (net.seqs[s.node] + 1) % 0x1_0000), s.topic) && PublishGoesTo(m, s, q.to)
              then 1 else 0
    ensures Next(m, net, s).delivered == net.delivered && Next(m, net, s).caches == net.caches
    ensures Next(m, net, s).seqs == net.seqs[s.node := (net.seqs[s.node] + 1) % 0x1_0000]
  {
    TargetsMeaning(m, s, q.to);
    var targets := PublishTargets(s.node, s.shardOwner, Neighbours(m, s.node), s.hops);
    assert q in Packets(s.node, targets, NextKey(net.seqs, s.node), s.topic) <==>
           q.to in targets && q == Packet(s.node, q.to, NextKey(net.seqs, s.node), s.topic);
  }

  lemma TargetsMeaning(m: Mesh, s: Step, v: NodeId)
    requires s.Publish?
    ensures v in PublishTargets(s.node, s.shardOwner, Neighbours(m, s.node), s.hops) <==> PublishGoesTo(m, s, v)
  {
    LinkedMeaning(m, s.node, v);
    LinkedMeaning(m, s.node, s.shardOwner);
    forall h ensures h in s.hops * Neighbours(m, s.node) <==> h in s.hops && (s.node, h) in m.links {
      LinkedMeaning(m, s.node, h);
    }
  }

  lemma LinkedMeaning(m: Mesh, u: NodeId, v: NodeId)
    ensures v in Neighbours(m, u) <==> (u, v) in m.links
  {
    assert (u, v).0 == u && (u, v).1 == v;
  }

  /** A frame seen before is dropped; another is delivered once, and a router sends it on
      to each linked hop. */
  lemma ReceiveSends(m: Mesh, net: Net, pkt: Packet, router: bool, hops: set<NodeId>, q: Packet)
    requires pkt in net.flight && pkt.to in net.caches && |net.caches[pkt.to]| > 0
    ensures var seen := net.caches[pkt.to][m.slot(pkt.key) % |net.caches[pkt.to]|] == pkt.key;
            var net' := Receive(m, net, pkt, router, hops);
            && net'.delivered == (if seen then net.delivered else net.delivered + multiset{(pkt.to, pkt.key)})
            && net'.flight[q] == net.flight[q] - (if q == pkt then 1 else 0)
                 + if !seen && router && q == Packet(pkt.to, q.to, pkt.key, pkt.topic) && q.to in hops && (pkt.to, q.to) in m.links
                   then 1 else 0
  {
    LinkedMeaning(m, pkt.to, q.to);
    assert q in Packets(pkt.to, RelayTargets(m, pkt.to, router, hops), pkt.key, pkt.topic) <==>
           q.to in RelayTargets(m, pkt.to, router, hops) && q == Packet(pkt.to, q.to, pkt.key, pkt.topic);
  }

  // ---------- running numbers ----------

  function PublishCount(steps: seq<Step>, n: nat, p: NodeId): nat
    requires n <= |steps|
  {
    if n == 0 then 0 else PublishCount(steps, n - 1, p) + if steps[n-1].Publish? && steps[n-1].node == p then 1 else 0
  }

  lemma {:induction false} NumberIsCount(m: Mesh, nets: seq<Net>, steps: seq<Step>, n: nat, p: NodeId)
    requires IsRun(m, nets, steps) && n <= |steps| && p in m.ids
    ensures p in nets[n].seqs && nets[n].seqs[p] == PublishCount(steps, n, p) % 0x1_0000
  {
    if n > 0 {
      NumberIsCount(m, nets, steps, n - 1, p);
      RunStep(m, nets, steps, n - 1);
    }
  }

  lemma {:induction false} CountGrows(steps: seq<Step>, i: nat, j: nat, p: NodeId)
    requires i <= j <= |steps|
    ensures PublishCount(steps, i, p) <= PublishCount(steps, j, p)
    ensures i < j && steps[i].Publish? && steps[i].node == p ==> PublishCount(steps, i, p) < PublishCount(steps, j, p)
  {
    if i < j {
      CountGrows(steps, i, j - 1, p);
    }
  }

  /** Two publishes of a broker carry different keys while it makes fewer than 65536 from
      one to the other. */
  lemma KeysDiffer(m: Mesh, nets: seq<Net>, steps: seq<Step>, i: nat, j: nat, k: Key)
    requires IsRun(m, nets, steps) && i < j < |steps| && Publishes(nets[i], steps[i], k) && steps[j].Publish?
    requires steps[j].node == steps[i].node && PublishCount(steps, j, k.origin) - PublishCount(steps, i, k.origin) < 0x1_0000
    ensures !Publishes(nets[j], steps[j], k)
  {
    var p := k.origin;
    RunStep(m, nets, steps, i);
    NumberIsCount(m, nets, steps, i, p);
    NumberIsCount(m, nets, steps, j, p);
    CountGrows(steps, i, j, p);
    DifferentNumbers(PublishCount(steps, i, p), PublishCount(steps, j, p));
  }

  lemma DifferentNumbers(a: nat, b: nat)
    requires a < b < a + 0x1_0000
    ensures (a % 0x1_0000 + 1) % 0x1_0000 != (b % 0x1_0000 + 1) % 0x1_0000
  {
    assert b - a == 0x1_0000 * (b / 0x1_0000 - a / 0x1_0000) + (b % 0x1_0000 - a % 0x1_0000);
  }

  // ---------- at most once, and finitely many frames ----------

  ghost predicate SelectsKey(r: multiset<Packet>, flight: multiset<Packet>, k: Key) {
    forall p :: r[p] == if p.key == k then flight[p] else 0
  }

  lemma {:induction false} CanSelect(flight: multiset<Packet>, k: Key) returns (r: multiset<Packet>)
    ensures SelectsKey(r, flight, k)
    decreases |flight|
  {
    if flight == multiset{} {
      r := multiset{};
    } else {
      var p :| p in flight;
      r := CanSelect(flight - multiset{p}, k);
      if p.key == k { r := r + multiset{p}; }
    }
  }

  /** The frames of one publish that are on the way. */
  ghost function OnTheWay(flight: multiset<Packet>, k: Key): (r: multiset<Packet>)
    ensures SelectsKey(r, flight, k)
  {
    assert exists r :: SelectsKey(r, flight, k) by { var r := CanSelect(flight, k); }
    var r :| SelectsKey(r, flight, k);
    r
  }

  /** The nodes that have not handled the publish. */
  ghost function Unseen(ids: set<NodeId>, delivered: multiset<(NodeId, Key)>, k: Key): set<NodeId> {
    set v | v in ids && (v, k) !in delivered
  }

  /** Nodes still to handle the publish, weighted by the frames each may send,
      plus the frames on the way. */
  ghost function Measure(m: Mesh, net: Net, k: Key): nat {
    Times(|Unseen(m.ids, net.delivered, k)|, m.peerMax + 1) + |OnTheWay(net.flight, k)|
  }

  /** Frames of `k` received in the first `n` steps. */
  function Deliveries(steps: seq<Step>, n: nat, k: Key): nat
    requires n <= |steps|
  {
    if n == 0 then 0
    else Deliveries(steps, n - 1, k) + if steps[n-1].Deliver? && steps[n-1].packet.key == k then 1 else 0
  }

  /** How often the running numbers have produced `k` in the first `n` steps. */
  function Published(nets: seq<Net>, steps: seq<Step>, n: nat, k: Key): nat
    requires n <= |steps| && |nets| == |steps| + 1
  {
    if n == 0 then 0
    else Published(nets, steps, n - 1, k) + if Publishes(nets[n-1], steps[n-1], k) then 1 else 0
  }

  predicate Publishes(net: Net, s: Step, k: Key) {
    s.Publish? && s.node in net.seqs && NextKey(net.seqs, s.node) == k
  }

  ghost predicate NetOk(m: Mesh, net: Net) {
    && net.caches.Keys == m.ids && net.seqs.Keys == m.ids
    && (forall v :: v in m.ids ==> |net.caches[v]| == m.cacheSize)
    && (forall p :: p in net.flight ==> p.to in m.ids && p.key.origin != NO_ID)
  }

  /** With its slot kept, a cache remembers exactly whether `k` was handled. */
  ghost predicate Remembers(m: Mesh, net: Net, k: Key)
    requires NetOk(m, net) && m.cacheSize > 0
  {
    forall v :: v in m.ids ==>
      net.delivered[(v, k)] == if net.caches[v][m.slot(k) % m.cacheSize] == k then 1 else 0
  }

  lemma InitialNetOk(m: Mesh)
    requires MeshOk(m)
    ensures NetOk(m, Initial(m))
  {}

  lemma InitialRemembers(m: Mesh, k: Key)
    requires MeshOk(m) && k.origin != NO_ID
    ensures NetOk(m, Initial(m)) && Remembers(m, Initial(m), k)
  {}

  lemma ReceiveKeepsNetOk(m: Mesh, net: Net, pkt: Packet, router: bool, hops: set<NodeId>)
    requires MeshOk(m) && NetOk(m, net) && pkt in net.flight
    ensures NetOk(m, Receive(m, net, pkt, router, hops))
  {
    var net' := Receive(m, net, pkt, router, hops);
    assert net'.caches.Keys == m.ids;
    forall p | p in net'.flight ensures p.to in m.ids && p.key.origin != NO_ID {
      if p !in net.flight {
        assert p.to in RelayTargets(m, pkt.to, router, hops);
        assert (pkt.to, p.to) in m.links;
      }
    }
  }

  lemma StepKeepsNetOk(m: Mesh, net: Net, s: Step)
    requires MeshOk(m) && NetOk(m, net) && Enabled(m, net, s)
    ensures NetOk(m, Next(m, net, s))
  {
    match s
    case Publish(p, topic, shardOwner, hops) =>
      var net' := Next(m, net, s);
      assert net'.seqs.Keys == m.ids;
      forall q | q in net'.flight ensures q.to in m.ids && q.key.origin != NO_ID {
        if q !in net.flight {
          assert q.to in PublishTargets(p, shardOwner, Neighbours(m, p), hops);
          assert (p, q.to) in m.links;
        }
      }
    case Deliver(pkt, router, hops) => ReceiveKeepsNetOk(m, net, pkt, router, hops);
  }

  lemma ReceiveKeepsMemory(m: Mesh, net: Net, pkt: Packet, router: bool, hops: set<NodeId>, k: Key)
    requires MeshOk(m) && NetOk(m, net) && pkt in net.flight && Remembers(m, net, k)
    requires pkt.key != k ==> m.slot(pkt.key) % m.cacheSize != m.slot(k) % m.cacheSize
    ensures var net' := Receive(m, net, pkt, router, hops);
            NetOk(m, net') && Remembers(m, net', k)
  {
    ReceiveKeepsNetOk(m, net, pkt, router, hops);
    var net' := Receive(m, net, pkt, router, hops);
    forall v | v in m.ids
      ensures net'.delivered[(v, k)] == if net'.caches[v][m.slot(k) % m.cacheSize] == k then 1 else 0
    {
      assert net.delivered[(v, k)] == if net.caches[v][m.slot(k) % m.cacheSize] == k then 1 else 0;
    }
  }

  /** The step does not put another publish into the cache slot of `k`. */
  ghost predicate StepKeepsSlot(m: Mesh, s: Step, k: Key)
    requires m.cacheSize > 0
  {
    s.Deliver? && s.packet.key != k ==> m.slot(s.packet.key) % m.cacheSize != m.slot(k) % m.cacheSize
  }

  lemma KeepsSlotAt(m: Mesh, steps: seq<Step>, k: Key, i: nat)
    requires m.cacheSize > 0 && SlotKept(m, steps, k) && i < |steps|
    ensures StepKeepsSlot(m, steps[i], k)
  {}

  ghost predicate SlotKept(m: Mesh, steps: seq<Step>, k: Key)
    requires m.cacheSize > 0
  {
    forall i :: 0 <= i < |steps| ==> StepKeepsSlot(m, steps[i], k)
  }

  lemma StepKeepsMemory(m: Mesh, net: Net, s: Step, net': Net, k: Key)
    requires MeshOk(m) && NetOk(m, net) && Remembers(m, net, k) && StepKeepsSlot(m, s, k)
    requires Enabled(m, net, s) && net' == Next(m, net, s)
    ensures NetOk(m, net') && Remembers(m, net', k)
  {
    StepKeepsNetOk(m, net, s);
    match s
    case Publish(_, _, _, _) =>
    case Deliver(pkt, router, hops) => ReceiveKeepsMemory(m, net, pkt, router, hops, k);
  }

  lemma RunStepKeepsMemory(m: Mesh, nets: seq<Net>, steps: seq<Step>, i: nat, k: Key)
    requires MeshOk(m) && IsRun(m, nets, steps) && i < |steps| && SlotKept(m, steps, k)
    requires NetOk(m, nets[i]) && Remembers(m, nets[i], k)
    ensures NetOk(m, nets[i+1]) && Remembers(m, nets[i+1], k)
  {
    RunStep(m, nets, steps, i);
    KeepsSlotAt(m, steps, k, i);
    StepKeepsMemory(m, nets[i], steps[i], nets[i+1], k);
  }

  lemma {:induction false} RunKeepsMemory(m: Mesh, nets: seq<Net>, steps: seq<Step>, n: nat, k: Key)
    requires MeshOk(m) && IsRun(m, nets, steps) && k.origin != NO_ID && n <= |steps|
    requires SlotKept(m, steps, k)
    ensures NetOk(m, nets[n]) && Remembers(m, nets[n], k)
  {
    if n > 0 {
      RunKeepsMemory(m, nets, steps, n - 1, k);
      RunStepKeepsMemory(m, nets, steps, n - 1, k);
    } else {
      InitialRemembers(m, k);
    }
  }

  /** While its cache slot is kept, a publish is handled at most once by each
      node, its publisher included. */
  lemma HandledAtMostOnce(m: Mesh, nets: seq<Net>, steps: seq<Step>, k: Key, v: NodeId)
    requires MeshOk(m) && IsRun(m, nets, steps) && k.origin != NO_ID && v in m.ids
    requires SlotKept(m, steps, k)
    ensures nets[|steps|].delivered[(v, k)] <= 1
  {
    RunKeepsMemory(m, nets, steps, |steps|, k);
  }

  // ---------- the measure ----------

  lemma {:induction false} PacketCount(from: NodeId, targets: set<NodeId>, k: Key, topic: string)
    ensures |Packets(from, targets, k, topic)| == |targets|
  {
    if targets == {} {
      assert Packets(from, targets, k, topic) == {};
    } else {
      var t :| t in targets;
      PacketCount(from, targets - {t}, k, topic);
      assert Packets(from, targets, k, topic) == Packets(from, targets - {t}, k, topic) + {Packet(from, t, k, topic)};
    }
  }

  lemma OnTheWayAdds(flight: multiset<Packet>, sent: set<Packet>, key: Key, k: Key)
    requires forall p :: p in sent ==> p.key == key
    ensures OnTheWay(flight + multiset(sent), k)
            == OnTheWay(flight, k) + if key == k then multiset(sent) else multiset{}
  {}

  lemma OnTheWayTakes(flight: multiset<Packet>, p: Packet, k: Key)
    requires p in flight
    ensures OnTheWay(flight - multiset{p}, k) == if p.key == k then OnTheWay(flight, k) - multiset{p} else OnTheWay(flight, k)
    ensures p.key == k ==> p in OnTheWay(flight, k) && |OnTheWay(flight - multiset{p}, k)| == |OnTheWay(flight, k)| - 1
  {}

  /** Frames added by one forwarding, at most one per linked peer. */
  lemma SentCount(m: Mesh, from: NodeId, targets: set<NodeId>, key: Key, topic: string, flight: multiset<Packet>, k: Key)
    requires MeshOk(m) && from in m.ids && targets <= Neighbours(m, from)
    ensures var after := OnTheWay(flight + multiset(Packets(from, targets, key, topic)), k);
            && |after| <= |OnTheWay(flight, k)| + (if key == k then m.peerMax else 0)
            && (key != k ==> after == OnTheWay(flight, k))
  {
    var sent := Packets(from, targets, key, topic);
    OnTheWayAdds(flight, sent, key, k);
    PacketCount(from, targets, key, topic);
    SubsetSize(targets, Neighbours(m, from));
    assert |multiset(sent)| == |sent|;
  }

  lemma HandlingCounts(ids: set<NodeId>, delivered: multiset<(NodeId, Key)>, v: NodeId, key: Key, k: Key)
    requires v in ids && (key == k ==> (v, k) !in delivered)
    ensures |Unseen(ids, delivered + multiset{(v, key)}, k)| == |Unseen(ids, delivered, k)| - if key == k then 1 else 0
  {
    var before, after := Unseen(ids, delivered, k), Unseen(ids, delivered + multiset{(v, key)}, k);
    assert after == if key == k then before - {v} else before;
  }

  lemma UnseenAfter(m: Mesh, net: Net, pkt: Packet, router: bool, hops: set<NodeId>, k: Key)
    requires MeshOk(m) && NetOk(m, net) && pkt in net.flight && Remembers(m, net, k)
    ensures var net' := Receive(m, net, pkt, router, hops);
            var seen := SeenBefore(net.caches[pkt.to], m.slot, pkt.key).0;
            |Unseen(m.ids, net'.delivered, k)|
            == |Unseen(m.ids, net.delivered, k)| - if !seen && pkt.key == k then 1 else 0
  {
    var v := pkt.to;
    if !SeenBefore(net.caches[v], m.slot, pkt.key).0 {
      if pkt.key == k { assert net.delivered[(v, k)] == 0; }
      HandlingCounts(m.ids, net.delivered, v, pkt.key, k);
    }
  }

  lemma OnTheWayAfter(m: Mesh, net: Net, pkt: Packet, router: bool, hops: set<NodeId>, k: Key)
    requires MeshOk(m) && NetOk(m, net) && pkt in net.flight
    ensures var net' := Receive(m, net, pkt, router, hops);
            var seen := SeenBefore(net.caches[pkt.to], m.slot, pkt.key).0;
            if pkt.key != k then OnTheWay(net'.flight, k) == OnTheWay(net.flight, k)
            else |OnTheWay(net'.flight, k)| <= |OnTheWay(net.flight, k)| - 1 + if seen then 0 else m.peerMax
  {
    OnTheWayTakes(net.flight, pkt, k);
    SentCount(m, pkt.to, RelayTargets(m, pkt.to, router, hops), pkt.key, pkt.topic, net.flight - multiset{pkt}, k);
  }

  lemma ReceiveLowersMeasure(m: Mesh, net: Net, pkt: Packet, router: bool, hops: set<NodeId>, k: Key)
    requires MeshOk(m) && NetOk(m, net) && pkt in net.flight && Remembers(m, net, k)
    ensures Measure(m, Receive(m, net, pkt, router, hops), k) + (if pkt.key == k then 1 else 0) <= Measure(m, net, k)
  {
    UnseenAfter(m, net, pkt, router, hops, k);
    OnTheWayAfter(m, net, pkt, router, hops, k);
  }

  lemma PublishRaisesMeasure(m: Mesh, net: Net, s: Step, k: Key)
    requires MeshOk(m) && NetOk(m, net) && s.Publish? && Enabled(m, net, s)
    ensures Measure(m, Next(m, net, s), k)
            <= Measure(m, net, k) + if NextKey(net.seqs, s.node) == k then m.peerMax else 0
  {
    SentCount(m, s.node, PublishTargets(s.node, s.shardOwner, Neighbours(m, s.node), s.hops),
              NextKey(net.seqs, s.node), s.topic, net.flight, k);
  }

  lemma RunStepNetOk(m: Mesh, nets: seq<Net>, steps: seq<Step>, i: nat)
    requires MeshOk(m) && IsRun(m, nets, steps) && i < |steps| && NetOk(m, nets[i])
    ensures NetOk(m, nets[i+1])
  {
    RunStep(m, nets, steps, i);
    StepKeepsNetOk(m, nets[i], steps[i]);
  }

  lemma {:induction false} RunNetOk(m: Mesh, nets: seq<Net>, steps: seq<Step>, n: nat)
    requires MeshOk(m) && IsRun(m, nets, steps) && n <= |steps|
    ensures NetOk(m, nets[n])
  {
    if n > 0 {
      RunNetOk(m, nets, steps, n - 1);
      RunStepNetOk(m, nets, steps, n - 1);
    } else {
      InitialNetOk(m);
    }
  }

  lemma StepMeasure(m: Mesh, net: Net, s: Step, k: Key)
    requires MeshOk(m) && NetOk(m, net) && Enabled(m, net, s) && Remembers(m, net, k)
    ensures Measure(m, Next(m, net, s), k) + (if s.Deliver? && s.packet.key == k then 1 else 0)
            <= Measure(m, net, k) + (if Publishes(net, s, k) then m.peerMax else 0)
  {
    match s
    case Publish(_, _, _, _) => PublishRaisesMeasure(m, net, s, k);
    case Deliver(pkt, router, hops) => ReceiveLowersMeasure(m, net, pkt, router, hops, k);
  }

  lemma InitialMeasure(m: Mesh, k: Key)
    requires MeshOk(m)
    ensures NetOk(m, Initial(m)) && Measure(m, Initial(m), k) == Times(|m.ids|, m.peerMax + 1)
  {
    assert Unseen(m.ids, multiset{}, k) == m.ids;
    assert OnTheWay(multiset{}, k) == multiset{};
  }

  lemma RunStepMeasure(m: Mesh, nets: seq<Net>, steps: seq<Step>, n: nat, k: Key)
    requires MeshOk(m) && IsRun(m, nets, steps) && k.origin != NO_ID && 0 < n <= |steps|
    requires SlotKept(m, steps, k)
    ensures Measure(m, nets[n], k) + (if steps[n-1].Deliver? && steps[n-1].packet.key == k then 1 else 0)
            <= Measure(m, nets[n-1], k) + (if Publishes(nets[n-1], steps[n-1], k) then m.peerMax else 0)
  {
    RunKeepsMemory(m, nets, steps, n - 1, k);
    RunStep(m, nets, steps, n - 1);
    StepMeasure(m, nets[n-1], steps[n-1], k);
  }

  lemma {:induction false} FramesBoundedSum(m: Mesh, nets: seq<Net>, steps: seq<Step>, n: nat, k: Key)
    requires MeshOk(m) && IsRun(m, nets, steps) && k.origin != NO_ID && n <= |steps|
    requires SlotKept(m, steps, k)
    ensures Deliveries(steps, n, k) + Measure(m, nets[n], k)
            <= Times(|m.ids|, m.peerMax + 1) + Times(Published(nets, steps, n, k), m.peerMax)
  {
    if n == 0 {
      InitialMeasure(m, k);
    } else {
      FramesBoundedSum(m, nets, steps, n - 1, k);
      RunStepMeasure(m, nets, steps, n, k);
      TimesStep(Published(nets, steps, n - 1, k), m.peerMax, Publishes(nets[n-1], steps[n-1], k));
    }
  }

  /** Flooding terminates: the frames of one publish handled in a run, with those
      still on the way, are bounded by the size of the mesh. */
  lemma FramesBounded(m: Mesh, nets: seq<Net>, steps: seq<Step>, k: Key)
    requires MeshOk(m) && IsRun(m, nets, steps) && k.origin != NO_ID
    requires SlotKept(m, steps, k)
    ensures Deliveries(steps, |steps|, k) + |OnTheWay(nets[|steps|].flight, k)|
            <= |m.ids| * (m.peerMax + 1) + Published(nets, steps, |steps|, k) * m.peerMax
  {
    FramesBoundedSum(m, nets, steps, |steps|, k);
    TimesIsProduct(|m.ids|, m.peerMax + 1);
    TimesIsProduct(Published(nets, steps, |steps|, k), m.peerMax);
  }
}
