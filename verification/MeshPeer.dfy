/**
 One broker's side of publish forwarding, over its own route table, seen cache
 and connections.  Sending a frame to a connected peer succeeds; what is sent is
 returned as the list of peers.  Each method is proved to send what MeshPublish
 says a step sends.
 */
module MeshPeer {
  import opened Common
  import opened RouteModel
  import opened RouteTable
  import opened MeshPublish
  import Packet

  /** What may be published to the mesh at all. */
  predicate Accepted(topic: string, payloadLen: nat, qos: nat) {
    qos <= 2 && payloadLen <= Packet.PAYLOAD_MAX && |topic| < Packet.TOPIC_MAX
  }

  class Peer {
    const self: NodeId
    const router: Router
    const cache: array<Key>
    const slot: Key -> nat
    const peerMax: nat
    var conns: seq<NodeId>
    var localSeq: nat

    ghost predicate Valid()
      reads this, cache, router, router.nodes, router.exact, router.wild
    {
      router.Valid() && cache.Length > 0 && NoDuplicates(conns) && |conns| <= peerMax && localSeq < SEQ_MOD
    }

    constructor (self: NodeId, router: Router, cacheSize: nat, slot: Key -> nat, peerMax: nat, conns: seq<NodeId>)
      requires router.Valid() && cacheSize > 0 && NoDuplicates(conns) && |conns| <= peerMax
      ensures Valid() && this.self == self && this.router == router && this.conns == conns && localSeq == 0
      ensures fresh(cache) && cache[..] == EmptyCache(cacheSize)
    {
      this.self := self;
      this.router := router;
      this.slot := slot;
      this.peerMax := peerMax;
      this.conns := conns;
      localSeq := 0;
      cache := new Key[cacheSize](_ => NO_KEY);
      new;
      assert cache[..] == EmptyCache(cacheSize);
    }

    method SeenBefore(k: Key) returns (seen: bool)
      requires Valid()
      modifies cache
      ensures (seen, cache[..]) == MeshPublish.SeenBefore(old(cache[..]), slot, k)
    {
      var i := slot(k) % cache.Length;
      if cache[i] == k {
        assert cache[..] == old(cache[..])[i := k];
        return true;
      }
      cache[i] := k;
      return false;
    }

    /** find_and_lock_send_slot and the send: whether the peer is connected. */
    method SendToNode(id: NodeId) returns (sent: bool)
      ensures sent <==> id in conns
    {
      for i := 0 to |conns|
        invariant id !in conns[..i]
      {
        if conns[i] == id {
          return true;
        }
      }
      return false;
    }

    /** p2p_send_publish_from_router_prebuilt: to every next hop that is connected. */
    method SendFromRouter(topic: string, exclude: Option<NodeId>) returns (hops: seq<NodeId>, targets: seq<NodeId>)
      requires Valid()
      ensures Answers(router.View().routes, peerMax, topic, exclude, Elements(hops))
      ensures NoDuplicates(targets) && Elements(targets) == Elements(hops) * Elements(conns)
    {
      hops := router.FindNextHops(topic, exclude, peerMax);
      DistinctSize(hops);
      targets := SendToEach(hops);
    }

    /** The sending loop. */
    method SendToEach(hops: seq<NodeId>) returns (targets: seq<NodeId>)
      requires Valid() && NoDuplicates(hops)
      ensures NoDuplicates(targets) && Elements(targets) == Elements(hops) * Elements(conns)
    {
      targets := [];
      for i := 0 to |hops|
        invariant NoDuplicates(targets) && Elements(targets) == Elements(hops[..i]) * Elements(conns)
      {
        var sent := SendToNode(hops[i]);
        assert hops[i] !in Elements(hops[..i]);
        assert Elements(hops[..i+1]) == Elements(hops[..i]) + {hops[i]};
        if sent {
          assert Elements(targets + [hops[i]]) == Elements(targets) + {hops[i]};
          targets := targets + [hops[i]];
        }
      }
      assert hops[..|hops|] == hops;
    }

    /** p2p_publish_from_local: refused messages are dropped, an empty topic after it
        has used up a running number; `held` is when the publish is also kept for
        peers that are not connected yet. */
    method PublishFromLocal(topic: string, payloadLen: nat, qos: nat, shardOwner: NodeId)
      returns (k: Option<Key>, hops: seq<NodeId>, targets: seq<NodeId>, held: bool)
      requires Valid()
      modifies this`localSeq
      ensures Valid()
      ensures !Accepted(topic, payloadLen, qos) ==> localSeq == old(localSeq)
      ensures Accepted(topic, payloadLen, qos) ==> localSeq == (old(localSeq) + 1) % SEQ_MOD
      ensures k == if Accepted(topic, payloadLen, qos) && topic != "" then Some(Key(self, localSeq)) else None
      ensures k.Some? <==> qos <= 2 && payloadLen <= 512 && 0 < |topic| < 128
      ensures localSeq == old(localSeq) || localSeq == (old(localSeq) + 1) % 0x1_0000
      ensures k == None ==> targets == [] && !held
      ensures k.Some? ==>
                && NoDuplicates(targets)
                && Elements(targets) == PublishTargets(self, shardOwner, Elements(conns), Elements(hops))
                && (shardOwner == self || shardOwner !in conns ==> Answers(router.View().routes, peerMax, topic, None, Elements(hops)))
                && (held <==> qos > 0 && hops != [] && Elements(hops) * Elements(conns) == {})
    {
      k, hops, targets, held := None, [], [], false;
      if !Accepted(topic, payloadLen, qos) {
        return;
      }
      localSeq := (localSeq + 1) % SEQ_MOD;
      if topic == "" {
        return;
      }
      k := Some(Key(self, localSeq));
      var missed;
      hops, targets, missed := SendLocal(topic, shardOwner);
      held := qos > 0 && hops != [] && missed;
    }

    /** The shard owner, else the connected next hops, else everyone; `missed` when
        routes were asked and none of their hops was connected. */
    method SendLocal(topic: string, shardOwner: NodeId) returns (hops: seq<NodeId>, targets: seq<NodeId>, missed: bool)
      requires Valid()
      ensures NoDuplicates(targets)
      ensures Elements(targets) == PublishTargets(self, shardOwner, Elements(conns), Elements(hops))
      ensures shardOwner == self || shardOwner !in conns ==> Answers(router.View().routes, peerMax, topic, None, Elements(hops))
      ensures hops != [] ==> (missed <==> Elements(hops) * Elements(conns) == {})
    {
      if shardOwner == self {
        hops, targets, missed := SendOrFlood(topic);
      } else {
        var sent := SendToNode(shardOwner);
        if sent {
          hops, targets, missed := [], [shardOwner], false;
          assert Elements(targets) == {shardOwner};
        } else {
          hops, targets, missed := SendOrFlood(topic);
        }
      }
    }

    method SendOrFlood(topic: string) returns (hops: seq<NodeId>, targets: seq<NodeId>, missed: bool)
      requires Valid()
      ensures NoDuplicates(targets) && Answers(router.View().routes, peerMax, topic, None, Elements(hops))
      ensures missed <==> Elements(hops) * Elements(conns) == {}
      ensures Elements(targets) == if missed then Elements(conns) else Elements(hops) * Elements(conns)
    {
      hops, targets := SendFromRouter(topic, None);
      DistinctSize(targets);
      missed := targets == [];
      if missed {
        targets := conns;
      }
    }

    /** handle_publish: whether the publish was delivered here, and to whom it was
        forwarded. */
    method HandlePublish(from: NodeId, k: Key, topic: string, isRouter: bool)
      returns (delivered: bool, hops: seq<NodeId>, targets: seq<NodeId>)
      requires Valid()
      modifies cache
      ensures Valid()
      ensures (!delivered, cache[..]) == MeshPublish.SeenBefore(old(cache[..]), slot, k)
      ensures delivered && isRouter ==>
                Answers(router.View().routes, peerMax, topic, Some(from), Elements(hops))
                && Elements(targets) == Elements(hops) * Elements(conns)
      ensures !delivered || !isRouter ==> targets == []
    {
      hops, targets := [], [];
      var seen := SeenBefore(k);
      delivered := !seen;
      if seen {
        return;
      }
      if isRouter {
        hops, targets := SendFromRouter(topic, Some(from));
      }
    }
  }
}
