/**
 Which router owns a shard key, and the two caches in front of that choice
 (p2p_shard.c).

 The owner is stated by rank among the routers' ids, which does not mention any
 table order.  A cache is a list of entries under a topology signature; the key
 hash and the cache hash are parameters.
 */
module ShardOwner {
  import opened Common
  import opened ExchangeSort
  import opened TopicFilter
  import opened ShardKey
  import Election

  type Id = Election.Id
  type Sig = nat

  // ---------- the owner of a key ----------

  ghost function RouterIds(snapshot: seq<Election.Peer>): set<Id> {
    set p | p in snapshot && p.role == Election.Router :: p.id
  }

  ghost function Below(ids: set<Id>, id: Id): set<Id> {
    set x | x in ids && x < id
  }

  /** `owner` is the router whose rank by id is the key's hash modulo their number. */
  ghost predicate Owns(owner: Id, ids: set<Id>, key: string, keyHash: string -> nat) {
    ids != {} && owner in ids && |Below(ids, owner)| == keyHash(key) % |ids|
  }

  /** A key has one owner among given routers. */
  lemma OwnerAgreement(a: Id, b: Id, ids: set<Id>, key: string, keyHash: string -> nat)
    requires Owns(a, ids, key, keyHash) && Owns(b, ids, key, keyHash)
    ensures a == b
  {
    if a < b {
      BelowGrows(ids, a, b);
    } else if b < a {
      BelowGrows(ids, b, a);
    }
  }

  /** A router owns exactly the keys whose hash leaves its rank, and there is such a
      hash for each router. */
  lemma OwnsItsShare(id: Id, ids: set<Id>, key: string, keyHash: string -> nat)
    requires id in ids
    ensures var rank := |set x | x in ids && x < id|;
            && (Owns(id, ids, key, keyHash) <==> keyHash(key) % |ids| == rank)
            && rank < |ids| && rank % |ids| == rank
  {
    assert (set x | x in ids && x < id) == Below(ids, id);
    SubsetSize(Below(ids, id) + {id}, ids);
    SmallRemainder(|Below(ids, id)|, |ids|);
  }

  lemma SmallRemainder(a: nat, b: nat)
    requires a < b
    ensures a % b == a
  {}

  /** What a node answers: itself for the empty key or without routers, else the
      key's owner among the routers it knows. */
  ghost predicate Answers(owner: Id, self: Id, ids: set<Id>, key: string, keyHash: string -> nat) {
    if key == "" || ids == {} then owner == self else Owns(owner, ids, key, keyHash)
  }

  /** Two nodes that know the same routers give the same answer exactly when the key
      has an owner at all. */
  lemma AnswersAgreeIff(a: Id, self: Id, b: Id, other: Id, ids: set<Id>, key: string, keyHash: string -> nat)
    requires self != other
    requires Answers(a, self, ids, key, keyHash) && Answers(b, other, ids, key, keyHash)
    ensures a == b <==> key != "" && ids != {}
  {
    if key != "" && ids != {} {
      OwnerAgreement(a, b, ids, key, keyHash);
    }
  }

  /** A subscription to a pinned filter, placed at one node, and a publish it matches,
      made at another, meet at one router exactly when their key is not empty and
      there is a router. */
  lemma FilterMeetsTopicIff(f: string, t: string, forFilter: Id, self: Id, forTopic: Id, other: Id, ids: set<Id>, keyHash: string -> nat)
    requires Pinned(f) && TopicMatch(f, t) && self != other
    requires Answers(forFilter, self, ids, KeyOf(f), keyHash) && Answers(forTopic, other, ids, KeyOf(t), keyHash)
    ensures forFilter == forTopic <==> KeyOf(t) != "" && ids != {}
  {
    PinnedSharesKey(f, t);
    AnswersAgreeIff(forFilter, self, forTopic, other, ids, KeyOf(f), keyHash);
  }

  /** "//x" is a valid, pinned filter and a topic, and every node takes it for its own. */
  lemma DoubleSlashSplits(a: Id, self: Id, b: Id, other: Id, ids: set<Id>, keyHash: string -> nat)
    requires self != other
    requires Answers(a, self, ids, KeyOf("//x"), keyHash) && Answers(b, other, ids, KeyOf("//x"), keyHash)
    ensures FilterValid("//x") && Pinned("//x") && TopicMatch("//x", "//x") && a == self != other == b
  {
    var t := "//x";
    EmptyKeyIff(t);
    ExactMatchesItself(t, t, true);
    AnswersAgreeIff(a, self, b, other, ids, KeyOf(t), keyHash);
  }

  lemma BelowGrows(ids: set<Id>, a: Id, b: Id)
    requires a in ids && a < b
    ensures |Below(ids, a)| < |Below(ids, b)|
  {
    assert Below(ids, a) + {a} <= Below(ids, b);
    SubsetSize(Below(ids, a) + {a}, Below(ids, b));
  }

  ghost predicate DistinctPeers(s: seq<Election.Peer>) {
    forall i, j :: 0 <= i < j < |s| ==> s[i].id != s[j].id
  }

  predicate IdBefore(a: Election.Peer, b: Election.Peer) {
    a.id < b.id
  }

  function Ids(s: seq<Election.Peer>): (r: seq<Id>)
    ensures |r| == |s| && forall i :: 0 <= i < |s| ==> r[i] == s[i].id
  {
    seq(|s|, i requires 0 <= i < |s| => s[i].id)
  }

  /** Place i of routers sorted by id has i routers below it. */
  lemma SortedRank(routers: seq<Election.Peer>, i: nat)
    requires i < |routers| && Sorted(routers, IdBefore) && DistinctPeers(routers)
    ensures |Below(Elements(Ids(routers)), routers[i].id)| == i
    ensures |Elements(Ids(routers))| == |routers|
  {
    var ids := Ids(routers);
    var less := (a: Id, b: Id) => a < b;
    assert forall j, k :: 0 <= j < k < |ids| ==> IdBefore(routers[k], routers[j]) == less(ids[k], ids[j]);
    AheadOfPosition(ids, less, i);
    assert Below(Elements(ids), ids[i]) == AheadIn(ids, less, ids[i]);
    DistinctSize(ids);
  }

  function Routers(s: seq<Election.Peer>): seq<Election.Peer> {
    if s == [] then []
    else if s[|s|-1].role == Election.Router then Routers(s[..|s|-1]) + [s[|s|-1]]
    else Routers(s[..|s|-1])
  }

  lemma {:induction false} RoutersHas(s: seq<Election.Peer>, p: Election.Peer)
    ensures p in Routers(s) <==> p in s && p.role == Election.Router
  {
    if s != [] {
      RoutersHas(s[..|s|-1], p);
      assert s == s[..|s|-1] + [s[|s|-1]];
    }
  }

  lemma {:induction false} RoutersDistinct(s: seq<Election.Peer>)
    requires DistinctPeers(s)
    ensures DistinctPeers(Routers(s))
  {
    if s != [] {
      var init := s[..|s|-1];
      RoutersDistinct(init);
      forall i | 0 <= i < |Routers(init)| ensures Routers(init)[i].id != s[|s|-1].id {
        RoutersHas(init, Routers(init)[i]);
      }
    }
  }

  lemma RearrangedRouters(s: seq<Election.Peer>, sorted: seq<Election.Peer>)
    requires DistinctPeers(s) && multiset(sorted) == multiset(Routers(s))
    ensures DistinctPeers(sorted) && Elements(Ids(sorted)) == RouterIds(s)
  {
    RoutersDistinct(s);
    Election.SameIdsDistinct(Routers(s), sorted);
    forall id ensures id in Elements(Ids(sorted)) <==> id in RouterIds(s) {
      if id in Elements(Ids(sorted)) {
        var j :| 0 <= j < |sorted| && Ids(sorted)[j] == id;
        assert sorted[j] in multiset(sorted);
        RoutersHas(s, sorted[j]);
      }
      if id in RouterIds(s) {
        var p :| p in s && p.role == Election.Router && p.id == id;
        RoutersHas(s, p);
        assert p in multiset(Routers(s));
        var j :| 0 <= j < |sorted| && sorted[j] == p;
        assert Ids(sorted)[j] == id;
      }
    }
  }

  /** Collect the routers, sort them by id and take the one the hash points at. */
  method ChooseOwner(snapshot: seq<Election.Peer>, key: string, keyHash: string -> nat) returns (owner: Option<Id>)
    requires DistinctPeers(snapshot)
    ensures owner.None? <==> RouterIds(snapshot) == {}
    ensures owner.Some? ==> Owns(owner.value, RouterIds(snapshot), key, keyHash)
    ensures owner.Some? ==>
              (exists p :: p in snapshot && p.role == Election.Router && p.id == owner.value)
              && |set p | p in snapshot && p.role == Election.Router && p.id < owner.value :: p.id|
                 == keyHash(key) % |set p | p in snapshot && p.role == Election.Router :: p.id|
  {
    var collected: seq<Election.Peer> := [];
    for i := 0 to |snapshot|
      invariant collected == Routers(snapshot[..i])
    {
      assert snapshot[..i+1][..i] == snapshot[..i];
      if snapshot[i].role == Election.Router {
        collected := collected + [snapshot[i]];
      }
    }
    assert snapshot[..|snapshot|] == snapshot;
    var routers := new Election.Peer[|collected|](i requires 0 <= i < |collected| => collected[i]);
    assert routers[..] == collected;
    Sort(routers, (a, b) => IdBefore(b, a), IdBefore);
    RearrangedRouters(snapshot, routers[..]);
    ghost var ids := Ids(routers[..]);
    if routers.Length == 0 {
      return None;
    }
    var place := keyHash(key) % routers.Length;
    SortedRank(routers[..], place);
    assert ids[place] in Elements(ids);
    assert (set p | p in snapshot && p.role == Election.Router && p.id < ids[place] :: p.id) == Below(RouterIds(snapshot), ids[place]);
    return Some(routers[place].id);
  }
}
