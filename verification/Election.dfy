/**
 Router election (p2p_election.c).

 Every node keeps a table of (id, score) pairs, itself in slot 0, and decides on
 its own whether it is a router: it sorts the table by descending score, then
 ascending id, and looks for itself among the first few.  The value functions say
 what a recomputation does to the table; a node's decision is stated without the
 sort, by counting the nodes ahead of it, which is what makes nodes with
 differently ordered tables agree.
 */
module Election {
  import opened Common
  import opened ExchangeSort

  type Id = nat

  datatype Role = Leaf | Router

  /** A table slot; `lastSeen` is a clock reading in milliseconds. */
  datatype Peer = Peer(id: Id, score: int, role: Role, lastSeen: int, inUse: bool)

  const VACANT: Peer := Peer(0, 0, Leaf, 0, false)

  /** What the ranking looks at. */
  datatype Place = Place(id: Id, score: int)

  function PlaceOf(p: Peer): Place {
    Place(p.id, p.score)
  }

  /** score_before. */
  predicate ScoreBefore(a: Place, b: Place) {
    if a.score != b.score then a.score > b.score else a.id < b.id
  }

  predicate PeerBefore(a: Peer, b: Peer) {
    ScoreBefore(PlaceOf(a), PlaceOf(b))
  }

  ghost function Standing(s: seq<Peer>): set<Place> {
    set i | 0 <= i < |s| && s[i].inUse :: PlaceOf(s[i])
  }

  /** No two slots in use hold the same id. */
  ghost predicate DistinctIds(s: seq<Peer>) {
    forall i, j :: 0 <= i < j < |s| && s[i].inUse && s[j].inUse ==> s[i].id != s[j].id
  }

  ghost predicate OnePlacePerId(st: set<Place>) {
    forall p, q :: p in st && q in st && p.id == q.id ==> p == q
  }

  /** The places with a higher score, or the same score and a smaller id. */
  ghost function Ahead(st: set<Place>, p: Place): set<Place> {
    set q | q in st && (q.score > p.score || (q.score == p.score && q.id < p.id))
  }

  /** The node is among the `target` best. */
  ghost predicate Elects(st: set<Place>, self: Id, target: nat) {
    exists p :: p in st && p.id == self && |Ahead(st, p)| < target
  }

  // ---------- how many routers ----------

  /** What the adaptive count reads from the rest of the broker. */
  datatype Load = Load(freeSlots: nat, publishRate: nat, remoteSubs: nat, exactRoutes: nat, wildcardRoutes: nat, remoteNodes: nat)

  const INT_MIN: int := -0x8000_0000

  function Pow2(n: nat): nat {
    if n == 0 then 1 else 2 * Pow2(n - 1)
  }

  function Log2(n: nat): nat {
    if n <= 1 then 0 else 1 + Log2(n / 2)
  }

  /** Log2 is the rounded-down logarithm, and the only number between those powers. */
  lemma {:induction false} LogIsFloor(n: nat, r: nat)
    requires n >= 1
    ensures Pow2(r) <= n < Pow2(r + 1) <==> r == Log2(n)
  {
    if n > 1 {
      if r == 0 {
      } else {
        LogIsFloor(n / 2, r - 1);
        assert Pow2(r) == 2 * Pow2(r - 1) && Pow2(r + 1) == 2 * Pow2(r);
      }
    } else if r > 0 {
      PowGrows(r);
    }
  }

  lemma {:induction false} PowGrows(r: nat)
    ensures Pow2(r) > r
  {
    if r > 0 {
      PowGrows(r - 1);
    }
  }

  /** ilog2_floor: double until the next power passes n. */
  method FloorLog2(n: nat) returns (r: nat)
    requires n >= 1
    ensures r == Log2(n)
  {
    r := 0;
    PowGrows(n);
    while Pow2(r + 1) <= n
      invariant Pow2(r) <= n
      decreases n - r
    {
      r := r + 1;
      PowGrows(r);
    }
    LogIsFloor(n, r);
  }

  function Pressure(load: Load): nat {
    load.remoteSubs * 4 + load.exactRoutes * 2 + load.wildcardRoutes * 3 + load.remoteNodes * 6
  }

  function PublishPressure(load: Load): nat {
    if load.publishRate > 4000 then 4000 else load.publishRate
  }

  predicate Busy(load: Load) {
    PublishPressure(load) > 0 || Pressure(load) > 0 || load.remoteNodes > 0
  }

  /** Nodes per router, rounded up. */
  function Span(candidate: nat, n: nat): nat
    requires candidate >= 1
  {
    (n + candidate - 1) / candidate
  }

  function RewardOf(n: nat, load: Load): nat -> int {
    c => if 1 <= c <= n then Reward(c, n, load) else INT_MIN
  }

  /** What the adaptive count thinks of electing `candidate` of `n` nodes. */
  function Reward(candidate: nat, n: nat, load: Load): int
    requires 1 <= candidate <= n
  {
    var span := Span(candidate, n);
    load.freeSlots * 8 + PublishPressure(load) / 8
    + Pressure(load) * candidate / n
    + (if candidate > 1 then Log2(candidate) * 10 else 0)
    - (candidate * 14 + span * span * 3 + n * 2)
  }

  /** The least candidate of maximal reward. */
  ghost predicate IsBest(r: nat, n: nat, reward: nat -> int) {
    && 1 <= r <= n
    && forall c: nat :: 1 <= c <= n ==> reward(c) < reward(r) || (reward(c) == reward(r) && r <= c)
  }

  /** The running maximum over the candidates, from INT_MIN. */
  method BestCandidate(n: nat, reward: nat -> int) returns (r: nat)
    requires n >= 1 && forall c: nat :: 1 <= c <= n ==> reward(c) >= INT_MIN
    ensures IsBest(r, n, reward)
  {
    var bestReward := INT_MIN;
    r := 1;
    for candidate := 1 to n + 1
      invariant candidate == 1 ==> bestReward == INT_MIN && r == 1
      invariant candidate > 1 ==> 1 <= r < candidate && bestReward == reward(r)
      invariant forall c: nat :: 1 <= c < candidate ==> reward(c) < bestReward || (reward(c) == bestReward && r <= c)
    {
      var value := reward(candidate);
      if value > bestReward || (value == bestReward && candidate < r) {
        bestReward := value;
        r := candidate;
      }
    }
  }

  /** The number of routers among n nodes; `fixed` is the configured count, 0 for adaptive. */
  ghost predicate IsTarget(r: nat, n: nat, fixed: nat, load: Load) {
    if n <= 1 then r == n
    else if fixed > 0 then r == if fixed < n then fixed else n
    else if n <= 5 && Busy(load) then r == n
    else IsBest(r, n, RewardOf(n, load))
  }

  lemma TargetIsUnique(r: nat, q: nat, n: nat, fixed: nat, load: Load)
    requires IsTarget(r, n, fixed, load) && IsTarget(q, n, fixed, load)
    ensures r == q
    ensures n >= 1 ==> 1 <= r <= n
  {
    BestIsUnique(r, q, n, RewardOf(n, load));
  }

  lemma BestIsUnique(r: nat, q: nat, n: nat, reward: nat -> int)
    ensures IsBest(r, n, reward) && IsBest(q, n, reward) ==> r == q
  {
    if IsBest(r, n, reward) && IsBest(q, n, reward) {
      assert reward(r) == reward(q);
    }
  }

  /** Rewards are C ints, so none is below INT_MIN. */
  ghost predicate RewardsFit(n: nat, load: Load) {
    forall c: nat :: 1 <= c <= n ==> RewardOf(n, load)(c) >= INT_MIN
  }

  /** router_target_count. */
  method TargetCount(n: nat, fixed: nat, load: Load) returns (r: nat)
    requires RewardsFit(n, load)
    ensures IsTarget(r, n, fixed, load)
  {
    if n <= 1 {
      return n;
    }
    if fixed > 0 {
      return if fixed < n then fixed else n;
    }
    if n <= 5 && Busy(load) {
      return n;
    }
    r := BestCandidate(n, RewardOf(n, load));
  }

  /** The reward with its numbers written out; `log` is the rounded-down logarithm of
      the candidate. */
  lemma RewardTerms(c: nat, n: nat, load: Load, log: nat)
    requires 1 <= c <= n && Pow2(log) <= c < Pow2(log + 1)
    ensures var span := (n + c - 1) / c;
            Reward(c, n, load) ==
              load.freeSlots * 8 + (if load.publishRate < 4000 then load.publishRate else 4000) / 8
              + (load.remoteSubs * 4 + load.exactRoutes * 2 + load.wildcardRoutes * 3 + load.remoteNodes * 6) * c / n
              + 10 * log - 14 * c - span * span * 3 - 2 * n
  {
    LogIsFloor(c, log);
  }

  /** The count in each case: all nodes when there is at most one, or at most five and
      there is traffic; the configured count as far as it goes; else the least of those
      with the highest reward. */
  lemma TargetCases(r: nat, n: nat, fixed: nat, load: Load)
    requires IsTarget(r, n, fixed, load)
    ensures n <= 1 ==> r == n
    ensures n > 1 && fixed > 0 ==> r <= n && r <= fixed && (r == n || r == fixed)
    ensures var traffic := load.publishRate + load.remoteSubs + load.exactRoutes + load.wildcardRoutes + load.remoteNodes;
            && (1 < n <= 5 && fixed == 0 && traffic > 0 ==> r == n)
            && (n > 1 && fixed == 0 && (n > 5 || traffic == 0) ==>
                  1 <= r <= n && forall c :: 1 <= c <= n ==>
                    Reward(c, n, load) < Reward(r, n, load) || (Reward(c, n, load) == Reward(r, n, load) && r <= c))
  {
    if n > 1 && fixed == 0 && !(n <= 5 && Busy(load)) {
      assert IsBest(r, n, RewardOf(n, load));
      forall c: nat | 1 <= c <= n
        ensures Reward(c, n, load) < Reward(r, n, load) || (Reward(c, n, load) == Reward(r, n, load) && r <= c)
      {
        assert RewardOf(n, load)(c) == Reward(c, n, load) && RewardOf(n, load)(r) == Reward(r, n, load);
      }
    }
  }

  // ---------- the decision ----------

  lemma {:induction false} LastPlace(st: set<Place>) returns (last: Place)
    requires st != {} && OnePlacePerId(st)
    ensures last in st && forall p :: p in st && p != last ==> ScoreBefore(p, last)
    decreases |st|
  {
    var p :| p in st;
    if st == {p} {
      last := p;
    } else {
      assert st - {p} != {};
      var rest := st - {p};
      var q := LastPlace(rest);
      last := if ScoreBefore(p, q) then q else p;
      forall x | x in st && x != last ensures ScoreBefore(x, last) {
        if x != p {
          assert x in rest;
        }
      }
    }
  }

  ghost function Winners(st: set<Place>, target: nat): set<Place> {
    set p | p in st && |Ahead(st, p)| < target
  }

  /** Exactly `target` places, or all of them, have fewer than `target` places ahead. */
  lemma {:induction false} WinnerCount(st: set<Place>, target: nat)
    requires OnePlacePerId(st)
    ensures |Winners(st, target)| == if target < |st| then target else |st|
    decreases |st|
  {
    if st == {} {
      assert Winners(st, target) == {};
    } else {
      var last := LastPlace(st);
      var rest := st - {last};
      WinnerCount(rest, target);
      WithoutLast(st, last, target);
    }
  }

  /** The last place is ahead of none, and all others are ahead of it. */
  lemma WithoutLast(st: set<Place>, last: Place, target: nat)
    requires last in st && forall p :: p in st && p != last ==> ScoreBefore(p, last)
    ensures Winners(st, target) == Winners(st - {last}, target) + if |st| <= target then {last} else {}
  {
    var rest := st - {last};
    assert Ahead(st, last) == rest;
    forall p | p in rest ensures Ahead(st, p) == Ahead(rest, p) {}
    forall p | p in st ensures p in Winners(st, target) <==> p in Winners(rest, target) || (p == last && |st| <= target) {}
  }

  /** The places are those of `ids`. */
  ghost predicate Ranks(st: set<Place>, ids: set<Id>) {
    forall id :: id in ids <==> exists p :: p in st && p.id == id
  }

  /** `target` ids: with one of them are all of a higher score, and those of its score
      and a smaller id. */
  ghost predicate AreTheBest(ids: set<Id>, st: set<Place>, target: nat) {
    && |ids| == target
    && (forall p, q :: p in st && q in st && q.id in ids && p.score > q.score ==> p.id in ids)
    && (forall p, q :: p in st && q in st && q.id in ids && p.score == q.score && p.id < q.id ==> p.id in ids)
  }

  /** Nodes that share a standing and a target elect that many, the best by score,
      then id. */
  lemma ElectedAreBest(ids: set<Id>, chosen: set<Id>, st: set<Place>, target: nat)
    requires forall id :: id in chosen <==> id in ids && Elects(st, id, target)
    requires OnePlacePerId(st) && target <= |st|
    requires Ranks(st, ids)
    ensures AreTheBest(chosen, st, target)
  {
    var winners := Winners(st, target);
    WinnerCount(st, target);
    assert forall p :: p in winners ==> Elects(st, p.id, target);
    assert forall p :: p in st && p.id in chosen ==> p in winners;
    var idOf := (p: Place) => p.id;
    InjectiveImageSize(idOf, winners);
    assert chosen == Image(idOf, winners);
    forall p, q | p in st && q in st && q.id in chosen && (p.score > q.score || (p.score == q.score && p.id < q.id))
      ensures p.id in chosen
    {
      assert q in winners;
      assert Ahead(st, p) <= Ahead(st, q);
      SubsetSize(Ahead(st, p), Ahead(st, q));
      assert p in winners;
    }
  }

  // ---------- one node's table ----------

  /** expire_old_peers leaves slot 0 alone. */
  function Expire(s: seq<Peer>, now: int, timeout: int): (r: seq<Peer>)
    ensures |r| == |s|
  {
    seq(|s|, i requires 0 <= i < |s| =>
      if i > 0 && s[i].inUse && now - s[i].lastSeen > timeout then VACANT else s[i])
  }

  function Active(s: seq<Peer>): seq<Peer> {
    if s == [] then []
    else if s[|s|-1].inUse then Active(s[..|s|-1]) + [s[|s|-1]]
    else Active(s[..|s|-1])
  }

  lemma {:induction false} ActiveHas(s: seq<Peer>, p: Peer)
    ensures p in Active(s) <==> p in s && p.inUse
  {
    if s != [] {
      var last := |s| - 1;
      ActiveHas(s[..last], p);
      assert s == s[..last] + [s[last]];
    }
  }

  lemma {:induction false} ActiveIdsDistinct(s: seq<Peer>)
    requires DistinctIds(s)
    ensures forall i, j :: 0 <= i < j < |Active(s)| ==> Active(s)[i].id != Active(s)[j].id
  {
    if s != [] {
      var last := |s| - 1;
      var init := s[..last];
      ActiveIdsDistinct(init);
      if s[last].inUse {
        forall i | 0 <= i < |Active(init)| ensures Active(init)[i].id != s[last].id {
          ActiveHas(init, Active(init)[i]);
        }
      }
    }
  }

  /** Collecting the slots in use loses and doubles no place. */
  lemma {:induction false} ActiveHoldsStanding(s: seq<Peer>)
    requires DistinctIds(s)
    ensures |Active(s)| == |Standing(s)|
  {
    if s == [] {
      assert Standing(s) == {};
    } else {
      var last := |s| - 1;
      var init := s[..last];
      ActiveHoldsStanding(init);
      if s[last].inUse {
        assert PlaceOf(s[last]) !in Standing(init);
        assert Standing(s) == Standing(init) + {PlaceOf(s[last])};
      } else {
        assert Standing(s) == Standing(init);
      }
    }
  }

  lemma StandingHas(s: seq<Peer>, p: Place)
    ensures p in Standing(s) <==> exists q :: q in s && q.inUse && PlaceOf(q) == p
  {
    if q :| q in s && q.inUse && PlaceOf(q) == p {
      var i :| 0 <= i < |s| && s[i] == q;
    }
  }

  function Places(s: seq<Peer>): (r: seq<Place>)
    ensures |r| == |s| && forall j :: 0 <= j < |s| ==> r[j] == PlaceOf(s[j])
  {
    seq(|s|, j requires 0 <= j < |s| => PlaceOf(s[j]))
  }

  /** A sorted list of distinct ids puts exactly the places ahead of it before each. */
  lemma PositionIsRank(places: seq<Place>, i: nat)
    requires i < |places| && Sorted(places, ScoreBefore)
    requires forall j, k :: 0 <= j < k < |places| ==> places[j].id != places[k].id
    ensures |Ahead(Elements(places), places[i])| == i
  {
    AheadOfPosition(places, ScoreBefore, i);
    assert Ahead(Elements(places), places[i]) == AheadIn(places, ScoreBefore, places[i]);
  }

  /** Finding the own id among the first `target` places is being among the best. */
  lemma SelfDecides(places: seq<Place>, self: Id, target: nat, found: nat)
    requires Sorted(places, ScoreBefore) && target <= |places|
    requires forall j, k :: 0 <= j < k < |places| ==> places[j].id != places[k].id
    requires found <= target && forall j :: 0 <= j < found ==> places[j].id != self
    requires found < target ==> places[found].id == self
    ensures found < target <==> Elects(Elements(places), self, target)
  {
    if found < target {
      PositionIsRank(places, found);
      assert places[found] in Elements(places);
    } else if Elects(Elements(places), self, target) {
      var p :| p in Elements(places) && p.id == self && |Ahead(Elements(places), p)| < target;
      var j :| 0 <= j < |places| && places[j] == p;
      PositionIsRank(places, j);
      assert false;
    }
  }

  /** An own slot that is refreshed is still the same place when only its role changes. */
  lemma StandingIgnoresRole(s: seq<Peer>, i: nat, role: Role)
    requires i < |s|
    ensures Standing(s[i := s[i].(role := role)]) == Standing(s)
  {
    var r := s[i := s[i].(role := role)];
    assert forall j :: 0 <= j < |s| ==> r[j].inUse == s[j].inUse && PlaceOf(r[j]) == PlaceOf(s[j]);
  }

  lemma {:induction false} ActiveLength(s: seq<Peer>)
    ensures |Active(s)| <= |s|
    ensures s != [] && s[0].inUse ==> |Active(s)| >= 1
  {
    if s != [] {
      ActiveLength(s[..|s|-1]);
    }
  }

  /** A rearrangement of the slots in use still stands for the table. */
  lemma RankedHolds(sorted: seq<Peer>, s: seq<Peer>)
    requires DistinctIds(s) && multiset(sorted) == multiset(Active(s))
    ensures forall j, k :: 0 <= j < k < |sorted| ==> sorted[j].id != sorted[k].id
    ensures Elements(Places(sorted)) == Standing(s)
  {
    ActiveIdsDistinct(s);
    SameIdsDistinct(Active(s), sorted);
    forall p ensures p in Elements(Places(sorted)) <==> p in Standing(s) {
      StandingHas(s, p);
      if p in Elements(Places(sorted)) {
        var j :| 0 <= j < |sorted| && Places(sorted)[j] == p;
        assert sorted[j] in multiset(sorted);
        assert sorted[j] in Active(s);
        ActiveHas(s, sorted[j]);
      }
      if p in Standing(s) {
        var q :| q in s && q.inUse && PlaceOf(q) == p;
        ActiveHas(s, q);
        assert q in multiset(Active(s));
        assert q in sorted;
        var j :| 0 <= j < |sorted| && sorted[j] == q;
        assert Places(sorted)[j] == p;
      }
    }
  }

  lemma {:induction false} SameIdsDistinct(active: seq<Peer>, sorted: seq<Peer>)
    requires multiset(sorted) == multiset(active)
    requires forall i, j :: 0 <= i < j < |active| ==> active[i].id != active[j].id
    ensures forall j, k :: 0 <= j < k < |sorted| ==> sorted[j].id != sorted[k].id
  {
    forall j, k | 0 <= j < k < |sorted| ensures sorted[j].id != sorted[k].id {
      var a, b := sorted[j], sorted[k];
      assert a in multiset(sorted) && b in multiset(sorted);
      assert a in active && b in active;
      if a == b {
        TwiceInMultiset(sorted, j, k);
        OnceInDistinct(active, a);
      }
    }
  }

  lemma TwiceInMultiset<T>(s: seq<T>, j: nat, k: nat)
    requires j < k < |s| && s[j] == s[k]
    ensures multiset(s)[s[j]] >= 2
  {
    assert s == s[..k] + s[k..];
    assert s[..k][j] == s[j] && s[k..][0] == s[j];
    assert s[j] in multiset(s[..k]) && s[j] in multiset(s[k..]);
  }

  lemma {:induction false} OnceInDistinct(s: seq<Peer>, p: Peer)
    requires forall i, j :: 0 <= i < j < |s| ==> s[i].id != s[j].id
    ensures multiset(s)[p] <= 1
  {
    if s != [] {
      OnceInDistinct(s[1..], p);
      assert s == [s[0]] + s[1..];
      if s[0] == p {
        assert p !in s[1..];
        assert p !in multiset(s[1..]);
      }
    }
  }

  /** The slot an announcement goes to: the announcer's own, else the first free one. */
  ghost predicate IsSlotFor(s: seq<Peer>, id: Id, slot: nat) {
    && (slot < |s| ==> slot > 0 && if s[slot].inUse then s[slot].id == id else (forall i :: 0 < i < |s| && s[i].inUse ==> s[i].id != id) && forall i :: 0 < i < slot ==> s[i].inUse)
    && (slot >= |s| ==> forall i :: 0 < i < |s| ==> s[i].inUse && s[i].id != id)
  }

  /** Filling that slot replaces the announcer's place and no other. */
  lemma HeardReplacesPlace(s: seq<Peer>, slot: nat, p: Peer)
    requires DistinctIds(s) && IsSlotFor(s, p.id, slot) && slot < |s| && p.inUse
    requires s[0].inUse && s[0].id != p.id
    ensures DistinctIds(s[slot := p])
    ensures Standing(s[slot := p]) == (set q | q in Standing(s) && q.id != p.id) + {PlaceOf(p)}
  {
    var r := s[slot := p];
    forall i | 0 <= i < |s| && i != slot && s[i].inUse ensures s[i].id != p.id {
      if i < slot {
        assert s[slot].inUse ==> s[i].id != s[slot].id;
      }
    }
    forall q ensures q in Standing(r) <==> q == PlaceOf(p) || (q in Standing(s) && q.id != p.id) {
      if q in Standing(r) {
        var i :| 0 <= i < |r| && r[i].inUse && PlaceOf(r[i]) == q;
      }
      if q == PlaceOf(p) {
        assert r[slot] == p;
      } else if q in Standing(s) && q.id != p.id {
        var i :| 0 <= i < |s| && s[i].inUse && PlaceOf(s[i]) == q;
        assert r[i] == s[i];
      }
    }
  }

  class Node {
    const self: Id
    const fixed: nat
    const timeout: int
    const staticSeeds: bool
    const peers: array<Peer>
    var role: Role

    ghost predicate Valid()
      reads this, peers
    {
      && peers.Length > 0
      && peers[0].inUse && peers[0].id == self
      && DistinctIds(peers[..])
    }

    /** The role is the one the table calls for. */
    ghost predicate Decided(load: Load)
      reads this, peers
    {
      if staticSeeds then role == Router
      else exists target: nat ::
        IsTarget(target, |Standing(peers[..])|, fixed, load)
        && (role == Router <==> Elects(Standing(peers[..]), self, target))
    }

    constructor (self: Id, peerMax: nat, fixed: nat, timeout: int, staticSeeds: bool)
      ensures Valid() && fresh(peers) && peers.Length == peerMax + 1
      ensures this.self == self && this.fixed == fixed && this.timeout == timeout && this.staticSeeds == staticSeeds
      ensures role == Router && Standing(peers[..]) == {Place(self, 0)}
    {
      this.self := self;
      this.fixed := fixed;
      this.timeout := timeout;
      this.staticSeeds := staticSeeds;
      role := Router;
      var table := new Peer[peerMax + 1](_ => VACANT);
      table[0] := Peer(self, 0, Router, 0, true);
      peers := table;
    }

    method ExpireOldPeers(now: int)
      requires Valid()
      modifies peers
      ensures Valid() && peers[..] == Expire(old(peers[..]), now, timeout)
      ensures forall i :: 0 < i < peers.Length && old(peers[i]).inUse ==>
                peers[i].inUse == (now - old(peers[i]).lastSeen <= timeout) && (peers[i].inUse ==> peers[i] == old(peers[i]))
      ensures peers[0] == old(peers[0])
    {
      ghost var s := peers[..];
      for i := 1 to peers.Length
        invariant forall j :: 0 <= j < i ==> peers[j] == Expire(s, now, timeout)[j]
        invariant forall j :: i <= j < peers.Length ==> peers[j] == s[j]
      {
        if peers[i].inUse && now - peers[i].lastSeen > timeout {
          peers[i] := VACANT;
        }
      }
      assert peers[..] == Expire(s, now, timeout);
    }

    /** The slots in use, in table order, and then sorted. */
    method Ranked() returns (sorted: array<Peer>)
      requires Valid()
      ensures fresh(sorted) && multiset(sorted[..]) == multiset(Active(peers[..])) && Sorted(sorted[..], PeerBefore)
    {
      var buffer := new Peer[peers.Length];
      var count := 0;
      for i := 0 to peers.Length
        invariant 0 <= count <= i
        invariant buffer[..count] == Active(peers[..i])
      {
        assert peers[..i+1][..i] == peers[..i];
        if peers[i].inUse {
          buffer[count] := peers[i];
          assert buffer[..count+1] == buffer[..count] + [peers[i]];
          count := count + 1;
        }
      }
      assert peers[..peers.Length] == peers[..];
      sorted := new Peer[count](i requires 0 <= i < count reads buffer => buffer[i]);
      assert sorted[..] == buffer[..count];
      Sort(sorted, (a, b) => !PeerBefore(a, b), PeerBefore);
    }

    /** recompute_role_locked: expire, refresh the own slot, decide. */
    method RecomputeRole(score: int, now: int, load: Load)
      requires Valid()
      requires forall n: nat :: n <= peers.Length ==> RewardsFit(n, load)
      modifies this, peers
      ensures Valid()
      ensures peers[..] == Expire(old(peers[..]), now, timeout)[0 := Peer(self, score, role, now, true)]
      ensures Decided(load)
    {
      ExpireOldPeers(now);
      peers[0] := Peer(self, score, role, now, true);
      if staticSeeds {
        role := Router;
      } else {
        Decide(load);
      }
      ghost var s := peers[..];
      peers[0] := peers[0].(role := role);
      assert peers[..] == s[0 := s[0].(role := role)];
      StandingIgnoresRole(s, 0, role);
    }

    method Decide(load: Load)
      requires Valid()
      requires forall n: nat :: n <= peers.Length ==> RewardsFit(n, load)
      modifies this
      ensures exists target: nat ::
                IsTarget(target, |Standing(peers[..])|, fixed, load)
                && (role == Router <==> Elects(Standing(peers[..]), self, target))
    {
      ActiveHoldsStanding(peers[..]);
      var sorted := Ranked();
      RankedHolds(sorted[..], peers[..]);
      ghost var places := Places(sorted[..]);
      assert |multiset(sorted[..])| == sorted.Length && |multiset(Active(peers[..]))| == |Active(peers[..])|;
      ActiveLength(peers[..]);
      var target := TargetCount(sorted.Length, fixed, load);
      TargetIsUnique(target, target, sorted.Length, fixed, load);
      role := Leaf;
      var i := 0;
      while i < sorted.Length && i < target
        invariant 0 <= i <= target
        invariant forall j :: 0 <= j < i ==> places[j].id != self
      {
        if sorted[i].id == self {
          role := Router;
          break;
        }
        i := i + 1;
      }
      SelfDecides(places, self, target, i);
      assert role == Router <==> Elects(Standing(peers[..]), self, target);
      assert |Standing(peers[..])| == sorted.Length;
    }

    /** p2p_election_update_peer: an announcement from another node is stored, when
        there is a slot, and the role recomputed. */
    method UpdatePeer(id: Id, peerScore: int, peerRole: Role, score: int, now: int, load: Load)
      requires Valid()
      requires forall n: nat :: n <= peers.Length ==> RewardsFit(n, load)
      modifies this, peers
      ensures Valid()
      ensures id == self ==> peers[..] == old(peers[..]) && role == old(role)
      ensures id != self ==> exists slot: nat ::
                && IsSlotFor(old(peers[..]), id, slot)
                && (slot >= peers.Length ==> peers[..] == old(peers[..]) && role == old(role))
                && (slot < peers.Length ==>
                      && peers[..] == Expire(old(peers[..])[slot := Peer(id, peerScore, peerRole, now, true)], now, timeout)[0 := Peer(self, score, role, now, true)]
                      && Decided(load))
    {
      if id == self {
        return;
      }
      ghost var s := peers[..];
      var slot := FindSlot(id);
      if slot < peers.Length {
        var heard := Peer(id, peerScore, peerRole, now, true);
        HeardReplacesPlace(s, slot, heard);
        peers[slot] := heard;
        assert peers[..] == s[slot := heard];
        RecomputeRole(score, now, load);
      }
    }

    method FindSlot(id: Id) returns (slot: nat)
      requires Valid() && id != self
      ensures IsSlotFor(peers[..], id, slot)
    {
      slot := peers.Length;
      for i := 1 to peers.Length
        invariant slot < peers.Length ==> 0 < slot < i && !peers[slot].inUse && forall j :: 0 < j < slot ==> peers[j].inUse
        invariant slot >= peers.Length ==> forall j :: 0 < j < i ==> peers[j].inUse
        invariant forall j :: 0 < j < i && peers[j].inUse ==> peers[j].id != id
      {
        if peers[i].inUse && peers[i].id == id {
          return i;
        }
        if !peers[i].inUse && slot >= peers.Length {
          slot := i;
        }
      }
    }
  }

  /** The running nodes of a mesh, each knowing the same scores and configured with
      the same count: their roles are the elected ones. */
  lemma NodesElectTheBest(nodes: map<Id, Node>, loads: map<Id, Load>, fixed: nat, st: set<Place>)
    requires fixed > 0 && OnePlacePerId(st) && Ranks(st, nodes.Keys)
    requires AllDecided(nodes, loads, fixed, st)
    ensures AreTheBest(RoutersAmong(nodes), st, if fixed < |st| then fixed else |st|)
  {
    var target := if fixed < |st| then fixed else |st|;
    forall id ensures id in RoutersAmong(nodes) <==> id in nodes.Keys && Elects(st, id, target) {
      if id in nodes {
        FixedTarget(nodes[id], id, loads[id], fixed, st);
      }
    }
    ElectedAreBest(nodes.Keys, RoutersAmong(nodes), st, target);
  }

  ghost function RoutersAmong(nodes: map<Id, Node>): set<Id>
    reads nodes.Values
  {
    set id | id in nodes && nodes[id].role == Router
  }

  ghost predicate AllDecided(nodes: map<Id, Node>, loads: map<Id, Load>, fixed: nat, st: set<Place>)
    reads nodes.Values, set node | node in nodes.Values :: node.peers
  {
    forall id :: id in nodes ==> id in loads && HasDecided(nodes[id], id, loads[id], fixed, st)
  }

  ghost predicate HasDecided(node: Node, id: Id, load: Load, fixed: nat, st: set<Place>)
    reads node, node.peers
  {
    && node.Valid() && node.Decided(load) && !node.staticSeeds
    && node.self == id && node.fixed == fixed && Standing(node.peers[..]) == st
  }

  lemma FixedTarget(node: Node, id: Id, load: Load, fixed: nat, st: set<Place>)
    requires fixed > 0 && HasDecided(node, id, load, fixed, st)
    ensures node.role == Router <==> Elects(st, id, if fixed < |st| then fixed else |st|)
  {
    var target: nat :| IsTarget(target, |st|, fixed, load) && (node.role == Router <==> Elects(st, id, target));
  }
}
