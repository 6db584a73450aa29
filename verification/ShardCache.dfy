/**
 The two caches in front of the owner choice (p2p_shard.c): an open-addressing
 table shared by all threads, which evicts the home slot when full, and a small
 ring of one thread's latest results.

 A `history` of everything stored says what a hit means.
 */
module ShardCache {
  import opened Common
  import opened ExchangeSort
  import opened Probing
  import opened ShardKey
  import opened ShardOwner
  import Election

  datatype Entry = Entry(inUse: bool, sig: Sig, key: string, owner: Id)

  const UNUSED := Entry(false, 0, "", 0)

  /** One result remembered. */
  datatype Fact = Fact(sig: Sig, key: string, owner: Id)

  type CacheHash = (Sig, string) -> nat

  function EntryOf(f: Fact): Entry {
    Entry(true, f.sig, f.key, f.owner)
  }

  predicate Matches(e: Entry, sig: Sig, key: string) {
    e.inUse && e.sig == sig && e.key == key
  }

  predicate SameKey(f: Fact, sig: Sig, key: string) {
    f.sig == sig && f.key == key
  }

  /** The owner most recently stored under a signature and key. */
  function LastStored(history: seq<Fact>, sig: Sig, key: string): Option<Id> {
    if history == [] then None
    else if SameKey(history[|history|-1], sig, key) then Some(history[|history|-1].owner)
    else LastStored(history[..|history|-1], sig, key)
  }

  lemma LastOfExtended(history: seq<Fact>, f: Fact, sig: Sig, key: string)
    ensures LastStored(history + [f], sig, key) ==
              if SameKey(f, sig, key) then Some(f.owner) else LastStored(history, sig, key)
  {
    assert (history + [f])[..|history|] == history;
  }

  // ---------- the shared table ----------

  function Home(hash: CacheHash, sig: Sig, key: string, size: nat): (r: nat)
    requires size > 0
    ensures r < size
  {
    hash(sig, key) % size
  }

  ghost predicate UniqueKeys(s: seq<Entry>) {
    forall i, j :: 0 <= i < j < |s| && s[i].inUse ==> !Matches(s[j], s[i].sig, s[i].key)
  }

  function Marks(s: seq<Entry>, hash: CacheHash): (m: seq<Mark>)
    requires |s| > 0
    ensures |m| == |s|
    ensures forall i :: 0 <= i < |s| ==> m[i] == if s[i].inUse then Taken(Home(hash, s[i].sig, s[i].key, |s|)) else Untouched
  {
    seq(|s|, i requires 0 <= i < |s| => if s[i].inUse then Taken(Home(hash, s[i].sig, s[i].key, |s|)) else Untouched)
  }

  ghost predicate Reachable(s: seq<Entry>, hash: CacheHash)
    requires |s| > 0
  {
    AllReached(Marks(s, hash))
  }

  ghost function Held(s: seq<Entry>): set<Fact> {
    set i | 0 <= i < |s| && s[i].inUse :: Fact(s[i].sig, s[i].key, s[i].owner)
  }

  ghost predicate Holds(s: seq<Entry>, sig: Sig, key: string) {
    exists i :: 0 <= i < |s| && Matches(s[i], sig, key)
  }

  lemma HeldIsHeldOnce(s: seq<Entry>, sig: Sig, key: string)
    requires UniqueKeys(s)
    ensures Holds(s, sig, key) <==> exists owner :: Fact(sig, key, owner) in Held(s)
    ensures forall a, b :: Fact(sig, key, a) in Held(s) && Fact(sig, key, b) in Held(s) ==> a == b
  {
    if i :| 0 <= i < |s| && Matches(s[i], sig, key) {
      assert Fact(sig, key, s[i].owner) in Held(s);
    }
    forall a | Fact(sig, key, a) in Held(s) ensures exists i :: 0 <= i < |s| && Matches(s[i], sig, key) && s[i].owner == a {
      var i :| 0 <= i < |s| && s[i].inUse && Fact(s[i].sig, s[i].key, s[i].owner) == Fact(sig, key, a);
      assert Matches(s[i], sig, key);
    }
  }

  ghost predicate Full(s: seq<Entry>) {
    forall i :: 0 <= i < |s| ==> s[i].inUse
  }

  /** Where a store may write: the key's own slot, else the first empty slot
      reached, else, in a full table, the home slot. */
  ghost predicate IsStoreSlot(s: seq<Entry>, hash: CacheHash, sig: Sig, key: string, i: nat)
    requires |s| > 0
  {
    && i < |s|
    && if Holds(s, sig, key) then Matches(s[i], sig, key)
       else if Full(s) then i == Home(hash, sig, key, |s|)
       else !s[i].inUse && forall k :: 0 <= k < |s| && Before(Home(hash, sig, key, |s|), k, i) ==> s[k].inUse
  }

  lemma MatchesAgree(a: Entry, b: Entry, sig: Sig, key: string)
    ensures Matches(a, sig, key) && Matches(b, sig, key) ==> Matches(a, b.sig, b.key) && Matches(b, a.sig, a.key)
  {}

  /** Writing there keeps the table sound; everything it then holds is the new fact or
      an old one of another key, and without eviction every old one of another key stays. */
  lemma StoreKeeps(s: seq<Entry>, hash: CacheHash, f: Fact, i: nat)
    requires |s| > 0 && UniqueKeys(s) && Reachable(s, hash)
    requires IsStoreSlot(s, hash, f.sig, f.key, i)
    ensures UniqueKeys(s[i := EntryOf(f)]) && Reachable(s[i := EntryOf(f)], hash)
    ensures var others := set g | g in Held(s) && !SameKey(g, f.sig, f.key);
            var held := Held(s[i := EntryOf(f)]);
            f in held && held <= others + {f}
            && (Holds(s, f.sig, f.key) || !Full(s) ==> held == others + {f})
  {
    var r := s[i := EntryOf(f)];
    assert r[i] == EntryOf(f);
    forall j | 0 <= j < |s| && j != i ensures !Matches(s[j], f.sig, f.key) {
      MatchesAgree(s[i], s[j], f.sig, f.key);
    }
    StoreKeepsReachable(s, hash, f, i);
    StoreKeepsHeld(s, hash, f, i);
  }

  lemma StoreKeepsReachable(s: seq<Entry>, hash: CacheHash, f: Fact, i: nat)
    requires |s| > 0 && Reachable(s, hash) && IsStoreSlot(s, hash, f.sig, f.key, i)
    ensures Reachable(s[i := EntryOf(f)], hash)
  {
    var home := Home(hash, f.sig, f.key, |s|);
    assert Marks(s[i := EntryOf(f)], hash) == Marks(s, hash)[i := Taken(home)];
    if Holds(s, f.sig, f.key) {
      assert Marks(s, hash)[i] == Taken(home);
    } else {
      TakingKeepsReached(Marks(s, hash), i, home);
    }
  }

  lemma StoreKeepsHeld(s: seq<Entry>, hash: CacheHash, f: Fact, i: nat)
    requires |s| > 0 && IsStoreSlot(s, hash, f.sig, f.key, i)
    requires forall j :: 0 <= j < |s| && j != i ==> !Matches(s[j], f.sig, f.key)
    ensures var others := set g | g in Held(s) && !SameKey(g, f.sig, f.key);
            var held := Held(s[i := EntryOf(f)]);
            f in held && held <= others + {f}
            && (Holds(s, f.sig, f.key) || !Full(s) ==> held == others + {f})
  {
    var r := s[i := EntryOf(f)];
    assert r[i] == EntryOf(f);
    forall g | g in Held(r) && g != f ensures g in Held(s) && !SameKey(g, f.sig, f.key) {
      var j :| 0 <= j < |r| && r[j].inUse && Fact(r[j].sig, r[j].key, r[j].owner) == g;
      assert j != i && r[j] == s[j];
    }
    forall g | g in Held(s) && !SameKey(g, f.sig, f.key) && (Holds(s, f.sig, f.key) || !Full(s)) ensures g in Held(r) {
      var j :| 0 <= j < |s| && s[j].inUse && Fact(s[j].sig, s[j].key, s[j].owner) == g;
      assert j != i;
      assert r[j] == s[j];
    }
  }

  lemma EmptyEndsProbe(s: seq<Entry>, hash: CacheHash, sig: Sig, key: string, step: nat)
    requires |s| > 0 && Reachable(s, hash) && step < |s|
    requires !s[Probe(Home(hash, sig, key, |s|), step, |s|)].inUse
    requires forall k :: 0 <= k < |s| && Scanned(Home(hash, sig, key, |s|), step, |s|, k) ==> !Matches(s[k], sig, key)
    ensures !Holds(s, sig, key)
  {
    forall j | 0 <= j < |s| ensures !Matches(s[j], sig, key) {
      if Matches(s[j], sig, key) {
        StopMissesNothing(Marks(s, hash), Home(hash, sig, key, |s|), step, j);
      }
    }
  }

  /** Each fact held is the last one stored under its key. */
  ghost predicate Current(s: seq<Entry>, history: seq<Fact>) {
    forall f :: f in Held(s) ==> LastStored(history, f.sig, f.key) == Some(f.owner)
  }

  class SharedCache {
    const slots: array<Entry>
    const hash: CacheHash
    ghost var history: seq<Fact>

    ghost predicate Valid()
      reads this, slots
    {
      && 0 < slots.Length <= UINT32 && UINT32 % slots.Length == 0
      && (forall sig, key :: hash(sig, key) < UINT32)
      && UniqueKeys(slots[..]) && Reachable(slots[..], hash)
      && Current(slots[..], history)
    }

    constructor (size: nat, hash: CacheHash)
      requires 0 < size <= UINT32 && UINT32 % size == 0
      requires forall sig, key :: hash(sig, key) < UINT32
      ensures Valid() && fresh(slots) && slots.Length == size && history == [] && Held(slots[..]) == {}
    {
      slots := new Entry[size](_ => UNUSED);
      this.hash := hash;
      history := [];
    }

    /** shard_cache_lookup: complete, and a hit is the owner last stored. */
    method Lookup(sig: Sig, key: string) returns (r: Option<Id>)
      requires Valid()
      ensures r.Some? ==> Fact(sig, key, r.value) in Held(slots[..]) && LastStored(history, sig, key) == r
      ensures forall owner: Id :: r == Some(owner) <==> Fact(sig, key, owner) in Held(slots[..])
    {
      var size := slots.Length;
      ghost var start := Home(hash, sig, key, size);
      HeldIsHeldOnce(slots[..], sig, key);
      for i := 0 to size
        invariant forall k :: 0 <= k < size && Scanned(start, i, size, k) ==> !Matches(slots[k], sig, key)
      {
        WrappedProbe(hash(sig, key), i, size);
        var idx := (hash(sig, key) + i) % UINT32 % size;
        if Matches(slots[idx], sig, key) {
          assert slots[..][idx] == slots[idx];
          assert Fact(sig, key, slots[idx].owner) in Held(slots[..]);
          return Some(slots[idx].owner);
        }
        if !slots[idx].inUse {
          EmptyEndsProbe(slots[..], hash, sig, key, i);
          return None;
        }
      }
      return None;
    }

    /** shard_cache_store. */
    method Store(sig: Sig, key: string, owner: Id)
      requires Valid()
      modifies this, slots
      ensures Valid() && history == old(history) + [Fact(sig, key, owner)]
      ensures var f := Fact(sig, key, owner);
              var others := set g | g in old(Held(slots[..])) && !(g.sig == sig && g.key == key);
              f in Held(slots[..]) && Held(slots[..]) <= others + {f}
              && (old(Holds(slots[..], sig, key)) || !old(Full(slots[..])) ==> Held(slots[..]) == others + {f})
      ensures exists i :: 0 <= i < slots.Length && slots[i] == Entry(true, sig, key, owner)
                          && forall k :: 0 <= k < slots.Length && k != i ==> slots[k] == old(slots[k])
    {
      var i := StoreSlot(sig, key);
      ghost var s, f := slots[..], Fact(sig, key, owner);
      StoreKeeps(s, hash, f, i);
      slots[i] := Entry(true, sig, key, owner);
      assert slots[..] == s[i := EntryOf(f)];
      StoreIsCurrent(s, slots[..], history, f);
      history := history + [f];
    }

    method StoreSlot(sig: Sig, key: string) returns (slot: nat)
      requires Valid()
      ensures IsStoreSlot(slots[..], hash, sig, key, slot)
    {
      var size := slots.Length;
      ghost var start := Home(hash, sig, key, size);
      for i := 0 to size
        invariant forall k :: 0 <= k < size && Scanned(start, i, size, k) ==> slots[k].inUse && !Matches(slots[k], sig, key)
      {
        WrappedProbe(hash(sig, key), i, size);
        var idx := (hash(sig, key) + i) % UINT32 % size;
        if Matches(slots[idx], sig, key) {
          assert Matches(slots[..][idx], sig, key);
          return idx;
        }
        if !slots[idx].inUse {
          EmptyEndsProbe(slots[..], hash, sig, key, i);
          return idx;
        }
      }
      return hash(sig, key) % size;
    }
  }

  lemma StoreIsCurrent(s: seq<Entry>, r: seq<Entry>, history: seq<Fact>, f: Fact)
    requires Current(s, history)
    requires Held(r) <= (set g | g in Held(s) && !SameKey(g, f.sig, f.key)) + {f}
    ensures Current(r, history + [f])
  {
    forall g | g in Held(r) ensures LastStored(history + [f], g.sig, g.key) == Some(g.owner) {
      LastOfExtended(history, f, g.sig, g.key);
    }
  }

  // ---------- one thread's ring ----------

  const RING: nat := 8

  /** The ring holds the latest results, the oldest of them next to be overwritten. */
  ghost predicate HoldsLatest(ring: seq<Entry>, history: seq<Fact>)
    requires |ring| == RING
  {
    && (forall k :: |history| <= k < RING ==> !ring[k].inUse)
    && (forall k :: 0 <= k < |history| && |history| <= k + RING ==> ring[k % RING] == EntryOf(history[k]))
  }

  /** No two of the latest results share a key. */
  ghost predicate LatestDistinct(history: seq<Fact>) {
    forall i, j :: 0 <= i < j < |history| && |history| <= i + RING ==> !SameKey(history[i], history[j].sig, history[j].key)
  }

  ghost predicate Latest(history: seq<Fact>, f: Fact) {
    exists k :: 0 <= k < |history| && |history| <= k + RING && history[k] == f
  }

  class ThreadCache {
    const ring: array<Entry>
    var pos: nat
    ghost var history: seq<Fact>

    ghost predicate Valid()
      reads this, ring
    {
      && ring.Length == RING && pos == |history| % RING
      && HoldsLatest(ring[..], history) && LatestDistinct(history)
    }

    constructor ()
      ensures Valid() && fresh(ring) && ring.Length == 8 && history == []
    {
      ring := new Entry[RING](_ => UNUSED);
      pos := 0;
      history := [];
    }

    /** thread_cache_lookup: a hit is exactly one of the latest results. */
    method Lookup(sig: Sig, key: string) returns (r: Option<Id>)
      requires Valid()
      ensures forall owner: Id :: r == Some(owner) <==> Latest(history, Fact(sig, key, owner))
    {
      for i := 0 to RING
        invariant forall j :: 0 <= j < i ==> !Matches(ring[j], sig, key)
      {
        if Matches(ring[i], sig, key) {
          HitIsLatest(ring[..], history, i, sig, key);
          return Some(ring[i].owner);
        }
      }
      forall owner: Id ensures !Latest(history, Fact(sig, key, owner)) {
        if Latest(history, Fact(sig, key, owner)) {
          LatestIsInRing(ring[..], history, Fact(sig, key, owner));
          assert false;
        }
      }
      return None;
    }

    /** thread_cache_store, called after a lookup that missed. */
    method Store(sig: Sig, key: string, owner: Id)
      requires Valid()
      requires forall o :: !Latest(history, Fact(sig, key, o))
      modifies this, ring
      ensures Valid() && history == old(history) + [Fact(sig, key, owner)]
    {
      ghost var s, h, f := ring[..], history, Fact(sig, key, owner);
      ring[pos] := Entry(true, sig, key, owner);
      pos := (pos + 1) % RING;
      history := history + [f];
      assert ring[..] == s[|h| % RING := EntryOf(f)];
      RingAdvances(s, h, f);
    }
  }

  lemma HitIsLatest(ring: seq<Entry>, history: seq<Fact>, i: nat, sig: Sig, key: string)
    requires |ring| == RING && HoldsLatest(ring, history) && LatestDistinct(history)
    requires i < RING && Matches(ring[i], sig, key)
    ensures forall owner: Id :: owner == ring[i].owner <==> Latest(history, Fact(sig, key, owner))
  {
    var k := SlotAge(ring, history, i);
    assert Latest(history, Fact(sig, key, ring[i].owner));
    forall owner | Latest(history, Fact(sig, key, owner)) ensures owner == ring[i].owner {
      var j :| 0 <= j < |history| && |history| <= j + RING && history[j] == Fact(sig, key, owner);
      SameLatest(history, j, k);
    }
  }

  lemma SameLatest(history: seq<Fact>, j: nat, k: nat)
    requires LatestDistinct(history) && j < |history| && k < |history|
    requires |history| <= j + RING && |history| <= k + RING
    requires SameKey(history[j], history[k].sig, history[k].key)
    ensures j == k
  {}

  lemma LatestIsInRing(ring: seq<Entry>, history: seq<Fact>, f: Fact)
    requires |ring| == RING && HoldsLatest(ring, history) && Latest(history, f)
    ensures exists i :: 0 <= i < RING && Matches(ring[i], f.sig, f.key)
  {
    var k :| 0 <= k < |history| && |history| <= k + RING && history[k] == f;
    assert Matches(ring[k % RING], f.sig, f.key);
  }

  /** The result a used slot holds is one of the latest. */
  lemma SlotAge(ring: seq<Entry>, history: seq<Fact>, i: nat) returns (k: nat)
    requires |ring| == RING && HoldsLatest(ring, history)
    requires i < RING && ring[i].inUse
    ensures k < |history| && |history| <= k + RING && k % RING == i && ring[i] == EntryOf(history[k])
  {
    var n := |history|;
    if n < RING {
      k := i;
    } else {
      k := n - RING + (i + RING - n % RING) % RING;
      LatestAt(n, i);
    }
  }

  lemma LatestAt(n: nat, i: nat)
    requires n >= RING && i < RING
    ensures (n - RING + (i + RING - n % RING) % RING) % RING == i
  {}

  lemma RingAdvances(ring: seq<Entry>, history: seq<Fact>, f: Fact)
    requires |ring| == RING && HoldsLatest(ring, history) && LatestDistinct(history)
    requires forall o :: !Latest(history, Fact(f.sig, f.key, o))
    ensures HoldsLatest(ring[|history| % RING := EntryOf(f)], history + [f]) && LatestDistinct(history + [f])
  {
    var h := history + [f];
    forall i | 0 <= i < |history| && |h| <= i + RING ensures !SameKey(history[i], f.sig, f.key) {
      assert history[i] == Fact(history[i].sig, history[i].key, history[i].owner);
      assert Latest(history, history[i]);
    }
  }

  // ---------- the whole lookup ----------

  /** Each fact is what the routers known under its signature make of its key. */
  ghost predicate Right(history: seq<Fact>, routersOf: Sig -> set<Id>, keyHash: string -> nat) {
    forall f :: f in history ==> Owns(f.owner, routersOf(f.sig), f.key, keyHash)
  }

  lemma {:induction false} LastIsStored(history: seq<Fact>, sig: Sig, key: string)
    ensures LastStored(history, sig, key).Some? ==> Fact(sig, key, LastStored(history, sig, key).value) in history
  {
    if history != [] && !SameKey(history[|history|-1], sig, key) {
      LastIsStored(history[..|history|-1], sig, key);
    }
  }

  class Locator {
    const self: Id
    const keyHash: string -> nat
    const mine: ThreadCache
    const shared: SharedCache

    ghost predicate Valid()
      reads this, mine, mine.ring, shared, shared.slots
    {
      mine.ring != shared.slots && mine.Valid() && shared.Valid()
    }

    constructor (self: Id, keyHash: string -> nat, mine: ThreadCache, shared: SharedCache)
      requires mine.ring != shared.slots && mine.Valid() && shared.Valid()
      ensures Valid() && this.self == self && this.keyHash == keyHash && this.mine == mine && this.shared == shared
    {
      this.self := self;
      this.keyHash := keyHash;
      this.mine := mine;
      this.shared := shared;
    }

    /** shard_owner_id_from_key: own thread, shared table, then the routers themselves.
        When signatures determine the routers, so far and now, the answer is the
        owner, cached or not. */
    method OwnerFromKey(key: string, sig: Sig, snapshot: seq<Election.Peer>, ghost routersOf: Sig -> set<Id>) returns (owner: Id)
      requires Valid() && DistinctPeers(snapshot)
      modifies mine, mine.ring, shared, shared.slots
      ensures Valid()
      ensures key == "" ==> owner == self && mine.history == old(mine.history) && shared.history == old(shared.history)
      ensures || (mine.history == old(mine.history) && shared.history == old(shared.history))
              || (mine.history == old(mine.history) + [Fact(sig, key, owner)]
                  && shared.history == old(shared.history) + [Fact(sig, key, owner)])
      ensures key != "" ==>
                || Latest(old(mine.history), Fact(sig, key, owner))
                || LastStored(old(shared.history), sig, key) == Some(owner)
                || Owns(owner, RouterIds(snapshot), key, keyHash)
                || (RouterIds(snapshot) == {} && owner == self)
      ensures old(Right(mine.history, routersOf, keyHash) && Right(shared.history, routersOf, keyHash))
              && RouterIds(snapshot) == routersOf(sig) ==>
                && Answers(owner, self, routersOf(sig), key, keyHash)
                && Right(mine.history, routersOf, keyHash) && Right(shared.history, routersOf, keyHash)
    {
      if key == "" {
        return self;
      }
      var hit := mine.Lookup(sig, key);
      if hit.Some? {
        assert Latest(mine.history, Fact(sig, key, hit.value));
        return hit.value;
      }
      hit := shared.Lookup(sig, key);
      if hit.Some? {
        LastIsStored(shared.history, sig, key);
        return hit.value;
      }
      var chosen := ChooseOwner(snapshot, key, keyHash);
      if chosen.None? {
        return self;
      }
      owner := chosen.value;
      shared.Store(sig, key, owner);
      mine.Store(sig, key, owner);
    }

    /** p2p_shard_owner_for_topic and p2p_shard_owner_for_filter: the key, then its
        owner. */
    method OwnerForName(name: string, sig: Sig, snapshot: seq<Election.Peer>, ghost routersOf: Sig -> set<Id>) returns (owner: Id)
      requires Valid() && DistinctPeers(snapshot)
      modifies mine, mine.ring, shared, shared.slots
      ensures Valid()
      ensures old(Right(mine.history, routersOf, keyHash) && Right(shared.history, routersOf, keyHash))
              && RouterIds(snapshot) == routersOf(sig) ==>
                && Answers(owner, self, routersOf(sig), KeyOf(name), keyHash)
                && Right(mine.history, routersOf, keyHash) && Right(shared.history, routersOf, keyHash)
    {
      var key := KeyFromStr(name);
      owner := OwnerFromKey(key, sig, snapshot, routersOf);
    }
  }
}
