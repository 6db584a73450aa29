/**
 The local subscription table in place: fixed slots threaded through integer
 links onto hash-bucket lists (exact filters) and one wildcard list, with the
 mesh notifications of the dynamic build.  The hash function is a parameter.

 `buckets` and `wild` are the lists the links spell out.
 */
module TopicTable {
  import opened Common
  import opened TopicFilter
  import opened TopicModel

  type Hash = string -> nat

  datatype Sub = Sub(client: ClientId, filter: string, qos: nat, inUse: bool,
                     exactNext: int, wildcardNext: int, isExact: bool)

  const NO_SLOT := -1
  const CLEARED := Sub(0, "", 0, false, 0, 0, false)
  const ID_MOD := 0x1_0000

  /** What a target of a QoS 1/2 fan-out carries. */
  datatype Target = Target(client: ClientId, qos: nat, packetId: nat)

  // ---------- chains of slots ----------

  function At(list: seq<nat>, k: nat): int {
    if k < |list| then list[k] else NO_SLOT
  }

  predicate Linked(next: seq<int>, list: seq<nat>, k: nat)
    requires k < |list|
  {
    list[k] < |next| && next[list[k]] == At(list, k + 1)
  }

  predicate InRange(list: seq<nat>, size: nat) {
    forall k :: 0 <= k < |list| ==> list[k] < size
  }

  /** Following `next` from `head` visits exactly `list`, each slot once. */
  ghost predicate IsChain(next: seq<int>, head: int, list: seq<nat>) {
    && NoDuplicates(list) && InRange(list, |next|)
    && head == At(list, 0)
    && forall k :: 0 <= k < |list| ==> Linked(next, list, k)
  }

  /** A list without one of its members. */
  function Erase(list: seq<nat>, x: nat): seq<nat> {
    if list == [] then []
    else if list[0] == x then list[1..]
    else [list[0]] + Erase(list[1..], x)
  }

  lemma {:induction false} EraseAt(list: seq<nat>, k: nat)
    requires NoDuplicates(list) && k < |list|
    ensures Erase(list, list[k]) == list[..k] + list[k+1..]
  {
    if k > 0 {
      EraseAt(list[1..], k - 1);
    }
  }

  lemma EraseMembers(list: seq<nat>, x: nat)
    requires NoDuplicates(list) && x in list
    ensures NoDuplicates(Erase(list, x)) && forall y :: y in Erase(list, x) <==> y in list && y != x
  {
    var k :| 0 <= k < |list| && list[k] == x;
    EraseAt(list, k);
    WithoutPlace(list, k);
  }

  lemma WithoutPlace(list: seq<nat>, k: nat)
    requires NoDuplicates(list) && k < |list|
    ensures var rest := list[..k] + list[k+1..];
            NoDuplicates(rest) && forall y :: y in rest <==> y in list && y != list[k]
  {
    var rest := list[..k] + list[k+1..];
    assert forall m :: 0 <= m < |rest| ==> rest[m] == list[if m < k then m else m + 1];
    forall y | y in list && y != list[k] ensures y in rest {
      var m :| 0 <= m < |list| && list[m] == y;
      assert rest[if m < k then m else m - 1] == y;
    }
  }

  lemma ChainInsert(next: seq<int>, head: int, list: seq<nat>, slot: nat)
    requires IsChain(next, head, list) && slot < |next| && slot !in list
    ensures IsChain(next[slot := head], slot, [slot] + list)
  {
    var next', list' := next[slot := head], [slot] + list;
    forall k | 0 <= k < |list'| ensures Linked(next', list', k) {
      assert k > 0 ==> Linked(next, list, k - 1);
    }
  }

  lemma ChainElsewhere(next: seq<int>, head: int, list: seq<nat>, slot: nat, x: int)
    requires IsChain(next, head, list) && slot < |next| && slot !in list
    ensures IsChain(next[slot := x], head, list)
  {
    var next' := next[slot := x];
    forall k | 0 <= k < |list| ensures Linked(next', list, k) {
      assert Linked(next, list, k);
    }
  }

  lemma ChainRemove(next: seq<int>, head: int, list: seq<nat>, k: nat)
    requires IsChain(next, head, list) && k < |list|
    ensures list[k] < |next|
    ensures var list' := Erase(list, list[k]);
            if k == 0 then IsChain(next, next[list[k]], list')
            else list[k-1] < |next| && IsChain(next[list[k-1] := next[list[k]]], head, list')
  {
    EraseAt(list, k);
    EraseMembers(list, list[k]);
    assert Linked(next, list, k);
    if k > 0 {
      assert Linked(next, list, k - 1);
      RelinkAround(next, list, k);
    } else {
      assert Erase(list, list[0]) == list[1..];
      forall i | 0 <= i < |list| - 1 ensures Linked(next, list[1..], i) {
        assert Linked(next, list, i + 1);
      }
    }
  }

  /** The element before place k is linked past it. */
  lemma RelinkAround(next: seq<int>, list: seq<nat>, k: nat)
    requires NoDuplicates(list) && InRange(list, |next|) && 0 < k < |list|
    requires forall i :: 0 <= i < |list| ==> Linked(next, list, i)
    ensures var next', list' := next[list[k-1] := next[list[k]]], list[..k] + list[k+1..];
            forall i :: 0 <= i < |list'| ==> Linked(next', list', i)
  {
    var next', list' := next[list[k-1] := next[list[k]]], list[..k] + list[k+1..];
    assert Linked(next, list, k);
    forall i | 0 <= i < |list'| ensures Linked(next', list', i) {
      var was := if i < k then i else i + 1;
      assert list'[i] == list[was] && Linked(next, list, was);
    }
  }

  // ---------- the threaded table ----------

  function ExactLinks(s: seq<Sub>): seq<int> {
    seq(|s|, i requires 0 <= i < |s| => s[i].exactNext)
  }

  function WildLinks(s: seq<Sub>): seq<int> {
    seq(|s|, i requires 0 <= i < |s| => s[i].wildcardNext)
  }

  function SlotOf(s: Sub): Slot {
    if s.inUse then Live(s.client, s.filter, s.qos) else Free
  }

  function SlotsOf(s: seq<Sub>): (r: seq<Slot>)
    ensures |r| == |s| && forall i :: 0 <= i < |s| ==> r[i] == SlotOf(s[i])
  {
    seq(|s|, i requires 0 <= i < |s| => SlotOf(s[i]))
  }

  function Bucket(hash: Hash, filter: string, size: nat): (r: nat)
    requires size > 0
    ensures r < size
  {
    hash(filter) % size
  }

  /** Every list is a chain of slots that belong on it. */
  ghost predicate Chains(s: seq<Sub>, heads: seq<int>, wildHead: int, buckets: seq<seq<nat>>, wild: seq<nat>, hash: Hash) {
    && |heads| == |s| == |buckets| && |s| > 0
    && (forall b :: 0 <= b < |buckets| ==> IsChain(ExactLinks(s), heads[b], buckets[b]))
    && (forall b, k :: 0 <= b < |buckets| && 0 <= k < |buckets[b]| ==> Bucket(hash, s[buckets[b][k]].filter, |s|) == b)
    && IsChain(WildLinks(s), wildHead, wild)
  }

  /** The lists partition the live slots. */
  ghost predicate Partitioned(s: seq<Sub>, buckets: seq<seq<nat>>, wild: seq<nat>, hash: Hash)
    requires |s| == |buckets| && |s| > 0
  {
    && (forall i, b :: 0 <= i < |s| && 0 <= b < |buckets| ==>
          (i in buckets[b] <==> s[i].inUse && IsExact(s[i].filter) && b == Bucket(hash, s[i].filter, |s|)))
    && (forall i :: 0 <= i < |s| ==> (i in wild <==> s[i].inUse && !IsExact(s[i].filter)))
    && (forall i :: 0 <= i < |s| && s[i].inUse ==> (s[i].isExact <==> IsExact(s[i].filter)))
  }

  /** Slots differing in their links only. */
  ghost predicate SameData(s: seq<Sub>, s': seq<Sub>) {
    |s'| == |s| && forall i :: 0 <= i < |s| ==> s'[i] == s[i].(exactNext := s'[i].exactNext, wildcardNext := s'[i].wildcardNext)
  }

  /** One slot's data written, no link touched. */
  ghost predicate DataWritten(s: seq<Sub>, s': seq<Sub>, i: nat) {
    && i < |s| && |s'| == |s| && s' == s[i := s'[i]]
    && s'[i].exactNext == s[i].exactNext && s'[i].wildcardNext == s[i].wildcardNext
  }

  lemma ChainsAfterWrite(s: seq<Sub>, s': seq<Sub>, i: nat, heads: seq<int>, wildHead: int,
                         buckets: seq<seq<nat>>, wild: seq<nat>, hash: Hash)
    requires Chains(s, heads, wildHead, buckets, wild, hash) && DataWritten(s, s', i)
    requires s'[i].filter == s[i].filter || forall b :: 0 <= b < |buckets| ==> i !in buckets[b]
    ensures Chains(s', heads, wildHead, buckets, wild, hash)
  {
    assert ExactLinks(s') == ExactLinks(s) && WildLinks(s') == WildLinks(s);
    forall b, k | 0 <= b < |buckets| && 0 <= k < |buckets[b]|
      ensures Bucket(hash, s'[buckets[b][k]].filter, |s'|) == b {
      assert buckets[b][k] in buckets[b];
    }
  }

  lemma BucketsShrink(s: seq<Sub>, buckets: seq<seq<nat>>, b: nat, slot: nat, hash: Hash)
    requires |s| > 0 && b < |buckets| && NoDuplicates(buckets[b]) && slot in buckets[b]
    requires forall c, k :: 0 <= c < |buckets| && 0 <= k < |buckets[c]| ==>
               buckets[c][k] < |s| && Bucket(hash, s[buckets[c][k]].filter, |s|) == c
    ensures var buckets' := buckets[b := Erase(buckets[b], slot)];
            forall c, k :: 0 <= c < |buckets'| && 0 <= k < |buckets'[c]| ==>
              buckets'[c][k] < |s| && Bucket(hash, s[buckets'[c][k]].filter, |s|) == c
  {
    var buckets' := buckets[b := Erase(buckets[b], slot)];
    EraseMembers(buckets[b], slot);
    forall c, k | 0 <= c < |buckets'| && 0 <= k < |buckets'[c]|
      ensures buckets'[c][k] < |s| && Bucket(hash, s[buckets'[c][k]].filter, |s|) == c {
      assert buckets'[c][k] in buckets'[c];
      var m :| 0 <= m < |buckets[c]| && buckets[c][m] == buckets'[c][k];
    }
  }

  lemma SlotsAfterWrite(s: seq<Sub>, s': seq<Sub>, i: nat)
    requires DataWritten(s, s', i)
    ensures SlotsOf(s') == SlotsOf(s)[i := SlotOf(s'[i])]
  {}

  lemma SameSlots(s: seq<Sub>, s': seq<Sub>)
    requires SameData(s, s')
    ensures SlotsOf(s') == SlotsOf(s)
  {}

  /** The partition after a slot joins the one list it belongs on. */
  lemma PartitionAfterFill(s: seq<Sub>, s': seq<Sub>, i: nat, buckets: seq<seq<nat>>, wild: seq<nat>,
                           buckets': seq<seq<nat>>, wild': seq<nat>, hash: Hash)
    requires 0 < |s| == |buckets| == |s'| && i < |s| && Partitioned(s, buckets, wild, hash) && !s[i].inUse
    requires SameData(s[i := s'[i]], s') && s'[i].inUse && (s'[i].isExact <==> IsExact(s'[i].filter))
    requires var b := Bucket(hash, s'[i].filter, |s|);
             if s'[i].isExact then wild' == wild && buckets' == buckets[b := [i] + buckets[b]]
             else wild' == [i] + wild && buckets' == buckets
    ensures Partitioned(s', buckets', wild', hash)
  {}

  /** The partition after a slot leaves its list. */
  lemma PartitionAfterFree(s: seq<Sub>, s': seq<Sub>, i: nat, buckets: seq<seq<nat>>, wild: seq<nat>,
                           buckets': seq<seq<nat>>, wild': seq<nat>, hash: Hash)
    requires 0 < |s| == |buckets| == |s'| && i < |s| && Partitioned(s, buckets, wild, hash) && s[i].inUse
    requires SameData(s[i := s[i].(inUse := false)], s')
    requires NoDuplicates(wild) && forall b :: 0 <= b < |buckets| ==> NoDuplicates(buckets[b])
    requires |buckets'| == |buckets|
    requires var b := Bucket(hash, s[i].filter, |s|);
             if s[i].isExact then wild' == wild && buckets' == buckets[b := Erase(buckets[b], i)]
             else wild' == Erase(wild, i) && buckets' == buckets
    ensures Partitioned(s', buckets', wild', hash)
  {
    if s[i].isExact {
      EraseMembers(buckets[Bucket(hash, s[i].filter, |s|)], i);
    } else {
      EraseMembers(wild, i);
    }
  }

  class Table {
    const subs: array<Sub>
    const heads: array<int>
    const nextId: array<nat>
    const hash: Hash
    var wildHead: int
    var notes: seq<Note>
    ghost var buckets: seq<seq<nat>>
    ghost var wild: seq<nat>

    ghost predicate Threaded()
      reads this, subs, heads
    {
      Chains(subs[..], heads[..], wildHead, buckets, wild, hash)
    }

    ghost function View(): seq<Slot>
      reads this, subs
    {
      SlotsOf(subs[..])
    }

    ghost predicate Valid()
      reads this, subs, heads, nextId
    {
      && Threaded()
      && Partitioned(subs[..], buckets, wild, hash)
      && Unique(View())
      && Mirrors(notes, View()) && AllEffective(notes)
      && (forall i :: 0 <= i < subs.Length && View()[i].Live? ==> View()[i].client < nextId.Length)
      && (forall c :: 0 <= c < nextId.Length ==> nextId[c] < ID_MOD)
    }

    /** topic_init. */
    constructor (size: nat, clients: nat, hash: Hash)
      requires size > 0
      ensures Valid() && notes == [] && wild == []
      ensures |View()| == size && forall i :: 0 <= i < size ==> View()[i] == Free
      ensures this.hash == hash && nextId.Length == clients
      ensures fresh(subs) && fresh(heads) && fresh(nextId)
    {
      this.hash := hash;
      subs := new Sub[size](_ => CLEARED);
      heads := new int[size](_ => NO_SLOT);
      nextId := new nat[clients](_ => 0);
      wildHead := NO_SLOT;
      notes := [];
      buckets := seq(size, _ => []);
      wild := [];
      new;
      forall f ensures Summary(View(), f) == None {
        SummaryIsMaximum(View(), f);
      }
    }

    // ---------- list surgery ----------

    method ExactListInsert(slot: nat)
      requires Threaded() && slot < subs.Length
      requires forall b :: 0 <= b < |buckets| ==> slot !in buckets[b]
      modifies this`buckets, subs, heads
      ensures Threaded() && SameData(old(subs[..]), subs[..])
      ensures var b := Bucket(hash, old(subs[slot]).filter, subs.Length);
              buckets == old(buckets)[b := [slot] + old(buckets[b])]
    {
      var b := Bucket(hash, subs[slot].filter, subs.Length);
      ghost var links := ExactLinks(subs[..]);
      ChainInsert(links, heads[b], buckets[b], slot);
      forall c | 0 <= c < |buckets| ensures IsChain(links[slot := heads[b]], heads[c], buckets[c]) {
        ChainElsewhere(links, heads[c], buckets[c], slot, heads[b]);
      }
      subs[slot] := subs[slot].(exactNext := heads[b]);
      heads[b] := slot;
      buckets := buckets[b := [slot] + buckets[b]];
      assert ExactLinks(subs[..]) == links[slot := old(heads[b])];
      assert WildLinks(subs[..]) == WildLinks(old(subs[..]));
    }

    method WildcardListInsert(slot: nat)
      requires Threaded() && slot < subs.Length && slot !in wild
      modifies this`wild, this`wildHead, subs
      ensures Threaded() && SameData(old(subs[..]), subs[..])
      ensures wild == [slot] + old(wild)
    {
      ChainInsert(WildLinks(subs[..]), wildHead, wild, slot);
      subs[slot] := subs[slot].(wildcardNext := wildHead);
      wildHead := slot;
      wild := [slot] + wild;
      assert WildLinks(subs[..]) == WildLinks(old(subs[..]))[slot := old(wildHead)];
      assert ExactLinks(subs[..]) == ExactLinks(old(subs[..]));
    }

    /** The write through the link that leads to the slot. */
    method UnlinkExact(b: nat, ghost k: nat, prev: int, slot: nat)
      requires Threaded() && b < |buckets| && k < |buckets[b]| && buckets[b][k] == slot
      requires prev == if k == 0 then NO_SLOT else buckets[b][k-1]
      modifies this`buckets, subs, heads
      ensures Threaded() && SameData(old(subs[..]), subs[..])
      ensures buckets == old(buckets)[b := Erase(old(buckets[b]), slot)]
    {
      ghost var s0, h0 := subs[..], heads[..];
      ChainRemove(ExactLinks(s0), heads[b], buckets[b], k);
      if prev < 0 {
        heads[b] := subs[slot].exactNext;
        assert heads[..] == h0[b := s0[slot].exactNext] && subs[..] == s0;
      } else {
        BucketsApart(b, prev, ExactLinks(s0)[slot]);
        subs[prev] := subs[prev].(exactNext := subs[slot].exactNext);
        assert subs[..] == s0[prev := s0[prev].(exactNext := s0[slot].exactNext)];
        assert ExactLinks(subs[..]) == ExactLinks(s0)[prev := ExactLinks(s0)[slot]];
      }
      assert WildLinks(subs[..]) == WildLinks(s0);
      buckets := buckets[b := Erase(buckets[b], slot)];
      BucketsShrink(s0, old(buckets), b, slot, hash);
    }

    /** The link walk: `prev` is the slot whose link is `link`, or none for the head. */
    method ExactListRemove(slot: nat)
      requires Threaded() && slot < subs.Length
      requires slot in buckets[Bucket(hash, subs[slot].filter, subs.Length)]
      modifies this`buckets, subs, heads
      ensures Threaded() && SameData(old(subs[..]), subs[..])
      ensures var b := Bucket(hash, old(subs[slot]).filter, subs.Length);
              buckets == old(buckets)[b := Erase(old(buckets[b]), slot)]
    {
      var b := Bucket(hash, subs[slot].filter, subs.Length);
      ghost var list := buckets[b];
      var prev, link := NO_SLOT, heads[b];
      ghost var k := 0;
      while link >= 0
        invariant 0 <= k <= |list| && link == At(list, k) && prev == (if k == 0 then NO_SLOT else list[k-1])
        invariant slot !in list[..k]
        invariant subs[..] == old(subs[..]) && heads[..] == old(heads[..]) && buckets == old(buckets)
        decreases |list| - k
      {
        assert Linked(ExactLinks(subs[..]), list, k);
        if link == slot {
          UnlinkExact(b, k, prev, slot);
          return;
        }
        prev := link;
        link := subs[link].exactNext;
        k := k + 1;
      }
    }

    /** Changing one slot's link leaves the chains of the other buckets alone. */
    lemma BucketsApart(b: nat, slot: nat, x: int)
      requires Threaded() && b < |buckets| && slot in buckets[b]
      ensures forall c :: 0 <= c < |buckets| && c != b ==> IsChain(ExactLinks(subs[..])[slot := x], heads[c], buckets[c])
    {
      forall c | 0 <= c < |buckets| && c != b
        ensures IsChain(ExactLinks(subs[..])[slot := x], heads[c], buckets[c])
      {
        ChainElsewhere(ExactLinks(subs[..]), heads[c], buckets[c], slot, x);
      }
    }

    method WildcardListRemove(slot: nat)
      requires Threaded() && slot < subs.Length && slot in wild
      modifies this`wild, this`wildHead, subs
      ensures Threaded() && SameData(old(subs[..]), subs[..])
      ensures wild == Erase(old(wild), slot)
    {
      ghost var links := WildLinks(subs[..]);
      var prev, link := NO_SLOT, wildHead;
      ghost var k := 0;
      while link >= 0
        invariant 0 <= k <= |wild| && link == At(wild, k) && prev == (if k == 0 then NO_SLOT else wild[k-1])
        invariant slot !in wild[..k]
        invariant subs[..] == old(subs[..]) && wildHead == old(wildHead) && wild == old(wild)
        decreases |wild| - k
      {
        assert Linked(links, wild, k);
        if link == slot {
          ChainRemove(links, wildHead, wild, k);
          if prev < 0 {
            wildHead := subs[slot].wildcardNext;
          } else {
            subs[prev] := subs[prev].(wildcardNext := subs[slot].wildcardNext);
            assert WildLinks(subs[..]) == links[prev := links[slot]];
          }
          wild := Erase(wild, slot);
          assert ExactLinks(subs[..]) == ExactLinks(old(subs[..]));
          return;
        }
        prev := link;
        link := subs[link].wildcardNext;
        k := k + 1;
      }
    }

    // ---------- one slot in or out ----------

    ghost predicate Listed()
      reads this, subs, heads
    {
      Threaded() && Partitioned(subs[..], buckets, wild, hash)
    }

    /** A free slot filled and put on the list its filter belongs on. */
    method FillSlot(i: nat, client: ClientId, filter: string, qos: nat)
      requires Listed() && i < subs.Length && !subs[i].inUse
      modifies this`buckets, this`wild, this`wildHead, subs, heads
      ensures Listed() && View() == old(View())[i := Live(client, filter, qos)]
      ensures wild == if IsExact(filter) then old(wild) else [i] + old(wild)
    {
      ghost var s0 := subs[..];
      subs[i] := Sub(client, filter, qos, true, subs[i].exactNext, subs[i].wildcardNext, IsExact(filter));
      ghost var s1 := subs[..];
      ChainsAfterWrite(s0, s1, i, heads[..], wildHead, buckets, wild, hash);
      SlotsAfterWrite(s0, s1, i);
      if subs[i].isExact {
        ExactListInsert(i);
      } else {
        WildcardListInsert(i);
      }
      SameSlots(s1, subs[..]);
      PartitionAfterFill(s0, subs[..], i, old(buckets), old(wild), buckets, wild, hash);
    }

    /** A live slot taken off its list and freed. */
    method FreeSlot(i: nat)
      requires Listed() && i < subs.Length && subs[i].inUse
      modifies this`buckets, this`wild, this`wildHead, subs, heads
      ensures Listed() && View() == old(View())[i := Free]
      ensures wild == if IsExact(old(subs[i]).filter) then old(wild) else Erase(old(wild), i)
    {
      ghost var s0 := subs[..];
      if subs[i].isExact {
        ExactListRemove(i);
      } else {
        WildcardListRemove(i);
      }
      ghost var s1 := subs[..];
      SameSlots(s0, s1);
      subs[i] := subs[i].(inUse := false);
      ChainsAfterWrite(s1, subs[..], i, heads[..], wildHead, buckets, wild, hash);
      SlotsAfterWrite(s1, subs[..], i);
      PartitionAfterFree(s0, subs[..], i, old(buckets), old(wild), buckets, wild, hash);
    }

    method WriteQos(i: nat, qos: nat)
      requires Listed() && i < subs.Length && subs[i].inUse
      modifies subs
      ensures Listed() && View() == old(View())[i := Live(old(subs[i]).client, old(subs[i]).filter, qos)]
    {
      ghost var s0 := subs[..];
      subs[i] := subs[i].(qos := qos);
      ChainsAfterWrite(s0, subs[..], i, heads[..], wildHead, buckets, wild, hash);
      SlotsAfterWrite(s0, subs[..], i);
    }

    // ---------- the operations ----------

    /** filter_stats_locked. */
    method FilterStats(filter: string) returns (count: nat, best: nat)
      ensures (count, best) == Stats(View(), filter, subs.Length)
    {
      count, best := 0, 0;
      for i := 0 to subs.Length
        invariant (count, best) == Stats(View(), filter, i)
      {
        if subs[i].inUse && subs[i].filter == filter {
          count := count + 1;
          if subs[i].qos > best {
            best := subs[i].qos;
          }
        }
      }
    }

    /** Append the call that tells the mesh of a filter's new largest QoS, or that
        it is gone. */
    method Notify(note: Note, ghost v: seq<Slot>, ghost v': seq<Slot>)
      requires Mirrors(notes, v) && AllEffective(notes)
      requires forall f :: f != note.filter ==> Summary(v', f) == Summary(v, f)
      requires match note
               case Advertise(f, q) => Summary(v', f) == Some(q) && Summary(v, f) != Some(q)
               case Withdraw(f) => Summary(v', f) == None && Summary(v, f) != None
      modifies this`notes
      ensures Mirrors(notes, v') && AllEffective(notes) && notes == old(notes) + [note]
    {
      NoteChange(notes, note, v, v');
      notes := notes + [note];
    }

    /** The pass of topic_subscribe over the table. */
    method Scan(client: ClientId, filter: string) returns (freeSlot: nat, found: nat, count: nat, best: nat)
      requires Unique(View())
      ensures freeSlot == FirstWhere(View(), IsFree, 0) && found == FindOwned(View(), client, filter, 0)
      ensures (count, best) == Stats(View(), filter, subs.Length)
    {
      ghost var v := View();
      freeSlot, found := subs.Length, subs.Length;
      count, best := 0, 0;
      for i := 0 to subs.Length
        invariant (count, best) == Stats(v, filter, i)
        invariant freeSlot <= subs.Length && found <= subs.Length
        invariant if freeSlot < subs.Length then freeSlot == FirstWhere(v, IsFree, 0) else FirstWhere(v, IsFree, 0) == FirstWhere(v, IsFree, i)
        invariant found < subs.Length ==> found < i && Owns(v[found], client, filter)
        invariant found == subs.Length ==> forall k :: 0 <= k < i ==> !Owns(v[k], client, filter)
      {
        if !subs[i].inUse {
          if freeSlot == subs.Length { freeSlot := i; }
          continue;
        }
        if subs[i].filter == filter {
          count := count + 1;
          if subs[i].qos > best { best := subs[i].qos; }
          if subs[i].client == client {
            found := i;
          }
        }
      }
    }

    /** topic_subscribe: update the client's slot for the filter or fill the first
        free one, and advertise when the filter's largest QoS changes. */
    method Subscribe(client: ClientId, filter: string, qos: nat) returns (ok: bool)
      requires Valid() && qos <= 2 && client < nextId.Length
      modifies this, subs, heads
      ensures Valid()
      ensures View() == Subscribed(old(View()), client, filter, qos)
      ensures ok <==> CanStore(old(View()), client, filter)
      ensures old(notes) <= notes && |notes| <= |old(notes)| + 1
      ensures var i := SubscribeSlot(old(View()), client, filter);
              wild == if i < subs.Length && old(View())[i].Free? && !IsExact(filter) then [i] + old(wild) else old(wild)
    {
      ghost var v := View();
      SubscribedUnique(v, client, filter, qos);
      SubscribedMeaning(v, client, filter, qos);
      var freeSlot, found, oldCount, oldMax := Scan(client, filter);
      if found < subs.Length {
        UpdateQos(found, qos, oldMax);
        return true;
      }
      if freeSlot < subs.Length {
        FillFree(freeSlot, client, filter, qos, oldCount, oldMax);
        return true;
      }
      return false;
    }

    /** The client already holds the filter: its QoS is replaced. */
    method UpdateQos(i: nat, qos: nat, oldMax: nat)
      requires Valid() && i < subs.Length && subs[i].inUse
      requires oldMax == Stats(View(), subs[i].filter, subs.Length).1
      requires Unique(View()[i := Live(subs[i].client, subs[i].filter, qos)])
      modifies this`notes, subs
      ensures Valid()
      ensures View() == old(View())[i := Live(old(subs[i]).client, old(subs[i]).filter, qos)]
      ensures old(notes) <= notes && |notes| <= |old(notes)| + 1
    {
      ghost var v := View();
      var filter, oldQos := subs[i].filter, subs[i].qos;
      WriteQos(i, qos);
      ghost var v' := View();
      ClientsAfterWrite(v, v', i, nextId.Length);
      var newMax: nat;
      if qos >= oldMax {
        newMax := qos;
      } else if oldQos < oldMax {
        newMax := oldMax;
      } else {
        var count;
        count, newMax := FilterStats(filter);
      }
      SummaryAfterUpdate(v, i, qos, newMax);
      if newMax != oldMax {
        Notify(Advertise(filter, newMax), v, v');
      } else {
        SameSummary(notes, v, v', filter);
      }
    }

    /** A new subscription in a free slot. */
    method FillFree(i: nat, client: ClientId, filter: string, qos: nat, oldCount: nat, oldMax: nat)
      requires Valid() && i < subs.Length && !subs[i].inUse && client < nextId.Length
      requires (oldCount, oldMax) == Stats(View(), filter, subs.Length)
      requires Unique(View()[i := Live(client, filter, qos)])
      modifies this, subs, heads
      ensures Valid() && View() == old(View())[i := Live(client, filter, qos)]
      ensures old(notes) <= notes && |notes| <= |old(notes)| + 1
      ensures wild == if IsExact(filter) then old(wild) else [i] + old(wild)
    {
      ghost var v := View();
      FillSlot(i, client, filter, qos);
      ClientsAfterWrite(v, View(), i, nextId.Length);
      NotifyFilled(i, client, filter, qos, oldCount, oldMax, v);
    }

    /** The mesh is told when a new subscription is its filter's first, or its largest. */
    method NotifyFilled(i: nat, client: ClientId, filter: string, qos: nat, oldCount: nat, oldMax: nat, ghost v: seq<Slot>)
      requires Mirrors(notes, v) && AllEffective(notes)
      requires i < |v| && v[i].Free? && View() == v[i := Live(client, filter, qos)]
      requires (oldCount, oldMax) == Stats(v, filter, |v|)
      modifies this`notes
      ensures Mirrors(notes, View()) && AllEffective(notes)
      ensures old(notes) <= notes && |notes| <= |old(notes)| + 1
    {
      SummaryAfterWrite(v, i, client, filter, qos);
      StatsMeaning(v, filter, |v|);
      var newMax := if qos > oldMax then qos else oldMax;
      if oldCount == 0 || newMax != oldMax {
        Notify(Advertise(filter, newMax), v, View());
      } else {
        SameSummary(notes, v, View(), filter);
      }
    }

    /** topic_unsubscribe. */
    method Unsubscribe(client: ClientId, filter: string)
      requires Valid()
      modifies this, subs, heads
      ensures Valid() && View() == Unsubscribed(old(View()), client, filter)
      ensures forall i :: 0 <= i < subs.Length ==>
                View()[i] == var s := old(View())[i]; if s.Live? && s.client == client && s.filter == filter then Free else s
      ensures old(notes) <= notes && |notes| <= |old(notes)| + 1
      ensures var i := FindOwned(old(View()), client, filter, 0);
              wild == if i < subs.Length && !IsExact(filter) then Erase(old(wild), i) else old(wild)
    {
      UnsubscribedMeaning(View(), client, filter);
      var freeSlot, target, oldCount, oldMax := Scan(client, filter);
      if target < subs.Length {
        ghost var v := View();
        var removedQos := subs[target].qos;
        FreeUnique(v, target);
        FreeSlot(target);
        ClientsAfterWrite(v, View(), target, nextId.Length);
        NotifyRemoved(target, filter, removedQos, oldCount, oldMax, v);
      }
    }

    /** The mesh is told when the removed subscription was its filter's only, or its
        largest; the count is known, so a smaller one needs no pass. */
    method NotifyRemoved(i: nat, filter: string, removedQos: nat, oldCount: nat, oldMax: nat, ghost v: seq<Slot>)
      requires Mirrors(notes, v) && AllEffective(notes)
      requires i < |v| && Has(v[i], filter) && v[i].qos == removedQos && View() == v[i := Free]
      requires (oldCount, oldMax) == Stats(v, filter, |v|)
      modifies this`notes
      ensures Mirrors(notes, View()) && AllEffective(notes)
      ensures old(notes) <= notes && |notes| <= |old(notes)| + 1
    {
      SummaryAfterFree(v, i);
      if oldCount == 1 {
        Notify(Withdraw(filter), v, View());
      } else if removedQos >= oldMax {
        var count, newMax := FilterStats(filter);
        if newMax != oldMax {
          Notify(Advertise(filter, newMax), v, View());
        } else {
          SameSummary(notes, v, View(), filter);
        }
      } else {
        SameSummary(notes, v, View(), filter);
      }
    }

    /** topic_unsubscribe_all: one slot at a time, each with its notification. */
    method UnsubscribeAll(client: ClientId)
      requires Valid()
      modifies this, subs, heads
      ensures Valid() && View() == WithoutClient(old(View()), client)
      ensures old(notes) <= notes
      ensures InRange(old(wild), subs.Length) && wild == OfOthers(old(wild), old(View()), client)
    {
      ghost var v0 := View();
      ghost var done := 0;
      while true
        invariant Valid() && old(notes) <= notes && Cleared(v0, View(), client, done)
        invariant InRange(wild, |v0|) && InRange(old(wild), |v0|)
        invariant OfOthers(wild, v0, client) == OfOthers(old(wild), v0, client)
        decreases subs.Length - done
      {
        var i := FirstOf(client);
        if i == subs.Length {
          ClearedAll(v0, View(), client, done, wild);
          return;
        }
        assert done <= i && IsClients(v0[i], client);
        OthersAfterErase(wild, v0, client, i);
        RemoveOne(i);
        done := i + 1;
      }
    }

    method FirstOf(client: ClientId) returns (i: nat)
      ensures i <= subs.Length && forall k :: 0 <= k < i ==> !IsClients(View()[k], client)
      ensures i < subs.Length ==> IsClients(View()[i], client)
    {
      i := 0;
      while i < subs.Length && !(subs[i].inUse && subs[i].client == client)
        invariant i <= subs.Length && forall k :: 0 <= k < i ==> !IsClients(View()[k], client)
      {
        i := i + 1;
      }
    }

    method RemoveOne(i: nat)
      requires Valid() && i < subs.Length && subs[i].inUse
      modifies this, subs, heads
      ensures Valid() && View() == old(View())[i := Free]
      ensures old(notes) <= notes && |notes| <= |old(notes)| + 1
      ensures wild == if IsExact(old(subs[i]).filter) then old(wild) else Erase(old(wild), i)
    {
      ghost var v := View();
      var removed := subs[i].filter;
      var oldCount, oldMax := FilterStats(removed);
      FreeUnique(v, i);
      SummaryAfterFree(v, i);
      FreeSlot(i);
      ghost var v' := View();
      ClientsAfterWrite(v, v', i, nextId.Length);
      NotifyFreed(removed, oldCount, oldMax, v);
    }

    /** The mesh is told when a freed subscription was its filter's last, or its largest. */
    method NotifyFreed(removed: string, oldCount: nat, oldMax: nat, ghost v: seq<Slot>)
      requires Mirrors(notes, v) && AllEffective(notes) && |v| == subs.Length
      requires (oldCount, oldMax) == Stats(v, removed, |v|) && oldCount > 0
      requires forall f :: f != removed ==> Summary(View(), f) == Summary(v, f)
      modifies this`notes
      ensures Mirrors(notes, View()) && AllEffective(notes)
      ensures old(notes) <= notes && |notes| <= |old(notes)| + 1
    {
      var newCount, newMax := FilterStats(removed);
      if oldCount > 0 && newCount == 0 {
        Notify(Withdraw(removed), v, View());
      } else if newCount > 0 && newMax != oldMax {
        Notify(Advertise(removed, newMax), v, View());
      } else {
        SameSummary(notes, v, View(), removed);
      }
    }

    // ---------- fan-out ----------

    /** topic_publish_qos0_locked: each subscriber once. */
    method PublishQos0(topic: string) returns (targets: seq<ClientId>)
      requires Valid()
      ensures NoDuplicates(targets) && Elements(targets) == Subscribers(View(), topic)
    {
      targets := ExactWalk0(topic);
      targets := WildcardWalk0(topic, targets);
      HitsAreSubscribers(subs[..], buckets, wild, hash, topic);
    }

    /** The dedup loop and the append. */
    method AddClient(targets: seq<ClientId>, client: ClientId) returns (out: seq<ClientId>)
      requires NoDuplicates(targets)
      ensures NoDuplicates(out) && Elements(out) == Elements(targets) + {client}
    {
      var dup := false;
      for d := 0 to |targets|
        invariant dup <==> client in targets[..d]
      {
        if targets[d] == client {
          dup := true;
          break;
        }
      }
      assert dup <==> client in targets;
      out := if dup then targets else targets + [client];
    }

    method ExactWalk0(topic: string) returns (targets: seq<ClientId>)
      requires Listed()
      ensures var list := buckets[Bucket(hash, topic, subs.Length)];
              InRange(list, |View()|) && NoDuplicates(targets) && Elements(targets) == Hits(View(), list, |list|, topic)
    {
      targets := [];
      var b := Bucket(hash, topic, subs.Length);
      ghost var list := buckets[b];
      var idx := heads[b];
      ghost var k := 0;
      while idx >= 0
        invariant 0 <= k <= |list| && idx == At(list, k)
        invariant NoDuplicates(targets) && Elements(targets) == Hits(View(), list, k, topic)
        decreases |list| - k
      {
        assert Linked(ExactLinks(subs[..]), list, k);
        HitsStep(View(), list, k, topic);
        ListedExact(b, k, topic);
        if subs[idx].inUse && subs[idx].filter == topic {
          targets := AddClient(targets, subs[idx].client);
        }
        idx := subs[idx].exactNext;
        k := k + 1;
      }
    }

    method WildcardWalk0(topic: string, found: seq<ClientId>) returns (targets: seq<ClientId>)
      requires Listed() && NoDuplicates(found)
      ensures InRange(wild, |View()|) && NoDuplicates(targets)
      ensures Elements(targets) == Elements(found) + Hits(View(), wild, |wild|, topic)
    {
      targets := found;
      var idx := wildHead;
      ghost var k := 0;
      while idx >= 0
        invariant 0 <= k <= |wild| && idx == At(wild, k)
        invariant NoDuplicates(targets) && Elements(targets) == Elements(found) + Hits(View(), wild, k, topic)
        decreases |wild| - k
      {
        assert Linked(WildLinks(subs[..]), wild, k);
        HitsStep(View(), wild, k, topic);
        var matches := SlotMatches(idx, topic);
        if matches {
          targets := AddClient(targets, subs[idx].client);
        }
        idx := subs[idx].wildcardNext;
        k := k + 1;
      }
    }

    /** A slot on an exact list matches the topic just when it names it. */
    lemma ListedExact(b: nat, k: nat, topic: string)
      requires Listed() && b < |buckets| && k < |buckets[b]|
      ensures var s := subs[buckets[b][k]]; s.inUse && IsExact(s.filter) && (TopicMatch(s.filter, topic) <==> s.filter == topic)
    {
      assert buckets[b][k] in buckets[b];
      assert Linked(ExactLinks(subs[..]), buckets[b], k);
      ExactMatchesItself(subs[buckets[b][k]].filter, topic, true);
    }

    /** add_qos_delivery_target_locked. */
    method AddTarget(targets: seq<Target>, qos: nat, idx: nat) returns (out: seq<Target>)
      requires idx < subs.Length && subs[idx].client < nextId.Length
      modifies nextId
      ensures |out| == |targets| + 1 && out[..|targets|] == targets
      ensures var t := out[|targets|];
              && t.client == subs[idx].client && t.qos == Min(qos, subs[idx].qos)
              && t.packetId == (if t.qos > 0 then NextPacketId(old(nextId[t.client])) else 0)
              && nextId[t.client] == (if t.qos > 0 then t.packetId else old(nextId[t.client]))
      ensures forall c :: 0 <= c < nextId.Length && c != subs[idx].client ==> nextId[c] == old(nextId[c])
    {
      var client := subs[idx].client;
      var target := Target(client, if qos < subs[idx].qos then qos else subs[idx].qos, 0);
      if target.qos > 0 {
        nextId[client] := (nextId[client] + 1) % ID_MOD;
        if nextId[client] == 0 {
          nextId[client] := (nextId[client] + 1) % ID_MOD;
        }
        target := target.(packetId := nextId[client]);
      }
      out := targets + [target];
    }

    /** topic_publish_qos_locked: each subscriber once, at the QoS of its exact
        subscription if any, else of its most recently inserted matching wildcard,
        with the next packet id of the client. */
    method PublishQos(topic: string, qos: nat) returns (targets: seq<Target>)
      requires Valid()
      modifies nextId
      ensures Valid()
      ensures NoDuplicates(Clients(targets)) && Elements(Clients(targets)) == Subscribers(View(), topic)
      ensures InRange(wild, |View()|)
      ensures forall i :: 0 <= i < |targets| ==> FromSource(View(), wild, topic, qos, targets[i])
      ensures Numbered(targets, old(nextId[..]), nextId[..])
    {
      targets := ExactWalk(topic, qos, nextId[..]);
      targets := WildcardWalk(topic, qos, targets, old(nextId[..]));
      HitsAreSubscribers(subs[..], buckets, wild, hash, topic);
    }

    /** A delivery made by PublishQos is at min(publish, largest matching QoS) when the
        client's first subscription is its largest. */
    lemma DeliveredAtHighest(topic: string, qos: nat, t: Target, best: nat)
      requires Valid() && InRange(wild, |View()|) && FromSource(View(), wild, topic, qos, t)
      requires IsHighest(View(), t.client, topic, best) && FirstIsHighest(View(), wild, t.client, topic)
      ensures t.qos == Min(qos, best)
    {
      var v := View();
      assert ListsWildcards(v, wild);
      var i :| 0 <= i < |v| && IsHit(v[i], t.client, topic) && v[i].qos == best;
      assert t.client in Subscribers(v, topic);
      HighestQosIff(v, wild, t.client, topic);
    }

    /** The deliveries collected so far are right. */
    ghost predicate Delivered(targets: seq<Target>, topic: string, qos: nat, ids: seq<nat>)
      reads this, subs, heads, nextId
      requires Valid()
    {
      && NoDuplicates(Clients(targets)) && Numbered(targets, ids, nextId[..])
      && InRange(wild, |View()|)
      && forall i :: 0 <= i < |targets| ==> FromSource(View(), wild, topic, qos, targets[i])
    }

    method ExactWalk(topic: string, qos: nat, ghost ids: seq<nat>) returns (targets: seq<Target>)
      requires Valid() && ids == nextId[..]
      modifies nextId
      ensures Valid() && Delivered(targets, topic, qos, ids)
      ensures var list := buckets[Bucket(hash, topic, subs.Length)];
              InRange(list, |View()|) && Elements(Clients(targets)) == Hits(View(), list, |list|, topic)
    {
      targets := [];
      var b := Bucket(hash, topic, subs.Length);
      ghost var list := buckets[b];
      var idx := heads[b];
      ghost var k := 0;
      while idx >= 0
        invariant Valid() && 0 <= k <= |list| && idx == At(list, k)
        invariant Delivered(targets, topic, qos, ids)
        invariant Elements(Clients(targets)) == Hits(View(), list, k, topic)
        decreases |list| - k
      {
        targets, idx := ExactTurn(targets, topic, qos, b, idx, k, ids);
        k := k + 1;
      }
    }

    method ExactTurn(targets: seq<Target>, topic: string, qos: nat, b: nat, idx: nat, ghost k: nat, ghost ids: seq<nat>)
      returns (out: seq<Target>, next: int)
      requires Valid() && b == Bucket(hash, topic, subs.Length) && Delivered(targets, topic, qos, ids)
      requires InRange(buckets[b], |View()|) && k < |buckets[b]| && idx == buckets[b][k]
      requires Elements(Clients(targets)) == Hits(View(), buckets[b], k, topic)
      modifies nextId
      ensures Valid() && Delivered(out, topic, qos, ids) && next == At(buckets[b], k + 1)
      ensures Elements(Clients(out)) == Hits(View(), buckets[b], k + 1, topic)
    {
      ExactVisit(b, k, topic);
      out := DeliverOnce(targets, topic, qos, idx, subs[idx].inUse && subs[idx].filter == topic, ids);
      next := subs[idx].exactNext;
    }

    /** What visiting the bucket's next slot adds, and the source it is. */
    lemma ExactVisit(b: nat, k: nat, topic: string)
      requires Valid() && b == Bucket(hash, topic, subs.Length) && InRange(wild, |View()|)
      requires InRange(buckets[b], |View()|) && k < |buckets[b]|
      ensures var i := buckets[b][k];
              var named := subs[i].inUse && subs[i].filter == topic;
              && Hits(View(), buckets[b], k + 1, topic) == Hits(View(), buckets[b], k, topic) + (if named then {subs[i].client} else {})
              && (named ==> Source(View(), wild, subs[i].client, topic) == Some(i))
              && subs[i].exactNext == At(buckets[b], k + 1)
    {
      assert Linked(ExactLinks(subs[..]), buckets[b], k);
      var i := buckets[b][k];
      HitsStep(View(), buckets[b], k, topic);
      ListedExact(b, k, topic);
      if subs[i].inUse && subs[i].filter == topic {
        ExactSource(View(), wild, i, topic);
      }
    }

    method WildcardWalk(topic: string, qos: nat, found: seq<Target>, ghost ids: seq<nat>) returns (targets: seq<Target>)
      requires Valid() && Delivered(found, topic, qos, ids)
      requires var list := buckets[Bucket(hash, topic, subs.Length)];
               InRange(list, |View()|) && Elements(Clients(found)) == Hits(View(), list, |list|, topic)
      modifies nextId
      ensures Valid() && Delivered(targets, topic, qos, ids)
      ensures Elements(Clients(targets)) == Elements(Clients(found)) + Hits(View(), wild, |wild|, topic)
    {
      targets := found;
      var idx := wildHead;
      ghost var k := 0;
      while idx >= 0
        invariant Valid() && 0 <= k <= |wild| && idx == At(wild, k)
        invariant Delivered(targets, topic, qos, ids)
        invariant Elements(Clients(targets)) == Elements(Clients(found)) + Hits(View(), wild, k, topic)
        decreases |wild| - k
      {
        WildVisit(targets, found, k, topic);
        var matches := SlotMatches(idx, topic);
        targets := DeliverOnce(targets, topic, qos, idx, matches, ids);
        idx := subs[idx].wildcardNext;
        k := k + 1;
      }
    }

    /** What visiting the wildcard list's next slot adds, and the source it is for a
        client not met before. */
    lemma WildVisit(targets: seq<Target>, found: seq<Target>, k: nat, topic: string)
      requires Valid() && InRange(wild, |View()|) && k < |wild|
      requires var list := buckets[Bucket(hash, topic, subs.Length)];
               InRange(list, |View()|) && Elements(Clients(found)) == Hits(View(), list, |list|, topic)
      requires Elements(Clients(targets)) == Elements(Clients(found)) + Hits(View(), wild, k, topic)
      ensures var i := wild[k];
              var matches := Matches(View()[i], topic);
              && Elements(Clients(found)) + Hits(View(), wild, k + 1, topic)
                 == Elements(Clients(targets)) + (if matches then {subs[i].client} else {})
              && (matches ==> subs[i].client in Clients(targets) || Source(View(), wild, subs[i].client, topic) == Some(i))
              && subs[i].wildcardNext == At(wild, k + 1)
    {
      HitsStep(View(), wild, k, topic);
      assert Linked(WildLinks(subs[..]), wild, k);
      var c := subs[wild[k]].client;
      assert c in Clients(targets) <==> c in Elements(Clients(targets));
      if Matches(View()[wild[k]], topic) && c !in Clients(targets) {
        WildSource(subs[..], buckets, wild, hash, k, topic);
      }
    }

    method SlotMatches(idx: nat, topic: string) returns (matches: bool)
      requires idx < subs.Length
      ensures matches == Matches(View()[idx], topic)
    {
      matches := false;
      if subs[idx].inUse {
        matches := TopicMatchLoop(subs[idx].filter, topic);
      }
    }

    /** The dedup loop, and one more client, taken from its source subscription. */
    method DeliverOnce(targets: seq<Target>, topic: string, qos: nat, idx: nat, matches: bool, ghost ids: seq<nat>) returns (out: seq<Target>)
      requires Valid() && Delivered(targets, topic, qos, ids) && idx < subs.Length
      requires matches ==> subs[idx].inUse
                           && (subs[idx].client in Clients(targets) || Source(View(), wild, subs[idx].client, topic) == Some(idx))
      modifies nextId
      ensures Valid() && Delivered(out, topic, qos, ids)
      ensures Elements(Clients(out)) == Elements(Clients(targets)) + (if matches then {subs[idx].client} else {})
    {
      if !matches || subs[idx].client in Clients(targets) {
        return targets;
      }
      out := DeliverNew(targets, topic, qos, idx, ids);
    }

    method DeliverNew(targets: seq<Target>, topic: string, qos: nat, idx: nat, ghost ids: seq<nat>) returns (out: seq<Target>)
      requires Valid() && Delivered(targets, topic, qos, ids) && idx < subs.Length && subs[idx].inUse
      requires subs[idx].client !in Clients(targets) && Source(View(), wild, subs[idx].client, topic) == Some(idx)
      modifies nextId
      ensures Valid() && Delivered(out, topic, qos, ids)
      ensures Elements(Clients(out)) == Elements(Clients(targets)) + {subs[idx].client}
    {
      assert View()[idx].client < nextId.Length;
      ghost var now := nextId[..];
      out := AddTarget(targets, qos, idx);
      ghost var t := out[|targets|];
      assert out == targets + [t];
      NumberedStep(targets, t, ids, now, nextId[..]);
    }
  }

  lemma NumberedStep(targets: seq<Target>, t: Target, ids: seq<nat>, now: seq<nat>, after: seq<nat>)
    requires Numbered(targets, ids, now) && |after| == |now| && t.client < |now| && t.client !in Clients(targets)
    requires t.packetId == if t.qos > 0 then NextPacketId(now[t.client]) else 0
    requires after == now[t.client := if t.qos > 0 then t.packetId else now[t.client]]
    ensures Numbered(targets + [t], ids, after)
    ensures Clients(targets + [t]) == Clients(targets) + [t.client]
  {
    var out := targets + [t];
    assert Clients(out) == Clients(targets) + [t.client];
    forall i | 0 <= i < |out|
      ensures if out[i].qos > 0 then out[i].packetId == NextPacketId(ids[out[i].client]) == after[out[i].client]
              else out[i].packetId == 0 && after[out[i].client] == ids[out[i].client]
    {
      if i < |targets| { assert Clients(targets)[i] == out[i].client; }
    }
  }

  /** Packet ids: a numbered delivery takes its client's next id, and no other
      client's counter moves. */
  ghost predicate Numbered(targets: seq<Target>, before: seq<nat>, after: seq<nat>) {
    && |after| == |before|
    && (forall i :: 0 <= i < |targets| ==>
          targets[i].client < |before| &&
          (if targets[i].qos > 0
           then targets[i].packetId == NextPacketId(before[targets[i].client]) == after[targets[i].client]
           else targets[i].packetId == 0 && after[targets[i].client] == before[targets[i].client]))
    && (forall c :: 0 <= c < |before| && c !in Clients(targets) ==> after[c] == before[c])
  }

  lemma ExactSource(v: seq<Slot>, wild: seq<nat>, i: nat, topic: string)
    requires Unique(v) && InRange(wild, |v|) && i < |v| && Has(v[i], topic) && IsExact(topic)
    ensures Source(v, wild, v[i].client, topic) == Some(i)
  {
    FindsTheOne(v, i, v[i].client, topic);
  }

  /** A matching wildcard slot whose client has not been met before it. */
  lemma WildSource(s: seq<Sub>, buckets: seq<seq<nat>>, wild: seq<nat>, hash: Hash, k: nat, topic: string)
    requires 0 < |s| == |buckets| && Partitioned(s, buckets, wild, hash) && InRange(wild, |s|) && k < |wild|
    requires Matches(SlotsOf(s)[wild[k]], topic)
    requires var list, c := buckets[Bucket(hash, topic, |s|)], s[wild[k]].client;
             InRange(list, |s|) && c !in Hits(SlotsOf(s), list, |list|, topic) && c !in Hits(SlotsOf(s), wild, k, topic)
    ensures Source(SlotsOf(s), wild, s[wild[k]].client, topic) == Some(wild[k])
  {
    var v, c := SlotsOf(s), s[wild[k]].client;
    var list := buckets[Bucket(hash, topic, |s|)];
    var own := FindOwned(v, c, topic, 0);
    if IsExact(topic) && own < |v| {
      OwnIsHit(s, buckets, wild, hash, own, topic);
    }
    if FirstMatch(v, wild, c, topic, 0) < k {
      EarlierIsHit(v, wild, c, k, topic);
    }
  }

  lemma EarlierIsHit(v: seq<Slot>, list: seq<nat>, client: ClientId, k: nat, topic: string)
    requires InRange(list, |v|) && FirstMatch(v, list, client, topic, 0) < k <= |list|
    ensures client in Hits(v, list, k, topic)
  {
    var first := FirstMatch(v, list, client, topic, 0);
    assert Matches(v[list[first]], topic);
  }

  /** The subscription naming the topic is on the topic's own list. */
  lemma OwnIsHit(s: seq<Sub>, buckets: seq<seq<nat>>, wild: seq<nat>, hash: Hash, own: nat, topic: string)
    requires 0 < |s| == |buckets| && Partitioned(s, buckets, wild, hash)
    requires own < |s| && s[own].inUse && s[own].filter == topic && IsExact(topic)
    requires InRange(buckets[Bucket(hash, topic, |s|)], |s|)
    ensures var list := buckets[Bucket(hash, topic, |s|)];
            s[own].client in Hits(SlotsOf(s), list, |list|, topic)
  {
    var list := buckets[Bucket(hash, topic, |s|)];
    TopicMatchesItself(topic);
    assert own in list;
    var j :| 0 <= j < |list| && list[j] == own;
    assert Matches(SlotsOf(s)[list[j]], topic);
  }

  lemma TopicMatchesItself(topic: string)
    requires IsExact(topic)
    ensures TopicMatch(topic, topic)
  {
    ExactMatchesItself(topic, topic, true);
  }

  // ---------- fan-out ----------

  /** The owners of the matching slots among the first `k` of a list. */
  ghost function Hits(v: seq<Slot>, list: seq<nat>, k: nat, topic: string): set<ClientId>
    requires k <= |list| && InRange(list, |v|)
  {
    set j | 0 <= j < k && Matches(v[list[j]], topic) :: v[list[j]].client
  }

  lemma HitsStep(v: seq<Slot>, list: seq<nat>, k: nat, topic: string)
    requires k < |list| && InRange(list, |v|)
    ensures Hits(v, list, k + 1, topic)
            == Hits(v, list, k, topic) + if Matches(v[list[k]], topic) then {v[list[k]].client} else {}
  {}

  /** Both walks together meet the owners of all matching slots. */
  lemma HitsAreSubscribers(s: seq<Sub>, buckets: seq<seq<nat>>, wild: seq<nat>, hash: Hash, topic: string)
    requires 0 < |s| == |buckets| && Partitioned(s, buckets, wild, hash)
    requires InRange(wild, |s|) && InRange(buckets[Bucket(hash, topic, |s|)], |s|)
    ensures var list := buckets[Bucket(hash, topic, |s|)];
            Hits(SlotsOf(s), list, |list|, topic) + Hits(SlotsOf(s), wild, |wild|, topic) == Subscribers(SlotsOf(s), topic)
  {
    var list, v := buckets[Bucket(hash, topic, |s|)], SlotsOf(s);
    forall c | c in Subscribers(v, topic) ensures c in Hits(v, list, |list|, topic) + Hits(v, wild, |wild|, topic) {
      var i :| 0 <= i < |v| && v[i].Live? && TopicMatch(v[i].filter, topic) && v[i].client == c;
      if IsExact(s[i].filter) {
        ExactMatchesItself(s[i].filter, topic, true);
        assert i in list;
        var j :| 0 <= j < |list| && list[j] == i;
      } else {
        assert i in wild;
        var j :| 0 <= j < |wild| && wild[j] == i;
      }
    }
  }

  /** Above QoS 0 a delivery carries its client's counter plus one, never zero, and the
      counter keeps it; at QoS 0 it carries none. */
  lemma NumberedMeaning(targets: seq<Target>, before: seq<nat>, after: seq<nat>, i: nat)
    requires Numbered(targets, before, after) && i < |targets| && forall c :: 0 <= c < |before| ==> before[c] < 0x1_0000
    ensures var c := targets[i].client;
            && c < |before| == |after|
            && if targets[i].qos > 0
               then targets[i].packetId == after[c] == if before[c] == 0xFFFF then 1 else before[c] + 1
               else targets[i].packetId == 0 && after[c] == before[c]
  {}

  function NextPacketId(id: nat): nat {
    var next := (id + 1) % ID_MOD;
    if next == 0 then 1 else next
  }

  function Clients(targets: seq<Target>): (r: seq<ClientId>)
    ensures |r| == |targets| && forall i :: 0 <= i < |targets| ==> r[i] == targets[i].client
  {
    seq(|targets|, i requires 0 <= i < |targets| => targets[i].client)
  }

  /** A delivery at the QoS of the client's source subscription. */
  ghost predicate FromSource(v: seq<Slot>, wild: seq<nat>, topic: string, qos: nat, t: Target)
    requires InRange(wild, |v|)
  {
    var src := Source(v, wild, t.client, topic);
    src.Some? && src.value < |v| && v[src.value].Live? && t.qos == Min(qos, v[src.value].qos)
  }

  /** What UpdateQos computes is the filter's new summary. */
  lemma SummaryAfterUpdate(v: seq<Slot>, i: nat, qos: nat, newMax: nat)
    requires i < |v| && v[i].Live?
    requires var v' := v[i := Live(v[i].client, v[i].filter, qos)];
             var oldMax := Stats(v, v[i].filter, |v|).1;
             if qos >= oldMax then newMax == qos
             else if v[i].qos < oldMax then newMax == oldMax
             else newMax == Stats(v', v[i].filter, |v|).1
    ensures var v' := v[i := Live(v[i].client, v[i].filter, qos)];
            && Summary(v, v[i].filter) == Some(Stats(v, v[i].filter, |v|).1)
            && Summary(v', v[i].filter) == Some(newMax)
            && forall f :: f != v[i].filter ==> Summary(v', f) == Summary(v, f)
  {
    assert Has(v[i], v[i].filter);
    StatsMeaning(v, v[i].filter, |v|);
    SummaryAfterWrite(v, i, v[i].client, v[i].filter, qos);
  }

  lemma ClientsAfterWrite(v: seq<Slot>, v': seq<Slot>, i: nat, limit: nat)
    requires i < |v| && |v'| == |v| && v' == v[i := v'[i]]
    requires forall k :: 0 <= k < |v| && v[k].Live? ==> v[k].client < limit
    requires v'[i].Live? ==> v'[i].client < limit
    ensures forall k :: 0 <= k < |v'| && v'[k].Live? ==> v'[k].client < limit
  {}

  predicate IsClients(s: Slot, client: ClientId) {
    s.Live? && s.client == client
  }

  /** The client's slots among the first `done` are gone, the rest is untouched. */
  ghost predicate Cleared(v0: seq<Slot>, v: seq<Slot>, client: ClientId, done: nat) {
    && |v| == |v0| && done <= |v|
    && (forall k :: 0 <= k < done ==> v[k] == if IsClients(v0[k], client) then Free else v0[k])
    && (forall k :: done <= k < |v| ==> v[k] == v0[k])
  }

  lemma ClearedAll(v0: seq<Slot>, v: seq<Slot>, client: ClientId, done: nat, wild: seq<nat>)
    requires Cleared(v0, v, client, done) && forall k :: 0 <= k < |v| ==> !IsClients(v[k], client)
    requires InRange(wild, |v|) && forall x :: x in wild ==> x < |v| && v[x].Live?
    ensures v == WithoutClient(v0, client) && OfOthers(wild, v0, client) == wild
  {
    forall x | x in wild ensures !IsClients(v0[x], client) {
      assert v[x].Live?;
    }
    OthersOnly(wild, v0, client);
  }

  /** The slots of a list that are not the client's, in the same order. */
  function OfOthers(list: seq<nat>, v: seq<Slot>, client: ClientId): seq<nat>
    requires InRange(list, |v|)
  {
    if list == [] then []
    else (if IsClients(v[list[0]], client) then [] else [list[0]]) + OfOthers(list[1..], v, client)
  }

  lemma {:induction false} OthersAfterErase(list: seq<nat>, v: seq<Slot>, client: ClientId, i: nat)
    requires InRange(list, |v|) && i < |v| && IsClients(v[i], client)
    ensures InRange(Erase(list, i), |v|) && OfOthers(Erase(list, i), v, client) == OfOthers(list, v, client)
  {
    if list != [] && list[0] != i {
      OthersAfterErase(list[1..], v, client, i);
    }
  }

  lemma {:induction false} OthersOnly(list: seq<nat>, v: seq<Slot>, client: ClientId)
    requires InRange(list, |v|) && forall x :: x in list ==> !IsClients(v[x], client)
    ensures OfOthers(list, v, client) == list
  {
    if list != [] {
      OthersOnly(list[1..], v, client);
    }
  }

  lemma FreeUnique(v: seq<Slot>, i: nat)
    requires i < |v| && Unique(v)
    ensures Unique(v[i := Free])
  {}
}
