/**
 The local subscription table as values: what its slots mean, the summary of it
 that is advertised to the mesh, and the simple scan fan-out must agree with.
 */
module TopicModel {
  import opened Common
  import opened TopicFilter

  type ClientId = nat

  datatype Slot = Free | Live(client: ClientId, filter: string, qos: nat)

  predicate Has(s: Slot, filter: string) {
    s.Live? && s.filter == filter
  }

  predicate Owns(s: Slot, client: ClientId, filter: string) {
    Has(s, filter) && s.client == client
  }

  /** A client holds a filter in at most one slot. */
  ghost predicate Unique(v: seq<Slot>) {
    forall i, j :: 0 <= i < j < |v| && v[i].Live? ==> !Owns(v[j], v[i].client, v[i].filter)
  }

  // ---------- operations on the simple table ----------

  function FindOwned(v: seq<Slot>, client: ClientId, filter: string, i: nat): (r: nat)
    requires i <= |v|
    ensures i <= r <= |v|
    ensures r < |v| ==> Owns(v[r], client, filter)
    ensures forall k :: i <= k < r ==> !Owns(v[k], client, filter)
    decreases |v| - i
  {
    if i == |v| || Owns(v[i], client, filter) then i else FindOwned(v, client, filter, i + 1)
  }

  predicate IsFree(s: Slot) {
    s.Free?
  }

  /** The slot a subscribe writes, |v| when the table is full. */
  function SubscribeSlot(v: seq<Slot>, client: ClientId, filter: string): (r: nat)
    ensures r <= |v|
  {
    var found := FindOwned(v, client, filter, 0);
    if found < |v| then found else FirstWhere(v, IsFree, 0)
  }

  function Subscribed(v: seq<Slot>, client: ClientId, filter: string, qos: nat): (r: seq<Slot>)
    ensures |r| == |v|
  {
    var i := SubscribeSlot(v, client, filter);
    if i < |v| then v[i := Live(client, filter, qos)] else v
  }

  function Unsubscribed(v: seq<Slot>, client: ClientId, filter: string): (r: seq<Slot>)
    ensures |r| == |v|
  {
    var i := FindOwned(v, client, filter, 0);
    if i < |v| then v[i := Free] else v
  }

  function WithoutClient(v: seq<Slot>, client: ClientId): (r: seq<Slot>)
    ensures |r| == |v|
    ensures forall i :: 0 <= i < |v| ==> r[i] == if v[i].Live? && v[i].client == client then Free else v[i]
  {
    seq(|v|, i requires 0 <= i < |v| => if v[i].Live? && v[i].client == client then Free else v[i])
  }

  lemma FindsTheOne(v: seq<Slot>, i: nat, client: ClientId, filter: string)
    requires Unique(v) && i < |v| && Owns(v[i], client, filter)
    ensures FindOwned(v, client, filter, 0) == i
  {
    var own := FindOwned(v, client, filter, 0);
    assert Owns(v[i], v[own].client, v[own].filter);
  }

  lemma SubscribedUnique(v: seq<Slot>, client: ClientId, filter: string, qos: nat)
    requires Unique(v)
    ensures Unique(Subscribed(v, client, filter, qos))
  {
    var i := SubscribeSlot(v, client, filter);
    if i < |v| {
      forall k | 0 <= k < |v| && k != i ensures !Owns(v[k], client, filter) {
        if Owns(v[k], client, filter) { FindsTheOne(v, k, client, filter); }
      }
    }
  }

  // ---------- the advertised summary ----------

  /** How many of the first `n` slots hold a filter, and their largest QoS. */
  function Stats(v: seq<Slot>, filter: string, n: nat): (r: (nat, nat))
    requires n <= |v|
  {
    if n == 0 then (0, 0)
    else
      var (count, best) := Stats(v, filter, n - 1);
      if Has(v[n-1], filter) then (count + 1, if v[n-1].qos > best then v[n-1].qos else best) else (count, best)
  }

  /** What the mesh should be told of a filter: its largest QoS, if held at all. */
  function Summary(v: seq<Slot>, filter: string): Option<nat> {
    var (count, best) := Stats(v, filter, |v|);
    if count > 0 then Some(best) else None
  }

  lemma {:induction false} StatsMeaning(v: seq<Slot>, filter: string, n: nat)
    requires n <= |v|
    ensures var (count, best) := Stats(v, filter, n);
            && (forall i :: 0 <= i < n && Has(v[i], filter) ==> v[i].qos <= best)
            && (count > 0 <==> exists i :: 0 <= i < n && Has(v[i], filter))
            && (count > 0 ==> exists i :: 0 <= i < n && Has(v[i], filter) && v[i].qos == best)
            && (count == 0 ==> best == 0)
  {
    if n > 0 {
      StatsMeaning(v, filter, n - 1);
      if Has(v[n-1], filter) {
        assert exists i :: 0 <= i < n && Has(v[i], filter);
      }
    }
  }

  /** The summary is the largest QoS among the live subscriptions of a filter. */
  lemma SummaryIsMaximum(v: seq<Slot>, filter: string)
    ensures Summary(v, filter) == None <==> forall i :: 0 <= i < |v| ==> !Has(v[i], filter)
    ensures Summary(v, filter).Some? ==>
              (exists i :: 0 <= i < |v| && Has(v[i], filter) && v[i].qos == Summary(v, filter).value)
              && forall i :: 0 <= i < |v| && Has(v[i], filter) ==> v[i].qos <= Summary(v, filter).value
  {
    StatsMeaning(v, filter, |v|);
  }

  lemma {:induction false} StatsElsewhere(v: seq<Slot>, i: nat, s: Slot, filter: string, n: nat)
    requires i < |v| && n <= |v|
    requires n <= i || (!Has(v[i], filter) && !Has(s, filter))
    ensures Stats(v[i := s], filter, n) == Stats(v, filter, n)
  {
    if n > 0 { StatsElsewhere(v, i, s, filter, n - 1); }
  }

  /** The count follows a change of one slot. */
  lemma {:induction false} CountAfter(v: seq<Slot>, i: nat, s: Slot, filter: string, n: nat)
    requires i < n <= |v|
    ensures Stats(v[i := s], filter, n).0 - (if Has(s, filter) then 1 else 0)
            == Stats(v, filter, n).0 - (if Has(v[i], filter) then 1 else 0)
  {
    if n == i + 1 {
      StatsElsewhere(v, i, s, filter, i);
    } else {
      CountAfter(v, i, s, filter, n - 1);
    }
  }

  /** A slot written with QoS `qos` for the filter. */
  lemma SummaryAfterWrite(v: seq<Slot>, i: nat, client: ClientId, filter: string, qos: nat)
    requires i < |v| && (v[i].Live? ==> v[i].filter == filter)
    ensures var v' := v[i := Live(client, filter, qos)];
            var (count, best) := Stats(v, filter, |v|);
            && Summary(v', filter).Some?
            && (qos >= best ==> Summary(v', filter).value == qos)
            && (v[i].Free? && qos < best ==> Summary(v', filter).value == best)
            && (v[i].Live? && v[i].qos < best && qos < best ==> Summary(v', filter).value == best)
            && (forall f :: f != filter ==> Summary(v', f) == Summary(v, f))
  {
    var v' := v[i := Live(client, filter, qos)];
    StatsMeaning(v, filter, |v|);
    StatsMeaning(v', filter, |v|);
    assert Has(v'[i], filter);
    var (count, best) := Stats(v, filter, |v|);
    if qos < best {
      var k :| 0 <= k < |v| && Has(v[k], filter) && v[k].qos == best;
      assert k != i ==> Has(v'[k], filter);
    }
    var k' :| 0 <= k' < |v| && Has(v'[k'], filter) && v'[k'].qos == Summary(v', filter).value;
    assert k' != i ==> Has(v[k'], filter);
    forall f | f != filter ensures Summary(v', f) == Summary(v, f) {
      StatsElsewhere(v, i, Live(client, filter, qos), f, |v|);
    }
  }

  /** A slot of the filter freed. */
  lemma SummaryAfterFree(v: seq<Slot>, i: nat)
    requires i < |v| && v[i].Live?
    ensures var v' := v[i := Free];
            var (count, best) := Stats(v, v[i].filter, |v|);
            && count > 0
            && Stats(v', v[i].filter, |v|).0 == count - 1
            && (count == 1 <==> Summary(v', v[i].filter) == None)
            && (count > 1 && v[i].qos < best ==> Summary(v', v[i].filter) == Some(best))
            && (forall f :: f != v[i].filter ==> Summary(v', f) == Summary(v, f))
  {
    var v', filter := v[i := Free], v[i].filter;
    CountAfter(v, i, Free, filter, |v|);
    StatsMeaning(v, filter, |v|);
    StatsMeaning(v', filter, |v|);
    var (count, best) := Stats(v, filter, |v|);
    assert Has(v[i], filter);
    if count > 1 && v[i].qos < best {
      var k :| 0 <= k < |v| && Has(v[k], filter) && v[k].qos == best;
      assert Has(v'[k], filter);
      var k' :| 0 <= k' < |v| && Has(v'[k'], filter) && v'[k'].qos == Stats(v', filter, |v|).1;
      assert Has(v[k'], filter);
    }
    forall f | f != filter ensures Summary(v', f) == Summary(v, f) {
      StatsElsewhere(v, i, Free, f, |v|);
    }
  }

  // ---------- notifications ----------

  /** A call of p2p_local_subscribe or p2p_local_unsubscribe. */
  datatype Note = Advertise(filter: string, qos: nat) | Withdraw(filter: string)

  function Replay(notes: seq<Note>): map<string, nat> {
    if notes == [] then map[]
    else
      var m := Replay(notes[..|notes|-1]);
      match notes[|notes|-1]
      case Advertise(f, q) => m[f := q]
      case Withdraw(f) => m - {f}
  }

  function Lookup(m: map<string, nat>, f: string): Option<nat> {
    if f in m then Some(m[f]) else None
  }

  /** The replayed calls give exactly the summary of the table. */
  ghost predicate Mirrors(notes: seq<Note>, v: seq<Slot>) {
    forall f :: Lookup(Replay(notes), f) == Summary(v, f)
  }

  /** No call is redundant: each one changes what was advertised. */
  ghost predicate AllEffective(notes: seq<Note>) {
    forall k :: 0 <= k < |notes| ==> Replay(notes[..k+1]) != Replay(notes[..k])
  }

  /** Calling exactly when the filter's summary changes keeps both. */
  lemma NoteChange(notes: seq<Note>, note: Note, v: seq<Slot>, v': seq<Slot>)
    requires Mirrors(notes, v) && AllEffective(notes)
    requires forall f :: f != note.filter ==> Summary(v', f) == Summary(v, f)
    requires match note
             case Advertise(f, q) => Summary(v', f) == Some(q) && Summary(v, f) != Some(q)
             case Withdraw(f) => Summary(v', f) == None && Summary(v, f) != None
    ensures Mirrors(notes + [note], v') && AllEffective(notes + [note])
  {
    var notes' := notes + [note];
    assert notes'[..|notes|] == notes && notes'[..|notes'|] == notes';
    forall f ensures Lookup(Replay(notes'), f) == Summary(v', f) {
      assert Lookup(Replay(notes), f) == Summary(v, f);
    }
    forall k | 0 <= k < |notes'| ensures Replay(notes'[..k+1]) != Replay(notes'[..k]) {
      if k < |notes| {
        assert notes'[..k+1] == notes[..k+1] && notes'[..k] == notes[..k];
      } else {
        var f := note.filter;
        assert Lookup(Replay(notes'), f) == Summary(v', f);
        assert Lookup(Replay(notes), f) == Summary(v, f);
      }
    }
  }

  lemma SameSummary(notes: seq<Note>, v: seq<Slot>, v': seq<Slot>, filter: string)
    requires Mirrors(notes, v)
    requires Summary(v', filter) == Summary(v, filter) && forall f :: f != filter ==> Summary(v', f) == Summary(v, f)
    ensures Mirrors(notes, v')
  {}

  // ---------- fan-out by a plain scan ----------

  /** The clients owning some subscription that matches the topic. */
  ghost function Subscribers(v: seq<Slot>, topic: string): set<ClientId> {
    set i | 0 <= i < |v| && v[i].Live? && TopicMatch(v[i].filter, topic) :: v[i].client
  }

  predicate Matches(s: Slot, topic: string) {
    s.Live? && TopicMatch(s.filter, topic)
  }

  /** The first position from `k` in `order` whose slot is the client's and matches. */
  function FirstMatch(v: seq<Slot>, order: seq<nat>, client: ClientId, topic: string, k: nat): (r: nat)
    requires k <= |order| && forall j :: 0 <= j < |order| ==> order[j] < |v|
    ensures k <= r <= |order|
    ensures r < |order| ==> Matches(v[order[r]], topic) && v[order[r]].client == client
    ensures forall j :: k <= j < r ==> !(Matches(v[order[j]], topic) && v[order[j]].client == client)
    decreases |order| - k
  {
    if k == |order| || (Matches(v[order[k]], topic) && v[order[k]].client == client) then k
    else FirstMatch(v, order, client, topic, k + 1)
  }

  /** The subscription a client's delivery is taken from: the one naming the topic
      itself if any, else the first in `order` that matches. */
  function Source(v: seq<Slot>, order: seq<nat>, client: ClientId, topic: string): Option<nat>
    requires forall j :: 0 <= j < |order| ==> order[j] < |v|
  {
    var own := FindOwned(v, client, topic, 0);
    if IsExact(topic) && own < |v| then Some(own)
    else
      var k := FirstMatch(v, order, client, topic, 0);
      if k < |order| then Some(order[k]) else None
  }

  // ---------- overlapping subscriptions ----------

  predicate IsHit(s: Slot, client: ClientId, topic: string) {
    Matches(s, topic) && s.client == client
  }

  /** `best` is the largest QoS among the client's matching subscriptions. */
  ghost predicate IsHighest(v: seq<Slot>, client: ClientId, topic: string, best: nat) {
    && (exists i :: 0 <= i < |v| && IsHit(v[i], client, topic) && v[i].qos == best)
    && (forall i :: 0 <= i < |v| && IsHit(v[i], client, topic) ==> v[i].qos <= best)
  }

  /** `order` lists exactly the live wildcard subscriptions. */
  ghost predicate ListsWildcards(v: seq<Slot>, order: seq<nat>) {
    && (forall j :: 0 <= j < |order| ==> order[j] < |v|)
    && (forall i :: 0 <= i < |v| ==> (i in order <==> v[i].Live? && !IsExact(v[i].filter)))
  }

  /** The client's exact subscription, when it has one, is at least each of its
      matching wildcards; otherwise its first matching wildcard is at least the
      others. */
  ghost predicate FirstIsHighest(v: seq<Slot>, order: seq<nat>, client: ClientId, topic: string)
    requires forall j :: 0 <= j < |order| ==> order[j] < |v|
  {
    var own := FindOwned(v, client, topic, 0);
    var k := FirstMatch(v, order, client, topic, 0);
    if IsExact(topic) && own < |v| then
      forall j :: 0 <= j < |order| && IsHit(v[order[j]], client, topic) ==> v[order[j]].qos <= v[own].qos
    else
      k < |order| ==> forall j :: k < j < |order| && IsHit(v[order[j]], client, topic) ==> v[order[j]].qos <= v[order[k]].qos
  }

  lemma {:induction false} HighestExists(v: seq<Slot>, client: ClientId, topic: string) returns (best: nat)
    requires client in Subscribers(v, topic)
    ensures IsHighest(v, client, topic, best)
  {
    var last := |v| - 1;
    var front := v[..last];
    assert forall i :: 0 <= i < last ==> front[i] == v[i];
    if client in Subscribers(front, topic) {
      best := HighestExists(front, client, topic);
      if IsHit(v[last], client, topic) && v[last].qos > best {
        best := v[last].qos;
      }
    } else {
      var i :| 0 <= i < |v| && v[i].Live? && TopicMatch(v[i].filter, topic) && v[i].client == client;
      assert forall k :: 0 <= k < last ==> !IsHit(front[k], client, topic);
      best := v[last].qos;
    }
  }

  /** A client's matching subscription is the one naming the topic or a listed wildcard. */
  lemma HitIsOwnOrListed(v: seq<Slot>, order: seq<nat>, client: ClientId, topic: string, i: nat)
    requires Unique(v) && ListsWildcards(v, order) && i < |v| && IsHit(v[i], client, topic)
    ensures (IsExact(topic) && FindOwned(v, client, topic, 0) == i) || (i in order && !IsExact(v[i].filter))
  {
    if IsExact(v[i].filter) {
      ExactMatchesItself(v[i].filter, topic, true);
      FindsTheOne(v, i, client, topic);
    }
  }

  lemma SourceOfSubscriber(v: seq<Slot>, order: seq<nat>, client: ClientId, topic: string)
    requires Unique(v) && ListsWildcards(v, order) && client in Subscribers(v, topic)
    ensures var src := Source(v, order, client, topic);
            src.Some? && src.value < |v| && IsHit(v[src.value], client, topic)
  {
    var i :| 0 <= i < |v| && v[i].Live? && TopicMatch(v[i].filter, topic) && v[i].client == client;
    HitIsOwnOrListed(v, order, client, topic, i);
    if IsExact(topic) {
      ExactMatchesItself(topic, topic, true);
    }
    if i in order {
      var j :| 0 <= j < |order| && order[j] == i;
    }
  }

  /** The condition says the source subscription is the client's largest. */
  lemma FirstIsHighestMeaning(v: seq<Slot>, order: seq<nat>, client: ClientId, topic: string)
    requires Unique(v) && ListsWildcards(v, order) && client in Subscribers(v, topic)
    ensures var src := Source(v, order, client, topic);
            src.Some? && src.value < |v| && v[src.value].Live?
            && (FirstIsHighest(v, order, client, topic) <==> IsHighest(v, client, topic, v[src.value].qos))
  {
    SourceOfSubscriber(v, order, client, topic);
    var src := Source(v, order, client, topic).value;
    if FirstIsHighest(v, order, client, topic) {
      forall i | 0 <= i < |v| && IsHit(v[i], client, topic) ensures v[i].qos <= v[src].qos {
        HitIsOwnOrListed(v, order, client, topic, i);
        if i in order {
          var j :| 0 <= j < |order| && order[j] == i;
        }
      }
    }
  }

  /** A client is served at min(publish, largest matching subscription) for every
      publish QoS exactly when that condition holds. */
  lemma HighestQosIff(v: seq<Slot>, order: seq<nat>, client: ClientId, topic: string)
    requires Unique(v) && ListsWildcards(v, order) && client in Subscribers(v, topic)
    ensures var src := Source(v, order, client, topic);
            src.Some? && src.value < |v| && v[src.value].Live?
            && ((forall qos: nat, best: nat :: IsHighest(v, client, topic, best) ==> Min(qos, v[src.value].qos) == Min(qos, best))
                <==> FirstIsHighest(v, order, client, topic))
  {
    FirstIsHighestMeaning(v, order, client, topic);
    var src := Source(v, order, client, topic).value;
    var best := HighestExists(v, client, topic);
    assert Min(best, v[src].qos) == Min(best, best) ==> v[src].qos >= best;
    assert v[src].qos >= best ==> IsHighest(v, client, topic, v[src].qos) by {
      SourceOfSubscriber(v, order, client, topic);
    }
  }

  /** Where it fails: "a" at QoS 0 hides "#" at QoS 2. */
  lemma OverlapBelowHighest()
    ensures var v, order := [Live(1, "a", 0), Live(1, "#", 2)], [1];
            && Unique(v) && ListsWildcards(v, order)
            && Source(v, order, 1, "a") == Some(0)
            && IsHighest(v, 1, "a", 2) && Min(2, v[0].qos) == 0 < Min(2, 2)
  {
    var v, order := [Live(1, "a", 0), Live(1, "#", 2)], [1];
    ExactMatchesItself("a", "a", true);
    assert !IsExact("#") by { assert "#"[0] == '#'; }
    assert IsHit(v[1], 1, "a");
    assert Owns(v[0], 1, "a");
    assert order[0] == 1;
  }

  // ---------- what the operations leave ----------

  /** Exactly the client's slot for the filter is freed. */
  lemma UnsubscribedMeaning(v: seq<Slot>, client: ClientId, filter: string)
    requires Unique(v)
    ensures forall i :: 0 <= i < |v| ==>
              Unsubscribed(v, client, filter)[i]
              == if v[i].Live? && v[i].client == client && v[i].filter == filter then Free else v[i]
  {
    forall i | 0 <= i < |v| && v[i].Live? && v[i].client == client && v[i].filter == filter
      ensures FindOwned(v, client, filter, 0) == i
    {
      FindsTheOne(v, i, client, filter);
    }
  }

  /** Afterwards the client is served just when another of its subscriptions matches;
      other clients are served as before. */
  lemma UnsubscribedServes(v: seq<Slot>, client: ClientId, filter: string, c: ClientId, topic: string)
    requires Unique(v)
    ensures c in Subscribers(Unsubscribed(v, client, filter), topic) <==>
              exists i :: 0 <= i < |v| && v[i].Live? && v[i].client == c && TopicMatch(v[i].filter, topic)
                          && !(c == client && v[i].filter == filter)
  {
    UnsubscribedMeaning(v, client, filter);
    var v' := Unsubscribed(v, client, filter);
    if i :| 0 <= i < |v| && v[i].Live? && v[i].client == c && TopicMatch(v[i].filter, topic) && !(c == client && v[i].filter == filter) {
      assert v'[i] == v[i];
    }
    if c in Subscribers(v', topic) {
      var i :| 0 <= i < |v'| && v'[i].Live? && TopicMatch(v'[i].filter, topic) && v'[i].client == c;
      assert v[i] == v'[i];
    }
  }

  /** There is a slot for the subscription: the client's own, or a free one. */
  ghost predicate CanStore(v: seq<Slot>, client: ClientId, filter: string) {
    exists i :: 0 <= i < |v| && (v[i].Free? || (v[i].client == client && v[i].filter == filter))
  }

  /** One slot, free or the client's own for the filter, takes the subscription at its
      new QoS; no other slot changes, and no other holds it. */
  lemma SubscribedMeaning(v: seq<Slot>, client: ClientId, filter: string, qos: nat)
    requires Unique(v)
    ensures SubscribeSlot(v, client, filter) < |v| <==> CanStore(v, client, filter)
    ensures !CanStore(v, client, filter) ==> Subscribed(v, client, filter, qos) == v
    ensures CanStore(v, client, filter) ==>
              exists i :: 0 <= i < |v| && Subscribed(v, client, filter, qos) == v[i := Live(client, filter, qos)]
                          && (v[i].Free? || (v[i].client == client && v[i].filter == filter))
                          && forall k :: 0 <= k < |v| && k != i && v[k].Live? ==> !(v[k].client == client && v[k].filter == filter)
  {
    var i := SubscribeSlot(v, client, filter);
    if k :| 0 <= k < |v| && (v[k].Free? || (v[k].client == client && v[k].filter == filter)) {
      assert IsFree(v[k]) || Owns(v[k], client, filter);
    }
    if i < |v| {
      assert Subscribed(v, client, filter, qos) == v[i := Live(client, filter, qos)];
      assert forall k :: 0 <= k < |v| && k != i ==> !Owns(v[k], client, filter);
    }
  }

  /** The client is then served wherever the filter matches, and as before elsewhere. */
  lemma SubscribedServes(v: seq<Slot>, client: ClientId, filter: string, qos: nat, c: ClientId, topic: string)
    requires Unique(v)
    ensures c in Subscribers(Subscribed(v, client, filter, qos), topic) <==>
              c in Subscribers(v, topic) || (c == client && CanStore(v, client, filter) && TopicMatch(filter, topic))
  {
    SubscribedMeaning(v, client, filter, qos);
    var v' := Subscribed(v, client, filter, qos);
    if CanStore(v, client, filter) {
      var i :| 0 <= i < |v| && v' == v[i := Live(client, filter, qos)]
               && (v[i].Free? || (v[i].client == client && v[i].filter == filter));
      assert v'[i] == Live(client, filter, qos);
      if c in Subscribers(v, topic) {
        var k :| 0 <= k < |v| && v[k].Live? && TopicMatch(v[k].filter, topic) && v[k].client == c;
        assert v'[k].Live? && v'[k].filter == v[k].filter && v'[k].client == c;
      }
      if c in Subscribers(v', topic) {
        var k :| 0 <= k < |v'| && v'[k].Live? && TopicMatch(v'[k].filter, topic) && v'[k].client == c;
        assert k != i ==> v[k] == v'[k];
      }
    }
  }
}
