/**
 The outbound in-flight slots of a client: a stored PUBLISH is resent with DUP
 until it is acknowledged; a QoS 2 one turns into its PUBREL on PUBREC.

 A life is the history of one stored message, from the slot it takes to the
 acknowledgement that frees the slot; its log is every frame resent for it.
 */
module Inflight {
  import opened Common
  import opened Packet
  import opened PublishCodec

  datatype Slot = Slot(packetId: nat, buf: seq<Byte>, sentAt: int, inUse: bool, qos: nat, waitingPubcomp: bool)

  const RETRY_MS := 5000
  const EMPTY := Slot(0, [], 0, false, 0, false)

  datatype Event =
    | Store(id: nat, frame: seq<Byte>, qos: nat, now: int)
    | Ack(id: nat)
    | PubRec(id: nat, now: int)
    | Retry(now: int)

  predicate ValidEvent(e: Event) {
    match e
    case Store(id, frame, qos, _) => 0 < id < ID_LIMIT && frame != [] && 1 <= qos <= 2
    case Ack(id) => id < ID_LIMIT
    case PubRec(id, _) => id < ID_LIMIT
    case Retry(_) => true
  }

  /** packet_build_pubrel. */
  function PubRel(id: nat): seq<Byte>
    requires id < ID_LIMIT
  {
    [0x62, 2] + U16(id)
  }

  /** A frame sent from a slot. */
  datatype Sent = Sent(slot: nat, frame: seq<Byte>)

  // ---------- the slots ----------

  predicate NotInUse(x: Slot) {
    !x.inUse
  }

  predicate Holds(x: Slot, id: nat) {
    x.inUse && x.packetId == id
  }

  function FirstHolding(s: seq<Slot>, id: nat, i: nat): (r: nat)
    requires i <= |s|
    ensures i <= r <= |s| && (r < |s| ==> Holds(s[r], id))
    ensures forall k :: i <= k < r ==> !Holds(s[k], id)
    decreases |s| - i
  {
    if i == |s| || Holds(s[i], id) then i else FirstHolding(s, id, i + 1)
  }

  predicate AwaitsPubrec(x: Slot, id: nat) {
    Holds(x, id) && x.qos == 2 && !x.waitingPubcomp
  }

  function FirstAwaiting(s: seq<Slot>, id: nat, i: nat): (r: nat)
    requires i <= |s|
    ensures i <= r <= |s| && (r < |s| ==> AwaitsPubrec(s[r], id))
    ensures forall k :: i <= k < r ==> !AwaitsPubrec(s[k], id)
    decreases |s| - i
  {
    if i == |s| || AwaitsPubrec(s[i], id) then i else FirstAwaiting(s, id, i + 1)
  }

  predicate Due(x: Slot, now: int) {
    x.inUse && now - x.sentAt >= RETRY_MS
  }

  /** A slot as a retry leaves it: DUP is set on a PUBLISH, never on a PUBREL. */
  function Resent(x: Slot, now: int): Slot {
    if x.buf == [] || (x.qos == 2 && x.waitingPubcomp) then x.(sentAt := now)
    else x.(buf := SetDup(x.buf), sentAt := now)
  }

  /** One retry pass over the first `n` slots. */
  function RetryPass(s: seq<Slot>, now: int, n: nat): (r: (seq<Slot>, seq<Sent>))
    requires n <= |s|
    ensures |r.0| == |s|
    ensures forall k :: 0 <= k < |s| ==> r.0[k] == if k < n && Due(s[k], now) then Resent(s[k], now) else s[k]
  {
    if n == 0 then (s, [])
    else
      var (t, sent) := RetryPass(s, now, n - 1);
      if Due(s[n-1], now) then
        (t[n-1 := Resent(s[n-1], now)], sent + [Sent(n - 1, Resent(s[n-1], now).buf)])
      else (t, sent)
  }

  /** The slots after an event, and the frames it sends. */
  function Step(s: seq<Slot>, e: Event): (r: (seq<Slot>, seq<Sent>))
    requires ValidEvent(e)
    ensures |r.0| == |s|
  {
    match e
    case Store(id, frame, qos, now) =>
      var i := FirstWhere(s, NotInUse, 0);
      (if i < |s| then s[i := Slot(id, frame, now, true, qos, false)] else s, [])
    case Ack(id) =>
      var i := FirstHolding(s, id, 0);
      (if i < |s| then s[i := s[i].(inUse := false)] else s, [])
    case PubRec(id, now) =>
      var i := FirstAwaiting(s, id, 0);
      if i < |s| then (s[i := s[i].(buf := PubRel(id), sentAt := now, waitingPubcomp := true)], [Sent(i, PubRel(id))])
      else (s, [])
    case Retry(now) => RetryPass(s, now, |s|)
  }

  // ---------- lives ----------

  datatype Life = Life(frame: seq<Byte>, id: nat, qos: nat, log: seq<seq<Byte>>)

  /** The slots, which life each slot carries, and every life so far. */
  datatype State = State(slots: seq<Slot>, owner: seq<nat>, lives: seq<Life>)

  function Record(lives: seq<Life>, owner: seq<nat>, sent: seq<Sent>): (r: seq<Life>)
    ensures |r| == |lives|
  {
    if sent == [] then lives
    else
      var before := Record(lives, owner, sent[..|sent|-1]);
      var x := sent[|sent|-1];
      if x.slot < |owner| && owner[x.slot] < |lives| then
        var life := before[owner[x.slot]];
        before[owner[x.slot] := life.(log := life.log + [x.frame])]
      else before
  }

  function Next(st: State, e: Event): (r: State)
    requires ValidEvent(e) && |st.owner| == |st.slots|
    ensures |r.owner| == |r.slots| == |st.slots|
  {
    var (slots, sent) := Step(st.slots, e);
    var i := FirstWhere(st.slots, NotInUse, 0);
    if e.Store? && i < |st.slots| then
      State(slots, st.owner[i := |st.lives|], st.lives + [Life(e.frame, e.id, e.qos, [])])
    else State(slots, st.owner, Record(st.lives, st.owner, sent))
  }

  function Run(n: nat, events: seq<Event>): (r: State)
    requires forall i :: 0 <= i < |events| ==> ValidEvent(events[i])
    ensures |r.owner| == |r.slots| == n
  {
    if events == [] then State(seq(n, _ => EMPTY), seq(n, _ => 0), [])
    else Next(Run(n, events[..|events|-1]), events[|events|-1])
  }

  // ---------- what a life may send ----------

  /** First the stored PUBLISH with DUP, any number of times; then, once its
      PUBREC has come, only its PUBREL. */
  predicate Phases(life: Life, k: nat)
    requires life.frame != [] && life.id < ID_LIMIT
  {
    && k <= |life.log|
    && (forall j :: 0 <= j < k ==> life.log[j] == SetDup(life.frame))
    && (forall j :: k <= j < |life.log| ==> life.log[j] == PubRel(life.id))
    && (k < |life.log| ==> life.qos == 2)
  }

  predicate LifeOk(life: Life) {
    life.frame != [] && 0 < life.id < ID_LIMIT && exists k :: 0 <= k <= |life.log| && Phases(life, k)
  }

  /** The slot carrying a life: waiting exactly when its PUBREL has been sent. */
  predicate Carries(x: Slot, life: Life) {
    && life.frame != [] && 0 < life.id < ID_LIMIT
    && x.packetId == life.id && x.qos == life.qos
    && if x.waitingPubcomp then
         x.qos == 2 && x.buf == PubRel(life.id) && exists k :: 0 <= k < |life.log| && Phases(life, k)
       else
         (x.buf == life.frame || x.buf == SetDup(life.frame)) && Phases(life, |life.log|)
  }

  ghost predicate Inv(st: State) {
    && |st.owner| == |st.slots|
    && (forall l :: 0 <= l < |st.lives| ==> LifeOk(st.lives[l]))
    && (forall i :: 0 <= i < |st.slots| && st.slots[i].inUse ==>
          st.owner[i] < |st.lives| && Carries(st.slots[i], st.lives[st.owner[i]]))
    && (forall i, j :: 0 <= i < j < |st.slots| && st.slots[i].inUse && st.slots[j].inUse ==> st.owner[i] != st.owner[j])
  }

  lemma SetDupTwice(b: seq<Byte>)
    requires b != []
    ensures SetDup(SetDup(b)) == SetDup(b)
  {
    var flags: int := b[0];
    assert flags / 8 % 2 == 0 ==> (flags + 8) / 8 % 2 == 1;
  }

  /** A resend logged in a carried life keeps it carried. */
  lemma ResendOk(x: Slot, life: Life, now: int)
    requires Carries(x, life)
    ensures var x' := Resent(x, now); var life' := life.(log := life.log + [x'.buf]);
            Carries(x', life') && LifeOk(life')
  {
    var x' := Resent(x, now);
    var life' := life.(log := life.log + [x'.buf]);
    SetDupTwice(life.frame);
    if x.waitingPubcomp {
      var k :| 0 <= k < |life.log| && Phases(life, k);
      assert Phases(life', k);
    } else {
      assert x.buf != [] && x'.buf == SetDup(life.frame);
      assert Phases(life', |life'.log|);
    }
  }

  lemma CarriedIsOk(x: Slot, life: Life)
    requires Carries(x, life)
    ensures LifeOk(life)
  {}

  lemma PubrecOk(x: Slot, life: Life, now: int)
    requires Carries(x, life) && x.qos == 2 && !x.waitingPubcomp
    ensures var x' := x.(buf := PubRel(life.id), sentAt := now, waitingPubcomp := true);
            var life' := life.(log := life.log + [PubRel(life.id)]);
            Carries(x', life') && LifeOk(life')
  {
    var life' := life.(log := life.log + [PubRel(life.id)]);
    assert Phases(life', |life.log|);
  }

  /** One slot and its life changed together. */
  lemma OneChange(st: State, i: nat, x: Slot, life: Life)
    requires Inv(st) && i < |st.slots| && st.slots[i].inUse && x.inUse && Carries(x, life)
    ensures Inv(State(st.slots[i := x], st.owner, st.lives[st.owner[i] := life]))
  {
    CarriedIsOk(x, life);
  }

  lemma RecordStep(lives: seq<Life>, owner: seq<nat>, sent: seq<Sent>, x: Sent)
    requires x.slot < |owner| && owner[x.slot] < |lives|
    ensures var before := Record(lives, owner, sent);
            Record(lives, owner, sent + [x])
            == before[owner[x.slot] := before[owner[x.slot]].(log := before[owner[x.slot]].log + [x.frame])]
  {
    assert (sent + [x])[..|sent + [x]|-1] == sent;
  }

  lemma ResendKeepsInv(st: State, i: nat, now: int)
    requires Inv(st) && i < |st.slots| && st.slots[i].inUse
    ensures var x, l := Resent(st.slots[i], now), st.owner[i];
            Inv(State(st.slots[i := x], st.owner, st.lives[l := st.lives[l].(log := st.lives[l].log + [x.buf])]))
  {
    var x, life := Resent(st.slots[i], now), st.lives[st.owner[i]];
    ResendOk(st.slots[i], life, now);
    OneChange(st, i, x, life.(log := life.log + [x.buf]));
  }

  /** The state after a retry pass over the first `n` slots. */
  function Retried(st: State, now: int, n: nat): State
    requires n <= |st.slots|
  {
    var (slots, sent) := RetryPass(st.slots, now, n);
    State(slots, st.owner, Record(st.lives, st.owner, sent))
  }

  lemma RetryOneMore(st: State, now: int, n: nat)
    requires n < |st.slots| == |st.owner| && st.owner[n] < |st.lives| && Due(st.slots[n], now)
    ensures var mid, x, l := Retried(st, now, n), Resent(st.slots[n], now), st.owner[n];
            mid.slots[n] == st.slots[n]
            && Retried(st, now, n + 1)
               == State(mid.slots[n := x], st.owner, mid.lives[l := mid.lives[l].(log := mid.lives[l].log + [x.buf])])
  {
    RecordStep(st.lives, st.owner, RetryPass(st.slots, now, n).1, Sent(n, Resent(st.slots[n], now).buf));
  }

  lemma {:induction false} RetryKeepsInv(st: State, now: int, n: nat)
    requires Inv(st) && n <= |st.slots|
    ensures Inv(Retried(st, now, n))
  {
    if n == 0 {
      NothingRetried(st, now);
    } else {
      RetryKeepsInv(st, now, n - 1);
      if Due(st.slots[n-1], now) {
        DueKeepsInv(st, now, n - 1);
      } else {
        NotDue(st, now, n - 1);
      }
    }
  }

  lemma NothingRetried(st: State, now: int)
    ensures Retried(st, now, 0) == st
  {}

  lemma NotDue(st: State, now: int, n: nat)
    requires n < |st.slots| && !Due(st.slots[n], now)
    ensures Retried(st, now, n + 1) == Retried(st, now, n)
  {}

  lemma DueKeepsInv(st: State, now: int, n: nat)
    requires Inv(st) && n < |st.slots| && Due(st.slots[n], now) && Inv(Retried(st, now, n))
    ensures Inv(Retried(st, now, n + 1))
  {
    assert st.owner[n] < |st.lives|;
    RetryOneMore(st, now, n);
    ResendKeepsInv(Retried(st, now, n), n, now);
  }

  lemma NextKeepsInv(st: State, e: Event)
    requires Inv(st) && ValidEvent(e)
    ensures Inv(Next(st, e))
  {
    match e
    case Store(id, frame, qos, now) =>
      var life := Life(frame, id, qos, []);
      assert Phases(life, 0);
    case Ack(id) =>
    case PubRec(id, now) => PubrecKeepsInv(st, id, now);
    case Retry(now) => RetryKeepsInv(st, now, |st.slots|);
  }

  lemma PubrecKeepsInv(st: State, id: nat, now: int)
    requires Inv(st) && id < ID_LIMIT
    ensures Inv(Next(st, PubRec(id, now)))
  {
    var i := FirstAwaiting(st.slots, id, 0);
    if i < |st.slots| {
      var life := st.lives[st.owner[i]];
      PubrecOk(st.slots[i], life, now);
      RecordStep(st.lives, st.owner, [], Sent(i, PubRel(id)));
      assert [] + [Sent(i, PubRel(id))] == [Sent(i, PubRel(id))];
      OneChange(st, i, st.slots[i].(buf := PubRel(id), sentAt := now, waitingPubcomp := true),
                life.(log := life.log + [PubRel(id)]));
    }
  }

  /** In every run each stored message resends its own PUBLISH, differing in the
      DUP bit only, until its PUBREC, and afterwards only its PUBREL. */
  lemma {:induction false} LivesOk(n: nat, events: seq<Event>)
    requires forall i :: 0 <= i < |events| ==> ValidEvent(events[i])
    ensures Inv(Run(n, events))
  {
    if events != [] {
      LivesOk(n, events[..|events|-1]);
      NextKeepsInv(Run(n, events[..|events|-1]), events[|events|-1]);
    }
  }

  lemma {:induction false} RecordOnlyOwned(lives: seq<Life>, owner: seq<nat>, sent: seq<Sent>, l: nat)
    requires l < |lives| && forall k :: 0 <= k < |sent| ==> sent[k].slot < |owner| && owner[sent[k].slot] != l
    ensures Record(lives, owner, sent)[l] == lives[l]
  {
    if sent != [] {
      RecordOnlyOwned(lives, owner, sent[..|sent|-1], l);
    }
  }

  lemma {:induction false} RetrySendsInUse(s: seq<Slot>, now: int, n: nat)
    requires n <= |s|
    ensures forall k :: 0 <= k < |RetryPass(s, now, n).1| ==>
              var x := RetryPass(s, now, n).1[k]; x.slot < |s| && s[x.slot].inUse
  {
    if n > 0 {
      RetrySendsInUse(s, now, n - 1);
    }
  }

  /** No slot carries the message. */
  predicate Freed(st: State, l: nat)
    requires |st.owner| == |st.slots|
  {
    l < |st.lives| && forall i :: 0 <= i < |st.slots| && st.slots[i].inUse ==> st.owner[i] != l
  }

  lemma FreedStepIsSilent(st: State, e: Event, l: nat)
    requires Inv(st) && ValidEvent(e) && Freed(st, l)
    ensures Next(st, e).lives[l] == st.lives[l] && Freed(Next(st, e), l)
  {
    if e.Retry? {
      RetrySendsInUse(st.slots, e.now, |st.slots|);
    }
    RecordOnlyOwned(st.lives, st.owner, Step(st.slots, e).1, l);
  }

  lemma OneMoreIsSilent(n: nat, events: seq<Event>, e: Event, l: nat)
    requires (forall i :: 0 <= i < |events| ==> ValidEvent(events[i])) && ValidEvent(e) && Freed(Run(n, events), l)
    ensures Freed(Run(n, events + [e]), l) && Run(n, events + [e]).lives[l] == Run(n, events).lives[l]
  {
    LivesOk(n, events);
    FreedStepIsSilent(Run(n, events), e, l);
    assert (events + [e])[..|events + [e]|-1] == events;
  }

  /** Once its slot is freed, a message is never sent again, whatever happens. */
  lemma {:induction false} FreedIsSilent(n: nat, events: seq<Event>, more: seq<Event>, l: nat)
    requires forall i :: 0 <= i < |events| ==> ValidEvent(events[i])
    requires forall i :: 0 <= i < |more| ==> ValidEvent(more[i])
    requires Freed(Run(n, events), l)
    ensures Freed(Run(n, events + more), l) && Run(n, events + more).lives[l] == Run(n, events).lives[l]
  {
    if more == [] {
      assert events + more == events;
    } else {
      var last := |more| - 1;
      FreedIsSilent(n, events, more[..last], l);
      assert events + more == events + more[..last] + [more[last]];
      OneMoreIsSilent(n, events + more[..last], more[last], l);
    }
  }

  /** An acknowledgement frees the first slot holding the id. */
  lemma AckFrees(st: State, id: nat)
    requires Inv(st) && id < ID_LIMIT && FirstHolding(st.slots, id, 0) < |st.slots|
    ensures var l := st.owner[FirstHolding(st.slots, id, 0)];
            l < |st.lives| && st.lives[l].id == id && Freed(Next(st, Ack(id)), l) && Next(st, Ack(id)).lives[l] == st.lives[l]
  {}

  /** So an acknowledged message is never sent again. */
  lemma AckedIsSilent(n: nat, events: seq<Event>, id: nat, more: seq<Event>)
    requires forall i :: 0 <= i < |events| ==> ValidEvent(events[i])
    requires forall i :: 0 <= i < |more| ==> ValidEvent(more[i])
    requires id < ID_LIMIT && FirstHolding(Run(n, events).slots, id, 0) < n
    ensures var l := Run(n, events).owner[FirstHolding(Run(n, events).slots, id, 0)];
            var st := Run(n, events + [Ack(id)] + more);
            l < |Run(n, events).lives| && l < |st.lives| && Run(n, events).lives[l].id == id
            && st.lives[l] == Run(n, events).lives[l]
  {
    var acked := events + [Ack(id)];
    assert acked[..|acked|-1] == events;
    LivesOk(n, events);
    AckFrees(Run(n, events), id);
    FreedIsSilent(n, acked, more, Run(n, events).owner[FirstHolding(Run(n, events).slots, id, 0)]);
  }

  // ---------- what each event does ----------

  /** The message's slot was last sent at least five seconds ago. */
  ghost predicate IsDue(st: State, now: int, i: nat, l: nat)
    requires |st.owner| == |st.slots|
  {
    i < |st.slots| && st.slots[i].inUse && st.owner[i] == l && now - st.slots[i].sentAt >= 5000
  }

  /** What a resend of the slot is: the PUBLISH with DUP, or once PUBREC has come the
      PUBREL, section 3.6 of MQTT 3.1.1. */
  function Resend(x: Slot, life: Life): seq<Byte>
    requires life.frame != [] && life.id < ID_LIMIT
  {
    if x.qos == 2 && x.waitingPubcomp then [0x62, 2, life.id / 256, life.id % 256] else SetDup(life.frame)
  }

  lemma ResendIs(x: Slot, life: Life, now: int)
    requires Carries(x, life)
    ensures Resent(x, now) == x.(buf := Resend(x, life), sentAt := now)
  {
    SetDupTwice(life.frame);
    assert PubRel(life.id) == [0x62, 2, life.id / 256, life.id % 256];
  }

  /** A pass over `n` slots has resent the due message once, if its slot is among them. */
  ghost predicate LogFollows(st: State, now: int, n: nat, l: nat)
    requires n <= |st.slots| == |st.owner| && l < |st.lives| && st.lives[l].frame != [] && st.lives[l].id < ID_LIMIT
  {
    var lives := Retried(st, now, n).lives;
    && |lives| == |st.lives|
    && ((forall i :: 0 <= i < n ==> !IsDue(st, now, i, l)) ==> lives[l] == st.lives[l])
    && (forall i :: 0 <= i < n && IsDue(st, now, i, l) ==>
          lives[l] == st.lives[l].(log := st.lives[l].log + [Resend(st.slots[i], st.lives[l])]))
  }

  ghost predicate LogStays(st: State, now: int, n: nat, l: nat)
    requires n < |st.slots| == |st.owner| && l < |st.lives| && st.lives[l].frame != [] && st.lives[l].id < ID_LIMIT
  {
    LogFollows(st, now, n, l) ==> LogFollows(st, now, n + 1, l)
  }

  lemma {:induction false} RetriedLog(st: State, now: int, n: nat, l: nat)
    requires n <= |st.slots| == |st.owner| && l < |st.lives| && st.lives[l].frame != [] && st.lives[l].id < ID_LIMIT
    requires forall i :: 0 <= i < |st.slots| ==> LogStays(st, now, i, l)
    ensures LogFollows(st, now, n, l)
  {
    if n == 0 {
      NoLogYet(st, now, l);
    } else {
      var before := n - 1;
      RetriedLog(st, now, before, l);
      LogStep(st, now, before, l);
    }
  }

  lemma LogStep(st: State, now: int, n: nat, l: nat)
    requires n < |st.slots| == |st.owner| && l < |st.lives| && st.lives[l].frame != [] && st.lives[l].id < ID_LIMIT
    requires LogStays(st, now, n, l) && LogFollows(st, now, n, l)
    ensures LogFollows(st, now, n + 1, l)
  {}

  lemma NoLogYet(st: State, now: int, l: nat)
    requires |st.slots| == |st.owner| && l < |st.lives| && st.lives[l].frame != [] && st.lives[l].id < ID_LIMIT
    ensures LogFollows(st, now, 0, l)
  {
    NothingRetried(st, now);
  }

  lemma OneMoreLog(st: State, now: int, n: nat, l: nat)
    requires Inv(st) && n < |st.slots| && l < |st.lives| && st.lives[l].frame != [] && st.lives[l].id < ID_LIMIT
    requires LogFollows(st, now, n, l)
    ensures LogFollows(st, now, n + 1, l)
  {
    if Due(st.slots[n], now) {
      DueLog(st, now, n, l);
    } else {
      NotDue(st, now, n);
    }
  }

  lemma DueLog(st: State, now: int, n: nat, l: nat)
    requires Inv(st) && n < |st.slots| && l < |st.lives| && st.lives[l].frame != [] && st.lives[l].id < ID_LIMIT
    requires Due(st.slots[n], now) && LogFollows(st, now, n, l)
    ensures LogFollows(st, now, n + 1, l)
  {
    assert st.owner[n] < |st.lives| && Carries(st.slots[n], st.lives[st.owner[n]]);
    assert IsDue(st, now, n, l) <==> st.owner[n] == l;
    if st.owner[n] == l {
      forall i | 0 <= i < n ensures !IsDue(st, now, i, l) {}
    }
    RetryOneMore(st, now, n);
    ResendIs(st.slots[n], st.lives[st.owner[n]], now);
  }

  /** At a retry a message is resent once if it has a slot last sent at least five
      seconds ago, and otherwise not at all. */
  lemma RetryGrows(st: State, now: int, l: nat)
    requires Inv(st) && l < |st.lives|
    ensures var st' := Next(st, Retry(now));
            && l < |st'.lives|
            && ((forall i :: 0 <= i < |st.slots| ==> !IsDue(st, now, i, l)) ==> st'.lives[l] == st.lives[l])
            && (forall i :: 0 <= i < |st.slots| && IsDue(st, now, i, l) ==>
                  st'.lives[l] == st.lives[l].(log := st.lives[l].log + [Resend(st.slots[i], st.lives[l])])
                  && st'.slots[i] == st.slots[i].(buf := Resend(st.slots[i], st.lives[l]), sentAt := now))
  {
    assert LifeOk(st.lives[l]);
    forall i | 0 <= i < |st.slots| ensures LogStays(st, now, i, l) {
      if LogFollows(st, now, i, l) {
        OneMoreLog(st, now, i, l);
      }
    }
    RetriedLog(st, now, |st.slots|, l);
    assert Next(st, Retry(now)) == Retried(st, now, |st.slots|);
    forall i | 0 <= i < |st.slots| && IsDue(st, now, i, l)
      ensures Next(st, Retry(now)).slots[i] == st.slots[i].(buf := Resend(st.slots[i], st.lives[l]), sentAt := now)
    {
      ResendIs(st.slots[i], st.lives[l], now);
    }
  }

  /** So in every reachable state: a message in flight is resent at every retry that
      comes five seconds after it was last sent. */
  lemma InFlightIsResent(n: nat, events: seq<Event>, now: int, i: nat)
    requires forall k :: 0 <= k < |events| ==> ValidEvent(events[k])
    requires i < n && Run(n, events).slots[i].inUse && now - Run(n, events).slots[i].sentAt >= 5000
    ensures var st, st' := Run(n, events), Run(n, events + [Retry(now)]);
            var l := st.owner[i];
            && l < |st.lives| && l < |st'.lives| && LifeOk(st.lives[l])
            && st'.lives[l] == st.lives[l].(log := st.lives[l].log + [Resend(st.slots[i], st.lives[l])])
            && st'.slots[i].inUse && st'.slots[i].sentAt == now && st'.owner == st.owner
  {
    var st := Run(n, events);
    LivesOk(n, events);
    assert (events + [Retry(now)])[..|events + [Retry(now)]|-1] == events;
    assert IsDue(st, now, i, st.owner[i]);
    RetryGrows(st, now, st.owner[i]);
  }

  /** A slot in use that waits for the PUBREC of `id`. */
  ghost predicate Awaits(st: State, id: nat, i: nat) {
    i < |st.slots| && st.slots[i].inUse && st.slots[i].packetId == id && st.slots[i].qos == 2 && !st.slots[i].waitingPubcomp
  }

  /** The first slot waiting for it answers a PUBREC with its PUBREL, once; a PUBREC
      nothing waits for does nothing. */
  lemma PubrecMeaning(st: State, id: nat, now: int)
    requires Inv(st) && id < ID_LIMIT
    ensures (forall i :: 0 <= i < |st.slots| ==> !Awaits(st, id, i)) ==> Next(st, PubRec(id, now)) == st
    ensures forall i :: 0 <= i < |st.slots| && Awaits(st, id, i) && (forall k :: 0 <= k < i ==> !Awaits(st, id, k)) ==>
              var l, rel := st.owner[i], [0x62, 2, id / 256, id % 256];
              l < |st.lives| && Next(st, PubRec(id, now)) ==
                State(st.slots[i := st.slots[i].(buf := rel, sentAt := now, waitingPubcomp := true)], st.owner,
                      st.lives[l := st.lives[l].(log := st.lives[l].log + [rel])])
  {
    var i := FirstAwaiting(st.slots, id, 0);
    assert PubRel(id) == [0x62, 2, id / 256, id % 256];
    if i < |st.slots| {
      assert Awaits(st, id, i);
      RecordStep(st.lives, st.owner, [], Sent(i, PubRel(id)));
      assert [] + [Sent(i, PubRel(id))] == [Sent(i, PubRel(id))];
    }
    forall k | 0 <= k < |st.slots| && Awaits(st, id, k) ensures i <= k {
      assert AwaitsPubrec(st.slots[k], id);
    }
  }

  ghost predicate InUseAs(st: State, id: nat, i: nat) {
    i < |st.slots| && st.slots[i].inUse && st.slots[i].packetId == id
  }

  /** An acknowledgement frees the first slot holding the id, whatever its QoS, and does
      nothing else. */
  lemma AckMeaning(st: State, id: nat)
    requires id < ID_LIMIT && |st.owner| == |st.slots|
    ensures (forall i :: 0 <= i < |st.slots| ==> !InUseAs(st, id, i)) ==> Next(st, Ack(id)) == st
    ensures forall i :: 0 <= i < |st.slots| && InUseAs(st, id, i) && (forall k :: 0 <= k < i ==> !InUseAs(st, id, k)) ==>
              Next(st, Ack(id)) == st.(slots := st.slots[i := st.slots[i].(inUse := false)])
  {
    var i := FirstHolding(st.slots, id, 0);
    if i < |st.slots| {
      assert InUseAs(st, id, i);
    }
    forall k | 0 <= k < |st.slots| && InUseAs(st, id, k) ensures i <= k {
      assert Holds(st.slots[k], id);
    }
  }

  /** A store takes the first free slot for a message nothing was resent of yet, or with
      all slots in use does nothing. */
  lemma StoreMeaning(st: State, id: nat, frame: seq<Byte>, qos: nat, now: int)
    requires ValidEvent(Store(id, frame, qos, now)) && |st.owner| == |st.slots|
    ensures (forall i :: 0 <= i < |st.slots| ==> st.slots[i].inUse) ==> Next(st, Store(id, frame, qos, now)) == st
    ensures forall i :: 0 <= i < |st.slots| && !st.slots[i].inUse && (forall k :: 0 <= k < i ==> st.slots[k].inUse) ==>
              Next(st, Store(id, frame, qos, now)) ==
                State(st.slots[i := Slot(id, frame, now, true, qos, false)], st.owner[i := |st.lives|],
                      st.lives + [Life(frame, id, qos, [])])
  {
    var i := FirstWhere(st.slots, NotInUse, 0);
    forall k | 0 <= k < |st.slots| && !st.slots[k].inUse ensures i <= k {
      assert NotInUse(st.slots[k]);
    }
  }

  // ---------- what the slots carry ----------

  /** Stored frames are PUBLISH packets as fan-out builds them, never retained. */
  ghost predicate IsFanOut(frame: seq<Byte>, id: nat, qos: nat) {
    exists p: Publish :: BuiltFrom(p, frame, id, qos)
  }

  predicate BuiltFrom(p: Publish, frame: seq<Byte>, id: nat, qos: nat) {
    Buildable(p) && p.retain == 0 && frame == FrameBytes(FrameOf(p)) && p.packetId == id && p.qos == qos
  }

  ghost predicate StoresFanOut(e: Event) {
    e.Store? ==> IsFanOut(e.frame, e.id, e.qos)
  }

  ghost predicate LivesFanOut(lives: seq<Life>) {
    forall l :: 0 <= l < |lives| ==> IsFanOut(lives[l].frame, lives[l].id, lives[l].qos)
  }

  lemma {:induction false} RecordKeepsFrames(lives: seq<Life>, owner: seq<nat>, sent: seq<Sent>)
    requires LivesFanOut(lives)
    ensures LivesFanOut(Record(lives, owner, sent))
  {
    if sent != [] {
      RecordKeepsFrames(lives, owner, sent[..|sent|-1]);
    }
  }

  lemma {:induction false} RunFanOut(n: nat, events: seq<Event>)
    requires forall i :: 0 <= i < |events| ==> ValidEvent(events[i]) && StoresFanOut(events[i])
    ensures LivesFanOut(Run(n, events).lives)
  {
    if events != [] {
      var st := Run(n, events[..|events|-1]);
      RunFanOut(n, events[..|events|-1]);
      RecordKeepsFrames(st.lives, st.owner, Step(st.slots, events[|events|-1]).1);
    }
  }

  /** A QoS 1 slot holds its fan-out frame, as stored or with DUP set. */
  ghost predicate HoldsFanOut(x: Slot) {
    x.inUse && x.qos == 1 ==>
      exists p: Publish :: Buildable(p) && p.retain == 0 && p.qos == 1 && p.packetId == x.packetId
                           && (x.buf == FrameBytes(FrameOf(p)) || x.buf == SetDup(FrameBytes(FrameOf(p))))
  }

  lemma SlotsHoldFanOut(n: nat, events: seq<Event>, i: nat)
    requires forall i :: 0 <= i < |events| ==> ValidEvent(events[i]) && StoresFanOut(events[i])
    requires i < n
    ensures HoldsFanOut(Run(n, events).slots[i])
  {
    LivesOk(n, events);
    RunFanOut(n, events);
    var st := Run(n, events);
    var x := st.slots[i];
    if x.inUse && x.qos == 1 {
      var life := st.lives[st.owner[i]];
      var p: Publish :| BuiltFrom(p, life.frame, life.id, life.qos);
    }
  }

  // ---------- in place ----------

  class Table {
    const slots: array<Slot>
    var sent: seq<Sent>

    constructor (n: nat)
      ensures slots[..] == seq(n, _ => EMPTY) && sent == [] && fresh(slots)
    {
      slots := new Slot[n](_ => EMPTY);
      sent := [];
      new;
      assert slots[..] == seq(n, _ => EMPTY);
    }

    /** client_inflight_store: the first free slot, else the message is dropped. */
    method StoreFrame(id: nat, frame: seq<Byte>, qos: nat, now: int)
      requires ValidEvent(Store(id, frame, qos, now))
      modifies slots
      ensures slots[..] == Step(old(slots[..]), Store(id, frame, qos, now)).0
    {
      for i := 0 to slots.Length
        invariant slots[..] == old(slots[..]) && FirstWhere(slots[..], NotInUse, 0) == FirstWhere(slots[..], NotInUse, i)
      {
        if !slots[i].inUse {
          slots[i] := Slot(id, frame, now, true, qos, false);
          assert slots[..] == old(slots[..])[i := slots[i]];
          return;
        }
      }
    }

    /** client_inflight_ack, for PUBACK and PUBCOMP alike. */
    method Acknowledge(id: nat)
      requires ValidEvent(Ack(id))
      modifies slots
      ensures slots[..] == Step(old(slots[..]), Ack(id)).0
    {
      for i := 0 to slots.Length
        invariant slots[..] == old(slots[..]) && FirstHolding(slots[..], id, 0) == FirstHolding(slots[..], id, i)
      {
        if slots[i].inUse && slots[i].packetId == id {
          slots[i] := slots[i].(inUse := false);
          assert slots[..] == old(slots[..])[i := slots[i]];
          return;
        }
      }
    }

    /** The PUBREC branch. */
    method HandlePubrec(id: nat, now: int)
      requires ValidEvent(PubRec(id, now))
      modifies this, slots
      ensures (slots[..], sent) == (Step(old(slots[..]), PubRec(id, now)).0, old(sent) + Step(old(slots[..]), PubRec(id, now)).1)
    {
      for i := 0 to slots.Length
        invariant slots[..] == old(slots[..]) && sent == old(sent)
        invariant FirstAwaiting(slots[..], id, 0) == FirstAwaiting(slots[..], id, i)
      {
        if !slots[i].inUse || slots[i].packetId != id || slots[i].qos != 2 || slots[i].waitingPubcomp {
          continue;
        }
        sent := sent + [Sent(i, PubRel(id))];
        slots[i] := slots[i].(waitingPubcomp := true, sentAt := now, buf := PubRel(id));
        assert slots[..] == old(slots[..])[i := slots[i]];
        return;
      }
      assert sent == old(sent) + [];
    }

    /** client_inflight_retry. */
    method RetryDue(now: int)
      requires forall i :: 0 <= i < slots.Length && slots[i].inUse ==> slots[i].buf != []
      modifies this, slots
      ensures (slots[..], sent) == (Step(old(slots[..]), Retry(now)).0, old(sent) + Step(old(slots[..]), Retry(now)).1)
    {
      for i := 0 to slots.Length
        invariant slots[..] == RetryPass(old(slots[..]), now, i).0
        invariant sent == old(sent) + RetryPass(old(slots[..]), now, i).1
      {
        if !slots[i].inUse || now - slots[i].sentAt < RETRY_MS {
          continue;
        }
        if !(slots[i].qos == 2 && slots[i].waitingPubcomp) {
          slots[i] := slots[i].(buf := SetDup(slots[i].buf));
        }
        slots[i] := slots[i].(sentAt := now);
        sent := sent + [Sent(i, slots[i].buf)];
      }
    }
  }
}
