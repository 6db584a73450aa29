/**
 Persistent sessions: what a disconnecting client leaves behind, what is queued
 while it is away, and what it gets when it comes back.
 */
module Session {
  import opened Common
  import opened TopicFilter
  import opened Packet
  import opened PublishCodec
  import Inflight

  datatype QueuedMsg = QueuedMsg(topic: seq<Byte>, payload: seq<Byte>, qos: nat, packetId: nat, dup: nat)

  /** A queue slot; None is not in use. */
  type Queue = seq<Option<QueuedMsg>>

  datatype SavedSub = SavedSub(filter: string, qos: nat)

  datatype SessionState = SessionState(offline: bool, nextId: nat, subs: seq<SavedSub>, queue: Queue)

  const SUB_MAX := 4
  const SEND_CAP := MAX_PACKET + 8

  function Text(b: seq<Byte>): (r: string)
    ensures |r| == |b|
  {
    seq(|b|, i requires 0 <= i < |b| => b[i] as char)
  }

  /** The packet a queued message is sent as: never retained. */
  function PublishOf(m: QueuedMsg): Publish {
    Publish(m.topic, m.payload, m.qos, 0, m.dup, m.packetId)
  }

  predicate MsgOk(m: QueuedMsg) {
    Buildable(PublishOf(m))
  }

  function FrameOfMsg(m: QueuedMsg): seq<Byte>
    requires MsgOk(m)
  {
    FrameBytes(FrameOf(PublishOf(m)))
  }

  // ---------- the queue ----------

  predicate NoMsg(x: Option<QueuedMsg>) {
    x.None?
  }

  /** session_enqueue: the first free slot, or dropped. */
  function Enqueue(q: Queue, m: QueuedMsg): (r: Queue)
    ensures |r| == |q|
  {
    var i := FirstWhere(q, NoMsg, 0);
    if i < |q| then q[i := Some(m)] else q
  }

  function EnqueueAll(q: Queue, ms: seq<QueuedMsg>): (r: Queue)
    ensures |r| == |q|
  {
    if ms == [] then q else Enqueue(EnqueueAll(q, ms[..|ms|-1]), ms[|ms|-1])
  }

  /** What a drain sends: the messages in slot order. */
  function InOrder(q: Queue): seq<QueuedMsg> {
    if q == [] then []
    else InOrder(q[..|q|-1]) + if q[|q|-1].Some? then [q[|q|-1].value] else []
  }

  lemma InOrderStep(q: Queue, i: nat)
    requires i < |q|
    ensures InOrder(q[..i+1]) == if q[i].Some? then InOrder(q[..i]) + [q[i].value] else InOrder(q[..i])
  {
    assert q[..i+1][..i] == q[..i];
  }

  function EmptyQueue(n: nat): (r: Queue)
    ensures |r| == n && forall i :: 0 <= i < n ==> r[i] == None
  {
    seq(n, _ => None)
  }

  /** A queue holding `ms` in its first slots and nothing behind them. */
  function Packed(ms: seq<QueuedMsg>, n: nat): (r: Queue)
    requires |ms| <= n
    ensures |r| == n && forall i :: 0 <= i < n ==> r[i] == if i < |ms| then Some(ms[i]) else None
  {
    seq(n, i requires 0 <= i < n => if i < |ms| then Some(ms[i]) else None)
  }

  function Clip(ms: seq<QueuedMsg>, n: nat): seq<QueuedMsg> {
    if |ms| <= n then ms else ms[..n]
  }

  lemma PackedFree(ms: seq<QueuedMsg>, n: nat)
    requires |ms| < n
    ensures FirstWhere(Packed(ms, n), NoMsg, 0) == |ms|
  {
    var q := Packed(ms, n);
    assert forall k :: 0 <= k < |ms| ==> q[k] == Some(ms[k]);
    assert q[|ms|] == None;
  }

  /** Filling an empty queue keeps the messages in arrival order and drops those
      that come when it is full. */
  lemma {:induction false} FillsInOrder(n: nat, ms: seq<QueuedMsg>)
    ensures EnqueueAll(EmptyQueue(n), ms) == Packed(Clip(ms, n), n)
  {
    if ms == [] {
    } else {
      var before, last := ms[..|ms|-1], ms[|ms|-1];
      FillsInOrder(n, before);
      var q := Packed(Clip(before, n), n);
      if |before| < n {
        PackedFree(before, n);
        assert ms == before + [last] && Clip(ms, n) == ms && Clip(before, n) == before;
        assert Packed(ms, n) == q[|before| := Some(last)];
      } else {
        assert FirstWhere(q, NoMsg, 0) == n;
        assert Clip(before, n) == Clip(ms, n);
      }
    }
  }

  lemma {:induction false} PackedInOrder(ms: seq<QueuedMsg>, n: nat)
    requires |ms| <= n
    ensures InOrder(Packed(ms, n)) == ms
  {
    if n > 0 {
      var q := Packed(ms, n);
      if |ms| < n {
        assert q[..n-1] == Packed(ms, n - 1);
        PackedInOrder(ms, n - 1);
      } else {
        assert q[..n-1] == Packed(ms[..n-1], n - 1);
        PackedInOrder(ms[..n-1], n - 1);
        assert ms == ms[..n-1] + [ms[n-1]];
      }
    }
  }

  lemma EnqueueAllStep(q: Queue, ms: seq<QueuedMsg>, m: QueuedMsg)
    ensures EnqueueAll(q, ms + [m]) == Enqueue(EnqueueAll(q, ms), m)
  {
    assert (ms + [m])[..|ms + [m]|-1] == ms;
  }

  /** The frames a drain sends; a message that cannot be encoded is passed over. */
  function Frames(ms: seq<QueuedMsg>): seq<seq<Byte>> {
    if ms == [] then []
    else Frames(ms[..|ms|-1]) + match FrameFor(ms[|ms|-1]) case None => [] case Some(f) => [f]
  }

  function FrameFor(m: QueuedMsg): Option<seq<Byte>> {
    if WellFormed(PublishOf(m)) then Build(PublishOf(m), SEND_CAP) else None
  }

  lemma FramesStep(ms: seq<QueuedMsg>, m: QueuedMsg)
    ensures Frames(ms + [m]) == match FrameFor(m) case None => Frames(ms) case Some(f) => Frames(ms) + [f]
  {
    assert (ms + [m])[..|ms + [m]|-1] == ms;
  }

  /** What a drain records as in flight: every frame above QoS 0. */
  function Stores(ms: seq<QueuedMsg>, now: int): seq<Inflight.Event> {
    if ms == [] then [] else Stores(ms[..|ms|-1], now) + StoreFor(ms[|ms|-1], now)
  }

  function StoreFor(m: QueuedMsg, now: int): seq<Inflight.Event> {
    match FrameFor(m)
    case None => []
    case Some(f) => if m.qos > 0 then [Inflight.Store(m.packetId, f, m.qos, now)] else []
  }

  /** What a drain sends and records for one slot. */
  function SlotFrames(x: Option<QueuedMsg>): seq<seq<Byte>> {
    if x.None? then [] else match FrameFor(x.value) case None => [] case Some(f) => [f]
  }

  function SlotStores(x: Option<QueuedMsg>, now: int): seq<Inflight.Event> {
    if x.None? then [] else StoreFor(x.value, now)
  }

  lemma OneMoreSlot(q: Queue, i: nat, now: int)
    requires i < |q|
    ensures Frames(InOrder(q[..i+1])) == Frames(InOrder(q[..i])) + SlotFrames(q[i])
    ensures Stores(InOrder(q[..i+1]), now) == Stores(InOrder(q[..i]), now) + SlotStores(q[i], now)
  {
    InOrderStep(q, i);
    if q[i].Some? {
      FramesStep(InOrder(q[..i]), q[i].value);
      StoresStep(InOrder(q[..i]), q[i].value, now);
    }
  }

  lemma StoresStep(ms: seq<QueuedMsg>, m: QueuedMsg, now: int)
    ensures Stores(ms + [m], now) == Stores(ms, now) + StoreFor(m, now)
  {
    assert (ms + [m])[..|ms + [m]|-1] == ms;
  }

  // ---------- what a disconnect saves ----------

  /** The message decoded from an in-flight frame, marked as a duplicate. */
  function Decoded(x: Inflight.Slot): Option<QueuedMsg> {
    if !x.inUse || x.qos != 1 || x.buf == [] then None
    else match FrameIn(x.buf)
         case None => None
         case Some(f) => Reparsed(f, x.packetId)
  }

  function Reparsed(f: Frame, packetId: nat): Option<QueuedMsg>
    requires |f.body| <= MAX_PACKET
  {
    match Parse(f, 0)
    case None => None
    case Some(p) => Some(QueuedMsg(p.topic, p.payload, p.qos, packetId, 1))
  }

  /** The frame a stored buffer holds. */
  function FrameIn(buf: seq<Byte>): (r: Option<Frame>)
    requires buf != []
    ensures r.Some? ==> |r.value.body| <= MAX_PACKET
  {
    match DecodeLength(buf[1..], 4)
    case None => None
    case Some((len, n)) =>
      if len > MAX_PACKET || 1 + n + len > |buf| then None else Some(Frame(buf[0], buf[1+n..1+n+len]))
  }

  /** The messages a disconnect saves, in slot order. */
  function Saved(s: seq<Inflight.Slot>): seq<QueuedMsg> {
    if s == [] then []
    else Saved(s[..|s|-1]) + match Decoded(s[|s|-1]) case None => [] case Some(m) => [m]
  }

  /** A slot holding a QoS 1 PUBLISH, as built or as already resent. */
  predicate CarriesPublish(x: Inflight.Slot, p: Publish)
    requires WellFormed(p)
  {
    && x.inUse && x.qos == 1 && x.packetId == p.packetId
    && x.buf != [] && (x.buf == FrameBytes(FrameOf(p)) || x.buf == SetDup(FrameBytes(FrameOf(p))))
  }

  lemma DecodesFraming(f: Frame)
    requires |f.body| <= MAX_PACKET
    ensures var b, n := FrameBytes(f), |LengthBytes(|f.body|)|;
            && b[0] == f.typeFlags && 1 + n + |f.body| == |b|
            && DecodeLength(b[1..], 4) == Some((|f.body|, n)) && b[1+n..1+n+|f.body|] == f.body
  {
    RemainingLengthInverts(|f.body|, f.body);
    assert FrameBytes(f)[1..] == LengthBytes(|f.body|) + f.body;
  }

  lemma DecodesFramed(x: Inflight.Slot, f: Frame)
    requires |f.body| <= MAX_PACKET && x.inUse && x.qos == 1 && x.buf == FrameBytes(f)
    ensures Decoded(x) == Reparsed(f, x.packetId)
  {
    FrameInFramed(f);
  }

  lemma FrameInFramed(f: Frame)
    requires |f.body| <= MAX_PACKET
    ensures FrameBytes(f) != [] && FrameIn(FrameBytes(f)) == Some(f)
  {
    DecodesFraming(f);
  }

  lemma DecodesFrame(x: Inflight.Slot, p: Publish)
    requires Buildable(p) && p.qos == 1 && CarriesPublish(x, p)
    ensures Decoded(x) == Some(QueuedMsg(p.topic, p.payload, 1, p.packetId, 1))
  {
    SetDupIsDup(p);
    var p' := if x.buf == FrameBytes(FrameOf(p)) then p else p.(dup := 1);
    DecodesFramed(x, FrameOf(p'));
    ParseInvertsBuild(p', |FrameBytes(FrameOf(p'))|, 0);
  }

  /** A QoS 1 frame in flight comes back after the reconnect byte for byte, with
      DUP set, exactly when it was not sent as a retained message. */
  lemma ResumeIsByteIdentical(x: Inflight.Slot, p: Publish)
    requires Buildable(p) && p.qos == 1 && CarriesPublish(x, p)
    ensures Decoded(x).Some? && MsgOk(Decoded(x).value)
    ensures FrameOfMsg(Decoded(x).value) == SetDup(FrameBytes(FrameOf(p))) <==> p.retain == 0
  {
    DecodesFrame(x, p);
    SetDupIsDup(p);
    var m := Decoded(x).value;
    assert PublishOf(m) == p.(dup := 1, retain := 0);
    if p.retain == 1 {
      assert FrameOfMsg(m)[0] == FlagsOf(PublishOf(m));
      assert FrameBytes(FrameOf(p.(dup := 1)))[0] == FlagsOf(p.(dup := 1));
    }
  }

  /** A retained message in flight comes back as one that is not. */
  lemma RetainedComesBackPlain(now: int)
    ensures var p := Publish([97], [], 1, 1, 0, 1);
            var x := Inflight.Slot(1, FrameBytes(FrameOf(p)), now, true, 1, false);
            && Buildable(p) && Decoded(x).Some? && MsgOk(Decoded(x).value)
            && FrameOfMsg(Decoded(x).value) != SetDup(FrameBytes(FrameOf(p)))
  {
    var p := Publish([97], [], 1, 1, 0, 1);
    assert Buildable(p);
    ResumeIsByteIdentical(Inflight.Slot(1, FrameBytes(FrameOf(p)), now, true, 1, false), p);
  }

  // ---------- while the client is away ----------

  function FirstMatching(subs: seq<SavedSub>, topic: string, i: nat): (r: nat)
    requires i <= |subs|
    ensures i <= r <= |subs| && (r < |subs| ==> TopicMatch(subs[r].filter, topic))
    ensures forall k :: i <= k < r ==> !TopicMatch(subs[k].filter, topic)
    decreases |subs| - i
  {
    if i == |subs| || TopicMatch(subs[i].filter, topic) then i else FirstMatching(subs, topic, i + 1)
  }

  /** The QoS at which an away client is owed a publish; zero is not at all. */
  function OwedQos(s: SessionState, p: Publish): nat {
    var j := FirstMatching(s.subs, Text(p.topic), 0);
    if p.qos == 0 || !s.offline || j == |s.subs| then 0 else Min(p.qos, s.subs[j].qos)
  }

  function FreshId(nextId: nat): nat {
    if nextId == 0 then 1 else nextId
  }

  /** What a publish that is owed is queued as. */
  function Missed(s: SessionState, p: Publish): QueuedMsg {
    QueuedMsg(p.topic, p.payload, OwedQos(s, p), FreshId(s.nextId), p.dup)
  }

  /** session_offline_publish on one session. */
  function OfflinePublish(s: SessionState, p: Publish): SessionState {
    var qos := OwedQos(s, p);
    if qos == 0 then s
    else
      var id := FreshId(s.nextId);
      s.(nextId := (id + 1) % ID_LIMIT, queue := Enqueue(s.queue, Missed(s, p)))
  }

  // ---------- a session's life ----------

  datatype Event =
    | Disconnect(slots: seq<Inflight.Slot>, subs: seq<SavedSub>)
    | Away(publish: Publish)
    | Resume

  /** The branches of client_free, topic_publish and handle_connect that touch a
      persistent session.  Disconnecting is for a connected client, resuming for
      one that is away. */
  function Next(s: SessionState, e: Event): SessionState {
    match e
    case Disconnect(slots, subs) =>
      if s.offline then s
      else SessionState(true, s.nextId, if |subs| <= SUB_MAX then subs else subs[..SUB_MAX],
                        EnqueueAll(s.queue, Saved(slots)))
    case Away(p) => OfflinePublish(s, p)
    case Resume => if s.offline then s.(offline := false, queue := EmptyQueue(|s.queue|)) else s
  }

  function Run(n: nat, events: seq<Event>): SessionState {
    if events == [] then SessionState(false, 0, [], EmptyQueue(n))
    else Next(Run(n, events[..|events|-1]), events[|events|-1])
  }

  /** What a client owes since it last disconnected: the saved frames, then the
      publishes it missed, oldest first. */
  function Owed(n: nat, events: seq<Event>): seq<QueuedMsg> {
    if events == [] then []
    else
      var before := events[..|events|-1];
      var s := Run(n, before);
      match events[|events|-1]
      case Disconnect(slots, _) => if s.offline then Owed(n, before) else Saved(slots)
      case Away(p) =>
        if OwedQos(s, p) == 0 then Owed(n, before)
        else Owed(n, before) + [Missed(s, p)]
      case Resume => []
  }

  /** In every reachable state the queue holds what is owed, oldest first, as far
      as its slots reach; a connected client is owed nothing. */
  lemma {:induction false} QueueHoldsOwed(n: nat, events: seq<Event>)
    ensures HoldsOwed(n, Run(n, events), Owed(n, events))
  {
    if events != [] {
      QueueHoldsOwed(n, events[..|events|-1]);
      OneMoreEvent(n, events);
    }
  }

  /** The queue is what is owed, and a connected client is owed nothing. */
  ghost predicate HoldsOwed(n: nat, s: SessionState, owed: seq<QueuedMsg>) {
    s.queue == EnqueueAll(EmptyQueue(n), owed) && (!s.offline ==> owed == [])
  }

  lemma OneMoreEvent(n: nat, events: seq<Event>)
    requires events != []
    requires HoldsOwed(n, Run(n, events[..|events|-1]), Owed(n, events[..|events|-1]))
    ensures HoldsOwed(n, Run(n, events), Owed(n, events))
  {
    var before := events[..|events|-1];
    var s, owed := Run(n, before), Owed(n, before);
    match events[|events|-1]
    case Disconnect(slots, subs) => DisconnectHolds(n, s, owed, slots, subs);
    case Away(p) => AwayHolds(n, s, owed, p);
    case Resume => ResumeHolds(n, s, owed);
  }

  lemma DisconnectHolds(n: nat, s: SessionState, owed: seq<QueuedMsg>, slots: seq<Inflight.Slot>, subs: seq<SavedSub>)
    requires HoldsOwed(n, s, owed)
    ensures HoldsOwed(n, Next(s, Disconnect(slots, subs)), if s.offline then owed else Saved(slots))
  {}

  lemma AwayHolds(n: nat, s: SessionState, owed: seq<QueuedMsg>, p: Publish)
    requires HoldsOwed(n, s, owed)
    ensures HoldsOwed(n, Next(s, Away(p)), if OwedQos(s, p) == 0 then owed else owed + [Missed(s, p)])
  {
    if OwedQos(s, p) != 0 {
      EnqueueAllStep(EmptyQueue(n), owed, Missed(s, p));
    }
  }

  lemma ResumeHolds(n: nat, s: SessionState, owed: seq<QueuedMsg>)
    requires HoldsOwed(n, s, owed)
    ensures HoldsOwed(n, Next(s, Resume), [])
  {}

  /** A drain emits the saved in-flight messages in slot order, then the accepted
      offline ones in publish order, up to the queue's size. */
  lemma DrainOrder(n: nat, events: seq<Event>)
    ensures InOrder(Run(n, events).queue) == Clip(Owed(n, events), n)
    ensures Frames(InOrder(Run(n, events).queue)) == Frames(Clip(Owed(n, events), n))
  {
    QueueHoldsOwed(n, events);
    FillsInOrder(n, Owed(n, events));
    PackedInOrder(Clip(Owed(n, events), n), n);
  }

  /** While the client stays away, what it is owed starts with the frames saved at
      its disconnect. */
  lemma {:induction false} SavedComeFirst(n: nat, events: seq<Event>, slots: seq<Inflight.Slot>, subs: seq<SavedSub>, missed: seq<Publish>)
    requires !Run(n, events).offline
    ensures var away := events + [Disconnect(slots, subs)] + Aways(missed);
            Run(n, away).offline && Saved(slots) <= Owed(n, away)
  {
    var gone := events + [Disconnect(slots, subs)];
    if missed == [] {
      DisconnectOwes(n, events, slots, subs);
      assert gone + Aways(missed) == gone;
    } else {
      var last := |missed| - 1;
      SavedComeFirst(n, events, slots, subs, missed[..last]);
      AwaysStep(gone, missed);
      OneMoreMissed(n, gone + Aways(missed[..last]), missed[last], Saved(slots));
    }
  }

  lemma DisconnectOwes(n: nat, events: seq<Event>, slots: seq<Inflight.Slot>, subs: seq<SavedSub>)
    requires !Run(n, events).offline
    ensures var gone := events + [Disconnect(slots, subs)]; Run(n, gone).offline && Owed(n, gone) == Saved(slots)
  {
    var gone := events + [Disconnect(slots, subs)];
    assert gone[..|gone|-1] == events;
  }

  lemma AwaysStep(events: seq<Event>, missed: seq<Publish>)
    requires missed != []
    ensures events + Aways(missed) == events + Aways(missed[..|missed|-1]) + [Away(missed[|missed|-1])]
  {}

  lemma OneMoreMissed(n: nat, events: seq<Event>, p: Publish, first: seq<QueuedMsg>)
    requires Run(n, events).offline && first <= Owed(n, events)
    ensures Run(n, events + [Away(p)]).offline && first <= Owed(n, events + [Away(p)])
  {
    var more := events + [Away(p)];
    assert more[..|more|-1] == events;
  }

  function Aways(missed: seq<Publish>): (r: seq<Event>)
    ensures |r| == |missed| && forall i :: 0 <= i < |r| ==> r[i] == Away(missed[i])
  {
    seq(|missed|, i requires 0 <= i < |missed| => Away(missed[i]))
  }

  // ---------- what each event does ----------

  /** The first saved subscription that matches the publish. */
  ghost predicate FirstSaved(s: SessionState, p: Publish, j: nat) {
    && j < |s.subs| && TopicMatch(s.subs[j].filter, Text(p.topic))
    && forall k :: 0 <= k < j ==> !TopicMatch(s.subs[k].filter, Text(p.topic))
  }

  /** The first free slot of the queue. */
  ghost predicate FirstFree(q: Queue, i: nat) {
    i < |q| && q[i] == None && forall k :: 0 <= k < i ==> q[k] != None
  }

  lemma FirstSavedFound(s: SessionState, p: Publish)
    ensures var j := FirstMatching(s.subs, Text(p.topic), 0); j < |s.subs| ==> FirstSaved(s, p, j)
    ensures forall j: nat :: FirstSaved(s, p, j) ==> j == FirstMatching(s.subs, Text(p.topic), 0)
  {}

  /** A client that is here, a QoS 0 publish, no matching subscription, or one at QoS 0:
      nothing is queued. */
  lemma NothingMissed(s: SessionState, p: Publish)
    requires !s.offline || p.qos == 0 || forall j: nat :: FirstSaved(s, p, j) ==> s.subs[j].qos == 0
    ensures Next(s, Away(p)) == s
  {
    FirstSavedFound(s, p);
  }

  /** Otherwise the publish is queued in the first free slot, at the smaller QoS and under
      the session's next id, which is never zero; with no free slot it is lost. */
  lemma MissedMeaning(s: SessionState, p: Publish, j: nat)
    requires s.offline && p.qos > 0 && FirstSaved(s, p, j) && s.subs[j].qos > 0
    ensures var s' := Next(s, Away(p));
            var id := if s.nextId == 0 then 1 else s.nextId;
            var m := QueuedMsg(p.topic, p.payload, if p.qos < s.subs[j].qos then p.qos else s.subs[j].qos, id, p.dup);
            && s'.offline && s'.subs == s.subs && s'.nextId == (id + 1) % 0x1_0000
            && ((forall i :: 0 <= i < |s.queue| ==> s.queue[i] != None) ==> s'.queue == s.queue)
            && forall i: nat :: FirstFree(s.queue, i) ==> s'.queue == s.queue[i := Some(m)]
  {
    FirstSavedFound(s, p);
    var i := FirstWhere(s.queue, NoMsg, 0);
    forall k: nat | FirstFree(s.queue, k) ensures k == i {
      assert NoMsg(s.queue[k]);
    }
  }

  /** A disconnect keeps the first four subscriptions, a return empties the queue. */
  lemma DisconnectMeaning(s: SessionState, slots: seq<Inflight.Slot>, subs: seq<SavedSub>)
    requires !s.offline
    ensures var s' := Next(s, Disconnect(slots, subs));
            && s'.offline && s'.nextId == s.nextId && |s'.subs| == (if |subs| < 4 then |subs| else 4) && s'.subs <= subs
            && s'.queue == EnqueueAll(s.queue, Saved(slots))
    ensures var back := Next(Next(s, Disconnect(slots, subs)), Resume);
            !back.offline && forall i :: 0 <= i < |back.queue| ==> back.queue[i] == None
  {}

  lemma {:induction false} NextIdFits(n: nat, events: seq<Event>)
    ensures Run(n, events).nextId < ID_LIMIT
  {
    if events != [] {
      NextIdFits(n, events[..|events|-1]);
    }
  }

  /** A missed publish, drained, reads as it was but for its QoS, its packet id and
      RETAIN. */
  lemma MissedFrame(p: Publish, qos: nat, id: nat)
    requires Buildable(p) && 1 <= qos <= 2 && 0 < id < ID_LIMIT
    ensures var sent := p.(qos := qos, packetId := id, retain := 0);
            var f := FrameFor(QueuedMsg(p.topic, p.payload, qos, id, p.dup));
            && f == Some(FrameBytes(FrameOf(sent))) && |FrameOf(sent).body| <= MAX_PACKET
            && FrameIn(f.value) == Some(FrameOf(sent)) && Parse(FrameOf(sent), 0) == Some(sent)
  {
    var sent := p.(qos := qos, packetId := id, retain := 0);
    assert PublishOf(QueuedMsg(p.topic, p.payload, qos, id, p.dup)) == sent;
    FrameFits(sent);
    FrameInFramed(FrameOf(sent));
    ParseInvertsBuild(sent, |FrameBytes(FrameOf(sent))|, 0);
  }

  /** The parsed frame that a drain sends last for the publish. */
  ghost predicate DeliversLast(before: seq<seq<Byte>>, after: seq<seq<Byte>>, sent: Publish) {
    && Buildable(sent) && after == before + [FrameBytes(FrameOf(sent))]
    && FrameBytes(FrameOf(sent)) != [] && FrameIn(FrameBytes(FrameOf(sent))) == Some(FrameOf(sent))
    && |FrameOf(sent).body| <= MAX_PACKET && Parse(FrameOf(sent), 0) == Some(sent)
  }

  /** In every reachable state with room left, what a client that is away will be sent on
      its return grows by the publish, with only its QoS, id and RETAIN replaced. */
  lemma MissedIsDelivered(n: nat, events: seq<Event>, p: Publish, j: nat)
    requires Run(n, events).offline && |Owed(n, events)| < n
    requires Buildable(p) && p.qos > 0 && FirstSaved(Run(n, events), p, j) && Run(n, events).subs[j].qos > 0
    ensures var s := Run(n, events);
            var id := if s.nextId == 0 then 1 else s.nextId;
            0 < id < ID_LIMIT
            && DeliversLast(Frames(InOrder(s.queue)), Frames(InOrder(Run(n, events + [Away(p)]).queue)),
                            p.(qos := if p.qos < s.subs[j].qos then p.qos else s.subs[j].qos, packetId := id, retain := 0))
  {
    var s, more := Run(n, events), events + [Away(p)];
    var id := if s.nextId == 0 then 1 else s.nextId;
    var qos := if p.qos < s.subs[j].qos then p.qos else s.subs[j].qos;
    var m := QueuedMsg(p.topic, p.payload, qos, id, p.dup);
    NextIdFits(n, events);
    FirstSavedFound(s, p);
    assert more[..|more|-1] == events;
    assert Owed(n, more) == Owed(n, events) + [m];
    DrainOrder(n, events);
    DrainOrder(n, more);
    FramesStep(Owed(n, events), m);
    MissedFrame(p, qos, id);
  }

  /** And that frame will be in flight, under its id and QoS. */
  lemma MissedIsStored(n: nat, events: seq<Event>, p: Publish, j: nat, now: int)
    requires Run(n, events).offline && |Owed(n, events)| < n
    requires Buildable(p) && p.qos > 0 && FirstSaved(Run(n, events), p, j) && Run(n, events).subs[j].qos > 0
    ensures var s := Run(n, events);
            var id := if s.nextId == 0 then 1 else s.nextId;
            var qos := if p.qos < s.subs[j].qos then p.qos else s.subs[j].qos;
            var sent := p.(qos := qos, packetId := id, retain := 0);
            Buildable(sent)
            && Stores(InOrder(Run(n, events + [Away(p)]).queue), now)
               == Stores(InOrder(s.queue), now) + [Inflight.Store(id, FrameBytes(FrameOf(sent)), qos, now)]
  {
    var s, more := Run(n, events), events + [Away(p)];
    var id := if s.nextId == 0 then 1 else s.nextId;
    var qos := if p.qos < s.subs[j].qos then p.qos else s.subs[j].qos;
    var m := QueuedMsg(p.topic, p.payload, qos, id, p.dup);
    NextIdFits(n, events);
    FirstSavedFound(s, p);
    assert more[..|more|-1] == events;
    assert Owed(n, more) == Owed(n, events) + [m];
    DrainOrder(n, events);
    DrainOrder(n, more);
    StoresStep(Owed(n, events), m, now);
    MissedFrame(p, qos, id);
  }

  // ---------- end to end ----------

  /** The frames of the QoS 1 slots in use, in slot order, each with DUP set. */
  function DupFrames(s: seq<Inflight.Slot>): seq<seq<Byte>> {
    if s == [] then []
    else
      var x := s[|s|-1];
      if x.inUse && x.qos == 1 && x.buf != [] then DupFrames(s[..|s|-1]) + [SetDup(x.buf)] else DupFrames(s[..|s|-1])
  }

  /** The same slots as new in-flight entries, under the same packet ids. */
  function DupStores(s: seq<Inflight.Slot>, now: int): seq<Inflight.Event> {
    if s == [] then []
    else
      var x := s[|s|-1];
      DupStores(s[..|s|-1], now)
      + if x.inUse && x.qos == 1 && x.buf != [] then [Inflight.Store(x.packetId, SetDup(x.buf), 1, now)] else []
  }

  lemma SavedFrame(x: Inflight.Slot)
    requires Inflight.HoldsFanOut(x) && x.inUse && x.qos == 1
    ensures x.buf != [] && Decoded(x).Some? && FrameFor(Decoded(x).value) == Some(SetDup(x.buf))
    ensures Decoded(x).value.qos == 1 && Decoded(x).value.packetId == x.packetId
  {
    var p: Publish :| Buildable(p) && p.retain == 0 && p.qos == 1 && p.packetId == x.packetId
                      && (x.buf == FrameBytes(FrameOf(p)) || x.buf == SetDup(FrameBytes(FrameOf(p))));
    DecodesFrame(x, p);
    ResumeIsByteIdentical(x, p);
    Inflight.SetDupTwice(FrameBytes(FrameOf(p)));
    FrameFits(PublishOf(Decoded(x).value));
  }

  lemma FrameFits(p: Publish)
    requires WellFormed(p)
    ensures |FrameBytes(FrameOf(p))| <= SEND_CAP
  {
    RemainingLengthInverts(|BodyOf(p)|, []);
  }

  lemma {:induction false} SavedFrames(s: seq<Inflight.Slot>)
    requires forall i :: 0 <= i < |s| ==> Inflight.HoldsFanOut(s[i])
    ensures Frames(Saved(s)) == DupFrames(s) && |Saved(s)| <= |s|
  {
    if s != [] {
      SavedFrames(s[..|s|-1]);
      OneMoreSaved(s);
    }
  }

  lemma {:induction false} SavedStores(s: seq<Inflight.Slot>, now: int)
    requires forall i :: 0 <= i < |s| ==> Inflight.HoldsFanOut(s[i])
    ensures Stores(Saved(s), now) == DupStores(s, now)
  {
    if s != [] {
      SavedStores(s[..|s|-1], now);
      OneMoreStored(s, now);
    }
  }

  lemma OneMoreStored(s: seq<Inflight.Slot>, now: int)
    requires s != [] && Inflight.HoldsFanOut(s[|s|-1])
    requires Stores(Saved(s[..|s|-1]), now) == DupStores(s[..|s|-1], now)
    ensures Stores(Saved(s), now) == DupStores(s, now)
  {
    var x := s[|s|-1];
    SavedStep(s);
    if x.inUse && x.qos == 1 {
      SavedFrame(x);
      StoresStep(Saved(s[..|s|-1]), Decoded(x).value, now);
    } else {
      assert Decoded(x) == None;
    }
  }

  lemma SavedStep(s: seq<Inflight.Slot>)
    requires s != []
    ensures Saved(s) == match Decoded(s[|s|-1]) case None => Saved(s[..|s|-1]) case Some(m) => Saved(s[..|s|-1]) + [m]
  {}

  lemma OneMoreSaved(s: seq<Inflight.Slot>)
    requires s != [] && Inflight.HoldsFanOut(s[|s|-1])
    requires Frames(Saved(s[..|s|-1])) == DupFrames(s[..|s|-1]) && |Saved(s[..|s|-1])| <= |s| - 1
    ensures Frames(Saved(s)) == DupFrames(s) && |Saved(s)| <= |s|
  {
    var x := s[|s|-1];
    SavedStep(s);
    if x.inUse && x.qos == 1 {
      SavedFrame(x);
      FramesStep(Saved(s[..|s|-1]), Decoded(x).value);
    } else {
      assert Decoded(x) == None;
    }
  }

  lemma {:induction false} FramesPrefix(a: seq<QueuedMsg>, b: seq<QueuedMsg>)
    requires a <= b
    ensures Frames(a) <= Frames(b)
  {
    if |a| < |b| {
      FramesPrefix(a, b[..|b|-1]);
    } else {
      assert a == b;
    }
  }

  lemma {:induction false} StoresPrefix(a: seq<QueuedMsg>, b: seq<QueuedMsg>, now: int)
    requires a <= b
    ensures Stores(a, now) <= Stores(b, now)
  {
    if |a| < |b| {
      StoresPrefix(a, b[..|b|-1], now);
    } else {
      assert a == b;
    }
  }

  /** The frames a client was sent and had not acknowledged when it disconnected, in
      any in-flight state its connection can reach, are the first it is sent when it
      comes back: in slot order, byte for byte, with DUP set.  They are in flight
      again under their old packet ids. */
  lemma ResumeResends(n: nat, events: seq<Event>, k: nat, sends: seq<Inflight.Event>, subs: seq<SavedSub>, missed: seq<Publish>)
    requires forall i :: 0 <= i < |sends| ==> Inflight.ValidEvent(sends[i]) && Inflight.StoresFanOut(sends[i])
    requires !Run(n, events).offline && k <= n
    ensures var slots := Inflight.Run(k, sends).slots;
            var queued := InOrder(Run(n, events + [Disconnect(slots, subs)] + Aways(missed)).queue);
            && DupFrames(slots) <= Frames(queued)
            && (missed == [] ==> Frames(queued) == DupFrames(slots))
            && forall now :: DupStores(slots, now) <= Stores(queued, now)
  {
    var slots := Inflight.Run(k, sends).slots;
    forall i | 0 <= i < |slots| ensures Inflight.HoldsFanOut(slots[i]) {
      Inflight.SlotsHoldFanOut(k, sends, i);
    }
    SavedFrames(slots);
    var gone := events + [Disconnect(slots, subs)];
    SavedComeFirst(n, events, slots, subs, missed);
    DrainOrder(n, gone + Aways(missed));
    var owed := Owed(n, gone + Aways(missed));
    assert Saved(slots) <= Clip(owed, n);
    FramesPrefix(Saved(slots), Clip(owed, n));
    forall now ensures DupStores(slots, now) <= Stores(Clip(owed, n), now) {
      SavedStores(slots, now);
      StoresPrefix(Saved(slots), Clip(owed, n), now);
    }
    if missed == [] {
      DisconnectOwes(n, events, slots, subs);
      assert gone + Aways(missed) == gone;
    }
  }

  // ---------- in place ----------

  datatype QueueSlot = QueueSlot(msg: QueuedMsg, inUse: bool)

  const NO_MSG := QueuedMsg([], [], 0, 0, 0)

  function QueueOf(s: seq<QueueSlot>): (r: Queue)
    ensures |r| == |s| && forall i :: 0 <= i < |s| ==> r[i] == if s[i].inUse then Some(s[i].msg) else None
  {
    seq(|s|, i requires 0 <= i < |s| => if s[i].inUse then Some(s[i].msg) else None)
  }

  class PersistentSession {
    const queue: array<QueueSlot>
    var offline: bool
    var nextId: nat
    var subs: seq<SavedSub>

    ghost function State(): SessionState
      reads this, queue
    {
      SessionState(offline, nextId, subs, QueueOf(queue[..]))
    }

    constructor (n: nat)
      ensures State() == Run(n, []) && fresh(queue)
    {
      queue := new QueueSlot[n](_ => QueueSlot(NO_MSG, false));
      offline, nextId, subs := false, 0, [];
      new;
      assert QueueOf(queue[..]) == EmptyQueue(n);
    }

    method EnqueueMsg(m: QueuedMsg) returns (ok: bool)
      modifies queue
      ensures QueueOf(queue[..]) == Enqueue(old(QueueOf(queue[..])), m)
      ensures ok <==> FirstWhere(old(QueueOf(queue[..])), NoMsg, 0) < queue.Length
    {
      for i := 0 to queue.Length
        invariant queue[..] == old(queue[..])
        invariant FirstWhere(QueueOf(queue[..]), NoMsg, 0) == FirstWhere(QueueOf(queue[..]), NoMsg, i)
      {
        if !queue[i].inUse {
          queue[i] := QueueSlot(m, true);
          assert QueueOf(queue[..]) == old(QueueOf(queue[..]))[i := Some(m)];
          return true;
        }
      }
      return false;
    }

    /** The saving loop of client_free. */
    method SaveInflight(slots: seq<Inflight.Slot>)
      modifies queue
      ensures QueueOf(queue[..]) == EnqueueAll(old(QueueOf(queue[..])), Saved(slots))
    {
      ghost var q0 := QueueOf(queue[..]);
      for i := 0 to |slots|
        invariant QueueOf(queue[..]) == EnqueueAll(q0, Saved(slots[..i]))
      {
        assert slots[..i+1][..i] == slots[..i] && slots[..i+1][i] == slots[i];
        var m := DecodeSlot(slots[i]);
        ghost var before := Saved(slots[..i]);
        assert Saved(slots[..i+1]) == if m.Some? then before + [m.value] else before;
        if m.Some? {
          EnqueueAllStep(q0, before, m.value);
          var ok := EnqueueMsg(m.value);
        }
      }
      assert slots[..|slots|] == slots;
    }

    /** The decoding of one in-flight slot. */
    method DecodeSlot(x: Inflight.Slot) returns (r: Option<QueuedMsg>)
      ensures r == Decoded(x)
    {
      if !x.inUse || x.qos != 1 || x.buf == [] {
        return None;
      }
      var frame := DecodeFrame(x.buf);
      if frame == None {
        return None;
      }
      var p := ParsePublish(frame.value, 0);
      if p == None {
        return None;
      }
      return Some(QueuedMsg(p.value.topic, p.value.payload, p.value.qos, x.packetId, 1));
    }

    method DecodeFrame(buf: seq<Byte>) returns (r: Option<Frame>)
      requires buf != []
      ensures r == FrameIn(buf)
    {
      var decoded := DecodeRemainingLen(buf[1..]);
      if decoded == None {
        return None;
      }
      var (len, n) := decoded.value;
      if len > MAX_PACKET || 1 + n + len > |buf| {
        return None;
      }
      return Some(Frame(buf[0], buf[1+n..1+n+len]));
    }

    /** session_save_subs and the saving loop. */
    method Disconnected(slots: seq<Inflight.Slot>, filters: seq<SavedSub>)
      requires !offline
      modifies this, queue
      ensures State() == Next(old(State()), Disconnect(slots, filters))
    {
      subs := if |filters| <= SUB_MAX then filters else filters[..SUB_MAX];
      offline := true;
      SaveInflight(slots);
    }

    /** session_offline_publish, for this session. */
    method PublishWhileAway(p: Publish)
      modifies this, queue
      ensures State() == Next(old(State()), Away(p))
    {
      if p.qos == 0 || !offline {
        return;
      }
      for j := 0 to |subs|
        invariant State() == old(State())
        invariant FirstMatching(subs, Text(p.topic), 0) == FirstMatching(subs, Text(p.topic), j)
      {
        var matches := TopicMatchLoop(subs[j].filter, Text(p.topic));
        if !matches {
          continue;
        }
        var qos := if p.qos < subs[j].qos then p.qos else subs[j].qos;
        if qos > 0 {
          if nextId == 0 {
            nextId := 1;
          }
          var id := nextId;
          nextId := (nextId + 1) % ID_LIMIT;
          var ok := EnqueueMsg(QueuedMsg(p.topic, p.payload, qos, id, p.dup));
        }
        return;
      }
    }

    /** The queued messages fit their C types. */
    ghost predicate Valid()
      reads this, queue
    {
      forall i :: 0 <= i < queue.Length && queue[i].inUse ==> WellFormed(PublishOf(queue[i].msg))
    }

    /** packet_build_publish into a send buffer. */
    method Encode(m: QueuedMsg) returns (r: Option<seq<Byte>>)
      requires WellFormed(PublishOf(m))
      ensures r == FrameFor(m)
    {
      var buf := new Byte[SEND_CAP](_ => 0);
      var len := BuildPublish(PublishOf(m), buf);
      return if len.Some? then Some(buf[..len.value]) else None;
    }

    /** session_drain: each queued message encoded and sent in slot order, and above
        QoS 0 put in flight. */
    method Drain(now: int) returns (sent: seq<seq<Byte>>, stores: seq<Inflight.Event>)
      requires offline && Valid()
      modifies this, queue
      ensures Valid() && State() == Next(old(State()), Resume)
      ensures sent == Frames(InOrder(old(State()).queue))
      ensures stores == Stores(InOrder(old(State()).queue), now)
    {
      offline := false;
      sent, stores := SendQueued(now);
      assert QueueOf(queue[..]) == EmptyQueue(queue.Length);
    }

    method SendQueued(now: int) returns (sent: seq<seq<Byte>>, stores: seq<Inflight.Event>)
      requires Valid()
      modifies queue
      ensures forall k :: 0 <= k < queue.Length ==> !queue[k].inUse
      ensures sent == Frames(InOrder(old(QueueOf(queue[..]))))
      ensures stores == Stores(InOrder(old(QueueOf(queue[..]))), now)
    {
      sent, stores := [], [];
      ghost var q := QueueOf(queue[..]);
      for i := 0 to queue.Length
        invariant forall k :: 0 <= k < i ==> !queue[k].inUse
        invariant forall k :: i <= k < queue.Length ==> queue[k] == old(queue[k])
        invariant sent == Frames(InOrder(q[..i])) && stores == Stores(InOrder(q[..i]), now)
      {
        OneMoreSlot(q, i, now);
        var frames, entries := SendSlot(i, now);
        sent, stores := sent + frames, stores + entries;
      }
      assert q[..|q|] == q;
    }

    method SendSlot(i: nat, now: int) returns (frames: seq<seq<Byte>>, entries: seq<Inflight.Event>)
      requires i < queue.Length && (queue[i].inUse ==> WellFormed(PublishOf(queue[i].msg)))
      modifies queue
      ensures queue[..] == old(queue[..])[i := old(queue[i]).(inUse := false)]
      ensures frames == SlotFrames(old(QueueOf(queue[..]))[i]) && entries == SlotStores(old(QueueOf(queue[..]))[i], now)
    {
      frames, entries := [], [];
      if !queue[i].inUse {
        return;
      }
      var msg := queue[i].msg;
      var frame := Encode(msg);
      if frame.Some? {
        frames := [frame.value];
        if msg.qos > 0 {
          entries := [Inflight.Store(msg.packetId, frame.value, msg.qos, now)];
        }
      }
      queue[i] := queue[i].(inUse := false);
    }
  }
}
