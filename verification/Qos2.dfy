/**
 The two QoS 2 receivers.  The client path publishes on first receipt and keeps
 only the packet id; the mesh ingress path stores the message and publishes it on
 release.  Both keep a fixed number of slots.

 `ids` is what the slots hold: the packet id of a slot in use.
 */
module Qos2 {
  import opened Common

  datatype Msg = Msg(topic: string, payload: string)

  /** A PUBLISH or PUBREL packet received.  A PUBREL is proper with fixed header 0x62
      and remaining length 2; the id of one too short to hold an id is read as 0. */
  datatype Event =
    | Publish(qos: nat, id: nat, msg: Msg)
    | Release(id: nat, proper: bool)

  datatype Reply = Puback(id: nat) | Pubrec(id: nat) | Pubcomp(id: nat)

  type Ids = seq<Option<nat>>

  /** What packet_parse_publish lets through; both paths pass over the rest. */
  predicate ValidEvent(e: Event) {
    match e
    case Publish(qos, id, _) => qos <= 2 && (qos > 0 ==> id > 0)
    case Release(_, _) => true
  }

  /** What the client path closes the connection on; the mesh path makes no such test. */
  predicate Refused(e: Event) {
    match e
    case Publish(_, _, msg) => BadTopic(msg.topic)
    case Release(id, proper) => id == 0 || !proper
  }

  predicate BadTopic(topic: string) {
    topic == "" || '#' in topic || '+' in topic
  }

  function FindId(ids: Ids, id: nat, i: nat): (r: nat)
    requires i <= |ids|
    ensures i <= r <= |ids|
    ensures r < |ids| ==> ids[r] == Some(id)
    ensures forall k :: i <= k < r ==> ids[k] != Some(id)
    decreases |ids| - i
  {
    if i == |ids| || ids[i] == Some(id) then i else FindId(ids, id, i + 1)
  }

  predicate NoId(x: Option<nat>) {
    x.None?
  }

  // ---------- the client path: publish on receipt ----------

  datatype ClientState = ClientState(ids: Ids, published: seq<Msg>, sent: seq<Reply>, open: bool)

  function ClientStep(s: ClientState, e: Event): (r: ClientState)
    ensures |r.ids| == |s.ids|
  {
    if !s.open then s
    else if Refused(e) then s.(open := false)
    else match e
    case Publish(qos, id, msg) =>
      if qos == 2 then
        var free := FirstWhere(s.ids, NoId, 0);
        if FindId(s.ids, id, 0) < |s.ids| || free == |s.ids| then s.(sent := s.sent + [Pubrec(id)])
        else s.(ids := s.ids[free := Some(id)], published := s.published + [msg], sent := s.sent + [Pubrec(id)])
      else s.(published := s.published + [msg], sent := s.sent + if qos == 1 then [Puback(id)] else [])
    case Release(id, _) =>
      var i := FindId(s.ids, id, 0);
      s.(ids := if i < |s.ids| then s.ids[i := None] else s.ids, sent := s.sent + [Pubcomp(id)])
  }

  // ---------- the mesh ingress path: store, then release ----------

  datatype MeshState = MeshState(ids: Ids, msgs: seq<Msg>, published: seq<Msg>, sent: seq<Reply>, open: bool)

  function MeshStep(s: MeshState, e: Event): (r: MeshState)
    requires |s.msgs| == |s.ids|
    ensures |r.msgs| == |r.ids| == |s.ids|
  {
    if !s.open then s
    else match e
    case Publish(qos, id, msg) =>
      if qos == 2 then
        var free := FirstWhere(s.ids, NoId, 0);
        if FindId(s.ids, id, 0) < |s.ids| then s.(sent := s.sent + [Pubrec(id)])
        else if free < |s.ids| then
          s.(ids := s.ids[free := Some(id)], msgs := s.msgs[free := msg], sent := s.sent + [Pubrec(id)])
        else s.(open := false)
      else s.(published := s.published + [msg], sent := s.sent + if qos == 1 then [Puback(id)] else [])
    case Release(id, _) =>
      var i := FindId(s.ids, id, 0);
      if i < |s.ids| then
        s.(ids := s.ids[i := None], published := s.published + [s.msgs[i]], sent := s.sent + Completion(id))
      else s.(sent := s.sent + Completion(id))
  }

  /** packet_build_pubcomp refuses id 0, and then nothing is sent. */
  function Completion(id: nat): seq<Reply> {
    if id == 0 then [] else [Pubcomp(id)]
  }

  const NO_MSG := Msg("", "")

  function NoIds(n: nat): (r: Ids)
    ensures |r| == n && forall i :: 0 <= i < n ==> r[i] == None
  {
    seq(n, _ => None)
  }

  function ClientRun(n: nat, trace: seq<Event>): (r: ClientState)
    ensures |r.ids| == n
  {
    if trace == [] then ClientState(NoIds(n), [], [], true)
    else ClientStep(ClientRun(n, trace[..|trace|-1]), trace[|trace|-1])
  }

  function MeshRun(n: nat, trace: seq<Event>): (r: MeshState)
    ensures |r.msgs| == |r.ids| == n
  {
    if trace == [] then MeshState(NoIds(n), seq(n, _ => NO_MSG), [], [], true)
    else MeshStep(MeshRun(n, trace[..|trace|-1]), trace[|trace|-1])
  }

  // ---------- the handshake by itself ----------

  /** Section 4.3.3 of MQTT 3.1.1 without slots: the ids whose handshake has
      started, the messages started and the messages completed, in order. */
  datatype Handshakes = Handshakes(open: map<nat, Msg>, started: seq<Msg>, completed: seq<Msg>)

  function HandshakeStep(h: Handshakes, e: Event): Handshakes {
    match e
    case Publish(qos, id, msg) =>
      if qos < 2 then h.(started := h.started + [msg], completed := h.completed + [msg])
      else if id in h.open then h
      else h.(open := h.open[id := msg], started := h.started + [msg])
    case Release(id, _) =>
      if id in h.open then h.(open := h.open - {id}, completed := h.completed + [h.open[id]]) else h
  }

  function HandshakeRun(trace: seq<Event>): Handshakes {
    if trace == [] then Handshakes(map[], [], [])
    else HandshakeStep(HandshakeRun(trace[..|trace|-1]), trace[|trace|-1])
  }

  /** No prefix of the trace has more than `n` handshakes open. */
  predicate Fits(n: nat, trace: seq<Event>) {
    forall i :: 0 <= i <= |trace| ==> FitsAt(n, trace, i)
  }

  predicate FitsAt(n: nat, trace: seq<Event>, i: nat)
    requires i <= |trace|
  {
    |HandshakeRun(trace[..i]).open| <= n
  }

  // ---------- slots against handshakes ----------

  ghost predicate IdsUnique(ids: Ids) {
    forall i, j :: 0 <= i < j < |ids| && ids[i].Some? ==> ids[i] != ids[j]
  }

  /** The slots hold exactly the open handshakes. */
  ghost predicate HoldsOpen(ids: Ids, open: map<nat, Msg>) {
    && IdsUnique(ids)
    && forall id :: id in open <==> Some(id) in ids
  }

  lemma FrontHoldsOpen(ids: Ids, open: map<nat, Msg>)
    requires HoldsOpen(ids, open) && ids != []
    ensures var front, last := ids[..|ids|-1], ids[|ids|-1];
            HoldsOpen(front, if last.Some? then open - {last.value} else open)
            && (last.Some? ==> last.value in open)
  {
    var front, last := ids[..|ids|-1], ids[|ids|-1];
    assert ids == front + [last];
    assert last.Some? ==> last !in front;
  }

  lemma {:induction false} OpenSize(ids: Ids, open: map<nat, Msg>)
    requires HoldsOpen(ids, open)
    ensures |open| <= |ids| && (|open| == |ids| <==> None !in ids)
  {
    if ids == [] {
      assert open.Keys == {};
    } else {
      var last := |ids| - 1;
      var front := ids[..last];
      assert ids == front + [ids[last]];
      FrontHoldsOpen(ids, open);
      match ids[last]
      case None =>
        OpenSize(front, open);
      case Some(id) =>
        OpenSize(front, open - {id});
        ClosingShrinks(open, id);
    }
  }

  lemma ClosingShrinks(open: map<nat, Msg>, id: nat)
    ensures |open - {id}| == if id in open then |open| - 1 else |open|
  {
    assert (open - {id}).Keys == open.Keys - {id};
  }

  lemma OpenCount(ids: Ids, open: map<nat, Msg>)
    requires HoldsOpen(ids, open)
    ensures |open| <= |ids|
    ensures FirstWhere(ids, NoId, 0) == |ids| <==> |open| == |ids|
  {
    OpenSize(ids, open);
  }

  lemma FindsOpen(ids: Ids, open: map<nat, Msg>, id: nat)
    requires HoldsOpen(ids, open)
    ensures FindId(ids, id, 0) < |ids| <==> id in open
  {}

  lemma SlotTaken(ids: Ids, open: map<nat, Msg>, free: nat, id: nat, msg: Msg)
    requires HoldsOpen(ids, open) && free < |ids| && ids[free] == None && id !in open
    ensures HoldsOpen(ids[free := Some(id)], open[id := msg])
  {
    var ids' := ids[free := Some(id)];
    forall x ensures x in open[id := msg] <==> Some(x) in ids' {
      if Some(x) in ids {
        var k :| 0 <= k < |ids| && ids[k] == Some(x);
        assert ids'[k] == Some(x);
      }
      assert ids'[free] == Some(id);
    }
  }

  lemma SlotFreed(ids: Ids, open: map<nat, Msg>, i: nat, id: nat)
    requires HoldsOpen(ids, open) && i < |ids| && ids[i] == Some(id)
    ensures HoldsOpen(ids[i := None], open - {id})
  {
    var ids' := ids[i := None];
    forall x ensures x in open - {id} <==> Some(x) in ids' {
      if Some(x) in ids && x != id {
        var k :| 0 <= k < |ids| && ids[k] == Some(x);
        assert ids'[k] == Some(x);
      }
    }
  }

  // ---------- the messages held ----------

  /** The messages stored and not yet published. */
  function Pending(ids: Ids, msgs: seq<Msg>): multiset<Msg>
    requires |msgs| == |ids|
  {
    if ids == [] then multiset{}
    else
      var last := |ids| - 1;
      Pending(ids[..last], msgs[..last]) + Stored(ids[last], msgs[last])
  }

  function Stored(x: Option<nat>, msg: Msg): multiset<Msg> {
    if x.Some? then multiset{msg} else multiset{}
  }

  lemma {:induction false} PendingAfter(ids: Ids, msgs: seq<Msg>, i: nat, x: Option<nat>, msg: Msg)
    requires |msgs| == |ids| && i < |ids|
    ensures Pending(ids[i := x], msgs[i := msg]) + Stored(ids[i], msgs[i]) == Pending(ids, msgs) + Stored(x, msg)
  {
    var last := |ids| - 1;
    if i == last {
      PendingAfterLast(ids, msgs, x, msg);
    } else {
      PendingAfter(ids[..last], msgs[..last], i, x, msg);
      PendingAfterEarlier(ids, msgs, i, x, msg);
    }
  }

  lemma PendingAfterLast(ids: Ids, msgs: seq<Msg>, x: Option<nat>, msg: Msg)
    requires |msgs| == |ids| > 0
    ensures var i := |ids| - 1;
            Pending(ids[i := x], msgs[i := msg]) + Stored(ids[i], msgs[i]) == Pending(ids, msgs) + Stored(x, msg)
  {
    var last := |ids| - 1;
    PendingSplit(ids[last := x], msgs[last := msg]);
    assert ids[last := x][..last] == ids[..last] && msgs[last := msg][..last] == msgs[..last];
    Exchange(Pending(ids[..last], msgs[..last]), Stored(x, msg), Stored(ids[last], msgs[last]));
  }

  lemma PendingAfterEarlier(ids: Ids, msgs: seq<Msg>, i: nat, x: Option<nat>, msg: Msg)
    requires |msgs| == |ids| && i < |ids| - 1
    requires var last := |ids| - 1;
             Pending(ids[..last][i := x], msgs[..last][i := msg]) + Stored(ids[i], msgs[i])
             == Pending(ids[..last], msgs[..last]) + Stored(x, msg)
    ensures Pending(ids[i := x], msgs[i := msg]) + Stored(ids[i], msgs[i]) == Pending(ids, msgs) + Stored(x, msg)
  {
    var last := |ids| - 1;
    PendingSplit(ids[i := x], msgs[i := msg]);
    assert ids[i := x][..last] == ids[..last][i := x] && msgs[i := msg][..last] == msgs[..last][i := msg];
    AddToBoth(Pending(ids[..last][i := x], msgs[..last][i := msg]), Stored(ids[i], msgs[i]),
              Pending(ids[..last], msgs[..last]), Stored(x, msg), Stored(ids[last], msgs[last]));
  }

  lemma PendingAfterFree(ids: Ids, msgs: seq<Msg>, i: nat)
    requires |msgs| == |ids| && i < |ids| && ids[i].Some?
    ensures Pending(ids, msgs) == Pending(ids[i := None], msgs) + multiset{msgs[i]}
  {
    PendingAfter(ids, msgs, i, None, msgs[i]);
    assert msgs[i := msgs[i]] == msgs;
  }

  lemma PendingSplit(ids: Ids, msgs: seq<Msg>)
    requires |msgs| == |ids| > 0
    ensures var last := |ids| - 1; Pending(ids, msgs) == Pending(ids[..last], msgs[..last]) + Stored(ids[last], msgs[last])
  {}

  lemma Exchange(a: multiset<Msg>, b: multiset<Msg>, c: multiset<Msg>)
    ensures a + b + c == a + c + b
  {}

  lemma AddToBoth(a: multiset<Msg>, b: multiset<Msg>, c: multiset<Msg>, d: multiset<Msg>, more: multiset<Msg>)
    requires a + b == c + d
    ensures a + more + b == c + more + d
  {
    assert a + more + b == a + b + more;
    assert c + more + d == c + d + more;
  }

  // ---------- the receivers against the handshakes, and each other ----------

  ghost predicate StoredAsOpen(s: MeshState, open: map<nat, Msg>)
    requires |s.msgs| == |s.ids|
  {
    forall i :: 0 <= i < |s.ids| && s.ids[i].Some? ==> s.ids[i].value in open && s.msgs[i] == open[s.ids[i].value]
  }

  /** The mesh path holds the open handshakes and has published the completed ones. */
  ghost predicate Tracks(m: MeshState, h: Handshakes)
    requires |m.msgs| == |m.ids|
  {
    m.open && HoldsOpen(m.ids, h.open) && StoredAsOpen(m, h.open) && m.published == h.completed
  }

  /** How the two receivers and the handshakes stand to one another while no
      table has overflowed and nothing was refused. */
  ghost predicate InStep(c: ClientState, m: MeshState, h: Handshakes)
    requires |m.msgs| == |m.ids|
  {
    && Tracks(m, h)
    && c.open && c.ids == m.ids && c.sent == m.sent && c.published == h.started
    && multiset(c.published) == multiset(m.published) + Pending(m.ids, m.msgs)
  }

  lemma StartTracks(m: MeshState, h: Handshakes, id: nat, msg: Msg)
    requires |m.msgs| == |m.ids| && Tracks(m, h) && id !in h.open && |h.open| < |m.ids|
    ensures var e := Publish(2, id, msg); Tracks(MeshStep(m, e), HandshakeStep(h, e))
    ensures MeshStep(m, Publish(2, id, msg)).sent == m.sent + [Pubrec(id)]
  {
    FindsOpen(m.ids, h.open, id);
    OpenCount(m.ids, h.open);
    var free := FirstWhere(m.ids, NoId, 0);
    SlotTaken(m.ids, h.open, free, id, msg);
    OpenAfterTake(m, h.open, free, id, msg);
  }

  lemma FinishTracks(m: MeshState, h: Handshakes, e: Event)
    requires |m.msgs| == |m.ids| && Tracks(m, h) && e.Release? && e.id in h.open
    ensures Tracks(MeshStep(m, e), HandshakeStep(h, e))
  {
    FindsOpen(m.ids, h.open, e.id);
    var i := FindId(m.ids, e.id, 0);
    SlotFreed(m.ids, h.open, i, e.id);
    OpenAfterFree(m, h.open, i, e.id);
  }

  /** A handshake starts: both receivers take the same slot. */
  lemma StartInStep(c: ClientState, m: MeshState, h: Handshakes, id: nat, msg: Msg)
    requires |m.msgs| == |m.ids| && InStep(c, m, h) && id !in h.open && |h.open| < |c.ids| && !BadTopic(msg.topic)
    ensures var e := Publish(2, id, msg); InStep(ClientStep(c, e), MeshStep(m, e), HandshakeStep(h, e))
  {
    StartTracks(m, h, id, msg);
    FindsOpen(c.ids, h.open, id);
    OpenCount(c.ids, h.open);
    var free := FirstWhere(c.ids, NoId, 0);
    PendingAfter(m.ids, m.msgs, free, Some(id), msg);
    assert Pending(m.ids[free := Some(id)], m.msgs[free := msg]) == Pending(m.ids, m.msgs) + multiset{msg};
    assert multiset(c.published + [msg]) == multiset(c.published) + multiset{msg};
  }

  /** A handshake completes: the mesh path publishes what the client path has
      published already. */
  lemma FinishInStep(c: ClientState, m: MeshState, h: Handshakes, e: Event)
    requires |m.msgs| == |m.ids| && InStep(c, m, h) && e.Release? && e.id in h.open && !Refused(e)
    ensures InStep(ClientStep(c, e), MeshStep(m, e), HandshakeStep(h, e))
  {
    FinishTracks(m, h, e);
    FindsOpen(c.ids, h.open, e.id);
    var i := FindId(c.ids, e.id, 0);
    PendingAfterFree(m.ids, m.msgs, i);
    PendingToPublished(multiset(c.published), m.published, Pending(m.ids, m.msgs), Pending(m.ids[i := None], m.msgs), m.msgs[i]);
  }

  lemma PendingToPublished(all: multiset<Msg>, published: seq<Msg>, pending: multiset<Msg>, left: multiset<Msg>, msg: Msg)
    requires all == multiset(published) + pending && pending == left + multiset{msg}
    ensures all == multiset(published + [msg]) + left
  {
    assert multiset(published + [msg]) == multiset(published) + multiset{msg};
  }

  lemma OpenAfterFree(m: MeshState, open: map<nat, Msg>, i: nat, id: nat)
    requires |m.msgs| == |m.ids| && StoredAsOpen(m, open) && IdsUnique(m.ids) && i < |m.ids| && m.ids[i] == Some(id)
    ensures StoredAsOpen(m.(ids := m.ids[i := None]), open - {id}) && m.msgs[i] == open[id]
  {
    assert m.ids[i].value == id;
  }

  lemma StepTracks(m: MeshState, h: Handshakes, e: Event)
    requires |m.msgs| == |m.ids| && Tracks(m, h) && ValidEvent(e)
    requires |HandshakeStep(h, e).open| <= |m.ids|
    ensures Tracks(MeshStep(m, e), HandshakeStep(h, e))
    ensures MeshStep(m, e).sent == m.sent <==> Silent(e)
    ensures m.sent <= MeshStep(m, e).sent
  {
    FindsOpen(m.ids, h.open, e.id);
    match e
    case Publish(qos, id, msg) =>
      if qos == 2 && id !in h.open {
        assert |h.open[id := msg]| == |h.open| + 1;
        StartTracks(m, h, id, msg);
      }
    case Release(id, _) =>
      if id in h.open {
        FinishTracks(m, h, e);
      }
  }

  lemma StepInStep(c: ClientState, m: MeshState, h: Handshakes, e: Event)
    requires |m.msgs| == |m.ids| && InStep(c, m, h) && ValidEvent(e) && !Refused(e)
    requires |HandshakeStep(h, e).open| <= |c.ids|
    ensures InStep(ClientStep(c, e), MeshStep(m, e), HandshakeStep(h, e))
  {
    match e
    case Publish(qos, id, msg) =>
      if qos < 2 {
        QuickInStep(c, m, h, e);
      } else if id in h.open {
        RepeatInStep(c, m, h, e);
      } else {
        assert |h.open[id := msg]| == |h.open| + 1;
        StartInStep(c, m, h, id, msg);
      }
    case Release(id, _) =>
      if id in h.open {
        FinishInStep(c, m, h, e);
      } else {
        RepeatInStep(c, m, h, e);
      }
  }

  /** No handshake is needed. */
  lemma QuickInStep(c: ClientState, m: MeshState, h: Handshakes, e: Event)
    requires |m.msgs| == |m.ids| && InStep(c, m, h) && !Refused(e) && e.Publish? && e.qos < 2
    ensures InStep(ClientStep(c, e), MeshStep(m, e), HandshakeStep(h, e))
  {
    assert multiset(c.published + [e.msg]) == multiset(c.published) + multiset{e.msg};
    assert multiset(m.published + [e.msg]) == multiset(m.published) + multiset{e.msg};
  }

  /** A publish or release sent again is answered and nothing else. */
  lemma RepeatInStep(c: ClientState, m: MeshState, h: Handshakes, e: Event)
    requires |m.msgs| == |m.ids| && InStep(c, m, h) && !Refused(e)
    requires if e.Publish? then e.qos == 2 && e.id in h.open else e.id !in h.open
    ensures InStep(ClientStep(c, e), MeshStep(m, e), HandshakeStep(h, e))
  {
    FindsOpen(c.ids, h.open, e.id);
  }

  /** What the mesh path never answers. */
  predicate Silent(e: Event) {
    match e
    case Publish(qos, _, _) => qos == 0
    case Release(id, _) => id == 0
  }

  lemma OpenAfterTake(m: MeshState, open: map<nat, Msg>, free: nat, id: nat, msg: Msg)
    requires |m.msgs| == |m.ids| && StoredAsOpen(m, open) && free < |m.ids| && id !in open
    ensures StoredAsOpen(m.(ids := m.ids[free := Some(id)], msgs := m.msgs[free := msg]), open[id := msg])
  {}

  lemma FitsBefore(n: nat, trace: seq<Event>)
    requires trace != [] && Fits(n, trace)
    ensures Fits(n, trace[..|trace|-1]) && |HandshakeRun(trace).open| <= n
  {
    var before := trace[..|trace|-1];
    forall i | 0 <= i <= |before| ensures FitsAt(n, before, i) {
      assert FitsAt(n, trace, i);
      assert before[..i] == trace[..i];
    }
    assert FitsAt(n, trace, |trace|);
    assert trace[..|trace|] == trace;
  }

  predicate AllValid(trace: seq<Event>) {
    forall i :: 0 <= i < |trace| ==> ValidEvent(trace[i])
  }

  predicate NoneRefused(trace: seq<Event>) {
    forall i :: 0 <= i < |trace| ==> !Refused(trace[i])
  }

  /** While the handshakes fit, the mesh path follows them, whatever it is sent. */
  lemma {:induction false} MeshTracks(n: nat, trace: seq<Event>)
    requires Fits(n, trace) && AllValid(trace)
    ensures Tracks(MeshRun(n, trace), HandshakeRun(trace))
  {
    if trace != [] {
      var before := trace[..|trace|-1];
      FitsBefore(n, trace);
      MeshTracks(n, before);
      StepTracks(MeshRun(n, before), HandshakeRun(before), trace[|trace|-1]);
    }
  }

  /** With nothing refused and no more handshakes open at once than there are slots,
      publish-on-receipt and store-then-release hold the same ids in the same slots,
      send the same replies, and differ in what they have published by what is
      pending; each handshake publishes once in either. */
  lemma {:induction false} ReceiversAgree(n: nat, trace: seq<Event>)
    requires Fits(n, trace) && AllValid(trace) && NoneRefused(trace)
    ensures InStep(ClientRun(n, trace), MeshRun(n, trace), HandshakeRun(trace))
  {
    if trace == [] {
      NoPending(n, MeshRun(n, []).msgs);
    } else {
      var before := trace[..|trace|-1];
      FitsBefore(n, trace);
      ReceiversAgree(n, before);
      StepInStep(ClientRun(n, before), MeshRun(n, before), HandshakeRun(before), trace[|trace|-1]);
    }
  }

  lemma {:induction false} NoPending(n: nat, msgs: seq<Msg>)
    requires |msgs| == n
    ensures Pending(NoIds(n), msgs) == multiset{}
  {
    if n > 0 {
      NoPending(n - 1, msgs[..n-1]);
      assert NoIds(n)[..n-1] == NoIds(n - 1);
    }
  }

  // ---------- exactly when they agree ----------

  /** With nothing refused the client path answers at least as much. */
  lemma {:induction false} RepliesOnlyGrow(n: nat, trace: seq<Event>)
    requires AllValid(trace) && NoneRefused(trace)
    ensures ClientRun(n, trace).open && |MeshRun(n, trace).sent| <= |ClientRun(n, trace).sent|
    ensures !MeshRun(n, trace).open ==> |MeshRun(n, trace).sent| < |ClientRun(n, trace).sent|
  {
    if trace != [] {
      RepliesOnlyGrow(n, trace[..|trace|-1]);
    }
  }

  /** A trace that does not fit closes the mesh ingress connection. */
  lemma {:induction false} OverflowCloses(n: nat, trace: seq<Event>)
    requires !Fits(n, trace) && AllValid(trace)
    ensures !MeshRun(n, trace).open
  {
    if trace != [] {
      var before := trace[..|trace|-1];
      if Fits(n, before) {
        MeshTracks(n, before);
        if |HandshakeRun(trace).open| <= n { FitsUnlessNow(n, trace); }
        OverflowStep(MeshRun(n, before), HandshakeRun(before), trace[|trace|-1]);
      } else {
        OverflowCloses(n, before);
      }
    }
  }

  lemma FitsUnlessNow(n: nat, trace: seq<Event>)
    requires trace != [] && Fits(n, trace[..|trace|-1]) && |HandshakeRun(trace).open| <= n
    ensures Fits(n, trace)
  {
    var before := trace[..|trace|-1];
    forall i | 0 <= i <= |trace| ensures FitsAt(n, trace, i) {
      if i < |trace| {
        assert FitsAt(n, before, i);
        assert before[..i] == trace[..i];
      } else {
        assert trace[..|trace|] == trace;
      }
    }
  }

  /** Only starting a handshake can be too much, and it finds no slot. */
  lemma OverflowStep(m: MeshState, h: Handshakes, e: Event)
    requires |m.msgs| == |m.ids| && m.open && HoldsOpen(m.ids, h.open) && ValidEvent(e)
    requires |HandshakeStep(h, e).open| > |m.ids|
    ensures !MeshStep(m, e).open
  {
    OpenCount(m.ids, h.open);
    FindsOpen(m.ids, h.open, e.id);
    ClosingShrinks(h.open, e.id);
  }

  // ---------- what each packet is answered ----------

  /** The answer a packet calls for, section 4.3 of MQTT 3.1.1. */
  function AnswerTo(e: Event): seq<Reply> {
    match e
    case Publish(qos, id, _) => if qos == 0 then [] else if qos == 1 then [Puback(id)] else [Pubrec(id)]
    case Release(id, _) => [Pubcomp(id)]
  }

  /** The client path closes on an empty or wildcard topic, and on a PUBREL with id 0 or a
      malformed header; to all else it gives the answer called for. */
  lemma ClientAnswers(s: ClientState, e: Event)
    requires s.open && ValidEvent(e)
    ensures var bad := if e.Publish? then e.msg.topic == "" || '+' in e.msg.topic || '#' in e.msg.topic else e.id == 0 || !e.proper;
            if bad then ClientStep(s, e) == s.(open := false)
            else ClientStep(s, e).open && ClientStep(s, e).sent == s.sent + AnswerTo(e)
  {}

  /** A publish below QoS 2 is published at once; one at QoS 2 when its id is new and there
      is a slot, which it then takes; a release frees the slot and publishes nothing. */
  lemma ClientPublishes(s: ClientState, e: Event)
    requires s.open && ValidEvent(e) && !Refused(e)
    ensures var s' := ClientStep(s, e);
            match e
            case Publish(qos, id, msg) =>
              if qos < 2 then s'.published == s.published + [msg] && s'.ids == s.ids
              else if Some(id) in s.ids || None !in s.ids then s'.published == s.published && s'.ids == s.ids
              else s'.published == s.published + [msg] && exists i :: 0 <= i < |s.ids| && s.ids[i] == None && s'.ids == s.ids[i := Some(id)]
            case Release(id, _) =>
              s'.published == s.published
              && if Some(id) in s.ids then exists i :: 0 <= i < |s.ids| && s.ids[i] == Some(id) && s'.ids == s.ids[i := None]
                 else s'.ids == s.ids
  {
    if e.Publish? && e.qos == 2 {
      var free := FirstWhere(s.ids, NoId, 0);
      assert free < |s.ids| ==> s.ids[free] == None;
      forall k | 0 <= k < |s.ids| && s.ids[k] == None ensures free <= k {
        assert NoId(s.ids[k]);
      }
    }
  }

  /** The mesh path publishes below QoS 2 at once, and at QoS 2 on the release of an id it
      holds; it closes on a new QoS 2 id with no slot left. */
  lemma MeshAnswers(s: MeshState, e: Event)
    requires |s.msgs| == |s.ids| && s.open && ValidEvent(e)
    ensures var s' := MeshStep(s, e);
            var full := e.Publish? && e.qos == 2 && Some(e.id) !in s.ids && None !in s.ids;
            if full then s' == s.(open := false)
            else s'.open && s'.sent == s.sent + (if e.Release? && e.id == 0 then [] else AnswerTo(e))
    ensures var s' := MeshStep(s, e);
            match e
            case Publish(qos, id, msg) =>
              if qos < 2 then s'.published == s.published + [msg] && s'.ids == s.ids && s'.msgs == s.msgs
              else if Some(id) in s.ids || None !in s.ids then s'.published == s.published && s'.ids == s.ids && s'.msgs == s.msgs
              else s'.published == s.published
                   && exists i :: 0 <= i < |s.ids| && s.ids[i] == None && s'.ids == s.ids[i := Some(id)] && s'.msgs == s.msgs[i := msg]
            case Release(id, _) =>
              s'.msgs == s.msgs
              && if Some(id) in s.ids
                 then exists i :: 0 <= i < |s.ids| && s.ids[i] == Some(id) && s'.ids == s.ids[i := None]
                                  && s'.published == s.published + [s.msgs[i]]
                 else s'.ids == s.ids && s'.published == s.published
  {
    if e.Publish? && e.qos == 2 {
      var free := FirstWhere(s.ids, NoId, 0);
      assert free < |s.ids| ==> s.ids[free] == None;
      forall k | 0 <= k < |s.ids| && s.ids[k] == None ensures free <= k {
        assert NoId(s.ids[k]);
      }
    }
  }

  // ---------- after a refusal ----------

  /** The index of the first refused event, or the length of the trace. */
  function FirstRefused(trace: seq<Event>): nat {
    FirstWhere(trace, Refused, 0)
  }

  /** From `j` on the mesh path has nothing to answer, or has closed. */
  predicate QuietFrom(n: nat, trace: seq<Event>, j: nat) {
    forall i :: j <= i < |trace| ==> QuietAt(n, trace, i)
  }

  predicate QuietAt(n: nat, trace: seq<Event>, i: nat)
    requires i < |trace|
  {
    Silent(trace[i]) || !Fits(n, trace[..i+1])
  }

  /** One more event leaves the mesh path's replies as they were exactly when it is
      quiet. */
  lemma OneMoreReply(n: nat, trace: seq<Event>)
    requires trace != [] && AllValid(trace)
    ensures var before := MeshRun(n, trace[..|trace|-1]);
            && before.sent <= MeshRun(n, trace).sent
            && (MeshRun(n, trace).sent == before.sent <==> QuietAt(n, trace, |trace| - 1))
  {
    var last := |trace| - 1;
    assert trace[..last+1] == trace;
    if Fits(n, trace) {
      FitsBefore(n, trace);
      MeshTracks(n, trace[..last]);
      StepTracks(MeshRun(n, trace[..last]), HandshakeRun(trace[..last]), trace[last]);
    } else {
      OverflowCloses(n, trace);
    }
  }

  lemma {:induction false} RepliesAfter(n: nat, trace: seq<Event>, j: nat)
    requires j <= |trace| && AllValid(trace)
    ensures MeshRun(n, trace[..j]).sent <= MeshRun(n, trace).sent
    ensures MeshRun(n, trace).sent == MeshRun(n, trace[..j]).sent <==> QuietFrom(n, trace, j)
  {
    if j == |trace| {
      assert trace[..j] == trace;
    } else {
      var before := trace[..|trace|-1];
      RepliesAfter(n, before, j);
      OneMoreReply(n, trace);
      assert before[..j] == trace[..j];
      QuietBefore(n, trace, j);
    }
  }

  lemma QuietBefore(n: nat, trace: seq<Event>, j: nat)
    requires j < |trace|
    ensures QuietFrom(n, trace, j) <==> QuietFrom(n, trace[..|trace|-1], j) && QuietAt(n, trace, |trace| - 1)
  {
    var before := trace[..|trace|-1];
    forall i | j <= i < |before| ensures QuietAt(n, before, i) <==> QuietAt(n, trace, i) {
      assert before[..i+1] == trace[..i+1];
    }
  }

  /** Nothing changes on a connection the client path has closed. */
  lemma {:induction false} StaysClosed(n: nat, trace: seq<Event>, j: nat)
    requires j <= |trace| && !ClientRun(n, trace[..j]).open
    ensures ClientRun(n, trace) == ClientRun(n, trace[..j])
  {
    if j == |trace| {
      assert trace[..j] == trace;
    } else {
      assert trace[..|trace|-1][..j] == trace[..j];
      StaysClosed(n, trace[..|trace|-1], j);
    }
  }

  /** The client path closes on the first refused event and has answered what came
      before. */
  lemma ClosesAtRefused(n: nat, trace: seq<Event>)
    requires AllValid(trace)
    ensures var j := FirstRefused(trace);
            && ClientRun(n, trace).sent == ClientRun(n, trace[..j]).sent
            && (ClientRun(n, trace).open <==> j == |trace|)
  {
    var j := FirstRefused(trace);
    RepliesOnlyGrow(n, trace[..j]);
    if j < |trace| {
      assert trace[..j+1][..j] == trace[..j];
      StaysClosed(n, trace, j + 1);
    } else {
      assert trace[..j] == trace;
    }
  }

  /** The two receivers send the same replies exactly when what comes before the first
      refused event fits and the mesh path has nothing to answer from there on. */
  lemma SameRepliesIff(n: nat, trace: seq<Event>)
    requires AllValid(trace)
    ensures var j := FirstRefused(trace);
            ClientRun(n, trace).sent == MeshRun(n, trace).sent <==> Fits(n, trace[..j]) && QuietFrom(n, trace, j)
  {
    var j := FirstRefused(trace);
    ClosesAtRefused(n, trace);
    RepliesAfter(n, trace, j);
    if Fits(n, trace[..j]) {
      ReceiversAgree(n, trace[..j]);
    } else {
      OverflowCloses(n, trace[..j]);
      RepliesOnlyGrow(n, trace[..j]);
      OverflowStays(n, trace, j);
    }
  }

  lemma OverflowStays(n: nat, trace: seq<Event>, j: nat)
    requires j <= |trace| && AllValid(trace) && !Fits(n, trace[..j])
    ensures MeshRun(n, trace).sent == MeshRun(n, trace[..j]).sent
  {
    var k :| 0 <= k <= j && !FitsAt(n, trace[..j], k);
    forall i | j <= i < |trace| ensures QuietAt(n, trace, i) {
      assert trace[..j][..k] == trace[..i+1][..k];
      assert !FitsAt(n, trace[..i+1], k);
    }
    RepliesAfter(n, trace, j);
  }

  /** With nothing refused: exactly when the trace fits. */
  lemma SameRepliesIffFits(n: nat, trace: seq<Event>)
    requires AllValid(trace) && NoneRefused(trace)
    ensures ClientRun(n, trace).sent == MeshRun(n, trace).sent <==> Fits(n, trace)
  {
    SameRepliesIff(n, trace);
    assert trace[..|trace|] == trace;
  }

  /** Where they part without an overflow: a publish to "#" is answered by the mesh path
      only, and so is whatever follows a PUBREL with id 0. */
  lemma RefusedParts(n: nat)
    ensures var wild, zero := [Publish(1, 5, Msg("#", ""))], [Release(0, true), Publish(1, 5, Msg("a", ""))];
            && AllValid(wild) && Fits(n, wild) && ClientRun(n, wild).sent == [] && MeshRun(n, wild).sent == [Puback(5)]
            && AllValid(zero) && Fits(n, zero) && ClientRun(n, zero).sent == [] && MeshRun(n, zero).sent == [Puback(5)]
  {
    var wild, zero := [Publish(1, 5, Msg("#", ""))], [Release(0, true), Publish(1, 5, Msg("a", ""))];
    assert '#' == "#"[0];
    assert wild[..0] == [] && zero[..1] == [zero[0]] && zero[..1][..0] == [];
    NothingOpenedFits(n, wild);
    NothingOpenedFits(n, zero);
  }

  lemma NothingOpenedFits(n: nat, trace: seq<Event>)
    requires forall i :: 0 <= i < |trace| ==> trace[i].Publish? ==> trace[i].qos < 2
    ensures Fits(n, trace)
  {
    forall i | 0 <= i <= |trace| ensures FitsAt(n, trace, i) {
      NothingOpened(trace[..i]);
    }
  }

  lemma {:induction false} NothingOpened(trace: seq<Event>)
    requires forall i :: 0 <= i < |trace| ==> trace[i].Publish? ==> trace[i].qos < 2
    ensures HandshakeRun(trace).open == map[]
  {
    if trace != [] {
      NothingOpened(trace[..|trace|-1]);
    }
  }

  /** A full client table still answers PUBREC, so the handshake completes with
      its message never published. */
  lemma FullTableLosesMessage(n: nat, trace: seq<Event>, id: nat, msg: Msg)
    requires Fits(n, trace) && AllValid(trace) && NoneRefused(trace)
    requires id > 0 && !BadTopic(msg.topic)
    requires id !in HandshakeRun(trace).open && |HandshakeRun(trace).open| == n
    ensures var full := trace + [Publish(2, id, msg), Release(id, true)];
            && ClientRun(n, full).sent == ClientRun(n, trace).sent + [Pubrec(id), Pubcomp(id)]
            && ClientRun(n, full).published == ClientRun(n, trace).published
            && HandshakeRun(full).completed == HandshakeRun(trace).completed + [msg]
  {
    ReceiversAgree(n, trace);
    var c, h := ClientRun(n, trace), HandshakeRun(trace);
    OpenCount(c.ids, h.open);
    FindsOpen(c.ids, h.open, id);
    TwoMore(n, trace, Publish(2, id, msg), Release(id, true));
    RefusedHandshake(c, id, msg);
    UntrackedHandshake(h, id, msg);
  }

  lemma OneOpen(msg: Msg)
    ensures var h := HandshakeRun([Publish(2, 1, msg)]); h.open == map[1 := msg] && h.started == [msg]
    ensures Fits(1, [Publish(2, 1, msg)])
  {
    var trace: seq<Event> := [Publish(2, 1, msg)];
    assert trace[..0] == [] && trace[..1] == trace;
    assert HandshakeRun(trace) == HandshakeStep(HandshakeRun([]), trace[0]);
    assert FitsAt(1, trace, 0) && FitsAt(1, trace, 1);
  }

  /** So it is with one slot and two messages. */
  lemma SecondOfTwoIsLost(a: Msg, b: Msg)
    requires !BadTopic(a.topic) && !BadTopic(b.topic)
    ensures ClientRun(1, [Publish(2, 1, a), Publish(2, 2, b), Release(2, true)]).published == [a]
  {
    var first: seq<Event> := [Publish(2, 1, a)];
    OneOpen(a);
    ReceiversAgree(1, first);
    FullTableLosesMessage(1, first, 2, b);
    assert first + [Publish(2, 2, b), Release(2, true)] == [Publish(2, 1, a), Publish(2, 2, b), Release(2, true)];
  }

  lemma TwoMore(n: nat, trace: seq<Event>, a: Event, b: Event)
    ensures ClientRun(n, trace + [a, b]) == ClientStep(ClientStep(ClientRun(n, trace), a), b)
    ensures HandshakeRun(trace + [a, b]) == HandshakeStep(HandshakeStep(HandshakeRun(trace), a), b)
  {
    var one, two := trace + [a], trace + [a, b];
    assert one[..|one|-1] == trace && two[..|two|-1] == one;
  }

  lemma RefusedHandshake(c: ClientState, id: nat, msg: Msg)
    requires c.open && id > 0 && !BadTopic(msg.topic)
    requires FindId(c.ids, id, 0) == |c.ids| && FirstWhere(c.ids, NoId, 0) == |c.ids|
    ensures ClientStep(ClientStep(c, Publish(2, id, msg)), Release(id, true)) == c.(sent := c.sent + [Pubrec(id), Pubcomp(id)])
  {
    assert c.sent + [Pubrec(id)] + [Pubcomp(id)] == c.sent + [Pubrec(id), Pubcomp(id)];
  }

  lemma UntrackedHandshake(h: Handshakes, id: nat, msg: Msg)
    requires id !in h.open
    ensures HandshakeStep(HandshakeStep(h, Publish(2, id, msg)), Release(id, true)).completed == h.completed + [msg]
  {}

  // ---------- the tables in place ----------

  datatype ClientSlot = ClientSlot(packetId: nat, inUse: bool)
  datatype MeshSlot = MeshSlot(packetId: nat, msg: Msg, inUse: bool, published: bool)

  function ClientIds(s: seq<ClientSlot>): (r: Ids)
    ensures |r| == |s| && forall i :: 0 <= i < |s| ==> r[i] == if s[i].inUse then Some(s[i].packetId) else None
  {
    seq(|s|, i requires 0 <= i < |s| => if s[i].inUse then Some(s[i].packetId) else None)
  }

  function MeshIds(s: seq<MeshSlot>): (r: Ids)
    ensures |r| == |s| && forall i :: 0 <= i < |s| ==> r[i] == if s[i].inUse then Some(s[i].packetId) else None
  {
    seq(|s|, i requires 0 <= i < |s| => if s[i].inUse then Some(s[i].packetId) else None)
  }

  function MeshMsgs(s: seq<MeshSlot>): (r: seq<Msg>)
    ensures |r| == |s| && forall i :: 0 <= i < |s| ==> r[i] == s[i].msg
  {
    seq(|s|, i requires 0 <= i < |s| => s[i].msg)
  }

  class ClientReceiver {
    const slots: array<ClientSlot>
    var published: seq<Msg>
    var sent: seq<Reply>
    var open: bool

    ghost function State(): ClientState
      reads this, slots
    {
      ClientState(ClientIds(slots[..]), published, sent, open)
    }

    constructor (n: nat)
      ensures State() == ClientRun(n, []) && fresh(slots)
    {
      slots := new ClientSlot[n](_ => ClientSlot(0, false));
      published, sent, open := [], [], true;
      new;
      assert ClientIds(slots[..]) == NoIds(n);
    }

    /** handle_publish, for a packet that parses. */
    method HandlePublish(qos: nat, id: nat, msg: Msg)
      requires ValidEvent(Publish(qos, id, msg))
      modifies this, slots
      ensures State() == ClientStep(old(State()), Publish(qos, id, msg))
    {
      if !open {
        return;
      }
      if msg.topic == "" || '#' in msg.topic || '+' in msg.topic {
        open := false;
        return;
      }
      if qos == 2 {
        var dup, freeSlot := false, slots.Length;
        for i := 0 to slots.Length
          invariant !dup && freeSlot <= slots.Length && State() == old(State())
          invariant FindId(State().ids, id, 0) == FindId(State().ids, id, i)
          invariant if freeSlot < slots.Length then freeSlot == FirstWhere(State().ids, NoId, 0)
                    else FirstWhere(State().ids, NoId, 0) == FirstWhere(State().ids, NoId, i)
        {
          if slots[i].inUse {
            if slots[i].packetId == id {
              dup := true;
              break;
            }
          } else if freeSlot == slots.Length {
            freeSlot := i;
          }
        }
        if !dup {
          if freeSlot < slots.Length {
            slots[freeSlot] := ClientSlot(id, true);
            published := published + [msg];
            assert ClientIds(slots[..]) == old(State()).ids[freeSlot := Some(id)];
          }
        }
        sent := sent + [Pubrec(id)];
        return;
      }
      published := published + [msg];
      if qos == 1 {
        sent := sent + [Puback(id)];
      }
    }

    /** The checks before the PUBREL branch, and the branch. */
    method HandleRelease(id: nat, proper: bool)
      modifies this, slots
      ensures State() == ClientStep(old(State()), Release(id, proper))
    {
      if !open {
        return;
      }
      if !proper || id == 0 {
        open := false;
        return;
      }
      for i := 0 to slots.Length
        invariant State() == old(State())
        invariant FindId(State().ids, id, 0) == FindId(State().ids, id, i)
      {
        if slots[i].inUse && slots[i].packetId == id {
          slots[i] := slots[i].(inUse := false);
          assert ClientIds(slots[..]) == old(State()).ids[i := None];
          break;
        }
      }
      sent := sent + [Pubcomp(id)];
    }
  }

  class MeshReceiver {
    const slots: array<MeshSlot>
    var published: seq<Msg>
    var sent: seq<Reply>
    var open: bool

    ghost function State(): MeshState
      reads this, slots
    {
      MeshState(MeshIds(slots[..]), MeshMsgs(slots[..]), published, sent, open)
    }

    /** A slot in use has not been published yet. */
    ghost predicate Valid()
      reads this, slots
    {
      forall i :: 0 <= i < slots.Length && slots[i].inUse ==> !slots[i].published
    }

    constructor (n: nat)
      ensures Valid() && State() == MeshRun(n, []) && fresh(slots)
    {
      slots := new MeshSlot[n](_ => MeshSlot(0, NO_MSG, false, false));
      published, sent, open := [], [], true;
      new;
      assert MeshIds(slots[..]) == NoIds(n);
      assert MeshMsgs(slots[..]) == seq(n, _ => NO_MSG);
    }

    method Find(id: nat) returns (r: nat)
      ensures r == FindId(MeshIds(slots[..]), id, 0)
    {
      for i := 0 to slots.Length
        invariant FindId(MeshIds(slots[..]), id, 0) == FindId(MeshIds(slots[..]), id, i)
      {
        if slots[i].inUse && slots[i].packetId == id {
          return i;
        }
      }
      return slots.Length;
    }

    method Alloc() returns (r: nat)
      ensures r == FirstWhere(MeshIds(slots[..]), NoId, 0)
    {
      for i := 0 to slots.Length
        invariant FirstWhere(MeshIds(slots[..]), NoId, 0) == FirstWhere(MeshIds(slots[..]), NoId, i)
      {
        if !slots[i].inUse {
          return i;
        }
      }
      return slots.Length;
    }

    /** The PUBLISH branch of the ingress handler; a full table closes the connection,
        and nothing more is read from a closed one. */
    method HandlePublish(qos: nat, id: nat, msg: Msg)
      requires Valid() && ValidEvent(Publish(qos, id, msg))
      modifies this, slots
      ensures Valid() && State() == MeshStep(old(State()), Publish(qos, id, msg))
    {
      if !open {
        return;
      }
      if qos == 2 {
        var slot := Find(id);
        if slot == slots.Length {
          slot := Alloc();
          if slot < slots.Length {
            slots[slot] := MeshSlot(id, msg, true, false);
            assert MeshIds(slots[..]) == old(State()).ids[slot := Some(id)];
            assert MeshMsgs(slots[..]) == old(State()).msgs[slot := msg];
          } else {
            open := false;
            return;
          }
        }
        sent := sent + [Pubrec(id)];
      } else {
        published := published + [msg];
      }
      if qos == 1 {
        sent := sent + [Puback(id)];
      }
    }

    /** The PUBREL branch of the ingress handler. */
    method HandleRelease(id: nat, ghost proper: bool)
      requires Valid()
      modifies this, slots
      ensures Valid() && State() == MeshStep(old(State()), Release(id, proper))
    {
      if !open {
        return;
      }
      var slot := Find(id);
      if slot < slots.Length {
        if !slots[slot].published {
          published := published + [slots[slot].msg];
          slots[slot] := slots[slot].(published := true);
        }
        slots[slot] := slots[slot].(inUse := false);
        assert MeshIds(slots[..]) == old(State()).ids[slot := None];
        assert MeshMsgs(slots[..]) == old(State()).msgs;
      }
      if id != 0 {
        sent := sent + [Pubcomp(id)];
      }
    }
  }
}
