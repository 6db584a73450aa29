/**
 PUBLISH packets to bytes and back.  Names are the bytes of the C string before
 its NUL, so they hold no zero; the encoder writes into a buffer by offset and the
 decoder reads one the same way.
 */
module PublishCodec {
  import opened Common
  import opened Packet

  datatype Publish = Publish(topic: seq<Byte>, payload: seq<Byte>, qos: nat, retain: nat, dup: nat, packetId: nat)

  const ID_LIMIT := 0x1_0000

  predicate NoWildcard(s: seq<Byte>) {
    HASH !in s && PLUS !in s
  }

  /** The fields as the C types hold them. */
  predicate WellFormed(p: Publish) {
    && |p.topic| < TOPIC_MAX && 0 !in p.topic
    && |p.payload| <= PAYLOAD_MAX
    && p.qos <= 3 && p.retain <= 1 && p.dup <= 1 && p.packetId < ID_LIMIT
  }

  /** What packet_build_publish accepts. */
  predicate Buildable(p: Publish) {
    && WellFormed(p)
    && p.topic != [] && NoWildcard(p.topic)
    && p.qos <= 2 && (p.qos > 0 ==> p.packetId != 0)
  }

  // ---------- fields ----------

  function U16(v: nat): (r: seq<Byte>)
    requires v < ID_LIMIT
    ensures |r| == 2
  {
    [v / 256, v % 256]
  }

  function ReadU16(b: seq<Byte>, pos: nat): (r: nat)
    requires pos + 2 <= |b|
    ensures r < ID_LIMIT
  {
    var high: int := b[pos];
    high * 256 + b[pos+1]
  }

  function FlagsOf(p: Publish): (r: Byte)
    requires p.qos <= 3 && p.retain <= 1 && p.dup <= 1
    ensures r / 16 == 3
    ensures r / 8 % 2 == p.dup && r / 2 % 4 == p.qos && r % 2 == p.retain
  {
    TYPE_PUBLISH + p.dup * 8 + p.qos * 2 + p.retain
  }

  function BodyOf(p: Publish): (r: seq<Byte>)
    requires WellFormed(p)
    ensures |r| <= MAX_PACKET
  {
    U16(|p.topic|) + p.topic + (if p.qos > 0 then U16(p.packetId) else []) + p.payload
  }

  function FrameOf(p: Publish): Frame
    requires WellFormed(p)
  {
    Frame(FlagsOf(p), BodyOf(p))
  }

  /** packet_build_publish into a buffer of `cap` bytes. */
  function Build(p: Publish, cap: nat): Option<seq<Byte>>
    requires WellFormed(p)
  {
    if Buildable(p) && |FrameBytes(FrameOf(p))| <= cap then Some(FrameBytes(FrameOf(p))) else None
  }

  // ---------- parsing ----------

  /** read_str with a destination of TOPIC_MAX bytes: the string and the new position. */
  function ReadStr(b: seq<Byte>, pos: nat): (r: Option<(seq<Byte>, nat)>)
    ensures r.Some? ==> r.value.1 <= |b| && pos + 2 <= r.value.1
    ensures r.Some? ==> |r.value.0| < TOPIC_MAX && 0 !in r.value.0
  {
    if pos + 2 > |b| then None
    else
      var len, at := ReadU16(b, pos), pos + 2;
      if at + len > |b| || len >= TOPIC_MAX || 0 in b[at..at+len] then None
      else Some((b[at..at+len], at + len))
  }

  /** packet_parse_publish; `idBefore` is what the output's packet id held, left
      alone at QoS 0. */
  function Parse(f: Frame, idBefore: nat): (r: Option<Publish>)
    requires |f.body| <= MAX_PACKET && idBefore < ID_LIMIT
    ensures r.Some? ==> WellFormed(r.value) && r.value.qos <= 2 && (r.value.qos > 0 ==> r.value.packetId != 0)
  {
    var dup, qos, retain := f.typeFlags / 8 % 2, f.typeFlags / 2 % 4, f.typeFlags % 2;
    if qos == 3 then None
    else match ReadStr(f.body, 0)
         case None => None
         case Some((topic, at)) =>
           if qos > 0 && (at + 2 > |f.body| || ReadU16(f.body, at) == 0) then None
           else
             var id := if qos > 0 then ReadU16(f.body, at) else idBefore;
             var start := if qos > 0 then at + 2 else at;
             if |f.body| - start > PAYLOAD_MAX then None
             else Some(Publish(topic, f.body[start..], qos, retain, dup, id))
  }

  lemma U16RoundTrip(v: nat, before: seq<Byte>, after: seq<Byte>)
    requires v < ID_LIMIT
    ensures ReadU16(before + U16(v) + after, |before|) == v
  {
    var b := before + U16(v) + after;
    assert b[|before|] == U16(v)[0] && b[|before|+1] == U16(v)[1];
  }

  lemma Parts(a: seq<Byte>, b: seq<Byte>, c: seq<Byte>)
    ensures (a + b + c)[|a|..|a|+|b|] == b && (a + b + c)[|a|+|b|..] == c
  {}

  lemma TopicReads(p: Publish)
    requires WellFormed(p)
    ensures ReadStr(BodyOf(p), 0) == Some((p.topic, 2 + |p.topic|))
  {
    var tail := (if p.qos > 0 then U16(p.packetId) else []) + p.payload;
    assert BodyOf(p) == U16(|p.topic|) + p.topic + tail;
    assert BodyOf(p) == [] + U16(|p.topic|) + (p.topic + tail);
    U16RoundTrip(|p.topic|, [], p.topic + tail);
    Parts(U16(|p.topic|), p.topic, tail);
  }

  lemma IdReads(p: Publish)
    requires WellFormed(p) && p.qos > 0
    ensures var at := 2 + |p.topic|; ReadU16(BodyOf(p), at) == p.packetId && BodyOf(p)[at+2..] == p.payload
  {
    var before := U16(|p.topic|) + p.topic;
    assert BodyOf(p) == before + U16(p.packetId) + p.payload;
    U16RoundTrip(p.packetId, before, p.payload);
    Parts(before, U16(p.packetId), p.payload);
  }

  /** Parsing what was built gives the message back; only a packet id is not sent
      at QoS 0. */
  lemma ParseInvertsBuild(p: Publish, cap: nat, idBefore: nat)
    requires WellFormed(p) && Build(p, cap).Some? && idBefore < ID_LIMIT
    ensures Parse(FrameOf(p), idBefore) == Some(if p.qos > 0 then p else p.(packetId := idBefore))
    ensures forall rest :: ReceiveFrame(Build(p, cap).value + rest) == Some((FrameOf(p), rest))
  {
    TopicReads(p);
    if p.qos > 0 {
      IdReads(p);
    } else {
      Parts(U16(|p.topic|), p.topic, [] + p.payload);
    }
    forall rest ensures ReceiveFrame(Build(p, cap).value + rest) == Some((FrameOf(p), rest)) {
      ReceiveInvertsFraming(FrameOf(p), rest);
    }
  }

  lemma U16OfRead(b: seq<Byte>, pos: nat)
    requires pos + 2 <= |b|
    ensures U16(ReadU16(b, pos)) == b[pos..pos+2]
  {
    var hi: int, lo: int := b[pos], b[pos+1];
    assert (hi * 256 + lo) / 256 == hi && (hi * 256 + lo) % 256 == lo;
  }

  /** Building what was parsed gives the packet back, byte for byte, exactly when its
      topic is one that may be published to and the buffer is large enough; the
      decoder also accepts empty topics and topics with wildcards. */
  lemma BuildInvertsParse(f: Frame, idBefore: nat, cap: nat)
    requires |f.body| <= MAX_PACKET && idBefore < ID_LIMIT
    requires f.typeFlags / 16 == 3 && Parse(f, idBefore).Some?
    ensures var topic := ReadStr(f.body, 0).value.0;
            Build(Parse(f, idBefore).value, cap) == Some(FrameBytes(f))
            <==> topic != [] && NoWildcard(topic) && |FrameBytes(f)| <= cap
  {
    FrameInvertsParse(f, idBefore);
  }

  /** The frame of what was parsed is the frame. */
  lemma FrameInvertsParse(f: Frame, idBefore: nat)
    requires |f.body| <= MAX_PACKET && idBefore < ID_LIMIT
    requires f.typeFlags / 16 == 3 && Parse(f, idBefore).Some?
    ensures FrameOf(Parse(f, idBefore).value) == f
    ensures Parse(f, idBefore).value.topic == ReadStr(f.body, 0).value.0
  {
    BodyInvertsParse(f, idBefore);
    FlagBits(f.typeFlags);
  }

  lemma BodyInvertsParse(f: Frame, idBefore: nat)
    requires |f.body| <= MAX_PACKET && idBefore < ID_LIMIT && Parse(f, idBefore).Some?
    ensures BodyOf(Parse(f, idBefore).value) == f.body
  {
    var p := Parse(f, idBefore).value;
    var (topic, at) := ReadStr(f.body, 0).value;
    U16OfRead(f.body, 0);
    if p.qos > 0 {
      U16OfRead(f.body, at);
      assert f.body == f.body[..2] + f.body[2..at] + f.body[at..at+2] + f.body[at+2..];
    } else {
      assert f.body == f.body[..2] + f.body[2..at] + f.body[at..];
    }
  }

  /** A packet the decoder accepts and the encoder refuses: the topic "#". */
  lemma WildcardTopicParsed(cap: nat)
    ensures var p := Parse(Frame(TYPE_PUBLISH, [0, 1, HASH]), 0); p.Some? && Build(p.value, cap) == None
  {
    assert [0, 1, HASH][2..3] == [HASH];
    assert ReadStr([0, 1, HASH], 0) == Some(([HASH], 3));
  }

  lemma FlagBits(flags: Byte)
    requires flags / 16 == 3
    ensures flags == TYPE_PUBLISH + flags / 8 % 2 * 8 + flags / 2 % 4 * 2 + flags % 2
  {}

  /** The bytes of a PUBLISH, section 3.3 of MQTT 3.1.1: the topic after its length, high
      byte first, above QoS 0 the packet id likewise, then the payload. */
  lemma PublishLayout(p: Publish)
    requires WellFormed(p)
    ensures var b, n := BodyOf(p), |p.topic|;
            var after := 2 + n + if p.qos > 0 then 2 else 0;
            && |b| == after + |p.payload| && b[0] == n / 256 && b[1] == n % 256 && b[2..2+n] == p.topic
            && (p.qos > 0 ==> b[2+n] == p.packetId / 256 && b[3+n] == p.packetId % 256)
            && b[after..] == p.payload
    ensures FrameOf(p).typeFlags == 0x30 + 8 * p.dup + 2 * p.qos + p.retain && FrameOf(p).body == BodyOf(p)
  {}

  /** So two messages with the same bytes are the same message. */
  lemma BuildInjective(p: Publish, q: Publish, cap: nat)
    requires WellFormed(p) && WellFormed(q) && Build(p, cap).Some? && Build(q, cap) == Build(p, cap)
    requires p.qos == 0 ==> p.packetId == q.packetId
    ensures p == q
  {
    ParseInvertsBuild(p, cap, 0);
    ParseInvertsBuild(q, cap, 0);
    assert Build(p, cap).value + [] == Build(p, cap).value;
    assert ReceiveFrame(Build(p, cap).value + []) == Some((FrameOf(p), []));
    assert ReceiveFrame(Build(q, cap).value + []) == Some((FrameOf(q), []));
  }

  // ---------- the DUP bit ----------

  /** buf[0] |= 0x08. */
  function SetDup(bytes: seq<Byte>): (r: seq<Byte>)
    requires bytes != []
    ensures |r| == |bytes|
  {
    if bytes[0] / 8 % 2 == 1 then bytes
    else
      var flags: int := bytes[0];
      assert flags / 8 % 2 == 0 && flags < 256 ==> flags + 8 < 256;
      bytes[0 := flags + 8]
  }

  /** Marking the encoded packet and encoding the marked message are the same. */
  lemma SetDupIsDup(p: Publish)
    requires Buildable(p)
    ensures SetDup(FrameBytes(FrameOf(p))) == FrameBytes(FrameOf(p.(dup := 1)))
  {
    var b, b' := FrameBytes(FrameOf(p)), FrameBytes(FrameOf(p.(dup := 1)));
    assert b[0] == FlagsOf(p) && b'[0] == FlagsOf(p.(dup := 1));
    assert BodyOf(p) == BodyOf(p.(dup := 1));
    assert b'[1..] == b[1..];
  }

  // ---------- in place ----------

  /** memcpy into the output buffer. */
  method CopyInto(out: array<Byte>, pos: nat, bytes: seq<Byte>) returns (next: nat)
    requires pos + |bytes| <= out.Length
    modifies out
    ensures next == pos + |bytes| && out[..next] == old(out[..pos]) + bytes
  {
    for i := 0 to |bytes|
      invariant out[..pos + i] == old(out[..pos]) + bytes[..i]
    {
      out[pos + i] := bytes[i];
      assert out[..pos + i + 1] == out[..pos + i] + [bytes[i]];
    }
    next := pos + |bytes|;
    assert bytes[..|bytes|] == bytes;
  }

  /** packet_build_publish. */
  method BuildPublish(p: Publish, out: array<Byte>) returns (r: Option<nat>)
    requires WellFormed(p)
    modifies out
    ensures match r
            case None => Build(p, out.Length) == None && out[..] == old(out[..])
            case Some(n) => n <= out.Length && Build(p, out.Length) == Some(out[..n])
  {
    if p.topic == [] || HASH in p.topic || PLUS in p.topic || p.qos > 2 || (p.qos > 0 && p.packetId == 0) {
      return None;
    }
    var rem := 2 + |p.topic| + (if p.qos > 0 then 2 else 0) + |p.payload|;
    assert rem == |BodyOf(p)|;
    var enc := new Byte[4](_ => 0);
    var ok, n := EncodeRemainingLen(rem, enc);
    var length := enc[..n];
    if 1 + n + rem > out.Length {
      return None;
    }
    var pos := CopyInto(out, 0, [FlagsOf(p)]);
    pos := CopyInto(out, pos, length);
    assert out[..pos] == [FlagsOf(p)] + length;
    pos := WriteBody(p, out, pos);
    assert out[..pos] == FrameBytes(FrameOf(p));
    return Some(pos);
  }

  /** The variable header and the payload. */
  method WriteBody(p: Publish, out: array<Byte>, start: nat) returns (pos: nat)
    requires WellFormed(p) && start + |BodyOf(p)| <= out.Length
    modifies out
    ensures pos == start + |BodyOf(p)| && out[..pos] == old(out[..start]) + BodyOf(p)
  {
    pos := CopyInto(out, start, U16(|p.topic|));
    pos := CopyInto(out, pos, p.topic);
    ghost var head := out[..pos];
    if p.qos > 0 {
      pos := CopyInto(out, pos, U16(p.packetId));
    }
    assert out[..pos] == head + if p.qos > 0 then U16(p.packetId) else [];
    pos := CopyInto(out, pos, p.payload);
    assert out[..pos] == old(out[..start]) + BodyOf(p);
  }

  /** read_str. */
  method ReadStrAt(b: seq<Byte>, pos: nat) returns (r: Option<(seq<Byte>, nat)>)
    ensures r == ReadStr(b, pos)
  {
    if pos + 2 > |b| {
      return None;
    }
    var len: nat := ReadU16(b, pos);
    var at := pos + 2;
    if at + len > |b| || len >= TOPIC_MAX {
      return None;
    }
    for i := 0 to len
      invariant 0 !in b[at..at+i]
    {
      if b[at+i] == 0 {
        return None;
      }
    }
    return Some((b[at..at+len], at + len));
  }

  /** packet_parse_publish. */
  method ParsePublish(f: Frame, idBefore: nat) returns (r: Option<Publish>)
    requires |f.body| <= MAX_PACKET && idBefore < ID_LIMIT
    ensures r == Parse(f, idBefore)
  {
    var dup, qos, retain := f.typeFlags / 8 % 2, f.typeFlags / 2 % 4, f.typeFlags % 2;
    if qos == 3 {
      return None;
    }
    var name := ReadStrAt(f.body, 0);
    if name == None {
      return None;
    }
    var (topic, pos) := name.value;
    var id := idBefore;
    if qos > 0 {
      if pos + 2 > |f.body| {
        return None;
      }
      id := ReadU16(f.body, pos);
      if id == 0 {
        return None;
      }
      pos := pos + 2;
    }
    if |f.body| - pos > PAYLOAD_MAX {
      return None;
    }
    return Some(Publish(topic, f.body[pos..], qos, retain, dup, id));
  }
}
