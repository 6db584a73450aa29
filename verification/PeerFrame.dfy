/**
 The publish frame brokers exchange: a packed header copied in host byte order,
 then the topic and the payload.  `little` is the byte order of the host, the
 same on both ends.
 */
module PeerFrame {
  import opened Common
  import opened Packet
  import PublishCodec

  datatype PeerMsg = PeerMsg(origin: seq<Byte>, seqNo: nat, topic: seq<Byte>, payload: seq<Byte>, qos: Byte, retain: Byte)

  const ID_LEN := 16
  const HEADER := ID_LEN + 8
  const FRAME_MAX := HEADER + TOPIC_MAX + PAYLOAD_MAX
  const U16_LIMIT := 0x1_0000

  /** The fields as the C types hold them; the topic is a C string. */
  predicate WellFormed(m: PeerMsg) {
    |m.origin| == ID_LEN && m.seqNo < U16_LIMIT && |m.payload| < U16_LIMIT && 0 !in m.topic
  }

  function HostU16(v: nat, little: bool): (r: seq<Byte>)
    requires v < U16_LIMIT
    ensures |r| == 2
  {
    if little then [v % 256, v / 256] else [v / 256, v % 256]
  }

  function ReadHostU16(b: seq<Byte>, pos: nat, little: bool): (r: nat)
    requires pos + 2 <= |b|
    ensures r < U16_LIMIT
  {
    var first: int, second: int := b[pos], b[pos+1];
    if little then second * 256 + first else first * 256 + second
  }

  function HeaderOf(m: PeerMsg, topicLen: nat, little: bool): (r: seq<Byte>)
    requires WellFormed(m) && topicLen < U16_LIMIT
    ensures |r| == HEADER
  {
    m.origin + HostU16(m.seqNo, little) + HostU16(topicLen, little) + HostU16(|m.payload|, little) + [m.qos, m.retain]
  }

  /** build_publish_frame into a buffer of `cap` bytes. */
  function Build(m: PeerMsg, cap: nat, little: bool): (r: Option<seq<Byte>>)
    requires WellFormed(m)
  {
    if m.topic == [] || |m.topic| >= TOPIC_MAX || |m.payload| > PAYLOAD_MAX
       || HEADER + |m.topic| + |m.payload| > cap then None
    else Some(HeaderOf(m, |m.topic|, little) + m.topic + m.payload)
  }

  /** A C string: the bytes before the first zero. */
  function CString(s: seq<Byte>): (r: seq<Byte>)
    ensures 0 !in r && |r| <= |s|
    ensures r == s <==> 0 !in s
  {
    if s == [] || s[0] == 0 then []
    else
      var rest := CString(s[1..]);
      assert s == [s[0]] + s[1..];
      [s[0]] + rest
  }

  /** parse_publish_frame. */
  function Parse(b: seq<Byte>, little: bool): (r: Option<PeerMsg>)
    ensures r.Some? ==> WellFormed(r.value)
  {
    if |b| < HEADER then None
    else
      var topicLen := ReadHostU16(b, ID_LEN + 2, little);
      var payloadLen := ReadHostU16(b, ID_LEN + 4, little);
      if topicLen == 0 || topicLen >= TOPIC_MAX || payloadLen > PAYLOAD_MAX
         || HEADER + topicLen + payloadLen != |b| then None
      else Some(PeerMsg(b[..ID_LEN], ReadHostU16(b, ID_LEN, little), CString(b[HEADER..HEADER+topicLen]),
                        b[HEADER+topicLen..], b[ID_LEN+6], b[ID_LEN+7]))
  }

  lemma U16RoundTrip(v: nat, before: seq<Byte>, after: seq<Byte>, little: bool)
    requires v < U16_LIMIT
    ensures ReadHostU16(before + HostU16(v, little) + after, |before|, little) == v
  {
    var b := before + HostU16(v, little) + after;
    assert b[|before|] == HostU16(v, little)[0] && b[|before|+1] == HostU16(v, little)[1];
  }

  lemma HeaderFields(m: PeerMsg, topicLen: nat, tail: seq<Byte>, little: bool)
    requires WellFormed(m) && topicLen < U16_LIMIT
    ensures var b := HeaderOf(m, topicLen, little) + tail;
            && b[..ID_LEN] == m.origin && ReadHostU16(b, ID_LEN, little) == m.seqNo
            && ReadHostU16(b, ID_LEN + 2, little) == topicLen && ReadHostU16(b, ID_LEN + 4, little) == |m.payload|
            && b[ID_LEN+6] == m.qos && b[ID_LEN+7] == m.retain
  {
    var b := HeaderOf(m, topicLen, little) + tail;
    var s, t, p := HostU16(m.seqNo, little), HostU16(topicLen, little), HostU16(|m.payload|, little);
    U16RoundTrip(m.seqNo, m.origin, t + p + [m.qos, m.retain] + tail, little);
    assert b == m.origin + s + (t + p + [m.qos, m.retain] + tail);
    U16RoundTrip(topicLen, m.origin + s, p + [m.qos, m.retain] + tail, little);
    assert b == (m.origin + s) + t + (p + [m.qos, m.retain] + tail);
    U16RoundTrip(|m.payload|, m.origin + s + t, [m.qos, m.retain] + tail, little);
    assert b == (m.origin + s + t) + p + ([m.qos, m.retain] + tail);
  }

  /** The bytes of a mesh frame: 16 of the publisher's id, its running number, the lengths
      of topic and payload, QoS and RETAIN, topic and payload.  Each number has the
      host's byte order. */
  lemma FrameLayout(m: PeerMsg, cap: nat, little: bool)
    requires WellFormed(m) && Build(m, cap, little).Some?
    ensures var b, n := Build(m, cap, little).value, |m.topic|;
            var low, high := if little then 0 else 1, if little then 1 else 0;
            && |b| == 24 + n + |m.payload| <= cap && 0 < n < 128 && |m.payload| <= 512
            && b[..16] == m.origin
            && b[16+low] == m.seqNo % 256 && b[16+high] == m.seqNo / 256
            && b[18+low] == n % 256 && b[18+high] == n / 256
            && b[20+low] == |m.payload| % 256 && b[20+high] == |m.payload| / 256
            && b[22] == m.qos && b[23] == m.retain && b[24..24+n] == m.topic && b[24+n..] == m.payload
  {}

  /** A built frame parses back to its message. */
  lemma ParseInvertsBuild(m: PeerMsg, cap: nat, little: bool)
    requires WellFormed(m) && Build(m, cap, little).Some?
    ensures Parse(Build(m, cap, little).value, little) == Some(m)
  {
    var b := Build(m, cap, little).value;
    HeaderFields(m, |m.topic|, m.topic + m.payload, little);
    assert b == HeaderOf(m, |m.topic|, little) + (m.topic + m.payload);
    assert b[HEADER..HEADER+|m.topic|] == m.topic;
    assert b[HEADER+|m.topic|..] == m.payload;
  }

  lemma U16OfRead(b: seq<Byte>, pos: nat, little: bool)
    requires pos + 2 <= |b|
    ensures HostU16(ReadHostU16(b, pos, little), little) == b[pos..pos+2]
  {
    var first: int, second: int := b[pos], b[pos+1];
    assert (first * 256 + second) / 256 == first && (first * 256 + second) % 256 == second;
    assert (second * 256 + first) / 256 == second && (second * 256 + first) % 256 == first;
  }

  /** The header read and written again. */
  lemma HeaderInverts(b: seq<Byte>, little: bool)
    requires Parse(b, little).Some?
    ensures HeaderOf(Parse(b, little).value, ReadHostU16(b, ID_LEN + 2, little), little) == b[..HEADER]
  {
    var m := Parse(b, little).value;
    U16OfRead(b, ID_LEN, little);
    U16OfRead(b, ID_LEN + 2, little);
    U16OfRead(b, ID_LEN + 4, little);
    assert |m.payload| == ReadHostU16(b, ID_LEN + 4, little);
    assert b[..HEADER] == b[..ID_LEN] + b[ID_LEN..ID_LEN+2] + b[ID_LEN+2..ID_LEN+4] + b[ID_LEN+4..ID_LEN+6]
                          + [b[ID_LEN+6], b[ID_LEN+7]];
  }

  /** A parsed frame builds back to its bytes exactly when its topic holds no zero
      byte; a zero cuts the topic short when the frame is forwarded. */
  lemma BuildInvertsParse(b: seq<Byte>, little: bool)
    requires Parse(b, little).Some?
    ensures Build(Parse(b, little).value, FRAME_MAX, little) == Some(b)
            <==> 0 !in b[HEADER..HEADER+ReadHostU16(b, ID_LEN + 2, little)]
  {
    if 0 !in b[HEADER..HEADER+ReadHostU16(b, ID_LEN + 2, little)] {
      WholeTopicRebuilds(b, little);
    } else {
      CutTopicShortens(b, little);
    }
  }

  lemma WholeTopicRebuilds(b: seq<Byte>, little: bool)
    requires Parse(b, little).Some? && 0 !in b[HEADER..HEADER+ReadHostU16(b, ID_LEN + 2, little)]
    ensures Build(Parse(b, little).value, FRAME_MAX, little) == Some(b)
  {
    var m, n := Parse(b, little).value, ReadHostU16(b, ID_LEN + 2, little);
    var topic := b[HEADER..HEADER+n];
    HeaderInverts(b, little);
    assert m.topic == topic && |m.topic| == n;
    assert b == b[..HEADER] + topic + b[HEADER+n..];
  }

  lemma CutTopicShortens(b: seq<Byte>, little: bool)
    requires Parse(b, little).Some? && 0 in b[HEADER..HEADER+ReadHostU16(b, ID_LEN + 2, little)]
    ensures Build(Parse(b, little).value, FRAME_MAX, little) != Some(b)
  {
    var m, n := Parse(b, little).value, ReadHostU16(b, ID_LEN + 2, little);
    ShorterCString(b[HEADER..HEADER+n]);
    assert |m.topic| < n;
    var built := Build(m, FRAME_MAX, little);
    assert built.Some? ==> |built.value| < |b|;
  }

  /** A frame whose two topic bytes are 'a' and zero is read as topic "a" and not built
      again. */
  lemma ZeroByteCuts(origin: seq<Byte>, little: bool)
    requires |origin| == ID_LEN
    ensures var b := HeaderOf(PeerMsg(origin, 1, [], [], 0, 0), 2, little) + [97, 0];
            && Parse(b, little) == Some(PeerMsg(origin, 1, [97], [], 0, 0))
            && Build(Parse(b, little).value, FRAME_MAX, little) != Some(b)
  {
    var b := HeaderOf(PeerMsg(origin, 1, [], [], 0, 0), 2, little) + [97, 0];
    HeaderFields(PeerMsg(origin, 1, [], [], 0, 0), 2, [97, 0], little);
    var topic := b[HEADER..HEADER+2];
    assert topic == [97, 0] && topic[1] == 0 && topic[1..] == [0];
    assert CString([0]) == [] && CString(topic) == [97];
    assert b[HEADER+2..] == [];
    BuildInvertsParse(b, little);
  }

  lemma {:induction false} ShorterCString(s: seq<Byte>)
    requires 0 in s
    ensures |CString(s)| < |s|
  {
    if s[0] != 0 {
      assert s == [s[0]] + s[1..];
      ShorterCString(s[1..]);
    }
  }

  /** build_publish_frame, in place. */
  method BuildFrame(m: PeerMsg, out: array<Byte>, little: bool) returns (r: Option<nat>)
    requires WellFormed(m)
    modifies out
    ensures match r
            case None => Build(m, out.Length, little) == None && out[..] == old(out[..])
            case Some(n) => n <= out.Length && Build(m, out.Length, little) == Some(out[..n])
  {
    if m.topic == [] || |m.topic| >= TOPIC_MAX || |m.payload| > PAYLOAD_MAX {
      return None;
    }
    var needed := HEADER + |m.topic| + |m.payload|;
    if needed > out.Length {
      return None;
    }
    var pos := PublishCodec.CopyInto(out, 0, HeaderOf(m, |m.topic|, little));
    assert out[..pos] == HeaderOf(m, |m.topic|, little);
    pos := PublishCodec.CopyInto(out, pos, m.topic);
    pos := PublishCodec.CopyInto(out, pos, m.payload);
    return Some(pos);
  }
}
