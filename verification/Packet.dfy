/**
 The MQTT wire format: the variable-length remaining length, the two loops that
 read a packet off a socket, and the PUBLISH encoder and decoder.

 Buffers are bytes; a stream is the bytes still to be received.  Bit operations
 are written as the arithmetic they do on a byte.
 */
module Packet {
  import opened Common

  type Byte = x: int | 0 <= x < 256 witness 0

  const TOPIC_MAX := 128
  const PAYLOAD_MAX := 512
  const MAX_PACKET := TOPIC_MAX + PAYLOAD_MAX + 64
  const LENGTH_LIMIT := 0x1000_0000
  const TYPE_PUBLISH := 0x30
  const HASH: Byte := 35
  const PLUS: Byte := 43

  // ---------- remaining length ----------

  /** Section 2.2.3 of MQTT 3.1.1: seven bits a byte, low bits first. */
  function LengthBytes(len: nat): (r: seq<Byte>)
    ensures |r| >= 1
  {
    if len < 128 then [len] else [len % 128 + 128] + LengthBytes(len / 128)
  }

  /** The value and size of a length field of at most `max` bytes. */
  function DecodeLength(buf: seq<Byte>, max: nat): (r: Option<(nat, nat)>)
    ensures r.Some? ==> 1 <= r.value.1 <= |buf| && r.value.1 <= max
  {
    if max == 0 || buf == [] then None
    else if buf[0] < 128 then Some((buf[0], 1))
    else match DecodeLength(buf[1..], max - 1)
         case None => None
         case Some((v, n)) => Some((buf[0] - 128 + 128 * v, n + 1))
  }

  /** 128 to the power `n`. */
  function Pow128(n: nat): (r: nat)
    ensures r >= 1
  {
    if n == 0 then 1 else 128 * Pow128(n - 1)
  }

  lemma {:induction false} LengthRoundTrip(len: nat, max: nat, rest: seq<Byte>)
    requires max > 0 && len < Pow128(max)
    ensures |LengthBytes(len)| <= max
    ensures DecodeLength(LengthBytes(len) + rest, max) == Some((len, |LengthBytes(len)|))
  {
    if len >= 128 {
      var tail := LengthBytes(len / 128);
      assert len / 128 < Pow128(max - 1);
      LengthRoundTrip(len / 128, max - 1, rest);
      assert (LengthBytes(len) + rest)[1..] == tail + rest;
    } else {
      assert LengthBytes(len) + rest != [];
    }
  }

  lemma FourBytes()
    ensures Pow128(4) == LENGTH_LIMIT
  {
    assert Pow128(1) == 128;
    assert Pow128(2) == 0x4000;
    assert Pow128(3) == 0x20_0000;
  }

  /** Every length the encoder accepts decodes back, whatever follows it. */
  lemma RemainingLengthInverts(len: nat, rest: seq<Byte>)
    requires len < LENGTH_LIMIT
    ensures |LengthBytes(len)| <= 4
    ensures DecodeLength(LengthBytes(len) + rest, 4) == Some((len, |LengthBytes(len)|))
  {
    FourBytes();
    LengthRoundTrip(len, 4, rest);
  }

  /** The socket loops read the same length as packet_decode_remaining_len exactly
      when the field is not four bytes long. */
  lemma {:induction false} ShortFieldsAgree(buf: seq<Byte>, max: nat)
    ensures DecodeLength(buf, max) == DecodeLength(buf, max + 1)
            <==> !(DecodeLength(buf, max + 1).Some? && DecodeLength(buf, max + 1).value.1 == max + 1)
  {
    if max > 0 && buf != [] && buf[0] >= 128 {
      ShortFieldsAgree(buf[1..], max - 1);
    }
  }

  /** Two fields the decoder takes and the socket loops refuse: 2^21, and zero padded to
      four bytes. */
  lemma FourByteFields()
    ensures DecodeLength([128, 128, 128, 1], 4) == Some((0x20_0000, 4)) && DecodeLength([128, 128, 128, 1], 3) == None
    ensures DecodeLength([128, 128, 128, 0], 4) == Some((0, 4)) && DecodeLength([128, 128, 128, 0], 3) == None
  {
    forall last: Byte | last < 2
      ensures DecodeLength([128, 128, 128, last], 4) == Some((0x20_0000 * last, 4)) && DecodeLength([128, 128, 128, last], 3) == None
    {
      var a: seq<Byte>, b: seq<Byte>, c: seq<Byte>, d: seq<Byte> := [128, 128, 128, last], [128, 128, last], [128, last], [last];
      assert a[1..] == b && b[1..] == c && c[1..] == d;
      assert DecodeLength(d, 1) == Some((last, 1));
      assert DecodeLength(c, 2) == Some((128 * last, 2));
      assert DecodeLength(b, 3) == Some((0x4000 * last, 3));
      assert DecodeLength(d, 0) == None && DecodeLength(c, 1) == None && DecodeLength(b, 2) == None;
    }
  }

  /** What a decoder that has taken `n` bytes of value `value` still computes. */
  function Resume(value: nat, n: nat, weight: nat, r: Option<(nat, nat)>): Option<(nat, nat)> {
    match r
    case None => None
    case Some((v, k)) => Some((value + weight * v, n + k))
  }

  lemma ResumeStep(buf: seq<Byte>, i: nat, max: nat, value: nat, weight: nat)
    requires i < |buf| && i < max
    ensures var value' := value + weight * (buf[i] % 128);
            Resume(value, i, weight, DecodeLength(buf[i..], max - i))
            == if buf[i] < 128 then Some((value', i + 1))
               else Resume(value', i + 1, weight * 128, DecodeLength(buf[i+1..], max - (i + 1)))
  {
    assert buf[i..][1..] == buf[i+1..];
    var digit: int := buf[i] % 128;
    assert buf[i] == if buf[i] < 128 then digit else digit + 128;
    match DecodeLength(buf[i+1..], max - (i + 1))
    case None =>
    case Some((v, k)) => Distributes(weight, digit, v);
  }

  lemma Distributes(w: int, a: int, v: int)
    ensures w * (a + 128 * v) == w * a + (w * 128) * v
  {}

  method AddDigit(value: nat, weight: nat, byte: Byte) returns (r: nat)
    ensures r == value + weight * (byte % 128)
  {
    r := value + weight * (byte % 128);
  }

  /** packet_decode_remaining_len. */
  method DecodeRemainingLen(buf: seq<Byte>) returns (r: Option<(nat, nat)>)
    ensures r == DecodeLength(buf, 4)
  {
    var value: nat, multiplier: nat, i: nat := 0, 1, 0;
    assert buf[0..] == buf;
    while true
      invariant i <= |buf| && i <= 4
      invariant DecodeLength(buf, 4) == Resume(value, i, multiplier, DecodeLength(buf[i..], 4 - i))
      decreases 4 - i
    {
      if i >= |buf| || i >= 4 {
        return None;
      }
      ResumeStep(buf, i, 4, value, multiplier);
      value := AddDigit(value, multiplier, buf[i]);
      multiplier := multiplier * 128;
      i := i + 1;
      if buf[i-1] < 128 {
        return Some((value, i));
      }
    }
  }

  /** The encoding takes at most `n` bytes exactly when the value is below 128^n. */
  lemma {:induction false} LengthSize(len: nat, n: nat)
    requires n > 0
    ensures |LengthBytes(len)| <= n <==> len < Pow128(n)
  {
    if len >= 128 && n > 1 {
      LengthSize(len / 128, n - 1);
    }
  }

  lemma FitsFourBytes(len: nat)
    ensures |LengthBytes(len)| <= 4 <==> len < LENGTH_LIMIT
  {
    FourBytes();
    LengthSize(len, 4);
  }

  /** The bytes written so far, with those of what is left, are the whole field. */
  predicate Encoded(done: seq<Byte>, left: nat, len: nat) {
    done + LengthBytes(left) == LengthBytes(len)
  }

  lemma EncodedStep(done: seq<Byte>, now: nat, len: nat, digit: Byte, left: nat)
    requires Encoded(done, now, len)
    requires LengthBytes(now) == if left == 0 then [digit] else [digit] + LengthBytes(left)
    ensures left == 0 ==> done + [digit] == LengthBytes(len)
    ensures left > 0 ==> Encoded(done + [digit], left, len) && |LengthBytes(len)| > |done| + 1
  {
    if left > 0 {
      assert done + ([digit] + LengthBytes(left)) == done + [digit] + LengthBytes(left);
    }
  }

  /** packet_encode_remaining_len: fails after four bytes if value is left. */
  method EncodeRemainingLen(len: nat, out: array<Byte>) returns (ok: bool, n: nat)
    requires out.Length >= 4
    modifies out
    ensures ok <==> len < LENGTH_LIMIT
    ensures ok ==> n <= 4 && out[..n] == LengthBytes(len)
    ensures forall k :: 4 <= k < out.Length ==> out[k] == old(out[k])
  {
    var left: nat := len;
    n := 0;
    FitsFourBytes(len);
    while true
      invariant 0 <= n < 4 && (n > 0 ==> left > 0)
      invariant Encoded(out[..n], left, len)
      invariant forall k :: 4 <= k < out.Length ==> out[k] == old(out[k])
      decreases 4 - n
    {
      ghost var done, now := out[..n], left;
      out[n], left := LowDigit(left);
      n := n + 1;
      assert out[..n] == done + [out[n-1]];
      EncodedStep(done, now, len, out[n-1], left);
      if left == 0 {
        return true, n;
      }
      if n == 4 {
        return false, n;
      }
    }
  }

  /** One turn of the encoding loop. */
  method LowDigit(left: nat) returns (digit: Byte, rest: nat)
    ensures rest == left / 128
    ensures LengthBytes(left) == if rest == 0 then [digit] else [digit] + LengthBytes(rest)
  {
    digit := left % 128;
    rest := left / 128;
    if rest > 0 {
      digit := digit + 128;
    }
  }

  // ---------- reading a packet off a socket ----------

  datatype Frame = Frame(typeFlags: Byte, body: seq<Byte>)

  /** One packet off a stream, with what is left; None closes the connection. */
  function ReceiveFrame(stream: seq<Byte>): (r: Option<(Frame, seq<Byte>)>) {
    if stream == [] then None
    else match DecodeLength(stream[1..], 3)
         case None => None
         case Some((len, n)) =>
           if len > MAX_PACKET || 1 + n + len > |stream| then None
           else Some((Frame(stream[0], stream[1+n..1+n+len]), stream[1+n+len..]))
  }

  /** The multiplier a socket loop has reached before byte `k` of the field. */
  predicate IsWeight(k: nat, w: nat) {
    match k
    case 0 => w == 1
    case 1 => w == 128
    case 2 => w == 0x4000
    case 3 => w == 0x20_0000
    case _ => false
  }

  /** What a socket loop has read: `k` bytes of a length field of at most three. */
  ghost predicate LengthSoFar(field: seq<Byte>, k: nat, len: nat, w: nat) {
    k <= |field| && k <= 3 && IsWeight(k, w)
    && DecodeLength(field, 3) == Resume(len, k, w, DecodeLength(field[k..], 3 - k))
  }

  lemma WeightStep(k: nat, w: nat)
    requires k <= 3 && IsWeight(k, w)
    ensures k < 3 ==> IsWeight(k + 1, w * 128)
    ensures k < 3 <==> w * 128 <= 128 * 128 * 128
  {}

  lemma LengthStep(field: seq<Byte>, k: nat, len: nat, w: nat)
    requires LengthSoFar(field, k, len, w) && k < |field|
    ensures k == 3 <==> w * 128 > 128 * 128 * 128
    ensures k == 3 ==> DecodeLength(field, 3) == None
    ensures k < 3 && field[k] < 128 ==> DecodeLength(field, 3) == Some((len + w * (field[k] % 128), k + 1))
    ensures k < 3 && field[k] >= 128 ==> LengthSoFar(field, k + 1, len + w * (field[k] % 128), w * 128)
  {
    WeightStep(k, w);
    if k < 3 {
      ResumeStep(field, k, 3, len, w);
    }
  }

  /** The state of a loop that has read `k` bytes, the last of them `last`. */
  ghost predicate Reading(field: seq<Byte>, k: nat, last: Byte, len: nat, w: nat) {
    if last >= 128 then LengthSoFar(field, k, len, w) else DecodeLength(field, 3) == Some((len, k))
  }

  lemma ReadingStep(field: seq<Byte>, k: nat, last: Byte, len: nat, w: nat)
    requires Reading(field, k, last, len, w) && last >= 128 && k < |field|
    ensures w * 128 > 128 * 128 * 128 <==> k == 3
    ensures k == 3 ==> DecodeLength(field, 3) == None
    ensures k < 3 ==> Reading(field, k + 1, field[k], len + w * (field[k] % 128), w * 128)
    ensures k <= 3
  {
    LengthStep(field, k, len, w);
  }

  lemma FieldEnds(field: seq<Byte>, k: nat, len: nat, w: nat)
    requires LengthSoFar(field, k, len, w) && k == |field|
    ensures DecodeLength(field, 3) == None
  {}

  /** Reading the body, once the length is known. */
  method TakeBody(stream: seq<Byte>, pos: nat, len: nat) returns (r: Option<(Frame, seq<Byte>)>)
    requires 1 <= pos <= |stream| && DecodeLength(stream[1..], 3) == Some((len, pos - 1))
    ensures r == ReceiveFrame(stream)
  {
    if len > MAX_PACKET || pos + len > |stream| {
      return None;
    }
    return Some((Frame(stream[0], stream[pos..pos+len]), stream[pos+len..]));
  }

  /** recv_packet of the client path: the type and first length byte together. */
  method RecvPacket(stream: seq<Byte>) returns (r: Option<(Frame, seq<Byte>)>)
    ensures r == ReceiveFrame(stream)
  {
    if |stream| < 2 {
      return None;
    }
    var read := ReadLength(stream[1..]);
    if read == None {
      return None;
    }
    var (len, n) := read.value;
    r := TakeBody(stream, 1 + n, len);
  }

  /** Its loop, with the first length byte read already. */
  method ReadLength(field: seq<Byte>) returns (r: Option<(nat, nat)>)
    requires field != []
    ensures r == DecodeLength(field, 3)
  {
    var len: nat, multiplier: nat := field[0] % 128, 128;
    var last := field[0];
    var k: nat := 1;
    assert field[0..] == field;
    LengthStep(field, 0, 0, 1);
    while last >= 128
      invariant 1 <= k <= |field| && k <= 3
      invariant Reading(field, k, last, len, multiplier)
      decreases 3 - k
    {
      if k == |field| {
        FieldEnds(field, k, len, multiplier);
        return None;
      }
      ReadingStep(field, k, last, len, multiplier);
      last := field[k];
      len := len + multiplier * (last % 128);
      multiplier := multiplier * 128;
      if multiplier > 128 * 128 * 128 {
        return None;
      }
      k := k + 1;
    }
    return Some((len, k));
  }

  /** recv_mqtt_packet of the mesh ingress path: one byte at a time. */
  method RecvMqttPacket(stream: seq<Byte>) returns (r: Option<(Frame, seq<Byte>)>)
    ensures r == ReceiveFrame(stream)
  {
    if stream == [] {
      return None;
    }
    var len: nat, multiplier: nat := 0, 1;
    var pos: nat := 1;
    ghost var field := stream[1..];
    assert field[0..] == field;
    while true
      invariant 1 <= pos <= |stream| && pos <= 4
      invariant LengthSoFar(field, pos - 1, len, multiplier)
      decreases 4 - pos
    {
      if pos == |stream| {
        FieldEnds(field, pos - 1, len, multiplier);
        return None;
      }
      var b := stream[pos];
      LengthStep(field, pos - 1, len, multiplier);
      len := len + multiplier * (b % 128);
      multiplier := multiplier * 128;
      if multiplier > 128 * 128 * 128 {
        return None;
      }
      pos := pos + 1;
      if b < 128 {
        r := TakeBody(stream, pos, len);
        return;
      }
    }
  }

  function FrameBytes(f: Frame): seq<Byte> {
    [f.typeFlags] + LengthBytes(|f.body|) + f.body
  }

  /** A framed packet is received as it was, and the stream goes on after it. */
  lemma ReceiveInvertsFraming(f: Frame, rest: seq<Byte>)
    requires |f.body| <= MAX_PACKET
    ensures ReceiveFrame(FrameBytes(f) + rest) == Some((f, rest))
  {
    var len := LengthBytes(|f.body|);
    var stream := FrameBytes(f) + rest;
    assert Pow128(1) == 128 && Pow128(2) == 0x4000 && Pow128(3) == 0x20_0000;
    LengthRoundTrip(|f.body|, 3, f.body + rest);
    assert stream[1..] == len + (f.body + rest);
    assert stream[1 + |len|..1 + |len| + |f.body|] == f.body;
    assert stream[1 + |len| + |f.body|..] == rest;
  }

  /** A packet of more than 704 bytes is not received, whole or not. */
  lemma TooLongIsRefused(f: Frame, rest: seq<Byte>)
    requires 704 < |f.body| < LENGTH_LIMIT
    ensures ReceiveFrame(FrameBytes(f) + rest) == None
  {
    var len, stream := LengthBytes(|f.body|), FrameBytes(f) + rest;
    RemainingLengthInverts(|f.body|, f.body + rest);
    assert stream[1..] == len + (f.body + rest);
    ShortFieldReads(stream[1..], 3);
  }

  /** What a shorter bound reads the longer one reads too. */
  lemma {:induction false} ShortFieldReads(buf: seq<Byte>, max: nat)
    ensures DecodeLength(buf, max).Some? ==> DecodeLength(buf, max + 1) == DecodeLength(buf, max)
  {
    if max > 0 && buf != [] {
      ShortFieldReads(buf[1..], max - 1);
    }
  }
}
