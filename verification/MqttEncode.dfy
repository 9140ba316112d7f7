/** The writer of PUBLISH packets (mqtt_encode.c), into a caller's buffer. */
module MqttEncode {
  import opened ByteStream
  import opened Buffer
  import opened MqttParser
  import opened MqttWire
  import opened MqttStreams

  /** packet_len: what encode_publish takes for the size of a packet. */
  function PacketLen(remLen: nat): nat {
    var n := remLen + 1;
    if n < 128 then n + 1
    else if n < 16384 then n + 2
    else if n < 2097151 then n + 3
    else n + 4
  }

  /** The size is enough, and one too many at four lengths only. */
  lemma PacketLenExactly(r: nat)
    requires r < MAX_REM_LEN
    ensures var size := 1 + |LengthBytes(r)| + r;
      PacketLen(r) == if r in {127, 16383, 2097150, 2097151} then size + 1 else size
  {
    LengthDigits(r);
  }

  lemma LengthDigits(r: nat)
    requires r < MAX_REM_LEN
    ensures |LengthBytes(r)| == if r < 128 then 1 else if r < 16384 then 2 else if r < 2097152 then 3 else 4
  {
    if r >= 128 {
      var a := r / 128;
      if a >= 128 {
        var b := a / 128;
        assert b >= 128 ==> |LengthBytes(b)| == 1 + |LengthBytes(b / 128)|;
      }
    }
  }

  /** One digit of the remaining length. */
  lemma LengthDigit(n: nat, d: Byte, done: seq<Byte>)
    requires d == n % 128 + if n / 128 > 0 then 128 else 0
    ensures done + LengthBytes(n) == if n / 128 > 0 then (done + [d]) + LengthBytes(n / 128) else done + [d]
  {}

  /** encode_rem_len */
  method EncodeRemLen(buf: array<Byte>, at: nat, length: nat) returns (ptr: nat)
    requires at + |LengthBytes(length)| <= buf.Length
    modifies buf
    ensures ptr == at + |LengthBytes(length)| && buf[..] == Written(old(buf[..]), at, LengthBytes(length))
  {
    ptr := at;
    var n, more := length, true;
    ghost var done: seq<Byte> := [];
    ghost var rest := LengthBytes(length);
    assert buf[..] == Written(buf[..], at, done);
    while more
      invariant rest == (if more then LengthBytes(n) else []) && done + rest == LengthBytes(length)
      invariant ptr == at + |done| && buf[..] == Written(old(buf[..]), at, done)
      decreases more, n
    {
      var d: Byte := n % 128;
      if n / 128 > 0 {
        d := d + 128;
      }
      LengthDigit(n, d, done);
      n := n / 128;
      WrittenTwice(old(buf[..]), at, done, [d]);
      ptr := Copy(buf, ptr, [d]);
      done := done + [d];
      more := n > 0;
      rest := if more then LengthBytes(n) else [];
      assert done + [] == done;
    }
  }

  /** encode_short */
  method EncodeShort(buf: array<Byte>, at: nat, n: nat) returns (ptr: nat)
    requires n < 0x1_0000 && at + 2 <= buf.Length
    modifies buf
    ensures ptr == at + 2 && buf[..] == Written(old(buf[..]), at, Short(n))
  {
    ptr := Copy(buf, at, [n / 256, n % 256]);
  }

  /** encode_string */
  method EncodeString(buf: array<Byte>, at: nat, s: seq<Byte>) returns (ptr: nat)
    requires |s| < 0x1_0000 && at + 2 + |s| <= buf.Length
    modifies buf
    ensures ptr == at + 2 + |s| && buf[..] == Written(old(buf[..]), at, Text(s))
  {
    WrittenTwice(buf[..], at, Short(|s|), s);
    ptr := EncodeShort(buf, at, |s|);
    ptr := Copy(buf, ptr, s);
  }

  datatype Message = Message(dup: bool, retain: bool, topic: seq<Byte>, payload: seq<Byte>)

  function RemainingLength(m: Message, qos: nat): nat { 2 + |m.topic| + |m.payload| + if qos > 0 then 2 else 0 }

  function First(m: Message, qos: nat): seq<Byte>
    requires qos < 4
  {
    [HeaderByte(PUBLISH, m.dup, qos) + Bit(m.retain)]
  }

  function Tail(m: Message, qos: nat, id: nat): seq<Byte>
    requires id < 0x1_0000
  {
    (if qos > 0 then Short(id) else []) + m.payload
  }

  lemma PublishedParts(m: Message, qos: nat, id: nat)
    requires qos < 4 && id < 0x1_0000 && |m.topic| < 0x1_0000
    ensures var l := LengthBytes(RemainingLength(m, qos));
      && Published(m, qos, id) == First(m, qos) + (l + (Text(m.topic) + Tail(m, qos, id)))
      && |Published(m, qos, id)| == 1 + |l| + RemainingLength(m, qos)
      && |First(m, qos)| == 1 && |Text(m.topic)| == |m.topic| + 2 &&
        |Text(m.topic)| + |Tail(m, qos, id)| == RemainingLength(m, qos)
  {}

  /** What encode_publish is to write. */
  function Published(m: Message, qos: nat, id: nat): seq<Byte>
    requires qos < 4 && id < 0x1_0000 && |m.topic| < 0x1_0000
  {
    [HeaderByte(PUBLISH, m.dup, qos) + Bit(m.retain)] +
    (LengthBytes(RemainingLength(m, qos)) + PublishBytes(qos, id, m.topic, m.payload))
  }

  /** The packet id, where there is one, and the payload. */
  method EncodeTail(buf: array<Byte>, at: nat, m: Message, qos: nat, id: nat) returns (ptr: nat)
    requires id < 0x1_0000 && at + (if qos > 0 then 2 else 0) + |m.payload| <= buf.Length
    modifies buf
    ensures ptr == at + |Tail(m, qos, id)| && buf[..] == Written(old(buf[..]), at, Tail(m, qos, id))
  {
    ptr := at;
    if qos > 0 {
      WrittenTwice(buf[..], at, Short(id), m.payload);
      ptr := EncodeShort(buf, ptr, id);
    } else {
      assert [] + m.payload == m.payload;
    }
    ptr := Copy(buf, ptr, m.payload);
  }

  /** encode_publish: the packet if the buffer has room for it, or nothing. */
  method EncodePublish(buf: array<Byte>, len: nat, m: Message, qos: nat, id: nat) returns (n: nat)
    requires len <= buf.Length && qos < 4 && id < 0x1_0000 && |m.topic| < 0x1_0000 &&
             RemainingLength(m, qos) < MAX_REM_LEN
    modifies buf
    ensures PacketLen(RemainingLength(m, qos)) > len ==> n == 0 && buf[..] == old(buf[..])
    ensures PacketLen(RemainingLength(m, qos)) <= len ==>
      n == |Published(m, qos, id)| <= len && buf[..] == Written(old(buf[..]), 0, Published(m, qos, id))
  {
    var r := RemainingLength(m, qos);
    PacketLenExactly(r);
    if PacketLen(r) > len {
      return 0;
    }
    PublishedParts(m, qos, id);
    WrittenFour(buf[..], First(m, qos), LengthBytes(r), Text(m.topic), Tail(m, qos, id));
    n := Copy(buf, 0, First(m, qos));
    n := EncodeRemLen(buf, n, r);
    n := EncodeString(buf, n, m.topic);
    n := EncodeTail(buf, n, m, qos, id);
  }

  lemma WrittenFour(b: seq<Byte>, s: seq<Byte>, t: seq<Byte>, u: seq<Byte>, v: seq<Byte>)
    requires |s| + |t| + |u| + |v| <= |b|
    ensures Written(Written(Written(Written(b, 0, s), |s|, t), |s| + |t|, u), |s| + |t| + |u|, v) ==
            Written(b, 0, s + (t + (u + v)))
  {
    WrittenTwice(b, 0, s, t);
    WrittenTwice(b, 0, s + t, u);
    WrittenTwice(b, 0, s + t + u, v);
    assert s + t + u + v == s + (t + (u + v));
  }

  lemma RetainRefused(p: Parser, m: Message, qos: nat, id: nat)
    requires p.at == Header && qos < 4 && id < 0x1_0000 && |m.topic| < 0x1_0000 && m.retain
    ensures Run(Step, p, Published(m, qos, id)).status == Refused(1)
  {
    var b := Published(m, qos, id)[0];
    assert b == HeaderByte(PUBLISH, m.dup, qos) + 1 && b % 2 == 1;
  }

  /** What is written of a message that is not retained. */
  lemma PublishedPlain(m: Message, qos: nat, id: nat, id': nat)
    requires qos < 4 && id < 0x1_0000 && |m.topic| < 0x1_0000 && !m.retain && id' == if qos > 0 then id else 0
    ensures var body := PublishBytes(qos, id', m.topic, m.payload);
      |body| == RemainingLength(m, qos) &&
        Published(m, qos, id) == [HeaderByte(PUBLISH, m.dup, qos)] + (LengthBytes(|body|) + body)
  {}

  /** What encode_publish writes, the parser reads back just when the message is not retained, its
      topic is neither empty nor too long, and its payload has from 1 to 65535 bytes. */
  lemma RoundTripExactly(p: Parser, m: Message, qos: nat, id: nat)
    requires p.at == Header && qos < 4 && id < 0x1_0000 && |m.topic| < 0x1_0000
    requires RemainingLength(m, qos) < MAX_REM_LEN
    ensures Took(p, Publish(m.dup, qos, if qos > 0 then id else 0, m.topic, m.payload),
            Run(Step, p, Published(m, qos, id)))
            <==> !m.retain && ShortText(m.topic, MAX_TOPIC_LEN) && 1 <= |m.payload| <= 0xffff
  {
    if m.retain {
      RetainRefused(p, m, qos, id);
    } else {
      var id' := if qos > 0 then id else 0;
      PublishedPlain(m, qos, id, id');
      PublishExactly(p, m.dup, qos, id', m.topic, m.payload);
    }
  }
}
