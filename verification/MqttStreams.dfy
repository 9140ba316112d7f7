/** The parser reads every stream of valid packets, however it is cut into buffers. */
module MqttStreams {
  import opened ByteStream
  import opened MqttParser
  import opened MqttWire

  // ---------- Fields

  lemma Cut(s: seq<Byte>, k: nat)
    requires k < |s|
    ensures s[k..][0] == s[k] && s[k..][1..] == s[k + 1..] && s[..k + 1] == s[..k] + [s[k]]
    ensures k == 0 ==> s[..k + 1] == [s[k]]
    ensures k + 1 == |s| ==> s[..k + 1] == s && s[k..] == [s[k]]
  {}

  lemma {:induction false} ReadClientId(p: Parser, s: seq<Byte>, k: nat)
    requires p.at == ClientId2 && p.i == k < |s| <= MAX_ID_LEN && p.conn.idLen == |s| &&
             (k > 0 ==> p.conn.clientId == s[..k])
    ensures Run(Step, p, s[k..]) == ClientIdDone(p.(i := |s|, conn := p.conn.(clientId := s)))
    decreases |s| - k
  {
    var o := Step(p, s[k]);
    Cut(s, k);
    if k + 1 < |s| {
      ReadClientId(o.p, s, k + 1);
    } else {
      RunOne(Step, p, s[k]);
    }
  }

  lemma {:induction false} ReadUsername(p: Parser, s: seq<Byte>, k: nat)
    requires p.at == Username2 && p.i == k < |s| <= MAX_ID_LEN && p.conn.userLen == |s| &&
             (k > 0 ==> p.conn.username == s[..k])
    ensures Run(Step, p, s[k..]) == Go(p.(at := Password0, i := |s|, conn := p.conn.(username := s)))
    decreases |s| - k
  {
    var o := Step(p, s[k]);
    Cut(s, k);
    if k + 1 < |s| {
      ReadUsername(o.p, s, k + 1);
    } else {
      RunOne(Step, p, s[k]);
    }
  }

  lemma PasswordByte(p: Parser, b: Byte, w: seq<Byte>)
    requires p.at == Password2 && p.i < p.conn.u16 <= MAX_ID_LEN && Put(p.conn.password, p.i, b) == w
    ensures var p' := p.(i := p.i + 1, conn := p.conn.(password := w));
      Step(p, b) == if p.i + 1 == p.conn.u16 then Emit(p', Connected(p, User(p.conn.username, w))) else Go(p')
  {}

  lemma {:induction false} ReadPassword(p: Parser, s: seq<Byte>, k: nat)
    requires p.at == Password2 && p.i == k < |s| <= MAX_ID_LEN && p.conn.u16 == |s| &&
             (k > 0 ==> p.conn.password == s[..k])
    ensures Run(Step, p, s[k..]) ==
            Emit(p.(i := |s|, conn := p.conn.(password := s)), Connected(p, User(p.conn.username, s)))
    decreases |s| - k
  {
    Cut(s, k);
    PasswordByte(p, s[k], s[..k + 1]);
    var o := Step(p, s[k]);
    RunOne(Step, p, s[k]);
    if k + 1 < |s| {
      assert s[k..] == [s[k]] + s[k + 1..];
      RunOn(Step, p, [s[k]], o.p, s[k + 1..]);
      ReadPassword(o.p, s, k + 1);
    }
  }

  lemma {:induction false} ReadProtocol(p: Parser, s: seq<Byte>, k: nat)
    requires p.at == Protocol2 && p.i == k < |s| <= PROTOCOL_LEN && p.conn.u16 == |s| &&
             (k > 0 ==> p.conn.protocol == s[..k])
    ensures Run(Step, p, s[k..]) == Go(p.(at := Version, i := |s|, conn := p.conn.(protocol := s)))
    decreases |s| - k
  {
    var o := Step(p, s[k]);
    Cut(s, k);
    if k + 1 < |s| {
      ReadProtocol(o.p, s, k + 1);
    } else {
      RunOne(Step, p, s[k]);
    }
  }

  lemma {:induction false} ReadFilter(p: Parser, s: seq<Byte>, k: nat)
    requires p.at == SubTopic2 && p.sub.u16 == k < |s| < 0x1_0000 && p.sub.len == |s| && p.sub.filter == s[..k]
    ensures Run(Step, p, s[k..]) == Go(p.(at := SubQos, sub := p.sub.(u16 := |s|, filter := s)))
    decreases |s| - k
  {
    var o := Step(p, s[k]);
    Cut(s, k);
    if k + 1 < |s| {
      ReadFilter(o.p, s, k + 1);
    } else {
      RunOne(Step, p, s[k]);
    }
  }

  lemma {:induction false} ReadTopic(p: Parser, s: seq<Byte>, k: nat)
    requires p.at == PubTopic2 && p.i == k < |s| <= MAX_TOPIC_LEN && p.pub.topicLen == |s| &&
             (k > 0 ==> p.pub.topic == s[..k])
    ensures Run(Step, p, s[k..]) == TopicDone(p.(i := |s|, pub := p.pub.(topic := s)))
    decreases |s| - k
  {
    var o := Step(p, s[k]);
    Cut(s, k);
    if k + 1 < |s| {
      ReadTopic(o.p, s, k + 1);
    } else {
      RunOne(Step, p, s[k]);
    }
  }

  lemma {:induction false} ReadPayload(p: Parser, s: seq<Byte>, k: nat)
    requires p.at == PubPayload && p.i == k < |s| < 0x1_0000 && p.pub.payloadLen == |s| && p.pub.payload == s[..k]
    ensures Run(Step, p, s[k..]) ==
            Emit(p.(i := |s|, pub := p.pub.(payload := s)), Publish(p.dup, p.qos, p.pub.packetId, p.pub.topic, s))
    decreases |s| - k
  {
    var o := Step(p, s[k]);
    Cut(s, k);
    if k + 1 < |s| {
      ReadPayload(o.p, s, k + 1);
    } else {
      RunOne(Step, p, s[k]);
    }
  }

  // ---------- Two-byte integers

  /** The states in which a two-byte integer begins. */
  predicate AtShort(at: At) {
    at in {Protocol0, KeepAlive0, ClientId0, WillTopic0, WillPayload0, Username0, Password0, SubId0, SubTopic0,
      UnsubId0, UnsubTopic0, PubTopic0,
      PubId0}
  }

  /** The parser between the two bytes of an integer whose first byte is worth `n`. */
  ghost function Between(p: Parser, n: nat): Parser
    requires AtShort(p.at)
  {
    match p.at
    case Protocol0 => p.(at := Protocol1, conn := p.conn.(u16 := n))
    case KeepAlive0 => p.(at := KeepAlive1, conn := p.conn.(keepAlive := n))
    case ClientId0 => p.(at := ClientId1, conn := p.conn.(idLen := n))
    case WillTopic0 => p.(at := WillTopic1, conn := p.conn.(willLen := n))
    case WillPayload0 => p.(at := WillPayload1, conn := p.conn.(u16 := n))
    case Username0 => p.(at := Username1, conn := p.conn.(userLen := n))
    case Password0 => p.(at := Password1, conn := p.conn.(u16 := n))
    case SubId0 => p.(at := SubId1, sub := p.sub.(packetId := n))
    case SubTopic0 => p.(at := SubTopic1, sub := p.sub.(u16 := n))
    case UnsubId0 => p.(at := UnsubId1, sub := p.sub.(packetId := n))
    case UnsubTopic0 => p.(at := UnsubTopic1, sub := p.sub.(u16 := n))
    case PubTopic0 => p.(at := PubTopic1, pub := p.pub.(topicLen := n))
    case _ => p.(at := PubId1, pub := p.pub.(packetId := n))
  }

  /** Which lengths are refused. */
  predicate BadShort(p: Parser, n: nat) {
    match p.at
    case Protocol0 => n > PROTOCOL_LEN
    case ClientId0 | Username0 | Password0 => n == 0 || n > MAX_ID_LEN
    case WillTopic0 => n == 0 || n > MAX_TOPIC_LEN + 1
    case WillPayload0 => n == 0 || n > MAX_PAYLOAD_LEN
    case SubTopic0 | UnsubTopic0 => n + 3 > p.remLen
    case PubTopic0 => n == 0 || n > MAX_TOPIC_LEN
    case _ => false
  }

  /** The parser after the integer `n`, which is not refused. */
  ghost function AfterShort(p: Parser, n: nat): Parser
    requires AtShort(p.at)
  {
    match p.at
    case Protocol0 => p.(at := Protocol2, i := 0, conn := p.conn.(u16 := n))
    case KeepAlive0 => p.(at := ClientId0, conn := p.conn.(keepAlive := n))
    case ClientId0 => p.(at := ClientId2, i := 0, conn := p.conn.(idLen := n))
    case WillTopic0 => p.(at := WillTopic2, i := 0, conn := p.conn.(willLen := n))
    case WillPayload0 => p.(at := WillPayload2, i := 0, conn := p.conn.(u16 := n))
    case Username0 => p.(at := Username2, i := 0, conn := p.conn.(userLen := n))
    case Password0 => p.(at := Password2, i := 0, conn := p.conn.(u16 := n))
    case SubId0 => p.(at := SubTopic0, sub := p.sub.(packetId := n, filters := [], qoss := []),
      remLen := Sub32(p.remLen, 2))
    case SubTopic0 => p.(at := SubTopic2, sub := p.sub.(u16 := 0, len := n, filter := []))
    case UnsubId0 => p.(at := UnsubTopic0, sub := p.sub.(packetId := n, filters := []), remLen := Sub32(p.remLen, 2))
    case UnsubTopic0 => p.(at := UnsubTopic2, sub := p.sub.(u16 := 0, len := n, filter := []))
    case PubTopic0 => p.(at := PubTopic2, i := 0, pub := p.pub.(topicLen := n))
    case _ => p.(at := PubPayload, pub := p.pub.(packetId := n))
  }

  lemma HighByte(p: Parser, a: Byte)
    requires AtShort(p.at)
    ensures Step(p, a) == Go(Between(p, U16(a, 0)))
  {}

  ghost function ShortDone(p: Parser, n: nat): Res
    requires AtShort(p.at)
  {
    if BadShort(p, n) then Out(Between(p, n), [], Refused(if p.at == WillPayload0 then -1 else 1))
    else Go(AfterShort(p, n))
  }

  lemma LowByteConnect(p: Parser, a: Byte, b: Byte)
    requires p.at in {Protocol0, KeepAlive0}
    ensures Step(Between(p, U16(a, 0)), b) == ShortDone(p, U16(a, b))
  {}

  lemma LowByteId(p: Parser, a: Byte, b: Byte)
    requires p.at == ClientId0
    ensures Step(Between(p, U16(a, 0)), b) == ShortDone(p, U16(a, b))
  {}

  lemma LowByteLogin(p: Parser, a: Byte, b: Byte)
    requires p.at in {Username0, Password0}
    ensures Step(Between(p, U16(a, 0)), b) == ShortDone(p, U16(a, b))
  {}

  lemma LowByteWill(p: Parser, a: Byte, b: Byte)
    requires p.at == WillTopic0
    ensures Step(Between(p, U16(a, 0)), b) == ShortDone(p, U16(a, b))
  {}

  lemma LowByteWillPayload(p: Parser, a: Byte, b: Byte)
    requires p.at == WillPayload0
    ensures Step(Between(p, U16(a, 0)), b) == ShortDone(p, U16(a, b))
  {}

  lemma LowByteSubscribe(p: Parser, a: Byte, b: Byte)
    requires p.at in {SubId0, SubTopic0}
    ensures Step(Between(p, U16(a, 0)), b) == ShortDone(p, U16(a, b))
  {}

  lemma LowByteUnsubscribe(p: Parser, a: Byte, b: Byte)
    requires p.at in {UnsubId0, UnsubTopic0}
    ensures Step(Between(p, U16(a, 0)), b) == ShortDone(p, U16(a, b))
  {}

  lemma LowByteTopic(p: Parser, a: Byte, b: Byte)
    requires p.at == PubTopic0
    ensures Step(Between(p, U16(a, 0)), b) == ShortDone(p, U16(a, b))
  {}

  lemma LowBytePublish(p: Parser, a: Byte, b: Byte)
    requires p.at == PubId0
    ensures Step(Between(p, U16(a, 0)), b) == ShortDone(p, U16(a, b))
  {}

  lemma LowByte(p: Parser, a: Byte, b: Byte)
    requires AtShort(p.at)
    ensures Step(Between(p, U16(a, 0)), b) == ShortDone(p, U16(a, b))
  {
    match p.at
    case Protocol0 | KeepAlive0 => LowByteConnect(p, a, b);
    case ClientId0 => LowByteId(p, a, b);
    case Username0 | Password0 => LowByteLogin(p, a, b);
    case WillTopic0 => LowByteWill(p, a, b);
    case WillPayload0 => LowByteWillPayload(p, a, b);
    case SubId0 | SubTopic0 => LowByteSubscribe(p, a, b);
    case UnsubId0 | UnsubTopic0 => LowByteUnsubscribe(p, a, b);
    case PubTopic0 => LowByteTopic(p, a, b);
    case _ => LowBytePublish(p, a, b);
  }

  /** Every two-byte integer comes out as it went in, or is refused for its value. */
  lemma ReadShort(p: Parser, n: nat)
    requires AtShort(p.at) && n < 0x1_0000
    ensures Run(Step, p, Short(n)) == ShortDone(p, n)
  {
    var a: Byte, b: Byte := n / 256, n % 256;
    assert U16(a, b) == n;
    HighByte(p, a);
    LowByte(p, a, b);
    RunTwo(Step, p, a, Between(p, U16(a, 0)), b, ShortDone(p, n));
  }

  // ---------- The fixed header

  lemma Digits(q: nat, r: nat, m: nat)
    ensures r * m + q * (m * 128) == (q * 128 + r) * m && q * (m * 128) >= 0
  {}

  lemma LengthByte(p: Parser, b: Byte, n: nat)
    requires p.at == RemLen && n == p.remLen + b % 128 * p.multiplier && n < 0x1_0000_0000
    ensures var p' := p.(remLen := n, multiplier := p.multiplier * 128);
            Step(p, b) == if b >= 128 then Go(p') else Dispatch(p')
  {}

  /** The remaining length with `n` still to come at the current multiplier. */
  ghost predicate Comes(p: Parser, n: nat, total: nat) { p.remLen + n * p.multiplier == total < 0x1_0000_0000 }

  lemma LengthStep(p: Parser, b: Byte, n: nat, q: nat, total: nat) returns (p': Parser)
    requires p.at == RemLen && n == q * 128 + b % 128 && Comes(p, n, total)
    ensures p' == p.(remLen := p'.remLen, multiplier := p.multiplier * 128) && Comes(p', q, total) &&
            (q == 0 ==> p'.remLen == total)
    ensures Step(p, b) == if b >= 128 then Go(p') else Dispatch(p')
  {
    Digits(q, b % 128, p.multiplier);
    p' := p.(remLen := p.remLen + b % 128 * p.multiplier, multiplier := p.multiplier * 128);
    LengthByte(p, b, p'.remLen);
  }

  /** The remaining length comes out as it went in. */
  lemma {:induction false} ReadLength(p: Parser, n: nat, total: nat) returns (m: nat)
    requires p.at == RemLen && Comes(p, n, total)
    ensures Run(Step, p, LengthBytes(n)) == Dispatch(p.(remLen := total, multiplier := m))
    decreases n
  {
    if n < 128 {
      var p' := LengthStep(p, n, n, 0, total);
      RunOne(Step, p, n);
      m := p'.multiplier;
    } else {
      var b: Byte := n % 128 + 128;
      var p' := LengthStep(p, b, n, n / 128, total);
      m := ReadLength(p', n / 128, total);
      RunOne(Step, p, b);
      RunOn(Step, p, [b], p', LengthBytes(n / 128));
    }
  }

  lemma ReadHeader(p: Parser, t: nat, dup: bool, qos: nat)
    requires p.at == Header && 1 <= t < NUM_TYPES && qos < 4
    ensures Step(p, HeaderByte(t, dup, qos)) ==
            Go(p.(at := RemLen, msgType := t, dup := dup, qos := qos, remLen := 0, multiplier := 1))
  {
    HeaderParts(t, dup, qos, HeaderByte(t, dup, qos));
  }

  lemma HeaderParts(t: nat, dup: bool, qos: nat, b: Byte)
    requires t < 16 && qos < 4 && b == HeaderByte(t, dup, qos)
    ensures b / 16 == t && (b / 8 % 2 == 1) == dup && b / 2 % 4 == qos && b % 2 == 0
  {}

  lemma ReadStart(p: Parser, t: nat, dup: bool, qos: nat, n: nat, rest: seq<Byte>) returns (m: nat)
    requires p.at == Header && 1 <= t < NUM_TYPES && qos < 4 && n < MAX_REM_LEN
    ensures var o := Dispatch(p.(at := RemLen, msgType := t, dup := dup, qos := qos, remLen := n, multiplier := m));
      Run(Step, p, [HeaderByte(t, dup, qos)] + (LengthBytes(n) + rest)) == Then(Step, o, rest)
  {
    var b := HeaderByte(t, dup, qos);
    var o := Step(p, b);
    ReadHeader(p, t, dup, qos);
    m := ReadLength(o.p, n, n);
    RunOne(Step, p, b);
    RunOn(Step, p, [b], o.p, LengthBytes(n) + rest);
    RunConcat(Step, o.p, LengthBytes(n), rest);
  }

  // ---------- Packets

  /** The parser has read one packet: it raised the event and waits for the next packet. */
  ghost predicate Took(p: Parser, e: Event, o: Res) {
    o.status == Going && o.events == [e] && o.p.at == Header && o.p.allowAnonymous == p.allowAnonymous
  }

  /** An integer that is not refused, and what follows it. */
  lemma TakeShort(p: Parser, n: nat, rest: seq<Byte>)
    requires AtShort(p.at) && n < 0x1_0000 && !BadShort(p, n)
    ensures Run(Step, p, Short(n) + rest) == Run(Step, AfterShort(p, n), rest)
  {
    ReadShort(p, n);
    RunOn(Step, p, Short(n), AfterShort(p, n), rest);
  }

  lemma TakeText(p: Parser, s: seq<Byte>, rest: seq<Byte>)
    requires AtShort(p.at) && |s| < 0x1_0000 && !BadShort(p, |s|)
    ensures Run(Step, p, Text(s) + rest) == Run(Step, AfterShort(p, |s|), s + rest)
  {
    TakeShort(p, |s|, s + rest);
    assert Text(s) + rest == Short(|s|) + (s + rest);
  }

  lemma TextSplits(s: seq<Byte>, rest: seq<Byte>)
    requires |s| < 0x1_0000
    ensures Text(s) + rest == Short(|s|) + (s + rest)
  {}

  /** A text that is empty or too long is refused at its length. */
  lemma LengthRefused(p: Parser, s: seq<Byte>, rest: seq<Byte>)
    requires AtShort(p.at) && |s| < 0x1_0000 && BadShort(p, |s|)
    ensures var o := Run(Step, p, Text(s) + rest);
      o.status == Refused(if p.at == WillPayload0 then -1 else 1) && o.events == []
  {
    ReadShort(p, |s|);
    TextSplits(s, rest);
    RunConcat(Step, p, Short(|s|), s + rest);
  }

  /** PINGREQ */
  lemma TakePing(p: Parser)
    requires p.at == Header
    ensures Took(p, Ping, Run(Step, p, PacketBytes(Ping, false)))
  {
    var m := ReadStart(p, PINGREQ, false, 0, 0, []);
    assert BodyBytes(Ping, false) == [];
    assert LengthBytes(0) + [] == LengthBytes(0);
  }

  /** The topic of PUBLISH. */
  lemma PublishHead(p: Parser, topic: seq<Byte>, rest: seq<Byte>)
    requires p.at == PubTopic0 && ShortText(topic, MAX_TOPIC_LEN)
    ensures Run(Step, p, Text(topic) + rest) ==
            Then(Step, TopicDone(p.(at := PubTopic2, i := |topic|,
              pub := p.pub.(topicLen := |topic|, topic := topic))), rest)
  {
    var p1 := AfterShort(p, |topic|);
    TakeText(p, topic, rest);
    assert topic[0..] == topic;
    ReadTopic(p1, topic, 0);
    RunConcat(Step, p1, topic, rest);
  }

  /** The parser after the topic of a PUBLISH with `n` bytes of payload. */
  ghost function AfterTopic(p: Parser, topic: seq<Byte>, n: nat): Parser {
    p.(at := if p.qos > 0 then PubId0 else PubPayload, i := 0, pub := Pub(|topic|, n, topic, 0, []))
  }

  lemma TopicDoneIs(p: Parser, topic: seq<Byte>, n: nat)
    requires n > 0 && p.remLen == |topic| + (if p.qos > 0 then 4 else 2) + n
    ensures TopicDone(p.(at := PubTopic2, i := |topic|, pub := p.pub.(topicLen := |topic|, topic := topic))) ==
            Go(AfterTopic(p, topic, n))
  {}

  lemma PublishOn(p: Parser, topic: seq<Byte>, n: nat, tail: seq<Byte>)
    requires p.at == PubTopic0 && ShortText(topic, MAX_TOPIC_LEN) && n > 0 &&
             p.remLen == |topic| + (if p.qos > 0 then 4 else 2) + n
    ensures Run(Step, p, Text(topic) + tail) == Run(Step, AfterTopic(p, topic, n), tail)
  {
    PublishHead(p, topic, tail);
    TopicDoneIs(p, topic, n);
    var p' := AfterTopic(p, topic, n);
    assert [] + Run(Step, p', tail).events == Run(Step, p', tail).events;
  }

  /** PUBLISH from its topic on. */
  lemma PublishBody(p: Parser, id: nat, topic: seq<Byte>, payload: seq<Byte>)
    requires p.at == PubTopic0 && ShortText(topic, MAX_TOPIC_LEN) && ShortText(payload, 0xffff) && id < 0x1_0000 &&
             (p.qos == 0 ==> id == 0)
    requires p.remLen == |PublishBytes(p.qos, id, topic, payload)|
    ensures Took(p, Publish(p.dup, p.qos, id, topic, payload), Run(Step, p, PublishBytes(p.qos, id, topic, payload)))
  {
    PublishOn(p, topic, |payload|, (if p.qos > 0 then Short(id) else []) + payload);
    PublishTail(AfterTopic(p, topic, |payload|), id, payload);
  }

  lemma PayloadTail(p: Parser, payload: seq<Byte>)
    requires p.at == PubPayload && ShortText(payload, 0xffff) && p.i == 0 && p.pub.payloadLen == |payload| &&
             p.pub.payload == []
    ensures Took(p, Publish(p.dup, p.qos, p.pub.packetId, p.pub.topic, payload), Run(Step, p, payload))
  {
    assert payload[0..] == payload && payload[..0] == [];
    ReadPayload(p, payload, 0);
  }

  lemma IdTail(p: Parser, id: nat, payload: seq<Byte>)
    requires p.at == PubId0 && id < 0x1_0000 && ShortText(payload, 0xffff)
    requires p.i == 0 && p.pub.payloadLen == |payload| && p.pub.payload == []
    ensures Took(p, Publish(p.dup, p.qos, id, p.pub.topic, payload), Run(Step, p, Short(id) + payload))
  {
    var p' := p.(at := PubPayload, pub := p.pub.(packetId := id));
    assert AfterShort(p, id) == p';
    TakeShort(p, id, payload);
    PayloadTail(p', payload);
  }

  lemma PublishTail(p: Parser, id: nat, payload: seq<Byte>)
    requires ShortText(payload, 0xffff) && id < 0x1_0000 && p.at == (if p.qos > 0 then PubId0 else PubPayload)
    requires p.i == 0 && p.pub.payloadLen == |payload| && p.pub.payload == [] && p.pub.packetId == 0 &&
             (p.qos == 0 ==> id == 0)
    ensures Took(p, Publish(p.dup, p.qos, id, p.pub.topic, payload),
            Run(Step, p, (if p.qos > 0 then Short(id) else []) + payload))
  {
    if p.qos > 0 {
      IdTail(p, id, payload);
    } else {
      assert [] + payload == payload;
      PayloadTail(p, payload);
    }
  }

  lemma ReadVersion(p: Parser, v3: bool)
    requires p.at == Version && p.conn.protocol == (if v3 then PROTOCOL_3 else PROTOCOL_4) &&
             p.conn.u16 == |p.conn.protocol|
    ensures Run(Step, p, [if v3 then 3 else 4]) == Go(p.(at := Flags))
  {
    RunOne(Step, p, if v3 then 3 else 4);
  }

  /** CONNECT from its protocol name to its flags. */
  lemma ConnectHead(p: Parser, v3: bool, rest: seq<Byte>) returns (p': Parser)
    requires p.at == Protocol0
    ensures p'.at == Flags && p'.allowAnonymous == p.allowAnonymous && p'.qos == p.qos
    ensures p'.conn.stale == p.conn.stale
    ensures Run(Step, p, ProtocolBytes(v3) + rest) == Run(Step, p', rest)
  {
    var name := if v3 then PROTOCOL_3 else PROTOCOL_4;
    var v: seq<Byte> := [if v3 then 3 else 4];
    var p2 := ReadName(p, name, v + rest);
    ProtocolText(v3, name, v);
    Regrouped(Text(name), v, rest);
    ReadVersion(p2, v3);
    p' := p2.(at := Flags);
    RunOn(Step, p2, v, p', rest);
  }

  lemma ProtocolText(v3: bool, name: seq<Byte>, v: seq<Byte>)
    requires name == (if v3 then PROTOCOL_3 else PROTOCOL_4) && v == [if v3 then 3 else 4]
    ensures ProtocolBytes(v3) == Text(name) + v
  {}

  lemma Regrouped(a: seq<Byte>, b: seq<Byte>, c: seq<Byte>)
    ensures (a + b) + c == a + (b + c)
  {}

  lemma ReadName(p: Parser, name: seq<Byte>, rest: seq<Byte>) returns (p2: Parser)
    requires p.at == Protocol0 && 1 <= |name| <= PROTOCOL_LEN
    ensures p2 == p.(at := Version, i := |name|, conn := p.conn.(u16 := |name|, protocol := name))
    ensures Run(Step, p, Text(name) + rest) == Run(Step, p2, rest)
  {
    var p1 := AfterShort(p, |name|);
    TakeText(p, name, rest);
    assert name[0..] == name;
    ReadProtocol(p1, name, 0);
    p2 := p1.(at := Version, i := |name|, conn := p1.conn.(protocol := name));
    RunOn(Step, p1, name, p2, rest);
  }

  lemma FlagBits(clean: bool, wish: Wish, user: bool, pass: bool, b: Byte)
    requires GoodWish(wish) && b == FlagsByte(clean, wish, user, pass)
    ensures (b / 2 % 2 == 1) == clean && (b / 4 % 2 == 1) == wish.Wish?
    ensures (b / 64 % 2 == 1) == pass && (b / 128 == 1) == user
  {}

  ghost function Flagged(p: Parser, clean: bool, will: bool, user: bool, pass: bool): Parser {
    p.(at := KeepAlive0, conn := p.conn.(clean := clean, will := will, user := user, pass := pass))
  }

  lemma TakeFlags(p: Parser, clean: bool, wish: Wish, user: bool, pass: bool, rest: seq<Byte>)
    requires p.at == Flags && GoodWish(wish)
    ensures Run(Step, p, [FlagsByte(clean, wish, user, pass)] + rest) ==
            Run(Step, Flagged(p, clean, wish.Wish?, user, pass), rest)
  {
    var b, p' := FlagsByte(clean, wish, user, pass), Flagged(p, clean, wish.Wish?, user, pass);
    FlagBits(clean, wish, user, pass, b);
    assert Step(p, b) == Go(p');
    RunOne(Step, p, b);
    RunOn(Step, p, [b], p', rest);
  }

  /** The flags and the keep-alive. */
  lemma ConnectFixed(p: Parser, clean: bool, wish: Wish, user: bool, pass: bool, ka: nat, rest: seq<Byte>)
    returns (p': Parser)
    requires p.at == Flags && ka < 0x1_0000 && GoodWish(wish)
    ensures p'.at == ClientId0 && p'.allowAnonymous == p.allowAnonymous && p'.qos == p.qos
    ensures p'.conn.will == wish.Wish? && p'.conn.user == user && p'.conn.pass == pass
    ensures p'.conn.clean == clean && p'.conn.keepAlive == ka && p'.conn.stale == p.conn.stale
    ensures Run(Step, p, [FlagsByte(clean, wish, user, pass)] + (Short(ka) + rest)) == Run(Step, p', rest)
  {
    TakeFlags(p, clean, wish, user, pass, Short(ka) + rest);
    var p1 := Flagged(p, clean, wish.Wish?, user, pass);
    p' := p1.(at := ClientId0, conn := p1.conn.(keepAlive := ka));
    assert AfterShort(p1, ka) == p';
    TakeShort(p1, ka, rest);
  }

  /** The client id and the login. */
  lemma ConnectTail(p: Parser, id: seq<Byte>, login: Login)
    requires p.at == ClientId0 && !p.conn.will && p.conn.user == p.conn.pass == login.User? &&
             (login.Anonymous? ==> p.allowAnonymous)
    requires ShortText(id, MAX_ID_LEN)
    requires login.User? ==> ShortText(login.username, MAX_ID_LEN) && ShortText(login.password, MAX_ID_LEN)
    ensures Took(p, Connect(p.conn.clean, p.conn.keepAlive, id, login, NoWill),
                 Run(Step, p, Text(id) + LoginBytes(login)))
  {
    var p1 := AfterShort(p, |id|);
    TakeText(p, id, LoginBytes(login));
    assert id[0..] == id;
    ReadClientId(p1, id, 0);
    var p2 := p1.(i := |id|, conn := p1.conn.(clientId := id));
    if login.User? {
      RunOn(Step, p1, id, p2.(at := Username0), LoginBytes(login));
      LoginTail(p2.(at := Username0), login);
    } else {
      assert id + LoginBytes(login) == id;
    }
  }

  lemma LoginTail(p: Parser, login: Login)
    requires p.at == Username0 && login.User?
    requires ShortText(login.username, MAX_ID_LEN) && ShortText(login.password, MAX_ID_LEN)
    ensures Took(p, Connected(p, login), Run(Step, p, LoginBytes(login)))
  {
    var u, w := login.username, login.password;
    var p' := TakeUsername(p, u, Text(w));
    PasswordTail(p', w);
  }

  lemma TakeUsername(p: Parser, u: seq<Byte>, rest: seq<Byte>) returns (p': Parser)
    requires p.at == Username0 && ShortText(u, MAX_ID_LEN)
    ensures p' == p.(at := Password0, i := |u|, conn := p.conn.(userLen := |u|, username := u))
    ensures Run(Step, p, Text(u) + rest) == Run(Step, p', rest)
  {
    var p1 := AfterShort(p, |u|);
    TakeText(p, u, rest);
    assert u[0..] == u;
    ReadUsername(p1, u, 0);
    p' := p1.(at := Password0, i := |u|, conn := p1.conn.(username := u));
    RunOn(Step, p1, u, p', rest);
  }

  lemma PasswordTail(p: Parser, w: seq<Byte>)
    requires p.at == Password0 && ShortText(w, MAX_ID_LEN)
    ensures Took(p, Connected(p, User(p.conn.username, w)), Run(Step, p, Text(w)))
  {
    var p' := PasswordStarts(p, w);
    WholePassword(p', w);
  }

  lemma PasswordStarts(p: Parser, w: seq<Byte>) returns (p': Parser)
    requires p.at == Password0 && ShortText(w, MAX_ID_LEN)
    ensures p' == p.(at := Password2, i := 0, conn := p.conn.(u16 := |w|))
    ensures Run(Step, p, Text(w)) == Run(Step, p', w)
  {
    p' := AfterShort(p, |w|);
    TakeShort(p, |w|, w);
  }

  lemma WholePassword(p: Parser, w: seq<Byte>)
    requires p.at == Password2 && p.i == 0 && p.conn.u16 == |w| && ShortText(w, MAX_ID_LEN)
    ensures Took(p, Connected(p, User(p.conn.username, w)), Run(Step, p, w))
  {
    assert w[0..] == w;
    ReadPassword(p, w, 0);
  }

  // ---------- SUBSCRIBE

  lemma ReadSubQos(p: Parser, q: Byte)
    requires p.at == SubQos && q <= 2 && p.sub.len + 3 <= p.remLen < 0x1_0000_0000
    ensures Run(Step, p, [q]) == FilterDone(p, q)
  {
    RunOne(Step, p, q);
  }

  /** The end of one filter: the next filter, or the event. */
  ghost function FilterDone(p: Parser, q: nat): Res
    requires p.sub.len + 3 <= p.remLen
  {
    var s := p.sub.(filters := p.sub.filters + [p.sub.filter], qoss := p.sub.qoss + [q]);
    var p' := p.(sub := s, remLen := p.remLen - (p.sub.len + 3));
    if p'.remLen > 0 then Go(p'.(at := SubTopic0)) else Emit(p', Subscribe(s.packetId, s.filters, s.qoss))
  }

  lemma TakeFilter(p: Parser, f: seq<Byte>, q: nat)
    requires p.at == SubTopic0 && ShortText(f, 0xffff) && q <= 2 && |f| + 3 <= p.remLen < 0x1_0000_0000
    ensures Run(Step, p, FilterBytes(f, q)) ==
            FilterDone(p.(at := SubQos, sub := p.sub.(u16 := |f|, len := |f|, filter := f)), q)
  {
    TakeText(p, f, [q]);
    FilterText(p, f, [q]);
    ReadSubQos(p.(at := SubQos, sub := p.sub.(u16 := |f|, len := |f|, filter := f)), q);
  }

  lemma FilterText(p: Parser, f: seq<Byte>, rest: seq<Byte>)
    requires p.at == SubTopic0 && ShortText(f, 0xffff)
    ensures Run(Step, AfterShort(p, |f|), f + rest) ==
            Run(Step, p.(at := SubQos, sub := p.sub.(u16 := |f|, len := |f|, filter := f)), rest)
  {
    var p1 := AfterShort(p, |f|);
    assert f[0..] == f && f[..0] == [];
    ReadFilter(p1, f, 0);
    RunOn(Step, p1, f, p.(at := SubQos, sub := p.sub.(u16 := |f|, len := |f|, filter := f)), rest);
  }

  predicate ValidFilters(fs: seq<seq<Byte>>, qs: seq<nat>) {
    |fs| == |qs| && (forall i :: 0 <= i < |fs| ==> ShortText(fs[i], 0xffff)) && forall i :: 0 <= i < |qs| ==> qs[i] <= 2
  }

  /** The parser after one filter of several. */
  ghost function AfterFilter(p: Parser, f: seq<Byte>, q: nat): Parser
    requires |f| + 3 <= p.remLen
  {
    p.(at := SubTopic0, remLen := p.remLen - (|f| + 3),
       sub := p.sub.(u16 := |f|, len := |f|, filter := f, filters := p.sub.filters + [f], qoss := p.sub.qoss + [q]))
  }

  lemma FilterOn(p: Parser, f: seq<Byte>, q: nat, rest: seq<Byte>)
    requires p.at == SubTopic0 && ShortText(f, 0xffff) && q <= 2 && p.remLen == |f| + 3 + |rest| < 0x1_0000_0000 &&
             rest != []
    ensures Run(Step, p, FilterBytes(f, q) + rest) == Run(Step, AfterFilter(p, f, q), rest)
  {
    TakeFilter(p, f, q);
    FilterGoesOn(p, f, q);
    RunOn(Step, p, FilterBytes(f, q), AfterFilter(p, f, q), rest);
  }

  lemma FilterGoesOn(p: Parser, f: seq<Byte>, q: nat)
    requires p.at == SubTopic0 && |f| + 3 < p.remLen
    ensures FilterDone(p.(at := SubQos, sub := p.sub.(u16 := |f|, len := |f|, filter := f)), q) ==
            Go(AfterFilter(p, f, q))
  {}

  lemma FilterLast(p: Parser, f: seq<Byte>, q: nat)
    requires p.at == SubTopic0 && ShortText(f, 0xffff) && q <= 2 && p.remLen == |f| + 3 < 0x1_0000_0000
    ensures Took(p, Subscribe(p.sub.packetId, p.sub.filters + [f], p.sub.qoss + [q]), Run(Step, p, FilterBytes(f, q)))
  {
    TakeFilter(p, f, q);
  }

  lemma FiltersCons(fs: seq<seq<Byte>>, qs: seq<nat>)
    requires fs != [] && ValidFilters(fs, qs)
    ensures ShortText(fs[0], 0xffff) && qs[0] <= 2 && ValidFilters(fs[1..], qs[1..])
    ensures FiltersBytes(fs, qs) == FilterBytes(fs[0], qs[0]) + FiltersBytes(fs[1..], qs[1..])
    ensures |FilterBytes(fs[0], qs[0])| == |fs[0]| + 3
    ensures |fs| == 1 ==> fs == [fs[0]] && qs == [qs[0]] && FiltersBytes(fs, qs) == FilterBytes(fs[0], qs[0])
    ensures |fs| > 1 ==> FiltersBytes(fs[1..], qs[1..]) != []
  {
    assert ShortText(fs[0], 0xffff);
    if |fs| > 1 { assert ShortText(fs[1], 0xffff) && fs[1..][0] == fs[1]; }
  }

  lemma Regroup<T>(a: seq<T>, s: seq<T>)
    requires s != []
    ensures (a + [s[0]]) + s[1..] == a + s
  {}

  lemma {:induction false} TakeFilters(p: Parser, fs: seq<seq<Byte>>, qs: seq<nat>)
    requires p.at == SubTopic0 && fs != [] && ValidFilters(fs, qs) && p.remLen == |FiltersBytes(fs, qs)| < 0x1_0000_0000
    ensures Took(p, Subscribe(p.sub.packetId, p.sub.filters + fs, p.sub.qoss + qs), Run(Step, p, FiltersBytes(fs, qs)))
    decreases |fs|
  {
    FiltersCons(fs, qs);
    if |fs| == 1 {
      FilterLast(p, fs[0], qs[0]);
    } else {
      Regroup(p.sub.filters, fs);
      Regroup(p.sub.qoss, qs);
      FilterOn(p, fs[0], qs[0], FiltersBytes(fs[1..], qs[1..]));
      TakeFilters(AfterFilter(p, fs[0], qs[0]), fs[1..], qs[1..]);
    }
  }

  lemma {:induction false} FiltersLength(fs: seq<seq<Byte>>, qs: seq<nat>)
    requires ValidFilters(fs, qs)
    ensures |FiltersBytes(fs, qs)| <= |fs| * 65538
  {
    if fs != [] {
      assert ShortText(fs[0], 0xffff);
      FiltersLength(fs[1..], qs[1..]);
    }
  }

  lemma BodyLength(e: Event, v3: bool)
    requires Valid(e)
    ensures |BodyBytes(e, v3)| < MAX_REM_LEN
  {
    if e.Subscribe? { FiltersLength(e.filters, e.qoss); }
  }

  /** A packet that the parser is set up for. */
  predicate Welcome(e: Event, allowAnonymous: bool) {
    Valid(e) && (e.Connect? && e.login.Anonymous? ==> allowAnonymous)
  }

  lemma TakeConnect(p: Parser, e: Event, v3: bool)
    requires p.at == Protocol0 && e.Connect? && Welcome(e, p.allowAnonymous)
    ensures Took(p, e, Run(Step, p, BodyBytes(e, v3)))
  {
    var tail := Text(e.clientId) + LoginBytes(e.login);
    var p1 := ConnectHead(p, v3, [ConnectFlags(e.cleanSession, e.login)] + (Short(e.keepAlive) + tail));
    var p2 := ConnectFixed(p1, e.cleanSession, NoWish, e.login.User?, e.login.User?, e.keepAlive, tail);
    ConnectTail(p2, e.clientId, e.login);
  }

  lemma TakeSubscribe(p: Parser, id: nat, fs: seq<seq<Byte>>, qs: seq<nat>)
    requires p.at == SubId0 && id < 0x1_0000 && fs != [] && ValidFilters(fs, qs)
    requires p.remLen == |FiltersBytes(fs, qs)| + 2 < MAX_REM_LEN
    ensures Took(p, Subscribe(id, fs, qs), Run(Step, p, Short(id) + FiltersBytes(fs, qs)))
  {
    var p' := AfterShort(p, id);
    TakeShort(p, id, FiltersBytes(fs, qs));
    assert [] + fs == fs && [] + qs == qs;
    TakeFilters(p', fs, qs);
  }

  function TypeOf(e: Event): nat {
    if e.Connect? then CONNECT else if e.Subscribe? then SUBSCRIBE else if e.Publish? then PUBLISH else PINGREQ
  }

  function QosOf(e: Event): nat { if e.Publish? then e.qos else if e.Subscribe? then 1 else 0 }

  lemma FirstIs(e: Event)
    requires Valid(e)
    ensures QosOf(e) < 4 && FirstByte(e) == HeaderByte(TypeOf(e), e.Publish? && e.dup, QosOf(e))
  {}

  ghost predicate AtBody(p: Parser, e: Event) {
    || (e.Connect? && p.at == Protocol0) || (e.Subscribe? && p.at == SubId0)
    || (e.Publish? && p.at == PubTopic0 && p.dup == e.dup && p.qos == e.qos)
  }

  lemma Dispatched(p: Parser, e: Event) returns (p': Parser)
    requires Valid(e) && !e.Ping? && p.msgType == TypeOf(e) && p.qos == QosOf(e) && (e.Publish? ==> p.dup == e.dup)
    ensures Dispatch(p) == Go(p') && AtBody(p', e) && p'.remLen == p.remLen && p'.allowAnonymous == p.allowAnonymous
  {
    p' := Dispatch(p).p;
  }

  lemma TakeBody(p: Parser, e: Event, v3: bool)
    requires Welcome(e, p.allowAnonymous) && p.remLen == |BodyBytes(e, v3)| < MAX_REM_LEN
    requires AtBody(p, e)
    ensures Took(p, e, Run(Step, p, BodyBytes(e, v3)))
  {
    match e
    case Connect(_, _, _, _, _) => TakeConnect(p, e, v3);
    case Subscribe(id, fs, qs) => TakeSubscribe(p, id, fs, qs);
    case Publish(_, _, id, topic, payload) => PublishBody(p, id, topic, payload);
  }

  /** One packet, from header to header. */
  lemma TakePacket(p: Parser, e: Event, v3: bool)
    requires p.at == Header && Welcome(e, p.allowAnonymous)
    ensures Took(p, e, Run(Step, p, PacketBytes(e, v3)))
  {
    BodyLength(e, v3);
    var body := BodyBytes(e, v3);
    if e.Ping? {
      assert PacketBytes(e, v3) == PacketBytes(e, false);
      TakePing(p);
    } else {
      var t, dup, qos := TypeOf(e), e.Publish? && e.dup, QosOf(e);
      FirstIs(e);
      var m := ReadStart(p, t, dup, qos, |body|, body);
      var q := p.(at := RemLen, msgType := t, dup := dup, qos := qos, remLen := |body|, multiplier := m);
      var p' := Dispatched(q, e);
      assert [] + Run(Step, p', body).events == Run(Step, p', body).events;
      TakeBody(p', e, v3);
    }
  }

  // ---------- Streams

  /** Packets one after the other raise their events one after the other, nothing is left over. */
  lemma {:induction false} TakeStream(p: Parser, ps: seq<Packet>)
    requires p.at == Header && AllValid(ps) && forall i :: 0 <= i < |ps| ==> Welcome(ps[i].event, p.allowAnonymous)
    ensures var o := Run(Step, p, StreamBytes(ps)); o.status == Going && o.events == EventsOf(ps) && o.p.at == Header
    decreases |ps|
  {
    if ps != [] {
      var e, v3 := ps[0].event, ps[0].v3;
      assert Welcome(e, p.allowAnonymous);
      TakePacket(p, e, v3);
      RunConcat(Step, p, PacketBytes(e, v3), StreamBytes(ps[1..]));
      TakeStream(Run(Step, p, PacketBytes(e, v3)).p, ps[1..]);
    }
  }

  /** However the stream is cut into buffers, the parser raises exactly the events of its packets. */
  lemma StreamInPieces(p: Parser, ps: seq<Packet>, bufs: seq<seq<Byte>>)
    requires p.at == Header && AllValid(ps) && forall i :: 0 <= i < |ps| ==> Welcome(ps[i].event, p.allowAnonymous)
    requires Concat(bufs) == StreamBytes(ps)
    ensures var o := RunAll(Step, p, bufs); o.status == Going && o.events == EventsOf(ps) && o.p.at == Header
  {
    CutAnywhere(Step, p, bufs);
    TakeStream(p, ps);
  }

  /** A DISCONNECT after any packets: it is the last thing that is read. */
  lemma Disconnected(p: Parser, ps: seq<Packet>, rest: seq<Byte>, bufs: seq<seq<Byte>>)
    requires p.at == Header && AllValid(ps) && forall i :: 0 <= i < |ps| ==> Welcome(ps[i].event, p.allowAnonymous)
    requires Concat(bufs) == StreamBytes(ps) + ([0xe0, 0x00] + rest)
    ensures var o := RunAll(Step, p, bufs); o.status == Closed && o.events == EventsOf(ps)
  {
    CutAnywhere(Step, p, bufs);
    TakeStream(p, ps);
    var p' := Run(Step, p, StreamBytes(ps)).p;
    TakeDisconnect(p', rest);
    RunConcat(Step, p, StreamBytes(ps), [0xe0, 0x00] + rest);
    assert EventsOf(ps) + [] == EventsOf(ps);
  }

  lemma TakeDisconnect(p: Parser, rest: seq<Byte>)
    requires p.at == Header
    ensures var o := Run(Step, p, [0xe0, 0x00] + rest); o.status == Closed && o.events == []
  {
    NothingFollows(0xe0, rest);
    var m := ReadStart(p, DISCONNECT, false, 0, 0, rest);
  }

  lemma NothingFollows(b: Byte, rest: seq<Byte>)
    ensures [b, 0x00] + rest == [b] + (LengthBytes(0) + rest)
  {
    assert LengthBytes(0) == [0x00];
  }

  // ---------- What is not read

  /** The 16-bit index never reaches a length beyond its range. */
  lemma {:induction false} PayloadNeverEnds(p: Parser, s: seq<Byte>)
    requires p.at == PubPayload && p.pub.payloadLen > 0xffff
    ensures var o := Run(Step, p, s); o.status == Going && o.events == [] && o.p.at == PubPayload
    decreases |s|
  {
    if s != [] { PayloadNeverEnds(Step(p, s[0]).p, s[1..]); }
  }

  /** A PUBLISH comes through just when its topic has from 1 to MAX_TOPIC_LEN bytes and its payload from 1 to 65535. */
  lemma PublishExactly(p: Parser, dup: bool, qos: nat, id: nat, topic: seq<Byte>, payload: seq<Byte>)
    requires p.at == Header && qos < 4 && id < 0x1_0000 && (qos == 0 ==> id == 0) && |topic| < 0x1_0000
    requires |PublishBytes(qos, id, topic, payload)| < MAX_REM_LEN
    ensures var body := PublishBytes(qos, id, topic, payload);
      var o := Run(Step, p, [HeaderByte(PUBLISH, dup, qos)] + (LengthBytes(|body|) + body));
      && (Took(p, Publish(dup, qos, id, topic, payload), o) <==>
            ShortText(topic, MAX_TOPIC_LEN) && 1 <= |payload| <= 0xffff)
      && (!ShortText(topic, MAX_TOPIC_LEN) || payload == [] ==> o.events == [] && o.status == Refused(1))
      && (ShortText(topic, MAX_TOPIC_LEN) && |payload| > 0xffff ==> o.events == [] && o.p.at == PubPayload)
  {
    var body := PublishBytes(qos, id, topic, payload);
    var m := ReadStart(p, PUBLISH, dup, qos, |body|, body);
    var p' := Dispatch(p.(at := RemLen, msgType := PUBLISH, dup := dup, qos := qos, remLen := |body|,
      multiplier := m)).p;
    assert [] + Run(Step, p', body).events == Run(Step, p', body).events;
    if !ShortText(topic, MAX_TOPIC_LEN) {
      TopicRefused(p', topic, (if qos > 0 then Short(id) else []) + payload);
    } else if payload == [] {
      PublishEmpty(p', id, topic);
    } else if |payload| <= 0xffff {
      PublishBody(p', id, topic, payload);
    } else {
      PublishStuck(p', id, topic, payload);
    }
  }

  /** A topic that is empty or too long is refused at its length. */
  lemma TopicRefused(p: Parser, topic: seq<Byte>, rest: seq<Byte>)
    requires p.at == PubTopic0 && |topic| < 0x1_0000 && !ShortText(topic, MAX_TOPIC_LEN)
    ensures var o := Run(Step, p, Text(topic) + rest); o.status == Refused(1) && o.events == []
  {
    LengthRefused(p, topic, rest);
  }

  /** A PUBLISH without a payload is refused. */
  lemma PublishEmpty(p: Parser, id: nat, topic: seq<Byte>)
    requires p.at == PubTopic0 && ShortText(topic, MAX_TOPIC_LEN) && id < 0x1_0000
    requires p.remLen == |PublishBytes(p.qos, id, topic, [])|
    ensures var o := Run(Step, p, PublishBytes(p.qos, id, topic, [])); o.status == Refused(1) && o.events == []
  {
    PublishHead(p, topic, (if p.qos > 0 then Short(id) else []) + []);
  }

  lemma PublishStuck(p: Parser, id: nat, topic: seq<Byte>, payload: seq<Byte>)
    requires p.at == PubTopic0 && ShortText(topic, MAX_TOPIC_LEN) && |payload| > 0xffff && id < 0x1_0000
    requires p.remLen == |PublishBytes(p.qos, id, topic, payload)|
    ensures var o := Run(Step, p, PublishBytes(p.qos, id, topic, payload));
      o.status == Going && o.events == [] && o.p.at == PubPayload
  {
    PublishOn(p, topic, |payload|, (if p.qos > 0 then Short(id) else []) + payload);
    PayloadStuck(AfterTopic(p, topic, |payload|), id, payload);
  }

  lemma PayloadStuck(p: Parser, id: nat, payload: seq<Byte>)
    requires id < 0x1_0000 && p.at == (if p.qos > 0 then PubId0 else PubPayload) && p.pub.payloadLen > 0xffff
    ensures var o := Run(Step, p, (if p.qos > 0 then Short(id) else []) + payload);
      o.status == Going && o.events == [] && o.p.at == PubPayload
  {
    if p.qos > 0 {
      var p' := AfterShort(p, id);
      TakeShort(p, id, payload);
      PayloadNeverEnds(p', payload);
    } else {
      assert [] + payload == payload;
      PayloadNeverEnds(p, payload);
    }
  }

  // ---------- Who may connect

  /** The fields of the payload of a CONNECT whose flags say which are there (section 3.1.3). */
  function LoginFields(user: bool, u: seq<Byte>, pass: bool, w: seq<Byte>): seq<Byte>
    requires (user ==> |u| < 0x1_0000) && (pass ==> |w| < 0x1_0000)
  {
    (if user then Text(u) else []) + if pass then Text(w) else []
  }

  /** A CONNECT as it is sent. */
  datatype Sent = Sent(v3: bool, clean: bool, keepAlive: nat, id: seq<Byte>, wish: Wish,
                       user: bool, username: seq<Byte>, pass: bool, password: seq<Byte>)

  predicate GoodSent(c: Sent) {
    && c.keepAlive < 0x1_0000 && ShortText(c.id, MAX_ID_LEN) && GoodWish(c.wish)
    && (c.user ==> ShortText(c.username, MAX_ID_LEN)) && (c.pass ==> ShortText(c.password, MAX_ID_LEN))
  }

  function FieldsOf(c: Sent): seq<Byte>
    requires GoodSent(c)
  {
    LoginFields(c.user, c.username, c.pass, c.password)
  }

  function ConnectBytes(c: Sent): seq<Byte>
    requires GoodSent(c)
  {
    ProtocolBytes(c.v3) + ([FlagsByte(c.clean, c.wish, c.user, c.pass)] +
      (Short(c.keepAlive) + (Text(c.id) + (WishBytes(c.wish) + FieldsOf(c)))))
  }

  /** The will is not too long for the parser. */
  predicate ShortWish(wish: Wish) { wish.Wish? ==> ShortText(wish.topic, 128) && ShortText(wish.payload, 4096) }

  /** What the message of the will is made of. */
  function WillOf(p: Parser, wish: Wish): Will {
    if wish.NoWish? then NoWill
    else Will(if |wish.topic| <= |p.conn.stale| then p.conn.stale[..|wish.topic|]
      else p.conn.stale, wish.payload, p.qos)
  }

  /** After a user name the parser waits for a password, whatever the flags say. */
  lemma UserAlone(p: Parser, u: seq<Byte>)
    requires p.at == Username0 && ShortText(u, MAX_ID_LEN)
    ensures var o := Run(Step, p, Text(u)); o.status == Going && o.events == [] && o.p.at == Password0
  {
    assert Text(u) + [] == Text(u);
    var p' := TakeUsername(p, u, []);
  }

  /** From the user name on. */
  lemma UserFields(p: Parser, c: Sent)
    requires p.at == Username0 && GoodSent(c) && c.user
    ensures var o := Run(Step, p, FieldsOf(c));
      if c.pass then Took(p, Connected(p, User(c.username, c.password)), o)
      else o.status == Going && o.events == [] && o.p.at == Password0
  {
    if c.pass {
      LoginTail(p, User(c.username, c.password));
    } else {
      assert FieldsOf(c) == Text(c.username);
      UserAlone(p, c.username);
    }
  }

  lemma {:induction false} ReadWillTopic(p: Parser, s: seq<Byte>, k: nat)
    requires p.at == WillTopic2 && p.i == k < |s| <= 128 && p.conn.willLen == |s| &&
             (k > 0 ==> p.conn.willTopic == s[..k])
    ensures Run(Step, p, s[k..]) == Go(p.(at := WillPayload0, i := |s|, conn := p.conn.(willTopic := s)))
    decreases |s| - k
  {
    var o := Step(p, s[k]);
    Cut(s, k);
    if k + 1 < |s| {
      ReadWillTopic(o.p, s, k + 1);
    } else {
      RunOne(Step, p, s[k]);
    }
  }

  ghost function WillDone(p: Parser): Res {
    if p.conn.user then Go(p.(at := Username0)) else Out(p, [], Refused(-1))
  }

  lemma {:induction false} ReadWillPayload(p: Parser, s: seq<Byte>, k: nat)
    requires p.at == WillPayload2 && p.i == k < |s| <= 4096 && p.conn.u16 == |s| &&
             (k > 0 ==> p.conn.willPayload == s[..k])
    ensures Run(Step, p, s[k..]) == WillDone(p.(i := |s|, conn := p.conn.(willPayload := s)))
    decreases |s| - k
  {
    var o := Step(p, s[k]);
    Cut(s, k);
    if k + 1 < |s| {
      ReadWillPayload(o.p, s, k + 1);
    } else {
      RunOne(Step, p, s[k]);
    }
  }

  /** The parser after a will that is not too long. */
  ghost function Willed(p: Parser, wish: Wish): Parser
    requires wish.Wish?
  {
    p.(at := WillPayload2, i := |wish.payload|,
       conn := p.conn.(willLen := |wish.topic|, willTopic := wish.topic, u16 := |wish.payload|,
                       willPayload := wish.payload))
  }

  lemma TakeWillTopic(p: Parser, t: seq<Byte>, rest: seq<Byte>) returns (p': Parser)
    requires p.at == WillTopic0 && ShortText(t, 128)
    ensures p' == p.(at := WillPayload0, i := |t|, conn := p.conn.(willLen := |t|, willTopic := t))
    ensures Run(Step, p, Text(t) + rest) == Run(Step, p', rest)
  {
    var p1 := AfterShort(p, |t|);
    TakeText(p, t, rest);
    assert t[0..] == t;
    ReadWillTopic(p1, t, 0);
    p' := p1.(at := WillPayload0, i := |t|, conn := p1.conn.(willTopic := t));
    RunOn(Step, p1, t, p', rest);
  }

  lemma TakeWillPayload(p: Parser, y: seq<Byte>, rest: seq<Byte>)
    requires p.at == WillPayload0 && ShortText(y, 4096)
    ensures Run(Step, p, Text(y) + rest) ==
      Then(Step, WillDone(p.(at := WillPayload2, i := |y|, conn := p.conn.(u16 := |y|, willPayload := y))), rest)
  {
    var p1 := AfterShort(p, |y|);
    TakeText(p, y, rest);
    assert y[0..] == y;
    ReadWillPayload(p1, y, 0);
    RunConcat(Step, p1, y, rest);
  }

  lemma WishSplits(wish: Wish, rest: seq<Byte>)
    requires wish.Wish? && GoodWish(wish)
    ensures WishBytes(wish) + rest == Text(wish.topic) + (Text(wish.payload) + rest)
  {}

  lemma TakeWish(p: Parser, wish: Wish, rest: seq<Byte>)
    requires p.at == WillTopic0 && wish.Wish? && GoodWish(wish) && ShortWish(wish)
    ensures Run(Step, p, WishBytes(wish) + rest) == Then(Step, WillDone(Willed(p, wish)), rest)
  {
    WishSplits(wish, rest);
    var p' := TakeWillTopic(p, wish.topic, Text(wish.payload) + rest);
    TakeWillPayload(p', wish.payload, rest);
  }

  lemma WishRefused(p: Parser, wish: Wish, rest: seq<Byte>)
    requires p.at == WillTopic0 && wish.Wish? && GoodWish(wish) && !ShortWish(wish)
    ensures var o := Run(Step, p, WishBytes(wish) + rest);
      o.status == Refused(if ShortText(wish.topic, 128) then -1 else 1) && o.events == []
  {
    WishSplits(wish, rest);
    if ShortText(wish.topic, 128) {
      var p' := TakeWillTopic(p, wish.topic, Text(wish.payload) + rest);
      LengthRefused(p', wish.payload, rest);
    } else {
      LengthRefused(p, wish.topic, Text(wish.payload) + rest);
    }
  }

  /** What comes of a CONNECT. */
  ghost predicate ConnectOut(p: Parser, c: Sent, o: Res) {
    if c.wish.Wish? && !ShortWish(c.wish) then
      o.status == Refused(if ShortText(c.wish.topic, 128) then -1 else 1) && o.events == []
    else if c.wish.Wish? && !c.user then o.status == Refused(-1) && o.events == []
    else if c.user && !c.pass then o.status == Going && o.events == [] && o.p.at == Password0
    else if !c.user && (c.pass || !p.allowAnonymous) then o.status == Refused(1) && o.events == []
    else
      Took(p, Connect(c.clean, c.keepAlive, c.id, if c.user then User(c.username, c.password) else Anonymous,
        WillOf(p, c.wish)), o)
  }

  /** From the client id on. */
  lemma LoginExactly(p: Parser, c: Sent)
    requires p.at == ClientId0 && GoodSent(c) && p.conn.will == c.wish.Wish? && p.conn.user == c.user
    requires p.conn.pass == c.pass && p.conn.clean == c.clean && p.conn.keepAlive == c.keepAlive
    ensures ConnectOut(p, c, Run(Step, p, Text(c.id) + (WishBytes(c.wish) + FieldsOf(c))))
  {
    var fields := WishBytes(c.wish) + FieldsOf(c);
    var p' := TakeClientId(p, c.id, fields);
    IdDone(p', c, fields);
    SameOut(p', p, c, Then(Step, ClientIdDone(p'), fields));
  }

  lemma IdDone(p: Parser, c: Sent, fields: seq<Byte>)
    requires p.at == ClientId2 && GoodSent(c) && p.conn.will == c.wish.Wish? && p.conn.user == c.user
    requires p.conn.pass == c.pass && p.conn.clean == c.clean && p.conn.keepAlive == c.keepAlive
    requires p.conn.clientId == c.id && fields == WishBytes(c.wish) + FieldsOf(c)
    ensures ConnectOut(p, c, Then(Step, ClientIdDone(p), fields))
  {
    if c.wish.Wish? {
      var p' := p.(at := WillTopic0);
      WishFields(p', c);
      NothingBefore(p', fields);
      SameOut(p', p, c, Run(Step, p', fields));
    } else {
      assert fields == FieldsOf(c);
      IdThenLogin(p, c, fields);
    }
  }

  lemma IdThenLogin(p: Parser, c: Sent, fields: seq<Byte>)
    requires p.at == ClientId2 && GoodSent(c) && !p.conn.will && c.wish.NoWish? && p.conn.user == c.user
    requires p.conn.pass == c.pass && p.conn.clean == c.clean && p.conn.keepAlive == c.keepAlive
    requires p.conn.clientId == c.id && fields == FieldsOf(c)
    ensures ConnectOut(p, c, Then(Step, ClientIdDone(p), fields))
  {
    if c.user {
      var p' := p.(at := Username0);
      UserFields(p', c);
      NothingBefore(p', fields);
    } else if !c.pass {
      assert fields == [];
    }
  }

  lemma NothingBefore(p: Parser, s: seq<Byte>)
    ensures Then(Step, Go(p), s) == Run(Step, p, s)
  {
    assert [] + Run(Step, p, s).events == Run(Step, p, s).events;
  }

  lemma TakeClientId(p: Parser, id: seq<Byte>, rest: seq<Byte>) returns (p': Parser)
    requires p.at == ClientId0 && ShortText(id, MAX_ID_LEN)
    ensures p' == p.(at := ClientId2, i := |id|, conn := p.conn.(idLen := |id|, clientId := id))
    ensures Run(Step, p, Text(id) + rest) == Then(Step, ClientIdDone(p'), rest)
  {
    var p1 := AfterShort(p, |id|);
    TakeText(p, id, rest);
    assert id[0..] == id;
    ReadClientId(p1, id, 0);
    RunConcat(Step, p1, id, rest);
    p' := p1.(i := |id|, conn := p1.conn.(clientId := id));
  }

  lemma WishFields(p: Parser, c: Sent)
    requires p.at == WillTopic0 && GoodSent(c) && c.wish.Wish? && p.conn.will && p.conn.user == c.user
    requires p.conn.clean == c.clean && p.conn.keepAlive == c.keepAlive && p.conn.clientId == c.id
    ensures ConnectOut(p, c, Run(Step, p, WishBytes(c.wish) + FieldsOf(c)))
  {
    if !ShortWish(c.wish) {
      WishRefused(p, c.wish, FieldsOf(c));
    } else {
      TakeWish(p, c.wish, FieldsOf(c));
      if c.user { WilledFields(p, Willed(p, c.wish).(at := Username0), c); }
    }
  }

  lemma WilledFields(p: Parser, p': Parser, c: Sent)
    requires GoodSent(c) && c.wish.Wish? && ShortWish(c.wish) && p.conn.will && c.user
    requires p.conn.clean == c.clean && p.conn.keepAlive == c.keepAlive && p.conn.clientId == c.id
    requires p' == Willed(p, c.wish).(at := Username0)
    ensures ConnectOut(p, c, Then(Step, Go(p'), FieldsOf(c)))
  {
    UserFields(p', c);
    NothingBefore(p', FieldsOf(c));
  }

  /** A CONNECT comes through just when it has both a user name and a password, or neither, and no will, and anonymous
      clients are allowed; and its will is not too long.  With a user name alone, which section 3.1.2.9 allows, it never
      ends: the parser takes the bytes of the next packet for a password. */
  lemma ConnectExactly(p: Parser, c: Sent)
    requires p.at == Header && GoodSent(c)
    ensures var body := ConnectBytes(c);
      ConnectOut(p.(qos := 0), c, Run(Step, p, [0x10] + (LengthBytes(|body|) + body)))
  {
    ConnectLength(c);
    var p' := ConnectStarts(p, ConnectBytes(c));
    ConnectBody(p', c);
    SameOut(p', p.(qos := 0), c, Run(Step, p', ConnectBytes(c)));
  }

  lemma ConnectStarts(p: Parser, body: seq<Byte>) returns (p': Parser)
    requires p.at == Header && |body| < MAX_REM_LEN
    ensures p'.at == Protocol0 && p'.qos == 0 && p'.allowAnonymous == p.allowAnonymous && p'.conn == p.conn
    ensures Run(Step, p, [0x10] + (LengthBytes(|body|) + body)) == Run(Step, p', body)
  {
    var m := ReadStart(p, CONNECT, false, 0, |body|, body);
    p' := p.(at := Protocol0, msgType := CONNECT, dup := false, qos := 0, remLen := |body|, multiplier := m);
    NothingBefore(p', body);
  }

  lemma SameOut(p: Parser, p': Parser, c: Sent, o: Res)
    requires ConnectOut(p, c, o)
    requires p'.allowAnonymous == p.allowAnonymous && p'.qos == p.qos && p'.conn.stale == p.conn.stale
    ensures ConnectOut(p', c, o)
  {}

  lemma ConnectBody(p: Parser, c: Sent)
    requires p.at == Protocol0 && GoodSent(c)
    ensures ConnectOut(p, c, Run(Step, p, ConnectBytes(c)))
  {
    var tail := Text(c.id) + (WishBytes(c.wish) + FieldsOf(c));
    var p1 := ConnectHead(p, c.v3, [FlagsByte(c.clean, c.wish, c.user, c.pass)] + (Short(c.keepAlive) + tail));
    var p2 := ConnectFixed(p1, c.clean, c.wish, c.user, c.pass, c.keepAlive, tail);
    LoginExactly(p2, c);
    SameOut(p2, p, c, Run(Step, p2, tail));
  }

  lemma ConnectLength(c: Sent)
    requires GoodSent(c)
    ensures |ConnectBytes(c)| < MAX_REM_LEN
  {}

  /** The will that is kept is the will that was sent just when it was sent with quality of service 0 and the memory
      that its topic is copied from happens to hold that topic. */
  lemma WillExactly(p: Parser, wish: Wish)
    requires wish.Wish? && p.qos == 0 && |wish.topic| <= |p.conn.stale|
    ensures WillOf(p, wish) == Will(wish.topic, wish.payload, wish.qos) <==>
            wish.qos == 0 && p.conn.stale[..|wish.topic|] == wish.topic
  {}

  // ---------- UNSUBSCRIBE

  /** Section 3.10.3: the filters, without a byte for the quality of service. */
  function NamesBytes(fs: seq<seq<Byte>>): seq<Byte>
    requires forall i :: 0 <= i < |fs| ==> ShortText(fs[i], 0xffff)
  {
    if fs == [] then [] else
    assert ShortText(fs[0], 0xffff);
    Text(fs[0]) + NamesBytes(fs[1..])
  }

  /** One byte of a filter that is not its last, and its last byte. */
  lemma UnsubByte(p: Parser, b: Byte)
    requires p.at == UnsubTopic2 && p.sub.u16 == |p.sub.filter| < p.sub.len < 0x1_0000 && p.sub.len + 2 < p.remLen
    ensures var s := p.sub.(u16 := p.sub.u16 + 1, filter := p.sub.filter + [b]);
      Step(p, b) == Go(if s.u16 < s.len then p.(sub := s)
                       else p.(at := UnsubTopic0, sub := s.(filters := s.filters + [s.filter]),
                         remLen := p.remLen - (s.len + 2)))
  {}

  lemma {:induction false} ReadUnsubFilter(p: Parser, s: seq<Byte>, k: nat)
    requires p.at == UnsubTopic2 && p.sub.u16 == k < |s| < 0x1_0000 && p.sub.len == |s| && p.sub.filter == s[..k] &&
             |s| + 2 < p.remLen
    ensures Run(Step, p, s[k..]) ==
      Go(p.(at := UnsubTopic0, sub := p.sub.(u16 := |s|, filter := s, filters := p.sub.filters + [s]),
        remLen := p.remLen - (|s| + 2)))
    decreases |s| - k
  {
    Cut(s, k);
    UnsubByte(p, s[k]);
    var o := Step(p, s[k]);
    RunOne(Step, p, s[k]);
    if k + 1 < |s| {
      assert s[k..] == [s[k]] + s[k + 1..];
      RunOn(Step, p, [s[k]], o.p, s[k + 1..]);
      ReadUnsubFilter(o.p, s, k + 1);
    }
  }

  /** At the last filter the length check asks for a byte more than the packet has. */
  lemma LastName(p: Parser, f: seq<Byte>)
    requires p.at == UnsubTopic0 && ShortText(f, 0xffff) && p.remLen == |f| + 2
    ensures var o := Run(Step, p, Text(f)); o.status == Refused(1) && o.events == []
  {
    LengthRefused(p, f, []);
    assert Text(f) + [] == Text(f);
  }

  ghost function AfterName(p: Parser, f: seq<Byte>, n: nat): Parser {
    p.(at := UnsubTopic0, sub := p.sub.(u16 := |f|, len := |f|, filter := f, filters := p.sub.filters + [f]),
      remLen := n)
  }

  lemma WholeName(p: Parser, f: seq<Byte>)
    requires p.at == UnsubTopic2 && p.sub.u16 == 0 && ShortText(f, 0xffff) && p.sub.len == |f| && p.sub.filter == []
    requires |f| + 2 < p.remLen
    ensures Run(Step, p, f) ==
      Go(p.(at := UnsubTopic0, sub := p.sub.(u16 := |f|, filter := f, filters := p.sub.filters + [f]),
        remLen := p.remLen - (|f| + 2)))
  {
    assert f[0..] == f && f[..0] == [];
    ReadUnsubFilter(p, f, 0);
  }

  lemma NameText(p: Parser, f: seq<Byte>, rest: seq<Byte>)
    requires p.at == UnsubTopic0 && ShortText(f, 0xffff) && p.remLen == |f| + 2 + |rest| && rest != []
    ensures Run(Step, AfterShort(p, |f|), f + rest) == Run(Step, AfterName(p, f, |rest|), rest)
  {
    var p' := AfterShort(p, |f|);
    WholeName(p', f);
    RunOn(Step, p', f, AfterName(p, f, |rest|), rest);
  }

  lemma NextName(p: Parser, f: seq<Byte>, rest: seq<Byte>)
    requires p.at == UnsubTopic0 && ShortText(f, 0xffff) && p.remLen == |f| + 2 + |rest| && rest != []
    ensures Run(Step, p, Text(f) + rest) == Run(Step, AfterName(p, f, |rest|), rest)
  {
    TakeText(p, f, rest);
    NameText(p, f, rest);
  }

  lemma NamesCons(fs: seq<seq<Byte>>)
    requires fs != [] && forall i :: 0 <= i < |fs| ==> ShortText(fs[i], 0xffff)
    ensures ShortText(fs[0], 0xffff) && NamesBytes(fs) == Text(fs[0]) + NamesBytes(fs[1..]) &&
            |Text(fs[0])| == |fs[0]| + 2
    ensures |fs| == 1 ==> NamesBytes(fs) == Text(fs[0])
    ensures |fs| > 1 ==> NamesBytes(fs[1..]) != []
  {
    assert ShortText(fs[0], 0xffff);
    if |fs| > 1 { assert ShortText(fs[1], 0xffff) && fs[1..][0] == fs[1]; }
  }

  lemma {:induction false} NamesRefused(p: Parser, fs: seq<seq<Byte>>)
    requires p.at == UnsubTopic0 && fs != [] && forall i :: 0 <= i < |fs| ==> ShortText(fs[i], 0xffff)
    requires p.remLen == |NamesBytes(fs)|
    ensures var o := Run(Step, p, NamesBytes(fs)); o.status == Refused(1) && o.events == []
    decreases |fs|
  {
    NamesCons(fs);
    if |fs| == 1 {
      LastName(p, fs[0]);
    } else {
      var rest := NamesBytes(fs[1..]);
      NextName(p, fs[0], rest);
      NamesRefused(AfterName(p, fs[0], |rest|), fs[1..]);
    }
  }

  lemma UnsubscribeBody(p: Parser, id: nat, fs: seq<seq<Byte>>)
    requires p.at == UnsubId0 && id < 0x1_0000 && fs != [] && forall i :: 0 <= i < |fs| ==> ShortText(fs[i], 0xffff)
    requires p.remLen == |NamesBytes(fs)| + 2
    ensures var o := Run(Step, p, Short(id) + NamesBytes(fs)); o.status == Refused(1) && o.events == []
  {
    var p' := AfterShort(p, id);
    TakeShort(p, id, NamesBytes(fs));
    NamesRefused(p', fs);
  }

  /** No UNSUBSCRIBE packet of section 3.10 gets through.  The last filter is refused before it is stored, so
      that eleven filters are as many as the ten places of the source take. */
  lemma UnsubscribeRefused(p: Parser, id: nat, fs: seq<seq<Byte>>)
    requires p.at == Header && id < 0x1_0000 && 1 <= |fs| <= MAX_NUM_TOPICS + 1 &&
             forall i :: 0 <= i < |fs| ==> ShortText(fs[i], 0xffff)
    requires |NamesBytes(fs)| + 2 < MAX_REM_LEN
    ensures var body := Short(id) + NamesBytes(fs);
      var o := Run(Step, p, [HeaderByte(UNSUBSCRIBE, false, 1)] + (LengthBytes(|body|) + body));
      o.status == Refused(1) && o.events == []
  {
    var body := Short(id) + NamesBytes(fs);
    var m := ReadStart(p, UNSUBSCRIBE, false, 1, |body|, body);
    var p' := p.(at := UnsubId0, msgType := UNSUBSCRIBE, dup := false, qos := 1, remLen := |body|, multiplier := m);
    assert Dispatch(p'.(at := RemLen)) == Go(p') && [] + Run(Step, p', body).events == Run(Step, p', body).events;
    UnsubscribeBody(p', id, fs);
  }
}
