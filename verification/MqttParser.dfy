/** The MQTT packet parser (mqtt_parser.c): one byte at a time, resumable at every byte.

    Calls of the callbacks are events; the callbacks are taken to accept. */
module MqttParser {
  import opened ByteStream

  const MAX_ID_LEN := 127
  const MAX_TOPIC_LEN := 127
  const MAX_PAYLOAD_LEN := 4096
  const MAX_NUM_TOPICS := 10
  const PROTOCOL_LEN := 6

  const CONNECT := 1
  const PUBLISH := 3
  const SUBSCRIBE := 8
  const UNSUBSCRIBE := 10
  const PINGREQ := 12
  const DISCONNECT := 14
  const NUM_TYPES := 15

  const PROTOCOL_4: seq<Byte> := [77, 81, 84, 84]
  const PROTOCOL_3: seq<Byte> := [77, 81, 73, 115, 100, 112]

  datatype Login = Anonymous | User(username: seq<Byte>, password: seq<Byte>)

  /** The message that is to be published when the client is gone. */
  datatype Will = NoWill | Will(topic: seq<Byte>, payload: seq<Byte>, qos: nat)

  datatype Event =
    | Connect(cleanSession: bool, keepAlive: nat, clientId: seq<Byte>, login: Login, will: Will)
    | Subscribe(packetId: nat, filters: seq<seq<Byte>>, qoss: seq<nat>)
    | Unsubscribe(packetId: nat, filters: seq<seq<Byte>>)
    | Publish(dup: bool, qos: nat, messageId: nat, topic: seq<Byte>, payload: seq<Byte>)
    | Ping

  datatype At =
    | Header | RemLen
    | Protocol0 | Protocol1 | Protocol2 | Version | Flags | KeepAlive0 | KeepAlive1
    | ClientId0 | ClientId1 | ClientId2
    | WillTopic0 | WillTopic1 | WillTopic2 | WillPayload0 | WillPayload1 | WillPayload2
    | Username0 | Username1 | Username2 | Password0 | Password1 | Password2
    | SubId0 | SubId1 | SubTopic0 | SubTopic1 | SubTopic2 | SubQos
    | UnsubId0 | UnsubId1 | UnsubTopic0 | UnsubTopic1 | UnsubTopic2
    | PubTopic0 | PubTopic1 | PubTopic2 | PubId0 | PubId1 | PubPayload

  /** The fields that CONNECT fills, some of them in the client.  The topic of a will goes to `willTopic`, in the
      client, but the message gets its topic from the parser's own field, `stale`, which nothing writes: the memory
      it shares with the fields of other packets holds whatever it holds. */
  datatype Conn = Conn(u16: nat, protocol: seq<Byte>, clean: bool, will: bool, user: bool, pass: bool,
                       keepAlive: nat, idLen: nat, clientId: seq<Byte>, userLen: nat, username: seq<Byte>,
                       password: seq<Byte>, willLen: nat, willTopic: seq<Byte>, willPayload: seq<Byte>,
                       stale: seq<Byte>)

  /** The fields that SUBSCRIBE and UNSUBSCRIBE fill; `len` is the length of the filter being read. */
  datatype Sub = Sub(packetId: nat, u16: nat, len: nat, filter: seq<Byte>, filters: seq<seq<Byte>>, qoss: seq<nat>)

  datatype Pub = Pub(topicLen: nat, payloadLen: nat, topic: seq<Byte>, packetId: nat, payload: seq<Byte>)

  datatype Parser = Parser(at: At, msgType: nat, dup: bool, qos: nat, remLen: nat, multiplier: nat, i: nat,
                           conn: Conn, sub: Sub, pub: Pub, allowAnonymous: bool)

  type Res = Out<Parser, Event>

  function U16(hi: nat, lo: nat): nat { hi * 256 + lo }

  /** Subtraction of 32-bit numbers. */
  function Sub32(a: nat, b: nat): nat { if b <= a then a - b else (a - b) % 0x1_0000_0000 }

  /** Increment of a 16-bit number. */
  function Next16(i: nat): nat { if i < 0xffff then i + 1 else 0 }

  function Go(p: Parser): Res { Out(p, [], Going) }

  function Refuse(p: Parser): Res { Out(p, [], Refused(1)) }

  function Emit(p: Parser, e: Event): Res { Out(p.(at := Header), [e], Going) }

  /** A buffer up to its byte `i`, which is written. */
  function Put(s: seq<Byte>, i: nat, b: Byte): seq<Byte> { if i < |s| then s[..i] + [b] else s + [b] }

  function StepHeader(p: Parser, b: Byte): Res {
    var t := b / 16;
    var p' := p.(msgType := t, dup := (b / 8) % 2 == 1, qos := (b / 2) % 4);
    if t == 0 || t >= NUM_TYPES || b % 2 == 1 then Refuse(p')
    else Go(p'.(at := RemLen, remLen := 0, multiplier := 1))
  }

  function StepRemLen(p: Parser, b: Byte): Res {
    var p' := p.(remLen := (p.remLen + b % 128 * p.multiplier) % 0x1_0000_0000, multiplier := p.multiplier * 128);
    if b >= 128 then Go(p') else Dispatch(p')
  }

  /** The remaining length is there. */
  function Dispatch(p: Parser): Res {
    if p.msgType == CONNECT then Go(p.(at := Protocol0))
    else if p.msgType == DISCONNECT then Out(p.(at := Header), [], Closed)
    else if p.msgType == PINGREQ then Emit(p, Ping)
    else if p.msgType == SUBSCRIBE then Go(p.(at := SubId0))
    else if p.msgType == UNSUBSCRIBE then Go(p.(at := UnsubId0))
    else if p.msgType == PUBLISH then Go(p.(at := PubTopic0))
    else Refuse(p)
  }

  /** memcpy of the topic of a will. */
  function Copied(c: Conn): seq<Byte> { if c.willLen <= |c.stale| then c.stale[..c.willLen] else c.stale }

  /** The will has the quality of service of the CONNECT packet. */
  function Connected(p: Parser, login: Login): Event {
    var c := p.conn;
    Connect(c.clean, c.keepAlive, c.clientId, login, if c.will then Will(Copied(c), c.willPayload, p.qos) else NoWill)
  }

  /** After the client id. */
  function ClientIdDone(p: Parser): Res {
    if p.conn.will then Go(p.(at := WillTopic0))
    else if p.conn.user then Go(p.(at := Username0))
    else if p.conn.pass || !p.allowAnonymous then Refuse(p)
    else Emit(p, Connected(p, Anonymous))
  }

  function StepProtocol0(p: Parser, b: Byte): Res {
    Go(p.(at := Protocol1, conn := p.conn.(u16 := U16(b, 0))))
  }

  function StepProtocol1(p: Parser, b: Byte): Res {
    var n := p.conn.u16 + b;
    var p' := p.(conn := p.conn.(u16 := n));
    if n > PROTOCOL_LEN then Refuse(p') else Go(p'.(at := Protocol2, i := 0))
  }

  function StepProtocol2(p: Parser, b: Byte): Res {
    var p' := p.(conn := p.conn.(protocol := Put(p.conn.protocol, p.i, b)), i := Next16(p.i));
    Go(if p'.i == p.conn.u16 then p'.(at := Version) else p')
  }

  function StepVersion(p: Parser, b: Byte): Res {
    var c := p.conn;
    if (b == 4 && c.u16 == 4 && c.protocol == PROTOCOL_4) || (b == 3 && c.u16 == 6 && c.protocol == PROTOCOL_3)
    then Go(p.(at := Flags)) else Refuse(p)
  }

  function StepFlags(p: Parser, b: Byte): Res {
    var c := p.conn.(clean := (b / 2) % 2 == 1, will := (b / 4) % 2 == 1, pass := (b / 64) % 2 == 1, user := b / 128 ==
      1);
    Go(p.(at := KeepAlive0, conn := c))
  }

  function StepKeepAlive0(p: Parser, b: Byte): Res {
    Go(p.(at := KeepAlive1, conn := p.conn.(keepAlive := U16(b, 0))))
  }

  function StepKeepAlive1(p: Parser, b: Byte): Res {
    Go(p.(at := ClientId0, conn := p.conn.(keepAlive := p.conn.keepAlive + b)))
  }

  function StepClientId0(p: Parser, b: Byte): Res {
    Go(p.(at := ClientId1, conn := p.conn.(idLen := U16(b, 0))))
  }

  function StepClientId1(p: Parser, b: Byte): Res {
    var n := p.conn.idLen + b;
    var p' := p.(conn := p.conn.(idLen := n));
    if n == 0 || n > MAX_ID_LEN then Refuse(p') else Go(p'.(at := ClientId2, i := 0))
  }

  function StepClientId2(p: Parser, b: Byte): Res {
    var p' := p.(conn := p.conn.(clientId := Put(p.conn.clientId, p.i, b)), i := Next16(p.i));
    if p'.i == p.conn.idLen then ClientIdDone(p') else Go(p')
  }

  function StepWillTopic0(p: Parser, b: Byte): Res {
    Go(p.(at := WillTopic1, conn := p.conn.(willLen := U16(b, 0))))
  }

  function StepWillTopic1(p: Parser, b: Byte): Res {
    var n := p.conn.willLen + b;
    var p' := p.(conn := p.conn.(willLen := n));
    if n == 0 || n > MAX_TOPIC_LEN + 1 then Refuse(p') else Go(p'.(at := WillTopic2, i := 0))
  }

  function StepWillTopic2(p: Parser, b: Byte): Res {
    var p' := p.(conn := p.conn.(willTopic := Put(p.conn.willTopic, p.i, b)), i := Next16(p.i));
    Go(if p'.i == p.conn.willLen then p'.(at := WillPayload0) else p')
  }

  function StepWillPayload0(p: Parser, b: Byte): Res {
    Go(p.(at := WillPayload1, conn := p.conn.(u16 := U16(b, 0))))
  }

  function StepWillPayload1(p: Parser, b: Byte): Res {
    var n := p.conn.u16 + b;
    var p' := p.(conn := p.conn.(u16 := n));
    if n == 0 || n > MAX_PAYLOAD_LEN then Out(p', [], Refused(-1)) else Go(p'.(at := WillPayload2, i := 0))
  }

  function StepWillPayload2(p: Parser, b: Byte): Res {
    var p' := p.(conn := p.conn.(willPayload := Put(p.conn.willPayload, p.i, b)), i := Next16(p.i));
    if p'.i != p.conn.u16 then Go(p')
    else if p.conn.user then Go(p'.(at := Username0))
    else Out(p', [], Refused(-1))
  }

  function StepUsername0(p: Parser, b: Byte): Res {
    Go(p.(at := Username1, conn := p.conn.(userLen := U16(b, 0))))
  }

  function StepUsername1(p: Parser, b: Byte): Res {
    var n := p.conn.userLen + b;
    var p' := p.(conn := p.conn.(userLen := n));
    if n == 0 || n > MAX_ID_LEN then Refuse(p') else Go(p'.(at := Username2, i := 0))
  }

  function StepUsername2(p: Parser, b: Byte): Res {
    var p' := p.(conn := p.conn.(username := Put(p.conn.username, p.i, b)), i := Next16(p.i));
    Go(if p'.i == p.conn.userLen then p'.(at := Password0) else p')
  }

  function StepPassword0(p: Parser, b: Byte): Res {
    Go(p.(at := Password1, conn := p.conn.(u16 := U16(b, 0))))
  }

  function StepPassword1(p: Parser, b: Byte): Res {
    var n := p.conn.u16 + b;
    var p' := p.(conn := p.conn.(u16 := n));
    if n == 0 || n > MAX_ID_LEN then Refuse(p') else Go(p'.(at := Password2, i := 0))
  }

  function StepPassword2(p: Parser, b: Byte): Res {
    var p' := p.(conn := p.conn.(password := Put(p.conn.password, p.i, b)), i := Next16(p.i));
    if p'.i == p.conn.u16 then Emit(p', Connected(p', User(p'.conn.username, p'.conn.password))) else Go(p')
  }

  function StepSubId0(p: Parser, b: Byte): Res {
    Go(p.(at := SubId1, sub := p.sub.(packetId := U16(b, 0))))
  }

  function StepSubId1(p: Parser, b: Byte): Res {
    Go(p.(at := SubTopic0, sub := p.sub.(packetId := p.sub.packetId + b, filters := [], qoss := []),
      remLen := Sub32(p.remLen, 2)))
  }

  function StepSubTopic0(p: Parser, b: Byte): Res {
    Go(p.(at := SubTopic1, sub := p.sub.(u16 := U16(b, 0))))
  }

  function StepSubTopic1(p: Parser, b: Byte): Res {
    var n := p.sub.u16 + b;
    if n + 3 > p.remLen then Refuse(p.(sub := p.sub.(u16 := n)))
    else Go(p.(at := SubTopic2, sub := p.sub.(u16 := 0, len := n, filter := [])))
  }

  function StepSubTopic2(p: Parser, b: Byte): Res {
    var s := p.sub.(filter := Put(p.sub.filter, p.sub.u16, b), u16 := Next16(p.sub.u16));
    Go(if s.u16 == s.len then p.(at := SubQos, sub := s) else p.(sub := s))
  }

  function StepSubQos(p: Parser, b: Byte): Res {
    if b > 2 then Refuse(p)
    else
      var s := p.sub.(filters := p.sub.filters + [p.sub.filter], qoss := p.sub.qoss + [b]);
      var p' := p.(sub := s, remLen := Sub32(p.remLen, p.sub.len + 3));
      if p'.remLen > 0 then Go(p'.(at := SubTopic0)) else Emit(p', Subscribe(s.packetId, s.filters, s.qoss))
  }

  function StepUnsubId0(p: Parser, b: Byte): Res {
    Go(p.(at := UnsubId1, sub := p.sub.(packetId := U16(b, 0))))
  }

  function StepUnsubId1(p: Parser, b: Byte): Res {
    Go(p.(at := UnsubTopic0, sub := p.sub.(packetId := p.sub.packetId + b, filters := []),
      remLen := Sub32(p.remLen, 2)))
  }

  function StepUnsubTopic0(p: Parser, b: Byte): Res {
    Go(p.(at := UnsubTopic1, sub := p.sub.(u16 := U16(b, 0))))
  }

  function StepUnsubTopic1(p: Parser, b: Byte): Res {
    var n := p.sub.u16 + b;
    if n + 3 > p.remLen then Refuse(p.(sub := p.sub.(u16 := n)))
    else Go(p.(at := UnsubTopic2, sub := p.sub.(u16 := 0, len := n, filter := [])))
  }

  function StepUnsubTopic2(p: Parser, b: Byte): Res {
    var s := p.sub.(filter := Put(p.sub.filter, p.sub.u16, b), u16 := Next16(p.sub.u16));
    if s.u16 != s.len then Go(p.(sub := s))
    else
      var p' := p.(sub := s.(filters := s.filters + [s.filter]), remLen := Sub32(p.remLen, s.len + 2));
      if p'.remLen > 0 then Go(p'.(at := UnsubTopic0)) else Emit(p', Unsubscribe(s.packetId, p'.sub.filters))
  }

  function StepPubTopic0(p: Parser, b: Byte): Res {
    Go(p.(at := PubTopic1, pub := p.pub.(topicLen := U16(b, 0))))
  }

  function StepPubTopic1(p: Parser, b: Byte): Res {
    var n := p.pub.topicLen + b;
    var p' := p.(pub := p.pub.(topicLen := n));
    if n == 0 || n > MAX_TOPIC_LEN then Refuse(p') else Go(p'.(at := PubTopic2, i := 0))
  }

  function StepPubTopic2(p: Parser, b: Byte): Res {
    var p' := p.(pub := p.pub.(topic := Put(p.pub.topic, p.i, b)), i := Next16(p.i));
    if p'.i == p.pub.topicLen then TopicDone(p') else Go(p')
  }

  /** The topic is there: the rest of the packet is payload, but for a packet id. */
  function TopicDone(p: Parser): Res {
    var n := Sub32(p.remLen, p.pub.topicLen + if p.qos > 0 then 4 else 2);
    var u := p.pub.(payloadLen := n, packetId := 0, payload := []);
    if n == 0 then Refuse(p.(pub := p.pub.(payloadLen := 0)))
    else Go(p.(at := if p.qos > 0 then PubId0 else PubPayload, i := 0, pub := u))
  }

  function StepPubId0(p: Parser, b: Byte): Res {
    Go(p.(at := PubId1, pub := p.pub.(packetId := U16(b, 0))))
  }

  function StepPubId1(p: Parser, b: Byte): Res {
    Go(p.(at := PubPayload, pub := p.pub.(packetId := p.pub.packetId + b)))
  }

  function StepPubPayload(p: Parser, b: Byte): Res {
    var u := p.pub.(payload := Put(p.pub.payload, p.i, b));
    var p' := p.(pub := u, i := Next16(p.i));
    if p'.i == u.payloadLen then Emit(p', Publish(p.dup, p.qos, u.packetId, u.topic, u.payload)) else Go(p')
  }

  /** One turn of the loop of mqtt_parser_execute. */
  function Step(p: Parser, b: Byte): Res {
    match p.at
    case Header => StepHeader(p, b)
    case RemLen => StepRemLen(p, b)
    case Protocol0 => StepProtocol0(p, b)
    case Protocol1 => StepProtocol1(p, b)
    case Protocol2 => StepProtocol2(p, b)
    case Version => StepVersion(p, b)
    case Flags => StepFlags(p, b)
    case KeepAlive0 => StepKeepAlive0(p, b)
    case KeepAlive1 => StepKeepAlive1(p, b)
    case ClientId0 => StepClientId0(p, b)
    case ClientId1 => StepClientId1(p, b)
    case ClientId2 => StepClientId2(p, b)
    case WillTopic0 => StepWillTopic0(p, b)
    case WillTopic1 => StepWillTopic1(p, b)
    case WillTopic2 => StepWillTopic2(p, b)
    case WillPayload0 => StepWillPayload0(p, b)
    case WillPayload1 => StepWillPayload1(p, b)
    case WillPayload2 => StepWillPayload2(p, b)
    case Username0 => StepUsername0(p, b)
    case Username1 => StepUsername1(p, b)
    case Username2 => StepUsername2(p, b)
    case Password0 => StepPassword0(p, b)
    case Password1 => StepPassword1(p, b)
    case Password2 => StepPassword2(p, b)
    case SubId0 => StepSubId0(p, b)
    case SubId1 => StepSubId1(p, b)
    case SubTopic0 => StepSubTopic0(p, b)
    case SubTopic1 => StepSubTopic1(p, b)
    case SubTopic2 => StepSubTopic2(p, b)
    case SubQos => StepSubQos(p, b)
    case UnsubId0 => StepUnsubId0(p, b)
    case UnsubId1 => StepUnsubId1(p, b)
    case UnsubTopic0 => StepUnsubTopic0(p, b)
    case UnsubTopic1 => StepUnsubTopic1(p, b)
    case UnsubTopic2 => StepUnsubTopic2(p, b)
    case PubTopic0 => StepPubTopic0(p, b)
    case PubTopic1 => StepPubTopic1(p, b)
    case PubTopic2 => StepPubTopic2(p, b)
    case PubId0 => StepPubId0(p, b)
    case PubId1 => StepPubId1(p, b)
    case PubPayload => StepPubPayload(p, b)
  }
}
