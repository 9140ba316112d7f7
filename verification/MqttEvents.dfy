/** What the parser can be made to tell, whatever bytes it is given. */
module MqttEvents {
  import opened ByteStream
  import opened MqttParser
  import opened MqttWire
  import opened MqttStreams

  predicate Named(s: seq<Byte>) { 1 <= |s| <= 127 }

  predicate SoundLogin(login: Login) { login.User? ==> Named(login.username) && Named(login.password) }

  predicate SoundWill(will: Will) { will.Will? ==> 1 <= |will.payload| <= 4096 && will.qos < 4 }

  /** An event that a client is served for; an UNSUBSCRIBE is none. */
  predicate SoundEvent(e: Event, allowAnonymous: bool) {
    match e
    case Connect(_, ka, id, login, will) =>
      && ka < 0x1_0000 && Named(id) && SoundLogin(login) && SoundWill(will)
      && (login.Anonymous? ==> allowAnonymous && will == NoWill)
    case Subscribe(id, fs, qs) =>
      && id < 0x1_0000 && 1 <= |fs| == |qs|
      && (forall i :: 0 <= i < |fs| ==> 1 <= |fs[i]| <= 65536) && forall i :: 0 <= i < |qs| ==> qs[i] <= 2
    case Unsubscribe(_, _) => false
    case Publish(_, qos, id, topic, payload) =>
      qos < 4 && id < 0x1_0000 && (qos == 0 ==> id == 0) && Named(topic) && 1 <= |payload| <= 0xffff
    case Ping => true
  }

  // ---------- What is known in every state

  /** A field of `len` bytes of which `i` are there. */
  predicate Growing(i: nat, len: nat, s: seq<Byte>) { i < len && (i > 0 ==> |s| == i) }

  /** The keep-alive and the client id are there. */
  predicate Identified(c: Conn) { c.keepAlive < 0x1_0000 && Named(c.clientId) }

  /** So is the will, where there is one. */
  predicate Willing(c: Conn) { Identified(c) && (c.will ==> 1 <= |c.willPayload| <= 4096) }

  predicate Filters(s: Sub) {
    && s.packetId < 0x1_0000 && |s.filters| == |s.qoss|
    && (forall i :: 0 <= i < |s.filters| ==> 1 <= |s.filters[i]| <= 65536)
    && forall i :: 0 <= i < |s.qoss| ==> s.qoss[i] <= 2
  }

  predicate Topical(u: Pub) { Named(u.topic) && u.payloadLen >= 1 }

  predicate Sane(p: Parser) {
    var c, s, u := p.conn, p.sub, p.pub;
    p.qos < 4 &&
    match p.at
    case KeepAlive1 => c.keepAlive <= 0xff00
    case ClientId0 | ClientId1 => c.keepAlive < 0x1_0000
    case ClientId2 => c.keepAlive < 0x1_0000 && 1 <= c.idLen <= 127 && Growing(p.i, c.idLen, c.clientId)
    case WillTopic0 | WillTopic1 | WillTopic2 | WillPayload0 | WillPayload1 => Identified(c) && c.will
    case WillPayload2 => Identified(c) && c.will && 1 <= c.u16 <= 4096 && Growing(p.i, c.u16, c.willPayload)
    case Username0 | Username1 => Willing(c)
    case Username2 => Willing(c) && 1 <= c.userLen <= 127 && Growing(p.i, c.userLen, c.username)
    case Password0 | Password1 => Willing(c) && Named(c.username)
    case Password2 => Willing(c) && Named(c.username) && 1 <= c.u16 <= 127 && Growing(p.i, c.u16, c.password)
    case SubId1 | UnsubId1 => s.packetId <= 0xff00
    case SubTopic0 => Filters(s)
    case SubTopic1 => Filters(s) && s.u16 <= 0xff00
    case SubTopic2 => Filters(s) && s.u16 == |s.filter| < 0x1_0000 && s.len < 0x1_0000 && (s.len > 0 ==> s.u16 < s.len)
    case SubQos => Filters(s) && 1 <= |s.filter| <= 65536
    case UnsubTopic2 => s.len + 3 <= p.remLen
    case PubTopic2 => 1 <= u.topicLen <= 127 && Growing(p.i, u.topicLen, u.topic)
    case PubId0 => Topical(u) && p.qos > 0 && p.i == 0
    case PubId1 => Topical(u) && p.qos > 0 && p.i == 0 && u.packetId <= 0xff00
    case PubPayload =>
      && Topical(u) && u.packetId < 0x1_0000 && (p.qos == 0 ==> u.packetId == 0)
      && p.i < 0x1_0000 && (p.i > 0 ==> |u.payload| == p.i)
    case _ => true
  }

  predicate SoundEvents(es: seq<Event>, allowAnonymous: bool) {
    forall i :: 0 <= i < |es| ==> SoundEvent(es[i], allowAnonymous)
  }

  /** What a step is to keep. */
  ghost predicate Keeps(p: Parser, o: Res) {
    && SoundEvents(o.events, p.allowAnonymous) && o.p.allowAnonymous == p.allowAnonymous
    && (o.status == Going ==> Sane(o.p))
  }

  // ---------- Every step

  lemma PutGrows(i: nat, s: seq<Byte>, b: Byte)
    requires i > 0 ==> |s| == i
    ensures |Put(s, i, b)| == i + 1
  {}

  lemma HeaderKeeps(p: Parser, b: Byte)
    requires Sane(p) && p.at == Header
    ensures Keeps(p, StepHeader(p, b))
  {}

  lemma DispatchIs(p: Parser)
    ensures Dispatch(p).p == p.(at := Dispatch(p).p.at) && (Dispatch(p).events == [] || Dispatch(p).events == [Ping])
    ensures Dispatch(p).status == Going ==> Dispatch(p).p.at in {Header, Protocol0, SubId0, UnsubId0, PubTopic0}
  {}

  lemma DispatchKeeps(p: Parser)
    requires p.qos < 4 && p.at == RemLen
    ensures Keeps(p, Dispatch(p))
  {
    DispatchIs(p);
    var o := Dispatch(p);
    if o.status == Going { StartsSane(o.p); }
  }

  lemma StartsSane(p: Parser)
    requires p.qos < 4 && p.at in {Header, Protocol0, SubId0, UnsubId0, PubTopic0}
    ensures Sane(p)
  {}

  lemma RemLenIs(p: Parser, b: Byte) returns (p': Parser)
    ensures p' == p.(remLen := p'.remLen, multiplier := p'.multiplier)
    ensures StepRemLen(p, b) == if b >= 128 then Go(p') else Dispatch(p')
  {
    p' := p.(remLen := (p.remLen + b % 128 * p.multiplier) % 0x1_0000_0000, multiplier := p.multiplier * 128);
  }

  lemma RemLenKeeps(p: Parser, b: Byte)
    requires Sane(p) && p.at == RemLen
    ensures Keeps(p, StepRemLen(p, b))
  {
    var p' := RemLenIs(p, b);
    DispatchKeeps(p');
  }

  lemma ProtocolKeeps(p: Parser, b: Byte)
    requires Sane(p)
    ensures p.at == Protocol0 ==> Keeps(p, StepProtocol0(p, b))
    ensures p.at == Protocol1 ==> Keeps(p, StepProtocol1(p, b))
    ensures p.at == Protocol2 ==> Keeps(p, StepProtocol2(p, b))
    ensures p.at == Version ==> Keeps(p, StepVersion(p, b))
  {}

  lemma FixedKeeps(p: Parser, b: Byte)
    requires Sane(p)
    ensures p.at == Flags ==> Keeps(p, StepFlags(p, b))
    ensures p.at == KeepAlive0 ==> Keeps(p, StepKeepAlive0(p, b))
    ensures p.at == KeepAlive1 ==> Keeps(p, StepKeepAlive1(p, b))
  {}

  lemma IdLengthKeeps(p: Parser, b: Byte)
    requires Sane(p)
    ensures p.at == ClientId0 ==> Keeps(p, StepClientId0(p, b))
    ensures p.at == ClientId1 ==> Keeps(p, StepClientId1(p, b))
  {}

  lemma IdKeeps(p: Parser, b: Byte)
    requires Sane(p) && p.at == ClientId2
    ensures Keeps(p, StepClientId2(p, b))
  {
    PutGrows(p.i, p.conn.clientId, b);
  }

  lemma WillKeeps(p: Parser, b: Byte)
    requires Sane(p)
    ensures p.at == WillTopic0 ==> Keeps(p, StepWillTopic0(p, b))
    ensures p.at == WillTopic1 ==> Keeps(p, StepWillTopic1(p, b))
    ensures p.at == WillTopic2 ==> Keeps(p, StepWillTopic2(p, b))
  {}

  lemma WillLengthKeeps(p: Parser, b: Byte)
    requires Sane(p)
    ensures p.at == WillPayload0 ==> Keeps(p, StepWillPayload0(p, b))
    ensures p.at == WillPayload1 ==> Keeps(p, StepWillPayload1(p, b))
  {}

  lemma WillPayloadKeeps(p: Parser, b: Byte)
    requires Sane(p) && p.at == WillPayload2
    ensures Keeps(p, StepWillPayload2(p, b))
  {
    PutGrows(p.i, p.conn.willPayload, b);
  }

  lemma UserLengthKeeps(p: Parser, b: Byte)
    requires Sane(p)
    ensures p.at == Username0 ==> Keeps(p, StepUsername0(p, b))
    ensures p.at == Username1 ==> Keeps(p, StepUsername1(p, b))
  {}

  lemma UserKeeps(p: Parser, b: Byte)
    requires Sane(p) && p.at == Username2
    ensures Keeps(p, StepUsername2(p, b))
  {
    PutGrows(p.i, p.conn.username, b);
  }

  lemma PasswordLengthKeeps(p: Parser, b: Byte)
    requires Sane(p)
    ensures p.at == Password0 ==> Keeps(p, StepPassword0(p, b))
    ensures p.at == Password1 ==> Keeps(p, StepPassword1(p, b))
  {}

  lemma PasswordKeeps(p: Parser, b: Byte)
    requires Sane(p) && p.at == Password2
    ensures Keeps(p, StepPassword2(p, b))
  {
    PutGrows(p.i, p.conn.password, b);
  }

  lemma SubIdKeeps(p: Parser, b: Byte)
    requires Sane(p)
    ensures p.at == SubId0 ==> Keeps(p, StepSubId0(p, b))
    ensures p.at == SubId1 ==> Keeps(p, StepSubId1(p, b))
  {}

  lemma SubLengthKeeps(p: Parser, b: Byte)
    requires Sane(p)
    ensures p.at == SubTopic0 ==> Keeps(p, StepSubTopic0(p, b))
    ensures p.at == SubTopic1 ==> Keeps(p, StepSubTopic1(p, b))
  {}

  lemma FilterKeeps(p: Parser, b: Byte)
    requires Sane(p) && p.at == SubTopic2
    ensures Keeps(p, StepSubTopic2(p, b))
  {
    PutGrows(p.sub.u16, p.sub.filter, b);
  }

  lemma SubQosKeeps(p: Parser, b: Byte)
    requires Sane(p) && p.at == SubQos
    ensures Keeps(p, StepSubQos(p, b))
  {}

  lemma UnsubIdKeeps(p: Parser, b: Byte)
    requires Sane(p)
    ensures p.at == UnsubId0 ==> Keeps(p, StepUnsubId0(p, b))
    ensures p.at == UnsubId1 ==> Keeps(p, StepUnsubId1(p, b))
  {}

  lemma UnsubLengthKeeps(p: Parser, b: Byte)
    requires Sane(p)
    ensures p.at == UnsubTopic0 ==> Keeps(p, StepUnsubTopic0(p, b))
    ensures p.at == UnsubTopic1 ==> Keeps(p, StepUnsubTopic1(p, b))
  {}

  /** The last filter is never reached. */
  lemma UnsubKeeps(p: Parser, b: Byte)
    requires Sane(p) && p.at == UnsubTopic2
    ensures Keeps(p, StepUnsubTopic2(p, b))
  {
    assert Sub32(p.remLen, p.sub.len + 2) > 0;
  }

  lemma TopicLengthKeeps(p: Parser, b: Byte)
    requires Sane(p)
    ensures p.at == PubTopic0 ==> Keeps(p, StepPubTopic0(p, b))
    ensures p.at == PubTopic1 ==> Keeps(p, StepPubTopic1(p, b))
  {}

  lemma TopicKeeps(p: Parser, b: Byte)
    requires Sane(p) && p.at == PubTopic2
    ensures Keeps(p, StepPubTopic2(p, b))
  {
    PutGrows(p.i, p.pub.topic, b);
  }

  lemma PubIdKeeps(p: Parser, b: Byte)
    requires Sane(p)
    ensures p.at == PubId0 ==> Keeps(p, StepPubId0(p, b))
    ensures p.at == PubId1 ==> Keeps(p, StepPubId1(p, b))
  {}

  lemma PayloadKeeps(p: Parser, b: Byte)
    requires Sane(p) && p.at == PubPayload
    ensures Keeps(p, StepPubPayload(p, b))
  {
    PutGrows(p.i, p.pub.payload, b);
  }

  predicate Connecting(at: At) {
    at.Protocol0? || at.Protocol1? || at.Protocol2? || at.Version? || at.Flags? || at.KeepAlive0?
    || at.KeepAlive1? || at.ClientId0? || at.ClientId1? || at.ClientId2? || at.WillTopic0? || at.WillTopic1?
    || at.WillTopic2? || at.WillPayload0? || at.WillPayload1? || at.WillPayload2? || at.Username0?
    || at.Username1? || at.Username2? || at.Password0? || at.Password1? || at.Password2?
  }

  predicate Subscribing(at: At) {
    at.SubId0? || at.SubId1? || at.SubTopic0? || at.SubTopic1? || at.SubTopic2? || at.SubQos?
  }

  predicate Unsubscribing(at: At) {
    at.UnsubId0? || at.UnsubId1? || at.UnsubTopic0? || at.UnsubTopic1? || at.UnsubTopic2?
  }

  predicate Publishing(at: At) {
    at.PubTopic0? || at.PubTopic1? || at.PubTopic2? || at.PubId0? || at.PubId1? || at.PubPayload?
  }

  lemma ConnectKeeps(p: Parser, b: Byte)
    requires Sane(p) && Connecting(p.at)
    ensures Keeps(p, Step(p, b))
  {
    match p.at
    case Protocol0 | Protocol1 | Protocol2 | Version => ProtocolKeeps(p, b);
    case Flags | KeepAlive0 | KeepAlive1 => FixedKeeps(p, b);
    case ClientId0 | ClientId1 => IdLengthKeeps(p, b);
    case ClientId2 => IdKeeps(p, b);
    case WillTopic0 | WillTopic1 | WillTopic2 => WillKeeps(p, b);
    case WillPayload0 | WillPayload1 => WillLengthKeeps(p, b);
    case WillPayload2 => WillPayloadKeeps(p, b);
    case Username0 | Username1 => UserLengthKeeps(p, b);
    case Username2 => UserKeeps(p, b);
    case Password0 | Password1 => PasswordLengthKeeps(p, b);
    case Password2 => PasswordKeeps(p, b);
  }

  lemma SubscribeKeeps(p: Parser, b: Byte)
    requires Sane(p) && Subscribing(p.at)
    ensures Keeps(p, Step(p, b))
  {
    match p.at
    case SubId0 | SubId1 => SubIdKeeps(p, b);
    case SubTopic0 | SubTopic1 => SubLengthKeeps(p, b);
    case SubTopic2 => FilterKeeps(p, b);
    case SubQos => SubQosKeeps(p, b);
  }

  lemma UnsubscribeKeeps(p: Parser, b: Byte)
    requires Sane(p) && Unsubscribing(p.at)
    ensures Keeps(p, Step(p, b))
  {
    match p.at
    case UnsubId0 | UnsubId1 => UnsubIdKeeps(p, b);
    case UnsubTopic0 | UnsubTopic1 => UnsubLengthKeeps(p, b);
    case UnsubTopic2 => UnsubKeeps(p, b);
  }

  lemma PublishKeeps(p: Parser, b: Byte)
    requires Sane(p) && Publishing(p.at)
    ensures Keeps(p, Step(p, b))
  {
    match p.at
    case PubTopic0 | PubTopic1 => TopicLengthKeeps(p, b);
    case PubTopic2 => TopicKeeps(p, b);
    case PubId0 | PubId1 => PubIdKeeps(p, b);
    case PubPayload => PayloadKeeps(p, b);
  }

  lemma FirstKeeps(p: Parser, b: Byte)
    requires Sane(p) && (p.at == Header || p.at == RemLen)
    ensures Keeps(p, Step(p, b))
  {
    match p.at
    case Header => HeaderKeeps(p, b);
    case RemLen => RemLenKeeps(p, b);
  }

  lemma StepKeeps(p: Parser, b: Byte)
    requires Sane(p)
    ensures Keeps(p, Step(p, b))
  {
    if Connecting(p.at) {
      ConnectKeeps(p, b);
    } else if Subscribing(p.at) {
      SubscribeKeeps(p, b);
    } else if Unsubscribing(p.at) {
      UnsubscribeKeeps(p, b);
    } else if Publishing(p.at) {
      PublishKeeps(p, b);
    } else {
      FirstKeeps(p, b);
    }
  }

  lemma {:induction false} RunKeeps(p: Parser, s: seq<Byte>)
    requires Sane(p)
    ensures Keeps(p, Run(Step, p, s))
    decreases |s|
  {
    if s != [] {
      var o := Step(p, s[0]);
      StepKeeps(p, s[0]);
      if o.status == Going { RunKeeps(o.p, s[1..]); }
    }
  }

  /** Whatever comes, in whatever buffers: what is told has the lengths and numbers that the broker counts on, nobody
      comes in without a name unless that is allowed, and no UNSUBSCRIBE is ever told. */
  lemma EventsSound(p: Parser, bufs: seq<seq<Byte>>)
    requires p.at == Header && p.qos < 4
    ensures SoundEvents(RunAll(Step, p, bufs).events, p.allowAnonymous)
  {
    CutAnywhere(Step, p, bufs);
    RunKeeps(p, Concat(bufs));
  }

  // ---------- What is refused

  /** The first byte of a packet: the type is one that the broker serves, and the retain flag is clear. */
  lemma TypeExactly(p: Parser, b: Byte)
    requires p.at == Header
    ensures Run(Step, p, [b, 0]).status == Refused(1) <==> b % 2 == 1 || b / 16 !in {1, 3, 8, 10, 12, 14}
  {
    var o := Step(p, b);
    RunOne(Step, p, b);
    assert [b, 0] == [b] + [0];
    RunConcat(Step, p, [b], [0]);
    if o.status == Going { RunOne(Step, o.p, 0); }
  }

  /** The protocols: "MQTT" with version 4 and "MQIsdp" with version 3. */
  lemma ProtocolExactly(p: Parser, name: seq<Byte>, v: Byte)
    requires p.at == Protocol0 && 1 <= |name| < 0x1_0000
    ensures var o := Run(Step, p, Text(name) + [v]);
      && (o.status == Going <==>
            (name == [77, 81, 84, 84] && v == 4) || (name == [77, 81, 73, 115, 100, 112] && v == 3))
      && (o.status != Going ==> o.status == Refused(1))
  {
    if |name| > 6 {
      LengthRefused(p, name, [v]);
    } else {
      var p' := ReadName(p, name, [v]);
      VersionAccepted(p', v);
    }
  }

  lemma VersionAccepted(p: Parser, v: Byte)
    requires p.at == Version && p.conn.u16 == |p.conn.protocol|
    ensures var o := Run(Step, p, [v]);
      && (o.status == Going <==> (p.conn.protocol == [77, 81, 84, 84] && v == 4)
                                 || (p.conn.protocol == [77, 81, 73, 115, 100, 112] && v == 3))
      && (o.status != Going ==> o.status == Refused(1))
  {
    RunOne(Step, p, v);
  }
}
