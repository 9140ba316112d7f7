/** MQTT 3.1.1 packets as bytes: the wire format of sections 2.2, 3.1, 3.3, 3.8, 3.10 and 3.12. */
module MqttWire {
  import opened ByteStream
  import opened MqttParser

  const MAX_REM_LEN := 0x1000_0000

  /** Section 2.2.3: the remaining length, seven bits a byte. */
  function LengthBytes(n: nat): (s: seq<Byte>)
    ensures s != []
  {
    if n < 128 then [n] else [n % 128 + 128] + LengthBytes(n / 128)
  }

  function Bit(b: bool): nat { if b then 1 else 0 }

  function HeaderByte(t: nat, dup: bool, qos: nat): Byte
    requires t < 16 && qos < 4
  {
    t * 16 + Bit(dup) * 8 + qos * 2
  }

  function Short(n: nat): seq<Byte>
    requires n < 0x1_0000
  {
    [n / 256, n % 256]
  }

  function Text(s: seq<Byte>): seq<Byte>
    requires |s| < 0x1_0000
  {
    Short(|s|) + s
  }

  predicate ShortText(s: seq<Byte>, max: nat) { 1 <= |s| <= max < 0x1_0000 }

  /** The packets that the parser is to understand. */
  predicate Valid(e: Event) {
    match e
    case Connect(_, ka, id, login, will) =>
      && ka < 0x1_0000 && ShortText(id, MAX_ID_LEN) && will == NoWill
      && (login.User? ==> ShortText(login.username, MAX_ID_LEN) && ShortText(login.password, MAX_ID_LEN))
    case Subscribe(id, fs, qs) =>
      && id < 0x1_0000 && 1 <= |fs| == |qs| <= MAX_NUM_TOPICS
      && (forall i :: 0 <= i < |fs| ==> ShortText(fs[i], 0xffff)) && forall i :: 0 <= i < |qs| ==> qs[i] <= 2
    case Unsubscribe(_, _) => false
    case Publish(_, qos, id, topic, payload) =>
      && qos < 4 && id < 0x1_0000 && (qos == 0 ==> id == 0)
      && ShortText(topic, MAX_TOPIC_LEN) && ShortText(payload, 0xffff)
    case Ping => true
  }

  function FilterBytes(f: seq<Byte>, q: nat): seq<Byte>
    requires ShortText(f, 0xffff) && q <= 2
  {
    Text(f) + [q]
  }

  function FiltersBytes(fs: seq<seq<Byte>>, qs: seq<nat>): seq<Byte>
    requires |fs| == |qs| && (forall i :: 0 <= i < |fs| ==> ShortText(fs[i], 0xffff)) &&
             forall i :: 0 <= i < |qs| ==> qs[i] <= 2
  {
    if fs == [] then [] else
    assert ShortText(fs[0], 0xffff);
    FilterBytes(fs[0], qs[0]) + FiltersBytes(fs[1..], qs[1..])
  }

  /** A will as the client sends it. */
  datatype Wish = NoWish | Wish(topic: seq<Byte>, payload: seq<Byte>, qos: nat, retain: bool)

  predicate GoodWish(wish: Wish) {
    wish.Wish? ==> |wish.topic| < 0x1_0000 && |wish.payload| < 0x1_0000 && wish.qos < 3
  }

  /** Section 3.1.2.3. */
  function FlagsByte(clean: bool, wish: Wish, user: bool, pass: bool): Byte
    requires GoodWish(wish)
  {
    Bit(clean) * 2 + Bit(pass) * 64 + Bit(user) * 128 + if wish.NoWish? then 0
      else 4 + wish.qos * 8 + Bit(wish.retain) * 32
  }

  function ConnectFlags(clean: bool, login: Login): Byte { FlagsByte(clean, NoWish, login.User?, login.User?) }

  /** Sections 3.1.3.2 and 3.1.3.3. */
  function WishBytes(wish: Wish): seq<Byte>
    requires GoodWish(wish)
  {
    if wish.NoWish? then [] else Text(wish.topic) + Text(wish.payload)
  }

  function LoginBytes(login: Login): seq<Byte>
    requires login.User? ==> ShortText(login.username, MAX_ID_LEN) && ShortText(login.password, MAX_ID_LEN)
  {
    if login.User? then Text(login.username) + Text(login.password) else []
  }

  /** `v3` says that CONNECT goes by the protocol name and version before 3.1.1. */
  function ProtocolBytes(v3: bool): seq<Byte> {
    if v3 then [0, 6, 77, 81, 73, 115, 100, 112, 3] else [0, 4, 77, 81, 84, 84, 4]
  }

  function BodyBytes(e: Event, v3: bool): seq<Byte>
    requires Valid(e)
  {
    match e
    case Connect(clean, ka, id, login, _) =>
      ProtocolBytes(v3) + ([ConnectFlags(clean, login)] + (Short(ka) + (Text(id) + LoginBytes(login))))
    case Subscribe(id, fs, qs) => Short(id) + FiltersBytes(fs, qs)
    case Publish(_, qos, id, topic, payload) => PublishBytes(qos, id, topic, payload)
    case _ => []
  }

  function PublishBytes(qos: nat, id: nat, topic: seq<Byte>, payload: seq<Byte>): seq<Byte>
    requires id < 0x1_0000 && |topic| < 0x1_0000
  {
    Text(topic) + ((if qos > 0 then Short(id) else []) + payload)
  }

  /** Tables 2.1 and 2.2: the type of the packet and its flags. */
  function FirstByte(e: Event): Byte
    requires Valid(e)
  {
    match e
    case Connect(_, _, _, _, _) => 0x10
    case Subscribe(_, _, _) => 0x82
    case Publish(dup, qos, _, _, _) => 0x30 + Bit(dup) * 8 + qos * 2
    case _ => 0xc0
  }

  /** A whole packet. */
  function PacketBytes(e: Event, v3: bool): seq<Byte>
    requires Valid(e)
  {
    [FirstByte(e)] + (LengthBytes(|BodyBytes(e, v3)|) + BodyBytes(e, v3))
  }

  datatype Packet = Packet(event: Event, v3: bool)

  predicate AllValid(ps: seq<Packet>) { forall i :: 0 <= i < |ps| ==> Valid(ps[i].event) }

  function StreamBytes(ps: seq<Packet>): seq<Byte>
    requires AllValid(ps)
  {
    if ps == [] then [] else PacketBytes(ps[0].event, ps[0].v3) + StreamBytes(ps[1..])
  }

  function EventsOf(ps: seq<Packet>): seq<Event> {
    if ps == [] then [] else [ps[0].event] + EventsOf(ps[1..])
  }
}
