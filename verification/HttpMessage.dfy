/** A whole request, byte by byte (http_parser_execute in http_parser.c): request line, headers, body,
    and the request after it.  What the headers mean, that is header_state, flags and content_length, is
    a parameter; the callbacks are taken to accept. */
module HttpMessage {
  import opened ByteStream
  import B = HttpBody
  import D = Decimal
  import M = HttpMethod
  import U = HttpUrl

  const CR := B.CR
  const LF := B.LF
  const TAB: Byte := 9
  const SPACE := B.SPACE
  const DOT: Byte := 46

  const HPE_STRICT := B.HPE_STRICT
  const HPE_INVALID_METHOD := 6
  const HPE_INVALID_URL := 7
  const HPE_INVALID_CONSTANT := 8
  const HPE_INVALID_VERSION := 9
  const HPE_LF_EXPECTED := 10
  const HPE_INVALID_HEADER_TOKEN := 11
  const HPE_UNEXPECTED_CONTENT_LENGTH := 5
  const HPE_INVALID_TRANSFER_ENCODING := 12
  const HPE_CLOSED_CONNECTION := 13
  const HPE_INVALID_EOF_STATE := 14

  /** The callbacks that are given data. */
  datatype Kind = Url | HeaderField | HeaderValue | Body

  /** EmptyValue is on_header_value with no bytes, for a header that has no value. */
  datatype Event =
    | MessageBegin | Data(kind: Kind, b: Byte) | EmptyValue | HeadersComplete
    | ChunkHeader(size: nat) | ChunkComplete | MessageComplete

  datatype At =
    | Method(m: M.State) | SpacesBeforeUrl | InUrl(u: U.State)
    | HttpStart | Expect(rest: seq<Byte>) | Major | Dot | Minor | HttpEnd | LineAlmostDone
    | FieldStart | Field | DiscardWs | DiscardWsAlmostDone | DiscardLws | Value | AlmostDone | ValueLws
    | HeadersAlmostDone | InBody | Dead

  type Length = n: nat | n <= B.ULLONG_MAX

  datatype Flags = Flags(
    chunked: bool, transferEncoding: bool, contentLength: bool, length: Length,
    upgrade: bool, connectionUpgrade: bool, close: bool, keepAlive: bool)

  /** The bytes of the headers so far, with the states they were read in. */
  type Text = seq<(At, Byte)>

  /** What the parser makes of a method, which is `HttpMethod.Step`, and of the headers: 0, or the error
      that the last byte of the text is refused with, and the flags that a text stands for. */
  datatype Meaning = Meaning(verb: (M.State, char) -> M.State, refuses: Text -> int, flags: Text -> Flags)

  datatype Parser = Parser(
    at: At, body: B.Parser, head: Text, major: nat, minor: nat, connect: bool, source: bool, trailing: bool)

  type Res = Out<Parser, Event>

  function Go(p: Parser): Res { Out(p, [], Going) }

  function Refuse(p: Parser, code: int): Res { Out(p, [], Refused(code)) }

  // ---------- Characters

  /** STRICT_TOKEN */
  predicate IsToken(b: Byte) {
    || U.IsAlpha(b) || D.IsNum(b) || b == 33 || 35 <= b <= 39 || b == 42 || b == 43 || b == 45 || b == 46
    || 94 <= b <= 96 || b == 124 || b == 126
  }

  /** Section 3.2.6 of RFC 7230. */
  lemma TokenExactly(b: Byte)
    ensures var c := b as char;
      IsToken(b) <==> 'a' <= c <= 'z' || 'A' <= c <= 'Z' || '0' <= c <= '9' || c in "!#$%&'*+-.^_`|~"
  {}

  predicate IsBlank(b: Byte) { b == SPACE || b == TAB }

  predicate IsHeaderChar(b: Byte) { b == CR || b == LF || b == TAB || (b > 31 && b != 127) }

  // ---------- The request line

  function StepMethod(env: Meaning, p: Parser, b: Byte): Res
    requires p.at.Method?
  {
    match env.verb(p.at.m, b as char)
    case Invalid => Refuse(p, HPE_INVALID_METHOD)
    case Url(m) => Go(p.(at := SpacesBeforeUrl, connect := m == M.CONNECT, source := m == M.SOURCE))
    case Start => Go(p)
    case Reading(m, i) =>
      var p' := p.(at := Method(M.Reading(m, i)));
      if p.at.m.Start? then Out(p'.(head := [], trailing := false), [MessageBegin], Going) else Go(p')
  }

  /** A character of the URL. */
  function UrlByte(p: Parser, u: U.State, b: Byte): Res {
    if U.UrlChar(u, b) == U.Dead then Refuse(p, HPE_INVALID_URL)
    else Out(p.(at := InUrl(U.UrlChar(u, b))), [Data(Url, b)], Going)
  }

  function StepSpaces(p: Parser, b: Byte): Res {
    if b == SPACE then Go(p) else UrlByte(p, if p.connect then U.ServerStart else U.Spaces, b)
  }

  /** The states of a URL in which it may end. */
  predicate UrlEnds(u: U.State) { !u.Schema? && !u.SchemaSlash? && !u.SchemaSlashSlash? && !u.ServerStart? }

  predicate IsUrlEnd(b: Byte) { b == SPACE || b == CR || b == LF }

  function StepUrl(p: Parser, b: Byte): Res
    requires p.at.InUrl?
  {
    if !IsUrlEnd(b) then UrlByte(p, p.at.u, b)
    else if !UrlEnds(p.at.u) then Refuse(p, HPE_INVALID_URL)
    else if b == SPACE then Go(p.(at := HttpStart))
    else Go(p.(at := if b == CR then LineAlmostDone else FieldStart, major := 0, minor := 9))
  }

  function StepVersion(p: Parser, b: Byte): Res {
    match p.at
    case HttpStart =>
      if b == SPACE then Go(p)
      else if b == 72 then Go(p.(at := Expect([84, 84, 80, U.SLASH])))
      else if b == 73 && p.source then Go(p.(at := Expect([67, 69, U.SLASH])))
      else Refuse(p, HPE_INVALID_CONSTANT)
    case Expect(rest) =>
      if rest == [] || b != rest[0] then Refuse(p, HPE_STRICT)
      else Go(p.(at := if |rest| == 1 then Major else Expect(rest[1..])))
    case Major => if D.IsNum(b) then Go(p.(at := Dot, major := b - 48)) else Refuse(p, HPE_INVALID_VERSION)
    case Dot => if b == DOT then Go(p.(at := Minor)) else Refuse(p, HPE_INVALID_VERSION)
    case Minor => if D.IsNum(b) then Go(p.(at := HttpEnd, minor := b - 48)) else Refuse(p, HPE_INVALID_VERSION)
    case HttpEnd =>
      if b == CR then Go(p.(at := LineAlmostDone))
      else if b == LF then Go(p.(at := FieldStart))
      else Refuse(p, HPE_INVALID_VERSION)
    case _ => if b == LF then Go(p.(at := FieldStart)) else Refuse(p, HPE_LF_EXPECTED)
  }

  // ---------- The end of a message

  function KeepsAlive(env: Meaning, p: Parser): bool {
    if p.major > 0 && p.minor > 0 then !env.flags(p.head).close else env.flags(p.head).keepAlive
  }

  /** NEW_MESSAGE */
  function NewMessage(env: Meaning, p: Parser): At { if KeepsAlive(env, p) then Method(M.Start) else Dead }

  predicate Upgrades(env: Meaning, p: Parser) {
    var f := env.flags(p.head);
    if f.upgrade && f.connectionUpgrade then true else p.connect
  }

  function Complete(env: Meaning, p: Parser, e: Event, upgrade: bool): Res {
    Out(p.(at := NewMessage(env, p)), [e, MessageComplete], if upgrade then Closed else Going)
  }

  function BodyFrom(p: Parser, at: B.At, left: nat, upgrade: bool): Res {
    Out(p.(at := InBody, body := B.Parser(at, left, 0, upgrade)), [HeadersComplete], Going)
  }

  /** s_headers_done */
  function HeadersDone(env: Meaning, p: Parser): Res {
    var f, up := env.flags(p.head), Upgrades(env, p);
    var hasBody := f.chunked || (f.length > 0 && f.length != B.ULLONG_MAX);
    if up && (p.connect || !hasBody) then Complete(env, p, HeadersComplete, true)
    else if f.chunked then BodyFrom(p, B.ChunkSizeStart, f.length, up)
    else if f.transferEncoding then Out(p, [HeadersComplete], Refused(HPE_INVALID_TRANSFER_ENCODING))
    else if hasBody then BodyFrom(p, B.BodyIdentity, f.length, up)
    else Complete(env, p, HeadersComplete, false)
  }

  /** s_headers_almost_done */
  function StepHeadersAlmostDone(env: Meaning, p: Parser, b: Byte): Res {
    if b != LF then Refuse(p, HPE_STRICT)
    else if p.trailing then Complete(env, p, ChunkComplete, p.body.upgrade)
    else if env.flags(p.head).transferEncoding &&
      env.flags(p.head).contentLength then Refuse(p, HPE_UNEXPECTED_CONTENT_LENGTH)
    else HeadersDone(env, p)
  }

  // ---------- Headers

  /** A byte that the meaning of the headers may refuse. */
  function Note(env: Meaning, p: Parser, b: Byte, at: At, es: seq<Event>): Res {
    var head := p.head + [(p.at, b)];
    if env.refuses(head) != 0 then Refuse(p, env.refuses(head)) else Out(p.(at := at, head := head), es, Going)
  }

  function StepFieldStart(env: Meaning, p: Parser, b: Byte): Res {
    if b == CR then Go(p.(at := HeadersAlmostDone))
    else if b == LF then StepHeadersAlmostDone(env, p.(at := HeadersAlmostDone), b)
    else if IsToken(b) then Note(env, p, b, Field, [Data(HeaderField, b)])
    else Refuse(p, HPE_INVALID_HEADER_TOKEN)
  }

  function StepField(env: Meaning, p: Parser, b: Byte): Res {
    if IsToken(b) then Note(env, p, b, Field, [Data(HeaderField, b)])
    else if b == U.COLON then Go(p.(at := DiscardWs))
    else Refuse(p, HPE_INVALID_HEADER_TOKEN)
  }

  function StepDiscardWs(env: Meaning, p: Parser, b: Byte): Res {
    if IsBlank(b) then Go(p)
    else if b == CR then Go(p.(at := DiscardWsAlmostDone))
    else if b == LF then Go(p.(at := DiscardLws))
    else Note(env, p, b, Value, [Data(HeaderValue, b)])
  }

  function StepValue(env: Meaning, p: Parser, b: Byte): Res {
    if b == CR then Go(p.(at := AlmostDone))
    else if b == LF then Go(p.(at := ValueLws))
    else if !IsHeaderChar(b) then Refuse(p, HPE_INVALID_HEADER_TOKEN)
    else Note(env, p, b, Value, [Data(HeaderValue, b)])
  }

  /** The header is over; `b` begins the next line. */
  function NextLine(env: Meaning, p: Parser, b: Byte, es: seq<Event>): Res {
    var head := p.head + [(p.at, b)];
    if env.refuses(head) != 0 then Refuse(p, env.refuses(head))
    else
      var o := StepFieldStart(env, p.(at := FieldStart, head := head), b);
      o.(events := es + o.events)
  }

  function StepValueLws(env: Meaning, p: Parser, b: Byte): Res {
    if IsBlank(b) then Note(env, p, b, Value, [Data(HeaderValue, b)]) else NextLine(env, p, b, [])
  }

  function StepDiscardLws(env: Meaning, p: Parser, b: Byte): Res {
    if IsBlank(b) then Go(p.(at := DiscardWs)) else NextLine(env, p, b, [EmptyValue])
  }

  // ---------- The body

  function Lift(e: B.Event): Event {
    match e
    case ChunkHeader(n) => ChunkHeader(n)
    case Body(b) => Data(Body, b)
    case ChunkComplete => ChunkComplete
    case MessageComplete => MessageComplete
  }

  function LiftAll(es: seq<B.Event>): seq<Event> { if es == [] then [] else [Lift(es[0])] + LiftAll(es[1..]) }

  predicate TrailerField(p: B.Parser, b: Byte) { p.at == B.Trailer && b != CR && b != LF }

  function StepBody(env: Meaning, p: Parser, b: Byte): Res {
    if TrailerField(p.body, b) then StepFieldStart(env, p.(at := FieldStart, trailing := true), b)
    else
      var o := B.Step(p.body, b);
      Out(p.(body := o.p, at := if o.p.at == B.NewMessage then NewMessage(env, p) else InBody), LiftAll(o.events),
        o.status)
  }

  predicate InLine(at: At) {
    || at.Method? || at.SpacesBeforeUrl? || at.InUrl? || at.HttpStart? || at.Expect? || at.Major? || at.Dot? ||
      at.Minor?
    || at.HttpEnd? || at.LineAlmostDone?
  }

  function StepLine(env: Meaning, p: Parser, b: Byte): Res
    requires InLine(p.at)
  {
    match p.at
    case Method(_) => StepMethod(env, p, b)
    case SpacesBeforeUrl => StepSpaces(p, b)
    case InUrl(_) => StepUrl(p, b)
    case _ => StepVersion(p, b)
  }

  function StepHeader(env: Meaning, p: Parser, b: Byte): Res {
    match p.at
    case FieldStart => StepFieldStart(env, p, b)
    case Field => StepField(env, p, b)
    case DiscardWs => StepDiscardWs(env, p, b)
    case DiscardWsAlmostDone => if b == LF then Go(p.(at := DiscardLws)) else Refuse(p, HPE_STRICT)
    case DiscardLws => StepDiscardLws(env, p, b)
    case Value => StepValue(env, p, b)
    case AlmostDone => if b == LF then Go(p.(at := ValueLws)) else Refuse(p, HPE_LF_EXPECTED)
    case ValueLws => StepValueLws(env, p, b)
    case _ => StepHeadersAlmostDone(env, p, b)
  }

  function Step(env: Meaning, p: Parser, b: Byte): Res {
    if InLine(p.at) then StepLine(env, p, b)
    else if p.at == InBody then StepBody(env, p, b)
    else if p.at == Dead then if b == CR || b == LF then Go(p) else Refuse(p, HPE_CLOSED_CONNECTION)
    else StepHeader(env, p, b)
  }

  function Stepper(env: Meaning): (Parser, Byte) -> Res {
    (p: Parser, b: Byte) => Step(env, p, b)
  }

  /** The end of the connection, which http_parser_execute is told by an empty buffer. */
  function AtEnd(p: Parser): Res {
    if p.at == InBody && p.body.at == B.BodyEof then Out(p, [MessageComplete], Going)
    else if p.at == Dead || p.at == Method(M.Start) then Go(p)
    else Refuse(p, HPE_INVALID_EOF_STATE)
  }

  ghost predicate Sound(p: Parser) { p.at == InBody ==> B.Sound(p.body) && p.body.at != B.NewMessage }

  lemma LineSound(env: Meaning, p: Parser, b: Byte)
    requires InLine(p.at)
    ensures Sound(StepLine(env, p, b).p)
  {}

  lemma HeaderSound(env: Meaning, p: Parser, b: Byte)
    requires !InLine(p.at) && p.at != InBody && p.at != Dead
    ensures Sound(StepHeader(env, p, b).p)
  {}

  lemma BodySound(env: Meaning, p: Parser, b: Byte)
    requires Sound(p) && p.at == InBody && StepBody(env, p, b).status == Going
    ensures Sound(StepBody(env, p, b).p)
  {
    if !TrailerField(p.body, b) { B.StepSound(p.body, b); }
  }

  /** The assertions of the body states hold however the body was come to. */
  lemma StepSound(env: Meaning, p: Parser, b: Byte)
    requires Sound(p) && Step(env, p, b).status == Going
    ensures Sound(Step(env, p, b).p)
  {
    if InLine(p.at) {
      LineSound(env, p, b);
    } else if p.at == InBody {
      BodySound(env, p, b);
    } else if p.at != Dead {
      HeaderSound(env, p, b);
    }
  }

  lemma {:induction false} RunSound(env: Meaning, p: Parser, s: seq<Byte>)
    requires Sound(p) && Run(Stepper(env), p, s).status == Going
    ensures Sound(Run(Stepper(env), p, s).p)
    decreases |s|
  {
    if s != [] {
      StepSound(env, p, s[0]);
      RunSound(env, Step(env, p, s[0]).p, s[1..]);
    }
  }
}
