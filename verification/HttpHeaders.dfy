/** What the headers of a request mean (header_state and flags in http_parser.c): which names and values the parser
    knows, and the flags and the length they set.  The lenient mode is off. */
module HttpHeaders {
  import opened ByteStream
  import opened HttpMessage
  import B = HttpBody
  import D = Decimal
  import L = HttpLength
  import M = HttpMethod

  datatype Name = Connection | ProxyConnection | ContentLength | TransferEncoding | Upgrade

  datatype Option = KeepAlive | Close | Upgraded

  function Spelling(w: Name): string {
    match w
    case Connection => "connection"
    case ProxyConnection => "proxy-connection"
    case ContentLength => "content-length"
    case TransferEncoding => "transfer-encoding"
    case Upgrade => "upgrade"
  }

  const CHUNKED := "chunked"

  function OptionSpelling(o: Option): string {
    match o
    case KeepAlive => "keep-alive"
    case Close => "close"
    case Upgraded => "upgrade"
  }

  /** header_state: in a name, at its end, and in a value. */
  datatype State =
    | General | LetterC | LettersCo | LettersCon | Matching(w: Name) | Named(w: Name)
    | LengthNum | LengthWs
    | CodingStart | MatchingChunked | Coding | Chunked
    | OptionStart | MatchingOption(o: Option) | OptionToken | Found(o: Option)

  /** `code` is the error that the last byte is refused with, or 0. */
  datatype Header = Header(st: State, index: nat, f: Flags, code: int)

  const NO_FLAGS := Flags(false, false, false, B.ULLONG_MAX, false, false, false, false)

  const NO_HEADER := Header(General, 0, NO_FLAGS, 0)

  /** The table of tokens gives the small letter. */
  function Small(b: Byte): Byte { if 65 <= b <= 90 then b + 32 else b }

  /** LOWER, which sets a bit. */
  function Lower(b: Byte): Byte { if b / 32 % 2 == 0 then b + 32 else b }

  // ---------- Names

  /** The first letter of a name. */
  function NameStart(h: Header, b: Byte): Header {
    var c := Small(b) as char;
    h.(index := 0, st :=
      if c == 'c' then LetterC
      else if c == 'p' then Matching(ProxyConnection)
      else if c == 't' then Matching(TransferEncoding)
      else if c == 'u' then Matching(Upgrade)
      else General)
  }

  function NameFound(h: Header, w: Name): Header {
    h.(st := Named(if w == ProxyConnection then Connection else w),
       f := h.f.(transferEncoding := h.f.transferEncoding || w == TransferEncoding))
  }

  /** s_header_field */
  function NameByte(h: Header, b: Byte): Header {
    var c, i := Small(b) as char, h.index + 1;
    match h.st
    case LetterC => h.(index := i, st := if c == 'o' then LettersCo else General)
    case LettersCo => h.(index := i, st := if c == 'n' then LettersCon else General)
    case LettersCon =>
      h.(index := i, st := if c == 'n' then Matching(Connection) else if c == 't' then Matching(ContentLength)
        else General)
    case Matching(w) =>
      if i >= |Spelling(w)| || c != Spelling(w)[i] then h.(index := i, st := General)
      else if i == |Spelling(w)| - 1 then NameFound(h.(index := i), w)
      else h.(index := i)
    case Named(_) => if b != SPACE then h.(st := General) else h
    case _ => h
  }

  // ---------- Values

  function Fail(h: Header, code: int): Header { h.(code := code) }

  /** The digits of a length, and the spaces after them. */
  function LengthByte(h: Header, place: L.Place, b: Byte): Header {
    var o := L.Read(L.Field(place, h.f.length, h.f.contentLength), b);
    if o.status.Refused? then Fail(h, o.status.code)
    else h.(st := if o.p.at == L.Spaces then LengthWs else LengthNum,
            f := h.f.(length := o.p.value, contentLength := o.p.seen))
  }

  function OptionFirst(c: char): State {
    if c == 'k' then MatchingOption(KeepAlive)
    else if c == 'c' then MatchingOption(Close)
    else if c == 'u' then MatchingOption(Upgraded)
    else OptionToken
  }

  /** s_header_value_start */
  function ValueFirst(h0: Header, b: Byte): Header {
    var h, c := h0.(index := 0), Lower(b) as char;
    match h.st
    case Named(Upgrade) => h.(st := General, f := h.f.(upgrade := true))
    case Named(TransferEncoding) => h.(st := if c == 'c' then MatchingChunked else Coding)
    case Named(ContentLength) => LengthByte(h, L.Before, b)
    case Named(Connection) => h.(st := OptionFirst(c))
    case CodingStart | LengthWs | OptionStart => h
    case _ => h.(st := General)
  }

  function SetOption(h: Header, o: Option): Header {
    match o
    case KeepAlive => h.(f := h.f.(keepAlive := true))
    case Close => h.(f := h.f.(close := true))
    case Upgraded => h.(f := h.f.(connectionUpgrade := true))
  }

  const COMMA: Byte := 44

  function CodingByte(h: Header, b: Byte): Header {
    var c, i := Lower(b), h.index + 1;
    match h.st
    case CodingStart =>
      if c == 99 then h.(st := MatchingChunked)
      else if IsToken(c) then h.(st := Coding)
      else if IsBlank(c) then h
      else h.(st := General)
    case MatchingChunked =>
      if i >= |CHUNKED| || c as char != CHUNKED[i] then h.(index := i, st := Coding)
      else if i == |CHUNKED| - 1 then h.(index := i, st := Chunked)
      else h.(index := i)
    case Coding => if b == COMMA then h.(st := CodingStart, index := 0) else h
    case _ => if b != SPACE then h.(st := Coding) else h
  }

  function OptionByte(h: Header, b: Byte): Header {
    var c, i := Lower(b), h.index + 1;
    match h.st
    case OptionStart =>
      if OptionFirst(c as char) != OptionToken || IsToken(c) then h.(st := OptionFirst(c as char))
      else if IsBlank(c) then h
      else h.(st := General)
    case MatchingOption(o) =>
      if i >= |OptionSpelling(o)| || c as char != OptionSpelling(o)[i] then h.(index := i, st := OptionToken)
      else if i == |OptionSpelling(o)| - 1 then h.(index := i, st := Found(o))
      else h.(index := i)
    case Found(o) =>
      if b == COMMA then SetOption(h, o).(st := OptionStart, index := 0)
      else if b != SPACE then h.(st := OptionToken)
      else h
    case _ => if b == COMMA then h.(st := OptionStart, index := 0) else h
  }

  /** s_header_value */
  function ValueByte(h: Header, b: Byte): Header {
    match h.st
    case Named(ContentLength) => if b == SPACE then h else LengthByte(h, L.Digits, b)
    case LengthNum => LengthByte(h, L.Digits, b)
    case LengthWs => LengthByte(h, L.Spaces, b)
    case CodingStart | MatchingChunked | Coding | Chunked => CodingByte(h, b)
    case OptionStart | MatchingOption(_) | OptionToken | Found(_) => OptionByte(h, b)
    case _ => h.(st := General)
  }

  /** A value from its first byte to its last. */
  function ValueRun(h: Header, v: seq<Byte>): Header
    requires v != []
  {
    if |v| == 1 then ValueFirst(h, v[0]) else ValueByte(ValueRun(h, v[..|v| - 1]), v[|v| - 1])
  }

  /** The end of a header. */
  function HeaderEnd(h: Header): Header {
    match h.st
    case Found(o) => SetOption(h, o)
    case Chunked => h.(f := h.f.(chunked := true))
    case _ => h
  }

  /** A byte of the headers, by the state it is read in. */
  function Note(h: Header, at: At, b: Byte): Header {
    match at
    case FieldStart => NameStart(h, b)
    case Field => NameByte(h, b)
    case DiscardWs => ValueFirst(h, b)
    case Value => ValueByte(h, b)
    case ValueLws =>
      if IsBlank(b) then ValueFirst(if h.st == LengthNum then h.(st := LengthWs) else h, b) else HeaderEnd(h)
    case DiscardLws => if h.st == Named(ContentLength) then Fail(h, B.HPE_INVALID_CONTENT_LENGTH) else HeaderEnd(h)
    case _ => h
  }

  function Noted(text: Text): Header {
    if text == [] then NO_HEADER else
    var last := text[|text| - 1];
    Note(Noted(text[..|text| - 1]), last.0, last.1)
  }

  lemma NotedMore(text: Text, at: At, b: Byte)
    ensures Noted(text + [(at, b)]) == Note(Noted(text), at, b)
  {
    assert (text + [(at, b)])[..|text|] == text;
  }

  /** The parser as it is. */
  const REAL := Meaning(M.Step, (text: Text) => Noted(text).code, (text: Text) => Noted(text).f)

  // ---------- Which names are known

  function Smalls(s: seq<Byte>): string { seq(|s|, i requires 0 <= i < |s| => Small(s[i]) as char) }

  ghost predicate Fits(t: string) { exists w :: t <= Spelling(w) }

  /** The state of the parser when it has read `t` of a name. */
  ghost predicate NameOk(h: Header, t: string) {
    && t != []
    && (h.st != General && !h.st.Named? ==> h.index == |t| - 1)
    && match h.st
       case General => !Fits(t)
       case LetterC => t == "c"
       case LettersCo => t == "co"
       case LettersCon => t == "con"
       case Matching(w) => t < Spelling(w) && (w == Connection || w == ContentLength ==> |t| >= 4)
       case Named(w) => w != ProxyConnection &&
         (t == Spelling(w) || (w == Connection && t == Spelling(ProxyConnection)))
       case _ => false
  }

  function NameRun(h: Header, name: seq<Byte>): Header
    requires name != []
  {
    if |name| == 1 then NameStart(h, name[0]) else NameByte(NameRun(h, name[..|name| - 1]), name[|name| - 1])
  }

  lemma FirstOk(h: Header, b: Byte, t: string)
    requires t == [Small(b) as char]
    ensures NameOk(NameStart(h, b), t) && NameStart(h, b).f == h.f
  {
    var h' := NameStart(h, b);
    if h'.st == General {
      forall w ensures !(t <= Spelling(w)) { assert t[0] != Spelling(w)[0]; }
    }
  }

  /** A word that begins another has its letters. */
  lemma Letter(u: string, n: string, i: nat)
    ensures u <= n && i < |u| ==> |u| <= |n| && u[i] == n[i]
  {}

  lemma Shorter(t: string, c: char, n: string)
    ensures t + [c] <= n ==> t <= n
  {
    if t + [c] <= n { assert t <= t + [c] <= n; }
  }

  lemma LongerFits(t: string, c: char)
    requires !Fits(t)
    ensures !Fits(t + [c])
  {
    forall w ensures t + [c] <= Spelling(w) ==> t <= Spelling(w) { Shorter(t, c, Spelling(w)); }
  }

  /** Beyond a whole name nothing fits, and beyond its letters nothing else does. */
  lemma NoneFits(w: Name, t: string, c: char)
    requires t <= Spelling(w) && (w == Connection || w == ContentLength ==> |t| >= 4) && t != []
    requires |t| == |Spelling(w)| || c != Spelling(w)[|t|]
    ensures !Fits(t + [c])
  {
    var u := t + [c];
    assert u[0] == t[0] && u[|t|] == c && (|t| > 3 ==> u[3] == t[3]);
    Letter(t, Spelling(w), 0);
    Letter(t, Spelling(w), 3);
    forall v ensures !(u <= Spelling(v)) {
      Letter(u, Spelling(v), 0);
      Letter(u, Spelling(v), 3);
      Letter(u, Spelling(v), |t|);
    }
  }

  /** The words that begin with "con" part at the fourth letter. */
  lemma NoConFits(t: string, c: char)
    requires (t == "c" && c != 'o') || (t == "co" && c != 'n') || (t == "con" && c != 'n' && c != 't')
    ensures !Fits(t + [c])
  {
    var u := t + [c];
    assert u[0] == 'c' && u[|t|] == c;
    forall w ensures !(u <= Spelling(w)) {
      Letter(u, Spelling(w), 0);
      Letter(u, Spelling(w), |t|);
    }
  }

  lemma OtherWord(w: Name, u: string)
    requires u <= Spelling(w) && u != [] && w != TransferEncoding
    ensures u != Spelling(TransferEncoding)
  {
    assert u[0] == Spelling(w)[0];
  }

  lemma MatchesOn(h: Header, b: Byte, t: string, c: char)
    requires NameOk(h, t) && c == Small(b) as char && h.st.Matching? && c == Spelling(h.st.w)[|t|]
    ensures NameOk(NameByte(h, b), t + [c])
    ensures NameByte(h, b).f == h.f.(transferEncoding := h.f.transferEncoding || t + [c] == Spelling(TransferEncoding))
  {
    var w := h.st.w;
    assert Spelling(w)[..|t| + 1] == t + [c];
    if w != TransferEncoding { OtherWord(w, t + [c]); }
  }

  lemma MatchingOk(h: Header, b: Byte, t: string, c: char)
    requires NameOk(h, t) && c == Small(b) as char && h.st.Matching?
    ensures NameOk(NameByte(h, b), t + [c])
    ensures NameByte(h, b).f == h.f.(transferEncoding := h.f.transferEncoding || t + [c] == Spelling(TransferEncoding))
  {
    var w := h.st.w;
    var n := Spelling(w);
    if c != n[|t|] {
      NoneFits(w, t, c);
      NotFitting(t + [c]);
    } else {
      MatchesOn(h, b, t, c);
    }
  }

  lemma NameStepOk(h: Header, b: Byte, t: string, c: char)
    requires NameOk(h, t) && b != SPACE && c == Small(b) as char
    ensures NameOk(NameByte(h, b), t + [c])
    ensures NameByte(h, b).f == h.f.(transferEncoding := h.f.transferEncoding || t + [c] == Spelling(TransferEncoding))
  {
    match h.st
    case Matching(_) => MatchingOk(h, b, t, c);
    case General =>
      LongerFits(t, c);
      NotFitting(t + [c]);
    case Named(w) =>
      NoneFits(if t == Spelling(w) then w else ProxyConnection, t, c);
      NotFitting(t + [c]);
    case _ => ConOk(h, b, t, c);
  }

  lemma NotFitting(u: string)
    requires !Fits(u)
    ensures forall w :: u != Spelling(w)
  {
    forall w ensures u != Spelling(w) { assert Spelling(w) <= Spelling(w); }
  }

  lemma ConOk(h: Header, b: Byte, t: string, c: char)
    requires NameOk(h, t) && c == Small(b) as char && (h.st.LetterC? || h.st.LettersCo? || h.st.LettersCon?)
    ensures NameOk(NameByte(h, b), t + [c]) && NameByte(h, b).f == h.f && t + [c] != Spelling(TransferEncoding)
  {
    assert (t + [c])[0] == 'c';
    if NameByte(h, b).st == General { NoConFits(t, c); }
  }

  predicate IsName(s: seq<Byte>) { s != [] && forall i :: 0 <= i < |s| ==> IsToken(s[i]) }

  lemma {:induction false} NameRunOk(h: Header, name: seq<Byte>)
    requires IsName(name)
    ensures NameOk(NameRun(h, name), Smalls(name))
    ensures NameRun(h, name).f == h.f.(transferEncoding := h.f.transferEncoding ||
              Spelling(TransferEncoding) <= Smalls(name)) && NameRun(h, name).code == h.code
    decreases |name|
  {
    var t := Smalls(name);
    if |name| == 1 {
      FirstOk(h, name[0], t);
    } else {
      var front, b := name[..|name| - 1], name[|name| - 1];
      var u := Smalls(front);
      assert t == u + [Small(b) as char];
      NameRunOk(h, front);
      NameStepOk(NameRun(h, front), b, u, Small(b) as char);
      PrefixMore(Spelling(TransferEncoding), u, Small(b) as char);
    }
  }

  lemma PrefixMore(w: string, u: string, c: char)
    ensures w <= u + [c] <==> w <= u || w == u + [c]
  {
    if w <= u + [c] && |w| <= |u| { assert w == (u + [c])[..|w|] == u[..|w|]; }
  }

  /** A name is taken for one that the parser knows if and only if it is that name, in small letters or large; but the
      flag for a transfer encoding is set by every name that begins like that one. */
  lemma NameExactly(h: Header, name: seq<Byte>, w: Name)
    requires IsName(name) && w != ProxyConnection
    ensures NameRun(h, name).st == Named(w) <==>
      Smalls(name) == Spelling(w) || (w == Connection && Smalls(name) == Spelling(ProxyConnection))
    ensures NameRun(h, name).f.transferEncoding <==>
      h.f.transferEncoding || Spelling(TransferEncoding) <= Smalls(name)
  {
    NameRunOk(h, name);
    var t := Smalls(name);
    if t == Spelling(w) { WholeName(NameRun(h, name), t, w); }
    if t == Spelling(ProxyConnection) { WholeName(NameRun(h, name), t, ProxyConnection); }
  }

  lemma NoneLonger(w: Name, v: Name)
    requires |Spelling(w)| < |Spelling(v)|
    ensures Spelling(w)[0] != Spelling(v)[0] || Spelling(w)[3] != Spelling(v)[3]
  {}

  lemma WholeName(h: Header, t: string, w: Name)
    requires NameOk(h, t) && t == Spelling(w)
    ensures h.st == Named(if w == ProxyConnection then Connection else w)
  {
    assert t <= Spelling(w);
    match h.st
    case General =>
    case Matching(v) => NoneLonger(w, v);
    case Named(v) =>
      assert Spelling(v)[0] == t[0] || Spelling(ProxyConnection)[0] == t[0];
    case _ =>
  }

  // ---------- The states that the parser takes for impossible

  predicate InName(st: State) {
    st.General? || st.LetterC? || st.LettersCo? || st.LettersCon? || st.Matching? || st.Named?
  }

  /** A name has a state of names, and a value one that its first byte has made a state of values. */
  predicate Expected(p: Parser) {
    var st := Noted(p.head).st;
    match p.at
    case Field | DiscardWs | DiscardWsAlmostDone | DiscardLws => InName(st)
    case Value | AlmostDone | ValueLws => st.General? || !InName(st)
    case _ => true
  }

  lemma NoteExpected(h: Header, b: Byte)
    ensures InName(NameStart(h, b).st)
    ensures InName(h.st) ==> InName(NameByte(h, b).st)
    ensures var st := ValueFirst(h, b).st; ValueFirst(h, b).code == 0 ==> st.General? || !InName(st)
    ensures h.st.General? || !InName(h.st) ==> var st := ValueByte(h, b).st; st.General? || !InName(st)
  {}

  /** The states in which no header is being read. */
  predicate NoHeader(at: At) { InLine(at) || at == FieldStart || at == HeadersAlmostDone || at == InBody || at == Dead }

  predicate NameEnd(at: At) { at == DiscardWs || at == DiscardWsAlmostDone || at == DiscardLws }

  /** How a step changes the text of the headers: not at all, by its byte, or twice by its byte. */
  predicate Moves(env: Meaning, p: Parser, b: Byte, p': Parser) {
    || (p'.head == p.head &&
          (NoHeader(p'.at) || ((p.at == Field || NameEnd(p.at)) && NameEnd(p'.at)) ||
             ((p.at == Value || p.at == AlmostDone) && (p'.at == AlmostDone || p'.at == ValueLws))))
    || (p'.head == p.head + [(p.at, b)] && env.refuses(p'.head) == 0 &&
          (NoHeader(p'.at) || ((p.at == FieldStart || p.at == Field) && p'.at == Field) ||
             ((p.at == DiscardWs || p.at == Value || (p.at == ValueLws && IsBlank(b))) && p'.at == Value)))
    || (p'.head == p.head + [(p.at, b)] + [(FieldStart, b)] && p'.at == Field)
  }

  lemma HeadEndMoves(env: Meaning, p: Parser, b: Byte)
    requires StepHeadersAlmostDone(env, p, b).status == Going
    ensures var p' := StepHeadersAlmostDone(env, p, b).p; p'.head == p.head && NoHeader(p'.at)
  {}

  lemma LineMoves(env: Meaning, p: Parser, b: Byte)
    requires p.at == FieldStart && StepFieldStart(env, p, b).status == Going
    ensures var p' := StepFieldStart(env, p, b).p;
      || (p'.head == p.head && NoHeader(p'.at))
      || (p'.head == p.head + [(FieldStart, b)] && env.refuses(p'.head) == 0 && p'.at == Field)
  {
    if b == LF { HeadEndMoves(env, p.(at := HeadersAlmostDone), b); }
  }

  lemma NextLineMoves(env: Meaning, p: Parser, b: Byte, es: seq<Event>)
    requires NextLine(env, p, b, es).status == Going
    ensures Moves(env, p, b, NextLine(env, p, b, es).p)
  {
    LineMoves(env, p.(at := FieldStart, head := p.head + [(p.at, b)]), b);
  }

  lemma HeaderMoves(env: Meaning, p: Parser, b: Byte)
    requires !InLine(p.at) && p.at != InBody && p.at != Dead && StepHeader(env, p, b).status == Going
    ensures Moves(env, p, b, StepHeader(env, p, b).p)
  {
    match p.at
    case FieldStart => LineMoves(env, p, b);
    case ValueLws => if !IsBlank(b) { NextLineMoves(env, p, b, []); }
    case DiscardLws => if !IsBlank(b) { NextLineMoves(env, p, b, [EmptyValue]); }
    case HeadersAlmostDone => HeadEndMoves(env, p, b);
    case _ =>
  }

  lemma ByteExpected(p: Parser, b: Byte, p': Parser)
    requires Expected(p) && p'.head == p.head + [(p.at, b)] && Noted(p'.head).code == 0
    requires ((p.at == FieldStart || p.at == Field) && p'.at == Field) ||
             ((p.at == DiscardWs || p.at == Value || (p.at == ValueLws && IsBlank(b))) && p'.at == Value)
    ensures Expected(p')
  {
    var h := Noted(p.head);
    NotedMore(p.head, p.at, b);
    NoteExpected(h, b);
    NoteExpected(if h.st == LengthNum then h.(st := LengthWs) else h, b);
  }

  lemma LineExpected(text: Text, b: Byte)
    ensures InName(Noted(text + [(FieldStart, b)]).st)
  {
    NotedMore(text, FieldStart, b);
    NoteExpected(Noted(text), b);
  }

  lemma MoveExpected(env: Meaning, p: Parser, b: Byte, p': Parser)
    requires Expected(p) && Moves(env, p, b, p') && env.refuses == REAL.refuses
    ensures Expected(p')
  {
    if p'.head == p.head || NoHeader(p'.at) {
    } else if p'.head == p.head + [(p.at, b)] {
      ByteExpected(p, b, p');
    } else {
      LineExpected(p.head + [(p.at, b)], b);
    }
  }

  /** The parser is never in a header_state that it takes for impossible where it stands. */
  lemma StepExpected(env: Meaning, p: Parser, b: Byte)
    requires Expected(p) && env.refuses == REAL.refuses && Step(env, p, b).status == Going
    ensures Expected(Step(env, p, b).p)
  {
    if InLine(p.at) {
      RequestLineMoves(env, p, b);
    } else if p.at == InBody {
      BodyExpected(env, p, b);
    } else if p.at == Dead {
    } else {
      HeaderMoves(env, p, b);
      MoveExpected(env, p, b, StepHeader(env, p, b).p);
    }
  }

  lemma RequestLineMoves(env: Meaning, p: Parser, b: Byte)
    requires InLine(p.at)
    ensures NoHeader(StepLine(env, p, b).p.at)
  {}

  lemma BodyExpected(env: Meaning, p: Parser, b: Byte)
    requires p.at == InBody && StepBody(env, p, b).status == Going
    ensures Expected(StepBody(env, p, b).p)
  {
    if TrailerField(p.body, b) {
      LineMoves(env, p.(at := FieldStart, trailing := true), b);
      LineExpected(p.head, b);
    }
  }

  lemma {:induction false} RunExpected(p: Parser, s: seq<Byte>)
    requires Expected(p) && Run(Stepper(REAL), p, s).status == Going
    ensures Expected(Run(Stepper(REAL), p, s).p)
    decreases |s|
  {
    if s != [] {
      StepExpected(REAL, p, s[0]);
      RunExpected(Step(REAL, p, s[0]).p, s[1..]);
    }
  }
}
