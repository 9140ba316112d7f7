/** A whole request with a Content-Length, from its first byte to its last: what the callbacks are told. */
module HttpRequests {
  import opened ByteStream
  import opened Hearing
  import opened HttpMessage
  import opened HttpHeaders
  import B = HttpBody
  import D = Decimal
  import L = HttpLength
  import M = HttpMethod
  import R = HttpReader
  import P = HttpUrlParts
  import S = HttpStreams
  import U = HttpUrl
  import V = HttpValues

  type Stepping = (Parser, Byte) -> Res

  /** To ask what a step does with a byte. */
  predicate Asked(p: Parser, b: Byte) { true }

  ghost predicate Real(step: Stepping) {
    forall p: Parser, b: Byte {:trigger Asked(p, b)} :: Asked(p, b) ==> step(p, b) == Step(REAL, p, b)
  }

  // ---------- Stretches

  lemma RunThen(step: Stepping, p: Parser, a: seq<Byte>, p1: Parser, e1: seq<Event>, b: seq<Byte>, p2: Parser,
                e2: seq<Event>)
    requires Run(step, p, a) == Out(p1, e1, Going) && Run(step, p1, b) == Out(p2, e2, Going)
    ensures Run(step, p, a + b) == Out(p2, e1 + e2, Going)
  {
    RunConcat(step, p, a, b);
  }

  /** One byte more. */
  lemma RunMore(step: Stepping, p: Parser, a: seq<Byte>, p1: Parser, e1: seq<Event>, b: Byte, p2: Parser,
                e2: seq<Event>)
    requires Run(step, p, a) == Out(p1, e1, Going) && step(p1, b) == Out(p2, e2, Going)
    ensures Run(step, p, a + [b]) == Out(p2, e1 + e2, Going)
  {
    RunOne(step, p1, b);
    RunThen(step, p, a, p1, e1, [b], p2, e2);
  }

  /** A byte that tells nothing. */
  lemma Quietly(step: Stepping, p: Parser, b: Byte, p': Parser, rest: seq<Byte>)
    requires step(p, b) == Go(p')
    ensures Run(step, p, [b] + rest) == Run(step, p', rest)
  {
    RunOne(step, p, b);
    RunOn(step, p, [b], p', rest);
  }

  // ---------- The request line

  function Chars(s: seq<Byte>): string { seq(|s|, i requires 0 <= i < |s| => s[i] as char) }

  /** The parser in the middle of the method. */
  function InMethod(p: Parser, t: string): Parser { p.(at := Method(M.Run(M.Start, t)), head := [], trailing := false) }

  lemma MethodByte(step: Stepping, p: Parser, t: string, b: Byte)
    requires Real(step)
    requires p.at == Method(M.Run(M.Start, t)) && (t == [] || M.Run(M.Start, t).Reading?)
    requires M.Run(M.Start, t + [b as char]).Reading?
    ensures step(p, b) ==
      if t == [] then Out(InMethod(p, t + [b as char]), [MessageBegin], Going)
      else Go(p.(at := Method(M.Run(M.Start, t + [b as char]))))
  {
    assert Asked(p, b);
    assert (t + [b as char])[..|t|] == t;
  }

  /** A word that the recogniser reads to its end. */
  ghost predicate Readable(n: string) { forall k :: 0 < k <= |n| ==> M.Run(M.Start, n[..k]).Reading? }

  lemma NameReadable(m: M.Method)
    ensures Readable(M.Name(m))
  {
    forall k | 0 < k <= |M.Name(m)| ensures M.Run(M.Start, M.Name(m)[..k]).Reading? { M.Reaches(m, k); }
  }

  lemma MethodLetter(step: Stepping, p: Parser, n: string, i: nat, b: Byte)
    requires Real(step) && Readable(n) && i < |n| && b as char == n[i] && p.at == Method(M.Run(M.Start, n[..i]))
    ensures step(p, b) ==
      if i == 0 then Out(InMethod(p, n[..i + 1]), [MessageBegin], Going)
      else Go(p.(at := Method(M.Run(M.Start, n[..i + 1]))))
  {
    assert n[..i + 1] == n[..i] + [b as char];
    MethodByte(step, p, n[..i], b);
  }

  lemma {:induction false} ReadMethodPart(step: Stepping, p: Parser, name: seq<Byte>, n: string, i: nat)
    requires Real(step) && p.at == Method(M.Start) && Chars(name) == n && Readable(n) && 1 <= i <= |name|
    ensures Run(step, p, name[..i]) == Out(InMethod(p, n[..i]), [MessageBegin], Going)
    decreases i
  {
    var b, p1 := name[i - 1], InMethod(p, n[..i - 1]);
    assert b as char == Chars(name)[i - 1] && name[..i] == name[..i - 1] + [b];
    if i == 1 {
      assert name[..i] == [b] && n[..0] == [];
      MethodLetter(step, p, n, 0, b);
      RunOne(step, p, b);
    } else {
      ReadMethodPart(step, p, name, n, i - 1);
      MethodLetter(step, p1, n, i - 1, b);
      RunMore(step, p, name[..i - 1], p1, [MessageBegin], b, InMethod(p, n[..i]), []);
    }
  }

  /** The parser at the URL. */
  function AtUrl(p: Parser, m: M.Method): Parser {
    p.(at := SpacesBeforeUrl, head := [], trailing := false, connect := m == M.CONNECT, source := m == M.SOURCE)
  }

  lemma MethodEnd(step: Stepping, p: Parser, n: string, m: M.Method)
    requires Real(step) && M.Run(M.Start, n + " ") == M.Url(m)
    ensures step(InMethod(p, n), SPACE) == Go(AtUrl(p, m))
  {
    assert (n + " ")[..|n|] == n;
    assert Asked(InMethod(p, n), SPACE);
  }

  lemma ReadMethod(step: Stepping, p: Parser, name: seq<Byte>, m: M.Method)
    requires Real(step) && p.at == Method(M.Start) && Chars(name) == M.Name(m)
    ensures Run(step, p, name + [SPACE]) == Out(AtUrl(p, m), [MessageBegin], Going)
  {
    var n := Chars(name);
    M.NoSpaces(m);
    NameReadable(m);
    ReadMethodPart(step, p, name, n, |name|);
    assert name[..|name|] == name && n[..|name|] == n;
    M.UrlAfterName(m);
    MethodEnd(step, p, n, m);
    RunMore(step, p, name, InMethod(p, n), [MessageBegin], SPACE, AtUrl(p, m), []);
  }

  lemma {:induction false} AliveBefore(s: U.State, url: seq<Byte>, i: nat)
    requires i <= |url| && U.UrlRun(s, url, |url|) != U.Dead
    ensures U.UrlRun(s, url, i) != U.Dead
  {
    if U.UrlRun(s, url, i) == U.Dead { U.DeadStays(s, url, i, |url|); }
  }

  /** CONNECT has a host and a port in place of a URL. */
  function UrlStart(connect: bool): U.State { if connect then U.ServerStart else U.Spaces }

  lemma UrlStep(step: Stepping, p: Parser, u: U.State, b: Byte, p': Parser)
    requires Real(step) && (if p.at == SpacesBeforeUrl then u == UrlStart(p.connect) else p.at == InUrl(u))
    requires U.UrlChar(u, b) != U.Dead && p' == p.(at := InUrl(U.UrlChar(u, b)))
    ensures step(p, b) == Out(p', [Data(Url, b)], Going)
  {
    NoSpaceInUrl(u, b);
    assert Asked(p, b);
  }

  lemma NoSpaceInUrl(u: U.State, b: Byte)
    requires U.UrlChar(u, b) != U.Dead
    ensures !IsUrlEnd(b)
  {}

  lemma {:induction false} ReadUrlPart(step: Stepping, p: Parser, url: seq<Byte>, i: nat)
    requires Real(step) && p.at == SpacesBeforeUrl
    requires U.UrlRun(UrlStart(p.connect), url, |url|) != U.Dead && 1 <= i <= |url|
    ensures Run(step, p, url[..i]) ==
            Out(p.(at := InUrl(U.UrlRun(UrlStart(p.connect), url, i))), R.DataEvents(Url, url[..i]), Going)
    decreases i
  {
    var u := UrlStart(p.connect);
    AliveBefore(u, url, i);
    var b := url[i - 1];
    var p1, p' := p.(at := InUrl(U.UrlRun(u, url, i - 1))), p.(at := InUrl(U.UrlRun(u, url, i)));
    assert url[..i] == url[..i - 1] + [b];
    R.OneMore(Url, url[..i - 1], b);
    if i == 1 {
      assert url[..i] == [b] && R.DataEvents(Url, []) == [];
      UrlStep(step, p, u, b, p');
      RunOne(step, p, b);
    } else {
      ReadUrlPart(step, p, url, i - 1);
      UrlStep(step, p1, U.UrlRun(u, url, i - 1), b, p');
      RunMore(step, p, url[..i - 1], p1, R.DataEvents(Url, url[..i - 1]), b, p', [Data(Url, b)]);
    }
  }

  /** A URL that the parser takes from its first byte to the space after it. */
  predicate GoodUrl(url: seq<Byte>, connect: bool) {
    var u := U.UrlRun(UrlStart(connect), url, |url|);
    url != [] && u != U.Dead && UrlEnds(u)
  }

  /** What comes after the URL, and the states it is read in. */
  function VersionBytes(major: Byte, minor: Byte): (s: seq<Byte>)
    ensures |s| == 11
  {
    [32, 72, 84, 84, 80, 47, major, 46, minor, 13, 10]
  }

  function Letters(k: nat): seq<Byte> {
    if k == 0 then [84, 84, 80, U.SLASH] else if k == 1 then [84, 80, U.SLASH] else if k == 2 then [80, U.SLASH]
      else [U.SLASH]
  }

  function InVersion(p: Parser, major: Byte, minor: Byte, k: nat): Parser
    requires k <= 11 && D.IsNum(major) && D.IsNum(minor)
  {
    if k == 0 then p
    else if k == 1 then p.(at := HttpStart)
    else if k <= 5 then p.(at := Expect(Letters(k - 2)))
    else if k == 6 then p.(at := Major)
    else if k == 7 then p.(at := Dot, major := major - 48)
    else if k == 8 then p.(at := Minor, major := major - 48)
    else p.(at := if k == 9 then HttpEnd else if k == 10 then LineAlmostDone else FieldStart,
            major := major - 48, minor := minor - 48)
  }

  predicate InVersionState(at: At) {
    at.HttpStart? || at.Expect? || at.Major? || at.Dot? || at.Minor? || at.HttpEnd? || at.LineAlmostDone?
  }

  lemma VersionState(step: Stepping, p: Parser, b: Byte)
    requires Real(step) && InVersionState(p.at)
    ensures step(p, b) == StepVersion(p, b)
  {
    assert Asked(p, b);
  }

  lemma ExpectStep(p: Parser, k: nat)
    requires k < 4
    ensures StepVersion(p.(at := Expect(Letters(k))), Letters(k)[0]) ==
      Go(p.(at := if k == 3 then Major else Expect(Letters(k + 1))))
  {
    assert k < 3 ==> Letters(k)[1..] == Letters(k + 1);
  }

  lemma HttpByte(step: Stepping, p: Parser, major: Byte, minor: Byte, k: nat)
    requires Real(step) && p.at.InUrl? && UrlEnds(p.at.u) && D.IsNum(major) && D.IsNum(minor) && k < 6
    ensures step(InVersion(p, major, minor, k), VersionBytes(major, minor)[k]) == Go(InVersion(p, major, minor, k + 1))
  {
    if k == 0 {
      assert Asked(p, SPACE);
    } else {
      VersionState(step, InVersion(p, major, minor, k), VersionBytes(major, minor)[k]);
      if k > 1 { ExpectStep(p, k - 2); }
    }
  }

  lemma NumberByte(step: Stepping, p: Parser, major: Byte, minor: Byte, k: nat)
    requires Real(step) && D.IsNum(major) && D.IsNum(minor) && 6 <= k < 11
    ensures step(InVersion(p, major, minor, k), VersionBytes(major, minor)[k]) == Go(InVersion(p, major, minor, k + 1))
  {
    VersionState(step, InVersion(p, major, minor, k), VersionBytes(major, minor)[k]);
  }

  /** Bytes that tell nothing, with the states they lead through. */
  lemma {:induction false} ReadQuietly(step: Stepping, ps: seq<Parser>, v: seq<Byte>)
    requires |ps| == |v| + 1 && forall i :: 0 <= i < |v| ==> step(ps[i], v[i]) == Go(ps[i + 1])
    ensures Run(step, ps[0], v) == Go(ps[|v|])
    decreases |v|
  {
    if v != [] {
      assert v == [v[0]] + v[1..];
      assert step(ps[0], v[0]) == Go(ps[1]);
      Quietly(step, ps[0], v[0], ps[1], v[1..]);
      forall i | 0 <= i < |v[1..]| ensures step(ps[1..][i], v[1..][i]) == Go(ps[1..][i + 1]) {
        assert step(ps[i + 1], v[i + 1]) == Go(ps[i + 2]);
      }
      ReadQuietly(step, ps[1..], v[1..]);
    }
  }

  lemma ReadVersion(step: Stepping, p: Parser, major: Byte, minor: Byte)
    requires Real(step) && p.at.InUrl? && UrlEnds(p.at.u) && D.IsNum(major) && D.IsNum(minor)
    ensures Run(step, p, VersionBytes(major, minor)) == Go(InVersion(p, major, minor, 11))
  {
    var v := VersionBytes(major, minor);
    var ps := seq(12, (k: nat) requires k <= 11 => InVersion(p, major, minor, k));
    forall k | 0 <= k < 11 ensures step(ps[k], v[k]) == Go(ps[k + 1]) {
      if k < 6 { HttpByte(step, p, major, minor, k); } else { NumberByte(step, p, major, minor, k); }
    }
    ReadQuietly(step, ps, v);
  }

  /** After the URL: nothing but "HTTP/", a digit, a point and a digit leads to the end of the line. */
  lemma VersionExactly(step: Stepping, p: Parser, v: seq<Byte>)
    requires Real(step) && p.at == HttpStart && !p.source && |v| == 8 && v[0] != 32
    ensures Run(step, p, v).status == Going <==>
      v[..5] == [72, 84, 84, 80, 47] && D.IsNum(v[5]) && v[6] == 46 && D.IsNum(v[7])
  {
    if v[0] == 72 {
      var p1 := p.(at := Expect(Letters(0)));
      VersionStep(step, p, v, p1);
      LettersExactly(step, p1, v[1..], 0);
      HttpIs(v);
    } else {
      VersionState(step, p, v[0]);
    }
  }

  lemma HttpIs(v: seq<Byte>)
    requires |v| == 8 && v[0] == 72
    ensures v[..5] == [72, 84, 84, 80, 47] <==> v[1..][..4] == Letters(0)
  {
    var w: seq<Byte> := [72, 84, 84, 80, 47];
    assert v[..5] == [v[0]] + v[1..][..4] && v[..5][1..] == v[1..][..4];
    assert w == [72] + Letters(0) && w[1..] == Letters(0);
  }

  lemma VersionStep(step: Stepping, p: Parser, v: seq<Byte>, p': Parser)
    requires Real(step) && InVersionState(p.at) && v != [] && StepVersion(p, v[0]) == Go(p')
    ensures Run(step, p, v) == Run(step, p', v[1..])
  {
    VersionState(step, p, v[0]);
    assert v == [v[0]] + v[1..];
    Quietly(step, p, v[0], p', v[1..]);
  }

  lemma {:induction false} LettersExactly(step: Stepping, p: Parser, v: seq<Byte>, k: nat)
    requires Real(step) && k <= 3 && p.at == Expect(Letters(k)) && |v| == 7 - k
    ensures Run(step, p, v).status == Going <==>
      v[..4 - k] == Letters(k) && D.IsNum(v[4 - k]) && v[5 - k] == 46 && D.IsNum(v[6 - k])
    decreases 4 - k
  {
    if v[0] == Letters(k)[0] {
      ExpectStep(p, k);
      var p' := p.(at := if k == 3 then Major else Expect(Letters(k + 1)));
      VersionStep(step, p, v, p');
      if k == 3 {
        NumbersExactly(step, p', v[1..]);
        assert v[..1] == [v[0]];
      } else {
        LettersExactly(step, p', v[1..], k + 1);
        LettersNext(v, k);
      }
    } else {
      VersionState(step, p, v[0]);
      assert v[..4 - k][0] == v[0];
    }
  }

  lemma LettersNext(v: seq<Byte>, k: nat)
    requires k < 3 && |v| == 7 - k && v[0] == Letters(k)[0]
    ensures v[..4 - k] == Letters(k) <==> v[1..][..3 - k] == Letters(k + 1)
  {
    assert v[..4 - k] == [v[0]] + v[1..][..3 - k] && Letters(k) == [Letters(k)[0]] + Letters(k + 1);
    assert v[..4 - k][1..] == v[1..][..3 - k] && Letters(k)[1..] == Letters(k + 1);
  }

  lemma NumbersExactly(step: Stepping, p: Parser, v: seq<Byte>)
    requires Real(step) && p.at == Major && |v| == 3
    ensures Run(step, p, v).status == Going <==> D.IsNum(v[0]) && v[1] == 46 && D.IsNum(v[2])
  {
    VersionState(step, p, v[0]);
    if D.IsNum(v[0]) {
      var p1 := p.(at := Dot, major := v[0] - 48);
      VersionStep(step, p, v, p1);
      VersionState(step, p1, v[1]);
      if v[1] == 46 {
        var p2 := p1.(at := Minor);
        VersionStep(step, p1, v[1..], p2);
        VersionState(step, p2, v[2]);
      }
    }
  }

  // ---------- Headers

  predicate AtLine(p: Parser) { p.at == FieldStart || p.at == ValueLws }

  /** What is known of the headers when a line begins. */
  function Known(p: Parser): Header { if p.at == ValueLws then HeaderEnd(Noted(p.head)) else Noted(p.head) }

  predicate InHeaderState(at: At) {
    at.FieldStart? || at.Field? || at.DiscardWs? || at.Value? || at.AlmostDone? || at.ValueLws? || at.HeadersAlmostDone?
  }

  lemma HeaderState(step: Stepping, p: Parser, b: Byte)
    requires Real(step) && InHeaderState(p.at)
    ensures step(p, b) == StepHeader(REAL, p, b)
  {
    assert Asked(p, b);
  }

  lemma NameOut(env: Meaning, p: Parser, b: Byte)
    requires (p.at == FieldStart || p.at == Field) && IsToken(b) && env.refuses(p.head + [(p.at, b)]) == 0
    ensures StepHeader(env, p, b) == Out(p.(at := Field, head := p.head + [(p.at, b)]), [Data(HeaderField, b)], Going)
  {}

  lemma ValueOut(env: Meaning, p: Parser, b: Byte)
    requires p.at == DiscardWs || p.at == Value
    requires !IsBlank(b) || p.at == Value
    requires b != CR && b != LF && IsHeaderChar(b) && env.refuses(p.head + [(p.at, b)]) == 0
    ensures StepHeader(env, p, b) == Out(p.(at := Value, head := p.head + [(p.at, b)]), [Data(HeaderValue, b)], Going)
  {}

  /** The next line begins: the byte is looked at twice. */
  lemma NextLineOut(env: Meaning, p: Parser, b: Byte)
    requires p.at == ValueLws && !IsBlank(b) && env.refuses(p.head + [(ValueLws, b)]) == 0
    ensures StepHeader(env, p, b) == StepHeader(env, p.(at := FieldStart, head := p.head + [(ValueLws, b)]), b)
  {
    var o := StepFieldStart(env, p.(at := FieldStart, head := p.head + [(ValueLws, b)]), b);
    assert [] + o.events == o.events;
  }

  /** The parser at the start of a line that begins with `b`. */
  function OnLine(p: Parser, b: Byte): Parser {
    if p.at == ValueLws then p.(at := FieldStart, head := p.head + [(ValueLws, b)]) else p
  }

  lemma LineBegins(step: Stepping, p: Parser, b: Byte)
    requires Real(step) && AtLine(p) && Known(p).code == 0 && !IsBlank(b)
    ensures step(p, b) == StepHeader(REAL, OnLine(p, b), b) && Noted(OnLine(p, b).head) == Known(p)
  {
    HeaderState(step, p, b);
    if p.at == ValueLws {
      NotedMore(p.head, ValueLws, b);
      NextLineOut(REAL, p, b);
    }
  }

  lemma FirstLetter(step: Stepping, p: Parser, b: Byte) returns (p': Parser)
    requires Real(step) && AtLine(p) && Known(p).code == 0 && IsToken(b)
    ensures p' == p.(at := Field, head := p'.head) && Noted(p'.head) == NameStart(Known(p), b)
    ensures step(p, b) == Out(p', [Data(HeaderField, b)], Going)
  {
    LineBegins(step, p, b);
    p' := LetterOnLine(OnLine(p, b), b);
  }

  lemma LetterOnLine(p: Parser, b: Byte) returns (p': Parser)
    requires p.at == FieldStart && Noted(p.head).code == 0 && IsToken(b)
    ensures p' == p.(at := Field, head := p'.head) && Noted(p'.head) == NameStart(Noted(p.head), b)
    ensures StepHeader(REAL, p, b) == Out(p', [Data(HeaderField, b)], Going)
  {
    NotedMore(p.head, FieldStart, b);
    NameOut(REAL, p, b);
    p' := p.(at := Field, head := p.head + [(FieldStart, b)]);
  }

  lemma NextLetter(step: Stepping, p: Parser, b: Byte) returns (p': Parser)
    requires Real(step) && p.at == Field && NameByte(Noted(p.head), b).code == 0 && IsToken(b)
    ensures p' == p.(head := p'.head) && Noted(p'.head) == NameByte(Noted(p.head), b)
    ensures step(p, b) == Out(p', [Data(HeaderField, b)], Going)
  {
    HeaderState(step, p, b);
    NotedMore(p.head, Field, b);
    NameOut(REAL, p, b);
    p' := p.(head := p.head + [(Field, b)]);
  }

  lemma {:induction false} ReadName(step: Stepping, p: Parser, name: seq<Byte>) returns (p': Parser)
    requires Real(step)
    requires AtLine(p) && Known(p).code == 0 && IsName(name)
    ensures p' == p.(at := Field, head := p'.head) && Noted(p'.head) == NameRun(Known(p), name)
    ensures Run(step, p, name) == Out(p', R.DataEvents(HeaderField, name), Going)
    decreases |name|
  {
    var front, b := name[..|name| - 1], name[|name| - 1];
    assert name == front + [b];
    R.OneMore(HeaderField, front, b);
    if front == [] {
      assert name == [b] && R.DataEvents(HeaderField, []) == [];
      p' := FirstLetter(step, p, b);
      RunOne(step, p, b);
    } else {
      var p1 := ReadName(step, p, front);
      NameRunOk(Known(p), name);
      p' := NextLetter(step, p1, b);
      RunMore(step, p, front, p1, R.DataEvents(HeaderField, front), b, p', [Data(HeaderField, b)]);
    }
  }

  /** A value without blanks before it. */
  predicate IsValue(v: seq<Byte>) {
    && v != [] && !IsBlank(v[0])
    && forall i :: 0 <= i < |v| ==> v[i] != CR && v[i] != LF && IsHeaderChar(v[i])
  }

  /** No byte of the value is refused for what it means. */
  predicate Accepted(h: Header, v: seq<Byte>) { forall i :: 1 <= i <= |v| ==> ValueRun(h, v[..i]).code == 0 }

  lemma FirstValueByte(step: Stepping, p: Parser, b: Byte) returns (p': Parser)
    requires Real(step) && p.at == DiscardWs && IsValue([b]) && ValueFirst(Noted(p.head), b).code == 0
    ensures p' == p.(at := Value, head := p'.head) && Noted(p'.head) == ValueFirst(Noted(p.head), b)
    ensures step(p, b) == Out(p', [Data(HeaderValue, b)], Going)
  {
    assert [b][0] == b;
    HeaderState(step, p, b);
    NotedMore(p.head, DiscardWs, b);
    ValueOut(REAL, p, b);
    p' := p.(at := Value, head := p.head + [(DiscardWs, b)]);
  }

  lemma NextValueByte(step: Stepping, p: Parser, b: Byte) returns (p': Parser)
    requires Real(step) && p.at == Value && b != CR && b != LF && IsHeaderChar(b)
    requires ValueByte(Noted(p.head), b).code == 0
    ensures p' == p.(head := p'.head) && Noted(p'.head) == ValueByte(Noted(p.head), b)
    ensures step(p, b) == Out(p', [Data(HeaderValue, b)], Going)
  {
    HeaderState(step, p, b);
    NotedMore(p.head, Value, b);
    ValueOut(REAL, p, b);
    p' := p.(head := p.head + [(Value, b)]);
  }

  lemma {:induction false} ReadValue(step: Stepping, p: Parser, v: seq<Byte>) returns (p': Parser)
    requires Real(step)
    requires p.at == DiscardWs && IsValue(v) && Accepted(Noted(p.head), v)
    ensures p' == p.(at := Value, head := p'.head) && Noted(p'.head) == ValueRun(Noted(p.head), v)
    ensures Run(step, p, v) == Out(p', R.DataEvents(HeaderValue, v), Going)
    decreases |v|
  {
    var front, b := v[..|v| - 1], v[|v| - 1];
    assert v == front + [b] && v[..|v|] == v;
    R.OneMore(HeaderValue, front, b);
    if front == [] {
      assert v == [b] && R.DataEvents(HeaderValue, []) == [];
      p' := FirstValueByte(step, p, b);
      RunOne(step, p, b);
    } else {
      forall i | 1 <= i <= |front| ensures ValueRun(Noted(p.head), front[..i]).code == 0 {
        assert front[..i] == v[..i];
      }
      forall i | 0 <= i < |front| ensures front[i] == v[i] {}
      var p1 := ReadValue(step, p, front);
      p' := NextValueByte(step, p1, b);
      RunMore(step, p, front, p1, R.DataEvents(HeaderValue, front), b, p', [Data(HeaderValue, b)]);
    }
  }

  /** A header; `gap` is the blanks between the colon and the value. */
  datatype Line = Line(name: seq<Byte>, gap: seq<Byte>, value: seq<Byte>)

  predicate Blanks(s: seq<Byte>) { forall i :: 0 <= i < |s| ==> s[i] == 32 || s[i] == 9 }

  function FieldBytes(f: Line): seq<Byte> { f.name + ([58] + (f.gap + (f.value + [13, 10]))) }

  function FieldEvents(f: Line): seq<Event> { R.DataEvents(HeaderField, f.name) + R.DataEvents(HeaderValue, f.value) }

  lemma {:induction false} ReadBlanks(step: Stepping, p: Parser, gap: seq<Byte>, rest: seq<Byte>)
    requires Real(step) && p.at == DiscardWs && Blanks(gap)
    ensures Run(step, p, gap + rest) == Run(step, p, rest)
    decreases |gap|
  {
    if gap == [] {
      assert gap + rest == rest;
    } else {
      HeaderState(step, p, gap[0]);
      assert gap + rest == [gap[0]] + (gap[1..] + rest);
      Quietly(step, p, gap[0], p, gap[1..] + rest);
      ReadBlanks(step, p, gap[1..], rest);
    }
  }

  lemma ReadColon(step: Stepping, p: Parser, gap: seq<Byte>, rest: seq<Byte>)
    requires Real(step) && p.at == Field && Blanks(gap)
    ensures Run(step, p, [58] + (gap + rest)) == Run(step, p.(at := DiscardWs), rest)
  {
    HeaderState(step, p, 58);
    Quietly(step, p, 58, p.(at := DiscardWs), gap + rest);
    ReadBlanks(step, p.(at := DiscardWs), gap, rest);
  }

  lemma ReadLineEnd(step: Stepping, p: Parser)
    requires Real(step)
    requires p.at == Value
    ensures Run(step, p, [CR, LF]) == Go(p.(at := ValueLws))
  {
    HeaderState(step, p, CR);
    HeaderState(step, p.(at := AlmostDone), LF);
    RunTwo(step, p, CR, p.(at := AlmostDone), LF, Go(p.(at := ValueLws)));
  }

  /** What the headers mean after one more. */
  function Meant(h: Header, f: Line): Header
    requires f.name != [] && f.value != []
  {
    ValueRun(NameRun(h, f.name), f.value)
  }

  lemma ReadField(step: Stepping, p: Parser, f: Line) returns (p': Parser)
    requires Real(step)
    requires AtLine(p) && Known(p).code == 0 && IsName(f.name) && Blanks(f.gap) && IsValue(f.value)
    requires Accepted(NameRun(Known(p), f.name), f.value)
    ensures p' == p.(at := ValueLws, head := p'.head) && Noted(p'.head) == Meant(Known(p), f)
    ensures Run(step, p, FieldBytes(f)) == Out(p', FieldEvents(f), Going)
  {
    var rest := f.value + [CR, LF];
    var p1 := ReadName(step, p, f.name);
    var p2 := p1.(at := DiscardWs);
    var p3 := ReadValue(step, p2, f.value);
    p' := p3.(at := ValueLws);
    ReadLineEnd(step, p3);
    RunThen(step, p2, f.value, p3, R.DataEvents(HeaderValue, f.value), [CR, LF], p', []);
    assert R.DataEvents(HeaderValue, f.value) + [] == R.DataEvents(HeaderValue, f.value);
    ReadColon(step, p1, f.gap, rest);
    RunThen(step, p, f.name, p1, R.DataEvents(HeaderField, f.name), [58] + (f.gap + rest), p',
      R.DataEvents(HeaderValue, f.value));
  }

  // ---------- What the headers mean

  /** The name begins like `w`. */
  predicate LikeWord(name: seq<Byte>, w: string) { |w| <= |name| && V.SameWord(name[..|w|], w) }

  predicate IsConnection(l: Line) { V.SameWord(l.name, "connection") || V.SameWord(l.name, "proxy-connection") }

  predicate IsUpgrade(l: Line) { V.SameWord(l.name, "upgrade") }

  predicate IsCoding(l: Line) { V.SameWord(l.name, "transfer-encoding") }

  predicate IsLength(l: Line) { V.SameWord(l.name, "content-length") }

  /** The parser sets the flag of a transfer coding before it has seen where the name ends. */
  predicate LikeCoding(l: Line) { LikeWord(l.name, "transfer-encoding") }

  predicate SaysChunked(l: Line) { IsCoding(l) && V.ListsChunkedLast(l.value) }

  ghost predicate SaysKeepAlive(l: Line) { IsConnection(l) && V.Lists(l.value, "keep-alive") }

  ghost predicate SaysClose(l: Line) { IsConnection(l) && V.Lists(l.value, "close") }

  ghost predicate SaysUpgrade(l: Line) { IsConnection(l) && V.Lists(l.value, "upgrade") }

  predicate GoodLength(l: Line) {
    IsLength(l) ==> D.Digits(l.value) && D.Value(l.value) <= B.ULLONG_MAX - 6
  }

  predicate GoodLine(l: Line) { IsName(l.name) && Blanks(l.gap) && IsValue(l.value) && GoodLength(l) }

  /** What a line adds to what was known. */
  ghost function Effect(f: Flags, l: Line): Flags
    requires GoodLength(l)
  {
    f.(chunked := f.chunked || SaysChunked(l), transferEncoding := f.transferEncoding || LikeCoding(l),
       contentLength := f.contentLength || IsLength(l), length := if IsLength(l) then D.Value(l.value) else f.length,
       upgrade := f.upgrade || IsUpgrade(l), connectionUpgrade := f.connectionUpgrade || SaysUpgrade(l),
       close := f.close || SaysClose(l), keepAlive := f.keepAlive || SaysKeepAlive(l))
  }

  predicate SmallWord(w: string) { forall i :: 0 <= i < |w| ==> V.Plain(w[i]) }

  lemma SameSmalls(name: seq<Byte>, w: string)
    requires SmallWord(w)
    ensures V.SameWord(name, w) <==> Smalls(name) == w
  {
    if Smalls(name) == w {
      forall i | 0 <= i < |name| ensures V.SameLetter(name[i], w[i]) { assert Smalls(name)[i] == w[i]; }
    }
    if V.SameWord(name, w) {
      forall i | 0 <= i < |name| ensures Smalls(name)[i] == w[i] {
        assert V.SameLetter(name[i], w[i]) && V.Plain(w[i]);
      }
    }
  }

  lemma LikeSmalls(name: seq<Byte>, w: string)
    requires SmallWord(w)
    ensures LikeWord(name, w) <==> w <= Smalls(name)
  {
    if |w| <= |name| {
      assert Smalls(name[..|w|]) == Smalls(name)[..|w|];
      SameSmalls(name[..|w|], w);
    }
  }

  /** What a name is taken for, in small letters. */
  lemma NamesAre(l: Line)
    ensures IsConnection(l) <==> Smalls(l.name) == Spelling(Connection) || Smalls(l.name) == Spelling(ProxyConnection)
    ensures IsUpgrade(l) <==> Smalls(l.name) == Spelling(Upgrade)
    ensures IsCoding(l) <==> Smalls(l.name) == Spelling(TransferEncoding)
    ensures IsLength(l) <==> Smalls(l.name) == Spelling(ContentLength)
    ensures LikeCoding(l) <==> Spelling(TransferEncoding) <= Smalls(l.name)
  {
    SameSmalls(l.name, "connection");
    SameSmalls(l.name, "proxy-connection");
    SameSmalls(l.name, "upgrade");
    SameSmalls(l.name, "transfer-encoding");
    SameSmalls(l.name, "content-length");
    LikeSmalls(l.name, "transfer-encoding");
  }

  /** The line is accepted and adds what it should. */
  ghost predicate Means(h: Header, l: Line)
    requires l.name != [] && l.value != [] && GoodLength(l)
  {
    && Accepted(NameRun(h, l.name), l.value)
    && HeaderEnd(Meant(h, l)).f == Effect(h.f, l) && HeaderEnd(Meant(h, l)).code == 0
  }

  lemma {:induction false} GeneralValue(h: Header, v: seq<Byte>)
    requires v != [] && h.code == 0 &&
             (h.st == General || h.st.LetterC? || h.st.LettersCo? || h.st.LettersCon? || h.st.Matching?)
    ensures ValueRun(h, v) == h.(st := General, index := 0)
    decreases |v|
  {
    if |v| > 1 { GeneralValue(h, v[..|v| - 1]); }
  }

  lemma OrdinaryMeans(h: Header, l: Line)
    requires h.code == 0 && GoodLine(l) && !IsConnection(l) && !IsUpgrade(l) && !IsCoding(l) && !IsLength(l)
    ensures Means(h, l)
  {
    NamesAre(l);
    NameRunOk(h, l.name);
    var n := NameRun(h, l.name);
    forall i | 1 <= i <= |l.value| ensures ValueRun(n, l.value[..i]).code == 0 { GeneralValue(n, l.value[..i]); }
    GeneralValue(n, l.value);
  }

  /** The names that the parser knows begin differently. */
  lemma OtherNames(l: Line, w: Name)
    requires Smalls(l.name) == Spelling(w)
    ensures IsConnection(l) <==> w == Connection || w == ProxyConnection
    ensures (IsUpgrade(l) <==> w == Upgrade) && (IsCoding(l) <==> w == TransferEncoding)
    ensures (IsLength(l) <==> w == ContentLength) && (LikeCoding(l) <==> w == TransferEncoding)
  {
    NamesAre(l);
    Letter(Spelling(TransferEncoding), Spelling(w), 0);
  }

  /** The state after a name that the parser knows. */
  lemma NameKnown(h: Header, l: Line, w: Name) returns (n: Header)
    requires h.code == 0 && IsName(l.name) && Smalls(l.name) == Spelling(w)
    ensures n == NameRun(h, l.name) && n.st == Named(if w == ProxyConnection then Connection else w) && n.code == 0
    ensures n.f == h.f.(transferEncoding := h.f.transferEncoding || w == TransferEncoding)
  {
    n := NameRun(h, l.name);
    NameRunOk(h, l.name);
    NameExactly(h, l.name, if w == ProxyConnection then Connection else w);
    Letter(Spelling(TransferEncoding), Spelling(w), 0);
  }

  lemma ValueIs(v: seq<Byte>, i: nat)
    requires IsValue(v) && 1 <= i <= |v|
    ensures V.Values(v[..i]) && v[..i] != [] && v[..i][0] != 9 && v[..i][0] != 32
  {}

  lemma ConnectionMeans(h: Header, l: Line)
    requires h.code == 0 && GoodLine(l) && IsConnection(l)
    ensures Means(h, l)
  {
    NamesAre(l);
    var w := if Smalls(l.name) == Spelling(Connection) then Connection else ProxyConnection;
    OtherNames(l, w);
    var n := NameKnown(h, l, w);
    forall i | 1 <= i <= |l.value| ensures ValueRun(n, l.value[..i]).code == 0 {
      ValueIs(l.value, i);
      V.OptionsRead(n, l.value[..i]);
    }
    ValueIs(l.value, |l.value|);
    assert l.value[..|l.value|] == l.value;
    V.ConnectionExactly(n, l.value);
  }

  lemma CodingMeans(h: Header, l: Line)
    requires h.code == 0 && GoodLine(l) && IsCoding(l)
    ensures Means(h, l)
  {
    NamesAre(l);
    OtherNames(l, TransferEncoding);
    var n := NameKnown(h, l, TransferEncoding);
    forall i | 1 <= i <= |l.value| ensures ValueRun(n, l.value[..i]).code == 0 {
      ValueIs(l.value, i);
      V.CodingsRead(n, l.value[..i]);
    }
    ValueIs(l.value, |l.value|);
    assert l.value[..|l.value|] == l.value;
    V.CodingExactly(n, l.value);
  }

  lemma {:induction false} UpgradeValue(h: Header, v: seq<Byte>)
    requires h.st == Named(Upgrade) && h.code == 0 && v != []
    ensures ValueRun(h, v) == h.(st := General, index := 0, f := h.f.(upgrade := true))
    decreases |v|
  {
    if |v| > 1 { UpgradeValue(h, v[..|v| - 1]); }
  }

  lemma UpgradeMeans(h: Header, l: Line)
    requires h.code == 0 && GoodLine(l) && IsUpgrade(l)
    ensures Means(h, l)
  {
    NamesAre(l);
    OtherNames(l, Upgrade);
    var n := NameKnown(h, l, Upgrade);
    forall i | 1 <= i <= |l.value| ensures ValueRun(n, l.value[..i]).code == 0 { UpgradeValue(n, l.value[..i]); }
    UpgradeValue(n, l.value);
  }

  function Counted(h: Header, n: nat): Header
    requires n <= B.ULLONG_MAX
  {
    h.(st := LengthNum, index := 0, f := h.f.(length := n, contentLength := true))
  }

  lemma FirstDigit(h: Header, d: Byte)
    requires h.st == Named(ContentLength) && !h.f.contentLength && D.IsNum(d)
    ensures ValueFirst(h, d) == Counted(h, d - 48)
  {}

  lemma OneMoreDigit(h: Header, n: nat, d: Byte, n': nat)
    requires D.IsNum(d) && n' == n * 10 + (d - 48) && n' <= B.ULLONG_MAX - 6 && n <= n'
    ensures ValueByte(Counted(h, n), d) == Counted(h, n')
  {
    L.DigitRead(L.Field(L.Digits, n, true), d);
  }

  /** The value grows with its digits. */
  lemma ValueParts(ds: seq<Byte>)
    requires D.Digits(ds) && ds != []
    ensures var front, d := ds[..|ds| - 1], ds[|ds| - 1];
      D.Digits(front) && D.IsNum(d) && D.Value(front) <= D.Value(ds) && D.Value(ds) == D.Value(front) * 10 + (d - 48)
  {}

  lemma {:induction false} LengthValue(h: Header, ds: seq<Byte>)
    requires h.st == Named(ContentLength) && !h.f.contentLength && ds != [] && D.Digits(ds)
    requires D.Value(ds) <= B.ULLONG_MAX - 6
    ensures ValueRun(h, ds) == Counted(h, D.Value(ds))
    decreases |ds|
  {
    var front, d := ds[..|ds| - 1], ds[|ds| - 1];
    ValueParts(ds);
    if |ds| == 1 {
      assert front == [] && D.Value(front) == 0;
      FirstDigit(h, d);
    } else {
      LengthValue(h, front);
      OneMoreDigit(h, D.Value(front), d, D.Value(ds));
    }
  }

  lemma LengthMeans(h: Header, l: Line)
    requires h.code == 0 && GoodLine(l) && IsLength(l) && !h.f.contentLength
    ensures Means(h, l)
  {
    NamesAre(l);
    OtherNames(l, ContentLength);
    var n := NameKnown(h, l, ContentLength);
    forall i | 1 <= i <= |l.value| ensures ValueRun(n, l.value[..i]).code == 0 {
      D.ValueGrows(l.value, i);
      LengthValue(n, l.value[..i]);
    }
    LengthValue(n, l.value);
  }

  lemma LineMeans(h: Header, l: Line)
    requires h.code == 0 && GoodLine(l) && (IsLength(l) ==> !h.f.contentLength)
    ensures Means(h, l)
  {
    if IsConnection(l) {
      ConnectionMeans(h, l);
    } else if IsUpgrade(l) {
      UpgradeMeans(h, l);
    } else if IsCoding(l) {
      CodingMeans(h, l);
    } else if IsLength(l) {
      LengthMeans(h, l);
    } else {
      OrdinaryMeans(h, l);
    }
  }

  // ---------- All headers

  function FieldsBytes(ls: seq<Line>): seq<Byte> { if ls == [] then [] else FieldBytes(ls[0]) + FieldsBytes(ls[1..]) }

  function FieldsEvents(ls: seq<Line>): seq<Event> {
    if ls == [] then [] else FieldEvents(ls[0]) + FieldsEvents(ls[1..])
  }

  /** Lines that are in order, with one length at most. */
  predicate GoodLines(ls: seq<Line>) {
    && (forall i :: 0 <= i < |ls| ==> GoodLine(ls[i]))
    && forall i, j :: 0 <= i < j < |ls| ==> !(IsLength(ls[i]) && IsLength(ls[j]))
  }

  ghost predicate Any(ls: seq<Line>, says: Line -> bool) { exists i :: 0 <= i < |ls| && says(ls[i]) }

  lemma AnyFirst(ls: seq<Line>, says: Line -> bool)
    requires ls != []
    ensures Any(ls, says) <==> says(ls[0]) || Any(ls[1..], says)
  {
    if Any(ls, says) && !says(ls[0]) {
      var i :| 0 <= i < |ls| && says(ls[i]);
      assert ls[1..][i - 1] == ls[i];
    }
    if Any(ls[1..], says) {
      var i :| 0 <= i < |ls[1..]| && says(ls[1..][i]);
      assert ls[i + 1] == ls[1..][i];
    }
  }

  lemma GoodRest(ls: seq<Line>)
    requires GoodLines(ls) && ls != []
    ensures GoodLine(ls[0]) && GoodLines(ls[1..]) && (IsLength(ls[0]) ==> !Any(ls[1..], IsLength))
  {
    var rest := ls[1..];
    forall i | 0 <= i < |rest| ensures GoodLine(rest[i]) { assert rest[i] == ls[i + 1]; }
    forall i, j | 0 <= i < j < |rest| ensures !(IsLength(rest[i]) && IsLength(rest[j])) {
      assert rest[i] == ls[i + 1] && rest[j] == ls[j + 1];
    }
    forall i | 0 <= i < |rest| ensures IsLength(ls[0]) ==> !IsLength(rest[i]) { assert rest[i] == ls[i + 1]; }
  }

  /** The number in the line that gives a length. */
  function LengthOf(ls: seq<Line>, none: Length): Length
    requires forall i :: 0 <= i < |ls| ==> GoodLine(ls[i])
  {
    if ls == [] then none else
    assert GoodLine(ls[0]);
    if IsLength(ls[0]) then D.Value(ls[0].value) else LengthOf(ls[1..], none)
  }

  lemma {:induction false} LengthIs(ls: seq<Line>, none: Length, i: nat)
    requires GoodLines(ls) && i < |ls| && IsLength(ls[i])
    ensures LengthOf(ls, none) == D.Value(ls[i].value)
    decreases |ls|
  {
    if i > 0 {
      GoodRest(ls);
      assert ls[1..][i - 1] == ls[i];
      LengthIs(ls[1..], none, i - 1);
    }
  }

  lemma {:induction false} NoLength(ls: seq<Line>, none: Length)
    requires GoodLines(ls) && !Any(ls, IsLength)
    ensures LengthOf(ls, none) == none
    decreases |ls|
  {
    if ls != [] {
      GoodRest(ls);
      AnyFirst(ls, IsLength);
      NoLength(ls[1..], none);
    }
  }

  /** What all lines together add to what was known. */
  ghost function Effects(f: Flags, ls: seq<Line>): Flags
    requires GoodLines(ls)
  {
    f.(chunked := f.chunked || Any(ls, SaysChunked), transferEncoding := f.transferEncoding || Any(ls, LikeCoding),
       contentLength := f.contentLength || Any(ls, IsLength), length := LengthOf(ls, f.length),
       upgrade := f.upgrade || Any(ls, IsUpgrade), connectionUpgrade := f.connectionUpgrade || Any(ls, SaysUpgrade),
       close := f.close || Any(ls, SaysClose), keepAlive := f.keepAlive || Any(ls, SaysKeepAlive))
  }

  lemma EffectsFirst(f: Flags, ls: seq<Line>)
    requires GoodLines(ls) && ls != []
    ensures GoodLine(ls[0]) && GoodLines(ls[1..]) && Effects(f, ls) == Effects(Effect(f, ls[0]), ls[1..])
  {
    GoodRest(ls);
    CodingsFirst(ls);
    OptionsFirst(ls);
    LengthFirst(ls, f.length);
  }

  lemma CodingsFirst(ls: seq<Line>)
    requires ls != []
    ensures Any(ls, SaysChunked) <==> SaysChunked(ls[0]) || Any(ls[1..], SaysChunked)
    ensures Any(ls, LikeCoding) <==> LikeCoding(ls[0]) || Any(ls[1..], LikeCoding)
    ensures Any(ls, IsLength) <==> IsLength(ls[0]) || Any(ls[1..], IsLength)
  {
    AnyFirst(ls, SaysChunked);
    AnyFirst(ls, LikeCoding);
    AnyFirst(ls, IsLength);
  }

  lemma OptionsFirst(ls: seq<Line>)
    requires ls != []
    ensures Any(ls, IsUpgrade) <==> IsUpgrade(ls[0]) || Any(ls[1..], IsUpgrade)
    ensures Any(ls, SaysUpgrade) <==> SaysUpgrade(ls[0]) || Any(ls[1..], SaysUpgrade)
    ensures Any(ls, SaysClose) <==> SaysClose(ls[0]) || Any(ls[1..], SaysClose)
    ensures Any(ls, SaysKeepAlive) <==> SaysKeepAlive(ls[0]) || Any(ls[1..], SaysKeepAlive)
  {
    AnyFirst(ls, IsUpgrade);
    AnyFirst(ls, SaysUpgrade);
    AnyFirst(ls, SaysClose);
    AnyFirst(ls, SaysKeepAlive);
  }

  lemma LengthFirst(ls: seq<Line>, none: Length)
    requires ls != [] && GoodLines(ls)
    ensures GoodLines(ls[1..]) && GoodLine(ls[0])
    ensures LengthOf(ls, none) == LengthOf(ls[1..], if IsLength(ls[0]) then D.Value(ls[0].value) else none)
  {
    GoodRest(ls);
    if IsLength(ls[0]) { NoLength(ls[1..], D.Value(ls[0].value)); }
  }

  /** The parser at the start of another line, with the flags `f`. */
  ghost predicate Reached(p: Parser, p': Parser, f: Flags) {
    p' == p.(at := p'.at, head := p'.head) && AtLine(p') && Known(p').code == 0 && Known(p').f == f
  }

  lemma {:induction false} ReadLines(step: Stepping, p: Parser, ls: seq<Line>) returns (p': Parser)
    requires Real(step) && AtLine(p) && Known(p).code == 0 && GoodLines(ls)
    requires Known(p).f.contentLength ==> !Any(ls, IsLength)
    ensures Reached(p, p', Effects(Known(p).f, ls))
    ensures Run(step, p, FieldsBytes(ls)) == Out(p', FieldsEvents(ls), Going)
    decreases |ls|
  {
    if ls == [] {
      p' := p;
    } else {
      EffectsFirst(Known(p).f, ls);
      GoodRest(ls);
      AnyFirst(ls, IsLength);
      LineMeans(Known(p), ls[0]);
      var p1 := ReadField(step, p, ls[0]);
      p' := ReadLines(step, p1, ls[1..]);
      RunThen(step, p, FieldBytes(ls[0]), p1, FieldEvents(ls[0]), FieldsBytes(ls[1..]), p', FieldsEvents(ls[1..]));
    }
  }

  // ---------- The end of the head

  lemma ReadBlankLine(step: Stepping, p: Parser) returns (p': Parser)
    requires Real(step) && AtLine(p) && Known(p).code == 0
    ensures p' == p.(at := HeadersAlmostDone, head := p'.head) && Noted(p'.head) == Known(p)
    ensures step(p, CR) == Go(p')
  {
    LineBegins(step, p, CR);
    p' := OnLine(p, CR).(at := HeadersAlmostDone);
  }

  /** The parser after the message: ready for another, or for none. */
  function NextAt(p: Parser, f: Flags): At {
    if (if p.major > 0 && p.minor > 0 then !f.close else f.keepAlive) then Method(M.Start) else Dead
  }

  predicate Switches(f: Flags, connect: bool) { (f.upgrade && f.connectionUpgrade) || connect }

  predicate HasBody(f: Flags) { f.chunked || 0 < f.length < B.ULLONG_MAX }

  /** Two ways to say how long the body is do not go together. */
  predicate Clashes(f: Flags) { f.transferEncoding && f.contentLength }

  /** What comes after the head is in another protocol. */
  predicate SwitchesHere(f: Flags, connect: bool) { Switches(f, connect) && (connect || !HasBody(f)) }

  /** A coding that does not say where the body ends. */
  predicate Endless(f: Flags) { f.transferEncoding && !f.chunked }

  function HeadOut(p: Parser, f: Flags): Res {
    if Clashes(f) then Refuse(p, HPE_UNEXPECTED_CONTENT_LENGTH)
    else if SwitchesHere(f, p.connect) then Out(p.(at := NextAt(p, f)), [HeadersComplete, MessageComplete], Closed)
    else if f.chunked then BodyFrom(p, B.ChunkSizeStart, f.length, Switches(f, p.connect))
    else if Endless(f) then Out(p, [HeadersComplete], Refused(HPE_INVALID_TRANSFER_ENCODING))
    else if HasBody(f) then BodyFrom(p, B.BodyIdentity, f.length, Switches(f, p.connect))
    else Out(p.(at := NextAt(p, f)), [HeadersComplete, MessageComplete], Going)
  }

  lemma HeadDone(step: Stepping, p: Parser, f: Flags)
    requires Real(step) && p.at == HeadersAlmostDone && !p.trailing && Noted(p.head).f == f
    ensures step(p, LF) == HeadOut(p, f) && NewMessage(REAL, p) == NextAt(p, f)
  {
    HeaderState(step, p, LF);
  }

  lemma ReadHeadEnd(step: Stepping, p: Parser, rest: seq<Byte>) returns (p': Parser)
    requires Real(step) && AtLine(p) && Known(p).code == 0 && !p.trailing
    ensures p' == p.(at := HeadersAlmostDone, head := p'.head) && NewMessage(REAL, p') == NextAt(p, Known(p).f)
    ensures Run(step, p, [CR, LF] + rest) == Then(step, HeadOut(p', Known(p).f), rest)
  {
    p' := ReadBlankLine(step, p);
    HeadDone(step, p', Known(p).f);
    assert [CR, LF] + rest == [CR] + ([LF] + rest);
    Quietly(step, p, CR, p', [LF] + rest);
    RunOne(step, p', LF);
    RunConcat(step, p', [LF], rest);
  }

  // ---------- The body

  lemma {:induction false} LiftConcat(a: seq<B.Event>, b: seq<B.Event>)
    ensures LiftAll(a + b) == LiftAll(a) + LiftAll(b)
  {
    if a == [] {
      assert a + b == b;
    } else {
      assert (a + b)[1..] == a[1..] + b;
      LiftConcat(a[1..], b);
    }
  }

  /** What the states of the body do, as a message does it. */
  function Lifted(p: Parser, o: B.Res): Res {
    Out(p.(body := o.p, at := if o.p.at == B.NewMessage then NewMessage(REAL, p) else InBody), LiftAll(o.events),
      o.status)
  }

  predicate Fine(status: Status) { status == Going || status == Closed }

  lemma BodyStep(step: Stepping, p: Parser, b: Byte)
    requires Real(step) && p.at == InBody && Fine(B.Step(p.body, b).status)
    ensures step(p, b) == Lifted(p, B.Step(p.body, b))
  {
    assert Asked(p, b);
  }

  lemma SameNext(p: Parser, p': Parser)
    requires p'.head == p.head && p'.major == p.major && p'.minor == p.minor
    ensures NewMessage(REAL, p') == NewMessage(REAL, p)
  {}

  lemma NothingAfter(q: B.Parser, s: seq<Byte>)
    requires q.at == B.NewMessage && s != []
    ensures Run(B.Step, q, s).status == Unmodelled
  {}

  lemma {:induction false} LiftRun(step: Stepping, p: Parser, s: seq<Byte>)
    requires Real(step) && p.at == InBody && p.body.at != B.NewMessage && Fine(Run(B.Step, p.body, s).status)
    ensures Run(step, p, s) == Lifted(p, Run(B.Step, p.body, s))
    decreases |s|
  {
    if s != [] {
      var o := B.Step(p.body, s[0]);
      BodyStep(step, p, s[0]);
      if o.status == Going {
        var p1, rest := Lifted(p, o).p, s[1..];
        LiftConcat(o.events, Run(B.Step, o.p, rest).events);
        if o.p.at == B.NewMessage {
          if rest != [] { NothingAfter(o.p, rest); }
        } else {
          LiftRun(step, p1, rest);
          SameNext(p, p1);
        }
      }
    }
  }

  lemma {:induction false} LiftBody(s: seq<Byte>)
    ensures LiftAll(S.BodyEvents(s)) == R.DataEvents(Body, s)
    decreases |s|
  {
    if s != [] {
      var front, b := s[..|s| - 1], s[|s| - 1];
      assert s == front + [b];
      LiftBody(front);
      S.BodyEventsConcat(front, [b]);
      assert S.BodyEvents([b]) == [B.Body(b)] + S.BodyEvents([]);
      LiftConcat(S.BodyEvents(front), S.BodyEvents([b]));
      R.LiftOne(B.Body(b));
      R.OneMore(Body, front, b);
    }
  }

  /** The body of a message: so many bytes, or chunks. */
  datatype Content = Bytes(bytes: seq<Byte>) | Chunks(chunks: seq<S.Chunk>, last: S.Chunk)

  predicate GoodContent(c: Content) {
    c.Chunks? ==> S.LastChunk(c.last) && forall i :: 0 <= i < |c.chunks| ==> S.ValidChunk(c.chunks[i])
  }

  function ContentBytes(c: Content): seq<Byte> {
    if c.Bytes? then c.bytes else S.ChunksBytes(c.chunks) + (S.LineBytes(c.last) + [13, 10])
  }

  function ContentEvents(c: Content): seq<Event> {
    if c.Bytes? then R.DataEvents(Body, c.bytes) + [MessageComplete]
    else LiftAll(S.ChunksEvents(c.chunks) + [B.ChunkHeader(0), B.ChunkComplete, B.MessageComplete])
  }

  ghost predicate BodyTold(p: Parser, c: Content, o: Res) {
    && o.status == (if p.body.upgrade then Closed else Going) && o.events == ContentEvents(c)
    && o.p.at == NewMessage(REAL, p)
  }

  lemma ReadContent(step: Stepping, p: Parser, c: Content)
    requires Real(step) && p.at == InBody && p.body.nread == 0 && GoodContent(c)
    requires c.Chunks? ==> p.body.at == B.ChunkSizeStart
    requires c.Bytes? ==> p.body.at == B.BodyIdentity && |c.bytes| == p.body.left > 0
    ensures BodyTold(p, c, Run(step, p, ContentBytes(c)))
  {
    if c.Chunks? {
      S.ReadChunks(p.body, c.chunks, c.last);
    } else {
      S.ReadBody(p.body, c.bytes);
      LiftBytes(c.bytes);
    }
    LiftRun(step, p, ContentBytes(c));
  }

  lemma LiftBytes(s: seq<Byte>)
    ensures LiftAll(S.BodyEvents(s) + [B.MessageComplete]) == R.DataEvents(Body, s) + [MessageComplete]
  {
    LiftBody(s);
    LiftConcat(S.BodyEvents(s), [B.MessageComplete]);
    R.LiftOne(B.MessageComplete);
  }

  // ---------- The whole request

  /** A request: the method, the URL, the version, the headers and the body. */
  datatype Request = Request(
    name: seq<Byte>, url: seq<Byte>, major: Byte, minor: Byte, lines: seq<Line>, content: Content)

  /** What its headers say. */
  ghost function Said(r: Request): Flags
    requires GoodLines(r.lines)
  {
    Effects(NO_FLAGS, r.lines)
  }

  /** Nothing behind the head is read. */
  predicate StopsAtHead(f: Flags, connect: bool) { Clashes(f) || SwitchesHere(f, connect) || Endless(f) }

  /** The body is what the headers say, where it is read at all. */
  predicate Suits(f: Flags, connect: bool, c: Content) {
    StopsAtHead(f, connect) ||
      (GoodContent(c) && if f.chunked then c.Chunks? else c.Bytes? && |c.bytes| == if HasBody(f) then f.length else 0)
  }

  ghost predicate ValidRequest(r: Request, m: M.Method) {
    && Chars(r.name) == M.Name(m) && GoodUrl(r.url, m == M.CONNECT) && D.IsNum(r.major) && D.IsNum(r.minor)
    && GoodLines(r.lines) && Suits(Said(r), m == M.CONNECT, r.content)
  }

  /** A path, with a query and a fragment at will, is a URL for a request. */
  lemma PathIsGood(t: P.Tail)
    requires P.GoodTail(t) && t.path != []
    ensures GoodUrl(P.TailText(t), false)
  {
    var u := P.PassTail(U.Spaces, t);
  }

  function LineBytes(r: Request): seq<Byte> {
    (r.name + [32]) + (r.url + VersionBytes(r.major, r.minor))
  }

  function RequestBytes(r: Request): seq<Byte> {
    LineBytes(r) + (FieldsBytes(r.lines) + ([13, 10] + ContentBytes(r.content)))
  }

  function HeadEvents(r: Request): seq<Event> {
    ([MessageBegin] + R.DataEvents(Url, r.url)) + FieldsEvents(r.lines)
  }

  lemma ReadRequestLine(step: Stepping, p: Parser, r: Request, m: M.Method) returns (p': Parser)
    requires Real(step) && p.at == Method(M.Start) && Chars(r.name) == M.Name(m)
    requires GoodUrl(r.url, m == M.CONNECT) && D.IsNum(r.major) && D.IsNum(r.minor)
    ensures p'.at == FieldStart && p'.head == [] && !p'.trailing && p'.connect == (m == M.CONNECT)
    ensures p'.major == r.major - 48 && p'.minor == r.minor - 48
    ensures Run(step, p, LineBytes(r)) == Out(p', [MessageBegin] + R.DataEvents(Url, r.url), Going)
  {
    var p1 := AtUrl(p, m);
    ReadMethod(step, p, r.name, m);
    var p2;
    p2, p' := ReadUrlAndVersion(step, p1, r.url, r.major, r.minor);
    RunThen(step, p, r.name + [SPACE], p1, [MessageBegin], r.url + VersionBytes(r.major, r.minor), p',
      R.DataEvents(Url, r.url));
  }

  lemma ReadUrlAndVersion(step: Stepping, p: Parser, url: seq<Byte>, major: Byte, minor: Byte)
    returns (p1: Parser, p': Parser)
    requires Real(step) && p.at == SpacesBeforeUrl && GoodUrl(url, p.connect) && D.IsNum(major) && D.IsNum(minor)
    ensures p1 == p.(at := p1.at) && p' == p1.(at := FieldStart, major := major - 48, minor := minor - 48)
    ensures Run(step, p, url + VersionBytes(major, minor)) == Out(p', R.DataEvents(Url, url), Going)
  {
    ReadUrlPart(step, p, url, |url|);
    assert url[..|url|] == url;
    p1 := p.(at := InUrl(U.UrlRun(UrlStart(p.connect), url, |url|)));
    p' := InVersion(p1, major, minor, 11);
    ReadVersion(step, p1, major, minor);
    var es := R.DataEvents(Url, url);
    RunThen(step, p, url, p1, es, VersionBytes(major, minor), p', []);
    assert es + [] == es;
  }

  /** How the reading of a request ends. */
  function StatusOf(f: Flags, connect: bool): Status {
    if Clashes(f) then Refused(HPE_UNEXPECTED_CONTENT_LENGTH)
    else if SwitchesHere(f, connect) then Closed
    else if Endless(f) then Refused(HPE_INVALID_TRANSFER_ENCODING)
    else if Switches(f, connect) then Closed
    else Going
  }

  /** What is told of a request once its headers have been told. */
  function RestEvents(f: Flags, connect: bool, c: Content): seq<Event> {
    if Clashes(f) then []
    else if SwitchesHere(f, connect) then [HeadersComplete, MessageComplete]
    else if Endless(f) then [HeadersComplete]
    else [HeadersComplete] + ContentEvents(c)
  }

  lemma ReadRest(step: Stepping, p: Parser, c: Content)
    requires Real(step) && AtLine(p) && Known(p).code == 0 && !p.trailing && Suits(Known(p).f, p.connect, c)
    ensures var o := Run(step, p, [CR, LF] + ContentBytes(c));
      && o.status == StatusOf(Known(p).f, p.connect) && o.events == RestEvents(Known(p).f, p.connect, c)
      && (!o.status.Refused? ==> o.p.at == NextAt(p, Known(p).f))
  {
    var f, rest := Known(p).f, ContentBytes(c);
    var p1 := ReadHeadEnd(step, p, rest);
    var o := HeadOut(p1, f);
    if !StopsAtHead(f, p.connect) {
      if HasBody(f) {
        ReadContent(step, o.p, c);
      } else {
        assert rest == [] && ContentEvents(c) == [MessageComplete];
        assert [HeadersComplete, MessageComplete] + [] == [HeadersComplete] + [MessageComplete];
      }
    }
  }

  /** What a request is to be told as, and where the parser then stands. */
  ghost predicate RequestTold(r: Request, m: M.Method, o: Res)
    requires GoodLines(r.lines)
  {
    var f := Said(r);
    && o.status == StatusOf(f, m == M.CONNECT)
    && o.events == HeadEvents(r) + RestEvents(f, m == M.CONNECT, r.content)
    && (!o.status.Refused? ==>
          o.p.at == if (if r.major > 48 && r.minor > 48 then !f.close else f.keepAlive) then Method(M.Start) else Dead)
  }

  lemma ReadHead(step: Stepping, p: Parser, r: Request, m: M.Method) returns (p': Parser)
    requires Real(step) && p.at == Method(M.Start) && ValidRequest(r, m)
    ensures AtLine(p') && Known(p').code == 0 && Known(p').f == Said(r) && !p'.trailing
    ensures p'.connect == (m == M.CONNECT) && p'.major == r.major - 48 && p'.minor == r.minor - 48
    ensures Run(step, p, LineBytes(r) + FieldsBytes(r.lines)) == Out(p', HeadEvents(r), Going)
  {
    var p1 := ReadRequestLine(step, p, r, m);
    p' := ReadLines(step, p1, r.lines);
    RunThen(step, p, LineBytes(r), p1, [MessageBegin] + R.DataEvents(Url, r.url), FieldsBytes(r.lines), p',
      FieldsEvents(r.lines));
  }

  lemma ReadRequest(step: Stepping, p: Parser, r: Request, m: M.Method)
    requires Real(step) && p.at == Method(M.Start) && ValidRequest(r, m)
    ensures RequestTold(r, m, Run(step, p, RequestBytes(r)))
  {
    var head, rest := LineBytes(r) + FieldsBytes(r.lines), [CR, LF] + ContentBytes(r.content);
    var p1 := ReadHead(step, p, r, m);
    ReadRest(step, p1, r.content);
    Grouped(LineBytes(r), FieldsBytes(r.lines), rest);
    RunConcat(step, p, head, rest);
  }

  lemma Grouped(a: seq<Byte>, b: seq<Byte>, c: seq<Byte>)
    ensures a + (b + c) == (a + b) + c
  {}

  lemma RealStepper()
    ensures Real(Stepper(REAL))
  {
    forall p: Parser, b: Byte | Asked(p, b) ensures Stepper(REAL)(p, b) == Step(REAL, p, b) {}
  }

  /** However a request is cut into buffers, its URL, its headers and its body are told whole, and what becomes of it
      is decided by its headers alone. */
  lemma RequestExactly(p: Parser, r: Request, m: M.Method, bufs: seq<seq<Byte>>)
    requires p.at == Method(M.Start) && ValidRequest(r, m) && Concat(bufs) == RequestBytes(r)
    ensures RequestTold(r, m, RunAll(Stepper(REAL), p, bufs))
  {
    CutAnywhere(Stepper(REAL), p, bufs);
    RealStepper();
    ReadRequest(Stepper(REAL), p, r, m);
  }

  /** The same for the parser as it is, with its marks and runs of bytes. */
  method ReadBuffers(c: R.Connection, bufs: seq<seq<Byte>>, ghost r: Request, ghost m: M.Method)
    returns (status: Status)
    requires c.env == REAL && c.parser.at == Method(M.Start) && ValidRequest(r, m)
    requires Concat(bufs) == RequestBytes(r) && forall i :: 0 <= i < |bufs| ==> bufs[i] != []
    modifies c`parser, c`calls
    ensures status == StatusOf(Said(r), m == M.CONNECT)
    ensures !status.Refused? ==>
      Heard(R.Told, c.calls) ==
        old(Heard(R.Told, c.calls)) + (HeadEvents(r) + RestEvents(Said(r), m == M.CONNECT, r.content))
  {
    RequestExactly(c.parser, r, m, bufs);
    status := c.ExecuteAll(bufs);
  }

  // ---------- What that means

  /** A request with a Content-Length: its body is told, as many bytes as the digits say, if and only if no header
      begins like Transfer-Encoding. */
  lemma LengthServed(p: Parser, r: Request, m: M.Method, bufs: seq<seq<Byte>>, i: nat)
    requires p.at == Method(M.Start) && ValidRequest(r, m) && m != M.CONNECT && Concat(bufs) == RequestBytes(r)
    requires i < |r.lines| && IsLength(r.lines[i])
    requires r.content.Bytes? && GoodLine(r.lines[i]) && |r.content.bytes| == D.Value(r.lines[i].value)
    ensures var o := RunAll(Stepper(REAL), p, bufs);
      && ((o.status == Going || o.status == Closed) &&
            o.events == HeadEvents(r) + ([HeadersComplete] + (R.DataEvents(Body, r.content.bytes) + [MessageComplete]))
          <==> !Any(r.lines, LikeCoding))
      && (Any(r.lines, LikeCoding) ==> o.status == Refused(HPE_UNEXPECTED_CONTENT_LENGTH) && o.events == HeadEvents(r))
  {
    RequestExactly(p, r, m, bufs);
    LengthIs(r.lines, B.ULLONG_MAX, i);
    assert Any(r.lines, IsLength);
    assert HeadEvents(r) + [] == HeadEvents(r);
    if !Any(r.lines, LikeCoding) { NotChunked(r.lines); }
    if r.content.bytes == [] {
      assert [HeadersComplete, MessageComplete] == [HeadersComplete] + ([] + [MessageComplete]);
    }
  }

  lemma CodingIsLike(l: Line)
    requires SaysChunked(l)
    ensures LikeCoding(l)
  {
    assert l.name[..|l.name|] == l.name;
  }

  lemma NotChunked(ls: seq<Line>)
    requires !Any(ls, LikeCoding)
    ensures !Any(ls, SaysChunked)
  {
    if Any(ls, SaysChunked) {
      var i :| 0 <= i < |ls| && SaysChunked(ls[i]);
      CodingIsLike(ls[i]);
    }
  }

  /** A request without a body: it is told whole, and the parser leaves what follows to another protocol if and only if
      there is an Upgrade header and a Connection header that lists "upgrade". */
  lemma HandshakeExactly(p: Parser, r: Request, m: M.Method, bufs: seq<seq<Byte>>)
    requires p.at == Method(M.Start) && ValidRequest(r, m) && m != M.CONNECT && Concat(bufs) == RequestBytes(r)
    requires !Any(r.lines, IsLength) && !Any(r.lines, LikeCoding)
    ensures var o := RunAll(Stepper(REAL), p, bufs);
      && o.events == HeadEvents(r) + [HeadersComplete, MessageComplete]
      && (o.status == Closed <==> Any(r.lines, IsUpgrade) && Any(r.lines, SaysUpgrade))
      && (o.status == Closed || o.status == Going)
  {
    RequestExactly(p, r, m, bufs);
    NoLength(r.lines, B.ULLONG_MAX);
    NotChunked(r.lines);
    if r.content == Bytes([]) {
      assert [HeadersComplete] + ContentEvents(r.content) == [HeadersComplete, MessageComplete];
    }
  }

  /** A request with a transfer coding and no Content-Length: its chunks are told if and only if a Transfer-Encoding
      header ends in "chunked", and otherwise it is refused. */
  lemma ChunkedExactly(p: Parser, r: Request, m: M.Method, bufs: seq<seq<Byte>>)
    requires p.at == Method(M.Start) && ValidRequest(r, m) && m != M.CONNECT && Concat(bufs) == RequestBytes(r)
    requires !Any(r.lines, IsLength) && Any(r.lines, LikeCoding) && r.content.Chunks? && GoodContent(r.content)
    requires !Any(r.lines, IsUpgrade)
    ensures var o := RunAll(Stepper(REAL), p, bufs);
      && (Any(r.lines, SaysChunked) ==>
            o.status == Going && o.events == HeadEvents(r) + ([HeadersComplete] + ContentEvents(r.content)))
      && (!Any(r.lines, SaysChunked) ==> o.status == Refused(HPE_INVALID_TRANSFER_ENCODING))
  {
    RequestExactly(p, r, m, bufs);
  }

  /** The bytes of the body among the events. */
  function BodyOf(es: seq<Event>): seq<Byte> {
    if es == [] then [] else
    BodyOf(es[..|es| - 1]) + if es[|es| - 1].Data? && es[|es| - 1].kind == Body then [es[|es| - 1].b] else []
  }

  lemma BodyMore(es: seq<Event>, e: Event)
    ensures BodyOf(es + [e]) == BodyOf(es) + if e.Data? && e.kind == Body then [e.b] else []
  {
    assert (es + [e])[..|es|] == es;
  }

  lemma {:induction false} BodyOfData(s: seq<Byte>)
    ensures BodyOf(R.DataEvents(Body, s)) == s
  {
    if s != [] {
      BodyOfData(s[..|s| - 1]);
      BodyMore(R.DataEvents(Body, s[..|s| - 1]), Data(Body, s[|s| - 1]));
      assert s == s[..|s| - 1] + [s[|s| - 1]];
    }
  }

  lemma {:induction false} BodyOfLifted(es: seq<B.Event>)
    ensures BodyOf(LiftAll(es)) == S.Delivered(es)
    decreases |es|
  {
    if es != [] {
      var front, e := es[..|es| - 1], es[|es| - 1];
      assert es == front + [e];
      BodyOfLifted(front);
      LiftConcat(front, [e]);
      R.LiftOne(e);
      BodyMore(LiftAll(front), Lift(e));
      S.DeliveredConcat(front, [e]);
      assert S.Delivered([e]) == (if e.Body? then [e.b] else []) + S.Delivered([]);
    }
  }

  /** The body that is told is the body that was sent. */
  lemma ContentDelivered(c: Content)
    ensures BodyOf(ContentEvents(c)) == if c.Bytes? then c.bytes else S.AllData(c.chunks)
  {
    if c.Bytes? {
      BodyOfData(c.bytes);
      BodyMore(R.DataEvents(Body, c.bytes), MessageComplete);
    } else {
      var last := [B.ChunkHeader(0), B.ChunkComplete, B.MessageComplete];
      BodyOfLifted(S.ChunksEvents(c.chunks) + last);
      S.DeliveredConcat(S.ChunksEvents(c.chunks), last);
      S.DeliveredChunks(c.chunks);
      assert S.Delivered(last[1..]) == [] && S.Delivered(last) == [];
    }
  }
}
