/** The loop of http_parser_execute over one buffer.  The start of the bytes that are still to be handed
    to a data callback is kept in a mark, one mark for each callback; the bytes go to the callback at the
    end of the URL, name, value or run of body bytes, or at the end of the buffer. */
module HttpReader {
  import opened ByteStream
  import opened Hearing
  import opened HttpMessage
  import B = HttpBody

  datatype Call = OnEvent(e: Event) | OnData(kind: Kind, s: seq<Byte>)

  function DataEvents(k: Kind, s: seq<Byte>): seq<Event> {
    if s == [] then [] else DataEvents(k, s[..|s| - 1]) + [Data(k, s[|s| - 1])]
  }

  lemma OneMore(k: Kind, s: seq<Byte>, b: Byte)
    ensures DataEvents(k, s + [b]) == DataEvents(k, s) + [Data(k, b)]
  {
    assert (s + [b])[..|s|] == s;
  }

  /** Data comes by its own callbacks only. */
  function Told(c: Call): seq<Event> {
    match c
    case OnEvent(e) => if e.Data? then [] else [e]
    case OnData(k, s) => DataEvents(k, s)
  }

  function Notify(e: Event): Call { OnEvent(e) }

  // ---------- Which bytes are data, and of which kind

  datatype Option<T> = None | Some(value: T)

  predicate InData(p: Parser) {
    p.at == InBody && (p.body.at == B.ChunkData || p.body.at == B.BodyIdentity || p.body.at == B.BodyEof)
  }

  /** The mark that may be set when the parser is at `p`. */
  function KindAt(p: Parser): Option<Kind> {
    match p.at
    case InUrl(_) => Some(Url)
    case Field => Some(HeaderField)
    case Value => Some(HeaderValue)
    case InBody => if InData(p) || p.body.at == B.ChunkDataAlmostDone then Some(Body) else None
    case _ => None
  }

  /** The callback that byte `b`, read outside the body, is data for. */
  function DataOf(p: Parser, b: Byte): Option<Kind> {
    match p.at
    case SpacesBeforeUrl => if b != SPACE then Some(Url) else None
    case InUrl(_) => if !IsUrlEnd(b) then Some(Url) else None
    case FieldStart => if IsToken(b) then Some(HeaderField) else None
    case Field => if IsToken(b) then Some(HeaderField) else None
    case DiscardWs => if !IsBlank(b) && b != CR && b != LF then Some(HeaderValue) else None
    case Value => if b != CR && b != LF then Some(HeaderValue) else None
    case ValueLws => if IsBlank(b) then Some(HeaderValue) else if IsToken(b) then Some(HeaderField) else None
    case DiscardLws => if IsToken(b) then Some(HeaderField) else None
    case InBody => if p.body.at == B.Trailer && IsToken(b) then Some(HeaderField) else None
    case _ => None
  }

  /** What is told before the byte. */
  function Ahead(p: Parser): seq<Event> { if p.at == DiscardLws then [EmptyValue] else [] }

  /** What a byte of data does. */
  predicate DataOut(p: Parser, o: Res, k: Kind, b: Byte) {
    && o.status == Going && o.events == Ahead(p) + [Data(k, b)] && KindAt(o.p) == Some(k) && !InData(o.p)
    && (KindAt(p) == Some(k) || KindAt(p) == None) && (KindAt(p).Some? ==> Ahead(p) == [])
  }

  predicate Notices(es: seq<Event>) { forall i :: 0 <= i < |es| ==> !es[i].Data? }

  /** What any other byte does outside the body: where a mark may be set it tells nothing. */
  predicate PlainOut(p: Parser, o: Res) {
    Notices(o.events) && (KindAt(p).Some? ==> o.events == [] && (o.status == Going || o.status.Refused?))
  }

  /** What a byte outside the body does. */
  predicate Sorted(p: Parser, b: Byte, o: Res) {
    if DataOf(p, b).Some? && o.status == Going then DataOut(p, o, DataOf(p, b).value, b) else PlainOut(p, o)
  }

  lemma LineSorted(env: Meaning, p: Parser, b: Byte)
    requires InLine(p.at)
    ensures Sorted(p, b, StepLine(env, p, b))
  {}

  lemma FieldStartSorted(env: Meaning, p: Parser, b: Byte)
    requires p.at == FieldStart
    ensures Sorted(p, b, StepFieldStart(env, p, b))
  {}

  /** The byte after the line end of a header. */
  lemma NextLineSorted(env: Meaning, p: Parser, b: Byte)
    requires p.at == ValueLws || p.at == DiscardLws
    ensures Sorted(p, b, StepHeader(env, p, b))
  {
    if !IsBlank(b) {
      FieldStartSorted(env, p.(at := FieldStart, head := p.head + [(p.at, b)]), b);
    }
  }

  lemma HeadersDoneSorted(env: Meaning, p: Parser, b: Byte)
    requires p.at == HeadersAlmostDone
    ensures Sorted(p, b, StepHeadersAlmostDone(env, p, b))
  {}

  /** The states inside a header. */
  lemma InHeaderSorted(env: Meaning, p: Parser, b: Byte)
    requires p.at == Field || p.at == DiscardWs || p.at == DiscardWsAlmostDone || p.at == Value || p.at == AlmostDone
    ensures Sorted(p, b, StepHeader(env, p, b))
  {}

  lemma HeaderSorted(env: Meaning, p: Parser, b: Byte)
    requires !InLine(p.at) && p.at != InBody && p.at != Dead
    ensures Sorted(p, b, StepHeader(env, p, b))
  {
    match p.at
    case FieldStart => FieldStartSorted(env, p, b);
    case ValueLws => NextLineSorted(env, p, b);
    case DiscardLws => NextLineSorted(env, p, b);
    case HeadersAlmostDone => HeadersDoneSorted(env, p, b);
    case _ => InHeaderSorted(env, p, b);
  }

  lemma LiftOne(e: B.Event)
    ensures LiftAll([e]) == [Lift(e)]
  {
    assert [e][1..] == [];
    assert LiftAll([]) == [];
  }

  lemma LiftTwo(e: B.Event, f: B.Event)
    ensures LiftAll([e, f]) == [Lift(e), Lift(f)]
  {
    assert [e, f][1..] == [f];
    LiftOne(f);
  }

  lemma BodyNotices(p: B.Parser, b: Byte)
    requires p.at != B.ChunkData && p.at != B.BodyIdentity && p.at != B.BodyEof
    ensures Notices(LiftAll(B.Step(p, b).events))
    ensures p.at == B.ChunkDataAlmostDone ==>
      var o := B.Step(p, b); LiftAll(o.events) == [] && (o.status == Going || o.status.Refused?)
  {
    var es := B.Step(p, b).events;
    assert es == [] || |es| == 1 || es == [B.ChunkComplete, B.MessageComplete];
    if |es| == 1 {
      assert es == [es[0]];
      LiftOne(es[0]);
    } else if es != [] {
      LiftTwo(B.ChunkComplete, B.MessageComplete);
    }
  }

  lemma BodySorted(env: Meaning, p: Parser, b: Byte)
    requires p.at == InBody && !InData(p)
    ensures Sorted(p, b, StepBody(env, p, b))
  {
    if !TrailerField(p.body, b) { BodyNotices(p.body, b); }
  }

  lemma StepSorted(env: Meaning, p: Parser, b: Byte)
    requires !InData(p)
    ensures Sorted(p, b, Step(env, p, b))
  {
    if InLine(p.at) {
      LineSorted(env, p, b);
    } else if p.at == InBody {
      BodySorted(env, p, b);
    } else if p.at != Dead {
      HeaderSorted(env, p, b);
    }
  }

  // ---------- The marks

  /** url_mark, header_field_mark, header_value_mark and body_mark: an index, or -1. */
  datatype Marks = Marks(url: int, field: int, value: int, body: int)

  const NO_MARKS := Marks(-1, -1, -1, -1)

  function Get(m: Marks, k: Kind): int {
    match k
    case Url => m.url
    case HeaderField => m.field
    case HeaderValue => m.value
    case Body => m.body
  }

  /** MARK */
  function Mark(m: Marks, k: Kind, i: nat): Marks {
    if Get(m, k) >= 0 then m else
    match k
    case Url => m.(url := i)
    case HeaderField => m.(field := i)
    case HeaderValue => m.(value := i)
    case Body => m.(body := i)
  }

  /** How many marks are set. */
  function Count(m: Marks): nat {
    (if m.url >= 0 then 1 else 0) + (if m.field >= 0 then 1 else 0)
    + (if m.value >= 0 then 1 else 0) + (if m.body >= 0 then 1 else 0)
  }

  /** No mark is set but the one that belongs to the state, and it lies before `i`. */
  predicate MarksFit(m: Marks, p: Parser, i: nat) {
    && m.url < i + 1 && m.field < i + 1 && m.value < i + 1 && m.body < i + 1
    && (m.url >= 0 ==> KindAt(p) == Some(Url)) && (m.field >= 0 ==> KindAt(p) == Some(HeaderField))
    && (m.value >= 0 ==> KindAt(p) == Some(HeaderValue)) && (m.body >= 0 ==> KindAt(p) == Some(Body))
  }

  lemma AtMostOne(m: Marks, p: Parser, i: nat)
    requires MarksFit(m, p, i)
    ensures Count(m) <= 1
  {}

  /** The kind of the bytes that are marked; any will do when there are none. */
  function Resting(p: Parser): Kind { if KindAt(p).Some? then KindAt(p).value else Body }

  /** The bytes that are marked. */
  function Pending(m: Marks, p: Parser, d: seq<Byte>, i: nat): seq<Byte>
    requires i <= |d| && MarksFit(m, p, i)
  {
    var j := Get(m, Resting(p));
    if j >= 0 then d[j..i] else []
  }

  /** The marks that a buffer begins with. */
  function FirstMarks(p: Parser): Marks {
    match p.at
    case InUrl(_) => NO_MARKS.(url := 0)
    case Field => NO_MARKS.(field := 0)
    case Value => NO_MARKS.(value := 0)
    case _ => NO_MARKS
  }

  lemma MarkedOneMore(m: Marks, p: Parser, d: seq<Byte>, i: nat, p': Parser, k: Kind)
    requires i < |d| && MarksFit(m, p, i) && KindAt(p') == Some(k) && (KindAt(p) == Some(k) || KindAt(p) == None)
    ensures MarksFit(Mark(m, k, i), p', i + 1)
    ensures Pending(Mark(m, k, i), p', d, i + 1) == Pending(m, p, d, i) + [d[i]]
  {
    var j := Get(m, k);
    if j >= 0 { assert d[j..i + 1] == d[j..i] + [d[i]]; } else { assert d[i..i + 1] == [] + [d[i]]; }
  }

  // ---------- How far the loop has come

  /** What has been told, with the bytes that are marked. */
  function ToldWith(calls: seq<Call>, k: Kind, pend: seq<Byte>): seq<Event> { Heard(Told, calls) + DataEvents(k, pend) }

  function ToldAt(m: Marks, p: Parser, d: seq<Byte>, i: nat, calls: seq<Call>): seq<Event>
    requires i <= |d| && MarksFit(m, p, i)
  {
    ToldWith(calls, Resting(p), Pending(m, p, d, i))
  }

  ghost predicate Stands(run: (Parser, seq<Byte>) -> Res, p0: Parser, d: seq<Byte>, h0: seq<Event>, i: nat, m: Marks,
                         p: Parser, calls: seq<Call>) {
    && i <= |d| && Sound(p) && MarksFit(m, p, i) && (InData(p) && i < |d| ==> m == NO_MARKS)
    && Sofar(run, p0, d, h0, p, ToldAt(m, p, d, i, calls), d[i..])
  }

  /** What the loop has done when it stops. */
  ghost predicate Stopped(o: Res, h0: seq<Event>, p: Parser, calls: seq<Call>, status: Status) {
    && p == o.p && status == o.status && Heard(Told, calls) <= h0 + o.events
    && (!status.Refused? ==> Heard(Told, calls) == h0 + o.events)
  }

  lemma Slices(d: seq<Byte>, i: nat, n: nat)
    requires i + n <= |d|
    ensures d[i..] == d[i..i + n] + d[i + n..]
    ensures i < |d| ==> d[i..] != [] && d[i..][0] == d[i] && d[i..][1..] == d[i + 1..]
  {}

  lemma ToldFirst(calls: seq<Call>, es: seq<Event>, k: Kind, b: Byte)
    requires Notices(es)
    ensures ToldWith(calls + CallsFor(Notify, es), k, [b]) == Heard(Told, calls) + (es + [Data(k, b)])
  {
    HeardFor(Told, Notify, calls, es);
    OneMore(k, [], b);
    assert [] + [b] == [b];
    Join(Heard(Told, calls), es, [Data(k, b)]);
  }

  lemma ToldNext(calls: seq<Call>, k: Kind, pend: seq<Byte>, b: Byte)
    ensures ToldWith(calls + CallsFor(Notify, []), k, pend + [b]) == ToldWith(calls, k, pend) + [Data(k, b)]
  {
    assert calls + CallsFor(Notify, []) == calls;
    OneMore(k, pend, b);
    Join(Heard(Told, calls), DataEvents(k, pend), [Data(k, b)]);
  }

  lemma ToldMore(calls: seq<Call>, p: Parser, o: Res, k: Kind, pend: seq<Byte>, b: Byte)
    requires DataOut(p, o, k, b) && (KindAt(p).None? ==> pend == [])
    ensures ToldWith(calls + CallsFor(Notify, Ahead(p)), k, pend + [b]) == ToldWith(calls, Resting(p), pend) + o.events
  {
    if KindAt(p).None? {
      ToldFirst(calls, Ahead(p), k, b);
      NothingMarked(calls, Resting(p));
      assert [] + [b] == [b];
    } else {
      ToldNext(calls, k, pend, b);
      assert Ahead(p) == [] && o.events == [Data(k, b)];
    }
  }

  lemma NothingMarked(calls: seq<Call>, k: Kind)
    ensures ToldWith(calls, k, []) == Heard(Told, calls)
  {}

  lemma Unmarked(p: Parser, d: seq<Byte>, i: nat, calls: seq<Call>)
    requires i <= |d|
    ensures ToldAt(NO_MARKS, p, d, i, calls) == Heard(Told, calls)
  {
    NothingMarked(calls, Resting(p));
  }

  lemma BodyMarked(p: Parser, d: seq<Byte>, i: nat, n: nat, calls: seq<Call>)
    requires i + n <= |d| && KindAt(p) == Some(Body)
    ensures ToldAt(NO_MARKS.(body := i), p, d, i + n, calls) == ToldWith(calls, Body, d[i..i + n])
  {}

  /** A byte that is data: what is to be told before it, and the mark. */
  method DataTurn(d: seq<Byte>, i: nat, m: Marks, p: Parser, o: Res, k: Kind, calls: seq<Call>,
                  ghost run: (Parser, seq<Byte>) -> Res, ghost step: (Parser, Byte) -> Res, ghost p0: Parser,
                  ghost h0: seq<Event>)
    returns (m': Marks, calls': seq<Call>)
    requires Runs(run, step) && Stands(run, p0, d, h0, i, m, p, calls) && i < |d| && o == step(p, d[i]) && Sound(o.p)
    requires DataOut(p, o, k, d[i])
    ensures Stands(run, p0, d, h0, i + 1, m', o.p, calls')
  {
    m', calls' := Mark(m, k, i), calls + CallsFor(Notify, Ahead(p));
    Slices(d, i, 0);
    MarkedOneMore(m, p, d, i, o.p, k);
    ToldMore(calls, p, o, k, Pending(m, p, d, i), d[i]);
    SofarStep(run, step, p0, d, h0, p, ToldAt(m, p, d, i, calls), d[i..], o, ToldAt(m', o.p, d, i + 1, calls'));
  }

  /** The callback for what is marked, if anything is. */
  method Flush(d: seq<Byte>, i: nat, m: Marks, ghost p: Parser, calls: seq<Call>) returns (calls': seq<Call>)
    requires i <= |d| && MarksFit(m, p, i)
    ensures Heard(Told, calls') == ToldAt(m, p, d, i, calls)
  {
    calls' := calls;
    NothingMarked(calls, Resting(p));
    HeardOne(Told, calls, OnData(Resting(p), Pending(m, p, d, i)));
    if m.field >= 0 {
      calls' := calls' + [OnData(HeaderField, d[m.field..i])];
    }
    if m.value >= 0 {
      calls' := calls' + [OnData(HeaderValue, d[m.value..i])];
    }
    if m.url >= 0 {
      calls' := calls' + [OnData(Url, d[m.url..i])];
    }
    if m.body >= 0 {
      calls' := calls' + [OnData(Body, d[m.body..i])];
    }
  }

  /** A byte that is refused leaves the marked bytes unheard. */
  lemma RefusedMarked(run: (Parser, seq<Byte>) -> Res, step: (Parser, Byte) -> Res, p0: Parser, d: seq<Byte>,
                      h0: seq<Event>, i: nat, m: Marks, p: Parser, o: Res, calls: seq<Call>)
    requires Runs(run, step) && Stands(run, p0, d, h0, i, m, p, calls) && i < |d| && o == step(p, d[i]) &&
             o.status.Refused? && o.events == []
    ensures Stopped(run(p0, d), h0, o.p, calls, o.status)
  {
    var told := ToldAt(m, p, d, i, calls);
    Slices(d, i, 0);
    assert told + o.events == told;
    SofarStep(run, step, p0, d, h0, p, told, d[i..], o, told);
  }

  /** A byte that is not data, or is refused. */
  method PlainTurn(d: seq<Byte>, i: nat, m: Marks, p: Parser, o: Res, calls: seq<Call>,
                   ghost run: (Parser, seq<Byte>) -> Res, ghost step: (Parser, Byte) -> Res, ghost p0: Parser,
                   ghost h0: seq<Event>)
    returns (calls': seq<Call>)
    requires Runs(run, step) && Stands(run, p0, d, h0, i, m, p, calls) && i < |d| && o == step(p, d[i]) &&
             (o.status == Going ==> Sound(o.p))
    requires PlainOut(p, o)
    ensures o.status == Going ==> Stands(run, p0, d, h0, i + 1, NO_MARKS, o.p, calls')
    ensures o.status != Going ==> Stopped(run(p0, d), h0, o.p, calls', o.status)
  {
    if o.status != Going && KindAt(p).Some? {
      RefusedMarked(run, step, p0, d, h0, i, m, p, o, calls);
      return calls;
    }
    ghost var told := ToldAt(m, p, d, i, calls);
    calls' := Flush(d, i, m, p, calls);
    HeardFor(Told, Notify, calls', o.events);
    calls' := calls' + CallsFor(Notify, o.events);
    Slices(d, i, 0);
    SofarStep(run, step, p0, d, h0, p, told, d[i..], o, Heard(Told, calls'));
    Unmarked(o.p, d, i + 1, calls');
  }

  // ---------- A run of body bytes

  /** How many bytes from here on are body. */
  function Stretch(p: Parser, n: nat): nat { if p.body.at == B.BodyEof || n < p.body.left then n else p.body.left }

  predicate Fits(p: Parser, n: nat) { InData(p) && 0 < n && (p.body.at != B.BodyEof ==> n <= p.body.left) }

  /** The last byte of a body of known length is in it. */
  predicate Ends(p: Parser, n: nat) { p.body.at == B.BodyIdentity && n == p.body.left }

  /** The parser after `n` body bytes. */
  function Past(env: Meaning, p: Parser, n: nat): Parser
    requires Fits(p, n)
  {
    if p.body.at == B.BodyEof then p
    else if n < p.body.left then p.(body := p.body.(left := p.body.left - n))
    else if p.body.at == B.ChunkData then p.(body := p.body.(left := 0, at := B.ChunkDataAlmostDone))
    else p.(body := p.body.(left := 0, at := B.NewMessage), at := NewMessage(env, p))
  }

  /** The outcome of a run of body bytes. */
  function BodyOut(env: Meaning, p: Parser, s: seq<Byte>): Res
    requires Fits(p, |s|)
  {
    Out(Past(env, p, |s|), DataEvents(Body, s) + if Ends(p, |s|) then [MessageComplete] else [],
        if Ends(p, |s|) && p.body.upgrade then Closed else Going)
  }

  lemma BodyByte(env: Meaning, p: Parser, b: Byte)
    requires Fits(p, 1)
    ensures StepBody(env, p, b) == BodyOut(env, p, [b])
  {
    LiftOne(B.Body(b));
    LiftTwo(B.Body(b), B.MessageComplete);
    assert B.Step(p.body, b).events == if Ends(p, 1) then [B.Body(b), B.MessageComplete] else [B.Body(b)];
    OneMore(Body, [], b);
    assert [] + [b] == [b];
  }

  /** To ask what a step does with a byte. */
  predicate Noted(p: Parser, b: Byte) { true }

  /** All that the loop relies on in the step of the parser. */
  ghost predicate Lawful(env: Meaning, step: (Parser, Byte) -> Res) {
    forall p: Parser, b: Byte {:trigger Noted(p, b)} :: Noted(p, b) ==>
      && (Sound(p) && step(p, b).status == Going ==> Sound(step(p, b).p))
      && (!InData(p) ==> Sorted(p, b, step(p, b)))
      && (Fits(p, 1) ==> step(p, b) == BodyOut(env, p, [b]))
  }

  lemma StepLawful(env: Meaning, p: Parser, b: Byte)
    ensures Sound(p) && Step(env, p, b).status == Going ==> Sound(Step(env, p, b).p)
    ensures !InData(p) ==> Sorted(p, b, Step(env, p, b))
    ensures Fits(p, 1) ==> Step(env, p, b) == BodyOut(env, p, [b])
  {
    if Sound(p) && Step(env, p, b).status == Going { StepSound(env, p, b); }
    if !InData(p) { StepSorted(env, p, b); }
    if Fits(p, 1) { BodyByte(env, p, b); }
  }

  lemma StepperLawful(env: Meaning, step: (Parser, Byte) -> Res)
    requires forall p, b :: step(p, b) == Step(env, p, b)
    ensures Lawful(env, step)
  {
    forall p: Parser, b: Byte | Noted(p, b)
      ensures Sound(p) && step(p, b).status == Going ==> Sound(step(p, b).p)
      ensures !InData(p) ==> Sorted(p, b, step(p, b))
      ensures Fits(p, 1) ==> step(p, b) == BodyOut(env, p, [b])
    {
      StepLawful(env, p, b);
    }
  }

  lemma PastMore(env: Meaning, p: Parser, n: nat)
    requires Fits(p, n + 1) && 0 < n
    ensures Fits(p, n) && !Ends(p, n) && Fits(Past(env, p, n), 1) && Past(env, p, n).body.upgrade == p.body.upgrade
    ensures Past(env, Past(env, p, n), 1) == Past(env, p, n + 1) && (Ends(Past(env, p, n), 1) <==> Ends(p, n + 1))
  {}

  lemma EventsMore(s: seq<Byte>, b: Byte, tail: seq<Event>)
    ensures DataEvents(Body, s + [b]) + tail == DataEvents(Body, s) + (DataEvents(Body, [b]) + tail)
  {
    OneMore(Body, s, b);
    OneMore(Body, [], b);
    assert [] + [b] == [b];
  }

  lemma {:induction false} ReadStretch(env: Meaning, step: (Parser, Byte) -> Res, p: Parser, s: seq<Byte>)
    requires Lawful(env, step) && Fits(p, |s|)
    ensures Run(step, p, s) == BodyOut(env, p, s)
    decreases |s|
  {
    var front, b := s[..|s| - 1], s[|s| - 1];
    assert s == front + [b];
    if front == [] {
      assert s == [b] && Noted(p, b);
      RunOne(step, p, b);
    } else {
      PastMore(env, p, |front|);
      EventsMore(front, b, if Ends(p, |s|) then [MessageComplete] else []);
      ReadStretch(env, step, p, front);
      var p' := Past(env, p, |front|);
      assert Noted(p', b);
      RunOne(step, p', b);
      RunConcat(step, p, front, [b]);
      assert DataEvents(Body, front) + [] == DataEvents(Body, front);
    }
  }

  /** What a run of body bytes does, as far as the marks are concerned. */
  predicate BodyShape(p: Parser, o: Res, s: seq<Byte>) {
    && InData(p) && o.events == (if Ends(p, |s|) then DataEvents(Body, s) + [MessageComplete] else DataEvents(Body, s))
    && (o.status == Going || (o.status == Closed && Ends(p, |s|)))
    && (Ends(p, |s|) ==> !InData(o.p))
    && (!Ends(p, |s|) ==> KindAt(o.p) == Some(Body) && (InData(o.p) ==> p.body.at == B.BodyEof || |s| < p.body.left))
  }

  /** MARK(body), and the bytes that it is for. */
  method ReadBody(env: Meaning, ghost run: (Parser, seq<Byte>) -> Res, ghost step: (Parser, Byte) -> Res, p: Parser,
                  s: seq<Byte>) returns (o: Res)
    requires Runs(run, step) && Lawful(env, step) && Sound(p) && Fits(p, |s|)
    ensures o == run(p, s) && Sound(o.p) && BodyShape(p, o, s)
  {
    o := BodyOut(env, p, s);
    ReadStretch(env, step, p, s);
    assert Asked(p, s);
    assert DataEvents(Body, s) + [] == DataEvents(Body, s);
  }

  /** The calls at the end of a body. */
  lemma EndTold(calls: seq<Call>, s: seq<Byte>, calls': seq<Call>)
    requires calls' == calls + [OnData(Body, s)] + [OnEvent(MessageComplete)]
    ensures Heard(Told, calls') == Heard(Told, calls) + (DataEvents(Body, s) + [MessageComplete])
  {
    HeardOne(Told, calls, OnData(Body, s));
    HeardOne(Told, calls + [OnData(Body, s)], OnEvent(MessageComplete));
    Join(Heard(Told, calls), DataEvents(Body, s), [MessageComplete]);
  }

  lemma BodyToldAll(run: (Parser, seq<Byte>) -> Res, step: (Parser, Byte) -> Res, p0: Parser, d: seq<Byte>,
                    h0: seq<Event>,
                    i: nat, n: nat, p: Parser, o: Res, calls: seq<Call>, calls': seq<Call>)
    requires Runs(run, step) && i + n <= |d| && Stands(run, p0, d, h0, i, NO_MARKS, p, calls) && Ends(p, n)
    requires o == run(p, d[i..i + n]) && Sound(o.p) && Heard(Told, calls) + o.events == Heard(Told, calls')
    requires !InData(o.p)
    ensures o.status == Going ==> Stands(run, p0, d, h0, i + n, NO_MARKS, o.p, calls')
    ensures o.status != Going ==> Stopped(run(p0, d), h0, o.p, calls', o.status)
  {
    Slices(d, i, n);
    Unmarked(p, d, i, calls);
    SofarRun(run, step, p0, d, h0, p, Heard(Told, calls), d[i..i + n], d[i + n..], d[i..], o, Heard(Told, calls'));
    Unmarked(o.p, d, i + n, calls');
  }

  lemma BodyToldOn(run: (Parser, seq<Byte>) -> Res, step: (Parser, Byte) -> Res, p0: Parser, d: seq<Byte>,
                   h0: seq<Event>,
                   i: nat, n: nat, p: Parser, o: Res, calls: seq<Call>)
    requires Runs(run, step) && i + n <= |d| && Stands(run, p0, d, h0, i, NO_MARKS, p, calls) &&
             n == Stretch(p, |d| - i)
    requires o == run(p, d[i..i + n]) && Sound(o.p) && BodyShape(p, o, d[i..i + n]) && !Ends(p, n)
    requires Heard(Told, calls) + o.events == ToldWith(calls, Body, d[i..i + n])
    ensures o.status == Going && Stands(run, p0, d, h0, i + n, NO_MARKS.(body := i), o.p, calls)
  {
    Slices(d, i, n);
    Unmarked(p, d, i, calls);
    BodyMarked(o.p, d, i, n, calls);
    SofarRun(run, step, p0, d, h0, p, Heard(Told, calls), d[i..i + n], d[i + n..], d[i..], o,
             ToldAt(NO_MARKS.(body := i), o.p, d, i + n, calls));
  }

  lemma BodyHeard(p: Parser, o: Res, s: seq<Byte>, calls: seq<Call>, calls': seq<Call>)
    requires BodyShape(p, o, s)
    requires calls' == if Ends(p, |s|) then calls + [OnData(Body, s)] + [OnEvent(MessageComplete)] else calls
    ensures Heard(Told, calls) + o.events == if Ends(p, |s|) then Heard(Told, calls') else ToldWith(calls', Body, s)
  {
    if Ends(p, |s|) { EndTold(calls, s, calls'); }
  }

  /** The marks and callbacks for a run of body bytes. */
  method BodyCalls(d: seq<Byte>, i: nat, n: nat, p: Parser, o: Res, calls: seq<Call>,
                   ghost run: (Parser, seq<Byte>) -> Res,
                   ghost step: (Parser, Byte) -> Res, ghost p0: Parser, ghost h0: seq<Event>)
    returns (m: Marks, calls': seq<Call>)
    requires Runs(run, step) && i + n <= |d| && Stands(run, p0, d, h0, i, NO_MARKS, p, calls) &&
             n == Stretch(p, |d| - i)
    requires o == run(p, d[i..i + n]) && Sound(o.p) && BodyShape(p, o, d[i..i + n])
    ensures o.status == Going ==> Stands(run, p0, d, h0, i + n, m, o.p, calls')
    ensures o.status != Going ==> Stopped(run(p0, d), h0, o.p, calls', o.status)
  {
    var s := d[i..i + n];
    m, calls' := NO_MARKS.(body := i), calls;
    if Ends(p, n) {
      m, calls' := NO_MARKS, calls + [OnData(Body, s)] + [OnEvent(MessageComplete)];
    }
    BodyHeard(p, o, s, calls, calls');
    if Ends(p, n) {
      BodyToldAll(run, step, p0, d, h0, i, n, p, o, calls, calls');
    } else {
      BodyToldOn(run, step, p0, d, h0, i, n, p, o, calls);
    }
  }

  // ---------- The loop

  /** The body, up to its end or the end of the buffer. */
  method BodyTurn(env: Meaning, d: seq<Byte>, i: nat, ghost m: Marks, p: Parser, calls: seq<Call>,
                  ghost run: (Parser, seq<Byte>) -> Res,
                  ghost step: (Parser, Byte) -> Res, ghost p0: Parser, ghost h0: seq<Event>)
    returns (n: nat, o: Res, m': Marks, calls': seq<Call>)
    requires Stands(run, p0, d, h0, i, m, p, calls) && i < |d| && InData(p) && Runs(run, step) && Lawful(env, step)
    ensures 0 < n && (o.status == Going ==> Stands(run, p0, d, h0, i + n, m', o.p, calls'))
    ensures o.status != Going ==> Stopped(run(p0, d), h0, o.p, calls', o.status)
  {
    n := Stretch(p, |d| - i);
    o := ReadBody(env, run, step, p, d[i..i + n]);
    m', calls' := BodyCalls(d, i, n, p, o, calls, run, step, p0, h0);
  }

  /** One byte outside the body.  The loops inside s_header_field and s_header_value take the same turns
      for the bytes that they go over. */
  method ByteTurn(env: Meaning, d: seq<Byte>, i: nat, m: Marks, p: Parser, calls: seq<Call>,
                  ghost run: (Parser, seq<Byte>) -> Res,
                  step: (Parser, Byte) -> Res, ghost p0: Parser, ghost h0: seq<Event>)
    returns (o: Res, m': Marks, calls': seq<Call>)
    requires Stands(run, p0, d, h0, i, m, p, calls) && i < |d| && !InData(p) && Runs(run, step) && Lawful(env, step)
    ensures o.status == Going ==> Stands(run, p0, d, h0, i + 1, m', o.p, calls')
    ensures o.status != Going ==> Stopped(run(p0, d), h0, o.p, calls', o.status)
  {
    assert Noted(p, d[i]);
    o := step(p, d[i]);
    if DataOf(p, d[i]).Some? && o.status == Going {
      m', calls' := DataTurn(d, i, m, p, o, DataOf(p, d[i]).value, calls, run, step, p0, h0);
    } else {
      calls' := PlainTurn(d, i, m, p, o, calls, run, step, p0, h0);
      m' := NO_MARKS;
    }
  }

  /** One turn of the loop, over `n` bytes. */
  method Turn(env: Meaning, d: seq<Byte>, i: nat, m: Marks, p: Parser, calls: seq<Call>,
              ghost run: (Parser, seq<Byte>) -> Res,
              step: (Parser, Byte) -> Res, ghost p0: Parser, ghost h0: seq<Event>)
    returns (n: nat, o: Res, m': Marks, calls': seq<Call>)
    requires Stands(run, p0, d, h0, i, m, p, calls) && i < |d| && Runs(run, step) && Lawful(env, step)
    ensures 0 < n && (o.status == Going ==> Stands(run, p0, d, h0, i + n, m', o.p, calls'))
    ensures o.status != Going ==> Stopped(run(p0, d), h0, o.p, calls', o.status)
  {
    if InData(p) {
      n, o, m', calls' := BodyTurn(env, d, i, m, p, calls, run, step, p0, h0);
      return;
    }
    n := 1;
    o, m', calls' := ByteTurn(env, d, i, m, p, calls, run, step, p0, h0);
  }

  lemma Begins(run: (Parser, seq<Byte>) -> Res, p: Parser, d: seq<Byte>, calls: seq<Call>)
    requires Sound(p)
    ensures Stands(run, p, d, Heard(Told, calls), 0, FirstMarks(p), p, calls)
  {
    NothingMarked(calls, Resting(p));
    assert d[0..] == d && Pending(FirstMarks(p), p, d, 0) == [];
  }

  /** The end of the buffer: what is marked is handed on. */
  method Finish(d: seq<Byte>, m: Marks, p: Parser, calls: seq<Call>, ghost run: (Parser, seq<Byte>) -> Res,
                ghost step: (Parser, Byte) -> Res, ghost p0: Parser, ghost h0: seq<Event>)
    returns (calls': seq<Call>)
    requires Runs(run, step) && Stands(run, p0, d, h0, |d|, m, p, calls)
    ensures Stopped(run(p0, d), h0, p, calls', Going)
  {
    calls' := Flush(d, |d|, m, p, calls);
    assert d[|d|..] == [];
    SofarEnd(run, step, p0, d, h0, p, Heard(Told, calls'));
  }

  /** The loop over a buffer: at its end at most one mark is set. */
  method Loop(env: Meaning, d: seq<Byte>, p0: Parser, calls: seq<Call>,
              ghost run: (Parser, seq<Byte>) -> Res, step: (Parser, Byte) -> Res)
    returns (status: Status, p: Parser, calls': seq<Call>, marks: Marks)
    requires Sound(p0) && Runs(run, step) && Lawful(env, step)
    ensures Stopped(run(p0, d), Heard(Told, calls), p, calls', status)
    ensures status == Going ==> Sound(p) && MarksFit(marks, p, |d|) && Count(marks) <= 1
  {
    ghost var h0 := Heard(Told, calls);
    Begins(run, p0, d, calls);
    var i := 0;
    status, marks, p, calls' := Going, FirstMarks(p0), p0, calls;
    while i < |d|
      invariant Stands(run, p0, d, h0, i, marks, p, calls') && status == Going
      decreases |d| - i
    {
      var n, o;
      n, o, marks, calls' := Turn(env, d, i, marks, p, calls', run, step, p0, h0);
      status, i, p := o.status, i + n, o.p;
      if status != Going {
        return;
      }
    }
    AtMostOne(marks, p, i);
    calls' := Finish(d, marks, p, calls', run, step, p0, h0);
  }

  /** The parser of a connection and the callbacks it has made. */
  class Connection {
    const env: Meaning
    var parser: Parser
    var calls: seq<Call>

    constructor (env: Meaning, p: Parser)
      requires Sound(p)
      ensures this.env == env && parser == p && calls == []
    {
      this.env, parser, calls := env, p, [];
    }

    /** http_parser_execute: the callbacks hear what the bytes say one by one, but for the marked bytes
        that a refusal leaves unheard; an empty buffer is the end of the connection. */
    method Execute(data: seq<Byte>) returns (status: Status)
      requires Sound(parser)
      modifies this`parser, this`calls
      ensures var o := if data == [] then AtEnd(old(parser)) else Run(Stepper(env), old(parser), data);
        Stopped(o, old(Heard(Told, calls)), parser, calls, status)
      ensures status == Going ==> Sound(parser)
    {
      if |data| == 0 {
        var o := AtEnd(parser);
        HeardFor(Told, Notify, calls, o.events);
        calls := calls + CallsFor(Notify, o.events);
        return o.status;
      }
      var p, cs, marks;
      StepperLawful(env, Stepper(env));
      ghost var run := Runner(Stepper(env));
      assert Asked(parser, data);
      status, p, cs, marks := Loop(env, data, parser, calls, run, Stepper(env));
      parser, calls := p, cs;
    }

    /** One buffer after the other, until one of them stops the parser. */
    method ExecuteAll(bufs: seq<seq<Byte>>) returns (status: Status)
      requires Sound(parser) && forall i :: 0 <= i < |bufs| ==> bufs[i] != []
      modifies this`parser, this`calls
      ensures Stopped(RunAll(Stepper(env), old(parser), bufs), old(Heard(Told, calls)), parser, calls, status)
      ensures status == Going ==> Sound(parser)
    {
      status := Going;
      var i := 0;
      ghost var p0, h0 := parser, Heard(Told, calls);
      assert h0 + [] == h0;
      while i < |bufs|
        invariant i <= |bufs| && status == Going && Sound(parser)
        invariant Stopped(RunAll(Stepper(env), p0, bufs[..i]), h0, parser, calls, Going)
      {
        ghost var o, before := RunAll(Stepper(env), p0, bufs[..i]), parser;
        assert bufs[..i + 1][..i] == bufs[..i];
        status := Execute(bufs[i]);
        Join(h0, o.events, Run(Stepper(env), before, bufs[i]).events);
        i := i + 1;
        if status != Going {
          StopsThere(Stepper(env), p0, bufs, i);
          return;
        }
      }
      assert bufs[..i] == bufs;
    }
  }
}
