/** The loop of ws_parser_execute as it stands: payload in chunks, unmasked where it lies. */
module WsReader {
  import opened ByteStream
  import opened Hearing
  import opened WsParser

  /** The callbacks as they are called. */
  datatype Call = OnEvent(e: Event) | OnPayload(control: bool, s: seq<Byte>)

  /** A call with its payload byte by byte. */
  function Told(c: Call): seq<Event> { if c.OnEvent? then [c.e] else PayloadEvents(c.control, c.s) }

  function Notify(e: Event): Call { OnEvent(e) }

  lemma ToldEvents(calls: seq<Call>, es: seq<Event>)
    ensures Heard(Told, calls + CallsFor(Notify, es)) == Heard(Told, calls) + es
  {
    HeardFor(Told, Notify, calls, es);
  }

  // ---------- The buffer

  /** The buffer as the parser leaves it: payload unmasked, everything else as it was. */
  ghost function Painted(p: Parser, s: seq<Byte>): seq<Byte>
    decreases |s|
  {
    if s == [] then [] else
    var o := Step(p, s[0]);
    [if p.at == Payload then Unmask(p, s[0]) else s[0]] + if o.status == Going then Painted(o.p, s[1..]) else s[1..]
  }

  // ---------- A chunk of payload

  /** The parser after one payload byte that is not the last. */
  function Advance(p: Parser): Parser
    requires p.rem > 0
  {
    p.(rem := p.rem - 1, maskPos := if p.masked then (p.maskPos + 1) % 4 else p.maskPos)
  }

  function AdvanceBy(p: Parser, n: nat): Parser
    requires n <= p.rem
    decreases n
  {
    if n == 0 then p else AdvanceBy(Advance(p), n - 1)
  }

  function Chunk(p: Parser, s: seq<Byte>): seq<Byte>
    requires |s| <= p.rem
    decreases |s|
  {
    if s == [] then [] else [Unmask(p, s[0])] + Chunk(Advance(p), s[1..])
  }

  /** The parser and the events after a chunk. */
  function ChunkDone(p: Parser, s: seq<Byte>): Res
    requires |s| <= p.rem
  {
    var p', es := AdvanceBy(p, |s|), PayloadEvents(p.control, Chunk(p, s));
    if |s| < p.rem then Out(p', es, Going)
    else
      var o := EndOfPayload(p');
      o.(events := es + o.events)
  }

  lemma ChunkOfOne(p: Parser, b: Byte)
    requires p.at == Payload && 1 <= p.rem
    ensures Step(p, b) == ChunkDone(p, [b])
  {
    assert [b][1..] == [] && AdvanceBy(p, 1) == AdvanceBy(Advance(p), 0);
    assert Chunk(p, [b]) == [Unmask(p, b)] + Chunk(Advance(p), []) == [Unmask(p, b)];
    assert [Unmask(p, b)][1..] == [];
    assert PayloadEvents(p.control, [Unmask(p, b)]) ==
           [if p.control then Control(Unmask(p, b)) else Data(Unmask(p, b))];
  }

  /** A chunk at once is the chunk byte by byte. */
  lemma {:induction false} RunChunk(p: Parser, s: seq<Byte>)
    requires p.at == Payload && 0 < |s| <= p.rem
    ensures Run(Step, p, s) == ChunkDone(p, s)
    decreases |s|
  {
    var b := s[0];
    RunOne(Step, p, b);
    if |s| == 1 {
      assert s == [b];
      ChunkOfOne(p, b);
    } else {
      assert s == [b] + s[1..];
      RunConcat(Step, p, [b], s[1..]);
      RunChunk(Advance(p), s[1..]);
    }
  }

  lemma PaintFirst(p: Parser, s: seq<Byte>)
    requires s != [] && p.at == Payload && p.rem > 0
    ensures Painted(p, s) == [Unmask(p, s[0])] +
            Painted(if p.rem == 1 then EndOfPayload(Advance(p)).p else Advance(p), s[1..])
  {}

  lemma {:induction false} PaintChunk(p: Parser, s: seq<Byte>, rest: seq<Byte>)
    requires p.at == Payload && 0 < |s| <= p.rem
    ensures Painted(p, s + rest) == Chunk(p, s) + Painted(ChunkDone(p, s).p, rest)
    decreases |s|
  {
    PaintFirst(p, s + rest);
    assert (s + rest)[1..] == s[1..] + rest && (s + rest)[0] == s[0];
    if |s| == 1 {
      assert s[1..] == [] && [] + rest == rest;
      assert AdvanceBy(p, 1) == Advance(p);
      assert Chunk(p, s) == [Unmask(p, s[0])] + Chunk(Advance(p), []);
    } else {
      PaintChunk(Advance(p), s[1..], rest);
      JoinBytes([Unmask(p, s[0])], Chunk(Advance(p), s[1..]), Painted(ChunkDone(p, s).p, rest));
    }
  }

  lemma JoinBytes(a: seq<Byte>, b: seq<Byte>, c: seq<Byte>)
    ensures a + (b + c) == (a + b) + c
  {}

  // ---------- The loop

  lemma {:induction false} ChunkSnoc(p: Parser, s: seq<Byte>, b: Byte)
    requires |s| < p.rem
    ensures Chunk(p, s + [b]) == Chunk(p, s) + [Unmask(AdvanceBy(p, |s|), b)]
    ensures AdvanceBy(p, |s|).rem == p.rem - |s| && AdvanceBy(p, |s| + 1) == Advance(AdvanceBy(p, |s|))
    decreases |s|
  {
    if s == [] {
      assert [] + [b] == [b];
      assert Chunk(p, [b]) == [Unmask(p, b)] + Chunk(Advance(p), [b][1..]);
      assert AdvanceBy(p, 1) == AdvanceBy(Advance(p), 0);
    } else {
      assert (s + [b])[1..] == s[1..] + [b];
      ChunkSnoc(Advance(p), s[1..], b);
    }
  }

  /** Unmasks `n` bytes from `i` on. */
  method UnmaskInPlace(buf: array<Byte>, i: nat, n: nat, p: Parser) returns (p': Parser)
    requires i + n <= buf.Length && n <= p.rem
    modifies buf
    ensures p' == AdvanceBy(p, n)
    ensures buf[..i] == old(buf[..i]) && buf[i..i + n] == Chunk(p, old(buf[i..i + n])) &&
            buf[i + n..] == old(buf[i + n..])
  {
    p' := p;
    var j := 0;
    ghost var s := buf[i..i + n];
    while j < n
      invariant j <= n && p' == AdvanceBy(p, j)
      invariant buf[..i] == old(buf[..i]) && buf[i + j..] == old(buf[i + j..])
      invariant buf[i..i + j] == Chunk(p, s[..j])
    {
      assert buf[i + j] == buf[i + j..][0] == old(buf[i + j..])[0] == s[j];
      assert s[..j + 1] == s[..j] + [s[j]];
      ChunkSnoc(p, s[..j], s[j]);
      buf[i + j] := Unmask(p', buf[i + j]);
      assert buf[i..i + j + 1] == buf[i..i + j] + [buf[i + j]];
      p' := Advance(p');
      j := j + 1;
    }
    assert s[..n] == s;
  }

  lemma {:induction false} ChunkPlain(p: Parser, s: seq<Byte>)
    requires |s| <= p.rem && !p.masked
    ensures Chunk(p, s) == s && AdvanceBy(p, |s|) == p.(rem := p.rem - |s|)
    decreases |s|
  {
    if s != [] { ChunkPlain(Advance(p), s[1..]); }
  }

  /** How far the loop has come in the buffer `b0`: `rest` is left, and what went before now reads `front`. */
  ghost predicate Sofar(p0: Parser, b0: seq<Byte>, p: Parser, done: seq<Event>, front: seq<Byte>, rest: seq<Byte>) {
    && Proper(p)
    && Run(Step, p0, b0) == Then(Step, Out(p, done, Going), rest)
    && Painted(p0, b0) == front + Painted(p, rest)
  }

  lemma PaintByte(p: Parser, front: seq<Byte>, s: seq<Byte>)
    requires p.at != Payload && s != []
    ensures var o := Step(p, s[0]);
      front + Painted(p, s) == if o.status == Going then (front + [s[0]]) + Painted(o.p, s[1..]) else front + s
  {
    var o := Step(p, s[0]);
    if o.status == Going {
      assert Painted(p, s) == [s[0]] + Painted(o.p, s[1..]);
      JoinBytes(front, [s[0]], Painted(o.p, s[1..]));
    } else {
      assert Painted(p, s) == [s[0]] + s[1..] == s;
    }
  }

  /** A byte that is not payload. */
  lemma SofarByte(p0: Parser, b0: seq<Byte>, p: Parser, done: seq<Event>, front: seq<Byte>, s: seq<Byte>)
    requires Sofar(p0, b0, p, done, front, s) && s != [] && p.at != Payload
    ensures var o := Step(p, s[0]);
      && (o.status == Going ==> Sofar(p0, b0, o.p, done + o.events, front + [s[0]], s[1..]))
      && (o.status != Going ==>
            Run(Step, p0, b0) == Out(o.p, done + o.events, o.status) && Painted(p0, b0) == front + s)
  {
    ThenStep(Step, p, done, s);
    PaintByte(p, front, s);
    if Step(p, s[0]).status == Going { StepProper(p, s[0]); }
  }

  lemma {:induction false} AdvanceProper(p: Parser, n: nat)
    requires n <= p.rem && p.maskPos < 4
    ensures var q := AdvanceBy(p, n); q == p.(rem := p.rem - n, maskPos := q.maskPos) && q.maskPos < 4
    decreases n
  {
    if n > 0 { AdvanceProper(Advance(p), n - 1); }
  }

  lemma {:induction false} ChunkLength(p: Parser, s: seq<Byte>)
    requires |s| <= p.rem
    ensures |Chunk(p, s)| == |s|
    decreases |s|
  {
    if s != [] { ChunkLength(Advance(p), s[1..]); }
  }

  lemma ThenChunk(p: Parser, done: seq<Event>, s: seq<Byte>, rest: seq<Byte>)
    requires p.at == Payload && 0 < |s| <= p.rem
    ensures var o := ChunkDone(p, s);
      Then(Step, Out(p, done, Going), s + rest) == Then(Step, Out(o.p, done + o.events, Going), rest)
  {
    var o := ChunkDone(p, s);
    RunChunk(p, s);
    RunConcat(Step, p, s, rest);
    assert done + (o.events + Run(Step, o.p, rest).events) == (done + o.events) + Run(Step, o.p, rest).events;
  }

  /** A chunk of payload. */
  lemma SofarChunk(p0: Parser, b0: seq<Byte>, p: Parser, done: seq<Event>, front: seq<Byte>, s: seq<Byte>,
                   rest: seq<Byte>)
    requires Sofar(p0, b0, p, done, front, s + rest) && p.at == Payload && 0 < |s| <= p.rem
    ensures var o := ChunkDone(p, s); Sofar(p0, b0, o.p, done + o.events, front + Chunk(p, s), rest)
  {
    var o := ChunkDone(p, s);
    ThenChunk(p, done, s, rest);
    PaintChunk(p, s, rest);
    AdvanceProper(p, |s|);
    assert front + (Chunk(p, s) + Painted(o.p, rest)) == (front + Chunk(p, s)) + Painted(o.p, rest);
  }

  lemma SofarStart(p: Parser, b: seq<Byte>)
    requires Proper(p)
    ensures Sofar(p, b, p, [], [], b)
  {
    assert [] + Run(Step, p, b).events == Run(Step, p, b).events;
    assert [] + Painted(p, b) == Painted(p, b);
  }

  lemma SofarEnd(p0: Parser, b0: seq<Byte>, p: Parser, done: seq<Event>, front: seq<Byte>)
    requires Sofar(p0, b0, p, done, front, [])
    ensures Run(Step, p0, b0) == Out(p, done, Going) && Painted(p0, b0) == front
  {
    assert done + [] == done && front + [] == front;
  }

  /** One chunk: the payload call, and the call for the end of the frame if it is there. */
  method HandleChunk(buf: array<Byte>, i: nat, n: nat, p: Parser, calls: seq<Call>, ghost front: seq<Byte>,
                     ghost s: seq<Byte>, ghost rest: seq<Byte>)
    returns (p': Parser, calls': seq<Call>)
    requires buf[..] == front + s + rest && |front| == i && |s| == n && p.at == Payload && 0 < n <= p.rem &&
             p.maskPos < 4
    modifies buf
    ensures p' == ChunkDone(p, s).p && Heard(Told, calls') == Heard(Told, calls) + ChunkDone(p, s).events
    ensures buf[..] == front + Chunk(p, s) + rest
  {
    ChunkLength(p, s);
    AdvanceProper(p, n);
    Parts(buf[..], front, s, rest);
    p' := p.(rem := p.rem - n);
    if p.masked {
      p' := UnmaskInPlace(buf, i, n, p);
      assert buf[..] == buf[..i] + buf[i..i + n] + buf[i + n..];
    } else {
      ChunkPlain(p, s);
    }
    Parts(buf[..], front, Chunk(p, s), rest);
    var call := OnPayload(p.control, buf[i..i + n]);
    HeardOne(Told, calls, call);
    calls' := calls + [call];
    if p'.rem == 0 {
      var o := EndOfPayload(p');
      ToldEvents(calls', o.events);
      Join(Heard(Told, calls), PayloadEvents(p.control, Chunk(p, s)), o.events);
      calls' := calls' + CallsFor(Notify, o.events);
      p' := o.p;
    }
  }

  lemma Parts(b: seq<Byte>, front: seq<Byte>, s: seq<Byte>, rest: seq<Byte>)
    requires b == front + s + rest
    ensures b[..|front|] == front && b[|front|..|front| + |s|] == s && b[|front| + |s|..] == rest
  {}

  /** A turn of the loop at a byte that is not payload. */
  method TurnByte(b: Byte, p: Parser, calls: seq<Call>,
                  ghost p0: Parser, ghost b0: seq<Byte>, ghost h0: seq<Event>, ghost done: seq<Event>,
                  ghost front: seq<Byte>, ghost s: seq<Byte>)
    returns (p': Parser, calls': seq<Call>, status: Status, ghost done': seq<Event>, ghost front': seq<Byte>,
      ghost rest': seq<Byte>)
    requires s != [] && b == s[0] && Sofar(p0, b0, p, done, front, s) && p.at != Payload &&
             Heard(Told, calls) == h0 + done
    ensures Heard(Told, calls') == h0 + done'
    ensures status == Going ==> Sofar(p0, b0, p', done', front', rest')
    ensures status == Going ==> front' + rest' == front + s && |front'| == |front| + 1
    ensures status != Going ==> Run(Step, p0, b0) == Out(p', done', status) && Painted(p0, b0) == front + s
  {
    SofarByte(p0, b0, p, done, front, s);
    var o := Step(p, b);
    ToldEvents(calls, o.events);
    Join(h0, done, o.events);
    p', calls', status, done' := o.p, calls + CallsFor(Notify, o.events), o.status, done + o.events;
    front', rest' := front + [b], s[1..];
  }

  /** A turn of the loop in the payload: as much of it as the buffer has. */
  method TurnChunk(buf: array<Byte>, i: nat, p: Parser, calls: seq<Call>,
                   ghost p0: Parser, ghost b0: seq<Byte>, ghost h0: seq<Event>, ghost done: seq<Event>,
                   ghost front: seq<Byte>, ghost rest: seq<Byte>)
    returns (i': nat, p': Parser, calls': seq<Call>, ghost done': seq<Event>, ghost front': seq<Byte>,
      ghost rest': seq<Byte>)
    requires buf[..] == front + rest && |front| == i && rest != []
    requires Sofar(p0, b0, p, done, front, rest) && p.at == Payload && Heard(Told, calls) == h0 + done
    modifies buf
    ensures i < i' && buf[..] == front' + rest' && |front'| == i'
    ensures Heard(Told, calls') == h0 + done' && Sofar(p0, b0, p', done', front', rest')
  {
    var n := if buf.Length - i > p.rem then p.rem else buf.Length - i;
    i' := i + n;
    ghost var s := rest[..n];
    rest' := rest[n..];
    assert rest == s + rest';
    assert front + rest == front + s + rest';
    SofarChunk(p0, b0, p, done, front, s, rest');
    ChunkLength(p, s);
    front', done' := front + Chunk(p, s), done + ChunkDone(p, s).events;
    Join(h0, done, ChunkDone(p, s).events);
    p', calls' := HandleChunk(buf, i, n, p, calls, front, s, rest');
  }

  method Loop(buf: array<Byte>, p0: Parser, calls: seq<Call>) returns (status: Status, p: Parser, calls': seq<Call>)
    requires Proper(p0)
    modifies buf
    ensures var o := Run(Step, p0, old(buf[..]));
      p == o.p && status == o.status && Heard(Told, calls') == Heard(Told, calls) + o.events
    ensures buf[..] == Painted(p0, old(buf[..])) && (status == Going ==> Proper(p))
  {
    ghost var b0, h0, done: seq<Event> := buf[..], Heard(Told, calls), [];
    ghost var front: seq<Byte>, rest := [], b0;
    SofarStart(p0, b0);
    var i := 0;
    p, calls' := p0, calls;
    assert [] + b0 == b0 && h0 + [] == h0;
    while i < buf.Length
      invariant buf[..] == front + rest && |front| == i && Heard(Told, calls') == h0 + done &&
                Sofar(p0, b0, p, done, front, rest)
      decreases buf.Length - i
    {
      if p.at == Payload {
        i, p, calls', done, front, rest := TurnChunk(buf, i, p, calls', p0, b0, h0, done, front, rest);
      } else {
        assert buf[..][i] == rest[0];
        p, calls', status, done, front, rest := TurnByte(buf[i], p, calls', p0, b0, h0, done, front, rest);
        if status != Going {
          return;
        }
        i := i + 1;
      }
    }
    assert rest == [] && front + [] == front;
    SofarEnd(p0, b0, p, done, front);
    status := Going;
  }

  class Connection {
    var parser: Parser
    var calls: seq<Call>

    /** ws_parser_init */
    constructor ()
      ensures parser.at == Opcode && !parser.fragment && Proper(parser) && calls == []
    {
      parser, calls := Parser(Opcode, 0, [], false, false, false, false, 0), [];
    }

    /** ws_parser_execute: what is heard is what the bytes say one by one, and the payload lies
        unmasked in the buffer. */
    method Execute(buf: array<Byte>) returns (status: Status)
      requires Proper(parser)
      modifies this, buf
      ensures var o := Run(Step, old(parser), old(buf[..]));
        parser == o.p && status == o.status && Heard(Told, calls) == old(Heard(Told, calls)) + o.events
      ensures buf[..] == Painted(old(parser), old(buf[..])) && (status == Going ==> Proper(parser))
    {
      var p, cs;
      status, p, cs := Loop(buf, parser, calls);
      parser, calls := p, cs;
    }
  }
}
