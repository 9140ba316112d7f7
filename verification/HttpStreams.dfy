/** Bodies cut into buffers at will (sections 3.3.3 and 4.1 of RFC 7230). */
module HttpStreams {
  import opened ByteStream
  import opened HttpBody

  function BodyEvents(s: seq<Byte>): seq<Event> { if s == [] then [] else [Body(s[0])] + BodyEvents(s[1..]) }

  // ---------- Content-Length

  /** Whatever has come of a body with a length has been delivered, and the rest is left. */
  lemma {:induction false} PartialBody(p: Parser, s: seq<Byte>)
    requires p.at == BodyIdentity && |s| < p.left
    ensures Run(Step, p, s) == Out(p.(left := p.left - |s|), BodyEvents(s), Going)
    decreases |s|
  {
    if s != [] { PartialBody(p.(left := p.left - 1), s[1..]); }
  }

  /** The whole body is delivered; the parser stops there if the connection is upgraded. */
  lemma WholeBody(p: Parser, s: seq<Byte>, bufs: seq<seq<Byte>>)
    requires p.at == BodyIdentity && |s| == p.left > 0 && Concat(bufs) == s
    ensures RunAll(Step, p, bufs) ==
      Out(p.(at := NewMessage, left := 0), BodyEvents(s) + [MessageComplete], if p.upgrade then Closed else Going)
  {
    CutAnywhere(Step, p, bufs);
    ReadBody(p, s);
  }

  lemma ReadBody(p: Parser, s: seq<Byte>)
    requires p.at == BodyIdentity && |s| == p.left > 0
    ensures Run(Step, p, s) ==
      Out(p.(at := NewMessage, left := 0), BodyEvents(s) + [MessageComplete], if p.upgrade then Closed else Going)
  {
    var front, b := s[..|s| - 1], s[|s| - 1];
    assert s == front + [b];
    PartialBody(p, front);
    var p' := p.(left := 1);
    RunConcat(Step, p, front, [b]);
    RunOne(Step, p', b);
    BodyEventsConcat(front, [b]);
    assert BodyEvents([b]) == [Body(b)] + BodyEvents([]);
    assert BodyEvents(front) + ([Body(b)] + [MessageComplete]) == (BodyEvents(front) + [Body(b)]) + [MessageComplete];
  }

  lemma {:induction false} BodyEventsConcat(a: seq<Byte>, b: seq<Byte>)
    ensures BodyEvents(a + b) == BodyEvents(a) + BodyEvents(b)
  {
    if a == [] {
      assert a + b == b;
    } else {
      assert (a + b)[1..] == a[1..] + b;
      BodyEventsConcat(a[1..], b);
    }
  }

  // ---------- Chunks

  /** A chunk: its size in hexadecimal digits, what stands between the size and the end of the line,
      and its data. */
  datatype Chunk = Chunk(digits: seq<Byte>, ext: seq<Byte>, data: seq<Byte>)

  predicate ValidLine(c: Chunk) {
    && c.digits != [] && Hex(c.digits) && |c.digits| + |c.ext| + 2 <= MAX_HEADER_SIZE
    && CR !in c.ext && (c.ext != [] ==> c.ext[0] == SEMICOLON || c.ext[0] == SPACE)
  }

  predicate ValidChunk(c: Chunk) {
    ValidLine(c) && HexValue(c.digits) == |c.data| && 0 < |c.data| <= ULLONG_MAX - 16
  }

  predicate LastChunk(c: Chunk) { ValidLine(c) && HexValue(c.digits) == 0 && c.data == [] }

  function LineBytes(c: Chunk): seq<Byte> { c.digits + (c.ext + [13, 10]) }

  function ChunkBytes(c: Chunk): seq<Byte> { LineBytes(c) + (c.data + [13, 10]) }

  function ChunkEvents(c: Chunk): seq<Event> { [ChunkHeader(|c.data|)] + (BodyEvents(c.data) + [ChunkComplete]) }

  /** The extension of a chunk is passed over. */
  lemma {:induction false} SkipExtension(p: Parser, s: seq<Byte>)
    requires p.at == ChunkParameters && CR !in s && p.nread + |s| <= MAX_HEADER_SIZE
    ensures Run(Step, p, s) == Go(p.(nread := p.nread + |s|))
    decreases |s|
  {
    if s != [] { SkipExtension(p.(nread := p.nread + 1), s[1..]); }
  }

  lemma ReadExtension(p: Parser, s: seq<Byte>)
    requires p.at == ChunkSize && CR !in s && p.nread + |s| <= MAX_HEADER_SIZE &&
             (s != [] ==> s[0] == SEMICOLON || s[0] == SPACE)
    ensures Run(Step, p, s) == Go(p.(at := if s == [] then ChunkSize else ChunkParameters, nread := p.nread + |s|))
  {
    if s != [] {
      var b, rest, p' := s[0], s[1..], p.(at := ChunkParameters, nread := p.nread + 1);
      assert s == [b] + rest && Step(p, b) == Go(p');
      RunOne(Step, p, b);
      RunOn(Step, p, [b], p', rest);
      SkipExtension(p', rest);
    }
  }

  lemma ReadLineEnd(p: Parser)
    requires (p.at == ChunkSize || p.at == ChunkParameters) && p.nread + 2 <= MAX_HEADER_SIZE
    ensures Run(Step, p, [CR, LF]) ==
            Out(p.(at := if p.left == 0 then Trailer else ChunkData, nread := 0), [ChunkHeader(p.left)], Going)
  {
    var p' := p.(at := ChunkSizeAlmostDone, nread := p.nread + 1);
    RunTwo(Step, p, CR, p', LF, Step(p', LF));
  }

  lemma ReadLine(p: Parser, c: Chunk)
    requires p.at == ChunkSizeStart && p.nread == 0 && ValidLine(c) && HexValue(c.digits) <= ULLONG_MAX - 16
    ensures var n := HexValue(c.digits);
      Run(Step, p, LineBytes(c)) == Out(p.(at := if n == 0 then Trailer else ChunkData, left := n), [ChunkHeader(n)],
        Going)
  {
    ReadDigits(p, c.digits);
    var p1 := p.(at := ChunkSize, left := HexValue(c.digits), nread := |c.digits|);
    RunOn(Step, p, c.digits, p1, c.ext + [CR, LF]);
    ReadExtension(p1, c.ext);
    var p2 := p1.(at := if c.ext == [] then ChunkSize else ChunkParameters, nread := |c.digits| + |c.ext|);
    RunOn(Step, p1, c.ext, p2, [CR, LF]);
    ReadLineEnd(p2);
  }

  lemma {:induction false} ReadData(p: Parser, s: seq<Byte>)
    requires p.at == ChunkData && |s| <= p.left
    ensures Run(Step, p, s) == Out(p.(left := p.left - |s|, at := if 0 < |s| == p.left then ChunkDataAlmostDone
            else ChunkData), BodyEvents(s), Going)
    decreases |s|
  {
    if s != [] {
      var p' := Step(p, s[0]).p;
      if |s| == 1 {
        assert s[1..] == [];
        assert BodyEvents(s) == [Body(s[0])] + BodyEvents([]);
      } else {
        ReadData(p', s[1..]);
      }
    }
  }

  lemma ReadDataEnd(p: Parser)
    requires p.at == ChunkDataAlmostDone
    ensures Run(Step, p, [CR, LF]) == Out(p.(at := ChunkSizeStart, nread := 0), [ChunkComplete], Going)
  {
    var p' := p.(at := ChunkDataDone);
    RunTwo(Step, p, CR, p', LF, Step(p', LF));
  }

  /** One chunk, from size to size. */
  lemma TakeChunk(p: Parser, c: Chunk)
    requires p.at == ChunkSizeStart && p.nread == 0 && ValidChunk(c)
    ensures Run(Step, p, ChunkBytes(c)) == Out(p.(left := 0), ChunkEvents(c), Going)
  {
    ReadLine(p, c);
    var p1 := p.(at := ChunkData, left := |c.data|);
    RunConcat(Step, p, LineBytes(c), c.data + [CR, LF]);
    ReadData(p1, c.data);
    var p2 := p1.(at := ChunkDataAlmostDone, left := 0);
    RunConcat(Step, p1, c.data, [CR, LF]);
    ReadDataEnd(p2);
  }

  // ---------- Chunked bodies

  function ChunksBytes(cs: seq<Chunk>): seq<Byte> { if cs == [] then [] else ChunkBytes(cs[0]) + ChunksBytes(cs[1..]) }

  function ChunksEvents(cs: seq<Chunk>): seq<Event> {
    if cs == [] then [] else ChunkEvents(cs[0]) + ChunksEvents(cs[1..])
  }

  lemma {:induction false} TakeChunks(p: Parser, cs: seq<Chunk>)
    requires p.at == ChunkSizeStart && p.nread == 0 && forall i :: 0 <= i < |cs| ==> ValidChunk(cs[i])
    ensures var o := Run(Step, p, ChunksBytes(cs));
      o.status == Going && o.events == ChunksEvents(cs) && o.p.at == ChunkSizeStart && o.p.nread == 0 &&
        o.p.upgrade == p.upgrade
    decreases |cs|
  {
    if cs != [] {
      TakeChunk(p, cs[0]);
      RunConcat(Step, p, ChunkBytes(cs[0]), ChunksBytes(cs[1..]));
      TakeChunks(p.(left := 0), cs[1..]);
    }
  }

  lemma TakeLast(p: Parser, last: Chunk)
    requires p.at == ChunkSizeStart && p.nread == 0 && LastChunk(last)
    ensures var o := Run(Step, p, LineBytes(last) + [CR, LF]);
      && o.status == (if p.upgrade then Closed else Going)
      && o.events == [ChunkHeader(0), ChunkComplete, MessageComplete] && o.p.at == NewMessage
  {
    ReadLine(p, last);
    var p1 := p.(at := Trailer, left := 0);
    RunConcat(Step, p, LineBytes(last), [CR, LF]);
    var p2 := p1.(at := HeadersAlmostDone, nread := 1);
    RunTwo(Step, p1, CR, p2, LF, Step(p2, LF));
  }

  /** A chunked message: however it is cut into buffers, the body callbacks get exactly the data of
      the chunks, each chunk is announced with its size and ended, and the message ends once; the parser
      stops there if the connection is upgraded. */
  lemma ChunkedInPieces(p: Parser, cs: seq<Chunk>, last: Chunk, bufs: seq<seq<Byte>>)
    requires p.at == ChunkSizeStart && p.nread == 0 && LastChunk(last) &&
             forall i :: 0 <= i < |cs| ==> ValidChunk(cs[i])
    requires Concat(bufs) == ChunksBytes(cs) + (LineBytes(last) + [CR, LF])
    ensures var o := RunAll(Step, p, bufs);
      && o.status == (if p.upgrade then Closed else Going) && o.p.at == NewMessage
      && o.events == ChunksEvents(cs) + [ChunkHeader(0), ChunkComplete, MessageComplete]
  {
    CutAnywhere(Step, p, bufs);
    ReadChunks(p, cs, last);
  }

  lemma ReadChunks(p: Parser, cs: seq<Chunk>, last: Chunk)
    requires p.at == ChunkSizeStart && p.nread == 0 && LastChunk(last) &&
             forall i :: 0 <= i < |cs| ==> ValidChunk(cs[i])
    ensures var o := Run(Step, p, ChunksBytes(cs) + (LineBytes(last) + [CR, LF]));
      && o.status == (if p.upgrade then Closed else Going) && o.p.at == NewMessage
      && o.events == ChunksEvents(cs) + [ChunkHeader(0), ChunkComplete, MessageComplete]
  {
    TakeChunks(p, cs);
    var p' := Run(Step, p, ChunksBytes(cs)).p;
    RunConcat(Step, p, ChunksBytes(cs), LineBytes(last) + [CR, LF]);
    TakeLast(p', last);
  }

  /** The bytes of the body among the events. */
  function Delivered(es: seq<Event>): seq<Byte> {
    if es == [] then [] else (if es[0].Body? then [es[0].b] else []) + Delivered(es[1..])
  }

  function AllData(cs: seq<Chunk>): seq<Byte> { if cs == [] then [] else cs[0].data + AllData(cs[1..]) }

  lemma {:induction false} DeliveredConcat(a: seq<Event>, b: seq<Event>)
    ensures Delivered(a + b) == Delivered(a) + Delivered(b)
  {
    if a == [] {
      assert a + b == b;
    } else {
      var h := if a[0].Body? then [a[0].b] else [];
      assert (a + b)[1..] == a[1..] + b && (a + b)[0] == a[0];
      DeliveredConcat(a[1..], b);
      assert (h + Delivered(a[1..])) + Delivered(b) == h + (Delivered(a[1..]) + Delivered(b));
    }
  }

  lemma {:induction false} DeliveredBody(s: seq<Byte>)
    ensures Delivered(BodyEvents(s)) == s
  {
    if s != [] { DeliveredBody(s[1..]); }
  }

  /** The data delivered is the data of the chunks. */
  lemma {:induction false} DeliveredChunks(cs: seq<Chunk>)
    ensures Delivered(ChunksEvents(cs)) == AllData(cs)
  {
    if cs != [] {
      var c := cs[0];
      DeliveredConcat(ChunkEvents(c), ChunksEvents(cs[1..]));
      DeliveredConcat([ChunkHeader(|c.data|)], BodyEvents(c.data) + [ChunkComplete]);
      DeliveredConcat(BodyEvents(c.data), [ChunkComplete]);
      DeliveredBody(c.data);
      assert Delivered([ChunkComplete]) == [] && Delivered([ChunkHeader(|c.data|)]) == [];
      DeliveredChunks(cs[1..]);
    }
  }
}
