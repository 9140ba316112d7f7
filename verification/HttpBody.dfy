/** The body states of the HTTP parser (http_parser.c): a body of known length, a chunked body with
    an empty trailer, and a body up to the end of the connection, byte by byte.  The callbacks are
    taken to accept. */
module HttpBody {
  import opened ByteStream

  const CR: Byte := 13
  const LF: Byte := 10
  const SEMICOLON: Byte := 59
  const SPACE: Byte := 32

  const MAX_HEADER_SIZE := 80 * 1024
  const ULLONG_MAX := 0xffff_ffff_ffff_ffff

  const HPE_STRICT := 1
  const HPE_HEADER_OVERFLOW := 2
  const HPE_INVALID_CHUNK_SIZE := 3
  const HPE_INVALID_CONTENT_LENGTH := 4

  datatype Event = ChunkHeader(size: nat) | Body(b: Byte) | ChunkComplete | MessageComplete

  /** Trailer is s_header_field_start after the last chunk; NewMessage is what NEW_MESSAGE gives. */
  datatype At =
    | ChunkSizeStart | ChunkSize | ChunkParameters | ChunkSizeAlmostDone | Trailer | HeadersAlmostDone
    | ChunkData | ChunkDataAlmostDone | ChunkDataDone | BodyIdentity | BodyEof | NewMessage

  /** `left` is content_length: what is left of the body or chunk. */
  datatype Parser = Parser(at: At, left: nat, nread: nat, upgrade: bool)

  type Res = Out<Parser, Event>

  function Go(p: Parser): Res { Out(p, [], Going) }

  function Refuse(p: Parser, code: int): Res { Out(p, [], Refused(code)) }

  /** The table unhex; its second half is zero. */
  function Unhex(b: Byte): int {
    if 48 <= b <= 57 then b - 48
    else if 65 <= b <= 70 then b - 55
    else if 97 <= b <= 102 then b - 87
    else if b >= 128 then 0
    else -1
  }

  /** The digits of a chunk size, small or large, and what passes for a zero. */
  lemma UnhexExactly(b: Byte, v: nat)
    requires v < 16
    ensures Unhex(b) == v <==>
      b as char == "0123456789abcdef"[v] || b as char == "0123456789ABCDEF"[v] || (b >= 128 && v == 0)
  {}

  predicate ParsingHeader(at: At) {
    at.ChunkSizeStart? || at.ChunkSize? || at.ChunkParameters? || at.ChunkSizeAlmostDone? || at.Trailer? ||
      at.HeadersAlmostDone?
  }

  function StepChunkSizeStart(p: Parser, b: Byte): Res {
    if Unhex(b) == -1 then Refuse(p, HPE_INVALID_CHUNK_SIZE) else Go(p.(left := Unhex(b), at := ChunkSize))
  }

  function StepChunkSize(p: Parser, b: Byte): Res {
    if b == CR then Go(p.(at := ChunkSizeAlmostDone))
    else if Unhex(b) == -1 then
      if b == SEMICOLON || b == SPACE then Go(p.(at := ChunkParameters)) else Refuse(p, HPE_INVALID_CHUNK_SIZE)
    else if (ULLONG_MAX - 16) / 16 < p.left then Refuse(p, HPE_INVALID_CONTENT_LENGTH)
    else Go(p.(left := (p.left * 16 + Unhex(b)) % 0x1_0000_0000_0000_0000))
  }

  function StepChunkSizeAlmostDone(p: Parser, b: Byte): Res {
    if b != LF then Refuse(p, HPE_STRICT)
    else Out(p.(nread := 0, at := if p.left == 0 then Trailer else ChunkData), [ChunkHeader(p.left)], Going)
  }

  /** s_message_done, which sees the last byte of the message again. */
  function MessageDone(p: Parser, es: seq<Event>): Res {
    Out(p.(at := NewMessage), es + [MessageComplete], if p.upgrade then Closed else Going)
  }

  function StepHeadersAlmostDone(p: Parser, b: Byte): Res {
    if b != LF then Refuse(p, HPE_STRICT) else MessageDone(p, [ChunkComplete])
  }

  function StepTrailer(p: Parser, b: Byte): Res {
    if b == CR then Go(p.(at := HeadersAlmostDone))
    else if b == LF then StepHeadersAlmostDone(p, b)
    else Out(p, [], Unmodelled)
  }

  function StepChunkData(p: Parser, b: Byte): Res {
    var p' := p.(left := if p.left > 0 then p.left - 1 else 0);
    Out(if p'.left == 0 then p'.(at := ChunkDataAlmostDone) else p', [Body(b)], Going)
  }

  function StepChunkDataAlmostDone(p: Parser, b: Byte): Res {
    if b != CR then Refuse(p, HPE_STRICT) else Go(p.(at := ChunkDataDone))
  }

  function StepChunkDataDone(p: Parser, b: Byte): Res {
    if b != LF then Refuse(p, HPE_STRICT) else Out(p.(nread := 0, at := ChunkSizeStart), [ChunkComplete], Going)
  }

  function StepBodyIdentity(p: Parser, b: Byte): Res {
    var p' := p.(left := if p.left > 0 then p.left - 1 else 0);
    if p'.left == 0 then MessageDone(p', [Body(b)]) else Out(p', [Body(b)], Going)
  }

  function StepCounted(p: Parser, b: Byte): Res {
    match p.at
    case ChunkSizeStart => StepChunkSizeStart(p, b)
    case ChunkSize => StepChunkSize(p, b)
    case ChunkParameters => Go(if b == CR then p.(at := ChunkSizeAlmostDone) else p)
    case ChunkSizeAlmostDone => StepChunkSizeAlmostDone(p, b)
    case Trailer => StepTrailer(p, b)
    case HeadersAlmostDone => StepHeadersAlmostDone(p, b)
    case ChunkData => StepChunkData(p, b)
    case ChunkDataAlmostDone => StepChunkDataAlmostDone(p, b)
    case ChunkDataDone => StepChunkDataDone(p, b)
    case BodyIdentity => StepBodyIdentity(p, b)
    case BodyEof => Out(p, [Body(b)], Going)
    case NewMessage => Out(p, [], Unmodelled)
  }

  /** One byte: the bytes of header states are counted first. */
  function Step(p: Parser, b: Byte): Res {
    if !ParsingHeader(p.at) then StepCounted(p, b)
    else if p.nread + 1 > MAX_HEADER_SIZE then Refuse(p.(nread := p.nread + 1), HPE_HEADER_OVERFLOW)
    else StepCounted(p.(nread := p.nread + 1), b)
  }

  /** What the assertions of the source rely on: nread is 1 at the first digit of a chunk size, data
      states have a length that is not the sentinel, and nothing is left at the end of a chunk. */
  ghost predicate Sound(p: Parser) {
    && (p.at == ChunkSizeStart ==> p.nread == 0)
    && (p.at == ChunkData || p.at == BodyIdentity ==> 0 < p.left)
    && (p.at != ChunkSizeStart && p.at != BodyEof && p.at != NewMessage ==> p.left < ULLONG_MAX)
    && (p.at == ChunkDataAlmostDone || p.at == ChunkDataDone ==> p.left == 0)
  }

  lemma StepSound(p: Parser, b: Byte)
    requires Sound(p) && Step(p, b).status == Going
    ensures Sound(Step(p, b).p)
  {}

  /** No run leads to a failed assertion. */
  lemma {:induction false} RunSound(p: Parser, s: seq<Byte>)
    requires Sound(p) && Run(Step, p, s).status == Going
    ensures Sound(Run(Step, p, s).p)
    decreases |s|
  {
    if s != [] {
      StepSound(p, s[0]);
      RunSound(Step(p, s[0]).p, s[1..]);
    }
  }

  // ---------- Chunk sizes

  predicate Hex(s: seq<Byte>) { forall i :: 0 <= i < |s| ==> s[i] < 128 && Unhex(s[i]) != -1 }

  function HexValue(s: seq<Byte>): nat
    requires Hex(s)
  {
    if s == [] then 0 else HexValue(s[..|s| - 1]) * 16 + Unhex(s[|s| - 1])
  }

  lemma Limit(left: nat, v: nat)
    requires v < 16
    ensures (ULLONG_MAX - 16) / 16 < left <==> left * 16 + v > ULLONG_MAX - 16
  {}

  lemma DigitStep(p: Parser, d: Byte)
    requires p.at == ChunkSize && p.nread < MAX_HEADER_SIZE && Unhex(d) != -1
    ensures var n := p.left * 16 + Unhex(d);
      Step(p, d) == if n <= ULLONG_MAX - 16 then Go(p.(left := n, nread := p.nread + 1))
                    else Refuse(p.(nread := p.nread + 1), HPE_INVALID_CONTENT_LENGTH)
  {
    Limit(p.left, Unhex(d));
  }

  /** What reading the digits `s` is to come to. */
  ghost predicate DigitsRead(p: Parser, s: seq<Byte>, o: Res)
    requires Hex(s)
  {
    if HexValue(s) <= ULLONG_MAX - 16 then o == Go(p.(at := ChunkSize, left := HexValue(s), nread := |s|))
    else o.status == Refused(HPE_INVALID_CONTENT_LENGTH) && o.events == []
  }

  lemma HexMore(front: seq<Byte>, d: Byte, s: seq<Byte>)
    requires s == front + [d] && Hex(s)
    ensures Hex(front) && Unhex(d) != -1 && HexValue(s) == HexValue(front) * 16 + Unhex(d)
  {
    assert s[..|s| - 1] == front && s[|front|] == d;
    forall i | 0 <= i < |front| ensures front[i] < 128 && Unhex(front[i]) != -1 { assert s[i] == front[i]; }
  }

  /** What a digit more makes of what was read before it. */
  function DigitOut(p: Parser, value: nat, read: nat, d: Byte): Res
    requires Unhex(d) != -1
  {
    var p' := p.(at := ChunkSize, left := value * 16 + Unhex(d), nread := read + 1);
    if p'.left <= ULLONG_MAX - 16 then Go(p') else Refuse(p'.(left := value), HPE_INVALID_CONTENT_LENGTH)
  }

  lemma DigitsMore(p: Parser, front: seq<Byte>, d: Byte, s: seq<Byte>, o: Res)
    requires s == front + [d] && Hex(s) && Hex(front) && Unhex(d) != -1
    requires if HexValue(front) <= ULLONG_MAX - 16 then o == DigitOut(p, HexValue(front), |front|, d)
             else DigitsRead(p, front, o)
    ensures DigitsRead(p, s, o)
  {
    HexMore(front, d, s);
    var v, v' := HexValue(front), HexValue(s);
    assert v' == v * 16 + Unhex(d) && 0 <= Unhex(d);
  }

  lemma OneMoreDigit(step: (Parser, Byte) -> Res, p: Parser, front: seq<Byte>, d: Byte, s: seq<Byte>)
    requires s == front + [d] && Hex(s) && Hex(front) && Unhex(d) != -1 && DigitsRead(p, front, Run(step, p, front))
    requires var p' := p.(at := ChunkSize, left := HexValue(front), nread := |front|);
      step(p', d) == DigitOut(p, HexValue(front), |front|, d)
    ensures DigitsRead(p, s, Run(step, p, s))
  {
    if HexValue(front) <= ULLONG_MAX - 16 {
      var p' := p.(at := ChunkSize, left := HexValue(front), nread := |front|);
      RunOn(step, p, front, p', [d]);
      RunOne(step, p', d);
    } else {
      RunConcat(step, p, front, [d]);
    }
    DigitsMore(p, front, d, s, Run(step, p, s));
  }

  lemma OneDigit(p: Parser, d: Byte)
    requires p.at == ChunkSizeStart && p.nread == 0 && Hex([d])
    ensures DigitsRead(p, [d], Run(Step, p, [d]))
  {
    RunOne(Step, p, d);
    assert [d][0] == d && [d][..0] == [];
    HexMore([], d, [d]);
  }

  /** Digits read one after the other: the value if it is small enough, and otherwise a refusal. */
  lemma {:induction false} ReadDigits(p: Parser, s: seq<Byte>)
    requires p.at == ChunkSizeStart && p.nread == 0 && s != [] && Hex(s) && |s| < MAX_HEADER_SIZE
    ensures DigitsRead(p, s, Run(Step, p, s))
    decreases |s|
  {
    var front, d := s[..|s| - 1], s[|s| - 1];
    assert s == front + [d];
    if front == [] {
      assert s == [d];
      OneDigit(p, d);
    } else {
      HexMore(front, d, s);
      ReadDigits(p, front);
      DigitStep(p.(at := ChunkSize, left := HexValue(front), nread := |front|), d);
      OneMoreDigit(Step, p, front, d, s);
    }
  }
}
