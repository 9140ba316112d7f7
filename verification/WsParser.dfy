/** The WebSocket frame parser (ws_parser.c).

    `Step` gives the parser byte by byte; the loop of the source takes the payload in chunks and
    unmasks it in the caller's buffer.  The callbacks are taken to accept. */
module WsParser {
  import opened ByteStream

  const TEXT := 1
  const BINARY := 2
  const CLOSE := 8
  const PING := 9
  const PONG := 10

  const RESERVED_BITS_SET := -1
  const INVALID_OPCODE := -2
  const INVALID_CONTINUATION := -3
  const CONTROL_TOO_LONG := -4
  const NON_CANONICAL_LENGTH := -5
  const FRAGMENTED_CONTROL := -6

  /** The callbacks, a payload byte by byte. */
  datatype Event = DataBegin(opcode: nat) | Data(b: Byte) | DataEnd | ControlBegin(opcode: nat) | Control(b: Byte)
                             | ControlEnd

  /** LengthHi and LengthLo are the two bytes of a 16-bit length; Length64 and Mask count their bytes. */
  datatype At = Opcode | Length | LengthHi | LengthLo | Length64(k: nat) | Mask(k: nat) | Payload

  datatype Parser = Parser(at: At, rem: nat, mask: seq<Byte>, fragment: bool, fin: bool, control: bool, masked: bool,
                           maskPos: nat)

  type Res = Out<Parser, Event>

  function Go(p: Parser): Res { Out(p, [], Going) }

  function Refuse(p: Parser, code: int): Res { Out(p, [], Refused(code)) }

  function PayloadEvents(control: bool, s: seq<Byte>): seq<Event> {
    if s == [] then [] else [if control then Control(s[0]) else Data(s[0])] + PayloadEvents(control, s[1..])
  }

  // ---------- Exclusive or

  function Xor(a: nat, b: nat, bits: nat): (c: nat)
    ensures c < Pow2(bits)
  {
    if bits == 0 then 0 else (if a % 2 == b % 2 then 0 else 1) + 2 * Xor(a / 2, b / 2, bits - 1)
  }

  function Pow2(n: nat): nat { if n == 0 then 1 else 2 * Pow2(n - 1) }

  lemma {:induction false} XorTwice(a: nat, b: nat, bits: nat)
    requires a < Pow2(bits)
    ensures Xor(Xor(a, b, bits), b, bits) == a
  {
    if bits > 0 {
      XorTwice(a / 2, b / 2, bits - 1);
      var c := Xor(a, b, bits);
      assert c / 2 == Xor(a / 2, b / 2, bits - 1);
    }
  }

  function XorByte(a: Byte, b: Byte): Byte {
    assert Pow2(8) == 256;
    Xor(a, b, 8)
  }

  /** The binary digit of weight 2^i. */
  function BitAt(a: nat, i: nat): nat { if i == 0 then a % 2 else BitAt(a / 2, i - 1) }

  lemma XorHalf(a: nat, b: nat, bits: nat, c: nat)
    requires bits > 0 && c == Xor(a, b, bits)
    ensures c / 2 == Xor(a / 2, b / 2, bits - 1) && BitAt(c, 0) == (BitAt(a, 0) + BitAt(b, 0)) % 2
  {}

  lemma {:induction false} XorBits(a: nat, b: nat, bits: nat, i: nat)
    requires i < bits
    ensures BitAt(Xor(a, b, bits), i) == (BitAt(a, i) + BitAt(b, i)) % 2
  {
    var c := Xor(a, b, bits);
    XorHalf(a, b, bits, c);
    if i > 0 { XorBits(a / 2, b / 2, bits - 1, i - 1); }
  }

  lemma {:induction false} SameBits(a: nat, b: nat, bits: nat)
    requires a < Pow2(bits) && b < Pow2(bits) && forall i: nat :: i < bits ==> BitAt(a, i) == BitAt(b, i)
    ensures a == b
  {
    if bits > 0 {
      forall i: nat | i < bits - 1 ensures BitAt(a / 2, i) == BitAt(b / 2, i) {
        assert BitAt(a, i + 1) == BitAt(b, i + 1);
      }
      SameBits(a / 2, b / 2, bits - 1);
      assert BitAt(a, 0) == BitAt(b, 0);
    }
  }

  predicate SumAt(a: nat, b: nat, c: nat, i: nat) { BitAt(c, i) == (BitAt(a, i) + BitAt(b, i)) % 2 }

  /** Every bit is the sum of the two bits without carry. */
  lemma XorExactly(a: Byte, b: Byte, c: Byte)
    ensures c == XorByte(a, b) <==> forall i: nat :: i < 8 ==> SumAt(a, b, c, i)
  {
    var x := XorByte(a, b);
    assert Pow2(8) == 256;
    forall i: nat | i < 8 ensures SumAt(a, b, x, i) { XorBits(a, b, 8, i); }
    if forall i: nat :: i < 8 ==> SumAt(a, b, c, i) {
      forall i: nat | i < 8 ensures BitAt(c, i) == BitAt(x, i) { assert SumAt(a, b, c, i) && SumAt(a, b, x, i); }
      SameBits(c, x, 8);
    }
  }

  /** The weight of byte `k` of a 64-bit length. */
  function Weight(k: nat): nat
    requires k < 8
    decreases 8 - k
  {
    if k == 7 then 1 else 256 * Weight(k + 1)
  }

  // ---------- The steps

  function StepOpcode(p: Parser, b: Byte): Res {
    var opcode, fin := b % 16, b >= 128;
    var p' := p.(fin := fin);
    if b / 16 % 8 != 0 then Refuse(p, RESERVED_BITS_SET)
    else if opcode == 0 then
      if !p.fragment then Refuse(p', INVALID_CONTINUATION)
      else Go(p'.(control := false, at := Length))
    else if opcode >= 8 then
      if opcode != PING && opcode != PONG && opcode != CLOSE then Refuse(p', INVALID_OPCODE)
      else if !fin then Refuse(p', FRAGMENTED_CONTROL)
      else Out(p'.(control := true, at := Length), [ControlBegin(opcode)], Going)
    else if opcode != TEXT && opcode != BINARY then Refuse(p', INVALID_OPCODE)
    else Out(p'.(control := false, fragment := !fin, at := Length), [DataBegin(opcode)], Going)
  }

  function AfterLength(p: Parser): At { if p.masked then Mask(0) else Payload }

  /** end_of_payload */
  function EndOfPayload(p: Parser): Res {
    Out(p.(at := Opcode), if p.control then [ControlEnd] else if p.fin then [DataEnd] else [], Going)
  }

  function StepLength(p: Parser, b: Byte): Res {
    var n := b % 128;
    var p' := p.(masked := b >= 128, maskPos := 0);
    if p.control && n > 125 then Refuse(p', CONTROL_TOO_LONG)
    else if n < 126 then
      var p'' := p'.(rem := n, at := AfterLength(p'));
      if p''.at == Payload && n == 0 then EndOfPayload(p'') else Go(p'')
    else if n == 126 then Go(p'.(at := LengthHi))
    else Go(p'.(at := Length64(0)))
  }

  function StepLengthLo(p: Parser, b: Byte): Res {
    var p' := p.(rem := p.rem + b, at := AfterLength(p));
    if p'.rem < 126 then Refuse(p', NON_CANONICAL_LENGTH) else Go(p')
  }

  function StepLength64(p: Parser, k: nat, b: Byte): Res {
    if k < 7 then Go(p.(rem := (if k == 0 then 0 else p.rem) + b * Weight(k), at := Length64(k + 1)))
    else
      var p' := p.(rem := p.rem + b, at := AfterLength(p));
      if p'.rem < 65536 then Refuse(p', NON_CANONICAL_LENGTH) else Go(p')
  }

  function StepMask(p: Parser, k: nat, b: Byte): Res {
    var p' := p.(mask := (if k == 0 then [] else p.mask) + [b]);
    if k < 3 then Go(p'.(at := Mask(k + 1)))
    else if p.rem == 0 then EndOfPayload(p'.(at := Payload))
    else Go(p'.(at := Payload))
  }

  /** The byte as the callback gets it. */
  function Unmask(p: Parser, b: Byte): Byte {
    if p.masked && p.maskPos < |p.mask| then XorByte(b, p.mask[p.maskPos]) else b
  }

  function StepPayload(p: Parser, b: Byte): Res {
    var c := Unmask(p, b);
    var e := if p.control then Control(c) else Data(c);
    var p' := p.(rem := if p.rem > 0 then p.rem - 1 else 0, maskPos := if p.masked then (p.maskPos + 1) % 4
      else p.maskPos);
    if p'.rem > 0 then Out(p', [e], Going)
    else
      var o := EndOfPayload(p');
      o.(events := [e] + o.events)
  }

  function Step(p: Parser, b: Byte): Res {
    match p.at
    case Opcode => StepOpcode(p, b)
    case Length => StepLength(p, b)
    case LengthHi => Go(p.(rem := b * 256, at := LengthLo))
    case LengthLo => StepLengthLo(p, b)
    case Length64(k) => StepLength64(p, k, b)
    case Mask(k) => StepMask(p, k, b)
    case Payload => StepPayload(p, b)
  }

  /** The state of the parser between bytes. */
  ghost predicate Proper(p: Parser) {
    && p.maskPos < 4
    && (p.at == Payload ==> p.rem > 0 && (p.masked ==> |p.mask| == 4))
    && (p.at.Length64? ==> p.at.k < 8) && (p.at.Mask? ==> p.at.k < 4 && (p.at.k > 0 ==> |p.mask| == p.at.k) && p.masked)
  }

  lemma LengthProper(p: Parser, b: Byte)
    requires Proper(p) && Step(p, b).status == Going && (p.at == Length || p.at == LengthLo || p.at.Length64?)
    ensures Proper(Step(p, b).p)
  {}

  lemma PayloadProper(p: Parser, b: Byte)
    requires Proper(p) && Step(p, b).status == Going && (p.at.Mask? || p.at == Payload)
    ensures Proper(Step(p, b).p)
  {}

  lemma StepProper(p: Parser, b: Byte)
    requires Proper(p) && Step(p, b).status == Going
    ensures Proper(Step(p, b).p)
  {
    if p.at.Mask? || p.at == Payload {
      PayloadProper(p, b);
    } else if p.at != Opcode && p.at != LengthHi {
      LengthProper(p, b);
    }
  }
}
