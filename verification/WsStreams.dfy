/** Every valid stream of WebSocket frames (section 5 of RFC 6455) is read frame by frame. */
module WsStreams {
  import opened ByteStream
  import opened WsParser

  /** A frame; `mask` is empty or four bytes. */
  datatype Frame = Frame(fin: bool, opcode: nat, mask: seq<Byte>, payload: seq<Byte>)

  predicate IsControl(f: Frame) { f.opcode >= 8 }

  predicate IsStart(f: Frame) { f.opcode == 1 || f.opcode == 2 }

  /** Sections 5.2 and 5.5, for a frame by itself. */
  predicate ValidFrame(f: Frame) {
    && f.opcode in {0, 1, 2, 8, 9, 10} && (f.mask == [] || |f.mask| == 4)
    && |f.payload| < 0x1_0000_0000_0000_0000
    && (IsControl(f) ==> f.fin && |f.payload| <= 125)
  }

  predicate Frames(fs: seq<Frame>) { forall i :: 0 <= i < |fs| ==> ValidFrame(fs[i]) }

  /** Whether a message is open after a frame. */
  function Open(open: bool, f: Frame): bool { if IsControl(f) then open else !f.fin }

  /** Section 5.4: fragments follow each other, with control frames between them at will. */
  predicate Ordered(fs: seq<Frame>, open: bool) {
    fs != [] ==> (IsStart(fs[0]) ==> !open) && (fs[0].opcode == 0 ==> open) && Ordered(fs[1..], Open(open, fs[0]))
  }

  predicate ValidStream(fs: seq<Frame>, open: bool) { Frames(fs) && Ordered(fs, open) }

  // ---------- The wire format

  /** Section 5.3: byte `i` is masked with byte `i` modulo 4 of the mask. */
  function Masked(s: seq<Byte>, mask: seq<Byte>, i: nat): seq<Byte>
    requires |mask| == 4
  {
    if s == [] then [] else [XorByte(s[0], mask[i % 4])] + Masked(s[1..], mask, i + 1)
  }

  function PayloadBytes(f: Frame): seq<Byte>
    requires f.mask == [] || |f.mask| == 4
  {
    if f.mask == [] then f.payload else Masked(f.payload, f.mask, 0)
  }

  function BigBytes(n: nat, k: nat): seq<Byte>
    requires k < 8 && n < 256 * Weight(k)
    decreases 8 - k
  {
    if k == 7 then [n] else
    Quotient(n, Weight(k));
    [n / Weight(k)] + BigBytes(n % Weight(k), k + 1)
  }

  lemma Quotient(n: nat, w: nat)
    requires w > 0 && n < 256 * w
    ensures 0 <= n / w < 256 && n / w * w + n % w == n && n % w < w
  {
    var q := n / w;
    assert q * w + n % w == n;
    assert q >= 256 ==> q * w >= 256 * w;
  }

  function LengthBytes(n: nat, masked: bool): seq<Byte>
    requires n < 0x1_0000_0000_0000_0000
  {
    var m := if masked then 128 else 0;
    if n < 126 then [n + m]
    else if n < 0x1_0000 then [126 + m, n / 256, n % 256]
    else TopWeight(); [127 + m] + BigBytes(n, 0)
  }

  lemma TopWeight()
    ensures 256 * Weight(0) == 0x1_0000_0000_0000_0000
  {
    assert Weight(4) == 0x100_0000;
  }

  function FrameBytes(f: Frame): seq<Byte>
    requires ValidFrame(f)
  {
    [f.opcode + if f.fin then 128 else 0] + (LengthBytes(|f.payload|, f.mask != []) + (f.mask + PayloadBytes(f)))
  }

  function StreamBytes(fs: seq<Frame>): seq<Byte>
    requires Frames(fs)
  {
    if fs == [] then [] else FrameBytes(fs[0]) + StreamBytes(fs[1..])
  }

  // ---------- What is to be heard of a frame

  function BeginEvents(f: Frame): seq<Event> {
    if IsControl(f) then [ControlBegin(f.opcode)] else if IsStart(f) then [DataBegin(f.opcode)] else []
  }

  function EndEvents(control: bool, fin: bool): seq<Event> {
    if control then [ControlEnd] else if fin then [DataEnd] else []
  }

  function FrameEvents(f: Frame): seq<Event> {
    BeginEvents(f) + (PayloadEvents(IsControl(f), f.payload) + EndEvents(IsControl(f), f.fin))
  }

  function StreamEvents(fs: seq<Frame>): seq<Event> {
    if fs == [] then [] else FrameEvents(fs[0]) + StreamEvents(fs[1..])
  }

  // ---------- Reading

  lemma {:induction false} ReadLength64(p: Parser, n: nat, k: nat)
    requires k < 8 && p.at == Length64(k) && n < 256 * Weight(k) && (if k == 0 then 0 else p.rem) + n >= 65536
    ensures Run(Step, p, BigBytes(n, k)) == Go(p.(rem := (if k == 0 then 0 else p.rem) + n, at := AfterLength(p)))
    decreases 8 - k
  {
    if k == 7 {
      RunOne(Step, p, n);
    } else {
      var w := Weight(k);
      Quotient(n, w);
      var b: Byte := n / w;
      var o := Step(p, b);
      RunOne(Step, p, b);
      RunOn(Step, p, [b], o.p, BigBytes(n % w, k + 1));
      ReadLength64(o.p, n % w, k + 1);
    }
  }

  /** Where the parser is once it knows the length. */
  ghost function Sized(p: Parser, n: nat, masked: bool): Parser {
    p.(masked := masked, maskPos := 0, rem := n, at := if masked then Mask(0) else Payload)
  }

  lemma ReadLength16(p: Parser, hi: Byte, lo: Byte)
    requires p.at == LengthHi && hi * 256 + lo >= 126
    ensures Run(Step, p, [hi, lo]) == Go(p.(rem := hi * 256 + lo, at := AfterLength(p)))
  {
    var p' := p.(rem := hi * 256, at := LengthLo);
    var r := Go(p.(rem := hi * 256 + lo, at := AfterLength(p)));
    assert Step(p, hi) == Go(p') && Step(p', lo) == r;
    RunTwo(Step, p, hi, p', lo, r);
  }

  lemma LongLength(p: Parser, n: nat, masked: bool, b: Byte, rest: seq<Byte>)
    requires p.at == Length && !p.control && b == n + (if masked then 128 else 0) && n in {126, 127}
    ensures Run(Step, p, [b] + rest) ==
            Run(Step, p.(masked := masked, maskPos := 0, at := if n == 126 then LengthHi else Length64(0)), rest)
  {
    var p' := p.(masked := masked, maskPos := 0, at := if n == 126 then LengthHi else Length64(0));
    assert Step(p, b) == Go(p');
    RunOne(Step, p, b);
    RunOn(Step, p, [b], p', rest);
  }

  lemma ReadShortLength(p: Parser, n: nat, masked: bool)
    requires p.at == Length && n < 126 && (masked || n > 0)
    ensures Run(Step, p, LengthBytes(n, masked)) == Go(Sized(p, n, masked))
  {
    var b: Byte := n + if masked then 128 else 0;
    assert Step(p, b) == Go(Sized(p, n, masked));
    RunOne(Step, p, b);
  }

  lemma MediumLength(p: Parser, masked: bool, b: Byte, hi: Byte, lo: Byte)
    requires p.at == Length && !p.control && b == 126 + (if masked then 128 else 0) && hi * 256 + lo >= 126
    ensures Run(Step, p, [b] + [hi, lo]) == Go(Sized(p, hi * 256 + lo, masked))
  {
    LongLength(p, 126, masked, b, [hi, lo]);
    ReadLength16(p.(masked := masked, maskPos := 0, at := LengthHi), hi, lo);
  }

  lemma ReadMediumLength(p: Parser, n: nat, masked: bool)
    requires p.at == Length && 126 <= n < 0x1_0000 && !p.control
    ensures Run(Step, p, LengthBytes(n, masked)) == Go(Sized(p, n, masked))
  {
    var b: Byte, hi: Byte, lo: Byte := 126 + (if masked then 128 else 0), n / 256, n % 256;
    assert LengthBytes(n, masked) == [b, hi, lo] == [b] + [hi, lo];
    MediumLength(p, masked, b, hi, lo);
  }

  lemma ReadLength(p: Parser, n: nat, masked: bool)
    requires p.at == Length && n < 0x1_0000_0000_0000_0000 && (p.control ==> n <= 125) && (masked || n > 0)
    ensures Run(Step, p, LengthBytes(n, masked)) == Go(Sized(p, n, masked))
  {
    if n < 126 {
      ReadShortLength(p, n, masked);
    } else if n < 0x1_0000 {
      ReadMediumLength(p, n, masked);
    } else {
      var b: Byte := 127 + if masked then 128 else 0;
      TopWeight();
      LongLength(p, 127, masked, b, BigBytes(n, 0));
      ReadLength64(p.(masked := masked, maskPos := 0, at := Length64(0)), n, 0);
    }
  }

  lemma {:induction false} ReadMask(p: Parser, mask: seq<Byte>, k: nat)
    requires |mask| == 4 && k < 4 && p.at == Mask(k) && (k > 0 ==> p.mask == mask[..k])
    ensures var p' := p.(mask := mask, at := Payload);
      Run(Step, p, mask[k..]) == if p.rem == 0 then EndOfPayload(p') else Go(p')
    decreases 4 - k
  {
    var o := Step(p, mask[k]);
    assert mask[k..] == [mask[k]] + mask[k + 1..] && mask[..k + 1] == mask[..k] + [mask[k]];
    RunOne(Step, p, mask[k]);
    if k < 3 {
      RunOn(Step, p, [mask[k]], o.p, mask[k + 1..]);
      ReadMask(o.p, mask, k + 1);
    } else {
      assert mask[..4] == mask && mask[k..] == [mask[k]];
    }
  }

  /** The frame is over. */
  ghost predicate Done(p: Parser, o: Res, es: seq<Event>) {
    o.status == Going && o.events == es && o.p.at == Opcode && o.p.fragment == p.fragment
  }

  lemma UnmaskMasked(x: Byte, m: Byte)
    ensures XorByte(XorByte(x, m), m) == x
  {
    assert Pow2(8) == 256;
    XorTwice(x, m, 8);
  }

  lemma MaskedHead(s: seq<Byte>, mask: seq<Byte>, i: nat, b: Byte)
    requires |mask| == 4 && i < 4 && s != [] && b == XorByte(s[0], mask[i])
    ensures Masked(s, mask, i) == [b] + Masked(s[1..], mask, (i + 1) % 4)
  {
    assert i % 4 == i;
    MaskedShift(s[1..], mask, i + 1, (i + 1) % 4);
  }

  lemma UnmaskIs(p: Parser, b: Byte, m: Byte)
    requires p.masked && p.maskPos < |p.mask| && p.mask[p.maskPos] == m
    ensures Unmask(p, b) == XorByte(b, m)
  {}

  lemma MaskedByte(p: Parser, s: seq<Byte>)
    requires s != [] && p.maskPos < 4 && p.masked && |p.mask| == 4
    ensures var w := Masked(s, p.mask, p.maskPos);
      w != [] && Unmask(p, w[0]) == s[0] && w[1..] == Masked(s[1..], p.mask, (p.maskPos + 1) % 4)
  {
    var m := p.mask[p.maskPos];
    var b := XorByte(s[0], m);
    UnmaskMasked(s[0], m);
    UnmaskIs(p, b, m);
    MaskedHead(s, p.mask, p.maskPos, b);
  }

  /** The first byte of a payload on the wire. */
  lemma WireByte(p: Parser, s: seq<Byte>, wire: seq<Byte>)
    requires s != [] && p.maskPos < 4 && (p.masked ==> |p.mask| == 4)
    requires wire == if p.masked then Masked(s, p.mask, p.maskPos) else s
    ensures wire != [] && Unmask(p, wire[0]) == s[0]
    ensures wire[1..] == if p.masked then Masked(s[1..], p.mask, (p.maskPos + 1) % 4) else s[1..]
  {
    if p.masked { MaskedByte(p, s); }
  }

  lemma {:induction false} ReadPayload(p: Parser, s: seq<Byte>, wire: seq<Byte>)
    requires p.at == Payload && p.rem == |s| > 0 && p.maskPos < 4 && (p.masked ==> |p.mask| == 4)
    requires wire == if p.masked then Masked(s, p.mask, p.maskPos) else s
    ensures Done(p, Run(Step, p, wire), PayloadEvents(p.control, s) + EndEvents(p.control, p.fin))
    decreases |s|
  {
    WireByte(p, s, wire);
    var b, rest := wire[0], wire[1..];
    var o := Step(p, b);
    RunOne(Step, p, b);
    assert wire == [b] + rest;
    RunConcat(Step, p, [b], rest);
    if |s| == 1 {
      assert rest == [] && s[1..] == [];
      assert PayloadEvents(p.control, s) == [if p.control then Control(s[0]) else Data(s[0])];
    } else {
      ReadPayload(o.p, s[1..], rest);
      Append3([if p.control then Control(s[0]) else Data(s[0])], PayloadEvents(p.control, s[1..]),
        EndEvents(p.control, p.fin));
    }
  }

  lemma NextPlace(i: nat, j: nat)
    requires i % 4 == j % 4
    ensures (i + 1) % 4 == (j + 1) % 4
  {}

  lemma {:induction false} MaskedShift(s: seq<Byte>, mask: seq<Byte>, i: nat, j: nat)
    requires |mask| == 4 && i % 4 == j % 4
    ensures Masked(s, mask, i) == Masked(s, mask, j)
    decreases |s|
  {
    if s != [] {
      NextPlace(i, j);
      MaskedShift(s[1..], mask, i + 1, j + 1);
    }
  }

  // ---------- Frames

  lemma OpcodeBits(op: nat, fin: bool, b: Byte)
    requires op < 16 && b == op + if fin then 128 else 0
    ensures b % 16 == op && b / 16 % 8 == 0 && (b >= 128 <==> fin)
  {}

  /** The first byte of a frame. */
  lemma ReadOpcode(p: Parser, f: Frame, b: Byte)
    requires p.at == Opcode && ValidFrame(f) && (f.opcode == 0 ==> p.fragment) &&
             b == f.opcode + if f.fin then 128 else 0
    ensures Run(Step, p, [b]) ==
      Out(p.(at := Length, fin := f.fin, control := IsControl(f), fragment := Fragment(p.fragment, f)), BeginEvents(f),
        Going)
  {
    OpcodeBits(f.opcode, f.fin, b);
    RunOne(Step, p, b);
  }

  /** What becomes of the flag that lets a continuation pass. */
  function Fragment(fragment: bool, f: Frame): bool { if IsStart(f) then !f.fin else fragment }

  /** The mask, when nothing comes after it. */
  lemma ReadEmptyMasked(p: Parser, f: Frame)
    requires ValidFrame(f) && p == Sized(p, 0, true) && f.mask != [] && f.payload == []
    ensures Done(p, Run(Step, p, f.mask), PayloadEvents(p.control, []) + EndEvents(p.control, p.fin))
  {
    assert f.mask[0..] == f.mask;
    ReadMask(p, f.mask, 0);
    assert [] + EndEvents(p.control, p.fin) == EndEvents(p.control, p.fin);
  }

  lemma ReadMasked(p: Parser, f: Frame)
    requires ValidFrame(f) && p == Sized(p, |f.payload|, true) && f.mask != [] && f.payload != []
    ensures Done(p, Run(Step, p, f.mask + PayloadBytes(f)),
                 PayloadEvents(p.control, f.payload) + EndEvents(p.control, p.fin))
  {
    var p' := p.(mask := f.mask, at := Payload);
    assert f.mask[0..] == f.mask;
    ReadMask(p, f.mask, 0);
    RunOn(Step, p, f.mask, p', PayloadBytes(f));
    ReadPayload(p', f.payload, PayloadBytes(f));
  }

  /** The mask and the payload. */
  lemma ReadRest(p: Parser, f: Frame)
    requires ValidFrame(f) && p == Sized(p, |f.payload|, f.mask != []) && (f.mask != [] || f.payload != [])
    ensures Done(p, Run(Step, p, f.mask + PayloadBytes(f)),
                 PayloadEvents(p.control, f.payload) + EndEvents(p.control, p.fin))
  {
    if f.mask == [] {
      assert [] + f.payload == f.payload;
      ReadPayload(p, f.payload, f.payload);
    } else if f.payload == [] {
      assert f.mask + PayloadBytes(f) == f.mask;
      ReadEmptyMasked(p, f);
    } else {
      ReadMasked(p, f);
    }
  }

  /** From the length on. */
  lemma ReadBody(p: Parser, f: Frame)
    requires p.at == Length && ValidFrame(f) && p.control == IsControl(f) && p.fin == f.fin
    ensures var s := LengthBytes(|f.payload|, f.mask != []) + (f.mask + PayloadBytes(f));
      Done(p, Run(Step, p, s), PayloadEvents(IsControl(f), f.payload) + EndEvents(IsControl(f), f.fin))
  {
    var n, masked := |f.payload|, f.mask != [];
    if masked || n > 0 {
      ReadLength(p, n, masked);
      RunOn(Step, p, LengthBytes(n, masked), Sized(p, n, masked), f.mask + PayloadBytes(f));
      ReadRest(Sized(p, n, masked), f);
    } else {
      assert f.mask + PayloadBytes(f) == [] && LengthBytes(0, false) + [] == [0];
      RunOne(Step, p, 0);
      assert [] + EndEvents(p.control, p.fin) == EndEvents(p.control, p.fin);
    }
  }

  /** One frame, from first byte to first byte. */
  lemma TakeFrame(p: Parser, f: Frame)
    requires p.at == Opcode && ValidFrame(f) && (f.opcode == 0 ==> p.fragment)
    ensures var o := Run(Step, p, FrameBytes(f));
      o.status == Going && o.events == FrameEvents(f) && o.p.at == Opcode && o.p.fragment == Fragment(p.fragment, f)
  {
    var b: Byte := f.opcode + if f.fin then 128 else 0;
    var s := LengthBytes(|f.payload|, f.mask != []) + (f.mask + PayloadBytes(f));
    ReadOpcode(p, f, b);
    var p' := p.(at := Length, fin := f.fin, control := IsControl(f), fragment := Fragment(p.fragment, f));
    ReadBody(p', f);
    RunConcat(Step, p, [b], s);
  }

  // ---------- Streams

  /** How many frames the parser lets pass: up to the first continuation for which the flag is not set. */
  function Passed(fs: seq<Frame>, fragment: bool): (k: nat)
    ensures k <= |fs|
  {
    if fs == [] || (fs[0].opcode == 0 && !fragment) then 0 else 1 + Passed(fs[1..], Fragment(fragment, fs[0]))
  }

  lemma StrayContinuation(p: Parser, f: Frame, rest: seq<Byte>)
    requires p.at == Opcode && ValidFrame(f) && f.opcode == 0 && !p.fragment
    ensures var o := Run(Step, p, FrameBytes(f) + rest); o.status == Refused(INVALID_CONTINUATION) && o.events == []
  {
    var b: Byte := f.opcode + if f.fin then 128 else 0;
    OpcodeBits(f.opcode, f.fin, b);
    var s := FrameBytes(f) + rest;
    assert s[0] == b;
  }

  /** What the parser makes of frames that are each valid: the events of those that pass, and a refusal of the next. */
  ghost predicate StreamOut(o: Res, fs: seq<Frame>, fragment: bool) {
    var k := Passed(fs, fragment);
    && o.events == StreamEvents(fs[..k])
    && if k == |fs| then o.status == Going && o.p.at == Opcode else o.status == Refused(INVALID_CONTINUATION)
  }

  lemma {:induction false} TakeStream(p: Parser, fs: seq<Frame>)
    requires p.at == Opcode && Frames(fs)
    ensures StreamOut(Run(Step, p, StreamBytes(fs)), fs, p.fragment)
    decreases |fs|
  {
    var k := Passed(fs, p.fragment);
    if fs == [] {
    } else if fs[0].opcode == 0 && !p.fragment {
      StrayContinuation(p, fs[0], StreamBytes(fs[1..]));
    } else {
      TakeFrame(p, fs[0]);
      var p' := Run(Step, p, FrameBytes(fs[0])).p;
      RunConcat(Step, p, FrameBytes(fs[0]), StreamBytes(fs[1..]));
      TakeStream(p', fs[1..]);
      assert fs[..k][0] == fs[0] && fs[..k][1..] == fs[1..][..k - 1];
    }
  }

  /** However frames that are each valid are cut into buffers. */
  lemma FramesInPieces(p: Parser, fs: seq<Frame>, bufs: seq<seq<Byte>>)
    requires p.at == Opcode && Frames(fs) && Concat(bufs) == StreamBytes(fs)
    ensures StreamOut(RunAll(Step, p, bufs), fs, p.fragment)
  {
    CutAnywhere(Step, p, bufs);
    TakeStream(p, fs);
  }

  lemma {:induction false} OrderedPasses(fs: seq<Frame>, open: bool, fragment: bool)
    requires Ordered(fs, open) && Frames(fs) && (open ==> fragment)
    ensures Passed(fs, fragment) == |fs|
    decreases |fs|
  {
    if fs != [] { OrderedPasses(fs[1..], Open(open, fs[0]), Fragment(fragment, fs[0])); }
  }

  /** However the stream is cut into buffers, the parser raises exactly the events of its frames. */
  lemma StreamInPieces(p: Parser, fs: seq<Frame>, bufs: seq<seq<Byte>>)
    requires p.at == Opcode && ValidStream(fs, false) && Concat(bufs) == StreamBytes(fs)
    ensures var o := RunAll(Step, p, bufs); o.status == Going && o.events == StreamEvents(fs) && o.p.at == Opcode
  {
    FramesInPieces(p, fs, bufs);
    OrderedPasses(fs, false, p.fragment);
    assert fs[..|fs|] == fs;
  }

  // ---------- Which order of frames is accepted

  function FragmentAfter(fs: seq<Frame>): bool {
    fs != [] && Fragment(FragmentAfter(fs[..|fs| - 1]), fs[|fs| - 1])
  }

  /** The last frame before `i` that begins a message begins one of several fragments. */
  ghost predicate Fragmented(fs: seq<Frame>, i: nat)
    requires i <= |fs|
  {
    exists j :: 0 <= j < i && IsStart(fs[j]) && !fs[j].fin && forall k :: j < k < i ==> !IsStart(fs[k])
  }

  /** A frame that begins no message changes nothing. */
  lemma FragmentedLater(fs: seq<Frame>, i: nat)
    requires i < |fs| && !IsStart(fs[i])
    ensures Fragmented(fs, i + 1) <==> Fragmented(fs, i)
  {
    if Fragmented(fs, i) {
      var j :| 0 <= j < i && IsStart(fs[j]) && !fs[j].fin && forall k :: j < k < i ==> !IsStart(fs[k]);
      assert IsStart(fs[j]);
    }
    if Fragmented(fs, i + 1) {
      var j :| 0 <= j < i + 1 && IsStart(fs[j]) && !fs[j].fin && forall k :: j < k < i + 1 ==> !IsStart(fs[k]);
      assert IsStart(fs[j]);
    }
  }

  lemma {:induction false} FragmentIs(fs: seq<Frame>)
    ensures FragmentAfter(fs) <==> Fragmented(fs, |fs|)
  {
    if fs != [] {
      var last := |fs| - 1;
      FragmentIs(fs[..last]);
      FragmentedPrefix(fs, last, last);
      if !IsStart(fs[last]) { FragmentedLater(fs, last); }
    }
  }

  /** The frames that pass, from the other end. */
  lemma {:induction false} PassedMore(fs: seq<Frame>, f: Frame, fragment: bool)
    ensures Passed(fs + [f], fragment) == |fs| + 1 <==>
      Passed(fs, fragment) == |fs| && (f.opcode == 0 ==> FragmentFrom(fs, fragment))
    decreases |fs|
  {
    if fs == [] {
      assert fs + [f] == [f];
      assert Passed([f][1..], Fragment(fragment, f)) == 0;
    } else {
      assert (fs + [f])[1..] == fs[1..] + [f];
      PassedMore(fs[1..], f, Fragment(fragment, fs[0]));
    }
  }

  function FragmentFrom(fs: seq<Frame>, fragment: bool): bool {
    if fs == [] then fragment else FragmentFrom(fs[1..], Fragment(fragment, fs[0]))
  }

  lemma {:induction false} FragmentFromMore(fs: seq<Frame>, f: Frame, fragment: bool)
    ensures FragmentFrom(fs + [f], fragment) == Fragment(FragmentFrom(fs, fragment), f)
    decreases |fs|
  {
    if fs == [] {
      assert fs + [f] == [f] && [f][1..] == [];
    } else {
      assert (fs + [f])[1..] == fs[1..] + [f];
      FragmentFromMore(fs[1..], f, Fragment(fragment, fs[0]));
    }
  }

  lemma {:induction false} FragmentBothWays(fs: seq<Frame>)
    ensures FragmentFrom(fs, false) == FragmentAfter(fs)
  {
    if fs != [] {
      var front, f := fs[..|fs| - 1], fs[|fs| - 1];
      assert fs == front + [f];
      FragmentBothWays(front);
      FragmentFromMore(front, f, false);
    }
  }

  /** From the start of a connection the parser accepts frames that are each valid if and only if each continuation
      comes after a message that began in several fragments, and no other has begun since. */
  lemma {:induction false} AcceptedExactly(p: Parser, fs: seq<Frame>)
    requires p.at == Opcode && !p.fragment && Frames(fs)
    ensures Run(Step, p, StreamBytes(fs)).status == Going <==>
            forall i :: 0 <= i < |fs| && fs[i].opcode == 0 ==> Fragmented(fs, i)
  {
    TakeStream(p, fs);
    PassedIs(fs);
  }

  lemma FragmentedPrefix(fs: seq<Frame>, n: nat, i: nat)
    requires i <= n <= |fs|
    ensures Fragmented(fs[..n], i) <==> Fragmented(fs, i)
  {
    var front := fs[..n];
    assert forall k :: 0 <= k < i ==> front[k] == fs[k];
    if Fragmented(front, i) {
      var j :| 0 <= j < i && IsStart(front[j]) && !front[j].fin && forall k :: j < k < i ==> !IsStart(front[k]);
      assert IsStart(fs[j]);
    }
    if Fragmented(fs, i) {
      var j :| 0 <= j < i && IsStart(fs[j]) && !fs[j].fin && forall k :: j < k < i ==> !IsStart(fs[k]);
      assert IsStart(front[j]);
    }
  }

  lemma {:induction false} PassedIs(fs: seq<Frame>)
    ensures Passed(fs, false) == |fs| <==> forall i :: 0 <= i < |fs| && fs[i].opcode == 0 ==> Fragmented(fs, i)
  {
    if fs != [] {
      var last := |fs| - 1;
      var front, f := fs[..last], fs[last];
      assert fs == front + [f];
      PassedIs(front);
      PassedMore(front, f, false);
      FragmentBothWays(front);
      FragmentIs(front);
      forall i | 0 <= i <= last ensures Fragmented(front, i) <==> Fragmented(fs, i) { FragmentedPrefix(fs, last, i); }
      forall i | 0 <= i < last ensures front[i] == fs[i] {}
    }
  }

  // ---------- And which is to be accepted

  lemma {:induction false} OrderedMore(fs: seq<Frame>, f: Frame, open: bool)
    ensures Ordered(fs + [f], open) <==>
      Ordered(fs, open) && (IsStart(f) ==> !OpenFrom(fs, open)) && (f.opcode == 0 ==> OpenFrom(fs, open))
    decreases |fs|
  {
    if fs == [] {
      assert fs + [f] == [f];
      assert Ordered([f][1..], Open(open, f));
    } else {
      assert (fs + [f])[1..] == fs[1..] + [f];
      OrderedMore(fs[1..], f, Open(open, fs[0]));
    }
  }

  function OpenFrom(fs: seq<Frame>, open: bool): bool {
    if fs == [] then open else OpenFrom(fs[1..], Open(open, fs[0]))
  }

  lemma {:induction false} OpenIsFragment(fs: seq<Frame>, open: bool, fragment: bool)
    requires Ordered(fs, open) && Frames(fs) && (open ==> fragment)
    ensures OpenFrom(fs, open) ==> FragmentFrom(fs, fragment)
    decreases |fs|
  {
    if fs != [] { OpenIsFragment(fs[1..], Open(open, fs[0]), Fragment(fragment, fs[0])); }
  }

  lemma NextPasses(p: Parser, fs: seq<Frame>, f: Frame)
    requires p.at == Opcode && !p.fragment && ValidStream(fs, false) && ValidFrame(f)
    ensures Run(Step, p, StreamBytes(fs + [f])).status == Going <==> (f.opcode == 0 ==> Fragmented(fs, |fs|))
  {
    TakeStream(p, fs + [f]);
    PassedMore(fs, f, false);
    OrderedPasses(fs, false, false);
    FragmentBothWays(fs);
    FragmentIs(fs);
  }

  /** After a valid stream the parser accepts exactly the frames that may come next, if and only if the last message
      began in a single frame, or none has begun: the flag is not cleared by the last fragment, and a new message may
      begin before it. */
  lemma NextExactly(p: Parser, fs: seq<Frame>)
    requires p.at == Opcode && !p.fragment && ValidStream(fs, false)
    ensures (forall f :: ValidFrame(f) ==>
               (Run(Step, p, StreamBytes(fs + [f])).status == Going <==> ValidStream(fs + [f], false)))
            <==> !Fragmented(fs, |fs|)
  {
    OpenIsFragment(fs, false, false);
    FragmentBothWays(fs);
    FragmentIs(fs);
    forall f | ValidFrame(f)
      ensures Run(Step, p, StreamBytes(fs + [f])).status == Going <==> (f.opcode == 0 ==> Fragmented(fs, |fs|))
      ensures ValidStream(fs + [f], false) <==>
        (IsStart(f) ==> !OpenFrom(fs, false)) && (f.opcode == 0 ==> OpenFrom(fs, false))
    {
      NextPasses(p, fs, f);
      OrderedMore(fs, f, false);
    }
    if Fragmented(fs, |fs|) {
      var f := Frame(true, if OpenFrom(fs, false) then TEXT else 0, [], []);
      assert ValidFrame(f) && !ValidStream(fs + [f], false);
    }
  }

  // ---------- Messages

  datatype Message = Message(opcode: nat, payload: seq<Byte>)

  /** Section 5.4: the messages that the frames make up; `part` is what there is of one that has begun. */
  function Messages(fs: seq<Frame>, part: seq<Message>): seq<Message>
    requires |part| <= 1
  {
    if fs == [] then [] else
    var f := fs[0];
    if IsControl(f) then Messages(fs[1..], part)
    else
      var m := Extended(part, f);
      if f.fin then [m] + Messages(fs[1..], []) else Messages(fs[1..], [m])
  }

  /** What the data callbacks hear of messages: the events of whole ones, and the beginning of one. */
  function DataEvents(es: seq<Event>): seq<Event> {
    if es == [] then []
    else DataEvent(es[0]) + DataEvents(es[1..])
  }

  function DataEvent(e: Event): seq<Event> { if e.DataBegin? || e.Data? || e.DataEnd? then [e] else [] }

  function Begun(m: Message): seq<Event> { [DataBegin(m.opcode)] + PayloadEvents(false, m.payload) }

  function Told(ms: seq<Message>): seq<Event> {
    if ms == [] then [] else (Begun(ms[0]) + [DataEnd]) + Told(ms[1..])
  }

  lemma {:induction false} DataEventsConcat(a: seq<Event>, b: seq<Event>)
    ensures DataEvents(a + b) == DataEvents(a) + DataEvents(b)
  {
    if a == [] {
      assert a + b == b;
    } else {
      var h := DataEvent(a[0]);
      assert (a + b)[1..] == a[1..] + b && (a + b)[0] == a[0];
      DataEventsConcat(a[1..], b);
      Append3(h, DataEvents(a[1..]), DataEvents(b));
    }
  }

  lemma {:induction false} PayloadConcat(control: bool, a: seq<Byte>, b: seq<Byte>)
    ensures PayloadEvents(control, a + b) == PayloadEvents(control, a) + PayloadEvents(control, b)
  {
    if a == [] {
      assert a + b == b;
    } else {
      assert (a + b)[1..] == a[1..] + b;
      PayloadConcat(control, a[1..], b);
    }
  }

  lemma {:induction false} PayloadData(control: bool, s: seq<Byte>)
    ensures DataEvents(PayloadEvents(control, s)) == if control then [] else PayloadEvents(false, s)
  {
    if s != [] {
      PayloadData(control, s[1..]);
      var es := PayloadEvents(control, s);
      assert es[1..] == PayloadEvents(control, s[1..]);
    }
  }

  lemma FrameData(f: Frame)
    ensures DataEvents(FrameEvents(f)) ==
      if IsControl(f) then []
      else BeginEvents(f) + (PayloadEvents(false, f.payload) + EndEvents(false, f.fin))
  {
    var x, y, z := BeginEvents(f), PayloadEvents(IsControl(f), f.payload), EndEvents(IsControl(f), f.fin);
    DataEventsConcat(x, y + z);
    DataEventsConcat(y, z);
    PayloadData(IsControl(f), f.payload);
    assert |x| == 1 ==> x[1..] == [];
    assert |z| == 1 ==> z[1..] == [];
  }

  /** The message that has begun and not ended. */
  function Unfinished(fs: seq<Frame>, part: seq<Message>): (r: seq<Message>)
    requires |part| <= 1
    ensures |r| <= 1
  {
    if fs == [] then part else
    var f := fs[0];
    if IsControl(f) then Unfinished(fs[1..], part)
    else Unfinished(fs[1..], if f.fin then [] else [Extended(part, f)])
  }

  function Extended(part: seq<Message>, f: Frame): Message
    requires |part| <= 1
  {
    if part == [] then Message(f.opcode, f.payload) else Message(part[0].opcode, part[0].payload + f.payload)
  }

  function BegunAll(part: seq<Message>): seq<Event>
    requires |part| <= 1
  {
    if part == [] then [] else Begun(part[0])
  }

  /** One data frame adds its payload to the message. */
  lemma FrameExtends(part: seq<Message>, f: Frame)
    requires ValidFrame(f) && !IsControl(f) && |part| <= 1 && (IsStart(f) <==> part == [])
    ensures BegunAll(part) + DataEvents(FrameEvents(f)) == Begun(Extended(part, f)) + EndEvents(false, f.fin)
  {
    FrameData(f);
    if part != [] { PayloadConcat(false, part[0].payload, f.payload); }
  }

  lemma Append3(a: seq<Event>, b: seq<Event>, c: seq<Event>)
    ensures (a + b) + c == a + (b + c)
  {}

  /** One data frame, given what the frames after it tell. */
  lemma DataFrameTold(fs: seq<Frame>, part: seq<Message>)
    requires fs != [] && ValidFrame(fs[0]) && !IsControl(fs[0]) && |part| <= 1 && (IsStart(fs[0]) <==> part == [])
    requires var part' := if fs[0].fin then [] else [Extended(part, fs[0])];
      BegunAll(part') + DataEvents(StreamEvents(fs[1..])) ==
        Told(Messages(fs[1..], part')) + BegunAll(Unfinished(fs[1..], part'))
    ensures BegunAll(part) + DataEvents(StreamEvents(fs)) == Told(Messages(fs, part)) + BegunAll(Unfinished(fs, part))
  {
    var f, rest := fs[0], StreamEvents(fs[1..]);
    var m := Extended(part, f);
    DataEventsConcat(FrameEvents(f), rest);
    FrameExtends(part, f);
    Append3(BegunAll(part), DataEvents(FrameEvents(f)), DataEvents(rest));
    if f.fin {
      assert [] + DataEvents(rest) == DataEvents(rest);
      Append3(Begun(m) + [DataEnd], Told(Messages(fs[1..], [])), BegunAll(Unfinished(fs[1..], [])));
    } else {
      assert Begun(m) + [] == Begun(m);
    }
  }

  /** The data callbacks hear of every message of the stream, whole and in order, whatever control
      frames come between its fragments, and then of the beginning of an unfinished one. */
  lemma {:induction false} MessagesTold(fs: seq<Frame>, open: bool, part: seq<Message>)
    requires ValidStream(fs, open) && |part| <= 1 && (open <==> part != [])
    ensures BegunAll(part) + DataEvents(StreamEvents(fs)) == Told(Messages(fs, part)) + BegunAll(Unfinished(fs, part))
    decreases |fs|
  {
    if fs != [] {
      var f, rest := fs[0], StreamEvents(fs[1..]);
      if IsControl(f) {
        DataEventsConcat(FrameEvents(f), rest);
        FrameData(f);
        assert [] + DataEvents(rest) == DataEvents(rest);
        MessagesTold(fs[1..], open, part);
      } else {
        MessagesTold(fs[1..], !f.fin, if f.fin then [] else [Extended(part, f)]);
        DataFrameTold(fs, part);
      }
    }
  }

  /** Section 5.7: the single masked frame that holds "Hello". */
  lemma HelloHeard(p: Parser)
    requires p.at == Opcode
    ensures Run(Step, p, [0x81, 0x85, 0x37, 0xfa, 0x21, 0x3d, 0x7f, 0x9f, 0x4d, 0x51, 0x58]).events ==
            [DataBegin(1), Data(0x48), Data(0x65), Data(0x6c), Data(0x6c), Data(0x6f), DataEnd]
  {
    var f := Frame(true, 1, [0x37, 0xfa, 0x21, 0x3d], [0x48, 0x65, 0x6c, 0x6c, 0x6f]);
    TakeFrame(p, f);
    HelloBytes(f);
    HelloEvents(f);
  }

  lemma HelloBytes(f: Frame)
    requires f == Frame(true, 1, [0x37, 0xfa, 0x21, 0x3d], [0x48, 0x65, 0x6c, 0x6c, 0x6f])
    ensures FrameBytes(f) == [0x81, 0x85, 0x37, 0xfa, 0x21, 0x3d, 0x7f, 0x9f, 0x4d, 0x51, 0x58]
  {
    HelloMasked(f.mask);
    assert LengthBytes(5, true) == [0x85];
  }

  lemma HelloXors()
    ensures XorByte(0x48, 0x37) == 0x7f && XorByte(0x65, 0xfa) == 0x9f && XorByte(0x6c, 0x21) == 0x4d
    ensures XorByte(0x6c, 0x3d) == 0x51 && XorByte(0x6f, 0x37) == 0x58
  {}

  lemma MaskOne(x: Byte, s: seq<Byte>, mask: seq<Byte>, i: nat, b: Byte)
    requires |mask| == 4 && b == XorByte(x, mask[i % 4])
    ensures Masked([x] + s, mask, i) == [b] + Masked(s, mask, i + 1)
  {
    assert ([x] + s)[1..] == s;
  }

  lemma FiveMasked(s: seq<Byte>, mask: seq<Byte>, w: seq<Byte>)
    requires |s| == |w| == 5 && |mask| == 4
    requires w[0] == XorByte(s[0], mask[0]) && w[1] == XorByte(s[1], mask[1]) && w[2] == XorByte(s[2], mask[2])
    requires w[3] == XorByte(s[3], mask[3]) && w[4] == XorByte(s[4], mask[0])
    ensures Masked(s, mask, 0) == w
  {
    var h4 := [s[4]] + [];
    var h3 := [s[3]] + h4;
    var h2 := [s[2]] + h3;
    var h1 := [s[1]] + h2;
    MaskOne(s[4], [], mask, 4, w[4]);
    MaskOne(s[3], h4, mask, 3, w[3]);
    MaskOne(s[2], h3, mask, 2, w[2]);
    MaskOne(s[1], h2, mask, 1, w[1]);
    MaskOne(s[0], h1, mask, 0, w[0]);
    assert [s[0]] + h1 == s;
  }

  lemma HelloMasked(mask: seq<Byte>)
    requires mask == [0x37, 0xfa, 0x21, 0x3d]
    ensures Masked([0x48, 0x65, 0x6c, 0x6c, 0x6f], mask, 0) == [0x7f, 0x9f, 0x4d, 0x51, 0x58]
  {
    HelloXors();
    FiveMasked([0x48, 0x65, 0x6c, 0x6c, 0x6f], mask, [0x7f, 0x9f, 0x4d, 0x51, 0x58]);
  }

  lemma TellOne(x: Byte, s: seq<Byte>)
    ensures PayloadEvents(false, [x] + s) == [Data(x)] + PayloadEvents(false, s)
  {
    assert ([x] + s)[1..] == s;
  }

  lemma HelloEvents(f: Frame)
    requires f.opcode == 1 && f.fin && f.payload == [0x48, 0x65, 0x6c, 0x6c, 0x6f]
    ensures FrameEvents(f) == [DataBegin(1), Data(0x48), Data(0x65), Data(0x6c), Data(0x6c), Data(0x6f), DataEnd]
  {
    var h4: seq<Byte> := [0x6f] + [];
    var h3: seq<Byte> := [0x6c] + h4;
    var h2: seq<Byte> := [0x6c] + h3;
    var h1: seq<Byte> := [0x65] + h2;
    TellOne(0x6f, []);
    TellOne(0x6c, h4);
    TellOne(0x6c, h3);
    TellOne(0x65, h2);
    TellOne(0x48, h1);
    assert [0x48] + h1 == f.payload;
  }

  // ---------- The server's frame writer

  /** c_send_data_ws: the header it sends before the data, if the data is not too big. */
  function SendHeader(len: nat): seq<Byte>
    requires len < 0x1_0000
  {
    [0x82] + if len < 126 then [len] else [126, len / 256, len % 256]
  }

  /** What the writer sends is one final binary frame, and a parser hears the data from it. */
  lemma SendRoundTrip(p: Parser, data: seq<Byte>)
    requires p.at == Opcode && |data| < 0x1_0000
    ensures var o := Run(Step, p, SendHeader(|data|) + data);
      o.status == Going && o.events == [DataBegin(BINARY)] + (PayloadEvents(false, data) + [DataEnd]) &&
        o.p.at == Opcode
  {
    var f := Frame(true, BINARY, [], data);
    TakeFrame(p, f);
    assert SendHeader(|data|) + data == FrameBytes(f);
  }
}
