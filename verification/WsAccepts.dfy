/** The parser takes nothing but frames: what it accepts, from opcode to opcode, is a sequence of frames in the format
    of section 5.2 of RFC 6455. */
module WsAccepts {
  import opened ByteStream
  import opened WsParser
  import opened WsStreams

  /** Reading `s` from `p` is accepted and ends where a frame may begin. */
  ghost predicate Taken(p: Parser, s: seq<Byte>) {
    var o := Run(Step, p, s);
    o.status == Going && o.p.at == Opcode
  }

  /** Within a frame there is more to come. */
  lemma NextByte(p: Parser, s: seq<Byte>)
    requires Taken(p, s) && (p.at != Opcode || s != [])
    ensures s != [] && Step(p, s[0]).status == Going && Taken(Step(p, s[0]).p, s[1..])
  {}

  // ---------- Lengths

  /** The number that eight bytes stand for, from byte `k` on. */
  function Number(bs: seq<Byte>, k: nat): nat
    requires k <= 8 && |bs| == 8 - k
    decreases 8 - k
  {
    if k == 8 then 0 else bs[0] * Weight(k) + Number(bs[1..], k + 1)
  }

  lemma {:induction false} NumberBound(bs: seq<Byte>, k: nat)
    requires k < 8 && |bs| == 8 - k
    ensures Number(bs, k) < 256 * Weight(k)
    decreases 8 - k
  {
    if k == 7 {
      assert bs[1..] == [];
    } else {
      NumberBound(bs[1..], k + 1);
      Weighed(bs[0], Weight(k), Number(bs[1..], k + 1));
    }
  }

  lemma Weighed(b: Byte, w: nat, n: nat)
    requires n < w
    ensures 0 <= b * w && b * w + n < 256 * w && (w > 0 ==> (b * w + n) / w == b && (b * w + n) % w == n)
  {
    assert b * w <= 255 * w;
    if w > 0 { Division(b, w, n); }
  }

  lemma Multiple(k: nat, w: nat)
    requires k > 0
    ensures k * w >= w
  {
    assert k * w == (k - 1) * w + w;
  }

  lemma Division(q: nat, w: nat, r: nat)
    requires r < w
    ensures (q * w + r) / w == q && (q * w + r) % w == r
  {
    var a := q * w + r;
    var d, m := a / w, a % w;
    assert d * w + m == a;
    assert (d - q) * w == d * w - q * w == r - m;
    assert (q - d) * w == q * w - d * w == m - r;
    if d > q { Multiple(d - q, w); }
    if q > d { Multiple(q - d, w); }
  }

  /** The eight bytes are those of the number. */
  lemma {:induction false} NumberBytes(bs: seq<Byte>, k: nat)
    requires k < 8 && |bs| == 8 - k && Number(bs, k) < 256 * Weight(k)
    ensures BigBytes(Number(bs, k), k) == bs
    decreases 8 - k
  {
    if k == 7 {
      assert bs[1..] == [] && bs == [bs[0]];
    } else {
      NumberBound(bs[1..], k + 1);
      Weighed(bs[0], Weight(k), Number(bs[1..], k + 1));
      NumberBytes(bs[1..], k + 1);
      assert bs == [bs[0]] + bs[1..];
    }
  }

  /** Eight bytes are read as their number, which is refused if it is too small. */
  lemma {:induction false} LongLengthBack(p: Parser, s: seq<Byte>, k: nat)
    requires k < 8 && p.at == Length64(k) && Taken(p, s)
    ensures |s| >= 8 - k
    ensures var n := (if k == 0 then 0 else p.rem) + Number(s[..8 - k], k);
      n >= 65536 && Taken(p.(rem := n, at := AfterLength(p)), s[8 - k..])
    decreases 8 - k
  {
    if k == 7 {
      LongLast(p, s);
    } else {
      var p' := LongNext(p, s, k);
      LongLengthBack(p', s[1..], k + 1);
      NumberSplits(s, k);
    }
  }

  lemma LongNext(p: Parser, s: seq<Byte>, k: nat) returns (p': Parser)
    requires k < 7 && p.at == Length64(k) && Taken(p, s)
    ensures s != [] && Taken(p', s[1..])
    ensures p' == p.(rem := (if k == 0 then 0 else p.rem) + s[0] * Weight(k), at := Length64(k + 1))
  {
    NextByte(p, s);
    LongByte(p, s[0], k);
    p' := Step(p, s[0]).p;
  }

  lemma LongLast(p: Parser, s: seq<Byte>)
    requires p.at == Length64(7) && Taken(p, s)
    ensures |s| >= 1
    ensures var n := p.rem + Number(s[..1], 7);
      n >= 65536 && Taken(p.(rem := n, at := AfterLength(p)), s[1..])
  {
    NextByte(p, s);
    LongByte(p, s[0], 7);
    assert s[..1] == [s[0]] && [s[0]][1..] == [];
  }

  lemma LongByte(p: Parser, b: Byte, k: nat)
    requires k < 8 && p.at == Length64(k) && Step(p, b).status == Going
    ensures var n := (if k == 0 then 0 else p.rem) + b * Weight(k);
      && (k < 7 ==> Step(p, b).p == p.(rem := n, at := Length64(k + 1)))
      && (k == 7 ==> n >= 65536 && Step(p, b).p == p.(rem := n, at := AfterLength(p)))
  {}

  lemma NumberSplits(s: seq<Byte>, k: nat)
    requires k < 7 && |s| >= 8 - k
    ensures Number(s[..8 - k], k) == s[0] * Weight(k) + Number(s[1..][..7 - k], k + 1) && s[1..][7 - k..] == s[8 - k..]
  {
    assert s[..8 - k][1..] == s[1..][..7 - k];
  }

  lemma OneBefore(s: seq<Byte>, l: nat)
    requires l < |s|
    ensures s[..l + 1] == [s[0]] + s[1..][..l] && s[l + 1..] == s[1..][l..]
  {}

  lemma MediumForm(n: nat, masked: bool, b: Byte)
    requires 126 <= n < 0x1_0000 && b == 126 + if masked then 128 else 0
    ensures LengthBytes(n, masked) == [b] + [n / 256, n % 256]
  {}

  lemma LongForm(n: nat, masked: bool, b: Byte)
    requires 0x1_0000 <= n < 256 * Weight(0) && b == 127 + if masked then 128 else 0
    ensures n < 0x1_0000_0000_0000_0000 && LengthBytes(n, masked) == [b] + BigBytes(n, 0)
  {
    TopWeight();
  }

  /** The length comes back in the shortest form that it has. */
  lemma LengthBack(p: Parser, s: seq<Byte>) returns (n: nat, masked: bool, l: nat)
    requires p.at == Length && Taken(p, s)
    ensures n < 0x1_0000_0000_0000_0000 && (p.control ==> n <= 125)
    ensures l <= |s| && s[..l] == LengthBytes(n, masked)
    ensures masked || n > 0 ==> Taken(Sized(p, n, masked), s[l..])
  {
    NextByte(p, s);
    var b, p' := s[0], Step(p, s[0]).p;
    masked := b >= 128;
    if b % 128 < 126 {
      n, l := b % 128, 1;
      assert s[..1] == [b];
    } else if b % 128 == 126 {
      n, l := MediumBack(p', s[1..]);
      MediumForm(n, masked, b);
      OneBefore(s, l);
      l := l + 1;
    } else {
      n, l := LongBack(p', s[1..]);
      LongForm(n, masked, b);
      OneBefore(s, l);
      l := l + 1;
    }
  }

  lemma MediumBack(p: Parser, s: seq<Byte>) returns (n: nat, l: nat)
    requires p.at == LengthHi && Taken(p, s)
    ensures l == 2 <= |s| && 126 <= n < 0x1_0000 && s[..2] == [n / 256, n % 256]
    ensures Taken(p.(rem := n, at := AfterLength(p)), s[2..])
  {
    NextByte(p, s);
    var p' := Step(p, s[0]).p;
    NextByte(p', s[1..]);
    var hi: nat, lo: nat := s[0], s[1];
    n, l := hi * 256 + lo, 2;
    assert s[1..][1..] == s[2..] && s[..2] == [s[0], s[1]];
  }

  lemma LongBack(p: Parser, s: seq<Byte>) returns (n: nat, l: nat)
    requires p.at == Length64(0) && Taken(p, s)
    ensures l == 8 <= |s| && 0x1_0000 <= n < 256 * Weight(0) && s[..8] == BigBytes(n, 0)
    ensures Taken(p.(rem := n, at := AfterLength(p)), s[8..])
  {
    LongLengthBack(p, s, 0);
    n := EightBytes(s[..8], 0);
    l := 8;
  }

  /** A number and its bytes. */
  lemma EightBytes(bs: seq<Byte>, k: nat) returns (n: nat)
    requires k < 8 && |bs| == 8 - k
    ensures n == Number(bs, k) < 256 * Weight(k) && bs == BigBytes(n, k)
  {
    n := Number(bs, k);
    NumberBound(bs, k);
    NumberBytes(bs, k);
  }

  // ---------- Masks and payloads

  lemma MaskByte(p: Parser, s: seq<Byte>, k: nat, t: seq<Byte>) returns (p': Parser)
    requires k < 4 && k <= |s| && p.at == Mask(k) && t == s[k..] && (k > 0 ==> p.mask == s[..k]) && Taken(p, t)
    ensures k < |s| && Taken(p', s[k + 1..]) && (k < 3 || p.rem > 0 ==> p' == p.(mask := s[..k + 1], at := p'.at))
    ensures if k < 3 then p'.at == Mask(k + 1) else p.rem > 0 ==> p'.at == Payload
  {
    NextByte(p, t);
    p' := Step(p, t[0]).p;
    assert t[0] == s[k] && t[1..] == s[k + 1..] && s[..k + 1] == s[..k] + [s[k]];
    if k == 0 { assert s[..1] == [] + [s[0]]; }
  }

  lemma MaskBack(p: Parser, s: seq<Byte>)
    requires p.at == Mask(0) && Taken(p, s)
    ensures |s| >= 4
    ensures p.rem > 0 ==> Taken(p.(mask := s[..4], at := Payload), s[4..])
  {
    assert s[0..] == s;
    var p1 := MaskByte(p, s, 0, s);
    var p2 := MaskByte(p1, s, 1, s[1..]);
    var p3 := MaskByte(p2, s, 2, s[2..]);
    var p4 := MaskByte(p3, s, 3, s[3..]);
  }

  lemma {:induction false} PayloadBack(p: Parser, s: seq<Byte>)
    requires p.at == Payload && p.rem > 0 && Taken(p, s)
    ensures |s| >= p.rem
    decreases |s|
  {
    NextByte(p, s);
    if p.rem > 1 { PayloadBack(Step(p, s[0]).p, s[1..]); }
  }

  lemma {:induction false} MaskedTwice(s: seq<Byte>, mask: seq<Byte>, i: nat)
    requires |mask| == 4
    ensures |Masked(s, mask, i)| == |s| && Masked(Masked(s, mask, i), mask, i) == s
    decreases |s|
  {
    if s != [] {
      UnmaskMasked(s[0], mask[i % 4]);
      MaskedTwice(s[1..], mask, i + 1);
      assert Masked(s, mask, i)[1..] == Masked(s[1..], mask, i + 1);
    }
  }

  // ---------- Frames

  /** The mask and the payload behind a length. */
  lemma BodyBack(p: Parser, n: nat, masked: bool, s: seq<Byte>) returns (mask: seq<Byte>, payload: seq<Byte>, l: nat)
    requires (masked || n > 0) && Taken(Sized(p, n, masked), s)
    ensures l <= |s| && |payload| == n && (if masked then |mask| == 4 else mask == [])
    ensures s[..l] == mask + if masked then Masked(payload, mask, 0) else payload
  {
    var q := Sized(p, n, masked);
    if masked {
      MaskBack(q, s);
      mask := s[..4];
      if n > 0 { PayloadBack(q.(mask := mask, at := Payload), s[4..]); }
      var wire := s[4..][..n];
      payload, l := Masked(wire, mask, 0), 4 + n;
      MaskedTwice(wire, mask, 0);
      assert s[..l] == mask + wire;
    } else {
      PayloadBack(q, s);
      mask, payload, l := [], s[..n], n;
      assert s[..l] == [] + payload;
    }
  }

  lemma FirstByte(p: Parser, b: Byte)
    requires p.at == Opcode && Step(p, b).status == Going
    ensures b / 16 % 8 == 0 && b % 16 in {0, 1, 2, 8, 9, 10} && (b % 16 >= 8 ==> b >= 128) &&
            (b % 16 == 0 ==> p.fragment)
    ensures b == b % 16 + if b >= 128 then 128 else 0
    ensures Step(p, b).p.at == Length && Step(p, b).p.control == (b % 16 >= 8)
  {}

  /** What is accepted begins with a frame. */
  lemma FrameBack(p: Parser, s: seq<Byte>) returns (f: Frame, l: nat)
    requires p.at == Opcode && s != [] && Taken(p, s)
    ensures ValidFrame(f) && (f.opcode == 0 ==> p.fragment) && 0 < l <= |s| && s[..l] == FrameBytes(f)
  {
    NextByte(p, s);
    var b, p1 := s[0], Step(p, s[0]).p;
    FirstByte(p, b);
    var n, masked, k := LengthBack(p1, s[1..]);
    var mask: seq<Byte>, payload: seq<Byte>, j := [], [], 0;
    var rest := s[1..][k..];
    if masked || n > 0 { mask, payload, j := BodyBack(p1, n, masked, rest); }
    f, l := Frame(b >= 128, b % 16, mask, payload), 1 + k + j;
    Pieces(s, k, j);
    FrameForm(f, b, n, masked);
  }

  lemma FrameForm(f: Frame, b: Byte, n: nat, masked: bool)
    requires ValidFrame(f) && b == f.opcode + (if f.fin then 128 else 0) && n == |f.payload| && masked == (f.mask != [])
    ensures FrameBytes(f) ==
            [b] + (LengthBytes(n, masked) + (f.mask + if masked then Masked(f.payload, f.mask, 0) else f.payload))
  {}

  lemma Pieces(s: seq<Byte>, k: nat, j: nat)
    requires 1 + k + j <= |s|
    ensures s[..1 + k + j] == [s[0]] + (s[1..][..k] + s[1..][k..][..j])
  {}

  /** What is accepted from opcode to opcode is the bytes of frames, and of no others. */
  lemma {:induction false} OnlyFrames(p: Parser, s: seq<Byte>) returns (fs: seq<Frame>)
    requires p.at == Opcode && Taken(p, s)
    ensures Frames(fs) && s == StreamBytes(fs) && Run(Step, p, s).events == StreamEvents(fs)
    decreases |s|
  {
    if s == [] {
      fs := [];
    } else {
      var f, l := FrameBack(p, s);
      var rest := s[l..];
      assert s == s[..l] + rest;
      TakeFrame(p, f);
      RunConcat(Step, p, s[..l], rest);
      var gs := OnlyFrames(Run(Step, p, s[..l]).p, rest);
      fs := [f] + gs;
      assert fs[1..] == gs;
    }
  }

  /** Every continuation follows a first fragment with no unfragmented message begun since. */
  ghost predicate Continued(fs: seq<Frame>) {
    forall i :: 0 <= i < |fs| && fs[i].opcode == 0 ==> Fragmented(fs, i)
  }

  /** The language of the parser: a stream is accepted, up to the end of a frame, if and only if it is the bytes of
      frames of which every continuation follows a first fragment with no unfragmented message begun since. */
  lemma LanguageExactly(p: Parser, s: seq<Byte>)
    requires p.at == Opcode && !p.fragment
    ensures Taken(p, s) <==> exists fs: seq<Frame> :: Frames(fs) && s == StreamBytes(fs) && Continued(fs)
  {
    if Taken(p, s) {
      var fs := OnlyFrames(p, s);
      AcceptedExactly(p, fs);
      assert Continued(fs);
    }
    if fs: seq<Frame> :| Frames(fs) && s == StreamBytes(fs) && Continued(fs) {
      AcceptedExactly(p, fs);
      TakeStream(p, fs);
    }
  }

  // ---------- What is refused, and why

  /** The first two bytes of a frame. */
  lemma HeadRefused(p: Parser, b: Byte, n: Byte)
    requires p.at == Opcode
    ensures Run(Step, p, [b, n]).status ==
      if b / 16 % 8 != 0 then Refused(-1)
      else if b % 16 !in {0, 1, 2, 8, 9, 10} then Refused(-2)
      else if b % 16 == 0 && !p.fragment then Refused(-3)
      else if b % 16 >= 8 && b < 128 then Refused(-6)
      else if b % 16 >= 8 && n % 128 > 125 then Refused(-4)
      else Going
  {
    var o := Step(p, b);
    RunOne(Step, p, b);
    assert [b, n] == [b] + [n];
    RunConcat(Step, p, [b], [n]);
    if o.status == Going { RunOne(Step, o.p, n); }
  }

  lemma {:induction false} LongRefused(p: Parser, s: seq<Byte>, k: nat)
    requires k < 8 && p.at == Length64(k) && |s| == 8 - k
    ensures Run(Step, p, s).status ==
      if (if k == 0 then 0 else p.rem) + Number(s, k) < 65536 then Refused(-5) else Going
    decreases 8 - k
  {
    if k == 7 {
      assert s == [s[0]] && s[1..] == [];
      RunOne(Step, p, s[0]);
    } else {
      LongRefused(Step(p, s[0]).p, s[1..], k + 1);
    }
  }

  /** A length in more bytes than it needs. */
  lemma LengthRefused(p: Parser, s: seq<Byte>)
    requires (p.at == LengthHi && |s| == 2) || (p.at == Length64(0) && |s| == 8)
    ensures Run(Step, p, s).status ==
      if |s| == 2 then (if (s[0] as nat) * 256 + s[1] < 126 then Refused(-5) else Going)
      else if Number(s, 0) < 65536 then Refused(-5) else Going
  {
    if |s| == 2 {
      var p' := Step(p, s[0]).p;
      assert s == [s[0]] + [s[1]];
      RunOne(Step, p, s[0]);
      RunOne(Step, p', s[1]);
      RunConcat(Step, p, [s[0]], [s[1]]);
    } else {
      LongRefused(p, s, 0);
    }
  }
}
