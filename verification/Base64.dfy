/** Base64 (base64.c), section 4 of RFC 4648. */
module Base64 {
  import opened ByteStream
  import opened Buffer

  const PAD: Byte := 61

  // ---------- Arithmetic on a group

  function Triple(a: Byte, b: Byte, c: Byte): nat { a * 65536 + b * 256 + c }

  lemma Div262144(t: nat, q: nat, r: nat)
    requires t == q * 262144 + r && r < 262144
    ensures t / 262144 == q && t % 262144 == r
  {}

  lemma Div4096(t: nat, q: nat, r: nat)
    requires t == q * 4096 + r && r < 4096
    ensures t / 4096 == q && t % 4096 == r
  {}

  lemma Div64(t: nat, q: nat, r: nat)
    requires t == q * 64 + r && r < 64
    ensures t / 64 == q && t % 64 == r
  {}

  type Sextet = v: int | 0 <= v < 64

  /** Shifted right by `n` bits and masked to six. */
  function Bits(t: nat, n: nat): Sextet {
    if n == 18 then t / 262144 % 64 else if n == 12 then t / 4096 % 64 else if n == 6 then t / 64 % 64 else t % 64
  }

  /** The four sextets of a group: what the shifts and masks of the source give. */
  lemma SextetsOf(a: Byte, b: Byte, c: Byte)
    ensures var t := Triple(a, b, c);
      && Bits(t, 18) == a / 4 && Bits(t, 12) == a % 4 * 16 + b / 16
      && Bits(t, 6) == b % 16 * 4 + c / 64 && Bits(t, 0) == c % 64
  {
    var t := Triple(a, b, c);
    Div262144(t, a / 4, a % 4 * 65536 + b * 256 + c);
    Div4096(t, a * 16 + b / 16, b % 16 * 256 + c);
    Div64(a * 16 + b / 16, a / 4, a % 4 * 16 + b / 16);
    Div64(t, a * 1024 + b * 4 + c / 64, c % 64);
    Div64(a * 1024 + b * 4 + c / 64, a * 16 + b / 16, b % 16 * 4 + c / 64);
  }

  /** Shifted right by `n` bits and masked to a byte. */
  function Octet(t: nat, n: nat): Byte {
    if n == 16 then t / 65536 % 256 else if n == 8 then t / 256 % 256 else t % 256
  }

  lemma Div65536(t: nat, q: nat, r: nat)
    requires t == q * 65536 + r && r < 65536
    ensures t / 65536 == q
  {}

  lemma Div256(t: nat, q: nat, r: nat)
    requires t == q * 256 + r && r < 256
    ensures t / 256 == q && t % 256 == r
  {}

  function Sum(w: Sextet, x: Sextet, y: Sextet, z: Sextet): nat { w * 262144 + x * 4096 + y * 64 + z }

  /** The three bytes of four sextets: what the shifts and masks of the source give. */
  lemma BytesOf(w: Sextet, x: Sextet, y: Sextet, z: Sextet)
    ensures var t := Sum(w, x, y, z);
      Octet(t, 16) == w * 4 + x / 16 && Octet(t, 8) == x % 16 * 16 + y / 4 && Octet(t, 0) == y % 4 * 64 + z
  {
    var t := Sum(w, x, y, z);
    Div65536(t, w * 4 + x / 16, x % 16 * 4096 + y * 64 + z);
    Div256(w * 4 + x / 16, 0, w * 4 + x / 16);
    Div256(t, w * 1024 + x * 16 + y / 4, y % 4 * 64 + z);
    Div256(w * 1024 + x * 16 + y / 4, w * 4 + x / 16, x % 16 * 16 + y / 4);
  }

  // ---------- Letters

  /** encoding_table */
  function Letter(v: Sextet): Byte {
    if v < 26 then 65 + v else if v < 52 then 97 + (v - 26) else if v < 62 then 48 + (v - 52) else if v == 62 then 43
      else 47
  }

  /** decoding_table; a byte that is not a letter has 0. */
  function Value(c: Byte): Sextet {
    if 65 <= c <= 90 then c - 65
    else if 97 <= c <= 122 then c - 97 + 26
    else if 48 <= c <= 57 then c - 48 + 52
    else if c == 43 then 62
    else if c == 47 then 63
    else 0
  }

  /** Table 1 of RFC 4648. */
  const ALPHABET := "ABCDEFGHIJKLMNOPQRSTUVWXYZ" + ("abcdefghijklmnopqrstuvwxyz" + "0123456789+/")

  lemma LetterIsAlphabet(v: Sextet)
    ensures |ALPHABET| == 64 && Letter(v) as char == ALPHABET[v]
  {
    if v < 26 {
      assert Letter(v) as char == "ABCDEFGHIJKLMNOPQRSTUVWXYZ"[v];
    } else if v < 52 {
      assert Letter(v) as char == "abcdefghijklmnopqrstuvwxyz"[v - 26];
    } else {
      assert Letter(v) as char == "0123456789+/"[v - 52];
    }
  }

  predicate IsLetter(c: Byte) { Value(c) != 0 || c == 65 }

  lemma LetterExactly(v: Sextet, c: Byte)
    ensures IsLetter(c) && Value(c) == v <==> c == Letter(v)
    ensures Letter(v) != PAD
  {}

  /** b64_init on a table of zeros. */
  method Init(table: array<Sextet>)
    requires table.Length == 256 && forall c :: 0 <= c < 256 ==> table[c] == 0
    modifies table
    ensures forall c: Byte :: table[c] == Value(c)
  {
    var i := 0;
    while i < 64
      invariant 0 <= i <= 64
      invariant forall c: Byte :: table[c] == if IsLetter(c) && Value(c) < i then Value(c) else 0
    {
      forall c: Byte ensures IsLetter(c) && Value(c) == i <==> c == Letter(i) { LetterExactly(i, c); }
      table[Letter(i)] := i;
      i := i + 1;
    }
  }

  // ---------- The reference

  function Letters(a: Byte, b: Byte, c: Byte): seq<Byte> {
    [Letter(a / 4), Letter(a % 4 * 16 + b / 16), Letter(b % 16 * 4 + c / 64), Letter(c % 64)]
  }

  /** Three bytes at a time, the last group padded. */
  function Encoded(s: seq<Byte>): seq<Byte> {
    if s == [] then []
    else if |s| == 1 then Letters(s[0], 0, 0)[..2] + [PAD, PAD]
    else if |s| == 2 then Letters(s[0], s[1], 0)[..3] + [PAD]
    else Letters(s[0], s[1], s[2]) + Encoded(s[3..])
  }

  /** Section 10 of RFC 4648: the texts of "f", "fo", "foo" and "foobar". */
  lemma Vectors()
    ensures Encoded([102]) == [90, 103, 61, 61] && Encoded([102, 111]) == [90, 109, 56, 61]
    ensures Encoded([102, 111, 111]) == [90, 109, 57, 118]
    ensures Encoded([102, 111, 111, 98, 97, 114]) == [90, 109, 57, 118, 89, 109, 70, 121]
  {
    assert [102, 111, 111, 98, 97, 114][3..] == [98, 97, 114];
  }

  function Bytes(w: Sextet, x: Sextet, y: Sextet, z: Sextet): seq<Byte> {
    [w * 4 + x / 16, x % 16 * 16 + y / 4, y % 4 * 64 + z]
  }

  function GroupBytes(w: Byte, x: Byte, y: Byte, z: Byte): seq<Byte> { Bytes(Value(w), Value(x), Value(y), Value(z)) }

  /** All groups of four letters, three bytes each. */
  function Ungrouped(s: seq<Byte>): seq<Byte>
    requires |s| % 4 == 0
  {
    if s == [] then [] else GroupBytes(s[0], s[1], s[2], s[3]) + Ungrouped(s[4..])
  }

  lemma {:induction false} UngroupedLength(s: seq<Byte>)
    requires |s| % 4 == 0
    ensures |Ungrouped(s)| == |s| / 4 * 3
    decreases |s|
  {
    if s != [] { UngroupedLength(s[4..]); }
  }

  function OutputLength(s: seq<Byte>): (n: nat)
    requires s != [] && |s| % 4 == 0
    ensures n <= |s| / 4 * 3
  {
    |s| / 4 * 3 - (if s[|s| - 1] == PAD then 1 else 0) - (if s[|s| - 2] == PAD then 1 else 0)
  }

  /** What decoding gives of a text whose length is a multiple of four. */
  function Decoded(s: seq<Byte>): (r: seq<Byte>)
    requires s != [] && |s| % 4 == 0
    ensures |r| == OutputLength(s)
  {
    UngroupedLength(s);
    Ungrouped(s)[..OutputLength(s)]
  }

  // ---------- The round trip

  lemma BytesBack(a: Byte, b: Byte, c: Byte)
    ensures Bytes(a / 4, a % 4 * 16 + b / 16, b % 16 * 4 + c / 64, c % 64) == [a, b, c]
  {
    var x, y := a % 4 * 16 + b / 16, b % 16 * 4 + c / 64;
    assert x / 16 == a % 4 && x % 16 == b / 16;
    assert y / 4 == b % 16 && y % 4 == c / 64;
  }

  lemma LetterValue(v: Sextet)
    ensures Value(Letter(v)) == v
  {
    LetterExactly(v, Letter(v));
  }

  lemma GroupBack(a: Byte, b: Byte, c: Byte)
    ensures var l := Letters(a, b, c); GroupBytes(l[0], l[1], l[2], l[3]) == [a, b, c]
  {
    LetterValue(a / 4);
    LetterValue(a % 4 * 16 + b / 16);
    LetterValue(b % 16 * 4 + c / 64);
    LetterValue(c % 64);
    BytesBack(a, b, c);
  }

  lemma NoPad(a: Byte, b: Byte, c: Byte, i: nat)
    requires i < 4
    ensures Letters(a, b, c)[i] != PAD
  {}

  lemma {:induction false} EncodedLength(s: seq<Byte>)
    ensures |Encoded(s)| == 4 * ((|s| + 2) / 3)
    decreases |s|
  {
    if |s| > 3 { EncodedLength(s[3..]); }
  }

  /** One text decodes to the bytes of another with the padding of the last group left off. */
  ghost predicate Reads(t: seq<Byte>, s: seq<Byte>) {
    t != [] && |t| % 4 == 0 && OutputLength(t) == |s| <= |Ungrouped(t)| && Ungrouped(t)[..|s|] == s
  }

  lemma UngroupedFour(w: Byte, x: Byte, y: Byte, z: Byte)
    ensures Ungrouped([w, x, y, z]) == GroupBytes(w, x, y, z)
  {
    assert [w, x, y, z][4..] == [];
    assert GroupBytes(w, x, y, z) + [] == GroupBytes(w, x, y, z);
  }

  lemma SameValues(w: Byte, x: Byte, y: Byte, z: Byte, y': Byte, z': Byte)
    requires Value(y) == Value(y') && Value(z) == Value(z')
    ensures GroupBytes(w, x, y, z) == GroupBytes(w, x, y', z')
  {}

  /** Padding stands for the letter of zero. */
  lemma PadIsZero()
    ensures Value(PAD) == Value(Letter(0)) == 0
  {}

  lemma FourReads(w: Byte, x: Byte, y: Byte, z: Byte, g: seq<Byte>, n: nat)
    requires GroupBytes(w, x, y, z) == g && |g| == 3 &&
             n == 3 - (if z == PAD then 1 else 0) - (if y == PAD then 1 else 0)
    ensures Reads([w, x, y, z], g[..n])
  {
    UngroupedFour(w, x, y, z);
  }

  lemma OneReads(a: Byte, l: seq<Byte>)
    requires l == Letters(a, 0, 0)
    ensures Reads(l[..2] + [PAD, PAD], [a])
  {
    GroupBack(a, 0, 0);
    PadIsZero();
    SameValues(l[0], l[1], l[2], l[3], PAD, PAD);
    FourReads(l[0], l[1], PAD, PAD, [a, 0, 0], 1);
    assert l[..2] + [PAD, PAD] == [l[0], l[1], PAD, PAD] && [a, 0, 0][..1] == [a];
  }

  lemma TwoReads(a: Byte, b: Byte, l: seq<Byte>)
    requires l == Letters(a, b, 0)
    ensures Reads(l[..3] + [PAD], [a, b])
  {
    GroupBack(a, b, 0);
    NoPad(a, b, 0, 2);
    PadIsZero();
    SameValues(l[0], l[1], l[2], l[3], l[2], PAD);
    FourReads(l[0], l[1], l[2], PAD, [a, b, 0], 2);
    assert l[..3] + [PAD] == [l[0], l[1], l[2], PAD] && [a, b, 0][..2] == [a, b];
  }

  lemma ThreeReads(a: Byte, b: Byte, c: Byte, l: seq<Byte>)
    requires l == Letters(a, b, c)
    ensures Reads(l, [a, b, c])
  {
    GroupBack(a, b, c);
    NoPad(a, b, c, 2);
    NoPad(a, b, c, 3);
    FourReads(l[0], l[1], l[2], l[3], [a, b, c], 3);
    assert l == [l[0], l[1], l[2], l[3]] && [a, b, c][..3] == [a, b, c];
  }

  lemma OutputLonger(l: seq<Byte>, t: seq<Byte>)
    requires |l| == 4 && t != [] && |t| % 4 == 0
    ensures |l + t| % 4 == 0 && OutputLength(l + t) == 3 + OutputLength(t)
  {
    var u := l + t;
    assert u[|u| - 1] == t[|t| - 1] && u[|u| - 2] == t[|t| - 2];
    assert |u| / 4 == 1 + |t| / 4;
  }

  lemma LongReads(l: seq<Byte>, t: seq<Byte>, g: seq<Byte>, s: seq<Byte>)
    requires |l| == 4 && |g| == 3 && GroupBytes(l[0], l[1], l[2], l[3]) == g && Reads(t, s)
    ensures Reads(l + t, g + s)
  {
    var u := l + t;
    OutputLonger(l, t);
    assert u[4..] == t && u != [] && u[0] == l[0] && u[1] == l[1] && u[2] == l[2] && u[3] == l[3];
    assert Ungrouped(u) == g + Ungrouped(t);
    assert (g + Ungrouped(t))[..3 + |s|] == g + Ungrouped(t)[..|s|];
  }

  lemma {:induction false} EncodedReads(s: seq<Byte>)
    requires s != []
    ensures Reads(Encoded(s), s)
    decreases |s|
  {
    if |s| == 1 {
      OneReads(s[0], Letters(s[0], 0, 0));
      assert s == [s[0]];
    } else if |s| == 2 {
      TwoReads(s[0], s[1], Letters(s[0], s[1], 0));
      assert s == [s[0], s[1]];
    } else if |s| == 3 {
      ThreeReads(s[0], s[1], s[2], Letters(s[0], s[1], s[2]));
      assert s == [s[0], s[1], s[2]] && s[3..] == [];
      assert Letters(s[0], s[1], s[2]) + [] == Letters(s[0], s[1], s[2]);
    } else {
      EncodedReads(s[3..]);
      GroupBack(s[0], s[1], s[2]);
      LongReads(Letters(s[0], s[1], s[2]), Encoded(s[3..]), [s[0], s[1], s[2]], s[3..]);
      assert [s[0], s[1], s[2]] + s[3..] == s;
    }
  }

  /** Decoding gives back what was encoded; the text is of characters that decoding takes. */
  lemma RoundTrip(s: seq<Byte>)
    requires s != []
    ensures Encoded(s) != [] && |Encoded(s)| % 4 == 0 && Decoded(Encoded(s)) == s
    ensures forall i :: 0 <= i < |Encoded(s)| ==> Encoded(s)[i] < 128
  {
    EncodedReads(s);
    EncodedAscii(s);
  }

  lemma {:induction false} EncodedAscii(s: seq<Byte>)
    ensures forall i :: 0 <= i < |Encoded(s)| ==> Encoded(s)[i] < 128
    decreases |s|
  {
    if |s| >= 3 { EncodedAscii(s[3..]); }
  }

  // ---------- b64_encode

  /** The groups before the padding is put over the last of them. */
  function Groups(s: seq<Byte>): seq<Byte>
    decreases |s|
  {
    if s == [] then []
    else
      Letters(s[0], if |s| > 1 then s[1] else 0, if |s| > 2 then s[2] else 0) + Groups(if |s| > 3 then s[3..] else [])
  }

  function PadCount(n: nat): (k: nat)
    ensures k <= 2
  {
    if n % 3 == 0 then 0 else 3 - n % 3
  }

  function Pads(k: nat): (r: seq<Byte>)
    ensures |r| == k
  {
    if k == 0 then [] else [PAD] + Pads(k - 1)
  }

  /** `t` with its last `k` letters padded over. */
  function Padded(t: seq<Byte>, k: nat): (r: seq<Byte>)
    requires k <= |t|
    ensures |r| == |t|
  {
    t[..|t| - k] + Pads(k)
  }

  lemma PaddedBehind(l: seq<Byte>, t: seq<Byte>, k: nat)
    requires k <= |t|
    ensures l + Padded(t, k) == Padded(l + t, k)
  {}

  lemma Thirds(n: nat)
    requires n > 3
    ensures PadCount(n) == PadCount(n - 3) && 4 * ((n + 2) / 3) == 4 + 4 * ((n - 3 + 2) / 3)
  {}

  lemma ShortPadded(s: seq<Byte>)
    requires 0 < |s| <= 3
    ensures |Groups(s)| == 4 && Encoded(s) == Padded(Groups(s), PadCount(|s|))
  {
    var l := Letters(s[0], if |s| > 1 then s[1] else 0, if |s| > 2 then s[2] else 0);
    assert Groups(s) == l + [] == l;
    assert Pads(1) == [PAD] && Pads(2) == [PAD, PAD];
    assert |s| == 3 ==> s[3..] == [] && Encoded(s) == l + [];
  }

  lemma {:induction false} GroupsPadded(s: seq<Byte>)
    ensures |Groups(s)| == 4 * ((|s| + 2) / 3) && PadCount(|s|) <= |Groups(s)| &&
            Encoded(s) == Padded(Groups(s), PadCount(|s|))
    decreases |s|
  {
    if |s| > 3 {
      Thirds(|s|);
      GroupsPadded(s[3..]);
      PaddedBehind(Letters(s[0], s[1], s[2]), Groups(s[3..]), PadCount(|s|));
    } else if s != [] {
      ShortPadded(s);
    }
  }

  lemma GroupsAt(s: seq<Byte>, i: nat, i': nat)
    requires i < |s| && i' == if i + 3 < |s| then i + 3 else |s|
    ensures Groups(s[i..]) == Letters(s[i], if i + 1 < |s| then s[i + 1] else 0, if i + 2 < |s| then s[i + 2] else 0) +
            Groups(s[i'..])
  {
    if i + 3 < |s| { assert s[i..][3..] == s[i + 3..]; } else { assert s[i'..] == []; }
  }

  /** Three bytes to four letters, by the shifts of the source. */
  method Group(a: Byte, b: Byte, c: Byte) returns (l: seq<Byte>)
    ensures l == Letters(a, b, c)
  {
    var triple := Triple(a, b, c);
    LettersOf(a, b, c, triple);
    l := [Letter(Bits(triple, 18)), Letter(Bits(triple, 12)), Letter(Bits(triple, 6)), Letter(Bits(triple, 0))];
  }

  lemma LettersOf(a: Byte, b: Byte, c: Byte, t: nat)
    requires t == Triple(a, b, c)
    ensures Letters(a, b, c) == [Letter(Bits(t, 18)), Letter(Bits(t, 12)), Letter(Bits(t, 6)), Letter(Bits(t, 0))]
  {
    SextetsOf(a, b, c);
    LetterSeq(Bits(t, 18), Bits(t, 12), Bits(t, 6), Bits(t, 0), a / 4, a % 4 * 16 + b / 16, b % 16 * 4 + c / 64,
      c % 64);
  }

  lemma LetterSeq(w: Sextet, x: Sextet, y: Sextet, z: Sextet, w': Sextet, x': Sextet, y': Sextet, z': Sextet)
    requires w == w' && x == x' && y == y' && z == z'
    ensures [Letter(w), Letter(x), Letter(y), Letter(z)] == [Letter(w'), Letter(x'), Letter(y'), Letter(z')]
  {}

  lemma Regroup(d: seq<Byte>, l: seq<Byte>, r: seq<Byte>)
    ensures d + (l + r) == (d + l) + r
  {}

  /** The letters of the group that begins at `i`. */
  method WriteGroup(data: seq<Byte>, i: nat, buf: array<Byte>, j: nat, ghost b0: seq<Byte>, ghost done: seq<Byte>)
    returns (i': nat, j': nat, ghost l: seq<Byte>)
    requires i < |data| && j == |done| && |done| + |Groups(data[i..])| <= buf.Length == |b0|
    requires buf[..] == Written(b0, 0, done)
    modifies buf
    ensures i < i' <= |data| && Groups(data[i..]) == l + Groups(data[i'..])
    ensures j' == j + |l| && buf[..] == Written(b0, 0, done + l)
  {
    i' := if i + 3 < |data| then i + 3 else |data|;
    GroupsAt(data, i, i');
    var g := Group(data[i], if i + 1 < |data| then data[i + 1] else 0, if i + 2 < |data| then data[i + 2] else 0);
    l := g;
    WrittenTwice(b0, 0, done, g);
    j' := Copy(buf, j, g);
  }

  /** The first loop of b64_encode. */
  method WriteGroups(data: seq<Byte>, buf: array<Byte>)
    requires buf.Length >= |Groups(data)|
    modifies buf
    ensures buf[..] == Written(old(buf[..]), 0, Groups(data))
  {
    var i, j := 0, 0;
    ghost var b0, done: seq<Byte>, rest := buf[..], [], Groups(data);
    assert data[0..] == data && [] + rest == rest;
    while i < |data|
      invariant i <= |data| && rest == Groups(data[i..]) && done + rest == Groups(data)
      invariant j == |done| && buf[..] == Written(b0, 0, done)
    {
      ghost var l;
      i, j, l := WriteGroup(data, i, buf, j, b0, done);
      rest := Groups(data[i..]);
      Regroup(done, l, rest);
      done := done + l;
    }
    assert data[i..] == [] && done + [] == done;
  }

  /** Writing one place of what was written from the start of the buffer. */
  lemma Overwritten(b: seq<Byte>, u: seq<Byte>, at: nat, x: Byte)
    requires at < |u| <= |b|
    ensures Written(Written(b, 0, u), at, [x]) == Written(b, 0, u[at := x])
  {
    var w := Written(b, 0, u);
    assert w == u + b[|u|..];
    assert w[..at] == u[..at] && w[at + 1..] == u[at + 1..] + b[|u|..];
    assert u[at := x] == u[..at] + [x] + u[at + 1..];
  }

  lemma PadMore(t: seq<Byte>, i: nat)
    requires i < |t|
    ensures Padded(t, i)[|t| - 1 - i := PAD] == Padded(t, i + 1)
  {}

  lemma PadOne(b: seq<Byte>, t: seq<Byte>, i: nat)
    requires i < |t| <= |b|
    ensures Written(Written(b, 0, Padded(t, i)), |t| - 1 - i, [PAD]) == Written(b, 0, Padded(t, i + 1))
  {
    Overwritten(b, Padded(t, i), |t| - 1 - i, PAD);
    PadMore(t, i);
  }

  /** One letter is padded over. */
  method PadLetter(buf: array<Byte>, at: nat, ghost i: nat, ghost g: seq<Byte>, ghost b0: seq<Byte>)
    requires i < |g| <= buf.Length == |b0| && at == |g| - 1 - i && buf[..] == Written(b0, 0, Padded(g, i))
    modifies buf
    ensures buf[..] == Written(b0, 0, Padded(g, i + 1))
  {
    PadOne(b0, g, i);
    var end := Copy(buf, at, [PAD]);
  }

  /** The second loop of b64_encode: the last `n` of the letters `g` are padded over. */
  method PadOver(buf: array<Byte>, out: nat, n: nat, ghost g: seq<Byte>, ghost b0: seq<Byte>)
    requires n <= out == |g| <= buf.Length == |b0| && buf[..] == Written(b0, 0, g)
    modifies buf
    ensures buf[..] == Written(b0, 0, Padded(g, n))
  {
    assert Padded(g, 0) == g;
    var i := 0;
    while i < n
      invariant i <= n && buf[..] == Written(b0, 0, Padded(g, i))
    {
      PadLetter(buf, out - 1 - i, i, g, b0);
      i := i + 1;
    }
  }

  /** b64_encode, into a buffer with room for the text and its end; the length of the text fits in 32 bits. */
  method Encode(data: seq<Byte>, buf: array<Byte>)
    requires 4 * ((|data| + 2) / 3) <= 0xffff_ffff && 4 * ((|data| + 2) / 3) < buf.Length
    modifies buf
    ensures |Encoded(data)| < buf.Length && buf[..] == Written(old(buf[..]), 0, Encoded(data) + [0])
  {
    ghost var b0 := buf[..];
    var out := 4 * ((|data| + 2) / 3);
    GroupsPadded(data);
    EncodedLength(data);
    WriteGroups(data, buf);
    PadOver(buf, out, PadCount(|data|), Groups(data), b0);
    WrittenTwice(b0, 0, Encoded(data), [0]);
    var end := Copy(buf, out, [0]);
  }

  // ---------- b64_decode

  /** Four sextets to three bytes, by the shifts of the source. */
  method Split(w: Sextet, x: Sextet, y: Sextet, z: Sextet) returns (g: seq<Byte>)
    ensures g == Bytes(w, x, y, z)
  {
    var triple := Sum(w, x, y, z);
    BytesOf(w, x, y, z);
    var b0, b1, b2 := Octet(triple, 16), Octet(triple, 8), Octet(triple, 0);
    g := [b0, b1, b2];
  }

  method Lookup(table: array<Sextet>, c: Byte) returns (v: Sextet)
    requires table.Length == 256 && forall c: Byte :: table[c] == Value(c)
    ensures v == Value(c)
  {
    v := if c == PAD then 0 else table[c];
  }

  method Ungroup(table: array<Sextet>, s: seq<Byte>) returns (g: seq<Byte>)
    requires |s| == 4 && table.Length == 256 && forall c: Byte :: table[c] == Value(c)
    ensures g == GroupBytes(s[0], s[1], s[2], s[3])
  {
    var w := Lookup(table, s[0]);
    var x := Lookup(table, s[1]);
    var y := Lookup(table, s[2]);
    var z := Lookup(table, s[3]);
    g := Split(w, x, y, z);
  }

  /** Where the bytes of group `k` are. */
  lemma Shifted(g: seq<Byte>, u: seq<Byte>, k: nat)
    requires |g| == 3 && 0 < k && 3 * k <= |u|
    ensures (g + u)[3 * k..3 * k + 3] == u[3 * (k - 1)..3 * k]
  {}

  /** Group `k` of the bytes is made from group `k` of the letters. */
  ghost predicate GroupAt(s: seq<Byte>, u: seq<Byte>, k: nat)
    requires 4 * k + 4 <= |s| && 3 * k + 3 <= |u|
  {
    u[3 * k..3 * k + 3] == GroupBytes(s[4 * k], s[4 * k + 1], s[4 * k + 2], s[4 * k + 3])
  }

  lemma GroupShifted(s: seq<Byte>, g: seq<Byte>, u: seq<Byte>, k: nat)
    requires 0 < k && 4 * k + 4 <= |s| && |g| == 3 && 3 * k <= |u| && GroupAt(s[4..], u, k - 1)
    ensures GroupAt(s, g + u, k)
  {
    Shifted(g, u, k);
    var r := s[4..];
    assert r[4 * k - 4] == s[4 * k] && r[4 * k - 3] == s[4 * k + 1] && r[4 * k - 2] == s[4 * k + 2];
    assert r[4 * k - 1] == s[4 * k + 3];
  }

  lemma UngroupedSplit(s: seq<Byte>, n: nat) returns (g: seq<Byte>)
    requires |s| == 4 * n && 0 < n
    ensures |s| % 4 == 0 && |s[4..]| % 4 == 0 && |g| == 3 && Ungrouped(s) == g + Ungrouped(s[4..])
  {
    g := GroupBytes(s[0], s[1], s[2], s[3]);
  }

  lemma UngroupedHead(s: seq<Byte>)
    requires |s| % 4 == 0 && s != []
    ensures 3 <= |Ungrouped(s)| && GroupAt(s, Ungrouped(s), 0)
  {
    var g := GroupBytes(s[0], s[1], s[2], s[3]);
    assert (g + Ungrouped(s[4..]))[0..3] == g;
  }

  lemma {:induction false} UngroupedAt(s: seq<Byte>, n: nat, k: nat)
    requires |s| == 4 * n && k < n && |s| % 4 == 0
    ensures |Ungrouped(s)| >= 3 * k + 3 && GroupAt(s, Ungrouped(s), k)
    decreases k
  {
    if k == 0 {
      UngroupedHead(s);
    } else {
      var g := UngroupedSplit(s, n);
      UngroupedAt(s[4..], n - 1, k - 1);
      GroupShifted(s, g, Ungrouped(s[4..]), k);
    }
  }

  function Least(a: nat, b: nat): nat { if a < b then a else b }

  lemma Longer(u: seq<Byte>, g: seq<Byte>, k: nat, len: nat)
    requires k + 3 <= |u| && len <= |u| && g == u[k..k + 3]
    ensures var j := Least(k, len);
      var n := Least(3, len - j);
      j + n == Least(k + 3, len) && u[..j] + g[..n] == u[..j + n]
  {}

  /** One group, as far as there is room for it before `len`. */
  method DecodeGroup(s: seq<Byte>, table: array<Sextet>, buf: array<Byte>, j: nat, len: nat, ghost k: nat,
                     ghost u: seq<Byte>, ghost b0: seq<Byte>)
    returns (j': nat)
    requires table.Length == 256 && (forall c: Byte :: table[c] == Value(c)) && |s| == 4 &&
             len <= buf.Length == |b0| && len <= |u|
    requires 3 * k + 3 <= |u| && u[3 * k..3 * k + 3] == GroupBytes(s[0], s[1], s[2], s[3])
    requires j == Least(3 * k, len) && buf[..] == Written(b0, 0, u[..j])
    modifies buf
    ensures j' == Least(3 * k + 3, len) && buf[..] == Written(b0, 0, u[..j'])
  {
    var g := Ungroup(table, s);
    Longer(u, g, 3 * k, len);
    var n := Least(3, len - j);
    WrittenTwice(b0, 0, u[..j], g[..n]);
    j' := Copy(buf, j, g[..n]);
  }

  /** The loop of b64_decode. */
  method DecodeGroups(s: seq<Byte>, table: array<Sextet>, buf: array<Byte>, len: nat)
    requires table.Length == 256 && (forall c: Byte :: table[c] == Value(c)) && len <= buf.Length
    requires s != [] && |s| % 4 == 0 && len == OutputLength(s)
    modifies buf
    ensures buf[..] == Written(old(buf[..]), 0, Decoded(s))
  {
    ghost var u, k, b0 := Ungrouped(s), 0, buf[..];
    UngroupedLength(s);
    var i, j := 0, 0;
    while i < |s|
      invariant i == 4 * k <= |s| && j == Least(3 * k, len) && buf[..] == Written(b0, 0, u[..j])
    {
      UngroupedAt(s, |s| / 4, k);
      j := DecodeGroup(s[i..i + 4], table, buf, j, len, k, u, b0);
      i, k := i + 4, k + 1;
    }
  }

  /** b64_decode, on bytes that are not negative as a char and a length of 32 bits: refuses a length that is not a
      positive multiple of four, or a buffer that is too small. */
  method Decode(s: seq<Byte>, table: array<Sextet>, buf: array<Byte>, max: nat) returns (rc: int, len: nat)
    requires table.Length == 256 && (forall c: Byte :: table[c] == Value(c)) && max <= buf.Length
    requires |s| <= 0xffff_ffff && forall i :: 0 <= i < |s| ==> s[i] < 128
    modifies buf
    ensures rc == 0 <==> s != [] && |s| % 4 == 0 && OutputLength(s) <= max
    ensures rc == 0 ==> len == OutputLength(s) && buf[..] == Written(old(buf[..]), 0, Decoded(s))
    ensures rc != 0 ==> buf[..] == old(buf[..])
  {
    if |s| == 0 || |s| % 4 != 0 {
      return 1, 0;
    }
    len := |s| / 4 * 3;
    if s[|s| - 1] == PAD {
      len := len - 1;
    }
    if s[|s| - 2] == PAD {
      len := len - 1;
    }
    if max < len {
      return 1, 0;
    }
    DecodeGroups(s, table, buf, len);
    rc := 0;
  }
}
