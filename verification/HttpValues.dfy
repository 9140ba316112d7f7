/** The lists in the values of Connection and Transfer-Encoding (section 7 of RFC 7230): which of their elements the
    parser takes for a word it knows. */
module HttpValues {
  import opened ByteStream
  import opened HttpMessage
  import opened HttpHeaders

  // ---------- Words

  /** The same letters, in whatever case. */
  predicate SameWord(s: seq<Byte>, w: string) {
    |s| == |w| && forall i :: 0 <= i < |s| ==> SameLetter(s[i], w[i])
  }

  predicate SameLetter(b: Byte, c: char) { b as char == c || ('A' <= b as char <= 'Z' && (b + 32) as char == c) }

  predicate Spaces(s: seq<Byte>) { forall i :: 0 <= i < |s| ==> s[i] == 32 }

  /** An element without the spaces before it. */
  function Core(e: seq<Byte>): (t: seq<Byte>)
    ensures t != [] ==> t[0] != 32
  {
    if e != [] && e[0] == 32 then Core(e[1..]) else e
  }

  /** The word, and spaces after it. */
  predicate WordFirst(t: seq<Byte>, w: string) { |w| <= |t| && SameWord(t[..|w|], w) && Spaces(t[|w|..]) }

  /** The element is the word, with spaces around it at will. */
  predicate Is(e: seq<Byte>, w: string) { WordFirst(Core(e), w) }

  /** The beginning of the word and nothing else. */
  predicate Begins(t: seq<Byte>, w: string) { 0 < |t| < |w| && SameWord(t, w[..|t|]) }

  // ---------- Lists

  /** What stands between the commas. */
  function Elements(v: seq<Byte>): (es: seq<seq<Byte>>)
    ensures es != []
  {
    if v == [] then [[]] else
    var es, b := Elements(v[..|v| - 1]), v[|v| - 1];
    if b == 44 then es + [[]] else es[..|es| - 1] + [es[|es| - 1] + [b]]
  }

  function Joined(es: seq<seq<Byte>>): seq<Byte>
    requires es != []
  {
    if |es| == 1 then es[0] else Joined(es[..|es| - 1]) + [44] + es[|es| - 1]
  }

  /** Commas part the elements, and there are none in them. */
  lemma {:induction false} ElementsJoin(v: seq<Byte>)
    ensures Joined(Elements(v)) == v && forall i :: 0 <= i < |Elements(v)| ==> 44 !in Elements(v)[i]
  {
    if v != [] {
      var front, b := v[..|v| - 1], v[|v| - 1];
      ElementsJoin(front);
      var es, fs := Elements(front), Elements(v);
      if b == 44 {
        assert fs[..|fs| - 1] == es;
      } else {
        assert fs[..|fs| - 1] == es[..|es| - 1] && fs[|fs| - 1] == es[|es| - 1] + [b];
        if |es| > 1 {
          assert Joined(fs) == Joined(es[..|es| - 1]) + [44] + (es[|es| - 1] + [b]);
        }
      }
      assert v == front + [b];
    }
  }

  /** What becomes of an element: it is read, or it is skipped with the comma before it, or the rest of the list is
      passed over. */
  datatype Fate = Read | Skipped | Lost

  /** An element that begins as elements do, with a letter of a token. */
  predicate Opens(e: seq<Byte>) { Core(e) != [] && IsToken(Lower(Core(e)[0])) }

  /** The comma after an element that swallows it does not count; nor does one at the very beginning. */
  function FateOf(swallows: seq<Byte> -> bool, es: seq<seq<Byte>>, i: nat): Fate
    requires i < |es|
  {
    if i == 0 then Read else
    match FateOf(swallows, es, i - 1)
    case Lost => Lost
    case Skipped => Read
    case Read =>
      if swallows(es[i - 1]) || (i == 1 && es[0] == []) then Skipped
      else if i == 1 || Opens(es[i - 1]) then Read
      else Lost
  }

  /** One of the first `k` elements is read and is the word. */
  ghost predicate HasBefore(swallows: seq<Byte> -> bool, es: seq<seq<Byte>>, k: nat, w: string)
    requires k <= |es|
  {
    exists i :: 0 <= i < k && Taken(swallows, es, i, w)
  }

  predicate Taken(swallows: seq<Byte> -> bool, es: seq<seq<Byte>>, i: nat, w: string)
    requires i < |es|
  {
    FateOf(swallows, es, i) == Read && Is(es[i], w)
  }

  ghost predicate Has(swallows: seq<Byte> -> bool, es: seq<seq<Byte>>, w: string) {
    HasBefore(swallows, es, |es|, w)
  }

  /** The fate of an element lies in those before it. */
  lemma {:induction false} SameFate(swallows: seq<Byte> -> bool, es: seq<seq<Byte>>, fs: seq<seq<Byte>>, i: nat)
    requires i < |es| && i < |fs| && es[..i] == fs[..i]
    ensures FateOf(swallows, es, i) == FateOf(swallows, fs, i)
    decreases i
  {
    if i > 0 {
      assert es[..i - 1] == es[..i][..i - 1] == fs[..i - 1] && es[i - 1] == es[..i][i - 1] == fs[i - 1];
      SameFate(swallows, es, fs, i - 1);
    }
  }

  lemma SameHas(swallows: seq<Byte> -> bool, es: seq<seq<Byte>>, fs: seq<seq<Byte>>, k: nat, w: string)
    requires k <= |es| && k <= |fs| && es[..k] == fs[..k]
    ensures HasBefore(swallows, es, k, w) <==> HasBefore(swallows, fs, k, w)
  {
    forall i | 0 <= i < k ensures Taken(swallows, es, i, w) <==> Taken(swallows, fs, i, w) {
      assert es[..i] == es[..k][..i] == fs[..i] && es[i] == es[..k][i] == fs[i];
      SameFate(swallows, es, fs, i);
    }
  }

  lemma HasMore(swallows: seq<Byte> -> bool, es: seq<seq<Byte>>, k: nat, w: string)
    requires k < |es|
    ensures HasBefore(swallows, es, k + 1, w) <==> HasBefore(swallows, es, k, w) || Taken(swallows, es, k, w)
  {}

  lemma HasAll(swallows: seq<Byte> -> bool, es: seq<seq<Byte>>, w: string)
    requires es != []
    ensures var n := |es| - 1; Has(swallows, es, w) <==> HasBefore(swallows, es, n, w) || Taken(swallows, es, n, w)
  {
    HasMore(swallows, es, |es| - 1, w);
  }

  function NextFate(e: seq<Byte>, i: nat, fate: Fate, swallowed: bool): Fate {
    match fate
    case Lost => Lost
    case Skipped => Read
    case Read => if swallowed || (i == 0 && e == []) then Skipped else if i == 0 || Opens(e) then Read else Lost
  }

  lemma FateAfterComma(swallows: seq<Byte> -> bool, es: seq<seq<Byte>>, fs: seq<seq<Byte>>)
    requires es != [] && fs == es + [[]]
    ensures var n := |es| - 1;
      FateOf(swallows, fs, n + 1) == NextFate(es[n], n, FateOf(swallows, es, n), swallows(es[n]))
  {
    var n := |es| - 1;
    assert es[..n] == fs[..n] && fs[n] == es[n];
    SameFate(swallows, es, fs, n);
  }

  lemma HasAfterComma(swallows: seq<Byte> -> bool, es: seq<seq<Byte>>, fs: seq<seq<Byte>>, w: string)
    requires es != [] && fs == es + [[]]
    ensures var n := |es| - 1;
      HasBefore(swallows, fs, n + 1, w) <==> HasBefore(swallows, es, n, w) || Taken(swallows, es, n, w)
  {
    var n := |es| - 1;
    assert es[..n] == fs[..n] && fs[n] == es[n];
    SameFate(swallows, es, fs, n);
    SameHas(swallows, es, fs, n, w);
    HasMore(swallows, fs, n, w);
  }

  // ---------- Letters and words, one byte more

  predicate Plain(c: char) { 'a' <= c <= 'z' || c == '-' }

  predicate PlainWord(w: string) { |w| > 1 && forall i :: 0 <= i < |w| ==> Plain(w[i]) }

  /** A byte of a value. */
  predicate ValueChar(b: Byte) { b == 9 || (b > 31 && b != 127) }

  /** LOWER tells letters apart as it should, but for a byte that no value has. */
  lemma LowerLetter(b: Byte, c: char)
    requires Plain(c) && b != 13
    ensures Lower(b) as char == c <==> SameLetter(b, c)
  {}

  lemma {:induction false} CoreMore(e: seq<Byte>, b: Byte)
    ensures Core(e + [b]) == if Core(e) == [] then (if b == 32 then [] else [b]) else Core(e) + [b]
    decreases |e|
  {
    if e == [] {
      assert e + [b] == [b] && [b][1..] == [];
    } else if e[0] == 32 {
      assert (e + [b])[1..] == e[1..] + [b];
      CoreMore(e[1..], b);
    }
  }

  lemma BeginsMore(t: seq<Byte>, w: string, b: Byte)
    requires t != [] && PlainWord(w)
    ensures Begins(t + [b], w) <==> Begins(t, w) && |t| + 1 < |w| && SameLetter(b, w[|t|])
  {
    var u := t + [b];
    if |u| < |w| {
      assert w[..|u|] == w[..|t|] + [w[|t|]];
      if SameWord(u, w[..|u|]) {
        forall i | 0 <= i < |t| ensures SameLetter(t[i], w[..|t|][i]) { assert SameLetter(u[i], w[..|u|][i]); }
        assert SameLetter(u[|t|], w[..|u|][|t|]);
      }
    }
  }

  lemma WordMore(t: seq<Byte>, w: string, b: Byte)
    requires t != [] && PlainWord(w)
    ensures WordFirst(t + [b], w) <==>
      (Begins(t, w) && |t| + 1 == |w| && SameLetter(b, w[|t|])) || (WordFirst(t, w) && b == 32)
  {
    var u := t + [b];
    if |t| + 1 == |w| {
      assert u[..|w|] == u && u[|w|..] == [] && w[..|t|] + [w[|t|]] == w;
      if SameWord(u, w) {
        forall i | 0 <= i < |t| ensures SameLetter(t[i], w[..|t|][i]) { assert SameLetter(u[i], w[i]); }
        assert SameLetter(u[|t|], w[|t|]);
      }
    } else if |t| >= |w| {
      assert u[..|w|] == t[..|w|] && u[|w|..] == t[|w|..] + [b];
      if Spaces(u[|w|..]) {
        forall i | 0 <= i < |t[|w|..]| ensures t[|w|..][i] == 32 { assert u[|w|..][i] == t[|w|..][i]; }
        assert u[|w|..][|t| - |w|] == b;
      }
    }
  }

  lemma FirstOfWord(b: Byte, w: string)
    requires PlainWord(w)
    ensures (Begins([b], w) <==> SameLetter(b, w[0])) && !WordFirst([b], w)
  {
    assert w[..1] == [w[0]];
    if SameWord([b], w[..1]) { assert SameLetter([b][0], w[..1][0]); }
  }

  /** What begins like a word begins with its letter. */
  lemma WordLetter(t: seq<Byte>, w: string)
    requires PlainWord(w) && (Begins(t, w) || WordFirst(t, w))
    ensures t != [] && SameLetter(t[0], w[0])
  {
    if Begins(t, w) {
      assert SameLetter(t[0], w[..|t|][0]);
    } else {
      assert SameLetter(t[..|w|][0], w[0]);
    }
  }

  // ---------- Options of the connection

  function OptionWord(o: Option): (w: string)
    ensures PlainWord(w) && w[0] == OptionSpelling(o)[0] && w == OptionSpelling(o)
  {
    match o
    case KeepAlive => "keep-alive"
    case Close => "close"
    case Upgraded => "upgrade"
  }

  /** The parser is in the middle of a word that it knows when the comma comes. */
  predicate BrokenOption(e: seq<Byte>) {
    Begins(Core(e), "keep-alive") || Begins(Core(e), "close") || Begins(Core(e), "upgrade")
  }

  lemma Broken(e: seq<Byte>)
    ensures BrokenOption(e) <==> exists o :: Begins(Core(e), OptionWord(o))
  {
    if BrokenOption(e) {
      assert Begins(Core(e), OptionWord(KeepAlive)) || Begins(Core(e), OptionWord(Close)) ||
             Begins(Core(e), OptionWord(Upgraded));
    }
  }

  ghost predicate NoOption(t: seq<Byte>) {
    forall o :: !Begins(t, OptionWord(o)) && !WordFirst(t, OptionWord(o))
  }

  /** The state in an element of which `t` is there. */
  ghost predicate OptionState(h: Header, t: seq<Byte>) {
    match h.st
    case MatchingOption(o) => Begins(t, OptionWord(o)) && h.index == |t| - 1
    case Found(o) => WordFirst(t, OptionWord(o))
    case OptionToken => NoOption(t)
    case _ => false
  }

  /** The state in element `i`, of which `e` is there. */
  ghost predicate OptionAt(h: Header, e: seq<Byte>, i: nat, fate: Fate) {
    match fate
    case Lost => h.st == General
    case Skipped => h.st == OptionToken
    case Read =>
      if Core(e) == [] then i > 0 && h.st == OptionStart && h.index == 0
      else if i > 0 && !Opens(e) then h.st == General
      else OptionState(h, Core(e))
  }

  lemma OneWord(t: seq<Byte>, o: Option, o': Option)
    requires Begins(t, OptionWord(o)) || WordFirst(t, OptionWord(o))
    requires Begins(t, OptionWord(o')) || WordFirst(t, OptionWord(o'))
    ensures o == o'
  {
    WordLetter(t, OptionWord(o));
    WordLetter(t, OptionWord(o'));
  }

  lemma OptionStarts(b: Byte)
    requires b != 13
    ensures forall o :: OptionFirst(Lower(b) as char) == MatchingOption(o) <==> SameLetter(b, OptionWord(o)[0])
    ensures OptionFirst(Lower(b) as char).MatchingOption? || OptionFirst(Lower(b) as char) == OptionToken
    ensures OptionFirst(Lower(b) as char).MatchingOption? ==> IsToken(Lower(b))
  {
    forall o ensures OptionFirst(Lower(b) as char) == MatchingOption(o) <==> SameLetter(b, OptionWord(o)[0]) {
      LowerLetter(b, OptionWord(o)[0]);
    }
  }

  /** The first letter of an element. */
  lemma OptionBegins(h: Header, b: Byte)
    requires b != 13 && h.st == OptionFirst(Lower(b) as char) && h.index == 0
    ensures OptionState(h, [b])
  {
    OptionStarts(b);
    forall o ensures (Begins([b], OptionWord(o)) <==> h.st == MatchingOption(o)) && !WordFirst([b], OptionWord(o)) {
      FirstOfWord(b, OptionWord(o));
    }
  }

  lemma OptionGoesOn(h: Header, t: seq<Byte>, b: Byte)
    requires t != [] && b != 13 && b != 44 && OptionState(h, t)
    ensures OptionState(OptionByte(h, b), t + [b])
    ensures OptionByte(h, b).f == h.f && OptionByte(h, b).code == h.code
  {
    var u := t + [b];
    forall o
      ensures Begins(u, OptionWord(o)) <==>
              Begins(t, OptionWord(o)) && |t| + 1 < |OptionWord(o)| && SameLetter(b, OptionWord(o)[|t|])
      ensures WordFirst(u, OptionWord(o)) <==> (
        || (Begins(t, OptionWord(o)) && |t| + 1 == |OptionWord(o)| && SameLetter(b, OptionWord(o)[|t|]))
        || (WordFirst(t, OptionWord(o)) && b == 32))
    {
      BeginsMore(t, OptionWord(o), b);
      WordMore(t, OptionWord(o), b);
    }
    match h.st
    case MatchingOption(o) =>
      LowerLetter(b, OptionWord(o)[|t|]);
      forall o' | o' != o ensures !Begins(t, OptionWord(o')) && !WordFirst(t, OptionWord(o')) {
        if Begins(t, OptionWord(o')) || WordFirst(t, OptionWord(o')) { OneWord(t, o, o'); }
      }
    case Found(o) =>
      forall o' | o' != o ensures !Begins(t, OptionWord(o')) && !WordFirst(t, OptionWord(o')) {
        if Begins(t, OptionWord(o')) || WordFirst(t, OptionWord(o')) { OneWord(t, o, o'); }
      }
    case _ =>
  }

  /** A byte that is no comma. */
  lemma OptionNext(h: Header, e: seq<Byte>, i: nat, fate: Fate, b: Byte)
    requires OptionAt(h, e, i, fate) && ValueChar(b) && b != 44
    ensures OptionAt(ValueByte(h, b), e + [b], i, fate) && ValueByte(h, b).f == h.f && ValueByte(h, b).code == h.code
  {
    if fate == Read {
      CoreMore(e, b);
      var t := Core(e);
      if t == [] {
        OptionStarts(b);
        if b != 32 { OptionBegins(h.(st := OptionFirst(Lower(b) as char)), b); }
      } else if i == 0 || Opens(e) {
        OptionGoesOn(h, t, b);
      }
    }
  }

  /** The word that an element stands for is noted at its end. */
  function Noting(h: Header, e: seq<Byte>, fate: Fate): Flags {
    h.f.(keepAlive := h.f.keepAlive || (fate == Read && Is(e, "keep-alive")),
         close := h.f.close || (fate == Read && Is(e, "close")),
         connectionUpgrade := h.f.connectionUpgrade || (fate == Read && Is(e, "upgrade")))
  }

  lemma NotingIs(h: Header, e: seq<Byte>, i: nat, fate: Fate)
    requires OptionAt(h, e, i, fate)
    ensures Noting(h, e, fate) == if h.st.Found? then SetOption(h, h.st.o).f else h.f
  {
    assert OptionWord(KeepAlive) == "keep-alive" && OptionWord(Close) == "close" && OptionWord(Upgraded) == "upgrade";
    var t := Core(e);
    forall o ensures fate == Read && Is(e, OptionWord(o)) ==> h.st == Found(o) {
      if fate == Read && Is(e, OptionWord(o)) {
        WordLetter(t, OptionWord(o));
        LowerLetter(t[0], OptionWord(o)[0]);
        if h.st.MatchingOption? { OneWord(t, o, h.st.o); }
        if h.st.Found? { OneWord(t, o, h.st.o); }
      }
    }
    if h.st.Found? { assert Is(e, OptionWord(h.st.o)); }
  }

  /** A comma. */
  lemma OptionComma(h: Header, e: seq<Byte>, i: nat, fate: Fate)
    requires OptionAt(h, e, i, fate)
    ensures OptionAt(ValueByte(h, 44), [], i + 1, NextFate(e, i, fate, BrokenOption(e)))
    ensures ValueByte(h, 44).f == Noting(h, e, fate) && ValueByte(h, 44).code == h.code
  {
    NotingIs(h, e, i, fate);
    Broken(e);
    var t := Core(e);
    if fate == Read {
      forall o ensures Begins(t, OptionWord(o)) ==> h.st == MatchingOption(o) {
        if Begins(t, OptionWord(o)) {
          WordLetter(t, OptionWord(o));
          LowerLetter(t[0], OptionWord(o)[0]);
          if h.st.MatchingOption? { OneWord(t, o, h.st.o); }
          if h.st.Found? { OneWord(t, o, h.st.o); }
        }
      }
      if h.st.MatchingOption? { assert Plain(OptionWord(h.st.o)[|t|]); }
    }
  }

  /** What the value read so far has come to: the words of the elements before the last are noted. */
  ghost predicate OptionsAt(h: Header, f: Flags, es: seq<seq<Byte>>)
    requires es != []
  {
    var n := |es| - 1;
    && OptionAt(h, es[n], n, FateOf(BrokenOption, es, n)) && h.code == 0
    && h.f == f.(keepAlive := f.keepAlive || HasBefore(BrokenOption, es, n, "keep-alive"),
                 close := f.close || HasBefore(BrokenOption, es, n, "close"),
                 connectionUpgrade := f.connectionUpgrade || HasBefore(BrokenOption, es, n, "upgrade"))
  }

  predicate Values(v: seq<Byte>) { forall i :: 0 <= i < |v| ==> ValueChar(v[i]) }

  lemma ElementsOne(b: Byte)
    ensures Elements([b]) == if b == 44 then [[], []] else [[b]]
  {
    assert [b][..0] == [] && Elements([]) == [[]] && [] + [b] == [b];
  }

  lemma OptionsFirst(h: Header, b: Byte)
    requires h.st == Named(Connection) && h.code == 0 && ValueChar(b) && b != 9 && b != 32
    ensures OptionsAt(ValueFirst(h, b), h.f, Elements([b]))
  {
    ElementsOne(b);
    var es := Elements([b]);
    if b == 44 {
      assert forall w :: |w| > 0 ==> !Taken(BrokenOption, es, 0, w);
    } else {
      OptionBegins(ValueFirst(h, b), b);
    }
  }

  lemma OptionsNext(h: Header, f: Flags, es: seq<seq<Byte>>, b: Byte, fs: seq<seq<Byte>>)
    requires es != [] && OptionsAt(h, f, es) && ValueChar(b) && b != 44
    requires fs == es[..|es| - 1] + [es[|es| - 1] + [b]]
    ensures OptionsAt(ValueByte(h, b), f, fs)
  {
    var n := |es| - 1;
    assert es[..n] == fs[..n];
    SameFate(BrokenOption, es, fs, n);
    SameHas(BrokenOption, es, fs, n, "keep-alive");
    SameHas(BrokenOption, es, fs, n, "close");
    SameHas(BrokenOption, es, fs, n, "upgrade");
    OptionNext(h, es[n], n, FateOf(BrokenOption, es, n), b);
  }

  lemma OptionsComma(h: Header, f: Flags, es: seq<seq<Byte>>, fs: seq<seq<Byte>>)
    requires es != [] && OptionsAt(h, f, es) && fs == es + [[]]
    ensures OptionsAt(ValueByte(h, 44), f, fs)
  {
    var n := |es| - 1;
    FateAfterComma(BrokenOption, es, fs);
    HasAfterComma(BrokenOption, es, fs, "keep-alive");
    HasAfterComma(BrokenOption, es, fs, "close");
    HasAfterComma(BrokenOption, es, fs, "upgrade");
    OptionComma(h, es[n], n, FateOf(BrokenOption, es, n));
  }

  lemma {:induction false} OptionsRead(h: Header, v: seq<Byte>)
    requires h.st == Named(Connection) && h.code == 0 && v != [] && Values(v) && v[0] != 9 && v[0] != 32
    ensures OptionsAt(ValueRun(h, v), h.f, Elements(v))
    decreases |v|
  {
    var front, b := v[..|v| - 1], v[|v| - 1];
    if |v| == 1 {
      assert v == [b];
      OptionsFirst(h, b);
    } else {
      OptionsRead(h, front);
      if b == 44 {
        OptionsComma(ValueRun(h, front), h.f, Elements(front), Elements(v));
      } else {
        OptionsNext(ValueRun(h, front), h.f, Elements(front), b, Elements(v));
      }
    }
  }

  lemma OptionEnds(h: Header, e: seq<Byte>, i: nat, fate: Fate)
    requires OptionAt(h, e, i, fate)
    ensures HeaderEnd(h).f == Noting(h, e, fate) && HeaderEnd(h).code == h.code
  {
    NotingIs(h, e, i, fate);
  }

  lemma OptionsEnd(h: Header, f: Flags, es: seq<seq<Byte>>)
    requires es != [] && OptionsAt(h, f, es)
    ensures HeaderEnd(h).f ==
      f.(keepAlive := f.keepAlive || Has(BrokenOption, es, "keep-alive"),
         close := f.close || Has(BrokenOption, es, "close"),
         connectionUpgrade := f.connectionUpgrade || Has(BrokenOption, es, "upgrade"))
    ensures HeaderEnd(h).code == 0
  {
    var n := |es| - 1;
    HasAll(BrokenOption, es, "keep-alive");
    HasAll(BrokenOption, es, "close");
    HasAll(BrokenOption, es, "upgrade");
    OptionEnds(h, es[n], n, FateOf(BrokenOption, es, n));
  }

  /** The option is an element of the value that is read. */
  ghost predicate Lists(v: seq<Byte>, w: string) { Has(BrokenOption, Elements(v), w) }

  /** Connection: an option is noted if and only if it is an element of the list that is read. */
  lemma ConnectionExactly(h: Header, v: seq<Byte>)
    requires h.st == Named(Connection) && h.code == 0 && v != [] && Values(v) && v[0] != 9 && v[0] != 32
    ensures HeaderEnd(ValueRun(h, v)).f ==
      h.f.(keepAlive := h.f.keepAlive || Lists(v, "keep-alive"), close := h.f.close || Lists(v, "close"),
           connectionUpgrade := h.f.connectionUpgrade || Lists(v, "upgrade"))
    ensures HeaderEnd(ValueRun(h, v)).code == 0
  {
    OptionsRead(h, v);
    OptionsEnd(ValueRun(h, v), h.f, Elements(v));
  }

  // ---------- Transfer codings

  const CODING := "chunked"

  lemma CodingPlain()
    ensures PlainWord(CODING) && CODING == CHUNKED
  {}

  /** The parser is in the middle of the word, or at its end, when the comma comes. */
  predicate BrokenCoding(e: seq<Byte>) { Begins(Core(e), "chunked") || Is(e, "chunked") }

  predicate CodingState(h: Header, t: seq<Byte>) {
    match h.st
    case MatchingChunked => Begins(t, CODING) && h.index == |t| - 1
    case Chunked => WordFirst(t, CODING)
    case Coding => !Begins(t, CODING) && !WordFirst(t, CODING)
    case _ => false
  }

  predicate CodingAt(h: Header, e: seq<Byte>, i: nat, fate: Fate) {
    match fate
    case Lost => h.st == General
    case Skipped => h.st == Coding
    case Read =>
      if Core(e) == [] then i > 0 && h.st == CodingStart && h.index == 0
      else if i > 0 && !Opens(e) then h.st == General
      else CodingState(h, Core(e))
  }

  lemma CodingBegins(h: Header, b: Byte)
    requires b != 13 && h.st == (if Lower(b) == 99 then MatchingChunked else Coding) && h.index == 0
    ensures CodingState(h, [b])
  {
    CodingPlain();
    LowerLetter(b, 'c');
    FirstOfWord(b, CODING);
  }

  lemma CodingGoesOn(h: Header, t: seq<Byte>, b: Byte)
    requires t != [] && b != 13 && b != 44 && CodingState(h, t)
    ensures CodingState(CodingByte(h, b), t + [b]) && CodingByte(h, b).f == h.f && CodingByte(h, b).code == h.code
  {
    CodingPlain();
    BeginsMore(t, CODING, b);
    WordMore(t, CODING, b);
    if h.st == MatchingChunked { LowerLetter(b, CODING[|t|]); }
  }

  lemma CodingNext(h: Header, e: seq<Byte>, i: nat, fate: Fate, b: Byte)
    requires CodingAt(h, e, i, fate) && ValueChar(b) && b != 44
    ensures CodingAt(ValueByte(h, b), e + [b], i, fate) && ValueByte(h, b).f == h.f && ValueByte(h, b).code == h.code
  {
    if fate == Read {
      CoreMore(e, b);
      var t := Core(e);
      if t == [] {
        if b != 32 { CodingBegins(h.(st := if Lower(b) == 99 then MatchingChunked else Coding), b); }
      } else if i == 0 || Opens(e) {
        CodingGoesOn(h, t, b);
      }
    }
  }

  /** What begins like the word begins with a letter. */
  lemma CodingOpens(e: seq<Byte>)
    requires BrokenCoding(e)
    ensures Opens(e)
  {
    CodingPlain();
    WordLetter(Core(e), CODING);
  }

  lemma CodingComma(h: Header, e: seq<Byte>, i: nat, fate: Fate)
    requires CodingAt(h, e, i, fate)
    ensures CodingAt(ValueByte(h, 44), [], i + 1, NextFate(e, i, fate, BrokenCoding(e)))
    ensures ValueByte(h, 44).f == h.f && ValueByte(h, 44).code == h.code
  {
    CodingPlain();
    if BrokenCoding(e) { CodingOpens(e); }
    if fate == Read && h.st == MatchingChunked { assert Plain(CODING[|Core(e)|]); }
  }

  lemma CodingEnds(h: Header, e: seq<Byte>, i: nat, fate: Fate)
    requires CodingAt(h, e, i, fate)
    ensures h.st == Chunked <==> fate == Read && Is(e, "chunked")
    ensures HeaderEnd(h) == if h.st == Chunked then h.(f := h.f.(chunked := true)) else h
  {
    if Is(e, "chunked") { CodingOpens(e); }
  }

  ghost predicate CodingsAt(h: Header, f: Flags, es: seq<seq<Byte>>)
    requires es != []
  {
    var n := |es| - 1;
    CodingAt(h, es[n], n, FateOf(BrokenCoding, es, n)) && h.code == 0 && h.f == f
  }

  lemma CodingsEnd(h: Header, f: Flags, es: seq<seq<Byte>>)
    requires es != [] && CodingsAt(h, f, es)
    ensures HeaderEnd(h).f == f.(chunked := f.chunked || Taken(BrokenCoding, es, |es| - 1, "chunked"))
    ensures HeaderEnd(h).code == 0
  {
    var n := |es| - 1;
    CodingEnds(h, es[n], n, FateOf(BrokenCoding, es, n));
  }

  lemma CodingsFirst(h: Header, b: Byte)
    requires h.st == Named(TransferEncoding) && h.code == 0 && ValueChar(b) && b != 9 && b != 32
    ensures CodingsAt(ValueFirst(h, b), h.f, Elements([b]))
  {
    ElementsOne(b);
    assert FateOf(BrokenCoding, Elements([b]), 0) == Read;
    if b != 44 { CodingBegins(ValueFirst(h, b), b); }
  }

  lemma CodingsComma(h: Header, f: Flags, es: seq<seq<Byte>>, fs: seq<seq<Byte>>)
    requires es != [] && CodingsAt(h, f, es) && fs == es + [[]]
    ensures CodingsAt(ValueByte(h, 44), f, fs)
  {
    var n := |es| - 1;
    FateAfterComma(BrokenCoding, es, fs);
    CodingComma(h, es[n], n, FateOf(BrokenCoding, es, n));
  }

  lemma CodingsNext(h: Header, f: Flags, es: seq<seq<Byte>>, b: Byte, fs: seq<seq<Byte>>)
    requires es != [] && CodingsAt(h, f, es) && ValueChar(b) && b != 44
    requires fs == es[..|es| - 1] + [es[|es| - 1] + [b]]
    ensures CodingsAt(ValueByte(h, b), f, fs)
  {
    var n := |es| - 1;
    assert es[..n] == fs[..n];
    SameFate(BrokenCoding, es, fs, n);
    CodingNext(h, es[n], n, FateOf(BrokenCoding, es, n), b);
  }

  lemma {:induction false} CodingsRead(h: Header, v: seq<Byte>)
    requires h.st == Named(TransferEncoding) && h.code == 0 && v != [] && Values(v) && v[0] != 9 && v[0] != 32
    ensures CodingsAt(ValueRun(h, v), h.f, Elements(v))
    decreases |v|
  {
    var front, b := v[..|v| - 1], v[|v| - 1];
    if |v| == 1 {
      assert v == [b];
      CodingsFirst(h, b);
    } else {
      CodingsRead(h, front);
      if b == 44 {
        CodingsComma(ValueRun(h, front), h.f, Elements(front), Elements(v));
      } else {
        CodingsNext(ValueRun(h, front), h.f, Elements(front), b, Elements(v));
      }
    }
  }

  /** The last element of the value is read and is "chunked". */
  predicate ListsChunkedLast(v: seq<Byte>) {
    var es := Elements(v);
    Taken(BrokenCoding, es, |es| - 1, "chunked")
  }

  /** Transfer-Encoding: the body is chunked if and only if the last element is read and is that word. */
  lemma CodingExactly(h: Header, v: seq<Byte>)
    requires h.st == Named(TransferEncoding) && h.code == 0 && v != [] && Values(v) && v[0] != 9 && v[0] != 32
    ensures HeaderEnd(ValueRun(h, v)).f == h.f.(chunked := h.f.chunked || ListsChunkedLast(v))
    ensures HeaderEnd(ValueRun(h, v)).code == 0
  {
    CodingsRead(h, v);
    CodingsEnd(ValueRun(h, v), h.f, Elements(v));
  }

  // ---------- Lists as they should be

  /** Every element begins a token, and none is cut short. */
  ghost predicate WellMade(swallows: seq<Byte> -> bool, es: seq<seq<Byte>>) {
    es != [] && es[0] != [] && forall i :: 0 <= i < |es| ==> !swallows(es[i]) && (i > 0 ==> Opens(es[i]))
  }

  lemma {:induction false} AllRead(swallows: seq<Byte> -> bool, es: seq<seq<Byte>>, i: nat)
    requires WellMade(swallows, es) && i < |es|
    ensures FateOf(swallows, es, i) == Read
    decreases i
  {
    if i > 0 { AllRead(swallows, es, i - 1); }
  }

  /** The word is among the elements. */
  ghost predicate Among(es: seq<seq<Byte>>, w: string) { exists i :: 0 <= i < |es| && Is(es[i], w) }

  lemma AmongHas(es: seq<seq<Byte>>, w: string)
    requires WellMade(BrokenOption, es)
    ensures Has(BrokenOption, es, w) <==> Among(es, w)
  {
    forall i | 0 <= i < |es| ensures Taken(BrokenOption, es, i, w) <==> Is(es[i], w) { AllRead(BrokenOption, es, i); }
  }

  /** In such a list an option is found if and only if it is among the elements. */
  lemma FoundInList(v: seq<Byte>, w: string)
    requires WellMade(BrokenOption, Elements(v))
    ensures Lists(v, w) <==> Among(Elements(v), w)
  {
    AmongHas(Elements(v), w);
  }

  /** What is put together of elements falls into them again. */
  lemma {:induction false} ElementsOf(v: seq<Byte>, e: seq<Byte>)
    requires 44 !in e
    ensures Elements(v + e) == Elements(v)[..|Elements(v)| - 1] + [Elements(v)[|Elements(v)| - 1] + e]
    decreases |e|
  {
    var es := Elements(v);
    if e == [] {
      assert v + e == v && es[|es| - 1] + e == es[|es| - 1];
    } else {
      var front, b := e[..|e| - 1], e[|e| - 1];
      ElementsOf(v, front);
      assert (v + e)[..|v + e| - 1] == v + front && (v + e)[|v + e| - 1] == b;
      assert es[|es| - 1] + front + [b] == es[|es| - 1] + e;
    }
  }

  lemma ElementsComma(v: seq<Byte>, e: seq<Byte>)
    requires 44 !in e
    ensures Elements(v + [44] + e) == Elements(v) + [e]
  {
    assert (v + [44])[..|v|] == v;
    ElementsOf(v + [44], e);
    assert [] + e == e;
  }

  lemma FirstElement(e: seq<Byte>)
    requires 44 !in e
    ensures Elements(e) == [e]
  {
    ElementsOf([], e);
    assert [] + e == e;
  }

  lemma WholeCore(e: seq<Byte>)
    requires e != [] && e[0] != 32
    ensures Core(e) == e
  {}

  lemma UpgradeIs(e: seq<Byte>)
    requires e == [117, 112, 103, 114, 97, 100, 101]
    ensures Is(e, "upgrade") && 44 !in e
  {
    WholeCore(e);
    assert e[..7] == e && e[7..] == [];
  }

  lemma KeepBroken(e: seq<Byte>)
    requires e == [107, 101, 101, 112]
    ensures BrokenOption(e) && 44 !in e && !Is(e, "upgrade")
  {
    WholeCore(e);
    assert "keep-alive"[..4] == "keep";
  }

  /** "keep,upgrade": the option is an element and is not found. */
  lemma OptionSwallowed(keep: seq<Byte>, upgrade: seq<Byte>, v: seq<Byte>)
    requires keep == [107, 101, 101, 112] && upgrade == [117, 112, 103, 114, 97, 100, 101] && v == keep + [44] + upgrade
    ensures Elements(v) == [keep, upgrade] && Is(upgrade, "upgrade") && !Lists(v, "upgrade")
  {
    UpgradeIs(upgrade);
    KeepBroken(keep);
    FirstElement(keep);
    ElementsComma(keep, upgrade);
    TwoFates(Elements(v));
  }

  lemma TwoFates(es: seq<seq<Byte>>)
    requires |es| == 2 && BrokenOption(es[0]) && !Is(es[0], "upgrade")
    ensures !Has(BrokenOption, es, "upgrade")
  {
    assert FateOf(BrokenOption, es, 0) == Read;
  }

  lemma EmptyIs(e: seq<Byte>)
    requires e == []
    ensures !Opens(e) && !BrokenOption(e) && !Is(e, "upgrade")
  {}

  lemma LetterAIs(e: seq<Byte>)
    requires e == [97]
    ensures !BrokenOption(e) && 44 !in e && !Is(e, "upgrade")
  {
    WholeCore(e);
    FirstOfWord(97, OptionWord(KeepAlive));
    FirstOfWord(97, OptionWord(Close));
    FirstOfWord(97, OptionWord(Upgraded));
  }

  /** "a,,upgrade": nor here. */
  lemma OptionLost(a: seq<Byte>, none: seq<Byte>, upgrade: seq<Byte>, v: seq<Byte>)
    requires a == [97] && none == [] && upgrade == [117, 112, 103, 114, 97, 100, 101]
    requires v == a + [44] + none + [44] + upgrade
    ensures Elements(v) == [a, none, upgrade] && Is(upgrade, "upgrade") && !Lists(v, "upgrade")
  {
    UpgradeIs(upgrade);
    LetterAIs(a);
    EmptyIs(none);
    FirstElement(a);
    ElementsComma(a, none);
    ElementsComma(a + [44] + none, upgrade);
    ThreeFates(Elements(v));
  }

  lemma ThreeFates(es: seq<seq<Byte>>)
    requires |es| == 3 && es[0] != [] && !BrokenOption(es[0]) && !BrokenOption(es[1]) && !Opens(es[1])
    requires !Is(es[0], "upgrade") && !Is(es[1], "upgrade")
    ensures !Has(BrokenOption, es, "upgrade")
  {
    assert FateOf(BrokenOption, es, 0) == Read && FateOf(BrokenOption, es, 1) == Read;
  }

  /** How many elements at the end are "chunked". */
  function ChunkedRun(es: seq<seq<Byte>>): nat {
    if es == [] || !Is(es[|es| - 1], "chunked") then 0 else 1 + ChunkedRun(es[..|es| - 1])
  }

  /** The elements are whole, as far as that goes for codings. */
  ghost predicate WholeCodings(es: seq<seq<Byte>>) {
    && es != [] && es[0] != []
    && forall i :: 0 <= i < |es| ==> !Begins(Core(es[i]), "chunked") && (i > 0 ==> Opens(es[i]))
  }

  lemma WholeFront(es: seq<seq<Byte>>, front: seq<seq<Byte>>)
    requires WholeCodings(es) && |es| > 1 && front == es[..|es| - 1]
    ensures WholeCodings(front)
  {
    forall i | 0 <= i < |front| ensures !Begins(Core(front[i]), "chunked") && (i > 0 ==> Opens(front[i])) {
      assert front[i] == es[i];
    }
  }

  lemma FrontFate(es: seq<seq<Byte>>, front: seq<seq<Byte>>)
    requires |es| > 1 && front == es[..|es| - 1]
    ensures var n := |es| - 2;
      && FateOf(BrokenCoding, es, n) == FateOf(BrokenCoding, front, n)
      && (Taken(BrokenCoding, es, n, "chunked") <==> Taken(BrokenCoding, front, n, "chunked"))
  {
    var n := |es| - 2;
    assert front[..n] == es[..n];
    SameFate(BrokenCoding, es, front, n);
  }

  lemma NextCoding(es: seq<seq<Byte>>, i: nat)
    requires WholeCodings(es) && 0 < i < |es| && FateOf(BrokenCoding, es, i - 1) != Lost
    ensures FateOf(BrokenCoding, es, i) == if Taken(BrokenCoding, es, i - 1, "chunked") then Skipped else Read
  {}

  lemma NextTaken(es: seq<seq<Byte>>, i: nat)
    requires WholeCodings(es) && 0 < i < |es| && FateOf(BrokenCoding, es, i - 1) != Lost
    ensures FateOf(BrokenCoding, es, i) != Lost
    ensures Taken(BrokenCoding, es, i, "chunked") <==>
            Is(es[i], "chunked") && !Taken(BrokenCoding, es, i - 1, "chunked")
  {
    NextCoding(es, i);
  }

  lemma OneCoding(es: seq<seq<Byte>>)
    requires |es| == 1
    ensures FateOf(BrokenCoding, es, 0) == Read && (Taken(BrokenCoding, es, 0, "chunked") <==> Is(es[0], "chunked"))
    ensures ChunkedRun(es) == if Is(es[0], "chunked") then 1 else 0
  {
    assert es[..0] == [];
  }

  lemma LastOfRun(es: seq<seq<Byte>>, front: seq<seq<Byte>>)
    requires es != [] && front == es[..|es| - 1]
    ensures ChunkedRun(es) == if Is(es[|es| - 1], "chunked") then 1 + ChunkedRun(front) else 0
  {}

  predicate OddAt(es: seq<seq<Byte>>, n: nat)
    requires n < |es|
  {
    FateOf(BrokenCoding, es, n) != Lost && (Taken(BrokenCoding, es, n, "chunked") <==> ChunkedRun(es) % 2 == 1)
  }

  lemma OddNext(es: seq<seq<Byte>>, front: seq<seq<Byte>>, n: nat)
    requires WholeCodings(es) && 0 < n == |es| - 1 && front == es[..n] && OddAt(front, n - 1)
    ensures OddAt(es, n)
  {
    FrontFate(es, front);
    NextTaken(es, n);
    LastOfRun(es, front);
  }

  /** The coding after "chunked" is not looked at: of several in a row every other one counts. */
  lemma {:induction false} OddRun(es: seq<seq<Byte>>, n: nat)
    requires WholeCodings(es) && n == |es| - 1
    ensures OddAt(es, n)
    decreases n
  {
    if n == 0 {
      OneCoding(es);
    } else {
      var front := es[..n];
      WholeFront(es, front);
      OddRun(front, n - 1);
      OddNext(es, front, n);
    }
  }
}
