/** Topic filters: what the subscription index takes for a match (trie_mult.c), what section 4.7 of
    MQTT 3.1.1 says, and what the stand-alone matcher does (mqtt_packet.c). */
module Topic {

  /** A byte of a C string. */
  type Byte = b: int | 0 < b < 256 witness 1

  type Str = seq<Byte>

  const SLASH: Byte := 47
  const PLUS: Byte := 43
  const HASH: Byte := 35
  const DOLLAR: Byte := 36

  /** The length of the first level. */
  function LevelLen(s: Str): (n: nat)
    ensures n <= |s| && SLASH !in s[..n] && (n < |s| ==> s[n] == SLASH)
  {
    if s == [] || s[0] == SLASH then 0 else 1 + LevelLen(s[1..])
  }

  /** The match of search_r_mqtt: filter `f` against the rest `s` of a topic; `start` says that the
      rest begins a level. */
  predicate Matches(f: Str, s: Str, start: bool)
    decreases |s|
  {
    if s == [] then f == [] else
    || (start && f == [HASH])
    || (start && f != [] && f[0] == PLUS &&
        var n := LevelLen(s);
        if n == |s| then f == [PLUS] else |f| >= 2 && f[1] == SLASH && Matches(f[2..], s[n + 1..], true))
    || (f != [] && f[0] == s[0] && Matches(f[1..], s[1..], s[0] == SLASH))
  }

  /** The match of trie_m_search_mqtt. */
  predicate IndexMatches(f: Str, t: Str) {
    if t != [] && t[0] == DOLLAR then f != [] && f[0] == DOLLAR && Matches(f[1..], t[1..], true)
    else Matches(f, t, true)
  }

  // ---------- Levels

  /** The levels of a topic or filter; there is always at least one. */
  function Levels(s: Str): (r: seq<Str>)
    ensures r != []
    decreases |s|
  {
    var n := LevelLen(s);
    if n == |s| then [s] else [s[..n]] + Levels(s[n + 1..])
  }

  predicate Plain(s: Str) { PLUS !in s && HASH !in s }

  /** Section 4.7.1: a wildcard is a level of its own, and '#' is the last. */
  predicate WellFormed(fs: seq<Str>) {
    fs != [] ==>
      && (Plain(fs[0]) || fs[0] == [PLUS] || (fs[0] == [HASH] && |fs| == 1))
      && WellFormed(fs[1..])
  }

  /** Section 4.7.1: '+' stands for one level, '#' for the parent level and any number below it. */
  predicate StandardLevels(fs: seq<Str>, ts: seq<Str>) {
    if fs == [] then ts == []
    else if fs[0] == [HASH] then true
    else ts != [] && (fs[0] == [PLUS] || fs[0] == ts[0]) && StandardLevels(fs[1..], ts[1..])
  }

  /** Section 4.7.2: a filter that starts with a wildcard does not match a topic that starts with '$'. */
  predicate Standard(f: Str, t: Str) {
    && !(t != [] && t[0] == DOLLAR && f != [] && (f[0] == PLUS || f[0] == HASH))
    && StandardLevels(Levels(f), Levels(t))
  }

  /** What the index loses against the standard: '#' for the parent level, and a wildcard for a
      last level that is empty. */
  predicate Lost(fs: seq<Str>, ts: seq<Str>) {
    && fs != [] && ts != []
    && var last := fs[|fs| - 1];
       || (|fs| == |ts| + 1 && last == [HASH])
       || (|fs| == |ts| && ts[|ts| - 1] == [] && (last == [PLUS] || last == [HASH]))
  }

  /** The match of the index, level by level. */
  predicate IndexLevels(fs: seq<Str>, ts: seq<Str>) {
    if fs == [] then ts == []
    else if ts == [] then false
    else if fs[0] == [HASH] then ts != [[]]
    else if fs[0] == [PLUS] && |ts| == 1 then ts != [[]] && |fs| == 1
    else (fs[0] == [PLUS] || fs[0] == ts[0]) && IndexLevels(fs[1..], ts[1..])
  }

  lemma {:induction false} LevelsAreStandard(fs: seq<Str>, ts: seq<Str>)
    requires WellFormed(fs)
    ensures ts != [] ==> (IndexLevels(fs, ts) <==> StandardLevels(fs, ts) && !Lost(fs, ts))
    ensures ts == [] ==> (IndexLevels(fs, ts) <==> fs == [])
    decreases |fs|
  {
    if fs != [] && ts != [] {
      LevelsAreStandard(fs[1..], ts[1..]);
    }
  }

  lemma LevelLenAt(s: Str, n: nat)
    requires n <= |s| && SLASH !in s[..n] && (n < |s| ==> s[n] == SLASH)
    ensures LevelLen(s) == n
  {
    if s != [] && s[0] != SLASH {
      assert s[..n][1..] == s[1..][..n - 1];
      LevelLenAt(s[1..], n - 1);
    }
  }

  lemma PlainLevels(s: Str)
    requires Plain(s)
    ensures WellFormed(Levels(s))
    decreases |s|
  {
    var n := LevelLen(s);
    if n < |s| { PlainLevels(s[n + 1..]); }
  }

  predicate SameLevel(f: Str, s: Str) {
    var a, b := LevelLen(f), LevelLen(s);
    f[..a] == s[..b] && (a == |f| <==> b == |s|)
  }

  lemma SameLevelTail(f: Str, s: Str)
    requires f != [] && s != [] && f[0] == s[0] != SLASH
    ensures SameLevel(f, s) <==> SameLevel(f[1..], s[1..])
  {
    var a, b := LevelLen(f), LevelLen(s);
    assert f[..a] == [f[0]] + f[1..][..a - 1] && s[..b] == [s[0]] + s[1..][..b - 1];
  }

  lemma AfterLevel(f: Str)
    requires f != [] && f[0] != SLASH
    ensures LevelLen(f) == LevelLen(f[1..]) + 1 && f[0] in f[..LevelLen(f)]
    ensures LevelLen(f) < |f| ==> f[1..][LevelLen(f[1..]) + 1..] == f[LevelLen(f) + 1..]
  {
    assert f[..LevelLen(f)][0] == f[0];
  }

  /** The first level of a filter that is not a wildcard has to be the first level of the topic. */
  lemma {:induction false} LiteralLevel(f: Str, s: Str, start: bool)
    requires Plain(f[..LevelLen(f)]) || !start
    ensures Matches(f, s, start) <==>
      var a, b := LevelLen(f), LevelLen(s);
      && SameLevel(f, s)
      && (a < |f| && b < |s| ==> Matches(f[a + 1..], s[b + 1..], true))
    decreases |s|
  {
    var a, b := LevelLen(f), LevelLen(s);
    if s == [] {
      assert f[..a] == s[..b] && a == |f| ==> f == [];
    } else if f == [] {
    } else if f[0] == SLASH {
      if s[0] == SLASH { assert f[1..] == f[a + 1..] && s[1..] == s[b + 1..]; }
    } else if f[0] == s[0] {
      LiteralLevel(f[1..], s[1..], false);
      SameLevelTail(f, s);
      AfterLevel(f);
      AfterLevel(s);
    } else {
      AfterLevel(f);
    }
  }

  lemma LevelsTail(f: Str)
    requires LevelLen(f) < |f|
    ensures Levels(f)[0] == f[..LevelLen(f)] && Levels(f)[1..] == Levels(f[LevelLen(f) + 1..]) && |Levels(f)| > 1
  {
    var n := LevelLen(f);
    var rest := Levels(f[n + 1..]);
    assert Levels(f) == [f[..n]] + rest;
    assert ([f[..n]] + rest)[1..] == rest;
  }

  lemma FirstLevel(f: Str)
    ensures var n := LevelLen(f);
      Levels(f)[0] == f[..n] && (n == |f| <==> |Levels(f)| == 1) && (n < |f| ==> Levels(f)[1..] == Levels(f[n + 1..]))
  {
    if LevelLen(f) == |f| {
      assert f[..|f|] == f && Levels(f) == [f];
    } else {
      LevelsTail(f);
    }
  }

  /** The index matches level by level. */
  lemma {:induction false} IndexByLevels(f: Str, s: Str)
    requires WellFormed(Levels(f))
    requires Plain(s)
    ensures Matches(f, s, true) <==> IndexLevels(Levels(f), Levels(s))
    decreases |f|
  {
    var a, b, fs, ts := LevelLen(f), LevelLen(s), Levels(f), Levels(s);
    FirstLevel(f);
    FirstLevel(s);
    assert s != [] ==> s[0] in s;
    if f[..a] == [HASH] {
      assert |fs| == 1 && f == [HASH];
    } else if f[..a] == [PLUS] {
      if s != [] && b == |s| {
        assert f == [PLUS] <==> a == |f|;
      } else if s != [] && a < |f| {
        assert f[2..] == f[a + 1..] && f[1] == SLASH;
        assert Plain(s[b + 1..]);
        IndexByLevels(f[a + 1..], s[b + 1..]);
      }
    } else {
      LiteralLevel(f, s, true);
      if a < |f| && b < |s| {
        assert Plain(s[b + 1..]);
        IndexByLevels(f[a + 1..], s[b + 1..]);
      }
    }
  }

  /** After a '$' the index looks at the rest as if it began a level; for a well-formed filter this
      makes no difference. */
  lemma {:induction false} AfterDollar(f: Str, t: Str)
    requires WellFormed(Levels(f)) && f != [] && t != [] && f[0] == DOLLAR == t[0]
    ensures Matches(f[1..], t[1..], true) <==> Matches(f, t, true)
  {
    FirstLevel(f);
    var a, g := LevelLen(f), f[1..];
    assert f[0] in f[..a] && f[..a][1..] == g[..LevelLen(g)];
    LiteralLevel(g, t[1..], true);
    LiteralLevel(g, t[1..], false);
  }

  /** For well-formed filters the index follows the standard but for what it loses. */
  lemma {:induction false} IndexIsStandard(f: Str, t: Str)
    requires WellFormed(Levels(f)) && Plain(t)
    ensures IndexMatches(f, t) <==> Standard(f, t) && !Lost(Levels(f), Levels(t))
  {
    LevelsAreStandard(Levels(f), Levels(t));
    IndexByLevels(f, t);
    if t != [] && t[0] == DOLLAR {
      FirstLevel(f);
      FirstLevel(t);
      var a, b := LevelLen(f), LevelLen(t);
      assert t[..b][0] == DOLLAR;
      if f != [] && f[0] == DOLLAR {
        AfterDollar(f, t);
      } else if f != [] && f[0] != SLASH {
        assert f[..a][0] == f[0];
      }
    }
  }

  const A: Byte := 97

  lemma TwoLevels(f: Str, rest: Str)
    requires f == [A, SLASH] + rest && SLASH !in rest
    ensures Levels(f) == [[A], rest]
    ensures rest == [HASH] || rest == [PLUS] ==> WellFormed(Levels(f))
  {
    LevelLenAt(f, 1);
    LevelLenAt(rest, |rest|);
    assert f[..1] == [A] && f[2..] == rest && Levels(rest) == [rest];
    LevelsTail(f);
    var fs := Levels(f);
    assert fs == [[A], rest] && fs[1..] == [rest] && [rest][1..] == [];
  }

  /** "a/#" is to match "a", by section 4.7.1.2. */
  lemma LosesParent(f: Str, t: Str)
    requires f == [97, 47, 35] && t == [97]
    ensures WellFormed(Levels(f)) && Plain(t) && Standard(f, t) && !IndexMatches(f, t)
  {
    TwoLevels(f, [HASH]);
    LevelLenAt(t, 1);
    assert Levels(t) == [t] && Levels(f)[1..] == [[HASH]] && Levels(t)[1..] == [];
    IndexIsStandard(f, t);
  }

  /** "a/+" is to match "a/", by section 4.7.1.3. */
  lemma LosesEmptyLevel(f: Str, t: Str)
    requires f == [97, 47, 43] && t == [97, 47]
    ensures WellFormed(Levels(f)) && Plain(t) && Standard(f, t) && !IndexMatches(f, t)
  {
    TwoLevels(f, [PLUS]);
    TwoLevels(t, []);
    var fs, ts := Levels(f)[1..], Levels(t)[1..];
    assert fs == [[PLUS]] && ts == [[]] && fs[1..] == [] && ts[1..] == [];
    IndexIsStandard(f, t);
  }

  // ---------- The stand-alone matcher

  /** The loop of mqtt_topic_matches, cursor by cursor. */
  predicate SimpleLoop(f: Str, s: Str)
    decreases |f|
  {
    if f == [] || s == [] then f == [] && s == []
    else if s[0] == SLASH && f[0] != SLASH then false
    else if f[0] == PLUS then SimpleLoop(f[1..], s[LevelLen(s)..])
    else if f[0] == HASH then SimpleLoop(f[1..], [])
    else f[0] == s[0] && SimpleLoop(f[1..], s[1..])
  }

  // The prefix "$local/".
  const LOCAL: Str := [36, 108, 111, 99, 97, 108, 47]

  function StripLocal(t: Str): Str { if LOCAL <= t then t[|LOCAL|..] else t }

  /** `k` is `t` without the seven bytes of "$local/", if it begins with them. */
  predicate Stripped(t: Str, k: Str) {
    var local: Str := [36, 108, 111, 99, 97, 108, 47];
    t == local + k || (k == t && !(local <= t))
  }

  lemma StripExactly(t: Str, k: Str)
    ensures Stripped(t, k) <==> k == StripLocal(t)
  {
    if LOCAL <= t { assert t == LOCAL + t[7..]; }
  }

  predicate SimpleMatches(f: Str, t: Str) { SimpleLoop(f, StripLocal(t)) }

  /** The inner loop of mqtt_topic_matches: from inside a level to its last byte. */
  method SkipLevel(topic: Str, from: nat) returns (curn: nat)
    requires from < |topic| && topic[from] != SLASH
    ensures from <= curn < |topic| && curn + 1 == from + LevelLen(topic[from..])
  {
    var end := |topic|;
    curn := from;
    var nextpos := curn + 1;
    while nextpos < end && topic[nextpos] != SLASH
      invariant nextpos == curn + 1 <= end && from <= curn && SLASH !in topic[from..nextpos]
      decreases end - nextpos
    {
      curn := curn + 1;
      assert topic[from..curn + 1] == topic[from..curn] + [topic[curn]];
      nextpos := curn + 1;
    }
    assert topic[from..][..nextpos - from] == topic[from..nextpos];
    LevelLenAt(topic[from..], nextpos - from);
  }

  /** What one turn of the outer loop does to the rests of the filter and of the topic. */
  lemma SimpleStep(filter: Str, topic: Str, curf: nat, curn: nat)
    requires curf < |filter| && curn < |topic|
    ensures var s := topic[curn..]; var next := filter[curf + 1..];
      SimpleLoop(filter[curf..], s) <==>
        if topic[curn] == SLASH && filter[curf] != SLASH then false
        else if filter[curf] == PLUS then SimpleLoop(next, topic[curn + LevelLen(s)..])
        else if filter[curf] == HASH then SimpleLoop(next, topic[|topic|..])
        else filter[curf] == topic[curn] && SimpleLoop(next, topic[curn + 1..])
  {
    var f, s := filter[curf..], topic[curn..];
    assert f[0] == filter[curf] && s[0] == topic[curn] && f[1..] == filter[curf + 1..];
    assert s[LevelLen(s)..] == topic[curn + LevelLen(s)..] && s[1..] == topic[curn + 1..] && topic[|topic|..] == [];
  }

  /** mqtt_topic_matches: the two cursors are positions in the filter and in the topic name. */
  method TopicMatches(filter: Str, name: Str) returns (r: bool)
    ensures r == SimpleMatches(filter, name)
  {
    var topic := StripLocal(name);
    var curf, curn, end := 0, 0, |topic|;
    assert filter[0..] == filter && topic[0..] == topic;
    while curf < |filter| && curn < end
      invariant curf <= |filter| && curn <= end
      invariant SimpleLoop(filter[curf..], topic[curn..]) <==> SimpleMatches(filter, name)
      decreases |filter| - curf
    {
      SimpleStep(filter, topic, curf, curn);
      if topic[curn] == SLASH && filter[curf] != SLASH { break; }
      if filter[curf] != PLUS && filter[curf] != HASH && filter[curf] != topic[curn] { break; }
      if filter[curf] == PLUS {
        curn := SkipLevel(topic, curn);
      } else if filter[curf] == HASH {
        curn := end - 1;
      }
      curf := curf + 1;
      curn := curn + 1;
    }
    r := curn == end && curf == |filter|;
  }

  /** No level of the topic is empty, except possibly the last. */
  predicate NoInnerEmpty(ts: seq<Str>) { forall i :: 0 <= i < |ts| - 1 ==> ts[i] != [] }

  lemma {:induction false} SimpleLiteral(f: Str, s: Str)
    requires Plain(f[..LevelLen(f)])
    ensures SimpleLoop(f, s) <==>
      var a, b := LevelLen(f), LevelLen(s);
      && SameLevel(f, s)
      && (a < |f| && b < |s| ==> SimpleLoop(f[a + 1..], s[b + 1..]))
    decreases |f|
  {
    var a, b := LevelLen(f), LevelLen(s);
    if f == [] || s == [] {
    } else if f[0] == SLASH {
      if s[0] == SLASH { assert f[1..] == f[a + 1..] && s[1..] == s[b + 1..]; }
    } else {
      AfterLevel(f);
      if s[0] == f[0] {
        assert f[..a] == [f[0]] + f[1..][..a - 1];
        SimpleLiteral(f[1..], s[1..]);
        SameLevelTail(f, s);
        AfterLevel(s);
      }
    }
  }

  /** The matchers agree from the next level on, where both have one. */
  ghost predicate AgreeOnRest(f: Str, s: Str) {
    var a, b := LevelLen(f), LevelLen(s);
    a < |f| && b < |s| ==> (SimpleLoop(f[a + 1..], s[b + 1..]) <==> IndexLevels(Levels(f[a + 1..]), Levels(s[b + 1..])))
  }

  lemma SimplePlus(f: Str, s: Str)
    requires WellFormed(Levels(f)) && NoInnerEmpty(Levels(s)) && f[..LevelLen(f)] == [PLUS] && AgreeOnRest(f, s)
    ensures SimpleLoop(f, s) <==> IndexLevels(Levels(f), Levels(s))
  {
    var a, b, ts := LevelLen(f), LevelLen(s), Levels(s);
    FirstLevel(f);
    FirstLevel(s);
    if s != [] {
      assert ts[0] == s[..b] && (b < |s| ==> ts[0] != []);
      assert s[0] != SLASH;
      var g, r := f[1..], s[b..];
      assert SimpleLoop(f, s) <==> SimpleLoop(g, r);
      if a < |f| && b < |s| {
        assert g[0] == SLASH && r[0] == SLASH && g[1..] == f[a + 1..] && r[1..] == s[b + 1..];
      }
    }
  }

  lemma SimpleOther(f: Str, s: Str)
    requires WellFormed(Levels(f)) && f[..LevelLen(f)] != [PLUS] && f[..LevelLen(f)] != [HASH] && AgreeOnRest(f, s)
    ensures SimpleLoop(f, s) <==> IndexLevels(Levels(f), Levels(s))
  {
    FirstLevel(f);
    FirstLevel(s);
    SimpleLiteral(f, s);
  }

  lemma InnerRest(ts: seq<Str>)
    requires NoInnerEmpty(ts) && ts != []
    ensures NoInnerEmpty(ts[1..])
  {
    forall i | 0 <= i < |ts[1..]| - 1 ensures ts[1..][i] != [] { assert ts[1..][i] == ts[i + 1]; }
  }

  lemma FilterRest(f: Str)
    requires WellFormed(Levels(f)) && LevelLen(f) < |f|
    ensures WellFormed(Levels(f[LevelLen(f) + 1..]))
  {
    FirstLevel(f);
  }

  lemma TopicRest(s: Str)
    requires NoInnerEmpty(Levels(s)) && LevelLen(s) < |s|
    ensures NoInnerEmpty(Levels(s[LevelLen(s) + 1..]))
  {
    FirstLevel(s);
    InnerRest(Levels(s));
  }

  lemma {:induction false} SimpleByLevels(f: Str, s: Str)
    requires WellFormed(Levels(f)) && NoInnerEmpty(Levels(s))
    ensures SimpleLoop(f, s) <==> IndexLevels(Levels(f), Levels(s))
    decreases |f|
  {
    var a, b := LevelLen(f), LevelLen(s);
    if a < |f| && b < |s| {
      FilterRest(f);
      TopicRest(s);
      SimpleByLevels(f[a + 1..], s[b + 1..]);
    }
    if f[..a] == [HASH] {
      FirstLevel(f);
      FirstLevel(s);
      assert |Levels(f)| == 1 && f == [HASH];
    } else if f[..a] == [PLUS] {
      SimplePlus(f, s);
    } else {
      SimpleOther(f, s);
    }
  }

  // ---------- Where the index and the stand-alone matcher agree

  lemma {:induction false} Agree(f: Str, t: Str)
    requires WellFormed(Levels(f)) && Plain(t) && !(t != [] && t[0] == DOLLAR) && NoInnerEmpty(Levels(t))
    ensures IndexMatches(f, t) <==> SimpleMatches(f, t)
  {
    SimpleByLevels(f, t);
    IndexByLevels(f, t);
  }

  lemma {:induction false} PlainIsLiteral(f: Str, s: Str)
    requires Plain(f)
    ensures SimpleLoop(f, s) <==> f == s
    ensures Matches(f, f, true)
    decreases |f|
  {
    var a, b := LevelLen(f), LevelLen(s);
    SimpleLiteral(f, s);
    LiteralLevel(f, f, true);
    if a < |f| {
      assert Plain(f[a + 1..]);
      PlainIsLiteral(f[a + 1..], if b < |s| then s[b + 1..] else []);
      assert f == f[..a] + [SLASH] + f[a + 1..];
    } else {
      assert f[..a] == f;
    }
    if b < |s| { assert s == s[..b] + [SLASH] + s[b + 1..]; } else { assert s[..b] == s; }
  }

  lemma HashFilter()
    ensures Levels([HASH]) == [[HASH]] && WellFormed(Levels([HASH]))
  {
    LevelLenAt([HASH], 1);
  }

  /** A literal level put before a filter. */
  lemma {:induction false} PrefixLevel(level: Str, f: Str, s: Str)
    requires SLASH !in level && Plain(level)
    ensures var f', s' := level + [SLASH] + f, level + [SLASH] + s;
      && (WellFormed(Levels(f)) ==> WellFormed(Levels(f')))
      && (Matches(f', s', true) <==> Matches(f, s, true)) && (SimpleLoop(f', s') <==> SimpleLoop(f, s))
  {
    var f', s', n := level + [SLASH] + f, level + [SLASH] + s, |level|;
    assert f'[..n] == level && s'[..n] == level && f'[n + 1..] == f && s'[n + 1..] == s;
    LevelLenAt(f', n);
    LevelLenAt(s', n);
    assert Levels(f') == [level] + Levels(f) && Levels(f')[1..] == Levels(f);
    LiteralLevel(f', s', true);
    SimpleLiteral(f', s');
  }

  lemma InnerEmptyTail(ts: seq<Str>)
    requires ts != [] && !NoInnerEmpty(ts) && ts[0] != []
    ensures |ts| > 1 && !NoInnerEmpty(ts[1..])
  {
    var i :| 0 <= i < |ts| - 1 && ts[i] == [];
    var us := ts[1..];
    assert us[i - 1] == [];
  }

  /** An empty inner level that is not the first is an empty inner level of the rest. */
  lemma InnerEmptyRest(t: Str)
    requires !NoInnerEmpty(Levels(t)) && Levels(t)[0] != []
    ensures var n := LevelLen(t); n < |t| && !NoInnerEmpty(Levels(t[n + 1..]))
  {
    FirstLevel(t);
    InnerEmptyTail(Levels(t));
  }

  lemma SplitAtSlash(t: Str, n: nat)
    requires Plain(t) && n < |t| && t[n] == SLASH
    ensures Plain(t[..n]) && Plain(t[n + 1..]) && t == t[..n] + [SLASH] + t[n + 1..]
  {}

  /** An empty first level with more after it is matched by '#' in the index only. */
  lemma EmptyFirst(t: Str)
    requires !NoInnerEmpty(Levels(t)) && Levels(t)[0] == []
    ensures WellFormed(Levels([HASH])) && Matches([HASH], t, true) && !SimpleLoop([HASH], t)
  {
    FirstLevel(t);
    assert LevelLen(t) == 0 && t[0] == SLASH;
    HashFilter();
  }

  /** A filter that ends in '#' in place of an empty inner level. */
  lemma {:induction false} EmptyLevelWitness(t: Str) returns (f: Str)
    requires Plain(t) && !NoInnerEmpty(Levels(t))
    ensures WellFormed(Levels(f)) && Matches(f, t, true) && !SimpleLoop(f, t)
    decreases |t|
  {
    if Levels(t)[0] == [] {
      f := [HASH];
      EmptyFirst(t);
    } else {
      InnerEmptyRest(t);
      var n := LevelLen(t);
      SplitAtSlash(t, n);
      var g := EmptyLevelWitness(t[n + 1..]);
      PrefixLevel(t[..n], g, t[n + 1..]);
      f := t[..n] + [SLASH] + g;
    }
  }

  lemma {:induction false} DollarWitness(t: Str) returns (f: Str)
    requires Plain(t) && t != [] && t[0] == DOLLAR
    ensures WellFormed(Levels(f)) && IndexMatches(f, t) != SimpleMatches(f, t)
  {
    if LOCAL <= t {
      f := t;
      PlainLevels(t);
      PlainIsLiteral(t, StripLocal(t));
      AfterDollar(t, t);
    } else {
      f := [HASH];
      HashFilter();
      assert SimpleLoop(f, t) <==> SimpleLoop(f[1..], []);
    }
  }

  /** For a topic without wildcards the index and the stand-alone matcher take the same well-formed
      filters exactly when the topic does not start with '$' and no level but the last is empty. */
  lemma AgreeExactly(t: Str)
    requires Plain(t)
    ensures (forall f :: WellFormed(Levels(f)) ==> (IndexMatches(f, t) <==> SimpleMatches(f, t)))
            <==> !(t != [] && t[0] == DOLLAR) && NoInnerEmpty(Levels(t))
  {
    if t != [] && t[0] == DOLLAR {
      var f := DollarWitness(t);
    } else if !NoInnerEmpty(Levels(t)) {
      var f := EmptyLevelWitness(t);
      assert WellFormed(Levels(f)) && IndexMatches(f, t) != SimpleMatches(f, t);
    } else {
      forall f | WellFormed(Levels(f)) ensures IndexMatches(f, t) <==> SimpleMatches(f, t) { Agree(f, t); }
    }
  }

  /** A name that begins with "$local/" is matched as the index matches what comes after it. */
  lemma LocalAgrees(f: Str, name: Str, t: Str)
    requires Stripped(name, t) && Plain(t) && WellFormed(Levels(f))
    requires !(t != [] && t[0] == 36) && NoInnerEmpty(Levels(t))
    ensures SimpleMatches(f, name) <==> IndexMatches(f, t)
  {
    StripExactly(name, t);
    StripExactly(t, t);
    Agree(f, t);
  }
}
