/** What a search of the subscription index visits: exactly the nodes whose path matches the topic,
    each once unless the topic itself has a level that reads as a wildcard. */
module TrieSearch {
  import opened Topic
  import opened TrieModel

  /** The nodes search_r_mqtt reports, in order, from the node `pre` with `s` left of the topic. */
  function Visits(ks: set<Str>, pre: Str, s: Str, start: bool): seq<Str>
    decreases |s|, 2
  {
    if pre !in ks then []
    else if s == [] then [pre]
    else (if start then Wildcards(ks, pre, s) else []) + Visits(ks, pre + [s[0]], s[1..], s[0] == SLASH)
  }

  function Wildcards(ks: set<Str>, pre: Str, s: Str): seq<Str>
    requires s != []
    decreases |s|, 1
  {
    (if pre + [HASH] in ks then [pre + [HASH]] else []) + Singles(ks, pre, s)
  }

  function Singles(ks: set<Str>, pre: Str, s: Str): seq<Str>
    requires s != []
    decreases |s|, 0
  {
    if pre + [PLUS] !in ks then []
    else
      var n := LevelLen(s);
      if n == |s| then [pre + [PLUS]] else Visits(ks, pre + [PLUS, SLASH], s[n + 1..], true)
  }

  /** The nodes trie_m_search_mqtt reports for topic `t`. */
  function Visited(ks: set<Str>, t: Str): seq<Str> {
    if t != [] && t[0] == DOLLAR then (if [] in ks then Visits(ks, [DOLLAR], t[1..], true) else [])
    else Visits(ks, [], t, true)
  }

  /** `k` is a node at or below `pre` whose rest matches `s`. */
  ghost predicate Hit(ks: set<Str>, pre: Str, k: Str, s: Str, start: bool) {
    k in ks && pre <= k && Matches(k[|pre|..], s, start)
  }

  lemma {:induction false} SinglesExact(ks: set<Str>, pre: Str, s: Str, k: Str)
    requires Closed(ks) && s != []
    ensures k in Singles(ks, pre, s) <==>
      && k in ks && pre + [PLUS] <= k
      && var n := LevelLen(s);
         if n == |s| then k == pre + [PLUS]
         else pre + [PLUS, SLASH] <= k && Matches(k[|pre| + 2..], s[n + 1..], true)
    decreases |s|, 0
  {
    var n := LevelLen(s);
    if k in ks && pre + [PLUS] <= k {
      ClosedPrefix(ks, k, |pre| + 1);
      assert k[..|pre| + 1] == pre + [PLUS];
    }
    if n < |s| {
      VisitsExact(ks, pre + [PLUS, SLASH], s[n + 1..], true, k);
      if pre + [PLUS, SLASH] <= k { assert pre + [PLUS] <= k; }
    }
  }

  /** A node is visited just when its path is in the index and matches. */
  lemma {:induction false} VisitsExact(ks: set<Str>, pre: Str, s: Str, start: bool, k: Str)
    requires Closed(ks)
    ensures k in Visits(ks, pre, s, start) <==> Hit(ks, pre, k, s, start)
    decreases |s|, 1
  {
    if k in ks && pre <= k {
      ClosedPrefix(ks, k, |pre|);
      assert k[..|pre|] == pre;
    }
    if pre in ks && s != [] {
      var f := if pre <= k then k[|pre|..] else [];
      SinglesExact(ks, pre, s, k);
      VisitsExact(ks, pre + [s[0]], s[1..], s[0] == SLASH, k);
      Below(pre, k, s[0]);
      Below(pre, k, PLUS);
      Below(pre, k, HASH);
      Below2(pre, k);
    } else if pre in ks && pre <= k {
      assert k[|pre|..] == [] <==> k == pre;
    }
  }

  lemma Below(pre: Str, k: Str, b: Byte)
    ensures pre + [b] <= k <==> pre <= k && |pre| < |k| && k[|pre|] == b
    ensures pre + [b] <= k ==> k[|pre + [b]|..] == k[|pre|..][1..]
    ensures k == pre + [b] <==> pre <= k && k[|pre|..] == [b]
  {
    if pre <= k && k[|pre|..] == [b] { assert k == k[..|pre|] + k[|pre|..]; }
    if pre <= k && |pre| < |k| && k[|pre|] == b { assert k[..|pre| + 1] == pre + [b]; }
  }

  lemma Below2(pre: Str, k: Str)
    ensures pre + [PLUS, SLASH] <= k <==> pre <= k && |pre| + 1 < |k| && k[|pre|] == PLUS && k[|pre| + 1] == SLASH
    ensures pre + [PLUS, SLASH] <= k ==> k[|pre| + 2..] == k[|pre|..][2..]
  {
    if pre <= k && |pre| + 1 < |k| && k[|pre|] == PLUS && k[|pre| + 1] == SLASH {
      assert k[..|pre| + 2] == pre + [PLUS, SLASH];
    }
  }

  // ---------- Visited once

  /** No level of a topic reads as a wildcard: none is "+" and the last is not "#". */
  ghost predicate Clear(s: Str, start: bool)
    decreases |s|
  {
    s != [] ==>
      && (start ==> s != [HASH] && !(s[0] == PLUS && (|s| == 1 || s[1] == SLASH)))
      && Clear(s[1..], s[0] == SLASH)
  }

  lemma {:induction false} ClearSuffix(s: Str, start: bool, n: nat)
    requires Clear(s, start) && n < |s| && s[n] == SLASH
    ensures Clear(s[n + 1..], true)
    decreases |s|
  {
    if n > 0 {
      ClearSuffix(s[1..], s[0] == SLASH, n - 1);
      assert s[1..][n..] == s[n + 1..];
    }
  }

  lemma {:induction false} ClearRest(s: Str)
    ensures var n := LevelLen(s); Clear(s, false) <==> n == |s| || Clear(s[n + 1..], true)
    decreases |s|
  {
    var n := LevelLen(s);
    if s != [] && s[0] != SLASH {
      ClearRest(s[1..]);
      if n < |s| { assert s[1..][n..] == s[n + 1..]; }
    }
  }

  /** What `Clear` says of the levels. */
  lemma {:induction false} ClearLevels(s: Str)
    ensures Clear(s, true) <==> var ls := Levels(s); [PLUS] !in ls && ls[|ls| - 1] != [HASH]
    decreases |s|
  {
    var n := LevelLen(s);
    FirstLevel(s);
    if s != [] {
      ClearRest(s);
      if s[0] == SLASH { assert s[..n] == []; } else { assert s[..n][0] == s[0]; }
      assert s[..n] == [PLUS] <==> s[0] == PLUS && (|s| == 1 || s[1] == SLASH) by {
        if s[0] == PLUS && (|s| == 1 || s[1] == SLASH) { LevelLenAt(s, 1); }
      }
      if n < |s| {
        ClearLevels(s[n + 1..]);
        assert Levels(s) == [s[..n]] + Levels(s[n + 1..]);
      } else {
        assert s[..n] == s;
      }
    }
  }

  ghost predicate Once(q: seq<Str>) { forall k :: multiset(q)[k] <= 1 }

  lemma OnceConcat(a: seq<Str>, b: seq<Str>)
    requires Once(a) && Once(b) && forall k :: k in a ==> k !in b
    ensures Once(a + b)
  {
    forall k ensures multiset(a + b)[k] <= 1 {
      assert multiset(a + b) == multiset(a) + multiset(b);
      assert k in multiset(a) <==> k in a;
      assert k in multiset(b) <==> k in b;
    }
  }

  lemma {:induction false} SinglesOnce(ks: set<Str>, pre: Str, s: Str)
    requires Closed(ks) && s != [] && Clear(s, true)
    ensures Once(Singles(ks, pre, s))
    decreases |s|, 0
  {
    var n := LevelLen(s);
    if n < |s| {
      ClearSuffix(s, true, n);
      VisitsOnce(ks, pre + [PLUS, SLASH], s[n + 1..], true);
    }
  }

  /** What a wildcard finds, the topic's own bytes do not find. */
  lemma {:induction false} Apart(ks: set<Str>, pre: Str, s: Str, k: Str)
    requires Closed(ks) && s != [] && Clear(s, true) && k in Wildcards(ks, pre, s)
    ensures k !in Visits(ks, pre + [s[0]], s[1..], s[0] == SLASH)
  {
    VisitsExact(ks, pre + [s[0]], s[1..], s[0] == SLASH, k);
    SinglesExact(ks, pre, s, k);
    Below(pre, k, s[0]);
    Below(pre, k, PLUS);
    Below(pre, k, HASH);
    Below2(pre, k);
  }

  lemma {:induction false} VisitsOnce(ks: set<Str>, pre: Str, s: Str, start: bool)
    requires Closed(ks) && Clear(s, start)
    ensures Once(Visits(ks, pre, s, start))
    decreases |s|, 1
  {
    if pre in ks && s != [] {
      var tail := Visits(ks, pre + [s[0]], s[1..], s[0] == SLASH);
      VisitsOnce(ks, pre + [s[0]], s[1..], s[0] == SLASH);
      if start {
        SinglesOnce(ks, pre, s);
        var h := if pre + [HASH] in ks then [pre + [HASH]] else [];
        forall k | k in h ensures k !in Singles(ks, pre, s) {
          SinglesExact(ks, pre, s, k);
          Below(pre, k, PLUS);
          Below(pre, k, HASH);
        }
        OnceConcat(h, Singles(ks, pre, s));
        forall k | k in Wildcards(ks, pre, s) ensures k !in tail { Apart(ks, pre, s, k); }
        OnceConcat(Wildcards(ks, pre, s), tail);
      } else {
        assert [] + tail == tail;
      }
    }
  }

  lemma {:induction false} MatchesItself(s: Str, start: bool)
    ensures Matches(s, s, start)
    decreases |s|
  {
    if s != [] { MatchesItself(s[1..], s[0] == SLASH); }
  }

  /** A topic with a level that reads as a wildcard is reported twice to its own filter. */
  lemma {:induction false} Twice(ks: set<Str>, pre: Str, s: Str, start: bool)
    requires Closed(ks) && pre + s in ks && !Clear(s, start)
    ensures multiset(Visits(ks, pre, s, start))[pre + s] >= 2
    decreases |s|
  {
    var k, tail := pre + s, Visits(ks, pre + [s[0]], s[1..], s[0] == SLASH);
    ClosedPrefix(ks, k, |pre|);
    assert k[..|pre|] == pre && k == (pre + [s[0]]) + s[1..] && k[|pre|..] == s && k[|pre| + 1..] == s[1..];
    if !Clear(s[1..], s[0] == SLASH) {
      Twice(ks, pre + [s[0]], s[1..], s[0] == SLASH);
    } else {
      MatchesItself(s[1..], s[0] == SLASH);
      VisitsExact(ks, pre + [s[0]], s[1..], s[0] == SLASH, k);
      assert k in Wildcards(ks, pre, s) by {
        if s != [HASH] {
          var n := LevelLen(s);
          LevelLenAt(s, 1);
          SinglesExact(ks, pre, s, k);
          Below2(pre, k);
          if |s| > 1 { MatchesItself(s[2..], true); }
        }
      }
      assert k in multiset(tail) && k in multiset(Wildcards(ks, pre, s));
    }
    if start {
      assert multiset(Wildcards(ks, pre, s) + tail) == multiset(Wildcards(ks, pre, s)) + multiset(tail);
    }
  }

  /** The part of the topic that wildcards are tried on. */
  function Body(t: Str): Str { if t != [] && t[0] == DOLLAR then t[1..] else t }

  /** A search visits exactly the nodes that match. */
  lemma VisitedExactly(ks: set<Str>, t: Str, k: Str)
    requires Closed(ks)
    ensures k in Visited(ks, t) <==> k in ks && IndexMatches(k, t)
  {
    if t != [] && t[0] == DOLLAR {
      VisitsExact(ks, [DOLLAR], t[1..], true, k);
      if k in ks { ClosedPrefix(ks, k, 0); assert k[..0] == []; }
      Below([], k, DOLLAR);
      assert [] + [DOLLAR] == [DOLLAR] && k[0..] == k;
    } else {
      VisitsExact(ks, [], t, true, k);
      assert k[0..] == k;
    }
  }

  /** No node is visited twice, in whatever index, just when no level of the topic reads as a wildcard. */
  lemma VisitedOnceExactly(t: Str)
    ensures (forall ks :: Closed(ks) ==> Once(Visited(ks, t))) <==>
      var ls := Levels(Body(t)); [PLUS] !in ls && ls[|ls| - 1] != [HASH]
  {
    ClearLevels(Body(t));
    var dollar := t != [] && t[0] == DOLLAR;
    if Clear(Body(t), true) {
      forall ks | Closed(ks) ensures Once(Visited(ks, t)) {
        if dollar { VisitsOnce(ks, [DOLLAR], t[1..], true); } else { VisitsOnce(ks, [], t, true); }
      }
    } else {
      var ks := Prefixes(t);
      assert [] in ks;
      var pre := if dollar then [DOLLAR] else [];
      assert t == pre + Body(t);
      Twice(ks, pre, Body(t), true);
      assert multiset(Visited(ks, t))[t] >= 2;
      assert Closed(ks) && !Once(Visited(ks, t));
    }
  }

  lemma {:induction false} PlainClear(s: Str, start: bool)
    requires Plain(s)
    ensures Clear(s, start)
    decreases |s|
  {
    if s != [] { PlainClear(s[1..], s[0] == SLASH); }
  }

  // ---------- Reported items

  /** The lists of the visited nodes, one after the other. */
  function Collect<T>(m: Lists<T>, q: seq<Str>): seq<T> {
    if q == [] then [] else Get(m, q[0]) + Collect(m, q[1..])
  }

  /** What a search for topic `t` reports. */
  function Reported<T>(m: Lists<T>, t: Str): seq<T> { Collect(m, Visited(m.Keys, t)) }

  /** An item that hangs at one node only, and there once, is reported as often as that node is visited. */
  lemma {:induction false} CollectCount<T>(m: Lists<T>, q: seq<Str>, k: Str, x: T)
    requires k in m && multiset(m[k])[x] == 1 && forall j :: j in m && j != k ==> x !in m[j]
    ensures multiset(Collect(m, q))[x] == multiset(q)[k]
  {
    if q != [] {
      CollectCount(m, q[1..], k, x);
      assert q == [q[0]] + q[1..];
      assert multiset(q) == multiset{q[0]} + multiset(q[1..]);
      assert multiset(Collect(m, q)) == multiset(Get(m, q[0])) + multiset(Collect(m, q[1..]));
      if q[0] != k { assert x !in Get(m, q[0]); }
    }
  }

  /** A subscription under a well-formed filter hears of a message just when the standard says so,
      but for what the index loses, and then once. */
  lemma {:induction false} Delivered<T>(m: Lists<T>, f: Str, x: T, t: Str)
    requires Closed(m.Keys) && WellFormed(Levels(f)) && Plain(t)
    requires f in m && multiset(m[f])[x] == 1 && forall j :: j in m && j != f ==> x !in m[j]
    ensures multiset(Reported(m, t))[x] == if Standard(f, t) && !Lost(Levels(f), Levels(t)) then 1 else 0
  {
    var q := Visited(m.Keys, t);
    CollectCount(m, q, f, x);
    VisitedExactly(m.Keys, t, f);
    IndexIsStandard(f, t);
    PlainClear(Body(t), true);
    ClearLevels(Body(t));
    VisitedOnceExactly(t);
    assert f in multiset(q) <==> f in q;
  }
}
