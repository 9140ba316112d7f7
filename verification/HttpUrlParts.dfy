/** URLs put together of their parts (section 3 of RFC 3986) fall into these parts again. */
module HttpUrlParts {
  import opened ByteStream
  import opened HttpUrl
  import D = Decimal

  // ---------- Stretches

  function Rep(k: int, n: nat): (m: seq<int>)
    ensures |m| == n && forall i :: 0 <= i < n ==> m[i] == k
  {
    seq(n, _ => k)
  }

  /** A stretch between places that are marked otherwise. */
  lemma StretchBetween(a: seq<int>, k: int, n: nat, b: seq<int>, m: seq<int>)
    requires m == a + Rep(k, n) + b && k !in a && k !in b
    ensures Stretch(m, k) == if n == 0 then Unset else Field(|a|, n)
  {
    var f := if n == 0 then Unset else Field(|a|, n);
    forall x | 0 <= x < |m| ensures Covers(f, x) <==> m[x] == k {
      if x < |a| {
        assert m[x] == a[x];
      } else if x < |a| + n {
        assert m[x] == Rep(k, n)[x - |a|];
      } else {
        assert m[x] == b[x - |a| - n];
      }
    }
    StretchIs(f, m, k);
  }

  function End(s: State, t: seq<Byte>): State { UrlRun(s, t, |t|) }

  lemma {:induction false} RunFront(s: State, a: seq<Byte>, b: seq<Byte>, i: nat)
    requires i <= |a|
    ensures UrlRun(s, a + b, i) == UrlRun(s, a, i)
  {
    if i > 0 { RunFront(s, a, b, i - 1); }
  }

  lemma {:induction false} RunBack(s: State, a: seq<Byte>, b: seq<Byte>, i: nat)
    requires i <= |b|
    ensures UrlRun(s, a + b, |a| + i) == UrlRun(End(s, a), b, i)
  {
    if i == 0 {
      RunFront(s, a, b, |a|);
    } else {
      RunBack(s, a, b, i - 1);
      assert (a + b)[|a| + i - 1] == b[i - 1];
    }
  }

  lemma MarkAt(s: State, a: seq<Byte>, b: seq<Byte>, x: nat)
    requires x < |a| + |b|
    ensures Marks(s, a + b)[x] == if x < |a| then Marks(s, a)[x] else Marks(End(s, a), b)[x - |a|]
  {
    if x < |a| {
      RunFront(s, a, b, x + 1);
    } else {
      RunBack(s, a, b, x + 1 - |a|);
    }
  }

  lemma MarksConcat(s: State, a: seq<Byte>, b: seq<Byte>)
    ensures Marks(s, a + b) == Marks(s, a) + Marks(End(s, a), b) && End(s, a + b) == End(End(s, a), b)
  {
    var m := Marks(s, a) + Marks(End(s, a), b);
    forall x | 0 <= x < |a + b| ensures Marks(s, a + b)[x] == m[x] { MarkAt(s, a, b, x); }
    RunBack(s, a, b, |b|);
  }

  lemma {:induction false} SawFront(s: State, a: seq<Byte>, b: seq<Byte>, i: nat)
    requires i <= |a|
    ensures SawAt(s, a + b, i) <==> SawAt(s, a, i)
  {
    if i > 0 {
      RunFront(s, a, b, i);
      SawFront(s, a, b, i - 1);
    }
  }

  lemma {:induction false} SawBack(s: State, a: seq<Byte>, b: seq<Byte>, i: nat)
    requires i <= |b|
    ensures SawAt(s, a + b, |a| + i) <==> SawAt(s, a, |a|) || SawAt(End(s, a), b, i)
  {
    if i == 0 {
      SawFront(s, a, b, |a|);
    } else {
      RunBack(s, a, b, i);
      SawBack(s, a, b, i - 1);
    }
  }

  /** Reading `t` leads from `s` to `s'`; `m` says which field its bytes are of, `at` whether there is user
      information. */
  ghost predicate Leads(s: State, t: seq<Byte>, s': State, m: seq<int>, at: bool) {
    End(s, t) == s' && Marks(s, t) == m && (SawAt(s, t, |t|) <==> at)
  }

  lemma LeadsOn(s: State, a: seq<Byte>, s1: State, m1: seq<int>, at1: bool, b: seq<Byte>, s2: State, m2: seq<int>,
                at2: bool)
    requires Leads(s, a, s1, m1, at1) && Leads(s1, b, s2, m2, at2)
    ensures Leads(s, a + b, s2, m1 + m2, at1 || at2)
  {
    MarksConcat(s, a, b);
    SawBack(s, a, b, |b|);
  }

  lemma LeadsNowhere(s: State)
    ensures Leads(s, [], s, [], false)
  {}

  /** Bytes that stay in one state. */
  lemma {:induction false} LeadsSteadily(s: State, t: seq<Byte>, s': State)
    requires t != [] && UrlChar(s, t[0]) == s' && s' != ServerWithAt
    requires forall i :: 0 < i < |t| ==> UrlChar(s', t[i]) == s'
    ensures Leads(s, t, s', Rep(FieldOf(s'), |t|), false)
    decreases |t|
  {
    if |t| == 1 {
      LeadsByOne(s, t[0], s', false);
      assert t == [t[0]];
    } else {
      var front, b := t[..|t| - 1], t[|t| - 1];
      assert t == front + [b];
      LeadsSteadily(s, front, s');
      LeadsByOne(s', b, s', false);
      LeadsOn(s, front, s', Rep(FieldOf(s'), |front|), false, [b], s', Rep(FieldOf(s'), 1), false);
      assert Rep(FieldOf(s'), |front|) + Rep(FieldOf(s'), 1) == Rep(FieldOf(s'), |t|);
    }
  }

  lemma LeadsByOne(s: State, b: Byte, s': State, at: bool)
    requires UrlChar(s, b) == s' && at == (s' == ServerWithAt)
    ensures Leads(s, [b], s', Rep(FieldOf(s'), 1), at)
  {
    assert UrlRun(s, [b], 0) == s && UrlRun(s, [b], 1) == s';
    assert Marks(s, [b])[0] == FieldOf(s');
  }

  // ---------- The server by itself

  function HostMarksOf(s: HostState, t: seq<Byte>): (m: seq<int>)
    ensures |m| == |t|
  {
    seq(|t|, x requires 0 <= x < |t| => HostFieldOf(HostRun(s, t, 0, x + 1)))
  }

  lemma {:induction false} HostFront(s: HostState, a: seq<Byte>, b: seq<Byte>, i: nat)
    requires i <= |a|
    ensures HostRun(s, a + b, 0, i) == HostRun(s, a, 0, i)
  {
    if i > 0 { HostFront(s, a, b, i - 1); }
  }

  lemma {:induction false} HostBack(s: HostState, a: seq<Byte>, b: seq<Byte>, i: nat)
    requires i <= |b|
    ensures HostRun(s, a + b, 0, |a| + i) == HostRun(HostRun(s, a, 0, |a|), b, 0, i)
  {
    if i == 0 {
      HostFront(s, a, b, |a|);
    } else {
      HostBack(s, a, b, i - 1);
      assert (a + b)[|a| + i - 1] == b[i - 1];
    }
  }

  /** Reading `t` leads from `s` to `s'`, and `m` says which part its bytes are of. */
  ghost predicate HostLeads(s: HostState, t: seq<Byte>, s': HostState, m: seq<int>) {
    HostRun(s, t, 0, |t|) == s' && HostMarksOf(s, t) == m
  }

  lemma HostMarkAt(s: HostState, a: seq<Byte>, s1: HostState, b: seq<Byte>, x: nat)
    requires s1 == HostRun(s, a, 0, |a|) && x < |a| + |b|
    ensures HostMarksOf(s, a + b)[x] == if x < |a| then HostMarksOf(s, a)[x] else HostMarksOf(s1, b)[x - |a|]
  {
    if x < |a| {
      HostFront(s, a, b, x + 1);
    } else {
      HostBack(s, a, b, x + 1 - |a|);
    }
  }

  lemma HostMarksConcat(s: HostState, a: seq<Byte>, s1: HostState, b: seq<Byte>)
    requires s1 == HostRun(s, a, 0, |a|)
    ensures HostMarksOf(s, a + b) == HostMarksOf(s, a) + HostMarksOf(s1, b)
  {
    forall x | 0 <= x < |a + b| ensures HostMarksOf(s, a + b)[x] == (HostMarksOf(s, a) + HostMarksOf(s1, b))[x] {
      HostMarkAt(s, a, s1, b, x);
    }
  }

  lemma HostLeadsOn(s: HostState, a: seq<Byte>, s1: HostState, m1: seq<int>, b: seq<Byte>, s2: HostState, m2: seq<int>)
    requires HostLeads(s, a, s1, m1) && HostLeads(s1, b, s2, m2)
    ensures HostLeads(s, a + b, s2, m1 + m2)
  {
    HostMarksConcat(s, a, s1, b);
    HostBack(s, a, b, |b|);
  }

  lemma HostLeadsByOne(s: HostState, b: Byte, s': HostState)
    requires HostChar(s, b) == s'
    ensures HostLeads(s, [b], s', Rep(HostFieldOf(s'), 1))
  {
    assert HostRun(s, [b], 0, 0) == s && HostRun(s, [b], 0, 1) == s';
    assert HostMarksOf(s, [b])[0] == HostFieldOf(s');
  }

  lemma {:induction false} HostLeadsSteadily(s: HostState, t: seq<Byte>, s': HostState)
    requires t != [] && HostChar(s, t[0]) == s' && forall i :: 0 < i < |t| ==> HostChar(s', t[i]) == s'
    ensures HostLeads(s, t, s', Rep(HostFieldOf(s'), |t|))
    decreases |t|
  {
    if |t| == 1 {
      HostLeadsByOne(s, t[0], s');
      assert t == [t[0]];
    } else {
      var front, b := t[..|t| - 1], t[|t| - 1];
      assert t == front + [b];
      HostLeadsSteadily(s, front, s');
      HostLeadsByOne(s', b, s');
      HostLeadsOn(s, front, s', Rep(HostFieldOf(s'), |front|), [b], s', Rep(HostFieldOf(s'), 1));
      assert Rep(HostFieldOf(s'), |front|) + Rep(HostFieldOf(s'), 1) == Rep(HostFieldOf(s'), |t|);
    }
  }

  /** The server in its place. */
  lemma {:induction false} HostInPlace(s: HostState, before: seq<Byte>, t: seq<Byte>, after: seq<Byte>, i: nat)
    requires i <= |t|
    ensures HostRun(s, before + t + after, |before|, |before| + i) == HostRun(s, t, 0, i)
  {
    if i > 0 {
      HostInPlace(s, before, t, after, i - 1);
      assert (before + t + after)[|before| + i - 1] == t[i - 1];
    }
  }

  lemma HostMarksInPlace(s: HostState, before: seq<Byte>, t: seq<Byte>, after: seq<Byte>)
    requires t != []
    ensures HostMarks(s, before + t + after, Field(|before|, |t|)) ==
            Rep(-1, |before|) + HostMarksOf(s, t) + Rep(-1, |after|)
  {
    var buf, f := before + t + after, Field(|before|, |t|);
    var m := Rep(-1, |before|) + HostMarksOf(s, t) + Rep(-1, |after|);
    forall x | 0 <= x < |buf| ensures HostMarks(s, buf, f)[x] == m[x] {
      if Covers(f, x) {
        HostInPlace(s, before, t, after, x + 1 - |before|);
        assert m[x] == HostMarksOf(s, t)[x - |before|];
      }
    }
  }

  // ---------- The parts

  predicate Alphas(t: seq<Byte>) {
    forall i :: 0 <= i < |t| ==> 'A' <= t[i] as char <= 'Z' || 'a' <= t[i] as char <= 'z'
  }

  predicate AlphaNum(b: Byte) {
    'A' <= b as char <= 'Z' || 'a' <= b as char <= 'z' || '0' <= b as char <= '9'
  }

  /** The unreserved characters and sub-delims of section 2 of RFC 3986, '%' and ':'. */
  predicate InUserinfo(b: Byte) { AlphaNum(b) || b as char in "-._~!$&'()*+,;=%:" }

  predicate InName(b: Byte) { AlphaNum(b) || b as char == '-' || b as char == '.' }

  predicate InAddress(b: Byte) {
    '0' <= b as char <= '9' || 'a' <= b as char <= 'f' || 'A' <= b as char <= 'F' || b as char == ':' ||
      b as char == '.'
  }

  /** What can be seen, but for '#' and '?'. */
  predicate InPath(b: Byte) { '!' <= b as char <= '~' && b as char != '#' && b as char != '?' }

  predicate InQuery(b: Byte) { InPath(b) || b as char == '?' }

  /** The part before the path; user information and port are empty where there are none.  `v6` says that the host
      is an address in brackets. */
  datatype Server = Server(userinfo: seq<Byte>, v6: bool, host: seq<Byte>, port: seq<Byte>)

  predicate GoodServer(s: Server) {
    && (forall i :: 0 <= i < |s.userinfo| ==> InUserinfo(s.userinfo[i]))
    && s.host != [] && (forall i :: 0 <= i < |s.host| ==> if s.v6 then InAddress(s.host[i]) else InName(s.host[i]))
    && D.Digits(s.port) && D.Value(s.port) <= 65535
  }

  function UserText(s: Server): seq<Byte> { if s.userinfo == [] then [] else s.userinfo + [64] }

  function HostText(s: Server): seq<Byte> { if s.v6 then [91] + s.host + [93] else s.host }

  function PortText(s: Server): seq<Byte> { if s.port == [] then [] else [58] + s.port }

  function ServerText(s: Server): seq<Byte> { UserText(s) + HostText(s) + PortText(s) }

  // ---------- The server is read

  function UserMarks(s: Server): seq<int> { if s.userinfo == [] then [] else Rep(0, |s.userinfo|) + Rep(-1, 1) }

  function NameMarks(s: Server): seq<int> {
    if s.v6 then Rep(-1, 1) + Rep(1, |s.host|) + Rep(-1, 1) else Rep(1, |s.host|)
  }

  function PortMarks(s: Server): seq<int> { if s.port == [] then [] else Rep(-1, 1) + Rep(2, |s.port|) }

  lemma ReadUser(s: Server)
    requires GoodServer(s)
    ensures HostLeads(HostStarted(s.userinfo != []), UserText(s), HostStart, UserMarks(s))
  {
    if s.userinfo != [] {
      forall i | 0 <= i < |s.userinfo| ensures IsUserinfoChar(s.userinfo[i]) { assert InUserinfo(s.userinfo[i]); }
      HostLeadsSteadily(UserinfoStart, s.userinfo, Userinfo);
      HostLeadsByOne(Userinfo, 64, HostStart);
      HostLeadsOn(UserinfoStart, s.userinfo, Userinfo, Rep(0, |s.userinfo|), [64], HostStart, Rep(-1, 1));
    }
  }

  lemma ReadName(s: Server)
    requires GoodServer(s)
    ensures HostLeads(HostStart, HostText(s), if s.v6 then V6End else Host, NameMarks(s))
  {
    if s.v6 {
      forall i | 0 <= i < |s.host| ensures HostChar(V6, s.host[i]) == V6 && HostChar(V6Start, s.host[i]) == V6 {
        assert InAddress(s.host[i]);
      }
      HostLeadsByOne(HostStart, 91, V6Start);
      HostLeadsSteadily(V6Start, s.host, V6);
      HostLeadsByOne(V6, 93, V6End);
      HostLeadsOn(HostStart, [91], V6Start, Rep(-1, 1), s.host, V6, Rep(1, |s.host|));
      HostLeadsOn(HostStart, [91] + s.host, V6, Rep(-1, 1) + Rep(1, |s.host|), [93], V6End, Rep(-1, 1));
    } else {
      forall i | 0 <= i < |s.host| ensures IsHostChar(s.host[i]) { assert InName(s.host[i]); }
      HostLeadsSteadily(HostStart, s.host, Host);
    }
  }

  lemma ReadPort(s: Server, h: HostState)
    requires GoodServer(s) && (h == Host || h == V6End)
    ensures HostLeads(h, PortText(s), if s.port == [] then h else Port, PortMarks(s))
  {
    if s.port != [] {
      HostLeadsByOne(h, 58, PortStart);
      HostLeadsSteadily(PortStart, s.port, Port);
      HostLeadsOn(h, [58], PortStart, Rep(-1, 1), s.port, Port, Rep(2, |s.port|));
    }
  }

  lemma ReadServer(s: Server) returns (h: HostState)
    requires GoodServer(s)
    ensures HostEnds(h)
    ensures HostLeads(HostStarted(s.userinfo != []), ServerText(s), h, UserMarks(s) + NameMarks(s) + PortMarks(s))
  {
    var start, host := HostStarted(s.userinfo != []), if s.v6 then V6End else Host;
    h := if s.port == [] then host else Port;
    ReadUser(s);
    ReadName(s);
    ReadPort(s, host);
    HostLeadsOn(start, UserText(s), HostStart, UserMarks(s), HostText(s), host, NameMarks(s));
    HostLeadsOn(start, UserText(s) + HostText(s), host, UserMarks(s) + NameMarks(s), PortText(s), h, PortMarks(s));
  }

  // ---------- The first pass over the server

  predicate InServer(b: Byte) { InUserinfo(b) || b == 91 || b == 93 }

  lemma PassServerBytes(s: State, t: seq<Byte>)
    requires t != [] && (s == ServerStart || s == ServerWithAt) && forall i :: 0 <= i < |t| ==> InServer(t[i])
    ensures Leads(s, t, State.Server, Rep(1, |t|), false)
  {
    forall i | 0 <= i < |t| ensures UrlChar(s, t[i]) == State.Server && UrlChar(State.Server, t[i]) == State.Server {
      assert InServer(t[i]);
    }
    LeadsSteadily(s, t, State.Server);
  }

  lemma HostAndPortBytes(s: Server)
    requires GoodServer(s)
    ensures var t := HostText(s) + PortText(s); t != [] && forall i :: 0 <= i < |t| ==> InServer(t[i])
  {
    var a, b := HostText(s), PortText(s);
    forall i | 0 <= i < |a| ensures InServer(a[i]) {
      if s.v6 && 0 < i < |a| - 1 { assert a[i] == s.host[i - 1] && InAddress(s.host[i - 1]); }
      if !s.v6 { assert InName(s.host[i]); }
    }
    forall i | 0 <= i < |b| ensures InServer(b[i]) {
      if i > 0 { assert b[i] == s.port[i - 1] && D.IsNum(s.port[i - 1]); }
    }
  }

  lemma RepConcat(k: int, a: nat, b: nat)
    ensures Rep(k, a) + Rep(k, b) == Rep(k, a + b)
  {}

  lemma PassUser(s: Server)
    requires GoodServer(s) && s.userinfo != []
    ensures Leads(ServerStart, UserText(s), ServerWithAt, Rep(1, |UserText(s)|), true)
  {
    var u := s.userinfo;
    forall i | 0 <= i < |u| ensures InServer(u[i]) { assert InUserinfo(u[i]); }
    PassServerBytes(ServerStart, u);
    LeadsByOne(State.Server, 64, ServerWithAt, true);
    LeadsOn(ServerStart, u, State.Server, Rep(1, |u|), false, [64], ServerWithAt, Rep(1, 1), true);
    RepConcat(1, |u|, 1);
  }

  lemma PassServer(s: Server)
    requires GoodServer(s)
    ensures Leads(ServerStart, ServerText(s), State.Server, Rep(1, |ServerText(s)|), s.userinfo != [])
  {
    var user, rest := UserText(s), HostText(s) + PortText(s);
    HostAndPortBytes(s);
    UserFirst(s, rest);
    if s.userinfo == [] {
      PassServerBytes(ServerStart, rest);
    } else {
      PassUser(s);
      PassServerBytes(ServerWithAt, rest);
      LeadsOn(ServerStart, user, ServerWithAt, Rep(1, |user|), true, rest, State.Server, Rep(1, |rest|), false);
      RepConcat(1, |user|, |rest|);
    }
  }

  lemma UserFirst(s: Server, rest: seq<Byte>)
    requires rest == HostText(s) + PortText(s)
    ensures ServerText(s) == UserText(s) + rest && (s.userinfo == [] ==> ServerText(s) == rest)
  {}

  // ---------- Path, query and fragment

  /** What comes after the server; there may be a '?' or a '#' with nothing behind it. */
  datatype Tail = Tail(path: seq<Byte>, hasQuery: bool, query: seq<Byte>, hasFragment: bool, fragment: seq<Byte>)

  predicate GoodTail(t: Tail) {
    && (t.path != [] ==> (t.path[0] == 47 || t.path[0] == 42) && forall i :: 0 < i < |t.path| ==> InPath(t.path[i]))
    && (!t.hasQuery ==> t.query == []) && (forall i :: 0 <= i < |t.query| ==> InQuery(t.query[i]))
    && (!t.hasFragment ==> t.fragment == []) &&
      (forall i :: 0 <= i < |t.fragment| ==> InQuery(t.fragment[i]) || t.fragment[i] == 35)
    && (t.fragment != [] ==> t.fragment[0] != 35) && (t.hasFragment ==> t.path != [] || t.hasQuery)
  }

  /** After a server a path begins with '/'; by itself it may be '*'. */
  predicate AfterServer(t: Tail) { t.path != [] ==> t.path[0] == 47 }

  function QueryText(t: Tail): seq<Byte> { if t.hasQuery then [63] + t.query else [] }

  function FragmentText(t: Tail): seq<Byte> { if t.hasFragment then [35] + t.fragment else [] }

  function TailText(t: Tail): seq<Byte> { t.path + QueryText(t) + FragmentText(t) }

  function QueryMarks(t: Tail): seq<int> { if t.hasQuery then Rep(-1, 1) + Rep(3, |t.query|) else [] }

  function FragmentMarks(t: Tail): seq<int> { if t.hasFragment then Rep(-1, 1) + Rep(4, |t.fragment|) else [] }

  function TailMarks(t: Tail): seq<int> { Rep(2, |t.path|) + QueryMarks(t) + FragmentMarks(t) }

  lemma PassPath(s: State, t: Tail)
    requires GoodTail(t) && (s == Spaces || (s == State.Server && AfterServer(t)))
    ensures Leads(s, t.path, if t.path == [] then s else Path, Rep(2, |t.path|), false)
  {
    if t.path == [] {
      LeadsNowhere(s);
      assert Rep(2, 0) == [];
    } else {
      forall i | 0 < i < |t.path| ensures UrlChar(Path, t.path[i]) == Path { assert InPath(t.path[i]); }
      LeadsSteadily(s, t.path, Path);
    }
  }

  function AfterQuery(s: State, t: Tail): State {
    if !t.hasQuery then s else if t.query == [] then QueryStart else Query
  }

  lemma PassQuery(s: State, t: Tail)
    requires GoodTail(t) && (s == Path || s == State.Server || !t.hasQuery)
    ensures Leads(s, QueryText(t), AfterQuery(s, t), QueryMarks(t), false)
  {
    if !t.hasQuery {
      LeadsNowhere(s);
    } else {
      LeadsByOne(s, 63, QueryStart, false);
      if t.query == [] {
        assert [63] + t.query == [63] && Rep(-1, 1) + Rep(3, 0) == Rep(-1, 1);
      } else {
        forall i | 0 <= i < |t.query| ensures UrlChar(QueryStart, t.query[i]) == Query &&
          UrlChar(Query, t.query[i]) == Query {
          assert InQuery(t.query[i]);
        }
        LeadsSteadily(QueryStart, t.query, Query);
        LeadsOn(s, [63], QueryStart, Rep(-1, 1), false, t.query, Query, Rep(3, |t.query|), false);
      }
    }
  }

  lemma PassFragment(s: State, t: Tail) returns (s': State)
    requires GoodTail(t) && s != Dead && (s == Path || s == QueryStart || s == Query || !t.hasFragment)
    ensures s' != Dead && Leads(s, FragmentText(t), s', FragmentMarks(t), false)
    ensures s' == (if !t.hasFragment then s else if t.fragment == [] then FragmentStart else Fragment)
  {
    if !t.hasFragment {
      s' := s;
      LeadsNowhere(s);
    } else {
      LeadsByOne(s, 35, FragmentStart, false);
      if t.fragment == [] {
        s' := FragmentStart;
        assert [35] + t.fragment == [35] && Rep(-1, 1) + Rep(4, 0) == Rep(-1, 1);
      } else {
        s' := Fragment;
        forall i | 0 <= i < |t.fragment| ensures UrlChar(Fragment, t.fragment[i]) == Fragment {
          assert InQuery(t.fragment[i]) || t.fragment[i] == 35;
        }
        LeadsSteadily(FragmentStart, t.fragment, Fragment);
        LeadsOn(s, [35], FragmentStart, Rep(-1, 1), false, t.fragment, Fragment, Rep(4, |t.fragment|), false);
      }
    }
  }

  lemma PassTail(s: State, t: Tail) returns (s': State)
    requires GoodTail(t) && ((s == State.Server && AfterServer(t)) || (s == Spaces && t.path != []))
    ensures s' != Dead && Leads(s, TailText(t), s', TailMarks(t), false)
    ensures !s'.Spaces? && !s'.Schema? && !s'.SchemaSlash? && !s'.SchemaSlashSlash? && !s'.ServerStart?
  {
    var s1 := if t.path == [] then s else Path;
    var s2 := AfterQuery(s1, t);
    PassPath(s, t);
    PassQuery(s1, t);
    s' := PassFragment(s2, t);
    LeadsOn(s, t.path, s1, Rep(2, |t.path|), false, QueryText(t), s2, QueryMarks(t), false);
    LeadsOn(s, t.path + QueryText(t), s2, Rep(2, |t.path|) + QueryMarks(t), false, FragmentText(t), s',
      FragmentMarks(t),
      false);
  }

  // ---------- Where the parts lie

  /** A part that begins at `off`; an empty one is no field. */
  function At(off: nat, t: seq<Byte>): Field { if t == [] then Unset else Field(off, |t|) }

  lemma NoStretch(m: seq<int>, k: int)
    requires k !in m
    ensures Stretch(m, k) == Unset
  {
    assert m == m + Rep(k, 0) + [];
    StretchBetween(m, k, 0, [], m);
  }

  lemma PathStretch(pre: seq<int>, t: Tail, m: seq<int>)
    requires m == pre + TailMarks(t) && 2 !in pre
    ensures Stretch(m, 2) == At(|pre|, t.path)
  {
    var rest := QueryMarks(t) + FragmentMarks(t);
    assert m == pre + Rep(2, |t.path|) + rest;
    StretchBetween(pre, 2, |t.path|, rest, m);
  }

  lemma QueryStretch(pre: seq<int>, t: Tail, m: seq<int>)
    requires m == pre + TailMarks(t) && GoodTail(t) && 3 !in pre
    ensures Stretch(m, 3) == At(|pre| + |t.path| + 1, t.query)
  {
    var a := pre + Rep(2, |t.path|) + Rep(-1, 1);
    if t.hasQuery {
      assert m == a + Rep(3, |t.query|) + FragmentMarks(t);
      StretchBetween(a, 3, |t.query|, FragmentMarks(t), m);
    } else {
      NoStretch(m, 3);
    }
  }

  lemma FragmentStretch(pre: seq<int>, t: Tail, m: seq<int>)
    requires m == pre + TailMarks(t) && GoodTail(t) && 4 !in pre
    ensures Stretch(m, 4) == At(|pre| + |t.path| + |QueryText(t)| + 1, t.fragment)
  {
    var a := pre + Rep(2, |t.path|) + QueryMarks(t) + Rep(-1, 1);
    if t.hasFragment {
      assert m == a + Rep(4, |t.fragment|) + [];
      StretchBetween(a, 4, |t.fragment|, [], m);
    } else {
      NoStretch(m, 4);
    }
  }

  lemma TailStretches(pre: seq<int>, t: Tail, m: seq<int>)
    requires m == pre + TailMarks(t) && GoodTail(t) && 2 !in pre && 3 !in pre && 4 !in pre
    ensures Stretch(m, 2) == At(|pre|, t.path)
    ensures Stretch(m, 3) == At(|pre| + |t.path| + 1, t.query)
    ensures Stretch(m, 4) == At(|pre| + |t.path| + |QueryText(t)| + 1, t.fragment)
  {
    PathStretch(pre, t, m);
    QueryStretch(pre, t, m);
    FragmentStretch(pre, t, m);
  }

  lemma UserStretch(pre: seq<int>, s: Server, post: seq<int>, m: seq<int>)
    requires m == pre + (UserMarks(s) + NameMarks(s) + PortMarks(s)) + post && 0 !in pre && 0 !in post
    ensures Stretch(m, 0) == At(|pre|, s.userinfo)
  {
    var n := NameMarks(s) + PortMarks(s) + post;
    if s.userinfo == [] {
      NoStretch(m, 0);
    } else {
      assert m == pre + Rep(0, |s.userinfo|) + (Rep(-1, 1) + n);
      StretchBetween(pre, 0, |s.userinfo|, Rep(-1, 1) + n, m);
    }
  }

  lemma NameStretch(pre: seq<int>, s: Server, post: seq<int>, m: seq<int>)
    requires m == pre + (UserMarks(s) + NameMarks(s) + PortMarks(s)) + post && 1 !in pre && 1 !in post && s.host != []
    ensures Stretch(m, 1) == Field(|pre| + |UserText(s)| + (if s.v6 then 1 else 0), |s.host|)
  {
    var u, p := UserMarks(s), PortMarks(s) + post;
    if s.v6 {
      assert m == (pre + u + Rep(-1, 1)) + Rep(1, |s.host|) + (Rep(-1, 1) + p);
      StretchBetween(pre + u + Rep(-1, 1), 1, |s.host|, Rep(-1, 1) + p, m);
    } else {
      assert m == (pre + u) + Rep(1, |s.host|) + p;
      StretchBetween(pre + u, 1, |s.host|, p, m);
    }
  }

  lemma PortStretch(pre: seq<int>, s: Server, post: seq<int>, m: seq<int>)
    requires m == pre + (UserMarks(s) + NameMarks(s) + PortMarks(s)) + post && 2 !in pre && 2 !in post
    ensures Stretch(m, 2) == At(|pre| + |UserText(s)| + |HostText(s)| + 1, s.port)
  {
    var u := pre + UserMarks(s) + NameMarks(s);
    if s.port == [] {
      NoStretch(m, 2);
    } else {
      assert m == (u + Rep(-1, 1)) + Rep(2, |s.port|) + post;
      StretchBetween(u + Rep(-1, 1), 2, |s.port|, post, m);
    }
  }

  // ---------- Whole URLs

  /** The fields of a server that begins at `off`, with a schema and a tail. */
  function Expected(schema: seq<Byte>, off: nat, s: Server, t: Tail): Url {
    var q := off + |ServerText(s)|;
    Url(At(0, schema), At(off, s.userinfo), Field(off + |UserText(s)| + (if s.v6 then 1 else 0), |s.host|),
        At(off + |UserText(s)| + |HostText(s)| + 1, s.port), At(q, t.path), At(q + |t.path| + 1, t.query),
        At(q + |t.path| + |QueryText(t)| + 1, t.fragment), 0)
  }

  /** What the first pass makes of a URL: the marks before the server, those of the server and those behind it. */
  ghost predicate Passed(connect: bool, buf: seq<Byte>, m0: seq<int>, s: Server, m1: seq<int>) {
    && UrlRun(Started(connect), buf, |buf|) != Dead
    && Marks(Started(connect), buf) == m0 + Rep(1, |ServerText(s)|) + m1 && 1 !in m0 && 1 !in m1
    && (SawAt(Started(connect), buf, |buf|) <==> s.userinfo != [])
  }

  function MarksOfServer(s: Server): seq<int> { UserMarks(s) + NameMarks(s) + PortMarks(s) }

  lemma ServerPlace(connect: bool, buf: seq<Byte>, m0: seq<int>, s: Server, m1: seq<int>)
    requires GoodServer(s) && Passed(connect, buf, m0, s, m1)
    ensures ServerText(s) != [] && ServerPart(buf, connect) == Field(|m0|, |ServerText(s)|)
    ensures HostStartOf(buf, connect) == HostStarted(s.userinfo != [])
  {
    HostAndPortBytes(s);
    StretchBetween(m0, 1, |ServerText(s)|, m1, Marks(Started(connect), buf));
  }

  /** The server in its place among the other parts. */
  lemma ServerFound(start: HostState, before: seq<Byte>, s: Server, after: seq<Byte>, buf: seq<Byte>, server: Field)
    requires GoodServer(s) && buf == before + ServerText(s) + after && start == HostStarted(s.userinfo != [])
    requires ServerText(s) != [] && server == Field(|before|, |ServerText(s)|)
    ensures EndsWell(start, buf, server)
    ensures HostMarks(start, buf, server) == Rep(-1, |before|) + MarksOfServer(s) + Rep(-1, |after|)
  {
    var t := ServerText(s);
    var h := ReadServer(s);
    HostMarksInPlace(start, before, t, after);
    HostInPlace(start, before, t, after, |t|);
  }

  lemma PortInPlace(before: seq<Byte>, s: Server, after: seq<Byte>, buf: seq<Byte>, f: Field)
    requires GoodServer(s) && buf == before + ServerText(s) + after
    requires f == At(|before| + |UserText(s)| + |HostText(s)| + 1, s.port)
    ensures PortFits(buf, f)
  {
    if s.port != [] {
      assert buf == (before + UserText(s) + HostText(s) + [58]) + s.port + after;
      assert Slice(buf, f) == s.port;
      forall x | f.off <= x < f.off + f.len ensures D.IsNum(buf[x]) { assert buf[x] == s.port[x - f.off]; }
    }
  }

  lemma TailIsShort(t: Tail)
    ensures |TailMarks(t)| == |TailText(t)| && 0 !in TailMarks(t) && 1 !in TailMarks(t)
  {}

  lemma PassSchema(schema: seq<Byte>)
    requires schema != [] && Alphas(schema)
    ensures Leads(Spaces, schema + [58, 47, 47], ServerStart, Rep(0, |schema|) + Rep(-1, 3), false)
  {
    LeadsSteadily(Spaces, schema, Schema);
    LeadsByOne(Schema, 58, SchemaSlash, false);
    LeadsByOne(SchemaSlash, 47, SchemaSlashSlash, false);
    LeadsByOne(SchemaSlashSlash, 47, ServerStart, false);
    LeadsOn(Schema, [58], SchemaSlash, Rep(-1, 1), false, [47], SchemaSlashSlash, Rep(-1, 1), false);
    LeadsOn(Schema, [58] + [47], SchemaSlashSlash, Rep(-1, 1) + Rep(-1, 1), false, [47], ServerStart, Rep(-1, 1),
      false);
    assert [58] + [47] + [47] == [58, 47, 47] && Rep(-1, 1) + Rep(-1, 1) + Rep(-1, 1) == Rep(-1, 3);
    LeadsOn(Spaces, schema, Schema, Rep(0, |schema|), false, [58, 47, 47], ServerStart, Rep(-1, 3), false);
  }

  /** The parts of the server, and the port fits. */
  lemma HostFields(before: seq<Byte>, s: Server, after: seq<Byte>, buf: seq<Byte>, hm: seq<int>, u: Url)
    requires GoodServer(s) && buf == before + ServerText(s) + after
    requires hm == Rep(-1, |before|) + MarksOfServer(s) + Rep(-1, |after|)
    requires u.userinfo == Stretch(hm, 0) && u.host == Stretch(hm, 1) && u.port == Stretch(hm, 2)
    ensures u.userinfo == At(|before|, s.userinfo)
    ensures u.host == Field(|before| + |UserText(s)| + (if s.v6 then 1 else 0), |s.host|)
    ensures u.port == At(|before| + |UserText(s)| + |HostText(s)| + 1, s.port) && PortFits(buf, u.port)
  {
    UserStretch(Rep(-1, |before|), s, Rep(-1, |after|), hm);
    NameStretch(Rep(-1, |before|), s, Rep(-1, |after|), hm);
    PortStretch(Rep(-1, |before|), s, Rep(-1, |after|), hm);
    PortInPlace(before, s, after, buf, u.port);
  }

  /** The parts of a server that begins at `n`. */
  ghost predicate ServerTold(buf: seq<Byte>, connect: bool, n: nat, s: Server) {
    var u := UrlOf(buf, connect);
    && ServerEnds(buf, connect) && ServerPart(buf, connect).Field?
    && u.userinfo == At(n, s.userinfo) && u.host == Field(n + |UserText(s)| + (if s.v6 then 1 else 0), |s.host|)
    && u.port == At(n + |UserText(s)| + |HostText(s)| + 1, s.port) && PortFits(buf, u.port)
  }

  /** What is left once the first pass is known. */
  lemma ServerSplit(before: seq<Byte>, m0: seq<int>, s: Server, after: seq<Byte>, m1: seq<int>, buf: seq<Byte>,
                    connect: bool)
    requires GoodServer(s) && buf == before + ServerText(s) + after && |m0| == |before|
    requires Passed(connect, buf, m0, s, m1)
    ensures ServerTold(buf, connect, |before|, s)
  {
    ServerPlace(connect, buf, m0, s, m1);
    var start, server := HostStartOf(buf, connect), ServerPart(buf, connect);
    ServerFound(start, before, s, after, buf, server);
    HostFields(before, s, after, buf, HostMarks(start, buf, server), UrlOf(buf, connect));
  }

  lemma PassAbsolute(schema: seq<Byte>, s: Server, t: Tail, buf: seq<Byte>)
    requires schema != [] && Alphas(schema) && GoodServer(s) && GoodTail(t) && AfterServer(t)
    requires buf == schema + [58, 47, 47] + ServerText(s) + TailText(t)
    ensures Passed(false, buf, Rep(0, |schema|) + Rep(-1, 3), s, TailMarks(t))
  {
    var before, m0, ms := schema + [58, 47, 47], Rep(0, |schema|) + Rep(-1, 3), Rep(1, |ServerText(s)|);
    PassSchema(schema);
    PassServer(s);
    LeadsOn(Spaces, before, ServerStart, m0, false, ServerText(s), State.Server, ms, s.userinfo != []);
    var s' := PassTail(State.Server, t);
    LeadsOn(Spaces, before + ServerText(s), State.Server, m0 + ms, s.userinfo != [], TailText(t), s', TailMarks(t),
      false);
    TailIsShort(t);
  }

  lemma SchemaField(n: nat, m1: seq<int>, m: seq<int>)
    requires n > 0 && m == Rep(0, n) + m1 && 0 !in m1
    ensures Stretch(m, 0) == Field(0, n)
  {
    assert m == [] + Rep(0, n) + m1;
    StretchBetween([], 0, n, m1, m);
  }

  lemma NoTailMarks(n: nat, k: nat)
    ensures var m := Rep(0, n) + Rep(-1, 3) + Rep(1, k); 2 !in m && 3 !in m && 4 !in m && |m| == n + 3 + k
  {}

  lemma NoSchemaMarks(k: nat, t: Tail)
    ensures 0 !in Rep(-1, 3) + Rep(1, k) + TailMarks(t)
  {
    TailIsShort(t);
  }

  lemma Regrouped(a: seq<int>, b: seq<int>, c: seq<int>, d: seq<int>)
    ensures a + b + c + d == a + (b + c + d)
  {}

  lemma AbsoluteFields(schema: seq<Byte>, s: Server, t: Tail, m: seq<int>)
    requires m == Rep(0, |schema|) + Rep(-1, 3) + Rep(1, |ServerText(s)|) + TailMarks(t) && GoodTail(t) && schema != []
    ensures var u := Expected(schema, |schema| + 3, s, t);
      Stretch(m, 0) == u.schema && Stretch(m, 2) == u.path && Stretch(m, 3) == u.query && Stretch(m, 4) == u.fragment
  {
    AbsoluteTail(|schema|, |ServerText(s)|, t, m);
    NoSchemaMarks(|ServerText(s)|, t);
    Regrouped(Rep(0, |schema|), Rep(-1, 3), Rep(1, |ServerText(s)|), TailMarks(t));
    SchemaField(|schema|, Rep(-1, 3) + Rep(1, |ServerText(s)|) + TailMarks(t), m);
  }

  lemma AbsoluteTail(n: nat, k: nat, t: Tail, m: seq<int>)
    requires m == Rep(0, n) + Rep(-1, 3) + Rep(1, k) + TailMarks(t) && GoodTail(t)
    ensures Stretch(m, 2) == At(n + 3 + k, t.path) && Stretch(m, 3) == At(n + 3 + k + |t.path| + 1, t.query)
    ensures Stretch(m, 4) == At(n + 3 + k + |t.path| + |QueryText(t)| + 1, t.fragment)
  {
    NoTailMarks(n, k);
    TailStretches(Rep(0, n) + Rep(-1, 3) + Rep(1, k), t, m);
  }

  /** The fields of both passes together. */
  lemma Together(buf: seq<Byte>, connect: bool, u: Url)
    requires buf != [] && UrlRun(Started(connect), buf, |buf|) != Dead
    requires ServerPart(buf, connect).Field? && ServerEnds(buf, connect)
    requires var m, v := Marks(Started(connect), buf), UrlOf(buf, connect);
      && Stretch(m, 0) == u.schema && Stretch(m, 2) == u.path && Stretch(m, 3) == u.query && Stretch(m, 4) == u.fragment
      && v.userinfo == u.userinfo && v.host == u.host && v.port == u.port && PortFits(buf, v.port)
    requires u.portValue == 0 && (connect ==> OnlyHostAndPort(u))
    ensures Accepted(buf, connect) && UrlOf(buf, connect) == u
  {}

  lemma AbsoluteServer(schema: seq<Byte>, before: seq<Byte>, s: Server, t: Tail, buf: seq<Byte>)
    requires GoodServer(s) && buf == before + ServerText(s) + TailText(t) && |before| == |schema| + 3
    requires Passed(false, buf, Rep(0, |schema|) + Rep(-1, 3), s, TailMarks(t))
    ensures ServerEnds(buf, false) && ServerPart(buf, false).Field? && PortFits(buf, UrlOf(buf, false).port)
    ensures var u, v := Expected(schema, |schema| + 3, s, t), UrlOf(buf, false);
      v.userinfo == u.userinfo && v.host == u.host && v.port == u.port
  {
    ServerSplit(before, Rep(0, |schema|) + Rep(-1, 3), s, TailText(t), TailMarks(t), buf, false);
  }

  /** A URL with a schema and a server. */
  lemma AbsoluteUrl(schema: seq<Byte>, s: Server, t: Tail, buf: seq<Byte>)
    requires schema != [] && Alphas(schema) && GoodServer(s) && GoodTail(t) && AfterServer(t)
    requires buf == schema + [58, 47, 47] + ServerText(s) + TailText(t)
    ensures Accepted(buf, false) && UrlOf(buf, false) == Expected(schema, |schema| + 3, s, t)
  {
    PassAbsolute(schema, s, t, buf);
    AbsoluteFields(schema, s, t, Marks(Spaces, buf));
    AbsoluteServer(schema, schema + [58, 47, 47], s, t, buf);
    Together(buf, false, Expected(schema, |schema| + 3, s, t));
  }

  /** Where the first pass finds no server there are no parts of one. */
  lemma NoServer(buf: seq<Byte>, m: seq<int>)
    requires m == Marks(Spaces, buf) && 1 !in m
    ensures ServerPart(buf, false) == Unset && ServerEnds(buf, false)
    ensures var u := UrlOf(buf, false); u.userinfo == Unset && u.host == Unset && u.port == Unset
  {
    NoStretch(m, 1);
    NoHostMarks(HostStartOf(buf, false), buf);
  }

  lemma NoHostMarks(start: HostState, buf: seq<Byte>)
    ensures var hm := HostMarks(start, buf, Unset); Stretch(hm, 0) == Stretch(hm, 1) == Stretch(hm, 2) == Unset
  {
    var hm := HostMarks(start, buf, Unset);
    NoStretch(hm, 0);
    NoStretch(hm, 1);
    NoStretch(hm, 2);
  }

  lemma OriginFields(t: Tail, m: seq<int>)
    requires m == TailMarks(t) && GoodTail(t)
    ensures Stretch(m, 0) == Unset && Stretch(m, 2) == At(0, t.path) && Stretch(m, 3) == At(|t.path| + 1, t.query)
    ensures Stretch(m, 4) == At(|t.path| + |QueryText(t)| + 1, t.fragment) && 1 !in m
  {
    TailIsShort(t);
    NoStretch(m, 0);
    assert m == [] + TailMarks(t);
    TailStretches([], t, m);
  }

  /** A path, as most requests have it, with nothing before it. */
  lemma OriginUrl(t: Tail, buf: seq<Byte>)
    requires GoodTail(t) && t.path != [] && buf == TailText(t)
    ensures Accepted(buf, false)
    ensures UrlOf(buf, false) == Url(Unset, Unset, Unset, Unset, At(0, t.path), At(|t.path| + 1, t.query),
                                     At(|t.path| + |QueryText(t)| + 1, t.fragment), 0)
  {
    var s' := PassTail(Spaces, t);
    OriginFields(t, Marks(Spaces, buf));
    NoServer(buf, Marks(Spaces, buf));
  }

  lemma PassConnect(s: Server, buf: seq<Byte>, m: seq<int>)
    requires GoodServer(s) && s.userinfo == [] && buf == ServerText(s) && m == Marks(ServerStart, buf)
    ensures m == Rep(1, |buf|) && Passed(true, buf, [], s, [])
  {
    PassServer(s);
    assert Rep(1, |buf|) == [] + Rep(1, |buf|) + [];
  }

  lemma ConnectFields(n: nat, m: seq<int>)
    requires m == Rep(1, n)
    ensures Stretch(m, 0) == Stretch(m, 2) == Stretch(m, 3) == Stretch(m, 4) == Unset
  {
    NoStretch(m, 0);
    NoStretch(m, 2);
    NoStretch(m, 3);
    NoStretch(m, 4);
  }

  lemma Surrounded(none: seq<Byte>, t: seq<Byte>)
    requires none == []
    ensures t == none + t + none
  {}

  lemma ConnectServer(s: Server, buf: seq<Byte>, before: seq<Byte>, m0: seq<int>)
    requires GoodServer(s) && s.userinfo == [] && buf == ServerText(s) && before == [] && m0 == []
    ensures UrlRun(ServerStart, buf, |buf|) != Dead && ServerTold(buf, true, 0, s)
  {
    PassConnect(s, buf, Marks(ServerStart, buf));
    Surrounded(before, buf);
    ServerSplit(before, m0, s, before, m0, buf, true);
  }

  /** What CONNECT has: a host and a port. */
  lemma ConnectUrl(s: Server, buf: seq<Byte>)
    requires GoodServer(s) && s.userinfo == [] && s.port != [] && buf == ServerText(s)
    ensures Accepted(buf, true)
    ensures UrlOf(buf, true) == Url(Unset, Unset, Field(if s.v6 then 1 else 0, |s.host|),
                                    Field(|HostText(s)| + 1, |s.port|), Unset, Unset, Unset, 0)
  {
    HostAndPortBytes(s);
    PassConnect(s, buf, Marks(ServerStart, buf));
    ConnectFields(|buf|, Marks(ServerStart, buf));
    ConnectServer(s, buf, [], []);
    Together(buf, true, Url(Unset, Unset, Field(if s.v6 then 1 else 0, |s.host|), Field(|HostText(s)| + 1, |s.port|),
      Unset, Unset, Unset, 0));
  }
}
