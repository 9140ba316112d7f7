/** Splitting a URL into its fields (http_parser_parse_url and http_parse_host in http_parser.c). */
module HttpUrl {
  import opened ByteStream
  import D = Decimal

  // ---------- Characters

  const AT: Byte := 64
  const COLON: Byte := 58
  const SLASH: Byte := 47
  const QUERY: Byte := 63
  const HASH: Byte := 35
  const OPEN: Byte := 91
  const CLOSE: Byte := 93
  const PERCENT: Byte := 37

  predicate IsAlpha(b: Byte) { 65 <= b <= 90 || 97 <= b <= 122 }

  predicate IsHex(b: Byte) { D.IsNum(b) || 65 <= b <= 70 || 97 <= b <= 102 }

  predicate IsHostChar(b: Byte) { IsAlpha(b) || D.IsNum(b) || b == 46 || b == 45 }

  predicate IsUserinfoChar(b: Byte) {
    IsAlpha(b) || D.IsNum(b) || b == 33 || 36 <= b <= 46 || b == COLON || b == 59 || b == 61 || b == 95 || b == 126
  }

  /** The table normal_url_char of the strict parser. */
  predicate IsUrlChar(b: Byte) { 33 <= b <= 126 && b != HASH && b != QUERY }

  predicate IsDelimiter(b: Byte) {
    b == AT || b == COLON || b == SLASH || b == QUERY || b == HASH || b == OPEN || b == CLOSE
  }

  // ---------- The two state machines

  datatype State =
    | Spaces | Schema | SchemaSlash | SchemaSlashSlash | ServerStart | Server | ServerWithAt
    | Path | QueryStart | Query | FragmentStart | Fragment | Dead

  /** parse_url_char */
  function UrlChar(s: State, b: Byte): State {
    if b == 9 || b == 10 || b == 12 || b == 13 || b == 32 then Dead else
    match s
    case Spaces => if b == SLASH || b == 42 then Path else if IsAlpha(b) then Schema else Dead
    case Schema => if IsAlpha(b) then Schema else if b == COLON then SchemaSlash else Dead
    case SchemaSlash => if b == SLASH then SchemaSlashSlash else Dead
    case SchemaSlashSlash => if b == SLASH then ServerStart else Dead
    case ServerStart | Server | ServerWithAt =>
      if s == ServerWithAt && b == AT then Dead
      else if b == SLASH then Path
      else if b == QUERY then QueryStart
      else if b == AT then ServerWithAt
      else if IsUserinfoChar(b) || b == OPEN || b == CLOSE then Server
      else Dead
    case Path => if IsUrlChar(b) then Path else if b == QUERY then QueryStart else if b == HASH then FragmentStart
      else Dead
    case QueryStart | Query =>
      if IsUrlChar(b) || b == QUERY then Query else if b == HASH then FragmentStart else Dead
    case FragmentStart =>
      if IsUrlChar(b) || b == QUERY then Fragment else if b == HASH then FragmentStart else Dead
    case Fragment => if IsUrlChar(b) || b == QUERY || b == HASH then Fragment else Dead
    case Dead => Dead
  }

  datatype HostState =
    | UserinfoStart | Userinfo | HostStart | V6Start | Host | V6 | V6End | ZoneStart | Zone | PortStart | Port
      | HostDead

  predicate IsZoneChar(b: Byte) {
    IsAlpha(b) || D.IsNum(b) || b == PERCENT || b == 45 || b == 46 || b == 95 || b == 126
  }

  /** http_parse_host_char */
  function HostChar(s: HostState, b: Byte): HostState {
    match s
    case UserinfoStart | Userinfo => if b == AT then HostStart else if IsUserinfoChar(b) then Userinfo else HostDead
    case HostStart => if b == OPEN then V6Start else if IsHostChar(b) then Host else HostDead
    case Host => if IsHostChar(b) then Host else if b == COLON then PortStart else HostDead
    case V6End => if b == COLON then PortStart else HostDead
    case V6 =>
      if b == CLOSE then V6End
      else if IsHex(b) || b == COLON || b == 46 then V6
      else if b == PERCENT then ZoneStart
      else HostDead
    case V6Start => if IsHex(b) || b == COLON || b == 46 then V6 else HostDead
    case Zone => if b == CLOSE then V6End else if IsZoneChar(b) then Zone else HostDead
    case ZoneStart => if IsZoneChar(b) then Zone else HostDead
    case PortStart | Port => if D.IsNum(b) then Port else HostDead
    case HostDead => HostDead
  }

  // ---------- Fields

  datatype Field = Unset | Field(off: nat, len: nat)

  predicate Covers(f: Field, x: nat) { f.Field? && f.off <= x < f.off + f.len }

  ghost predicate Covered(fs: seq<Field>, x: nat) { exists k :: 0 <= k < |fs| && Covers(fs[k], x) }

  /** Field `k` is not set, or it is a non-empty stretch between `lo` and `hi`. */
  predicate Within(f: Field, lo: nat, hi: nat) { f.Field? ==> lo <= f.off && 0 < f.len && f.off + f.len <= hi }

  predicate Before(f: Field, g: Field) { f.Field? && g.Field? ==> f.off + f.len <= g.off }

  /** The fields lie in order between `lo` and `hi`, and what lies between them is delimiters. */
  ghost predicate Laid(fs: seq<Field>, buf: seq<Byte>, lo: nat, hi: nat) {
    && hi <= |buf|
    && (forall k :: 0 <= k < |fs| ==> Within(fs[k], lo, hi))
    && (forall j, k :: 0 <= j < k < |fs| ==> Before(fs[j], fs[k]))
    && forall x :: lo <= x < hi ==> Covered(fs, x) || IsDelimiter(buf[x])
  }

  /** The last field that is set is `last`, or none is. */
  ghost predicate Last(fs: seq<Field>, last: int) {
    && -1 <= last < |fs| && (last >= 0 ==> fs[last].Field?)
    && forall k :: last < k < |fs| ==> fs[k].Unset?
  }

  /** A delimiter, or the next byte of the last field, or a new field after the last. */
  lemma LaidDelimiter(fs: seq<Field>, buf: seq<Byte>, lo: nat, i: nat)
    requires Laid(fs, buf, lo, i) && lo <= i < |buf| && IsDelimiter(buf[i])
    ensures Laid(fs, buf, lo, i + 1)
  {
    assert forall k :: 0 <= k < |fs| ==> Within(fs[k], lo, i);
  }

  lemma LaidGrow(fs: seq<Field>, buf: seq<Byte>, lo: nat, i: nat, k: nat)
    requires Laid(fs, buf, lo, i) && lo <= i < |buf| && Last(fs, k) && k < |fs| && fs[k].off + fs[k].len == i
    ensures var fs' := fs[k := Field(fs[k].off, fs[k].len + 1)]; Laid(fs', buf, lo, i + 1) && Last(fs', k)
  {
    var fs' := fs[k := Field(fs[k].off, fs[k].len + 1)];
    forall j | 0 <= j < |fs'| ensures Within(fs'[j], lo, i + 1) { assert Within(fs[j], lo, i); }
    forall j, l | 0 <= j < l < |fs'| ensures Before(fs'[j], fs'[l]) { assert Before(fs[j], fs[l]); }
    forall x | lo <= x < i + 1 ensures Covered(fs', x) || IsDelimiter(buf[x]) {
      if x == i {
        assert Covers(fs'[k], x);
      } else if Covered(fs, x) {
        var j :| 0 <= j < |fs| && Covers(fs[j], x);
        assert Covers(fs'[j], x);
      }
    }
  }

  lemma LaidNew(fs: seq<Field>, buf: seq<Byte>, lo: nat, i: nat, last: int, k: nat)
    requires Laid(fs, buf, lo, i) && lo <= i < |buf| && Last(fs, last) && last < k < |fs|
    ensures var fs' := fs[k := Field(i, 1)]; Laid(fs', buf, lo, i + 1) && Last(fs', k)
  {
    var fs' := fs[k := Field(i, 1)];
    forall j | 0 <= j < |fs'| ensures Within(fs'[j], lo, i + 1) { assert Within(fs[j], lo, i); }
    forall j, l | 0 <= j < l < |fs'| ensures Before(fs'[j], fs'[l]) {
      assert Before(fs[j], fs[l]) && Within(fs[j], lo, i);
    }
    forall x | lo <= x < i + 1 ensures Covered(fs', x) || IsDelimiter(buf[x]) {
      if x == i {
        assert Covers(fs'[k], x);
      } else if Covered(fs, x) {
        var j :| 0 <= j < |fs| && Covers(fs[j], x);
        assert Covers(fs'[j], x);
      }
    }
  }

  /** Position `i` goes to field `k`, or to none, and nothing else changes hands. */
  ghost predicate Adds(fs: seq<Field>, fs': seq<Field>, i: nat, k: int)
    requires |fs'| == |fs|
  {
    forall j, x :: 0 <= j < |fs| && 0 <= x <= i ==> (Covers(fs'[j], x) <==> if x == i then j == k else Covers(fs[j], x))
  }

  // ---------- The first pass

  const SCHEMA := 0
  const HOST := 1
  const PATH := 2
  const QUERY_STRING := 3
  const FRAGMENT := 4

  /** The field a state belongs to, or -1 for a delimiter. */
  function FieldOf(s: State): int {
    match s
    case Schema => SCHEMA
    case Server | ServerWithAt => HOST
    case Path => PATH
    case Query => QUERY_STRING
    case Fragment => FRAGMENT
    case _ => -1
  }

  /** The last field that may have been set when a state is reached. */
  function Reached(s: State): int {
    match s
    case Spaces => -1
    case Schema | SchemaSlash | SchemaSlashSlash | ServerStart => SCHEMA
    case Server | ServerWithAt => HOST
    case Path | QueryStart => PATH
    case Query | FragmentStart => QUERY_STRING
    case Fragment | Dead => FRAGMENT
  }

  ghost predicate Placed(s: State, fs: seq<Field>, last: int, i: nat)
    requires |fs| == 5
  {
    && s != Dead && Last(fs, last) && last <= Reached(s)
    && (FieldOf(s) >= 0 ==> last == FieldOf(s) && fs[last].off + fs[last].len == i)
  }

  lemma NextField(s: State, b: Byte, last: int)
    requires UrlChar(s, b) != Dead && last <= Reached(s) && (FieldOf(s) >= 0 ==> last == FieldOf(s))
    ensures var s' := UrlChar(s, b); var k := FieldOf(s');
      && (k < 0 ==> IsDelimiter(b) && last <= Reached(s'))
      && (k >= 0 ==> last <= k && k <= Reached(s') && (k == last ==> FieldOf(s) == k))
  {}

  /** One character of the first pass. */
  method FirstStep(buf: seq<Byte>, i: nat, s: State, fs: seq<Field>, last: int)
    returns (s': State, fs': seq<Field>, last': int)
    requires i < |buf| && |fs| == 5 && Laid(fs, buf, 0, i) && Placed(s, fs, last, i)
    ensures s' == UrlChar(s, buf[i]) && |fs'| == 5
    ensures s' != Dead ==> Adds(fs, fs', i, FieldOf(s'))
    ensures s' != Dead ==> Laid(fs', buf, 0, i + 1) && Placed(s', fs', last', i + 1)
  {
    s', fs', last' := UrlChar(s, buf[i]), fs, last;
    if s' == Dead {
      return;
    }
    NextField(s, buf[i], last);
    var k := FieldOf(s');
    if k < 0 {
      LaidDelimiter(fs, buf, 0, i);
    } else if k == last {
      LaidGrow(fs, buf, 0, i, k);
      fs' := fs[k := Field(fs[k].off, fs[k].len + 1)];
    } else {
      LaidNew(fs, buf, 0, i, last, k);
      fs', last' := fs[k := Field(i, 1)], k;
    }
  }

  /** The state after the first `i` bytes. */
  function UrlRun(s: State, buf: seq<Byte>, i: nat): State
    requires i <= |buf|
  {
    if i == 0 then s else UrlChar(UrlRun(s, buf, i - 1), buf[i - 1])
  }

  lemma {:induction false} DeadStays(s: State, buf: seq<Byte>, i: nat, j: nat)
    requires i <= j <= |buf| && UrlRun(s, buf, i) == Dead
    ensures UrlRun(s, buf, j) == Dead
    decreases j
  {
    if i < j { DeadStays(s, buf, i, j - 1); }
  }

  /** There is user information before the host. */
  predicate SawAt(start: State, buf: seq<Byte>, i: nat)
    requires i <= |buf|
  {
    i > 0 && (UrlRun(start, buf, i) == ServerWithAt || SawAt(start, buf, i - 1))
  }

  /** The fields hold exactly the positions whose states belong to them. */
  ghost predicate Exact(start: State, buf: seq<Byte>, i: nat, fs: seq<Field>)
    requires i <= |buf|
  {
    forall j, x :: 0 <= j < |fs| && 0 <= x < i ==> (Covers(fs[j], x) <==> FieldOf(UrlRun(start, buf, x + 1)) == j)
  }

  /** The first loop of http_parser_parse_url. */
  method FirstPass(buf: seq<Byte>, start: State) returns (ok: bool, fs: seq<Field>, foundAt: bool)
    requires start == Spaces || start == ServerStart
    ensures ok <==> UrlRun(start, buf, |buf|) != Dead
    ensures ok ==> |fs| == 5 && Laid(fs, buf, 0, |buf|) && Exact(start, buf, |buf|, fs)
    ensures ok ==> foundAt == SawAt(start, buf, |buf|)
  {
    fs, foundAt := [Unset, Unset, Unset, Unset, Unset], false;
    var s, last, i := start, -1, 0;
    while i < |buf|
      invariant i <= |buf| && s == UrlRun(start, buf, i) && |fs| == 5 && Laid(fs, buf, 0, i) && Placed(s, fs, last, i)
      invariant Exact(start, buf, i, fs)
      invariant foundAt == SawAt(start, buf, i)
    {
      s, fs, last := FirstStep(buf, i, s, fs, last);
      i := i + 1;
      assert s == UrlRun(start, buf, i);
      if s == Dead {
        DeadStays(start, buf, i, |buf|);
        return false, fs, foundAt;
      }
      if s == ServerWithAt {
        foundAt := true;
      }
    }
    ok := true;
  }

  // ---------- The host

  const USERINFO := 0
  const PORT := 2

  function HostFieldOf(s: HostState): int {
    match s
    case Userinfo => USERINFO
    case Host | V6 | ZoneStart | Zone => HOST
    case Port => PORT
    case _ => -1
  }

  function HostReached(s: HostState): int {
    match s
    case UserinfoStart => -1
    case Userinfo | HostStart | V6Start => USERINFO
    case Host | V6 | ZoneStart | Zone | V6End | PortStart => HOST
    case Port | HostDead => PORT
  }

  ghost predicate IsDigits(buf: seq<Byte>, f: Field) {
    f.Field? && f.off + f.len <= |buf| && forall x :: f.off <= x < f.off + f.len ==> D.IsNum(buf[x])
  }

  predicate PastHost(s: HostState) {
    s.Host? || s.V6? || s.V6End? || s.ZoneStart? || s.Zone? || s.PortStart? || s.Port?
  }

  ghost predicate HostPlaced(s: HostState, fs: seq<Field>, last: int, i: nat, buf: seq<Byte>)
    requires |fs| == 3
  {
    && (fs[PORT].Field? ==> IsDigits(buf, fs[PORT])) && (PastHost(s) ==> fs[HOST].Field?)
    && s != HostDead && Last(fs, last) && last <= HostReached(s)
    && (HostFieldOf(s) >= 0 ==> last == HostFieldOf(s) && fs[last].off + fs[last].len == i)
  }

  lemma NextHostField(s: HostState, b: Byte, last: int)
    requires HostChar(s, b) != HostDead && last <= HostReached(s) && (HostFieldOf(s) >= 0 ==> last == HostFieldOf(s))
    ensures var s' := HostChar(s, b); var k := HostFieldOf(s');
      && (k < 0 ==> IsDelimiter(b) && last <= HostReached(s'))
      && (k >= 0 ==> last <= k && k <= HostReached(s') && (k == last ==> HostFieldOf(s) == k))
  {}

  /** One character of the host. */
  method HostStep(buf: seq<Byte>, lo: nat, i: nat, s: HostState, fs: seq<Field>, last: int)
    returns (s': HostState, fs': seq<Field>, last': int)
    requires lo <= i < |buf| && |fs| == 3 && Laid(fs, buf, lo, i) && HostPlaced(s, fs, last, i, buf)
    ensures s' == HostChar(s, buf[i]) && |fs'| == 3
    ensures s' != HostDead ==> Adds(fs, fs', i, HostFieldOf(s'))
    ensures s' != HostDead ==> Laid(fs', buf, lo, i + 1) && HostPlaced(s', fs', last', i + 1, buf)
  {
    s', fs', last' := HostChar(s, buf[i]), fs, last;
    if s' == HostDead {
      return;
    }
    NextHostField(s, buf[i], last);
    var k := HostFieldOf(s');
    if k < 0 {
      LaidDelimiter(fs, buf, lo, i);
    } else if k == last {
      LaidGrow(fs, buf, lo, i, k);
      fs' := fs[k := Field(fs[k].off, fs[k].len + 1)];
    } else {
      LaidNew(fs, buf, lo, i, last, k);
      fs', last' := fs[k := Field(i, 1)], k;
    }
  }

  function HostRun(s: HostState, buf: seq<Byte>, lo: nat, i: nat): HostState
    requires lo <= i <= |buf|
    decreases i
  {
    if i == lo then s else HostChar(HostRun(s, buf, lo, i - 1), buf[i - 1])
  }

  lemma {:induction false} HostDeadStays(s: HostState, buf: seq<Byte>, lo: nat, i: nat, j: nat)
    requires lo <= i <= j <= |buf| && HostRun(s, buf, lo, i) == HostDead
    ensures HostRun(s, buf, lo, j) == HostDead
    decreases j
  {
    if i < j { HostDeadStays(s, buf, lo, i, j - 1); }
  }

  /** The states a host may end in. */
  predicate HostEnds(s: HostState) { s == Host || s == V6End || s == Port }

  function HostStarted(foundAt: bool): HostState { if foundAt then UserinfoStart else HostStart }

  ghost predicate HostExact(start: HostState, buf: seq<Byte>, lo: nat, i: nat, fs: seq<Field>)
    requires lo <= i <= |buf|
  {
    forall j, x :: 0 <= j < |fs| && lo <= x < i ==>
      (Covers(fs[j], x) <==> HostFieldOf(HostRun(start, buf, lo, x + 1)) == j)
  }

  lemma HostAdded(start: HostState, buf: seq<Byte>, lo: nat, i: nat, fs: seq<Field>, fs': seq<Field>)
    requires lo <= i < |buf| && |fs'| == |fs| && HostExact(start, buf, lo, i, fs)
    requires Adds(fs, fs', i, HostFieldOf(HostRun(start, buf, lo, i + 1)))
    ensures HostExact(start, buf, lo, i + 1, fs')
  {
    forall j, x | 0 <= j < |fs'| && lo <= x < i + 1
      ensures Covers(fs'[j], x) <==> HostFieldOf(HostRun(start, buf, lo, x + 1)) == j
    {
      assert x < i ==> (Covers(fs[j], x) <==> HostFieldOf(HostRun(start, buf, lo, x + 1)) == j);
    }
  }

  /** How far http_parse_host has come at `i`. */
  ghost predicate HostSoFar(start: HostState, buf: seq<Byte>, lo: nat, i: nat, s: HostState, fs: seq<Field>, last: int)
    requires lo <= i <= |buf|
  {
    && |fs| == 3 && s == HostRun(start, buf, lo, i) && Laid(fs, buf, lo, i) && HostPlaced(s, fs, last, i, buf)
    && HostExact(start, buf, lo, i, fs)
  }

  /** One turn of its loop. */
  method HostTurn(ghost start: HostState, buf: seq<Byte>, lo: nat, i: nat, s: HostState, fs: seq<Field>, last: int)
    returns (s': HostState, fs': seq<Field>, last': int)
    requires lo <= i < |buf| && HostSoFar(start, buf, lo, i, s, fs, last)
    ensures s' == HostRun(start, buf, lo, i + 1)
    ensures s' != HostDead ==> HostSoFar(start, buf, lo, i + 1, s', fs', last')
  {
    s', fs', last' := HostStep(buf, lo, i, s, fs, last);
    assert s' == HostRun(start, buf, lo, i + 1);
    if s' != HostDead { HostAdded(start, buf, lo, i, fs, fs'); }
  }

  /** http_parse_host on the stretch from `lo` to `hi`: the user information, the host and the port. */
  method ParseHost(buf: seq<Byte>, lo: nat, hi: nat, foundAt: bool) returns (ok: bool, fs: seq<Field>)
    requires lo <= hi <= |buf|
    ensures ok <==> HostEnds(HostRun(HostStarted(foundAt), buf, lo, hi))
    ensures ok ==> |fs| == 3 && HostExact(HostStarted(foundAt), buf, lo, hi, fs)
    ensures ok ==> Laid(fs, buf, lo, hi) && fs[HOST].Field? && (fs[PORT].Field? ==> IsDigits(buf, fs[PORT]))
  {
    fs := [Unset, Unset, Unset];
    var s := HostStarted(foundAt);
    ghost var start := s;
    var last, i := -1, lo;
    while i < hi
      invariant lo <= i <= hi && HostSoFar(start, buf, lo, i, s, fs, last)
    {
      s, fs, last := HostTurn(start, buf, lo, i, s, fs, last);
      i := i + 1;
      if s == HostDead {
        HostDeadStays(start, buf, lo, i, hi);
        return false, fs;
      }
    }
    ok := HostEnds(s);
  }

  // ---------- The port

  /** The bytes of a field. */
  function Slice(buf: seq<Byte>, f: Field): seq<Byte>
    requires f.Field? && f.off + f.len <= |buf|
  {
    buf[f.off..f.off + f.len]
  }

  /** The port, unless it is more than 65535. */
  method PortValue(s: seq<Byte>) returns (ok: bool, v: nat)
    requires D.Digits(s)
    ensures ok <==> D.Value(s) <= 0xffff
    ensures ok ==> v == D.Value(s)
  {
    v := 0;
    var i := 0;
    while i < |s|
      invariant i <= |s| && v == D.Value(s[..i]) <= 0xffff
    {
      D.ValueMore(s[..i], s[i]);
      assert s[..i + 1] == s[..i] + [s[i]];
      v := v * 10 + s[i] - 48;
      i := i + 1;
      if v > 0xffff {
        D.ValueGrows(s, i);
        return false, v;
      }
    }
    assert s[..i] == s;
    ok := true;
  }

  // ---------- http_parser_parse_url

  datatype Url = Url(schema: Field, userinfo: Field, host: Field, port: Field, path: Field, query: Field,
                     fragment: Field, portValue: nat)

  function Fields(u: Url): seq<Field> { [u.schema, u.userinfo, u.host, u.port, u.path, u.query, u.fragment] }

  /** The parts of the host take its place among the fields. */
  lemma Compose(fs: seq<Field>, hs: seq<Field>, buf: seq<Byte>, gs: seq<Field>)
    requires |fs| == 5 && |hs| == 3 && Laid(fs, buf, 0, |buf|)
    requires fs[HOST].Field? ==> Laid(hs, buf, fs[HOST].off, fs[HOST].off + fs[HOST].len)
    requires fs[HOST].Unset? ==> hs == [Unset, Unset, Unset]
    requires gs == [fs[0], hs[0], hs[1], hs[2], fs[2], fs[3], fs[4]]
    ensures Laid(gs, buf, 0, |buf|)
  {
    var h := fs[HOST];
    forall k | 0 <= k < 7 ensures Within(gs[k], 0, |buf|) {
      assert Within(h, 0, |buf|) && Within(fs[0], 0, |buf|) && Within(fs[2], 0, |buf|) && Within(fs[3], 0, |buf|) &&
             Within(fs[4], 0, |buf|);
      if h.Field? {
        assert Within(hs[0], h.off, h.off + h.len) && Within(hs[1], h.off, h.off + h.len) &&
               Within(hs[2], h.off, h.off + h.len);
      }
    }
    ComposeOrder(fs, hs, buf, gs);
    forall x | 0 <= x < |buf| ensures Covered(gs, x) || IsDelimiter(buf[x]) {
      if Covered(fs, x) { ComposeCovered(fs, hs, buf, gs, x); }
    }
  }

  lemma ComposeCovered(fs: seq<Field>, hs: seq<Field>, buf: seq<Byte>, gs: seq<Field>, x: nat)
    requires |fs| == 5 && |hs| == 3 && x < |buf| && Covered(fs, x)
    requires fs[HOST].Field? ==> Laid(hs, buf, fs[HOST].off, fs[HOST].off + fs[HOST].len)
    requires gs == [fs[0], hs[0], hs[1], hs[2], fs[2], fs[3], fs[4]]
    ensures Covered(gs, x) || IsDelimiter(buf[x])
  {
    var k :| 0 <= k < 5 && Covers(fs[k], x);
    if k == HOST {
      if Covered(hs, x) {
        var l :| 0 <= l < 3 && Covers(hs[l], x);
        assert Covers(gs[l + 1], x);
      }
    } else {
      assert Covers(gs[if k == 0 then 0 else k + 2], x);
    }
  }

  lemma ComposeOrder(fs: seq<Field>, hs: seq<Field>, buf: seq<Byte>, gs: seq<Field>)
    requires |fs| == 5 && |hs| == 3 && Laid(fs, buf, 0, |buf|)
    requires fs[HOST].Field? ==> Laid(hs, buf, fs[HOST].off, fs[HOST].off + fs[HOST].len)
    requires fs[HOST].Unset? ==> hs == [Unset, Unset, Unset]
    requires gs == [fs[0], hs[0], hs[1], hs[2], fs[2], fs[3], fs[4]]
    ensures forall j, k :: 0 <= j < k < 7 ==> Before(gs[j], gs[k])
  {
    var h := fs[HOST];
    forall j, k | 0 <= j < k < 7 ensures Before(gs[j], gs[k]) {
      var a, b := Origin(j), Origin(k);
      if a == b {
        if h.Field? { assert Before(hs[j - 1], hs[k - 1]); }
      } else {
        assert Before(fs[a], fs[b]);
        if a == HOST && h.Field? { assert Within(hs[j - 1], h.off, h.off + h.len); }
        if b == HOST && h.Field? { assert Within(hs[k - 1], h.off, h.off + h.len); }
      }
    }
  }

  /** The field of the first pass that a field comes from. */
  function Origin(k: nat): nat
    requires k < 7
  {
    if k == 0 then 0 else if k <= 3 then HOST else k - 2
  }

  function Started(connect: bool): State { if connect then ServerStart else Spaces }

  predicate EndsWell(start: HostState, buf: seq<Byte>, server: Field) {
    server.Field? ==>
      server.off + server.len <= |buf| && HostEnds(HostRun(start, buf, server.off, server.off + server.len))
  }

  /** The host, where the first pass has found one. */
  method SecondPass(buf: seq<Byte>, fs: seq<Field>, foundAt: bool) returns (ok: bool, hs: seq<Field>)
    requires |fs| == 5 && Laid(fs, buf, 0, |buf|)
    ensures fs[HOST].Unset? ==> ok && hs == [Unset, Unset, Unset]
    ensures ok <==> EndsWell(HostStarted(foundAt), buf, fs[HOST])
    ensures ok && fs[HOST].Field? ==> Within(fs[HOST], 0, |buf|) && |hs| == 3
    ensures ok && fs[HOST].Field? ==>
      HostExact(HostStarted(foundAt), buf, fs[HOST].off, fs[HOST].off + fs[HOST].len, hs)
    ensures ok && fs[HOST].Field? ==> Laid(hs, buf, fs[HOST].off, fs[HOST].off + fs[HOST].len)
    ensures ok ==> |hs| == 3 && Laid([fs[0], hs[0], hs[1], hs[2], fs[2], fs[3], fs[4]], buf, 0, |buf|)
    ensures ok ==> (hs[HOST].Field? <==> fs[HOST].Field?) && (hs[PORT].Field? ==> IsDigits(buf, hs[PORT]))
  {
    ok, hs := true, [Unset, Unset, Unset];
    if fs[HOST].Field? {
      assert Within(fs[HOST], 0, |buf|);
      ok, hs := ParseHost(buf, fs[HOST].off, fs[HOST].off + fs[HOST].len, foundAt);
    }
    if ok { Compose(fs, hs, buf, [fs[0], hs[0], hs[1], hs[2], fs[2], fs[3], fs[4]]); }
  }

  /** CONNECT has a host and a port and nothing else. */
  predicate OnlyHostAndPort(u: Url) {
    u.schema.Unset? && u.userinfo.Unset? && u.host.Field? && u.port.Field? && u.path.Unset? && u.query.Unset? &&
      u.fragment.Unset?
  }

  /** What a split URL is like: non-empty fields that lie in their order, every byte in one of them or a
      delimiter, and a port that is the value of its digits. */
  ghost predicate Proper(buf: seq<Byte>, connect: bool, u: Url) {
    && Laid(Fields(u), buf, 0, |buf|) && (u.schema.Field? ==> u.host.Field?) && (connect ==> OnlyHostAndPort(u))
    && (if u.port.Field? then IsDigits(buf, u.port) && u.portValue == D.Value(Slice(buf, u.port)) <= 0xffff
        else u.portValue == 0)
  }

  ghost predicate PortFits(buf: seq<Byte>, f: Field) {
    f.Field? ==> IsDigits(buf, f) && D.Value(Slice(buf, f)) <= 0xffff
  }

  /** What the fields have to be like once both passes are through. */
  ghost predicate Complete(buf: seq<Byte>, connect: bool, u: Url) {
    (connect ==> OnlyHostAndPort(u)) && PortFits(buf, u.port)
  }

  /** The checks after the two passes. */
  method Finish(buf: seq<Byte>, connect: bool, fields: Url) returns (rc: int, u: Url)
    requires Laid(Fields(fields), buf, 0, |buf|) && (fields.schema.Field? ==> fields.host.Field?) &&
             fields.portValue == 0
    requires fields.port.Field? ==> IsDigits(buf, fields.port)
    ensures rc == 0 ==> Proper(buf, connect, u) && u == fields.(portValue := u.portValue)
    ensures rc == if Complete(buf, connect, fields) then 0 else 1
  {
    u := fields;
    if connect && !OnlyHostAndPort(u) {
      return 1, u;
    }
    if u.port.Field? {
      var ok, v := PortValue(Slice(buf, u.port));
      if !ok {
        return 1, u;
      }
      u := u.(portValue := v);
    }
    rc := 0;
  }

  // ---------- What the split is, read off the states

  /** The first of the first `n` places marked `k`, or `n`. */
  function First(m: seq<int>, k: int, n: nat): (p: nat)
    requires n <= |m|
    ensures p <= n && (p < n ==> m[p] == k) && forall x :: 0 <= x < p ==> m[x] != k
  {
    if n == 0 then 0 else
    var p := First(m, k, n - 1);
    if p < n - 1 || m[n - 1] == k then p else n
  }

  /** How many of the first `n` places are marked `k`. */
  function Count(m: seq<int>, k: int, n: nat): (c: nat)
    requires n <= |m|
    ensures c <= n - First(m, k, n)
  {
    if n == 0 then 0 else Count(m, k, n - 1) + if m[n - 1] == k then 1 else 0
  }

  /** The places marked `k`, from the first on, as many as there are. */
  function Stretch(m: seq<int>, k: int): (f: Field)
    ensures f.Field? ==> f.off + f.len <= |m|
  {
    var p := First(m, k, |m|);
    if p == |m| then Unset else Field(p, Count(m, k, |m|))
  }

  function Overlap(f: Field, n: nat): nat {
    if f.Unset? || n <= f.off then 0 else if n <= f.off + f.len then n - f.off else f.len
  }

  ghost predicate Marked(f: Field, m: seq<int>, k: int) {
    && Within(f, 0, |m|)
    && forall x :: 0 <= x < |m| ==> (Covers(f, x) <==> m[x] == k)
  }

  lemma {:induction false} CountIsOverlap(f: Field, m: seq<int>, k: int, n: nat)
    requires n <= |m| && Marked(f, m, k)
    ensures Count(m, k, n) == Overlap(f, n)
  {
    if n > 0 {
      CountIsOverlap(f, m, k, n - 1);
      assert Covers(f, n - 1) <==> m[n - 1] == k;
    }
  }

  /** A field that covers just the places marked `k` is their stretch. */
  lemma StretchIs(f: Field, m: seq<int>, k: int)
    requires Marked(f, m, k)
    ensures f == Stretch(m, k)
  {
    var p := First(m, k, |m|);
    CountIsOverlap(f, m, k, |m|);
    if f.Field? { assert Covers(f, f.off); }
    if p < |m| { assert Covers(f, p); }
  }

  /** Which field of the first pass each byte is of. */
  function Marks(start: State, buf: seq<Byte>): (m: seq<int>)
    ensures |m| == |buf|
  {
    seq(|buf|, x requires 0 <= x < |buf| => FieldOf(UrlRun(start, buf, x + 1)))
  }

  /** Which part of the server `server` each byte is of. */
  function HostMarks(start: HostState, buf: seq<Byte>, server: Field): (m: seq<int>)
    ensures |m| == |buf|
  {
    seq(|buf|, x requires 0 <= x < |buf| =>
      if Covers(server, x) then HostFieldOf(HostRun(start, buf, server.off, x + 1)) else -1)
  }

  /** The server part. */
  function ServerPart(buf: seq<Byte>, connect: bool): (f: Field)
    ensures f.Field? ==> f.off + f.len <= |buf|
  {
    Stretch(Marks(Started(connect), buf), HOST)
  }

  /** The state http_parse_host starts in. */
  function HostStartOf(buf: seq<Byte>, connect: bool): HostState {
    HostStarted(SawAt(Started(connect), buf, |buf|))
  }

  /** The fields of a URL, without the value of its port. */
  function UrlOf(buf: seq<Byte>, connect: bool): Url {
    var m := Marks(Started(connect), buf);
    var hm := HostMarks(HostStartOf(buf, connect), buf, ServerPart(buf, connect));
    Url(Stretch(m, SCHEMA), Stretch(hm, USERINFO), Stretch(hm, HOST), Stretch(hm, PORT),
        Stretch(m, PATH), Stretch(m, QUERY_STRING), Stretch(m, FRAGMENT), 0)
  }

  /** The server part, where there is one, ends in a state it may end in. */
  predicate ServerEnds(buf: seq<Byte>, connect: bool) {
    EndsWell(HostStartOf(buf, connect), buf, ServerPart(buf, connect))
  }

  /** The URLs that are accepted: the first pass does not die, a schema comes with a server, the server
      ends where it may, CONNECT has just a host and a port, and the port is at most 65535. */
  ghost predicate Accepted(buf: seq<Byte>, connect: bool) {
    && buf != [] && UrlRun(Started(connect), buf, |buf|) != Dead
    && (Stretch(Marks(Started(connect), buf), SCHEMA).Field? ==> ServerPart(buf, connect).Field?)
    && ServerEnds(buf, connect) && Complete(buf, connect, UrlOf(buf, connect))
  }

  /** Every position is in the field its state belongs to, or in none; in the server, in the part its
      host state belongs to. */
  ghost predicate ExactUrl(buf: seq<Byte>, connect: bool, u: Url) {
    var server := ServerPart(buf, connect);
    forall x :: 0 <= x < |buf| ==>
      var k := FieldOf(UrlRun(Started(connect), buf, x + 1));
      var h := HostMarks(HostStartOf(buf, connect), buf, server)[x];
      && (Covers(u.schema, x) <==> k == SCHEMA) && (Covers(u.path, x) <==> k == PATH)
      && (Covers(u.query, x) <==> k == QUERY_STRING) && (Covers(u.fragment, x) <==> k == FRAGMENT)
      && (Covers(server, x) <==> k == HOST)
      && (Covers(u.userinfo, x) <==> h == USERINFO) && (Covers(u.host, x) <==> h == HOST)
      && (Covers(u.port, x) <==> h == PORT)
  }

  lemma FirstMarked(start: State, buf: seq<Byte>, fs: seq<Field>, k: nat)
    requires |fs| == 5 && k < 5 && Laid(fs, buf, 0, |buf|) && Exact(start, buf, |buf|, fs)
    ensures Marked(fs[k], Marks(start, buf), k) && fs[k] == Stretch(Marks(start, buf), k)
  {
    var m := Marks(start, buf);
    assert Within(fs[k], 0, |buf|);
    forall x | 0 <= x < |m| ensures Covers(fs[k], x) <==> m[x] == k {
      assert m[x] == FieldOf(UrlRun(start, buf, x + 1));
    }
    StretchIs(fs[k], m, k);
  }

  lemma HostMarked(start: HostState, buf: seq<Byte>, server: Field, hs: seq<Field>, k: nat)
    requires |hs| == 3 && k < 3
    requires if server.Unset? then hs == [Unset, Unset, Unset] else
             && Within(server, 0, |buf|) && Laid(hs, buf, server.off, server.off + server.len)
             && HostExact(start, buf, server.off, server.off + server.len, hs)
    ensures var m := HostMarks(start, buf, server); Marked(hs[k], m, k) && hs[k] == Stretch(m, k)
  {
    var m := HostMarks(start, buf, server);
    if server.Field? { assert Within(hs[k], server.off, server.off + server.len); }
    forall x | 0 <= x < |m| ensures Covers(hs[k], x) <==> m[x] == k {
      if Covers(server, x) { assert m[x] == HostFieldOf(HostRun(start, buf, server.off, x + 1)); }
    }
    StretchIs(hs[k], m, k);
  }

  ghost predicate FirstFound(buf: seq<Byte>, connect: bool, fs: seq<Field>) {
    |fs| == 5 && Laid(fs, buf, 0, |buf|) && Exact(Started(connect), buf, |buf|, fs)
  }

  ghost predicate HostFound(buf: seq<Byte>, connect: bool, server: Field, hs: seq<Field>) {
    && |hs| == 3
    && if server.Unset? then hs == [Unset, Unset, Unset] else
       && Within(server, 0, |buf|) && Laid(hs, buf, server.off, server.off + server.len)
       && HostExact(HostStartOf(buf, connect), buf, server.off, server.off + server.len, hs)
  }

  /** What the first pass has found is its part of the split. */
  lemma FirstIs(buf: seq<Byte>, connect: bool, fs: seq<Field>)
    requires FirstFound(buf, connect, fs)
    ensures var m := Marks(Started(connect), buf);
      forall k :: 0 <= k < 5 ==> Marked(fs[k], m, k) && fs[k] == Stretch(m, k)
  {
    forall k | 0 <= k < 5
      ensures Marked(fs[k], Marks(Started(connect), buf), k) && fs[k] == Stretch(Marks(Started(connect), buf), k)
    {
      FirstMarked(Started(connect), buf, fs, k);
    }
  }

  lemma HostOf(buf: seq<Byte>, connect: bool, server: Field, hs: seq<Field>)
    requires HostFound(buf, connect, server, hs)
    ensures var m := HostMarks(HostStartOf(buf, connect), buf, server);
      forall k :: 0 <= k < 3 ==> Marked(hs[k], m, k) && hs[k] == Stretch(m, k)
  {
    var m := HostMarks(HostStartOf(buf, connect), buf, server);
    forall k | 0 <= k < 3 ensures Marked(hs[k], m, k) && hs[k] == Stretch(m, k) {
      HostMarked(HostStartOf(buf, connect), buf, server, hs, k);
    }
  }

  lemma MarkedExact(buf: seq<Byte>, connect: bool, u: Url, m: seq<int>, hm: seq<int>, server: Field)
    requires m == Marks(Started(connect), buf) && server == ServerPart(buf, connect)
    requires hm == HostMarks(HostStartOf(buf, connect), buf, server) && Marked(server, m, HOST)
    requires Marked(u.schema, m, SCHEMA) && Marked(u.path, m, PATH)
    requires Marked(u.query, m, QUERY_STRING) && Marked(u.fragment, m, FRAGMENT)
    requires Marked(u.userinfo, hm, USERINFO) && Marked(u.host, hm, HOST) && Marked(u.port, hm, PORT)
    ensures ExactUrl(buf, connect, u)
  {
    forall x | 0 <= x < |buf| ensures m[x] == FieldOf(UrlRun(Started(connect), buf, x + 1)) {}
  }

  /** What the two passes have found is the split. */
  lemma SplitIs(buf: seq<Byte>, connect: bool, fs: seq<Field>, hs: seq<Field>, u: Url)
    requires FirstFound(buf, connect, fs) && HostFound(buf, connect, fs[HOST], hs)
    requires u == Url(fs[SCHEMA], hs[USERINFO], hs[HOST], hs[PORT], fs[PATH], fs[QUERY_STRING], fs[FRAGMENT], 0)
    ensures u == UrlOf(buf, connect) && ExactUrl(buf, connect, u)
  {
    FirstIs(buf, connect, fs);
    HostOf(buf, connect, fs[HOST], hs);
    var hm := HostMarks(HostStartOf(buf, connect), buf, fs[HOST]);
    MarkedExact(buf, connect, u, Marks(Started(connect), buf), hm, fs[HOST]);
  }

  /** The second pass, and the fields of both together. */
  method Split(buf: seq<Byte>, connect: bool, fs: seq<Field>, foundAt: bool) returns (ok: bool, u: Url)
    requires FirstFound(buf, connect, fs) && foundAt == SawAt(Started(connect), buf, |buf|)
    requires fs[HOST] == ServerPart(buf, connect) && (fs[SCHEMA].Field? ==> fs[HOST].Field?)
    ensures ok <==> ServerEnds(buf, connect)
    ensures ok ==> u == UrlOf(buf, connect) && ExactUrl(buf, connect, u) && Laid(Fields(u), buf, 0, |buf|)
    ensures ok ==> (u.schema.Field? ==> u.host.Field?) && (u.port.Field? ==> IsDigits(buf, u.port))
  {
    u := Url(Unset, Unset, Unset, Unset, Unset, Unset, Unset, 0);
    var hs;
    ok, hs := SecondPass(buf, fs, foundAt);
    if ok {
      assert HostFound(buf, connect, fs[HOST], hs);
      u := Url(fs[SCHEMA], hs[USERINFO], hs[HOST], hs[PORT], fs[PATH], fs[QUERY_STRING], fs[FRAGMENT], 0);
      SplitIs(buf, connect, fs, hs, u);
    }
  }

  /** http_parser_parse_url: the URLs it accepts, and the fields it splits them into. */
  method ParseUrl(buf: seq<Byte>, connect: bool) returns (rc: int, u: Url)
    requires |buf| <= 0xffff
    ensures rc == if Accepted(buf, connect) then 0 else 1
    ensures rc == 0 ==> u == UrlOf(buf, connect).(portValue := u.portValue)
    ensures rc == 0 ==> Proper(buf, connect, u) && ExactUrl(buf, connect, u)
  {
    u := Url(Unset, Unset, Unset, Unset, Unset, Unset, Unset, 0);
    if |buf| == 0 {
      return 1, u;
    }
    var ok, fs, foundAt := FirstPass(buf, Started(connect));
    if !ok {
      return 1, u;
    }
    FirstIs(buf, connect, fs);
    if fs[SCHEMA].Field? && fs[HOST].Unset? {
      return 1, u;
    }
    ok, u := Split(buf, connect, fs, foundAt);
    if !ok {
      return 1, u;
    }
    rc, u := Finish(buf, connect, u);
  }
}
