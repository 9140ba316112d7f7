/** The wheels of all workers, which share the variable that holds the time of the last run (keep_alive.c).

    A run is two steps: it reads the variable at its start and writes it at its end, and the other workers may
    take steps in between.  `own` is the time of each worker's own last run. */
module KeepAliveWorkers {
  import opened KeepAlive
  import opened KeepAliveRuns

  // ---------- Who runs when

  datatype Scan = Idle | Scanning(from: int, t: int)

  /** `last` is last_t, `now` the time of the latest start of a run. */
  datatype Clocks = Clocks(last: int, now: int, own: seq<int>, scans: seq<Scan>)

  datatype Turn = Begin(w: nat, t: int) | End(w: nat)

  predicate Possible(c: Clocks, u: Turn) {
    && u.w < |c.own| == |c.scans|
    && match u
       case Begin(w, t) => c.scans[w].Idle? && t >= c.now && t > 0
       case End(w) => c.scans[w].Scanning?
  }

  /** A run that finds its own second in the variable returns at once and writes nothing. */
  function Turned(c: Clocks, u: Turn): Clocks
    requires Possible(c, u)
  {
    match u
    case Begin(w, t) => c.(now := t, scans := c.scans[w := Scanning(c.last, t)])
    case End(w) =>
      var r := c.scans[w];
      Clocks(if r.from == r.t then c.last else r.t, c.now, c.own[w := r.t], c.scans[w := Idle])
  }

  /** The turns can be taken one after the other: the clock does not go back. */
  predicate Timetable(c: Clocks, tt: seq<Turn>)
    decreases |tt|
  {
    tt == [] || (Possible(c, tt[0]) && Timetable(Turned(c, tt[0]), tt[1..]))
  }

  /** At every run of `w` the variable it has read and the time of its own last run suffice. */
  predicate AllSuffice(c: Clocks, tt: seq<Turn>, w: nat)
    requires Timetable(c, tt)
    decreases |tt|
  {
    tt != [] ==>
      && (tt[0] == End(w) ==> Suffices(c.scans[w].from, c.scans[w].t, c.own[w]))
      && AllSuffice(Turned(c, tt[0]), tt[1..], w)
  }

  predicate ScanOk(c: Clocks, w: nat)
    requires w < |c.own| == |c.scans|
  {
    && c.own[w] <= c.now
    && (c.scans[w].Scanning? ==> 0 <= c.scans[w].from && 0 < c.scans[w].t && c.own[w] <= c.scans[w].t <= c.now)
  }

  predicate ClocksOk(c: Clocks) {
    |c.own| == |c.scans| && 0 <= c.last && forall w :: 0 <= w < |c.own| ==> ScanOk(c, w)
  }

  lemma TurnOk(c: Clocks, u: Turn)
    requires ClocksOk(c) && Possible(c, u)
    ensures ClocksOk(Turned(c, u)) && |Turned(c, u).own| == |c.own|
  {
    assert ScanOk(c, u.w);
    forall w | 0 <= w < |c.own| ensures ScanOk(Turned(c, u), w) { assert ScanOk(c, w); }
  }

  // ---------- The clients

  /** The clients of a worker; `heard` is the reference. */
  datatype Local<T> = Local(clients: Clients<T>, due: map<T, int>, heard: Ears<T>)

  datatype System<T> = System(clocks: Clocks, locals: seq<Local<T>>)

  /** News of a client comes to its worker, or a worker takes its turn. */
  datatype Move<T> = News(w: nat, e: Event<T>) | Run(u: Turn)

  ghost predicate Comes<T>(l: Local<T>, e: Event<T>, now: int) {
    && !e.Tick? && e.who in l.clients && (l.clients[e.who].keepAlive > 0 ==> Current(l.clients, l.due, e.who))
    && (e.Heard? ==> e.now >= now && e.now > 0)
  }

  ghost function Told<T>(l: Local<T>, e: Event<T>): Local<T>
    requires !e.Tick? && e.who in l.clients
  {
    var s := Step(State(l.clients, l.due, 0), e);
    Local(s.clients, s.due, Listen(KeepAlives(l.clients), l.heard, e))
  }

  /** The end of a run: the wheel and the reference drop whom they drop. */
  ghost function Finished<T>(l: Local<T>, r: Scan): Local<T>
    requires r.Scanning?
  {
    l.(due := l.due - Dropped(l.due, r.from, r.t), heard := l.heard - Silent(KeepAlives(l.clients), l.heard, r.t))
  }

  ghost predicate Enabled<T>(s: System<T>, m: Move<T>) {
    && |s.locals| == |s.clocks.own| == |s.clocks.scans|
    && match m
       case News(w, e) => w < |s.locals| && s.clocks.scans[w].Idle? && Comes(s.locals[w], e, s.clocks.now)
       case Run(u) => Possible(s.clocks, u)
  }

  ghost function Apply<T>(s: System<T>, m: Move<T>): System<T>
    requires Enabled(s, m)
  {
    match m
    case News(w, e) => s.(locals := s.locals[w := Told(s.locals[w], e)])
    case Run(u) =>
      System(Turned(s.clocks, u),
             if u.Begin? then s.locals else s.locals[u.w := Finished(s.locals[u.w], s.clocks.scans[u.w])])
  }

  ghost predicate Schedule<T>(s: System<T>, ms: seq<Move<T>>)
    decreases |ms|
  {
    ms == [] || (Enabled(s, ms[0]) && Schedule(Apply(s, ms[0]), ms[1..]))
  }

  function Turns<T>(ms: seq<Move<T>>): seq<Turn> {
    if ms == [] then [] else (if ms[0].Run? then [ms[0].u] else []) + Turns(ms[1..])
  }

  /** The run of `w` that ends drops exactly those who have been silent for one and a half keep-alives. */
  ghost predicate DropsExactly<T>(s: System<T>, w: nat)
    requires w < |s.locals| == |s.clocks.scans| && s.clocks.scans[w].Scanning?
  {
    var l, r := s.locals[w], s.clocks.scans[w];
    Dropped(l.due, r.from, r.t) == Silent(KeepAlives(l.clients), l.heard, r.t)
  }

  /** Every run of `w` does. */
  ghost predicate AlwaysExact<T>(s: System<T>, ms: seq<Move<T>>, w: nat)
    requires Schedule(s, ms)
    decreases |ms|
  {
    ms != [] ==> (ms[0] == Run(End(w)) ==> DropsExactly(s, w)) && AlwaysExact(Apply(s, ms[0]), ms[1..], w)
  }

  // ---------- What a worker keeps

  /** The wheel and the reference agree, and everybody is due after `b`. */
  ghost predicate LocalOk<T>(l: Local<T>, b: int) {
    Same(KeepAlives(l.clients), State(l.clients, l.due, 0), l.heard) && After(l.due, b)
  }

  lemma NewsOk<T>(l: Local<T>, e: Event<T>, b: int, now: int)
    requires LocalOk(l, b) && b <= now && Comes(l, e, now)
    ensures LocalOk(Told(l, e), b)
  {
    StepSame(KeepAlives(l.clients), State(l.clients, l.due, 0), l.heard, e);
  }

  lemma SufficientRun<T>(l: Local<T>, b: int, r: Scan)
    requires r.Scanning? && 0 <= r.from && 0 < r.t && LocalOk(l, b) && Suffices(r.from, r.t, b)
    ensures Dropped(l.due, r.from, r.t) == Expired(l.due, r.t) == Silent(KeepAlives(l.clients), l.heard, r.t)
    ensures LocalOk(Finished(l, r), r.t)
  {
    var ka, s := KeepAlives(l.clients), State(l.clients, l.due, 0);
    EnoughScanned(l.due, r.from, r.t, b);
    ExpiredIsSilent(ka, s, l.heard, r.t);
    var l' := Finished(l, r);
    forall n | n in l'.heard ensures SameFor(ka, State(l'.clients, l'.due, 0), l'.heard, n) {
      assert SameFor(ka, s, l.heard, n);
    }
  }

  lemma MoveOk<T>(s: System<T>, m: Move<T>, w: nat)
    requires Enabled(s, m) && ClocksOk(s.clocks) && w < |s.locals| && LocalOk(s.locals[w], s.clocks.own[w])
    requires m == Run(End(w)) ==> Suffices(s.clocks.scans[w].from, s.clocks.scans[w].t, s.clocks.own[w])
    ensures m == Run(End(w)) ==> DropsExactly(s, w)
    ensures var s' := Apply(s, m); ClocksOk(s'.clocks) && |s'.locals| == |s.locals| && w < |s'.clocks.own|
    ensures LocalOk(Apply(s, m).locals[w], Apply(s, m).clocks.own[w])
  {
    assert ScanOk(s.clocks, w);
    if m.Run? { TurnOk(s.clocks, m.u); }
    if m.News? && m.w == w { NewsOk(s.locals[w], m.e, s.clocks.own[w], s.clocks.now); }
    if m == Run(End(w)) { SufficientRun(s.locals[w], s.clocks.own[w], s.clocks.scans[w]); }
  }

  lemma TurnsStep<T>(ms: seq<Move<T>>)
    requires ms != []
    ensures ms[0].News? ==> Turns(ms) == Turns(ms[1..])
    ensures ms[0].Run? ==> Turns(ms) != [] && Turns(ms)[0] == ms[0].u && Turns(ms)[1..] == Turns(ms[1..])
  {
    if ms[0].News? { assert [] + Turns(ms[1..]) == Turns(ms[1..]); }
  }

  lemma {:induction false} StaysExact<T>(s: System<T>, ms: seq<Move<T>>, tt: seq<Turn>, w: nat)
    requires Schedule(s, ms) && tt == Turns(ms) && Timetable(s.clocks, tt) && AllSuffice(s.clocks, tt, w)
    requires ClocksOk(s.clocks) && w < |s.locals| == |s.clocks.own| && LocalOk(s.locals[w], s.clocks.own[w])
    ensures AlwaysExact(s, ms, w)
    decreases |ms|
  {
    if ms != [] {
      TurnsStep(ms);
      MoveOk(s, ms[0], w);
      StaysExact(Apply(s, ms[0]), ms[1..], Turns(ms[1..]), w);
    }
  }

  // ---------- A client that is overlooked

  /** One client, due at `d`. */
  ghost predicate Only<T>(l: Local<T>, who: T, d: int) {
    && l.due == map[who := d] && l.heard.Keys == {who} && who in l.clients
    && l.clients[who].keepAlive > 0 && d == l.heard[who] + Interval(l.clients[who].keepAlive)
  }

  lemma OnlySilent<T>(l: Local<T>, who: T, d: int, t: int)
    requires Only(l, who, d)
    ensures Silent(KeepAlives(l.clients), l.heard, t) == if d <= t then {who} else {}
  {
    assert KeepAlives(l.clients)[who] == l.clients[who].keepAlive;
  }

  ghost function Running<T>(tt: seq<Turn>): seq<Move<T>> { if tt == [] then [] else [Run(tt[0])] + Running(tt[1..]) }

  lemma {:induction false} RunningTurns<T>(tt: seq<Turn>)
    ensures Turns(Running<T>(tt)) == tt
  {
    if tt != [] {
      RunningTurns<T>(tt[1..]);
      assert Running<T>(tt)[1..] == Running<T>(tt[1..]);
    }
  }

  lemma {:induction false} RunningSchedule<T>(s: System<T>, tt: seq<Turn>)
    requires Timetable(s.clocks, tt) && |s.locals| == |s.clocks.own| == |s.clocks.scans|
    ensures Schedule(s, Running(tt))
    decreases |tt|
  {
    if tt != [] {
      assert Running<T>(tt)[1..] == Running<T>(tt[1..]);
      RunningSchedule(Apply(s, Run(tt[0])), tt[1..]);
    }
  }

  /** When a client has to be due for the first insufficient run to overlook it. */
  lemma {:induction false} OverlookedAt(c: Clocks, tt: seq<Turn>, w: nat) returns (d: int)
    requires ClocksOk(c) && w < |c.own| && Timetable(c, tt) && !AllSuffice(c, tt, w)
    ensures d > c.own[w]
    ensures tt[0] == End(w) && Suffices(c.scans[w].from, c.scans[w].t, c.own[w]) ==> d > c.scans[w].t
    ensures Overlooks(c, tt, w, d)
    decreases |tt|
  {
    assert ScanOk(c, w);
    if tt[0] == End(w) && !Suffices(c.scans[w].from, c.scans[w].t, c.own[w]) {
      d := Overlooked(c.scans[w].from, c.scans[w].t, c.own[w]);
    } else {
      TurnOk(c, tt[0]);
      d := OverlookedAt(Turned(c, tt[0]), tt[1..], w);
    }
  }

  /** The runs of `w` come before `d`, until one comes after it that does not look at its second. */
  ghost predicate Overlooks(c: Clocks, tt: seq<Turn>, w: nat, d: int)
    requires Timetable(c, tt)
    decreases |tt|
  {
    && tt != []
    && var r := if w < |c.scans| then c.scans[w] else Idle;
       if tt[0] == End(w) && d <= r.t then r.from == r.t || !Scanned(r.from, r.t, d % SIZE)
       else Overlooks(Turned(c, tt[0]), tt[1..], w, d)
  }

  lemma {:induction false} NotExact<T>(s: System<T>, tt: seq<Turn>, w: nat, who: T, d: int)
    requires Timetable(s.clocks, tt) && |s.locals| == |s.clocks.own| == |s.clocks.scans| && w < |s.locals|
    requires Only(s.locals[w], who, d) && Overlooks(s.clocks, tt, w, d)
    ensures Schedule(s, Running(tt)) && !AlwaysExact(s, Running(tt), w)
    decreases |tt|
  {
    RunningSchedule(s, tt);
    var l, ms := s.locals[w], Running<T>(tt);
    assert ms[0] == Run(tt[0]) && ms[1..] == Running<T>(tt[1..]);
    if tt[0] == End(w) {
      var r := s.clocks.scans[w];
      OnlySilent(l, who, d, r.t);
      if d <= r.t {
        assert who !in Dropped(l.due, r.from, r.t) && who in Silent(KeepAlives(l.clients), l.heard, r.t);
        return;
      }
      assert Dropped(l.due, r.from, r.t) == {} && l.due - {} == l.due && l.heard - {} == l.heard;
    }
    NotExact(Apply(s, Run(tt[0])), tt[1..], w, who, d);
  }

  // ---------- When a worker drops everybody who is silent

  /** Any clients that agree with the reference, last heard of by now and due after their worker's last run. */
  ghost predicate Starting<T>(s: System<T>, c: Clocks) {
    && s.clocks == c && |s.locals| == |c.own|
    && forall w :: 0 <= w < |s.locals| ==> StartsOk(s.locals[w], c.own[w], c.now)
  }

  ghost predicate StartsOk<T>(l: Local<T>, b: int, now: int) {
    LocalOk(l, b) && forall n :: n in l.heard ==> l.heard[n] <= now
  }

  ghost function Lone<T>(who: T, d: int, m: nat): Local<T> {
    Local(map[who := Client(2 * m, d, d - 3 * m, true)], map[who := d], map[who := d - 3 * m])
  }

  lemma LoneOk<T>(who: T, d: int, m: nat, b: int)
    requires d > b && m > 0
    ensures LocalOk(Lone(who, d, m), b) && Only(Lone(who, d, m), who, d)
  {
    var l := Lone(who, d, m);
    assert Interval(2 * m) == 3 * m;
    assert KeepAlives(l.clients)[who] == 2 * m;
    assert SameFor(KeepAlives(l.clients), State(l.clients, l.due, 0), l.heard, who);
  }

  /** A worker drops exactly the silent at each of its runs, whoever its clients are and whatever comes of them,
      if and only if at each of its runs the variable and its own last run suffice. */
  lemma RunsExactly<T(!new)>(c: Clocks, tt: seq<Turn>, w: nat, who: T)
    requires ClocksOk(c) && Timetable(c, tt) && w < |c.own|
    ensures (forall s: System<T>, ms :: Starting(s, c) && Schedule(s, ms) && Turns(ms) == tt ==> AlwaysExact(s, ms, w))
            <==> AllSuffice(c, tt, w)
  {
    if AllSuffice(c, tt, w) {
      forall s: System<T>, ms | Starting(s, c) && Schedule(s, ms) && Turns(ms) == tt ensures AlwaysExact(s, ms, w) {
        assert StartsOk(s.locals[w], c.own[w], c.now);
        StaysExact(s, ms, tt, w);
      }
    } else {
      var s := Witness(c, tt, w, who);
      RunningTurns<T>(tt);
    }
  }

  lemma Witness<T>(c: Clocks, tt: seq<Turn>, w: nat, who: T) returns (s: System<T>)
    requires ClocksOk(c) && Timetable(c, tt) && w < |c.own| && !AllSuffice(c, tt, w)
    ensures Starting(s, c) && Schedule(s, Running(tt)) && !AlwaysExact(s, Running(tt), w)
  {
    var d := OverlookedAt(c, tt, w);
    var m := if d > c.now then d - c.now else 1;
    s := System(c, seq(|c.own|, (v: nat) => if v == w then Lone(who, d, m) else Local(map[], map[], map[])));
    LoneOk(who, d, m, c.own[w]);
    forall v | 0 <= v < |s.locals| ensures StartsOk(s.locals[v], c.own[v], c.now) {}
    NotExact(s, tt, w, who, d);
  }

  // ---------- One worker

  /** The broker has started at `start`; nobody has run yet. */
  function Fresh(n: nat, start: int): Clocks { Clocks(0, start, seq(n, _ => start), seq(n, _ => Idle)) }

  /** Until a run has ended, runs begin within a second of the start. */
  predicate Prompt(c: Clocks, tt: seq<Turn>)
    requires Timetable(c, tt)
    decreases |tt|
  {
    tt != [] ==>
      && (tt[0].Begin? && c.last == 0 ==> tt[0].t <= c.own[tt[0].w] + 1)
      && Prompt(Turned(c, tt[0]), tt[1..])
  }

  /** Nobody is monitored yet. */
  ghost predicate Unmonitored<T>(s: System<T>) {
    forall w :: 0 <= w < |s.locals| ==> NobodyYet(s.locals[w])
  }

  ghost predicate NobodyYet<T>(l: Local<T>) {
    && l.due == map[] && l.heard == map[]
    && forall n :: n in l.clients ==> !l.clients[n].registered && l.clients[n].lastUpdate == 0
  }

  /** A schedule from the start of a broker with `n` workers. */
  ghost predicate FromStart<T>(s: System<T>, ms: seq<Move<T>>, n: nat, start: int) {
    && Starting(s, Fresh(n, start)) && Unmonitored(s) && Schedule(s, ms)
    && Timetable(s.clocks, Turns(ms)) && Prompt(s.clocks, Turns(ms))
  }

  /** With one worker the variable is its own. */
  predicate Alone(c: Clocks) {
    && |c.own| == |c.scans| == 1 && (c.last == 0 || c.last == c.own[0])
    && (c.scans[0].Scanning? ==> c.scans[0].from == c.last && (c.last == 0 ==> c.scans[0].t <= c.own[0] + 1))
  }

  lemma {:induction false} AloneSuffices(c: Clocks, tt: seq<Turn>)
    requires ClocksOk(c) && Alone(c) && Timetable(c, tt) && Prompt(c, tt)
    ensures AllSuffice(c, tt, 0)
    decreases |tt|
  {
    assert ScanOk(c, 0);
    if tt != [] {
      TurnOk(c, tt[0]);
      AloneSuffices(Turned(c, tt[0]), tt[1..]);
    }
  }

  lemma FreshOk(n: nat, start: int)
    ensures ClocksOk(Fresh(n, start))
  {
    forall w | 0 <= w < n ensures ScanOk(Fresh(n, start), w) {}
  }

  /** Two runs of worker 0 and one of worker 1 in the second after them. */
  function Ahead(t: int): seq<Turn> { [Begin(0, t + 1), End(0), Begin(0, t + 2), End(0), Begin(1, t + 2), End(1)] }

  /** What the clocks are after the first `k` of these turns. */
  function AheadClocks(n: nat, t: int, k: nat): Clocks
    requires n >= 2 && k <= 6
  {
    var c := Fresh(n, t);
    if k == 0 then c
    else if k == 1 then Clocks(0, t + 1, c.own, c.scans[0 := Scanning(0, t + 1)])
    else if k == 2 then Clocks(t + 1, t + 1, c.own[0 := t + 1], c.scans)
    else if k == 3 then Clocks(t + 1, t + 2, c.own[0 := t + 1], c.scans[0 := Scanning(t + 1, t + 2)])
    else if k == 4 then Clocks(t + 2, t + 2, c.own[0 := t + 2], c.scans)
    else if k == 5 then Clocks(t + 2, t + 2, c.own[0 := t + 2], c.scans[1 := Scanning(t + 2, t + 2)])
    else Clocks(t + 2, t + 2, c.own[0 := t + 2][1 := t + 2], c.scans)
  }

  lemma AheadTurn(n: nat, t: int, k: nat)
    requires n >= 2 && t >= 1 && k < 6
    ensures var c := AheadClocks(n, t, k);
      Possible(c, Ahead(t)[k]) && Turned(c, Ahead(t)[k]) == AheadClocks(n, t, k + 1)
  {
    var c, c' := Turned(AheadClocks(n, t, k), Ahead(t)[k]), AheadClocks(n, t, k + 1);
    assert c.own == c'.own && c.scans == c'.scans;
  }

  /** The second of two workers comes to its second too late for a client that is due in it. */
  lemma {:induction false} AheadOverlooks(n: nat, t: int, k: nat)
    requires n >= 2 && t >= 1 && k < 6
    ensures var c, tt := AheadClocks(n, t, k), Ahead(t)[k..];
      Timetable(c, tt) && Prompt(c, tt) && Overlooks(c, tt, 1, t + 2)
    decreases 6 - k
  {
    AheadTurn(n, t, k);
    var tt := Ahead(t)[k..];
    assert tt[0] == Ahead(t)[k] && tt[1..] == Ahead(t)[k + 1..];
    if k < 5 { AheadOverlooks(n, t, k + 1); } else { assert tt[1..] == []; }
  }

  /** A broker with a client of worker 1 whose keep-alive is one second, before and after it is heard of. */
  ghost function OneClient<T>(n: nat, t: int, who: T): System<T> {
    System(Fresh(n, t), seq(n, (v: nat) =>
      Local(if v == 1 then map[who := Client(1, 0, 0, false)] else map[], map[], map[])))
  }

  lemma OneClientHeard<T>(n: nat, t: int, who: T) returns (s: System<T>)
    requires n >= 2 && t >= 1
    ensures var s0, m := OneClient(n, t, who), News(1, Heard(who, t)); Enabled(s0, m) && s == Apply(s0, m)
    ensures s.clocks == Fresh(n, t) && |s.locals| == n && Only(s.locals[1], who, t + 2)
  {
    var s0 := OneClient(n, t, who);
    assert s0.locals[1].clients == map[who := Client(1, 0, 0, false)];
    s := Apply(s0, News(1, Heard(who, t)));
    assert KeepAlives(s0.locals[1].clients)[who] == 1;
  }

  lemma TwoWorkersFail<T>(n: nat, t: int, who: T) returns (ms: seq<Move<T>>)
    requires n >= 2 && t >= 1
    ensures var s := OneClient(n, t, who); FromStart(s, ms, n, t) && !AlwaysExact(s, ms, 1)
  {
    var s, tt := OneClient(n, t, who), Ahead(t);
    forall w | 0 <= w < n ensures StartsOk(s.locals[w], t, t) && NobodyYet(s.locals[w]) {}
    assert Ahead(t)[0..] == tt;
    AheadOverlooks(n, t, 0);
    var s' := OneClientHeard(n, t, who);
    NotExact(s', tt, 1, who, t + 2);
    var rest := Running<T>(tt);
    ms := [News(1, Heard(who, t))] + rest;
    assert ms[1..] == rest;
    TurnsStep(ms);
    RunningTurns<T>(tt);
  }

  lemma AloneExact<T>(s: System<T>, ms: seq<Move<T>>, start: int)
    requires FromStart(s, ms, 1, start)
    ensures AlwaysExact(s, ms, 0)
  {
    FreshOk(1, start);
    AloneSuffices(s.clocks, Turns(ms));
    assert StartsOk(s.locals[0], start, start);
    StaysExact(s, ms, Turns(ms), 0);
  }

  /** From the start of the broker: all workers drop exactly the silent at all of their runs in all schedules, if
      and only if there is one worker. */
  lemma OneWorkerExactly<T(!new)>(n: nat, start: int, who: T)
    requires n >= 1 && start >= 1
    ensures (forall s: System<T>, ms, w: nat :: FromStart(s, ms, n, start) && w < n ==> AlwaysExact(s, ms, w))
            <==> n == 1
  {
    if n == 1 {
      forall s: System<T>, ms, w: nat | FromStart(s, ms, n, start) && w < n ensures AlwaysExact(s, ms, w) {
        AloneExact(s, ms, start);
      }
    } else {
      var ms := TwoWorkersFail(n, start, who);
      assert FromStart(OneClient(n, start, who), ms, n, start) && !AlwaysExact(OneClient(n, start, who), ms, 1);
    }
  }
}
