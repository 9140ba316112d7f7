/** The wheel against a scan of all clients: when a single run of it is as good, and that over every
    run with a clock that does not go back the two drop the same clients at the same time. */
module KeepAliveRuns {
  import opened KeepAlive

  // ---------- One run

  /** Everybody is due after `b`. */
  ghost predicate After<T>(due: map<T, int>, b: int) { forall n :: n in due ==> due[n] > b }

  /** The bound that makes the buckets of a run suffice. */
  predicate Suffices(last: int, t: int, b: int) {
    if last == t || last > t then b >= t
    else if last == 0 then b >= t - 1
    else b >= last || t - last >= SIZE
  }

  lemma ResidueScanned(last: int, t: int, d: int)
    requires 0 < last < t && d <= t && (last < d || t - last >= SIZE)
    ensures Scanned(last, t, d % SIZE)
  {
    var i := if last < d then d else last + 1 + (d - last - 1) % SIZE;
    assert First(last, t) <= i <= t && i % SIZE == d % SIZE;
  }

  lemma EnoughScanned<T>(due: map<T, int>, last: int, t: int, b: int)
    requires 0 <= last && 0 < t && After(due, b) && Suffices(last, t, b)
    ensures Dropped(due, last, t) == Expired(due, t)
  {
    forall n | n in due && due[n] <= t ensures last != t && Scanned(last, t, due[n] % SIZE) {
      if last == 0 {
        assert First(last, t) <= t <= t && t % SIZE == due[n] % SIZE;
      } else {
        ResidueScanned(last, t, due[n]);
      }
    }
  }

  /** Somebody whom the run passes over. */
  lemma Overlooked(last: int, t: int, b: int) returns (d: int)
    requires 0 <= last && 0 < t && !Suffices(last, t, b)
    ensures b < d <= t && (last == t || !Scanned(last, t, d % SIZE))
  {
    d := if last == t || last > t then t else if last == 0 then t - 1 else last;
  }

  /** A run drops everybody who is due, whoever is monitored, just when the bound suffices. */
  lemma FullScanExactly<T(!new)>(last: int, t: int, b: int, who: T)
    requires 0 <= last && 0 < t
    ensures (forall due: map<T, int> :: After(due, b) ==> Dropped(due, last, t) == Expired(due, t)) <==>
            Suffices(last, t, b)
  {
    if Suffices(last, t, b) {
      forall due: map<T, int> | After(due, b) ensures Dropped(due, last, t) == Expired(due, t) {
        EnoughScanned(due, last, t, b);
      }
    } else {
      var d := Overlooked(last, t, b);
      var due: map<T, int> := map[who := d];
      assert After(due, b) && who in Expired(due, t) && who !in Dropped(due, last, t);
    }
  }

  // ---------- Whole runs

  /** The clock does not go back, nobody comes back after leaving, and the first run is not late. */
  ghost predicate Legal<T>(s: State<T>, e: Event<T>) {
    match e
    case Heard(n, now) => n in s.clients && (s.clients[n].keepAlive > 0 ==> Current(s.clients, s.due, n)) &&
      now >= s.last && now > 0
    case Left(n) => n in s.clients && (s.clients[n].keepAlive > 0 ==> Current(s.clients, s.due, n))
    case Tick(t) => t > 0 && t >= s.last && (s.last == 0 ==> After(s.due, t - 1))
  }

  /** The reference: when every monitored client was last heard of. */
  type Ears<T> = map<T, int>

  ghost function Listen<T>(ka: map<T, nat>, heard: Ears<T>, e: Event<T>): Ears<T> {
    match e
    case Heard(n, now) => if n in ka && ka[n] > 0 then heard[n := now] else heard
    case Left(n) => heard - {n}
    case Tick(t) => heard - Silent(ka, heard, t)
  }

  /** Those not heard of for one and a half times their keep-alive. */
  ghost function Silent<T>(ka: map<T, nat>, heard: Ears<T>, t: int): set<T> {
    set n | n in heard && n in ka && 2 * (t - heard[n]) >= 3 * ka[n]
  }

  ghost function KeepAlives<T>(clients: Clients<T>): map<T, nat> { map n | n in clients :: clients[n].keepAlive }

  /** The wheel and the reference tell the same story. */
  ghost predicate Same<T>(ka: map<T, nat>, s: State<T>, heard: Ears<T>) {
    && KeepAlives(s.clients) == ka && s.due.Keys == heard.Keys && s.last >= 0 && (s.last > 0 ==> After(s.due, s.last))
    && (forall n :: n in heard ==> SameFor(ka, s, heard, n))
    && forall n :: n in s.clients && s.clients[n].lastUpdate != 0 ==> s.clients[n].registered
  }

  ghost predicate SameFor<T>(ka: map<T, nat>, s: State<T>, heard: Ears<T>, n: T)
    requires n in heard && n in s.due
  {
    n in ka && n in s.clients && ka[n] > 0 && s.clients[n].lastUpdate == heard[n] &&
      s.due[n] == heard[n] + Interval(ka[n])
  }

  /** Who is due by `t` has been silent for too long, and the other way round. */
  lemma ExpiredIsSilent<T>(ka: map<T, nat>, s: State<T>, heard: Ears<T>, t: int)
    requires Same(ka, s, heard)
    ensures Expired(s.due, t) == Silent(ka, heard, t)
  {
    forall n | n in heard ensures n in Expired(s.due, t) <==> n in Silent(ka, heard, t) {
      assert SameFor(ka, s, heard, n);
    }
  }

  lemma TickDrops<T>(ka: map<T, nat>, s: State<T>, heard: Ears<T>, t: int)
    requires Same(ka, s, heard) && Legal(s, Tick(t))
    ensures Dropped(s.due, s.last, t) == Expired(s.due, t) == Silent(ka, heard, t)
  {
    EnoughScanned(s.due, s.last, t, if s.last == 0 then t - 1 else s.last);
    ExpiredIsSilent(ka, s, heard, t);
  }

  lemma StepSame<T>(ka: map<T, nat>, s: State<T>, heard: Ears<T>, e: Event<T>)
    requires Same(ka, s, heard) && Legal(s, e)
    ensures Same(ka, Step(s, e), Listen(ka, heard, e))
  {
    var s', heard' := Step(s, e), Listen(ka, heard, e);
    assert forall n :: n in heard ==> SameFor(ka, s, heard, n);
    match e
    case Heard(n, now) =>
      assert KeepAlives(s'.clients) == ka;
      assert forall k :: k in heard' ==> SameFor(ka, s', heard', k);
    case Left(n) =>
      assert forall k :: k in heard' ==> SameFor(ka, s', heard', k);
    case Tick(t) =>
      TickDrops(ka, s, heard, t);
      assert forall k :: k in heard' ==> SameFor(ka, s', heard', k);
  }

  ghost predicate LegalRun<T>(s: State<T>, es: seq<Event<T>>)
    decreases |es|
  {
    es == [] || (Legal(s, es[0]) && LegalRun(Step(s, es[0]), es[1..]))
  }

  /** Who is dropped, run by run, by the wheel and by the reference. */
  ghost function Drops<T>(s: State<T>, es: seq<Event<T>>): seq<set<T>>
    requires LegalRun(s, es)
    decreases |es|
  {
    if es == [] then [] else
    (if es[0].Tick? then [Dropped(s.due, s.last, es[0].t)] else []) + Drops(Step(s, es[0]), es[1..])
  }

  ghost function Silences<T>(ka: map<T, nat>, heard: Ears<T>, es: seq<Event<T>>): seq<set<T>>
    decreases |es|
  {
    if es == [] then [] else
    (if es[0].Tick? then [Silent(ka, heard, es[0].t)] else []) + Silences(ka, Listen(ka, heard, es[0]), es[1..])
  }

  lemma {:induction false} RunSame<T>(ka: map<T, nat>, s: State<T>, heard: Ears<T>, es: seq<Event<T>>)
    requires Same(ka, s, heard) && LegalRun(s, es)
    ensures Drops(s, es) == Silences(ka, heard, es)
    decreases |es|
  {
    if es != [] {
      if es[0].Tick? { TickDrops(ka, s, heard, es[0].t); }
      StepSame(ka, s, heard, es[0]);
      RunSame(ka, Step(s, es[0]), Listen(ka, heard, es[0]), es[1..]);
    }
  }

  /** Over every run the wheel drops a client at the first run that comes one and a half times its
      keep-alive after it was last heard of, and nobody else. */
  lemma WheelIsFullScan<T>(clients: Clients<T>, es: seq<Event<T>>)
    requires forall n :: n in clients ==> !clients[n].registered && clients[n].lastUpdate == 0
    requires LegalRun(State(clients, map[], 0), es)
    ensures Drops(State(clients, map[], 0), es) == Silences(KeepAlives(clients), map[], es)
  {
    RunSame(KeepAlives(clients), State(clients, map[], 0), map[], es);
  }
}
