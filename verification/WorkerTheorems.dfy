/** What holds in every run of the worker threads, and exactly for which configurations. */
module WorkerTheorems {
  import opened WorkerProtocol

  lemma {:induction false} RunInv(c: Config, run: Schedule)
    requires ValidConfig(c) && Sufficient(c) && Legal(c, run)
    ensures Inv(c, After(c, run)) && History(c, After(c, run))
  {
    if run == [] {
      InitInv(c);
    } else {
      var last := |run| - 1;
      var s := After(c, run[..last]);
      RunInv(c, run[..last]);
      StepInv(c, s, run[last].0, run[last].1);
      StepHistory(c, s, run[last].0, run[last].1);
    }
  }

  // ---------- Safety

  /** `me` refers to `m` in a queue or at a place where it goes on to read or write it; the owner
      test that follows the clearing of the flag is treated apart, by `OwnerTestSafe`. */
  predicate Refers(me: Worker, m: Msg) {
    || m in me.msgQ || m in me.gcQ || Holds(me, m)
    || (me.pc.Scanning? && me.pc.m == m)
    || (me.push.Pushing? && me.push.m == m)
  }

  ghost predicate QueueSafe(s: State) {
    forall w, m :: 0 <= w < |s.workers| && Refers(s.workers[w], m) ==> m in s.cells && !s.cells[m].free
  }

  ghost predicate OwnerTestSafe(s: State) {
    forall w :: 0 <= w < |s.workers| && s.workers[w].pc.Cleared? ==>
      s.workers[w].pc.m in s.cells && !s.cells[s.workers[w].pc.m].free
  }

  /** A freed message has been pushed to, delivered by and cleared by every worker, and it was
      freed by its owner, once. */
  ghost predicate FreedSafely(c: Config, s: State) {
    && |s.workers| == c.numWorkers
    && (forall m, w :: m in s.cells && s.cells[m].free && 0 <= w < c.numWorkers ==>
          !Unreached(s, w, m) && m in s.workers[w].queued && !Pending(s.workers[w], m)
          && w < |s.cells[m].notDone| && !s.cells[m].notDone[w])
    && (forall m :: m in s.cells && s.cells[m].free ==>
          m.owned && m.publisher < c.numWorkers && m in s.workers[m.publisher].freed)
    && (forall w, m :: 0 <= w < c.numWorkers && m in s.workers[w].freed ==> m.owned && m.publisher == w)
    && (forall w :: 0 <= w < c.numWorkers ==> NoDup(s.workers[w].freed))
  }

  lemma InvQueueSafe(c: Config, s: State)
    requires Inv(c, s)
    ensures QueueSafe(s)
  {
    forall w, m | 0 <= w < |s.workers| && Refers(s.workers[w], m) ensures m in s.cells && !s.cells[m].free {
      assert WorkerOk(c, s, w) && PushOk(c, s, w);
      assert s.workers[w].pc.Scanning? ==> GcOk(s, w, s.workers[w].pc.m);
      assert m in s.workers[w].gcQ ==> GcOk(s, w, m);
      assert m in s.cells;
      assert CellOk(c, s, m) && PairOk(s, w, m);
    }
  }

  lemma InvFreedSafely(c: Config, s: State)
    requires Inv(c, s) && History(c, s)
    ensures FreedSafely(c, s)
  {
    forall m, w | m in s.cells && s.cells[m].free && 0 <= w < c.numWorkers
      ensures !Unreached(s, w, m) && m in s.workers[w].queued && !Pending(s.workers[w], m)
              && w < |s.cells[m].notDone| && !s.cells[m].notDone[w]
    {
      assert CellOk(c, s, m) && PairOk(s, w, m) && PushOk(c, s, m.publisher);
    }
    forall w | 0 <= w < c.numWorkers
      ensures NoDup(s.workers[w].freed) && forall m :: m in s.workers[w].freed ==> m.owned && m.publisher == w
    {
      assert HistoryOk(s, w);
    }
  }

  /** In every run, whoever refers to a message finds it in use, and messages are freed safely. */
  lemma MessageLifetime(c: Config, run: Schedule)
    requires ValidConfig(c) && Sufficient(c) && Legal(c, run)
    ensures QueueSafe(After(c, run)) && FreedSafely(c, After(c, run))
  {
    RunInv(c, run);
    InvQueueSafe(c, After(c, run));
    InvFreedSafely(c, After(c, run));
  }

  // ---------- Delivery order

  lemma {:induction false} Prefixes(p: nat, a: seq<Msg>, b: seq<Msg>)
    ensures From(p, a) <= From(p, a + b)
  {
    if b == [] {
      assert a + b == a;
    } else {
      var last := |b| - 1;
      Prefixes(p, a, b[..last]);
      Appended(p, a + b[..last], b[last]);
      assert a + b == (a + b[..last]) + [b[last]];
    }
  }

  /** Worker `w` delivers every message at most once, and the messages of publisher `p` in the
      order of publication without a gap; when its queue is drained it has delivered them all. It
      frees what it owns in its own order of delivery. */
  ghost predicate DeliversInOrder(s: State, w: nat, p: nat)
    requires w < |s.workers| && p < |s.workers|
  {
    var me, pub := s.workers[w], s.workers[p];
    && NoDup(me.delivered)
    && From(p, me.delivered) <= pub.published
    && (me.msgQ == [] && !me.pc.Searching? && !pub.push.Pushing? ==> From(p, me.delivered) == pub.published)
    && me.freed <= OwnedBy(w, me.delivered)
  }

  lemma InvDelivers(c: Config, s: State, w: nat, p: nat)
    requires History(c, s) && w < c.numWorkers && p < c.numWorkers
    ensures DeliversInOrder(s, w, p)
  {
    var me := s.workers[w];
    assert HistoryOk(s, w) && OrderOk(s, p, w);
    var rest := InHand(me) + me.msgQ;
    assert me.queued == me.delivered + rest;
    forall i, j | 0 <= i < j < |me.delivered| ensures me.delivered[i] != me.delivered[j] {
      assert me.queued[i] == me.delivered[i] && me.queued[j] == me.delivered[j];
    }
    Prefixes(p, me.delivered, rest);
    if me.msgQ == [] && !me.pc.Searching? { assert me.delivered + rest == me.delivered; }
    assert OwnedBy(w, me.delivered) == me.freed + (me.gcQ + ToCollect(w, me));
  }

  lemma DeliveryOrder(c: Config, run: Schedule)
    requires ValidConfig(c) && Sufficient(c) && Legal(c, run)
    ensures var s := After(c, run); |s.workers| == c.numWorkers
    ensures forall w, p :: 0 <= w < c.numWorkers && 0 <= p < c.numWorkers ==> DeliversInOrder(After(c, run), w, p)
  {
    RunInv(c, run);
    forall w, p | 0 <= w < c.numWorkers && 0 <= p < c.numWorkers ensures DeliversInOrder(After(c, run), w, p) {
      InvDelivers(c, After(c, run), w, p);
    }
  }

  // ---------- The condition is needed

  /** One message, published by worker 0 over memory whose flags were all clear. */
  const M := Msg(0, true, 0)

  const NONE: seq<Msg> := []

  ghost predicate Reachable(c: Config, s: State) { exists run :: Legal(c, run) && After(c, run) == s }

  lemma Extend(c: Config, s: State, w: nat, a: Action)
    requires Reachable(c, s) && Enabled(c, s, w, a)
    ensures Reachable(c, Apply(c, s, w, a))
  {
    var run :| Legal(c, run) && After(c, run) == s;
    var next := run + [(w, a)];
    assert next[..|next| - 1] == run;
    assert Legal(c, next) && After(c, next) == Apply(c, s, w, a);
  }

  function Flags(from: nat, to: nat): (r: seq<bool>) {
    seq(MAX_NUM_WORKERS, j => from <= j < to)
  }

  /** Worker 0 has pushed M to workers 0 to i - 1. */
  function PushedWorker(i: nat, v: nat): Worker {
    Worker(Polling, if v == 0 then Pushing(M, i, false) else Idle, if v < i then [M] else NONE, NONE,
           if v == 0 then [M] else NONE, if v < i then [M] else NONE, NONE, NONE)
  }

  function PushedTo(c: Config, i: nat): State {
    State(seq(c.numWorkers, (v: nat) => PushedWorker(i, v)), map[M := Cell(false, Flags(0, i))])
  }

  /** Workers 0 to k - 1 have delivered M and cleared its flag. */
  function ClearedWorker(k: nat, v: nat): Worker {
    Worker(if v < k then Cleared(M) else Polling, Idle, if v < k then NONE else [M], NONE,
           if v == 0 then [M] else NONE, [M], if v < k then [M] else NONE, NONE)
  }

  function ClearedBy(c: Config, k: nat): State {
    State(seq(c.numWorkers, (v: nat) => ClearedWorker(k, v)), map[M := Cell(false, Flags(k, c.numWorkers))])
  }

  function FlaggedFor(c: Config, i: nat): State
    requires ValidConfig(c) && i < c.numWorkers
  {
    var s := PushedTo(c, i);
    State(s.workers[0 := PushedWorker(i, 0).(push := Pushing(M, i, true))], map[M := Cell(false, Flags(0, i + 1))])
  }

  lemma PushFlag(c: Config, i: nat)
    requires ValidConfig(c) && i < c.numWorkers
    ensures var s := PushedTo(c, i); Enabled(c, s, 0, SetFlag) && Apply(c, s, 0, SetFlag) == FlaggedFor(c, i)
  {
    assert Flags(0, i)[i := true] == Flags(0, i + 1);
  }

  lemma PushItem(c: Config, i: nat)
    requires ValidConfig(c) && i < c.numWorkers
    ensures var s := FlaggedFor(c, i); Enabled(c, s, 0, Enqueue) && Apply(c, s, 0, Enqueue) == PushedTo(c, i + 1)
  {
    var t, t' := Apply(c, FlaggedFor(c, i), 0, Enqueue), PushedTo(c, i + 1);
    assert NONE + [M] == [M];
    forall v | 0 <= v < c.numWorkers ensures t.workers[v] == t'.workers[v] {}
  }

  lemma PushStep(c: Config, i: nat)
    requires ValidConfig(c) && i < c.numWorkers && Reachable(c, PushedTo(c, i))
    ensures Reachable(c, PushedTo(c, i + 1))
  {
    PushFlag(c, i);
    Extend(c, PushedTo(c, i), 0, SetFlag);
    PushItem(c, i);
    Extend(c, FlaggedFor(c, i), 0, Enqueue);
  }

  lemma {:induction false} PushAll(c: Config, i: nat)
    requires ValidConfig(c) && i <= c.numWorkers
    ensures Reachable(c, PushedTo(c, i))
  {
    if i == 0 {
      assert Legal(c, []) && After(c, []) == Init(c);
      var a := Publish(M, Flags(0, 0));
      Extend(c, Init(c), 0, a);
      assert NONE + [M] == [M];
      assert Apply(c, Init(c), 0, a).workers == PushedTo(c, 0).workers;
    } else {
      PushAll(c, i - 1);
      PushStep(c, i - 1);
    }
  }

  function Delivering(c: Config, w: nat, pc: Pc, inQueue: bool, done: bool): State
    requires w < c.numWorkers
  {
    Put(ClearedBy(c, w), w, ClearedWorker(w, w).(pc := pc, msgQ := if inQueue then [M] else NONE,
                                                 delivered := if done then [M] else NONE))
  }

  lemma DeliverSteps(c: Config, w: nat)
    requires ValidConfig(c) && w < c.numWorkers
    ensures var s := ClearedBy(c, w);
      Enabled(c, s, w, BeginDeliver) && Apply(c, s, w, BeginDeliver) == Delivering(c, w, Draining, true, false)
    ensures var s := Delivering(c, w, Draining, true, false);
      Enabled(c, s, w, Pop) && Apply(c, s, w, Pop) == Delivering(c, w, Searching(M), false, false)
    ensures var s := Delivering(c, w, Searching(M), false, false);
      Enabled(c, s, w, Search) && Apply(c, s, w, Search) == Delivering(c, w, Searched(M), false, true)
  {
    assert [M][1..] == NONE && NONE + [M] == [M];
  }

  lemma ClearOne(c: Config, w: nat)
    requires ValidConfig(c) && w < c.numWorkers
    ensures var s := Delivering(c, w, Searched(M), false, true);
      Enabled(c, s, w, ClearFlag) && Apply(c, s, w, ClearFlag) == ClearedBy(c, w + 1)
  {
    assert Flags(w, c.numWorkers)[w := false] == Flags(w + 1, c.numWorkers);
    var t, t' := Apply(c, Delivering(c, w, Searched(M), false, true), w, ClearFlag), ClearedBy(c, w + 1);
    forall v | 0 <= v < c.numWorkers ensures t.workers[v] == t'.workers[v] {}
  }

  lemma ClearStep(c: Config, w: nat)
    requires ValidConfig(c) && w < c.numWorkers && Reachable(c, ClearedBy(c, w))
    ensures Reachable(c, ClearedBy(c, w + 1))
  {
    DeliverSteps(c, w);
    Extend(c, ClearedBy(c, w), w, BeginDeliver);
    Extend(c, Delivering(c, w, Draining, true, false), w, Pop);
    Extend(c, Delivering(c, w, Searching(M), false, false), w, Search);
    ClearOne(c, w);
    Extend(c, Delivering(c, w, Searched(M), false, true), w, ClearFlag);
  }

  lemma {:induction false} ClearSome(c: Config, k: nat)
    requires ValidConfig(c) && k <= c.numWorkers
    ensures Reachable(c, ClearedBy(c, k))
  {
    if k == 0 {
      PushAll(c, c.numWorkers);
      var s := PushedTo(c, c.numWorkers);
      Extend(c, s, 0, EndPublish);
      assert Apply(c, s, 0, EndPublish).workers == ClearedBy(c, 0).workers;
    } else {
      ClearSome(c, k - 1);
      ClearStep(c, k - 1);
    }
  }

  /** Worker 0 has scanned i flags of M; workers 1 to k - 1 are still where `ClearedBy` left them. */
  function ScannedTo(c: Config, k: nat, i: nat): State
    requires 1 <= k <= c.numWorkers
  {
    var s := ClearedBy(c, k);
    s.(workers := s.workers[0 := Worker(Scanning(M, i, false), Idle, [], [M], [M], [M], [M], [])])
  }

  lemma ScanStart(c: Config, k: nat)
    requires ValidConfig(c) && 1 <= k <= c.numWorkers && Reachable(c, ClearedBy(c, k))
    ensures Reachable(c, ScannedTo(c, k, 0))
  {
    var s := ClearedBy(c, k);
    Extend(c, s, 0, TestOwner);
    var s1 := Apply(c, s, 0, TestOwner);
    Extend(c, s1, 0, EndDeliver);
    var s2 := Apply(c, s1, 0, EndDeliver);
    Extend(c, s2, 0, BeginScan);
    assert NONE + [M] == [M];
    assert Apply(c, s2, 0, BeginScan).workers == ScannedTo(c, k, 0).workers;
  }

  lemma {:induction false} ScanSome(c: Config, k: nat, i: nat)
    requires ValidConfig(c) && 1 <= k <= c.numWorkers && i <= c.numServers
    requires c.numServers <= k || k == c.numWorkers
    ensures Reachable(c, ScannedTo(c, k, i))
  {
    if i == 0 {
      ClearSome(c, k);
      ScanStart(c, k);
    } else {
      ScanSome(c, k, i - 1);
      var s := ScannedTo(c, k, i - 1);
      Extend(c, s, 0, ScanFlag);
      assert Apply(c, s, 0, ScanFlag).workers == ScannedTo(c, k, i).workers;
    }
  }

  /** M is freed while the last worker stays where `ClearedBy(c, k)` left it. */
  lemma FreeEarly(c: Config, k: nat) returns (run: Schedule)
    requires ValidConfig(c) && 1 <= k <= c.numWorkers && 2 <= c.numWorkers
    requires c.numServers <= k || k == c.numWorkers
    ensures Legal(c, run)
    ensures var s := After(c, run); var last := c.numWorkers - 1;
      && |s.workers| == c.numWorkers && M in s.cells && s.cells[M].free
      && s.workers[last] == ClearedBy(c, k).workers[last]
  {
    ScanSome(c, k, c.numServers);
    var s := ScannedTo(c, k, c.numServers);
    Extend(c, s, 0, Free);
    run :| Legal(c, run) && After(c, run) == Apply(c, s, 0, Free);
  }

  /** The queues are safe in every run exactly when every worker has a scanned flag, or there is
      only one worker. */
  lemma QueueSafeExactly(c: Config)
    requires ValidConfig(c)
    ensures (forall run :: Legal(c, run) ==> QueueSafe(After(c, run))) <==> Sufficient(c)
  {
    if Sufficient(c) {
      forall run | Legal(c, run) ensures QueueSafe(After(c, run)) { MessageLifetime(c, run); }
    } else {
      var run := FreeEarly(c, if c.numServers == 0 then 1 else c.numServers);
      assert Refers(After(c, run).workers[c.numWorkers - 1], M);
    }
  }

  /** The owner test after the clearing of the flag reads a message that may be gone, in some run,
      exactly when there is a second worker. */
  lemma OwnerTestSafeExactly(c: Config)
    requires ValidConfig(c)
    ensures (forall run :: Legal(c, run) ==> OwnerTestSafe(After(c, run))) <==> c.numWorkers == 1
  {
    if c.numWorkers == 1 {
      forall run | Legal(c, run) ensures OwnerTestSafe(After(c, run)) { OneWorkerOwnerTest(c, run); }
    } else {
      var run := FreeEarly(c, c.numWorkers);
      assert After(c, run).workers[c.numWorkers - 1].pc.Cleared?;
    }
  }

  lemma OneWorkerOwnerTest(c: Config, run: Schedule)
    requires ValidConfig(c) && c.numWorkers == 1 && Legal(c, run)
    ensures OwnerTestSafe(After(c, run))
  {
    RunInv(c, run);
    var s := After(c, run);
    assert WorkerOk(c, s, 0);
    if s.workers[0].pc.Cleared? {
      var m := s.workers[0].pc.m;
      assert CellOk(c, s, m);
    }
  }
}
