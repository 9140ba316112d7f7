/** That no worker is ever stuck: from every point of every run all that was published can still be delivered and
    collected, and something new can be published. */
module WorkerProgress {
  import opened WorkerProtocol
  import opened WorkerTheorems
  import opened WorkerCollection

  // ---------- The next step

  /** The next step of a worker whose clients are silent. */
  function NextAction(c: Config, me: Worker): Action {
    match me.push
    case Pushing(_, i, flagged) => if i == c.numWorkers then EndPublish else if flagged then Enqueue else SetFlag
    case Idle =>
      match me.pc
      case Polling => BeginDeliver
      case Draining => if me.msgQ == [] then EndDeliver else Pop
      case Searching(_) => Search
      case Searched(_) => ClearFlag
      case Cleared(_) => TestOwner
      case _ => NextStep(c, me)
  }

  lemma NextEnabled(c: Config, s: State, w: nat)
    requires Inv(c, s) && w < c.numWorkers
    ensures Enabled(c, s, w, NextAction(c, s.workers[w])) && !NextAction(c, s.workers[w]).Publish?
  {
    var me := s.workers[w];
    assert WorkerOk(c, s, w) && PushOk(c, s, w);
    if me.push.Pushing? { assert CellOk(c, s, me.push.m); }
    if me.pc.Searched? || me.pc.Scanning? { assert CellOk(c, s, me.pc.m); }
  }

  /** No other step is possible. */
  lemma NextOnly(c: Config, s: State, w: nat, a: Action)
    requires Inv(c, s) && Enabled(c, s, w, a) && !a.Publish?
    ensures a == NextAction(c, s.workers[w])
  {
    assert WorkerOk(c, s, w) && PushOk(c, s, w);
  }

  /** When a client may publish: in w_poll, or a will within a delivery, and no message that is there already. */
  predicate MayPublish(s: State, w: nat, m: Msg)
    requires w < |s.workers|
  {
    var me := s.workers[w];
    me.push == Idle && (me.pc == Polling || (me.pc.Searching? && !m.owned)) && m.publisher == w && m !in s.cells
  }

  /** In every run every worker has exactly one next step, whatever the other workers do, besides what its clients
      publish. */
  lemma NeverStuck(c: Config, run: Schedule, w: nat, a: Action)
    requires ValidConfig(c) && Sufficient(c) && Legal(c, run) && w < c.numWorkers
    ensures |After(c, run).workers| == c.numWorkers
    ensures var s := After(c, run);
      Enabled(c, s, w, a) <==>
        if a.Publish? then MayPublish(s, w, a.m) && |a.notDone| == 64 else a == NextAction(c, s.workers[w])
  {
    RunInv(c, run);
    var s := After(c, run);
    NextEnabled(c, s, w);
    if Enabled(c, s, w, a) && !a.Publish? { NextOnly(c, s, w, a); }
  }

  // ---------- Runs made longer

  lemma Longer(c: Config, run: Schedule, w: nat, a: Action)
    requires Legal(c, run) && Enabled(c, After(c, run), w, a)
    ensures Legal(c, run + [(w, a)]) && After(c, run + [(w, a)]) == Apply(c, After(c, run), w, a)
  {
    assert (run + [(w, a)])[..|run|] == run;
  }

  /** Worker `w` takes its next step. */
  lemma TakeNext(c: Config, run: Schedule, w: nat) returns (run': Schedule)
    requires ValidConfig(c) && Sufficient(c) && Legal(c, run) && w < c.numWorkers
    ensures |After(c, run).workers| == c.numWorkers && Inv(c, After(c, run))
    ensures var a := NextAction(c, After(c, run).workers[w]);
      && run' == run + [(w, a)] && !a.Publish? && Legal(c, run')
      && Enabled(c, After(c, run), w, a) && After(c, run') == Apply(c, After(c, run), w, a)
  {
    RunInv(c, run);
    var a := NextAction(c, After(c, run).workers[w]);
    NextEnabled(c, After(c, run), w);
    Longer(c, run, w, a);
    run' := run + [(w, a)];
  }

  /** `run'` goes on from `run` by `after`, in which nothing is published. */
  ghost predicate GoesOn(c: Config, run: Schedule, after: Schedule, run': Schedule) {
    run' == run + after && NoPublish(after) && Legal(c, run')
  }

  lemma GoesOnTwice(c: Config, run: Schedule, first: Schedule, run1: Schedule, second: Schedule, run2: Schedule)
    requires GoesOn(c, run, first, run1) && GoesOn(c, run1, second, run2)
    ensures GoesOn(c, run, first + second, run2)
  {
    Grouped(run, first, second);
  }

  // ---------- Every push comes to its end

  function PushRest(c: Config, push: Push): int {
    match push
    case Idle => 0
    case Pushing(_, i, flagged) => 2 * (c.numWorkers - i) + if flagged then 0 else 1
  }

  lemma PushStepRest(c: Config, s: State, w: nat)
    requires Inv(c, s) && w < c.numWorkers && s.workers[w].push.Pushing?
    requires Enabled(c, s, w, NextAction(c, s.workers[w]))
    ensures var s' := Apply(c, s, w, NextAction(c, s.workers[w]));
      && 0 <= PushRest(c, s'.workers[w].push) < PushRest(c, s.workers[w].push)
      && forall v :: 0 <= v < c.numWorkers && v != w ==> s'.workers[v].push == s.workers[v].push
  {
    assert PushOk(c, s, w);
  }

  /** The pushes of all workers but `w` stand where they stood. */
  ghost predicate OthersPush(c: Config, s: State, s': State, w: nat) {
    && |s.workers| == |s'.workers| == c.numWorkers
    && forall v :: 0 <= v < c.numWorkers && v != w ==> s'.workers[v].push == s.workers[v].push
  }

  lemma {:induction false} FinishPush(c: Config, run: Schedule, w: nat) returns (after: Schedule, run': Schedule)
    requires ValidConfig(c) && Sufficient(c) && Legal(c, run) && w < c.numWorkers
    requires |After(c, run).workers| == c.numWorkers
    ensures GoesOn(c, run, after, run') && OthersPush(c, After(c, run), After(c, run'), w)
    ensures After(c, run').workers[w].push.Idle?
    decreases PushRest(c, After(c, run).workers[w].push)
  {
    var me := After(c, run).workers[w];
    if me.push.Idle? {
      after, run' := [], run;
    } else {
      var run1 := TakeNext(c, run, w);
      PushStepRest(c, After(c, run), w);
      var rest;
      rest, run' := FinishPush(c, run1, w);
      after := [(w, NextAction(c, me))] + rest;
      GoesOnTwice(c, run, [(w, NextAction(c, me))], run1, rest, run');
    }
  }

  /** The first `k` workers are not in the middle of a push. */
  ghost predicate Pushed(c: Config, s: State, k: nat) {
    |s.workers| == c.numWorkers && forall v :: 0 <= v < k && v < c.numWorkers ==> s.workers[v].push.Idle?
  }

  lemma {:induction false} FinishPushes(c: Config, run: Schedule, k: nat) returns (after: Schedule, run': Schedule)
    requires ValidConfig(c) && Sufficient(c) && Legal(c, run) && k <= c.numWorkers
    ensures GoesOn(c, run, after, run') && Pushed(c, After(c, run'), k)
  {
    RunInv(c, run);
    if k == 0 {
      after, run' := [], run;
    } else {
      var first, run1 := FinishPushes(c, run, k - 1);
      var second;
      second, run' := FinishPush(c, run1, k - 1);
      after := first + second;
      GoesOnTwice(c, run, first, run1, second, run');
    }
  }

  // ---------- Every queue can be drained

  predicate Settled(me: Worker) { me.msgQ == [] && !me.pc.Searching? && !me.pc.Searched? && !me.pc.Cleared? }

  /** How far a worker is from its next Pop. */
  function Stage(pc: Pc): nat {
    match pc
    case Draining => 0
    case Polling => 1
    case Collecting => 2
    case Scanning(_, _, _) => 2
    case Cleared(_) => 3
    case Searched(_) => 4
    case Searching(_) => 5
  }

  /** `w` moves on and the others stand still. */
  ghost predicate OnlyMoves(c: Config, s: State, s': State, w: nat) {
    && |s.workers| == |s'.workers| == c.numWorkers
    && forall v :: 0 <= v < c.numWorkers && v != w ==> s'.workers[v] == s.workers[v]
  }

  lemma DrainStep(c: Config, s: State, w: nat)
    requires Inv(c, s) && w < c.numWorkers && Pushed(c, s, c.numWorkers) && !Settled(s.workers[w])
    requires Enabled(c, s, w, NextAction(c, s.workers[w]))
    ensures var s' := Apply(c, s, w, NextAction(c, s.workers[w])); var me, me' := s.workers[w], s'.workers[w];
      && Pushed(c, s', c.numWorkers) && OnlyMoves(c, s, s', w)
      && |me'.msgQ| <= |me.msgQ|
      && (|me'.msgQ| < |me.msgQ| || Stage(me'.pc) < Stage(me.pc)
          || (Stage(me'.pc) == Stage(me.pc) &&
              (|me'.gcQ| < |me.gcQ| || (me'.gcQ == me.gcQ && 0 <= Rest(c, me'.pc) < Rest(c, me.pc)))))
  {
    assert WorkerOk(c, s, w);
  }

  lemma {:induction false} Drain(c: Config, run: Schedule, w: nat) returns (after: Schedule, run': Schedule)
    requires ValidConfig(c) && Sufficient(c) && Legal(c, run) && w < c.numWorkers
    requires Pushed(c, After(c, run), c.numWorkers)
    ensures GoesOn(c, run, after, run') && OnlyMoves(c, After(c, run), After(c, run'), w)
    ensures Pushed(c, After(c, run'), c.numWorkers) && Settled(After(c, run').workers[w])
    decreases |After(c, run).workers[w].msgQ|, Stage(After(c, run).workers[w].pc), |After(c, run).workers[w].gcQ|,
              Rest(c, After(c, run).workers[w].pc)
  {
    var me := After(c, run).workers[w];
    if Settled(me) {
      after, run' := [], run;
    } else {
      var run1 := TakeNext(c, run, w);
      DrainStep(c, After(c, run), w);
      var rest;
      rest, run' := Drain(c, run1, w);
      after := [(w, NextAction(c, me))] + rest;
      GoesOnTwice(c, run, [(w, NextAction(c, me))], run1, rest, run');
    }
  }

  ghost predicate Drained(c: Config, s: State, k: nat) {
    Pushed(c, s, c.numWorkers) && forall v :: 0 <= v < k && v < c.numWorkers ==> Settled(s.workers[v])
  }

  lemma {:induction false} DrainAll(c: Config, run: Schedule, k: nat) returns (after: Schedule, run': Schedule)
    requires ValidConfig(c) && Sufficient(c) && Legal(c, run) && k <= c.numWorkers
    requires Pushed(c, After(c, run), c.numWorkers)
    ensures GoesOn(c, run, after, run') && Drained(c, After(c, run'), k)
  {
    if k == 0 {
      after, run' := [], run;
    } else {
      var first, run1 := DrainAll(c, run, k - 1);
      var second;
      second, run' := Drain(c, run1, k - 1);
      after := first + second;
      GoesOnTwice(c, run, first, run1, second, run');
    }
  }

  // ---------- Everything is delivered

  /** Every worker has delivered all that was published, each publisher's messages in order. */
  ghost predicate AllDelivered(c: Config, s: State) {
    && |s.workers| == c.numWorkers
    && forall p, w :: 0 <= p < c.numWorkers && 0 <= w < c.numWorkers ==>
         From(p, s.workers[w].delivered) == s.workers[p].published
  }

  lemma QuietDelivered(c: Config, s: State)
    requires History(c, s) && Quiet(s)
    ensures AllDelivered(c, s)
  {
    forall p, w | 0 <= p < c.numWorkers && 0 <= w < c.numWorkers
      ensures From(p, s.workers[w].delivered) == s.workers[p].published
    {
      assert HistoryOk(s, w) && OrderOk(s, p, w);
      assert s.workers[w].delivered + [] + [] == s.workers[w].delivered;
    }
  }

  /** From every point of every run the workers can deliver all that was published so far. */
  lemma AllCanSettle(c: Config, before: Schedule) returns (after: Schedule)
    requires ValidConfig(c) && Sufficient(c) && Legal(c, before)
    ensures Legal(c, before + after) && NoPublish(after)
    ensures Quiet(After(c, before + after)) && AllDelivered(c, After(c, before + after))
  {
    var first, run1 := FinishPushes(c, before, c.numWorkers);
    var second, run2 := DrainAll(c, run1, c.numWorkers);
    after := first + second;
    GoesOnTwice(c, before, first, run1, second, run2);
    RunInv(c, run2);
    QuietDelivered(c, After(c, run2));
  }

  /** From every point of every run all that was published so far can be delivered by every worker and then collected,
      as far as the flags that belong to no worker allow. */
  lemma AllCanPass(c: Config, before: Schedule) returns (first: Schedule, second: Schedule)
    requires ValidConfig(c) && Sufficient(c) && Legal(c, before)
    ensures Legal(c, before + first) && NoPublish(first)
    ensures Quiet(After(c, before + first)) && AllDelivered(c, After(c, before + first))
    ensures Legal(c, before + first + second) && NoPublish(second) && AllPassed(c, before + first, second)
    ensures var s := After(c, before + first + second);
      AllFreed(s) <==> forall m :: m in s.cells && m.owned ==> !Stray(c, s, m)
  {
    first := AllCanSettle(c, before);
    second := AllCanPassFrom(c, before + first);
    CollectionExactly(c, before + first, second);
  }

  // ---------- Something new can be published

  /** No message more, and nobody has published more. */
  ghost predicate NoNews(s: State, s': State) {
    && s'.cells.Keys == s.cells.Keys && |s'.workers| == |s.workers|
    && forall v :: 0 <= v < |s.workers| ==> s'.workers[v].published == s.workers[v].published
  }

  lemma NothingNewStep(c: Config, s: State, w: nat, a: Action)
    requires Enabled(c, s, w, a) && !a.Publish?
    ensures NoNews(s, Apply(c, s, w, a))
  {}

  lemma NothingNewLast(c: Config, s0: State, s: State, s': State, x: (nat, Action))
    requires Enabled(c, s, x.0, x.1) && !x.1.Publish? && s' == Apply(c, s, x.0, x.1) && NoNews(s0, s)
    ensures NoNews(s0, s')
  {
    NothingNewStep(c, s, x.0, x.1);
  }

  lemma {:induction false} NothingNew(c: Config, before: Schedule, after: Schedule, run: Schedule)
    requires Legal(c, before) && GoesOn(c, before, after, run)
    ensures NoNews(After(c, before), After(c, run))
    decreases |after|
  {
    if after == [] {
      assert run == before;
    } else {
      var front, run', x := after[..|after| - 1], run[..|run| - 1], run[|run| - 1];
      LastOf(before, after, run);
      NothingNew(c, before, front, run');
      assert !x.1.Publish?;
      NothingNewLast(c, After(c, before), After(c, run'), After(c, run), x);
    }
  }

  lemma {:induction false} FromMember(p: nat, q: seq<Msg>, m: Msg)
    ensures m in From(p, q) <==> m in q && m.publisher == p
  {
    if q != [] {
      FromMember(p, q[..|q| - 1], m);
      assert q == q[..|q| - 1] + [q[|q| - 1]];
    }
  }

  /** `x` is in `after`, and nothing else is published there. */
  ghost predicate Only(after: Schedule, x: (nat, Action)) {
    x in after && forall i :: 0 <= i < |after| && after[i].1.Publish? ==> after[i] == x
  }

  lemma OnlyAmong(first: Schedule, second: Schedule, third: Schedule, x: (nat, Action))
    requires NoPublish(first) && Only(second, x) && NoPublish(third)
    ensures Only(first + second + third, x)
  {
    var j :| 0 <= j < |second| && second[j] == x;
    assert (first + second + third)[|first| + j] == x;
  }

  /** A client of worker `w` publishes `m` at a quiet point. */
  lemma PublishedHere(c: Config, run: Schedule, w: nat, a: Action) returns (run': Schedule, after: Schedule)
    requires ValidConfig(c) && Sufficient(c) && Legal(c, run) && Quiet(After(c, run)) && w < c.numWorkers
    requires a.Publish? && a.m !in After(c, run).cells && a.m.publisher == w && |a.notDone| == MAX_NUM_WORKERS
    ensures run' == run + after && Legal(c, run') && Only(after, (w, a))
    ensures |After(c, run').workers| == c.numWorkers && a.m in After(c, run').workers[w].published
  {
    RunInv(c, run);
    var run1, first := Finish(c, run, After(c, run), w, []);
    assert first[0..] == first;
    NothingNew(c, run, first, run1);
    Longer(c, run1, w, a);
    run', after := run1 + [(w, a)], first + [(w, a)];
    Grouped(run, first, [(w, a)]);
    assert after[|first|] == (w, a);
    RunInv(c, run');
  }

  lemma PublishedIsDelivered(c: Config, s: State, w: nat, m: Msg)
    requires AllDelivered(c, s) && w < c.numWorkers && m in s.workers[w].published
    ensures forall v :: 0 <= v < c.numWorkers ==> m in s.workers[v].delivered
  {
    forall v | 0 <= v < c.numWorkers ensures m in s.workers[v].delivered {
      assert From(w, s.workers[v].delivered) == s.workers[w].published;
      FromMember(w, s.workers[v].delivered, m);
    }
  }

  lemma Regrouped(a: Schedule, b: Schedule, c: Schedule, d: Schedule)
    ensures a + b + c + d == a + (b + c + d)
  {}

  /** At every point of every run any client can be the next to publish, and then every worker can deliver what it
      publishes. */
  lemma AnyoneCanPublish(c: Config, before: Schedule, w: nat, m: Msg, notDone: seq<bool>) returns (after: Schedule)
    requires ValidConfig(c) && Sufficient(c) && Legal(c, before) && w < c.numWorkers
    requires m !in After(c, before).cells && m.publisher == w && |notDone| == MAX_NUM_WORKERS
    ensures Legal(c, before + after) && Only(after, (w, Publish(m, notDone)))
    ensures |After(c, before + after).workers| == c.numWorkers
    ensures forall v :: 0 <= v < c.numWorkers ==> m in After(c, before + after).workers[v].delivered
  {
    var first := AllCanSettle(c, before);
    NothingNew(c, before, first, before + first);
    var run1, second := PublishedHere(c, before + first, w, Publish(m, notDone));
    var third := AllCanSettle(c, run1);
    NothingNew(c, run1, third, run1 + third);
    PublishedIsDelivered(c, After(c, run1 + third), w, m);
    after := first + second + third;
    Regrouped(before, first, second, third);
    OnlyAmong(first, second, third, (w, Publish(m, notDone)));
  }
}
