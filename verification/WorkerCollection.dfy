/** What w_gc has freed once no message is on its way, whatever the interleaving, and exactly when
    that is everything. */
module WorkerCollection {
  import opened WorkerProtocol
  import opened WorkerTheorems

  /** No message is on its way: nothing is queued, in hand, or being pushed. */
  ghost predicate Quiet(s: State) {
    forall w :: 0 <= w < |s.workers| ==>
      var me := s.workers[w];
      me.push.Idle? && me.msgQ == [] && !me.pc.Searching? && !me.pc.Searched? && !me.pc.Cleared?
  }

  ghost predicate NoPublish(run: Schedule) { forall i :: 0 <= i < |run| ==> !run[i].1.Publish? }

  /** message_done scans a flag of `m` that belongs to no worker and is set. */
  ghost predicate Stray(c: Config, s: State, m: Msg) {
    && m in s.cells
    && exists j :: c.numWorkers <= j < c.numServers && j < |s.cells[m].notDone| && s.cells[m].notDone[j]
  }

  /** Worker `w` is inside a pass of w_gc in which all it has read are clear flags, or nothing that
      it could free is left. */
  ghost predicate Clean(c: Config, s: State, w: nat)
    requires w < |s.workers|
  {
    var me := s.workers[w];
    me.gcQ == [] || Stray(c, s, me.gcQ[0]) || me.pc.Collecting? || (me.pc.Scanning? && !me.pc.busy)
  }

  // ---------- The flags that belong to no worker

  /** No step but the creation of `m` changes them. */
  lemma FlagsKept(c: Config, s: State, w: nat, a: Action, m: Msg)
    requires Inv(c, s) && Enabled(c, s, w, a) && m in s.cells
    ensures var s' := Apply(c, s, w, a);
      && m in s'.cells && |s'.cells[m].notDone| == |s.cells[m].notDone|
      && (forall j :: c.numWorkers <= j < |s.cells[m].notDone| ==> s'.cells[m].notDone[j] == s.cells[m].notDone[j])
      && (Stray(c, s, m) <==> Stray(c, s', m))
  {
    assert PushOk(c, s, w) && WorkerOk(c, s, w);
    var s' := Apply(c, s, w, a);
    if Stray(c, s, m) {
      var j :| c.numWorkers <= j < c.numServers && j < |s.cells[m].notDone| && s.cells[m].notDone[j];
      assert s'.cells[m].notDone[j];
    }
  }

  /** What malloc left in the flags that belong to no worker. */
  ghost predicate LeftSet(c: Config, a: Action) {
    a.Publish? && exists j :: c.numWorkers <= j < c.numServers && j < |a.notDone| && a.notDone[j]
  }

  lemma StrayFromStart(c: Config, s: State, w: nat, a: Action, m: Msg)
    requires Inv(c, s) && Enabled(c, s, w, a) && m !in s.cells && m in Apply(c, s, w, a).cells
    ensures a.Publish? && a.m == m && (Stray(c, Apply(c, s, w, a), m) <==> LeftSet(c, a))
  {}

  /** A message is stray exactly if malloc left such a flag set when it was created. */
  lemma {:induction false} StrayExactly(c: Config, run: Schedule, m: Msg) returns (k: nat)
    requires ValidConfig(c) && Sufficient(c) && Legal(c, run) && m in After(c, run).cells
    ensures k < |run| && run[k].1.Publish? && run[k].1.m == m
    ensures Stray(c, After(c, run), m) <==> LeftSet(c, run[k].1)
  {
    var last := |run| - 1;
    var before, s := run[..last], After(c, run[..last]);
    RunInv(c, before);
    if m in s.cells {
      k := StrayExactly(c, before, m);
      FlagsKept(c, s, run[last].0, run[last].1, m);
    } else {
      k := last;
      StrayFromStart(c, s, run[last].0, run[last].1, m);
    }
  }

  /** A freed message is not stray. */
  lemma {:induction false} FreedNotStray(c: Config, run: Schedule, m: Msg)
    requires ValidConfig(c) && Sufficient(c) && Legal(c, run)
    requires m in After(c, run).cells && After(c, run).cells[m].free
    ensures !Stray(c, After(c, run), m)
  {
    if run != [] {
      var last := |run| - 1;
      var s := After(c, run[..last]);
      RunInv(c, run[..last]);
      assert WorkerOk(c, s, run[last].0);
      if m in s.cells {
        FlagsKept(c, s, run[last].0, run[last].1, m);
        if s.cells[m].free { FreedNotStray(c, run[..last], m); }
      }
    }
  }

  // ---------- One step without a publish

  lemma QuietStep(c: Config, s: State, w: nat, a: Action)
    requires Inv(c, s) && Quiet(s) && Enabled(c, s, w, a) && !a.Publish?
    ensures var s' := Apply(c, s, w, a);
      Quiet(s') && forall v :: 0 <= v < c.numWorkers && v != w ==> s'.workers[v] == s.workers[v]
  {}

  /** A flag that is read set belongs to no worker. */
  lemma ReadsClear(c: Config, s: State, w: nat)
    requires Inv(c, s) && Quiet(s) && Enabled(c, s, w, ScanFlag)
    ensures var m, i := s.workers[w].pc.m, s.workers[w].pc.i; s.cells[m].notDone[i] ==> Stray(c, s, m)
  {
    var m, i := s.workers[w].pc.m, s.workers[w].pc.i;
    assert WorkerOk(c, s, w) && GcOk(s, w, m) && CellOk(c, s, m);
    if i < c.numWorkers { assert PairOk(s, i, m); }
  }

  /** A stray message is not freed. */
  lemma StrayBlocks(c: Config, s: State, w: nat)
    requires Inv(c, s) && Enabled(c, s, w, Free)
    ensures !Stray(c, s, s.workers[w].gcQ[0])
  {
    assert WorkerOk(c, s, w);
  }

  lemma OwnStepClean(c: Config, s: State, w: nat, a: Action)
    requires Inv(c, s) && Quiet(s) && Enabled(c, s, w, a) && !a.Publish? && (Clean(c, s, w) || a.EndDeliver?)
    ensures Clean(c, Apply(c, s, w, a), w)
  {
    var me, s' := s.workers[w], Apply(c, s, w, a);
    assert WorkerOk(c, s, w);
    if me.gcQ != [] {
      assert GcOk(s, w, me.gcQ[0]);
      FlagsKept(c, s, w, a, me.gcQ[0]);
    }
    if a.ScanFlag? { ReadsClear(c, s, w); }
    if a.Free? { StrayBlocks(c, s, w); }
  }

  lemma StepClean(c: Config, s: State, w: nat, a: Action, v: nat)
    requires Inv(c, s) && Quiet(s) && Enabled(c, s, w, a) && !a.Publish? && v < c.numWorkers
    requires Clean(c, s, v) || (v == w && a.EndDeliver?)
    ensures Clean(c, Apply(c, s, w, a), v)
  {
    if v == w {
      OwnStepClean(c, s, w, a);
    } else {
      QuietStep(c, s, w, a);
      assert WorkerOk(c, s, v);
      var me := s.workers[v];
      if me.gcQ != [] {
        assert GcOk(s, v, me.gcQ[0]);
        FlagsKept(c, s, w, a, me.gcQ[0]);
      }
    }
  }

  // ---------- Any run without a publish

  /** Worker `v` has entered w_gc in `after`. */
  predicate Entered(after: Schedule, v: nat) { (v, EndDeliver) in after }

  ghost predicate QuietAndClean(c: Config, s: State, after: Schedule) {
    && Quiet(s) && |s.workers| == c.numWorkers
    && forall v :: 0 <= v < c.numWorkers && Entered(after, v) ==> Clean(c, s, v)
  }

  lemma StepQuietAndClean(c: Config, s: State, front: Schedule, step: (nat, Action), s': State, after: Schedule)
    requires Inv(c, s) && QuietAndClean(c, s, front) && Enabled(c, s, step.0, step.1) && !step.1.Publish?
    requires s' == Apply(c, s, step.0, step.1) && after == front + [step]
    ensures QuietAndClean(c, s', after)
  {
    QuietStep(c, s, step.0, step.1);
    forall v | 0 <= v < c.numWorkers && Entered(after, v) ensures Clean(c, s', v) {
      assert Entered(front, v) || (v, EndDeliver) == step;
      StepClean(c, s, step.0, step.1, v);
    }
  }

  lemma NothingEntered(c: Config, run: Schedule)
    requires ValidConfig(c) && Sufficient(c) && Legal(c, run) && Quiet(After(c, run))
    ensures QuietAndClean(c, After(c, run), [])
  {
    RunInv(c, run);
  }

  lemma LastOf(before: Schedule, after: Schedule, run: Schedule)
    requires run == before + after && after != []
    ensures run[..|run| - 1] == before + after[..|after| - 1] && run[|run| - 1] == after[|after| - 1]
    ensures after == after[..|after| - 1] + [after[|after| - 1]]
  {}

  /** Without a publish it stays quiet, and a worker that has entered w_gc since then is clean. */
  lemma {:induction false} StaysClean(c: Config, before: Schedule, after: Schedule, run: Schedule)
    requires ValidConfig(c) && Sufficient(c) && Legal(c, before) && Legal(c, run) && run == before + after
    requires Quiet(After(c, before)) && NoPublish(after)
    ensures QuietAndClean(c, After(c, run), after)
    decreases |after|
  {
    if after == [] {
      assert run == before;
      NothingEntered(c, run);
    } else {
      var front, run' := after[..|after| - 1], run[..|run| - 1];
      LastOf(before, after, run);
      StaysClean(c, before, front, run');
      RunInv(c, run');
      StepQuietAndClean(c, After(c, run'), front, run[|run| - 1], After(c, run), after);
    }
  }

  // ---------- What has been collected

  lemma {:induction false} OwnedByMember(w: nat, q: seq<Msg>, m: Msg)
    ensures m in OwnedBy(w, q) <==> m in q && Owns(w, m)
  {
    if q != [] {
      OwnedByMember(w, q[..|q| - 1], m);
      assert q == q[..|q| - 1] + [q[|q| - 1]];
    }
  }

  predicate Outside(pc: Pc) { !pc.Collecting? && !pc.Scanning? }

  /** The worker frees what it owns in the order of delivery, up to the first stray message; it has
      freed all of it exactly if none is stray. */
  ghost predicate CollectedUpToStray(c: Config, s: State, w: nat)
    requires w < |s.workers|
  {
    var me := s.workers[w];
    && OwnedBy(w, me.delivered) == me.freed + me.gcQ
    && (forall m :: m in me.freed ==> m in s.cells && s.cells[m].free && !Stray(c, s, m))
    && (me.gcQ != [] ==> Stray(c, s, me.gcQ[0]))
    && (me.gcQ == [] <==> forall m :: m in OwnedBy(w, me.delivered) ==> !Stray(c, s, m))
  }

  /** Worker `w` has entered and left w_gc since it went quiet; the other workers may be anywhere. */
  lemma PassCollects(c: Config, before: Schedule, after: Schedule, w: nat)
    requires ValidConfig(c) && Sufficient(c) && Legal(c, before) && Legal(c, before + after)
    requires Quiet(After(c, before)) && NoPublish(after)
    requires w < c.numWorkers && Entered(after, w)
    requires w < |After(c, before + after).workers| && Outside(After(c, before + after).workers[w].pc)
    ensures CollectedUpToStray(c, After(c, before + after), w)
  {
    var s := After(c, before + after);
    StaysClean(c, before, after, before + after);
    RunInv(c, before + after);
    var me := s.workers[w];
    assert HistoryOk(s, w) && Clean(c, s, w);
    assert me.freed + me.gcQ + [] == me.freed + me.gcQ;
    forall m | m in me.freed ensures m in s.cells && s.cells[m].free && !Stray(c, s, m) {
      FreedNotStray(c, before + after, m);
    }
    if me.gcQ != [] { assert me.gcQ[0] in me.freed + me.gcQ; }
  }

  /** Every worker has entered and left w_gc since then. */
  ghost predicate AllPassed(c: Config, before: Schedule, after: Schedule)
    requires Legal(c, before + after)
  {
    var s := After(c, before + after);
    forall w :: 0 <= w < c.numWorkers ==> Entered(after, w) && w < |s.workers| && Outside(s.workers[w].pc)
  }

  ghost predicate AllFreed(s: State) { forall m :: m in s.cells ==> (s.cells[m].free <==> m.owned) }

  lemma QueueOwned(c: Config, s: State, w: nat)
    requires Inv(c, s) && w < c.numWorkers
    ensures forall m :: m in s.workers[w].gcQ ==> m in s.cells && m.owned
  {
    assert WorkerOk(c, s, w);
    forall m | m in s.workers[w].gcQ ensures m in s.cells && m.owned { assert GcOk(s, w, m); }
  }

  lemma FreedIfOwned(c: Config, s: State, m: Msg)
    requires Inv(c, s) && History(c, s) && Quiet(s) && m in s.cells && m.owned
    requires m.publisher < |s.workers| ==> s.workers[m.publisher].gcQ == []
    ensures s.cells[m].free
  {
    assert CellOk(c, s, m);
    var w := m.publisher;
    var me := s.workers[w];
    assert PairOk(s, w, m) && HistoryOk(s, w);
    assert me.delivered + [] + [] == me.delivered && me.freed + [] + [] == me.freed;
    OwnedByMember(w, me.delivered, m);
  }

  lemma FreedOnlyIfOwned(c: Config, s: State, m: Msg)
    requires Inv(c, s) && History(c, s) && Quiet(s) && m in s.cells && s.cells[m].free
    ensures m.owned && m.publisher < c.numWorkers && m in OwnedBy(m.publisher, s.workers[m.publisher].delivered)
  {
    assert HistoryOk(s, m.publisher);
  }

  /** Under every interleaving: once nothing is on its way and every worker has since then been
      through w_gc, all messages that have an owner are freed, and only they, exactly if malloc
      left no scanned flag set that belongs to no worker. */
  lemma CollectionExactly(c: Config, before: Schedule, after: Schedule)
    requires ValidConfig(c) && Sufficient(c) && Legal(c, before) && Legal(c, before + after)
    requires Quiet(After(c, before)) && NoPublish(after) && AllPassed(c, before, after)
    ensures var s := After(c, before + after);
      && |s.workers| == c.numWorkers
      && (forall w :: 0 <= w < c.numWorkers ==> CollectedUpToStray(c, s, w))
      && (AllFreed(s) <==> forall m :: m in s.cells && m.owned ==> !Stray(c, s, m))
  {
    var s := After(c, before + after);
    RunInv(c, before + after);
    StaysClean(c, before, after, before + after);
    forall w | 0 <= w < c.numWorkers ensures CollectedUpToStray(c, s, w) { PassCollects(c, before, after, w); }
    forall m | m in s.cells && s.cells[m].free ensures m.owned && !Stray(c, s, m) {
      FreedNotStray(c, before + after, m);
      FreedOnlyIfOwned(c, s, m);
    }
    if forall m :: m in s.cells && m.owned ==> !Stray(c, s, m) {
      forall m | m in s.cells && m.owned ensures s.cells[m].free {
        assert CellOk(c, s, m) && CollectedUpToStray(c, s, m.publisher);
        QueueOwned(c, s, m.publisher);
        FreedIfOwned(c, s, m);
      }
    }
  }

  /** With no more servers than workers there are no such flags. */
  lemma EverythingCollected(c: Config, before: Schedule, after: Schedule)
    requires ValidConfig(c) && Sufficient(c) && Legal(c, before) && Legal(c, before + after)
    requires Quiet(After(c, before)) && NoPublish(after) && AllPassed(c, before, after)
    requires c.numServers <= c.numWorkers
    ensures var s := After(c, before + after);
      && AllFreed(s) && |s.workers| == c.numWorkers
      && forall w :: 0 <= w < c.numWorkers ==>
           s.workers[w].gcQ == [] && s.workers[w].freed == OwnedBy(w, s.workers[w].delivered)
  {
    CollectionExactly(c, before, after);
    var s := After(c, before + after);
    forall w | 0 <= w < c.numWorkers
      ensures s.workers[w].gcQ == [] && s.workers[w].freed == OwnedBy(w, s.workers[w].delivered)
    {
      assert CollectedUpToStray(c, s, w);
    }
  }

  // ---------- A pass ends

  function Rest(c: Config, pc: Pc): int {
    match pc
    case Polling => 0
    case Scanning(_, i, _) => c.numServers - i + 1
    case Collecting => c.numServers + 2
    case _ => c.numServers + 3
  }

  /** The next step of a worker that is not polling. */
  function NextStep(c: Config, me: Worker): Action
    requires !me.pc.Polling?
  {
    match me.pc
    case Collecting => if me.gcQ == [] then EndCollect else BeginScan
    case Scanning(_, i, busy) => if i < c.numServers then ScanFlag else if busy then Busy else Free
    case _ => EndDeliver
  }

  /** The step can be taken, and it brings the worker nearer to the end of the pass.  Nobody else's
      step moves the worker, so no interleaving keeps it in the pass for ever. */
  lemma PassAdvances(c: Config, s: State, w: nat)
    requires Inv(c, s) && Quiet(s) && w < c.numWorkers && !s.workers[w].pc.Polling?
    ensures var me := s.workers[w]; var a := NextStep(c, me);
      && Enabled(c, s, w, a)
      && var me' := Apply(c, s, w, a).workers[w];
         && |me'.gcQ| <= |me.gcQ|
         && (|me'.gcQ| < |me.gcQ| || 0 <= Rest(c, me'.pc) < Rest(c, me.pc))
  {
    var me := s.workers[w];
    assert WorkerOk(c, s, w);
    if me.pc.Scanning? { assert CellOk(c, s, me.pc.m); }
  }

  /** `s'` comes after `s` in a run without a publish, and only `w` has moved. */
  ghost predicate Alone(c: Config, run: Schedule, s: State, w: nat, after: Schedule) {
    && NoPublish(after) && Legal(c, run)
    && var s' := After(c, run);
       && Quiet(s') && |s'.workers| == |s.workers| == c.numWorkers
       && forall v :: 0 <= v < c.numWorkers && v != w ==> s'.workers[v] == s.workers[v]
  }

  lemma OneMore(c: Config, run: Schedule, s: State, w: nat, after: Schedule, a: Action)
    requires ValidConfig(c) && Sufficient(c) && Alone(c, run, s, w, after)
    requires Enabled(c, After(c, run), w, a) && !a.Publish?
    ensures Alone(c, run + [(w, a)], s, w, after + [(w, a)])
    ensures After(c, run + [(w, a)]) == Apply(c, After(c, run), w, a)
  {
    RunInv(c, run);
    QuietStep(c, After(c, run), w, a);
    assert (run + [(w, a)])[..|run|] == run;
  }

  lemma TailOf(run: Schedule, after: Schedule, x: (nat, Action), after': Schedule)
    requires after + [x] <= after'
    ensures after <= after' && run + after'[|after|..] == run + [x] + after'[|after| + 1..]
  {}

  /** From any quiet point worker `w` can go on alone until it is polling again. */
  lemma {:induction false} Finish(c: Config, run: Schedule, s: State, w: nat, after: Schedule)
    returns (run': Schedule, after': Schedule)
    requires ValidConfig(c) && Sufficient(c) && w < c.numWorkers && Alone(c, run, s, w, after)
    ensures Alone(c, run', s, w, after') && After(c, run').workers[w].pc.Polling?
    ensures after <= after' && run' == run + after'[|after|..]
    decreases |After(c, run).workers[w].gcQ|, Rest(c, After(c, run).workers[w].pc)
  {
    var t := After(c, run);
    if t.workers[w].pc.Polling? {
      run', after' := run, after;
    } else {
      RunInv(c, run);
      var a := NextStep(c, t.workers[w]);
      PassAdvances(c, t, w);
      OneMore(c, run, s, w, after, a);
      var next := after + [(w, a)];
      run', after' := Finish(c, run + [(w, a)], s, w, next);
      TailOf(run, after, (w, a), after');
    }
  }

  /** A worker that is polling can enter w_gc. */
  lemma Enter(c: Config, run: Schedule, s: State, w: nat, after: Schedule) returns (run': Schedule, after': Schedule)
    requires ValidConfig(c) && Sufficient(c) && w < c.numWorkers && Alone(c, run, s, w, after)
    requires After(c, run).workers[w].pc.Polling?
    ensures Alone(c, run', s, w, after') && Entered(after', w)
    ensures after <= after' && run' == run + after'[|after|..]
  {
    OneMore(c, run, s, w, after, BeginDeliver);
    var run1, next := run + [(w, BeginDeliver)], after + [(w, BeginDeliver)];
    OneMore(c, run1, s, w, next, EndDeliver);
    run', after' := run1 + [(w, EndDeliver)], next + [(w, EndDeliver)];
    assert after'[|next|] == (w, EndDeliver);
    assert after'[|after|..] == [(w, BeginDeliver), (w, EndDeliver)];
  }

  /** From there it can make a whole pass. */
  lemma WholePass(c: Config, before: Schedule, w: nat) returns (after: Schedule)
    requires ValidConfig(c) && Sufficient(c) && w < c.numWorkers
    requires Legal(c, before) && Alone(c, before, After(c, before), w, [])
    ensures Alone(c, before + after, After(c, before), w, after) && Entered(after, w)
    ensures After(c, before + after).workers[w].pc.Polling?
  {
    var s := After(c, before);
    var run1, first := Finish(c, before, s, w, []);
    var run2, second := Enter(c, run1, s, w, first);
    var run3;
    run3, after := Finish(c, run2, s, w, second);
    Joined(before, run1, run2, run3, first, second, after);
    var j :| 0 <= j < |second| && second[j] == (w, EndDeliver);
    assert after[j] == second[j];
  }

  lemma Joined(before: Schedule, run1: Schedule, run2: Schedule, run3: Schedule, first: Schedule, second: Schedule,
               after: Schedule)
    requires run1 == before + first && first <= second <= after
    requires run2 == run1 + second[|first|..] && run3 == run2 + after[|second|..]
    ensures run3 == before + after
  {
    assert second == first + second[|first|..] && after == second + after[|second|..];
  }

  ghost predicate Passed(c: Config, run: Schedule, after: Schedule, k: nat) {
    && Legal(c, run) && NoPublish(after) && Quiet(After(c, run)) && |After(c, run).workers| == c.numWorkers
    && forall w :: 0 <= w < k && w < c.numWorkers ==> Entered(after, w) && Outside(After(c, run).workers[w].pc)
  }

  lemma PassedOneMore(c: Config, run: Schedule, first: Schedule, last: Schedule, k: nat, run': Schedule,
                      after: Schedule)
    requires Passed(c, run, first, k) && k < c.numWorkers && run' == run + last && after == first + last
    requires Alone(c, run', After(c, run), k, last) && Entered(last, k) && After(c, run').workers[k].pc.Polling?
    ensures Passed(c, run', after, k + 1)
  {
    forall w | 0 <= w < k + 1 ensures Entered(after, w) && Outside(After(c, run').workers[w].pc) {
      assert w < k ==> Entered(first, w);
    }
  }

  lemma NextPass(c: Config, run: Schedule, first: Schedule, k: nat) returns (last: Schedule)
    requires ValidConfig(c) && Sufficient(c) && Passed(c, run, first, k) && k < c.numWorkers
    ensures Passed(c, run + last, first + last, k + 1)
  {
    last := WholePass(c, run, k);
    PassedOneMore(c, run, first, last, k, run + last, first + last);
  }

  lemma NonePassed(c: Config, run: Schedule)
    requires ValidConfig(c) && Sufficient(c) && Legal(c, run) && Quiet(After(c, run))
    ensures Passed(c, run, [], 0)
  {
    RunInv(c, run);
  }

  lemma Grouped(a: Schedule, b: Schedule, c: Schedule)
    ensures (a + b) + c == a + (b + c)
  {}

  lemma {:induction false} SomeCanPass(c: Config, before: Schedule, k: nat) returns (run: Schedule, after: Schedule)
    requires ValidConfig(c) && Sufficient(c) && Legal(c, before) && Quiet(After(c, before)) && k <= c.numWorkers
    ensures run == before + after && Passed(c, run, after, k)
  {
    if k == 0 {
      NonePassed(c, before);
      run, after := before, [];
    } else {
      var run', first := SomeCanPass(c, before, k - 1);
      var last := NextPass(c, run', first, k - 1);
      run, after := run' + last, first + last;
      Grouped(before, first, last);
    }
  }

  /** From every quiet point there is a way for every worker to have made a whole pass. */
  lemma AllCanPassFrom(c: Config, before: Schedule) returns (after: Schedule)
    requires ValidConfig(c) && Sufficient(c) && Legal(c, before) && Quiet(After(c, before))
    ensures Legal(c, before + after) && NoPublish(after) && AllPassed(c, before, after)
  {
    var run;
    run, after := SomeCanPass(c, before, c.numWorkers);
  }
}
