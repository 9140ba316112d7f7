/** The worker threads of the broker (worker.c) as an interleaved step machine.

    Every worker thread loops over w_poll, w_deliver, w_gc.  A publish callback, run by the
    thread that owns the publishing client, pushes one message to the queue of every worker;
    each worker delivers it and clears its own flag in the message; the owner's thread frees
    the message once the flags that it scans are all clear.  A step is one access to shared
    memory: one flag write, one queue operation under its lock, one flag read. */
module WorkerProtocol {

  // Sizes of the arrays `workers`, `nodes` and `not_done`.
  const MAX_NUM_WORKERS := 64

  /** `numServers` is the number of flags that message_done scans. */
  datatype Config = Config(numWorkers: nat, numServers: nat)

  predicate ValidConfig(c: Config) {
    1 <= c.numWorkers <= MAX_NUM_WORKERS && c.numServers <= MAX_NUM_WORKERS
  }

  /** The identity of an allocated message.  The publishing thread and the fact that the client
      belongs to that thread (and is not the pseudo client, which has no worker) never change. */
  datatype Msg = Msg(publisher: nat, owned: bool, serial: nat)

  /** The mutable part of a message: freed or in use, and one flag per worker. */
  datatype Cell = Cell(free: bool, notDone: seq<bool>)

  /** The progress of workers_queue_message: `i` is the loop counter, `flagged` says that the flag
      of worker `i` is already set. */
  datatype Push = Idle | Pushing(m: Msg, i: nat, flagged: bool)

  datatype Pc =
    | Polling                                 // w_poll and ka_run: client callbacks
    | Draining                                // w_deliver: about to pop
    | Searching(m: Msg)                       // w_deliver: inside sub_search
    | Searched(m: Msg)                        // w_deliver: about to clear the flag
    | Cleared(m: Msg)                         // w_deliver: about to test the owner
    | Collecting                              // w_gc: about to peek
    | Scanning(m: Msg, i: nat, busy: bool)    // w_gc: inside message_done

  /** `published`, `queued`, `delivered` and `freed` record the history of the thread. */
  datatype Worker = Worker(
    pc: Pc, push: Push, msgQ: seq<Msg>, gcQ: seq<Msg>,
    published: seq<Msg>, queued: seq<Msg>, delivered: seq<Msg>, freed: seq<Msg>)

  datatype State = State(workers: seq<Worker>, cells: map<Msg, Cell>)

  datatype Action =
    | Publish(m: Msg, notDone: seq<bool>)     // message_create; `notDone` is whatever malloc left
    | SetFlag | Enqueue | EndPublish
    | BeginDeliver | Pop | Search | ClearFlag | TestOwner | EndDeliver
    | BeginScan | ScanFlag | Free | Busy | EndCollect

  const NewWorker := Worker(Polling, Idle, [], [], [], [], [], [])

  function Init(c: Config): State {
    State(seq(c.numWorkers, _ => NewWorker), map[])
  }

  predicate Enabled(c: Config, s: State, w: nat, a: Action) {
    && w < |s.workers| == c.numWorkers
    && ValidConfig(c)
    && var me := s.workers[w];
    match a
    case Publish(m, notDone) =>
      && me.push.Idle?
      && (me.pc.Polling? || (me.pc.Searching? && !m.owned))
      && m !in s.cells && m.publisher == w && |notDone| == MAX_NUM_WORKERS
    case SetFlag =>
      me.push.Pushing? && me.push.i < c.numWorkers && !me.push.flagged && me.push.m in s.cells
      && |s.cells[me.push.m].notDone| == MAX_NUM_WORKERS
    case Enqueue => me.push.Pushing? && me.push.i < c.numWorkers && me.push.flagged
    case EndPublish => me.push.Pushing? && me.push.i == c.numWorkers && !me.push.flagged
    case BeginDeliver => me.push.Idle? && me.pc.Polling?
    case Pop => me.push.Idle? && me.pc.Draining? && me.msgQ != []
    case Search => me.push.Idle? && me.pc.Searching?
    case ClearFlag =>
      me.push.Idle? && me.pc.Searched? && me.pc.m in s.cells
      && |s.cells[me.pc.m].notDone| == MAX_NUM_WORKERS
    case TestOwner => me.push.Idle? && me.pc.Cleared?
    case EndDeliver => me.push.Idle? && me.pc.Draining? && me.msgQ == []
    case BeginScan => me.push.Idle? && me.pc.Collecting? && me.gcQ != []
    case ScanFlag =>
      me.push.Idle? && me.pc.Scanning? && me.pc.i < c.numServers && me.pc.m in s.cells
      && |s.cells[me.pc.m].notDone| == MAX_NUM_WORKERS
    case Free =>
      me.push.Idle? && me.pc.Scanning? && me.pc.i == c.numServers && !me.pc.busy
      && me.pc.m in s.cells && me.gcQ != []
    case Busy => me.push.Idle? && me.pc.Scanning? && me.pc.i == c.numServers && me.pc.busy
    case EndCollect => me.push.Idle? && me.pc.Collecting? && me.gcQ == []
  }

  function Put(s: State, w: nat, me: Worker): State
    requires w < |s.workers|
  {
    s.(workers := s.workers[w := me])
  }

  function Flag(s: State, m: Msg, i: nat, value: bool): State
    requires m in s.cells && i < |s.cells[m].notDone|
  {
    s.(cells := s.cells[m := s.cells[m].(notDone := s.cells[m].notDone[i := value])])
  }

  function Apply(c: Config, s: State, w: nat, a: Action): State
    requires Enabled(c, s, w, a)
  {
    var me := s.workers[w];
    match a
    case Publish(m, notDone) =>
      Put(s.(cells := s.cells[m := Cell(false, notDone)]), w,
          me.(push := Pushing(m, 0, false), published := me.published + [m]))
    case SetFlag => Put(Flag(s, me.push.m, me.push.i, true), w, me.(push := me.push.(flagged := true)))
    case Enqueue =>
      var i, m := me.push.i, me.push.m;
      var t := s.workers[i];
      var s1 := Put(s, i, t.(msgQ := t.msgQ + [m], queued := t.queued + [m]));
      Put(s1, w, s1.workers[w].(push := Pushing(m, i + 1, false)))
    case EndPublish => Put(s, w, me.(push := Idle))
    case BeginDeliver => Put(s, w, me.(pc := Draining))
    case Pop => Put(s, w, me.(pc := Searching(me.msgQ[0]), msgQ := me.msgQ[1..]))
    case Search => Put(s, w, me.(pc := Searched(me.pc.m), delivered := me.delivered + [me.pc.m]))
    case ClearFlag => Put(Flag(s, me.pc.m, w, false), w, me.(pc := Cleared(me.pc.m)))
    case TestOwner =>
      Put(s, w, if Owns(w, me.pc.m) then me.(pc := Draining, gcQ := me.gcQ + [me.pc.m])
                else me.(pc := Draining))
    case EndDeliver => Put(s, w, me.(pc := Collecting))
    case BeginScan => Put(s, w, me.(pc := Scanning(me.gcQ[0], 0, false)))
    case ScanFlag =>
      Put(s, w, me.(pc := Scanning(me.pc.m, me.pc.i + 1,
                                   me.pc.busy || s.cells[me.pc.m].notDone[me.pc.i])))
    case Free =>
      var m := me.pc.m;
      Put(s.(cells := s.cells[m := s.cells[m].(free := true)]), w,
          me.(pc := Collecting, gcQ := me.gcQ[1..], freed := me.freed + [m]))
    case Busy => Put(s, w, me.(pc := Polling))
    case EndCollect => Put(s, w, me.(pc := Polling))
  }

  // ---------- Runs

  /** A schedule is a list of (thread, action); it is legal when every action is enabled. */
  type Schedule = seq<(nat, Action)>

  predicate Legal(c: Config, run: Schedule)
    decreases |run|, 0
  {
    run == [] ||
    (var last := |run| - 1;
     Legal(c, run[..last]) && Enabled(c, After(c, run[..last]), run[last].0, run[last].1))
  }

  function After(c: Config, run: Schedule): State
    requires Legal(c, run)
    decreases |run|, 1
  {
    if run == [] then Init(c) else
    var last := |run| - 1;
    Apply(c, After(c, run[..last]), run[last].0, run[last].1)
  }

  // ---------- What the invariant talks about

  predicate Owns(w: nat, m: Msg) { m.owned && m.publisher == w }

  predicate Holds(me: Worker, m: Msg) {
    (me.pc.Searching? || me.pc.Searched?) && me.pc.m == m
  }

  /** Worker `me` has still to deliver `m` or to clear its flag. */
  predicate Pending(me: Worker, m: Msg) { m in me.msgQ || Holds(me, m) }

  /** The publisher of `m` is still inside workers_queue_message(m), at worker `w` or before it. */
  predicate Unreached(s: State, w: nat, m: Msg) {
    && m.publisher < |s.workers|
    && var push := s.workers[m.publisher].push;
       push.Pushing? && push.m == m && push.i <= w
  }

  predicate NoDup(q: seq<Msg>) { forall i, j :: 0 <= i < j < |q| ==> q[i] != q[j] }

  /** The sub-sequence of the messages published by thread `p`. */
  function From(p: nat, q: seq<Msg>): (r: seq<Msg>) {
    if q == [] then [] else
    From(p, q[..|q| - 1]) + if q[|q| - 1].publisher == p then [q[|q| - 1]] else []
  }

  /** The sub-sequence of the messages that thread `w` owns. */
  function OwnedBy(w: nat, q: seq<Msg>): (r: seq<Msg>) {
    if q == [] then [] else
    OwnedBy(w, q[..|q| - 1]) + if Owns(w, q[|q| - 1]) then [q[|q| - 1]] else []
  }

  /** Every worker has a scanned flag, or the owner is the only worker. */
  predicate Sufficient(c: Config) { c.numWorkers <= c.numServers || c.numWorkers == 1 }

  // ---------- The safety invariant

  predicate PairOk(s: State, w: nat, m: Msg)
    requires w < |s.workers| && m in s.cells && |s.cells[m].notDone| == MAX_NUM_WORKERS && w < MAX_NUM_WORKERS
  {
    var me, cell := s.workers[w], s.cells[m];
    && (Unreached(s, w, m) <==> m !in me.queued)
    && (Unreached(s, w, m) ==> !Pending(me, m) && me.pc != Cleared(m))
    && (!Unreached(s, w, m) ==> (cell.notDone[w] <==> Pending(me, m)))
    && (Pending(me, m) ==> !cell.free)
  }

  predicate CellOk(c: Config, s: State, m: Msg)
    requires m in s.cells
  {
    && m.publisher < c.numWorkers == |s.workers| <= MAX_NUM_WORKERS
    && |s.cells[m].notDone| == MAX_NUM_WORKERS
    && forall w :: 0 <= w < c.numWorkers ==> PairOk(s, w, m)
  }

  predicate PushOk(c: Config, s: State, w: nat)
    requires w < |s.workers|
  {
    var push := s.workers[w].push;
    push.Pushing? ==>
      && push.m in s.cells && push.m.publisher == w && push.i <= c.numWorkers
      && !s.cells[push.m].free
      && (push.flagged ==> push.i < c.numWorkers && push.i < |s.cells[push.m].notDone|
                           && s.cells[push.m].notDone[push.i])
  }

  /** A message in the collection queue of `w` is complete, in use and owned by `w`. */
  predicate GcOk(s: State, w: nat, m: Msg)
    requires w < |s.workers|
  {
    && m in s.cells && !s.cells[m].free && Owns(w, m)
    && !(s.workers[w].push.Pushing? && s.workers[w].push.m == m)
    && !Pending(s.workers[w], m)
  }

  predicate WorkerOk(c: Config, s: State, w: nat)
    requires w < |s.workers|
  {
    var me := s.workers[w];
    && (forall m :: m in me.queued ==> m in s.cells)
    && (forall m :: m in me.msgQ ==> m in s.cells)
    && (forall m :: m in me.gcQ ==> GcOk(s, w, m))
    && NoDup(me.msgQ) && NoDup(me.gcQ)
    && ((me.pc.Searching? || me.pc.Searched? || me.pc.Cleared?) ==> me.pc.m in s.cells && me.pc.m !in me.msgQ)
    && (me.pc.Cleared? && Owns(w, me.pc.m) ==> GcOk(s, w, me.pc.m) && me.pc.m !in me.gcQ)
    && (me.pc.Scanning? ==>
          && me.gcQ != [] && me.gcQ[0] == me.pc.m && me.pc.m in s.cells
          && me.pc.i <= c.numServers <= |s.cells[me.pc.m].notDone|
          && (!me.pc.busy ==> forall j :: 0 <= j < me.pc.i ==> !s.cells[me.pc.m].notDone[j]))
  }

  predicate Inv(c: Config, s: State) {
    && ValidConfig(c)
    && |s.workers| == c.numWorkers
    && (forall m :: m in s.cells ==> CellOk(c, s, m))
    && (forall w :: 0 <= w < c.numWorkers ==> WorkerOk(c, s, w))
    && (forall w :: 0 <= w < c.numWorkers ==> PushOk(c, s, w))
  }

  lemma InitInv(c: Config)
    requires ValidConfig(c)
    ensures Inv(c, Init(c))
  {}

  lemma PublishInv(c: Config, s: State, w: nat, a: Action)
    requires Inv(c, s) && Enabled(c, s, w, a) && a.Publish?
    ensures Inv(c, Apply(c, s, w, a))
  {
    var s' := Apply(c, s, w, a);
    forall m | m in s'.cells ensures CellOk(c, s', m) {
      forall v | 0 <= v < c.numWorkers ensures PairOk(s', v, m) {
        assert WorkerOk(c, s, v) && (m in s.cells ==> CellOk(c, s, m) && PairOk(s, v, m));
      }
    }
    forall v | 0 <= v < c.numWorkers ensures WorkerOk(c, s', v) && PushOk(c, s', v) {
      assert WorkerOk(c, s, v) && PushOk(c, s, v);
      forall m | m in s'.workers[v].gcQ ensures GcOk(s', v, m) { assert m in s.workers[v].gcQ ==> GcOk(s, v, m); }
    }
  }

  lemma SetFlagInv(c: Config, s: State, w: nat, a: Action)
    requires Inv(c, s) && Enabled(c, s, w, a) && a.SetFlag?
    ensures Inv(c, Apply(c, s, w, a))
  {
    var s' := Apply(c, s, w, a);
    assert WorkerOk(c, s, w) && PushOk(c, s, w);
    forall m | m in s'.cells ensures CellOk(c, s', m) {
      forall v | 0 <= v < c.numWorkers ensures PairOk(s', v, m) {
        assert WorkerOk(c, s, v) && (m in s.cells ==> CellOk(c, s, m) && PairOk(s, v, m));
      }
    }
    forall v | 0 <= v < c.numWorkers ensures WorkerOk(c, s', v) && PushOk(c, s', v) {
      assert WorkerOk(c, s, v) && PushOk(c, s, v);
      assert s.workers[v].pc.Scanning? ==> GcOk(s, v, s.workers[v].pc.m);
      forall m | m in s'.workers[v].gcQ ensures GcOk(s', v, m) { assert m in s.workers[v].gcQ ==> GcOk(s, v, m); }
    }
  }

  lemma EnqueueCells(c: Config, s: State, w: nat)
    requires Inv(c, s) && Enabled(c, s, w, Enqueue)
    ensures var s' := Apply(c, s, w, Enqueue); forall m :: m in s'.cells ==> CellOk(c, s', m)
  {
    var s' := Apply(c, s, w, Enqueue);
    assert PushOk(c, s, w);
    forall m | m in s'.cells ensures CellOk(c, s', m) {
      assert CellOk(c, s, m);
      forall v | 0 <= v < c.numWorkers ensures PairOk(s', v, m) {
        assert WorkerOk(c, s, v) && PairOk(s, v, m);
      }
    }
  }

  lemma EnqueueInv(c: Config, s: State, w: nat, a: Action)
    requires Inv(c, s) && Enabled(c, s, w, a) && a.Enqueue?
    ensures Inv(c, Apply(c, s, w, a))
  {
    var s' := Apply(c, s, w, a);
    EnqueueCells(c, s, w);
    assert WorkerOk(c, s, w) && PushOk(c, s, w) && CellOk(c, s, s.workers[w].push.m);
    assert PairOk(s, s.workers[w].push.i, s.workers[w].push.m);
    forall v | 0 <= v < c.numWorkers ensures WorkerOk(c, s', v) && PushOk(c, s', v) {
      assert WorkerOk(c, s, v) && PushOk(c, s, v);
      forall m | m in s'.workers[v].gcQ ensures GcOk(s', v, m) { assert GcOk(s, v, m); }
    }
  }

  /** A step that changes only its own worker, and neither what is pending there nor its history
      of queued messages, concerns no other worker. */
  lemma LocalInv(c: Config, s: State, w: nat, me': Worker)
    requires Inv(c, s) && w < c.numWorkers
    requires var me := s.workers[w]; me'.push == me.push && me'.queued == me.queued
    requires forall m :: Pending(me', m) <==> Pending(s.workers[w], m)
    requires !me'.pc.Cleared?
    requires WorkerOk(c, Put(s, w, me'), w)
    ensures Inv(c, Put(s, w, me'))
  {
    var s' := Put(s, w, me');
    forall m | m in s'.cells ensures CellOk(c, s', m) {
      assert CellOk(c, s, m);
      forall v | 0 <= v < c.numWorkers ensures PairOk(s', v, m) { assert PairOk(s, v, m); }
    }
    forall v | 0 <= v < c.numWorkers ensures WorkerOk(c, s', v) && PushOk(c, s', v) {
      assert WorkerOk(c, s, v) && PushOk(c, s, v);
      forall m | m in s'.workers[v].gcQ ensures GcOk(s', v, m) {
        assert v != w ==> GcOk(s, v, m);
        assert v == w ==> GcOk(s', w, m);
      }
    }
  }

  lemma LocalStepInv(c: Config, s: State, w: nat, a: Action)
    requires Inv(c, s) && Enabled(c, s, w, a)
    requires !a.Publish? && !a.SetFlag? && !a.Enqueue? && !a.EndPublish? && !a.ClearFlag? && !a.Free?
    ensures Inv(c, Apply(c, s, w, a))
  {
    var me, s' := s.workers[w], Apply(c, s, w, a);
    assert WorkerOk(c, s, w) && PushOk(c, s, w);
    forall m | m in s'.workers[w].gcQ ensures GcOk(s', w, m) {
      assert m in me.gcQ ==> GcOk(s, w, m);
    }
    assert me.gcQ != [] ==> GcOk(s, w, me.gcQ[0]) && CellOk(c, s, me.gcQ[0]);
    LocalInv(c, s, w, s'.workers[w]);
  }

  lemma EndPublishInv(c: Config, s: State, w: nat, a: Action)
    requires Inv(c, s) && Enabled(c, s, w, a) && a.EndPublish?
    ensures Inv(c, Apply(c, s, w, a))
  {
    var s' := Apply(c, s, w, a);
    assert PushOk(c, s, w);
    forall m | m in s'.cells ensures CellOk(c, s', m) {
      forall v | 0 <= v < c.numWorkers ensures PairOk(s', v, m) {
        assert WorkerOk(c, s, v) && (m in s.cells ==> CellOk(c, s, m) && PairOk(s, v, m));
      }
    }
    forall v | 0 <= v < c.numWorkers ensures WorkerOk(c, s', v) && PushOk(c, s', v) {
      assert WorkerOk(c, s, v) && PushOk(c, s, v);
      forall m | m in s'.workers[v].gcQ ensures GcOk(s', v, m) { assert m in s.workers[v].gcQ ==> GcOk(s, v, m); }
    }
  }

  lemma ClearFlagInv(c: Config, s: State, w: nat, a: Action)
    requires Inv(c, s) && Enabled(c, s, w, a) && a.ClearFlag?
    ensures Inv(c, Apply(c, s, w, a))
  {
    var s' := Apply(c, s, w, a);
    assert WorkerOk(c, s, w) && CellOk(c, s, s.workers[w].pc.m) && PairOk(s, w, s.workers[w].pc.m);
    forall m | m in s'.cells ensures CellOk(c, s', m) {
      forall v | 0 <= v < c.numWorkers ensures PairOk(s', v, m) {
        assert WorkerOk(c, s, v) && (m in s.cells ==> CellOk(c, s, m) && PairOk(s, v, m));
      }
    }
    forall v | 0 <= v < c.numWorkers ensures WorkerOk(c, s', v) && PushOk(c, s', v) {
      assert WorkerOk(c, s, v) && PushOk(c, s, v);
      assert s.workers[v].pc.Scanning? ==> GcOk(s, v, s.workers[v].pc.m);
      forall m | m in s'.workers[v].gcQ ensures GcOk(s', v, m) { assert m in s.workers[v].gcQ ==> GcOk(s, v, m); }
    }
  }

  lemma FreeInv(c: Config, s: State, w: nat, a: Action)
    requires Sufficient(c) && Inv(c, s) && Enabled(c, s, w, a) && a.Free?
    ensures Inv(c, Apply(c, s, w, a))
  {
    var s' := Apply(c, s, w, a);
    assert WorkerOk(c, s, w) && GcOk(s, w, s.workers[w].pc.m) && CellOk(c, s, s.workers[w].pc.m);
    forall m | m in s'.cells ensures CellOk(c, s', m) {
      forall v | 0 <= v < c.numWorkers ensures PairOk(s', v, m) {
        assert WorkerOk(c, s, v) && (m in s.cells ==> CellOk(c, s, m) && PairOk(s, v, m));
      }
    }
    forall v | 0 <= v < c.numWorkers ensures WorkerOk(c, s', v) && PushOk(c, s', v) {
      assert WorkerOk(c, s, v) && PushOk(c, s, v);
      forall m | m in s'.workers[v].gcQ ensures GcOk(s', v, m) { assert m in s.workers[v].gcQ ==> GcOk(s, v, m); }
    }
  }

  lemma StepInv(c: Config, s: State, w: nat, a: Action)
    requires Sufficient(c) && Inv(c, s) && Enabled(c, s, w, a)
    ensures Inv(c, Apply(c, s, w, a))
  {
    match a
    case Publish(_, _) => PublishInv(c, s, w, a);
    case SetFlag => SetFlagInv(c, s, w, a);
    case Enqueue => EnqueueInv(c, s, w, a);
    case EndPublish => EndPublishInv(c, s, w, a);
    case ClearFlag => ClearFlagInv(c, s, w, a);
    case Free => FreeInv(c, s, w, a);
    case _ => LocalStepInv(c, s, w, a);
  }

  // ---------- The history invariant

  function InHand(me: Worker): seq<Msg> { if me.pc.Searching? then [me.pc.m] else [] }

  function ToCollect(w: nat, me: Worker): seq<Msg> {
    if (me.pc.Searched? || me.pc.Cleared?) && Owns(w, me.pc.m) then [me.pc.m] else []
  }

  predicate HistoryOk(s: State, w: nat)
    requires w < |s.workers|
  {
    var me := s.workers[w];
    && NoDup(me.queued)
    && me.queued == me.delivered + InHand(me) + me.msgQ
    && OwnedBy(w, me.delivered) == me.freed + me.gcQ + ToCollect(w, me)
    && (forall m :: m in me.freed ==> Owns(w, m) && m in s.cells && s.cells[m].free)
    && NoDup(me.freed)
  }

  /** Queue `w` has received the messages of publisher `p` in the order of publication, all but
      the one that is still on its way. */
  predicate OrderOk(s: State, p: nat, w: nat)
    requires p < |s.workers| && w < |s.workers|
  {
    var pub := s.workers[p];
    && (pub.push.Pushing? ==> pub.published != [] && pub.published[|pub.published| - 1] == pub.push.m)
    && From(p, s.workers[w].queued) ==
       if pub.push.Pushing? && pub.push.i <= w then pub.published[..|pub.published| - 1] else pub.published
  }

  predicate History(c: Config, s: State) {
    && |s.workers| == c.numWorkers
    && (forall w :: 0 <= w < c.numWorkers ==> HistoryOk(s, w))
    && (forall p, w :: 0 <= p < c.numWorkers && 0 <= w < c.numWorkers ==> OrderOk(s, p, w))
    && (forall m :: m in s.cells && s.cells[m].free ==>
          m.owned && m.publisher < c.numWorkers && m in s.workers[m.publisher].freed)
  }

  lemma EnqueueHistory(c: Config, s: State, w: nat, v: nat)
    requires Inv(c, s) && History(c, s) && Enabled(c, s, w, Enqueue) && v < c.numWorkers
    ensures HistoryOk(Apply(c, s, w, Enqueue), v)
  {
    var m, i := s.workers[w].push.m, s.workers[w].push.i;
    assert HistoryOk(s, v) && PushOk(c, s, w) && CellOk(c, s, m) && PairOk(s, i, m);
    var me, me' := s.workers[v], Apply(c, s, w, Enqueue).workers[v];
    if v == i {
      assert me'.queued == me.queued + [m];
      assert me.delivered + InHand(me) + (me.msgQ + [m]) == me.delivered + InHand(me) + me.msgQ + [m];
    }
  }

  lemma Appended(p: nat, q: seq<Msg>, m: Msg)
    ensures From(p, q + [m]) == From(p, q) + if m.publisher == p then [m] else []
    ensures OwnedBy(p, q + [m]) == OwnedBy(p, q) + if Owns(p, m) then [m] else []
  {
    assert (q + [m])[..|q|] == q;
  }

  lemma PopHistory(c: Config, s: State, w: nat)
    requires Inv(c, s) && History(c, s) && Enabled(c, s, w, Pop)
    ensures HistoryOk(Apply(c, s, w, Pop), w)
  {
    var me := s.workers[w];
    assert HistoryOk(s, w);
    assert me.delivered + [] + me.msgQ == me.delivered + [me.msgQ[0]] + me.msgQ[1..];
  }

  lemma SearchHistory(c: Config, s: State, w: nat)
    requires Inv(c, s) && History(c, s) && Enabled(c, s, w, Search)
    ensures HistoryOk(Apply(c, s, w, Search), w)
  {
    var me, me' := s.workers[w], Apply(c, s, w, Search).workers[w];
    assert HistoryOk(s, w);
    assert me.delivered + [me.pc.m] + me.msgQ == me'.delivered + [] + me.msgQ;
    Appended(w, me.delivered, me.pc.m);
    assert ToCollect(w, me) == [] && me.freed + me.gcQ + [] == me.freed + me.gcQ;
  }

  lemma TestOwnerHistory(c: Config, s: State, w: nat)
    requires Inv(c, s) && History(c, s) && Enabled(c, s, w, TestOwner)
    ensures HistoryOk(Apply(c, s, w, TestOwner), w)
  {
    var me, me' := s.workers[w], Apply(c, s, w, TestOwner).workers[w];
    assert HistoryOk(s, w);
    assert me.freed + me.gcQ + ToCollect(w, me) == me'.freed + me'.gcQ + ToCollect(w, me');
  }

  lemma FreeHistory(c: Config, s: State, w: nat)
    requires Inv(c, s) && History(c, s) && Enabled(c, s, w, Free)
    ensures HistoryOk(Apply(c, s, w, Free), w)
  {
    var me := s.workers[w];
    assert HistoryOk(s, w) && WorkerOk(c, s, w) && GcOk(s, w, me.pc.m);
    assert me.freed + me.gcQ == me.freed + [me.pc.m] + me.gcQ[1..];
  }

  lemma StepWorkerHistory(c: Config, s: State, w: nat, a: Action, v: nat)
    requires Inv(c, s) && History(c, s) && Enabled(c, s, w, a) && v < c.numWorkers
    ensures HistoryOk(Apply(c, s, w, a), v)
  {
    var s' := Apply(c, s, w, a);
    assert HistoryOk(s, v) && HistoryOk(s, w);
    if a.Enqueue? {
      EnqueueHistory(c, s, w, v);
    } else if v == w {
      match a
      case Pop => PopHistory(c, s, w);
      case Search => SearchHistory(c, s, w);
      case TestOwner => TestOwnerHistory(c, s, w);
      case Free => FreeHistory(c, s, w);
      case _ =>
    }
  }

  lemma PublishOrder(c: Config, s: State, w: nat, a: Action, p: nat, v: nat)
    requires Enabled(c, s, w, a) && p < c.numWorkers && v < c.numWorkers && OrderOk(s, p, v) && a.Publish?
    ensures OrderOk(Apply(c, s, w, a), p, v)
  {
    var b := s.workers[w].published;
    assert (b + [a.m])[..|b|] == b;
  }

  /** What one push does to the order of publisher `p` in the queue of `v`. */
  lemma PushOrder(pub: seq<Msg>, m: Msg, i: nat, p: nat, v: nat, queued: seq<Msg>)
    requires pub != [] && pub[|pub| - 1] == m && m.publisher == p
    requires From(p, queued) == if i <= v then pub[..|pub| - 1] else pub
    ensures From(p, if i == v then queued + [m] else queued) == if i + 1 <= v then pub[..|pub| - 1] else pub
  {
    if i == v {
      Appended(p, queued, m);
      assert pub == pub[..|pub| - 1] + [m];
    }
  }

  /** The workers after a push, as far as the order is concerned. */
  lemma Enqueued(c: Config, s: State, w: nat, v: nat)
    requires Enabled(c, s, w, Enqueue) && v < c.numWorkers
    ensures var push, t, t' := s.workers[w].push, s.workers[v], Apply(c, s, w, Enqueue).workers[v];
      && t'.published == t.published
      && t'.push == (if v == w then Pushing(push.m, push.i + 1, false) else t.push)
      && t'.queued == (if v == push.i then t.queued + [push.m] else t.queued)
  {}

  lemma EnqueueOrder(c: Config, s: State, w: nat, p: nat, v: nat)
    requires Enabled(c, s, w, Enqueue) && p < c.numWorkers && v < c.numWorkers && OrderOk(s, p, v) && PushOk(c, s, w)
    ensures OrderOk(Apply(c, s, w, Enqueue), p, v)
  {
    var push, queued := s.workers[w].push, s.workers[v].queued;
    Enqueued(c, s, w, p);
    Enqueued(c, s, w, v);
    if p == w {
      PushOrder(s.workers[w].published, push.m, push.i, p, v, queued);
    } else if v == push.i {
      Appended(p, queued, push.m);
    }
  }

  lemma LocalOrder(c: Config, s: State, w: nat, a: Action, p: nat, v: nat)
    requires Enabled(c, s, w, a) && p < c.numWorkers && v < c.numWorkers && OrderOk(s, p, v) && OrderOk(s, w, v)
    requires !a.Publish? && !a.Enqueue? && (a.EndPublish? ==> v < s.workers[w].push.i)
    ensures OrderOk(Apply(c, s, w, a), p, v)
  {}

  lemma StepOrder(c: Config, s: State, w: nat, a: Action, p: nat, v: nat)
    requires Enabled(c, s, w, a) && p < c.numWorkers && v < c.numWorkers && OrderOk(s, p, v) && OrderOk(s, w, v) &&
             PushOk(c, s, w)
    ensures OrderOk(Apply(c, s, w, a), p, v)
  {
    match a
    case Publish(_, _) => PublishOrder(c, s, w, a, p, v);
    case Enqueue => EnqueueOrder(c, s, w, p, v);
    case _ => LocalOrder(c, s, w, a, p, v);
  }

  lemma StepHistory(c: Config, s: State, w: nat, a: Action)
    requires Inv(c, s) && History(c, s) && Enabled(c, s, w, a)
    ensures History(c, Apply(c, s, w, a))
  {
    var s' := Apply(c, s, w, a);
    forall v | 0 <= v < c.numWorkers ensures HistoryOk(s', v) { StepWorkerHistory(c, s, w, a, v); }
    forall p, v | 0 <= p < c.numWorkers && 0 <= v < c.numWorkers ensures OrderOk(s', p, v) {
      assert OrderOk(s, p, v) && OrderOk(s, w, v) && PushOk(c, s, w);
      StepOrder(c, s, w, a, p, v);
    }
    if a.Free? {
      assert WorkerOk(c, s, w) && GcOk(s, w, s.workers[w].pc.m);
    }
  }
}
