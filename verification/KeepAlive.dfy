/** The keep-alive wheel (keep_alive.c): a hash table of 101 lists, by the second a client is due.

    `due` gives the expiry of every monitored client's list node.  The field `p` of a list node,
    which leads back to the client, is the map `owner`.  The drop callback is a list of calls. */
module KeepAlive {
  import L = DlList

  const SIZE := 101

  type Buckets = seq<seq<L.Node>>
  type Due = map<L.Node, int>

  ghost function DueAt(due: Due, h: int): set<L.Node> { set n | n in due && due[n] % SIZE == h }

  /** Bucket `h` is a list of exactly the nodes that are due at a second with that remainder. */
  ghost predicate BucketAt(table: seq<L.Node?>, bs: Buckets, due: Due, lm: L.Store, h: int)
    requires 0 <= h < |table| && h < |bs|
  {
    table[h] == L.Head(bs[h]) && L.Listed(bs[h], lm) && L.Elements(bs[h]) == DueAt(due, h)
  }

  ghost predicate Wheeled(table: seq<L.Node?>, bs: Buckets, due: Due, lm: L.Store) {
    && |table| == |bs| == SIZE
    && forall h :: 0 <= h < SIZE ==> BucketAt(table, bs, due, lm, h)
  }

  // ---------- Lists and buckets

  lemma BucketStill(table: seq<L.Node?>, bs: Buckets, due: Due, due': Due, lm: L.Store, lm': L.Store, h: int, g: int)
    requires Wheeled(table, bs, due, lm) && 0 <= h < SIZE && 0 <= g < SIZE && g != h && DueAt(due', g) == DueAt(due, g)
    requires L.SameOn(lm.Keys - L.Elements(bs[h]) - (due'.Keys - due.Keys), lm, lm')
    ensures L.Listed(bs[g], lm')
  {
    assert BucketAt(table, bs, due, lm, g) && BucketAt(table, bs, due, lm, h);
    forall n | n in bs[g] ensures n !in L.Elements(bs[h]) && n in due {
      assert n in L.Elements(bs[g]);
    }
    L.StillListed(bs[g], lm, lm');
  }

  lemma Unlinked(table: seq<L.Node?>, bs: Buckets, due: Due, lm: L.Store, n: L.Node, k: nat, head: L.Node?,
                 lm': L.Store)
    requires Wheeled(table, bs, due, lm) && n in due
    requires var q := bs[due[n] % SIZE];
      && k < |q| && q[k] == n && head == L.Head(L.Without(q, k)) && L.Listed(L.Without(q, k), lm')
      && L.SameOn(lm.Keys - L.Elements(q), lm, lm')
    ensures var h := due[n] % SIZE; Wheeled(table[h := head], bs[h := L.Without(bs[h], k)], due - {n}, lm')
  {
    var h := due[n] % SIZE;
    var q, due' := bs[h], due - {n};
    var table', bs' := table[h := head], bs[h := L.Without(q, k)];
    forall g | 0 <= g < SIZE ensures BucketAt(table', bs', due', lm', g) {
      assert BucketAt(table, bs, due, lm, g);
      if g == h {
        WithoutElements(q, k);
        assert DueAt(due', h) == DueAt(due, h) - {n};
      } else {
        assert DueAt(due', g) == DueAt(due, g);
        BucketStill(table, bs, due, due', lm, lm', h, g);
      }
    }
  }

  lemma WithoutElements(q: seq<L.Node>, k: nat)
    requires L.Distinct(q) && k < |q|
    ensures L.Elements(L.Without(q, k)) == L.Elements(q) - {q[k]}
  {
    var w := L.Without(q, k);
    forall x | x in L.Elements(q) - {q[k]} ensures x in w {
      var i :| 0 <= i < |q| && q[i] == x;
      assert w[if i < k then i else i - 1] == x;
    }
    forall x | x in w ensures x in L.Elements(q) - {q[k]} {
      var i :| 0 <= i < |w| && w[i] == x;
      assert x == q[if i < k then i else i + 1];
    }
  }

  lemma LinkedIn(table: seq<L.Node?>, bs: Buckets, due: Due, lm: L.Store, n: L.Node, e: int, lm': L.Store)
    requires Wheeled(table, bs, due, lm) && n !in due
    requires var q := bs[e % SIZE]; L.Listed([n] + q, lm') && L.SameOn(lm.Keys - L.Elements(q) - {n}, lm, lm')
    ensures var h := e % SIZE; Wheeled(table[h := n], bs[h := [n] + bs[h]], due[n := e], lm')
  {
    var h := e % SIZE;
    var q, due' := bs[h], due[n := e];
    var table', bs' := table[h := n], bs[h := [n] + q];
    forall g | 0 <= g < SIZE ensures BucketAt(table', bs', due', lm', g) {
      assert BucketAt(table, bs, due, lm, g);
      if g == h {
        assert L.Elements([n] + q) == L.Elements(q) + {n};
        assert DueAt(due', h) == DueAt(due, h) + {n};
      } else {
        assert DueAt(due', g) == DueAt(due, g);
        assert due'.Keys - due.Keys == {n};
        BucketStill(table, bs, due, due', lm, lm', h, g);
      }
    }
  }

  /** dllist_remove_ref on the bucket of a node that is due at `e`. */
  method UnlinkFrom(table: seq<L.Node?>, n: L.Node, e: int, ghost k: nat, ghost bs: Buckets, ghost due: Due,
                    ghost lm: L.Store)
    returns (table': seq<L.Node?>, ghost bs': Buckets, ghost lm': L.Store)
    requires L.Holds(lm) && Wheeled(table, bs, due, lm) && n in due && due[n] == e
    requires k < |bs[e % SIZE]| && bs[e % SIZE][k] == n
    modifies lm.Keys
    ensures L.Holds(lm') && lm'.Keys == lm.Keys && n.next == old(n.next) && Wheeled(table', bs', due - {n}, lm')
    ensures bs' == bs[e % SIZE := L.Without(bs[e % SIZE], k)]
  {
    var h := e % SIZE;
    assert BucketAt(table, bs, due, lm, h);
    var head;
    assert n in lm;
    head, lm' := L.RemoveRef(table[h], n, bs[h], k, lm);
    Unlinked(table, bs, due, lm, n, k, head, lm');
    table', bs' := table[h := head], bs[h := L.Without(bs[h], k)];
  }

  /** dllist_insert_head on the bucket of a node that is due at `e`. */
  method LinkInto(table: seq<L.Node?>, n: L.Node, e: int, ghost bs: Buckets, ghost due: Due, ghost lm: L.Store)
    returns (table': seq<L.Node?>, ghost bs': Buckets, ghost lm': L.Store)
    requires L.Holds(lm) && Wheeled(table, bs, due, lm) && n !in due
    modifies lm.Keys, n
    ensures L.Holds(lm') && lm'.Keys == lm.Keys + {n} && Wheeled(table', bs', due[n := e], lm')
  {
    var h := e % SIZE;
    assert BucketAt(table, bs, due, lm, h);
    assert L.Elements(bs[h]) <= due.Keys;
    var head;
    head, lm' := L.InsertHead(table[h], n, bs[h], lm);
    LinkedIn(table, bs, due, lm, n, e, lm');
    table', bs' := table[h := head], bs[h := [n] + bs[h]];
  }

  /** Where in its bucket a monitored client is. */
  lemma InBucket(table: seq<L.Node?>, bs: Buckets, due: Due, lm: L.Store, n: L.Node) returns (k: nat)
    requires Wheeled(table, bs, due, lm) && n in due
    ensures var q := bs[due[n] % SIZE]; k < |q| && q[k] == n
  {
    var h := due[n] % SIZE;
    assert BucketAt(table, bs, due, lm, h) && n in DueAt(due, h);
    assert n in L.Elements(bs[h]);
    k :| 0 <= k < |bs[h]| && bs[h][k] == n;
  }

  /** From the bucket of `e`, where it has been entered, to the bucket of `e'`. */
  method Move(table: seq<L.Node?>, n: L.Node, entered: bool, e: int, e': int, ghost bs: Buckets, ghost due: Due,
              ghost lm: L.Store)
    returns (table': seq<L.Node?>, ghost bs': Buckets, ghost lm': L.Store)
    requires L.Holds(lm) && Wheeled(table, bs, due, lm) && (entered <==> n in due) && (entered ==> due[n] == e)
    modifies lm.Keys, n
    ensures L.Holds(lm') && lm'.Keys == lm.Keys + {n} && Wheeled(table', bs', due[n := e'], lm')
  {
    table', bs', lm' := table, bs, lm;
    if entered {
      ghost var k := InBucket(table, bs, due, lm, n);
      table', bs', lm' := UnlinkFrom(table, n, e, k, bs, due, lm);
    }
    assert (due - {n})[n := e'] == due[n := e'] && (n !in due ==> due - {n} == due);
    table', bs', lm' := LinkInto(table', n, e', bs', due - {n}, lm');
  }

  // ---------- What a run drops

  /** Whether the scan of ka_run at `t`, after one at `last`, comes by remainder `h`. */
  ghost predicate Scanned(last: int, t: int, h: int) {
    exists i :: First(last, t) <= i <= t && i % SIZE == h
  }

  function First(last: int, t: int): int { if last == 0 then t else last + 1 }

  /** The clients that ka_run drops. */
  ghost function Dropped<T>(due: map<T, int>, last: int, t: int): set<T> {
    if last == t then {} else set n | n in due && due[n] <= t && Scanned(last, t, due[n] % SIZE)
  }

  /** The clients that a scan of everybody would drop. */
  ghost function Expired<T>(due: map<T, int>, t: int): set<T> { set n | n in due && due[n] <= t }

  /** The nodes of `q` that are due by `t`, and the others. */
  ghost function Late(q: seq<L.Node>, due: Due, t: int): seq<L.Node> {
    if q == [] then [] else
    var r := Late(q[..|q| - 1], due, t);
    var n := q[|q| - 1];
    if n in due && due[n] <= t then r + [n] else r
  }

  ghost function Alive(q: seq<L.Node>, due: Due, t: int): seq<L.Node> {
    if q == [] then [] else
    var r := Alive(q[..|q| - 1], due, t);
    var n := q[|q| - 1];
    if n in due && due[n] <= t then r else r + [n]
  }

  /** The first `j` nodes of the bucket have been looked at. */
  ghost predicate Scanning(q: seq<L.Node>, due0: Due, t: int, j: nat, bucket: seq<L.Node>, due: Due) {
    && j <= |q| && bucket == Alive(q[..j], due0, t) + q[j..]
    && due == due0 - L.Elements(Late(q[..j], due0, t))
  }

  lemma ScanStep(q: seq<L.Node>, due0: Due, t: int, j: nat, bucket: seq<L.Node>, due: Due)
    requires Scanning(q, due0, t, j, bucket, due) && j < |q| && q[j] in due0
    ensures var k := |Alive(q[..j], due0, t)|;
      && k < |bucket| && bucket[k] == q[j]
      && (k + 1 < |bucket| <==> j + 1 < |q|) && (j + 1 < |q| ==> bucket[k + 1] == q[j + 1])
      && (if due0[q[j]] <= t
          then Scanning(q, due0, t, j + 1, L.Without(bucket, k), due - {q[j]})
               && Late(q[..j + 1], due0, t) == Late(q[..j], due0, t) + [q[j]]
          else Scanning(q, due0, t, j + 1, bucket, due) && Late(q[..j + 1], due0, t) == Late(q[..j], due0, t))
  {
    var a := Alive(q[..j], due0, t);
    assert q[..j + 1][..j] == q[..j] && q[..j + 1][j] == q[j];
    assert q[j..] == [q[j]] + q[j + 1..];
    if due0[q[j]] <= t {
      assert L.Without(bucket, |a|) == a + q[j + 1..];
    } else {
      assert bucket == (a + [q[j]]) + q[j + 1..];
    }
  }

  lemma {:induction false} LateElements(q: seq<L.Node>, due: Due, t: int)
    requires L.Distinct(q)
    ensures L.Elements(Late(q, due, t)) == set n | n in q && n in due && due[n] <= t
    ensures L.Distinct(Late(q, due, t))
  {
    if q != [] {
      var p, n := q[..|q| - 1], q[|q| - 1];
      LateElements(p, due, t);
      var r := Late(p, due, t);
      assert q == p + [n];
      assert n !in L.Elements(r);
      assert L.Elements(r + [n]) == L.Elements(r) + {n};
      DistinctAppend(r, n);
    }
  }

  lemma DistinctAppend(r: seq<L.Node>, n: L.Node)
    requires L.Distinct(r) && n !in L.Elements(r)
    ensures L.Distinct(r + [n])
  {
    assert forall i :: 0 <= i < |r| ==> r[i] in L.Elements(r);
  }

  /** The nodes due by `t` whose remainder has come up among the seconds from `first` up to `i`. */
  ghost function PassedBy(due0: Due, first: int, i: int, t: int): set<L.Node> {
    set n | n in due0 && due0[n] <= t && Passed(first, i, due0[n] % SIZE)
  }

  ghost predicate LeftAfter(due0: Due, first: int, i: int, t: int, due: Due, dropped: seq<L.Node>) {
    due == due0 - L.Elements(dropped) && L.Distinct(dropped) && L.Elements(dropped) == PassedBy(due0, first, i, t)
  }

  ghost predicate Passed(first: int, i: int, h: int) { exists j :: first <= j < i && j % SIZE == h }

  lemma LeftNone(due: Due, first: int, t: int)
    ensures LeftAfter(due, first, first, t, due, [])
  {}

  lemma DistinctConcat(a: seq<L.Node>, b: seq<L.Node>)
    requires L.Distinct(a) && L.Distinct(b) && L.Elements(a) !! L.Elements(b)
    ensures L.Distinct(a + b) && L.Elements(a + b) == L.Elements(a) + L.Elements(b)
  {
    assert forall i :: 0 <= i < |a| ==> a[i] in L.Elements(a);
    assert forall i :: 0 <= i < |b| ==> b[i] in L.Elements(b);
  }

  lemma LeftStep(due0: Due, first: int, i: int, t: int, due: Due, dropped: seq<L.Node>, late: seq<L.Node>)
    requires LeftAfter(due0, first, i, t, due, dropped) && first <= i
    requires L.Distinct(late) && L.Elements(late) == set n | n in DueAt(due, i % SIZE) && due[n] <= t
    ensures LeftAfter(due0, first, i + 1, t, due - L.Elements(late), dropped + late)
  {
    DistinctConcat(dropped, late);
    forall n | n in due0 && due0[n] <= t
      ensures n in PassedBy(due0, first, i + 1, t) <==> n in L.Elements(dropped) || n in L.Elements(late)
    {
      var h := due0[n] % SIZE;
      assert Passed(first, i + 1, h) <==> Passed(first, i, h) || h == i % SIZE by {
        if h == i % SIZE { assert first <= i < i + 1; }
      }
    }
  }

  lemma LeftAll(due0: Due, last: int, first: int, i: int, t: int)
    requires first == First(last, t) && last != t && t < i && first <= i && (i <= t + 1 || i == first)
    ensures PassedBy(due0, first, i, t) == Dropped(due0, last, t)
  {
    forall n | n in due0 ensures Passed(first, i, due0[n] % SIZE) <==> Scanned(last, t, due0[n] % SIZE) {
      var h := due0[n] % SIZE;
      if Passed(first, i, h) {
        var j :| first <= j < i && j % SIZE == h;
        assert First(last, t) <= j <= t;
      }
    }
  }

  // ---------- The wheel

  /** The fields of a client that the wheel uses; `registered` stands for `ka_node.p` being set. */
  datatype Client = Client(keepAlive: nat, expiresAt: int, lastUpdate: int, registered: bool)

  type Clients<T> = map<T, Client>

  /** One and a half times the keep-alive of the client, rounded up. */
  function Interval(keepAlive: nat): (i: nat)
    ensures 2 * i >= 3 * keepAlive && 2 * i <= 3 * keepAlive + 1
  {
    keepAlive + (keepAlive + 1) / 2
  }

  ghost predicate Knows(clients: Clients<L.Node>, due: Due) {
    forall n :: n in due ==> n in clients && KnownAs(clients[n], due[n])
  }

  ghost predicate KnownAs(c: Client, e: int) { c.registered && c.keepAlive > 0 && c.expiresAt == e >= 0 }

  /** The client has not been entered yet, or it is being monitored. */
  ghost predicate Current<T>(clients: Clients<T>, due: map<T, int>, n: T) {
    n in clients && (clients[n].registered <==> n in due)
  }

  lemma DueCount(due: Due, n: L.Node)
    ensures n in due ==> |due - {n}| == |due| - 1
    ensures n !in due ==> |due - {n}| == |due|
  {
    if n !in due { assert due - {n} == due; }
  }

  /** One client of a bucket in ka_run; the node keeps its link when it is removed. */
  method Visit(table: seq<L.Node?>, clients: Clients<L.Node>, lp: L.Node, ghost h: nat, t: int,
               ghost q: seq<L.Node>, ghost due0: Due, ghost j: nat, ghost bs: Buckets, ghost due: Due,
               ghost lm: L.Store)
    returns (table': seq<L.Node?>, next: L.Node?, gone: bool, ghost bs': Buckets, ghost due': Due, ghost lm': L.Store)
    requires L.Holds(lm) && Wheeled(table, bs, due, lm) && Knows(clients, due)
    requires h < SIZE && Scanning(q, due0, t, j, bs[h], due) && j < |q| && lp == q[j] && q[j] in due0
    modifies lm.Keys
    ensures L.Holds(lm') && lm'.Keys == lm.Keys && Wheeled(table', bs', due', lm') && Knows(clients, due')
    ensures Scanning(q, due0, t, j + 1, bs'[h], due') && next == if j + 1 < |q| then q[j + 1] else null
    ensures Late(q[..j + 1], due0, t) == if gone then Late(q[..j], due0, t) + [lp] else Late(q[..j], due0, t)
    ensures |due| == |due'| + if gone then 1 else 0
  {
    ghost var k := |Alive(q[..j], due0, t)|;
    ScanStep(q, due0, t, j, bs[h], due);
    assert BucketAt(table, bs, due, lm, h) && L.LinkedAt(bs[h], lm, k);
    assert lp in L.Elements(bs[h]) && KnownAs(clients[lp], due[lp]);
    table', bs', due', lm' := table, bs, due, lm;
    gone := clients[lp].expiresAt <= t;
    if gone {
      DueCount(due, lp);
      table', bs', lm' := UnlinkFrom(table, lp, clients[lp].expiresAt, k, bs, due, lm);
      due' := due - {lp};
    }
    next := lp.next;
  }

  /** One bucket of ka_run: everybody in it who is due by `t` is dropped. */
  method ScanBucket(table: seq<L.Node?>, clients: Clients<L.Node>, h: nat, t: int, ghost bs: Buckets, ghost due: Due,
                    ghost lm: L.Store)
    returns (table': seq<L.Node?>, late: seq<L.Node>, ghost bs': Buckets, ghost due': Due, ghost lm': L.Store)
    requires L.Holds(lm) && Wheeled(table, bs, due, lm) && Knows(clients, due) && h < SIZE
    modifies lm.Keys
    ensures L.Holds(lm') && lm'.Keys == lm.Keys && Wheeled(table', bs', due', lm') && Knows(clients, due')
    ensures L.Distinct(late) && L.Elements(late) == set n | n in DueAt(due, h) && due[n] <= t
    ensures due' == due - L.Elements(late) && |due| == |due'| + |late|
  {
    ghost var q := bs[h];
    ghost var j := 0;
    assert BucketAt(table, bs, due, lm, h);
    table', bs', due', lm' := table, bs, due, lm;
    late := [];
    var lp := table[h];
    while lp != null
      invariant L.Holds(lm') && lm'.Keys == lm.Keys && Wheeled(table', bs', due', lm') && Knows(clients, due')
      invariant Scanning(q, due, t, j, bs'[h], due') && late == Late(q[..j], due, t) && |due| == |due'| + |late|
      invariant lp == if j < |q| then q[j] else null
      decreases |q| - j
    {
      var next, gone;
      assert q[j] in L.Elements(q);
      table', next, gone, bs', due', lm' := Visit(table', clients, lp, h, t, q, due, j, bs', due', lm');
      if gone { late := late + [lp]; }
      lp := next;
      j := j + 1;
    }
    assert q[..j] == q;
    BucketLate(q, due, h, t);
  }

  lemma BucketLate(q: seq<L.Node>, due: Due, h: nat, t: int)
    requires L.Distinct(q) && L.Elements(q) == DueAt(due, h)
    ensures L.Distinct(Late(q, due, t)) && L.Elements(Late(q, due, t)) == set n | n in DueAt(due, h) && due[n] <= t
  {
    LateElements(q, due, t);
    assert forall n :: n in q <==> n in L.Elements(q);
  }

  /** One second of ka_run. */
  method ScanSecond(table: seq<L.Node?>, clients: Clients<L.Node>, dropped: seq<L.Node>, i: int, t: int,
                    ghost first: int, ghost due0: Due, ghost bs: Buckets, ghost due: Due, ghost lm: L.Store,
                    ghost ns: set<L.Node>)
    returns (table': seq<L.Node?>, dropped': seq<L.Node>, ghost bs': Buckets, ghost due': Due, ghost lm': L.Store)
    requires L.Holds(lm) && lm.Keys == ns && Wheeled(table, bs, due, lm) && Knows(clients, due)
    requires first <= i && LeftAfter(due0, first, i, t, due, dropped) && |due0| == |due| + |dropped|
    modifies ns
    ensures L.Holds(lm') && lm'.Keys == ns && Wheeled(table', bs', due', lm') && Knows(clients, due')
    ensures LeftAfter(due0, first, i + 1, t, due', dropped') && |due0| == |due'| + |dropped'|
  {
    var late;
    table', late, bs', due', lm' := ScanBucket(table, clients, i % SIZE, t, bs, due, lm);
    LeftStep(due0, first, i, t, due, dropped, late);
    dropped' := dropped + late;
  }

  /** The seconds of ka_run, one after the other. */
  method Scan(table: seq<L.Node?>, clients: Clients<L.Node>, first: int, t: int,
              ghost bs: Buckets, ghost due: Due, ghost lm: L.Store, ghost ns: set<L.Node>)
    returns (table': seq<L.Node?>, dropped: seq<L.Node>, ghost bs': Buckets, ghost due': Due, ghost lm': L.Store,
      end: int)
    requires L.Holds(lm) && lm.Keys == ns && Wheeled(table, bs, due, lm) && Knows(clients, due)
    modifies ns
    ensures L.Holds(lm') && lm'.Keys == ns && Wheeled(table', bs', due', lm') && Knows(clients, due')
    ensures LeftAfter(due, first, end, t, due', dropped) && |due| == |due'| + |dropped|
    ensures t < end && first <= end && (end <= t + 1 || end == first)
  {
    LeftNone(due, first, t);
    table', dropped, bs', due', lm', end := table, [], bs, due, lm, first;
    while end <= t
      invariant L.Holds(lm') && lm'.Keys == ns && Wheeled(table', bs', due', lm') && Knows(clients, due')
      invariant LeftAfter(due, first, end, t, due', dropped) && |due| == |due'| + |dropped|
      invariant first <= end && (end <= t + 1 || end == first)
    {
      table', dropped, bs', due', lm' := ScanSecond(table', clients, dropped, end, t, first, due, bs', due', lm', ns);
      end := end + 1;
    }
  }

  lemma Entered(clients: Clients<L.Node>, due: Due, n: L.Node, e: int, clients': Clients<L.Node>)
    requires Knows(clients, due) && Current(clients, due, n) && n in clients' && KnownAs(clients'[n], e)
    requires clients' == clients[n := clients'[n]]
    ensures Knows(clients', due[n := e]) && |due[n := e]| == if clients[n].registered then |due| else |due| + 1
    ensures n in due ==> clients[n].expiresAt == due[n]
  {
    assert n in due ==> KnownAs(clients[n], due[n]);
  }

  /** What becomes known to the wheel: a client is heard of, a client leaves, time passes. */
  datatype Event<T> = Heard(who: T, now: int) | Left(who: T) | Tick(t: int)

  datatype State<T> = State(clients: Clients<T>, due: map<T, int>, last: int)

  predicate Knowing<T(==)>(s: State<T>, e: Event<T>) { e.Tick? || e.who in s.clients }

  /** What the wheel is after an event. */
  ghost function Step<T>(s: State<T>, e: Event<T>): State<T>
    requires Knowing(s, e)
  {
    match e
    case Heard(n, now) =>
      var c := s.clients[n];
      var x := now + Interval(c.keepAlive);
      if c.keepAlive == 0 || c.lastUpdate == now then s
      else State(s.clients[n := Client(c.keepAlive, x, now, true)], s.due[n := x], s.last)
    case Left(n) => if s.clients[n].keepAlive > 0 then s.(due := s.due - {n}) else s
    case Tick(t) => s.(due := s.due - Dropped(s.due, s.last, t), last := t)
  }

  class Wheel {
    var cnt: int
    var kickCnt: int
    var table: seq<L.Node?>
    var lastT: int
    var clients: Clients<L.Node>
    ghost var due: Due
    ghost var buckets: Buckets
    ghost var links: L.Store

    ghost predicate Valid()
      reads this, links.Keys
    {
      && L.Holds(links) && Wheeled(table, buckets, due, links) && Knows(clients, due)
      && cnt == |due| && lastT >= 0
    }

    ghost function View(): State<L.Node>
      reads this
    {
      State(clients, due, lastT)
    }

    /** ka_init */
    constructor (clients: Clients<L.Node>)
      ensures Valid() && View() == State(clients, map[], 0) && kickCnt == 0 && links == map[]
    {
      cnt, kickCnt, lastT := 0, 0, 0;
      table, buckets := seq(SIZE, _ => null), seq(SIZE, _ => []);
      this.clients, due, links := clients, map[], map[];
    }

    /** The client leaves its bucket and is no longer counted. */
    method Unlink(n: L.Node, ghost k: nat)
      requires Valid() && n in due
      requires var q := buckets[due[n] % SIZE]; k < |q| && q[k] == n
      modifies this`table, this`due, this`buckets, this`links, this`cnt, this`clients, links.Keys
      ensures Valid() && links.Keys == old(links.Keys) && due == old(due) - {n} && n.next == old(n.next) &&
              clients == old(clients)
      ensures var h := old(due)[n] % SIZE; buckets == old(buckets)[h := L.Without(old(buckets)[h], k)]
    {
      assert KnownAs(clients[n], due[n]);
      DueCount(due, n);
      var t;
      ghost var bs, lm;
      t, bs, lm := UnlinkFrom(table, n, clients[n].expiresAt, k, buckets, due, links);
      Set(t, cnt - 1, clients, bs, due - {n}, lm);
    }

    /** ka_remove: stop monitoring the client. */
    method Remove(n: L.Node)
      requires Valid() && n in clients && (clients[n].keepAlive > 0 ==> Current(clients, due, n))
      modifies this`table, this`due, this`buckets, this`links, this`cnt, this`clients, links.Keys
      ensures Valid() && links.Keys == old(links.Keys) && View() == Step(old(View()), Left(n))
    {
      if clients[n].keepAlive != 0 && clients[n].registered {
        ghost var k := InBucket(table, buckets, due, links, n);
        Unlink(n, k);
      } else if clients[n].keepAlive != 0 {
        assert due - {n} == due;
      }
    }

    /** ka_update: the client is heard of at `now`. */
    method Update(n: L.Node, now: int)
      requires Valid() && n in clients && (clients[n].keepAlive > 0 ==> Current(clients, due, n)) && now >= 0
      modifies this`table, this`due, this`buckets, this`links, this`cnt, this`clients, links.Keys, n
      ensures Valid() && View() == Step(old(View()), Heard(n, now))
    {
      var c := clients[n];
      if c.keepAlive == 0 {
        return;
      }
      if c.lastUpdate == now {
        return;
      }
      var e := now + Interval(c.keepAlive);
      var clients' := clients[n := Client(c.keepAlive, e, now, true)];
      var cnt' := if c.registered then cnt else cnt + 1;
      Entered(clients, due, n, e, clients');
      var t;
      ghost var bs, lm;
      t, bs, lm := Move(table, n, c.registered, c.expiresAt, e, buckets, due, links);
      Set(t, cnt', clients', bs, due[n := e], lm);
    }

    /** ka_run: whoever is due by `t` and in a bucket of the seconds since the last run is dropped,
        each once; `dropped` stands for the calls of the callback. */
    method Run(t: int) returns (dropped: seq<L.Node>)
      requires Valid() && t > 0
      modifies this`table, this`due, this`buckets, this`links, this`cnt, this`clients, this`kickCnt, this`lastT,
               links.Keys
      ensures Valid() && links.Keys == old(links.Keys) && View() == Step(old(View()), Tick(t))
      ensures L.Distinct(dropped) && L.Elements(dropped) == Dropped(old(due), old(lastT), t)
      ensures kickCnt == old(kickCnt) + |dropped|
    {
      dropped := [];
      if lastT == t {
        return;
      }
      var i := lastT + 1;
      if lastT == 0 {
        i := t;
      }
      var tb, end;
      ghost var bs, d, lm;
      tb, dropped, bs, d, lm, end := Scan(table, clients, i, t, buckets, due, links, links.Keys);
      LeftAll(due, lastT, i, end, t);
      Finish(tb, dropped, t, bs, d, lm);
    }

    /** The end of a run that dropped `dropped`. */
    method Finish(table': seq<L.Node?>, dropped: seq<L.Node>, t: int, ghost buckets': Buckets, ghost due': Due,
                  ghost links': L.Store)
      requires L.Holds(links') && Wheeled(table', buckets', due', links') && Knows(clients, due') &&
               cnt - |dropped| == |due'| && t >= 0
      modifies this`table, this`due, this`buckets, this`links, this`cnt, this`kickCnt, this`lastT
      ensures Valid() && due == due' && links == links' && lastT == t && kickCnt == old(kickCnt) + |dropped|
    {
      table, cnt, kickCnt, lastT, buckets, due, links :=
        table', cnt - |dropped|, kickCnt + |dropped|, t, buckets', due', links';
    }

    method Set(table': seq<L.Node?>, cnt': int, clients': Clients<L.Node>, ghost buckets': Buckets, ghost due': Due,
               ghost links': L.Store)
      requires L.Holds(links') && Wheeled(table', buckets', due', links') && Knows(clients', due') && cnt' == |due'| &&
               lastT >= 0
      modifies this`table, this`due, this`buckets, this`links, this`cnt, this`clients
      ensures Valid() && due == due' && clients == clients' && links == links' && buckets == buckets'
    {
      table, cnt, clients, buckets, due, links := table', cnt', clients', buckets', due', links';
    }
  }
}
