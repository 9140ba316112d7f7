/** kavl_insert on nodes in the heap. */
module KavlGrow {
  import opened KavlTree
  import opened KavlRotate
  import opened KavlPath
  import opened KavlInsert
  import opened KavlWalk

  /** The stored balances of the frames from `from` up to `to` tilt towards the path. */
  ghost function TiltIn(ctx: seq<Frame>, from: nat, to: nat): (r: seq<Frame>)
    ensures |r| == |ctx| && SameShape(ctx, r)
    ensures forall i :: 0 <= i < |r| ==>
            r[i].s == ctx[i].s && r[i].b == ctx[i].b + if from <= i < to then Tilt(ctx[i]) else 0
  {
    seq(|ctx|, i requires 0 <= i < |ctx| => ctx[i].(b := ctx[i].b + if from <= i < to then Tilt(ctx[i]) else 0))
  }

  lemma TiltStep(ctx: seq<Frame>, from: nat, i: nat, now: seq<Frame>, next: seq<Frame>)
    requires from <= i < |ctx| && now == TiltIn(ctx, from, i)
    requires next == now[i := now[i].(b := now[i].b + Tilt(now[i]))]
    ensures next == TiltIn(ctx, from, i + 1)
  {}

  lemma TiltAll(ctx: seq<Frame>, k: nat)
    requires k <= |ctx|
    ensures TiltIn(AddSizeIn(ctx, 0, |ctx|, 1), k, |ctx|) == Tilted(ctx, k)
  {}

  lemma {:induction false} BalanceTilted(ctx: seq<Frame>, from: nat, i: nat, t: Tree, m: Store, m': Store)
    requires from <= i < |ctx| && InStore(TiltIn(ctx, from, i), t, m)
    requires var n := ctx[i].n;
      n in m && n in m' && SameOn(m.Keys - {n}, m, m') && m'[n] == m[n].(balance := m[n].balance + Tilt(ctx[i]))
    ensures InStore(TiltIn(ctx, from, i + 1), t, m')
  {
    var now := TiltIn(ctx, from, i);
    PathAt(now, Root(t), m, i);
    var f := now[i].(b := now[i].b + Tilt(now[i]));
    var next := now[i := f];
    TiltStep(ctx, from, i, now, next);
    FrameUpdated(now, i, f, t, m, next, m');
  }

  /** One turn of the second loop of kavl_insert. */
  method TiltOne(p: Node, dir: bool, ghost ctx: seq<Frame>, ghost k: nat, ghost i: nat, ghost t: Tree, ghost m: Store)
      returns (next: Node?, ghost m': Store)
    requires k <= i < |ctx| && p == ctx[i].n && dir == ctx[i].dir
    requires Holds(m) && InStore(TiltIn(ctx, k, i), t, m)
    modifies m.Keys
    ensures Holds(m') && m'.Keys == m.Keys && InStore(TiltIn(ctx, k, i + 1), t, m')
    ensures next == (if i + 1 < |ctx| then ctx[i + 1].n else Root(t)) && p != Root(t)
  {
    FrameAt(ctx, TiltIn(ctx, k, i), t, m, i);
    if !dir {
      p.balance := p.balance - 1;
    } else {
      p.balance := p.balance + 1;
    }
    m' := m[p := Contents(p)];
    BalanceTilted(ctx, k, i, t, m, m');
    next := p.kids.Get(dir);
  }

  /** The second loop of kavl_insert walks down again from `bp`, along the recorded directions. */
  method TiltBalances(bp: Node, x: Node, stack: array<bool>, ghost ctx: seq<Frame>, ghost k: nat, ghost t: Tree,
                      ghost m: Store)
      returns (ghost m': Store)
    requires k < |ctx| && bp == ctx[k].n && t.Fork? && x == t.n
    requires |ctx| - k <= stack.Length && forall j :: 0 <= j < |ctx| - k ==> stack[j] == ctx[k + j].dir
    requires Holds(m) && InStore(ctx, t, m)
    modifies m.Keys
    ensures Holds(m') && m'.Keys == m.Keys && InStore(TiltIn(ctx, k, |ctx|), t, m')
  {
    m' := m;
    assert TiltIn(ctx, k, k) == ctx;
    var p, top := bp, 0;
    while p != x
      invariant k + top <= |ctx| && p == (if k + top < |ctx| then ctx[k + top].n else x)
      invariant Holds(m') && m'.Keys == m.Keys && InStore(TiltIn(ctx, k, k + top), t, m')
      decreases |ctx| - top
    {
      var next: Node?;
      next, m' := TiltOne(p, stack[top], ctx, k, k + top, t, m');
      p := next;
      top := top + 1;
    }
    if k + top < |ctx| {
      FrameAt(ctx, TiltIn(ctx, k, k + top), t, m', k + top);
      assert false;
    }
  }

  // ---------- The parts of the insertion

  /** The state of the first loop of kavl_insert: `ctx` has been passed, `cur` is next. */
  ghost predicate Walk(t: Tree, ctx: seq<Frame>, cur: Tree, key: int, k: nat) {
    && Plug(ctx, cur) == t && Bracketed(ctx, key)
    && (if ctx == [] then k == 0 else LastLeaning(ctx, k))
  }

  lemma {:induction false} WalkDown(t: Tree, ctx: seq<Frame>, cur: Tree, key: int, k: nat, dir: bool)
    requires Walk(t, ctx, cur, key, k) && cur.Fork? && Ascending(InOrder(t))
    requires if dir then cur.n.key < key else key < cur.n.key
    ensures var ctx' := ctx + [Step(cur, dir)];
      && Walk(t, ctx', Sub(cur, dir), key, if cur.b != 0 then |ctx| else k)
      && |Before(ctx')| == |Before(ctx)| + if dir then Count(cur.l) + 1 else 0
  {
    SearchDown(ctx, cur, dir, key);
  }

  /** What the first loop of kavl_insert has written down: the path, and the directions from the
      last leaning node on. */
  ghost predicate Recorded(ctx: seq<Frame>, k: nat, stack: seq<bool>, path: seq<Node?>, top: int) {
    && OnPath(path, ctx) && 0 <= top == |ctx| - k <= |stack|
    && forall j :: 0 <= j < top ==> stack[j] == ctx[k + j].dir
  }

  lemma RecordStep(ctx: seq<Frame>, k: nat, f: Frame, stack: seq<bool>, path: seq<Node?>, top: int)
    requires Recorded(ctx, k, stack, path, top) && |ctx| < |path| && |ctx| < |stack|
    ensures Recorded(ctx + [f], k, stack[top := f.dir], path[|ctx| := f.n], top + 1)
    ensures Recorded(ctx + [f], |ctx|, stack[0 := f.dir], path[|ctx| := f.n], 1)
  {}

  /** The last two nodes of the path, and the two at the last leaning one. */
  ghost predicate Marked(ctx: seq<Frame>, k: nat, root: Node?, bp: Node?, bq: Node?, q: Node?, which: bool) {
    && q == (if ctx == [] then null else ctx[|ctx| - 1].n) && (ctx != [] ==> which == ctx[|ctx| - 1].dir)
    && (if ctx == [] then k == 0 && bp == root && bq == null
        else k < |ctx| && bp == ctx[k].n && bq == if k == 0 then null else ctx[k - 1].n)
  }

  /** The variables of the first loop of kavl_insert. */
  datatype Vars = Vars(top: int, bp: Node?, bq: Node?, q: Node?, which: bool, cnt: int)

  ghost predicate Descent(t: Tree, ctx: seq<Frame>, cur: Tree, key: int, k: nat, stack: seq<bool>, path: seq<Node?>,
                          v: Vars) {
    && Walk(t, ctx, cur, key, k) && Sized(cur) && v.cnt == |Before(ctx)|
    && Recorded(ctx, k, stack, path, v.top) && Marked(ctx, k, Root(t), v.bp, v.bq, v.q, v.which)
  }

  /** One turn of the loop, at a node with another key. */
  ghost function Turn(v: Vars, cur: Tree, which: bool): Vars
    requires cur.Fork?
  {
    var cnt := v.cnt + if which then StoredSize(cur.l) + 1 else 0;
    if cur.b != 0 then Vars(1, cur.n, v.q, cur.n, which, cnt)
    else Vars(v.top + 1, v.bp, v.bq, cur.n, which, cnt)
  }

  lemma {:induction false} DescentDown(t: Tree, ctx: seq<Frame>, cur: Tree, key: int, k: nat, stack: seq<bool>,
                                       path: seq<Node?>, v: Vars, which: bool)
    requires Descent(t, ctx, cur, key, k, stack, path, v) && cur.Fork? && Ascending(InOrder(t))
    requires |ctx| < |path| == |stack| && if which then cur.n.key < key else key < cur.n.key
    ensures var v', k' := Turn(v, cur, which), if cur.b != 0 then |ctx| else k;
      Descent(t, ctx + [Step(cur, which)], Sub(cur, which), key, k', stack[v'.top - 1 := which], path[|ctx| := cur.n],
        v')
  {
    WalkDown(t, ctx, cur, key, k, which);
    RecordStep(ctx, k, Step(cur, which), stack, path, v.top);
    StoredIsCount(cur.l);
    if ctx == [] && cur.b == 0 { PlugSame(cur); }
  }

  lemma PlugSame(t: Tree)
    ensures Plug([], t) == t
  {}

  method Record(stack: array<bool>, top: nat, which: bool, path: array<Node?>, pathLen: nat, p: Node)
    requires top < stack.Length && pathLen < path.Length
    modifies stack, path
    ensures stack[..] == old(stack[..])[top := which] && path[..] == old(path[..])[pathLen := p]
  {
    stack[top] := which;
    path[pathLen] := p;
  }

  /** The variables after one turn of the first loop of kavl_insert, at a node with another key. */
  method TurnVars(p: Node, key: int, v: Vars, ghost cur: Tree, ghost m: Store) returns (v': Vars)
    requires Holds(m) && Linked(cur, m) && cur.Fork? && p == cur.n && key != p.key
    ensures v' == Turn(v, cur, key > p.key)
  {
    LinkedSubs(cur, false, m);
    v' := v;
    if key >= p.key {
      var left := SizeOf(p.kids.left, cur.l, m);
      v' := v'.(cnt := v'.cnt + left + 1);
    }
    if p.balance != 0 {
      v' := v'.(bq := v'.q, bp := p, top := 0);
    }
    v' := v'.(top := v'.top + 1, which := key > p.key, q := p);
  }

  method DescendTurn(p: Node, key: int, stack: array<bool>, path: array<Node?>, pathLen: nat, v: Vars,
                     ghost t: Tree, ghost ctx: seq<Frame>, ghost cur: Tree, ghost k: nat, ghost m: Store)
      returns (next: Node?, v': Vars)
    requires Holds(m) && Linked(cur, m) && cur.Fork? && p == cur.n && key != p.key && pathLen == |ctx| < KAVL_MAX_DEPTH
    requires Ascending(InOrder(t)) && Descent(t, ctx, cur, key, k, stack[..], path[..], v)
    requires stack.Length == path.Length == KAVL_MAX_DEPTH
    modifies stack, path
    ensures Holds(m) && next == Root(Sub(cur, v'.which)) && Linked(Sub(cur, v'.which), m)
    ensures Descent(t, ctx + [Step(cur, v'.which)], Sub(cur, v'.which), key, if cur.b != 0 then |ctx|
            else k, stack[..], path[..], v')
  {
    DescentDown(t, ctx, cur, key, k, stack[..], path[..], v, key > p.key);
    LinkedSubs(cur, key > p.key, m);
    v' := TurnVars(p, key, v, cur, m);
    Record(stack, v'.top - 1, v'.which, path, pathLen, p);
    next := p.kids.Get(v'.which);
  }

  /** A node with the key is there already: its rank. */
  method CountFound(p: Node, before: int, ghost ctx: seq<Frame>, ghost cur: Tree, ghost t: Tree, ghost m: Store)
    returns (cnt: int)
    requires Holds(m) && Linked(cur, m) && Plug(ctx, cur) == t && Avl(t) && Sized(cur) && p == Root(cur) &&
             before == |Before(ctx)|
    ensures p in InOrder(t) && SplitAt(InOrder(t), cnt, p.key)
  {
    LinkedSubs(cur, false, m);
    var left := SizeOf(p.kids.left, cur.l, m);
    StoredIsCount(cur.l);
    FoundAt(ctx, cur);
    cnt := before + left + 1;
  }

  /** The first loop of kavl_insert. */
  method Descend(root: Node?, key: int, stack: array<bool>, path: array<Node?>, ghost t: Tree, ghost m: Store)
      returns (found: Node?, v: Vars, pathLen: nat, ghost ctx: seq<Frame>, ghost k: nat)
    requires Holds(m) && Linked(t, m) && root == Root(t) && Avl(t) && Count(t) < UINT_LIMIT
    requires stack.Length == path.Length == KAVL_MAX_DEPTH
    modifies stack, path
    ensures found != null ==> found in InOrder(t) && found.key == key && SplitAt(InOrder(t), v.cnt, key)
    ensures found == null ==> pathLen == |ctx| && Descent(t, ctx, Leaf, key, k, stack[..], path[..], v)
  {
    var p := root;
    v, pathLen, found := Vars(0, root, null, null, false, 0), 0, null;
    ghost var cur := t;
    ctx, k := [], 0;
    while p != null
      invariant Holds(m) && Descent(t, ctx, cur, key, k, stack[..], path[..], v)
      invariant p == Root(cur) && Linked(cur, m) && pathLen == |ctx| && found == null
      decreases cur
    {
      WalkDepth(t, ctx, cur);
      if key == p.key {
        var cnt := CountFound(p, v.cnt, ctx, cur, t, m);
        v, found := v.(cnt := cnt), p;
        return;
      }
      p, v := DescendTurn(p, key, stack, path, pathLen, v, t, ctx, cur, k, m);
      k := if cur.b != 0 then |ctx| else k;
      ctx, cur, pathLen := ctx + [Step(cur, v.which)], Sub(cur, v.which), pathLen + 1;
    }
  }

  /** The subtree that leans is in the store, apart from the path above it. */
  lemma {:induction false} ReadyToFix(ctx: seq<Frame>, k: nat, x: Node, m: Store)
    requires LastLeaning(ctx, k) && Balanced(Plug(ctx, Leaf)) && Sized(Plug(ctx, Leaf))
    requires InStore(Tilted(ctx, k), Single(x), m) && !(-2 < Tilted(ctx, k)[k].b < 2)
    ensures var t, up, dir := Grown(ctx, k, x), Tilted(ctx, k)[..k], Tilted(ctx, k)[k].b < 0;
      && ToFix(ctx[k].n, dir, t, m) && Sub(t, !dir).b != 0 && Nodes(t) <= m.Keys
      && PathLinked(up, ctx[k].n, m) && PathNodes(up) !! Nodes(t) && Distinct(InOrder(Plug(up, t)))
  {
    var ctx', t := Tilted(ctx, k), Grown(ctx, k, x);
    GrownLeans(ctx, k, x);
    GrownShape(ctx, k, x);
    LeaningParts(t, ctx'[k].b < 0);
    PathSlices(ctx', x, m, k);
    LinkedPlug(ctx'[k..], Single(x), m);
    PlugSplit(ctx', k, Single(x));
    PlugDistinct(ctx'[..k], t);
    LinkedNodes(t, m);
  }

  lemma {:induction false} ReadyToHang(up: seq<Frame>, t: Tree, dir: bool, m: Store, m': Store)
    requires Leaning(t, dir) && Distinct(InOrder(Plug(up, t))) && PathLinked(up, t.n, m) && PathNodes(up) !! Nodes(t)
    requires SameOn(m.Keys - Nodes(t), m, m')
    requires Sub(t, !dir).Fork? && (Sub(t, !dir).b == (if dir then 1 else -1) ==> Sub(Sub(t, !dir), dir).Fork?)
    ensures PathLinked(up, t.n, m') && Distinct(InOrder(Plug(up, Fixed(t, dir))))
    ensures up != [] ==> t.n !in Nodes(up[|up| - 1].other)
  {
    PathStill(up, t.n, m, m');
    FixedOrder(t, dir);
    PlugOrder(up, t);
    PlugOrder(up, Fixed(t, dir));
    assert t.n in Nodes(t);
  }

  /** The child pointer of `bq` that led to `bp` is redirected to the root of `u`. */
  method Hang(bq: Node, bp: Node, ghost up: seq<Frame>, top: Node, ghost u: Tree, ghost m: Store)
    returns (ghost m': Store)
    requires up != [] && bq == up[|up| - 1].n && top == Root(u)
    requires Holds(m) && PathLinked(up, bp, m) && Linked(u, m) && Distinct(InOrder(Plug(up, u)))
    requires bp !in Nodes(up[|up| - 1].other)
    modifies m.Keys
    ensures Holds(m') && m'.Keys == m.Keys && Linked(Plug(up, u), m')
  {
    bq.kids := bq.kids.Set(bp != bq.kids.left, top);
    m' := m[bq := Contents(bq)];
    Rehung(up, bp, u, m, m');
    LinkedPlug(up, u, m');
  }

  /** The rotation at the end of kavl_insert, and the pointer to the rotated subtree. */
  method Rebalance(bp: Node, bq: Node?, ghost ctx: seq<Frame>, ghost k: nat, ghost x: Node, ghost m: Store)
      returns (r: Node?, ghost m': Store)
    requires LastLeaning(ctx, k) && Balanced(Plug(ctx, Leaf)) && Sized(Plug(ctx, Leaf))
    requires bp == ctx[k].n && bq == (if k == 0 then null else ctx[k - 1].n)
    requires Holds(m) && InStore(Tilted(ctx, k), Single(x), m)
    modifies m.Keys
    ensures Holds(m') && m'.Keys == m.Keys && Linked(Inserted(ctx, k, x), m')
    ensures r == if k == 0 && !(-2 < Tilted(ctx, k)[k].b < 2) then Root(Inserted(ctx, k, x)) else null
  {
    r, m' := null, m;
    PathAt(Tilted(ctx, k), x, m, k);
    if -2 < bp.balance < 2 {
      LinkedPlug(Tilted(ctx, k), Single(x), m);
      return;
    }
    var which := bp.balance < 0;
    ghost var t, up := Grown(ctx, k, x), Tilted(ctx, k)[..k];
    ReadyToFix(ctx, k, x, m);
    var top: Node;
    top, m' := FixGrown(bp, which, t, m);
    ReadyToHang(up, t, which, m, m');
    if bq == null {
      r := top;
    } else {
      m' := Hang(bq, bp, up, top, Fixed(t, which), m');
    }
  }

  lemma {:induction false} InsertedRoot(ctx: seq<Frame>, k: nat, x: Node)
    requires LastLeaning(ctx, k) && Balanced(Plug(ctx, Leaf)) && Sized(Plug(ctx, Leaf))
    ensures k > 0 || -2 < Tilted(ctx, k)[k].b < 2 ==> Root(Inserted(ctx, k, x)) == Root(Plug(ctx, Leaf))
  {
    var ctx' := Tilted(ctx, k);
    PlugFirst(ctx, Leaf);
    PlugFirst(ctx', Single(x));
    if !(-2 < ctx'[k].b < 2) && k > 0 {
      GrownLeans(ctx, k, x);
      LeaningParts(Grown(ctx, k, x), ctx'[k].b < 0);
      PlugFirst(ctx'[..k], Fixed(Grown(ctx, k, x), ctx'[k].b < 0));
    }
  }

  /** The new tree is an AVL tree with one more node, where the walk ended. */
  lemma {:induction false} InsertedAvl(ctx: seq<Frame>, k: nat, x: Node)
    requires LastLeaning(ctx, k) && Avl(Plug(ctx, Leaf)) && Bracketed(ctx, x.key)
    ensures var t, u := Plug(ctx, Leaf), Inserted(ctx, k, x);
      && Avl(u) && InOrder(t) == Before(ctx) + After(ctx) && InOrder(u) == Before(ctx) + [x] + After(ctx)
      && Count(u) == Count(t) + 1 && Nodes(u) == Nodes(t) + {x}
  {
    var t, u := Plug(ctx, Leaf), Inserted(ctx, k, x);
    InsertedBalanced(ctx, k, x);
    InsertedOrder(ctx, k, x);
    NotFoundAt(ctx, x.key);
    InsertAscending(Before(ctx), x, After(ctx));
    NodesInOrder(t);
    NodesInOrder(u);
  }

  /** After `x` is hung at the end of the path. */
  lemma {:induction false} Attached(ctx: seq<Frame>, x: Node, m: Store, m': Store)
    requires ctx != [] && PathLinked(ctx, null, m) && Ascending(InOrder(Plug(ctx, Leaf))) && Bracketed(ctx, x.key)
    requires x !in Nodes(Plug(ctx, Leaf))
    requires x in m' && m'[x] == Cell(Kids(null, null), 0, 1)
    requires var f := ctx[|ctx| - 1];
      && f.n in m && f.n in m'
      && m'[f.n] == m[f.n].(kids := m[f.n].kids.Set(f.dir, x)) && SameOn(m.Keys - {f.n, x}, m, m')
    ensures InStore(ctx, Single(x), m')
  {
    NotFoundAt(ctx, x.key);
    InsertAscending(Before(ctx), x, After(ctx));
    PlugOrder(ctx, Single(x));
    assert InOrder(Single(x)) == [x];
    AscendingDistinct(Before(ctx) + [x] + After(ctx));
    var f, rest := ctx[|ctx| - 1], ctx[..|ctx| - 1];
    PlugDistinct(rest, Close(f, Single(x)));
    DistinctSubs(Close(f, Single(x)), f.dir);
    assert x in Nodes(Single(x));
    StillLinked(f.other, m, m');
    PathStill(rest, f.n, m, m');
  }

  /** `x` stands after the first `cnt` nodes, the ones with smaller keys. */
  ghost predicate InsertedAt(before: seq<Node>, after: seq<Node>, x: Node, cnt: int) {
    SplitAt(before, cnt, x.key) && after == before[..cnt] + [x] + before[cnt..]
  }

  method Attach(q: Node, which: bool, x: Node, ghost ctx: seq<Frame>, ghost m: Store) returns (ghost m': Store)
    requires ctx != [] && q == ctx[|ctx| - 1].n && which == ctx[|ctx| - 1].dir
    requires Holds(m) && PathLinked(ctx, null, m) && Ascending(InOrder(Plug(ctx, Leaf))) && Bracketed(ctx, x.key)
    requires x !in Nodes(Plug(ctx, Leaf)) && x !in m && Contents(x) == Cell(Kids(null, null), 0, 1)
    modifies q
    ensures Holds(m') && m'.Keys == m.Keys + {x} && InStore(ctx, Single(x), m')
  {
    PathAt(ctx, null, m, |ctx| - 1);
    q.kids := q.kids.Set(which, x);
    m' := m[q := Contents(q)][x := Contents(x)];
    Attached(ctx, x, m, m');
  }

  method AttachSized(x: Node, v: Vars, pathLen: nat, path: array<Node?>,
                     ghost t: Tree, ghost ctx: seq<Frame>, ghost k: nat, ghost stack: seq<bool>, ghost m: Store)
      returns (ghost m': Store)
    requires ctx != [] && Avl(t) && Descent(t, ctx, Leaf, x.key, k, stack, path[..], v) && pathLen == |ctx|
    requires Holds(m) && Linked(t, m) && x !in Nodes(t) && m.Keys == Nodes(t)
    requires Contents(x) == Cell(Kids(null, null), 0, 1)
    modifies m.Keys, x
    ensures Holds(m') && m'.Keys == m.Keys + {x} && InStore(AddSizeIn(ctx, 0, |ctx|, 1), Single(x), m')
  {
    LinkedPlug(ctx, Leaf, m);
    PathAt(ctx, null, m, |ctx| - 1);
    m' := Attach(v.q, v.which, x, ctx, m);
    m' := AddSizes(path, 0, pathLen, 1, ctx, Single(x), m');
  }

  /** The rest of kavl_insert for a tree that is not empty: the new node is hung at the end of the
      path, sizes and balances are updated, and one rotation is made if need be. */
  method Grow(x: Node, v: Vars, pathLen: nat, stack: array<bool>, path: array<Node?>,
              ghost t: Tree, ghost ctx: seq<Frame>, ghost k: nat, ghost m: Store)
      returns (newRoot: Node?, ghost m': Store)
    requires ctx != [] && Avl(t) && Descent(t, ctx, Leaf, x.key, k, stack[..], path[..], v) && pathLen == |ctx|
    requires Holds(m) && Linked(t, m) && x !in Nodes(t) && m.Keys == Nodes(t)
    requires Contents(x) == Cell(Kids(null, null), 0, 1)
    modifies m.Keys, x
    ensures Holds(m') && m'.Keys == m.Keys + {x} && Linked(Inserted(ctx, k, x), m')
    ensures newRoot == if k == 0 && !(-2 < Tilted(ctx, k)[k].b < 2) then Root(Inserted(ctx, k, x)) else null
  {
    ghost var grown := AddSizeIn(ctx, 0, |ctx|, 1);
    m' := AttachSized(x, v, pathLen, path, t, ctx, k, stack[..], m);
    m' := TiltBalances(v.bp, x, stack, grown, k, Single(x), m');
    TiltAll(ctx, k);
    newRoot, m' := Rebalance(v.bp, v.bq, ctx, k, x, m');
  }

  /** What the grown tree is, seen from outside. */
  lemma {:induction false} InsertedStored(t: Tree, ctx: seq<Frame>, k: nat, x: Node, root: Node?, m: Store)
    requires ctx != [] && Walk(t, ctx, Leaf, x.key, k) && Avl(t) && Count(t) + 1 < UINT_LIMIT
    requires m.Keys == Nodes(t) + {x} && Linked(Inserted(ctx, k, x), m)
    requires root == if k == 0 && !(-2 < Tilted(ctx, k)[k].b < 2) then Root(Inserted(ctx, k, x)) else Root(t)
    ensures Stored(root, Inserted(ctx, k, x), m) && !HasKey(InOrder(t), x.key)
    ensures InsertedAt(InOrder(t), InOrder(Inserted(ctx, k, x)), x, |Before(ctx)|)
  {
    NotFoundAt(ctx, x.key);
    InsertedAvl(ctx, k, x);
    InsertedRoot(ctx, k, x);
    var a, c := Before(ctx), After(ctx);
    assert (a + c)[..|a|] == a && (a + c)[|a|..] == c;
  }

  lemma SingleStored(x: Node, m: Store)
    requires m == map[x := Cell(Kids(null, null), 0, 1)]
    ensures Stored(x, Single(x), m) && !HasKey(InOrder(Leaf), x.key)
    ensures InsertedAt(InOrder(Leaf), InOrder(Single(x)), x, 0)
  {
    var e, t := InOrder(Leaf), Single(x);
    assert Count(Leaf) == 0 && Height(Leaf) == 0 && e == [] && t.Fork? && t.l == t.r == Leaf;
    assert InOrder(t) == e + [x] + e == [x];
    assert Count(t) == 1 + Count(t.l) + Count(t.r);
    assert Balanced(t) && Sized(t) && Ascending(InOrder(t));
  }

  /** kavl_insert after the walk has ended without finding the key. */
  method InsertFresh(root: Node?, x: Node, v: Vars, pathLen: nat, stack: array<bool>, path: array<Node?>,
                     ghost t: Tree, ghost ctx: seq<Frame>, ghost k: nat, ghost m: Store)
      returns (newRoot: Node?, ghost t': Tree, ghost m': Store)
    requires Holds(m) && Stored(root, t, m) && x !in Nodes(t) && Count(t) + 1 < UINT_LIMIT
    requires Descent(t, ctx, Leaf, x.key, k, stack[..], path[..], v) && pathLen == |ctx|
    modifies m.Keys, x
    ensures Holds(m') && Stored(newRoot, t', m') && !HasKey(InOrder(t), x.key)
    ensures InsertedAt(InOrder(t), InOrder(t'), x, v.cnt)
  {
    x.balance, x.size, x.kids := 0, 1, Kids(null, null);
    if v.bp == null {
      newRoot, t', m' := x, Single(x), map[x := Contents(x)];
      assert ctx == [] && t == Leaf && Before(ctx) == [];
      SingleStored(x, m');
    } else {
      var r;
      r, m' := Grow(x, v, pathLen, stack, path, t, ctx, k, m);
      t' := Inserted(ctx, k, x);
      newRoot := if r != null then r else root;
      InsertedStored(t, ctx, k, x, newRoot, m');
    }
  }

  method InsertNode(root: Node?, x: Node, ghost t: Tree, ghost m: Store)
      returns (newRoot: Node?, found: Node?, cnt: int, ghost t': Tree, ghost m': Store)
    requires Holds(m) && Stored(root, t, m) && x !in Nodes(t) && Count(t) + 1 < UINT_LIMIT
    modifies m.Keys, x
    ensures found == null ==>
      Holds(m') && Stored(newRoot, t', m') && !HasKey(InOrder(t), x.key) && InsertedAt(InOrder(t), InOrder(t'), x, cnt)
    ensures found != null ==>
      && newRoot == root && t' == t && m' == m && unchanged(m.Keys) && unchanged(x)
      && found in InOrder(t) && found.key == x.key && SplitAt(InOrder(t), cnt, x.key)
  {
    var stack := new bool[KAVL_MAX_DEPTH];
    var path := new Node?[KAVL_MAX_DEPTH](_ => null);
    var v, pathLen;
    ghost var ctx, k;
    found, v, pathLen, ctx, k := Descend(root, x.key, stack, path, t, m);
    newRoot, cnt, t', m' := root, v.cnt, t, m;
    if found == null {
      newRoot, t', m' := InsertFresh(root, x, v, pathLen, stack, path, t, ctx, k, m);
    }
  }
}
