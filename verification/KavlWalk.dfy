/** Walks down a stored tree, and what the operations have in common. */
module KavlWalk {
  import opened KavlTree
  import opened KavlRotate
  import opened KavlPath

  /** The first `cnt` nodes are the ones with keys up to `key`. */
  ghost predicate SplitAt(ns: seq<Node>, cnt: int, key: int) {
    && 0 <= cnt <= |ns|
    && (forall i :: 0 <= i < cnt ==> ns[i].key <= key)
    && (forall i :: cnt <= i < |ns| ==> key < ns[i].key)
  }

  /** The frame left behind when the walk goes down from the root of `t`. */
  ghost function Step(t: Tree, dir: bool): Frame
    requires t.Fork?
  {
    Frame(t.n, t.b, t.s, dir, Sub(t, !dir))
  }

  /** The end of the path is where `key` belongs. */
  ghost predicate Bracketed(ctx: seq<Frame>, key: int) {
    AllBelow(Before(ctx), key) && AllAbove(After(ctx), key)
  }

  lemma {:induction false} StepDown(ctx: seq<Frame>, t: Tree, dir: bool)
    requires t.Fork?
    ensures var ctx' := ctx + [Step(t, dir)];
      && Plug(ctx', Sub(t, dir)) == Plug(ctx, t)
      && Before(ctx') == Before(ctx) + (if dir then InOrder(t.l) + [t.n] else [])
      && After(ctx') == (if dir then [] else [t.n] + InOrder(t.r)) + After(ctx)
  {
    var ctx' := ctx + [Step(t, dir)];
    assert ctx'[..|ctx' | - 1] == ctx;
  }

  lemma AscendingAround(a: seq<Node>, l: seq<Node>, n: Node, r: seq<Node>, c: seq<Node>)
    requires Ascending(a + (l + [n] + r) + c)
    ensures AllBelow(l, n.key) && AllAbove(r, n.key)
  {
    var ns := a + (l + [n] + r) + c;
    var m := |a| + |l|;
    assert ns[m] == n;
    forall i | 0 <= i < |l| ensures l[i].key < n.key { assert ns[|a| + i] == l[i]; }
    forall i | 0 <= i < |r| ensures n.key < r[i].key { assert ns[m + 1 + i] == r[i]; }
  }

  lemma {:induction false} SearchDown(ctx: seq<Frame>, t: Tree, dir: bool, key: int)
    requires t.Fork? && Ascending(InOrder(Plug(ctx, t))) && Bracketed(ctx, key)
    requires if dir then t.n.key < key else key < t.n.key
    ensures var ctx' := ctx + [Step(t, dir)];
      && Plug(ctx', Sub(t, dir)) == Plug(ctx, t) && Bracketed(ctx', key)
      && |Before(ctx')| == |Before(ctx)| + if dir then Count(t.l) + 1 else 0
  {
    StepDown(ctx, t, dir);
    PlugOrder(ctx, t);
    NodesInOrder(t.l);
    AscendingAround(Before(ctx), InOrder(t.l), t.n, InOrder(t.r), After(ctx));
  }

  /** At an equal key the nodes up to it are those before the subtree, its left side, and itself. */
  lemma {:induction false} FoundAt(ctx: seq<Frame>, t: Tree)
    requires t.Fork? && Ascending(InOrder(Plug(ctx, t)))
    ensures var ns := InOrder(Plug(ctx, t)); var cnt := |Before(ctx)| + Count(t.l) + 1;
      SplitAt(ns, cnt, t.n.key) && ns[cnt - 1] == t.n
  {
    PlugOrder(ctx, t);
    NodesInOrder(t.l);
    var ns := InOrder(Plug(ctx, t));
    assert ns[|Before(ctx)| + |InOrder(t.l)|] == t.n;
  }

  lemma {:induction false} NotFoundAt(ctx: seq<Frame>, key: int)
    requires Bracketed(ctx, key)
    ensures InOrder(Plug(ctx, Leaf)) == Before(ctx) + After(ctx)
    ensures SplitAt(InOrder(Plug(ctx, Leaf)), |Before(ctx)|, key)
    ensures forall n :: n in InOrder(Plug(ctx, Leaf)) ==> n.key != key
  {
    PlugOrder(ctx, Leaf);
    assert Before(ctx) + [] + After(ctx) == Before(ctx) + After(ctx);
  }

  /** A new node at the end of a path that brackets its key keeps the order. */
  lemma InsertAscending(a: seq<Node>, x: Node, c: seq<Node>)
    requires Ascending(a + c) && AllBelow(a, x.key) && AllAbove(c, x.key)
    ensures Ascending(a + [x] + c)
  {
    var ns, all := a + c, a + [x] + c;
    forall i, j | 0 <= i < j < |all| ensures all[i].key < all[j].key {
      var i', j' := if i < |a| then i else i - 1, if j < |a| then j else j - 1;
      if i != |a| && j != |a| { assert all[i] == ns[i'] && all[j] == ns[j']; }
    }
  }

  lemma AscendingDistinct(ns: seq<Node>)
    requires Ascending(ns)
    ensures Distinct(ns)
  {
    forall i, j | 0 <= i < j < |ns| ensures ns[i] != ns[j] {
      assert ns[i].key < ns[j].key;
    }
  }

  // ---------- The two update loops

  /** `d` is added to the stored sizes of the frames from `from` up to `to`. */
  ghost function AddSizeIn(ctx: seq<Frame>, from: nat, to: nat, d: int): (r: seq<Frame>)
    ensures |r| == |ctx| && SameShape(ctx, r)
    ensures forall i :: 0 <= i < |r| ==> r[i].b == ctx[i].b && r[i].s == ctx[i].s + if from <= i < to then d else 0
  {
    seq(|ctx|, i requires 0 <= i < |ctx| => ctx[i].(s := ctx[i].s + if from <= i < to then d else 0))
  }

  ghost predicate OnPath(path: seq<Node?>, ctx: seq<Frame>) {
    |ctx| <= |path| && forall i :: 0 <= i < |ctx| ==> path[i] == ctx[i].n
  }

  lemma AddSizeStep(ctx: seq<Frame>, from: nat, i: nat, d: int, now: seq<Frame>, next: seq<Frame>)
    requires from <= i < |ctx| && now == AddSizeIn(ctx, from, i, d)
    requires next == now[i := now[i].(s := now[i].s + d)]
    ensures next == AddSizeIn(ctx, from, i + 1, d)
  {}

  /** What the update loops keep: the path and the tree below it are in the store. */
  ghost predicate InStore(ctx: seq<Frame>, t: Tree, m: Store) {
    PathLinked(ctx, Root(t), m) && Linked(t, m) && Distinct(InOrder(Plug(ctx, t)))
  }

  /** After a write to the stored size and balance at one place of the path. */
  lemma {:induction false} FrameUpdated(ctx: seq<Frame>, i: nat, f: Frame, t: Tree, m: Store, ctx': seq<Frame>,
                                        m': Store)
    requires InStore(ctx, t, m) && i < |ctx| && SameFrame(ctx[i], f) && ctx' == ctx[i := f]
    requires f.n in m && f.n in m' && SameOn(m.Keys - {f.n}, m, m')
    requires m'[f.n] == Cell(m[f.n].kids, f.b, f.s)
    ensures InStore(ctx', t, m')
  {
    PathAt(ctx, Root(t), m, i);
    PathWritten(ctx, Root(t), i, f, t, m, m');
    PlugDistinct(ctx, t);
    PathNodesAt(ctx, i);
    StillLinked(t, m, m');
    SameShapeTree(ctx, ctx', t);
  }

  /** What the store says about frame `i`, and that it is a node of its own. */
  lemma {:induction false} FrameAt(ctx: seq<Frame>, now: seq<Frame>, t: Tree, m: Store, i: nat)
    requires InStore(now, t, m) && SameShape(ctx, now) && i < |ctx|
    ensures ctx[i].n in m && ctx[i].n !in Nodes(t)
    ensures m[ctx[i].n].kids.Get(ctx[i].dir) == if i + 1 < |ctx| then ctx[i + 1].n else Root(t)
  {
    PathAt(now, Root(t), m, i);
    PlugDistinct(now, t);
    PathNodesAt(now, i);
  }

  lemma {:induction false} SizeAdded(ctx: seq<Frame>, from: nat, i: nat, d: int, t: Tree, m: Store, m': Store)
    requires from <= i < |ctx| && InStore(AddSizeIn(ctx, from, i, d), t, m)
    requires var n := ctx[i].n;
      n in m && n in m' && SameOn(m.Keys - {n}, m, m') && m'[n] == m[n].(size := m[n].size + d)
    ensures InStore(AddSizeIn(ctx, from, i + 1, d), t, m')
  {
    var now := AddSizeIn(ctx, from, i, d);
    PathAt(now, Root(t), m, i);
    var f := now[i].(s := now[i].s + d);
    var next := now[i := f];
    AddSizeStep(ctx, from, i, d, now, next);
    FrameUpdated(now, i, f, t, m, next, m');
  }

  /** The size stored at one place of the path. */
  method AddSizeAt(n: Node, d: int, ghost from: nat, ghost i: nat, ghost ctx: seq<Frame>, ghost t: Tree, ghost m: Store)
      returns (ghost m': Store)
    requires from <= i < |ctx| && n == ctx[i].n && Holds(m) && InStore(AddSizeIn(ctx, from, i, d), t, m)
    modifies m.Keys
    ensures Holds(m') && m'.Keys == m.Keys && InStore(AddSizeIn(ctx, from, i + 1, d), t, m')
  {
    FrameAt(ctx, AddSizeIn(ctx, from, i, d), t, m, i);
    n.size := n.size + d;
    m' := m[n := Contents(n)];
    SizeAdded(ctx, from, i, d, t, m, m');
  }

  method AddSizes(path: array<Node?>, from: nat, to: nat, d: int, ghost ctx: seq<Frame>, ghost t: Tree, ghost m: Store)
      returns (ghost m': Store)
    requires from <= to <= |ctx| && OnPath(path[..], ctx)
    requires Holds(m) && InStore(ctx, t, m)
    modifies m.Keys
    ensures Holds(m') && m'.Keys == m.Keys && InStore(AddSizeIn(ctx, from, to, d), t, m')
  {
    m' := m;
    assert AddSizeIn(ctx, from, from, d) == ctx;
    for i := from to to
      invariant Holds(m') && m'.Keys == m.Keys && InStore(AddSizeIn(ctx, from, i, d), t, m')
    {
      assert path[..][i] == ctx[i].n;
      m' := AddSizeAt(path[i], d, from, i, ctx, t, m');
    }
  }

  /** The walk never leaves the arrays. */
  lemma {:induction false} WalkDepth(t: Tree, ctx: seq<Frame>, cur: Tree)
    requires Plug(ctx, cur) == t && Balanced(t) && Count(t) < UINT_LIMIT
    ensures |ctx| + Height(cur) <= 45
  {
    PlugBalanced(ctx, cur);
    DepthBound(t);
  }

  ghost predicate HasKey(ns: seq<Node>, key: int) { exists n :: n in ns && n.key == key }

  /** The heap holds `t`, an AVL tree whose sizes fit. */
  ghost predicate Stored(root: Node?, t: Tree, m: Store) {
    m.Keys == Nodes(t) && Linked(t, m) && root == Root(t) && Avl(t) && Count(t) < UINT_LIMIT
  }
}
