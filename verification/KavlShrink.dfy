/** kavl_erase on nodes in the heap. */
module KavlShrink {
  import opened KavlTree
  import opened KavlRotate
  import opened KavlPath
  import opened KavlErase
  import opened KavlWalk

  // ---------- The way up

  lemma {:induction false} CloseLast(fs: seq<Frame>, t: Tree, m: Store)
    requires fs != [] && InStore(fs, t, m)
    ensures InStore(fs[..|fs| - 1], Close(fs[|fs| - 1], t), m)
  {}

  /** A subtree is replaced by another one of the same nodes. */
  lemma {:induction false} Replaced(fs: seq<Frame>, t: Tree, u: Tree, m: Store, m1: Store, m2: Store)
    requires fs != [] && InStore(fs, t, m) && t.Fork? && InOrder(u) == InOrder(t)
    requires SameOn(m.Keys - Nodes(t), m, m1) && Linked(u, m1)
    requires var f := fs[|fs| - 1];
      && f.n in m1 && f.n in m2 && SameOn(m1.Keys - {f.n}, m1, m2)
      && m2[f.n] == m1[f.n].(kids := m1[f.n].kids.Set(f.dir, Root(u)))
    ensures InStore(fs, u, m2) && InOrder(Plug(fs, u)) == InOrder(Plug(fs, t))
  {
    PlugDistinct(fs, t);
    PathStill(fs, Root(t), m, m1);
    PlugOrder(fs, t);
    PlugOrder(fs, u);
    PathAt(fs, Root(t), m1, |fs| - 1);
    Rehung(fs, Root(t), u, m1, m2);
  }

  /** After the balance of the last node on the path is moved. */
  lemma {:induction false} BalanceLowered(ff: Frame, rem: seq<Frame>, cur: Tree, m: Store, m': Store)
    requires rem != [] && InStore([ff] + rem, cur, m)
    requires var f := rem[|rem| - 1];
      f.n in m && f.n in m' && SameOn(m.Keys - {f.n}, m, m') && m'[f.n] == m[f.n].(balance := f.b - Tilt(f))
    ensures var rest := [ff] + rem[..|rem| - 1];
      InStore(rest, Lowered(rem, cur), m') && InOrder(Plug(rest, Lowered(rem, cur))) == InOrder(Plug([ff] + rem, cur))
  {
    var last, f := |rem|, rem[|rem| - 1];
    var fs, f' := [ff] + rem, f.(b := f.b - Tilt(f));
    var fs' := fs[last := f'];
    PathAt(fs, Root(cur), m, last);
    FrameUpdated(fs, last, f', cur, m, fs', m');
    CloseLast(fs', cur, m');
    assert fs'[..last] == [ff] + rem[..last - 1];
    SameShapeTree(fs, fs', cur);
  }

  /** The leaning subtree is rotated and hung in its place. */
  method FixHang(q: Node, which: bool, parent: Node, pdir: bool, ghost fs: seq<Frame>, ghost u: Tree, ghost m: Store)
      returns (done: bool, ghost m': Store)
    requires fs != [] && Holds(m) && InStore(fs, u, m) && ToFix(q, which, u, m) &&
             InOrder(Fixed(u, which)) == InOrder(u)
    requires parent == fs[|fs| - 1].n && pdir == fs[|fs| - 1].dir
    modifies m.Keys
    ensures Holds(m') && m'.Keys == m.Keys && (done <==> Sub(u, !which).b == 0)
    ensures InStore(fs, Fixed(u, which), m') && InOrder(Plug(fs, Fixed(u, which))) == InOrder(Plug(fs, u))
  {
    LinkedNodes(u, m);
    PathAt(fs, Root(u), m, |fs| - 1);
    var top;
    ghost var m1;
    top, done, m1 := FixShrunk(q, which, u, m);
    parent.kids := parent.kids.Set(pdir, top);
    m' := m1[parent := Contents(parent)];
    Replaced(fs, u, Fixed(u, which), m, m1, m');
  }

  /** The balance of the last node of the path moves away from the lower side. */
  method LowerBalance(q: Node, b1: int, ghost ff: Frame, ghost rem: seq<Frame>, ghost cur: Tree, ghost m: Store)
      returns (ghost m': Store)
    requires rem != [] && Holds(m) && InStore([ff] + rem, cur, m)
    requires var f := rem[|rem| - 1]; q == f.n && b1 == -Tilt(f)
    modifies m.Keys
    ensures Holds(m') && m'.Keys == m.Keys && q.balance == rem[|rem| - 1].b + b1
    ensures var fs, low := [ff] + rem[..|rem| - 1], Lowered(rem, cur);
      InStore(fs, low, m') && InOrder(Plug(fs, low)) == InOrder(Plug([ff] + rem, cur))
  {
    PathAt([ff] + rem, Root(cur), m, |rem|);
    q.balance := q.balance + b1;
    m' := m[q := Contents(q)];
    BalanceLowered(ff, rem, cur, m, m');
  }

  /** One turn of the last loop of kavl_erase; `go` says that the loop goes on. */
  method ClimbStep(q: Node, which: bool, parent: Node, pdir: bool, ghost ff: Frame, ghost rem: seq<Frame>,
                   ghost cur: Tree, ghost m: Store)
      returns (go: bool, ghost cur': Tree, ghost m': Store)
    requires rem != [] && Holds(m) && InStore([ff] + rem, cur, m) && Shrunk(rem, cur)
    requires var f := rem[|rem| - 1]; q == f.n && which == f.dir
    requires var g := ([ff] + rem)[|rem| - 1]; parent == g.n && pdir == g.dir
    modifies m.Keys
    ensures Holds(m') && m'.Keys == m.Keys
    ensures var rest := rem[..|rem| - 1];
      && InStore([ff] + rest, cur', m') && InOrder(Plug([ff] + rest, cur')) == InOrder(Plug([ff] + rem, cur))
      && if go then Shrunk(rest, cur') else Settled(rest, cur')
  {
    var b1, b2 := 1, 2;
    if which { b1, b2 := -b1, -b2; }
    m' := LowerBalance(q, b1, ff, rem, cur, m);
    cur' := Lowered(rem, cur);
    go := true;
    if q.balance == b1 {
      LoweredEven(rem, cur);
      go := false;
    } else if q.balance == b2 {
      LoweredLeaning(rem, cur);
      LeaningFixes(cur', which);
      FixedAbove(rem[..|rem| - 1], cur', which);
      go, m' := RotateUp(q, which, parent, pdir, [ff] + rem[..|rem| - 1], cur', m');
      cur' := Fixed(cur', which);
    } else {
      LoweredLevel(rem, cur);
    }
  }

  /** The rotation of a turn; the loop goes on if the subtree has become lower. */
  method RotateUp(q: Node, which: bool, parent: Node, pdir: bool, ghost fs: seq<Frame>, ghost u: Tree, ghost m: Store)
      returns (go: bool, ghost m': Store)
    requires Holds(m) && InStore(fs, u, m) && Leaning(u, which) && Sub(u, !which).Fork? && q == u.n
    requires Sub(u, !which).b == (if which then 1 else -1) ==> Sub(Sub(u, !which), which).Fork?
    requires fs != [] && parent == fs[|fs| - 1].n && pdir == fs[|fs| - 1].dir && InOrder(Fixed(u, which)) == InOrder(u)
    modifies m.Keys
    ensures Holds(m') && m'.Keys == m.Keys && InStore(fs, Fixed(u, which), m') && (go <==> Sub(u, !which).b != 0)
    ensures InOrder(Plug(fs, Fixed(u, which))) == InOrder(Plug(fs, u))
  {
    PlugDistinct(fs, u);
    var done;
    done, m' := FixHang(q, which, parent, pdir, fs, u, m);
    go := !done;
    PlugOrder(fs, u);
    PlugOrder(fs, Fixed(u, which));
  }

  /** The arrays `path` and `dir` of kavl_erase. */
  ghost predicate OnTrack(path: seq<Node?>, dirs: seq<bool>, fs: seq<Frame>) {
    |fs| <= |path| && |fs| <= |dirs| && forall i :: 0 <= i < |fs| ==> path[i] == fs[i].n && dirs[i] == fs[i].dir
  }

  lemma OnTrackEnd(path: seq<Node?>, dirs: seq<bool>, ff: Frame, ctx: seq<Frame>, d: nat)
    requires OnTrack(path, dirs, [ff] + ctx) && 0 < d <= |ctx|
    ensures var f, g := ctx[..d][d - 1], ([ff] + ctx[..d])[d - 1];
      path[d] == f.n && dirs[d] == f.dir && path[d - 1] == g.n && dirs[d - 1] == g.dir
    ensures ctx[..d][..d - 1] == ctx[..d - 1]
  {
    assert ([ff] + ctx)[d] == ctx[d - 1];
    assert ([ff] + ctx)[d - 1] == ([ff] + ctx[..d])[d - 1];
  }

  lemma {:induction false} SettledWhole(ff: Frame, rem: seq<Frame>, cur: Tree, m: Store)
    requires InStore([ff] + rem, cur, m) && Settled(rem, cur)
    ensures var t := Plug(rem, cur);
      InStore([ff], t, m) && Balanced(t) && Sized(t) && Plug([ff], t) == Plug([ff] + rem, cur)
  {
    PlugBalanced(rem, cur);
    PlugSized(rem, cur);
    PlugFirst([ff] + rem, cur);
    assert ([ff] + rem)[1..] == rem && [ff][..0] == [];
    var t := Plug(rem, cur);
    LinkedPlug([ff] + rem, cur, m);
    assert Plug([ff], t) == Close(ff, t);
    LinkedPlug([ff], t, m);
  }

  /** The last loop of kavl_erase: `path[0]` is the node put above the root. */
  method Climb(path: array<Node?>, dirs: array<bool>, depth: nat, ghost ff: Frame, ghost ctx: seq<Frame>,
               ghost cur: Tree, ghost m: Store)
      returns (ghost t: Tree, ghost m': Store)
    requires OnTrack(path[..], dirs[..], [ff] + ctx) && depth == |ctx| + 1
    requires Holds(m) && InStore([ff] + ctx, cur, m) && Shrunk(ctx, cur)
    modifies m.Keys
    ensures Holds(m') && m'.Keys == m.Keys && InStore([ff], t, m') && Balanced(t) && Sized(t)
    ensures InOrder(Plug([ff], t)) == InOrder(Plug([ff] + ctx, cur))
  {
    var d := depth - 1;
    var go := true;
    t, m' := cur, m;
    assert ctx[..d] == ctx;
    while d > 0 && go
      invariant d <= |ctx| && Holds(m') && m'.Keys == m.Keys
      invariant InStore([ff] + ctx[..d], t, m') && InOrder(Plug([ff] + ctx[..d], t)) == InOrder(Plug([ff] + ctx, cur))
      invariant if go then Shrunk(ctx[..d], t) else Settled(ctx[..d], t)
      decreases d
    {
      OnTrackEnd(path[..], dirs[..], ff, ctx, d);
      go, t, m' := ClimbStep(path[d], dirs[d], path[d - 1], dirs[d - 1], ff, ctx[..d], t, m');
      d := d - 1;
    }
    ghost var rem := ctx[..d];
    SettledWhole(ff, rem, t, m');
    t := Plug(rem, t);
  }

  // ---------- Taking a node out

  lemma DistinctDrop(a: seq<Node>, n: Node, c: seq<Node>)
    requires Distinct(a + [n] + c)
    ensures Distinct(a + c)
  {
    var all, less := a + [n] + c, a + c;
    forall i, j | 0 <= i < j < |less| ensures less[i] != less[j] {
      assert less[i] == all[if i < |a| then i else i + 1] && less[j] == all[if j < |a| then j else j + 1];
    }
  }

  /** The nodes without the one erased. */
  ghost function Without(fs: seq<Frame>, p: Tree): seq<Node>
    requires p.Fork?
  {
    Before(fs) + InOrder(p.l) + (InOrder(p.r) + After(fs))
  }

  lemma {:induction false} WithoutDistinct(fs: seq<Frame>, p: Tree)
    requires p.Fork? && Distinct(InOrder(Plug(fs, p)))
    ensures InOrder(Plug(fs, p)) == (Before(fs) + InOrder(p.l)) + [p.n] + (InOrder(p.r) + After(fs))
    ensures Distinct(Without(fs, p))
  {
    PlugOrder(fs, p);
    var a, b, c, d := Before(fs), InOrder(p.l), InOrder(p.r), After(fs);
    assert a + (b + [p.n] + c) + d == (a + b) + [p.n] + (c + d);
    DistinctDrop(a + b, p.n, c + d);
  }

  /** No right child: the left child takes over. */
  method SpliceLeft(p: Node, parent: Node, pdir: bool, ghost fs: seq<Frame>, ghost t: Tree, ghost m: Store)
    returns (ghost m': Store)
    requires t.Fork? && p == t.n && t.r.Leaf? && fs != [] && Holds(m) && InStore(fs, t, m)
    requires parent == fs[|fs| - 1].n && pdir == fs[|fs| - 1].dir
    modifies m.Keys
    ensures Holds(m') && m'.Keys == m.Keys && InStore(fs, t.l, m') && InOrder(Plug(fs, t.l)) == Without(fs, t)
  {
    PathAt(fs, p, m, |fs| - 1);
    LinkedSubs(t, false, m);
    WithoutDistinct(fs, t);
    PlugOrder(fs, t.l);
    assert InOrder(t.r) + After(fs) == After(fs);
    parent.kids := parent.kids.Set(pdir, p.kids.left);
    m' := m[parent := Contents(parent)];
    Rehung(fs, p, t.l, m, m');
  }

  /** The nodes that the splice writes or carries along are all different. */
  ghost predicate SpliceApart(fs: seq<Frame>, p: Tree, chain: seq<Frame>, least: Tree)
    requires p.Fork? && least.Fork?
  {
    && PathNodes(fs) !! Nodes(p) && PathNodes(chain) !! Nodes(least) && Nodes(p.r) == PathNodes(chain) + Nodes(least)
    && Nodes(p.l) !! Nodes(p.r) && Nodes(p.l) + Nodes(p.r) <= Nodes(p) && least.n !in Nodes(least.r)
    && p.n !in Nodes(p.l) && p.n !in Nodes(p.r)
  }

  lemma {:induction false} SpliceNodes(fs: seq<Frame>, p: Tree, chain: seq<Frame>, least: Tree)
    requires p.Fork? && Chain(p.r, chain, least) && Distinct(InOrder(Plug(fs, p)))
    ensures SpliceApart(fs, p, chain, least) && Distinct(InOrder(p.r))
  {
    PlugDistinct(fs, p);
    DistinctSubs(p, true);
    PlugDistinct(chain, least);
    PlugNodes(chain, least);
    DistinctSubs(least, true);
  }

  /** After the pointers are redirected, with `mid` in the place of the erased node. */
  lemma {:induction false} SplicedStored(fs: seq<Frame>, p: Tree, chain: seq<Frame>, least: Tree, mid: Frame, m: Store,
                                         m': Store)
    requires fs != [] && p.Fork? && Chain(p.r, chain, least) && InStore(fs, p, m)
    requires mid.n == least.n && mid.dir && mid.other == p.l
    requires var f := fs[|fs| - 1];
      && f.n in m && f.n in m' && m'[f.n] == m[f.n].(kids := m[f.n].kids.Set(f.dir, least.n))
      && mid.n in m' && m'[mid.n] == FrameCell(mid, if chain == [] then Root(least.r) else Root(p.r))
      && (if chain == [] then SameOn(m.Keys - {f.n, mid.n}, m, m')
          else var q := chain[|chain| - 1];
            && q.n in m && q.n in m' && m'[q.n] == m[q.n].(kids := m[q.n].kids.Set(q.dir, Root(least.r)))
            && SameOn(m.Keys - {f.n, mid.n, q.n}, m, m'))
    ensures PathLinked(fs + [mid] + chain, Root(least.r), m') && Linked(least.r, m')
  {
    SpliceNodes(fs, p, chain, least);
    LastAlone(fs, p);
    LinkedPlug(chain, least, m);
    var f := fs[|fs| - 1];
    assert f.n in PathNodes(fs) && least.n in Nodes(least);
    if chain != [] {
      LastAlone(chain, least);
      PlugFirst(chain, least);
      assert chain[|chain| - 1].n in PathNodes(chain);
      PathRedirected(chain, least.n, Root(least.r), m, m');
    }
    PathRedirected(fs, p.n, least.n, m, m');
    StillLinked(least.r, m, m');
    StillLinked(p.l, m, m');
    assert [mid][..0] == [];
    PathConcat(fs, [mid], if chain == [] then Root(least.r) else Root(p.r), m');
    PathConcat(fs + [mid], chain, Root(least.r), m');
  }

  ghost function MidFrame(p: Tree, least: Tree, size: int): Frame
    requires p.Fork? && least.Fork?
  {
    Frame(least.n, p.b, size, true, p.l)
  }

  lemma {:induction false} SplicedInStore(fs: seq<Frame>, p: Tree, chain: seq<Frame>, least: Tree, size: int, m: Store,
                                          m': Store)
    requires p.Fork? && Chain(p.r, chain, least) && least.l.Leaf? && InStore(fs, p, m)
    requires PathLinked(fs + [MidFrame(p, least, size)] + chain, Root(least.r), m') && Linked(least.r, m')
    ensures var fs' := fs + [MidFrame(p, least, size)] + chain;
      InStore(fs', least.r, m') && InOrder(Plug(fs', least.r)) == Without(fs, p)
  {
    LeastOrder(fs, p, chain, least);
    WithoutDistinct(fs, p);
    Assoc(Before(fs) + InOrder(p.l), InOrder(p.r), After(fs));
    SameShapeTree(Spliced(fs, p, chain, least), fs + [MidFrame(p, least, size)] + chain, least.r);
  }

  /** The right child has no left child and takes over. */
  method SpliceNear(p: Node, q: Node, parent: Node, pdir: bool, ghost fs: seq<Frame>, ghost t: Tree, ghost m: Store)
    returns (ghost m': Store)
    requires t.Fork? && p == t.n && t.r.Fork? && q == t.r.n && t.r.l.Leaf? && fs != [] && Holds(m) && InStore(fs, t, m)
    requires parent == fs[|fs| - 1].n && pdir == fs[|fs| - 1].dir
    modifies m.Keys
    ensures Holds(m') && m'.Keys == m.Keys
    ensures var fs' := fs + [MidFrame(t, t.r, t.s - 1)] + [];
      InStore(fs', t.r.r, m') && InOrder(Plug(fs', t.r.r)) == Without(fs, t)
  {
    PathAt(fs, p, m, |fs| - 1);
    LinkedSubs(t, false, m);
    LinkedSubs(t.r, false, m);
    SpliceNodes(fs, t, [], t.r);
    assert parent in PathNodes(fs) && q in Nodes(t) && q in Nodes(t.r);
    q.kids := q.kids.Set(false, p.kids.left);
    q.balance := p.balance;
    parent.kids := parent.kids.Set(pdir, q);
    q.size := p.size - 1;
    m' := m[parent := Contents(parent)][q := Contents(q)];
    SplicedStored(fs, t, [], t.r, MidFrame(t, t.r, t.s - 1), m, m');
    SplicedInStore(fs, t, [], t.r, t.s - 1, m, m');
  }

  /** The least node `r` on the right, a left child of `q`, takes over; its size comes later. */
  method SpliceFar(p: Node, q: Node, r: Node, parent: Node, pdir: bool, ghost fs: seq<Frame>, ghost t: Tree,
                   ghost chain: seq<Frame>, ghost least: Tree, ghost all: seq<Frame>, ghost m: Store)
      returns (ghost m': Store)
    requires t.Fork? && p == t.n && Chain(t.r, chain, least) && least.l.Leaf? && chain != [] && fs != []
    requires q == chain[|chain| - 1].n && r == least.n && Holds(m) && InStore(fs, t, m)
    requires parent == fs[|fs| - 1].n && pdir == fs[|fs| - 1].dir && all == fs + [MidFrame(t, least, least.s)] + chain
    modifies m.Keys
    ensures Holds(m') && m'.Keys == m.Keys
    ensures InStore(all, least.r, m') && InOrder(Plug(all, least.r)) == Without(fs, t)
  {
    SpliceFarNodes(fs, t, chain, least, m);
    RelinkFar(p, q, r, parent, pdir);
    m' := m[parent := Contents(parent)][q := Contents(q)][r := Contents(r)];
    SplicedStored(fs, t, chain, least, MidFrame(t, least, least.s), m, m');
    SplicedInStore(fs, t, chain, least, least.s, m, m');
  }

  lemma {:induction false} SpliceFarNodes(fs: seq<Frame>, t: Tree, chain: seq<Frame>, least: Tree, m: Store)
    requires t.Fork? && Chain(t.r, chain, least) && chain != [] && fs != [] && InStore(fs, t, m)
    ensures var p, q, r, parent := t.n, chain[|chain| - 1].n, least.n, fs[|fs| - 1].n;
      && p != q && p != r && p != parent && q != r && q != parent && r != parent
      && {p, q, r, parent} <= m.Keys
      && m[p] == Cell(Kids(Root(t.l), Root(t.r)), t.b, t.s)
      && m[r].kids == Kids(Root(least.l), Root(least.r)) && m[r].size == least.s
  {
    PathAt(fs, t.n, m, |fs| - 1);
    LinkedSubs(t, false, m);
    LinkedPlug(chain, least, m);
    PathAt(chain, least.n, m, |chain| - 1);
    LinkedSubs(least, false, m);
    SpliceNodes(fs, t, chain, least);
    PathNodesAt(fs, |fs| - 1);
    PathNodesAt(chain, |chain| - 1);
    assert least.n in Nodes(least) && t.n in Nodes(t);
  }

  method RelinkFar(p: Node, q: Node, r: Node, parent: Node, pdir: bool)
    requires p != q && p != r && p != parent && q != r && q != parent && r != parent
    modifies q, r, parent
    ensures Contents(r) == Cell(Kids(p.kids.left, p.kids.right), p.balance, old(r.size))
    ensures Contents(q) == old(Contents(q)).(kids := old(q.kids).Set(false, old(r.kids).right))
    ensures Contents(parent) == old(Contents(parent)).(kids := old(parent.kids).Set(pdir, r))
  {
    r.kids := r.kids.Set(false, p.kids.left);
    q.kids := q.kids.Set(false, r.kids.right);
    r.kids := r.kids.Set(true, p.kids.right);
    r.balance := p.balance;
    parent.kids := parent.kids.Set(pdir, r);
  }

  /** The frames after the sizes below the spliced node are counted down. */
  lemma FarFrames(fs: seq<Frame>, mid: Frame, chain: seq<Frame>, from: nat, to: nat)
    requires from == |fs| + 1 && to == from + |chain|
    ensures AddSizeIn(fs + [mid] + chain, from, to, -1) == fs + [mid] + AddSize(chain, -1)
  {
    var a, b := AddSizeIn(fs + [mid] + chain, from, to, -1), fs + [mid] + AddSize(chain, -1);
    forall i | 0 <= i < |a| ensures a[i] == b[i] {
      if i > |fs| { assert (fs + [mid] + chain)[i] == chain[i - from] && b[i] == AddSize(chain, -1)[i - from]; }
    }
  }

  lemma MidUpdated(fs: seq<Frame>, mid: Frame, chain: seq<Frame>, mid': Frame)
    ensures (fs + [mid] + chain)[|fs| := mid'] == fs + [mid'] + chain && (fs + [mid] + chain)[|fs|] == mid
  {}

  /** The size of the spliced node is written last. */
  method SizeMid(r: Node, size: int, ghost i: nat, ghost was: seq<Frame>, ghost now: seq<Frame>, ghost cur: Tree,
                 ghost m: Store)
      returns (ghost m': Store)
    requires Holds(m) && InStore(was, cur, m) && i < |was| && r == was[i].n && now == was[i := was[i].(s := size)]
    modifies m.Keys
    ensures Holds(m') && m'.Keys == m.Keys
    ensures InStore(now, cur, m') && InOrder(Plug(now, cur)) == InOrder(Plug(was, cur))
  {
    PathAt(was, Root(cur), m, i);
    r.size := size;
    m' := m[r := Contents(r)];
    FrameUpdated(was, i, was[i].(s := size), cur, m, now, m');
    SameShapeTree(was, now, cur);
  }

  lemma {:induction false} ChainDown(right: Tree, chain: seq<Frame>, cur: Tree)
    requires Chain(right, chain, cur) && cur.l.Fork?
    ensures Chain(right, chain + [Step(cur, false)], cur.l)
    ensures |chain| + Height(cur) <= Height(right)
  {
    StepDown(chain, cur, false);
    PlugBalanced(chain, cur);
  }

  method Note(path: array<Node?>, dirs: array<bool>, d: nat, p: Node, dir: bool)
    requires d < path.Length && d < dirs.Length
    modifies path, dirs
    ensures path[..] == old(path[..])[d := p] && dirs[..] == old(dirs[..])[d := dir]
  {
    dirs[d] := dir;
    path[d] := p;
  }

  lemma TrackStep(path: seq<Node?>, dirs: seq<bool>, fs: seq<Frame>, f: Frame)
    requires OnTrack(path, dirs, fs) && |fs| < |path| && |fs| < |dirs|
    ensures OnTrack(path[|fs| := f.n], dirs[|fs| := f.dir], fs + [f])
  {}

  /** One step down is noted. */
  method TrackDown(path: array<Node?>, dirs: array<bool>, d: nat, p: Node, which: bool,
                   ghost ff: Frame, ghost ctx: seq<Frame>, ghost f: Frame, ghost m: Store)
    requires d == |ctx| + 1 && d < path.Length && d < dirs.Length && f.n == p && f.dir == which
    requires OnTrack(path[..], dirs[..], [ff] + ctx) && Holds(m)
    modifies path, dirs
    ensures OnTrack(path[..], dirs[..], [ff] + (ctx + [f])) && Holds(m)
  {
    TrackStep(path[..], dirs[..], [ff] + ctx, f);
    assert [ff] + (ctx + [f]) == ([ff] + ctx) + [f];
    Note(path, dirs, d, p, which);
  }

  /** The same from place `from` on. */
  ghost predicate TrackFrom(path: seq<Node?>, dirs: seq<bool>, from: nat, fs: seq<Frame>) {
    && from + |fs| <= |path| && from + |fs| <= |dirs|
    && forall i :: 0 <= i < |fs| ==> path[from + i] == fs[i].n && dirs[from + i] == fs[i].dir
  }

  lemma TrackFromStep(path: seq<Node?>, dirs: seq<bool>, from: nat, fs: seq<Frame>, f: Frame)
    requires TrackFrom(path, dirs, from, fs) && from + |fs| < |path| && from + |fs| < |dirs|
    ensures TrackFrom(path[from + |fs| := f.n], dirs[from + |fs| := f.dir], from, fs + [f])
  {}

  lemma TrackJoin(path: seq<Node?>, dirs: seq<bool>, fs: seq<Frame>, mid: Frame, chain: seq<Frame>, e: nat,
                  all: seq<Frame>)
    requires OnTrack(path, dirs, fs) && TrackFrom(path, dirs, e + 1, chain) && e == |fs| && all == fs + [mid] + chain
    ensures e < |path| && e < |dirs| && OnTrack(path[e := mid.n], dirs[e := mid.dir], all) &&
            OnPath(path[e := mid.n], all)
  {
    forall i | 0 <= i < |all| ensures path[e := mid.n][i] == all[i].n && dirs[e := mid.dir][i] == all[i].dir {
      if i > e { assert all[i] == chain[i - e - 1]; }
    }
  }

  /** The walk to the least node on the right, which is not the right child itself. */
  method LeftEnd(p: Node, path: array<Node?>, dirs: array<bool>, from: nat, ghost fs: seq<Frame>, ghost right: Tree,
                 ghost m: Store)
      returns (q: Node, r: Node, d: nat, ghost chain: seq<Frame>, ghost least: Tree)
    requires right.Fork? && right.l.Fork? && p == right.n && Holds(m) && Linked(right, m)
    requires OnTrack(path[..], dirs[..], fs) && |fs| <= from && from + Height(right) <= path.Length == dirs.Length
    modifies path, dirs
    ensures Chain(right, chain, least) && least.l.Leaf? && chain != [] && q == chain[|chain| - 1].n && r == least.n
    ensures OnTrack(path[..], dirs[..], fs) && TrackFrom(path[..], dirs[..], from, chain) && d == from + |chain|
  {
    q, d := p, from;
    chain, least := [], right;
    while true
      invariant Chain(right, chain, least) && least.l.Fork? && q == least.n && Linked(least, m)
      invariant OnTrack(path[..], dirs[..], fs) && TrackFrom(path[..], dirs[..], from, chain) && d == from + |chain|
      decreases least
    {
      LinkedSubs(least, false, m);
      ChainDown(right, chain, least);
      TrackFromStep(path[..], dirs[..], from, chain, Step(least, false));
      Note(path, dirs, d, q, false);
      d := d + 1;
      r := q.kids.left;
      chain, least := chain + [Step(least, false)], least.l;
      LinkedSubs(least, false, m);
      if r.kids.left == null { break; }
      q := r;
    }
  }

  /** The node to erase is at the end of the path, in a tree in order. */
  ghost predicate Removable(ctx: seq<Frame>, t: Tree) {
    t.Fork? && Balanced(Plug(ctx, t)) && Sized(Plug(ctx, t)) && Count(Plug(ctx, t)) < UINT_LIMIT
  }

  lemma {:induction false} RemoveDepth(ctx: seq<Frame>, t: Tree)
    requires Removable(ctx, t)
    ensures |ctx| + 1 + Height(t.r) <= 45
  {
    WalkDepth(Plug(ctx, t), ctx, t);
  }

  lemma SizedFrames(ff: Frame, ctx: seq<Frame>)
    ensures AddSizeIn([ff] + ctx, 1, |ctx| + 1, -1) == [ff] + AddSize(ctx, -1)
  {
    var a, b := AddSizeIn([ff] + ctx, 1, |ctx| + 1, -1), [ff] + AddSize(ctx, -1);
    forall i | 0 <= i < |a| ensures a[i] == b[i] {
      if i > 0 { assert ([ff] + ctx)[i] == ctx[i - 1]; }
    }
  }

  lemma SameWithout(fs: seq<Frame>, fs': seq<Frame>, t: Tree)
    requires t.Fork? && SameShape(fs, fs')
    ensures Without(fs, t) == Without(fs', t)
  {
    SameShapeOrder(fs, fs');
  }

  lemma SplicedFrames(ff: Frame, ctx: seq<Frame>, t: Tree, chain: seq<Frame>, least: Tree)
    requires t.Fork? && least.Fork?
    ensures [ff] + ctx + [MidFrame(t, least, t.s - 1)] + chain == [ff] + Spliced(ctx, t, chain, least)
  {}

  /** The least node is entered on the path. */
  method EnterLeast(r: Node, path: array<Node?>, dirs: array<bool>, e: nat,
                    ghost fs: seq<Frame>, ghost mid: Frame, ghost chain: seq<Frame>, ghost all: seq<Frame>,
                    ghost m: Store)
    requires all == fs + [mid] + chain && r == mid.n && mid.dir && e == |fs| && Holds(m)
    requires OnTrack(path[..], dirs[..], fs) && TrackFrom(path[..], dirs[..], e + 1, chain)
    modifies path, dirs
    ensures OnTrack(path[..], dirs[..], all) && OnPath(path[..], all) && Holds(m)
  {
    TrackJoin(path[..], dirs[..], fs, mid, chain, e, all);
    Note(path, dirs, e, r, true);
  }

  /** The frames while the least node takes over: `all` before and `sized` after the sizes below it are
      counted down, and `done` with its own size. */
  lemma {:induction false} FarStages(fs: seq<Frame>, mid: Frame, mid': Frame, chain: seq<Frame>, e: nat, d: nat,
                                     all: seq<Frame>, sized: seq<Frame>, done: seq<Frame>)
    requires e == |fs| && d == e + 1 + |chain| && mid' == mid.(s := mid'.s)
    requires all == fs + [mid] + chain && sized == fs + [mid] + AddSize(chain, -1) &&
             done == fs + [mid'] + AddSize(chain, -1)
    ensures e < d == |all| == |sized| == |done| && sized == AddSizeIn(all, e + 1, d, -1)
    ensures sized[e] == mid && done == sized[e := mid'] && SameShape(all, sized) && SameShape(all, done)
  {
    FarFrames(fs, mid, chain, e + 1, d);
    MidUpdated(fs, mid, AddSize(chain, -1), mid');
    SizedShape(fs, mid, mid, chain);
    SizedShape(fs, mid, mid', chain);
  }

  /** The sizes from the least node on are written. */
  method SizeFar(r: Node, size: int, path: array<Node?>, e: nat, d: nat, ghost mid': Frame,
                 ghost all: seq<Frame>, ghost sized: seq<Frame>, ghost done: seq<Frame>, ghost cur: Tree,
                 ghost m: Store)
      returns (ghost m': Store)
    requires e < d == |all| == |sized| && sized == AddSizeIn(all, e + 1, d, -1) && r == sized[e].n
    requires mid' == sized[e].(s := size) && done == sized[e := mid']
    requires OnPath(path[..], all) && Holds(m) && InStore(all, cur, m) && SameShape(all, sized)
    modifies m.Keys
    ensures Holds(m') && m'.Keys == m.Keys && InStore(done, cur, m') &&
            InOrder(Plug(done, cur)) == InOrder(Plug(all, cur))
  {
    SameShapeTree(all, sized, cur);
    m' := AddSizes(path, e + 1, d, -1, all, cur, m);
    m' := SizeMid(r, size, e, sized, done, cur, m');
  }

  lemma SameTrack(path: seq<Node?>, dirs: seq<bool>, fs: seq<Frame>, fs': seq<Frame>)
    requires OnTrack(path, dirs, fs) && SameShape(fs, fs')
    ensures OnTrack(path, dirs, fs')
  {}

  lemma SizedShape(fs: seq<Frame>, mid: Frame, mid': Frame, chain: seq<Frame>)
    requires SameFrame(mid, mid')
    ensures SameShape(fs + [mid] + chain, fs + [mid'] + AddSize(chain, -1))
  {
    var a, b := fs + [mid] + chain, fs + [mid'] + AddSize(chain, -1);
    forall i | 0 <= i < |a| ensures SameFrame(a[i], b[i]) {
      if i > |fs| { assert a[i] == chain[i - |fs| - 1] && b[i] == AddSize(chain, -1)[i - |fs| - 1]; }
    }
  }

  /** The least node takes over and gets the size of the node taken out. */
  method MoveLeast(p: Node, q: Node, r: Node, size: int, path: array<Node?>, dirs: array<bool>, e: nat, d: nat,
                   ghost fs: seq<Frame>, ghost t: Tree,
                   ghost chain: seq<Frame>, ghost least: Tree, ghost mid: Frame, ghost mid': Frame,
                   ghost all: seq<Frame>, ghost sized: seq<Frame>, ghost done: seq<Frame>, ghost m: Store)
      returns (ghost m': Store)
    requires t.Fork? && p == t.n && Chain(t.r, chain, least) && least.l.Leaf? && chain != [] &&
             q == chain[|chain| - 1].n && r == least.n
    requires 0 < e == |fs| && d == e + 1 + |chain| && Holds(m) && InStore(fs, t, m)
    requires OnTrack(path[..], dirs[..], fs) && TrackFrom(path[..], dirs[..], e + 1, chain)
    requires mid == MidFrame(t, least, least.s) && mid' == mid.(s := size)
    requires all == fs + [mid] + chain && sized == fs + [mid] + AddSize(chain, -1) &&
             done == fs + [mid'] + AddSize(chain, -1)
    modifies m.Keys, path, dirs
    ensures Holds(m') && m'.Keys == m.Keys && InStore(done, least.r, m') &&
            InOrder(Plug(done, least.r)) == Without(fs, t)
    ensures OnTrack(path[..], dirs[..], done) && d == |done|
  {
    FarStages(fs, mid, mid', chain, e, d, all, sized, done);
    m' := SpliceFar(p, q, r, path[e - 1], dirs[e - 1], fs, t, chain, least, all, m);
    EnterLeast(r, path, dirs, e, fs, mid, chain, all, m');
    SameTrack(path[..], dirs[..], all, done);
    m' := SizeFar(r, size, path, e, d, mid', all, sized, done, least.r, m');
  }

  /** kavl_erase takes a node out whose right child has a left child. */
  method TakeOutFar(p: Node, q0: Node, path: array<Node?>, dirs: array<bool>, e: nat,
                    ghost fs: seq<Frame>, ghost t: Tree, ghost m: Store)
      returns (d: nat, ghost chain: seq<Frame>, ghost least: Tree, ghost fs': seq<Frame>, ghost m': Store)
    requires path.Length == dirs.Length == KAVL_MAX_DEPTH && e == |fs| > 0 && OnTrack(path[..], dirs[..], fs)
    requires Holds(m) && InStore(fs, t, m) && t.Fork? && p == t.n && |fs| + Height(t.r) <= 45
    requires t.r.Fork? && t.r.l.Fork? && q0 == t.r.n
    modifies m.Keys, path, dirs
    ensures Chain(t.r, chain, least) && least.l.Leaf? && Holds(m') && m'.Keys == m.Keys
    ensures fs' == fs + [MidFrame(t, least, t.s - 1)] + AddSize(chain, -1) && d == |fs'|
    ensures InStore(fs', least.r, m') && InOrder(Plug(fs', least.r)) == Without(fs, t) &&
            OnTrack(path[..], dirs[..], fs')
  {
    LinkedSubs(t, false, m);
    var q, r;
    var size := p.size - 1;
    q, r, d, chain, least := LeftEnd(q0, path, dirs, e + 1, fs, t.r, m);
    ghost var mid, mid' := MidFrame(t, least, least.s), MidFrame(t, least, t.s - 1);
    ghost var chain' := AddSize(chain, -1);
    fs' := fs + [mid'] + chain';
    m' := MoveLeast(p, q, r, size, path, dirs, e, d, fs, t, chain, least, mid, mid', fs + [mid] + chain,
      fs + [mid] + chain', fs', m);
  }

  /** The least node on the right has taken over. */
  lemma {:induction false} LeastTookOver(ff: Frame, ctx: seq<Frame>, t: Tree, chain: seq<Frame>, least: Tree,
                                         fs': seq<Frame>, ctx': seq<Frame>)
    requires Removable(ctx, t) && Chain(t.r, chain, least) && least.l.Leaf?
    requires fs' == [ff] + AddSize(ctx, -1) + [MidFrame(t, least, t.s - 1)] + AddSize(chain, -1)
    requires ctx' == Spliced(AddSize(ctx, -1), t, AddSize(chain, -1), least)
    ensures fs' == [ff] + ctx' && Shrunk(ctx', least.r) && |ctx'| == |ctx| + 1 + |chain|
    ensures Without([ff] + AddSize(ctx, -1), t) == Without([ff] + ctx, t)
  {
    SplicedFrames(ff, AddSize(ctx, -1), t, AddSize(chain, -1), least);
    LeastBalanced(ctx, t, chain, least);
    LeastSized(ctx, t, chain, least);
    SameWithout([ff] + ctx, [ff] + AddSize(ctx, -1), t);
  }

  /** kavl_erase takes a node out whose right child has no left child. */
  method TakeOutNear(p: Node, q: Node, path: array<Node?>, dirs: array<bool>, e: nat,
                     ghost fs: seq<Frame>, ghost t: Tree, ghost m: Store)
      returns (ghost fs': seq<Frame>, ghost m': Store)
    requires path.Length == dirs.Length == KAVL_MAX_DEPTH && 0 < e == |fs| < KAVL_MAX_DEPTH &&
             OnTrack(path[..], dirs[..], fs)
    requires Holds(m) && InStore(fs, t, m) && t.Fork? && p == t.n && t.r.Fork? && t.r.l.Leaf? && q == t.r.n
    modifies m.Keys, path, dirs
    ensures Holds(m') && m'.Keys == m.Keys && fs' == fs + [MidFrame(t, t.r, t.s - 1)] + AddSize([], -1)
    ensures InStore(fs', t.r.r, m') && InOrder(Plug(fs', t.r.r)) == Without(fs, t) && OnTrack(path[..], dirs[..], fs')
  {
    m' := SpliceNear(p, q, path[e - 1], dirs[e - 1], fs, t, m);
    TrackStep(path[..], dirs[..], fs, MidFrame(t, t.r, t.s - 1));
    Note(path, dirs, e, q, true);
    assert AddSize([], -1) == [];
    fs' := fs + [MidFrame(t, t.r, t.s - 1)];
    assert fs' == fs' + [];
  }

  /** The three ways in which kavl_erase takes the node out; the path then ends where the tree is lower. */
  method TakeOut(p: Node, path: array<Node?>, dirs: array<bool>, e: nat, ghost ff: Frame, ghost ctx: seq<Frame>,
                 ghost t: Tree, ghost m: Store)
      returns (d: nat, ghost ctx': seq<Frame>, ghost cur: Tree, ghost m': Store)
    requires path.Length == dirs.Length == KAVL_MAX_DEPTH && e == |ctx| + 1 &&
             OnTrack(path[..], dirs[..], [ff] + AddSize(ctx, -1))
    requires Removable(ctx, t) && p == t.n && Holds(m) && InStore([ff] + AddSize(ctx, -1), t, m)
    modifies m.Keys, path, dirs
    ensures Holds(m') && m'.Keys == m.Keys && InStore([ff] + ctx', cur, m') && Shrunk(ctx', cur)
    ensures InOrder(Plug([ff] + ctx', cur)) == Without([ff] + ctx, t)
    ensures OnTrack(path[..], dirs[..], [ff] + ctx') && d == |ctx'| + 1
  {
    ghost var sized := AddSize(ctx, -1);
    ghost var fs := [ff] + sized;
    RemoveDepth(ctx, t);
    LinkedSubs(t, false, m);
    if p.kids.right == null {
      LeftTakesOver(ctx, t);
      SameWithout([ff] + ctx, fs, t);
      d, ctx', cur := e, sized, t.l;
      m' := SpliceLeft(p, path[e - 1], dirs[e - 1], fs, t, m);
    } else {
      var q: Node := p.kids.right;
      LinkedSubs(t.r, false, m);
      ghost var chain, least, fs' := [], t.r, fs;
      d := e + 1;
      if q.kids.left == null {
        fs', m' := TakeOutNear(p, q, path, dirs, e, fs, t, m);
      } else {
        d, chain, least, fs', m' := TakeOutFar(p, q, path, dirs, e, fs, t, m);
      }
      cur, ctx' := least.r, Spliced(sized, t, AddSize(chain, -1), least);
      LeastTookOver(ff, ctx, t, chain, least, fs', ctx');
    }
  }

  /** Everything that kavl_erase does once the node is found. */
  method Remove(p: Node, path: array<Node?>, dirs: array<bool>, e: nat, ghost ff: Frame, ghost ctx: seq<Frame>,
                ghost t: Tree, ghost m: Store)
      returns (ghost u: Tree, ghost m': Store)
    requires path.Length == dirs.Length == KAVL_MAX_DEPTH && e == |ctx| + 1 && OnTrack(path[..], dirs[..], [ff] + ctx)
    requires Removable(ctx, t) && p == t.n && Holds(m) && InStore([ff] + ctx, t, m)
    modifies m.Keys, path, dirs
    ensures Holds(m') && m'.Keys == m.Keys && InStore([ff], u, m') && Balanced(u) && Sized(u)
    ensures InOrder(Plug([ff], u)) == Without([ff] + ctx, t)
  {
    SizedFrames(ff, ctx);
    m' := AddSizes(path, 1, e, -1, [ff] + ctx, t, m);
    SameTrack(path[..], dirs[..], [ff] + ctx, [ff] + AddSize(ctx, -1));
    var d;
    ghost var ctx', cur;
    d, ctx', cur, m' := TakeOut(p, path, dirs, e, ff, ctx, t, m');
    u, m' := Climb(path, dirs, d, ff, ctx', cur, m');
  }

  // ---------- The search

  /** The node above the root. */
  ghost function Above(fake: Node, b: int, s: int): Frame { Frame(fake, b, s, false, Leaf) }

  lemma {:induction false} AboveInStore(ff: Frame, ctx: seq<Frame>, cur: Tree, t: Tree, m: Store)
    requires ff == Above(ff.n, ff.b, ff.s) && Plug(ctx, cur) == t && Linked(t, m) && Ascending(InOrder(t)) &&
             ff.n !in Nodes(t)
    requires ff.n in m && m[ff.n] == FrameCell(ff, Root(t))
    ensures InStore([ff] + ctx, cur, m)
  {
    LinkedPlug(ctx, cur, m);
    if ctx != [] { PlugFirst(ctx, cur); }
    assert [ff][..0] == [];
    PathConcat([ff], ctx, Root(cur), m);
    PlugFirst([ff] + ctx, cur);
    assert ([ff] + ctx)[1..] == ctx;
    var ns := InOrder(t);
    assert InOrder(Close(ff, t)) == ns + [ff.n] + [] == ns + [ff.n];
    NodesInOrder(t);
    AscendingDistinct(ns);
  }

  lemma {:induction false} AboveOrder(ff: Frame, ctx: seq<Frame>)
    requires ff == Above(ff.n, ff.b, ff.s)
    ensures Before([ff] + ctx) == Before(ctx) && After([ff] + ctx) == After(ctx) + [ff.n]
    decreases |ctx|
  {
    var all := [ff] + ctx;
    if ctx == [] {
      assert all[..0] == [] && all == [ff];
    } else {
      var last := |ctx| - 1;
      AboveOrder(ff, ctx[..last]);
      assert all[..|all| - 1] == [ff] + ctx[..last];
      Assoc(if ctx[last].dir then [] else [ctx[last].n] + InOrder(ctx[last].other), After(ctx[..last]), [ff.n]);
    }
  }

  /** The first loop of kavl_erase; its first turn steps from the node above the root. */
  method Seek(fake: Node, key: int, path: array<Node?>, dirs: array<bool>, ghost ff: Frame, ghost t: Tree,
              ghost m: Store)
      returns (p: Node?, cnt: int, d: nat, ghost ctx: seq<Frame>, ghost cur: Tree)
    requires path.Length == dirs.Length == KAVL_MAX_DEPTH && fake == ff.n && ff == Above(fake, ff.b, ff.s)
    requires Holds(m) && Linked(t, m) && Avl(t) && Count(t) < UINT_LIMIT && fake in m &&
             m[fake] == FrameCell(ff, Root(t))
    modifies path, dirs
    ensures Holds(m) && (p == null <==> !HasKey(InOrder(t), key))
    ensures p != null ==>
      && Plug(ctx, cur) == t && cur.Fork? && p == cur.n && p.key == key && cnt == |Before(ctx)| + Count(cur.l) + 1
      && OnTrack(path[..], dirs[..], [ff] + ctx) && d == |ctx| + 1
  {
    ctx, cur, cnt := [], t, 0;
    Note(path, dirs, 0, fake, false);
    d := 1;
    p := fake.kids.left;
    while p != null && p.key != key
      invariant Holds(m) && Plug(ctx, cur) == t && Bracketed(ctx, key) && Sized(cur) && Linked(cur, m) && p == Root(cur)
      invariant cnt == |Before(ctx)| && OnTrack(path[..], dirs[..], [ff] + ctx) && d == |ctx| + 1
      decreases cur
    {
      LinkedSubs(cur, false, m);
      WalkDepth(t, ctx, cur);
      StoredIsCount(cur.l);
      var which := key > p.key;
      if which {
        var left := SizeOf(p.kids.left, cur.l, m);
        cnt := cnt + left + 1;
      }
      SearchDown(ctx, cur, which, key);
      TrackDown(path, dirs, d, p, which, ff, ctx, Step(cur, which), m);
      d := d + 1;
      p := p.kids.Get(which);
      ctx, cur := ctx + [Step(cur, which)], Sub(cur, which);
    }
    if p == null {
      NotFoundAt(ctx, key);
    } else {
      LinkedSubs(cur, false, m);
      var left := SizeOf(p.kids.left, cur.l, m);
      StoredIsCount(cur.l);
      cnt := cnt + left + 1;
      FoundAt(ctx, cur);
    }
  }

  /** The loop of kavl_erase for no key: down the left side.  The code then writes through place `d - 1`
      of the path, which is in the array just when the tree is not empty. */
  method SeekLeast(fake: Node, path: array<Node?>, dirs: array<bool>, ghost ff: Frame, ghost t: Tree, ghost m: Store)
      returns (p: Node, d: nat, ghost ctx: seq<Frame>, ghost cur: Tree)
    requires path.Length == dirs.Length == KAVL_MAX_DEPTH && fake == ff.n && ff == Above(fake, ff.b, ff.s)
    requires Holds(m) && Linked(t, m) && Avl(t) && Count(t) < UINT_LIMIT && fake in m &&
             m[fake] == FrameCell(ff, Root(t))
    modifies path, dirs
    ensures Holds(m) && (0 <= d - 1 < path.Length <==> t.Fork?)
    ensures t.Leaf? ==> p == fake
    ensures t.Fork? ==> Plug(ctx, cur) == t && cur.Fork? && p == cur.n && |Before(ctx)| + Count(cur.l) == 0
    ensures t.Fork? ==> OnTrack(path[..], dirs[..], [ff] + ctx) && d == |ctx| + 1
  {
    d, ctx := LeftSide(fake, path, dirs, ff, t, m);
    d := d - 1;
    assert path[..][d] == ([ff] + ctx)[d].n;
    p := path[d];
    cur := t;
    if ctx != [] {
      cur, ctx := LastFrame(path[..], dirs[..], ff, ctx, t, d);
    }
  }

  /** The last node of the left side, taken off the path. */
  lemma {:induction false} LastFrame(path: seq<Node?>, dirs: seq<bool>, ff: Frame, ctx: seq<Frame>, t: Tree, d: nat)
      returns (cur: Tree, ctx': seq<Frame>)
    requires ctx != [] && Plug(ctx, Leaf) == t && Before(ctx) == [] && !ctx[|ctx| - 1].dir &&
             OnTrack(path, dirs, [ff] + ctx) && d == |ctx|
    ensures Plug(ctx', cur) == t && cur.Fork? && cur.n == ([ff] + ctx)[d].n && |Before(ctx')| + Count(cur.l) == 0
    ensures OnTrack(path, dirs, [ff] + ctx') && d == |ctx'| + 1
  {
    var f := ctx[|ctx| - 1];
    cur, ctx' := Close(f, Leaf), ctx[..|ctx| - 1];
    assert [ff] + ctx' == ([ff] + ctx)[..d];
  }

  method LeftSide(fake: Node, path: array<Node?>, dirs: array<bool>, ghost ff: Frame, ghost t: Tree, ghost m: Store)
      returns (d: nat, ghost ctx: seq<Frame>)
    requires path.Length == dirs.Length == KAVL_MAX_DEPTH && fake == ff.n && ff == Above(fake, ff.b, ff.s)
    requires Holds(m) && Linked(t, m) && Avl(t) && Count(t) < UINT_LIMIT && fake in m &&
             m[fake] == FrameCell(ff, Root(t))
    modifies path, dirs
    ensures Holds(m) && Plug(ctx, Leaf) == t && Before(ctx) == [] &&
            (if ctx == [] then t.Leaf? else !ctx[|ctx| - 1].dir && t.Fork?)
    ensures OnTrack(path[..], dirs[..], [ff] + ctx) && d == |ctx| + 1 <= path.Length
  {
    ctx := [];
    ghost var sub := t;
    Note(path, dirs, 0, fake, false);
    d := 1;
    var n: Node? := fake.kids.left;
    while n != null
      invariant Holds(m) && Plug(ctx, sub) == t && Linked(sub, m) && n == Root(sub) && Before(ctx) == []
      invariant if ctx == [] then sub == t else !ctx[|ctx| - 1].dir && t.Fork?
      invariant OnTrack(path[..], dirs[..], [ff] + ctx) && d == |ctx| + 1
      decreases sub
    {
      LinkedSubs(sub, false, m);
      WalkDepth(t, ctx, sub);
      StepDown(ctx, sub, false);
      TrackDown(path, dirs, d, n, false, ff, ctx, Step(sub, false), m);
      d := d + 1;
      n := n.kids.left;
      ctx, sub := ctx + [Step(sub, false)], sub.l;
    }
  }
}
