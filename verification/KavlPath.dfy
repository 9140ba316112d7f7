/** A tree taken apart along a path: the frames passed on the way down, and the subtree reached. */
module KavlPath {
  import opened KavlTree
  import opened KavlRotate

  // ---------- On values

  ghost function Close(f: Frame, t: Tree): Tree { Build(f.n, f.b, f.s, f.dir, t, f.other) }

  /** The whole tree: `t` put back below the frames. */
  ghost function Plug(ctx: seq<Frame>, t: Tree): Tree
    decreases |ctx|
  {
    if ctx == [] then t else Plug(ctx[..|ctx| - 1], Close(ctx[|ctx| - 1], t))
  }

  lemma {:induction false} PlugFirst(ctx: seq<Frame>, t: Tree)
    requires ctx != []
    ensures Plug(ctx, t) == Close(ctx[0], Plug(ctx[1..], t))
    decreases |ctx|
  {
    var last := |ctx| - 1;
    if last > 0 {
      PlugFirst(ctx[..last], Close(ctx[last], t));
      assert ctx[..last][1..] == ctx[1..][..last - 1];
    } else {
      assert ctx[..0] == [] && ctx[1..] == [];
    }
  }

  lemma {:induction false} PlugSplit(ctx: seq<Frame>, k: nat, t: Tree)
    requires k <= |ctx|
    ensures Plug(ctx, t) == Plug(ctx[..k], Plug(ctx[k..], t))
    decreases |ctx| - k
  {
    if k < |ctx| {
      PlugSplit(ctx, k + 1, t);
      assert ctx[..k + 1][..k] == ctx[..k];
      PlugFirst(ctx[k..], t);
      assert ctx[k..][1..] == ctx[k + 1..];
    } else {
      assert ctx[..k] == ctx && ctx[k..] == [];
    }
  }

  /** The nodes before and after the hole, in order. */
  ghost function Before(ctx: seq<Frame>): seq<Node>
    decreases |ctx|
  {
    if ctx == [] then [] else
    var f := ctx[|ctx| - 1];
    Before(ctx[..|ctx| - 1]) + if f.dir then InOrder(f.other) + [f.n] else []
  }

  ghost function After(ctx: seq<Frame>): seq<Node>
    decreases |ctx|
  {
    if ctx == [] then [] else
    var f := ctx[|ctx| - 1];
    (if f.dir then [] else [f.n] + InOrder(f.other)) + After(ctx[..|ctx| - 1])
  }

  lemma {:induction false} PlugOrder(ctx: seq<Frame>, t: Tree)
    ensures InOrder(Plug(ctx, t)) == Before(ctx) + InOrder(t) + After(ctx)
    decreases |ctx|
  {
    if ctx != [] {
      var f, rest := ctx[|ctx| - 1], ctx[..|ctx| - 1];
      PlugOrder(rest, Close(f, t));
      if f.dir {
        assert Before(rest) + (InOrder(f.other) + [f.n] + InOrder(t)) + After(rest)
            == (Before(rest) + (InOrder(f.other) + [f.n])) + InOrder(t) + ([] + After(rest));
      } else {
        assert Before(rest) + (InOrder(t) + [f.n] + InOrder(f.other)) + After(rest)
            == (Before(rest) + []) + InOrder(t) + (([f.n] + InOrder(f.other)) + After(rest));
      }
    }
  }

  /** The height of the tree if the hole has height `h`. */
  ghost function HeightAbove(ctx: seq<Frame>, h: nat): nat
    decreases |ctx|
  {
    if ctx == [] then h else HeightAbove(ctx[..|ctx| - 1], 1 + Max(h, Height(ctx[|ctx| - 1].other)))
  }

  ghost predicate FrameBalanced(f: Frame, h: nat) {
    Balanced(f.other) && -1 <= f.b <= 1 && h - Height(f.other) == if f.dir then f.b else -f.b
  }

  /** The stored balances of the frames are right for a hole of height `h`. */
  ghost predicate BalancedAbove(ctx: seq<Frame>, h: nat)
    decreases |ctx|
  {
    ctx != [] ==>
      var f := ctx[|ctx| - 1];
      FrameBalanced(f, h) && BalancedAbove(ctx[..|ctx| - 1], 1 + Max(h, Height(f.other)))
  }

  ghost predicate SizedAbove(ctx: seq<Frame>, count: nat)
    decreases |ctx|
  {
    ctx != [] ==>
      var f := ctx[|ctx| - 1];
      Sized(f.other) && f.s == 1 + Count(f.other) + count && SizedAbove(ctx[..|ctx| - 1], f.s)
  }

  lemma {:induction false} CloseBalanced(f: Frame, t: Tree)
    ensures Height(Close(f, t)) == 1 + Max(Height(t), Height(f.other))
    ensures Balanced(Close(f, t)) <==> Balanced(t) && FrameBalanced(f, Height(t))
  {}

  lemma {:induction false} PlugBalanced(ctx: seq<Frame>, t: Tree)
    ensures Balanced(Plug(ctx, t)) <==> Balanced(t) && BalancedAbove(ctx, Height(t))
    ensures Height(Plug(ctx, t)) == HeightAbove(ctx, Height(t)) >= |ctx| + Height(t)
    decreases |ctx|
  {
    if ctx != [] {
      var last := |ctx| - 1;
      PlugBalanced(ctx[..last], Close(ctx[last], t));
      CloseBalanced(ctx[last], t);
    }
  }

  lemma {:induction false} PlugSized(ctx: seq<Frame>, t: Tree)
    ensures Sized(Plug(ctx, t)) <==> Sized(t) && SizedAbove(ctx, Count(t))
    decreases |ctx|
  {
    if ctx != [] {
      PlugSized(ctx[..|ctx| - 1], Close(ctx[|ctx| - 1], t));
    }
  }

  // ---------- Sizes and balances along the path

  /** The frames with `d` added to every stored size. */
  ghost function AddSize(ctx: seq<Frame>, d: int): (r: seq<Frame>)
    ensures |r| == |ctx| && forall i :: 0 <= i < |r| ==> r[i] == ctx[i].(s := ctx[i].s + d)
  {
    seq(|ctx|, i requires 0 <= i < |ctx| => ctx[i].(s := ctx[i].s + d))
  }

  lemma {:induction false} AddSizeAbove(ctx: seq<Frame>, count: nat, d: int)
    requires SizedAbove(ctx, count) && count + d >= 0
    ensures SizedAbove(AddSize(ctx, d), count + d)
    decreases |ctx|
  {
    if ctx != [] {
      var last := |ctx| - 1;
      AddSizeAbove(ctx[..last], ctx[last].s, d);
      assert AddSize(ctx, d)[..last] == AddSize(ctx[..last], d);
    }
  }

  /** Two paths that differ in the stored sizes and balances only. */
  ghost predicate SameShape(ctx: seq<Frame>, ctx': seq<Frame>) {
    && |ctx| == |ctx'|
    && forall i :: 0 <= i < |ctx| ==>
         ctx[i].n == ctx'[i].n && ctx[i].dir == ctx'[i].dir && ctx[i].other == ctx'[i].other
  }

  lemma {:induction false} SameShapeOrder(ctx: seq<Frame>, ctx': seq<Frame>)
    requires SameShape(ctx, ctx')
    ensures Before(ctx) == Before(ctx') && After(ctx) == After(ctx')
    decreases |ctx|
  {
    if ctx != [] {
      var last := |ctx| - 1;
      assert ctx[last].n == ctx'[last].n && ctx[last].dir == ctx'[last].dir && ctx[last].other == ctx'[last].other;
      SameShapeOrder(ctx[..last], ctx'[..last]);
    }
  }

  /** The stored sizes do not matter to the balances. */
  lemma {:induction false} SameBalances(ctx: seq<Frame>, ctx': seq<Frame>, h: nat)
    requires SameShape(ctx, ctx') && forall i :: 0 <= i < |ctx| ==> ctx[i].b == ctx'[i].b
    requires BalancedAbove(ctx, h)
    ensures BalancedAbove(ctx', h)
    decreases |ctx|
  {
    if ctx != [] {
      var last := |ctx| - 1;
      SameBalances(ctx[..last], ctx'[..last], 1 + Max(h, Height(ctx[last].other)));
    }
  }

  lemma {:induction false} SameSizes(ctx: seq<Frame>, ctx': seq<Frame>, count: nat)
    requires SameShape(ctx, ctx') && forall i :: 0 <= i < |ctx| ==> ctx[i].s == ctx'[i].s
    requires SizedAbove(ctx, count)
    ensures SizedAbove(ctx', count)
    decreases |ctx|
  {
    if ctx != [] {
      var last := |ctx| - 1;
      SameSizes(ctx[..last], ctx'[..last], ctx[last].s);
    }
  }

  ghost function Tilt(f: Frame): int { if f.dir then 1 else -1 }

  /** Even frames grow with what is below them: tilted towards the hole they fit a hole that is
      one higher, and the whole is one higher. */
  lemma {:induction false} TiltEven(ctx: seq<Frame>, ctx': seq<Frame>, h: nat)
    requires SameShape(ctx, ctx')
    requires forall i :: 0 <= i < |ctx| ==> ctx[i].b == 0 && ctx'[i].b == Tilt(ctx[i])
    requires BalancedAbove(ctx, h)
    ensures BalancedAbove(ctx', h + 1) && HeightAbove(ctx', h + 1) == HeightAbove(ctx, h) + 1
    decreases |ctx|
  {
    if ctx != [] {
      var last := |ctx| - 1;
      TiltEven(ctx[..last], ctx'[..last], 1 + Max(h, Height(ctx[last].other)));
    }
  }

  lemma {:induction false} BalancedAboveSplit(ctx: seq<Frame>, k: nat, h: nat)
    requires k <= |ctx|
    ensures BalancedAbove(ctx, h) <==> BalancedAbove(ctx[k..], h) && BalancedAbove(ctx[..k], HeightAbove(ctx[k..], h))
    ensures HeightAbove(ctx, h) == HeightAbove(ctx[..k], HeightAbove(ctx[k..], h))
    decreases |ctx|
  {
    if k == |ctx| {
      assert ctx[..k] == ctx && ctx[k..] == [];
    } else {
      var last := |ctx| - 1;
      BalancedAboveSplit(ctx[..last], k, 1 + Max(h, Height(ctx[last].other)));
      assert ctx[k..][..last - k] == ctx[..last][k..];
      assert ctx[..last][..k] == ctx[..k];
    }
  }

  // ---------- Separation

  ghost function FrameNodes(f: Frame): set<Node> { {f.n} + Nodes(f.other) }

  ghost function PathNodes(ctx: seq<Frame>): set<Node>
    decreases |ctx|
  {
    if ctx == [] then {} else PathNodes(ctx[..|ctx| - 1]) + FrameNodes(ctx[|ctx| - 1])
  }

  lemma {:induction false} PlugNodes(ctx: seq<Frame>, t: Tree)
    ensures Nodes(Plug(ctx, t)) == PathNodes(ctx) + Nodes(t)
    decreases |ctx|
  {
    if ctx != [] {
      PlugNodes(ctx[..|ctx| - 1], Close(ctx[|ctx| - 1], t));
    }
  }

  lemma {:induction false} PlugDistinct(ctx: seq<Frame>, t: Tree)
    requires Distinct(InOrder(Plug(ctx, t)))
    ensures Distinct(InOrder(t)) && PathNodes(ctx) !! Nodes(t)
    decreases |ctx|
  {
    if ctx != [] {
      var f, rest := ctx[|ctx| - 1], ctx[..|ctx| - 1];
      PlugDistinct(rest, Close(f, t));
      DistinctSubs(Close(f, t), f.dir);
    }
  }

  lemma {:induction false} SameShapeTree(ctx: seq<Frame>, ctx': seq<Frame>, t: Tree)
    requires SameShape(ctx, ctx')
    ensures InOrder(Plug(ctx, t)) == InOrder(Plug(ctx', t))
  {
    SameShapeOrder(ctx, ctx');
    PlugOrder(ctx, t);
    PlugOrder(ctx', t);
  }

  // ---------- In the store

  ghost function FrameCell(f: Frame, below: Node?): Cell {
    Cell(if f.dir then Kids(Root(f.other), below) else Kids(below, Root(f.other)), f.b, f.s)
  }

  /** The store holds the path, and the child pointer at its end is `hole`. */
  ghost predicate PathLinked(ctx: seq<Frame>, hole: Node?, m: Store)
    decreases |ctx|
  {
    ctx != [] ==>
      var f := ctx[|ctx| - 1];
      f.n in m && m[f.n] == FrameCell(f, hole) && Linked(f.other, m) && PathLinked(ctx[..|ctx| - 1], f.n, m)
  }

  lemma {:induction false} LinkedPlug(ctx: seq<Frame>, t: Tree, m: Store)
    ensures Linked(Plug(ctx, t), m) <==> Linked(t, m) && PathLinked(ctx, Root(t), m)
    decreases |ctx|
  {
    if ctx != [] {
      LinkedPlug(ctx[..|ctx| - 1], Close(ctx[|ctx| - 1], t), m);
    }
  }

  lemma {:induction false} PathStill(ctx: seq<Frame>, hole: Node?, m: Store, m': Store)
    requires PathLinked(ctx, hole, m) && SameOn(PathNodes(ctx), m, m')
    ensures PathLinked(ctx, hole, m')
    decreases |ctx|
  {
    if ctx != [] {
      var f := ctx[|ctx| - 1];
      StillLinked(f.other, m, m');
      PathStill(ctx[..|ctx| - 1], f.n, m, m');
    }
  }

  /** What the store says about one frame. */
  lemma {:induction false} PathAt(ctx: seq<Frame>, hole: Node?, m: Store, i: nat)
    requires PathLinked(ctx, hole, m) && i < |ctx|
    ensures ctx[i].n in m && m[ctx[i].n] == FrameCell(ctx[i], if i + 1 < |ctx| then ctx[i + 1].n else hole)
    decreases |ctx|
  {
    var last := |ctx| - 1;
    if i < last { PathAt(ctx[..last], ctx[last].n, m, i); }
  }

  lemma {:induction false} PathSlices(ctx: seq<Frame>, hole: Node?, m: Store, k: nat)
    requires PathLinked(ctx, hole, m) && k <= |ctx|
    ensures PathLinked(ctx[k..], hole, m) && PathLinked(ctx[..k], if k < |ctx| then ctx[k].n else hole, m)
    decreases |ctx|
  {
    if k < |ctx| {
      var last := |ctx| - 1;
      PathSlices(ctx[..last], ctx[last].n, m, k);
      assert ctx[k..][..last - k] == ctx[..last][k..] && ctx[..last][..k] == ctx[..k];
    } else {
      assert ctx[..k] == ctx && ctx[k..] == [];
    }
  }

  /** A frame that differs from `f` in its stored balance and size only. */
  ghost predicate SameFrame(f: Frame, f': Frame) { f.n == f'.n && f.dir == f'.dir && f.other == f'.other }

  /** A write to the node of one frame replaces that frame. */
  lemma {:induction false} PathWritten(ctx: seq<Frame>, hole: Node?, i: nat, f: Frame, t: Tree, m: Store, m': Store)
    requires PathLinked(ctx, hole, m) && i < |ctx| && SameFrame(ctx[i], f) && Distinct(InOrder(Plug(ctx, t)))
    requires f.n in m' && m'[f.n] == FrameCell(f, if i + 1 < |ctx| then ctx[i + 1].n else hole)
    requires SameOn(m.Keys - {f.n}, m, m')
    ensures PathLinked(ctx[i := f], hole, m')
    decreases |ctx|
  {
    var last := |ctx| - 1;
    var g, rest := ctx[last], ctx[..last];
    PlugDistinct(rest, Close(g, t));
    DistinctSubs(Close(g, t), g.dir);
    if i == last {
      StillLinked(g.other, m, m');
      PathStill(rest, g.n, m, m');
      assert ctx[i := f][..last] == rest;
    } else {
      PathAt(rest, g.n, m, i);
      PathNodesAt(rest, i);
      StillLinked(g.other, m, m');
      PathWritten(rest, g.n, i, f, Close(g, t), m, m');
      assert ctx[i := f][..last] == rest[i := f];
    }
  }

  lemma {:induction false} PathNodesAt(ctx: seq<Frame>, i: nat)
    requires i < |ctx|
    ensures ctx[i].n in PathNodes(ctx)
    decreases |ctx|
  {
    if i < |ctx| - 1 { PathNodesAt(ctx[..|ctx| - 1], i); }
  }

  /** A write to the child pointer at the end of the path hangs another tree there. */
  lemma {:induction false} Rehung(ctx: seq<Frame>, hole: Node?, t: Tree, m: Store, m': Store)
    requires ctx != [] && PathLinked(ctx, hole, m) && Distinct(InOrder(Plug(ctx, t))) && Linked(t, m)
    requires var f := ctx[|ctx| - 1]; f.n in m' && m'[f.n] == FrameCell(f, Root(t)) && SameOn(m.Keys - {f.n}, m, m')
    ensures PathLinked(ctx, Root(t), m') && Linked(t, m')
  {
    var last := |ctx| - 1;
    var f, rest := ctx[last], ctx[..last];
    PlugDistinct(rest, Close(f, t));
    DistinctSubs(Close(f, t), f.dir);
    StillLinked(f.other, m, m');
    StillLinked(t, m, m');
    PathStill(rest, f.n, m, m');
  }

  lemma {:induction false} PathConcat(a: seq<Frame>, b: seq<Frame>, hole: Node?, m: Store)
    requires PathLinked(b, hole, m) && PathLinked(a, if b == [] then hole else b[0].n, m)
    ensures PathLinked(a + b, hole, m)
    decreases |b|
  {
    if b == [] {
      assert a + b == a;
    } else {
      var last := |b| - 1;
      PathConcat(a, b[..last], b[last].n, m);
      assert (a + b)[..|a + b| - 1] == a + b[..last];
    }
  }

  lemma {:induction false} PathRedirected(ctx: seq<Frame>, hole: Node?, hole': Node?, m: Store, m': Store)
    requires ctx != [] && PathLinked(ctx, hole, m)
    requires var f := ctx[|ctx| - 1];
      && f.n !in PathNodes(ctx[..|ctx| - 1]) && f.n !in Nodes(f.other) && SameOn(PathNodes(ctx) - {f.n}, m, m')
      && f.n in m && f.n in m' && m'[f.n] == m[f.n].(kids := m[f.n].kids.Set(f.dir, hole'))
    ensures PathLinked(ctx, hole', m')
  {
    var last := |ctx| - 1;
    StillLinked(ctx[last].other, m, m');
    PathStill(ctx[..last], ctx[last].n, m, m');
  }

  lemma {:induction false} LastAlone(ctx: seq<Frame>, t: Tree)
    requires ctx != [] && Distinct(InOrder(Plug(ctx, t)))
    ensures var f := ctx[|ctx| - 1]; f.n !in PathNodes(ctx[..|ctx| - 1]) && f.n !in Nodes(f.other)
  {
    var last := |ctx| - 1;
    PlugDistinct(ctx[..last], Close(ctx[last], t));
    DistinctSubs(Close(ctx[last], t), ctx[last].dir);
  }
}
