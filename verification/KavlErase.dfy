/** Why the removal of kavl.h keeps the tree balanced: the way up meets subtrees that have become
    one lower, until one keeps its height. */
module KavlErase {
  import opened KavlTree
  import opened KavlRotate
  import opened KavlPath

  /** The frames are right for the height that `cur` had, which was one more, and for its size. */
  ghost predicate Shrunk(ctx: seq<Frame>, cur: Tree) {
    && Balanced(cur) && BalancedAbove(ctx, Height(cur) + 1)
    && Sized(cur) && SizedAbove(ctx, Count(cur))
  }

  /** The frames are right for `cur`. */
  ghost predicate Settled(ctx: seq<Frame>, cur: Tree) {
    && Balanced(cur) && BalancedAbove(ctx, Height(cur))
    && Sized(cur) && SizedAbove(ctx, Count(cur))
  }

  /** The last frame closed over the lower tree, its balance moved away from it. */
  ghost function Lowered(ctx: seq<Frame>, cur: Tree): Tree
    requires ctx != []
  {
    var f := ctx[|ctx| - 1];
    Close(f.(b := f.b - Tilt(f)), cur)
  }

  lemma {:induction false} LoweredParts(ctx: seq<Frame>, cur: Tree)
    requires ctx != [] && Shrunk(ctx, cur)
    ensures var f, u := ctx[|ctx| - 1], Lowered(ctx, cur);
      && Sized(u) && Count(u) == f.s && SizedAbove(ctx[..|ctx| - 1], Count(u))
      && Height(u) == 1 + Max(Height(cur), Height(f.other))
      && Sub(u, f.dir) == cur && Sub(u, !f.dir) == f.other && u.n == f.n
  {
    var f := ctx[|ctx| - 1];
    BuildSized(f.n, f.b - Tilt(f), f.s, f.dir, cur, f.other);
  }

  /** An even node leans now; its height is what it was. */
  lemma {:induction false} LoweredEven(ctx: seq<Frame>, cur: Tree)
    requires ctx != [] && Shrunk(ctx, cur) && ctx[|ctx| - 1].b == 0
    ensures Settled(ctx[..|ctx| - 1], Lowered(ctx, cur))
  {
    var f := ctx[|ctx| - 1];
    LoweredParts(ctx, cur);
    BuildBalanced(f.n, f.b - Tilt(f), f.s, f.dir, cur, f.other);
  }

  /** A node that leaned to the lower side is even now, and one lower. */
  lemma {:induction false} LoweredLevel(ctx: seq<Frame>, cur: Tree)
    requires ctx != [] && Shrunk(ctx, cur) && ctx[|ctx| - 1].b == Tilt(ctx[|ctx| - 1])
    ensures Shrunk(ctx[..|ctx| - 1], Lowered(ctx, cur))
  {
    var f := ctx[|ctx| - 1];
    LoweredParts(ctx, cur);
    BuildBalanced(f.n, f.b - Tilt(f), f.s, f.dir, cur, f.other);
  }

  lemma {:induction false} LoweredLeaning(ctx: seq<Frame>, cur: Tree)
    requires ctx != [] && Shrunk(ctx, cur) && ctx[|ctx| - 1].b == -Tilt(ctx[|ctx| - 1])
    ensures var f, u, above := ctx[|ctx| - 1], Lowered(ctx, cur), ctx[..|ctx| - 1];
      Leaning(u, f.dir) && Sized(u) && SizedAbove(above, Count(u)) && BalancedAbove(above, Height(u))
  {
    LoweredParts(ctx, cur);
  }

  /** A leaning subtree can be rotated, and the rotation keeps the order. */
  lemma {:induction false} LeaningFixes(u: Tree, dir: bool)
    requires Leaning(u, dir)
    ensures Sub(u, !dir).Fork? && (Sub(u, !dir).b == (if dir then 1 else -1) ==> Sub(Sub(u, !dir), dir).Fork?)
    ensures InOrder(Fixed(u, dir)) == InOrder(u)
  {
    LeaningParts(u, dir);
    FixedOrder(u, dir);
  }

  /** The frames above fit the rotated subtree, of the old height or one lower. */
  lemma {:induction false} FixedAbove(above: seq<Frame>, u: Tree, dir: bool)
    requires Leaning(u, dir) && Sized(u) && SizedAbove(above, Count(u)) && BalancedAbove(above, Height(u))
    requires Sub(u, !dir).Fork?
    ensures Sub(u, !dir).b == 0 ==> Settled(above, Fixed(u, dir))
    ensures Sub(u, !dir).b != 0 ==> Shrunk(above, Fixed(u, dir))
  {
    LeaningParts(u, dir);
    FixedBalanced(u, dir);
  }

  // ---------- Taking a node out

  /** The right subtree of the node to erase is `Plug(chain, least)`: `chain` goes left all the way. */
  ghost predicate Chain(right: Tree, chain: seq<Frame>, least: Tree) {
    && right == Plug(chain, least) && least.Fork?
    && forall i :: 0 <= i < |chain| ==> !chain[i].dir
  }

  /** The path after the node `p` gave way to the least node on its right, or to its left child. */
  ghost function Spliced(ctx: seq<Frame>, p: Tree, chain: seq<Frame>, least: Tree): seq<Frame>
    requires p.Fork? && least.Fork?
  {
    ctx + [Frame(least.n, p.b, p.s - 1, true, p.l)] + chain
  }

  lemma {:induction false} BalancedAboveConcat(a: seq<Frame>, b: seq<Frame>, h: nat)
    ensures BalancedAbove(a + b, h) <==> BalancedAbove(b, h) && BalancedAbove(a, HeightAbove(b, h))
  {
    BalancedAboveSplit(a + b, |a|, h);
    assert (a + b)[..|a|] == a && (a + b)[|a|..] == b;
  }

  ghost function CountAbove(ctx: seq<Frame>, count: nat): nat
    decreases |ctx|
  {
    if ctx == [] then count else CountAbove(ctx[..|ctx| - 1], 1 + Count(ctx[|ctx| - 1].other) + count)
  }

  lemma {:induction false} PlugCount(ctx: seq<Frame>, t: Tree)
    ensures Count(Plug(ctx, t)) == CountAbove(ctx, Count(t))
    decreases |ctx|
  {
    if ctx != [] { PlugCount(ctx[..|ctx| - 1], Close(ctx[|ctx| - 1], t)); }
  }

  lemma {:induction false} CountAboveAdd(ctx: seq<Frame>, count: nat, d: nat)
    ensures CountAbove(ctx, count + d) == CountAbove(ctx, count) + d
    decreases |ctx|
  {
    if ctx != [] { CountAboveAdd(ctx[..|ctx| - 1], 1 + Count(ctx[|ctx| - 1].other) + count, d); }
  }

  lemma {:induction false} SizedAboveConcat(a: seq<Frame>, b: seq<Frame>, count: nat)
    ensures SizedAbove(a + b, count) <==> SizedAbove(b, count) && SizedAbove(a, CountAbove(b, count))
    decreases |b|
  {
    if b == [] {
      assert a + b == a;
    } else {
      var last := |b| - 1;
      SizedAboveConcat(a, b[..last], 1 + Count(b[last].other) + count);
      assert (a + b)[..|a + b| - 1] == a + b[..last];
    }
  }

  lemma {:induction false} BeforeChain(ctx: seq<Frame>, chain: seq<Frame>)
    requires forall i :: 0 <= i < |chain| ==> !chain[i].dir
    ensures Before(ctx + chain) == Before(ctx)
    decreases |chain|
  {
    if chain == [] {
      assert ctx + chain == ctx;
    } else {
      var last := |chain| - 1;
      BeforeChain(ctx, chain[..last]);
      assert (ctx + chain)[..|ctx + chain| - 1] == ctx + chain[..last];
    }
  }

  lemma Assoc(x: seq<Node>, y: seq<Node>, z: seq<Node>)
    ensures x + (y + z) == (x + y) + z
  {}

  lemma {:induction false} AfterConcat(a: seq<Frame>, b: seq<Frame>)
    ensures After(a + b) == After(b) + After(a)
    decreases |b|
  {
    if b == [] {
      assert a + b == a && After(b) + After(a) == After(a);
    } else {
      var last := |b| - 1;
      var x := if b[last].dir then [] else [b[last].n] + InOrder(b[last].other);
      AfterConcat(a, b[..last]);
      assert (a + b)[..|a + b| - 1] == a + b[..last] && (a + b)[|a + b| - 1] == b[last];
      assert After(a + b) == x + After(a + b[..last]) && After(b) == x + After(b[..last]);
      Assoc(x, After(b[..last]), After(a));
    }
  }

  /** Without a right child the node gives way to its left child. */
  lemma {:induction false} LeftTakesOver(ctx: seq<Frame>, p: Tree)
    requires p.Fork? && p.r.Leaf? && Balanced(Plug(ctx, p)) && Sized(Plug(ctx, p))
    ensures Shrunk(AddSize(ctx, -1), p.l)
  {
    PlugBalanced(ctx, p);
    PlugSized(ctx, p);
    AddSizeAbove(ctx, Count(p), -1);
    SameBalances(ctx, AddSize(ctx, -1), Height(p));
  }

  /** Otherwise the least node on its right takes its place. */
  lemma {:induction false} MidBalanced(ctx: seq<Frame>, p: Tree, n: Node)
    requires p.Fork? && Balanced(Plug(ctx, p))
    ensures BalancedAbove(AddSize(ctx, -1) + [Frame(n, p.b, p.s - 1, true, p.l)], Height(p.r))
  {
    PlugBalanced(ctx, p);
    var ctx', mid := AddSize(ctx, -1), [Frame(n, p.b, p.s - 1, true, p.l)];
    SameBalances(ctx, ctx', Height(p));
    assert (ctx' + mid)[..|ctx'|] == ctx';
  }

  lemma {:induction false} LeastBalanced(ctx: seq<Frame>, p: Tree, chain: seq<Frame>, least: Tree)
    requires p.Fork? && Chain(p.r, chain, least) && least.l.Leaf? && Balanced(Plug(ctx, p))
    ensures Balanced(least.r) && BalancedAbove(Spliced(AddSize(ctx, -1), p, AddSize(chain, -1), least),
            Height(least.r) + 1)
  {
    PlugBalanced(ctx, p);
    MidBalanced(ctx, p, least.n);
    PlugBalanced(chain, least);
    var upper, chain' := AddSize(ctx, -1) + [Frame(least.n, p.b, p.s - 1, true, p.l)], AddSize(chain, -1);
    SameBalances(chain, chain', Height(least));
    SameShapeHeight(chain, chain', Height(least));
    BalancedAboveConcat(upper, chain', Height(least));
  }

  lemma {:induction false} SameShapeHeight(ctx: seq<Frame>, ctx': seq<Frame>, h: nat)
    requires SameShape(ctx, ctx')
    ensures HeightAbove(ctx, h) == HeightAbove(ctx', h)
    decreases |ctx|
  {
    if ctx != [] {
      var last := |ctx| - 1;
      SameShapeHeight(ctx[..last], ctx'[..last], 1 + Max(h, Height(ctx[last].other)));
    }
  }

  /** The sizes on the right, counted down, and how many nodes there are then. */
  lemma {:induction false} ChainSized(right: Tree, chain: seq<Frame>, least: Tree)
    requires Chain(right, chain, least) && least.l.Leaf? && Sized(right)
    ensures Sized(least.r) && SizedAbove(AddSize(chain, -1), Count(least.r))
    ensures CountAbove(AddSize(chain, -1), Count(least.r)) == Count(right) - 1
  {
    PlugSized(chain, least);
    PlugCount(chain, least);
    AddSizeAbove(chain, Count(least), -1);
    CountAboveAdd(chain, Count(least.r), 1);
    SameShapeCount(chain, AddSize(chain, -1), Count(least.r));
  }

  lemma SizedOne(f: Frame, count: nat)
    ensures SizedAbove([f], count) <==> Sized(f.other) && f.s == 1 + Count(f.other) + count
    ensures CountAbove([f], count) == 1 + Count(f.other) + count
  {
    assert [f][..0] == [];
  }

  /** The frame of the least node fits between the sizes above and below it. */
  lemma {:induction false} LeastFrame(ctx: seq<Frame>, p: Tree, chain: seq<Frame>, least: Tree, f: Frame)
    requires p.Fork? && Chain(p.r, chain, least) && least.l.Leaf? && Sized(p) && SizedAbove(ctx, Count(p))
    requires f.other == p.l && f.s == p.s - 1
    ensures var below := CountAbove(AddSize(chain, -1), Count(least.r));
      && Sized(least.r) && SizedAbove(AddSize(chain, -1), Count(least.r))
      && SizedAbove([f], below) && SizedAbove(AddSize(ctx, -1), CountAbove([f], below))
  {
    ChainSized(p.r, chain, least);
    AddSizeAbove(ctx, Count(p), -1);
    SizedOne(f, Count(p.r) - 1);
  }

  lemma {:induction false} LeastSized(ctx: seq<Frame>, p: Tree, chain: seq<Frame>, least: Tree)
    requires p.Fork? && Chain(p.r, chain, least) && least.l.Leaf? && Sized(Plug(ctx, p))
    ensures Sized(least.r) && SizedAbove(Spliced(AddSize(ctx, -1), p, AddSize(chain, -1), least), Count(least.r))
  {
    PlugSized(ctx, p);
    var f := Frame(least.n, p.b, p.s - 1, true, p.l);
    LeastFrame(ctx, p, chain, least, f);
    SplicedSized(AddSize(ctx, -1), f, AddSize(chain, -1), Count(least.r));
  }

  lemma {:induction false} SplicedSized(ctx: seq<Frame>, f: Frame, chain: seq<Frame>, count: nat)
    requires SizedAbove(chain, count) && SizedAbove([f], CountAbove(chain, count)) &&
             SizedAbove(ctx, CountAbove([f], CountAbove(chain, count)))
    ensures SizedAbove(ctx + [f] + chain, count)
  {
    SizedAboveConcat(ctx + [f], chain, count);
    SizedAboveConcat(ctx, [f], CountAbove(chain, count));
  }

  lemma {:induction false} SameShapeCount(ctx: seq<Frame>, ctx': seq<Frame>, count: nat)
    requires SameShape(ctx, ctx')
    ensures CountAbove(ctx, count) == CountAbove(ctx', count)
    decreases |ctx|
  {
    if ctx != [] {
      var last := |ctx| - 1;
      SameShapeCount(ctx[..last], ctx'[..last], 1 + Count(ctx[last].other) + count);
    }
  }

  lemma Moved(b: seq<Node>, c: seq<Node>, n: Node, d: seq<Node>, f: seq<Node>, e: seq<Node>)
    ensures (b + (c + [n])) + d + (f + ([] + e)) == b + c + ([] + ([] + [n] + d) + f) + e
  {}

  lemma {:induction false} LeastOrder(ctx: seq<Frame>, p: Tree, chain: seq<Frame>, least: Tree)
    requires p.Fork? && Chain(p.r, chain, least) && least.l.Leaf?
    ensures InOrder(Plug(Spliced(ctx, p, chain, least), least.r)) ==
            Before(ctx) + InOrder(p.l) + InOrder(p.r) + After(ctx)
  {
    var upper := ctx + [Frame(least.n, p.b, p.s - 1, true, p.l)];
    PlugOrder(upper + chain, least.r);
    PlugOrder(chain, least);
    BeforeChain([], chain);
    assert [] + chain == chain;
    BeforeChain(upper, chain);
    assert upper[..|ctx|] == ctx;
    AfterConcat(upper, chain);
    Moved(Before(ctx), InOrder(p.l), least.n, InOrder(least.r), After(chain), After(ctx));
  }
}
