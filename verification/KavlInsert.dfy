/** Why the insertion of kavl.h keeps the tree balanced: only the last node on the path that leans
    can get out of balance, and one rotation there restores its old height. */
module KavlInsert {
  import opened KavlTree
  import opened KavlRotate
  import opened KavlPath

  ghost function Single(x: Node): Tree { Fork(x, 0, 1, Leaf, Leaf) }

  /** `k` is the place on the path of the last node that leans, or of the root if none does. */
  ghost predicate LastLeaning(ctx: seq<Frame>, k: nat) {
    && k < |ctx| && (k == 0 || ctx[k].b != 0)
    && forall j :: k < j < |ctx| ==> ctx[j].b == 0
  }

  /** The path after the two update loops: sizes grow by one, balances from `k` on tilt. */
  ghost function Tilted(ctx: seq<Frame>, k: nat): (r: seq<Frame>)
    ensures |r| == |ctx| && SameShape(ctx, r)
    ensures forall i :: 0 <= i < |r| ==>
      r[i].s == ctx[i].s + 1 && r[i].b == ctx[i].b + if i < k then 0 else Tilt(ctx[i])
  {
    seq(|ctx|, i requires 0 <= i < |ctx| =>
      ctx[i].(s := ctx[i].s + 1, b := ctx[i].b + if i < k then 0 else Tilt(ctx[i])))
  }

  lemma {:induction false} PlugSplitSized(ctx: seq<Frame>, k: nat, t: Tree, u: Tree)
    requires k <= |ctx| && Sized(Plug(ctx, t)) && Sized(u) && Count(u) == Count(Plug(ctx[k..], t))
    ensures Sized(Plug(ctx[..k], u)) && Sized(Plug(ctx[k..], t))
  {
    PlugSplit(ctx, k, t);
    PlugSized(ctx[..k], Plug(ctx[k..], t));
    PlugSized(ctx[..k], u);
  }

  lemma {:induction false} TiltedSized(ctx: seq<Frame>, k: nat, x: Node)
    requires Sized(Plug(ctx, Leaf))
    ensures Sized(Plug(Tilted(ctx, k), Single(x)))
  {
    PlugSized(ctx, Leaf);
    AddSizeAbove(ctx, 0, 1);
    SameSizes(AddSize(ctx, 1), Tilted(ctx, k), 1);
    PlugSized(Tilted(ctx, k), Single(x));
  }

  lemma {:induction false} AroundLeaning(ctx: seq<Frame>, k: nat)
    requires LastLeaning(ctx, k) && Balanced(Plug(ctx, Leaf))
    ensures var h := HeightAbove(ctx[k + 1..], 0);
      && BalancedAbove(ctx[k + 1..], 0) && FrameBalanced(ctx[k], h)
      && BalancedAbove(ctx[..k], 1 + Max(h, Height(ctx[k].other)))
  {
    PlugBalanced(ctx, Leaf);
    BalancedAboveSplit(ctx, k + 1, 0);
    assert ctx[..k + 1][..k] == ctx[..k];
  }

  /** What hangs below the last leaning node has grown by one and is balanced. */
  lemma {:induction false} InnerGrown(ctx: seq<Frame>, k: nat, x: Node)
    requires LastLeaning(ctx, k) && BalancedAbove(ctx[k + 1..], 0)
    ensures var h := HeightAbove(ctx[k + 1..], 0); var inner := Plug(Tilted(ctx, k)[k + 1..], Single(x));
      Balanced(inner) && Height(inner) == h + 1 && inner.Fork? && (inner.b == 0 ==> h == 0)
  {
    var rest := Tilted(ctx, k)[k + 1..];
    TiltEven(ctx[k + 1..], rest, 0);
    PlugBalanced(rest, Single(x));
    if rest != [] {
      PlugFirst(rest, Single(x));
      assert rest[0] == Tilted(ctx, k)[k + 1];
    }
  }

  /** The subtree at the last leaning node, and whether it has to be rotated. */
  ghost function Grown(ctx: seq<Frame>, k: nat, x: Node): Tree
    requires k < |ctx|
  {
    Plug(Tilted(ctx, k)[k..], Single(x))
  }

  lemma {:induction false} GrownShape(ctx: seq<Frame>, k: nat, x: Node)
    requires k < |ctx|
    ensures var f := Tilted(ctx, k)[k];
      Grown(ctx, k, x) == Close(f, Plug(Tilted(ctx, k)[k + 1..], Single(x)))
  {
    var ctx' := Tilted(ctx, k);
    PlugFirst(ctx'[k..], Single(x));
    assert ctx'[k..][1..] == ctx'[k + 1..];
  }

  /** The subtree at the last leaning node when it need not be rotated: balanced, and of the old height
      unless the path above it is empty. */
  lemma {:induction false} GrownHeight(ctx: seq<Frame>, k: nat, x: Node)
    requires LastLeaning(ctx, k) && Balanced(Plug(ctx, Leaf))
    requires -2 < Tilted(ctx, k)[k].b < 2
    ensures Balanced(Grown(ctx, k, x))
    ensures k > 0 ==> Height(Grown(ctx, k, x)) == 1 + Max(HeightAbove(ctx[k + 1..], 0), Height(ctx[k].other))
  {
    AroundLeaning(ctx, k);
    InnerGrown(ctx, k, x);
    GrownShape(ctx, k, x);
    CloseBalanced(Tilted(ctx, k)[k], Plug(Tilted(ctx, k)[k + 1..], Single(x)));
  }

  lemma {:induction false} GrownEven(ctx: seq<Frame>, k: nat, x: Node)
    requires LastLeaning(ctx, k) && Balanced(Plug(ctx, Leaf))
    requires -2 < Tilted(ctx, k)[k].b < 2
    ensures Balanced(Plug(Tilted(ctx, k), Single(x)))
  {
    var ctx', g := Tilted(ctx, k), Grown(ctx, k, x);
    GrownHeight(ctx, k, x);
    if k > 0 {
      AroundLeaning(ctx, k);
      SameBalances(ctx[..k], ctx'[..k], Height(g));
    } else {
      assert ctx'[..k] == [];
    }
    PlugBalanced(ctx'[..k], g);
    PlugSplit(ctx', k, Single(x));
  }

  lemma {:induction false} GrownLeans(ctx: seq<Frame>, k: nat, x: Node)
    requires LastLeaning(ctx, k) && Balanced(Plug(ctx, Leaf)) && Sized(Plug(ctx, Leaf))
    requires !(-2 < Tilted(ctx, k)[k].b < 2)
    ensures var dir := Tilted(ctx, k)[k].b < 0; var t := Grown(ctx, k, x);
      && Leaning(t, dir) && Sub(t, !dir).Fork? && Sub(t, !dir).b != 0
      && Height(t) == 2 + Max(HeightAbove(ctx[k + 1..], 0), Height(ctx[k].other))
  {
    AroundLeaning(ctx, k);
    InnerGrown(ctx, k, x);
    GrownShape(ctx, k, x);
    TiltedSized(ctx, k, x);
    PlugSplit(Tilted(ctx, k), k, Single(x));
    PlugSized(Tilted(ctx, k)[..k], Grown(ctx, k, x));
    CloseBalanced(Tilted(ctx, k)[k], Plug(Tilted(ctx, k)[k + 1..], Single(x)));
  }

  /** The tree that the insertion leaves. */
  ghost function Inserted(ctx: seq<Frame>, k: nat, x: Node): Tree
    requires LastLeaning(ctx, k) && Balanced(Plug(ctx, Leaf)) && Sized(Plug(ctx, Leaf))
  {
    var ctx' := Tilted(ctx, k);
    if -2 < ctx'[k].b < 2 then Plug(ctx', Single(x))
    else
      GrownLeans(ctx, k, x);
      FixedBalanced(Grown(ctx, k, x), ctx'[k].b < 0);
      Plug(ctx'[..k], Fixed(Grown(ctx, k, x), ctx'[k].b < 0))
  }

  lemma {:induction false} InsertedBalanced(ctx: seq<Frame>, k: nat, x: Node)
    requires LastLeaning(ctx, k) && Balanced(Plug(ctx, Leaf)) && Sized(Plug(ctx, Leaf))
    ensures Balanced(Inserted(ctx, k, x)) && Sized(Inserted(ctx, k, x))
  {
    TiltedSized(ctx, k, x);
    if -2 < Tilted(ctx, k)[k].b < 2 {
      GrownEven(ctx, k, x);
    } else {
      GrownLeans(ctx, k, x);
      GrownFixed(ctx, k, x, Grown(ctx, k, x), Tilted(ctx, k)[k].b < 0);
    }
  }

  lemma {:induction false} GrownFixed(ctx: seq<Frame>, k: nat, x: Node, t: Tree, dir: bool)
    requires LastLeaning(ctx, k) && Balanced(Plug(ctx, Leaf)) && Sized(Plug(Tilted(ctx, k), Single(x)))
    requires t == Grown(ctx, k, x) && Leaning(t, dir) && Sub(t, !dir).Fork? && Sub(t, !dir).b != 0
    requires Sub(t, !dir).b == (if dir then 1 else -1) ==> Sub(Sub(t, !dir), dir).Fork?
    requires Height(t) == 2 + Max(HeightAbove(ctx[k + 1..], 0), Height(ctx[k].other))
    ensures var u := Plug(Tilted(ctx, k)[..k], Fixed(t, dir)); Balanced(u) && Sized(u)
  {
    FixedBalanced(t, dir);
    AroundLeaning(ctx, k);
    var ctx', u := Tilted(ctx, k), Fixed(t, dir);
    SameBalances(ctx[..k], ctx'[..k], Height(u));
    PlugBalanced(ctx'[..k], u);
    PlugSplitSized(ctx', k, Single(x), u);
  }

  /** The new node stands between what was before and what was after the end of the path. */
  lemma {:induction false} InsertedOrder(ctx: seq<Frame>, k: nat, x: Node)
    requires LastLeaning(ctx, k) && Balanced(Plug(ctx, Leaf)) && Sized(Plug(ctx, Leaf))
    ensures InOrder(Inserted(ctx, k, x)) == Before(ctx) + [x] + After(ctx)
  {
    var ctx' := Tilted(ctx, k);
    SameShapeOrder(ctx, ctx');
    PlugOrder(ctx', Single(x));
    assert InOrder(Single(x)) == [x];
    if !(-2 < ctx'[k].b < 2) {
      var dir, t := ctx'[k].b < 0, Grown(ctx, k, x);
      GrownLeans(ctx, k, x);
      FixedOrder(t, dir);
      PlugSplit(ctx', k, Single(x));
      PlugOrder(ctx'[..k], t);
      PlugOrder(ctx'[..k], Fixed(t, dir));
    }
  }
}
