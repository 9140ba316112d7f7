/** The iterator of kavl.h. */
module KavlIter {
  import opened KavlTree
  import opened KavlRotate
  import opened KavlPath
  import opened KavlWalk

  /** What is still to come: each stacked node, then its right subtree, from the top down. */
  ghost function Rest(sts: seq<Tree>): seq<Node>
    decreases |sts|
  {
    if sts == [] then [] else
    var t := sts[|sts| - 1];
    (if t.Leaf? then [] else [t.n] + InOrder(t.r)) + Rest(sts[..|sts| - 1])
  }

  /** The stacked subtrees are in the store and get lower and lower, so that 64 places are enough. */
  ghost predicate Fits(sts: seq<Tree>, stack: seq<Node?>, m: Store) {
    && |stack| == KAVL_MAX_DEPTH && |sts| <= 45
    && forall i :: 0 <= i < |sts| ==>
      sts[i].Fork? && Linked(sts[i], m) && i + Height(sts[i]) <= 45 && stack[i] == sts[i].n
  }

  lemma {:induction false} PushFits(sts: seq<Tree>, stack: seq<Node?>, t: Tree, m: Store)
    requires Fits(sts, stack, m) && t.Fork? && Linked(t, m) && |sts| + Height(t) <= 45
    ensures Fits(sts + [t], stack[|sts| := t.n], m)
    ensures Rest(sts + [t]) == [t.n] + InOrder(t.r) + Rest(sts)
    ensures InOrder(t) + Rest(sts) == InOrder(t.l) + Rest(sts + [t])
  {
    assert (sts + [t])[..|sts|] == sts;
    Regroup3(InOrder(t.l), [t.n], InOrder(t.r), Rest(sts));
  }

  lemma Regroup3(a: seq<Node>, b: seq<Node>, c: seq<Node>, d: seq<Node>)
    ensures (a + b + c) + d == a + (b + c + d)
  {}

  lemma {:induction false} PopFits(sts: seq<Tree>, stack: seq<Node?>, m: Store)
    requires Fits(sts, stack, m) && sts != []
    ensures var t := sts[|sts| - 1];
      && Fits(sts[..|sts| - 1], stack, m) && Linked(t.r, m) && |sts| - 1 + Height(t.r) <= 45
      && Rest(sts) == [t.n] + (InOrder(t.r) + Rest(sts[..|sts| - 1]))
  {}

  lemma StackEmpty(sts: seq<Tree>, stack: seq<Node?>, m: Store)
    requires Fits(sts, stack, m)
    ensures Rest(sts) == [] <==> sts == []
  {
    if sts != [] { PopFits(sts, stack, m); }
  }

  /** `rest` is what `ns` has from the first key on that is not below `key`. */
  ghost predicate From(ns: seq<Node>, rest: seq<Node>, key: int) {
    |rest| <= |ns| && (var k := |ns| - |rest|;
      rest == ns[k..] && AllBelow(ns[..k], key) && forall i :: k <= i < |ns| ==> key <= ns[i].key)
  }

  lemma FromAt(a: seq<Node>, rest: seq<Node>, key: int)
    requires Ascending(a + rest) && rest != [] && rest[0].key == key
    ensures From(a + rest, rest, key)
  {
    var ns := a + rest;
    assert ns[|a|] == rest[0] && ns[|a|..] == rest && ns[..|a|] == a;
    forall i | 0 <= i < |a| ensures a[i].key < key { assert ns[i] == a[i]; }
  }

  lemma {:induction false} FromFound(ctx: seq<Frame>, t: Tree)
    requires t.Fork? && Ascending(InOrder(Plug(ctx, t)))
    ensures From(InOrder(Plug(ctx, t)), [t.n] + InOrder(t.r) + After(ctx), t.n.key)
  {
    PlugOrder(ctx, t);
    var a, rest := Before(ctx) + InOrder(t.l), [t.n] + InOrder(t.r) + After(ctx);
    Regroup4(Before(ctx), InOrder(t.l), [t.n], InOrder(t.r), After(ctx));
    FromAt(a, rest, t.n.key);
  }

  lemma Regroup4(a: seq<Node>, b: seq<Node>, c: seq<Node>, d: seq<Node>, e: seq<Node>)
    ensures a + (b + c + d) + e == (a + b) + (c + d + e)
  {}

  lemma {:induction false} FromEnd(ctx: seq<Frame>, key: int)
    requires Bracketed(ctx, key)
    ensures From(InOrder(Plug(ctx, Leaf)), After(ctx), key)
  {
    NotFoundAt(ctx, key);
  }

  /** The iterator. */
  class Cursor {
    var stack: array<Node?>
    var top: int              // the place of the current node, or -1
    var right: Node?
    ghost var sts: seq<Tree>

    ghost predicate Ready(m: Store)
      reads this, stack
    {
      top == |sts| - 1 && Fits(sts, stack[..], m)
    }

    ghost predicate Valid(m: Store)
      reads this, stack
    {
      Ready(m) && (sts != [] ==> right == Root(sts[|sts| - 1].r))
    }

    /** The nodes from the current one on. */
    ghost function Remaining(): seq<Node>
      reads this
    {
      Rest(sts)
    }

    constructor (ghost m: Store)
      ensures fresh(stack) && Valid(m) && Remaining() == []
    {
      stack := new Node?[KAVL_MAX_DEPTH](_ => null);
      top, right, sts := -1, null, [];
    }

    /** kavl_at */
    method At(ghost m: Store) returns (p: Node?)
      requires Valid(m)
      ensures p == if Remaining() == [] then null else Remaining()[0]
    {
      p := if top < 0 then null else stack[top];
    }

    method Push(p: Node, ghost t: Tree, ghost m: Store)
      requires Ready(m) && Linked(t, m) && t.Fork? && p == t.n && |sts| + Height(t) <= 45
      modifies this, stack
      ensures stack == old(stack) && right == old(right) && Ready(m) && sts == old(sts) + [t]
    {
      PushFits(sts, stack[..], t, m);
      top := top + 1;
      ghost var was := stack[..];
      stack[top] := p;
      assert stack[..] == was[top := p];
      sts := sts + [t];
    }

    /** The pointer to the right child of the current node. */
    method SetRight(ghost m: Store)
      requires Ready(m) && Holds(m) && sts != []
      modifies this
      ensures stack == old(stack) && sts == old(sts) && Valid(m)
    {
      var n: Node := stack[top];
      LinkedSubs(sts[top], true, m);
      right := n.kids.right;
    }

    /** The loop shared by first and next: the left side of `t` is stacked. */
    method PushLeft(root: Node?, ghost t: Tree, ghost m: Store)
      requires Ready(m) && Holds(m) && Linked(t, m) && root == Root(t) && |sts| + Height(t) <= 45
      modifies this, stack
      ensures stack == old(stack) && Ready(m) && Rest(sts) == InOrder(t) + Rest(old(sts))
    {
      var p := root;
      ghost var cur := t;
      while p != null
        invariant stack == old(stack) && Ready(m) && Linked(cur, m) && p == Root(cur) && |sts| + Height(cur) <= 45
        invariant InOrder(cur) + Rest(sts) == InOrder(t) + Rest(old(sts))
        decreases cur
      {
        LinkedSubs(cur, false, m);
        PushFits(sts, stack[..], cur, m);
        Push(p, cur, m);
        cur := cur.l;
        p := p.kids.left;
      }
      assert InOrder(cur) + Rest(sts) == Rest(sts);
    }

    /** The loop of kavl_itr_first.  The code then reads the node at `top`, which is on the stack just when
        the tree is not empty. */
    method StackLeft(root: Node?, ghost t: Tree, ghost m: Store)
      requires stack.Length == KAVL_MAX_DEPTH && Holds(m) && Stored(root, t, m)
      modifies this, stack
      ensures stack == old(stack) && Ready(m) && Remaining() == InOrder(t)
      ensures 0 <= top < stack.Length <==> root != null
    {
      top, sts := -1, [];
      DepthBound(t);
      PushLeft(root, t, m);
      assert InOrder(t) + [] == InOrder(t);
      StackEmpty(sts, stack[..], m);
      assert InOrder(t) == [] <==> t.Leaf?;
    }

    /** kavl_itr_first, for a tree that is not empty. */
    method First(root: Node, ghost t: Tree, ghost m: Store)
      requires stack.Length == KAVL_MAX_DEPTH && Holds(m) && Stored(root, t, m)
      modifies this, stack
      ensures stack == old(stack) && Valid(m) && Remaining() == InOrder(t)
    {
      StackLeft(root, t, m);
      SetRight(m);
    }

    /** kavl_itr_next, from a current node. */
    method Next(ghost m: Store) returns (more: bool)
      requires Valid(m) && Holds(m) && Remaining() != []
      modifies this, stack
      ensures stack == old(stack) && Valid(m) && Remaining() == old(Remaining())[1..]
      ensures more <==> Remaining() != []
    {
      PopFits(sts, stack[..], m);
      var p := right;
      top := top - 1;
      ghost var t := sts[|sts| - 1];
      sts := sts[..|sts| - 1];
      PushLeft(p, t.r, m);
      more := top >= 0;
      if more { SetRight(m); }
    }

    /** One turn of the loop of kavl_itr_find. */
    method SeekStep(p: Node, key: int, ghost ctx: seq<Frame>, ghost cur: Tree, ghost t: Tree, ghost m: Store)
        returns (p': Node?, ghost ctx': seq<Frame>, ghost cur': Tree)
      requires stack.Length == KAVL_MAX_DEPTH && Holds(m) && Ready(m) && |sts| <= |ctx| && Rest(sts) == After(ctx) &&
               p.key != key
      requires Plug(ctx, cur) == t && Avl(t) && Count(t) < UINT_LIMIT && Bracketed(ctx, key) && Linked(cur, m) &&
               p == Root(cur)
      modifies this, stack
      ensures stack == old(stack) && Ready(m) && |sts| <= |ctx'| && Rest(sts) == After(ctx')
      ensures Plug(ctx', cur') == t && Bracketed(ctx', key) && Linked(cur', m) && p' == Root(cur') && cur' < cur
    {
      var dir := p.key < key;
      LinkedSubs(cur, dir, m);
      WalkDepth(t, ctx, cur);
      SearchDown(ctx, cur, dir, key);
      StepDown(ctx, cur, dir);
      p' := p.kids.Get(dir);
      ctx', cur' := ctx + [Step(cur, dir)], Sub(cur, dir);
      if !dir {
        Push(p, cur, m);
      } else {
        assert [] + After(ctx) == After(ctx);
      }
    }

    /** The node is there and goes on the stack. */
    method SeekFound(p: Node, ghost ctx: seq<Frame>, ghost cur: Tree, ghost t: Tree, ghost m: Store)
      requires stack.Length == KAVL_MAX_DEPTH && Holds(m) && Ready(m) && |sts| <= |ctx| && Rest(sts) == After(ctx)
      requires Plug(ctx, cur) == t && Avl(t) && Count(t) < UINT_LIMIT && Linked(cur, m) && p == Root(cur)
      modifies this, stack
      ensures stack == old(stack) && Valid(m) && From(InOrder(t), Remaining(), p.key) && HasKey(InOrder(t), p.key)
    {
      WalkDepth(t, ctx, cur);
      FoundAt(ctx, cur);
      FromFound(ctx, cur);
      Push(p, cur, m);
      SetRight(m);
    }

    /** kavl_itr_find: the iterator stands at the first node whose key is not below `key`. */
    method Seek(root: Node?, key: int, ghost t: Tree, ghost m: Store) returns (found: bool)
      requires stack.Length == KAVL_MAX_DEPTH && Holds(m) && Stored(root, t, m)
      modifies this, stack
      ensures stack == old(stack) && Valid(m) && found == HasKey(InOrder(t), key)
      ensures From(InOrder(t), Remaining(), key)
    {
      var p := root;
      ghost var ctx, cur := [], t;
      top, sts := -1, [];
      while p != null && p.key != key
        invariant stack == old(stack) && Ready(m) && |sts| <= |ctx| && Rest(sts) == After(ctx)
        invariant Plug(ctx, cur) == t && Bracketed(ctx, key) && Linked(cur, m) && p == Root(cur)
        decreases cur
      {
        p, ctx, cur := SeekStep(p, key, ctx, cur, t, m);
      }
      found := p != null;
      if found {
        SeekFound(p, ctx, cur, t, m);
      } else {
        NotFoundAt(ctx, key);
        FromEnd(ctx, key);
        if top >= 0 { SetRight(m); }
      }
    }
  }
}
