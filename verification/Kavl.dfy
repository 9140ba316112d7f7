/** The operations of kavl.h on a tree of nodes in the heap. */
module Kavl {
  import opened KavlTree
  import opened KavlRotate
  import opened KavlPath
  import opened KavlWalk
  import opened KavlGrow
  import opened KavlShrink

  /** `after` is `before` without its node number `cnt`, counted from 1. */
  ghost predicate ErasedAt(before: seq<Node>, after: seq<Node>, r: Node, cnt: int) {
    1 <= cnt <= |before| && before[cnt - 1] == r && after == before[..cnt - 1] + before[cnt..]
  }

  lemma ErasedAscending(ns: seq<Node>, k: nat)
    requires Ascending(ns) && k < |ns|
    ensures Ascending(ns[..k] + ns[k + 1..])
  {
    var less := ns[..k] + ns[k + 1..];
    forall i, j | 0 <= i < j < |less| ensures less[i].key < less[j].key {
      assert less[i] == ns[if i < k then i else i + 1] && less[j] == ns[if j < k then j else j + 1];
    }
  }

  lemma {:induction false} UnderAbove(ff: Frame, u: Tree)
    requires ff == Above(ff.n, ff.b, ff.s)
    ensures InOrder(Plug([ff], u)) == InOrder(u) + [ff.n]
  {
    AboveOrder(ff, []);
    assert [ff] + [] == [ff];
    PlugOrder([ff], u);
    var ns := InOrder(u);
    assert [] + ns + ([] + [ff.n]) == ns + [ff.n];
  }

  lemma {:induction false} WithoutAbove(ff: Frame, ctx: seq<Frame>, cur: Tree)
    requires ff == Above(ff.n, ff.b, ff.s) && cur.Fork?
    ensures Without([ff] + ctx, cur) == Before(ctx) + InOrder(cur.l) + (InOrder(cur.r) + (After(ctx) + [ff.n]))
  {
    AboveOrder(ff, ctx);
  }

  lemma {:induction false} RemovedOrder(ff: Frame, ctx: seq<Frame>, cur: Tree, u: Tree)
    requires ff == Above(ff.n, ff.b, ff.s) && cur.Fork? && InOrder(Plug([ff], u)) == Without([ff] + ctx, cur)
    ensures var ns, k := InOrder(Plug(ctx, cur)), |Before(ctx)| + Count(cur.l);
      k < |ns| && ns[k] == cur.n && InOrder(u) == ns[..k] + ns[k + 1..]
  {
    WithoutAbove(ff, ctx, cur);
    UnderAbove(ff, u);
    PlugOrder(ctx, cur);
    NodesInOrder(cur.l);
    DropMiddle(Before(ctx), InOrder(cur.l), cur.n, InOrder(cur.r), After(ctx), InOrder(u), ff.n,
      InOrder(Plug(ctx, cur)));
  }

  lemma DropMiddle(a: seq<Node>, b: seq<Node>, x: Node, c: seq<Node>, d: seq<Node>, u: seq<Node>, z: Node,
                   ns: seq<Node>)
    requires u + [z] == a + b + (c + (d + [z])) && ns == a + (b + [x] + c) + d
    ensures var k := |a| + |b|; k < |ns| && ns[k] == x && u == ns[..k] + ns[k + 1..]
  {
    var k, less := |a| + |b|, a + b + (c + d);
    assert less + [z] == a + b + (c + (d + [z]));
    assert u == (u + [z])[..|u|] == (less + [z])[..|less|] == less;
    assert ns[..k] == a + b && ns[k + 1..] == c + d;
  }

  /** The tree that is left, apart from the node above the root. */
  lemma {:induction false} LeftLinked(ff: Frame, u: Tree, m: Store, m': Store)
    requires ff == Above(ff.n, ff.b, ff.s) && InStore([ff], u, m)
    requires Nodes(u) <= m.Keys ==> m' == map n | n in Nodes(u) :: m[n]
    ensures ff.n in m && m[ff.n].kids.left == Root(u) && Nodes(u) <= m.Keys && Linked(u, m') && m'.Keys == Nodes(u)
  {
    LinkedNodes(u, m);
    StillLinked(u, m, m');
    assert [ff][..0] == [];
  }

  lemma {:induction false} LeftOrdered(ff: Frame, t: Tree, ctx: seq<Frame>, cur: Tree, u: Tree)
    requires ff == Above(ff.n, ff.b, ff.s) && Plug(ctx, cur) == t && cur.Fork? && Avl(t)
    requires InOrder(Plug([ff], u)) == Without([ff] + ctx, cur)
    ensures ErasedAt(InOrder(t), InOrder(u), cur.n, |Before(ctx)| + Count(cur.l) + 1) && Ascending(InOrder(u)) &&
            Count(u) < Count(t)
  {
    RemovedOrder(ff, ctx, cur, u);
    ErasedAscending(InOrder(t), |Before(ctx)| + Count(cur.l));
    NodesInOrder(t);
    NodesInOrder(u);
  }

  lemma {:induction false} PathRemovable(t: Tree, ctx: seq<Frame>, cur: Tree)
    requires Plug(ctx, cur) == t && Avl(t) && Count(t) < UINT_LIMIT && cur.Fork?
    ensures Removable(ctx, cur)
  {}

  /** kavl_erase once the node is found: the tree under `fake` loses it. */
  method EraseFound(r: Node, path: array<Node?>, dirs: array<bool>, d: nat, fake: Node,
                    ghost ff: Frame, ghost t: Tree, ghost ctx: seq<Frame>, ghost cur: Tree, ghost m: Store)
      returns (newRoot: Node?, ghost t': Tree, ghost m': Store)
    requires path.Length == dirs.Length == KAVL_MAX_DEPTH && fake == ff.n && ff == Above(fake, ff.b, ff.s) &&
             fake !in Nodes(t)
    requires Holds(m) && Linked(t, m) && Avl(t) && Count(t) < UINT_LIMIT && fake in m &&
             m[fake] == FrameCell(ff, Root(t))
    requires Plug(ctx, cur) == t && cur.Fork? && r == cur.n && OnTrack(path[..], dirs[..], [ff] + ctx) && d == |ctx| + 1
    modifies m.Keys, path, dirs
    ensures Holds(m') && Stored(newRoot, t', m') && Count(t') < Count(t) && m'.Keys <= m.Keys
    ensures ErasedAt(InOrder(t), InOrder(t'), r, |Before(ctx)| + Count(cur.l) + 1)
  {
    ghost var m1;
    AboveInStore(ff, ctx, cur, t, m);
    PathRemovable(t, ctx, cur);
    t', m1 := Remove(r, path, dirs, d, ff, ctx, cur, m);
    LinkedNodes(t', m1);
    m' := map n | n in Nodes(t') :: m1[n];
    LeftLinked(ff, t', m1, m');
    LeftOrdered(ff, t, ctx, cur, t');
    newRoot := fake.kids.left;
  }

  /** The node above the root, and the arrays of kavl_erase. */
  method Prepare(root: Node?, ghost t: Tree, ghost m: Store)
      returns (path: array<Node?>, dirs: array<bool>, fake: Node, ghost ff: Frame, ghost all: Store)
    requires Holds(m) && Stored(root, t, m)
    ensures fresh(path) && fresh(dirs) && fresh(fake) && path.Length == dirs.Length == KAVL_MAX_DEPTH && fake !in m
    ensures ff == Above(fake, ff.b, ff.s) && all == m[fake := FrameCell(ff, Root(t))] && Holds(all) &&
            Linked(t, all) && fake !in Nodes(t)
  {
    path := new Node?[KAVL_MAX_DEPTH](_ => null);
    dirs := new bool[KAVL_MAX_DEPTH];
    fake := new Node(0);
    fake.kids := Kids(root, null);
    ff, all := Above(fake, fake.balance, fake.size), m[fake := Contents(fake)];
    LinkedNodes(t, m);
    StillLinked(t, m, all);
  }

  /** The search of kavl_erase, which writes to its own arrays only. */
  method FindKey(root: Node?, key: int, ghost t: Tree, ghost m: Store)
      returns (r: Node?, cnt: int, path: array<Node?>, dirs: array<bool>, d: nat, fake: Node,
               ghost ff: Frame, ghost ctx: seq<Frame>, ghost cur: Tree, ghost all: Store)
    requires Holds(m) && Stored(root, t, m)
    ensures fresh(path) && fresh(dirs) && fresh(fake) && path.Length == dirs.Length == KAVL_MAX_DEPTH &&
            fake !in Nodes(t)
    ensures fake == ff.n && ff == Above(fake, ff.b, ff.s) && all == m[fake := FrameCell(ff, Root(t))] && Holds(all) &&
            Linked(t, all)
    ensures r == null <==> !HasKey(InOrder(t), key)
    ensures r != null ==>
      && Plug(ctx, cur) == t && cur.Fork? && r == cur.n && r.key == key && cnt == |Before(ctx)| + Count(cur.l) + 1
      && OnTrack(path[..], dirs[..], [ff] + ctx) && d == |ctx| + 1
  {
    path, dirs, fake, ff, all := Prepare(root, t, m);
    r, cnt, d, ctx, cur := Seek(fake, key, path, dirs, ff, t, all);
  }

  /** kavl_erase on a stored tree, for a key. */
  method EraseKey(root: Node?, key: int, ghost t: Tree, ghost m: Store)
      returns (newRoot: Node?, r: Node?, cnt: int, ghost t': Tree, ghost m': Store)
    requires Holds(m) && Stored(root, t, m)
    modifies m.Keys
    ensures Holds(m') && Stored(newRoot, t', m')
    ensures r == null <==> !HasKey(InOrder(t), key)
    ensures r == null ==> newRoot == root && t' == t && m' == m && unchanged(m.Keys) && cnt == 0
    ensures r != null ==> r.key == key && ErasedAt(InOrder(t), InOrder(t'), r, cnt) && Count(t') < Count(t)
  {
    var path, dirs, d, fake;
    ghost var ff, ctx, cur, all;
    r, cnt, path, dirs, d, fake, ff, ctx, cur, all := FindKey(root, key, t, m);
    if r == null {
      newRoot, cnt, t', m' := root, 0, t, m;
    } else {
      newRoot, t', m' := EraseFound(r, path, dirs, d, fake, ff, t, ctx, cur, all);
    }
  }

  /** kavl_erase without a key, for a tree that is not empty: the first node goes. */
  method EraseLeast(root: Node, ghost t: Tree, ghost m: Store)
      returns (newRoot: Node?, r: Node, ghost t': Tree, ghost m': Store)
    requires Holds(m) && Stored(root, t, m)
    modifies m.Keys
    ensures Holds(m') && Stored(newRoot, t', m') && ErasedAt(InOrder(t), InOrder(t'), r, 1) && Count(t') < Count(t)
  {
    var path, dirs, fake, d;
    ghost var ff, all, ctx, cur;
    path, dirs, fake, ff, all := Prepare(root, t, m);
    r, d, ctx, cur := SeekLeast(fake, path, dirs, ff, t, all);
    newRoot, t', m' := EraseFound(r, path, dirs, d, fake, ff, t, ctx, cur, all);
  }

  class Kavl {
    var root: Node?
    ghost var tree: Tree
    ghost var store: Store

    ghost predicate Valid()
      reads this, store.Keys
    {
      Holds(store) && Stored(root, tree, store)
    }

    constructor ()
      ensures Valid() && tree == Leaf
    {
      root, tree, store := null, Leaf, map[];
    }

    /** kavl_find: the node with that key, and the number of nodes up to it. */
    method Find(key: int) returns (r: Node?, cnt: int)
      requires Valid()
      ensures r != null <==> HasKey(InOrder(tree), key)
      ensures r != null ==> r in InOrder(tree) && r.key == key
      ensures SplitAt(InOrder(tree), cnt, key)
    {
      ghost var ctx, cur := [], tree;
      r, cnt := root, 0;
      while r != null
        invariant Plug(ctx, cur) == tree && Bracketed(ctx, key) && r == Root(cur) && Linked(cur, store)
        invariant Sized(cur) && cnt == |Before(ctx)|
        decreases cur
      {
        LinkedSubs(cur, false, store);
        if key >= r.key {
          var left := SizeOf(r.kids.left, cur.l, store);
          StoredIsCount(cur.l);
          cnt := cnt + left + 1;
        }
        if key == r.key {
          FoundAt(ctx, cur);
          return;
        }
        var dir := key > r.key;
        SearchDown(ctx, cur, dir, key);
        ctx, cur := ctx + [Step(cur, dir)], Sub(cur, dir);
        r := r.kids.Get(dir);
      }
      NotFoundAt(ctx, key);
    }

    /** kavl_insert: `x` becomes a node of the tree, unless there is one with its key. */
    method Insert(x: Node) returns (r: Node, cnt: int)
      requires Valid() && x !in Nodes(tree) && Count(tree) + 1 < UINT_LIMIT
      modifies this, store.Keys, x
      ensures Valid()
      ensures !HasKey(old(InOrder(tree)), x.key) ==> r == x && InsertedAt(old(InOrder(tree)), InOrder(tree), x, cnt)
      ensures HasKey(old(InOrder(tree)), x.key) ==>
        && unchanged(this) && unchanged(store.Keys) && unchanged(x)
        && r in InOrder(tree) && r.key == x.key && SplitAt(InOrder(tree), cnt, x.key)
    {
      var newRoot, found;
      ghost var t, m;
      newRoot, found, cnt, t, m := InsertNode(root, x, tree, store);
      if found != null {
        assert HasKey(InOrder(tree), x.key);
        r := found;
      } else {
        root, tree, store := newRoot, t, m;
        r := x;
      }
    }

    /** kavl_erase: the node with that key leaves the tree, if there is one. */
    method Erase(key: int) returns (r: Node?, cnt: int)
      requires Valid()
      modifies this, store.Keys
      ensures Valid()
      ensures r == null <==> !HasKey(old(InOrder(tree)), key)
      ensures r == null ==> unchanged(this) && unchanged(store.Keys) && cnt == 0
      ensures r != null ==> r.key == key && ErasedAt(old(InOrder(tree)), InOrder(tree), r, cnt)
    {
      var newRoot;
      ghost var t, m;
      newRoot, r, cnt, t, m := EraseKey(root, key, tree, store);
      if r != null {
        root, tree, store := newRoot, t, m;
      }
    }

    /** kavl_erase_first.  For an empty tree the code writes outside its array: see KavlShrink.SeekLeast. */
    method EraseFirst() returns (r: Node)
      requires Valid() && root != null
      modifies this, store.Keys
      ensures Valid() && ErasedAt(old(InOrder(tree)), InOrder(tree), r, 1)
    {
      var newRoot;
      ghost var t, m;
      newRoot, r, t, m := EraseLeast(root, tree, store);
      root, tree, store := newRoot, t, m;
    }
  }
}
