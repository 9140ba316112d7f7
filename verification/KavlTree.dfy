/** The nodes of an AVL tree with order statistics (kavl.h) and the tree that they form.

    `Tree` is the value of a tree laid out in the heap: it says which node stands where, and which
    balance and size that node stores.  A `Store` is a picture of the heap, from nodes to their
    contents; `Holds` says that it is up to date and `Linked` that a tree is in it.  A path from
    the root down to a subtree is a sequence of `Frame`s, outermost first, as in the `path` and
    `dir` arrays of the code. */
module KavlTree {

  const KAVL_MAX_DEPTH := 64

  // The `size` field is an `unsigned`.
  const UINT_LIMIT := 0x1_0000_0000

  /** The two child pointers p[0] and p[1]; a direction is false for 0, left, and true for 1, right. */
  datatype Kids = Kids(left: Node?, right: Node?) {
    function Get(dir: bool): Node? { if dir then right else left }

    function Set(dir: bool, q: Node?): Kids { if dir then Kids(left, q) else Kids(q, right) }
  }

  class Node {
    const key: int
    var kids: Kids
    var balance: int
    var size: int

    constructor (key: int)
      ensures this.key == key
    {
      this.key := key;
      this.kids := Kids(null, null);
    }
  }

  datatype Tree = Leaf | Fork(n: Node, b: int, s: int, l: Tree, r: Tree)

  datatype Frame = Frame(n: Node, b: int, s: int, dir: bool, other: Tree)

  // ---------- Trees as values

  ghost function Root(t: Tree): Node? { if t.Leaf? then null else t.n }

  ghost function Sub(t: Tree, dir: bool): Tree
    requires t.Fork?
  {
    if dir then t.r else t.l
  }

  ghost function Build(n: Node, b: int, s: int, dir: bool, sub: Tree, other: Tree): Tree {
    if dir then Fork(n, b, s, other, sub) else Fork(n, b, s, sub, other)
  }

  ghost function Nodes(t: Tree): set<Node> {
    if t.Leaf? then {} else {t.n} + Nodes(t.l) + Nodes(t.r)
  }

  ghost function InOrder(t: Tree): seq<Node> {
    if t.Leaf? then [] else InOrder(t.l) + [t.n] + InOrder(t.r)
  }

  ghost function Max(a: int, b: int): int { if a < b then b else a }

  ghost function Height(t: Tree): nat {
    if t.Leaf? then 0 else 1 + Max(Height(t.l), Height(t.r))
  }

  ghost function Count(t: Tree): nat {
    if t.Leaf? then 0 else 1 + Count(t.l) + Count(t.r)
  }

  /** Every stored balance is the height difference of the node, and is -1, 0 or 1. */
  ghost predicate Balanced(t: Tree) {
    t.Fork? ==> t.b == Height(t.r) - Height(t.l) && -1 <= t.b <= 1 && Balanced(t.l) && Balanced(t.r)
  }

  /** Every stored size is the number of nodes of the subtree. */
  ghost predicate Sized(t: Tree) {
    t.Fork? ==> t.s == Count(t) && Sized(t.l) && Sized(t.r)
  }

  ghost predicate Ascending(ns: seq<Node>) {
    forall i, j :: 0 <= i < j < |ns| ==> ns[i].key < ns[j].key
  }

  ghost predicate Avl(t: Tree) { Balanced(t) && Sized(t) && Ascending(InOrder(t)) }

  ghost predicate AllBelow(ns: seq<Node>, k: int) { forall i :: 0 <= i < |ns| ==> ns[i].key < k }

  ghost predicate AllAbove(ns: seq<Node>, k: int) { forall i :: 0 <= i < |ns| ==> k < ns[i].key }

  ghost predicate Distinct(ns: seq<Node>) { forall i, j :: 0 <= i < j < |ns| ==> ns[i] != ns[j] }

  lemma NodesInOrder(t: Tree)
    ensures Nodes(t) == set n | n in InOrder(t)
    ensures |InOrder(t)| == Count(t)
  {}

  lemma DistinctSplit(a: seq<Node>, c: seq<Node>)
    requires Distinct(a + c)
    ensures Distinct(a) && Distinct(c)
    ensures forall n :: n in a ==> n !in c
  {
    var all := a + c;
    forall i, j | 0 <= i < j < |c| ensures c[i] != c[j] {
      assert all[|a| + i] == c[i] && all[|a| + j] == c[j];
    }
    forall i, j | 0 <= i < |a| && 0 <= j < |c| ensures a[i] != c[j] {
      assert all[i] == a[i] && all[|a| + j] == c[j];
    }
    assert forall i :: 0 <= i < |a| ==> all[i] == a[i];
  }

  /** A subtree of a tree with distinct nodes shares no node with its parent or its sibling. */
  lemma {:induction false} DistinctParts(t: Tree)
    requires t.Fork? && Distinct(InOrder(t))
    ensures t.n !in Nodes(t.l) && t.n !in Nodes(t.r) && Nodes(t.l) !! Nodes(t.r)
    ensures Distinct(InOrder(t.l)) && Distinct(InOrder(t.r))
  {
    NodesInOrder(t.l);
    NodesInOrder(t.r);
    var a, c := InOrder(t.l), InOrder(t.r);
    DistinctSplit(a + [t.n], c);
    DistinctSplit(a, [t.n]);
    assert t.n in a + [t.n];
    forall n | n in Nodes(t.l) ensures n !in Nodes(t.r) {
      assert n in a;
      assert n in a + [t.n];
    }
  }

  lemma DistinctSubs(t: Tree, dir: bool)
    requires t.Fork? && Distinct(InOrder(t))
    ensures t.n !in Nodes(Sub(t, dir)) && t.n !in Nodes(Sub(t, !dir))
    ensures Nodes(Sub(t, dir)) !! Nodes(Sub(t, !dir))
    ensures Nodes(t) == {t.n} + Nodes(Sub(t, dir)) + Nodes(Sub(t, !dir))
    ensures Distinct(InOrder(Sub(t, dir))) && Distinct(InOrder(Sub(t, !dir)))
  {
    DistinctParts(t);
  }

  // ---------- The height of a balanced tree

  /** The least number of nodes of a balanced tree of height `h`. */
  ghost function MinNodes(h: nat): nat {
    if h <= 1 then h else 1 + MinNodes(h - 1) + MinNodes(h - 2)
  }

  lemma MinNodesGrows(g: nat, h: nat)
    requires g <= h
    ensures MinNodes(g) <= MinNodes(h)
    decreases h
  {
    if g < h { MinNodesGrows(g, h - 1); }
  }

  lemma {:induction false} BalancedCount(t: Tree)
    requires Balanced(t)
    ensures MinNodes(Height(t)) <= Count(t)
  {
    if t.Fork? {
      BalancedCount(t.l);
      BalancedCount(t.r);
      var h := Height(t);
      if h >= 2 {
        var lo := if Height(t.l) < Height(t.r) then Height(t.l) else Height(t.r);
        MinNodesGrows(h - 2, lo);
      }
    }
  }

  /** 46 levels need more nodes than an `unsigned` can count. */
  lemma MinNodes46()
    ensures MinNodes(46) >= UINT_LIMIT
  {
    assert MinNodes(8) == 54 && MinNodes(9) == 88;
    assert MinNodes(16) == 2583 && MinNodes(17) == 4180;
    assert MinNodes(24) == 121392 && MinNodes(25) == 196417;
    assert MinNodes(32) == 5702886 && MinNodes(33) == 9227464;
    assert MinNodes(40) == 267914295 && MinNodes(41) == 433494436;
  }

  lemma DepthBound(t: Tree)
    requires Balanced(t) && Count(t) < UINT_LIMIT
    ensures Height(t) <= 45
  {
    if Height(t) > 45 {
      BalancedCount(t);
      MinNodesGrows(46, Height(t));
      MinNodes46();
    }
  }
}
