/** The free loop of kavl.h, which needs no stack: left children are rotated up until the smallest
    node stands at the top. */
module KavlFree {
  import opened KavlTree
  import opened KavlRotate
  import opened KavlWalk

  /** The left child moves up; stored balances and sizes are left as they are. */
  ghost function Lifted(t: Tree): Tree
    requires t.Fork? && t.l.Fork?
  {
    var q := t.l;
    Fork(q.n, q.b, q.s, q.l, Fork(t.n, t.b, t.s, q.r, t.r))
  }

  ghost function RightSide(t: Tree): nat { if t.Leaf? then 0 else 1 + RightSide(t.r) }

  lemma RightSideCount(t: Tree)
    ensures RightSide(t) <= Count(t)
  {}

  lemma {:induction false} LiftedOrder(t: Tree)
    requires t.Fork? && t.l.Fork?
    ensures InOrder(Lifted(t)) == InOrder(t) && Count(Lifted(t)) == Count(t)
    ensures RightSide(Lifted(t)) == RightSide(t) + 1
  {
    var q := t.l;
    Regroup(InOrder(q.l), q.n, InOrder(q.r), t.n, InOrder(t.r), t.n, []);
    assert InOrder(t) == (InOrder(q.l) + [q.n] + InOrder(q.r)) + [t.n] + InOrder(t.r);
    assert InOrder(Lifted(t).r) == InOrder(q.r) + [t.n] + InOrder(t.r);
    NodesInOrder(t);
    NodesInOrder(Lifted(t));
  }

  lemma {:induction false} LiftedLinked(t: Tree, m: Store, m': Store)
    requires t.Fork? && t.l.Fork? && Linked(t, m) && Distinct(InOrder(t))
    requires var p, q := t.n, t.l.n;
      && p in m && q in m && p in m' && q in m' && SameOn(m.Keys - {p, q}, m, m')
      && m'[p] == m[p].(kids := m[p].kids.Set(false, Root(t.l.r))) && m'[q] == m[q].(kids := m[q].kids.Set(true, p))
    ensures Linked(Lifted(t), m')
  {
    DistinctParts(t);
    DistinctParts(t.l);
    StillLinked(t.l.l, m, m');
    StillLinked(t.l.r, m, m');
    StillLinked(t.r, m, m');
    assert Linked(Lifted(t).r, m');
  }

  method Lift(p: Node, ghost t: Tree, ghost m: Store) returns (q: Node, ghost m': Store)
    requires Holds(m) && Linked(t, m) && Distinct(InOrder(t)) && t.Fork? && t.l.Fork? && p == t.n
    modifies m.Keys
    ensures Holds(m') && m'.Keys == m.Keys && Linked(Lifted(t), m') && q == t.l.n
  {
    DistinctParts(t);
    LinkedSubs(t, false, m);
    LinkedSubs(t.l, false, m);
    q := p.kids.left;
    p.kids := p.kids.Set(false, q.kids.right);
    q.kids := q.kids.Set(true, p);
    m' := m[p := Contents(p)][q := Contents(q)];
    LiftedLinked(t, m, m');
  }

  /** Without its smallest node at the top the tree does not use that node any more. */
  lemma {:induction false} TopGone(t: Tree, m: Store)
    requires t.Fork? && t.l.Leaf? && Linked(t, m) && Distinct(InOrder(t))
    ensures InOrder(t) == [t.n] + InOrder(t.r) && Count(t.r) < Count(t)
    ensures Distinct(InOrder(t.r)) && Linked(t.r, m - {t.n})
  {
    DistinctParts(t);
    StillLinked(t.r, m, m - {t.n});
  }

  /** kavl_free: every node is freed once, in ascending order, and a freed node is not used again:
      the heap picture `live` that the loop works on no longer has it. */
  method FreeAll(root: Node?, ghost t: Tree, ghost m: Store) returns (freed: seq<Node>)
    requires Holds(m) && Linked(t, m) && root == Root(t) && Ascending(InOrder(t))
    modifies m.Keys
    ensures freed == InOrder(t)
  {
    var p := root;
    ghost var cur, live := t, m;
    freed := [];
    AscendingDistinct(InOrder(t));
    RightSideCount(t);
    while p != null
      invariant Holds(live) && live.Keys <= m.Keys && Linked(cur, live) && p == Root(cur)
      invariant freed + InOrder(cur) == InOrder(t) && Distinct(InOrder(cur))
      decreases Count(cur), Count(cur) - RightSide(cur)
    {
      var q;
      LinkedSubs(cur, false, live);
      if p.kids.left == null {
        TopGone(cur, live);
        q := p.kids.right;
        freed := freed + [p];
        live, cur := live - {p}, cur.r;
      } else {
        LiftedOrder(cur);
        q, live := Lift(p, cur, live);
        cur := Lifted(cur);
        RightSideCount(cur);
      }
      p := q;
    }
  }
}
