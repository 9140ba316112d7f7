/** The rotations of kavl.h, on values and in place. */
module KavlRotate {
  import opened KavlTree

  // ---------- On values

  ghost function StoredSize(t: Tree): int { if t.Leaf? then 0 else t.s }

  /** One rotation: (a,(b,c)q)p => ((a,b)p,c)q. */
  ghost function Rotated1(t: Tree, dir: bool): Tree
    requires t.Fork? && Sub(t, !dir).Fork?
  {
    var q := Sub(t, !dir);
    Build(q.n, q.b, t.s, dir,
          Build(t.n, t.b, t.s - (q.s - StoredSize(Sub(q, dir))), dir, Sub(t, dir), Sub(q, dir)),
          Sub(q, !dir))
  }

  /** Two rotations: (a,((b,c)r,d)q)p => ((a,b)p,(c,d)q)r. */
  ghost function Rotated2(t: Tree, dir: bool): Tree
    requires t.Fork? && Sub(t, !dir).Fork? && Sub(Sub(t, !dir), dir).Fork?
  {
    var q := Sub(t, !dir);
    var r := Sub(q, dir);
    var b1 := if dir then -1 else 1;
    var moved := StoredSize(Sub(r, dir));
    Build(r.n, 0, t.s, dir,
          Build(t.n, if r.b == b1 then -b1 else 0, t.s - (q.s - moved), dir, Sub(t, dir), Sub(r, dir)),
          Build(q.n, if r.b == b1 || r.b == 0 then 0 else b1, q.s - (moved + 1), dir, Sub(r, !dir), Sub(q, !dir)))
  }

  /** The node at the root leans by two away from `dir`; the child it leans to is rotated up. */
  ghost function Fixed(t: Tree, dir: bool): Tree
    requires t.Fork? && Sub(t, !dir).Fork?
    requires Sub(t, !dir).b == (if dir then 1 else -1) ==> Sub(Sub(t, !dir), dir).Fork?
  {
    var b1 := if dir then -1 else 1;
    var q := Sub(t, !dir);
    if q.b == -b1 then Rotated2(t, dir)
    else
      var u := Rotated1(t, dir);
      if q.b == 0 then WithBalances(u, dir, -b1, b1) else WithBalances(u, dir, 0, 0)
  }

  ghost function WithBalances(u: Tree, dir: bool, top: int, below: int): Tree
    requires u.Fork? && Sub(u, dir).Fork?
  {
    Build(u.n, top, u.s, dir, Sub(u, dir).(b := below), Sub(u, !dir))
  }

  /** Children in order, and a height difference of two towards the side opposite to `dir`. */
  ghost predicate Leaning(t: Tree, dir: bool) {
    && t.Fork? && Balanced(t.l) && Balanced(t.r) && Sized(t)
    && t.b == Height(t.r) - Height(t.l) == (if dir then -2 else 2)
  }

  lemma Regroup(a: seq<Node>, x: Node, b: seq<Node>, y: Node, c: seq<Node>, z: Node, d: seq<Node>)
    ensures a + [x] + ((b + [y] + c) + [z] + d) == (a + [x] + b) + [y] + (c + [z] + d)
    ensures (a + [x] + (b + [y] + c)) + [z] + d == (a + [x] + b) + [y] + (c + [z] + d)
    ensures a + [x] + (b + [y] + c) == (a + [x] + b) + [y] + c
  {}

  lemma {:induction false} Rotated1Order(t: Tree, dir: bool)
    requires t.Fork? && Sub(t, !dir).Fork?
    ensures InOrder(Rotated1(t, dir)) == InOrder(t)
  {
    var q := Sub(t, !dir);
    if dir {
      Regroup(InOrder(q.l), q.n, InOrder(q.r), t.n, InOrder(t.r), t.n, []);
    } else {
      Regroup(InOrder(t.l), t.n, InOrder(q.l), q.n, InOrder(q.r), q.n, []);
    }
  }

  lemma {:induction false} Rotated2Order(t: Tree, dir: bool)
    requires t.Fork? && Sub(t, !dir).Fork? && Sub(Sub(t, !dir), dir).Fork?
    ensures InOrder(Rotated2(t, dir)) == InOrder(t)
  {
    var q := Sub(t, !dir);
    var r := Sub(q, dir);
    assert InOrder(q) == InOrder(q.l) + [q.n] + InOrder(q.r);
    assert InOrder(r) == InOrder(r.l) + [r.n] + InOrder(r.r);
    if dir {
      Regroup(InOrder(q.l), q.n, InOrder(r.l), r.n, InOrder(r.r), t.n, InOrder(t.r));
    } else {
      Regroup(InOrder(t.l), t.n, InOrder(r.l), r.n, InOrder(r.r), q.n, InOrder(q.r));
    }
  }

  lemma {:induction false} FixedOrder(t: Tree, dir: bool)
    requires Leaning(t, dir)
    ensures Sub(t, !dir).Fork?
    ensures Sub(t, !dir).b == (if dir then 1 else -1) ==> Sub(Sub(t, !dir), dir).Fork?
    ensures InOrder(Fixed(t, dir)) == InOrder(t)
  {
    if Sub(t, !dir).b == (if dir then 1 else -1) {
      Rotated2Order(t, dir);
    } else {
      Rotated1Order(t, dir);
      var u := Rotated1(t, dir);
      assert InOrder(Sub(u, dir)) == InOrder(Sub(Fixed(t, dir), dir));
    }
  }

  lemma StoredIsCount(t: Tree)
    requires Sized(t)
    ensures StoredSize(t) == Count(t)
  {}

  lemma {:induction false} BuildBalanced(n: Node, b: int, s: int, dir: bool, sub: Tree, other: Tree)
    requires Balanced(sub) && Balanced(other) && -1 <= b <= 1
    requires Height(sub) - Height(other) == if dir then b else -b
    ensures Balanced(Build(n, b, s, dir, sub, other))
    ensures Height(Build(n, b, s, dir, sub, other)) == 1 + Max(Height(sub), Height(other))
  {}

  lemma {:induction false} BuildSized(n: Node, b: int, s: int, dir: bool, sub: Tree, other: Tree)
    requires Sized(sub) && Sized(other) && s == 1 + Count(sub) + Count(other)
    ensures Sized(Build(n, b, s, dir, sub, other)) && Count(Build(n, b, s, dir, sub, other)) == s
  {}

  /** What `Leaning` says about the parts, whichever the direction. */
  lemma {:induction false} LeaningParts(t: Tree, dir: bool)
    requires Leaning(t, dir)
    ensures var b1 := if dir then -1 else 1; var a, q := Sub(t, dir), Sub(t, !dir);
      && Balanced(a) && Sized(a) && q.Fork? && Balanced(q) && Sized(q)
      && Height(q) == Height(a) + 2 && Height(t) == Height(q) + 1
      && t.s == Count(t) == 1 + Count(a) + Count(q) && q.s == Count(q) == 1 + Count(Sub(q, dir)) + Count(Sub(q, !dir))
      && Balanced(Sub(q, dir)) && Balanced(Sub(q, !dir)) && Sized(Sub(q, dir)) && Sized(Sub(q, !dir))
      && Height(Sub(q, !dir)) - Height(Sub(q, dir)) == q.b * b1 && -1 <= q.b <= 1
      && Height(q) == 1 + Max(Height(Sub(q, dir)), Height(Sub(q, !dir)))
      && (q.b == -b1 ==> var r := Sub(q, dir);
            && r.Fork? && Balanced(Sub(r, dir)) && Balanced(Sub(r, !dir)) && Sized(Sub(r, dir)) && Sized(Sub(r, !dir))
            && Height(Sub(r, !dir)) - Height(Sub(r, dir)) == r.b * b1 && -1 <= r.b <= 1
            && Height(r) == 1 + Max(Height(Sub(r, dir)), Height(Sub(r, !dir)))
            && Count(r) == 1 + Count(Sub(r, dir)) + Count(Sub(r, !dir)))
  {
    assert Balanced(Sub(t, !dir)) && Sized(Sub(t, !dir));
    assert Balanced(Sub(Sub(t, !dir), dir)) && Sized(Sub(Sub(t, !dir), dir));
  }

  /** The fixed tree is balanced, with the true balances and sizes stored; it is lower by one than
      the leaning one unless the rotated child was even. */
  lemma {:induction false} FixedBalanced(t: Tree, dir: bool)
    requires Leaning(t, dir)
    ensures Sub(t, !dir).Fork?
    ensures Sub(t, !dir).b == (if dir then 1 else -1) ==> Sub(Sub(t, !dir), dir).Fork?
    ensures var u := Fixed(t, dir);
      && Balanced(u) && Sized(u) && Count(u) == Count(t)
      && Height(u) == Height(t) - if Sub(t, !dir).b == 0 then 0 else 1
  {
    LeaningParts(t, dir);
    if Sub(t, !dir).b == if dir then 1 else -1 {
      Rotated2Balanced(t, dir);
      Rotated2Sized(t, dir);
    } else {
      Rotated1Balanced(t, dir);
    }
  }

  lemma {:induction false} Rotated1Balanced(t: Tree, dir: bool)
    requires Leaning(t, dir) && Sub(t, !dir).Fork? && Sub(t, !dir).b != (if dir then 1 else -1)
    ensures var u := Fixed(t, dir);
      && Balanced(u) && Sized(u) && Count(u) == Count(t)
      && Height(u) == Height(t) - if Sub(t, !dir).b == 0 then 0 else 1
  {
    LeaningParts(t, dir);
    var a, q, u := Sub(t, dir), Sub(t, !dir), Fixed(t, dir);
    var p' := Sub(u, dir);
    StoredIsCount(Sub(q, dir));
    BuildBalanced(t.n, p'.b, p'.s, dir, a, Sub(q, dir));
    BuildBalanced(q.n, u.b, t.s, dir, p', Sub(q, !dir));
    BuildSized(t.n, p'.b, p'.s, dir, a, Sub(q, dir));
    BuildSized(q.n, u.b, t.s, dir, p', Sub(q, !dir));
  }

  lemma {:induction false} Rotated2Balanced(t: Tree, dir: bool)
    requires Leaning(t, dir) && Sub(t, !dir).Fork? && Sub(Sub(t, !dir), dir).Fork?
    requires Sub(t, !dir).b == if dir then 1 else -1
    ensures Balanced(Rotated2(t, dir)) && Height(Rotated2(t, dir)) == Height(t) - 1
  {
    LeaningParts(t, dir);
    var q, u := Sub(t, !dir), Rotated2(t, dir);
    Rotated2Left(t, dir);
    Rotated2Right(t, dir);
    BuildBalanced(Sub(q, dir).n, 0, t.s, dir, Sub(u, dir), Sub(u, !dir));
  }

  lemma {:induction false} Rotated2Left(t: Tree, dir: bool)
    requires Leaning(t, dir) && Sub(t, !dir).Fork? && Sub(Sub(t, !dir), dir).Fork?
    requires Sub(t, !dir).b == if dir then 1 else -1
    ensures var p := Sub(Rotated2(t, dir), dir); Balanced(p) && Height(p) == Height(t) - 2
  {
    LeaningParts(t, dir);
    var p, r := Sub(Rotated2(t, dir), dir), Sub(Sub(t, !dir), dir);
    BuildBalanced(t.n, p.b, p.s, dir, Sub(t, dir), Sub(r, dir));
  }

  lemma {:induction false} Rotated2Right(t: Tree, dir: bool)
    requires Leaning(t, dir) && Sub(t, !dir).Fork? && Sub(Sub(t, !dir), dir).Fork?
    requires Sub(t, !dir).b == if dir then 1 else -1
    ensures var p := Sub(Rotated2(t, dir), !dir); Balanced(p) && Height(p) == Height(t) - 2
  {
    LeaningParts(t, dir);
    var p, q := Sub(Rotated2(t, dir), !dir), Sub(t, !dir);
    var r := Sub(q, dir);
    BuildBalanced(q.n, p.b, p.s, dir, Sub(r, !dir), Sub(q, !dir));
  }

  lemma {:induction false} Rotated2Sized(t: Tree, dir: bool)
    requires Leaning(t, dir) && Sub(t, !dir).Fork? && Sub(Sub(t, !dir), dir).Fork?
    requires Sub(t, !dir).b == if dir then 1 else -1
    ensures Sized(Rotated2(t, dir)) && Count(Rotated2(t, dir)) == Count(t)
  {
    LeaningParts(t, dir);
    var a, q, u := Sub(t, dir), Sub(t, !dir), Rotated2(t, dir);
    var p', q', r := Sub(u, dir), Sub(u, !dir), Sub(q, dir);
    StoredIsCount(Sub(r, dir));
    BuildSized(t.n, p'.b, p'.s, dir, a, Sub(r, dir));
    BuildSized(q.n, q'.b, q'.s, dir, Sub(r, !dir), Sub(q, !dir));
    BuildSized(r.n, 0, t.s, dir, p', q');
  }

  // ---------- In place

  datatype Cell = Cell(kids: Kids, balance: int, size: int)

  type Store = map<Node, Cell>

  ghost function Contents(n: Node): Cell
    reads n
  {
    Cell(n.kids, n.balance, n.size)
  }

  ghost predicate Holds(m: Store)
    reads m.Keys
  {
    forall n :: n in m ==> m[n] == Contents(n)
  }

  ghost predicate Linked(t: Tree, m: Store) {
    t.Fork? ==>
      && t.n in m && m[t.n] == Cell(Kids(Root(t.l), Root(t.r)), t.b, t.s)
      && Linked(t.l, m) && Linked(t.r, m)
  }

  /** The second store agrees with the first on `ns`. */
  ghost predicate SameOn(ns: set<Node>, m: Store, m': Store) {
    forall n :: n in ns && n in m ==> n in m' && m'[n] == m[n]
  }

  lemma {:induction false} StillLinked(t: Tree, m: Store, m': Store)
    requires Linked(t, m) && SameOn(Nodes(t), m, m')
    ensures Linked(t, m')
  {
    if t.Fork? {
      StillLinked(t.l, m, m');
      StillLinked(t.r, m, m');
    }
  }

  lemma {:induction false} LinkedNodes(t: Tree, m: Store)
    requires Linked(t, m)
    ensures Nodes(t) <= m.Keys
  {
    if t.Fork? {
      LinkedNodes(t.l, m);
      LinkedNodes(t.r, m);
    }
  }

  lemma {:induction false} LinkedSubs(t: Tree, dir: bool, m: Store)
    requires t.Fork? && Linked(t, m)
    ensures t.n in m && m[t.n].kids.Get(dir) == Root(Sub(t, dir)) && m[t.n].kids.Get(!dir) == Root(Sub(t, !dir))
    ensures m[t.n].balance == t.b && m[t.n].size == t.s && Linked(Sub(t, dir), m) && Linked(Sub(t, !dir), m)
  {}

  lemma {:induction false} BuildLinked(n: Node, b: int, s: int, dir: bool, sub: Tree, other: Tree, m: Store)
    requires n in m && m[n].kids.Get(dir) == Root(sub) && m[n].kids.Get(!dir) == Root(other)
    requires m[n].balance == b && m[n].size == s && Linked(sub, m) && Linked(other, m)
    ensures Linked(Build(n, b, s, dir, sub, other), m)
  {}

  method SizeOf(p: Node?, ghost t: Tree, ghost m: Store) returns (size: int)
    requires Holds(m) && Linked(t, m) && p == Root(t)
    ensures size == StoredSize(t)
  {
    size := if p == null then 0 else p.size;
  }

  /** The nodes and subtrees that a single rotation touches or carries along. */
  lemma {:induction false} Rotated1Linked(t: Tree, dir: bool, m: Store, m': Store)
    requires t.Fork? && Sub(t, !dir).Fork? && Linked(t, m) && Distinct(InOrder(t))
    requires var p, q := t.n, Sub(t, !dir).n; var b := Root(Sub(Sub(t, !dir), dir));
      && p in m && q in m && p in m' && q in m' && SameOn(m.Keys - {p, q}, m, m')
      && m'[p] == Cell(m[p].kids.Set(!dir, b), t.b, Sub(Rotated1(t, dir), dir).s)
      && m'[q] == Cell(m[q].kids.Set(dir, p), Sub(t, !dir).b, t.s)
    ensures Linked(Rotated1(t, dir), m')
  {
    var a, tq, u := Sub(t, dir), Sub(t, !dir), Rotated1(t, dir);
    var b, c := Sub(tq, dir), Sub(tq, !dir);
    DistinctSubs(t, dir);
    DistinctSubs(tq, dir);
    LinkedSubs(t, dir, m);
    LinkedSubs(tq, dir, m);
    StillLinked(a, m, m');
    StillLinked(b, m, m');
    StillLinked(c, m, m');
    BuildLinked(t.n, t.b, Sub(u, dir).s, dir, a, b, m');
    BuildLinked(tq.n, tq.b, t.s, dir, Sub(u, dir), c, m');
  }

  lemma {:induction false} RotatedNodes(t: Tree, dir: bool)
    requires t.Fork? && Sub(t, !dir).Fork? && Distinct(InOrder(t))
    ensures t.n in Nodes(t) && Sub(t, !dir).n in Nodes(t) && t.n != Sub(t, !dir).n
    ensures var r := Sub(Sub(t, !dir), dir); r.Fork? ==> r.n in Nodes(t) && t.n != r.n && Sub(t, !dir).n != r.n
  {
    DistinctSubs(t, dir);
    DistinctSubs(Sub(t, !dir), dir);
  }

  method Rotate1(p: Node, dir: bool, ghost t: Tree, ghost m: Store) returns (q: Node, ghost m': Store)
    requires Holds(m) && Linked(t, m) && Distinct(InOrder(t)) && t.Fork? && t.n == p && Sub(t, !dir).Fork?
    modifies Nodes(t)
    ensures Holds(m') && m'.Keys == m.Keys && SameOn(m.Keys - Nodes(t), m, m')
    ensures Linked(Rotated1(t, dir), m') && q == Root(Rotated1(t, dir))
  {
    ghost var tq := Sub(t, !dir);
    RotatedNodes(t, dir);
    LinkedSubs(t, dir, m);
    LinkedSubs(tq, dir, m);
    q := p.kids.Get(!dir);
    var sizeB := SizeOf(q.kids.Get(dir), Sub(tq, dir), m);
    Relink1(p, q, dir, sizeB);
    m' := m[p := Contents(p)][q := Contents(q)];
    Rotated1Linked(t, dir, m, m');
  }

  /** The writes of kavl_rotate1. */
  method Relink1(p: Node, q: Node, dir: bool, sizeB: int)
    requires p != q
    modifies p, q
    ensures Contents(p) == Cell(old(p.kids).Set(!dir, old(q.kids).Get(dir)), old(p.balance),
            old(p.size) - (old(q.size) - sizeB))
    ensures Contents(q) == Cell(old(q.kids).Set(dir, p), old(q.balance), old(p.size))
  {
    var sizeP := p.size;
    p.size := p.size - (q.size - sizeB);
    q.size := sizeP;
    p.kids := p.kids.Set(!dir, q.kids.Get(dir));
    q.kids := q.kids.Set(dir, p);
  }

  lemma {:induction false} Rotated2Linked(t: Tree, dir: bool, m: Store, m': Store)
    requires t.Fork? && Sub(t, !dir).Fork? && Sub(Sub(t, !dir), dir).Fork? && Linked(t, m) && Distinct(InOrder(t))
    requires var p, q, r := t.n, Sub(t, !dir).n, Sub(Sub(t, !dir), dir).n; var u := Rotated2(t, dir);
      && p in m && q in m && r in m && p in m' && q in m' && r in m' && SameOn(m.Keys - {p, q, r}, m, m')
      && m'[p] == Cell(m[p].kids.Set(!dir, m[r].kids.Get(dir)), Sub(u, dir).b, Sub(u, dir).s)
      && m'[q] == Cell(m[q].kids.Set(dir, m[r].kids.Get(!dir)), Sub(u, !dir).b, Sub(u, !dir).s)
      && m'[r] == Cell(m[r].kids.Set(dir, p).Set(!dir, q), 0, t.s)
    ensures Linked(Rotated2(t, dir), m')
  {
    var a, tq, u := Sub(t, dir), Sub(t, !dir), Rotated2(t, dir);
    var tr, d := Sub(tq, dir), Sub(tq, !dir);
    var b, c := Sub(tr, dir), Sub(tr, !dir);
    DistinctSubs(t, dir);
    DistinctSubs(tq, dir);
    DistinctSubs(tr, dir);
    LinkedSubs(t, dir, m);
    LinkedSubs(tq, dir, m);
    LinkedSubs(tr, dir, m);
    StillLinked(a, m, m');
    StillLinked(b, m, m');
    StillLinked(c, m, m');
    StillLinked(d, m, m');
    BuildLinked(t.n, Sub(u, dir).b, Sub(u, dir).s, dir, a, b, m');
    BuildLinked(tq.n, Sub(u, !dir).b, Sub(u, !dir).s, dir, c, d, m');
    BuildLinked(tr.n, 0, t.s, dir, Sub(u, dir), Sub(u, !dir), m');
  }

  method Rotate2(p: Node, dir: bool, ghost t: Tree, ghost m: Store) returns (r: Node, ghost m': Store)
    requires Holds(m) && Linked(t, m) && Distinct(InOrder(t)) && t.Fork? && t.n == p
    requires Sub(t, !dir).Fork? && Sub(Sub(t, !dir), dir).Fork?
    modifies Nodes(t)
    ensures Holds(m') && m'.Keys == m.Keys && SameOn(m.Keys - Nodes(t), m, m')
    ensures Linked(Rotated2(t, dir), m') && r == Root(Rotated2(t, dir))
  {
    ghost var tq := Sub(t, !dir);
    ghost var tr := Sub(tq, dir);
    RotatedNodes(t, dir);
    LinkedSubs(t, dir, m);
    LinkedSubs(tq, dir, m);
    LinkedSubs(tr, dir, m);
    var q := p.kids.Get(!dir);
    r := q.kids.Get(dir);
    var moved := SizeOf(r.kids.Get(dir), Sub(tr, dir), m);
    Relink2(p, q, r, dir, moved);
    m' := m[p := Contents(p)][q := Contents(q)][r := Contents(r)];
    Rotated2Linked(t, dir, m, m');
  }

  /** The writes of kavl_rotate2. */
  method Relink2(p: Node, q: Node, r: Node, dir: bool, moved: int)
    requires p != q && p != r && q != r
    modifies p, q, r
    ensures var b1 := if dir then -1 else 1;
      && Contents(p) == Cell(old(p.kids).Set(!dir, old(r.kids).Get(dir)), if old(r.balance) == b1 then -b1 else 0,
                             old(p.size) - (old(q.size) - moved))
      && Contents(q) == Cell(old(q.kids).Set(dir, old(r.kids).Get(!dir)),
                             if old(r.balance) == b1 || old(r.balance) == 0 then 0 else b1, old(q.size) - (moved + 1))
      && Contents(r) == Cell(old(r.kids).Set(dir, p).Set(!dir, q), 0, old(p.size))
  {
    r.size := p.size;
    p.size := p.size - (q.size - moved);
    q.size := q.size - (moved + 1);
    p.kids := p.kids.Set(!dir, r.kids.Get(dir));
    r.kids := r.kids.Set(dir, p);
    q.kids := q.kids.Set(dir, r.kids.Get(!dir));
    r.kids := r.kids.Set(!dir, q);
    var b1 := if dir then -1 else 1;
    if r.balance == b1 {
      q.balance, p.balance := 0, -b1;
    } else if r.balance == 0 {
      q.balance, p.balance := 0, 0;
    } else {
      q.balance, p.balance := b1, 0;
    }
    r.balance := 0;
  }

  lemma {:induction false} WithBalancesLinked(u: Tree, dir: bool, top: int, below: int, m: Store, m': Store)
    requires u.Fork? && Sub(u, dir).Fork? && Linked(u, m) && Distinct(InOrder(u))
    requires var q, p := u.n, Sub(u, dir).n;
      && q in m && p in m && q in m' && p in m' && SameOn(m.Keys - {p, q}, m, m')
      && m'[q] == m[q].(balance := top) && m'[p] == m[p].(balance := below)
    ensures Linked(WithBalances(u, dir, top, below), m')
  {
    var v := Sub(u, dir);
    DistinctSubs(u, dir);
    DistinctSubs(v, dir);
    LinkedSubs(u, dir, m);
    LinkedSubs(v, dir, m);
    StillLinked(Sub(u, !dir), m, m');
    StillLinked(Sub(v, dir), m, m');
    StillLinked(Sub(v, !dir), m, m');
    BuildLinked(v.n, below, v.s, dir, Sub(v, dir), Sub(v, !dir), m');
    BuildLinked(u.n, top, u.s, dir, v.(b := below), Sub(u, !dir), m');
  }

  lemma {:induction false} SubNodes(u: Tree, dir: bool)
    requires u.Fork? && Sub(u, dir).Fork? && Distinct(InOrder(u))
    ensures u.n in Nodes(u) && Sub(u, dir).n in Nodes(u) && u.n != Sub(u, dir).n
  {
    DistinctSubs(u, dir);
  }

  /** The balances of a rotated pair are written. */
  method SetBalances(q: Node, p: Node, dir: bool, top: int, below: int, ghost u: Tree, ghost m: Store)
    returns (ghost m': Store)
    requires Holds(m) && Linked(u, m) && Distinct(InOrder(u))
    requires u.Fork? && Sub(u, dir).Fork? && q == u.n && p == Sub(u, dir).n
    modifies q, p
    ensures Holds(m') && m'.Keys == m.Keys && SameOn(m.Keys - Nodes(u), m, m')
    ensures Linked(WithBalances(u, dir, top, below), m')
  {
    SubNodes(u, dir);
    LinkedSubs(u, dir, m);
    LinkedSubs(Sub(u, dir), dir, m);
    q.balance := top;
    p.balance := below;
    m' := m[q := Contents(q)][p := Contents(p)];
    WithBalancesLinked(u, dir, top, below, m, m');
  }

  /** A tree that can be fixed is in the store. */
  ghost predicate ToFix(p: Node, dir: bool, t: Tree, m: Store) {
    && Linked(t, m) && Distinct(InOrder(t)) && Leaning(t, dir) && p == t.n && Sub(t, !dir).Fork?
    && (Sub(t, !dir).b == (if dir then 1 else -1) ==> Sub(Sub(t, !dir), dir).Fork?)
  }

  lemma {:induction false} Rotated1Nodes(t: Tree, dir: bool)
    requires t.Fork? && Sub(t, !dir).Fork?
    ensures Nodes(Rotated1(t, dir)) == Nodes(t)
  {
    Rotated1Order(t, dir);
    NodesInOrder(t);
    NodesInOrder(Rotated1(t, dir));
  }

  /** One rotation, and the balances written after it. */
  method RotateOnce(p: Node, dir: bool, top: int, below: int, ghost t: Tree, ghost m: Store)
    returns (q: Node, ghost m': Store)
    requires Holds(m) && Linked(t, m) && Distinct(InOrder(t)) && t.Fork? && t.n == p && Sub(t, !dir).Fork?
    modifies Nodes(t)
    ensures Holds(m') && m'.Keys == m.Keys && SameOn(m.Keys - Nodes(t), m, m')
    ensures Linked(WithBalances(Rotated1(t, dir), dir, top, below), m') && q == Sub(t, !dir).n
  {
    RotatedNodes(t, dir);
    Rotated1Order(t, dir);
    Rotated1Nodes(t, dir);
    q, m' := Rotate1(p, dir, t, m);
    m' := SetBalances(q, p, dir, top, below, Rotated1(t, dir), m');
  }

  /** The rebalancing of kavl_insert, whose grown child is never even. */
  method FixGrown(p: Node, dir: bool, ghost t: Tree, ghost m: Store) returns (r: Node, ghost m': Store)
    requires Holds(m) && ToFix(p, dir, t, m) && Sub(t, !dir).b != 0
    modifies Nodes(t)
    ensures Holds(m') && m'.Keys == m.Keys && SameOn(m.Keys - Nodes(t), m, m')
    ensures Linked(Fixed(t, dir), m') && r == Root(Fixed(t, dir))
  {
    LinkedSubs(t, dir, m);
    LinkedSubs(Sub(t, !dir), dir, m);
    assert Balanced(Sub(t, !dir));
    var b1 := if dir then -1 else 1;
    var q := p.kids.Get(!dir);
    if q.balance == b1 {
      r, m' := RotateOnce(p, dir, 0, 0, t, m);
    } else {
      r, m' := Rotate2(p, dir, t, m);
    }
  }

  /** The rebalancing of kavl_erase; `done` says that the height has not changed. */
  method FixShrunk(q: Node, dir: bool, ghost t: Tree, ghost m: Store) returns (top: Node, done: bool, ghost m': Store)
    requires Holds(m) && ToFix(q, dir, t, m)
    modifies Nodes(t)
    ensures Holds(m') && m'.Keys == m.Keys && SameOn(m.Keys - Nodes(t), m, m')
    ensures Linked(Fixed(t, dir), m') && top == Root(Fixed(t, dir)) && (done <==> Sub(t, !dir).b == 0)
  {
    LinkedSubs(t, dir, m);
    LinkedSubs(Sub(t, !dir), dir, m);
    var b1 := if dir then -1 else 1;
    var r := q.kids.Get(!dir);
    done := r.balance == 0;
    if r.balance == -b1 {
      top, m' := Rotate2(q, dir, t, m);
    } else if r.balance == 0 {
      top, m' := RotateOnce(q, dir, -b1, b1, t, m);
    } else {
      top, m' := RotateOnce(q, dir, 0, 0, t, m);
    }
  }
}
