/** Insertion into and deletion from the trie in memory (trie_mult.c). */
module TrieUpdate {
  import opened Topic
  import opened TrieModel
  import opened Trie
  import L = DlList

  // ---------- Insertion

  /** The child slots of path `j` when path `k` comes to be. */
  lemma GrownSlots(at: Places, k: Str, n: Node, j: Str, c: seq<Node?>, c': seq<Node?>)
    requires |c| == CHAR_SIZE && forall b: Byte :: c[b] == Lookup(at, j + [b])
    requires c' == if k != [] && j == Up(k) then c[k[|k| - 1] := n] else c
    ensures forall b: Byte :: c'[b] == Lookup(at[k := n], j + [b])
  {
    forall b: Byte ensures c'[b] == Lookup(at[k := n], j + [b]) {
      assert Up(j + [b]) == j;
      if k != [] { assert Up(k) + [k[|k| - 1]] == k; }
    }
  }

  lemma NoSlots(at: Places, k: Str, n: Node)
    requires Closed(at.Keys) && k !in at
    ensures forall b: Byte :: k + [b] !in at[k := n]
  {
    forall b: Byte ensures k + [b] !in at[k := n] { assert Up(k + [b]) == k; }
  }

  /** A new leaf for path `k`. */
  lemma Grown(root: Node?, root': Node?, at: Places, ls: Lists<L.Node>, k: Str, n: Node, m: Store, m': Store)
    requires Shaped(root, at, ls, m) && k !in at && n !in m && (k != [] ==> Up(k) in at)
    requires n in m' && m'[n] == Cell(seq(CHAR_SIZE, _ => null), null)
    requires root' == if k == [] then n else root
    requires forall j :: j in at && (k == [] || j != Up(k)) ==> at[j] in m' && m'[at[j]] == m[at[j]]
    requires k != [] ==> (var p := at[Up(k)]; p in m' && m'[p] == m[p].(children := m[p].children[k[|k| - 1] := n]))
    ensures Shaped(root', at[k := n], ls[k := []], m')
  {
    var at', ls' := at[k := n], ls[k := []];
    NoSlots(at, k, n);
    forall j | j in at' ensures NodeAt(j, at', ls', m') {
      if j != k {
        assert NodeAt(j, at, ls, m);
        GrownSlots(at, k, n, j, m[at[j]].children, m'[at[j]].children);
      }
    }
    forall j | j in at ensures at[j] != n { assert NodeAt(j, at, ls, m); }
  }

  /** A new node for path `k` under the node of its parent. */
  method Sprout(parent: Node, b: Byte, ghost k: Str, ghost root: Node, ghost at: Places, ghost ls: Lists<L.Node>,
                ghost m: Store)
    returns (n: Node, ghost m': Store)
    requires Holds(m) && Shaped(root, at, ls, m) && k != [] && k !in at && b == k[|k| - 1] &&
             parent == Lookup(at, Up(k))
    modifies m.Keys
    ensures Holds(m') && m'.Keys == m.Keys + {n} && fresh(n) && Shaped(root, at[k := n], ls[k := []], m')
  {
    assert NodeAt(Up(k), at, ls, m);
    n := new Node();
    parent.children := parent.children[b := n];
    m' := m[parent := Contents(parent)][n := Contents(n)];
    forall j | j in at ensures at[j] in m { assert NodeAt(j, at, ls, m); }
    Grown(root, root, at, ls, k, n, m, m');
  }

  lemma ExtendedStep(ls: Lists<L.Node>, s: Str, i: nat, e: Lists<L.Node>, k: Str)
    requires i < |s| && e == Extended(ls, s, i) && k == s[..i + 1]
    ensures k == s[..i] + [s[i]] && k != [] && Up(k) == s[..i] && k[|k| - 1] == s[i] && s[..i] in e
    ensures k in e ==> Extended(ls, s, i + 1) == e
    ensures k !in e ==> Extended(ls, s, i + 1) == e[k := []]
  {
    forall j ensures j in Prefixes(k) <==> j in Prefixes(s[..i]) || j == k {
      if j <= k && j != k { assert j <= s[..i]; }
    }
    assert s[..i] in Prefixes(s[..i]);
  }

  ghost predicate Kept(at: Places, at': Places) { forall k :: k in at ==> k in at' && at'[k] == at[k] }

  /** One byte of the walk of trie_m_insert: from the parent's node to the node of `k`. */
  method DescendStep(root: Node, curr: Node, b: Byte, ghost k: Str, ghost at: Places, ghost e: Lists<L.Node>,
                     ghost m: Store)
    returns (child: Node, ghost at': Places, ghost e': Lists<L.Node>, ghost m': Store)
    requires Holds(m) && Shaped(root, at, e, m) && k != [] && b == k[|k| - 1] && Up(k) + [b] == k &&
             curr == Lookup(at, Up(k))
    modifies m.Keys
    ensures Holds(m') && m.Keys <= m'.Keys && fresh(m'.Keys - m.Keys)
    ensures e' == (if k in e then e else e[k := []]) && Shaped(root, at', e', m') && child == Lookup(at', k) &&
            Kept(at, at')
  {
    var c := Child(curr, b, Up(k), at, e, root, m);
    at', e', m' := at, e, m;
    if c == null {
      c, m' := Sprout(curr, b, k, root, at, e, m);
      at', e' := at[k := c], e[k := []];
    }
    child := c;
  }

  /** To ask for a stage. */
  predicate Asked(i: nat) { true }

  /** The lists after each byte of `s`. */
  ghost predicate Stages(ls: Lists<L.Node>, s: Str, es: seq<Lists<L.Node>>) {
    |es| == |s| + 1 && forall i: nat {:trigger Asked(i)} :: Asked(i) && i <= |s| ==> es[i] == Extended(ls, s, i)
  }

  /** The same along `s`. */
  method DescendTo(root: Node, curr: Node, s: Str, i: nat, ghost at: Places, ghost ls: Lists<L.Node>,
                   ghost es: seq<Lists<L.Node>>, ghost m: Store)
    returns (child: Node, ghost at': Places, ghost m': Store)
    requires i < |s| && Stages(ls, s, es) && Holds(m) && Shaped(root, at, es[i], m) && curr == Lookup(at, s[..i])
    modifies m.Keys
    ensures Holds(m') && m.Keys <= m'.Keys && fresh(m'.Keys - m.Keys)
    ensures Shaped(root, at', es[i + 1], m') && child == Lookup(at', s[..i + 1]) && Kept(at, at')
  {
    ghost var k := s[..i + 1];
    assert Asked(i) && Asked(i + 1);
    ExtendedStep(ls, s, i, es[i], k);
    ghost var e;
    child, at', e, m' := DescendStep(root, curr, s[i], k, at, es[i], m);
  }

  /** The walk of trie_m_insert down to the node of `s`, making the nodes it misses. */
  method Descend(root: Node, s: Str, ghost at: Places, ghost ls: Lists<L.Node>, ghost es: seq<Lists<L.Node>>,
                 ghost m: Store)
    returns (curr: Node, ghost at': Places, ghost m': Store)
    requires Stages(ls, s, es) && Holds(m) && Shaped(root, at, es[0], m)
    modifies m.Keys
    ensures Holds(m') && m.Keys <= m'.Keys && fresh(m'.Keys - m.Keys)
    ensures Shaped(root, at', es[|s|], m') && curr == Lookup(at', s) && Kept(at, at')
  {
    curr, at', m' := root, at, m;
    assert s[..0] == [] && s[..|s|] == s;
    var i := 0;
    while i < |s|
      invariant i <= |s| && Shaped(root, at', es[i], m') && curr == Lookup(at', s[..i]) && Kept(at, at')
      invariant Holds(m') && m.Keys <= m'.Keys && fresh(m'.Keys - m.Keys)
    {
      curr, at', m' := DescendTo(root, curr, s, i, at', ls, es, m');
      i := i + 1;
    }
  }

  lemma Relisted(root: Node?, at: Places, ls: Lists<L.Node>, k: Str, q: seq<L.Node>, m: Store, m': Store)
    requires Shaped(root, at, ls, m) && k in at && m' == m[at[k] := m[at[k]].(list := L.Head(q))]
    ensures Shaped(root, at, ls[k := q], m')
  {
    forall j | j in at ensures NodeAt(j, at, ls[k := q], m') { assert NodeAt(j, at, ls, m); }
  }

  /** No list but that of path `k` has an item of `q`. */
  ghost predicate Apart(ls: Lists<L.Node>, k: Str, q: seq<L.Node>) {
    forall j :: j in ls && j != k ==> L.Elements(ls[j]) !! L.Elements(q)
  }

  lemma Rehung(ls: Lists<L.Node>, k: Str, q: seq<L.Node>, lm: L.Store, lm': L.Store)
    requires Hung(ls, lm) && k in ls && L.Listed(q, lm') && Apart(ls, k, q)
    requires L.SameOn(lm.Keys - L.Elements(ls[k]) - L.Elements(q), lm, lm')
    ensures Hung(ls[k := q], lm')
  {
    forall j | j in ls && j != k ensures L.Listed(ls[j], lm') {
      assert L.Elements(ls[j]) !! L.Elements(ls[k]) && L.Elements(ls[j]) !! L.Elements(q);
      L.StillListed(ls[j], lm, lm');
    }
  }

  lemma AppendApart(ls: Lists<L.Node>, lm: L.Store, k: Str, p: L.Node)
    requires Hung(ls, lm) && k in ls && forall j :: j in ls && j != k ==> p !in ls[j]
    ensures L.Elements(Append(ls[k], p)) == L.Elements(ls[k]) + {p} && Apart(ls, k, Append(ls[k], p))
  {
    var q := Append(ls[k], p);
    assert L.Elements(q) == L.Elements(ls[k]) + {p};
    forall j | j in ls && j != k ensures L.Elements(ls[j]) !! L.Elements(q) {
      assert L.Elements(ls[j]) !! L.Elements(ls[k]);
    }
  }

  /** The list of a node is replaced. */
  method SetList(curr: Node, head: L.Node?, ghost q: seq<L.Node>, ghost k: Str, ghost root: Node?, ghost at: Places,
                 ghost ls: Lists<L.Node>, ghost m: Store, ghost lm: L.Store)
    returns (ghost m': Store)
    requires Holds(m) && L.Holds(lm) && Shaped(root, at, ls, m) && curr == Lookup(at, k) && head == L.Head(q)
    modifies m.Keys
    ensures Holds(m') && L.Holds(lm) && m'.Keys == m.Keys && Shaped(root, at, ls[k := q], m')
  {
    assert NodeAt(k, at, ls, m);
    curr.list := head;
    m' := m[curr := Contents(curr)];
    Relisted(root, at, ls, k, q, m, m');
  }

  /** The item joins the list of path `s`. */
  method Hang(head: L.Node?, p: L.Node, ghost s: Str, ghost ls: Lists<L.Node>, ghost m: Store, ghost lm: L.Store)
    returns (head': L.Node, ghost lm': L.Store)
    requires Holds(m) && L.Holds(lm) && Hung(ls, lm) && s in ls && head == L.Head(ls[s])
    requires forall k :: k in ls && k != s ==> p !in ls[k]
    modifies lm.Keys, p
    ensures Holds(m) && L.Holds(lm') && lm'.Keys == lm.Keys + {p}
    ensures head' == L.Head(Append(ls[s], p)) && Hung(ls[s := Append(ls[s], p)], lm')
  {
    AppendApart(ls, lm, s, p);
    head', lm' := L.InsertTailUnique(head, p, ls[s], lm);
    Rehung(ls, s, Append(ls[s], p), lm, lm');
  }

  // ---------- trie_m_insert

  lemma Rootless(root: Node?, at: Places, ls: Lists<L.Node>, m: Store)
    requires Shaped(root, at, ls, m) && root == null
    ensures at == map[] && ls == map[]
  {
    forall k | k in ls ensures false {
      assert k[..0] == [];
      ClosedPrefix(ls.Keys, k, 0);
    }
    assert at.Keys == {};
  }

  lemma ExtendedRoot(ls: Lists<L.Node>, s: Str)
    requires [] in ls
    ensures Extended(ls, s, 0) == ls
  {
    assert forall k: Str :: k in Prefixes(s[..0]) <==> k == [];
  }

  /** `e` is `ls` with the path to `s`. */
  ghost predicate WithPath(ls: Lists<L.Node>, s: Str, e: Lists<L.Node>) {
    e.Keys == ls.Keys + Prefixes(s) && forall k :: k in e ==> e[k] == Get(ls, k)
  }

  lemma ExtendedHasPath(ls: Lists<L.Node>, s: Str, ls0: Lists<L.Node>)
    requires ls0 == ls || (ls == map[] && ls0 == map[[] := []])
    ensures WithPath(ls, s, Extended(ls0, s, |s|))
  {
    assert s[..|s|] == s && [] in Prefixes(s);
  }

  lemma PathInserted(ls: Lists<L.Node>, s: Str, p: L.Node, e: Lists<L.Node>)
    requires WithPath(ls, s, e)
    ensures s in e && e[s := Append(e[s], p)] == Insert(ls, s, p)
  {
    assert s in Prefixes(s);
    assert e[s := Append(e[s], p)].Keys == Insert(ls, s, p).Keys;
  }

  lemma PathHung(ls: Lists<L.Node>, s: Str, e: Lists<L.Node>, lm: L.Store)
    requires WithPath(ls, s, e) && Hung(ls, lm)
    ensures Hung(e, lm)
  {
    forall k | k in e ensures L.Listed(e[k], lm) { assert e[k] == Get(ls, k); }
    forall k, j | k in e && j in e && k != j ensures L.Elements(e[k]) !! L.Elements(e[j]) {
      assert e[k] == Get(ls, k) && e[j] == Get(ls, j);
    }
  }

  /** The root, made if it is not there. */
  method Root(root: Node?, ghost at: Places, ghost ls: Lists<L.Node>, ghost m: Store)
    returns (root': Node, ghost at': Places, ghost ls': Lists<L.Node>, ghost m': Store)
    requires Holds(m) && Shaped(root, at, ls, m)
    ensures Holds(m') && m.Keys <= m'.Keys && fresh(m'.Keys - m.Keys) && Shaped(root', at', ls', m') && [] in ls' &&
            Kept(at, at')
    ensures ls' == ls || (ls == map[] && ls' == map[[] := []])
  {
    at', ls', m' := at, ls, m;
    if root == null {
      Rootless(root, at, ls, m);
      root' := new Node();
      m' := m[root' := Contents(root')];
      at', ls' := at[[] := root'], ls[[] := []];
      Grown(root, root', at, ls, [], root', m, m');
    } else {
      root' := root;
    }
  }

  lemma StagesOf(ls: Lists<L.Node>, s: Str, ls0: Lists<L.Node>) returns (es: seq<Lists<L.Node>>)
    requires [] in ls0 && (ls0 == ls || (ls == map[] && ls0 == map[[] := []]))
    ensures Stages(ls0, s, es) && es[0] == ls0 && WithPath(ls, s, es[|s|])
  {
    es := seq(|s| + 1, i requires 0 <= i <= |s| => Extended(ls0, s, i));
    ExtendedRoot(ls0, s);
    ExtendedHasPath(ls, s, ls0);
  }

  /** The path to `s`, made where it is not there. */
  method MakePath(root: Node?, s: Str, ghost at: Places, ghost ls: Lists<L.Node>, ghost m: Store)
    returns (root': Node, curr: Node, ghost at': Places, ghost e: Lists<L.Node>, ghost m': Store)
    requires Holds(m) && Shaped(root, at, ls, m)
    modifies m.Keys
    ensures Holds(m') && m.Keys <= m'.Keys && fresh(m'.Keys - m.Keys)
    ensures Shaped(root', at', e, m') && curr == Lookup(at', s) && Kept(at, at') && WithPath(ls, s, e)
  {
    ghost var at0, ls0, m0;
    root', at0, ls0, m0 := Root(root, at, ls, m);
    ghost var es := StagesOf(ls, s, ls0);
    curr, at', m' := Descend(root', s, at0, ls0, es, m0);
    e := es[|s|];
  }

  /** Making the path leaves the links of the lists alone. */
  method MakePathOnly(root: Node?, s: Str, ghost at: Places, ghost ls: Lists<L.Node>, ghost m: Store, ghost lm: L.Store)
    returns (root': Node, curr: Node, ghost at': Places, ghost e: Lists<L.Node>, ghost m': Store)
    requires Holds(m) && L.Holds(lm) && Shaped(root, at, ls, m)
    modifies m.Keys
    ensures Holds(m') && L.Holds(lm) && m.Keys <= m'.Keys && fresh(m'.Keys - m.Keys)
    ensures Shaped(root', at', e, m') && curr == Lookup(at', s) && Kept(at, at') && WithPath(ls, s, e)
  {
    root', curr, at', e, m' := MakePath(root, s, at, ls, m);
  }

  /** The item joins the list of the node of `s`. */
  method Attach(curr: Node, p: L.Node, ghost s: Str, ghost root: Node, ghost at: Places, ghost ls: Lists<L.Node>,
                ghost m: Store, ghost lm: L.Store)
    returns (ghost m': Store, ghost lm': L.Store)
    requires Holds(m) && L.Holds(lm) && Shaped(root, at, ls, m) && Hung(ls, lm) && curr == Lookup(at, s)
    requires forall k :: k in ls && k != s ==> p !in ls[k]
    modifies m.Keys, lm.Keys, p
    ensures Holds(m') && m'.Keys == m.Keys && L.Holds(lm') && lm'.Keys == lm.Keys + {p}
    ensures Shaped(root, at, ls[s := Append(ls[s], p)], m') && Hung(ls[s := Append(ls[s], p)], lm')
  {
    var list := ListOf(curr, s, at, ls, root, m);
    var head;
    head, lm' := Hang(list, p, s, ls, m, lm);
    m' := SetList(curr, head, Append(ls[s], p), s, root, at, ls, m, lm');
  }

  method AttachAlong(root: Node?, s: Str, p: L.Node, ghost at: Places, ghost ls: Lists<L.Node>, ghost m: Store,
                     ghost lm: L.Store)
    returns (root': Node, ghost at': Places, ghost e: Lists<L.Node>, ghost m': Store, ghost lm': L.Store)
    requires Holds(m) && L.Holds(lm) && Shaped(root, at, ls, m) && Hung(ls, lm)
    requires forall k :: k in ls && k != s ==> p !in ls[k]
    modifies m.Keys, lm.Keys, p
    ensures Holds(m') && m.Keys <= m'.Keys && fresh(m'.Keys - m.Keys) && L.Holds(lm') && lm'.Keys == lm.Keys + {p}
    ensures WithPath(ls, s, e) && s in e && Kept(at, at')
    ensures Shaped(root', at', e[s := Append(e[s], p)], m') && Hung(e[s := Append(e[s], p)], lm')
  {
    ghost var m1;
    var curr;
    root', curr, at', e, m1 := MakePathOnly(root, s, at, ls, m, lm);
    PathHung(ls, s, e, lm);
    m', lm' := Attach(curr, p, s, root', at', e, m1, lm);
  }

  /** trie_m_insert: an item of no other list joins the list of path `s`. */
  method InsertItem(root: Node?, s: Str, p: L.Node, ghost at: Places, ghost ls: Lists<L.Node>, ghost m: Store,
                    ghost lm: L.Store)
    returns (root': Node, ghost at': Places, ghost m': Store, ghost lm': L.Store)
    requires Holds(m) && L.Holds(lm) && Shaped(root, at, ls, m) && Hung(ls, lm)
    requires forall k :: k in ls && k != s ==> p !in ls[k]
    modifies m.Keys, lm.Keys, p
    ensures Holds(m') && m.Keys <= m'.Keys && fresh(m'.Keys - m.Keys) && L.Holds(lm') && lm'.Keys == lm.Keys + {p}
    ensures Shaped(root', at', Insert(ls, s, p), m') && Hung(Insert(ls, s, p), lm') && Kept(at, at')
  {
    ghost var e;
    root', at', e, m', lm' := AttachAlong(root, s, p, at, ls, m, lm);
    PathInserted(ls, s, p, e);
  }

  // ---------- Deletion

  /** have_children */
  method HaveChildren(curr: Node, ghost k: Str, ghost at: Places, ghost ls: Lists<L.Node>, ghost root: Node?,
                      ghost m: Store)
    returns (found: bool)
    requires Holds(m) && Shaped(root, at, ls, m) && curr == Lookup(at, k)
    ensures found <==> HasChild(ls, k)
  {
    assert NodeAt(k, at, ls, m);
    var i := 0;
    while i < CHAR_SIZE
      invariant i <= CHAR_SIZE && forall b: Byte :: b < i ==> k + [b] !in ls
    {
      if curr.children[i] != null {
        ghost var b: Byte := i;
        assert k + [b] in ls;
        return true;
      }
      i := i + 1;
    }
    return false;
  }

  ghost predicate Bare(ls: Lists<L.Node>, k: Str) { k in ls && ls[k] == [] && !HasChild(ls, k) }

  /** have_children and free_trie_node: whether the node of `k` goes. */
  method Frees(curr: Node, ghost k: Str, ghost at: Places, ghost ls: Lists<L.Node>, ghost root: Node?, ghost m: Store)
    returns (freed: bool)
    requires Holds(m) && Shaped(root, at, ls, m) && curr == Lookup(at, k)
    ensures freed <==> Bare(ls, k)
  {
    var have := HaveChildren(curr, k, at, ls, root, m);
    var list := ListOf(curr, k, at, ls, root, m);
    freed := !have && list == null;
  }

  ghost function Cleared(c: Cell, b: Byte): Cell {
    if |c.children| == CHAR_SIZE then c.(children := c.children[b := null]) else c
  }

  /** The slot of a bare node is cleared. */
  lemma Dropped(root: Node?, root': Node?, at: Places, ls: Lists<L.Node>, k: Str, m: Store, m': Store)
    requires Shaped(root, at, ls, m) && Bare(ls, k)
    requires root' == if k == [] then null else root
    requires k == [] ==> m' == m
    requires k != [] ==> at[Up(k)] in m && m' == m[at[Up(k)] := Cleared(m[at[Up(k)]], k[|k| - 1])]
    ensures Shaped(root', at - {k}, ls - {k}, m')
  {
    var at', ls' := at - {k}, ls - {k};
    forall j | j in ls' && j != [] ensures Up(j) in ls' {
      assert Up(j) + [j[|j| - 1]] == j;
    }
    forall j | j in at' ensures NodeAt(j, at', ls', m') {
      assert NodeAt(j, at, ls, m);
      forall b: Byte ensures m'[at'[j]].children[b] == Lookup(at', j + [b]) {
        assert Up(j + [b]) == j;
        if k != [] { assert Up(k) + [k[|k| - 1]] == k; }
      }
    }
  }

  lemma {:induction false} RemoveAt(q: seq<L.Node>, x: L.Node, k: nat)
    requires L.Distinct(q) && k < |q| && q[k] == x
    ensures Remove(q, x) == L.Without(q, k)
  {
    if k > 0 {
      RemoveAt(q[1..], x, k - 1);
      assert L.Without(q, k) == [q[0]] + L.Without(q[1..], k - 1);
    }
  }

  lemma RemoveApart(ls: Lists<L.Node>, lm: L.Store, s: Str, p: L.Node, k: nat)
    requires Hung(ls, lm) && s in ls && k < |ls[s]| && ls[s][k] == p
    ensures Remove(ls[s], p) == L.Without(ls[s], k)
    ensures L.Elements(Remove(ls[s], p)) <= L.Elements(ls[s]) && Apart(ls, s, Remove(ls[s], p))
  {
    var q := Remove(ls[s], p);
    RemoveAt(ls[s], p, k);
    forall x | x in q ensures x in ls[s] {}
    forall j | j in ls && j != s ensures L.Elements(ls[j]) !! L.Elements(q) {
      assert L.Elements(ls[j]) !! L.Elements(ls[s]);
    }
  }

  /** The item leaves the list of path `s`. */
  method Unhang(head: L.Node?, p: L.Node, ghost s: Str, ghost ls: Lists<L.Node>, ghost m: Store, ghost lm: L.Store)
    returns (head': L.Node?, ghost lm': L.Store)
    requires Holds(m) && L.Holds(lm) && Hung(ls, lm) && s in ls && head == L.Head(ls[s])
    requires ls[s] != [] ==> p in ls[s]
    modifies lm.Keys
    ensures Holds(m) && L.Holds(lm') && lm'.Keys == lm.Keys
    ensures head' == L.Head(Remove(ls[s], p)) && Hung(ls[s := Remove(ls[s], p)], lm')
  {
    ghost var k := 0;
    if ls[s] != [] {
      k :| 0 <= k < |ls[s]| && ls[s][k] == p;
      RemoveApart(ls, lm, s, p, k);
    }
    head', lm' := L.RemoveRef(head, p, ls[s], k, lm);
    Rehung(ls, s, Remove(ls[s], p), lm, lm');
  }

  /** The item leaves the list of the node of `s`. */
  method Detach(curr: Node, p: L.Node, ghost s: Str, ghost root: Node?, ghost at: Places, ghost ls: Lists<L.Node>,
                ghost m: Store, ghost lm: L.Store)
    returns (ghost m': Store, ghost lm': L.Store)
    requires Holds(m) && L.Holds(lm) && Shaped(root, at, ls, m) && Hung(ls, lm) && curr == Lookup(at, s)
    requires ls[s] != [] ==> p in ls[s]
    modifies m.Keys, lm.Keys
    ensures Holds(m') && m'.Keys == m.Keys && L.Holds(lm') && lm'.Keys == lm.Keys
    ensures Shaped(root, at, ls[s := Remove(ls[s], p)], m') && Hung(ls[s := Remove(ls[s], p)], lm')
  {
    var list := ListOf(curr, s, at, ls, root, m);
    var head;
    head, lm' := Unhang(list, p, s, ls, m, lm);
    m' := SetList(curr, head, Remove(ls[s], p), s, root, at, ls, m, lm');
  }

  /** The child in slot `b`, which has become bare, is let go. */
  method ClearSlot(parent: Node, b: Byte, ghost k: Str, ghost root: Node?, ghost at: Places, ghost ls: Lists<L.Node>,
                   ghost m: Store, ghost lm: L.Store)
    returns (ghost m': Store)
    requires Holds(m) && L.Holds(lm) && Shaped(root, at, ls, m) && Bare(ls, k) && k != [] && b == k[|k| - 1] &&
             parent == Lookup(at, Up(k))
    modifies m.Keys
    ensures Holds(m') && L.Holds(lm) && m'.Keys == m.Keys && Shaped(root, at - {k}, ls - {k}, m')
  {
    assert NodeAt(Up(k), at, ls, m);
    parent.children := parent.children[b := null];
    m' := m[parent := Contents(parent)];
    Dropped(root, root, at, ls, k, m, m');
  }

  /** The deletion is done but for the pruning from path `k` upwards. */
  ghost predicate Pending(ls: Lists<L.Node>, s: Str, p: L.Node, k: Str, ls': Lists<L.Node>) {
    if s in ls then k in ls' && Prune(ls', k) == Delete(ls, s, p) else ls' == ls
  }

  lemma PendingUp(ls: Lists<L.Node>, s: Str, p: L.Node, i: nat, k: Str, ls': Lists<L.Node>)
    requires i < |s| && k == s[..i + 1] && Closed(ls'.Keys) && Pending(ls, s, p, k, ls') && s in ls
    ensures k != [] && Up(k) == s[..i] && Up(k) in ls' && k[|k| - 1] == s[i] && HasChild(ls', s[..i])
    ensures Pending(ls, s, p, s[..i], if Bare(ls', k) then ls' - {k} else ls')
  {
    assert Up(k) == s[..i] && s[..i] + [s[i]] == k;
    assert Up(k) in ls';
  }

  lemma PathMissing(ls: Lists<L.Node>, s: Str, i: nat)
    requires Closed(ls.Keys) && i <= |s| && s[..i] !in ls
    ensures s !in ls
  {
    if s in ls { ClosedPrefix(ls.Keys, s, i); }
  }

  /** A node on the path after its child's subtree has been seen to. */
  method DeleteUp(curr: Node, gone: bool, s: Str, i: nat, ghost p: L.Node, ghost root: Node?, ghost ls: Lists<L.Node>,
                  ghost at1: Places, ghost ls1: Lists<L.Node>, ghost m: Store, ghost lm: L.Store)
    returns (freed: bool, ghost at': Places, ghost ls': Lists<L.Node>, ghost m': Store)
    requires i < |s| && Holds(m) && L.Holds(lm) && Shaped(root, at1, ls1, m) && curr == Lookup(at1, s[..i])
    requires Pending(ls, s, p, s[..i + 1], ls1) && (gone <==> s in ls && Bare(ls1, s[..i + 1]))
    modifies m.Keys
    ensures Holds(m') && L.Holds(lm) && m'.Keys == m.Keys
    ensures Shaped(root, at', ls', m') && Pending(ls, s, p, s[..i], ls') && curr == Lookup(at', s[..i])
    ensures freed <==> s in ls && Bare(ls', s[..i])
    ensures at' == if gone then at1 - {s[..i + 1]} else at1
    ensures ls' == if gone then ls1 - {s[..i + 1]} else ls1
  {
    freed, at', ls', m' := false, at1, ls1, m;
    ghost var k := s[..i + 1];
    if s in ls { PendingUp(ls, s, p, i, k, ls1); }
    if gone {
      m' := ClearSlot(curr, s[i], k, root, at1, ls1, m, lm);
      at', ls' := at1 - {k}, ls1 - {k};
      freed := Frees(curr, s[..i], at', ls', root, m');
    }
  }

  /** delete_r on the node of `s[..i]`; `freed` tells the caller to let go of it. */
  method DeleteFrom(curr: Node?, s: Str, i: nat, p: L.Node, ghost root: Node?, ghost at: Places,
                    ghost ls: Lists<L.Node>, ghost m: Store, ghost lm: L.Store)
    returns (freed: bool, ghost at': Places, ghost ls': Lists<L.Node>, ghost m': Store, ghost lm': L.Store)
    requires Holds(m) && L.Holds(lm) && Shaped(root, at, ls, m) && Hung(ls, lm)
    requires i <= |s| && curr == Lookup(at, s[..i]) && (s in ls && ls[s] != [] ==> p in ls[s])
    modifies m.Keys, lm.Keys
    ensures Holds(m') && m'.Keys == m.Keys && L.Holds(lm') && lm'.Keys == lm.Keys
    ensures Shaped(root, at', ls', m') && Hung(ls', lm') && Kept(at', at) && curr == Lookup(at', s[..i])
    ensures Pending(ls, s, p, s[..i], ls') && (freed <==> s in ls && Bare(ls', s[..i]))
    decreases |s| - i
  {
    freed, at', ls', m', lm' := false, at, ls, m, lm;
    if curr == null {
      PathMissing(ls, s, i);
      return;
    }
    if i < |s| {
      assert s[..i] + [s[i]] == s[..i + 1];
      var child := Child(curr, s[i], s[..i], at, ls, root, m);
      if child == null {
        PathMissing(ls, s, i + 1);
        return;
      }
      freed, at', ls', m', lm' := DeleteBelow(curr, child, s, i, p, root, at, ls, m, lm);
    } else {
      assert s[..i] == s;
      freed, ls', m', lm' := DeleteHere(curr, s, p, root, at, ls, m, lm);
    }
  }

  /** The item leaves the list of its filter. */
  method DeleteHere(curr: Node, ghost s: Str, p: L.Node, ghost root: Node?, ghost at: Places,
                    ghost ls: Lists<L.Node>, ghost m: Store, ghost lm: L.Store)
    returns (freed: bool, ghost ls': Lists<L.Node>, ghost m': Store, ghost lm': L.Store)
    requires Holds(m) && L.Holds(lm) && Shaped(root, at, ls, m) && Hung(ls, lm)
    requires curr == Lookup(at, s) && (s in ls && ls[s] != [] ==> p in ls[s])
    modifies m.Keys, lm.Keys
    ensures Holds(m') && m'.Keys == m.Keys && L.Holds(lm') && lm'.Keys == lm.Keys
    ensures Shaped(root, at, ls', m') && Hung(ls', lm') && Pending(ls, s, p, s, ls') && s in ls
    ensures freed <==> Bare(ls', s)
  {
    m', lm' := Detach(curr, p, s, root, at, ls, m, lm);
    ls' := ls[s := Remove(ls[s], p)];
    freed := Frees(curr, s, at, ls', root, m');
  }

  lemma HungWithout(ls: Lists<L.Node>, k: Str, lm: L.Store)
    requires Hung(ls, lm)
    ensures Hung(ls - {k}, lm)
  {}

  method DeleteBelow(curr: Node, child: Node, s: Str, i: nat, p: L.Node, ghost root: Node?, ghost at: Places,
                     ghost ls: Lists<L.Node>, ghost m: Store, ghost lm: L.Store)
    returns (freed: bool, ghost at': Places, ghost ls': Lists<L.Node>, ghost m': Store, ghost lm': L.Store)
    requires Holds(m) && L.Holds(lm) && Shaped(root, at, ls, m) && Hung(ls, lm)
    requires i < |s| && curr == Lookup(at, s[..i]) && child == Lookup(at, s[..i + 1]) &&
             (s in ls && ls[s] != [] ==> p in ls[s])
    modifies m.Keys, lm.Keys
    ensures Holds(m') && m'.Keys == m.Keys && L.Holds(lm') && lm'.Keys == lm.Keys
    ensures Shaped(root, at', ls', m') && Hung(ls', lm') && Kept(at', at) && curr == Lookup(at', s[..i])
    ensures Pending(ls, s, p, s[..i], ls') && (freed <==> s in ls && Bare(ls', s[..i]))
    decreases |s| - i, 0
  {
    ghost var at1, ls1, m1;
    var gone;
    gone, at1, ls1, m1, lm' := DeleteFrom(child, s, i + 1, p, root, at, ls, m, lm);
    assert Up(s[..i + 1]) == s[..i];
    freed, at', ls', m' := DeleteUp(curr, gone, s, i, p, root, ls, at1, ls1, m1, lm');
    HungWithout(ls1, s[..i + 1], lm');
  }

  /** trie_m_delete: the item leaves the list of path `s`, and with it the nodes that are there for nothing. */
  method DeleteItem(root: Node?, s: Str, p: L.Node, ghost at: Places, ghost ls: Lists<L.Node>, ghost m: Store,
                    ghost lm: L.Store)
    returns (root': Node?, ghost at': Places, ghost m': Store, ghost lm': L.Store)
    requires Holds(m) && L.Holds(lm) && Shaped(root, at, ls, m) && Hung(ls, lm)
    requires s in ls && ls[s] != [] ==> p in ls[s]
    modifies m.Keys, lm.Keys
    ensures Holds(m') && m'.Keys == m.Keys && L.Holds(lm') && lm'.Keys == lm.Keys
    ensures Shaped(root', at', Delete(ls, s, p), m') && Hung(Delete(ls, s, p), lm') && Kept(at', at)
  {
    ghost var ls1;
    var freed;
    assert s[..0] == [];
    freed, at', ls1, m', lm' := DeleteFrom(root, s, 0, p, root, at, ls, m, lm);
    root' := root;
    if freed {
      Dropped(root, null, at', ls1, [], m', m');
      HungWithout(ls1, [], lm');
      root', at' := null, at' - {[]};
    }
  }
}
