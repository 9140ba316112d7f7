/** The trie in memory (trie_mult.c): nodes with 256 child slots and an intrusive list each.

    `at` gives the node of every path and `ls` its list; `Index` says that the heap, pictured by the
    stores `m` and `lm`, realises them. */
module Trie {
  import opened Topic
  import opened TrieModel
  import opened TrieSearch
  import L = DlList

  const CHAR_SIZE := 256

  class Node {
    var children: seq<Node?>
    var list: L.Node?

    /** new_trie_mult_node */
    constructor ()
      ensures children == seq(CHAR_SIZE, _ => null) && list == null
    {
      children := seq(CHAR_SIZE, _ => null);
      list := null;
    }
  }

  datatype Cell = Cell(children: seq<Node?>, list: L.Node?)

  type Store = map<Node, Cell>

  ghost function Contents(n: Node): Cell
    reads n
  {
    Cell(n.children, n.list)
  }

  ghost predicate Holds(m: Store)
    reads m.Keys
  {
    forall n :: n in m ==> m[n] == Contents(n)
  }

  type Places = map<Str, Node>

  ghost function Lookup(at: Places, k: Str): Node? { if k in at then at[k] else null }

  /** The node of path `k` has the list of `k` and a child just where a longer path says so. */
  ghost predicate NodeAt(k: Str, at: Places, ls: Lists<L.Node>, m: Store)
    requires k in at && k in ls
  {
    && at[k] in m
    && var c := m[at[k]];
    && c.list == L.Head(ls[k])
    && |c.children| == CHAR_SIZE && c.children[0] == null
    && forall b: Byte :: c.children[b] == Lookup(at, k + [b])
  }

  ghost predicate Shaped(root: Node?, at: Places, ls: Lists<L.Node>, m: Store) {
    && at.Keys == ls.Keys && Closed(ls.Keys) && root == Lookup(at, [])
    && (forall k, j {:trigger at[k], at[j]} :: k in at && j in at && k != j ==> at[k] != at[j])
    && forall k :: k in at ==> NodeAt(k, at, ls, m)
  }

  /** Every list is linked, and no item hangs in two of them. */
  ghost predicate Hung(ls: Lists<L.Node>, lm: L.Store) {
    && (forall k :: k in ls ==> L.Listed(ls[k], lm))
    && forall k, j :: k in ls && j in ls && k != j ==> L.Elements(ls[k]) !! L.Elements(ls[j])
  }

  ghost predicate Index(root: Node?, at: Places, ls: Lists<L.Node>, m: Store, lm: L.Store) {
    Shaped(root, at, ls, m) && Hung(ls, lm)
  }

  // ---------- Search

  lemma {:induction false} CollectConcat(ls: Lists<L.Node>, a: seq<Str>, b: seq<Str>)
    ensures Collect(ls, a + b) == Collect(ls, a) + Collect(ls, b)
  {
    if a == [] {
      assert a + b == b;
    } else {
      CollectConcat(ls, a[1..], b);
      assert (a + b)[1..] == a[1..] + b;
    }
  }

  /** What a search reports from the node of `path` on. */
  ghost function Owed(ls: Lists<L.Node>, path: Str, s: Str, start: bool): seq<L.Node> {
    Collect(ls, Visits(ls.Keys, path, s, start))
  }

  ghost function OwedWild(ls: Lists<L.Node>, path: Str, s: Str): seq<L.Node>
    requires s != []
  {
    Collect(ls, Wildcards(ls.Keys, path, s))
  }

  /** The wildcards at a byte have been seen to; `path'`, `s'` and `start'` are the next byte's. */
  lemma OwedStep(found: seq<L.Node>, found': seq<L.Node>, ls: Lists<L.Node>,
                 path: Str, s: Str, start: bool, path': Str, s': Str, start': bool)
    requires path in ls && s != [] && path' == path + [s[0]] && s' == s[1..] && start' == (s[0] == SLASH)
    requires found' == if start then found + OwedWild(ls, path, s) else found
    ensures found + Owed(ls, path, s, start) == found' + Owed(ls, path', s', start')
  {
    var tail := Visits(ls.Keys, path', s', start');
    if start {
      assert Visits(ls.Keys, path, s, start) == Wildcards(ls.Keys, path, s) + tail;
      CollectConcat(ls, Wildcards(ls.Keys, path, s), tail);
      JoinFound(found, OwedWild(ls, path, s), Collect(ls, tail));
    } else {
      assert Visits(ls.Keys, path, s, start) == [] + tail == tail;
    }
  }

  lemma JoinFound(a: seq<L.Node>, b: seq<L.Node>, c: seq<L.Node>)
    ensures a + (b + c) == (a + b) + c
  {}

  lemma OwedEnd(found: seq<L.Node>, ls: Lists<L.Node>, path: Str, s: Str, start: bool)
    ensures path !in ls ==> found + Owed(ls, path, s, start) == found
    ensures path in ls ==> found + Owed(ls, path, [], start) == found + ls[path]
  {
    if path in ls { assert Collect(ls, [path]) == ls[path] + Collect(ls, []); }
  }

  lemma WildStep(found: seq<L.Node>, ls: Lists<L.Node>, path: Str, s: Str)
    requires s != []
    ensures found + OwedWild(ls, path, s) ==
      (found + Get(ls, path + [HASH])) + Collect(ls, Singles(ls.Keys, path, s))
  {
    var k := path + [HASH];
    var hash := if k in ls then [k] else [];
    CollectConcat(ls, hash, Singles(ls.Keys, path, s));
    OwedEnd(found, ls, k, [], true);
    if k in ls { assert Collect(ls, hash) == ls[k] + Collect(ls, []); }
  }

  lemma SingleStep(ls: Lists<L.Node>, path: Str, s: Str)
    requires s != []
    ensures Collect(ls, Singles(ls.Keys, path, s)) ==
      if path + [PLUS] !in ls then []
      else if LevelLen(s) == |s| then ls[path + [PLUS]]
      else Owed(ls, path + [PLUS, SLASH], s[LevelLen(s) + 1..], true)
    ensures (path + [PLUS]) + [SLASH] == path + [PLUS, SLASH]
  {
    var k := path + [PLUS];
    if k in ls { assert Collect(ls, [k]) == ls[k] + Collect(ls, []); }
  }

  /** The child in slot `b` of the node of `path`. */
  method Child(node: Node, b: Byte, ghost path: Str, ghost at: Places, ghost ls: Lists<L.Node>, ghost root: Node?,
               ghost m: Store)
    returns (child: Node?)
    requires Holds(m) && Shaped(root, at, ls, m) && node == Lookup(at, path)
    ensures child == Lookup(at, path + [b])
  {
    assert NodeAt(path, at, ls, m);
    child := node.children[b];
  }

  method ListOf(node: Node, ghost path: Str, ghost at: Places, ghost ls: Lists<L.Node>, ghost root: Node?,
                ghost m: Store)
    returns (head: L.Node?)
    requires Holds(m) && Shaped(root, at, ls, m) && node == Lookup(at, path)
    ensures head == L.Head(Get(ls, path))
  {
    assert NodeAt(path, at, ls, m);
    head := node.list;
  }

  /** found_list: report every item of the list of a node. */
  method FoundList(node: Node, found: seq<L.Node>, ghost path: Str,
                   ghost at: Places, ghost ls: Lists<L.Node>, ghost root: Node?, ghost m: Store, ghost lm: L.Store)
    returns (found': seq<L.Node>)
    requires Holds(m) && L.Holds(lm) && Index(root, at, ls, m, lm) && node == Lookup(at, path)
    ensures found' == found + Get(ls, path)
  {
    var head := ListOf(node, path, at, ls, root, m);
    found' := ReportList(head, found, ls[path], lm);
  }

  method ReportList(head: L.Node?, found: seq<L.Node>, ghost s: seq<L.Node>, ghost lm: L.Store)
    returns (found': seq<L.Node>)
    requires L.Holds(lm) && L.Listed(s, lm) && head == L.Head(s)
    ensures found' == found + s
  {
    found' := found;
    var p := head;
    ghost var n := 0;
    while p != null
      invariant n <= |s| && p == (if n < |s| then s[n] else null) && found' == found + s[..n]
      decreases |s| - n
    {
      assert L.LinkedAt(s, lm, n);
      found' := found' + [p];
      p := p.next;
      n := n + 1;
    }
    assert s[..n] == s;
  }

  /** search_r_mqtt from the node of path `pre`. */
  method Search(curr: Node?, s: Str, found: seq<L.Node>,
                ghost pre: Str, ghost at: Places, ghost ls: Lists<L.Node>, ghost root: Node?, ghost m: Store,
                ghost lm: L.Store)
    returns (found': seq<L.Node>)
    requires Holds(m) && L.Holds(lm) && Index(root, at, ls, m, lm) && curr == Lookup(at, pre)
    ensures found' == found + Owed(ls, pre, s, true)
    decreases |s|, 2
  {
    found' := found;
    if curr == null {
      OwedEnd(found, ls, pre, s, true);
      return;
    }
    var node: Node, rest, start := curr, s, true;
    ghost var path, total := pre, found + Owed(ls, pre, s, true);
    while rest != []
      invariant |rest| <= |s| && node == Lookup(at, path)
      invariant total == found' + Owed(ls, path, rest, start)
      decreases |rest|
    {
      ghost var found0, path0, rest0, start0 := found', path, rest, start;
      if start {
        found' := SearchWildcards(node, rest, found', path, at, ls, root, m, lm);
      }
      var child := Child(node, rest[0], path, at, ls, root, m);
      path, start, rest := path + [rest[0]], rest[0] == SLASH, rest[1..];
      OwedStep(found0, found', ls, path0, rest0, start0, path, rest, start);
      if child == null {
        OwedEnd(found', ls, path, rest, start);
        return;
      }
      node := child;
    }
    OwedEnd(found', ls, path, [], start);
    found' := FoundList(node, found', path, at, ls, root, m, lm);
  }

  /** The part of search_r_mqtt for a byte that begins a level. */
  method SearchWildcards(node: Node, s: Str, found: seq<L.Node>,
                         ghost pre: Str, ghost at: Places, ghost ls: Lists<L.Node>, ghost root: Node?, ghost m: Store,
                         ghost lm: L.Store)
    returns (found': seq<L.Node>)
    requires Holds(m) && L.Holds(lm) && Index(root, at, ls, m, lm) && node == Lookup(at, pre) && s != []
    ensures found' == found + OwedWild(ls, pre, s)
    decreases |s|, 1
  {
    found' := found;
    WildStep(found, ls, pre, s);
    var hash := Child(node, HASH, pre, at, ls, root, m);
    if hash != null {
      found' := FoundList(hash, found', pre + [HASH], at, ls, root, m, lm);
    }
    var plus := Child(node, PLUS, pre, at, ls, root, m);
    if plus != null {
      found' := SearchSingle(plus, s, found', pre, at, ls, root, m, lm);
    }
  }

  /** The node of '+' stands for the whole level. */
  method SearchSingle(plus: Node, s: Str, found: seq<L.Node>,
                      ghost pre: Str, ghost at: Places, ghost ls: Lists<L.Node>, ghost root: Node?, ghost m: Store,
                      ghost lm: L.Store)
    returns (found': seq<L.Node>)
    requires Holds(m) && L.Holds(lm) && Index(root, at, ls, m, lm) && plus == Lookup(at, pre + [PLUS]) && s != []
    ensures found' == found + Collect(ls, Singles(ls.Keys, pre, s))
    decreases |s|, 0
  {
    SingleStep(ls, pre, s);
    var cp := SkipLevel(s);
    if cp == |s| {
      found' := FoundList(plus, found, pre + [PLUS], at, ls, root, m, lm);
    } else {
      var below := Child(plus, SLASH, pre + [PLUS], at, ls, root, m);
      found' := Search(below, s[cp + 1..], found, pre + [PLUS, SLASH], at, ls, root, m, lm);
    }
  }

  method SkipLevel(s: Str) returns (cp: nat)
    ensures cp == LevelLen(s)
  {
    cp := 0;
    while cp < |s| && s[cp] != SLASH
      invariant cp <= |s| && SLASH !in s[..cp]
    {
      cp := cp + 1;
    }
    LevelLenAt(s, cp);
  }

  /** trie_m_search_mqtt; `found` stands for the calls of the callback. */
  method SearchMqtt(root: Node?, topic: Str, ghost at: Places, ghost ls: Lists<L.Node>, ghost m: Store,
                    ghost lm: L.Store)
    returns (found: seq<L.Node>)
    requires Holds(m) && L.Holds(lm) && Index(root, at, ls, m, lm)
    ensures found == Reported(ls, topic)
  {
    found := [];
    if topic != [] && topic[0] == DOLLAR {
      if root != null {
        assert NodeAt([], at, ls, m);
        assert [] + [DOLLAR] == [DOLLAR];
        found := Search(root.children[DOLLAR], topic[1..], [], [DOLLAR], at, ls, root, m, lm);
      }
    } else {
      found := Search(root, topic, [], [], at, ls, root, m, lm);
    }
  }
}
