/** The intrusive doubly linked list (list.c).

    A list is the sequence of its nodes; `Listed` says that the links recorded in a store, a picture
    of the heap, run along that sequence.  The head's `prev` is never read by the code and may be
    stale after a removal, so nothing is said about it. */
module DlList {

  class Node {
    var prev: Node?
    var next: Node?

    constructor () {
      prev, next := null, null;
    }
  }

  datatype Link = Link(prev: Node?, next: Node?)

  type Store = map<Node, Link>

  ghost function Contents(n: Node): Link
    reads n
  {
    Link(n.prev, n.next)
  }

  ghost predicate Holds(m: Store)
    reads m.Keys
  {
    forall n :: n in m ==> m[n] == Contents(n)
  }

  ghost predicate SameOn(ns: set<Node>, m: Store, m': Store) {
    forall n :: n in ns && n in m ==> n in m' && m'[n] == m[n]
  }

  ghost function Elements(s: seq<Node>): set<Node> { set n | n in s }

  ghost predicate Distinct(s: seq<Node>) { forall i, j :: 0 <= i < j < |s| ==> s[i] != s[j] }

  ghost function Head(s: seq<Node>): Node? { if s == [] then null else s[0] }

  ghost predicate LinkedAt(s: seq<Node>, m: Store, i: nat)
    requires i < |s|
  {
    && s[i] in m
    && m[s[i]].next == (if i + 1 < |s| then s[i + 1] else null)
    && (i > 0 ==> m[s[i]].prev == s[i - 1])
  }

  ghost predicate Listed(s: seq<Node>, m: Store) {
    && Distinct(s) && (forall i :: 0 <= i < |s| ==> s[i] in m)
    && forall i :: 0 <= i < |s| ==> LinkedAt(s, m, i)
  }

  lemma StillListed(s: seq<Node>, m: Store, m': Store)
    requires Listed(s, m) && SameOn(Elements(s), m, m')
    ensures Listed(s, m')
  {
    forall i | 0 <= i < |s| ensures LinkedAt(s, m', i) {
      assert LinkedAt(s, m, i) && s[i] in Elements(s);
    }
  }

  // ---------- Insertion

  lemma HeadInserted(s: seq<Node>, item: Node, m: Store, m': Store)
    requires Listed(s, m) && item !in s && item in m' && m'[item].next == Head(s)
    requires s != [] ==> s[0] in m' && m'[s[0]] == m[s[0]].(prev := item)
    requires SameOn(m.Keys - (if s == [] then {item} else {item, s[0]}), m, m')
    ensures Listed([item] + s, m')
  {
    var t := [item] + s;
    forall i | 0 <= i < |t|
      ensures LinkedAt(t, m', i)
    {
      if i > 0 {
        assert LinkedAt(s, m, i - 1);
        assert t[i] == s[i - 1] && t[i] != item && (i > 1 ==> s[i - 1] != s[0] && t[i - 1] == s[i - 2]);
      }
    }
  }

  /** dllist_insert_head */
  method InsertHead(head: Node?, item: Node, ghost s: seq<Node>, ghost m: Store) returns (head': Node, ghost m': Store)
    requires Holds(m) && Listed(s, m) && head == Head(s) && item !in s
    modifies m.Keys, item
    ensures Holds(m') && m'.Keys == m.Keys + {item} && SameOn(m.Keys - Elements(s) - {item}, m, m')
    ensures head' == item && Listed([item] + s, m')
  {
    item.prev := null;
    if head != null {
      head.prev := item;
    }
    item.next := head;
    m' := (if head != null then m[head := Contents(head)] else m)[item := Contents(item)];
    HeadInserted(s, item, m, m');
    head' := item;
  }

  lemma TailInserted(s: seq<Node>, item: Node, m: Store, m': Store)
    requires s != [] && Listed(s, m) && item !in s && item in m' && m'[item] == Link(s[|s| - 1], null)
    requires var p := s[|s| - 1];
      p in m' && m'[p] == m[p].(next := item) && SameOn(m.Keys - {item, p}, m, m')
    ensures Listed(s + [item], m')
  {
    var t := s + [item];
    forall i | 0 <= i < |t| ensures LinkedAt(t, m', i) {
      if i < |s| {
        assert LinkedAt(s, m, i) && t[i] == s[i] && (i < |s| - 1 ==> s[i] != s[|s| - 1]);
      }
    }
  }

  /** dllist_insert_tail_unique: an item that is already there changes nothing. */
  method InsertTailUnique(head: Node?, item: Node, ghost s: seq<Node>, ghost m: Store)
    returns (head': Node, ghost m': Store)
    requires Holds(m) && Listed(s, m) && head == Head(s)
    modifies m.Keys, item
    ensures Holds(m') && m'.Keys == m.Keys + {item} && SameOn(m.Keys - Elements(s) - {item}, m, m')
    ensures var s' := if item in s then s else s + [item]; Listed(s', m') && head' == Head(s')
    ensures item in s ==> m' == m && unchanged(m.Keys)
  {
    if head == null {
      item.prev := null;
      item.next := null;
      m' := m[item := Contents(item)];
      head' := item;
      assert s + [item] == [item];
      return;
    }
    head' := head;
    m' := m;
    var p := head;
    ghost var i := 0;
    while p != item && p.next != null
      invariant 0 <= i < |s| && p == s[i] && item !in s[..i] && LinkedAt(s, m, i)
      decreases |s| - i
    {
      p := p.next;
      i := i + 1;
      assert LinkedAt(s, m, i);
    }
    if p == item {
      assert m'.Keys == m.Keys + {item};
      return;
    }
    assert LinkedAt(s, m, i);
    assert s == s[..i] + [p];
    item.next := null;
    item.prev := p;
    p.next := item;
    m' := m[p := Contents(p)][item := Contents(item)];
    TailInserted(s, item, m, m');
  }

  // ---------- Removal

  ghost function Without(s: seq<Node>, k: nat): seq<Node>
    requires k < |s|
  {
    s[..k] + s[k + 1..]
  }

  lemma Removed(s: seq<Node>, k: nat, m: Store, m': Store)
    requires Listed(s, m) && k < |s|
    requires k > 0 ==> s[k - 1] in m' && m'[s[k - 1]] == m[s[k - 1]].(next := m[s[k]].next)
    requires k > 0 && k + 1 < |s| ==> s[k + 1] in m' && m'[s[k + 1]] == m[s[k + 1]].(prev := s[k - 1])
    requires SameOn(m.Keys - (if k > 0 then {s[k - 1]} + (if k + 1 < |s| then {s[k + 1]} else {}) else {}), m, m')
    ensures Listed(Without(s, k), m')
  {
    var t := Without(s, k);
    forall i, j | 0 <= i < j < |t| ensures t[i] != t[j] {
      assert t[i] == s[if i < k then i else i + 1] && t[j] == s[if j < k then j else j + 1];
    }
    forall i | 0 <= i < |t|
      ensures LinkedAt(t, m', i)
    {
      var a := if i < k then i else i + 1;
      assert t[i] == s[a];
      assert LinkedAt(s, m, a);
      assert LinkedAt(s, m, k);
      if i + 1 < |t| { assert t[i + 1] == s[if i + 1 < k then i + 1 else i + 2]; }
      if i > 0 { assert t[i - 1] == s[if i - 1 < k then i - 1 else i]; }
      assert k > 0 && a != k - 1 ==> s[a] != s[k - 1];
      assert k + 1 < |s| && a != k + 1 ==> s[a] != s[k + 1];
    }
  }

  /** dllist_remove_ref, for an item of the list or an empty list; the item keeps its own links. */
  method RemoveRef(head: Node?, p: Node, ghost s: seq<Node>, ghost k: nat, ghost m: Store)
    returns (head': Node?, ghost m': Store)
    requires Holds(m) && Listed(s, m) && head == Head(s) && (s != [] ==> k < |s| && s[k] == p)
    modifies m.Keys
    ensures Holds(m') && m'.Keys == m.Keys && SameOn(m.Keys - (Elements(s) - {p}), m, m')
    ensures var s' := if s == [] then [] else Without(s, k); Listed(s', m') && head' == Head(s')
  {
    m' := m;
    if head == null {
      return null, m;
    }
    assert LinkedAt(s, m, k);
    if head == p {
      assert k == 0;
      head' := p.next;
      Removed(s, k, m, m');
      return;
    }
    head' := head;
    assert LinkedAt(s, m, k - 1);
    var prev, next := p.prev, p.next;
    assert prev == s[k - 1] && (next != null ==> next == s[k + 1] && next != prev && next in m);
    if prev != null {
      prev.next := p.next;
    }
    if p.next != null {
      p.next.prev := p.prev;
    }
    m' := m[prev := Contents(prev)];
    if next != null { m' := m'[next := Contents(next)]; }
    Removed(s, k, m, m');
  }

  /** dllist_count */
  method Count(head: Node?, ghost s: seq<Node>, ghost m: Store) returns (n: nat)
    requires Holds(m) && Listed(s, m) && head == Head(s)
    ensures n == |s|
  {
    n := 0;
    var p := head;
    while p != null
      invariant n <= |s| && p == if n < |s| then s[n] else null
      decreases |s| - n
    {
      assert LinkedAt(s, m, n);
      n := n + 1;
      p := p.next;
    }
  }
}
