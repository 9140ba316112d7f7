/** The broker's subscriptions (subscription.c): the trie with the filter's "$local/" left off. */
module Subscription {
  import opened Topic
  import opened TrieModel
  import opened TrieSearch
  import opened Trie
  import opened TrieUpdate
  import L = DlList

  lemma StripOnly(filter: Str, f: Str)
    requires f == StripLocal(filter)
    ensures forall k :: Stripped(filter, k) <==> k == f
  {
    forall k ensures Stripped(filter, k) <==> k == f { StripExactly(filter, k); }
  }

  class Subscriptions {
    var root: Node?
    ghost var at: Places
    ghost var lists: Lists<L.Node>
    ghost var nodes: Store
    ghost var links: L.Store

    ghost predicate Valid()
      reads this, nodes.Keys, links.Keys
    {
      && Holds(nodes) && L.Holds(links)
      && Shaped(root, at, lists, nodes) && Hung(lists, links) && Canonical(lists)
    }

    constructor ()
      ensures Valid() && lists == map[] && nodes == map[] && links == map[]
    {
      root, at, lists, nodes, links := null, map[], map[], map[], map[];
    }

    /** sub_insert, for an item that hangs under no other filter. */
    method Add(filter: Str, item: L.Node)
      requires Valid() && forall k :: k in lists && !Stripped(filter, k) ==> item !in lists[k]
      modifies this, nodes.Keys, links.Keys, item
      ensures Valid() && Kept(old(at), at)
      ensures forall k :: Stripped(filter, k) ==> lists == Insert(old(lists), k, item)
      ensures fresh(nodes.Keys - old(nodes.Keys)) && links.Keys == old(links.Keys) + {item}
    {
      var f := StripLocal(filter);
      StripOnly(filter, f);
      ghost var ls := Insert(lists, f, item);
      InsertCanonical(lists, f, item);
      var r;
      ghost var at', m, lm;
      r, at', m, lm := InsertItem(root, f, item, at, lists, nodes, links);
      Set(r, at', ls, m, lm);
    }

    method Set(root': Node?, ghost at': Places, ghost lists': Lists<L.Node>, ghost nodes': Store, ghost links': L.Store)
      requires Holds(nodes') && L.Holds(links') && Shaped(root', at', lists', nodes') && Hung(lists', links') &&
               Canonical(lists')
      modifies this
      ensures Valid() && root == root' && at == at' && lists == lists' && nodes == nodes' && links == links'
    {
      root, at, lists, nodes, links := root', at', lists', nodes', links';
    }

    /** sub_remove, for an item of the filter's list or a filter that has none. */
    method Drop(filter: Str, item: L.Node)
      requires Valid() && forall k :: Stripped(filter, k) && Get(lists, k) != [] ==> item in lists[k]
      modifies this, nodes.Keys, links.Keys
      ensures Valid() && Kept(at, old(at))
      ensures forall k :: Stripped(filter, k) ==> lists == Delete(old(lists), k, item)
      ensures nodes.Keys == old(nodes.Keys) && links.Keys == old(links.Keys)
      ensures root == null <==> forall k :: Get(lists, k) == []
    {
      var f := StripLocal(filter);
      StripOnly(filter, f);
      ghost var ls := Delete(lists, f, item);
      DeleteCanonical(lists, f, item);
      var r;
      ghost var at', m, lm;
      r, at', m, lm := DeleteItem(root, f, item, at, lists, nodes, links);
      EmptyExactly(r, at', ls, m);
      Set(r, at', ls, m, lm);
    }

    /** sub_search; `found` stands for the calls of the callback, in order, and its length for the count
        of them.  An item under a well-formed filter is among them once if its filter matches. */
    method Lookup(topic: Str) returns (found: seq<L.Node>)
      requires Valid()
      ensures found == Reported(lists, topic)
      ensures Plain(topic) ==> ToldOnce(lists, topic, found)
    {
      found := SearchMqtt(root, topic, at, lists, nodes, links);
      if Plain(topic) { LookupTells(lists, links, topic); }
    }
  }

  /** The items under well-formed filters are told of a topic by the rules of section 4.7 of MQTT 3.1.1,
      but for what the index loses. */
  ghost predicate ToldOnce(ls: Lists<L.Node>, topic: Str, found: seq<L.Node>) {
    forall f, x :: f in ls && x in ls[f] && WellFormed(Levels(f)) ==>
      multiset(found)[x] == if Standard(f, topic) && !Lost(Levels(f), Levels(topic)) then 1 else 0
  }

  lemma {:induction false} OnceInList(s: seq<L.Node>, x: L.Node)
    requires L.Distinct(s)
    ensures multiset(s)[x] == if x in s then 1 else 0
  {
    if s != [] {
      var front, e := s[..|s| - 1], s[|s| - 1];
      assert s == front + [e];
      OnceInList(front, x);
    }
  }

  lemma ItemTold(ls: Lists<L.Node>, lm: L.Store, f: Str, x: L.Node, topic: Str)
    requires Closed(ls.Keys) && Hung(ls, lm) && Plain(topic) && f in ls && x in ls[f] && WellFormed(Levels(f))
    ensures multiset(Reported<L.Node>(ls, topic))[x] ==
            if Standard(f, topic) && !Lost(Levels(f), Levels(topic)) then 1 else 0
  {
    assert L.Listed(ls[f], lm);
    OnceInList(ls[f], x);
    forall j | j in ls && j != f ensures x !in ls[j] { assert x in L.Elements(ls[f]); }
    Delivered<L.Node>(ls, f, x, topic);
  }

  lemma LookupTells(ls: Lists<L.Node>, lm: L.Store, topic: Str)
    requires Closed(ls.Keys) && Hung(ls, lm) && Plain(topic)
    ensures ToldOnce(ls, topic, Reported<L.Node>(ls, topic))
  {
    forall f, x | f in ls && x in ls[f] && WellFormed(Levels(f))
      ensures multiset(Reported<L.Node>(ls, topic))[x] ==
              if Standard(f, topic) && !Lost(Levels(f), Levels(topic)) then 1 else 0
    {
      ItemTold(ls, lm, f, x, topic);
    }
  }

  lemma InsertedThere(ls: Lists<L.Node>, f: Str, item: L.Node)
    ensures f in Insert(ls, f, item) && item in Insert(ls, f, item)[f]
  {
    assert f in Prefixes(f);
  }

  /** Who has subscribed with `filter` is told of a topic once if the rules of section 4.7 say so of the filter
      without "$local/" and the index does not lose it, and otherwise not. */
  lemma SubscriberTold(ls: Lists<L.Node>, ls': Lists<L.Node>, lm': L.Store, filter: Str, f: Str, item: L.Node,
                       topic: Str)
    requires Stripped(filter, f) && ls' == Insert(ls, f, item) && Closed(ls'.Keys) && Hung(ls', lm')
    requires WellFormed(Levels(f)) && Plain(topic)
    ensures multiset(Reported<L.Node>(ls', topic))[item] ==
            if Standard(f, topic) && !Lost(Levels(f), Levels(topic)) then 1 else 0
  {
    InsertedThere(ls, f, item);
    ItemTold(ls', lm', f, item, topic);
  }

  /** The trie is gone just when nobody subscribes. */
  lemma EmptyExactly(root: Node?, at: Places, ls: Lists<L.Node>, m: Store)
    requires Shaped(root, at, ls, m) && Canonical(ls)
    ensures root == null <==> forall k :: Get(ls, k) == []
  {
    if root == null {
      Rootless(root, at, ls, m);
    } else {
      var j := Deepest(ls, []);
      assert Get(ls, j) != [];
    }
  }

  /** After an insertion and the matching deletion the same nodes stand at the same paths. */
  lemma NodesRestored(at: Places, at1: Places, at2: Places, ls: Lists<L.Node>, s: Str, p: L.Node)
    requires at.Keys == ls.Keys && Closed(ls.Keys) && Canonical(ls) && p !in Get(ls, s)
    requires Kept(at, at1) && Kept(at2, at1) && at2.Keys == Delete(Insert(ls, s, p), s, p).Keys
    ensures at2 == at && Delete(Insert(ls, s, p), s, p) == ls
  {
    DeleteInsert(ls, s, p);
  }
}
