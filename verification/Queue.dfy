/** The intrusive queue of the workers (queue.c). */
module Queue {

  class Item {
    var next: Item?

    constructor () { next := null; }
  }

  type Store = map<Item, Item?>

  ghost predicate Holds(m: Store)
    reads m.Keys
  {
    forall n :: n in m ==> n.next == m[n]
  }

  ghost predicate Distinct(s: seq<Item>) { forall i, j :: 0 <= i < j < |s| ==> s[i] != s[j] }

  ghost predicate LinkedAt(s: seq<Item>, m: Store, i: nat)
    requires i < |s|
  {
    s[i] in m && m[s[i]] == if i + 1 < |s| then s[i + 1] else null
  }

  /** The items are linked one to the next, and `head` and `tail` are the ends. */
  ghost predicate Chained(head: Item?, tail: Item?, s: seq<Item>, m: Store) {
    && Distinct(s) && (forall i :: 0 <= i < |s| ==> LinkedAt(s, m, i))
    && (if s == [] then head == tail == null else head == s[0] && tail == s[|s| - 1])
  }

  lemma Pushed(head: Item?, tail: Item?, s: seq<Item>, m: Store, item: Item, m': Store)
    requires Chained(head, tail, s, m) && item !in s
    requires m' == (if s == [] then m else m[s[|s| - 1] := item])[item := null]
    ensures Chained(if s == [] then item else head, item, s + [item], m')
  {
    var t := s + [item];
    forall i | 0 <= i < |t| ensures LinkedAt(t, m', i) {
      if i < |s| { assert LinkedAt(s, m, i) && (i < |s| - 1 ==> s[i] != s[|s| - 1]); }
    }
  }

  lemma Popped(head: Item?, tail: Item?, s: seq<Item>, m: Store)
    requires Chained(head, tail, s, m) && s != []
    ensures head in m && (m[head] == null <==> |s| == 1)
    ensures Chained(m[head], if |s| == 1 then null else tail, s[1..], m)
  {
    assert LinkedAt(s, m, 0);
    forall i | 0 <= i < |s| - 1 ensures LinkedAt(s[1..], m, i) { assert LinkedAt(s, m, i + 1); }
  }

  class Queue {
    var head: Item?
    var tail: Item?
    ghost var items: seq<Item>
    ghost var links: Store

    ghost predicate Valid()
      reads this, links.Keys
    {
      Holds(links) && Chained(head, tail, items, links)
    }

    /** queue_init */
    constructor ()
      ensures Valid() && items == [] && links == map[]
    {
      head, tail, items, links := null, null, [], map[];
    }

    /** queue_push */
    method Push(item: Item)
      requires Valid() && item !in items
      modifies this, links.Keys, item
      ensures Valid() && items == old(items) + [item] && links.Keys == old(links.Keys) + {item}
    {
      ghost var m := (if items == [] then links else links[tail := item])[item := null];
      Pushed(head, tail, items, links, item, m);
      assert items != [] ==> LinkedAt(items, links, |items| - 1);
      item.next := null;
      if head == null {
        head := item;
        tail := item;
      } else {
        tail.next := item;
        tail := item;
      }
      items, links := items + [item], m;
    }

    /** queue_pop: the item that has been there longest, or null. */
    method Pop() returns (item: Item?)
      requires Valid()
      modifies this
      ensures Valid() && links == old(links)
      ensures if old(items) == [] then item == null && items == []
              else item == old(items)[0] && items == old(items)[1..]
    {
      if head == null {
        return null;
      }
      Popped(head, tail, items, links);
      item := head;
      if head.next != null {
        head := head.next;
      } else {
        head, tail := null, null;
      }
      items := items[1..];
    }

    /** queue_peek */
    method Peek() returns (item: Item?)
      requires Valid()
      ensures item == if items == [] then null else items[0]
    {
      item := head;
    }
  }
}
