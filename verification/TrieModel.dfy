/** The subscription index as a value: a map from the path of every trie node to the list that the
    node carries. */
module TrieModel {
  import opened Topic

  type Lists<T> = map<Str, seq<T>>

  function Up(k: Str): Str
    requires k != []
  {
    k[..|k| - 1]
  }

  /** With a node its ancestors are there. */
  ghost predicate Closed(ks: set<Str>) { forall k {:trigger Up(k)} :: k in ks && k != [] ==> Up(k) in ks }

  ghost predicate HasChild<T>(m: Lists<T>, k: Str) { exists b: Byte :: k + [b] in m }

  /** No node is there for nothing. */
  ghost predicate Canonical<T>(m: Lists<T>) { forall k :: k in m ==> m[k] != [] || HasChild(m, k) }

  function Get<T>(m: Lists<T>, k: Str): seq<T> { if k in m then m[k] else [] }

  lemma {:induction false} ClosedPrefix(ks: set<Str>, k: Str, i: nat)
    requires Closed(ks) && k in ks && i <= |k|
    ensures k[..i] in ks
    decreases |k| - i
  {
    if i < |k| {
      ClosedPrefix(ks, k, i + 1);
      assert Up(k[..i + 1]) == k[..i];
    } else {
      assert k[..i] == k;
    }
  }

  // ---------- Insertion

  function Prefixes(s: Str): (r: set<Str>)
    ensures forall k :: k in r <==> k <= s
  {
    assert forall k: Str :: k <= s ==> k == s[..|k|];
    set i | 0 <= i <= |s| :: s[..i]
  }

  function Append<T(==)>(q: seq<T>, x: T): seq<T> { if x in q then q else q + [x] }

  function Insert<T(==)>(m: Lists<T>, s: Str, x: T): Lists<T> {
    map k | k in m.Keys + Prefixes(s) :: if k == s then Append(Get(m, s), x) else Get(m, k)
  }

  lemma InsertClosed<T>(m: Lists<T>, s: Str, x: T)
    requires Closed(m.Keys)
    ensures Closed(Insert(m, s, x).Keys)
  {}

  lemma InsertCanonical<T>(m: Lists<T>, s: Str, x: T)
    requires Canonical(m)
    ensures Canonical(Insert(m, s, x))
  {
    var m' := Insert(m, s, x);
    forall k | k in m' ensures m'[k] != [] || HasChild(m', k) {
      if k <= s && k != s {
        assert k + [s[|k|]] == s[..|k| + 1] && k + [s[|k|]] in m';
      } else if k != s && m[k] == [] {
        var b: Byte :| k + [b] in m;
        assert k + [b] in m';
      }
    }
  }

  // ---------- Deletion

  function Remove<T(==)>(q: seq<T>, x: T): seq<T> {
    if q == [] then [] else if q[0] == x then q[1..] else [q[0]] + Remove(q[1..], x)
  }

  /** A node with an empty list and no child goes, and then perhaps its parent. */
  ghost function Prune<T>(m: Lists<T>, k: Str): Lists<T>
    decreases |k|
  {
    if k !in m || m[k] != [] || HasChild(m, k) then m
    else if k == [] then m - {k}
    else Prune(m - {k}, Up(k))
  }

  ghost function Delete<T>(m: Lists<T>, s: Str, x: T): Lists<T> {
    if s !in m then m else Prune(m[s := Remove(m[s], x)], s)
  }

  /** Pruning leaves every list as it is. */
  lemma {:induction false} PruneItems<T>(m: Lists<T>, k: Str)
    ensures Prune(m, k).Keys <= m.Keys
    ensures forall j :: Get(Prune(m, k), j) == Get(m, j)
    decreases |k|
  {
    if !(k !in m || m[k] != [] || HasChild(m, k)) && k != [] {
      PruneItems(m - {k}, Up(k));
    }
  }

  /** Pruning from the one node that may be there for nothing restores the canonical form. */
  lemma {:induction false} PruneCanonical<T>(m: Lists<T>, k: Str)
    requires Closed(m.Keys) && forall j :: j in m && j != k ==> m[j] != [] || HasChild(m, j)
    ensures Closed(Prune(m, k).Keys) && Canonical(Prune(m, k))
    decreases |k|
  {
    if k in m && m[k] == [] && !HasChild(m, k) {
      var m' := m - {k};
      forall j | j in m' && j != [] ensures Up(j) in m' {
        assert Up(j) + [j[|j| - 1]] == j;
      }
      forall j | j in m' && (k == [] || j != Up(k)) ensures m'[j] != [] || HasChild(m', j) {
        if m[j] == [] {
          var b: Byte :| j + [b] in m;
          assert Up(j + [b]) == j;
          assert j + [b] in m';
        }
      }
      if k == [] {
        forall j | j in m' ensures false { assert [] + [j[0]] == j[..1]; ClosedPrefix(m.Keys, j, 1); }
      } else {
        PruneCanonical(m', Up(k));
      }
    }
  }

  lemma {:induction false} DeleteCanonical<T>(m: Lists<T>, s: Str, x: T)
    requires Closed(m.Keys) && Canonical(m)
    ensures Closed(Delete(m, s, x).Keys) && Canonical(Delete(m, s, x))
  {
    if s in m {
      var m' := m[s := Remove(m[s], x)];
      forall j | j in m' && j != s ensures m'[j] != [] || HasChild(m', j) {
        if m[j] == [] {
          var b: Byte :| j + [b] in m;
          assert j + [b] in m';
        }
      }
      PruneCanonical(m', s);
    }
  }

  /** A deletion takes the item out of the one list and touches nothing else. */
  lemma {:induction false} DeleteItems<T>(m: Lists<T>, s: Str, x: T)
    ensures forall k :: Get(Delete(m, s, x), k) == if k == s then Remove(Get(m, s), x) else Get(m, k)
  {
    if s in m { PruneItems(m[s := Remove(m[s], x)], s); }
  }

  // ---------- Deletion undoes insertion

  lemma {:induction false} RemoveLast<T>(q: seq<T>, x: T)
    requires x !in q
    ensures Remove(q + [x], x) == q
  {
    if q != [] {
      RemoveLast(q[1..], x);
      assert (q + [x])[1..] == q[1..] + [x];
    }
  }

  /** `m` with the nodes on the way to `s`, down to length `i`, that it does not have. */
  function Extended<T>(m: Lists<T>, s: Str, i: nat): Lists<T>
    requires i <= |s|
  {
    map k | k in m.Keys + Prefixes(s[..i]) :: Get(m, k)
  }

  lemma {:induction false} PruneExtended<T>(m: Lists<T>, s: Str, i: nat)
    requires Closed(m.Keys) && Canonical(m) && i <= |s|
    ensures Prune(Extended(m, s, i), s[..i]) == m
    decreases i
  {
    var k, e := s[..i], Extended(m, s, i);
    if k in m {
      forall j | j <= k ensures j in m { ClosedPrefix(m.Keys, k, |j|); assert j == k[..|j|]; }
      assert e == m;
    } else {
      forall b: Byte ensures k + [b] !in e {
        if k + [b] in m { assert (k + [b])[..i] == k; ClosedPrefix(m.Keys, k + [b], i); }
      }
      assert e[k] == [] && !HasChild(e, k);
      if i == 0 {
        forall j | j in m ensures false { assert j[..0] == k; ClosedPrefix(m.Keys, j, 0); }
        assert e - {k} == m;
      } else {
        assert Up(k) == s[..i - 1];
        var e' := Extended(m, s, i - 1);
        forall j ensures j in e - {k} <==> j in e' {
          if j <= k && j != k { assert j <= s[..i - 1]; }
        }
        assert e - {k} == e';
        PruneExtended(m, s, i - 1);
      }
    }
  }

  /** Deleting a freshly inserted item gives back the index as it was, lists and nodes. */
  lemma {:induction false} DeleteInsert<T>(m: Lists<T>, s: Str, x: T)
    requires Closed(m.Keys) && Canonical(m) && x !in Get(m, s)
    ensures Delete(Insert(m, s, x), s, x) == m
  {
    var m' := Insert(m, s, x);
    RemoveLast(Get(m, s), x);
    assert s[..|s|] == s;
    assert m'[s := Remove(m'[s], x)] == Extended(m, s, |s|);
    PruneExtended(m, s, |s|);
  }

  // ---------- The shape follows from the items

  /** Below every node of a canonical index there is an item. */
  lemma {:induction false} Deepest<T>(m: Lists<T>, k: Str) returns (j: Str)
    requires Canonical(m) && k in m
    ensures k <= j && j in m && m[j] != []
    decreases m.Keys - Prefixes(k)
  {
    if m[k] != [] {
      j := k;
    } else {
      var b: Byte :| k + [b] in m;
      assert k + [b] in m.Keys - Prefixes(k) && k + [b] !in m.Keys - Prefixes(k + [b]);
      assert Prefixes(k) <= Prefixes(k + [b]);
      j := Deepest(m, k + [b]);
    }
  }

  lemma HasNode<T>(m: Lists<T>, m': Lists<T>, k: Str)
    requires Canonical(m) && k in m && Closed(m'.Keys) && forall j :: Get(m, j) == Get(m', j)
    ensures k in m'
  {
    var j := Deepest(m, k);
    assert Get(m', j) != [];
    ClosedPrefix(m'.Keys, j, |k|);
    assert j[..|k|] == k;
  }

  /** Two indexes with the same items have the same nodes, however they came about. */
  lemma CanonicalUnique<T>(m: Lists<T>, m': Lists<T>)
    requires Closed(m.Keys) && Canonical(m) && Closed(m'.Keys) && Canonical(m')
    requires forall k :: Get(m, k) == Get(m', k)
    ensures m == m'
  {
    forall k ensures k in m <==> k in m' {
      if k in m { HasNode(m, m', k); }
      if k in m' { HasNode(m', m, k); }
    }
    assert m.Keys == m'.Keys;
    forall k | k in m ensures m[k] == m'[k] { assert Get(m, k) == Get(m', k); }
  }

  // ---------- Runs

  datatype Op<T> = Subscribe(filter: Str, item: T) | Unsubscribe(filter: Str, item: T)

  ghost function Apply<T>(m: Lists<T>, op: Op<T>): Lists<T> {
    match op
    case Subscribe(f, x) => Insert(m, f, x)
    case Unsubscribe(f, x) => Delete(m, f, x)
  }

  ghost function After<T>(ops: seq<Op<T>>): Lists<T> {
    if ops == [] then map[] else Apply(After(ops[..|ops| - 1]), ops[|ops| - 1])
  }

  /** The list of filter `k` as the operations on `k` alone make it. */
  ghost function ListAfter<T>(ops: seq<Op<T>>, k: Str): seq<T> {
    if ops == [] then [] else
    var q, op := ListAfter(ops[..|ops| - 1], k), ops[|ops| - 1];
    if op.filter != k then q
    else if op.Subscribe? then Append(q, op.item)
    else Remove(q, op.item)
  }

  /** After any run every list is what its own filter's operations made it, and no node is there for nothing. */
  lemma {:induction false} RunIndex<T>(ops: seq<Op<T>>)
    ensures Closed(After(ops).Keys) && Canonical(After(ops))
    ensures forall k :: Get(After(ops), k) == ListAfter(ops, k)
  {
    if ops != [] {
      var before, op := ops[..|ops| - 1], ops[|ops| - 1];
      RunIndex(before);
      match op
      case Subscribe(f, x) =>
        InsertClosed(After(before), f, x);
        InsertCanonical(After(before), f, x);
        assert f in Prefixes(f);
      case Unsubscribe(f, x) =>
        DeleteCanonical(After(before), f, x);
        DeleteItems(After(before), f, x);
    }
  }

  /** The index depends on what is subscribed, not on how that came about. */
  lemma HistoryIndependent<T>(ops: seq<Op<T>>, ops': seq<Op<T>>)
    requires forall k :: ListAfter(ops, k) == ListAfter(ops', k)
    ensures After(ops) == After(ops')
  {
    RunIndex(ops);
    RunIndex(ops');
    forall k ensures Get(After(ops), k) == Get(After(ops'), k) {
      assert ListAfter(ops, k) == ListAfter(ops', k);
    }
    CanonicalUnique(After(ops), After(ops'));
  }
}
