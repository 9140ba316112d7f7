/** Numbers in decimal digits. */
module Decimal {
  import opened ByteStream

  predicate IsNum(b: Byte) { 48 <= b <= 57 }

  lemma NumExactly(b: Byte, v: nat)
    requires v < 10
    ensures IsNum(b) && b - 48 == v <==> b as char == "0123456789"[v]
  {}

  predicate Digits(s: seq<Byte>) { forall i :: 0 <= i < |s| ==> IsNum(s[i]) }

  function Value(s: seq<Byte>): nat
    requires Digits(s)
  {
    if s == [] then 0 else Value(s[..|s| - 1]) * 10 + (s[|s| - 1] - 48)
  }

  /** One digit more. */
  lemma ValueMore(s: seq<Byte>, d: Byte)
    requires Digits(s) && IsNum(d)
    ensures Digits(s + [d]) && Value(s + [d]) == Value(s) * 10 + (d - 48)
  {
    assert (s + [d])[..|s|] == s;
  }

  lemma {:induction false} ValueGrows(s: seq<Byte>, n: nat)
    requires Digits(s) && n <= |s|
    ensures Value(s[..n]) <= Value(s)
    decreases |s|
  {
    if n < |s| {
      var front := s[..|s| - 1];
      assert front[..n] == s[..n];
      ValueGrows(front, n);
    } else {
      assert s[..n] == s;
    }
  }
}
