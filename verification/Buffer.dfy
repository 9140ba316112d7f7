/** Writing into a caller's buffer at an advancing position. */
module Buffer {
  import opened ByteStream

  /** The buffer `b` with `s` written at `at`. */
  function Written(b: seq<Byte>, at: nat, s: seq<Byte>): seq<Byte>
    requires at + |s| <= |b|
  {
    b[..at] + s + b[at + |s|..]
  }

  lemma WrittenTwice(b: seq<Byte>, at: nat, s: seq<Byte>, t: seq<Byte>)
    requires at + |s| + |t| <= |b|
    ensures Written(Written(b, at, s), at + |s|, t) == Written(b, at, s + t)
  {}

  lemma WrittenByte(b: seq<Byte>, b': seq<Byte>, at: nat, s: seq<Byte>, i: nat)
    requires i < |s| && at + |s| <= |b| && b' == Written(b, at, s[..i])[at + i := s[i]]
    ensures b' == Written(b, at, s[..i + 1])
  {
    assert s[..i + 1] == s[..i] + [s[i]];
  }

  /** memcpy to the write position */
  method Copy(buf: array<Byte>, at: nat, s: seq<Byte>) returns (ptr: nat)
    requires at + |s| <= buf.Length
    modifies buf
    ensures ptr == at + |s| && buf[..] == Written(old(buf[..]), at, s)
  {
    ghost var b := buf[..];
    var i := 0;
    assert b == Written(b, at, s[..0]);
    while i < |s|
      invariant i <= |s| && buf[..] == Written(b, at, s[..i])
    {
      ghost var before := buf[..];
      buf[at + i] := s[i];
      assert buf[..] == before[at + i := s[i]];
      WrittenByte(b, buf[..], at, s, i);
      i := i + 1;
    }
    assert s[..i] == s;
    ptr := at + |s|;
  }
}
