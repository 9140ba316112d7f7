/** The value of a Content-Length header (http_parser.c): digits, then spaces. */
module HttpLength {
  import opened ByteStream
  import opened HttpBody
  import D = Decimal

  const UNEXPECTED_CONTENT_LENGTH := 5

  /** `seen` is the flag F_CONTENTLENGTH. */
  datatype Field = Field(at: Place, value: nat, seen: bool)

  datatype Place = Before | Digits | Spaces

  type Outcome = Out<Field, ()>

  function StepBefore(f: Field, b: Byte): Outcome {
    if !D.IsNum(b) then Out(f, [], Refused(HPE_INVALID_CONTENT_LENGTH))
    else if f.seen then Out(f, [], Refused(UNEXPECTED_CONTENT_LENGTH))
    else Out(Field(Digits, b - 48, true), [], Going)
  }

  function StepDigits(f: Field, b: Byte): Outcome {
    if b == SPACE then Out(f.(at := Spaces), [], Going)
    else if !D.IsNum(b) then Out(f, [], Refused(HPE_INVALID_CONTENT_LENGTH))
    else if (ULLONG_MAX - 10) / 10 < f.value then Out(f, [], Refused(HPE_INVALID_CONTENT_LENGTH))
    else Out(f.(value := (f.value * 10 + (b - 48)) % 0x1_0000_0000_0000_0000), [], Going)
  }

  function Read(f: Field, b: Byte): Outcome {
    match f.at
    case Before => StepBefore(f, b)
    case Digits => StepDigits(f, b)
    case Spaces => if b == SPACE then Out(f, [], Going) else Out(f, [], Refused(HPE_INVALID_CONTENT_LENGTH))
  }

  /** The test against the conservative limit is a test of the new value. */
  lemma Limit10(n: nat, v: nat)
    requires v < 10
    ensures (ULLONG_MAX - 10) / 10 < n <==> n * 10 + v > ULLONG_MAX - 6
  {}

  lemma DigitRead(f: Field, d: Byte)
    requires f.at == Digits && D.IsNum(d)
    ensures var n := f.value * 10 + (d - 48);
      Read(f, d) == if n <= ULLONG_MAX - 6 then Out(f.(value := n), [], Going)
        else Out(f, [], Refused(HPE_INVALID_CONTENT_LENGTH))
  {
    Limit10(f.value, d - 48);
  }

  /** Digits give their value if it is at most ULLONG_MAX - 6, so that it is never the sentinel, and
      are refused otherwise. */
  lemma {:induction false} LengthExactly(f: Field, s: seq<Byte>)
    requires f.at == Before && !f.seen && s != [] && D.Digits(s)
    ensures var o := Run(Read, f, s);
      if D.Value(s) <= ULLONG_MAX - 6 then o == Out(Field(Digits, D.Value(s), true), [], Going)
      else o.status == Refused(HPE_INVALID_CONTENT_LENGTH)
    decreases |s|
  {
    var front, d := s[..|s| - 1], s[|s| - 1];
    assert s == front + [d];
    if front == [] {
      assert s == [d] && D.Value(front) == 0;
      RunOne(Read, f, d);
    } else {
      LengthExactly(f, front);
      var f' := Field(Digits, D.Value(front), true);
      if D.Value(front) <= ULLONG_MAX - 6 {
        RunOn(Read, f, front, f', [d]);
        RunOne(Read, f', d);
        DigitRead(f', d);
      } else {
        RunConcat(Read, f, front, [d]);
      }
    }
  }
}
