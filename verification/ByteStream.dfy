/** Parsers that take a stream byte by byte and may stop at a byte: what a buffer does, and that it
    makes no difference where buffers end. */
module ByteStream {

  type Byte = b: int | 0 <= b < 256

  /** Refused is the return of an error, Closed a return that drops the rest of the buffer. */
  datatype Status = Going | Refused(code: int) | Closed | Unmodelled

  datatype Out<P, E> = Out(p: P, events: seq<E>, status: Status)

  /** A buffer read from parser state `p`. */
  ghost function Run<P, E>(step: (P, Byte) -> Out<P, E>, p: P, s: seq<Byte>): Out<P, E>
    decreases |s|
  {
    if s == [] then Out(p, [], Going) else
    var o := step(p, s[0]);
    if o.status != Going then o else
    var r := Run(step, o.p, s[1..]);
    r.(events := o.events + r.events)
  }

  /** What a buffer adds to what went before. */
  ghost function Then<P, E>(step: (P, Byte) -> Out<P, E>, a: Out<P, E>, s: seq<Byte>): Out<P, E> {
    if a.status != Going then a else
    var r := Run(step, a.p, s);
    r.(events := a.events + r.events)
  }

  lemma {:induction false} RunConcat<P, E>(step: (P, Byte) -> Out<P, E>, p: P, a: seq<Byte>, b: seq<Byte>)
    ensures Run(step, p, a + b) == Then(step, Run(step, p, a), b)
    decreases |a|
  {
    if a == [] {
      assert a + b == b;
      assert [] + Run(step, p, b).events == Run(step, p, b).events;
    } else {
      assert (a + b)[1..] == a[1..] + b;
      var o := step(p, a[0]);
      if o.status == Going {
        RunConcat(step, o.p, a[1..], b);
        var x := Run(step, o.p, a[1..]);
        if x.status == Going {
          assert o.events + (x.events + Run(step, x.p, b).events) == (o.events + x.events) + Run(step, x.p, b).events;
        }
      }
    }
  }

  /** Buffers read one after the other, until one of them stops the parser. */
  ghost function RunAll<P, E>(step: (P, Byte) -> Out<P, E>, p: P, bufs: seq<seq<Byte>>): Out<P, E> {
    if bufs == [] then Out(p, [], Going) else Then(step, RunAll(step, p, bufs[..|bufs| - 1]), bufs[|bufs| - 1])
  }

  function Concat(bufs: seq<seq<Byte>>): seq<Byte> {
    if bufs == [] then [] else Concat(bufs[..|bufs| - 1]) + bufs[|bufs| - 1]
  }

  /** However a stream is cut into buffers, the parser does what it does on the uncut stream. */
  lemma {:induction false} CutAnywhere<P, E>(step: (P, Byte) -> Out<P, E>, p: P, bufs: seq<seq<Byte>>)
    ensures RunAll(step, p, bufs) == Run(step, p, Concat(bufs))
  {
    if bufs != [] {
      var front := bufs[..|bufs| - 1];
      CutAnywhere(step, p, front);
      RunConcat(step, p, Concat(front), bufs[|bufs| - 1]);
    }
  }

  /** The buffers after one that stops the parser are not read. */
  lemma {:induction false} StopsThere<P, E>(step: (P, Byte) -> Out<P, E>, p: P, bufs: seq<seq<Byte>>, i: nat)
    requires i <= |bufs| && RunAll(step, p, bufs[..i]).status != Going
    ensures RunAll(step, p, bufs) == RunAll(step, p, bufs[..i])
    decreases |bufs|
  {
    if i < |bufs| {
      var front := bufs[..|bufs| - 1];
      assert front[..i] == bufs[..i];
      StopsThere(step, p, front, i);
    } else {
      assert bufs[..i] == bufs;
    }
  }

  /** One byte more. */
  lemma ThenStep<P, E>(step: (P, Byte) -> Out<P, E>, p: P, done: seq<E>, s: seq<Byte>)
    requires s != []
    ensures var o := step(p, s[0]);
      Then(step, Out(p, done, Going), s) == Then(step, Out(o.p, done + o.events, o.status), s[1..])
  {
    var o := step(p, s[0]);
    if o.status == Going {
      assert done + (o.events + Run(step, o.p, s[1..]).events) == (done + o.events) + Run(step, o.p, s[1..]).events;
    }
  }

  /** A parser at work: its state and the events raised so far. */
  class Reader<P(0), E> {
    const step: (P, Byte) -> Out<P, E>
    var parser: P
    var events: seq<E>

    constructor (step: (P, Byte) -> Out<P, E>, p: P)
      ensures this.step == step && parser == p && events == []
    {
      this.step := step;
      parser, events := p, [];
    }

    /** The loop over a buffer. */
    method Execute(buf: seq<Byte>) returns (status: Status)
      modifies this
      ensures var o := Run(step, old(parser), buf);
        parser == o.p && events == old(events) + o.events && status == o.status
    {
      ghost var whole, done := Run(step, parser, buf), [];
      var i := 0;
      assert buf[0..] == buf && [] + whole.events == whole.events;
      while i < |buf|
        invariant 0 <= i <= |buf| && events == old(events) + done
        invariant whole == Then(step, Out(parser, done, Going), buf[i..])
      {
        var o := step(parser, buf[i]);
        ThenStep(step, parser, done, buf[i..]);
        assert buf[i..][1..] == buf[i + 1..];
        parser, events, done := o.p, events + o.events, done + o.events;
        if o.status != Going {
          return o.status;
        }
        i := i + 1;
      }
      assert done + [] == done;
      return Going;
    }
  }

  // ---------- Short stretches

  lemma RunOne<P, E>(step: (P, Byte) -> Out<P, E>, p: P, b: Byte)
    ensures Run(step, p, [b]) == step(p, b)
  {
    var o := step(p, b);
    assert [b][1..] == [];
    assert o.events + [] == o.events;
  }

  lemma RunTwo<P, E>(step: (P, Byte) -> Out<P, E>, p: P, a: Byte, p': P, b: Byte, o: Out<P, E>)
    requires step(p, a) == Out(p', [], Going) && step(p', b) == o
    ensures Run(step, p, [a, b]) == o
  {
    RunOne(step, p, a);
    RunOne(step, p', b);
    RunConcat(step, p, [a], [b]);
    assert [a] + [b] == [a, b];
    assert [] + o.events == o.events;
  }

  /** A stretch that raises nothing, and what follows it. */
  lemma RunOn<P, E>(step: (P, Byte) -> Out<P, E>, p: P, a: seq<Byte>, p': P, b: seq<Byte>)
    requires Run(step, p, a) == Out(p', [], Going)
    ensures Run(step, p, a + b) == Run(step, p', b)
  {
    RunConcat(step, p, a, b);
    assert [] + Run(step, p', b).events == Run(step, p', b).events;
  }
}
