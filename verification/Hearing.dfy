/** Readers that make their callbacks later, or for more bytes at a time, than the bytes come. */
module Hearing {
  import opened ByteStream

  /** What calls tell, one event after the other. */
  function Heard<C, E>(told: C -> seq<E>, cs: seq<C>): seq<E> {
    if cs == [] then [] else Heard(told, cs[..|cs| - 1]) + told(cs[|cs| - 1])
  }

  lemma HeardOne<C, E>(told: C -> seq<E>, cs: seq<C>, c: C)
    ensures Heard(told, cs + [c]) == Heard(told, cs) + told(c)
  {
    assert (cs + [c])[..|cs|] == cs;
  }

  /** A call for each event. */
  function CallsFor<C, E>(call: E -> C, es: seq<E>): seq<C> {
    if es == [] then [] else CallsFor(call, es[..|es| - 1]) + [call(es[|es| - 1])]
  }

  lemma {:induction false} HeardFor<C, E>(told: C -> seq<E>, call: E -> C, cs: seq<C>, es: seq<E>)
    requires forall i :: 0 <= i < |es| ==> told(call(es[i])) == [es[i]]
    ensures Heard(told, cs + CallsFor(call, es)) == Heard(told, cs) + es
  {
    if es == [] {
      assert cs + [] == cs;
    } else {
      var front, e := es[..|es| - 1], es[|es| - 1];
      HeardFor(told, call, cs, front);
      HeardOne(told, cs + CallsFor(call, front), call(e));
      assert cs + CallsFor(call, es) == (cs + CallsFor(call, front)) + [call(e)];
      assert es == front + [e];
    }
  }

  lemma Join<E>(a: seq<E>, b: seq<E>, c: seq<E>)
    ensures (a + b) + c == a + (b + c)
  {}

  // ---------- How far a reader has come

  /** An outcome after `h` has been told. */
  function After<P, E>(h: seq<E>, o: Out<P, E>): Out<P, E> { o.(events := h + o.events) }

  /** To ask what a run is. */
  predicate Asked<P>(p: P, s: seq<Byte>) { true }

  /** `run` is the run of `step`. */
  ghost predicate Runs<P(!new), E>(run: (P, seq<Byte>) -> Out<P, E>, step: (P, Byte) -> Out<P, E>) {
    forall p: P, s: seq<Byte> {:trigger Asked(p, s)} :: Asked(p, s) ==> run(p, s) == Run(step, p, s)
  }

  ghost function Runner<P(!new), E>(step: (P, Byte) -> Out<P, E>): (run: (P, seq<Byte>) -> Out<P, E>)
    ensures Runs(run, step)
  {
    (p: P, s: seq<Byte>) => Run(step, p, s)
  }

  /** After `h0`, the buffer `d` tells `told` and then what `rest` tells from `p` on. */
  ghost predicate Sofar<P, E>(run: (P, seq<Byte>) -> Out<P, E>, p0: P, d: seq<Byte>, h0: seq<E>, p: P, told: seq<E>,
                              rest: seq<Byte>) {
    After(h0, run(p0, d)) == After(told, run(p, rest))
  }

  /** After `h0`, the buffer tells `told`, and that is all. */
  ghost predicate Tells<P, E>(o: Out<P, E>, h0: seq<E>, p: P, told: seq<E>, status: Status) {
    After(h0, o) == Out(p, told, status)
  }

  lemma SofarStep<P(!new), E>(run: (P, seq<Byte>) -> Out<P, E>, step: (P, Byte) -> Out<P, E>, p0: P, d: seq<Byte>,
                    h0: seq<E>,
                              p: P, told: seq<E>, rest: seq<Byte>, o: Out<P, E>, told': seq<E>)
    requires Runs(run, step) && Sofar(run, p0, d, h0, p, told, rest)
    requires rest != [] && o == step(p, rest[0]) && told' == told + o.events
    ensures o.status == Going ==> Sofar(run, p0, d, h0, o.p, told', rest[1..])
    ensures o.status != Going ==> Tells(run(p0, d), h0, o.p, told', o.status)
  {
    assert Asked(p, rest) && Asked(o.p, rest[1..]);
    if o.status == Going { Join(told, o.events, Run(step, o.p, rest[1..]).events); }
  }

  lemma SofarRun<P(!new), E>(run: (P, seq<Byte>) -> Out<P, E>, step: (P, Byte) -> Out<P, E>, p0: P, d: seq<Byte>,
                   h0: seq<E>,
                             p: P, told: seq<E>, s: seq<Byte>, rest: seq<Byte>, all: seq<Byte>, o: Out<P, E>,
                             told': seq<E>)
    requires Runs(run, step) && Sofar(run, p0, d, h0, p, told, all)
    requires all == s + rest && o == run(p, s) && told' == told + o.events
    ensures o.status == Going ==> Sofar(run, p0, d, h0, o.p, told', rest)
    ensures o.status != Going ==> Tells(run(p0, d), h0, o.p, told', o.status)
  {
    assert Asked(p, all) && Asked(p, s) && Asked(o.p, rest);
    RunConcat(step, p, s, rest);
    if o.status == Going { Join(told, o.events, Run(step, o.p, rest).events); }
  }

  lemma SofarEnd<P(!new), E>(run: (P, seq<Byte>) -> Out<P, E>, step: (P, Byte) -> Out<P, E>, p0: P, d: seq<Byte>,
                   h0: seq<E>,
                             p: P, told: seq<E>)
    requires Runs(run, step) && Sofar(run, p0, d, h0, p, told, [])
    ensures Tells(run(p0, d), h0, p, told, Going)
  {
    assert Asked(p, []);
    assert told + [] == told;
  }
}
