/** Frame parsers: decoders that keep unconsumed input and loop over complete frames.

    A parser is `Stable` when a decision taken on the buffered bytes does not change once more bytes
    arrive, and every decision makes progress. Stable parsers are lawful incremental decoders. */
module Framing {
  import opened ByteStrings
  import opened Incremental

  /** One turn of the parsing loop: wait for input, raise, or consume `used` bytes. */
  datatype Step<S, O> = More | Fail | Next(state: S, used: nat, out: seq<O>)

  /** `rank` bounds the turns that consume nothing. */
  datatype Framer<!S, O> = Framer(step: (S, Bytes) -> Step<S, O>, rank: S -> nat)

  predicate Advances<S, O>(f: Framer<S, O>, s: S, buf: Bytes) {
    f.step(s, buf).Next? ==>
      var n := f.step(s, buf);
      n.used <= |buf| && (n.used > 0 || f.rank(n.state) < f.rank(s))
  }

  ghost predicate Stable<S(!new), O>(f: Framer<S, O>) {
    && (forall s, buf :: Advances(f, s, buf))
    && (forall s, buf, x :: !f.step(s, buf).More? ==> f.step(s, buf + x) == f.step(s, buf))
  }

  /** Turn after turn until the parser waits; a turn without progress would never end. */
  function Drain<S, O>(f: Framer<S, O>, s: S, buf: Bytes): Option<((S, Bytes), seq<O>)>
    decreases |buf|, f.rank(s)
  {
    match f.step(s, buf)
    case More => Some(((s, buf), []))
    case Fail => None
    case Next(t, used, out) =>
      if !Advances(f, s, buf) then None
      else
        Prefixed(out, Drain(f, t, buf[used..]))
  }

  function Framed<S, O>(f: Framer<S, O>): Decoder<(S, Bytes), O> {
    Decoder((st: (S, Bytes)) => f.step(st.0, st.1).More?,
            (st: (S, Bytes), a: Bytes) => Drain(f, st.0, st.1 + a))
  }

  /** Draining after more input equals draining first and then draining what was left with it. */
  lemma {:induction false} DrainExtend<S(!new), O>(f: Framer<S, O>, s: S, buf: Bytes, x: Bytes)
    requires Stable(f)
    ensures Drain(f, s, buf + x) == Then(Framed(f), Drain(f, s, buf), x)
    decreases |buf|, f.rank(s)
  {
    var n := f.step(s, buf);
    if n.More? {
      ThenUnit(Framed(f), (s, buf), x);
    } else if n.Next? {
      assert Advances(f, s, buf) && Advances(f, s, buf + x);
      DrainExtend(f, n.state, buf[n.used..], x);
      assert (buf + x)[n.used..] == buf[n.used..] + x;
      ThenPrefixed(Framed(f), n.out, Drain(f, n.state, buf[n.used..]), x);
    }
  }

  lemma {:induction false} DrainWaits<S(!new), O>(f: Framer<S, O>, s: S, buf: Bytes)
    requires Drain(f, s, buf).Some?
    ensures var (t, rest) := Drain(f, s, buf).value.0; f.step(t, rest).More? && |rest| <= |buf|
    decreases |buf|, f.rank(s)
  {
    var n := f.step(s, buf);
    if n.Next? {
      DrainWaits(f, n.state, buf[n.used..]);
    }
  }

  /** Every stable parser is a lawful incremental decoder. */
  lemma {:induction false} FramedLawful<S(!new), O>(f: Framer<S, O>)
    requires Stable(f)
    ensures Lawful(Framed(f))
  {
    var d := Framed(f);
    forall st: (S, Bytes) | d.ready(st)
      ensures d.feed(st, []) == Some((st, []))
    {
      assert st.1 + [] == st.1;
    }
    forall st, a | d.ready(st) && d.feed(st, a).Some?
      ensures d.ready(d.feed(st, a).value.0)
    {
      DrainWaits(f, st.0, st.1 + a);
    }
    forall st: (S, Bytes), a, b | d.ready(st)
      ensures d.feed(st, a + b) == Then(d, d.feed(st, a), b)
    {
      DrainExtend(f, st.0, st.1 + a, b);
      assert st.1 + (a + b) == st.1 + a + b;
    }
  }

  /** One turn of a stable parser. */
  lemma {:induction false} DrainStep<S(!new), O>(f: Framer<S, O>, s: S, buf: Bytes)
    requires Stable(f)
    ensures Drain(f, s, buf) ==
            match f.step(s, buf)
            case More => Some(((s, buf), []))
            case Fail => None
            case Next(t, used, out) =>
              if used <= |buf| then Prefixed(out, Drain(f, t, buf[used..])) else None
    ensures f.step(s, buf).Next? ==> Advances(f, s, buf)
  {
    assert Advances(f, s, buf);
  }

  /** One completed turn at the front of the buffer. */
  lemma {:induction false} DrainTurn<S(!new), O>(f: Framer<S, O>, s: S, front: Bytes, rest: Bytes)
    requires Stable(f)
    requires f.step(s, front).Next? && f.step(s, front).used == |front|
    ensures Drain(f, s, front + rest) ==
            Prefixed(f.step(s, front).out, Drain(f, f.step(s, front).state, rest))
  {
    hide Stable, Advances, Drain;
    StableStep(f, s, front, rest);
    DrainStep(f, s, front + rest);
    assert (front + rest)[|front|..] == rest;
  }

  /** A decision stays when more bytes arrive. */
  lemma {:induction false} StableStep<S(!new), O>(f: Framer<S, O>, s: S, front: Bytes, rest: Bytes)
    requires Stable(f) && !f.step(s, front).More?
    ensures f.step(s, front + rest) == f.step(s, front)
  {
  }
}
