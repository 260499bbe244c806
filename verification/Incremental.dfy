/** Incremental decoders: stateful consumers of a byte stream that arrives in arbitrary chunks.

    A decoder is `Lawful` when feeding a chunk in two parts is the same as feeding it whole, so that
    its output depends on the stream and not on how the transport cut it. The theory is proved once
    here: lawful decoders are chunk-invariant, they compose, and a decoder that inverts an encoder
    write by write delivers a prefix of what was written under every chunking. */
module Incremental {
  import opened ByteStrings

  /** `feed` returns the next state and the output of one call, or `None` when the call raises;
      `ready` holds in the states in which a call can leave the decoder. */
  datatype Decoder<!S, +O> = Decoder(ready: S -> bool, feed: (S, Bytes) -> Option<(S, seq<O>)>)

  /** `write` returns the next state and the raw writes of one call, or `None` when it raises. */
  datatype Encoder<!E> = Encoder(write: (E, Bytes) -> Option<(E, seq<Bytes>)>)

  function Then<S, O>(d: Decoder<S, O>, r: Option<(S, seq<O>)>, b: Bytes): Option<(S, seq<O>)> {
    match r
    case None => None
    case Some((s, out)) =>
      match d.feed(s, b)
      case None => None
      case Some((t, more)) => Some((t, out + more))
  }

  function Prefixed<S, O>(out: seq<O>, r: Option<(S, seq<O>)>): Option<(S, seq<O>)> {
    match r
    case None => None
    case Some((s, more)) => Some((s, out + more))
  }

  lemma {:induction false} PrefixedOf<S, O>(out: seq<O>, r: Option<(S, seq<O>)>)
    ensures Prefixed(out, r) == if r.None? then None else Some((r.value.0, out + r.value.1))
  {
  }

  lemma {:induction false} PrefixedUnit<S, O>(r: Option<(S, seq<O>)>)
    ensures Prefixed([], r) == r
  {
    if r.Some? { assert [] + r.value.1 == r.value.1; }
  }

  lemma {:induction false} PrefixedTwice<S, O>(a: seq<O>, b: seq<O>, r: Option<(S, seq<O>)>)
    ensures Prefixed(a, Prefixed(b, r)) == Prefixed(a + b, r)
  {
    if r.Some? { assert a + b + r.value.1 == a + (b + r.value.1); }
  }

  lemma {:induction false} ThenUnit<S, O>(d: Decoder<S, O>, s: S, b: Bytes)
    ensures Then(d, Some((s, [])), b) == d.feed(s, b)
  {
    if d.feed(s, b).Some? {
      assert [] + d.feed(s, b).value.1 == d.feed(s, b).value.1;
    }
  }

  lemma {:induction false} ThenPrefixed<S, O>(
    d: Decoder<S, O>, out: seq<O>, r: Option<(S, seq<O>)>, b: Bytes)
    ensures Then(d, Prefixed(out, r), b) == Prefixed(out, Then(d, r, b))
  {
    if r.Some? && d.feed(r.value.0, b).Some? {
      assert out + r.value.1 + d.feed(r.value.0, b).value.1 == out + (r.value.1 + d.feed(r.value.0, b).value.1);
    }
  }

  ghost predicate Lawful<S(!new), O>(d: Decoder<S, O>) {
    && (forall s | d.ready(s) :: d.feed(s, []) == Some((s, [])))
    && (forall s, a | d.ready(s) && d.feed(s, a).Some? :: d.ready(d.feed(s, a).value.0))
    && (forall s, a, b | d.ready(s) :: d.feed(s, a + b) == Then(d, d.feed(s, a), b))
  }

  /** One call after another, one per chunk. */
  function Run<S, O>(d: Decoder<S, O>, s: S, chunks: seq<Bytes>): Option<(S, seq<O>)> {
    if chunks == [] then Some((s, []))
    else
      match d.feed(s, chunks[0])
      case None => None
      case Some((t, out)) =>
        match Run(d, t, chunks[1..])
        case None => None
        case Some((u, more)) => Some((u, out + more))
  }

  lemma {:induction false} RunOne<S, O>(d: Decoder<S, O>, s: S, a: Bytes)
    ensures Run(d, s, [a]) == d.feed(s, a)
  {
    var none: seq<Bytes> := [];
    assert [a][1..] == none;
    if d.feed(s, a).Some? {
      var (t, out) := d.feed(s, a).value;
      assert Run(d, t, none) == Some((t, []));
      assert out + [] == out;
    }
  }

  lemma {:induction false} RunTwo<S, O>(d: Decoder<S, O>, s: S, a: Bytes, b: Bytes)
    ensures Run(d, s, [a, b]) == Then(d, d.feed(s, a), b)
  {
    assert [a, b][1..] == [b];
    if d.feed(s, a).Some? { RunOne(d, d.feed(s, a).value.0, b); }
  }

  /** Chunking does not matter: any run equals the single call on the joined chunks. */
  lemma {:induction false} AnyChunking<S(!new), O>(d: Decoder<S, O>, s: S, chunks: seq<Bytes>)
    requires Lawful(d) && d.ready(s)
    ensures Run(d, s, chunks) == d.feed(s, Flatten(chunks))
  {
    if chunks != [] {
      var first := d.feed(s, chunks[0]);
      assert d.feed(s, chunks[0] + Flatten(chunks[1..])) == Then(d, first, Flatten(chunks[1..]));
      if first.Some? {
        AnyChunking(d, first.value.0, chunks[1..]);
      }
    }
  }

  /** A prefix of an accepted stream is accepted and yields a prefix of the output. */
  lemma {:induction false} PrefixOutput<S(!new), O>(d: Decoder<S, O>, s: S, part: Bytes, all: Bytes)
    requires Lawful(d) && d.ready(s)
    requires part <= all && d.feed(s, all).Some?
    ensures d.feed(s, part).Some? && d.feed(s, part).value.1 <= d.feed(s, all).value.1
  {
    var rest := all[|part|..];
    assert all == part + rest;
    assert d.feed(s, part + rest) == Then(d, d.feed(s, part), rest);
  }

  /** Every way to cut x has the result of feeding it whole. */
  ghost predicate AnyCut<S, O>(d: Decoder<S, O>, s: S, x: Bytes) {
    forall chunks: seq<Bytes> | Flatten(chunks) == x :: Run(d, s, chunks) == d.feed(s, x)
  }

  /** The finest way. */
  function Bytewise(x: Bytes): seq<Bytes> {
    if x == [] then [] else [x[..1]] + Bytewise(x[1..])
  }

  lemma {:induction false} BytewiseWhole(x: Bytes)
    ensures Flatten(Bytewise(x)) == x
  {
    if x != [] {
      BytewiseWhole(x[1..]);
      FlattenCons(x[..1], Bytewise(x[1..]));
      assert x[..1] + x[1..] == x;
    }
  }

  lemma {:induction false} RunFirst<S, O>(d: Decoder<S, O>, s: S, a: Bytes, rest: seq<Bytes>)
    ensures Run(d, s, [a] + rest) ==
            match d.feed(s, a)
            case None => None
            case Some((t, out)) => Prefixed(out, Run(d, t, rest))
  {
    assert ([a] + rest)[1..] == rest;
  }

  // ---- Encoders and their inverses ------------------------------------------------------------

  /** Successive writes, with all their raw writes in order. */
  function WriteAll<E>(e: Encoder<E>, s: E, xs: seq<Bytes>): Option<(E, seq<Bytes>)> {
    if xs == [] then Some((s, []))
    else
      match e.write(s, xs[0])
      case None => None
      case Some((t, raw)) =>
        match WriteAll(e, t, xs[1..])
        case None => None
        case Some((u, more)) => Some((u, raw + more))
  }

  function Views<O>(view: Bytes -> seq<O>, xs: seq<Bytes>): seq<O> {
    if xs == [] then [] else view(xs[0]) + Views(view, xs[1..])
  }

  /** From paired states, decoding the raw writes of one write gives `view` of what was written and
      pairs the states again. */
  ghost predicate Inverts<E(!new), S(!new), O>(
    e: Encoder<E>, d: Decoder<S, O>, paired: (E, S) -> bool, view: Bytes -> seq<O>)
  {
    && (forall es, ds | paired(es, ds) :: d.ready(ds))
    && (forall es, ds, x | paired(es, ds) && e.write(es, x).Some? ::
          Undone(e.write(es, x).value, d, ds, paired, view(x)))
  }

  ghost predicate Undone<E, S, O>(
    w: (E, seq<Bytes>), d: Decoder<S, O>, ds: S, paired: (E, S) -> bool, out: seq<O>)
  {
    var r := d.feed(ds, Flatten(w.1));
    r.Some? && r.value.1 == out && paired(w.0, r.value.0)
  }

  lemma {:induction false} WriteAllUndone<E(!new), S(!new), O>(
    e: Encoder<E>, d: Decoder<S, O>, paired: (E, S) -> bool, view: Bytes -> seq<O>,
    es: E, ds: S, xs: seq<Bytes>)
    requires Lawful(d) && Inverts(e, d, paired, view) && paired(es, ds)
    requires WriteAll(e, es, xs).Some?
    ensures Undone(WriteAll(e, es, xs).value, d, ds, paired, Views(view, xs))
  {
    if xs != [] {
      var (et, raw) := e.write(es, xs[0]).value;
      var (eu, more) := WriteAll(e, et, xs[1..]).value;
      assert Undone((et, raw), d, ds, paired, view(xs[0]));
      var (dt, out) := d.feed(ds, Flatten(raw)).value;
      WriteAllUndone(e, d, paired, view, et, dt, xs[1..]);
      FlattenAppend(raw, more);
      assert d.feed(ds, Flatten(raw) + Flatten(more)) == Then(d, d.feed(ds, Flatten(raw)), Flatten(more));
    }
  }

  /** Delivery: whatever prefix of the wire has arrived, in whatever chunks, the run succeeds and
      has produced a prefix of what was written; with the whole wire it has produced all of it. */
  lemma {:induction false} Delivery<E(!new), S(!new), O>(
    e: Encoder<E>, d: Decoder<S, O>, paired: (E, S) -> bool, view: Bytes -> seq<O>,
    es: E, ds: S, xs: seq<Bytes>, chunks: seq<Bytes>)
    requires Lawful(d) && Inverts(e, d, paired, view) && paired(es, ds)
    requires WriteAll(e, es, xs).Some?
    requires Flatten(chunks) <= Flatten(WriteAll(e, es, xs).value.1)
    ensures Run(d, ds, chunks).Some?
    ensures Run(d, ds, chunks).value.1 <= Views(view, xs)
    ensures Flatten(chunks) == Flatten(WriteAll(e, es, xs).value.1) ==>
              && Run(d, ds, chunks).value.1 == Views(view, xs)
              && paired(WriteAll(e, es, xs).value.0, Run(d, ds, chunks).value.0)
  {
    WriteAllUndone(e, d, paired, view, es, ds, xs);
    AnyChunking(d, ds, chunks);
    PrefixOutput(d, ds, Flatten(chunks), Flatten(WriteAll(e, es, xs).value.1));
  }

  // ---- Composition ----------------------------------------------------------------------------

  /** Feed the output of one decoder to the next; the next is not called on empty output. */
  function PipeFeed<S, T, O>(c: Decoder<S, byte>, d: Decoder<T, O>, st: (S, T), a: Bytes)
    : Option<((S, T), seq<O>)>
  {
    match c.feed(st.0, a)
    case None => None
    case Some((s, mid)) =>
      if mid == [] then Some(((s, st.1), []))
      else
        match d.feed(st.1, mid)
        case None => None
        case Some((t, out)) => Some(((s, t), out))
  }

  function Pipe<S, T, O>(c: Decoder<S, byte>, d: Decoder<T, O>): Decoder<(S, T), O> {
    Decoder((st: (S, T)) => c.ready(st.0) && d.ready(st.1),
            (st: (S, T), a: Bytes) => PipeFeed(c, d, st, a))
  }

  /** Not calling the next decoder on empty output is harmless. */
  lemma {:induction false} EarlyReturnHarmless<S, T(!new), O>(
    c: Decoder<S, byte>, d: Decoder<T, O>, st: (S, T), a: Bytes)
    requires Lawful(d) && d.ready(st.1) && c.feed(st.0, a).Some?
    ensures var mid := c.feed(st.0, a).value;
            PipeFeed(c, d, st, a) ==
            match d.feed(st.1, mid.1)
            case None => None
            case Some((t, out)) => Some(((mid.0, t), out))
  {
  }

  lemma {:induction false} PipeSplit<S(!new), T(!new), O>(
    c: Decoder<S, byte>, d: Decoder<T, O>, st: (S, T), a: Bytes, b: Bytes)
    requires Lawful(c) && Lawful(d) && c.ready(st.0) && d.ready(st.1)
    ensures PipeFeed(c, d, st, a + b) == Then(Pipe(c, d), PipeFeed(c, d, st, a), b)
  {
    var first := c.feed(st.0, a);
    assert c.feed(st.0, a + b) == Then(c, first, b);
    if first.Some? {
      var (s, mid) := first.value;
      EarlyReturnHarmless(c, d, st, a);
      var next := c.feed(s, b);
      if next.Some? {
        var more := next.value.1;
        assert d.feed(st.1, mid + more) == Then(d, d.feed(st.1, mid), more);
        EarlyReturnHarmless(c, d, st, a + b);
        if d.feed(st.1, mid).Some? {
          EarlyReturnHarmless(c, d, (s, d.feed(st.1, mid).value.0), b);
        }
      }
    }
  }

  lemma {:induction false} PipeLawful<S(!new), T(!new), O>(c: Decoder<S, byte>, d: Decoder<T, O>)
    requires Lawful(c) && Lawful(d)
    ensures Lawful(Pipe(c, d))
  {
    var p := Pipe(c, d);
    forall st, a, b | p.ready(st)
      ensures p.feed(st, a + b) == Then(p, p.feed(st, a), b)
    {
      PipeSplit(c, d, st, a, b);
    }
  }

  function PipeWrite<E, F>(e: Encoder<E>, f: Encoder<F>, st: (E, F), x: Bytes)
    : Option<((E, F), seq<Bytes>)>
  {
    match f.write(st.1, x)
    case None => None
    case Some((t, ws)) =>
      match WriteAll(e, st.0, ws)
      case None => None
      case Some((s, raw)) => Some(((s, t), raw))
  }

  /** f writes through e: each raw write of f is one write of e. */
  function PipeEncoder<E, F>(e: Encoder<E>, f: Encoder<F>): Encoder<(E, F)> {
    Encoder((st: (E, F), x: Bytes) => PipeWrite(e, f, st, x))
  }

  function Same(x: Bytes): Bytes { x }

  lemma {:induction false} ViewsSame(xs: seq<Bytes>)
    ensures Views(Same, xs) == Flatten(xs)
  {
    if xs != [] { ViewsSame(xs[1..]); }
  }

  lemma {:induction false} PipeInverts<E(!new), F(!new), S(!new), T(!new), O>(
    e: Encoder<E>, c: Decoder<S, byte>, paired: (E, S) -> bool,
    f: Encoder<F>, d: Decoder<T, O>, paired': (F, T) -> bool, view: Bytes -> seq<O>,
    both: ((E, F), (S, T)) -> bool)
    requires Lawful(c) && Inverts(e, c, paired, Same)
    requires Lawful(d) && Inverts(f, d, paired', view)
    requires forall x: (E, F), y: (S, T) :: both(x, y) <==> paired(x.0, y.0) && paired'(x.1, y.1)
    ensures Inverts(PipeEncoder(e, f), Pipe(c, d), both, view)
  {
    var p, q := PipeEncoder(e, f), Pipe(c, d);
    forall x, y, data | both(x, y) && p.write(x, data).Some?
      ensures Undone(p.write(x, data).value, q, y, both, view(data))
    {
      var (t, ws) := f.write(x.1, data).value;
      assert Undone((t, ws), d, y.1, paired', view(data));
      WriteAllUndone(e, c, paired, Same, x.0, y.0, ws);
      ViewsSame(ws);
      var raw := Flatten(WriteAll(e, x.0, ws).value.1);
      EarlyReturnHarmless(c, d, y, raw);
    }
  }

  // ---- Stacks of any height -------------------------------------------------------------------

  /** The loop over the installed decoders, which stops as soon as one of them has no output. */
  function StackFeed<S>(ds: seq<Decoder<S, byte>>, st: seq<S>, a: Bytes): Option<(seq<S>, Bytes)>
    requires |ds| == |st|
  {
    if ds == [] then Some((st, a))
    else
      match ds[0].feed(st[0], a)
      case None => None
      case Some((s, mid)) =>
        if mid == [] then Some(([s] + st[1..], []))
        else
          match StackFeed(ds[1..], st[1..], mid)
          case None => None
          case Some((rest, out)) => Some(([s] + rest, out))
  }

  predicate StackReady<S>(ds: seq<Decoder<S, byte>>, st: seq<S>) {
    |ds| == |st| && forall i | 0 <= i < |ds| :: ds[i].ready(st[i])
  }

  function Stack<S>(ds: seq<Decoder<S, byte>>): Decoder<seq<S>, byte> {
    Decoder((st: seq<S>) => StackReady(ds, st),
            (st: seq<S>, a: Bytes) => if |ds| == |st| then StackFeed(ds, st, a) else None)
  }

  /** A stack is the pipe of its first decoder and the stack of the others. */
  lemma {:induction false} StackIsPipe<S(!new)>(ds: seq<Decoder<S, byte>>, st: seq<S>, a: Bytes)
    requires ds != [] && |ds| == |st|
    ensures StackFeed(ds, st, a) ==
            match PipeFeed(ds[0], Stack(ds[1..]), (st[0], st[1..]), a)
            case None => None
            case Some((s, out)) => Some(([s.0] + s.1, out))
  {
  }

  lemma {:induction false} StackLawful<S(!new)>(ds: seq<Decoder<S, byte>>)
    requires forall i | 0 <= i < |ds| :: Lawful(ds[i])
    ensures Lawful(Stack(ds))
  {
    var q := Stack(ds);
    if ds == [] {
      assert forall st, a, b | q.ready(st) :: q.feed(st, a + b) == Then(q, q.feed(st, a), b);
    } else {
      var c, d := ds[0], Stack(ds[1..]);
      StackLawful(ds[1..]);
      PipeLawful(c, d);
      forall st | q.ready(st)
        ensures q.feed(st, []) == Some((st, []))
      {
        StackIsPipe(ds, st, []);
        assert [st[0]] + st[1..] == st;
      }
      forall st, a | q.ready(st) && q.feed(st, a).Some?
        ensures q.ready(q.feed(st, a).value.0)
      {
        StackReadyStep(ds, st, a);
      }
      forall st, a, b | q.ready(st)
        ensures q.feed(st, a + b) == Then(q, q.feed(st, a), b)
      {
        StackSplit(ds, st, a, b);
      }
    }
  }

  lemma {:induction false} StackReadyStep<S(!new)>(ds: seq<Decoder<S, byte>>, st: seq<S>, a: Bytes)
    requires ds != [] && StackReady(ds, st) && StackFeed(ds, st, a).Some?
    requires Lawful(ds[0]) && Lawful(Stack(ds[1..]))
    ensures StackReady(ds, StackFeed(ds, st, a).value.0)
  {
    var c, d := ds[0], Stack(ds[1..]);
    PipeLawful(c, d);
    StackIsPipe(ds, st, a);
    assert d.ready(st[1..]);
    var s := PipeFeed(c, d, (st[0], st[1..]), a).value.0;
    assert Pipe(c, d).ready((st[0], st[1..]));
    assert Pipe(c, d).feed((st[0], st[1..]), a).Some?;
    assert Pipe(c, d).ready(s);
    assert forall i | 0 <= i < |ds| :: ds[i].ready(([s.0] + s.1)[i]) by {
      forall i | 0 <= i < |ds|
        ensures ds[i].ready(([s.0] + s.1)[i])
      {
        if i > 0 { assert ds[1..][i - 1].ready(s.1[i - 1]); }
      }
    }
  }

  lemma {:induction false} StackSplit<S(!new)>(
    ds: seq<Decoder<S, byte>>, st: seq<S>, a: Bytes, b: Bytes)
    requires ds != [] && StackReady(ds, st)
    requires Lawful(ds[0]) && Lawful(Stack(ds[1..]))
    ensures StackFeed(ds, st, a + b) == Then(Stack(ds), StackFeed(ds, st, a), b)
  {
    var c, d := ds[0], Stack(ds[1..]);
    assert d.ready(st[1..]);
    PipeSplit(c, d, (st[0], st[1..]), a, b);
    StackIsPipe(ds, st, a);
    StackIsPipe(ds, st, a + b);
    if StackFeed(ds, st, a).Some? {
      StackReadyStep(ds, st, a);
      var t := StackFeed(ds, st, a).value.0;
      StackIsPipe(ds, t, b);
      var s := PipeFeed(c, d, (st[0], st[1..]), a).value.0;
      assert t == [s.0] + s.1;
      assert t[1..] == s.1;
    }
  }

  /** The first encoder is nearest the wire; every other one writes through those before it. */
  function StackWrite<E>(es: seq<Encoder<E>>, st: seq<E>, x: Bytes): Option<(seq<E>, seq<Bytes>)>
    requires |es| == |st|
  {
    if es == [] then Some((st, [x]))
    else
      match StackWrite(es[1..], st[1..], x)
      case None => None
      case Some((rest, ws)) =>
        match WriteAll(es[0], st[0], ws)
        case None => None
        case Some((s, raw)) => Some(([s] + rest, raw))
  }

  function StackEncoder<E>(es: seq<Encoder<E>>): Encoder<seq<E>> {
    Encoder((st: seq<E>, x: Bytes) => if |es| == |st| then StackWrite(es, st, x) else None)
  }

  predicate StackPaired<E, S>(pairs: seq<(E, S) -> bool>, x: seq<E>, y: seq<S>) {
    |pairs| == |x| == |y| && forall i | 0 <= i < |pairs| :: pairs[i](x[i], y[i])
  }

  /** A stack of inverting layers inverts, whatever its height. */
  lemma {:induction false} StackInverts<E(!new), S(!new)>(
    es: seq<Encoder<E>>, ds: seq<Decoder<S, byte>>, pairs: seq<(E, S) -> bool>)
    requires |es| == |ds| == |pairs|
    requires forall i | 0 <= i < |ds| :: Lawful(ds[i]) && Inverts(es[i], ds[i], pairs[i], Same)
    ensures Lawful(Stack(ds))
    ensures Inverts(StackEncoder(es), Stack(ds),
                    (x: seq<E>, y: seq<S>) => StackPaired(pairs, x, y), Same)
  {
    StackLawful(ds);
    var e, d := StackEncoder(es), Stack(ds);
    var both := (x: seq<E>, y: seq<S>) => StackPaired(pairs, x, y);
    forall x, y | both(x, y)
      ensures d.ready(y)
    {
      assert forall i | 0 <= i < |ds| :: ds[i].ready(y[i]) by {
        forall i | 0 <= i < |ds|
          ensures ds[i].ready(y[i])
        {
          assert pairs[i](x[i], y[i]);
        }
      }
    }
    forall x, y, data | both(x, y) && e.write(x, data).Some?
      ensures Undone(e.write(x, data).value, d, y, both, Same(data))
    {
      StackUndone(es, ds, pairs, x, y, data);
    }
  }

  lemma {:induction false} StackUndone<E(!new), S(!new)>(
    es: seq<Encoder<E>>, ds: seq<Decoder<S, byte>>, pairs: seq<(E, S) -> bool>,
    x: seq<E>, y: seq<S>, data: Bytes)
    requires |es| == |ds| == |pairs|
    requires forall i | 0 <= i < |ds| :: Lawful(ds[i]) && Inverts(es[i], ds[i], pairs[i], Same)
    requires StackPaired(pairs, x, y) && StackWrite(es, x, data).Some?
    ensures var w := StackWrite(es, x, data).value;
            var r := StackFeed(ds, y, Flatten(w.1));
            r.Some? && r.value.1 == data && StackPaired(pairs, w.0, r.value.0)
  {
    if es == [] {
      assert Flatten([data]) == data + Flatten([]);
    } else {
      var (rest, ws) := StackWrite(es[1..], x[1..], data).value;
      var (s, raw) := WriteAll(es[0], x[0], ws).value;
      assert StackPaired(pairs[1..], x[1..], y[1..]) by { PairedTail(pairs, x, y); }
      StackUndone(es[1..], ds[1..], pairs[1..], x[1..], y[1..], data);
      assert pairs[0](x[0], y[0]);
      WriteAllUndone(es[0], ds[0], pairs[0], Same, x[0], y[0], ws);
      ViewsSame(ws);
      var y0 := ds[0].feed(y[0], Flatten(raw)).value.0;
      assert ds[0].feed(y[0], Flatten(raw)) == Some((y0, Flatten(ws)));
      var y1 := StackFeed(ds[1..], y[1..], Flatten(ws)).value.0;
      if Flatten(ws) == [] {
        StackIdle(ds[1..], pairs[1..], x[1..], y[1..], es[1..]);
        PairedCons(pairs, s, rest, y0, y[1..]);
      } else {
        PairedCons(pairs, s, rest, y0, y1);
      }
    }
  }

  /** The decoders above an idle layer are not called, and would not have changed. */
  lemma {:induction false} StackIdle<E(!new), S(!new)>(
    ds: seq<Decoder<S, byte>>, pairs: seq<(E, S) -> bool>, x: seq<E>, y: seq<S>, es: seq<Encoder<E>>)
    requires |es| == |ds| == |pairs| && StackPaired(pairs, x, y)
    requires forall i | 0 <= i < |ds| :: Lawful(ds[i]) && Inverts(es[i], ds[i], pairs[i], Same)
    ensures StackFeed(ds, y, []) == Some((y, []))
  {
    StackLawful(ds);
    forall i | 0 <= i < |ds|
      ensures ds[i].ready(y[i])
    {
      assert pairs[i](x[i], y[i]);
    }
    assert Stack(ds).ready(y);
    assert Stack(ds).feed(y, []) == Some((y, []));
  }

  lemma {:induction false} PairedTail<E, S>(pairs: seq<(E, S) -> bool>, x: seq<E>, y: seq<S>)
    requires pairs != [] && StackPaired(pairs, x, y)
    ensures StackPaired(pairs[1..], x[1..], y[1..])
  {
    forall i | 0 <= i < |pairs| - 1
      ensures pairs[1..][i](x[1..][i], y[1..][i])
    {
      assert pairs[i + 1](x[i + 1], y[i + 1]);
    }
  }

  lemma {:induction false} PairedCons<E, S>(
    pairs: seq<(E, S) -> bool>, x: E, xs: seq<E>, y: S, ys: seq<S>)
    requires pairs != [] && pairs[0](x, y) && StackPaired(pairs[1..], xs, ys)
    ensures StackPaired(pairs, [x] + xs, [y] + ys)
  {
    forall i | 0 <= i < |pairs|
      ensures pairs[i](([x] + xs)[i], ([y] + ys)[i])
    {
      if i > 0 { assert pairs[1..][i - 1](xs[i - 1], ys[i - 1]); }
    }
  }

  // ---- What passes between the layers ---------------------------------------------------------

  lemma {:induction false} WriteAllAppend<E>(e: Encoder<E>, s: E, a: seq<Bytes>, b: seq<Bytes>)
    ensures WriteAll(e, s, a + b) ==
            match WriteAll(e, s, a)
            case None => None
            case Some((t, raw)) =>
              match WriteAll(e, t, b)
              case None => None
              case Some((u, more)) => Some((u, raw + more))
    decreases |a|
  {
    if a == [] {
      assert a + b == b;
      if WriteAll(e, s, b).Some? { assert [] + WriteAll(e, s, b).value.1 == WriteAll(e, s, b).value.1; }
    } else {
      assert (a + b)[0] == a[0] && (a + b)[1..] == a[1..] + b;
      var first := e.write(s, a[0]);
      if first.Some? {
        WriteAllAppend(e, first.value.0, a[1..], b);
        var rest := WriteAll(e, first.value.0, a[1..]);
        if rest.Some? && WriteAll(e, rest.value.0, b).Some? {
          var x, y, z := first.value.1, rest.value.1, WriteAll(e, rest.value.0, b).value.1;
          assert x + (y + z) == x + y + z;
        }
      }
    }
  }

  /** All writes through a stack are all writes of the upper layers, written through the first. */
  lemma {:induction false} StackWritesDown<E>(es: seq<Encoder<E>>, st: seq<E>, xs: seq<Bytes>)
    requires es != [] && |es| == |st| && WriteAll(StackEncoder(es), st, xs).Some?
    ensures var upper := WriteAll(StackEncoder(es[1..]), st[1..], xs);
            upper.Some? &&
            var low := WriteAll(es[0], st[0], upper.value.1);
            && low.Some? && |upper.value.0| == |es| - 1
            && WriteAll(StackEncoder(es), st, xs) == Some(([low.value.0] + upper.value.0, low.value.1))
    decreases |xs|
  {
    if xs == [] {
      assert [st[0]] + st[1..] == st;
    } else {
      var (rest, ws) := StackWrite(es[1..], st[1..], xs[0]).value;
      StackWriteSize(es[1..], st[1..], xs[0]);
      var (s, raw) := WriteAll(es[0], st[0], ws).value;
      var t := [s] + rest;
      assert t[1..] == rest && t[0] == s;
      StackWritesDown(es, t, xs[1..]);
      WriteAllAppend(es[0], st[0], ws, WriteAll(StackEncoder(es[1..]), rest, xs[1..]).value.1);
    }
  }

  lemma {:induction false} StackWriteSize<E>(es: seq<Encoder<E>>, st: seq<E>, x: Bytes)
    requires |es| == |st| && StackWrite(es, st, x).Some?
    ensures |StackWrite(es, st, x).value.0| == |es|
    decreases |es|
  {
    if es != [] { StackWriteSize(es[1..], st[1..], x); }
  }

  /** The texts between the layers: the topmost are what is written, and each layer makes those below it of
      those above it, from the last one attached down to the wire. */
  lemma {:induction false} WritesBetween<E>(es: seq<Encoder<E>>, st: seq<E>, xs: seq<Bytes>)
    returns (texts: seq<seq<Bytes>>)
    requires |es| == |st| && WriteAll(StackEncoder(es), st, xs).Some?
    ensures |texts| == |es| + 1 && texts[|es|] == xs
    ensures forall i | 0 <= i < |es| ::
              WriteAll(es[i], st[i], texts[i + 1]).Some? && texts[i] == WriteAll(es[i], st[i], texts[i + 1]).value.1
    ensures texts[0] == WriteAll(StackEncoder(es), st, xs).value.1
    decreases |es|
  {
    if es == [] {
      texts := [xs];
      NothingBetween(es, st, xs);
    } else {
      hide WriteAll, StackWrite;
      StackWritesDown(es, st, xs);
      var upper := WritesBetween(es[1..], st[1..], xs);
      texts := [WriteAll(StackEncoder(es), st, xs).value.1] + upper;
      forall i | 0 <= i < |es|
        ensures WriteAll(es[i], st[i], texts[i + 1]).Some?
        ensures texts[i] == WriteAll(es[i], st[i], texts[i + 1]).value.1
      {
        if i > 0 { assert es[1..][i - 1] == es[i] && st[1..][i - 1] == st[i]; }
      }
    }
  }

  lemma {:induction false} NothingBetween<E>(es: seq<Encoder<E>>, st: seq<E>, xs: seq<Bytes>)
    requires es == [] && st == []
    ensures WriteAll(StackEncoder(es), st, xs) == Some((st, xs))
    decreases |xs|
  {
    if xs != [] {
      NothingBetween(es, st, xs[1..]);
      assert [xs[0]] + xs[1..] == xs;
    }
  }

  /** And on the way up: the lowest text is the input, and each decoder makes the next one of it, although
      the loop stops at the first that has no output. */
  lemma {:induction false} ReadsBetween<S(!new)>(ds: seq<Decoder<S, byte>>, st: seq<S>, a: Bytes)
    returns (texts: seq<Bytes>)
    requires (forall i | 0 <= i < |ds| :: Lawful(ds[i])) && StackReady(ds, st) && StackFeed(ds, st, a).Some?
    ensures |texts| == |ds| + 1 && texts[0] == a
    ensures forall i | 0 <= i < |ds| ::
              ds[i].feed(st[i], texts[i]).Some? && texts[i + 1] == ds[i].feed(st[i], texts[i]).value.1
    ensures texts[|ds|] == StackFeed(ds, st, a).value.1
    decreases |ds|
  {
    if ds == [] {
      texts := [a];
    } else {
      var mid := ds[0].feed(st[0], a).value.1;
      assert StackReady(ds[1..], st[1..]) by {
        assert forall i | 0 <= i < |ds| - 1 :: ds[1..][i] == ds[i + 1] && st[1..][i] == st[i + 1];
      }
      if mid == [] {
        StackLawful(ds[1..]);
        assert Stack(ds[1..]).ready(st[1..]);
        assert Stack(ds[1..]).feed(st[1..], []) == Some((st[1..], []));
      }
      hide Lawful, StackReady;
      var upper := ReadsBetween(ds[1..], st[1..], mid);
      texts := [a] + upper;
      forall i | 0 <= i < |ds|
        ensures ds[i].feed(st[i], texts[i]).Some? && texts[i + 1] == ds[i].feed(st[i], texts[i]).value.1
      {
        if i > 0 { assert ds[1..][i - 1] == ds[i] && st[1..][i - 1] == st[i]; }
      }
    }
  }

  // ---- Decoders that agree where one succeeds -------------------------------------------------

  /** d does what c does wherever c does not raise. */
  ghost predicate Covers<S(!new), O>(c: Decoder<S, O>, d: Decoder<S, O>) {
    forall s, a | c.feed(s, a).Some? :: d.feed(s, a) == c.feed(s, a)
  }

  lemma {:induction false} RunCovered<S(!new), O>(c: Decoder<S, O>, d: Decoder<S, O>, s: S, chunks: seq<Bytes>)
    requires Covers(c, d) && Run(c, s, chunks).Some?
    ensures Run(d, s, chunks) == Run(c, s, chunks)
    decreases |chunks|
  {
    if chunks != [] { RunCovered(c, d, c.feed(s, chunks[0]).value.0, chunks[1..]); }
  }

  lemma {:induction false} StackFeedCovered<S(!new)>(
    cs: seq<Decoder<S, byte>>, ds: seq<Decoder<S, byte>>, st: seq<S>, a: Bytes)
    requires |cs| == |ds| == |st| && forall i | 0 <= i < |cs| :: Covers(cs[i], ds[i])
    requires StackFeed(cs, st, a).Some?
    ensures StackFeed(ds, st, a) == StackFeed(cs, st, a)
    decreases |cs|
  {
    if cs != [] {
      var r := cs[0].feed(st[0], a);
      assert Covers(cs[0], ds[0]);
      assert ds[0].feed(st[0], a) == r;
      if r.Some? && r.value.1 != [] { StackFeedCovered(cs[1..], ds[1..], st[1..], r.value.1); }
    }
  }

  lemma {:induction false} StackCovered<S(!new)>(cs: seq<Decoder<S, byte>>, ds: seq<Decoder<S, byte>>)
    requires |cs| == |ds| && forall i | 0 <= i < |cs| :: Covers(cs[i], ds[i])
    ensures Covers(Stack(cs), Stack(ds))
  {
    hide StackFeed, Covers;
    forall st, a | Stack(cs).feed(st, a).Some?
      ensures Stack(ds).feed(st, a) == Stack(cs).feed(st, a)
    {
      StackFeedCovered(cs, ds, st, a);
    }
    assert Covers(Stack(cs), Stack(ds)) by { CoversAll(Stack(cs), Stack(ds)); }
  }

  lemma {:induction false} CoversAll<S(!new), O>(c: Decoder<S, O>, d: Decoder<S, O>)
    requires forall s, a | c.feed(s, a).Some? :: d.feed(s, a) == c.feed(s, a)
    ensures Covers(c, d)
  {
  }
}
