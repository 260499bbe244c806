/** Stacks of different cipher classes and plugins, and a stack that is complete from its vectors up.

    `StackedTransparency` wants one session type for all layers. A layer of any other type is seen
    through a `View` into a common one (a sum, say), and keeps its properties. */
module MixedLayers {
  import opened ByteStrings
  import opened Incremental
  import A = StreamAdapter
  import E = Aead

  /** The values of A inside a larger type. */
  datatype View<!A, !U> = View(into: A -> U, from: U -> Option<A>)

  ghost predicate Faithful<A(!new), U(!new)>(v: View<A, U>) {
    && (forall a :: v.from(v.into(a)) == Some(a))
    && (forall u | v.from(u).Some? :: v.into(v.from(u).value) == u)
  }

  function LiftStep<A, U>(v: View<A, U>, f: (A, Bytes) -> Option<(A, Bytes)>, u: U, x: Bytes): Option<(U, Bytes)> {
    match v.from(u)
    case None => None
    case Some(a) =>
      match f(a, x)
      case None => None
      case Some((b, y)) => Some((v.into(b), y))
  }

  function Lift<A, U>(v: View<A, U>, f: (A, Bytes) -> Option<(A, Bytes)>): (U, Bytes) -> Option<(U, Bytes)> {
    (u: U, x: Bytes) => LiftStep(v, f, u, x)
  }

  function LiftDecoder<A, U>(v: View<A, U>, d: Decoder<A, byte>): Decoder<U, byte> {
    Decoder((u: U) => v.from(u).Some? && d.ready(v.from(u).value), Lift(v, d.feed))
  }

  function LiftPaired<A, U, B, V>(v: View<A, U>, w: View<B, V>, paired: (A, B) -> bool): (U, V) -> bool {
    (x: U, y: V) => v.from(x).Some? && w.from(y).Some? && paired(v.from(x).value, w.from(y).value)
  }

  lemma {:induction false} LiftLawful<A(!new), U(!new)>(v: View<A, U>, d: Decoder<A, byte>)
    requires Faithful(v) && Lawful(d)
    ensures Lawful(LiftDecoder(v, d))
  {
    var e := LiftDecoder(v, d);
    forall u, x, y | e.ready(u)
      ensures e.feed(u, x + y) == Then(e, e.feed(u, x), y)
    {
      var a := v.from(u).value;
      assert d.feed(a, x + y) == Then(d, d.feed(a, x), y);
    }
    forall u | e.ready(u)
      ensures e.feed(u, []) == Some((u, []))
    {
      assert d.feed(v.from(u).value, []) == Some((v.from(u).value, []));
    }
    forall u, x | e.ready(u) && e.feed(u, x).Some?
      ensures e.ready(e.feed(u, x).value.0)
    {
      assert d.ready(d.feed(v.from(u).value, x).value.0);
    }
  }

  lemma {:induction false} LiftInverts<B(!new), V(!new), A(!new), U(!new)>(
    w: View<B, V>, v: View<A, U>, f: (B, Bytes) -> Option<(B, Bytes)>, d: Decoder<A, byte>, paired: (B, A) -> bool)
    requires Faithful(w) && Faithful(v) && Inverts(A.Single(f), d, paired, Same)
    ensures Inverts(A.Single(Lift(w, f)), LiftDecoder(v, d), LiftPaired(w, v, paired), Same)
  {
    var e, k, both := A.Single(Lift(w, f)), LiftDecoder(v, d), LiftPaired(w, v, paired);
    forall x, y | both(x, y)
      ensures k.ready(y)
    {
      assert paired(w.from(x).value, v.from(y).value);
    }
    forall x, y, data | both(x, y) && e.write(x, data).Some?
      ensures Undone(e.write(x, data).value, k, y, both, Same(data))
    {
      var b, a := w.from(x).value, v.from(y).value;
      A.SingleUndone(f, d, paired, b, a, data);
      FlattenOne(f(b, data).value.1);
    }
  }

  function LiftCipher<C, U>(v: View<C, U>, k: A.Cipher<C>): A.Cipher<U> {
    A.Cipher(k.ivLength, (iv: Bytes) => v.into(k.start(iv)), Lift(v, k.decrypt), Lift(v, k.encrypt))
  }

  function LiftLayer<C, U, P, V, Q, W>(vc: View<C, U>, vp: View<P, V>, vq: View<Q, W>, l: A.Layer<C, P, Q>)
    : A.Layer<U, V, W>
  {
    A.Layer(LiftCipher(vc, l.cipher), LiftDecoder(vp, l.pdecrypt2), LiftDecoder(vp, l.pdecrypt),
            Lift(vq, l.pencrypt), Lift(vq, l.pencrypt2))
  }

  function LiftPairing<C, U, P, V, Q, W>(vc: View<C, U>, vp: View<P, V>, vq: View<Q, W>, p: A.Pairing<C, P, Q>)
    : A.Pairing<U, V, W>
  {
    A.Pairing(LiftPaired(vc, vc, p.session), LiftPaired(vq, vp, p.wire), LiftPaired(vq, vp, p.plain))
  }

  function LiftLive<C, U>(v: View<C, U>, k: A.Cipher<C>, live: C -> bool): U -> bool {
    LiftDecoder(v, A.CipherDecoder(k, live)).ready
  }

  /** A layer seen through views inverts when the layer does, so stacks may mix layers of any types. */
  lemma {:induction false} LiftedLayerInverts<C(!new), U(!new), P(!new), V(!new), Q(!new), W(!new)>(
    vc: View<C, U>, vp: View<P, V>, vq: View<Q, W>, l: A.Layer<C, P, Q>, live: C -> bool, p: A.Pairing<C, P, Q>)
    requires Faithful(vc) && Faithful(vp) && Faithful(vq) && A.LayerInverts(l, live, p)
    ensures A.LayerInverts(LiftLayer(vc, vp, vq, l), LiftLive(vc, l.cipher, live), LiftPairing(vc, vp, vq, p))
  {
    hide Lawful, Inverts;
    var k := A.CipherDecoder(l.cipher, live);
    LiftLawful(vc, k);
    LiftLawful(vp, l.pdecrypt2);
    LiftLawful(vp, l.pdecrypt);
    LiftInverts(vc, vc, l.cipher.encrypt, k, p.session);
    LiftInverts(vq, vp, l.pencrypt2, l.pdecrypt2, p.wire);
    LiftInverts(vq, vp, l.pencrypt, l.pdecrypt, p.plain);
    assert A.CipherDecoder(LiftCipher(vc, l.cipher), LiftLive(vc, l.cipher, live)) == LiftDecoder(vc, k);
  }

  // ---- Writes that cannot raise ---------------------------------------------------------------

  ghost predicate Total<E(!new)>(e: Encoder<E>) {
    forall s, x :: e.write(s, x).Some?
  }

  lemma {:induction false} WritesAll<E(!new)>(e: Encoder<E>, s: E, xs: seq<Bytes>)
    requires Total(e)
    ensures WriteAll(e, s, xs).Some?
    decreases |xs|
  {
    if xs != [] { WritesAll(e, e.write(s, xs[0]).value.0, xs[1..]); }
  }

  lemma {:induction false} StackWrites<E(!new)>(es: seq<Encoder<E>>, st: seq<E>, x: Bytes)
    requires |es| == |st| && forall i | 0 <= i < |es| :: Total(es[i])
    ensures StackWrite(es, st, x).Some? && |StackWrite(es, st, x).value.0| == |st|
    decreases |es|
  {
    hide Total;
    if es != [] {
      StackWrites(es[1..], st[1..], x);
      WritesAll(es[0], st[0], StackWrite(es[1..], st[1..], x).value.1);
    }
  }

  lemma {:induction false} StackWritesAll<E(!new)>(es: seq<Encoder<E>>, st: seq<E>, xs: seq<Bytes>)
    requires |es| == |st| && forall i | 0 <= i < |es| :: Total(es[i])
    ensures WriteAll(StackEncoder(es), st, xs).Some?
    decreases |xs|
  {
    hide Total, StackWrite;
    if xs != [] {
      StackWrites(es, st, xs[0]);
      StackWritesAll(es, StackWrite(es, st, xs[0]).value.0, xs[1..]);
    }
  }

  // ---- A stack of packet ciphers --------------------------------------------------------------

  /** A cipher class of the registry with the vector its writer draws. */
  datatype Sealed = Sealed(primitive: E.Primitive, ivLength: nat, subkey: Bytes -> Bytes, drawn: Bytes)

  ghost predicate Usable(s: Sealed) {
    E.Sound(s.primitive) && s.ivLength > 0 && |s.drawn| == s.ivLength
  }

  function LayerOf(s: Sealed): A.Layer<E.State, (), ()> {
    A.PlainLayer(E.AeadCipher(s.primitive, s.ivLength, s.subkey))
  }

  function LiveOf(s: Sealed): E.State -> bool {
    (st: E.State) => E.Live(s.primitive, st)
  }

  function Layers(ss: seq<Sealed>): (r: seq<A.Layer<E.State, (), ()>>)
    ensures |r| == |ss|
  {
    seq(|ss|, i requires 0 <= i < |ss| => LayerOf(ss[i]))
  }

  function Lives(ss: seq<Sealed>): (r: seq<E.State -> bool>)
    ensures |r| == |ss|
  {
    seq(|ss|, i requires 0 <= i < |ss| => LiveOf(ss[i]))
  }

  function Pairings(ss: seq<Sealed>): (r: seq<A.Pairing<E.State, (), ()>>)
    ensures |r| == |ss|
  {
    seq(|ss|, i requires 0 <= i < |ss| => A.PlainPairing(E.LockStep))
  }

  /** Both ends before the first byte. */
  function Writers(ss: seq<Sealed>): (r: seq<A.Outbound<E.State, ()>>)
    ensures |r| == |ss|
  {
    seq(|ss|, i requires 0 <= i < |ss| => A.Outbound(A.Unset([]), ss[i].drawn, (), ()))
  }

  function Readers(ss: seq<Sealed>): (r: seq<A.Inbound<E.State, ()>>)
    ensures |r| == |ss|
  {
    seq(|ss|, i requires 0 <= i < |ss| => A.Inbound(A.Unset([]), (), ()))
  }

  lemma {:induction false} LayerIsTotal(s: Sealed)
    ensures Total(A.Outward(LayerOf(s)))
  {
    hide E.Packets;
  }

  lemma {:induction false} LayerReady(s: Sealed)
    requires Usable(s)
    ensures A.LayerInverts(LayerOf(s), LiveOf(s), A.PlainPairing(E.LockStep))
    ensures A.Paired(LayerOf(s), A.PlainPairing(E.LockStep), A.Outbound(A.Unset([]), s.drawn, (), ()),
                     A.Inbound(A.Unset([]), (), ()))
  {
    hide A.LayerInverts, A.CipherInverts, E.Sound;
    E.AeadInverts(s.primitive, s.ivLength, s.subkey);
    A.PlainLayerInverts(E.AeadCipher(s.primitive, s.ivLength, s.subkey), LiveOf(s), E.LockStep);
  }

  /** From fresh connections, through any number of stacked packet ciphers: no write raises, and what
      is written arrives, in order, under any chunking of the wire. */
  lemma {:induction false} SealedStackDelivers(ss: seq<Sealed>, writes: seq<Bytes>, chunks: seq<Bytes>)
    requires forall s | s in ss :: Usable(s)
    ensures WriteAll(StackEncoder(A.Outwards(Layers(ss))), Writers(ss), writes).Some?
    ensures var sent := Flatten(WriteAll(StackEncoder(A.Outwards(Layers(ss))), Writers(ss), writes).value.1);
            var got := Run(Stack(A.Inwards(Layers(ss), Lives(ss))), Readers(ss), chunks);
            && (Flatten(chunks) <= sent ==> got.Some? && got.value.1 <= Flatten(writes))
            && (Flatten(chunks) == sent ==> got.value.1 == Flatten(writes))
  {
    hide A.LayerInverts, A.Paired, Total, LayerOf, Run, WriteAll, Usable;
    var layers := Layers(ss);
    forall i | 0 <= i < |ss|
      ensures A.LayerInverts(layers[i], Lives(ss)[i], Pairings(ss)[i])
      ensures A.Paired(layers[i], Pairings(ss)[i], Writers(ss)[i], Readers(ss)[i])
      ensures Total(A.Outwards(layers)[i])
    {
      assert ss[i] in ss;
      LayerReady(ss[i]);
      LayerIsTotal(ss[i]);
    }
    StackWritesAll(A.Outwards(layers), Writers(ss), writes);
    if Flatten(chunks) <= Flatten(WriteAll(StackEncoder(A.Outwards(layers)), Writers(ss), writes).value.1) {
      A.StackedTransparency(layers, Lives(ss), Pairings(ss), Writers(ss), Readers(ss), writes, chunks);
    }
  }
}
