/** `StreamCipherAdapter`: the initialisation vector travels first, then the cipher stream, with
    plugin framing below and above the cipher. */
module StreamAdapter {
  import opened ByteStrings
  import opened Incremental

  /** A cipher class: `start` is `setup_iv`, and the session is any state its backend keeps. */
  datatype Cipher<!C> = Cipher(
    ivLength: nat,
    start: Bytes -> C,
    decrypt: (C, Bytes) -> Option<(C, Bytes)>,
    encrypt: (C, Bytes) -> Option<(C, Bytes)>)

  /** A cipher with its plugin callbacks; P and Q are the plugin states of the two directions. */
  datatype Layer<!C, !P, !Q> = Layer(
    cipher: Cipher<C>,
    pdecrypt2: Decoder<P, byte>,
    pdecrypt: Decoder<P, byte>,
    pencrypt: (Q, Bytes) -> Option<(Q, Bytes)>,
    pencrypt2: (Q, Bytes) -> Option<(Q, Bytes)>)

  /** `iv` is `None` before `setup_iv`, while `stream_buffer` collects it; an empty one is as false
      as `None` to the code. What `stream_buffer` holds after `setup_iv` is never read again. */
  datatype Session<C> = Unset(buffer: Bytes) | Set(iv: Bytes, state: C) {
    predicate NoIv() { Unset? || iv == [] }
    function Pending(): Bytes { if Unset? then buffer else [] }
  }

  datatype Inbound<C, P> = Inbound(session: Session<C>, wire: P, plain: P)

  /** `drawn` is what `os.urandom` will return for the initialisation vector. */
  datatype Outbound<C, Q> = Outbound(session: Session<C>, drawn: Bytes, wire: Q, plain: Q)

  // ---- The inbound direction ------------------------------------------------------------------

  function Deliver<C, P, Q>(l: Layer<C, P, Q>, st: Inbound<C, P>, iv: Bytes, c: C, data: Bytes)
    : Option<(Inbound<C, P>, Bytes)>
  {
    match l.cipher.decrypt(c, data)
    case None => None
    case Some((c', mid)) =>
      match l.pdecrypt.feed(st.plain, mid)
      case None => None
      case Some((p, out)) => Some((st.(session := Set(iv, c'), plain := p), out))
  }

  /** What `Decrypt` does after the plugin below the cipher. */
  function Core<C, P, Q>(l: Layer<C, P, Q>, st: Inbound<C, P>, data: Bytes)
    : Option<(Inbound<C, P>, Bytes)>
  {
    if st.session.NoIv() then
      var all := st.session.Pending() + data;
      if |all| >= l.cipher.ivLength then
        var iv := all[..l.cipher.ivLength];
        Deliver(l, st, iv, l.cipher.start(iv), all[l.cipher.ivLength..])
      else
        Some((st.(session := Unset(all)), []))
    else
      Deliver(l, st, st.session.iv, st.session.state, data)
  }

  function Decrypt<C, P, Q>(l: Layer<C, P, Q>, st: Inbound<C, P>, raw: Bytes)
    : Option<(Inbound<C, P>, Bytes)>
  {
    match l.pdecrypt2.feed(st.wire, raw)
    case None => None
    case Some((w, data)) =>
      Core(l, st.(wire := w), data)
  }

  function CipherDecoder<C>(k: Cipher<C>, live: C -> bool): Decoder<C, byte> {
    Decoder(live, k.decrypt)
  }

  predicate InboundReady<C, P, Q>(l: Layer<C, P, Q>, live: C -> bool, st: Inbound<C, P>) {
    && l.pdecrypt2.ready(st.wire) && l.pdecrypt.ready(st.plain)
    && match st.session
       case Unset(buffer) => |buffer| < l.cipher.ivLength
       case Set(iv, c) => |iv| == l.cipher.ivLength && live(c)
  }

  function Inward<C, P, Q>(l: Layer<C, P, Q>, live: C -> bool): Decoder<Inbound<C, P>, byte> {
    Decoder((st: Inbound<C, P>) => InboundReady(l, live, st),
            (st: Inbound<C, P>, a: Bytes) => Decrypt(l, st, a))
  }

  ghost predicate LayerLawful<C(!new), P(!new), Q>(l: Layer<C, P, Q>, live: C -> bool) {
    && l.cipher.ivLength > 0
    && (forall iv: Bytes | |iv| == l.cipher.ivLength :: live(l.cipher.start(iv)))
    && Lawful(CipherDecoder(l.cipher, live))
    && Lawful(l.pdecrypt2) && Lawful(l.pdecrypt)
  }

  lemma {:induction false} DeliverSplit<C(!new), P(!new), Q>(
    l: Layer<C, P, Q>, live: C -> bool, st: Inbound<C, P>, iv: Bytes, c: C, a: Bytes, b: Bytes)
    requires LayerLawful(l, live) && live(c) && l.pdecrypt.ready(st.plain)
    ensures Deliver(l, st, iv, c, a + b) ==
            match Deliver(l, st, iv, c, a)
            case None => None
            case Some((t, out)) =>
              match Deliver(l, t, iv, t.session.state, b)
              case None => None
              case Some((u, more)) => Some((u, out + more))
  {
    var d := CipherDecoder(l.cipher, live);
    assert d.feed(c, a + b) == Then(d, d.feed(c, a), b);
    if d.feed(c, a).Some? {
      var (c', x) := d.feed(c, a).value;
      if d.feed(c', b).Some? {
        var y := d.feed(c', b).value.1;
        assert l.pdecrypt.feed(st.plain, x + y) == Then(l.pdecrypt, l.pdecrypt.feed(st.plain, x), y);
      } else {
        assert Deliver(l, st, iv, c, a + b).None?;
      }
    }
  }

  /** With a non-empty vector the inbound adapter does not depend on chunking, including chunks that
      cut the vector itself. */
  lemma {:induction false} InwardLawful<C(!new), P(!new), Q>(l: Layer<C, P, Q>, live: C -> bool)
    requires LayerLawful(l, live)
    ensures Lawful(Inward(l, live))
  {
    var d := Inward(l, live);
    forall st | d.ready(st)
      ensures d.feed(st, []) == Some((st, []))
    {
      assert st.session.Pending() + [] == st.session.Pending();
      if st.session.Set? {
        assert CipherDecoder(l.cipher, live).feed(st.session.state, []) == Some((st.session.state, []));
      }
    }
    forall st, a | d.ready(st) && d.feed(st, a).Some?
      ensures d.ready(d.feed(st, a).value.0)
    {
      ReadyStep(l, live, st, a);
    }
    forall st, a, b | d.ready(st)
      ensures d.feed(st, a + b) == Then(d, d.feed(st, a), b)
    {
      DecryptSplit(l, live, st, a, b);
    }
  }

  lemma {:induction false} ReadyStep<C(!new), P(!new), Q>(
    l: Layer<C, P, Q>, live: C -> bool, st: Inbound<C, P>, a: Bytes)
    requires LayerLawful(l, live) && InboundReady(l, live, st) && Decrypt(l, st, a).Some?
    ensures InboundReady(l, live, Decrypt(l, st, a).value.0)
  {
    var d := CipherDecoder(l.cipher, live);
    var (w, data) := l.pdecrypt2.feed(st.wire, a).value;
    var all := st.session.Pending() + data;
    if st.session.Set? {
      assert d.feed(st.session.state, data).Some?;
    } else if |all| >= l.cipher.ivLength {
      assert d.feed(l.cipher.start(all[..l.cipher.ivLength]), all[l.cipher.ivLength..]).Some?;
    }
  }

  /** Delivery reads and replaces the session as a whole. */
  lemma {:induction false} DeliverSession<C, P, Q>(
    l: Layer<C, P, Q>, st: Inbound<C, P>, s: Session<C>, iv: Bytes, c: C, data: Bytes)
    ensures Deliver(l, st.(session := s), iv, c, data) == Deliver(l, st, iv, c, data)
    ensures Deliver(l, st, iv, c, data).Some? ==>
              Deliver(l, st, iv, c, data).value.0.session.Set? && Deliver(l, st, iv, c, data).value.0.session.iv == iv
  {
  }

  lemma {:induction false} CoreSplit<C(!new), P(!new), Q>(
    l: Layer<C, P, Q>, live: C -> bool, st: Inbound<C, P>, x: Bytes, y: Bytes)
    requires LayerLawful(l, live) && InboundReady(l, live, st)
    ensures Core(l, st, x + y) ==
            match Core(l, st, x)
            case None => None
            case Some((t, out)) =>
              match Core(l, t, y)
              case None => None
              case Some((u, more)) => Some((u, out + more))
  {
    hide Deliver, Core, Lawful;
    var n := l.cipher.ivLength;
    var all := st.session.Pending() + x;
    if st.session.Set? {
      CoreSet(l, st, x);
      CoreSet(l, st, x + y);
      DeliverSplit(l, live, st, st.session.iv, st.session.state, x, y);
      CoreAfter(l, live, st, st.session.iv, st.session.state, x, y);
    } else if |all| >= n {
      var iv := all[..n];
      CoreFirst(l, st, x);
      CoreFirst(l, st, x + y);
      assert st.session.Pending() + (x + y) == all + y;
      assert (all + y)[..n] == iv && (all + y)[n..] == all[n..] + y;
      DeliverSplit(l, live, st, iv, l.cipher.start(iv), all[n..], y);
      CoreAfter(l, live, st, iv, l.cipher.start(iv), all[n..], y);
    } else {
      CoreWaits(l, live, st, x, y);
    }
  }

  lemma {:induction false} CoreSet<C, P, Q>(l: Layer<C, P, Q>, st: Inbound<C, P>, x: Bytes)
    requires st.session.Set? && st.session.iv != []
    ensures Core(l, st, x) == Deliver(l, st, st.session.iv, st.session.state, x)
  {
    hide Deliver;
  }

  lemma {:induction false} CoreFirst<C, P, Q>(l: Layer<C, P, Q>, st: Inbound<C, P>, x: Bytes)
    requires st.session.Unset? && |st.session.buffer + x| >= l.cipher.ivLength
    ensures var all := st.session.buffer + x;
            var iv := all[..l.cipher.ivLength];
            Core(l, st, x) == Deliver(l, st, iv, l.cipher.start(iv), all[l.cipher.ivLength..])
  {
    hide Deliver;
  }

  /** The call after a delivery is a delivery on the session that one left. */
  lemma {:induction false} CoreAfter<C(!new), P(!new), Q>(
    l: Layer<C, P, Q>, live: C -> bool, st: Inbound<C, P>, iv: Bytes, c: C, x: Bytes, y: Bytes)
    requires iv != []
    ensures match Deliver(l, st, iv, c, x)
            case None => true
            case Some((t, out)) => t.session.Set? && Core(l, t, y) == Deliver(l, t, iv, t.session.state, y)
  {
    hide Deliver;
    DeliverSession(l, st, st.session, iv, c, x);
    if Deliver(l, st, iv, c, x).Some? {
      CoreSet(l, Deliver(l, st, iv, c, x).value.0, y);
    }
  }

  lemma {:induction false} CoreWaits<C(!new), P(!new), Q>(
    l: Layer<C, P, Q>, live: C -> bool, st: Inbound<C, P>, x: Bytes, y: Bytes)
    requires st.session.Unset? && |st.session.buffer + x| < l.cipher.ivLength
    ensures var t := st.(session := Unset(st.session.buffer + x));
            && Core(l, st, x) == Some((t, []))
            && Core(l, st, x + y) == Core(l, t, y)
            && (Core(l, t, y).Some? ==> [] + Core(l, t, y).value.1 == Core(l, t, y).value.1)
  {
    hide Deliver;
    var n, all := l.cipher.ivLength, st.session.buffer + x;
    assert st.session.buffer + (x + y) == all + y;
    if |all + y| >= n {
      var iv := (all + y)[..n];
      DeliverSession(l, st, Unset(all), iv, l.cipher.start(iv), (all + y)[n..]);
    }
  }

  lemma {:induction false} CoreWire<C, P, Q>(l: Layer<C, P, Q>, st: Inbound<C, P>, w: P, x: Bytes)
    ensures Core(l, st.(wire := w), x) ==
            match Core(l, st, x)
            case None => None
            case Some((t, out)) => Some((t.(wire := w), out))
  {
  }

  lemma {:induction false} DecryptSplit<C(!new), P(!new), Q>(
    l: Layer<C, P, Q>, live: C -> bool, st: Inbound<C, P>, a: Bytes, b: Bytes)
    requires LayerLawful(l, live) && InboundReady(l, live, st)
    ensures Decrypt(l, st, a + b) == Then(Inward(l, live), Decrypt(l, st, a), b)
  {
    assert l.pdecrypt2.feed(st.wire, a + b) == Then(l.pdecrypt2, l.pdecrypt2.feed(st.wire, a), b);
    if l.pdecrypt2.feed(st.wire, a).Some? {
      var (w, x) := l.pdecrypt2.feed(st.wire, a).value;
      CoreWire(l, st, w, x);
      if l.pdecrypt2.feed(w, b).Some? {
        var (w', y) := l.pdecrypt2.feed(w, b).value;
        CoreSplit(l, live, st, x, y);
        CoreWire(l, st, w', x + y);
        if Core(l, st, x).Some? {
          var t := Core(l, st, x).value.0;
          CoreWire(l, t, w', y);
          CoreWire(l, t.(wire := w), w', y);
        }
      }
    }
  }

  // ---- The outbound direction -----------------------------------------------------------------

  function Seal<C, P, Q>(l: Layer<C, P, Q>, st: Outbound<C, Q>, iv: Bytes, c: C, data: Bytes)
    : Option<(Outbound<C, Q>, seq<Bytes>)>
  {
    match l.pencrypt(st.plain, data)
    case None => None
    case Some((q, framed)) =>
      match l.cipher.encrypt(c, framed)
      case None => None
      case Some((c', body)) =>
        match l.pencrypt2(st.wire, body)
        case None => None
        case Some((w, raw)) =>
          Some((st.(session := Set(iv, c'), plain := q, wire := w), [raw]))
  }

  function Write<C, P, Q>(l: Layer<C, P, Q>, st: Outbound<C, Q>, data: Bytes)
    : Option<(Outbound<C, Q>, seq<Bytes>)>
  {
    if st.session.NoIv() then
      var c := l.cipher.start(st.drawn);
      match l.pencrypt2(st.wire, st.drawn)
      case None => None
      case Some((w, raw)) =>
        var st' := st.(session := Set(st.drawn, c), wire := w);
        if data == [] then Some((st', [raw]))
        else
          match Seal(l, st', st.drawn, c, data)
          case None => None
          case Some((u, more)) => Some((u, [raw] + more))
    else if data == [] then Some((st, []))
    else Seal(l, st, st.session.iv, st.session.state, data)
  }

  function Outward<C, P, Q>(l: Layer<C, P, Q>): Encoder<Outbound<C, Q>> {
    Encoder((st: Outbound<C, Q>, x: Bytes) => Write(l, st, x))
  }

  // ---- What is on the wire --------------------------------------------------------------------

  /** Empty writes send nothing. */
  function NotEmpty(writes: seq<Bytes>): seq<Bytes>
    decreases |writes|
  {
    if writes == [] then []
    else (if writes[0] == [] then [] else [writes[0]]) + NotEmpty(writes[1..])
  }

  /** Behind the vector: framed by the upper plugin, enciphered in one session, framed by the lower one. */
  lemma {:induction false} SessionLayout<C, P, Q>(l: Layer<C, P, Q>, st: Outbound<C, Q>, writes: seq<Bytes>)
    requires st.session.Set? && st.session.iv != [] && WriteAll(Outward(l), st, writes).Some?
    ensures var framed := WriteAll(Single(l.pencrypt), st.plain, NotEmpty(writes));
            framed.Some? &&
            var bodies := WriteAll(Single(l.cipher.encrypt), st.session.state, framed.value.1);
            bodies.Some? &&
            var raw := WriteAll(Single(l.pencrypt2), st.wire, bodies.value.1);
            && raw.Some?
            && WriteAll(Outward(l), st, writes) ==
               Some((Outbound(Set(st.session.iv, bodies.value.0), st.drawn, raw.value.0, framed.value.0), raw.value.1))
    decreases |writes|
  {
    if writes != [] {
      var (t, first) := Write(l, st, writes[0]).value;
      SessionLayout(l, t, writes[1..]);
      if writes[0] == [] {
        assert [] + NotEmpty(writes[1..]) == NotEmpty(writes[1..]);
        var rest := WriteAll(Outward(l), t, writes[1..]).value.1;
        assert [] + rest == rest;
      } else {
        var (q, framed) := l.pencrypt(st.plain, writes[0]).value;
        var (c, body) := l.cipher.encrypt(st.session.state, framed).value;
        var more := WriteAll(Single(l.pencrypt), q, NotEmpty(writes[1..])).value.1;
        var bodies := WriteAll(Single(l.cipher.encrypt), c, more).value.1;
        FirstSingle(l.pencrypt, st.plain, writes[0], NotEmpty(writes[1..]));
        FirstSingle(l.cipher.encrypt, st.session.state, framed, more);
        FirstSingle(l.pencrypt2, st.wire, body, bodies);
      }
    }
  }

  lemma {:induction false} FirstSingle<E>(f: (E, Bytes) -> Option<(E, Bytes)>, s: E, x: Bytes, rest: seq<Bytes>)
    requires f(s, x).Some? && WriteAll(Single(f), f(s, x).value.0, rest).Some?
    ensures var (t, y) := f(s, x).value;
            WriteAll(Single(f), s, [x] + rest) ==
            Some((WriteAll(Single(f), t, rest).value.0, [y] + WriteAll(Single(f), t, rest).value.1))
  {
    assert ([x] + rest)[1..] == rest;
  }

  /** A fresh adapter's raw writes: what the lower plugin makes of the vector and then, one by one, of the
      cipher texts of the framed writes; the session begins with the vector and goes on through all of them. */
  lemma {:induction false} WireLayout<C, P, Q>(
    l: Layer<C, P, Q>, iv: Bytes, wire: Q, plain: Q, writes: seq<Bytes>)
    requires iv != [] && writes != []
    requires WriteAll(Outward(l), Outbound(Unset([]), iv, wire, plain), writes).Some?
    ensures var framed := WriteAll(Single(l.pencrypt), plain, NotEmpty(writes));
            framed.Some? &&
            var bodies := WriteAll(Single(l.cipher.encrypt), l.cipher.start(iv), framed.value.1);
            bodies.Some? &&
            var raw := WriteAll(Single(l.pencrypt2), wire, [iv] + bodies.value.1);
            && raw.Some?
            && WriteAll(Outward(l), Outbound(Unset([]), iv, wire, plain), writes).value.1 == raw.value.1
  {
    hide WriteAll, Seal;
    var st: Outbound<C, Q> := Outbound(Unset([]), iv, wire, plain);
    var c := l.cipher.start(iv);
    StartsWithVector(l, st, writes);
    var (w, raw) := l.pencrypt2(wire, iv).value;
    SessionLayout(l, Outbound(Set(iv, c), iv, w, plain), writes);
    var framed := WriteAll(Single(l.pencrypt), plain, NotEmpty(writes)).value.1;
    FirstSingle(l.pencrypt2, wire, iv, WriteAll(Single(l.cipher.encrypt), c, framed).value.1);
  }

  lemma {:induction false} StartsWithVector<C, P, Q>(l: Layer<C, P, Q>, st: Outbound<C, Q>, writes: seq<Bytes>)
    requires st.session.NoIv() && st.drawn != [] && writes != [] && WriteAll(Outward(l), st, writes).Some?
    ensures l.pencrypt2(st.wire, st.drawn).Some?
    ensures var (w, raw) := l.pencrypt2(st.wire, st.drawn).value;
            var t := st.(session := Set(st.drawn, l.cipher.start(st.drawn)), wire := w);
            var later := WriteAll(Outward(l), t, writes);
            later.Some? && WriteAll(Outward(l), st, writes) == Some((later.value.0, [raw] + later.value.1))
  {
    hide Seal;
    var (w, raw) := l.pencrypt2(st.wire, st.drawn).value;
    var t := st.(session := Set(st.drawn, l.cipher.start(st.drawn)), wire := w);
    var (u, first) := Write(l, st, writes[0]).value;
    var rest := WriteAll(Outward(l), u, writes[1..]).value.1;
    if writes[0] == [] {
      assert [] + rest == rest;
    } else {
      var more := Write(l, t, writes[0]).value.1;
      assert first == [raw] + more;
      assert [raw] + more + rest == [raw] + (more + rest);
    }
  }

  // ---- Inverse pairs --------------------------------------------------------------------------

  /** A callback seen as an encoder with one raw write per call. */
  function Single<E>(f: (E, Bytes) -> Option<(E, Bytes)>): Encoder<E> {
    Encoder((s: E, x: Bytes) =>
              match f(s, x)
              case None => None
              case Some((t, y)) => Some((t, [y])))
  }

  /** The parts of a layer invert: sessions started on the same vector, and both plugin callbacks. */
  datatype Pairing<!C, !P, !Q> = Pairing(
    session: (C, C) -> bool, wire: (Q, P) -> bool, plain: (Q, P) -> bool)

  ghost predicate LayerInverts<C(!new), P(!new), Q(!new)>(
    l: Layer<C, P, Q>, live: C -> bool, p: Pairing<C, P, Q>)
  {
    && LayerLawful(l, live)
    && (forall iv: Bytes | |iv| == l.cipher.ivLength :: p.session(l.cipher.start(iv), l.cipher.start(iv)))
    && Inverts(Single(l.cipher.encrypt), CipherDecoder(l.cipher, live), p.session, Same)
    && Inverts(Single(l.pencrypt2), l.pdecrypt2, p.wire, Same)
    && Inverts(Single(l.pencrypt), l.pdecrypt, p.plain, Same)
  }

  predicate Paired<C, P, Q>(l: Layer<C, P, Q>, p: Pairing<C, P, Q>, x: Outbound<C, Q>, y: Inbound<C, P>) {
    && p.wire(x.wire, y.wire) && p.plain(x.plain, y.plain)
    && match x.session
       case Unset(_) => y.session == Unset([]) && |x.drawn| == l.cipher.ivLength
       case Set(iv, c) => y.session.Set? && y.session.iv == iv && |iv| == l.cipher.ivLength
                          && p.session(c, y.session.state)
  }

  lemma {:induction false} SingleUndone<E(!new), S(!new)>(
    f: (E, Bytes) -> Option<(E, Bytes)>, d: Decoder<S, byte>, paired: (E, S) -> bool, es: E, ds: S, x: Bytes)
    requires Inverts(Single(f), d, paired, Same) && paired(es, ds) && f(es, x).Some?
    ensures var (et, y) := f(es, x).value;
            d.ready(ds) && d.feed(ds, y).Some? && d.feed(ds, y).value.1 == x
            && paired(et, d.feed(ds, y).value.0)
  {
    var (et, y) := f(es, x).value;
    assert Single(f).write(es, x) == Some((et, [y]));
    assert Undone((et, [y]), d, ds, paired, x);
    assert Flatten([y]) == y;
  }

  lemma {:induction false} SealUndone<C(!new), P(!new), Q(!new)>(
    l: Layer<C, P, Q>, live: C -> bool, p: Pairing<C, P, Q>,
    x: Outbound<C, Q>, y: Inbound<C, P>, data: Bytes)
    requires LayerInverts(l, live, p) && Paired(l, p, x, y) && x.session.Set?
    requires Seal(l, x, x.session.iv, x.session.state, data).Some?
    ensures var (x', raw) := Seal(l, x, x.session.iv, x.session.state, data).value;
            && |raw| == 1 && Decrypt(l, y, raw[0]).Some?
            && Decrypt(l, y, raw[0]).value.1 == data
            && Paired(l, p, x', Decrypt(l, y, raw[0]).value.0)
  {
    var (q, framed) := l.pencrypt(x.plain, data).value;
    var (c', body) := l.cipher.encrypt(x.session.state, framed).value;
    SingleUndone(l.pencrypt, l.pdecrypt, p.plain, x.plain, y.plain, data);
    SingleUndone(l.cipher.encrypt, CipherDecoder(l.cipher, live), p.session,
                 x.session.state, y.session.state, framed);
    SingleUndone(l.pencrypt2, l.pdecrypt2, p.wire, x.wire, y.wire, body);
  }

  lemma {:induction false} StartUndone<C(!new), P(!new), Q(!new)>(
    l: Layer<C, P, Q>, live: C -> bool, p: Pairing<C, P, Q>, x: Outbound<C, Q>, y: Inbound<C, P>)
    requires LayerInverts(l, live, p) && Paired(l, p, x, y) && x.session.Unset?
    requires l.pencrypt2(x.wire, x.drawn).Some?
    ensures var (w, raw) := l.pencrypt2(x.wire, x.drawn).value;
            && Decrypt(l, y, raw).Some? && Decrypt(l, y, raw).value.1 == []
            && Paired(l, p, x.(session := Set(x.drawn, l.cipher.start(x.drawn)), wire := w),
                      Decrypt(l, y, raw).value.0)
  {
    SingleUndone(l.pencrypt2, l.pdecrypt2, p.wire, x.wire, y.wire, x.drawn);
    var c := l.cipher.start(x.drawn);
    var d := CipherDecoder(l.cipher, live);
    assert [] + x.drawn == x.drawn;
    assert x.drawn[..l.cipher.ivLength] == x.drawn && x.drawn[l.cipher.ivLength..] == [];
    assert d.ready(c) && d.feed(c, []) == Some((c, []));
    assert Inverts(Single(l.pencrypt), l.pdecrypt, p.plain, Same);
    assert l.pdecrypt.ready(y.plain);
    assert l.pdecrypt.feed(y.plain, []) == Some((y.plain, []));
  }

  /** One adapter undoes its peer: vector, cipher and both plugin callbacks. */
  lemma {:induction false} AdapterInverts<C(!new), P(!new), Q(!new)>(
    l: Layer<C, P, Q>, live: C -> bool, p: Pairing<C, P, Q>)
    requires LayerInverts(l, live, p)
    ensures Lawful(Inward(l, live))
    ensures Inverts(Outward(l), Inward(l, live),
                    (x: Outbound<C, Q>, y: Inbound<C, P>) => Paired(l, p, x, y), Same)
  {
    InwardLawful(l, live);
    var e, d := Outward(l), Inward(l, live);
    var both := (x: Outbound<C, Q>, y: Inbound<C, P>) => Paired(l, p, x, y);
    forall x, y | both(x, y)
      ensures d.ready(y)
    {
      PairedReady(l, live, p, x, y);
    }
    forall x, y, data | both(x, y) && e.write(x, data).Some?
      ensures Undone(e.write(x, data).value, d, y, both, Same(data))
    {
      WriteUndone(l, live, p, x, y, data);
    }
  }

  lemma {:induction false} PairedReady<C(!new), P(!new), Q(!new)>(
    l: Layer<C, P, Q>, live: C -> bool, p: Pairing<C, P, Q>, x: Outbound<C, Q>, y: Inbound<C, P>)
    requires LayerInverts(l, live, p) && Paired(l, p, x, y)
    ensures InboundReady(l, live, y)
  {
    assert l.pdecrypt2.ready(y.wire) by { assert Inverts(Single(l.pencrypt2), l.pdecrypt2, p.wire, Same); }
    assert l.pdecrypt.ready(y.plain) by { assert Inverts(Single(l.pencrypt), l.pdecrypt, p.plain, Same); }
    if x.session.Set? {
      assert p.session(x.session.state, y.session.state);
      assert CipherDecoder(l.cipher, live).ready(y.session.state);
    }
  }

  lemma {:induction false} WriteUndone<C(!new), P(!new), Q(!new)>(
    l: Layer<C, P, Q>, live: C -> bool, p: Pairing<C, P, Q>,
    x: Outbound<C, Q>, y: Inbound<C, P>, data: Bytes)
    requires LayerInverts(l, live, p) && Paired(l, p, x, y) && Write(l, x, data).Some?
    ensures var (x', raw) := Write(l, x, data).value;
            var r := Decrypt(l, y, Flatten(raw));
            r.Some? && r.value.1 == data && Paired(l, p, x', r.value.0)
  {
    InwardLawful(l, live);
    PairedReady(l, live, p, x, y);
    if x.session.Unset? {
      FirstWriteUndone(l, live, p, x, y, data);
    } else if data == [] {
      assert Inward(l, live).feed(y, []) == Some((y, []));
    } else {
      SealUndone(l, live, p, x, y, data);
      var raw := Write(l, x, data).value.1;
      assert Flatten(raw) == raw[0];
    }
  }

  lemma {:induction false} FirstWriteUndone<C(!new), P(!new), Q(!new)>(
    l: Layer<C, P, Q>, live: C -> bool, p: Pairing<C, P, Q>,
    x: Outbound<C, Q>, y: Inbound<C, P>, data: Bytes)
    requires LayerInverts(l, live, p) && Paired(l, p, x, y) && Write(l, x, data).Some? && x.session.Unset?
    requires Lawful(Inward(l, live)) && InboundReady(l, live, y)
    ensures var (x', raw) := Write(l, x, data).value;
            var r := Decrypt(l, y, Flatten(raw));
            r.Some? && r.value.1 == data && Paired(l, p, x', r.value.0)
  {
    hide Decrypt, Seal, Lawful, InboundReady;
    var (w, raw) := l.pencrypt2(x.wire, x.drawn).value;
    StartUndone(l, live, p, x, y);
    if data == [] {
      assert Flatten([raw]) == raw;
    } else {
      var x1 := x.(session := Set(x.drawn, l.cipher.start(x.drawn)), wire := w);
      var y1 := Decrypt(l, y, raw).value.0;
      SealUndone(l, live, p, x1, y1, data);
      var body := Seal(l, x1, x.drawn, l.cipher.start(x.drawn), data).value.1;
      assert body == [body[0]];
      FlattenOne(raw);
      FlattenOne(body[0]);
      FlattenAppend([raw], body);
      DecryptSplit(l, live, y, raw, body[0]);
    }
  }

  /** End to end: any number of adapters stacked on one stream pair, any writes, any chunking of any
      prefix of the wire. */
  lemma {:induction false} StackedTransparency<C(!new), P(!new), Q(!new)>(
    layers: seq<Layer<C, P, Q>>, lives: seq<C -> bool>, pairings: seq<Pairing<C, P, Q>>,
    out: seq<Outbound<C, Q>>, inn: seq<Inbound<C, P>>, writes: seq<Bytes>, chunks: seq<Bytes>)
    requires |layers| == |lives| == |pairings| == |out| == |inn|
    requires forall i | 0 <= i < |layers| ::
               LayerInverts(layers[i], lives[i], pairings[i]) && Paired(layers[i], pairings[i], out[i], inn[i])
    requires WriteAll(StackEncoder(Outwards(layers)), out, writes).Some?
    requires Flatten(chunks) <= Flatten(WriteAll(StackEncoder(Outwards(layers)), out, writes).value.1)
    ensures var sent := Flatten(WriteAll(StackEncoder(Outwards(layers)), out, writes).value.1);
            var got := Run(Stack(Inwards(layers, lives)), inn, chunks);
            && got.Some? && got.value.1 <= Flatten(writes)
            && (Flatten(chunks) == sent ==> got.value.1 == Flatten(writes))
  {
    hide LayerInverts, Paired, Lawful, Inverts;
    var es, ds := Outwards(layers), Inwards(layers, lives);
    var pairs := Pairs(layers, pairings);
    LayersInvert(layers, lives, pairings);
    assert StackPaired(pairs, out, inn);
    StackInverts(es, ds, pairs);
    Delivery(StackEncoder(es), Stack(ds), (x: seq<Outbound<C, Q>>, y: seq<Inbound<C, P>>) => StackPaired(pairs, x, y),
             Same, out, inn, writes, chunks);
    ViewsSame(writes);
  }

  lemma {:induction false} LayersInvert<C(!new), P(!new), Q(!new)>(
    layers: seq<Layer<C, P, Q>>, lives: seq<C -> bool>, pairings: seq<Pairing<C, P, Q>>)
    requires |layers| == |lives| == |pairings|
    requires forall i | 0 <= i < |layers| :: LayerInverts(layers[i], lives[i], pairings[i])
    ensures var es, ds, pairs := Outwards(layers), Inwards(layers, lives), Pairs(layers, pairings);
            forall i | 0 <= i < |ds| :: Lawful(ds[i]) && Inverts(es[i], ds[i], pairs[i], Same)
  {
    hide LayerInverts, Paired, Lawful, Inverts;
    var es, ds, pairs := Outwards(layers), Inwards(layers, lives), Pairs(layers, pairings);
    forall i | 0 <= i < |ds|
      ensures Lawful(ds[i]) && Inverts(es[i], ds[i], pairs[i], Same)
    {
      AdapterInverts(layers[i], lives[i], pairings[i]);
    }
  }

  function Pairs<C, P, Q>(layers: seq<Layer<C, P, Q>>, pairings: seq<Pairing<C, P, Q>>)
    : seq<(Outbound<C, Q>, Inbound<C, P>) -> bool>
    requires |layers| == |pairings|
  {
    seq(|layers|, i requires 0 <= i < |layers| =>
      (x: Outbound<C, Q>, y: Inbound<C, P>) => Paired(layers[i], pairings[i], x, y))
  }

  function Outwards<C, P, Q>(layers: seq<Layer<C, P, Q>>): seq<Encoder<Outbound<C, Q>>> {
    seq(|layers|, i requires 0 <= i < |layers| => Outward(layers[i]))
  }

  function Inwards<C, P, Q>(layers: seq<Layer<C, P, Q>>, lives: seq<C -> bool>)
    : seq<Decoder<Inbound<C, P>, byte>>
    requires |layers| == |lives|
  {
    seq(|layers|, i requires 0 <= i < |layers| => Inward(layers[i], lives[i]))
  }

  // ---- Layers whose plugins are covered -------------------------------------------------------

  /** The same cipher and senders, with inbound plugin callbacks that agree wherever those of l
      succeed. */
  ghost predicate LayerCovers<C(!new), P(!new), Q>(l: Layer<C, P, Q>, w: Layer<C, P, Q>) {
    && w.cipher == l.cipher && w.pencrypt == l.pencrypt && w.pencrypt2 == l.pencrypt2
    && Covers(l.pdecrypt2, w.pdecrypt2) && Covers(l.pdecrypt, w.pdecrypt)
  }

  lemma {:induction false} InwardCovered<C(!new), P(!new), Q>(l: Layer<C, P, Q>, w: Layer<C, P, Q>, live: C -> bool)
    requires LayerCovers(l, w)
    ensures Covers(Inward(l, live), Inward(w, live))
  {
    hide Lawful;
  }

  /** End to end for stacks that need not be lawful themselves: it is enough that each layer agrees
      with an inverting one wherever that one succeeds. */
  lemma {:induction false} CoveredTransparency<C(!new), P(!new), Q(!new)>(
    layers: seq<Layer<C, P, Q>>, written: seq<Layer<C, P, Q>>, lives: seq<C -> bool>,
    pairings: seq<Pairing<C, P, Q>>, out: seq<Outbound<C, Q>>, inn: seq<Inbound<C, P>>,
    writes: seq<Bytes>, chunks: seq<Bytes>)
    requires |layers| == |written| == |lives| == |pairings| == |out| == |inn|
    requires forall i | 0 <= i < |layers| ::
               && LayerCovers(layers[i], written[i])
               && LayerInverts(layers[i], lives[i], pairings[i]) && Paired(layers[i], pairings[i], out[i], inn[i])
    requires WriteAll(StackEncoder(Outwards(layers)), out, writes).Some?
    requires Flatten(chunks) <= Flatten(WriteAll(StackEncoder(Outwards(layers)), out, writes).value.1)
    ensures var sent := Flatten(WriteAll(StackEncoder(Outwards(layers)), out, writes).value.1);
            var got := Run(Stack(Inwards(written, lives)), inn, chunks);
            && got.Some? && got.value.1 <= Flatten(writes)
            && (Flatten(chunks) == sent ==> got.value.1 == Flatten(writes))
  {
    hide LayerInverts, Paired, Lawful, Inverts, LayerCovers, Covers, Run, WriteAll;
    var cs, ds := Inwards(layers, lives), Inwards(written, lives);
    forall i | 0 <= i < |layers|
      ensures Covers(cs[i], ds[i])
    {
      InwardCovered(layers[i], written[i], lives[i]);
    }
    StackCovered(cs, ds);
    StackedTransparency(layers, lives, pairings, out, inn, writes, chunks);
    RunCovered(Stack(cs), Stack(ds), inn, chunks);
  }

  // ---- Layers from ciphers and plugins --------------------------------------------------------

  /** The callback installed where no plugin is configured. */
  function Dummy<P>(): (P, Bytes) -> Option<(P, Bytes)> {
    (p: P, a: Bytes) => Some((p, a))
  }

  function Through<P>(): Decoder<P, byte> {
    Decoder((p: P) => true, Dummy())
  }

  /** A plugin above the cipher, as the verify plugins install it. */
  function PluginLayer<C, P, Q>(
    k: Cipher<C>, pdecrypt: Decoder<P, byte>, pencrypt: (Q, Bytes) -> Option<(Q, Bytes)>): Layer<C, P, Q>
  {
    Layer(k, Through(), pdecrypt, pencrypt, Dummy())
  }

  function PluginPairing<C, P, Q>(session: (C, C) -> bool, plain: (Q, P) -> bool): Pairing<C, P, Q> {
    Pairing(session, (q: Q, p: P) => true, plain)
  }

  function PlainLayer<C>(k: Cipher<C>): Layer<C, (), ()> {
    PluginLayer(k, Through(), Dummy())
  }

  function PlainPairing<C>(session: (C, C) -> bool): Pairing<C, (), ()> {
    PluginPairing(session, (q: (), p: ()) => true)
  }

  ghost predicate CipherInverts<C(!new)>(k: Cipher<C>, live: C -> bool, session: (C, C) -> bool) {
    && Lawful(CipherDecoder(k, live))
    && Inverts(Single(k.encrypt), CipherDecoder(k, live), session, Same)
    && (forall iv: Bytes | |iv| == k.ivLength :: live(k.start(iv)) && session(k.start(iv), k.start(iv)))
  }

  lemma {:induction false} DummyInverts<P(!new), Q(!new)>(any: (Q, P) -> bool)
    requires forall q, p :: any(q, p)
    ensures Lawful(Through<P>()) && Inverts(Single<Q>(Dummy()), Through<P>(), any, Same)
  {
    forall q: Q, p: P, x: Bytes
      ensures Undone(Single<Q>(Dummy()).write(q, x).value, Through<P>(), p, any, Same(x))
    {
      FlattenOne(x);
    }
  }

  /** A cipher and a plugin that invert make a layer that inverts, once the vector is not empty. */
  lemma {:induction false} PluginLayerInverts<C(!new), P(!new), Q(!new)>(
    k: Cipher<C>, live: C -> bool, session: (C, C) -> bool,
    pdecrypt: Decoder<P, byte>, pencrypt: (Q, Bytes) -> Option<(Q, Bytes)>, plain: (Q, P) -> bool)
    requires CipherInverts(k, live, session) && k.ivLength > 0
    requires Lawful(pdecrypt) && Inverts(Single(pencrypt), pdecrypt, plain, Same)
    ensures LayerInverts(PluginLayer(k, pdecrypt, pencrypt), live, PluginPairing(session, plain))
  {
    DummyInverts<P, Q>(PluginPairing<C, P, Q>(session, plain).wire);
  }

  lemma {:induction false} PlainLayerInverts<C(!new)>(k: Cipher<C>, live: C -> bool, session: (C, C) -> bool)
    requires CipherInverts(k, live, session) && k.ivLength > 0
    ensures LayerInverts(PlainLayer(k), live, PlainPairing(session))
  {
    var any := (q: (), p: ()) => true;
    DummyInverts<(), ()>(PlainPairing<C>(session).plain);
    PluginLayerInverts(k, live, session, Through(), Dummy(), PlainPairing<C>(session).plain);
  }
}
