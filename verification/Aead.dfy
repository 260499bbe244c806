/** `AEADCipher`: a packet stream of sealed lengths and sealed bodies under a counted nonce. */
module Aead {
  import opened Bits
  import opened ByteStrings
  import opened Incremental
  import opened Framing
  import A = StreamAdapter

  const PACKET_LIMIT: nat := 16 * 1024 - 1

  /** The backend: `seal` is `encrypt_and_digest`, `unseal` is `decrypt_and_verify` (`None` when it
      raises), both under a subkey and a nonce value. */
  datatype Primitive = Primitive(
    nonceLength: nat,
    tagLength: nat,
    seal: (Bytes, nat, Bytes) -> (Bytes, Bytes),
    unseal: (Bytes, nat, Bytes, Bytes) -> Option<Bytes>)

  /** What opens a packet is its own tag; packets are never longer than the limit. */
  ghost predicate Sound(p: Primitive) {
    forall key, n, m: Bytes | |m| <= PACKET_LIMIT ::
      var (c, t) := p.seal(key, n, m);
      |c| == |m| && |t| == p.tagLength && p.unseal(key, n, c, t) == Some(m)
  }

  datatype Opening = Opening(key: Bytes, nonce: nat, declen: Option<nat>)

  /** The counter is masked to `NONCE_LENGTH` bits, not bytes. */
  function NextNonce(p: Primitive, nonce: nat): nat {
    Low(nonce + 1, p.nonceLength)
  }

  /** The bytes a backend gets for a counter value. */
  function NonceBytes(n: nat, size: nat): (r: Bytes)
    ensures |r| == size
  {
    ToLE(Low(n, 8 * size), size)
  }

  // ---- Opening --------------------------------------------------------------------------------

  function Open(p: Primitive, st: Opening, buf: Bytes): Step<Opening, byte> {
    var next := NextNonce(p, st.nonce);
    match st.declen
    case None =>
      if |buf| < 2 + p.tagLength then More
      else (match p.unseal(st.key, st.nonce, buf[..2], buf[2..2 + p.tagLength])
            case None => Fail
            case Some(m) =>
              if FromBE(m) > PACKET_LIMIT then Fail
              else Next(Opening(st.key, next, Some(FromBE(m))), 2 + p.tagLength, []))
    case Some(n) =>
      if |buf| < n + p.tagLength then More
      else match p.unseal(st.key, st.nonce, buf[..n], buf[n..n + p.tagLength])
           case None => Fail
           case Some(m) => Next(Opening(st.key, next, None), n + p.tagLength, m)
  }

  function Opener(p: Primitive): Framer<Opening, byte> {
    Framer((st: Opening, buf: Bytes) => Open(p, st, buf),
           (st: Opening) => if st.declen.Some? then 1 else 0)
  }

  lemma {:induction false} OpenerStable(p: Primitive)
    ensures Stable(Opener(p))
  {
    var f := Opener(p);
    forall st, buf, x | !f.step(st, buf).More?
      ensures f.step(st, buf + x) == f.step(st, buf)
    {
      match st.declen
      case None =>
        assert (buf + x)[..2] == buf[..2];
        assert (buf + x)[2..2 + p.tagLength] == buf[2..2 + p.tagLength];
      case Some(n) =>
        assert (buf + x)[..n] == buf[..n];
        assert (buf + x)[n..n + p.tagLength] == buf[n..n + p.tagLength];
    }
  }

  /** A packet part that is consumed shortens the buffer or completes a body. */
  lemma {:induction false} OpenAdvances(p: Primitive, st: Opening, buf: Bytes)
    requires Open(p, st, buf).Next?
    ensures var n := Open(p, st, buf);
            && n.used <= |buf|
            && (n.used > 0 || (st.declen.Some? && n.state.declen.None?))
  {
    hide FromBE;
  }

  // ---- Sealing --------------------------------------------------------------------------------

  /** The packets of one `encrypt` call, with the next nonce. */
  function Packets(p: Primitive, key: Bytes, nonce: nat, s: Bytes): (r: (nat, Bytes))
    decreases |s|
  {
    if s == [] then (nonce, [])
    else
      var n := if |s| < PACKET_LIMIT then |s| else PACKET_LIMIT;
      var head := Packet(p, key, nonce, s[..n]);
      var (last, rest) := Packets(p, key, NextNonce(p, NextNonce(p, nonce)), s[n..]);
      (last, head + rest)
  }

  lemma {:induction false} PacketsEnd(p: Primitive, key: Bytes, nonce: nat)
    ensures Packets(p, key, nonce, []) == (nonce, [])
  {
  }

  lemma {:induction false} PacketsStep(p: Primitive, key: Bytes, nonce: nat, s: Bytes, n: nat)
    requires s != [] && n == if |s| < PACKET_LIMIT then |s| else PACKET_LIMIT
    ensures var (last, rest) := Packets(p, key, NextNonce(p, NextNonce(p, nonce)), s[n..]);
            Packets(p, key, nonce, s) == (last, Packet(p, key, nonce, s[..n]) + rest)
  {
    hide Packet, NextNonce;
  }

  function Packet(p: Primitive, key: Bytes, nonce: nat, body: Bytes): Bytes
    requires |body| <= PACKET_LIMIT
  {
    TwoBytes(|body|);
    var (c, t) := p.seal(key, nonce, ToBE(|body|, 2));
    var (d, u) := p.seal(key, NextNonce(p, nonce), body);
    c + t + d + u
  }

  lemma {:induction false} HeadTurn(p: Primitive, key: Bytes, nonce: nat, n: nat)
    requires Sound(p) && n <= PACKET_LIMIT
    ensures Pow2(8 * 2) > n
    ensures var (c, t) := p.seal(key, nonce, ToBE(n, 2));
            Open(p, Opening(key, nonce, None), c + t) ==
            Next(Opening(key, NextNonce(p, nonce), Some(n)), |c + t|, [])
  {
    TwoBytes(n);
    var (c, t) := p.seal(key, nonce, ToBE(n, 2));
    assert p.unseal(key, nonce, c, t) == Some(ToBE(n, 2)) && |c| == 2 && |t| == p.tagLength;
    assert (c + t)[..2] == c && (c + t)[2..2 + p.tagLength] == t;
  }

  lemma {:induction false} BodyTurn(p: Primitive, key: Bytes, nonce: nat, body: Bytes)
    requires Sound(p) && |body| <= PACKET_LIMIT
    ensures var (d, u) := p.seal(key, nonce, body);
            Open(p, Opening(key, nonce, Some(|body|)), d + u) ==
            Next(Opening(key, NextNonce(p, nonce), None), |d + u|, body)
  {
    var (d, u) := p.seal(key, nonce, body);
    assert p.unseal(key, nonce, d, u) == Some(body) && |d| == |body| && |u| == p.tagLength;
    assert (d + u)[..|body|] == d && (d + u)[|body|..|body| + p.tagLength] == u;
  }

  lemma {:induction false} PacketOpens(p: Primitive, key: Bytes, nonce: nat, body: Bytes, rest: Bytes)
    requires Sound(p) && |body| <= PACKET_LIMIT
    ensures Drain(Opener(p), Opening(key, nonce, None), Packet(p, key, nonce, body) + rest) ==
            Prefixed(body, Drain(Opener(p), Opening(key, NextNonce(p, NextNonce(p, nonce)), None), rest))
  {
    hide Drain, Stable, Sound, Open;
    var f := Opener(p);
    var n1 := NextNonce(p, nonce);
    HeadTurn(p, key, nonce, |body|);
    BodyTurn(p, key, n1, body);
    OpenerStable(p);
    var (c, t) := p.seal(key, nonce, ToBE(|body|, 2));
    var (d, u) := p.seal(key, n1, body);
    var s2 := Opening(key, NextNonce(p, n1), None);
    DrainTurn(f, Opening(key, nonce, None), c + t, d + u + rest);
    DrainTurn(f, Opening(key, n1, Some(|body|)), d + u, rest);
    assert Packet(p, key, nonce, body) + rest == (c + t) + (d + u + rest);
    PrefixedUnit(Prefixed(body, Drain(f, s2, rest)));
  }

  lemma {:induction false} NothingDrains(p: Primitive, key: Bytes, nonce: nat)
    ensures Drain(Opener(p), Opening(key, nonce, None), []) == Some(((Opening(key, nonce, None), []), []))
  {
  }

  lemma {:induction false} PacketsOpen(p: Primitive, key: Bytes, nonce: nat, s: Bytes)
    requires Sound(p)
    ensures Drain(Opener(p), Opening(key, nonce, None), Packets(p, key, nonce, s).1) ==
            Some(((Opening(key, Packets(p, key, nonce, s).0, None), []), s))
    decreases |s|
  {
    hide Packet, Packets, Sound, Drain, NextNonce;
    if s == [] {
      PacketsEnd(p, key, nonce);
      NothingDrains(p, key, nonce);
    } else {
      var n := if |s| < PACKET_LIMIT then |s| else PACKET_LIMIT;
      var n2 := NextNonce(p, NextNonce(p, nonce));
      PacketsOpen(p, key, n2, s[n..]);
      PacketsStep(p, key, nonce, s, n);
      PacketOpens(p, key, nonce, s[..n], Packets(p, key, n2, s[n..]).1);
      assert s[..n] + s[n..] == s;
    }
  }

  // ---- As a cipher of the stream adapter ------------------------------------------------------

  type State = (Opening, Bytes)

  /** `setup_iv` derives the subkey from the vector and resets the packet state. */
  function AeadCipher(p: Primitive, ivLength: nat, subkey: Bytes -> Bytes): A.Cipher<State> {
    A.Cipher(
      ivLength,
      (iv: Bytes) => (Opening(subkey(iv), 0, None), []),
      Framed(Opener(p)).feed,
      (st: State, s: Bytes) =>
        var (n, out) := Packets(p, st.0.key, st.0.nonce, s);
        Some(((st.0.(nonce := n), st.1), out)))
  }

  predicate Live(p: Primitive, st: State) {
    Framed(Opener(p)).ready(st)
  }

  /** Both ends hold the same subkey and the same nonce, and no packet is half read. */
  predicate LockStep(w: State, r: State) {
    w.0.key == r.0.key && w.0.nonce == r.0.nonce && r.0.declen == None && r.1 == []
  }

  /** Opening inverts sealing write by write, keeps the nonces equal, and does not depend on how the
      packets were chunked. */
  lemma {:induction false} AeadInverts(p: Primitive, ivLength: nat, subkey: Bytes -> Bytes)
    requires Sound(p)
    ensures A.CipherInverts(AeadCipher(p, ivLength, subkey), (st: State) => Live(p, st), LockStep)
  {
    var k := AeadCipher(p, ivLength, subkey);
    var d := A.CipherDecoder(k, (st: State) => Live(p, st));
    OpenerStable(p);
    FramedLawful(Opener(p));
    LawfulSame(Framed(Opener(p)), d);
    forall w, r, x | LockStep(w, r) && A.Single(k.encrypt).write(w, x).Some?
      ensures Undone(A.Single(k.encrypt).write(w, x).value, d, r, LockStep, Same(x))
    {
      var (n, out) := Packets(p, w.0.key, w.0.nonce, x);
      PacketsOpen(p, w.0.key, w.0.nonce, x);
      FlattenOne(out);
      assert r.0 == Opening(w.0.key, w.0.nonce, None);
      assert [] + out == out;
    }
  }

  lemma {:induction false} LawfulSame<S(!new)>(c: Decoder<S, byte>, d: Decoder<S, byte>)
    requires Lawful(c)
    requires forall s :: c.ready(s) == d.ready(s)
    requires forall s, a :: c.feed(s, a) == d.feed(s, a)
    ensures Lawful(d)
  {
    forall s, a, b | d.ready(s)
      ensures d.feed(s, a + b) == Then(d, d.feed(s, a), b)
    {
      assert c.feed(s, a + b) == Then(c, c.feed(s, a), b);
    }
  }

  // ---- Bounds and nonces ----------------------------------------------------------------------

  predicate WithinLimit(st: Opening) {
    st.declen.Some? ==> st.declen.value <= PACKET_LIMIT
  }

  /** After a successful call less than one full packet is retained, on any input. */
  lemma {:induction false} RetainedBound(p: Primitive, st: Opening, buf: Bytes)
    requires WithinLimit(st)
    requires Drain(Opener(p), st, buf).Some?
    ensures var (t, rest) := Drain(Opener(p), st, buf).value.0;
            WithinLimit(t) && |rest| < PACKET_LIMIT + p.tagLength
    decreases |buf|, if st.declen.Some? then 1 else 0
  {
    var n := Open(p, st, buf);
    if n.Next? { RetainedBound(p, n.state, buf[n.used..]); }
  }

  /** The nonce of the k-th seal or unseal of a session, counted from zero. */
  function NonceOf(p: Primitive, k: nat): nat {
    if k == 0 then 0 else NextNonce(p, NonceOf(p, k - 1))
  }

  lemma {:induction false} NonceIsCounter(p: Primitive, k: nat)
    ensures NonceOf(p, k) == Low(k, p.nonceLength)
  {
    if k == 0 {
      LowSmall(0, p.nonceLength);
    } else {
      NonceIsCounter(p, k - 1);
      LowAddOne(k - 1, p.nonceLength);
    }
  }

  /** Packets of a call: two nonces each, so both ends reach the same counter. */
  function PacketCount(s: Bytes): nat
    decreases |s|
  {
    if s == [] then 0
    else 1 + PacketCount(if |s| < PACKET_LIMIT then [] else s[PACKET_LIMIT..])
  }

  lemma {:induction false} SealedNonce(p: Primitive, key: Bytes, k: nat, s: Bytes)
    ensures Packets(p, key, NonceOf(p, k), s).0 == NonceOf(p, k + 2 * PacketCount(s))
    decreases |s|
  {
    if s != [] {
      var n := if |s| < PACKET_LIMIT then |s| else PACKET_LIMIT;
      assert s[n..] == if |s| < PACKET_LIMIT then [] else s[PACKET_LIMIT..];
      assert NonceOf(p, k + 2) == NextNonce(p, NextNonce(p, NonceOf(p, k)));
      SealedNonce(p, key, k + 2, s[n..]);
    }
  }

  /** Two operations share a nonce exactly when their numbers agree modulo `2^NONCE_LENGTH`; with the
      12-byte nonces of the registry that is every 4096 operations. */
  lemma {:induction false} NonceReuse(p: Primitive, i: nat, j: nat)
    requires i <= j
    ensures NonceOf(p, i) == NonceOf(p, j) <==> Low(j - i, p.nonceLength) == 0
  {
    NonceIsCounter(p, i);
    NonceIsCounter(p, j);
    LowDiff(i, j, p.nonceLength);
  }

  /** The bytes of operation k are those of its number under the bit mask. */
  lemma {:induction false} NonceBytesOf(p: Primitive, k: nat, size: nat)
    requires p.nonceLength <= 8 * size
    ensures FromLE(NonceBytes(NonceOf(p, k), size)) == Low(k, p.nonceLength)
  {
    hide ToLE, FromLE, Low, Pow2;
    var n := NonceOf(p, k);
    NonceIsCounter(p, k);
    Pow2Grows(p.nonceLength, 8 * size);
    LowSmall(n, 8 * size);
    LERoundTrip(Low(n, 8 * size), size);
  }

  lemma {:induction false} Pow2Grows(m: nat, n: nat)
    requires m <= n
    ensures Pow2(m) <= Pow2(n)
  {
    if m < n { Pow2Grows(m, n - 1); }
  }

  /** So two operations hand their backend the same bytes exactly when their numbers agree modulo
      `2^NONCE_LENGTH`. */
  lemma {:induction false} NonceBytesReuse(p: Primitive, i: nat, j: nat, size: nat)
    requires i <= j && p.nonceLength <= 8 * size
    ensures NonceBytes(NonceOf(p, i), size) == NonceBytes(NonceOf(p, j), size) <==> Low(j - i, p.nonceLength) == 0
  {
    hide NonceBytes, FromLE, Low;
    NonceBytesOf(p, i, size);
    NonceBytesOf(p, j, size);
    LowDiff(i, j, p.nonceLength);
    if NonceOf(p, i) != NonceOf(p, j) {
      NonceReuse(p, i, j);
    }
    NonceIsCounter(p, i);
    NonceIsCounter(p, j);
  }

  lemma {:induction false} LowDiff(i: nat, j: nat, n: nat)
    requires i <= j
    ensures Low(i, n) == Low(j, n) <==> Low(j - i, n) == 0
  {
    if n != 0 {
      LowStep(i, n);
      LowStep(j, n);
      LowStep(j - i, n);
      if i % 2 == j % 2 {
        assert (j - i) / 2 == j / 2 - i / 2 && (j - i) % 2 == 0;
        LowDiff(i / 2, j / 2, n - 1);
      } else {
        assert (j - i) % 2 == 1;
      }
    }
  }

  // ---- What is sealed under which number ------------------------------------------------------

  /** A packet whose first operation is number k: the two-byte length, then the body. */
  function SealedPacket(p: Primitive, key: Bytes, k: nat, body: Bytes): Bytes
    requires |body| <= 0x3fff
  {
    var (c, t) := p.seal(key, Low(k, p.nonceLength), [|body| / 256, |body| % 256]);
    var (d, u) := p.seal(key, Low(k + 1, p.nonceLength), body);
    c + t + d + u
  }

  function SealedPackets(p: Primitive, key: Bytes, k: nat, bodies: seq<Bytes>): Bytes
    requires forall i | 0 <= i < |bodies| :: |bodies[i]| <= 0x3fff
    decreases |bodies|
  {
    if bodies == [] then []
    else SealedPacket(p, key, k, bodies[0]) + SealedPackets(p, key, k + 2, bodies[1..])
  }

  /** One call seals slices of 16383 bytes, each with two operations, from number k on. */
  lemma {:induction false} PacketsLayout(p: Primitive, key: Bytes, k: nat, s: Bytes)
    ensures forall i | 0 <= i < |Slices(s, 0x3fff)| :: |Slices(s, 0x3fff)[i]| <= 0x3fff
    ensures var bodies := Slices(s, 0x3fff);
            Packets(p, key, NonceOf(p, k), s) ==
            (NonceOf(p, k + 2 * |bodies|), SealedPackets(p, key, k, bodies))
    decreases |s|
  {
    hide Packet, SealedPacket, Packets, SealedPackets, Slices, NonceOf, NextNonce;
    SlicesOf(s, 0x3fff);
    if s == [] {
      PacketsEnd(p, key, NonceOf(p, k));
      NothingSealed(p, key, k);
      NoSlices();
    } else {
      var n := if |s| < PACKET_LIMIT then |s| else PACKET_LIMIT;
      PacketLayout(p, key, k, s[..n]);
      PacketsStep(p, key, NonceOf(p, k), s, n);
      PacketsLayout(p, key, k + 2, s[n..]);
      NonceAfterTwo(p, k);
      FirstSlice(s, n);
      SealedCons(p, key, k, s[..n], Slices(s[n..], 0x3fff));
    }
  }

  lemma {:induction false} NonceAfterTwo(p: Primitive, k: nat)
    ensures NonceOf(p, k + 2) == NextNonce(p, NextNonce(p, NonceOf(p, k)))
  {
    hide NextNonce;
    assert NonceOf(p, k + 1) == NextNonce(p, NonceOf(p, k));
  }

  lemma {:induction false} NoSlices()
    ensures Slices([], 0x3fff) == []
  {
  }

  lemma {:induction false} SealedCons(p: Primitive, key: Bytes, k: nat, body: Bytes, rest: seq<Bytes>)
    requires |body| <= 0x3fff && forall i | 0 <= i < |rest| :: |rest[i]| <= 0x3fff
    ensures SealedPackets(p, key, k, [body] + rest) ==
            SealedPacket(p, key, k, body) + SealedPackets(p, key, k + 2, rest)
  {
    hide SealedPacket;
    assert ([body] + rest)[1..] == rest;
  }

  lemma {:induction false} FirstSlice(s: Bytes, n: nat)
    requires s != [] && n == if |s| < 0x3fff then |s| else 0x3fff
    ensures Slices(s, 0x3fff) == [s[..n]] + Slices(s[n..], 0x3fff)
    ensures Slices(s, 0x3fff)[0] == s[..n] && Slices(s, 0x3fff)[1..] == Slices(s[n..], 0x3fff)
  {
    if |s| <= 0x3fff {
      assert s[..n] == s && s[n..] == [];
      assert [s] + Slices([], 0x3fff) == [s];
    }
  }

  lemma {:induction false} PacketLayout(p: Primitive, key: Bytes, k: nat, body: Bytes)
    requires |body| <= PACKET_LIMIT
    ensures Packet(p, key, NonceOf(p, k), body) == SealedPacket(p, key, k, body)
  {
    TwoBytes(|body|);
    NonceIsCounter(p, k);
    NonceIsCounter(p, k + 1);
    assert NonceOf(p, k + 1) == NextNonce(p, NonceOf(p, k));
  }

  /** The packet bodies of several writes, in order. */
  function Bodies(writes: seq<Bytes>): seq<Bytes> {
    if writes == [] then [] else Slices(writes[0], 0x3fff) + Bodies(writes[1..])
  }

  lemma {:induction false} BodiesFit(writes: seq<Bytes>)
    ensures forall i | 0 <= i < |Bodies(writes)| :: |Bodies(writes)[i]| <= 0x3fff
  {
    if writes != [] {
      SlicesOf(writes[0], 0x3fff);
      BodiesFit(writes[1..]);
    }
  }

  lemma {:induction false} SealedAppend(p: Primitive, key: Bytes, k: nat, a: seq<Bytes>, b: seq<Bytes>)
    requires forall i | 0 <= i < |a| :: |a[i]| <= 0x3fff
    requires forall i | 0 <= i < |b| :: |b[i]| <= 0x3fff
    ensures SealedPackets(p, key, k, a + b) ==
            SealedPackets(p, key, k, a) + SealedPackets(p, key, k + 2 * |a|, b)
    decreases |a|
  {
    hide SealedPacket;
    if a == [] {
      assert a + b == b;
    } else {
      SealedAppend(p, key, k + 2, a[1..], b);
      assert (a + b)[0] == a[0] && (a + b)[1..] == a[1..] + b;
    }
  }

  /** A session numbers its operations from zero, on through all its writes. */
  lemma {:induction false} SessionSeals(
    p: Primitive, ivLength: nat, subkey: Bytes -> Bytes, iv: Bytes, writes: seq<Bytes>)
    ensures forall i | 0 <= i < |Bodies(writes)| :: |Bodies(writes)[i]| <= 0x3fff
    ensures var k := AeadCipher(p, ivLength, subkey);
            var r := WriteAll(A.Single(k.encrypt), k.start(iv), writes);
            r.Some? && Flatten(r.value.1) == SealedPackets(p, subkey(iv), 0, Bodies(writes))
  {
    BodiesFit(writes);
    SealsFrom(p, ivLength, subkey, (Opening(subkey(iv), 0, None), []), 0, writes);
  }

  lemma {:induction false} SealsFrom(
    p: Primitive, ivLength: nat, subkey: Bytes -> Bytes, st: State, k: nat, writes: seq<Bytes>)
    requires st.0.nonce == NonceOf(p, k)
    ensures forall i | 0 <= i < |Bodies(writes)| :: |Bodies(writes)[i]| <= 0x3fff
    ensures var r := WriteAll(A.Single(AeadCipher(p, ivLength, subkey).encrypt), st, writes);
            r.Some? && Flatten(r.value.1) == SealedPackets(p, st.0.key, k, Bodies(writes))
    decreases |writes|
  {
    hide Packets, SealedPackets, NonceOf;
    BodiesFit(writes);
    var e := A.Single(AeadCipher(p, ivLength, subkey).encrypt);
    if writes == [] {
      NothingSealed(p, st.0.key, k);
    } else {
      var x := writes[0];
      var (n, out) := Packets(p, st.0.key, st.0.nonce, x);
      PacketsLayout(p, st.0.key, k, x);
      var next := (st.0.(nonce := n), st.1);
      assert e.write(st, x) == Some((next, [out]));
      SealsFrom(p, ivLength, subkey, next, k + 2 * |Slices(x, 0x3fff)|, writes[1..]);
      BodiesFit(writes[1..]);
      SealedAppend(p, st.0.key, k, Slices(x, 0x3fff), Bodies(writes[1..]));
      FlattenCons(out, WriteAll(e, next, writes[1..]).value.1);
    }
  }

  lemma {:induction false} NothingSealed(p: Primitive, key: Bytes, k: nat)
    ensures SealedPackets(p, key, k, []) == []
  {
  }

  // ---- What is accepted -----------------------------------------------------------------------

  /** A sealed text, its tag, and what they open to. */
  datatype Piece = Piece(sealed: Bytes, tag: Bytes, text: Bytes)

  predicate Opens(p: Primitive, key: Bytes, k: nat, piece: Piece) {
    && |piece.tag| == p.tagLength
    && p.unseal(key, NonceOf(p, k), piece.sealed, piece.tag) == Some(piece.text)
  }

  /** From operation k on: a two-byte length of at most 16383, a body of that length, and so on. */
  predicate Chained(p: Primitive, key: Bytes, k: nat, pieces: seq<Piece>)
    decreases |pieces|
  {
    pieces != [] ==>
      && Opens(p, key, k, pieces[0]) && |pieces[0].sealed| == 2 && FromBE(pieces[0].text) <= 0x3fff
      && (|pieces| > 1 ==>
            && Opens(p, key, k + 1, pieces[1]) && |pieces[1].sealed| == FromBE(pieces[0].text)
            && Chained(p, key, k + 2, pieces[2..]))
  }

  function Joined(pieces: seq<Piece>): Bytes
    decreases |pieces|
  {
    if pieces == [] then [] else pieces[0].sealed + pieces[0].tag + Joined(pieces[1..])
  }

  function Texts(pieces: seq<Piece>): Bytes
    decreases |pieces|
  {
    if |pieces| < 2 then [] else pieces[1].text + Texts(pieces[2..])
  }

  lemma {:induction false} HeadDrain(p: Primitive, key: Bytes, k: nat, buf: Bytes)
    ensures var f, n := Opener(p), 2 + p.tagLength;
            Drain(f, Opening(key, NonceOf(p, k), None), buf) ==
            if |buf| < n then Some(((Opening(key, NonceOf(p, k), None), buf), []))
            else
              match p.unseal(key, NonceOf(p, k), buf[..2], buf[2..n])
              case None => None
              case Some(m) =>
                if FromBE(m) > 0x3fff then None
                else Drain(f, Opening(key, NonceOf(p, k + 1), Some(FromBE(m))), buf[n..])
  {
    hide Stable, Drain, FromBE;
    var st := Opening(key, NonceOf(p, k), None);
    OpenerStable(p);
    DrainStep(Opener(p), st, buf);
    var s := Open(p, st, buf);
    if s.Next? { PrefixedUnit(Drain(Opener(p), s.state, buf[s.used..])); }
  }

  lemma {:induction false} BodyDrain(p: Primitive, key: Bytes, k: nat, len: nat, buf: Bytes)
    ensures var f, n := Opener(p), len + p.tagLength;
            Drain(f, Opening(key, NonceOf(p, k), Some(len)), buf) ==
            if |buf| < n then Some(((Opening(key, NonceOf(p, k), Some(len)), buf), []))
            else
              match p.unseal(key, NonceOf(p, k), buf[..len], buf[len..n])
              case None => None
              case Some(m) => Prefixed(m, Drain(f, Opening(key, NonceOf(p, k + 1), None), buf[n..]))
  {
    hide Stable, Drain;
    OpenerStable(p);
    DrainStep(Opener(p), Opening(key, NonceOf(p, k), Some(len)), buf);
  }

  /** Only what opens in order is delivered: accepted input is lengths and bodies that open under the numbers
      from k on, with an incomplete one behind them, and the texts of the bodies are what is delivered. */
  lemma {:induction false} DeliversOpened(p: Primitive, key: Bytes, k: nat, buf: Bytes) returns (pieces: seq<Piece>)
    requires Drain(Opener(p), Opening(key, NonceOf(p, k), None), buf).Some?
    ensures var ((st, left), out) := Drain(Opener(p), Opening(key, NonceOf(p, k), None), buf).value;
            && Chained(p, key, k, pieces) && buf == Joined(pieces) + left && out == Texts(pieces)
            && st.key == key && st.nonce == NonceOf(p, k + |pieces|)
            && st.declen.Some? == (|pieces| % 2 == 1)
            && (st.declen.Some? ==> st.declen == Some(FromBE(pieces[|pieces| - 1].text)))
            && |left| < p.tagLength + if st.declen.Some? then st.declen.value else 2
    decreases |buf|
  {
    hide Drain, FromBE, NonceOf, Joined, Texts, Chained, Opens, Opener;
    HeadDrain(p, key, k, buf);
    pieces := [];
    NoPieces(p, key, k);
    if |buf| >= 2 + p.tagLength {
      var head := HeadPiece(p, key, k, buf);
      var rest := buf[2 + p.tagLength..];
      var len := FromBE(head.text);
      BodyDrain(p, key, k + 1, len, rest);
      if |rest| >= len + p.tagLength {
        var body := BodyPiece(p, key, k + 1, len, rest);
        var more := rest[len + p.tagLength..];
        var tail := DeliversOpened(p, key, k + 2, more);
        pieces := [head, body] + tail;
        TwoMore(p, key, k, head, body, tail);
      } else {
        pieces := [head];
        OneMore(p, key, k, head);
      }
    }
  }

  lemma {:induction false} HeadPiece(p: Primitive, key: Bytes, k: nat, buf: Bytes) returns (head: Piece)
    requires Drain(Opener(p), Opening(key, NonceOf(p, k), None), buf).Some? && |buf| >= 2 + p.tagLength
    ensures Opens(p, key, k, head) && |head.sealed| == 2 && FromBE(head.text) <= 0x3fff
    ensures buf == head.sealed + head.tag + buf[2 + p.tagLength..]
    ensures Drain(Opener(p), Opening(key, NonceOf(p, k), None), buf) ==
            Drain(Opener(p), Opening(key, NonceOf(p, k + 1), Some(FromBE(head.text))), buf[2 + p.tagLength..])
  {
    hide Drain, FromBE, NonceOf, Opener;
    HeadDrain(p, key, k, buf);
    var h := 2 + p.tagLength;
    head := Piece(buf[..2], buf[2..h], p.unseal(key, NonceOf(p, k), buf[..2], buf[2..h]).value);
  }

  lemma {:induction false} BodyPiece(p: Primitive, key: Bytes, k: nat, len: nat, buf: Bytes) returns (body: Piece)
    requires Drain(Opener(p), Opening(key, NonceOf(p, k), Some(len)), buf).Some? && |buf| >= len + p.tagLength
    ensures Opens(p, key, k, body) && |body.sealed| == len
    ensures buf == body.sealed + body.tag + buf[len + p.tagLength..]
    ensures Drain(Opener(p), Opening(key, NonceOf(p, k), Some(len)), buf) ==
            Prefixed(body.text, Drain(Opener(p), Opening(key, NonceOf(p, k + 1), None), buf[len + p.tagLength..]))
  {
    hide Drain, NonceOf, Opener;
    BodyDrain(p, key, k, len, buf);
    var n := len + p.tagLength;
    body := Piece(buf[..len], buf[len..n], p.unseal(key, NonceOf(p, k), buf[..len], buf[len..n]).value);
  }

  lemma {:induction false} NoPieces(p: Primitive, key: Bytes, k: nat)
    ensures Chained(p, key, k, []) && Joined([]) == [] && Texts([]) == []
  {
  }

  lemma {:induction false} OneMore(p: Primitive, key: Bytes, k: nat, head: Piece)
    requires Opens(p, key, k, head) && |head.sealed| == 2 && FromBE(head.text) <= 0x3fff
    ensures Chained(p, key, k, [head]) && Joined([head]) == head.sealed + head.tag && Texts([head]) == []
  {
    hide FromBE, NonceOf;
    assert [head][1..] == [];
  }

  lemma {:induction false} TwoMore(p: Primitive, key: Bytes, k: nat, head: Piece, body: Piece, tail: seq<Piece>)
    requires Opens(p, key, k, head) && |head.sealed| == 2 && FromBE(head.text) <= 0x3fff
    requires Opens(p, key, k + 1, body) && |body.sealed| == FromBE(head.text) && Chained(p, key, k + 2, tail)
    ensures var pieces := [head, body] + tail;
            && Chained(p, key, k, pieces) && Texts(pieces) == body.text + Texts(tail)
            && Joined(pieces) == head.sealed + head.tag + (body.sealed + body.tag + Joined(tail))
  {
    hide FromBE, NonceOf;
    var pieces := [head, body] + tail;
    assert pieces[1..][1..] == tail && pieces[2..] == tail && pieces[1..][0] == body;
  }

  /** And all such input is accepted: every chain of whole packets is delivered. */
  lemma {:induction false} OpenedDelivered(p: Primitive, key: Bytes, k: nat, pieces: seq<Piece>)
    requires Chained(p, key, k, pieces) && |pieces| % 2 == 0
    ensures Drain(Opener(p), Opening(key, NonceOf(p, k), None), Joined(pieces)) ==
            Some(((Opening(key, NonceOf(p, k + |pieces|), None), []), Texts(pieces)))
    decreases |pieces|
  {
    hide Drain, FromBE, NonceOf;
    var buf := Joined(pieces);
    HeadDrain(p, key, k, buf);
    if pieces != [] {
      var head, body, tail := pieces[0], pieces[1], pieces[2..];
      assert pieces[1..][1..] == tail && pieces[1..][0] == body;
      var len, h := FromBE(head.text), 2 + p.tagLength;
      var rest := body.sealed + body.tag + Joined(tail);
      assert Joined(pieces[1..]) == rest;
      assert buf == head.sealed + head.tag + rest;
      assert buf[..2] == head.sealed && buf[2..h] == head.tag && buf[h..] == rest;
      BodyDrain(p, key, k + 1, len, rest);
      var n := len + p.tagLength;
      assert rest[..len] == body.sealed && rest[len..n] == body.tag && rest[n..] == Joined(tail);
      OpenedDelivered(p, key, k + 2, tail);
    }
  }

  // ---- The object -----------------------------------------------------------------------------

  class AEADCipher {
    const primitive: Primitive
    var key: Bytes
    var nonce: nat
    var buffer: Bytes
    var declen: Option<nat>

    constructor (p: Primitive, subkey: Bytes)
      ensures primitive == p && key == subkey && nonce == 0 && buffer == [] && declen == None
    {
      primitive, key, nonce, buffer, declen := p, subkey, 0, [], None;
    }

    ghost function State(): Opening
      reads this
    {
      Opening(key, nonce, declen)
    }

    method TakeNonce() returns (n: nat)
      modifies this`nonce
      ensures n == old(nonce) && nonce == NextNonce(primitive, old(nonce))
    {
      n := nonce;
      nonce := Low(nonce + 1, primitive.nonceLength);
    }

    method DecryptAndVerify(c: Bytes, tag: Bytes) returns (m: Option<Bytes>)
      modifies this`nonce
      ensures m == primitive.unseal(key, old(nonce), c, tag) && nonce == NextNonce(primitive, old(nonce))
    {
      var n := TakeNonce();
      m := primitive.unseal(key, n, c, tag);
    }

    method EncryptAndDigest(m: Bytes) returns (c: Bytes, tag: Bytes)
      modifies this`nonce
      ensures (c, tag) == primitive.seal(key, old(nonce), m) && nonce == NextNonce(primitive, old(nonce))
    {
      var n := TakeNonce();
      var sealed := primitive.seal(key, n, m);
      c, tag := sealed.0, sealed.1;
    }

    /** One pass of the loop body: a length or a body, if all of it has arrived. */
    method OpenNext() returns (waiting: bool, failed: bool, out: Bytes)
      modifies this`nonce, this`buffer, this`declen
      ensures match Open(primitive, old(State()), old(buffer))
              case More => waiting && State() == old(State()) && buffer == old(buffer)
              case Fail => !waiting && failed
              case Next(st, used, o) =>
                && !waiting && !failed && out == o
                && State() == st && used <= |old(buffer)| && buffer == old(buffer)[used..]
    {
      hide FromBE;
      var p := primitive;
      waiting, failed, out := false, false, [];
      if declen.None? {
        if |buffer| < 2 + p.tagLength {
          waiting := true;
          return;
        }
        var m := DecryptAndVerify(buffer[..2], buffer[2..2 + p.tagLength]);
        failed := m.None? || FromBE(m.value) > PACKET_LIMIT;
        if !failed {
          declen := Some(FromBE(m.value));
          buffer := buffer[2 + p.tagLength..];
        }
      } else {
        var l := declen.value;
        if |buffer| < l + p.tagLength {
          waiting := true;
          return;
        }
        var m := DecryptAndVerify(buffer[..l], buffer[l..l + p.tagLength]);
        failed := m.None?;
        if !failed {
          out := m.value;
          buffer := buffer[l + p.tagLength..];
          declen := None;
        }
      }
    }

    /** `None` when a packet is rejected; the packet state is discarded then. */
    method Decrypt(s: Bytes) returns (plain: Option<Bytes>)
      modifies this`nonce, this`buffer, this`declen
      ensures match Drain(Opener(primitive), old(State()), old(buffer) + s)
              case None => plain == None && buffer == [] && declen == None
              case Some(((st, rest), out)) => plain == Some(out) && State() == st && buffer == rest
    {
      hide Drain, Stable, Prefixed, Open;
      ghost var f := Opener(primitive);
      ghost var all := Drain(f, State(), buffer + s);
      buffer := buffer + s;
      var ret: Bytes := [];
      PrefixedUnit(all);
      while true
        invariant all == Prefixed(ret, Drain(f, State(), buffer))
        decreases |buffer|, if declen.Some? then 1 else 0
      {
        OpenerStable(primitive);
        DrainStep(f, State(), buffer);
        ghost var st, prev, got := State(), buffer, ret;
        if Open(primitive, st, prev).Next? { OpenAdvances(primitive, st, prev); }
        var waiting, failed, out := OpenNext();
        if waiting {
          PrefixedOf(ret, Some(((State(), buffer), [])));
          assert ret + [] == ret;
          return Some(ret);
        }
        if failed {
          PrefixedOf<(Opening, Bytes), byte>(ret, None);
          buffer, declen := [], None;
          return None;
        }
        ret := ret + out;
        PrefixedTwice(got, out, Drain(f, State(), buffer));
      }
    }

    /** One packet: the sealed length and the sealed body. */
    method SealPacket(buf: Bytes) returns (packet: Bytes)
      requires |buf| <= PACKET_LIMIT
      modifies this`nonce
      ensures packet == Packet(primitive, key, old(nonce), buf)
      ensures nonce == NextNonce(primitive, NextNonce(primitive, old(nonce)))
    {
      TwoBytes(|buf|);
      var c, t := EncryptAndDigest(ToBE(|buf|, 2));
      var d, u := EncryptAndDigest(buf);
      packet := c + t + d + u;
    }

    method Encrypt(s: Bytes) returns (out: Bytes)
      modifies this`nonce
      ensures (nonce, out) == Packets(primitive, key, old(nonce), s)
    {
      hide Packets, Packet, NextNonce;
      out := [];
      var i := 0;
      ghost var all := Packets(primitive, key, nonce, s);
      assert s[0..] == s && [] + all.1 == all.1;
      while i < |s|
        invariant i <= |s|
        invariant var (last, rest) := Packets(primitive, key, nonce, s[i..]);
                  all.0 == last && all.1 == out + rest
      {
        var end := if i + PACKET_LIMIT < |s| then i + PACKET_LIMIT else |s|;
        PacketsStep(primitive, key, nonce, s[i..], end - i);
        assert s[i..][..end - i] == s[i..end] && s[i..][end - i..] == s[end..];
        ghost var n := nonce;
        var packet := SealPacket(s[i..end]);
        ghost var rest := Packets(primitive, key, nonce, s[end..]).1;
        assert out + (packet + rest) == (out + packet) + rest;
        out := out + packet;
        i := end;
      }
      assert s[|s|..] == [];
      PacketsEnd(primitive, key, nonce);
      assert out + [] == out;
    }
  }
}
