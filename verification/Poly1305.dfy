/** Poly1305 (section 2.5 of RFC 8439) by Horner's rule with a reduction in every step, and the
    packet cipher built on it and a counter-mode stream (section 2.8). */
module Poly1305 {
  import opened Bits
  import opened ByteStrings
  import K = KeyStreams
  import E = Aead
  import X = ChaCha20

  // ---- The polynomial -------------------------------------------------------------------------

  function Pow(r: nat, n: nat): nat {
    if n == 0 then 1 else r * Pow(r, n - 1)
  }

  /** The sum of blocks times powers of r, never reduced. */
  function Sum(r: nat, blocks: seq<nat>): nat
    decreases |blocks|
  {
    if blocks == [] then 0 else blocks[0] * Pow(r, |blocks|) + Sum(r, blocks[1..])
  }

  /** The accumulator loop. */
  function Horner(p: nat, r: nat, acc: nat, blocks: seq<nat>): nat
    requires p > 0
    decreases |blocks|
  {
    if blocks == [] then acc else Horner(p, r, r * (acc + blocks[0]) % p, blocks[1..])
  }

  lemma {:induction false} DropMultiple(x: nat, k: nat, p: nat)
    requires p > 0
    ensures (x + k * p) % p == x % p
  {
    var q, m := x / p, x % p;
    assert x == q * p + m;
    assert x + k * p == (q + k) * p + m;
    Remainder(q + k, m, p);
  }

  lemma {:induction false} Regroup(x: nat, q: nat, m: nat, p: nat, k: nat, s: nat)
    requires x == q * p + m
    ensures x * k + s == m * k + s + (q * k) * p
  {
    assert x * k == q * p * k + m * k;
    assert q * p * k == (q * k) * p;
  }

  lemma {:induction false} ReduceFactor(x: nat, k: nat, s: nat, p: nat)
    requires p > 0
    ensures (x % p * k + s) % p == (x * k + s) % p
  {
    var q, m := x / p, x % p;
    assert x == q * p + m;
    Regroup(x, q, m, p, k, s);
    DropMultiple(m * k + s, q * k, p);
  }

  lemma {:induction false} OneStep(r: nat, acc: nat, b: nat, k: nat, s: nat)
    ensures r * (acc + b) * k + s == acc * (r * k) + (b * (r * k) + s)
  {
    assert r * (acc + b) == r * acc + r * b;
    assert (r * acc + r * b) * k == r * acc * k + r * b * k;
    assert r * acc * k == acc * (r * k);
    assert r * b * k == b * (r * k);
  }

  lemma {:induction false} HornerFrom(p: nat, r: nat, acc: nat, blocks: seq<nat>)
    requires acc < p
    ensures Horner(p, r, acc, blocks) == (acc * Pow(r, |blocks|) + Sum(r, blocks)) % p
    decreases |blocks|
  {
    if blocks == [] {
      assert acc * 1 + 0 == acc;
      SmallMod(acc, p);
    } else {
      var k, s := Pow(r, |blocks| - 1), Sum(r, blocks[1..]);
      var x := r * (acc + blocks[0]);
      HornerFrom(p, r, x % p, blocks[1..]);
      ReduceFactor(x, k, s, p);
      OneStep(r, acc, blocks[0], k, s);
    }
  }

  lemma {:induction false} SmallMod(x: nat, p: nat)
    requires x < p
    ensures x % p == x
  {
  }

  /** Reducing in every step gives the sum of blocks times powers of r, reduced once. */
  lemma {:induction false} HornerIsSum(p: nat, r: nat, blocks: seq<nat>)
    requires p > 0
    ensures Horner(p, r, 0, blocks) == Sum(r, blocks) % p
  {
    HornerFrom(p, r, 0, blocks);
  }

  lemma {:induction false} HornerSnoc(p: nat, r: nat, acc: nat, blocks: seq<nat>, b: nat)
    requires p > 0
    ensures Horner(p, r, acc, blocks + [b]) == r * (Horner(p, r, acc, blocks) + b) % p
    decreases |blocks|
  {
    if blocks == [] {
      assert [] + [b] == [b] && [b][1..] == [];
      assert Horner(p, r, acc, [b]) == Horner(p, r, r * (acc + b) % p, []);
    } else {
      HornerSnoc(p, r, r * (acc + blocks[0]) % p, blocks[1..], b);
      assert (blocks + [b])[1..] == blocks[1..] + [b];
    }
  }

  // ---- The message ----------------------------------------------------------------------------

  /** Lengths that eight bytes can hold. */
  const LIMIT: nat := 0x1_0000_0000_0000_0000

  /** Section 2.8 with no additional data: padding, eight zero bytes, the length. */
  function MacData(c: Bytes): (d: Bytes)
    requires |c| < LIMIT
    ensures |d| % 16 == 0
  {
    hide Zeros, Length;
    var z, l := Zeros(|c|), Length(|c|);
    Whole(|c|, |z|);
    c + z + l
  }

  lemma {:induction false} Whole(n: nat, z: nat)
    requires (n + z) % 16 == 8
    ensures (n + z + 8) % 16 == 0
  {
  }

  function Length(n: nat): (b: Bytes)
    requires n < LIMIT
    ensures |b| == 8
  {
    EightBytes(n);
    ToLE(n, 8)
  }

  function Zeros(n: nat): (z: Bytes)
    ensures (n + |z|) % 16 == 8
  {
    seq((16 - n % 16) % 16 + 8, _ => 0)
  }

  /** Each block with the bit above its top byte. */
  function Blocks(d: Bytes): (w: seq<nat>)
    requires |d| % 16 == 0
    decreases |d|
  {
    if d == [] then [] else [FromLE(d[..16] + [1])] + Blocks(d[16..])
  }

  lemma {:induction false} BlocksSnoc(d: Bytes, w: Bytes)
    requires |d| % 16 == 0 && |w| == 16
    ensures Blocks(d + w) == Blocks(d) + [FromLE(w + [1])]
    decreases |d|
  {
    hide FromLE;
    if d == [] {
      assert d + w == w && w[..16] == w && w[16..] == [];
    } else {
      BlocksSnoc(d[16..], w);
      assert (d + w)[..16] == d[..16] && (d + w)[16..] == d[16..] + w;
    }
  }

  /** The extra byte adds 2 to the power of the block's width. */
  lemma {:induction false} TopBit(w: Bytes)
    ensures FromLE(w + [1]) == FromLE(w) + Pow2(8 * |w|)
  {
    if w == [] {
      assert [] + [1] == [1] && [1][1..] == [];
      assert FromLE([1]) == 1 + 256 * FromLE([]);
    } else {
      TopBit(w[1..]);
      assert (w + [1])[1..] == w[1..] + [1];
      Pow2Byte(|w|);
    }
  }

  /** `2^n - 5`; the code's n is 130. */
  function Prime(n: nat): (p: nat)
    requires n >= 3
    ensures p > 0
  {
    assert Pow2(n) == 8 * Pow2(n - 3) by {
      assert Pow2(n) == 2 * Pow2(n - 1) && Pow2(n - 1) == 2 * Pow2(n - 2) && Pow2(n - 2) == 2 * Pow2(n - 3);
    }
    Pow2(n) - 5
  }

  const EXPONENT: nat := 130

  // ---- The clamp ------------------------------------------------------------------------------

  const CLAMP: nat := 0x0ffffffc0ffffffc0ffffffc0fffffff

  const CLAMP_BYTES: Bytes :=
    [0xff, 0xff, 0xff, 0x0f, 0xfc, 0xff, 0xff, 0x0f, 0xfc, 0xff, 0xff, 0x0f, 0xfc, 0xff, 0xff, 0x0f]

  function AndByte(a: byte, b: byte): byte {
    assert Pow2(8) == 256;
    AndBound(a, b, 8);
    And(a, b)
  }

  function AndBytes(a: Bytes, b: Bytes): (r: Bytes)
    requires |a| == |b|
    ensures |r| == |a|
  {
    seq(|a|, i requires 0 <= i < |a| => AndByte(a[i], b[i]))
  }

  lemma {:induction false} AndOfBytes(a: Bytes, b: Bytes)
    requires |a| == |b|
    ensures And(FromLE(a), FromLE(b)) == FromLE(AndBytes(a, b))
    decreases |a|
  {
    if a == [] {
      AndZero(0);
    } else {
      AndOfBytes(a[1..], b[1..]);
      assert AndBytes(a, b)[1..] == AndBytes(a[1..], b[1..]);
      assert Pow2(8) == 256;
      AndSplit(a[0], FromLE(a[1..]), b[0], FromLE(b[1..]), 8);
      ShlIsMul(FromLE(a[1..]), 8);
      ShlIsMul(FromLE(b[1..]), 8);
      ShlIsMul(And(FromLE(a[1..]), FromLE(b[1..])), 8);
    }
  }

  lemma {:induction false} FirstLE(a: byte, rest: Bytes)
    ensures FromLE([a] + rest) == a + 0x100 * FromLE(rest)
  {
    assert ([a] + rest)[1..] == rest;
  }

  lemma {:induction false} FourLE(a: byte, b: byte, c: byte, d: byte, rest: Bytes)
    ensures FromLE([a, b, c, d] + rest) == a + 0x100 * b + 0x1_0000 * c + 0x100_0000 * d + 0x1_0000_0000 * FromLE(rest)
  {
    hide FromLE;
    var r1, r2, r3 := [d] + rest, [c] + ([d] + rest), [b] + ([c] + ([d] + rest));
    FirstLE(d, rest);
    FirstLE(c, r1);
    FirstLE(b, r2);
    FirstLE(a, r3);
    assert [a] + r3 == [a, b, c, d] + rest;
  }

  lemma {:induction false} EmptyLE()
    ensures FromLE([]) == 0
  {
  }

  /** The mask is these bytes, read from the low end. */
  lemma {:induction false} ClampMask()
    ensures FromLE(CLAMP_BYTES) == CLAMP
  {
    hide FromLE;
    var none: Bytes := [];
    var w1: Bytes := [0xfc, 0xff, 0xff, 0x0f];
    var w2: Bytes := [0xfc, 0xff, 0xff, 0x0f] + w1;
    var w3: Bytes := [0xfc, 0xff, 0xff, 0x0f] + w2;
    EmptyLE();
    FourLE(0xfc, 0xff, 0xff, 0x0f, none);
    assert w1 + none == w1;
    FourLE(0xfc, 0xff, 0xff, 0x0f, w1);
    FourLE(0xfc, 0xff, 0xff, 0x0f, w2);
    FourLE(0xff, 0xff, 0xff, 0x0f, w3);
    assert CLAMP_BYTES == [0xff, 0xff, 0xff, 0x0f] + w3;
  }

  /** Section 2.5: the clamp clears the top four bits of bytes 3, 7, 11 and 15 and the low two bits of
      bytes 4, 8 and 12 of r, and nothing else. */
  lemma {:induction false} ClampClears(k: Bytes)
    requires |k| == 16
    ensures And(FromLE(k), CLAMP) == FromLE(AndBytes(k, CLAMP_BYTES))
    ensures forall i | 0 <= i < 16 ::
              AndBytes(k, CLAMP_BYTES)[i] ==
              if i % 4 == 3 then k[i] % 16 else if i % 4 == 0 && i > 0 then k[i] - k[i] % 4 else k[i]
  {
    hide And, FromLE;
    ClampMask();
    AndOfBytes(k, CLAMP_BYTES);
    forall i | 0 <= i < 16
      ensures AndBytes(k, CLAMP_BYTES)[i] ==
              if i % 4 == 3 then k[i] % 16 else if i % 4 == 0 && i > 0 then k[i] - k[i] % 4 else k[i]
    {
      MaskByte(k[i]);
    }
  }

  lemma {:induction false} SmallPowers()
    ensures Pow2(2) == 4 && Pow2(4) == 16 && Pow2(6) == 64 && Pow2(8) == 256
  {
  }

  lemma {:induction false} MaskByte(x: nat)
    requires x < 256
    ensures And(x, 0xff) == x && And(x, 0x0f) == x % 16 && And(x, 0xfc) == x - x % 4
  {
    hide And, Low, Pow2, Shl, Shr;
    SmallPowers();
    AndOnes(x, 8);
    LowSmall(x, 8);
    AndOnes(x, 4);
    LowIsMod(x, 4);
    var h, l := x / 4, x % 4;
    AndSplit(l, h, 0, 0x3f, 2);
    AndZero(l);
    AndOnes(h, 6);
    LowSmall(h, 6);
    ShlIsMul(h, 2);
    ShlIsMul(0x3f, 2);
  }

  // ---- The tag --------------------------------------------------------------------------------

  /** The stream of `cipher_encrypt` for a nonce and a first counter. */
  type Stream = (Bytes, nat) -> nat -> byte

  function Encrypt(ks: Stream, nonce: Bytes, s: Bytes, counter: nat): (r: Bytes)
    ensures |r| == |s|
  {
    K.AddStream(ks(nonce, counter), 0, s)
  }

  function OneTimeKey(ks: Stream, nonce: Bytes): (k: Bytes)
    ensures |k| == 32
  {
    Encrypt(ks, nonce, seq(32, _ => 0), 0)
  }

  /** The tag of section 2.5, from its polynomial: reduced once, then the low 128 bits of the sum
      with the second half of the key. */
  function Tag(ks: Stream, nonce: Bytes, c: Bytes): (t: Bytes)
    requires |c| < LIMIT
    ensures |t| == 16
  {
    var otk := OneTimeKey(ks, nonce);
    var r := And(FromLE(otk[..16]), CLAMP);
    var acc := Sum(r, Blocks(MacData(c))) % Prime(EXPONENT);
    ToLE(Low(acc + FromLE(otk[16..]), 8 * 16), 16)
  }

  /** `poly1305`; `None` is the `OverflowError` of a length that eight bytes cannot hold. */
  method Mac(ks: Stream, nonce: Bytes, c: Bytes) returns (t: Option<Bytes>)
    ensures t == if |c| < LIMIT then Some(Tag(ks, nonce, c)) else None
  {
    hide Horner, Sum, Prime, Pow2, Blocks, FromLE, And, Low, ToLE, K.AddStream, MacData, OneTimeKey;
    var otk := OneTimeKey(ks, nonce);
    if |c| >= LIMIT {
      return None;
    }
    var data := MacData(c);
    var acc: nat, r, s := 0, And(FromLE(otk[..16]), CLAMP), FromLE(otk[16..]);
    var i := 0;
    var p := Prime(EXPONENT);
    NoBlocks(p, r, data);
    while i < |data|
      invariant i <= |data| && i % 16 == 0
      invariant acc == Horner(p, r, 0, Blocks(data[..i]))
    {
      var w := data[i..i + 16];
      BlocksSnoc(data[..i], w);
      HornerSnoc(p, r, 0, Blocks(data[..i]), FromLE(w + [1]));
      assert data[..i] + w == data[..i + 16];
      acc := r * (acc + FromLE(w + [1])) % p;
      i := i + 16;
    }
    assert data[..|data|] == data;
    HornerIsSum(p, r, Blocks(data));
    t := Some(ToLE(Low(acc + s, 8 * 16), 16));
  }

  lemma {:induction false} NoBlocks(p: nat, r: nat, d: Bytes)
    requires p > 0
    ensures Horner(p, r, 0, Blocks(d[..0])) == 0
  {
  }

  // ---- The tag from the stream ----------------------------------------------------------------

  /** The one-time key is the first 32 bytes of the stream at counter zero. */
  lemma {:induction false} KeyIs(ks: Stream, nonce: Bytes, i: nat)
    requires i < 32
    ensures OneTimeKey(ks, nonce)[i] == ks(nonce, 0)(i)
  {
    hide XorByte;
    XorByteZero(ks(nonce, 0)(i));
  }

  /** Section 2.8 without additional data: the ciphertext, zeros up to a block, and the two lengths, 0 and
      that of the ciphertext, in eight little-endian bytes each. */
  lemma {:induction false} MacDataIs(c: Bytes)
    requires |c| < LIMIT
    ensures var d, n := MacData(c), |MacData(c)|;
            && d[..|c|] == c && |c| + 16 <= n < |c| + 32 && n % 16 == 0
            && (forall i | |c| <= i < n - 8 :: d[i] == 0) && FromLE(d[n - 8..]) == |c|
  {
    hide ToLE, FromLE, Pow2;
    EightBytes(|c|);
    LERoundTrip(|c|, 8);
    var d, n := MacData(c), |MacData(c)|;
    assert d == c + Zeros(|c|) + Length(|c|) && d[n - 8..] == Length(|c|);
    assert n == |c| + |Zeros(|c|)| + 8;
  }

  /** Block i of the polynomial is its sixteen bytes as a little-endian number, with the bit above them. */
  lemma {:induction false} BlockIs(d: Bytes, i: nat)
    requires |d| % 16 == 0 && 16 * i < |d|
    ensures |Blocks(d)| == |d| / 16
    ensures Blocks(d)[i] == FromLE(d[16 * i..16 * i + 16]) + 0x1_0000_0000_0000_0000_0000_0000_0000_0000
    decreases |d|
  {
    hide FromLE, Pow2;
    BlockCount(d);
    if i == 0 {
      TopBit(d[..16]);
      TwoTo128();
    } else {
      BlockIs(d[16..], i - 1);
      assert d[16..][16 * (i - 1)..16 * (i - 1) + 16] == d[16 * i..16 * i + 16];
    }
  }

  lemma {:induction false} BlockCount(d: Bytes)
    requires |d| % 16 == 0
    ensures |Blocks(d)| == |d| / 16
    decreases |d|
  {
    if d != [] { BlockCount(d[16..]); }
  }

  lemma {:induction false} TwoTo128()
    ensures Pow2(128) == 0x1_0000_0000_0000_0000_0000_0000_0000_0000
  {
    hide Pow2;
    SmallPowers();
    Pow2Add(8, 8);
    Pow2Add(16, 16);
    Pow2Add(32, 32);
    Pow2Add(64, 64);
  }

  lemma {:induction false} PrimeIs()
    ensures Prime(EXPONENT) == 0x3_ffff_ffff_ffff_ffff_ffff_ffff_ffff_fffb
  {
    hide Pow2;
    TwoTo128();
    SmallPowers();
    Pow2Add(128, 2);
  }

  /** Section 2.5: r is the first half of the one-time key with its bits cleared, s the second half; the
      tag is the polynomial in r modulo `2^130 - 5`, plus s, modulo `2^128`. */
  lemma {:induction false} TagIs(ks: Stream, nonce: Bytes, c: Bytes, r: Bytes, s: Bytes)
    requires |c| < LIMIT && |r| == 16 && |s| == 16
    requires forall i: nat | i < 16 ::
               var k := ks(nonce, 0)(i);
               r[i] == if i % 4 == 3 then k % 16 else if i % 4 == 0 && i > 0 then k - k % 4 else k
    requires forall i: nat | i < 16 :: s[i] == ks(nonce, 0)(16 + i)
    ensures FromLE(Tag(ks, nonce, c)) ==
            (Sum(FromLE(r), Blocks(MacData(c))) % 0x3_ffff_ffff_ffff_ffff_ffff_ffff_ffff_fffb + FromLE(s))
            % 0x1_0000_0000_0000_0000_0000_0000_0000_0000
  {
    hide Pow2, FromLE, ToLE, And, AndBytes, Sum, Blocks, MacData, OneTimeKey, Low, Prime;
    var otk := OneTimeKey(ks, nonce);
    forall i: nat | i < 32
      ensures otk[i] == ks(nonce, 0)(i)
    {
      KeyIs(ks, nonce, i);
    }
    assert otk[16..] == s;
    ClampClears(otk[..16]);
    assert AndBytes(otk[..16], CLAMP_BYTES) == r;
    PrimeIs();
    var x := Sum(FromLE(r), Blocks(MacData(c))) % Prime(EXPONENT) + FromLE(s);
    LERoundTrip(Low(x, 8 * 16), 16);
    LowIsMod(x, 128);
    TwoTo128();
    Remainder(Shr(x, 128), Low(x, 128), Pow2(128));
  }

  // ---- The packet cipher ----------------------------------------------------------------------

  function Seal(ks: Stream, nonce: Bytes, m: Bytes): (Bytes, Bytes)
    requires |m| < LIMIT
  {
    var c := Encrypt(ks, nonce, m, 1);
    (c, Tag(ks, nonce, c))
  }

  function Unseal(ks: Stream, nonce: Bytes, c: Bytes, t: Bytes): Option<Bytes>
    requires |c| < LIMIT
  {
    if t == Tag(ks, nonce, c) then Some(Encrypt(ks, nonce, c, 1)) else None
  }

  /** `process`: with a tag it is checked first, without one it is returned beside the text. */
  method Process(ks: Stream, nonce: Bytes, s: Bytes, tag: Option<Bytes>) returns (r: Option<(Bytes, Bytes)>)
    ensures |s| >= LIMIT ==> r == None
    ensures |s| < LIMIT && tag.None? ==> r == Some(Seal(ks, nonce, s))
    ensures |s| < LIMIT && tag.Some? ==> r == match Unseal(ks, nonce, s, tag.value)
                                             case None => None
                                             case Some(m) => Some((m, []))
  {
    hide Tag, Pow2, K.AddStream;
    if tag.Some? {
      var t := Mac(ks, nonce, s);
      if t.None? || tag.value != t.value {
        return None;
      }
    }
    var data := Encrypt(ks, nonce, s, 1);
    if tag.None? {
      var t := Mac(ks, nonce, data);
      return if t.None? then None else Some((data, t.value));
    }
    return Some((data, []));
  }

  /** Opening with the emitted tag at the same nonce returns the plaintext, whatever the stream; any
      other tag is refused. */
  lemma {:induction false} UnsealsSealed(ks: Stream, nonce: Bytes, m: Bytes, t: Bytes)
    requires |m| < LIMIT
    ensures var (c, tag) := Seal(ks, nonce, m);
            |c| == |m| && Unseal(ks, nonce, c, t) == if t == tag then Some(m) else None
  {
    hide Tag, Pow2;
    K.AddStreamTwice(ks(nonce, 1), 0, m);
  }

  /** Opening gives a text exactly for what sealing that text emits, ciphertext and tag. */
  lemma {:induction false} OpensExactly(ks: Stream, nonce: Bytes, c: Bytes, t: Bytes, m: Bytes)
    requires |c| < LIMIT && |m| < LIMIT
    ensures Unseal(ks, nonce, c, t) == Some(m) <==> Seal(ks, nonce, m) == (c, t)
  {
    hide Tag, Pow2;
    K.AddStreamTwice(ks(nonce, 1), 0, m);
    K.AddStreamTwice(ks(nonce, 1), 0, c);
  }

  // ---- The stream of the registry -------------------------------------------------------------

  /** `cipher_encrypt` of `setup`: ChaCha20 with the packet nonce and a starting counter. */
  function ChaCha(key: Bytes): Stream {
    (nonce: Bytes, counter: nat) => (n: nat) =>
      if |key| == 32 && |nonce| == 12 && counter < 0x1_0000_0000 then
        X.KeyByte(X.Start(key, counter, nonce), X.PASSES, n)
      else 0
  }

  /** Byte n from counter c on is byte n of the reference block function at counters c, c + 1, ... */
  lemma {:induction false} ChaChaBlocks(key: Bytes, nonce: Bytes, c: nat, n: nat)
    requires |key| == 32 && |nonce| == 12 && c + n / 64 < 0x1_0000_0000
    ensures var input := X.ReferenceInput(X.CONSTANTS, X.Unpack(key), c + n / 64, X.Unpack(nonce));
            ChaCha(key)(nonce, c)(n) == X.Pack(X.ReferenceBlock(input, X.PASSES))[n % 64]
  {
    X.KeyByteIsReference(key, c, nonce, n, X.PASSES);
  }

  lemma {:induction false} ChaChaAt(key: Bytes, nonce: Bytes, c: nat, n: nat)
    requires |key| == 32 && |nonce| == 12 && c < 0x1_0000_0000
    ensures ChaCha(key)(nonce, c)(n) == X.KeyByte(X.Start(key, c, nonce), X.PASSES, n)
  {
    hide X.KeyByte, X.Start;
  }

  /** 64 bytes of a stream from its n-th byte on. */
  function Stretch(s: nat -> byte, n: nat): (b: Bytes)
    ensures |b| == 64
  {
    seq(64, i requires 0 <= i < 64 => s(n + i))
  }

  /** The registry's stream from counter c on: bytes 64k to 64k + 63 are the words of the block function of
      section 2.3 at counter c + k. */
  lemma {:induction false} ChaChaIsReference(key: Bytes, nonce: Bytes, c: nat, k: nat)
    requires |key| == 32 && |nonce| == 12 && c + k < 0x1_0000_0000
    ensures X.Unpack(Stretch(ChaCha(key)(nonce, c), 64 * k)) ==
            X.ReferenceBlock(X.ReferenceInput(X.CONSTANTS, X.Unpack(key), c + k, X.Unpack(nonce)), 10)
  {
    hide X.KeyByte, X.ReferenceBlock, X.Unpack, X.Start, ChaCha;
    var a, b := Stretch(ChaCha(key)(nonce, c), 64 * k), X.Stretch(X.Start(key, c, nonce), X.PASSES, 64 * k);
    forall i | 0 <= i < 64
      ensures a[i] == b[i]
    {
      ChaChaAt(key, nonce, c, 64 * k + i);
    }
    assert a == b;
    X.StreamIsReference(key, c, nonce, k);
  }

  /** Section 2.6: the one-time key is the first eight words of the block at counter 0. */
  lemma {:induction false} OneTimeKeyIs(key: Bytes, nonce: Bytes)
    requires |key| == 32 && |nonce| == 12
    ensures X.Unpack(OneTimeKey(ChaCha(key), nonce)) ==
            X.ReferenceBlock(X.ReferenceInput(X.CONSTANTS, X.Unpack(key), 0, X.Unpack(nonce)), 10)[..8]
  {
    hide X.ReferenceBlock, X.Unpack, ChaCha, OneTimeKey;
    ChaChaIsReference(key, nonce, 0, 0);
    var first, otk := Stretch(ChaCha(key)(nonce, 0), 0), OneTimeKey(ChaCha(key), nonce);
    forall i: nat | i < 32
      ensures otk[i] == first[i]
    {
      KeyIs(ChaCha(key), nonce, i);
    }
    X.UnpackAppend(first[..32], first[32..]);
    assert first == first[..32] + first[32..] && otk == first[..32];
  }

  /** The text meets the stream from counter 1 on, byte by byte; `TagIs` gives the tag of the result. */
  lemma {:induction false} SealIs(ks: Stream, nonce: Bytes, m: Bytes)
    requires |m| < LIMIT
    ensures var (c, t) := Seal(ks, nonce, m);
            && |c| == |m| && t == Tag(ks, nonce, c)
            && forall i: nat | i < |m| :: c[i] == XorByte(m[i], ks(nonce, 1)(i))
  {
    hide Tag, XorByte;
  }

  // ---- As a packet primitive ------------------------------------------------------------------

  /** The nonce counter is passed as its little-endian bytes. */
  function PolyPrimitive(ks: Bytes -> Stream, nonceLength: nat): E.Primitive {
    E.Primitive(nonceLength, 16,
                (key: Bytes, n: nat, m: Bytes) =>
                  if |m| < LIMIT then Seal(ks(key), E.NonceBytes(n, nonceLength), m) else ([], []),
                (key: Bytes, n: nat, c: Bytes, t: Bytes) =>
                  if |c| < LIMIT then Unseal(ks(key), E.NonceBytes(n, nonceLength), c, t) else None)
  }

  /** Operation k of a session uses the bytes whose little-endian number is k under the mask. */
  lemma {:induction false} OperationNonce(
    ks: Bytes -> Stream, nonceLength: nat, key: Bytes, k: nat, nonce: Bytes, m: Bytes, t: Bytes)
    requires |m| < LIMIT && |nonce| == nonceLength && FromLE(nonce) == Low(k, nonceLength)
    ensures var p := PolyPrimitive(ks, nonceLength);
            && p.seal(key, E.NonceOf(p, k), m) == Seal(ks(key), nonce, m)
            && p.unseal(key, E.NonceOf(p, k), m, t) == Unseal(ks(key), nonce, m, t)
  {
    hide Seal, Unseal, FromLE, Low, E.NonceOf, E.NonceBytes;
    var p := PolyPrimitive(ks, nonceLength);
    E.NonceBytesOf(p, k, nonceLength);
    LEUnique(nonce, E.NonceBytes(E.NonceOf(p, k), nonceLength));
  }

  lemma {:induction false} PolySound(ks: Bytes -> Stream, nonceLength: nat)
    ensures E.Sound(PolyPrimitive(ks, nonceLength))
  {
    hide Tag, Encrypt, E.NonceBytes;
    forall key, n, m: Bytes | |m| <= E.PACKET_LIMIT
      ensures var (c, t) := PolyPrimitive(ks, nonceLength).seal(key, n, m);
              |c| == |m| && |t| == 16 && PolyPrimitive(ks, nonceLength).unseal(key, n, c, t) == Some(m)
    {
      var nonce := E.NonceBytes(n, nonceLength);
      var (c, t) := Seal(ks(key), nonce, m);
      UnsealsSealed(ks(key), nonce, m, t);
    }
  }
}
