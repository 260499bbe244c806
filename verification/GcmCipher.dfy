/** `GCMCipher`: the packet cipher over an arbitrary block function, with the hash of `Gcm`. */
module GcmCipher {
  import opened Bits
  import opened ByteStrings
  import opened Gcm
  import P = GcmField
  import K = KeyStreams
  import E = Aead

  /** Byte i of the encryption of the block with integer value x. */
  type Block = (nat, nat) -> byte

  /** The field of GCM for blocks of `size` bytes; the code has 16. */
  function Standard(size: nat): Field
    requires size > 0
  {
    Field(8 * size, Shl(0xe1, 8 * size - 8))
  }

  const SIZE: nat := 16
  const GCM: Field := Standard(SIZE)

  lemma {:induction false} StandardProper(size: nat)
    requires size > 0
    ensures Proper(Standard(size))
  {
    assert Pow2(8) == 256;
    ShlBound(0xe1, 0, 8, 8 * size - 8);
  }

  function Encrypted(block: Block, x: nat): (r: Bytes)
    ensures |r| == SIZE
  {
    seq(SIZE, i requires 0 <= i < SIZE => block(x, i))
  }

  function Subkey(block: Block): nat {
    FromBE(Encrypted(block, 0))
  }

  lemma {:induction false} EncryptedBound(block: Block, x: nat)
    ensures FromBE(Encrypted(block, x)) < Pow2(GCM.width)
  {
    hide Shl;
    FromBEBound(Encrypted(block, x));
  }

  lemma {:induction false} SubkeyBound(block: Block)
    ensures Subkey(block) < Pow2(GCM.width)
  {
    hide Pow2, Shl, FromBE;
    EncryptedBound(block, 0);
  }

  // ---- The hash of a byte string --------------------------------------------------------------

  /** Zero padding up to whole blocks. */
  function Padded(d: Bytes): (r: Bytes)
    ensures |r| % SIZE == 0 && |d| <= |r| < |d| + 16
    ensures r[..|d|] == d && forall i | |d| <= i < |r| :: r[i] == 0
  {
    d + seq((SIZE - |d| % SIZE) % SIZE, _ => 0)
  }

  function Words(d: Bytes): (w: seq<nat>)
    requires |d| % SIZE == 0
    ensures |w| == |d| / SIZE
    decreases |d|
  {
    if d == [] then [] else [FromBE(d[..SIZE])] + Words(d[SIZE..])
  }

  /** Bit lengths that eight bytes can hold. */
  const LIMIT: nat := 0x1_0000_0000_0000_0000

  /** The last block of section 7.1: no additional data, then the bit length of the ciphertext. */
  function Lengths(n: nat): (r: Bytes)
    requires n < LIMIT
    ensures |r| == SIZE
  {
    EightBytes(n);
    seq(8, _ => 0) + ToBE(n, 8)
  }

  /** The padded ciphertext and the length block. */
  function HashInput(d: Bytes): (r: Bytes)
    requires 8 * |d| < LIMIT
    ensures |r| % SIZE == 0
  {
    hide Padded, Lengths;
    var p, l := Padded(d), Lengths(8 * |d|);
    OneMore(|p|);
    p + l
  }

  lemma {:induction false} OneMore(n: nat)
    requires n % SIZE == 0
    ensures (n + SIZE) % SIZE == 0
  {
  }

  function Ghash(h: nat, d: Bytes): nat
    requires 8 * |d| < LIMIT
  {
    Hash(GCM, h, 0, Words(HashInput(d)))
  }

  lemma {:induction false} WordsNone()
    ensures Words([]) == []
  {
  }

  lemma {:induction false} WordsCons(d: Bytes, rest: Bytes)
    requires |d| == SIZE && |rest| % SIZE == 0
    ensures Words(d + rest) == [FromBE(d)] + Words(rest)
  {
    hide FromBE;
    assert (d + rest)[..SIZE] == d && (d + rest)[SIZE..] == rest;
  }

  lemma {:induction false} WordsAppend(a: Bytes, b: Bytes)
    requires |a| % SIZE == 0 && |b| % SIZE == 0
    ensures Words(a + b) == Words(a) + Words(b)
    decreases |a|
  {
    hide Words;
    if a == [] {
      assert a + b == b;
      WordsNone();
    } else {
      WordsAppend(a[SIZE..], b);
      WordsCons(a[..SIZE], a[SIZE..]);
      WordsCons(a[..SIZE], a[SIZE..] + b);
      assert a[..SIZE] + a[SIZE..] == a && a[..SIZE] + (a[SIZE..] + b) == a + b;
    }
  }

  lemma {:induction false} WordsOne(a: Bytes)
    requires |a| == SIZE
    ensures Words(a) == [FromBE(a)]
  {
    hide FromBE;
    assert a[..SIZE] == a && a[SIZE..] == [];
  }

  lemma {:induction false} LeadingZeros(k: nat, b: Bytes)
    ensures FromBE(seq(k, _ => 0) + b) == FromBE(b)
    decreases |b|, k
  {
    var z: Bytes := seq(k, _ => 0);
    if b == [] {
      assert z + b == z;
      if k > 0 {
        LeadingZeros(k - 1, b);
        var y: Bytes := seq(k - 1, _ => 0);
        assert z[..k - 1] == y && y + b == y;
      }
    } else {
      LeadingZeros(k, b[..|b| - 1]);
      assert (z + b)[..|z + b| - 1] == z + b[..|b| - 1];
    }
  }

  lemma {:induction false} LengthsWord(n: nat)
    requires n < LIMIT
    ensures Words(Lengths(n)) == [n]
  {
    hide FromBE, ToBE, Words, Pow2;
    EightBytes(n);
    WordsOne(Lengths(n));
    LeadingZeros(8, ToBE(n, 8));
  }

  lemma {:induction false} InputWords(d: Bytes)
    requires 8 * |d| < LIMIT
    ensures Words(HashInput(d)) == Words(Padded(d)) + [8 * |d|]
  {
    hide Words, Padded, Lengths;
    WordsAppend(Padded(d), Lengths(8 * |d|));
    LengthsWord(8 * |d|);
  }

  lemma {:induction false} WordsFit(d: Bytes)
    requires |d| % SIZE == 0
    ensures Fits(GCM, Words(d))
    decreases |d|
  {
    if d != [] {
      hide FromBE, Shl, Pow2;
      FromBEBound(d[..SIZE]);
      WordsFit(d[SIZE..]);
    }
  }

  lemma {:induction false} HashSnoc(f: Field, h: nat, z: nat, blocks: seq<nat>, b: nat)
    ensures Hash(f, h, z, blocks + [b]) == Product(f, Xor(Hash(f, h, z, blocks), b), h)
    decreases |blocks|
  {
    hide Product, Xor;
    if blocks == [] {
      assert blocks + [b] == [b] && [b][1..] == [];
    } else {
      HashSnoc(f, h, Product(f, Xor(z, blocks[0]), h), blocks[1..], b);
      assert (blocks + [b])[1..] == blocks[1..] + [b];
    }
  }

  /** The hash is the polynomial of the padded blocks and the length block at the subkey. */
  lemma {:induction false} GhashIsPolynomial(block: Block, d: Bytes)
    requires 8 * |d| < LIMIT
    ensures var h := Subkey(block);
            Ghash(h, d) == Polynomial(GCM, h, Words(Padded(d)) + [8 * |d|]) < Pow2(GCM.width)
  {
    hide Words, Hash, Polynomial, Pow2, Padded, HashInput, Fits, Standard, Subkey;
    StandardProper(SIZE);
    SubkeyBound(block);
    WordsFit(HashInput(d));
    InputWords(d);
    HashAtZero(GCM, Subkey(block), Words(HashInput(d)));
  }

  // ---- Counter blocks -------------------------------------------------------------------------

  /** Section 6.2: the low 32 bits count, the rest stays. */
  function Inc32(x: nat): nat {
    Shl(Shr(x, 32), 32) + Low(Low(x, 32) + 1, 32)
  }

  function Incremented(x: nat, n: nat): nat {
    if n == 0 then x else Inc32(Incremented(x, n - 1))
  }

  function Base(nonce: Bytes): nat {
    Shl(FromBE(nonce), 32)
  }

  lemma {:induction false} ShrShl(a: nat, b: nat, n: nat)
    requires b < Pow2(n)
    ensures Shr(Shl(a, n) + b, n) == a && Low(Shl(a, n) + b, n) == b
  {
    if n != 0 { ShrShl(a, b / 2, n - 1); }
  }

  /** The counter block with number n is the (n - 1)-fold increment of the pre-counter block. */
  lemma {:induction false} CounterBlock(v: nat, n: nat)
    ensures Incremented(Or(Shl(v, 32), 1), n) == Or(Shl(v, 32), Low(n + 1, 32))
  {
    hide Shl, Shr, Or, Low, Pow2;
    OrDisjoint(v, Low(n + 1, 32), 32);
    OneFits(32);
    OrDisjoint(v, 1, 32);
    if n == 0 {
      LowSmall(1, 32);
    } else {
      CounterBlock(v, n - 1);
      OrDisjoint(v, Low(n, 32), 32);
      ShrShl(v, Low(n, 32), 32);
      LowAddOne(n, 32);
    }
  }

  lemma {:induction false} OneFits(n: nat)
    requires n > 0
    ensures 1 < Pow2(n)
  {
  }

  // ---- Sealing --------------------------------------------------------------------------------

  function KeyByte(block: Block, nonce: Bytes, k: nat): byte {
    block(Or(Base(nonce), Low(k / SIZE + 2, 32)), k % SIZE)
  }

  function Crypt(block: Block, nonce: Bytes, s: Bytes): (r: Bytes)
    ensures |r| == |s|
  {
    K.AddStream((k: nat) => KeyByte(block, nonce, k), 0, s)
  }

  /** The code's hash: the length enters as an integer, of any size. */
  function HashOf(block: Block, d: Bytes): (z: nat)
    ensures z < Pow2(8 * SIZE)
  {
    hide Hash, Product, Words, Xor, Shl, Pow2;
    StandardProper(SIZE);
    EncryptedBound(block, 0);
    HashSnoc(GCM, Subkey(block), 0, Words(Padded(d)), 8 * |d|);
    ProductBound(GCM, Xor(Hash(GCM, Subkey(block), 0, Words(Padded(d))), 8 * |d|), Subkey(block));
    Hash(GCM, Subkey(block), 0, Words(Padded(d)) + [8 * |d|])
  }

  function Tag(block: Block, nonce: Bytes, c: Bytes): (t: Bytes)
    ensures |t| == SIZE
  {
    var h := FromBE(Encrypted(block, Or(Base(nonce), 1)));
    EncryptedBound(block, Or(Base(nonce), 1));
    XorBound(HashOf(block, c), h, 8 * SIZE);
    ToBE(Xor(HashOf(block, c), h), SIZE)
  }

  function Seal(block: Block, nonce: Bytes, m: Bytes): (Bytes, Bytes) {
    var c := Crypt(block, nonce, m);
    (c, Tag(block, nonce, c))
  }

  function Unseal(block: Block, nonce: Bytes, c: Bytes, t: Bytes): Option<Bytes> {
    if Tag(block, nonce, c) == t then Some(Crypt(block, nonce, c)) else None
  }

  /** The cipher as a packet primitive, for any family of block functions. */
  function GcmPrimitive(block: (Bytes, nat, nat) -> byte): E.Primitive {
    E.Primitive(12, SIZE,
                (key: Bytes, n: nat, m: Bytes) => Seal(Keyed(block, key), E.NonceBytes(n, 12), m),
                (key: Bytes, n: nat, c: Bytes, t: Bytes) =>
                  Unseal(Keyed(block, key), E.NonceBytes(n, 12), c, t))
  }

  function Keyed(block: (Bytes, nat, nat) -> byte, key: Bytes): Block {
    (x: nat, i: nat) => block(key, x, i)
  }

  lemma {:induction false} UnsealsSealed(block: Block, nonce: Bytes, m: Bytes)
    ensures var (c, t) := Seal(block, nonce, m);
            |c| == |m| && |t| == SIZE && Unseal(block, nonce, c, t) == Some(m)
  {
    hide Tag;
    K.AddStreamTwice((k: nat) => KeyByte(block, nonce, k), 0, m);
  }

  /** Opening gives a text exactly for what sealing that text emits, ciphertext and tag. */
  lemma {:induction false} OpensExactly(block: Block, nonce: Bytes, c: Bytes, t: Bytes, m: Bytes)
    ensures Unseal(block, nonce, c, t) == Some(m) <==> Seal(block, nonce, m) == (c, t)
  {
    hide Tag;
    K.AddStreamTwice((k: nat) => KeyByte(block, nonce, k), 0, m);
    K.AddStreamTwice((k: nat) => KeyByte(block, nonce, k), 0, c);
  }

  /** Opening with the emitted tag at the same nonce returns the plaintext. */
  lemma {:induction false} GcmSound(block: (Bytes, nat, nat) -> byte)
    ensures E.Sound(GcmPrimitive(block))
  {
    hide Tag, Crypt;
    forall key, n, m: Bytes
      ensures var (c, t) := GcmPrimitive(block).seal(key, n, m);
              |c| == |m| && |t| == SIZE && GcmPrimitive(block).unseal(key, n, c, t) == Some(m)
    {
      UnsealsSealed(Keyed(block, key), E.NonceBytes(n, 12), m);
    }
  }

  /** Within the standard's length limit the code's hash is GHASH, and its counter blocks are the
      increments of the pre-counter block. */
  lemma {:induction false} FollowsStandard(block: Block, nonce: Bytes, d: Bytes, k: nat)
    requires 8 * |d| < LIMIT
    ensures HashOf(block, d) == Ghash(Subkey(block), d)
    ensures KeyByte(block, nonce, k) == block(Incremented(Or(Base(nonce), 1), k / SIZE + 1), k % SIZE)
  {
    hide Words, Hash, Pow2, Or, Shl, Low, Padded, HashInput;
    InputWords(d);
    CounterBlock(FromBE(nonce), k / SIZE + 1);
  }

  /** Operation k of a session uses the twelve bytes whose little-endian number is k under the mask. */
  lemma {:induction false} OperationNonce(
    block: (Bytes, nat, nat) -> byte, key: Bytes, k: nat, nonce: Bytes, m: Bytes, t: Bytes)
    requires |nonce| == 12 && FromLE(nonce) == Low(k, 12)
    ensures var p := GcmPrimitive(block);
            && p.seal(key, E.NonceOf(p, k), m) == Seal(Keyed(block, key), nonce, m)
            && p.unseal(key, E.NonceOf(p, k), m, t) == Unseal(Keyed(block, key), nonce, m, t)
  {
    hide Seal, Unseal, FromLE, Low, E.NonceOf, E.NonceBytes, Keyed;
    var p := GcmPrimitive(block);
    E.NonceBytesOf(p, k, 12);
    LEUnique(nonce, E.NonceBytes(E.NonceOf(p, k), 12));
  }

  // ---- Sealing, byte by byte ------------------------------------------------------------------

  /** The counter blocks are the nonce followed by a four-byte number. */
  lemma {:induction false} CounterBytes(nonce: Bytes, n: nat)
    ensures Low(n, 32) < Pow2(8 * 4)
    ensures Or(Base(nonce), Low(n, 32)) == FromBE(nonce + ToBE(Low(n, 32), 4))
  {
    hide FromBE, ToBE, Low, Or, Shl, Pow2;
    var b := ToBE(Low(n, 32), 4);
    BERoundTrip(Low(n, 32), 4);
    BEAppend(nonce, b);
    OrDisjoint(FromBE(nonce), Low(n, 32), 32);
  }

  lemma {:induction false} PreCounter(nonce: Bytes)
    ensures Or(Base(nonce), 1) == FromBE(nonce + [0, 0, 0, 1])
  {
    hide FromBE, Low, Or, Shl, Pow2, Base;
    CounterBytes(nonce, 1);
    OneFits(32);
    LowSmall(1, 32);
    OneInFour();
  }

  lemma {:induction false} OneInFour()
    ensures 1 < Pow2(8 * 4) && ToBE(1, 4) == [0, 0, 0, 1]
  {
    FourBytes(1);
    var zero: Bytes := [0, 0, 0];
    var b: Bytes := zero + [1];
    assert b[..3] == zero && zero[..2] == [0, 0] && zero[..2][..1] == [0] && zero[..2][..1][..0] == [];
    assert FromBE(b) == FromBE(zero) * 256 + 1;
    assert FromBE(zero) == FromBE([0, 0]) * 256 && FromBE([0, 0]) == FromBE([0]) * 256 && FromBE([0]) == 0;
    BERoundTrip(1, 4);
    BEUnique(ToBE(1, 4), b);
  }

  /** Section 7.1: byte i of the text meets byte i % 16 of the block at counter 2 + i / 16; byte i of the
      tag is that of the polynomial over the ciphertext, exclusive or the block at counter 1. */
  lemma {:induction false} SealIs(block: Block, nonce: Bytes, m: Bytes)
    requires 8 * |m| < LIMIT
    ensures var (c, t) := Seal(block, nonce, m);
            && |c| == |m| && |t| == 16
            && (forall i: nat | i < |m| :: c[i] == XorByte(m[i], CounterByte(block, nonce, 2 + i / 16, i % 16)))
    ensures var (c, t) := Seal(block, nonce, m);
            var g := Polynomial(GCM, Subkey(block), Words(Padded(c)) + [8 * |m|]);
            && g < Pow2(8 * 16)
            && forall i: nat | i < 16 :: t[i] == XorByte(ToBE(g, 16)[i], block(FromBE(nonce + [0, 0, 0, 1]), i))
  {
    hide Words, Padded, Polynomial, Pow2, FromBE, ToBE, Or, Base, Shl, Low, XorByte, Xor, HashOf, Subkey, Ghash;
    var c := Crypt(block, nonce, m);
    forall i: nat | i < |m|
      ensures c[i] == XorByte(m[i], CounterByte(block, nonce, 2 + i / 16, i % 16))
    {
      CounterBytes(nonce, i / 16 + 2);
    }
    GhashIsPolynomial(block, c);
    FollowsStandard(block, nonce, c, 0);
    forall i: nat | i < 16
      ensures Tag(block, nonce, c)[i] ==
              XorByte(ToBE(HashOf(block, c), 16)[i], block(FromBE(nonce + [0, 0, 0, 1]), i))
    {
      TagByte(block, nonce, c, i);
    }
  }

  /** Byte i of the block cipher's output on the nonce followed by a counter. */
  function CounterByte(block: Block, nonce: Bytes, counter: nat, i: nat): byte {
    FourBytes(0);
    block(FromBE(nonce + ToBE(Low(counter, 32), 4)), i)
  }

  lemma {:induction false} TagByte(block: Block, nonce: Bytes, c: Bytes, i: nat)
    requires i < 16
    ensures Tag(block, nonce, c)[i] ==
            XorByte(ToBE(HashOf(block, c), 16)[i], block(FromBE(nonce + [0, 0, 0, 1]), i))
  {
    hide Pow2, FromBE, ToBE, Or, Base, Shl, XorByte, Xor, HashOf;
    PreCounter(nonce);
    var e := Encrypted(block, Or(Base(nonce), 1));
    var h := FromBE(e);
    FromBEBound(e);
    XorBound(HashOf(block, c), h, 8 * SIZE);
    XorBE(HashOf(block, c), h, 16, i);
    BERoundTrip(h, 16);
    BEUnique(ToBE(h, 16), e);
  }

  /** The hash subkey is the encryption of the zero block, and the field is that of section 6.3: width
      128 and the constant R, for 1 + x + x^2 + x^7. */
  lemma {:induction false} FieldIs(block: Block, i: nat)
    requires i < 16
    ensures Subkey(block) < Pow2(8 * 16) && ToBE(Subkey(block), 16)[i] == block(0, i)
    ensures GCM.width == 128 && GCM.reduction == 0xe100_0000_0000_0000_0000_0000_0000_0000
  {
    hide FromBE, ToBE, Pow2, Shl;
    var e := Encrypted(block, 0);
    FromBEBound(e);
    BERoundTrip(FromBE(e), 16);
    BEUnique(ToBE(FromBE(e), 16), e);
    ShlIsMul(0xe1, 120);
    BigPower();
  }

  /** The polynomial that R stands for is 1 + x + x^2 + x^7 + x^128. */
  lemma {:induction false} ModulusIs()
    ensures P.Modulus(GCM) == 0x1_0000_0000_0000_0000_0000_0000_0000_0087
  {
    hide Pow2, Shl;
    BigPower();
    SmallPower();
    Pow2Add(120, 8);
    P.MirrorShl(0xe1, 120, 8);
    ByteMirror();
  }

  lemma {:induction false} ByteMirror()
    ensures P.Mirror(0xe1, 8) == 0x87
  {
    hide Bit, Pow2;
    assert Pow2(1) == 2 && Pow2(2) == 4 && Pow2(3) == 8 && Pow2(4) == 16 by { LittlePowers(); }
    assert Pow2(5) == 32 && Pow2(6) == 64 && Pow2(7) == 128 && Pow2(0) == 1 by { LittlePowers(); }
    BitIsDigit(0xe1, 0);
    BitIsDigit(0xe1, 1);
    BitIsDigit(0xe1, 2);
    BitIsDigit(0xe1, 3);
    BitIsDigit(0xe1, 4);
    BitIsDigit(0xe1, 5);
    BitIsDigit(0xe1, 6);
    BitIsDigit(0xe1, 7);
    assert P.Mirror(0xe1, 4) == 8 by {
      assert P.Mirror(0xe1, 0) == 0 && P.Mirror(0xe1, 1) == 1 && P.Mirror(0xe1, 2) == 2 && P.Mirror(0xe1, 3) == 4;
    }
    assert P.Mirror(0xe1, 5) == 16 && P.Mirror(0xe1, 6) == 33 && P.Mirror(0xe1, 7) == 67;
  }

  lemma {:induction false} LittlePowers()
    ensures Pow2(0) == 1 && Pow2(1) == 2 && Pow2(2) == 4 && Pow2(3) == 8 && Pow2(4) == 16
    ensures Pow2(5) == 32 && Pow2(6) == 64 && Pow2(7) == 128
  {
  }

  /** The product of two blocks is that of their polynomials modulo this one. */
  lemma {:induction false} BlockProductIs(x: nat, y: nat, z: nat)
    requires y < Pow2(128) && z < Pow2(128)
    ensures z == Product(GCM, x, y) <==>
            exists q ::
              Xor(P.Times(P.Mirror(x, 128), P.Mirror(y, 128)), P.Mirror(z, 128)) ==
              P.Times(q, 0x1_0000_0000_0000_0000_0000_0000_0000_0087)
  {
    hide Pow2, Product, Xor, P.Times, P.Mirror, Shl, P.Modulus;
    assert Proper(GCM) by { StandardProper(SIZE); }
    ModulusIs();
    P.ProductExactly(GCM, x, y, z);
  }

  /** Word i of a text is its block i as a big-endian number. */
  lemma {:induction false} WordIs(d: Bytes, i: nat)
    requires |d| % 16 == 0 && 16 * i < |d|
    ensures |Words(d)| == |d| / 16 && Words(d)[i] == FromBE(d[16 * i..16 * i + 16])
    decreases |d|
  {
    hide FromBE;
    if i > 0 {
      WordIs(d[16..], i - 1);
      LaterSlice(d, 16 * i, 16 * i + 16);
    } else {
      assert d[..16] == d[0..16];
      if |d| > 16 { WordIs(d[16..], 0); }
    }
  }

  lemma {:induction false} LaterSlice(d: Bytes, from: nat, to: nat)
    requires 16 <= from <= to <= |d|
    ensures d[16..][from - 16..to - 16] == d[from..to]
  {
  }

  lemma {:induction false} BigPower()
    ensures Pow2(120) == 0x100_0000_0000_0000_0000_0000_0000_0000
  {
    hide Pow2;
    SmallPower();
    Pow2Add(8, 8);
    Pow2Add(16, 8);
    Pow2Add(16, 16);
    Pow2Add(32, 32);
    Pow2Add(64, 32);
    Pow2Add(96, 24);
  }

  lemma {:induction false} SmallPower()
    ensures Pow2(8) == 0x100
  {
  }

  // ---- The object -----------------------------------------------------------------------------

  class GCMCipher {
    const block: Block
    var hkey: seq<nat>

    ghost predicate Valid()
      reads this
    {
      IsTable(GCM, hkey, Subkey(block))
    }

    constructor (b: Block)
      ensures Valid() && block == b
    {
      block := b;
      hkey := [];
      new;
      Setup();
    }

    method Setup()
      modifies this`hkey
      ensures Valid()
    {
      var x := FromBE(Encrypted(block, 0));
      hkey := Table(GCM, x);
    }

    method HashBytes(d: Bytes) returns (r: nat)
      requires Valid()
      ensures r == HashOf(block, d)
    {
      hide Words, Hash, Product, IsTable, Xor, Shl;
      var dt := Padded(d);
      var z: nat := 0;
      ghost var h := Subkey(block);
      var i := 0;
      assert dt[..0] == [];
      HashNone(h);
      while i < |dt|
        invariant i <= |dt| && i % SIZE == 0
        invariant z == Hash(GCM, h, 0, Words(dt[..i]))
      {
        var w := dt[i..i + SIZE];
        HashSnoc(GCM, h, 0, Words(dt[..i]), FromBE(w));
        WordsAppend(dt[..i], w);
        WordsOne(w);
        assert dt[..i] + w == dt[..i + SIZE];
        z := MultH(GCM, hkey, h, Xor(z, FromBE(w)));
        i := i + SIZE;
      }
      assert dt[..|dt|] == dt;
      HashSnoc(GCM, h, 0, Words(dt), 8 * |d|);
      r := MultH(GCM, hkey, h, Xor(z, |d| * 8));
    }

    /** The counter-mode loop: whole blocks, cut off at the end of the text. */
    method CryptBytes(nonce: Bytes, s: Bytes) returns (ret: Bytes)
      ensures ret == Crypt(block, nonce, s)
    {
      hide Or, Low, Shl, XorByte, Base;
      ret := [];
      ghost var want := Crypt(block, nonce, s);
      for i := 0 to (|s| + SIZE - 1) / SIZE
        invariant ret == want[..if SIZE * i < |s| then SIZE * i else |s|]
      {
        var o := Encrypted(block, Or(Base(nonce), Low(i + 2, 32)));
        for j := 0 to SIZE
          invariant ret == want[..if SIZE * i + j < |s| then SIZE * i + j else |s|]
        {
          if i * SIZE + j < |s| {
            var k := i * SIZE + j;
            assert k / SIZE == i && k % SIZE == j;
            ret := ret + [XorByte(s[k], o[j])];
          }
        }
      }
    }

    /** Without a tag the text is sealed and its tag returned; with one it is checked first. */
    method Process(nonce: Bytes, s: Bytes, tag: Option<Bytes>) returns (r: Option<(Bytes, Bytes)>)
      requires Valid()
      ensures tag == None ==> r == Some(Seal(block, nonce, s))
      ensures tag.Some? ==> r == match Unseal(block, nonce, s, tag.value)
                                 case None => None
                                 case Some(m) => Some((m, []))
    {
      hide Crypt, HashOf, Or, Shl, Xor;
      EncryptedBound(block, Or(Base(nonce), 1));
      var h := FromBE(Encrypted(block, Or(Shl(FromBE(nonce), 32), 1)));
      if tag.Some? {
        var g := HashBytes(s);
        XorBound(g, h, 8 * SIZE);
        if ToBE(Xor(g, h), SIZE) != tag.value {
          return None;
        }
      }
      var ret := CryptBytes(nonce, s);
      if tag.None? {
        var g := HashBytes(ret);
        XorBound(g, h, 8 * SIZE);
        return Some((ret, ToBE(Xor(g, h), SIZE)));
      }
      return Some((ret, []));
    }
  }

  lemma {:induction false} HashNone(h: nat)
    ensures Hash(GCM, h, 0, Words([])) == 0
  {
    hide Shl;
    assert Words([]) == [];
  }
}
