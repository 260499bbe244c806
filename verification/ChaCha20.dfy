/** The pure-Python ChaCha20 key stream: quarter rounds on unbounded integers that are masked to
    32 bits only inside `ROL` and in the final addition, against section 2 of RFC 8439. */
module ChaCha20 {
  import opened Bits
  import opened ByteStrings
  import opened KeyStreams

  // ---- One addition and one rotation ----------------------------------------------------------

  /** `a<<b&0xffffffff|(a&0xffffffff)>>32-b` on an integer of any size. */
  function Rol(a: nat, b: nat): nat
    requires b <= 32
  {
    Or(Low(Shl(a, b), 32), Shr(Low(a, 32), 32 - b))
  }

  /** Section 2.1 of RFC 8439: rotate a word left, the top n bits re-enter at the bottom. */
  function RotL(w: nat, n: nat): nat
    requires n <= 32
  {
    Shl(Low(w, 32 - n), n) + Shr(w, 32 - n)
  }

  lemma {:induction false} RotLBound(w: nat, n: nat)
    requires n <= 32 && w < Pow2(32)
    ensures RotL(w, n) < Pow2(32)
  {
    ShrBound(w, 32 - n, n);
    ShlBound(Low(w, 32 - n), Shr(w, 32 - n), 32 - n, n);
  }

  /** The code's rotation of any integer is the word rotation of its low 32 bits. */
  lemma {:induction false} RolRefines(a: nat, b: nat)
    requires b <= 32
    ensures Rol(a, b) == RotL(Low(a, 32), b) < Pow2(32)
  {
    var c := 32 - b;
    LowShl(a, c, b);
    LowLow(a, c, 32);
    ShrLow(a, c, b);
    OrDisjoint(Low(a, c), Shr(Low(a, 32), c), b);
    RotLBound(Low(a, 32), b);
  }

  type State = s: seq<nat> | |s| == 16 witness seq(16, _ => 0)

  /** One of the four steps of a quarter round: add one word to another, then mix and rotate a third. */
  function Mix(h: State, x: nat, y: nat, z: nat, n: nat): State
    requires x < 16 && y < 16 && z < 16 && n <= 32
  {
    var g := h[x := h[x] + h[y]];
    g[z := Rol(Xor(g[z], g[x]), n)]
  }

  /** The same step on words, with addition modulo `2^32`. */
  function MixWords(w: State, x: nat, y: nat, z: nat, n: nat): State
    requires x < 16 && y < 16 && z < 16 && n <= 32
  {
    var v := w[x := Low(w[x] + w[y], 32)];
    v[z := RotL(Xor(v[z], v[x]), n)]
  }

  /** The words a state stands for. */
  function Words(h: State): (w: State) {
    seq(16, i requires 0 <= i < 16 => Low(h[i], 32))
  }

  lemma {:induction false} MixRefines(h: State, x: nat, y: nat, z: nat, n: nat)
    requires x < 16 && y < 16 && z < 16 && n <= 32
    ensures Words(Mix(h, x, y, z, n)) == MixWords(Words(h), x, y, z, n)
  {
    hide Rol, RotL, Xor, Low;
    var g := h[x := h[x] + h[y]];
    var w := Words(h);
    var v := w[x := Low(w[x] + w[y], 32)];
    LowAdd(h[x], h[y], 32);
    assert Words(g) == v;
    XorLow(g[z], g[x], 32);
    RolRefines(Xor(g[z], g[x]), n);
    LowSmall(Rol(Xor(g[z], g[x]), n), 32);
    assert Words(Mix(h, x, y, z, n)) == v[z := RotL(Xor(v[z], v[x]), n)];
  }

  // ---- Quarter rounds and rounds --------------------------------------------------------------

  type Order = o: (nat, nat, nat, nat) | o.0 < 16 && o.1 < 16 && o.2 < 16 && o.3 < 16
    witness (0, 4, 8, 12)

  function Quarter(h: State, o: Order): State {
    Mix(Mix(Mix(Mix(h, o.0, o.1, o.3, 16), o.2, o.3, o.1, 12), o.0, o.1, o.3, 8), o.2, o.3, o.1, 7)
  }

  /** Section 2.1: `QUARTERROUND(a, b, c, d)` on words. */
  function QuarterWords(w: State, o: Order): State {
    var (a, b, c, d) := o;
    var w1 := MixWords(w, a, b, d, 16);
    var w2 := MixWords(w1, c, d, b, 12);
    var w3 := MixWords(w2, a, b, d, 8);
    MixWords(w3, c, d, b, 7)
  }

  lemma {:induction false} QuarterRefines(h: State, o: Order)
    ensures Words(Quarter(h, o)) == QuarterWords(Words(h), o)
  {
    hide Mix, MixWords, Words;
    var (a, b, c, d) := o;
    var h1 := Mix(h, a, b, d, 16);
    var h2 := Mix(h1, c, d, b, 12);
    var h3 := Mix(h2, a, b, d, 8);
    MixRefines(h, a, b, d, 16);
    MixRefines(h1, c, d, b, 12);
    MixRefines(h2, a, b, d, 8);
    MixRefines(h3, c, d, b, 7);
  }

  /** The table that the code repeats ten times. */
  const ORDERS: seq<Order> :=
    [(0, 4, 8, 12), (1, 5, 9, 13), (2, 6, 10, 14), (3, 7, 11, 15),
     (0, 5, 10, 15), (1, 6, 11, 12), (2, 7, 8, 13), (3, 4, 9, 14)]

  /** The number of passes, ten in the code; nothing below depends on it. */
  const PASSES: nat := 10

  /** The first n turns of the loop in `ChaCha20_round`. */
  function Turns(h: State, n: nat): State {
    if n == 0 then h else Quarter(Turns(h, n - 1), ORDERS[(n - 1) % 8])
  }

  // Section 2.3.1: the quarter rounds of the columns and of the diagonals.
  const COLUMNS: seq<Order> := [(0, 4, 8, 12), (1, 5, 9, 13), (2, 6, 10, 14), (3, 7, 11, 15)]
  const DIAGONALS: seq<Order> := [(0, 5, 10, 15), (1, 6, 11, 12), (2, 7, 8, 13), (3, 4, 9, 14)]

  function Quarters(w: State, orders: seq<Order>, j: nat): State
    requires j <= |orders|
  {
    if j == 0 then w else QuarterWords(Quarters(w, orders, j - 1), orders[j - 1])
  }

  function InnerBlock(w: State): State {
    Quarters(w, COLUMNS + DIAGONALS, 8)
  }

  function InnerBlocks(w: State, k: nat): State {
    if k == 0 then w else InnerBlock(InnerBlocks(w, k - 1))
  }

  lemma {:induction false} InPass(n: nat, j: nat)
    requires n % 8 == 0 && j < 8
    ensures (n + j) % 8 == j
  {
  }

  lemma {:induction false} PassTurns(h: State, n: nat, j: nat)
    requires n % 8 == 0 && j <= 8
    ensures Words(Turns(h, n + j)) == Quarters(Words(Turns(h, n)), ORDERS, j)
  {
    hide Quarter, QuarterWords, Words, Mix, MixWords;
    if j != 0 {
      PassTurns(h, n, j - 1);
      InPass(n, j - 1);
      QuarterRefines(Turns(h, n + j - 1), ORDERS[j - 1]);
    }
  }

  /** Deferred masking is harmless: after any number of double rounds the unbounded integers stand
      for the words of the reference. */
  lemma {:induction false} RoundsRefine(h: State, k: nat)
    ensures Words(Turns(h, 8 * k)) == InnerBlocks(Words(h), k)
  {
    hide Words, InnerBlock, Quarter;
    if k != 0 {
      RoundsRefine(h, k - 1);
      PassRefines(h, 8 * (k - 1));
      assert 8 * (k - 1) + 8 == 8 * k;
    }
  }

  lemma {:induction false} PassRefines(h: State, n: nat)
    requires n % 8 == 0
    ensures Words(Turns(h, n + 8)) == InnerBlock(Words(Turns(h, n)))
  {
    hide Words, Quarters, Turns;
    PassTurns(h, n, 8);
    assert ORDERS == COLUMNS + DIAGONALS;
  }

  // ---- Blocks ---------------------------------------------------------------------------------

  /** The rounds' result and their input, added word by word and only here masked. */
  function AddWords(t: State, data: State): (w: State)
    ensures forall i | 0 <= i < 16 :: w[i] < Pow2(32)
  {
    seq(16, i requires 0 <= i < 16 => Low(t[i] + data[i], 32))
  }

  /** `ChaCha20_round(data[:])`, added to `data`. */
  function Block(data: State, passes: nat): (w: State)
    ensures forall i | 0 <= i < 16 :: w[i] < Pow2(32)
  {
    AddWords(Turns(data, 8 * passes), data)
  }

  /** Section 2.3: the double rounds, then the input words added. */
  function ReferenceBlock(w: State, doubles: nat): State {
    AddWords(InnerBlocks(w, doubles), w)
  }

  /** The block computed from unmasked integers is the reference block of their words. */
  lemma {:induction false} BlockRefines(data: State, passes: nat)
    ensures Block(data, passes) == ReferenceBlock(Words(data), passes)
  {
    hide Turns, InnerBlocks, Words, AddWords;
    RoundsRefine(data, passes);
    AddWordsRefines(Turns(data, 8 * passes), data);
  }

  lemma {:induction false} AddWordsRefines(t: State, data: State)
    ensures AddWords(t, data) == AddWords(Words(t), Words(data))
  {
    hide Low;
    forall i | 0 <= i < 16
      ensures AddWords(t, data)[i] == AddWords(Words(t), Words(data))[i]
    {
      LowAdd(t[i], data[i], 32);
    }
  }

  // ---- The counter ----------------------------------------------------------------------------

  /** Between two blocks the counter word goes up by one; at its top it goes back to zero and the first
      nonce word goes up instead, without a mask. */
  function Advance(data: State): State {
    if data[12] == Pow2(32) - 1 then data[12 := 0][13 := data[13] + 1]
    else data[12 := data[12] + 1]
  }

  /** The generator's state for its k-th block. */
  function StateAt(data: State, k: nat): State {
    if k == 0 then data else Advance(StateAt(data, k - 1))
  }

  lemma {:induction false} CounterStep(data: State, c: nat)
    ensures Advance(data[12 := Low(c, 32)][13 := data[13] + Shr(c, 32)]) ==
            data[12 := Low(c + 1, 32)][13 := data[13] + Shr(c + 1, 32)]
  {
    hide Low, Shr, Pow2;
    LowIncrement(c, 32);
  }

  lemma {:induction false} CounterAt(data: State, k: nat)
    requires data[12] < Pow2(32)
    ensures StateAt(data, k) == data[12 := Low(data[12] + k, 32)][13 := data[13] + Shr(data[12] + k, 32)]
  {
    hide Low, Shr, Pow2, Advance;
    if k == 0 {
      LowSmall(data[12], 32);
      assert data[12 := data[12]][13 := data[13]] == data;
    } else {
      CounterAt(data, k - 1);
      CounterStep(data, data[12] + (k - 1));
      assert data[12] + (k - 1) + 1 == data[12] + k;
    }
  }

  /** Section 2.3: constants, key, block counter and nonce as words. */
  function ReferenceInput(constants: seq<nat>, key: seq<nat>, counter: nat, nonce: seq<nat>): State
    requires |constants| == 4 && |key| == 8 && |nonce| == 3
  {
    constants + key + [counter] + nonce
  }

  /** `struct.unpack('<nI', b)`. */
  function Unpack(b: Bytes): (w: seq<nat>)
    requires |b| % 4 == 0
    ensures |w| == |b| / 4
  {
    if b == [] then [] else [FromLE(b[..4])] + Unpack(b[4..])
  }

  lemma {:induction false} UnpackStep(w: Bytes, b: Bytes)
    requires |w| == 4 && |b| % 4 == 0
    ensures Unpack(w + b) == [FromLE(w)] + Unpack(b)
  {
    hide FromLE;
    assert (w + b)[..4] == w && (w + b)[4..] == b;
  }

  lemma {:induction false} UnpackAppend(a: Bytes, b: Bytes)
    requires |a| % 4 == 0 && |b| % 4 == 0
    ensures Unpack(a + b) == Unpack(a) + Unpack(b)
  {
    if a == [] {
      assert a + b == b;
    } else {
      hide Unpack, FromLE;
      UnpackAppend(a[4..], b);
      UnpackStep(a[..4], a[4..]);
      UnpackStep(a[..4], a[4..] + b);
      assert a[..4] + a[4..] == a;
      assert a[..4] + (a[4..] + b) == a + b;
    }
  }

  lemma {:induction false} UnpackBound(b: Bytes)
    requires |b| % 4 == 0
    ensures forall w | w in Unpack(b) :: w < Pow2(32)
  {
    if b != [] {
      FromLEBound(b[..4]);
      UnpackBound(b[4..]);
    }
  }

  /** "expand 32-byte k" */
  const EXPAND: Bytes :=
    [0x65, 0x78, 0x70, 0x61, 0x6e, 0x64, 0x20, 0x33, 0x32, 0x2d, 0x62, 0x79, 0x74, 0x65, 0x20, 0x6b]

  /** Section 2.3: the four constant words. */
  const CONSTANTS: seq<nat> := [0x61707865, 0x3320646e, 0x79622d32, 0x6b206574]

  function PadLeft(iv: Bytes): (r: Bytes)
    requires |iv| <= 12
    ensures |r| == 12
  {
    seq(12 - |iv|, _ => 0) + iv
  }

  /** The initial list of `core`, from key bytes, counter and vector. */
  function Start(key: Bytes, counter: nat, iv: Bytes): State
    requires |key| == 32 && |iv| <= 12 && counter < 0x1_0000_0000
  {
    FourBytes(counter);
    Unpack(EXPAND + key + ToLE(counter, 4) + PadLeft(iv))
  }

  /** The initial list is the reference input for that key, counter and left-padded nonce. */
  lemma {:induction false} StartIsReference(key: Bytes, counter: nat, iv: Bytes)
    requires |key| == 32 && |iv| <= 12 && counter < 0x1_0000_0000
    ensures Start(key, counter, iv) == ReferenceInput(CONSTANTS, Unpack(key), counter, Unpack(PadLeft(iv)))
    ensures counter < Pow2(32)
    ensures forall x | x in CONSTANTS + Unpack(key) + Unpack(PadLeft(iv)) :: x < Pow2(32)
  {
    hide Unpack;
    FourBytes(counter);
    var c, n := ToLE(counter, 4), PadLeft(iv);
    UnpackAppend(EXPAND + key + c, n);
    UnpackAppend(EXPAND + key, c);
    UnpackAppend(EXPAND, key);
    UnpackCounter(counter);
    UnpackExpand();
    UnpackBound(EXPAND);
    UnpackBound(key);
    UnpackBound(n);
  }

  lemma {:induction false} UnpackCounter(counter: nat)
    requires counter < Pow2(8 * 4)
    ensures Unpack(ToLE(counter, 4)) == [counter]
  {
    var c := ToLE(counter, 4);
    LERoundTrip(counter, 4);
    assert c[..4] == c && c[4..] == [];
  }

  lemma {:induction false} UnpackExpand()
    ensures Unpack(EXPAND) == CONSTANTS
  {
    hide Unpack, FromLE;
    var w0, w1: Bytes := [0x65, 0x78, 0x70, 0x61], [0x6e, 0x64, 0x20, 0x33];
    var w2, w3: Bytes := [0x32, 0x2d, 0x62, 0x79], [0x74, 0x65, 0x20, 0x6b];
    assert EXPAND == w0 + w1 + w2 + w3;
    UnpackFour(w0, w1, w2, w3);
    assert Word(0x65, 0x78, 0x70, 0x61) == 0x61707865 && Word(0x6e, 0x64, 0x20, 0x33) == 0x3320646e;
    assert Word(0x32, 0x2d, 0x62, 0x79) == 0x79622d32 && Word(0x74, 0x65, 0x20, 0x6b) == 0x6b206574;
  }

  function Word(a: nat, b: nat, c: nat, d: nat): nat {
    a + 0x100 * b + 0x1_0000 * c + 0x100_0000 * d
  }

  lemma {:induction false} UnpackFour(w0: Bytes, w1: Bytes, w2: Bytes, w3: Bytes)
    requires |w0| == 4 && |w1| == 4 && |w2| == 4 && |w3| == 4
    ensures Unpack(w0 + w1 + w2 + w3) ==
            [Word(w0[0], w0[1], w0[2], w0[3]), Word(w1[0], w1[1], w1[2], w1[3]),
             Word(w2[0], w2[1], w2[2], w2[3]), Word(w3[0], w3[1], w3[2], w3[3])]
  {
    hide Unpack, Word;
    UnpackAppend(w0 + w1 + w2, w3);
    UnpackAppend(w0 + w1, w2);
    UnpackAppend(w0, w1);
    UnpackOne(w0);
    UnpackOne(w1);
    UnpackOne(w2);
    UnpackOne(w3);
  }

  lemma {:induction false} UnpackOne(b: Bytes)
    requires |b| == 4
    ensures Unpack(b) == [Word(b[0], b[1], b[2], b[3])]
  {
    assert b[..4] == b && b[4..] == [];
    assert b[1..][1..] == b[2..] && b[2..][1..] == b[3..] && b[3..][1..] == [];
    assert FromLE(b) == b[0] + 256 * FromLE(b[1..]);
    assert FromLE(b[1..]) == b[1] + 256 * FromLE(b[2..]);
    assert FromLE(b[2..]) == b[2] + 256 * FromLE(b[3..]);
    assert FromLE(b[3..]) == b[3] + 256 * FromLE([]);
    LittleEndian(b[0], b[1], b[2], b[3]);
  }

  lemma {:induction false} LittleEndian(a: nat, b: nat, c: nat, d: nat)
    ensures a + 256 * (b + 256 * (c + 256 * d)) == Word(a, b, c, d)
  {
  }

  /** The k-th block of the generator is the reference block for counter c + k and the same nonce
      exactly while the carry into the first nonce word vanishes modulo `2^32`; while the counter does
      not overflow it always does. */
  lemma {:induction false} NthBlock(
    constants: seq<nat>, key: seq<nat>, c: nat, nonce: seq<nat>, k: nat, passes: nat)
    requires |constants| == 4 && |key| == 8 && |nonce| == 3 && c < Pow2(32)
    requires forall x | x in constants + key + nonce :: x < Pow2(32)
    ensures var data := ReferenceInput(constants, key, c, nonce);
            var input := ReferenceInput(constants, key, Low(c + k, 32), nonce);
            && Block(StateAt(data, k), passes) == ReferenceBlock(Words(StateAt(data, k)), passes)
            && (Words(StateAt(data, k)) == input <==> Low(Shr(c + k, 32), 32) == 0)
            && (c + k < Pow2(32) ==> Words(StateAt(data, k)) == input && Low(c + k, 32) == c + k)
  {
    hide Low, Shr, StateAt, ReferenceBlock, Block, Words, ReferenceInput, Pow2;
    var data := ReferenceInput(constants, key, c, nonce);
    BlockRefines(StateAt(data, k), passes);
    WordsOfNth(constants, key, c, nonce, k);
    var s := Shr(c + k, 32);
    assert nonce[0] in constants + key + nonce by { assert nonce[0] == (constants + key + nonce)[12]; }
    CarryVanishes(nonce[0], s, 32);
    SameInput(constants, key, Low(c + k, 32), nonce, Low(nonce[0] + s, 32));
    if c + k < Pow2(32) {
      LowSmall(c + k, 32);
      NoCarry(32);
    }
  }

  lemma {:induction false} NoCarry(n: nat)
    ensures Low(0, n) == 0
  {
    if n != 0 { NoCarry(n - 1); }
  }

  lemma {:induction false} SameInput(constants: seq<nat>, key: seq<nat>, c: nat, nonce: seq<nat>, x: nat)
    requires |constants| == 4 && |key| == 8 && |nonce| == 3
    ensures ReferenceInput(constants, key, c, nonce[0 := x]) == ReferenceInput(constants, key, c, nonce) <==>
            x == nonce[0]
  {
    var w, input := ReferenceInput(constants, key, c, nonce[0 := x]), ReferenceInput(constants, key, c, nonce);
    assert w[13] == x && input[13] == nonce[0];
    if x == nonce[0] { assert nonce[0 := x] == nonce; }
  }

  lemma {:induction false} WordsOfNth(constants: seq<nat>, key: seq<nat>, c: nat, nonce: seq<nat>, k: nat)
    requires |constants| == 4 && |key| == 8 && |nonce| == 3 && c < Pow2(32)
    requires forall x | x in constants + key + nonce :: x < Pow2(32)
    ensures Words(StateAt(ReferenceInput(constants, key, c, nonce), k)) ==
            ReferenceInput(constants, key, Low(c + k, 32), nonce[0 := Low(nonce[0] + Shr(c + k, 32), 32)])
  {
    hide Low, Shr, StateAt, Words, Pow2;
    var data, s := ReferenceInput(constants, key, c, nonce), Shr(c + k, 32);
    CounterAt(data, k);
    WordsAt(constants, key, Low(c + k, 32), nonce, s);
    assert data[12 := Low(c + k, 32)][13 := nonce[0] + s] ==
           ReferenceInput(constants, key, Low(c + k, 32), nonce[0 := nonce[0] + s]);
  }

  lemma {:induction false} WordsAt(constants: seq<nat>, key: seq<nat>, c: nat, nonce: seq<nat>, s: nat)
    requires |constants| == 4 && |key| == 8 && |nonce| == 3 && c < Pow2(32)
    requires forall x | x in constants + key + nonce :: x < Pow2(32)
    ensures Words(ReferenceInput(constants, key, c, nonce[0 := nonce[0] + s])) ==
            ReferenceInput(constants, key, c, nonce[0 := Low(nonce[0] + s, 32)])
  {
    hide Low;
    var h := ReferenceInput(constants, key, c, nonce[0 := nonce[0] + s]);
    var w := ReferenceInput(constants, key, c, nonce[0 := Low(nonce[0] + s, 32)]);
    forall i | 0 <= i < 16
      ensures Words(h)[i] == w[i]
    {
      if i != 13 {
        assert h[i] == c || h[i] in constants + key + nonce by {
          assert i < 12 ==> h[i] == (constants + key + nonce)[i];
          assert i > 13 ==> h[i] == nonce[i - 13] == (constants + key + nonce)[i - 1];
        }
        LowSmall(h[i], 32);
        assert h[i] == w[i];
      }
    }
  }

  /** With the eight-byte vector the first nonce word starts at zero, and words 12 and 13 together are
      a 64-bit block counter. */
  lemma {:induction false} WideCounter(data: State, k: nat)
    requires data[12] < Pow2(32) && data[13] == 0
    ensures StateAt(data, k)[13] * Pow2(32) + StateAt(data, k)[12] == data[12] + k
  {
    CounterAt(data, k);
    LowIsMod(data[12] + k, 32);
  }

  // ---- The generator --------------------------------------------------------------------------

  /** `struct.pack('<16I', ...)`. */
  function Pack(w: State): (b: Bytes)
    requires forall i | 0 <= i < 16 :: w[i] < Pow2(32)
    ensures |b| == 64
  {
    FourBytes(0);
    seq(64, j requires 0 <= j < 64 => ToLE(w[j / 4], 4)[j % 4])
  }

  /** The packed words, read back. */
  lemma {:induction false} UnpackPack(w: State)
    requires forall i | 0 <= i < 16 :: w[i] < Pow2(32)
    ensures Unpack(Pack(w)) == w
  {
    PackedFrom(w, 0);
    assert Pack(w)[0..] == Pack(w) && w[0..] == w;
  }

  lemma {:induction false} PackedFrom(w: State, i: nat)
    requires i <= 16 && forall j | 0 <= j < 16 :: w[j] < Pow2(32)
    ensures Unpack(Pack(w)[4 * i..]) == w[i..]
    decreases 16 - i
  {
    hide Unpack, FromLE, Pow2;
    var b := Pack(w);
    if i == 16 {
      UnpackNone();
    } else {
      PackedFrom(w, i + 1);
      PackedWord(w, i);
      var word, rest := b[4 * i..4 * i + 4], b[4 * (i + 1)..];
      UnpackStep(word, rest);
      assert b[4 * i..] == word + rest;
      assert w[i..] == [w[i]] + w[i + 1..];
    }
  }

  lemma {:induction false} UnpackNone()
    ensures Unpack([]) == []
  {
  }

  lemma {:induction false} PackedWord(w: State, i: nat)
    requires i < 16 && forall j | 0 <= j < 16 :: w[j] < Pow2(32)
    ensures FromLE(Pack(w)[4 * i..4 * i + 4]) == w[i]
  {
    hide FromLE, ToLE, Pow2;
    FourBytes(0);
    LERoundTrip(w[i], 4);
    var word := Pack(w)[4 * i..4 * i + 4];
    forall j | 0 <= j < 4
      ensures word[j] == ToLE(w[i], 4)[j]
    {
      assert (4 * i + j) / 4 == i && (4 * i + j) % 4 == j;
    }
    assert word == ToLE(w[i], 4);
  }

  /** Byte n of the key stream. */
  function KeyByte(data: State, passes: nat, n: nat): byte {
    Pack(Block(StateAt(data, n / 64), passes))[n % 64]
  }

  /** While the counter does not overflow, byte n of the stream is byte n of the reference blocks at
      counters c, c + 1, ... */
  lemma {:induction false} KeyByteIsReference(key: Bytes, c: nat, nonce: Bytes, n: nat, passes: nat)
    requires |key| == 32 && |nonce| == 12 && c + n / 64 < 0x1_0000_0000
    ensures var input := ReferenceInput(CONSTANTS, Unpack(key), c + n / 64, Unpack(nonce));
            KeyByte(Start(key, c, nonce), passes, n) == Pack(ReferenceBlock(input, passes))[n % 64]
  {
    hide Pack, Block, ReferenceBlock, StateAt, Unpack, Start, Pow2, Low, Shr, Words;
    FourBytes(c + n / 64);
    StartIsReference(key, c, nonce);
    assert PadLeft(nonce) == nonce;
    NthBlock(CONSTANTS, Unpack(key), c, Unpack(nonce), n / 64, passes);
  }

  /** 64 bytes of the stream from its n-th byte on. */
  function Stretch(data: State, passes: nat, n: nat): (b: Bytes)
    ensures |b| == 64
  {
    seq<byte>(64, j requires 0 <= j < 64 => KeyByte(data, passes, n + j))
  }

  /** Sections 2.3 and 2.4: while the counter does not overflow, bytes 64k to 64k + 63 of the stream are
      the words of the block function of ten double rounds at counter c + k. */
  lemma {:induction false} StreamIsReference(key: Bytes, c: nat, nonce: Bytes, k: nat)
    requires |key| == 32 && |nonce| == 12 && c + k < 0x1_0000_0000
    ensures Unpack(Stretch(Start(key, c, nonce), PASSES, 64 * k)) ==
            ReferenceBlock(ReferenceInput(CONSTANTS, Unpack(key), c + k, Unpack(nonce)), 10)
  {
    hide Pack, Block, ReferenceBlock, StateAt, Unpack, Start, Pow2, KeyByte;
    var s := Stretch(Start(key, c, nonce), PASSES, 64 * k);
    var block := ReferenceBlock(ReferenceInput(CONSTANTS, Unpack(key), c + k, Unpack(nonce)), PASSES);
    ReferenceFits(ReferenceInput(CONSTANTS, Unpack(key), c + k, Unpack(nonce)), PASSES);
    forall j | 0 <= j < 64
      ensures s[j] == Pack(block)[j]
    {
      assert (64 * k + j) / 64 == k && (64 * k + j) % 64 == j;
      KeyByteIsReference(key, c, nonce, 64 * k + j, PASSES);
    }
    assert s == Pack(block);
    UnpackPack(block);
  }

  lemma {:induction false} ReferenceFits(w: State, doubles: nat)
    ensures forall i | 0 <= i < 16 :: ReferenceBlock(w, doubles)[i] < Pow2(32)
  {
    hide InnerBlocks;
  }

  /** A shorter vector is a nonce with leading zero bytes; an eight-byte one leaves the first word zero. */
  lemma {:induction false} ShortVector(iv: Bytes)
    requires |iv| <= 12
    ensures PadLeft(iv)[12 - |iv|..] == iv && forall i | 0 <= i < 12 - |iv| :: PadLeft(iv)[i] == 0
    ensures |iv| == 8 ==> Unpack(PadLeft(iv)) == [0] + Unpack(iv)
  {
    hide Unpack;
    if |iv| == 8 {
      var zero: Bytes := [0, 0, 0, 0];
      assert PadLeft(iv) == zero + iv;
      UnpackStep(zero, iv);
      assert zero[1..] == [0, 0, 0] && zero[1..][1..] == [0, 0] && zero[1..][1..][1..] == [0];
      assert FromLE([0]) == 0 + 256 * FromLE([]);
    }
  }

  /** `ChaCha20_round`: the rounds in place. */
  method Round(h: array<nat>, passes: nat)
    requires h.Length == 16
    modifies h
    ensures h[..] == Turns(old(h[..]), 8 * passes)
    ensures Words(h[..]) == InnerBlocks(Words(old(h[..])), passes)
  {
    hide Words, InnerBlocks, Mix;
    ghost var start: State := h[..];
    for i := 0 to 8 * passes
      invariant h[..] == Turns(start, i)
    {
      var (a, b, c, d) := ORDERS[i % 8];
      MixInPlace(h, a, b, d, 16);
      MixInPlace(h, c, d, b, 12);
      MixInPlace(h, a, b, d, 8);
      MixInPlace(h, c, d, b, 7);
    }
    RoundsRefine(start, passes);
  }

  method MixInPlace(h: array<nat>, x: nat, y: nat, z: nat, n: nat)
    requires h.Length == 16 && x < 16 && y < 16 && z < 16 && n <= 32
    modifies h
    ensures h[..] == Mix(old(h[..]), x, y, z, n)
  {
    hide Rol, Xor;
    h[x] := h[x] + h[y];
    h[z] := Rol(Xor(h[z], h[x]), n);
  }

  /** The coroutine `core` with the byte-wise `encrypt` on top of it. */
  class KeyStream {
    ghost const initial: State
    const passes: nat
    const data: array<nat>
    var block: Bytes
    var used: nat
    ghost var taken: nat

    ghost predicate Valid()
      reads this, data
    {
      && data.Length == 16
      && if taken == 0 then block == [] && used == 0 && data[..] == initial
         else
           var k := (taken - 1) / 64;
           && data[..] == StateAt(initial, k)
           && block == Pack(Block(data[..], passes))
           && used == (taken - 1) % 64 + 1
    }

    constructor (start: State)
      ensures Valid() && initial == start && taken == 0 && fresh(data) && passes == PASSES
    {
      initial := start;
      passes := PASSES;
      data := new nat[16](i requires 0 <= i < 16 => start[i]);
      block, used, taken := [], 0, 0;
    }

    /** The counter step between two blocks. */
    method Count()
      requires data.Length == 16
      modifies data
      ensures data[..] == Advance(old(data[..]))
    {
      if data[12] == Pow2(32) - 1 {
        data[12], data[13] := 0, data[13] + 1;
      } else {
        data[12] := data[12] + 1;
      }
    }

    method NextBlock() returns (b: Bytes)
      requires data.Length == 16
      ensures b == Pack(Block(data[..], passes))
    {
      hide Turns, AddWords, Pack;
      var words: State := data[..];
      var h := new nat[16](i requires 0 <= i < 16 => words[i]);
      assert h[..] == words;
      Round(h, passes);
      b := Pack(AddWords(h[..], words));
    }

    /** `next(self.stream)`. */
    method Next() returns (b: byte)
      requires Valid()
      modifies this`block, this`used, this`taken, data
      ensures Valid() && taken == old(taken) + 1 && b == KeyByte(initial, passes, old(taken))
    {
      hide Pack, Block, Advance;
      if block == [] || used == 64 {
        if block != [] {
          Count();
        }
        assert data[..] == StateAt(initial, taken / 64);
        block := NextBlock();
        used := 0;
      }
      b := block[used];
      used := used + 1;
      taken := taken + 1;
    }

    /** `encrypt` and `decrypt`: the reference key stream added, from where the last call stopped. */
    method Encrypt(s: Bytes) returns (ret: Bytes)
      requires Valid()
      modifies this`block, this`used, this`taken, data
      ensures Valid() && taken == old(taken) + |s|
      ensures ret == AddStream((n: nat) => KeyByte(initial, passes, n), old(taken), s)
    {
      hide KeyByte, XorByte, Pack, Block, StateAt;
      ret := [];
      for i := 0 to |s|
        invariant Valid() && taken == old(taken) + i && |ret| == i
        invariant forall j | 0 <= j < i :: ret[j] == XorByte(s[j], KeyByte(initial, passes, old(taken) + j))
      {
        var k := Next();
        ret := ret + [XorByte(s[i], k)];
      }
    }
  }
}
