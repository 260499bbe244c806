/** Bit-mode cipher feedback: the same mode over bits, kept by the code in one integer register. */
module CfbBits {
  import opened Bits
  import opened ByteStrings
  import opened Incremental
  import opened Cfb

  type bit = x: nat | x < 2

  /** Bits are written most significant first. */
  function FromBits(b: seq<bit>): nat
    decreases |b|
  {
    if b == [] then 0 else 2 * FromBits(b[..|b| - 1]) + b[|b| - 1]
  }

  function ToBits(x: nat, n: nat): (b: seq<bit>)
    ensures |b| == n
    decreases n
  {
    if n == 0 then [] else ToBits(x / 2, n - 1) + [x % 2]
  }

  function BitsOf(b: Bytes): (r: seq<bit>)
    ensures |r| == 8 * |b|
    decreases |b|
  {
    if b == [] then [] else BitsOf(b[..|b| - 1]) + ToBits(b[|b| - 1], 8)
  }

  function Zeros(n: nat): (z: seq<bit>)
    ensures |z| == n
    decreases n
  {
    if n == 0 then [] else Zeros(n - 1) + [0]
  }

  lemma {:induction false} FromBitsSnoc(a: seq<bit>, b: bit)
    ensures FromBits(a + [b]) == 2 * FromBits(a) + b
  {
    assert (a + [b])[..|a|] == a;
  }

  lemma {:induction false} ToBitsSnoc(x: nat, b: bit, n: nat)
    ensures ToBits(2 * x + b, n + 1) == ToBits(x, n) + [b]
  {
    assert (2 * x + b) / 2 == x && (2 * x + b) % 2 == b;
  }

  lemma {:induction false} FromBitsBound(b: seq<bit>)
    ensures FromBits(b) < Pow2(|b|)
    decreases |b|
  {
    if b != [] { FromBitsBound(b[..|b| - 1]); }
  }

  lemma {:induction false} ToFromBits(b: seq<bit>)
    ensures ToBits(FromBits(b), |b|) == b
    decreases |b|
  {
    if b != [] {
      hide FromBits, ToBits;
      var p, u := b[..|b| - 1], b[|b| - 1];
      ToFromBits(p);
      FromBitsSnoc(p, u);
      ToBitsSnoc(FromBits(p), u, |p|);
      assert p + [u] == b;
    } else {
      assert FromBits(b) == 0;
    }
  }

  lemma {:induction false} FromToBits(x: nat, n: nat)
    requires x < Pow2(n)
    ensures FromBits(ToBits(x, n)) == x
    decreases n
  {
    if n != 0 {
      FromToBits(x / 2, n - 1);
      FromBitsSnoc(ToBits(x / 2, n - 1), x % 2);
    }
  }

  /** Bit t of an n-bit number, as `x >> (n - 1 - t) & 1`. */
  lemma {:induction false} BitAt(x: nat, n: nat, t: nat)
    requires t < n
    ensures ToBits(x, n)[t] == Low(Shr(x, n - 1 - t), 1)
    decreases n
  {
    if t < n - 1 {
      BitAt(x / 2, n - 1, t);
    } else {
      assert Low(x, 1) == 2 * Low(x / 2, 0) + x % 2;
    }
  }

  lemma {:induction false} FromBitsAppend(a: seq<bit>, x: nat, n: nat)
    requires x < Pow2(n)
    ensures FromBits(a + ToBits(x, n)) == Shl(FromBits(a), n) + x
    decreases n
  {
    if n == 0 {
      assert a + ToBits(x, 0) == a;
    } else {
      FromBitsAppend(a, x / 2, n - 1);
      assert a + ToBits(x, n) == (a + ToBits(x / 2, n - 1)) + [x % 2];
      FromBitsSnoc(a + ToBits(x / 2, n - 1), x % 2);
    }
  }

  /** The integer register of a byte string is its big-endian value. */
  lemma {:induction false} BitsOfBytes(b: Bytes)
    ensures FromBits(BitsOf(b)) == FromBE(b)
    decreases |b|
  {
    if b != [] {
      BitsOfBytes(b[..|b| - 1]);
      assert Pow2(8) == 256;
      FromBitsAppend(BitsOf(b[..|b| - 1]), b[|b| - 1], 8);
      ShlIsMul(FromBE(b[..|b| - 1]), 8);
    }
  }

  // ---- The register as an integer -------------------------------------------------------------

  lemma {:induction false} ZerosShift(a: seq<bit>, n: nat)
    ensures FromBits(a + Zeros(n)) == Shl(FromBits(a), n)
    decreases n
  {
    hide FromBits;
    if n == 0 {
      assert a + [] == a;
    } else {
      ZerosShift(a, n - 1);
      assert a + Zeros(n) == (a + Zeros(n - 1)) + [0];
      FromBitsSnoc(a + Zeros(n - 1), 0);
    }
  }

  lemma {:induction false} OrShl(x: nat, y: nat, n: nat)
    ensures Or(Shl(x, n), Shl(y, n)) == Shl(Or(x, y), n)
  {
    if n != 0 { OrShl(x, y, n - 1); }
  }

  lemma {:induction false} ShlDouble(x: nat, n: nat)
    ensures Shl(x, n + 1) == Shl(2 * x, n)
  {
    if n != 0 { ShlDouble(x, n - 1); }
  }

  /** Or-ing a bit into the first of the trailing zeros appends it. */
  lemma {:induction false} InsertBit(a: seq<bit>, b: bit, n: nat)
    ensures Or(FromBits(a + Zeros(n + 1)), Shl(b, n)) == FromBits(a + [b] + Zeros(n))
  {
    hide FromBits, Zeros, Or;
    var x := FromBits(a);
    ZerosShift(a, n + 1);
    ZerosShift(a + [b], n);
    FromBitsSnoc(a, b);
    ShlDouble(x, n);
    OrShl(2 * x, b, n);
    OrDisjoint(x, b, 1);
    assert Shl(x, 1) == 2 * Shl(x, 0) == 2 * x;
    assert Pow2(1) == 2 * Pow2(0);
  }

  lemma {:induction false} LowBits(a: seq<bit>, b: seq<bit>)
    ensures Low(FromBits(a + b), |b|) == FromBits(b)
    decreases |b|
  {
    if b != [] {
      hide FromBits, Low, Pow2;
      var p, u := b[..|b| - 1], b[|b| - 1];
      LowBits(a, p);
      LowPair(FromBits(a + p), u, |p|);
      FromBitsSnoc(p, u);
      FromBitsSnoc(a + p, u);
      assert b == p + [u];
      assert a + b == a + p + [u];
    }
  }

  /** Shift and mask drop the oldest segment and make room for the next. */
  lemma {:induction false} ShiftOut(b: seq<bit>, n: nat)
    requires n <= |b|
    ensures Low(Shl(FromBits(b), n), |b|) == FromBits(b[n..] + Zeros(n))
  {
    hide FromBits, Low, Zeros;
    LowShl(FromBits(b), |b| - n, n);
    LowBits(b[..n], b[n..]);
    assert b[..n] + b[n..] == b;
    ZerosShift(b[n..], n);
  }

  // ---- The mode -------------------------------------------------------------------------------

  function XorOne(a: bit, b: bit): bit { (a + b) % 2 }

  lemma {:induction false} XorOneIsXor(a: bit, b: bit)
    ensures Xor(a, b) == XorOne(a, b)
  {
    assert Xor(a / 2, b / 2) == 0;
  }

  /** Bit i of the block cipher's output on a register. */
  function BlockBit(ivLength: nat, block: (Bytes, nat) -> byte, register: seq<bit>, i: nat): bit {
    if |register| == 8 * ivLength then
      FromBitsBound(register);
      assert Pow2(1) == 2 * Pow2(0);
      Low(Shr(block(ToBE(FromBits(register), ivLength), i / 8), 7 - i % 8), 1)
    else 0
  }

  function BitMode(ivLength: nat, segment: nat, block: (Bytes, nat) -> byte): Mode<bit> {
    Mode(8 * ivLength, segment, XorOne, (r: seq<bit>, i: nat) => BlockBit(ivLength, block, r, i))
  }

  lemma {:induction false} BitModeLaws(ivLength: nat, segment: nat, block: (Bytes, nat) -> byte)
    requires 0 < segment <= 8 * ivLength
    ensures Laws(BitMode(ivLength, segment, block))
  {
  }

  /** Bytes are taken apart into bits and put together again, most significant bit first. */
  function ByteChain(m: Mode<bit>, st: State<bit>, s: Bytes, inv: bool): (r: (State<bit>, Bytes))
    decreases |s|
  {
    if s == [] then (st, [])
    else
      var one := Chain(m, st, ToBits(s[0], 8), inv);
      FromBitsBound(one.1);
      assert Pow2(8) == 256;
      var rest := ByteChain(m, one.0, s[1..], inv);
      (rest.0, [FromBits(one.1)] + rest.1)
  }

  lemma {:induction false} ByteChainSplit(m: Mode<bit>, st: State<bit>, a: Bytes, b: Bytes, inv: bool)
    ensures var x := ByteChain(m, st, a, inv);
            var y := ByteChain(m, x.0, b, inv);
            ByteChain(m, st, a + b, inv).0 == y.0 && ByteChain(m, st, a + b, inv).1 == x.1 + y.1
    decreases |a|
  {
    hide Chain, FromBits, ToBits;
    if a == [] {
      assert [] + b == b;
    } else {
      var t := Chain(m, st, ToBits(a[0], 8), inv).0;
      ByteChainSplit(m, t, a[1..], b, inv);
      assert (a + b)[1..] == a[1..] + b && (a + b)[0] == a[0];
    }
  }

  lemma {:induction false} ByteChainLive(m: Mode<bit>, st: State<bit>, s: Bytes, inv: bool)
    requires 0 < m.segment <= m.size && Live(m, st)
    ensures Live(m, ByteChain(m, st, s, inv).0)
    decreases |s|
  {
    hide Chain, FromBits, ToBits;
    if s != [] {
      ChainLive(m, st, ToBits(s[0], 8), inv);
      ByteChainLive(m, Chain(m, st, ToBits(s[0], 8), inv).0, s[1..], inv);
    }
  }

  lemma {:induction false} ByteChainInverts(m: Mode<bit>, st: State<bit>, s: Bytes)
    requires Laws(m)
    ensures var (t, c) := ByteChain(m, st, s, false);
            ByteChain(m, st, c, true) == (t, s)
    decreases |s|
  {
    hide Chain, FromBits, ToBits, Laws;
    if s != [] {
      var bits := ToBits(s[0], 8);
      var (t, out) := Chain(m, st, bits, false);
      ChainInverts(m, st, bits);
      ToFromBits(out);
      assert Pow2(8) == 256;
      FromToBits(s[0], 8);
      ByteChainInverts(m, t, s[1..]);
      var c := ByteChain(m, st, s, false).1;
      assert c[0] == FromBits(out) && c[1..] == ByteChain(m, t, s[1..], false).1;
      assert [s[0]] + s[1..] == s;
    }
  }

  // ---- The whole message ----------------------------------------------------------------------

  lemma {:induction false} BitsOfCons(x: byte, s: Bytes)
    ensures BitsOf([x] + s) == ToBits(x, 8) + BitsOf(s)
    decreases |s|
  {
    hide ToBits;
    var b := [x] + s;
    if s == [] {
      assert b[..0] == [];
      assert BitsOf([]) == [];
      assert ToBits(x, 8) + [] == [] + ToBits(x, 8) == ToBits(x, 8);
    } else {
      var p, u := s[..|s| - 1], s[|s| - 1];
      BitsOfCons(x, p);
      assert b[..|b| - 1] == [x] + p && b[|b| - 1] == u;
      assert ToBits(x, 8) + BitsOf(p) + ToBits(u, 8) == ToBits(x, 8) + (BitsOf(p) + ToBits(u, 8));
    }
  }

  /** Byte by byte is bit by bit over the bits of the message. */
  lemma {:induction false} ByteChainIsChain(m: Mode<bit>, st: State<bit>, s: Bytes, inv: bool)
    ensures var (t, r) := ByteChain(m, st, s, inv);
            Chain(m, st, BitsOf(s), inv) == (t, BitsOf(r))
    decreases |s|
  {
    hide Chain, ToBits, FromBits;
    if s == [] {
      assert BitsOf(s) == [];
      ChainNone(m, st, BitsOf(s), inv);
      assert BitsOf(s)[..0] == [];
    } else {
      var bits, more := ToBits(s[0], 8), BitsOf(s[1..]);
      var (t, out) := Chain(m, st, bits, inv);
      ByteChainIsChain(m, t, s[1..], inv);
      assert [s[0]] + s[1..] == s;
      BitsOfCons(s[0], s[1..]);
      ChainSplit(m, st, bits, more, inv);
      ToFromBits(out);
      FromBitsBound(out);
      assert Pow2(8) == 256;
      BitsOfCons(FromBits(out), ByteChain(m, t, s[1..], inv).1);
    }
  }

  /** Both directions of bit mode satisfy the definition of section 6.3 over the bits of the message. */
  lemma {:induction false} ByteChainIsFeedback(m: Mode<bit>, iv: Bytes, s: Bytes, inv: bool)
    requires 0 < m.segment <= m.size == 8 * |iv|
    ensures var r := ByteChain(m, State(BitsOf(iv), []), s, inv).1;
            |r| == |s| && Feedback(m, BitsOf(iv), BitsOf(Ciphertext(s, r, inv)), BitsOf(s), BitsOf(r))
  {
    hide Chain, ByteChain, Feedback, BitsOf;
    var r := ByteChain(m, State(BitsOf(iv), []), s, inv).1;
    ByteChainIsChain(m, State(BitsOf(iv), []), s, inv);
    assert |BitsOf(r)| == |BitsOf(s)|;
    ChainIsFeedback(m, BitsOf(iv), BitsOf(s), inv);
  }

  /** The state after a message of j whole segments and k bits. */
  lemma {:induction false} BitRegister(
    m: Mode<bit>, iv: Bytes, s: Bytes, inv: bool, j: nat, at: nat, k: nat)
    requires 0 < m.segment <= m.size == 8 * |iv| && at == j * m.segment && k < m.segment && 8 * |s| == at + k
    ensures var (t, r) := ByteChain(m, State(BitsOf(iv), []), s, inv);
            |r| == |s| && t == After(BitsOf(iv), BitsOf(Ciphertext(s, r, inv)), at)
  {
    hide Chain, ByteChain, BitsOf, After;
    ByteChainIsChain(m, State(BitsOf(iv), []), s, inv);
    var r := ByteChain(m, State(BitsOf(iv), []), s, inv).1;
    assert |BitsOf(r)| == |BitsOf(s)|;
    ChainState(m, BitsOf(iv), BitsOf(s), inv, j, at, k);
  }

  /** Bit t of a message, each byte from its most significant bit down. */
  predicate MessageBit(b: Bytes, t: nat)
    requires t < 8 * |b|
  {
    Bit(b[t / 8], 7 - t % 8)
  }

  lemma {:induction false} DigitBit(x: nat, n: nat, t: nat)
    requires t < n
    ensures ToBits(x, n)[t] == 1 <==> Bit(x, n - 1 - t)
    decreases n
  {
    if t < n - 1 { DigitBit(x / 2, n - 1, t); }
  }

  lemma {:induction false} BitsOfAt(b: Bytes, t: nat)
    requires t < 8 * |b|
    ensures BitsOf(b)[t] == 1 <==> MessageBit(b, t)
    decreases |b|
  {
    hide ToBits, Bit;
    var n := |b| - 1;
    if t < 8 * n { BitsOfAt(b[..n], t); } else { DigitBit(b[n], 8, t - 8 * n); }
  }

  /** Bit mode without the integer register: bit k of segment j meets bit k of the encrypted register, which
      holds the last bits of the vector and of all ciphertext before the segment. */
  lemma {:induction false} BitModeIs(
    iv: Bytes, segment: nat, block: (Bytes, nat) -> byte, s: Bytes, inv: bool,
    j: nat, at: nat, k: nat, register: Bytes)
    requires 0 < segment <= 8 * |iv| && at == j * segment && k < segment && at + k < 8 * |s|
    requires |register| == |iv|
    requires var r := ByteChain(BitMode(|iv|, segment, block), State(BitsOf(iv), []), s, inv).1;
             var c := if inv then s else r;
             |r| == |s| && forall u | 0 <= u < 8 * |iv| ::
               MessageBit(register, u) <==>
               if at + u < 8 * |iv| then MessageBit(iv, at + u) else MessageBit(c, at + u - 8 * |iv|)
    ensures var r := ByteChain(BitMode(|iv|, segment, block), State(BitsOf(iv), []), s, inv).1;
            MessageBit(r, at + k) <==> MessageBit(s, at + k) != Bit(block(register, k / 8), 7 - k % 8)
  {
    hide Chain, ByteChain, Register, BitsOf, MessageBit, BlockBit, FromBits, Bit;
    var m := BitMode(|iv|, segment, block);
    var r := ByteChain(m, State(BitsOf(iv), []), s, inv).1;
    var c := Ciphertext(s, r, inv);
    ByteChainIsFeedback(m, iv, s, inv);
    var bits := Register(m, BitsOf(iv), BitsOf(c), j);
    RegisterIsLastBlock(m, BitsOf(iv), BitsOf(c), j);
    forall u | 0 <= u < 8 * |iv|
      ensures bits[u] == BitsOf(register)[u]
    {
      BitsOfAt(register, u);
      if at + u < 8 * |iv| { BitsOfAt(iv, at + u); } else { BitsOfAt(c, at + u - 8 * |iv|); }
    }
    assert bits == BitsOf(register);
    assert BitsOf(r)[j * segment + k] == XorOne(BitsOf(s)[j * segment + k], m.block(bits, k));
    BitsOfAt(r, at + k);
    BitsOfAt(s, at + k);
    BlockBitIs(block, register, k);
  }

  lemma {:induction false} BlockBitIs(block: (Bytes, nat) -> byte, register: Bytes, k: nat)
    ensures BlockBit(|register|, block, BitsOf(register), k) == 1 <==> Bit(block(register, k / 8), 7 - k % 8)
  {
    hide FromBits, ToBE, FromBE, Bit, Low, Shr;
    BitsOfBytes(register);
    FromBEBound(register);
    BERoundTrip(FromBE(register), |register|);
    BEUnique(ToBE(FromBE(register), |register|), register);
    var x := block(register, k / 8);
    BitAt(x, 8, k % 8);
    DigitBit(x, 8, k % 8);
  }

  function BitFeedbackCipher(ivLength: nat, m: Mode<bit>): A.Cipher<State<bit>> {
    A.Cipher(ivLength, (iv: Bytes) => State(BitsOf(iv), []),
             (st: State<bit>, s: Bytes) => Some(ByteChain(m, st, s, true)),
             (st: State<bit>, s: Bytes) => Some(ByteChain(m, st, s, false)))
  }

  /** The bit-mode layer inverts under any chunking too. */
  lemma {:induction false} BitFeedbackInverts(ivLength: nat, segment: nat, block: (Bytes, nat) -> byte)
    requires 0 < segment <= 8 * ivLength
    ensures var m := BitMode(ivLength, segment, block);
            A.CipherInverts(BitFeedbackCipher(ivLength, m), (st: State<bit>) => Live(m, st),
                            (a: State<bit>, b: State<bit>) => Live(m, a) && a == b)
  {
    hide ByteChain, BlockBit, Push;
    var m := BitMode(ivLength, segment, block);
    var k := BitFeedbackCipher(ivLength, m);
    var live := (st: State<bit>) => Live(m, st);
    var same := (a: State<bit>, b: State<bit>) => Live(m, a) && a == b;
    var d := A.CipherDecoder(k, live);
    BitModeLaws(ivLength, segment, block);
    forall st
      ensures d.feed(st, []) == Some((st, []))
    {
      ByteChainEmpty(m, st, true);
    }
    forall st, a | d.ready(st)
      ensures d.ready(d.feed(st, a).value.0)
    {
      ByteChainLive(m, st, a, true);
    }
    forall st, a, b
      ensures d.feed(st, a + b) == Then(d, d.feed(st, a), b)
    {
      ByteChainSplit(m, st, a, b, true);
    }
    forall w, r, x | same(w, r)
      ensures Undone(A.Single(k.encrypt).write(w, x).value, d, r, same, Same(x))
    {
      FlattenOne(ByteChain(m, w, x, false).1);
      ByteChainInverts(m, w, x);
      ByteChainLive(m, w, x, false);
    }
  }

  lemma {:induction false} ByteChainEmpty(m: Mode<bit>, st: State<bit>, inv: bool)
    ensures ByteChain(m, st, [], inv) == (st, [])
  {
  }

  /** One more bit of a byte, as the loop over its eight bits takes it. */
  lemma {:induction false} NextBit(
    ivLength: nat, segment: nat, block: (Bytes, nat) -> byte, first: State<bit>, x: byte, n: nat, inv: bool)
    requires n < 8
    ensures var m, bits := BitMode(ivLength, segment, block), ToBits(x, 8);
            var (t, r) := Chain(m, first, bits[..n], inv);
            var j := XorOne(BitOfByte(x, n), BlockBit(ivLength, block, t.register, |t.part|));
            Chain(m, first, bits[..n + 1], inv) == (Push(m, t, if inv then BitOfByte(x, n) else j), r + [j])
  {
    hide ToBits, BlockBit, Push, Chain;
    BitAt(x, 8, n);
    ChainSnoc(BitMode(ivLength, segment, block), first, ToBits(x, 8), n, inv);
  }

  // ---- The coroutine --------------------------------------------------------------------------

  /** `core_bit` and the bit branch of `process`. */
  class BitCFBCipher {
    const ivLength: nat
    const segment: nat
    const block: (Bytes, nat) -> byte
    var nextIv: nat
    var data: Bytes
    var i: nat
    var started: bool
    var last: Option<bit>
    ghost var consumed: State<bit>

    ghost function M(): Mode<bit> { BitMode(ivLength, segment, block) }

    ghost predicate Suspended()
      reads this
    {
      && 0 < segment <= 8 * ivLength
      && Live(M(), consumed)
      && if started then
           && i == |consumed.part|
           && |data| == ivLength
           && (forall t | 0 <= t < 8 * ivLength ::
                 Low(Shr(data[t / 8], 7 - t % 8), 1) == BlockBit(ivLength, block, consumed.register, t))
           && nextIv == FromBits(consumed.register[segment..] + consumed.part + Zeros(segment - i))
         else
           nextIv == FromBits(consumed.register) && consumed.part == []
    }

    ghost predicate Valid()
      reads this
    {
      Suspended() && started == last.Some?
    }

    ghost function Current(): State<bit>
      reads this
    {
      if last.Some? then Push(M(), consumed, last.value) else consumed
    }

    constructor (iv: Bytes, segmentBits: nat, blockFunction: (Bytes, nat) -> byte)
      requires 0 < segmentBits <= 8 * |iv|
      ensures Valid() && Current() == State(BitsOf(iv), [])
      ensures ivLength == |iv| && segment == segmentBits && block == blockFunction
    {
      ivLength, segment, block := |iv|, segmentBits, blockFunction;
      nextIv, data, i, started, last := FromBE(iv), [], 0, false, None;
      consumed := State(BitsOf(iv), []);
      new;
      BitsOfBytes(iv);
    }

    /** The top of the generator's loop: encrypt the register, then shift a segment out of it. */
    method Refill()
      requires 0 < segment <= 8 * ivLength && Live(M(), consumed) && consumed.part == []
      requires nextIv == FromBits(consumed.register)
      modifies this`nextIv, this`data, this`i, this`started
      ensures Suspended() && started
    {
      FromBitsBound(consumed.register);
      var register := ToBE(nextIv, ivLength);
      data := seq(ivLength, t requires 0 <= t < ivLength => block(register, t));
      ShiftOut(consumed.register, segment);
      nextIv := Low(Shl(nextIv, segment), 8 * ivLength);
      i := 0;
      started := true;
      assert consumed.register[segment..] + [] == consumed.register[segment..];
    }

    method Send(feedback: Option<bit>) returns (key: bit)
      requires Suspended() && started == feedback.Some?
      modifies this`nextIv, this`data, this`i, this`started, this`consumed
      ensures Suspended() && started
      ensures consumed == if feedback.Some? then Push(M(), old(consumed), feedback.value) else old(consumed)
      ensures key == BlockBit(ivLength, block, consumed.register, |consumed.part|)
    {
      hide FromBits, Zeros, Low, Shr, Shl, Or, BlockBit;
      if started {
        var b := feedback.value;
        var held := consumed.register[segment..] + consumed.part;
        InsertBit(held, b, segment - 1 - i);
        assert held + [b] == consumed.register[segment..] + (consumed.part + [b]);
        nextIv := Or(nextIv, Shl(b, segment - 1 - i));
        i := i + 1;
        consumed := Push(M(), consumed, b);
        if i == segment {
          NoZeros(held + [b]);
          Refill();
        }
      } else {
        Refill();
      }
      key := BitOfByte(data[i / 8], i % 8);
    }

    /** One byte, from its most significant bit down. */
    method ProcessByte(x: byte, inv: bool) returns (j: byte)
      requires Valid()
      modifies this
      ensures Valid()
      ensures var r := Chain(M(), old(Current()), ToBits(x, 8), inv);
              Current() == r.0 && j == FromBits(r.1)
    {
      hide FromBits, ToBits, Zeros, Low, Shr, Shl, Or, Xor, BlockBit, BitOfByte, Push, Chain;
      ghost var first, bits := Current(), ToBits(x, 8);
      var acc: nat := 0;
      ghost var done: seq<bit> := [];
      AllZeros(8);
      ChainNone(M(), first, bits, inv);
      for k := 8 downto 0
        invariant Valid() && |done| == 8 - k
        invariant Current() == Chain(M(), first, bits[..8 - k], inv).0
        invariant done == Chain(M(), first, bits[..8 - k], inv).1
        invariant acc == FromBits(done + Zeros(k))
      {
        var key := Send(last);
        var ibit := BitOfByte(x, 7 - k);
        NextBit(ivLength, segment, block, first, x, 7 - k, inv);
        XorOneIsXor(ibit, key);
        var jbit: bit := Xor(ibit, key);
        InsertBit(done, jbit, k);
        acc := Or(acc, Shl(jbit, k));
        last := Some(if inv then ibit else jbit);
        done := done + [jbit];
      }
      NoZeros(done);
      assert bits[..8] == bits;
      FromBitsBound(done);
      assert Pow2(8) == 256;
      j := acc;
    }

    method Process(s: Bytes, inv: bool) returns (r: Bytes)
      requires Valid()
      modifies this
      ensures Valid()
      ensures var spec := ByteChain(M(), old(Current()), s, inv);
              Current() == spec.0 && r == spec.1
    {
      hide FromBits, ToBits, Zeros, BlockBit, Push, Chain;
      r := [];
      ghost var first := Current();
      for n := 0 to |s|
        invariant Valid()
        invariant Current() == ByteChain(M(), first, s[..n], inv).0 && r == ByteChain(M(), first, s[..n], inv).1
      {
        ghost var st := Current();
        var j := ProcessByte(s[n], inv);
        r := r + [j];
        ByteChainOne(M(), st, s[n], inv);
        ByteChainSplit(M(), first, s[..n], [s[n]], inv);
        assert s[..n] + [s[n]] == s[..n + 1];
      }
      assert s[..|s|] == s;
    }
  }

  /** `x >> (7 - t) & 1`. */
  function BitOfByte(x: byte, t: nat): (b: bit)
    requires t < 8
    ensures b == Low(Shr(x, 7 - t), 1)
  {
    assert Pow2(1) == 2 * Pow2(0);
    Low(Shr(x, 7 - t), 1)
  }

  lemma {:induction false} NoZeros(a: seq<bit>)
    ensures a + Zeros(0) == a
  {
  }

  lemma {:induction false} AllZeros(n: nat)
    ensures FromBits([] + Zeros(n)) == 0
  {
    ZerosShift([], n);
    ShlIsMul(0, n);
  }

  lemma {:induction false} ByteChainOne(m: Mode<bit>, st: State<bit>, x: byte, inv: bool)
    ensures var one := Chain(m, st, ToBits(x, 8), inv);
            ByteChain(m, st, [x], inv).0 == one.0 && ByteChain(m, st, [x], inv).1 == [FromBits(one.1)]
  {
    hide Chain, FromBits, ToBits;
    assert [x][1..] == [];
  }
}
