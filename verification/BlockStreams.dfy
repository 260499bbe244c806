/** The counter and output-feedback generators (sections 6.4 and 6.5 of NIST SP 800-38A), for an
    arbitrary block function: one class, two cores. */
module BlockStreams {
  import opened Bits
  import opened ByteStrings
  import K = KeyStreams

  /** `core` yields the bytes of `emit(s)` and then moves on to `step(s)`. */
  datatype Core<!S> = Core(size: nat, step: S -> S, emit: (S, nat) -> byte)

  function StateAt<S>(c: Core<S>, start: S, k: nat): S {
    if k == 0 then start else c.step(StateAt(c, start, k - 1))
  }

  /** Byte n of the stream. */
  function KeyByte<S>(c: Core<S>, start: S, n: nat): byte
    requires c.size > 0
  {
    c.emit(StateAt(c, start, n / c.size), n % c.size)
  }

  /** The first n bytes of the stream. */
  function Stream<S>(c: Core<S>, start: S, n: nat): (r: Bytes)
    requires c.size > 0
    ensures |r| == n
  {
    seq(n, i requires 0 <= i < n => KeyByte(c, start, i))
  }

  function Emitted<S>(c: Core<S>, s: S): (r: Bytes)
    ensures |r| == c.size
  {
    seq(c.size, i requires 0 <= i < c.size => c.emit(s, i))
  }

  lemma {:induction false} StateShift<S>(c: Core<S>, start: S, k: nat)
    ensures StateAt(c, start, k + 1) == StateAt(c, c.step(start), k)
  {
    if k > 0 { StateShift(c, start, k - 1); }
  }

  /** Past the first block the stream is the stream of the next state. */
  lemma {:induction false} ByteShift<S>(c: Core<S>, start: S, n: nat)
    requires c.size > 0
    ensures KeyByte(c, start, c.size + n) == KeyByte(c, c.step(start), n)
    ensures n < c.size ==> KeyByte(c, start, n) == c.emit(start, n)
  {
    hide StateAt;
    var q, r := n / c.size, n % c.size;
    assert n == q * c.size + r;
    assert c.size + n == (q + 1) * c.size + r;
    Remainder(q + 1, r, c.size);
    StateShift(c, start, q);
    if n < c.size {
      Remainder(0, n, c.size);
      FirstState(c, start);
    }
  }

  lemma {:induction false} FirstState<S>(c: Core<S>, start: S)
    ensures StateAt(c, start, 0) == start
  {
  }

  lemma {:induction false} StreamBlock<S>(c: Core<S>, start: S, n: nat)
    requires c.size > 0
    ensures Stream(c, start, c.size + n) == Emitted(c, start) + Stream(c, c.step(start), n)
  {
    hide KeyByte;
    var l, r := Stream(c, start, c.size + n), Emitted(c, start) + Stream(c, c.step(start), n);
    forall i | 0 <= i < |l|
      ensures l[i] == r[i]
    {
      if i < c.size {
        ByteShift(c, start, i);
      } else {
        ByteShift(c, start, i - c.size);
      }
    }
  }

  lemma {:induction false} NoStream<S>(c: Core<S>, start: S)
    requires c.size > 0
    ensures Stream(c, start, 0) == []
  {
  }

  // ---- Counter mode ---------------------------------------------------------------------------

  function Count(size: nat, x: nat): nat {
    if x >= Pow2(8 * size) - 1 then 0 else x + 1
  }

  /** `block(x, i)` is byte i of the encryption of the block with integer value x. */
  function CounterCore(size: nat, block: (nat, nat) -> byte): Core<nat> {
    Core<nat>.Core(size, (x: nat) => Count(size, x), block)
  }

  /** Counter block k is the vector plus k, modulo the block size: the reset is the wrap-around. */
  lemma {:induction false} CounterBlock(size: nat, block: (nat, nat) -> byte, iv: nat, k: nat)
    requires iv < Pow2(8 * size)
    ensures StateAt(CounterCore(size, block), iv, k) == Low(iv + k, 8 * size)
  {
    hide Low;
    if k == 0 {
      LowSmall(iv, 8 * size);
    } else {
      CounterBlock(size, block, iv, k - 1);
      LowIncrement(iv + k - 1, 8 * size);
    }
  }

  /** Within one cycle of the counter no two blocks of the stream use the same counter block. */
  lemma {:induction false} CountersDiffer(size: nat, block: (nat, nat) -> byte, iv: nat, j: nat, k: nat)
    requires iv < Pow2(8 * size) && j < k < Pow2(8 * size)
    ensures StateAt(CounterCore(size, block), iv, j) != StateAt(CounterCore(size, block), iv, k)
  {
    hide Low, StateAt;
    var w := 8 * size;
    CounterBlock(size, block, iv, j);
    CounterBlock(size, block, iv, k);
    LowOver(iv + j, w);
    LowOver(iv + k, w);
  }

  function EncryptedBlock<S>(size: nat, block: (S, nat) -> byte, x: S): (r: Bytes)
    ensures |r| == size
  {
    seq(size, i requires 0 <= i < size => block(x, i))
  }

  /** Section 6.5: the blocks of the stream encrypt the vector, the vector plus one, and so on. */
  function CounterBlocks(size: nat, block: (nat, nat) -> byte, iv: nat, m: nat): (o: seq<Bytes>)
    ensures |o| == m
  {
    seq(m, j requires 0 <= j < m => EncryptedBlock(size, block, Low(iv + j, 8 * size)))
  }

  lemma {:induction false} CounterBlocksShift(size: nat, block: (nat, nat) -> byte, iv: nat, m: nat)
    requires iv < Pow2(8 * size)
    ensures CounterBlocks(size, block, iv, m + 1) ==
            [EncryptedBlock(size, block, iv)] + CounterBlocks(size, block, Count(size, iv), m)
  {
    hide Low, EncryptedBlock;
    var w := 8 * size;
    LowSmall(iv, w);
    LowIncrement(iv, w);
    var l := CounterBlocks(size, block, iv, m + 1);
    var r := [EncryptedBlock(size, block, iv)] + CounterBlocks(size, block, Count(size, iv), m);
    forall j | 0 <= j < |l|
      ensures l[j] == r[j]
    {
      if j > 0 { CountedLow(size, iv, j - 1); }
    }
  }

  lemma {:induction false} CountedLow(size: nat, iv: nat, j: nat)
    requires iv < Pow2(8 * size)
    ensures Low(Count(size, iv) + j, 8 * size) == Low(iv + j + 1, 8 * size)
  {
    hide Low;
    var w := 8 * size;
    LowSmall(iv, w);
    LowIncrement(iv, w);
    LowAdd(iv + 1, j, w);
    LowAdd(Count(size, iv), j, w);
    LowLow(iv + 1, w, w);
  }

  /** The counter generator yields the concatenation of those blocks. */
  lemma {:induction false} CounterStream(size: nat, block: (nat, nat) -> byte, iv: nat, m: nat)
    requires size > 0 && iv < Pow2(8 * size)
    ensures m * size >= 0
    ensures Stream(CounterCore(size, block), iv, m * size) == Flatten(CounterBlocks(size, block, iv, m))
    decreases m
  {
    hide EncryptedBlock, CounterBlocks, Flatten, Stream, Low;
    var c := CounterCore(size, block);
    if m == 0 {
      NoStream(c, iv);
      FlattenNone<byte>();
      assert CounterBlocks(size, block, iv, 0) == [];
    } else {
      CounterStream(size, block, Count(size, iv), m - 1);
      EmitsCounter(size, block, iv);
      var n: nat := (m - 1) * size;
      assert m * size == size + n;
      StreamBlock(c, iv, n);
      CounterBlocksShift(size, block, iv, m - 1);
      FlattenCons(EncryptedBlock(size, block, iv), CounterBlocks(size, block, Count(size, iv), m - 1));
    }
  }

  lemma {:induction false} EmitsCounter(size: nat, block: (nat, nat) -> byte, iv: nat)
    ensures Emitted(CounterCore(size, block), iv) == EncryptedBlock(size, block, iv)
  {
  }

  // ---- Output feedback ------------------------------------------------------------------------

  function FeedbackCore(size: nat, block: (Bytes, nat) -> byte): Core<Bytes> {
    Core(size, (s: Bytes) => EncryptedBlock(size, block, s), block)
  }

  /** Section 6.4: the first output block encrypts the vector, every other one its predecessor. */
  function OutputBlocks(size: nat, block: (Bytes, nat) -> byte, iv: Bytes, m: nat): (o: seq<Bytes>)
    ensures |o| == m
    decreases m
  {
    if m == 0 then []
    else
      var before := OutputBlocks(size, block, iv, m - 1);
      before + [EncryptedBlock(size, block, if m == 1 then iv else before[m - 2])]
  }

  lemma {:induction false} OutputBlocksShift(size: nat, block: (Bytes, nat) -> byte, iv: Bytes, m: nat)
    ensures var o := EncryptedBlock(size, block, iv);
            OutputBlocks(size, block, iv, m + 1) == [o] + OutputBlocks(size, block, o, m)
    decreases m
  {
    hide EncryptedBlock;
    if m == 0 {
      assert OutputBlocks(size, block, iv, 0) == [];
    } else {
      OutputBlocksShift(size, block, iv, m - 1);
    }
  }

  /** The generator of output feedback yields the concatenation of the output blocks. */
  lemma {:induction false} FeedbackStream(size: nat, block: (Bytes, nat) -> byte, iv: Bytes, m: nat)
    requires size > 0
    ensures m * size >= 0
    ensures Stream(FeedbackCore(size, block), iv, m * size) == Flatten(OutputBlocks(size, block, iv, m))
    decreases m
  {
    hide EncryptedBlock, OutputBlocks, Flatten, Stream;
    var c := FeedbackCore(size, block);
    if m == 0 {
      NoStream(c, iv);
      FlattenNone<byte>();
      assert OutputBlocks(size, block, iv, 0) == [];
    } else {
      var o := EncryptedBlock(size, block, iv);
      FeedbackStream(size, block, o, m - 1);
      EmitsOutput(size, block, iv);
      var n: nat := (m - 1) * size;
      assert m * size == size + n;
      StreamBlock(c, iv, n);
      OutputBlocksShift(size, block, iv, m - 1);
      FlattenCons(o, OutputBlocks(size, block, o, m - 1));
    }
  }

  lemma {:induction false} EmitsOutput(size: nat, block: (Bytes, nat) -> byte, iv: Bytes)
    ensures Emitted(FeedbackCore(size, block), iv) == EncryptedBlock(size, block, iv)
  {
  }

  // ---- The generator --------------------------------------------------------------------------

  /** A stream cipher over `core`: `block` is what is left to yield from, `used` bytes of it taken. */
  class BlockStream<S> {
    const core: Core<S>
    ghost const start: S
    var state: S
    var started: bool
    var used: nat
    ghost var taken: nat
    ghost var blocks: nat

    ghost predicate Valid()
      reads this
    {
      && core.size > 0
      && state == StateAt(core, start, blocks)
      && used <= core.size && taken == blocks * core.size + used
      && (!started ==> used == 0 && blocks == 0)
    }

    constructor (c: Core<S>, first: S)
      requires c.size > 0
      ensures Valid() && core == c && start == first && taken == 0
    {
      core, start, state, started, used, taken, blocks := c, first, first, false, 0, 0, 0;
    }

    /** `next(self.stream)`. */
    method Next() returns (b: byte)
      requires Valid()
      modifies this`state, this`started, this`used, this`taken, this`blocks
      ensures Valid() && taken == old(taken) + 1 && b == KeyByte(core, start, old(taken))
    {
      if used == core.size {
        state := core.step(state);
        used := 0;
        blocks := blocks + 1;
      }
      started := true;
      Remainder(blocks, used, core.size);
      b := core.emit(state, used);
      used, taken := used + 1, taken + 1;
    }

    method Encrypt(s: Bytes) returns (ret: Bytes)
      requires Valid()
      modifies this`state, this`started, this`used, this`taken, this`blocks
      ensures Valid() && taken == old(taken) + |s|
      ensures ret == K.AddStream((n: nat) => KeyByte(core, start, n), old(taken), s)
    {
      hide KeyByte, XorByte, StateAt;
      ret := [];
      ghost var t, size := taken, core.size;
      for i := 0 to |s|
        invariant Valid() && taken == t + i && |ret| == i
        invariant forall j | 0 <= j < i :: ret[j] == XorByte(s[j], KeyByte(core, start, t + j))
      {
        var k := Next();
        ret := ret + [XorByte(s[i], k)];
      }
    }
  }
}
