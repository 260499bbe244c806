/** Cipher feedback (section 6.3 of NIST SP 800-38A): the coroutine that receives each feedback unit
    one call late, against the shift-register definition, for an arbitrary block function. */
module Cfb {
  import opened Bits
  import opened ByteStrings
  import opened Incremental
  import A = StreamAdapter

  /** An alphabet of units (bytes, or bits in bit mode) with its exclusive or, the units in a
      register and in a segment, and unit i of the block function on a register. */
  datatype Mode<!T> = Mode(size: nat, segment: nat, xor: (T, T) -> T, block: (seq<T>, nat) -> T)

  ghost predicate Laws<T(!new)>(m: Mode<T>) {
    && 0 < m.segment <= m.size
    && forall a, b :: m.xor(m.xor(a, b), b) == a
  }

  function Output<T>(m: Mode<T>, register: seq<T>): (data: seq<T>)
    ensures |data| == m.size
  {
    seq(m.size, i requires 0 <= i < m.size => m.block(register, i))
  }

  // ---- The definition -------------------------------------------------------------------------

  /** Input block j + 1: the previous one shifted left by a segment, with ciphertext segment j
      entering at the right. */
  function Register<T>(m: Mode<T>, iv: seq<T>, c: seq<T>, j: nat): (r: seq<T>)
    requires 0 < m.segment <= m.size == |iv| && j * m.segment <= |c|
    ensures |r| == m.size
    decreases j
  {
    if j == 0 then iv
    else
      SegmentBounds(j, m.segment);
      Register(m, iv, c, j - 1)[m.segment..] + c[(j - 1) * m.segment..j * m.segment]
  }

  /** Text unit k of segment j meets output unit k of input block j + 1. */
  ghost predicate Feedback<T(!new)>(m: Mode<T>, iv: seq<T>, c: seq<T>, from: seq<T>, to: seq<T>)
    requires 0 < m.segment <= m.size == |iv| && |from| == |to| == |c|
  {
    forall j: nat, k: nat | k < m.segment && j * m.segment + k < |c| ::
      to[j * m.segment + k] == m.xor(from[j * m.segment + k], m.block(Register(m, iv, c, j), k))
  }

  lemma {:induction false} SegmentBounds(j: nat, n: nat)
    requires j > 0
    ensures 0 <= (j - 1) * n && j * n == (j - 1) * n + n
  {
  }

  /** At a segment boundary the register is the end of the vector followed by the ciphertext. */
  lemma {:induction false} RegisterIsLastBlock<T>(m: Mode<T>, iv: seq<T>, c: seq<T>, j: nat)
    requires 0 < m.segment <= m.size == |iv| && j * m.segment <= |c|
    ensures Register(m, iv, c, j) == (iv + c[..j * m.segment])[j * m.segment..]
    decreases j
  {
    if j == 0 {
      assert c[..0] == [] && (iv + [])[0..] == iv;
    } else {
      SegmentBounds(j, m.segment);
      RegisterIsLastBlock(m, iv, c, j - 1);
      var b, e := (j - 1) * m.segment, j * m.segment;
      assert (iv + c[..b])[b..][m.segment..] + c[b..e] == (iv + c[..e])[e..];
    }
  }

  // ---- Unit by unit ---------------------------------------------------------------------------

  /** The register of the current segment and the ciphertext units of it seen so far. */
  datatype State<+T> = State(register: seq<T>, part: seq<T>)

  predicate Live<T>(m: Mode<T>, st: State<T>) {
    |st.register| == m.size && |st.part| < m.segment
  }

  function Push<T>(m: Mode<T>, st: State<T>, u: T): State<T> {
    var part := st.part + [u];
    if |part| < m.segment then st.(part := part)
    else State(st.register[if m.segment <= |st.register| then m.segment else 0..] + part, [])
  }

  /** `process` with the feedback taken at once; `inv` tells decryption from encryption. */
  function Chain<T>(m: Mode<T>, st: State<T>, s: seq<T>, inv: bool): (r: (State<T>, seq<T>))
    ensures |r.1| == |s|
    decreases |s|
  {
    if s == [] then (st, [])
    else
      var j := m.xor(s[0], m.block(st.register, |st.part|));
      var rest := Chain(m, Push(m, st, if inv then s[0] else j), s[1..], inv);
      (rest.0, [j] + rest.1)
  }

  lemma {:induction false} ChainSplit<T>(m: Mode<T>, st: State<T>, a: seq<T>, b: seq<T>, inv: bool)
    ensures var x := Chain(m, st, a, inv);
            var y := Chain(m, x.0, b, inv);
            Chain(m, st, a + b, inv).0 == y.0 && Chain(m, st, a + b, inv).1 == x.1 + y.1
    decreases |a|
  {
    if a == [] {
      assert [] + b == b;
    } else {
      var j := m.xor(a[0], m.block(st.register, |st.part|));
      var t := Push(m, st, if inv then a[0] else j);
      ChainSplit(m, t, a[1..], b, inv);
      assert (a + b)[1..] == a[1..] + b && (a + b)[0] == a[0];
    }
  }

  lemma {:induction false} ChainOne<T>(m: Mode<T>, st: State<T>, u: T, inv: bool)
    ensures var j := m.xor(u, m.block(st.register, |st.part|));
            Chain(m, st, [u], inv).0 == Push(m, st, if inv then u else j) && Chain(m, st, [u], inv).1 == [j]
  {
    hide Push;
    assert [u][1..] == [];
  }

  lemma {:induction false} ChainNone<T>(m: Mode<T>, st: State<T>, s: seq<T>, inv: bool)
    ensures Chain(m, st, s[..0], inv).0 == st && Chain(m, st, s[..0], inv).1 == []
  {
  }

  lemma {:induction false} ChainSnoc<T>(m: Mode<T>, st: State<T>, s: seq<T>, n: nat, inv: bool)
    requires n < |s|
    ensures var (t, r) := Chain(m, st, s[..n], inv);
            var j := m.xor(s[n], m.block(t.register, |t.part|));
            && Chain(m, st, s[..n + 1], inv).0 == Push(m, t, if inv then s[n] else j)
            && Chain(m, st, s[..n + 1], inv).1 == r + [j]
  {
    hide Push, Chain;
    ChainOne(m, Chain(m, st, s[..n], inv).0, s[n], inv);
    ChainSplit(m, st, s[..n], [s[n]], inv);
    assert s[..n] + [s[n]] == s[..n + 1];
  }

  lemma {:induction false} ChainLive<T>(m: Mode<T>, st: State<T>, s: seq<T>, inv: bool)
    requires 0 < m.segment <= m.size && Live(m, st)
    ensures Live(m, Chain(m, st, s, inv).0)
    decreases |s|
  {
    if s != [] {
      var j := m.xor(s[0], m.block(st.register, |st.part|));
      ChainLive(m, Push(m, st, if inv then s[0] else j), s[1..], inv);
    }
  }

  /** Decrypting a ciphertext gives the plaintext and leaves both sides in the same state. */
  lemma {:induction false} ChainInverts<T(!new)>(m: Mode<T>, st: State<T>, s: seq<T>)
    requires Laws(m)
    ensures var (t, c) := Chain(m, st, s, false);
            Chain(m, st, c, true).0 == t && Chain(m, st, c, true).1 == s
    decreases |s|
  {
    if s != [] {
      var key := m.block(st.register, |st.part|);
      var j := m.xor(s[0], key);
      var t := Push(m, st, j);
      ChainInverts(m, t, s[1..]);
      var c := Chain(m, st, s, false).1;
      assert c[1..] == Chain(m, t, s[1..], false).1 && c[0] == j;
      assert m.xor(j, key) == s[0];
    }
  }

  // ---- Unit by unit is the definition ---------------------------------------------------------

  function PushAll<T>(m: Mode<T>, st: State<T>, c: seq<T>): State<T>
    decreases |c|
  {
    if c == [] then st else Push(m, PushAll(m, st, c[..|c| - 1]), c[|c| - 1])
  }

  lemma {:induction false} PushFirst<T>(m: Mode<T>, st: State<T>, u: T, c: seq<T>)
    ensures PushAll(m, st, [u] + c) == PushAll(m, Push(m, st, u), c)
    decreases |c|
  {
    if c == [] {
      assert [u] + c == [u] && [u][..0] == [];
    } else {
      PushFirst(m, st, u, c[..|c| - 1]);
      assert ([u] + c)[..|c|] == [u] + c[..|c| - 1];
    }
  }

  /** One more unit, inside a segment and at the end of one. */
  lemma {:induction false} PushInside<T>(m: Mode<T>, iv: seq<T>, p: seq<T>, u: T, j: nat)
    requires 0 < m.segment <= m.size == |iv| && j * m.segment <= |p| && |p| + 1 - j * m.segment < m.segment
    ensures Push(m, State(Register(m, iv, p, j), p[j * m.segment..]), u) ==
            State(Register(m, iv, p + [u], j), (p + [u])[j * m.segment..])
  {
    hide Register;
    RegisterPrefix(m, iv, p, p + [u], j);
    assert p[j * m.segment..] + [u] == (p + [u])[j * m.segment..];
  }

  lemma {:induction false} PushEnd<T>(m: Mode<T>, iv: seq<T>, p: seq<T>, u: T, j: nat)
    requires 0 < m.segment <= m.size == |iv| && j > 0 && j * m.segment == |p| + 1
    ensures (j - 1) * m.segment == |p| + 1 - m.segment
    ensures Push(m, State(Register(m, iv, p, j - 1), p[(j - 1) * m.segment..]), u) ==
            State(Register(m, iv, p + [u], j), (p + [u])[j * m.segment..])
  {
    SegmentBounds(j, m.segment);
    var at: nat := (j - 1) * m.segment;
    RegisterPrefix(m, iv, p, p + [u], j - 1);
    assert p[at..] + [u] == (p + [u])[at..j * m.segment];
    assert (p + [u])[j * m.segment..] == [];
  }

  /** After j whole segments and k units the state holds input block j + 1 and those k units. */
  lemma {:induction false} PushedRegister<T>(m: Mode<T>, iv: seq<T>, c: seq<T>, j: nat, k: nat)
    requires 0 < m.segment <= m.size == |iv| && k < m.segment && |c| == j * m.segment + k
    ensures PushAll(m, State(iv, []), c) == State(Register(m, iv, c, j), c[j * m.segment..])
    decreases |c|
  {
    if c == [] {
      if j > 0 {
        SegmentBounds(j, m.segment);
        assert false;
      }
      assert c[j * m.segment..] == [];
    } else {
      hide Register, Push;
      var p, u := c[..|c| - 1], c[|c| - 1];
      assert p + [u] == c;
      if k > 0 {
        PushedRegister(m, iv, p, j, k - 1);
        PushInside(m, iv, p, u, j);
      } else {
        PushEnd(m, iv, p, u, j);
        PushedRegister(m, iv, p, j - 1, m.segment - 1);
      }
    }
  }

  lemma {:induction false} RegisterPrefix<T>(m: Mode<T>, iv: seq<T>, c: seq<T>, d: seq<T>, j: nat)
    requires 0 < m.segment <= m.size == |iv| && j * m.segment <= |c| && c <= d
    ensures Register(m, iv, c, j) == Register(m, iv, d, j)
  {
    if j > 0 {
      SegmentBounds(j, m.segment);
      RegisterPrefix(m, iv, c, d, j - 1);
    }
  }

  function Ciphertext<T>(from: seq<T>, to: seq<T>, inv: bool): seq<T> {
    if inv then from else to
  }

  lemma {:induction false} ChainUnit<T>(m: Mode<T>, st: State<T>, s: seq<T>, inv: bool, n: nat)
    requires n < |s|
    ensures var r := Chain(m, st, s, inv).1;
            var at := PushAll(m, st, Ciphertext(s, r, inv)[..n]);
            r[n] == m.xor(s[n], m.block(at.register, |at.part|))
    decreases n
  {
    hide Push;
    var r := Chain(m, st, s, inv).1;
    var c := Ciphertext(s, r, inv);
    if n == 0 {
      assert c[..0] == [];
    } else {
      var t := Push(m, st, c[0]);
      ChainUnit(m, t, s[1..], inv, n - 1);
      assert r[1..] == Chain(m, t, s[1..], inv).1;
      PushFirst(m, st, c[0], c[1..][..n - 1]);
      assert [c[0]] + c[1..][..n - 1] == c[..n];
    }
  }

  /** The state is what the ciphertext made of it. */
  lemma {:induction false} ChainPushes<T>(m: Mode<T>, st: State<T>, s: seq<T>, inv: bool)
    ensures var (t, r) := Chain(m, st, s, inv);
            t == PushAll(m, st, Ciphertext(s, r, inv))
    decreases |s|
  {
    hide Push;
    if s != [] {
      var r := Chain(m, st, s, inv).1;
      var c := Ciphertext(s, r, inv);
      ChainPushes(m, Push(m, st, c[0]), s[1..], inv);
      assert r[1..] == Chain(m, Push(m, st, c[0]), s[1..], inv).1;
      PushFirst(m, st, c[0], c[1..]);
      assert [c[0]] + c[1..] == c;
    }
  }

  /** Both directions, fed unit by unit, satisfy the definition over the whole message. */
  lemma {:induction false} ChainIsFeedback<T(!new)>(m: Mode<T>, iv: seq<T>, s: seq<T>, inv: bool)
    requires 0 < m.segment <= m.size == |iv|
    ensures var r := Chain(m, State(iv, []), s, inv).1;
            Feedback(m, iv, Ciphertext(s, r, inv), s, r)
  {
    hide Chain, Register, PushAll;
    var r := Chain(m, State(iv, []), s, inv).1;
    var c := Ciphertext(s, r, inv);
    forall j: nat, k: nat | k < m.segment && j * m.segment + k < |c|
      ensures r[j * m.segment + k] == m.xor(s[j * m.segment + k], m.block(Register(m, iv, c, j), k))
    {
      var n: nat := j * m.segment + k;
      ChainUnit(m, State(iv, []), s, inv, n);
      PushedRegister(m, iv, c[..n], j, k);
      RegisterPrefix(m, iv, c[..n], c, j);
    }
  }

  /** The register is the end of the vector and the first `at` ciphertext units; the units behind them
      are held beside it. */
  function After<T>(iv: seq<T>, c: seq<T>, at: nat): State<T>
    requires at <= |c|
  {
    State((iv + c[..at])[at..], c[at..])
  }

  lemma {:induction false} ChainState<T>(
    m: Mode<T>, iv: seq<T>, s: seq<T>, inv: bool, j: nat, at: nat, k: nat)
    requires 0 < m.segment <= m.size == |iv| && at == j * m.segment && k < m.segment && |s| == at + k
    ensures var (t, r) := Chain(m, State(iv, []), s, inv);
            t == After(iv, Ciphertext(s, r, inv), at)
  {
    hide Chain, Register, PushAll;
    var c := Ciphertext(s, Chain(m, State(iv, []), s, inv).1, inv);
    ChainPushes(m, State(iv, []), s, inv);
    PushedRegister(m, iv, c, j, k);
    RegisterIsLastBlock(m, iv, c, j);
  }

  // ---- The coroutine --------------------------------------------------------------------------

  /** `core` and `process`. `send` resumes the generator with the feedback of the previous unit, so
      `nextIv` is always one unit behind the ciphertext and `last` holds the missing one. */
  class CFBCipher<T> {
    const m: Mode<T>
    var nextIv: seq<T>
    var data: seq<T>
    var i: nat
    var started: bool
    var last: Option<T>
    ghost var consumed: State<T>

    ghost predicate Suspended()
      reads this
    {
      && 0 < m.segment <= m.size
      && Live(m, consumed)
      && if started then
           && i == |consumed.part|
           && data == Output(m, consumed.register)
           && nextIv == consumed.register[m.segment..] + consumed.part
         else
           nextIv == consumed.register && consumed.part == []
    }

    ghost predicate Valid()
      reads this
    {
      Suspended() && started == last.Some?
    }

    /** What `consumed` becomes with the pending unit. */
    ghost function Current(): State<T>
      reads this
    {
      if last.Some? then Push(m, consumed, last.value) else consumed
    }

    constructor (mode: Mode<T>, iv: seq<T>)
      requires 0 < mode.segment <= mode.size == |iv|
      ensures Valid() && Current() == State(iv, []) && m == mode
    {
      m := mode;
      nextIv, data, i, started, last := iv, [], 0, false, None;
      consumed := State(iv, []);
    }

    /** One `stream.send(feedback)`: the first call only starts the generator. */
    method Send(feedback: Option<T>) returns (key: T)
      requires Suspended() && started == feedback.Some?
      modifies this`nextIv, this`data, this`i, this`started, this`consumed
      ensures Suspended() && started
      ensures consumed == if feedback.Some? then Push(m, old(consumed), feedback.value) else old(consumed)
      ensures key == m.block(consumed.register, |consumed.part|)
    {
      if started {
        nextIv := nextIv + [feedback.value];
        i := i + 1;
        consumed := Push(m, consumed, feedback.value);
      }
      if !started || i == m.segment {
        assert nextIv == consumed.register;
        data := Output(m, nextIv);
        nextIv := nextIv[m.segment..];
        i := 0;
        started := true;
      }
      key := data[i];
    }

    method Process(s: seq<T>, inv: bool) returns (r: seq<T>)
      requires Valid()
      modifies this
      ensures Valid() && Current() == Chain(m, old(Current()), s, inv).0 && r == Chain(m, old(Current()), s, inv).1
    {
      hide Push, Output, Chain;
      r := [];
      ghost var first := Current();
      ChainNone(m, first, s, inv);
      for n := 0 to |s|
        invariant Valid() && |r| == n
        invariant Current() == Chain(m, first, s[..n], inv).0 && r == Chain(m, first, s[..n], inv).1
      {
        var key := Send(last);
        var j := m.xor(s[n], key);
        last := Some(if inv then s[n] else j);
        r := r + [j];
        ChainSnoc(m, first, s, n, inv);
      }
      assert s[..|s|] == s;
    }
  }

  // ---- The stream layer -----------------------------------------------------------------------

  function ByteMode(ivLength: nat, segment: nat, block: (Bytes, nat) -> byte): Mode<byte> {
    Mode(ivLength, segment, XorByte, block)
  }

  /** Byte mode, bit by bit: byte k of segment j meets byte k of the encrypted register, and the register is
      the end of the vector and of all ciphertext before the segment. */
  lemma {:induction false} CfbIs(
    iv: Bytes, segment: nat, block: (Bytes, nat) -> byte, s: Bytes, inv: bool, j: nat, at: nat, k: nat, n: nat)
    requires 0 < segment <= |iv| && at == j * segment && k < segment && at + k < |s|
    ensures var r := Chain(ByteMode(|iv|, segment, block), State(iv, []), s, inv).1;
            var c := if inv then s else r;
            Bit(r[at + k], n) <==> Bit(s[at + k], n) != Bit(block((iv + c[..at])[at..], k), n)
  {
    hide Chain, Register, XorByte, Bit;
    var m := ByteMode(|iv|, segment, block);
    var r := Chain(m, State(iv, []), s, inv).1;
    var c := if inv then s else r;
    ChainIsFeedback(m, iv, s, inv);
    RegisterIsLastBlock(m, iv, c, j);
    assert r[j * segment + k] == XorByte(s[j * segment + k], block(Register(m, iv, c, j), k));
    XorByteBit(s[at + k], block(Register(m, iv, c, j), k), n);
  }

  function FeedbackCipher(m: Mode<byte>): A.Cipher<State<byte>> {
    A.Cipher(m.size, (iv: Bytes) => State(iv, []),
             (st: State<byte>, s: Bytes) => Some(Chain(m, st, s, true)),
             (st: State<byte>, s: Bytes) => Some(Chain(m, st, s, false)))
  }

  /** Any segment size and block function give a layer that inverts, however the two sides are
      chunked. */
  lemma {:induction false} FeedbackInverts(ivLength: nat, segment: nat, block: (Bytes, nat) -> byte)
    requires 0 < segment <= ivLength
    ensures var m := ByteMode(ivLength, segment, block);
            A.CipherInverts(FeedbackCipher(m), (st: State<byte>) => Live(m, st),
                            (a: State<byte>, b: State<byte>) => Live(m, a) && a == b)
  {
    hide Push, Chain, XorByte;
    var m := ByteMode(ivLength, segment, block);
    var k := FeedbackCipher(m);
    var live := (st: State<byte>) => Live(m, st);
    var same := (a: State<byte>, b: State<byte>) => Live(m, a) && a == b;
    var d := A.CipherDecoder(k, live);
    assert Laws(m) by {
      forall a: byte, b: byte
        ensures m.xor(m.xor(a, b), b) == a
      {
        XorByteCancel(a, b);
      }
    }
    forall st
      ensures d.feed(st, []) == Some((st, []))
    {
      ChainNone(m, st, [], true);
    }
    forall st, a | d.ready(st)
      ensures d.ready(d.feed(st, a).value.0)
    {
      ChainLive(m, st, a, true);
    }
    forall st, a, b
      ensures d.feed(st, a + b) == Then(d, d.feed(st, a), b)
    {
      ChainSplit(m, st, a, b, true);
    }
    forall w, r, x | same(w, r)
      ensures Undone(A.Single(k.encrypt).write(w, x).value, d, r, same, Same(x))
    {
      FlattenOne(Chain(m, w, x, false).1);
      ChainInverts(m, w, x);
      ChainLive(m, w, x, false);
    }
  }
}
