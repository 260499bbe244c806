/** The framing plugins of the SSR family: CRC-protected frames with random padding, and deflated
    frames whose zlib header is replaced by their length. */
module Plugins {
  import opened Bits
  import opened ByteStrings
  import opened Incremental
  import opened Framing
  import A = StreamAdapter

  // ---- Verify_Simple --------------------------------------------------------------------------

  /** `crc` is CRC-32; `pads(i)` is the i-th random padding, of at most 15 bytes. */
  datatype Simple = Simple(crc: Bytes -> nat, pads: nat -> Bytes)

  function Pad(v: Simple, k: nat): (r: Bytes)
    ensures |r| <= 15
  {
    if |v.pads(k)| <= 15 then v.pads(k) else v.pads(k)[..15]
  }

  /** `b[from:to]` with Python's treatment of negative and oversized bounds. */
  function Slice(b: Bytes, from: int, to: int): Bytes {
    var lo := Bound(from, |b|);
    var hi := Bound(to, |b|);
    if lo <= hi then b[lo..hi] else []
  }

  function Bound(i: int, n: nat): (r: nat)
    ensures r <= n
  {
    if i < 0 then (if i + n < 0 then 0 else i + n) else if i > n then n else i
  }

  /** `(-1 - crc32(b)) & 0xffffffff`. */
  function Complement(v: Simple, b: Bytes): (c: nat)
    ensures c < 0x1_0000_0000
  {
    0xffff_ffff - v.crc(b) % 0x1_0000_0000
  }

  /** The loop body as written, including what it does with lengths below four. */
  function SimpleTurn(v: Simple, buf: Bytes): Step<(), byte> {
    if |buf| < 2 then More
    else
      var l := FromBE(buf[..2]);
      if |buf| < l then More
      else if |buf| == 2 then Fail
      else
        var skip: int := buf[2];
        var data := Slice(buf, 2 + skip, l - 4);
        if FromLE(Slice(buf, l - 4, l)) == Complement(v, Slice(buf, 0, l - 4)) then Next((), l, data)
        else Fail
  }

  function Deframer(v: Simple): Framer<(), byte> {
    Framer((st: (), buf: Bytes) => SimpleTurn(v, buf), (st: ()) => 0)
  }

  /** The same loop refusing frames shorter than four bytes, for which the slices count from the end of
      whatever happens to be buffered. */
  function Guarded(v: Simple): Framer<(), byte> {
    Framer((st: (), buf: Bytes) => if Short(buf) then Fail else SimpleTurn(v, buf), (st: ()) => 0)
  }

  predicate Short(buf: Bytes) {
    |buf| >= 2 && FromBE(buf[..2]) < 4 && FromBE(buf[..2]) <= |buf|
  }

  lemma {:induction false} GuardedStable(v: Simple)
    ensures Stable(Guarded(v))
  {
    var f := Guarded(v);
    forall st, buf, x | !f.step(st, buf).More?
      ensures f.step(st, buf + x) == f.step(st, buf)
    {
      assert (buf + x)[..2] == buf[..2];
      if !Short(buf) { SimpleTurnExtends(v, buf, x); }
    }
  }

  lemma {:induction false} SimpleTurnExtends(v: Simple, buf: Bytes, x: Bytes)
    requires |buf| >= 2 && 4 <= FromBE(buf[..2]) <= |buf|
    ensures SimpleTurn(v, buf + x) == SimpleTurn(v, buf)
  {
    hide Slice;
    assert (buf + x)[..2] == buf[..2];
    var l: int := FromBE(buf[..2]);
    var skip: int := buf[2];
    SliceExtend(buf, x, l - 4, l);
    SliceExtend(buf, x, 0, l - 4);
    SliceExtend(buf, x, 2 + skip, l - 4);
  }

  lemma {:induction false} SliceExtend(buf: Bytes, x: Bytes, from: int, to: int)
    requires 0 <= from && 0 <= to <= |buf|
    ensures Slice(buf + x, from, to) == Slice(buf, from, to)
  {
    if from <= to { assert (buf + x)[from..to] == buf[from..to]; }
  }

  /** Where the guarded loop succeeds the loop as written does the same. */
  lemma {:induction false} GuardAgrees(v: Simple, buf: Bytes)
    requires Drain(Guarded(v), (), buf).Some?
    ensures Drain(Deframer(v), (), buf) == Drain(Guarded(v), (), buf)
    decreases |buf|
  {
    GuardedStable(v);
    DrainStep(Guarded(v), (), buf);
    var n := Guarded(v).step((), buf);
    assert Deframer(v).step((), buf) == n;
    if n.Next? {
      assert n.state == ();
      GuardAgrees(v, buf[n.used..]);
    }
  }

  lemma {:induction false} GuardAgreesRun(v: Simple, rest: Bytes, chunks: seq<Bytes>)
    requires Run(Framed(Guarded(v)), ((), rest), chunks).Some?
    ensures Run(Framed(Deframer(v)), ((), rest), chunks) == Run(Framed(Guarded(v)), ((), rest), chunks)
    decreases |chunks|
  {
    if chunks != [] {
      hide Drain;
      GuardAgrees(v, rest + chunks[0]);
      var st := Framed(Guarded(v)).feed(((), rest), chunks[0]).value.0;
      assert st.0 == ();
      GuardAgreesRun(v, st.1, chunks[1..]);
    }
  }

  function SimplePack(v: Simple, k: nat, s: Bytes): Bytes
    requires |s| <= 8100
  {
    var body := [|Pad(v, k)| + 1] + Pad(v, k) + s;
    TwoBytes(|body| + 6);
    var data := ToBE(|body| + 6, 2) + body;
    FourBytes(Complement(v, data));
    data + ToLE(Complement(v, data), 4)
  }

  lemma {:induction false} SimpleFrame(v: Simple, k: nat, s: Bytes)
    requires |s| <= 8100
    ensures Guarded(v).step((), SimplePack(v, k, s)) == Next((), |SimplePack(v, k, s)|, s)
  {
    hide FromLE, FromBE, ToLE, ToBE, Pow2, Slice;
    var pad := Pad(v, k);
    var body := [|pad| + 1] + pad + s;
    var l := |body| + 6;
    TwoBytes(l);
    var head := ToBE(l, 2);
    var data := head + body;
    FourBytes(Complement(v, data));
    var crc := ToLE(Complement(v, data), 4);
    LERoundTrip(Complement(v, data), 4);
    var buf := data + crc;
    assert buf == SimplePack(v, k, s) && |buf| == l;
    FrameParts(head, pad, s, crc);
  }

  lemma {:induction false} FrameParts(head: Bytes, pad: Bytes, s: Bytes, crc: Bytes)
    requires |head| == 2 && |crc| == 4 && |pad| <= 15
    ensures var data := head + ([|pad| + 1] + pad + s);
            var buf := data + crc;
            var l := |buf|;
            && buf[..2] == head && buf[2] == |pad| + 1
            && Slice(buf, 0, l - 4) == data && Slice(buf, l - 4, l) == crc
            && Slice(buf, 3 + |pad|, l - 4) == s
  {
    var data := head + ([|pad| + 1] + pad + s);
    var buf := data + crc;
    assert buf[..2] == head;
    assert buf[..|buf| - 4] == data && buf[|buf| - 4..] == crc;
    assert buf[3 + |pad|..|buf| - 4] == s;
  }

  /** `encrypt`: slices of 8100 bytes, each padded and framed; the state counts the paddings drawn. */
  function SimpleEncrypt(v: Simple, k: nat, s: Bytes): (nat, Bytes)
    decreases |s|
  {
    if s == [] then (k, [])
    else if |s| <= 8100 then (k + 1, SimplePack(v, k, s))
    else
      var (k', rest) := SimpleEncrypt(v, k + 1, s[8100..]);
      (k', SimplePack(v, k, s[..8100]) + rest)
  }

  lemma {:induction false} SimpleDecrypts(v: Simple, k: nat, s: Bytes)
    ensures Drain(Guarded(v), (), SimpleEncrypt(v, k, s).1) == Some((((), []), s))
    decreases |s|
  {
    hide SimplePack;
    GuardedStable(v);
    var f := Guarded(v);
    if s == [] {
    } else if |s| <= 8100 {
      SimpleFrame(v, k, s);
      DrainTurn(f, (), SimplePack(v, k, s), []);
      assert SimplePack(v, k, s) + [] == SimplePack(v, k, s);
      assert Drain(f, (), []) == Some((((), []), []));
      assert s + [] == s;
    } else {
      SimpleFrame(v, k, s[..8100]);
      SimpleDecrypts(v, k + 1, s[8100..]);
      DrainTurn(f, (), SimplePack(v, k, s[..8100]), SimpleEncrypt(v, k + 1, s[8100..]).1);
      assert s[..8100] + s[8100..] == s;
    }
  }

  /** A frame: its big-endian length, the length of the padding and one more, the padding, the payload, and
      little-endian what the CRC of all that lacks of `0xffffffff`. */
  predicate FramedAs(v: Simple, pad: Bytes, s: Bytes, frame: Bytes) {
    var l := |frame|;
    && |pad| <= 15 && l == 7 + |pad| + |s| < 0x1_0000
    && frame == [l / 256, l % 256, |pad| + 1] + pad + s + frame[l - 4..]
    && (FromLE(frame[l - 4..]) + v.crc(frame[..l - 4])) % 0x1_0000_0000 == 0xffff_ffff
  }

  lemma {:induction false} PackedAs(v: Simple, k: nat, s: Bytes)
    requires |s| <= 8100
    ensures FramedAs(v, Pad(v, k), s, SimplePack(v, k, s))
  {
    hide FromLE, ToLE, ToBE, Pow2, Pad;
    var pad := Pad(v, k);
    var l := 7 + |pad| + |s|;
    TwoBytes(l);
    var data := [l / 256, l % 256] + ([|pad| + 1] + pad + s);
    FourBytes(Complement(v, data));
    LERoundTrip(Complement(v, data), 4);
    var frame := SimplePack(v, k, s);
    assert frame[..l - 4] == data && frame[l - 4..] == ToLE(Complement(v, data), 4);
    assert frame == [l / 256, l % 256, |pad| + 1] + pad + s + frame[l - 4..];
  }

  /** One call frames its argument in slices of 8100 bytes, each with a padding of its own. */
  lemma {:induction false} SimpleFrames(v: Simple, k: nat, s: Bytes) returns (frames: seq<Bytes>)
    ensures var parts := Slices(s, 8100);
            && |frames| == |parts| && SimpleEncrypt(v, k, s) == (k + |parts|, Flatten(frames))
            && forall i | 0 <= i < |parts| :: FramedAs(v, Pad(v, k + i), parts[i], frames[i])
    decreases |s|
  {
    hide SimplePack, FramedAs;
    if s == [] {
      frames := [];
    } else if |s| <= 8100 {
      frames := [SimplePack(v, k, s)];
      PackedAs(v, k, s);
      FlattenOne(frames[0]);
    } else {
      var rest := SimpleFrames(v, k + 1, s[8100..]);
      PackedAs(v, k, s[..8100]);
      frames := [SimplePack(v, k, s[..8100])] + rest;
      FlattenCons(frames[0], rest);
      forall i | 0 <= i < |frames| ensures FramedAs(v, Pad(v, k + i), Slices(s, 8100)[i], frames[i]) {
        if i > 0 { assert k + i == k + 1 + (i - 1); }
      }
    }
  }

  /** A whole frame of at least four bytes is refused exactly when its CRC is wrong; else it is consumed and
      delivered without header, padding and CRC. */
  lemma {:induction false} WholeFrame(v: Simple, frame: Bytes, rest: Bytes)
    requires |frame| >= 4 && FromBE(frame[..2]) == |frame|
    ensures var l := |frame|;
            SimpleTurn(v, frame + rest) ==
            if (FromLE(frame[l - 4..]) + v.crc(frame[..l - 4])) % 0x1_0000_0000 != 0xffff_ffff then Fail
            else Next((), l, if frame[2..] == [] || 2 + frame[2] > l - 4 then [] else frame[2 + frame[2]..l - 4])
  {
    var l: int := |frame|;
    hide FromLE, FromBE, Pow2;
    SimpleTurnExtends(v, frame, rest);
    FromLEBound(frame[l - 4..]);
    FourBytes(0);
    assert frame[l - 4..l] == frame[l - 4..] && frame[0..l - 4] == frame[..l - 4];
  }

  function SimpleEncoder(v: Simple): (nat, Bytes) -> Option<(nat, Bytes)> {
    (k: nat, s: Bytes) => Some(SimpleEncrypt(v, k, s))
  }

  predicate Idle(k: nat, st: ((), Bytes)) {
    st.1 == []
  }

  lemma {:induction false} SimpleInverts(v: Simple)
    ensures Lawful(Framed(Guarded(v)))
    ensures Inverts(A.Single(SimpleEncoder(v)), Framed(Guarded(v)), Idle, Same)
  {
    var e, d := A.Single(SimpleEncoder(v)), Framed(Guarded(v));
    GuardedStable(v);
    FramedLawful(Guarded(v));
    forall k, st, data | Idle(k, st) && e.write(k, data).Some?
      ensures Undone(e.write(k, data).value, d, st, Idle, Same(data))
    {
      SimpleDecrypts(v, k, data);
      var out := SimpleEncrypt(v, k, data).1;
      FlattenOne(out);
      assert [] + out == out && st.0 == ();
    }
    forall k, st | Idle(k, st)
      ensures d.ready(st)
    {
    }
  }

  /** The deframer as written returns what was framed, for any payloads, any paddings and any
      chunking of any prefix of the frames. */
  lemma {:induction false} SimpleDelivery(v: Simple, k: nat, writes: seq<Bytes>, chunks: seq<Bytes>)
    requires WriteAll(A.Single(SimpleEncoder(v)), k, writes).Some?
    requires Flatten(chunks) <= Flatten(WriteAll(A.Single(SimpleEncoder(v)), k, writes).value.1)
    ensures var got := Run(Framed(Deframer(v)), ((), []), chunks);
            && got.Some? && got.value.1 <= Flatten(writes)
            && (Flatten(chunks) == Flatten(WriteAll(A.Single(SimpleEncoder(v)), k, writes).value.1) ==>
                  got.value.1 == Flatten(writes))
  {
    SimpleInverts(v);
    Delivery(A.Single(SimpleEncoder(v)), Framed(Guarded(v)), Idle, Same, k, ((), []), writes, chunks);
    ViewsSame(writes);
    GuardAgreesRun(v, [], chunks);
  }

  /** CRC framing inside any inverting cipher: the layer with the guarded loop inverts, and the one
      with the loop as written agrees with it, which is what `CoveredTransparency` asks for. */
  lemma {:induction false} SimpleLayer<C(!new)>(
    v: Simple, k: A.Cipher<C>, live: C -> bool, session: (C, C) -> bool)
    requires A.CipherInverts(k, live, session) && k.ivLength > 0
    ensures var l := A.PluginLayer(k, Framed(Guarded(v)), SimpleEncoder(v));
            && A.LayerInverts(l, live, A.PluginPairing(session, Idle))
            && A.LayerCovers(l, A.PluginLayer(k, Framed(Deframer(v)), SimpleEncoder(v)))
  {
    hide A.CipherInverts, A.LayerInverts, SimpleTurn, Drain;
    SimpleInverts(v);
    A.PluginLayerInverts(k, live, session, Framed(Guarded(v)), SimpleEncoder(v), Idle);
    forall st: ((), Bytes), a | Framed(Guarded(v)).feed(st, a).Some?
      ensures Framed(Deframer(v)).feed(st, a) == Framed(Guarded(v)).feed(st, a)
    {
      assert st.0 == ();
      GuardAgrees(v, st.1 + a);
    }
  }

  // ---- Calls that never return ----------------------------------------------------------------

  /** What a call of `decrypt` comes to: it returns, raises a `ProtocolError` or another error, or its
      loop never ends. */
  datatype Outcome = Returned(rest: Bytes, out: Bytes) | Raised(protocol: bool) | Endless

  function Before(out: Bytes, o: Outcome): Outcome {
    match o
    case Returned(rest, more) => Returned(rest, out + more)
    case _ => o
  }

  /** On a buffer of two bytes the padding length is out of range; all other failures are failed checks.
      A turn that consumes nothing is repeated on the same buffer. */
  function Call(v: Simple, buf: Bytes): Outcome
    decreases |buf|
  {
    match SimpleTurn(v, buf)
    case More => Returned(buf, [])
    case Fail => Raised(|buf| != 2)
    case Next(st, used, out) => if used == 0 then Endless else Before(out, Call(v, buf[used..]))
  }

  /** The buffer after n turns of the loop, unless it ended before. */
  function Turns(v: Simple, buf: Bytes, n: nat): Option<Bytes>
    decreases n
  {
    if n == 0 then Some(buf)
    else
      match SimpleTurn(v, buf)
      case Next(st, used, out) => Turns(v, buf[used..], n - 1)
      case _ => None
  }

  /** A frame of length zero, checked against everything buffered but the last four bytes. */
  predicate Stuck(v: Simple, buf: Bytes) {
    |buf| >= 3 && buf[0] == 0 && buf[1] == 0 && Complement(v, Slice(buf, 0, -4)) == 0
  }

  lemma {:induction false} ZeroBE(b: Bytes)
    requires |b| == 2
    ensures FromBE(b) == 0 <==> b[0] == 0 && b[1] == 0
  {
    assert FromBE(b) == FromBE(b[..1]) * 256 + b[1];
    assert FromBE(b[..1]) == FromBE(b[..1][..0]) * 256 + b[0];
    assert b[..1][..0] == [];
  }

  lemma {:induction false} StuckExactly(v: Simple, buf: Bytes)
    ensures Stuck(v, buf) <==> SimpleTurn(v, buf).Next? && SimpleTurn(v, buf).used == 0
  {
    hide FromBE, Complement;
    if |buf| >= 2 {
      ZeroBE(buf[..2]);
      assert Slice(buf, -4, 0) == [];
    }
  }

  /** A call that does not end is one whose loop has every number of turns. */
  lemma {:induction false} NeverEnds(v: Simple, buf: Bytes)
    ensures Call(v, buf).Endless? <==> forall n: nat :: Turns(v, buf, n).Some?
    decreases |buf|
  {
    hide SimpleTurn;
    TurnUses(v, buf);
    var s := SimpleTurn(v, buf);
    if !s.Next? {
      TurnsEnd(v, buf);
    } else if s.used == 0 {
      forall n: nat
        ensures Turns(v, buf, n).Some?
      {
        Repeats(v, buf, n);
      }
    } else {
      NeverEnds(v, buf[s.used..]);
      TurnsTail(v, buf);
    }
  }

  lemma {:induction false} TurnUses(v: Simple, buf: Bytes)
    ensures SimpleTurn(v, buf).Next? ==> SimpleTurn(v, buf).used <= |buf|
  {
    hide FromBE, Slice;
  }

  lemma {:induction false} Repeats(v: Simple, buf: Bytes, n: nat)
    requires SimpleTurn(v, buf).Next? && SimpleTurn(v, buf).used == 0
    ensures Turns(v, buf, n) == Some(buf)
    decreases n
  {
    hide SimpleTurn;
    assert buf[0..] == buf;
    if n > 0 { Repeats(v, buf, n - 1); }
  }

  lemma {:induction false} TurnsStep(v: Simple, buf: Bytes, n: nat)
    requires SimpleTurn(v, buf).Next? && SimpleTurn(v, buf).used <= |buf|
    ensures Turns(v, buf, n + 1) == Turns(v, buf[SimpleTurn(v, buf).used..], n)
  {
    hide SimpleTurn;
  }

  lemma {:induction false} TurnsEnd(v: Simple, buf: Bytes)
    requires !SimpleTurn(v, buf).Next?
    ensures Turns(v, buf, 1).None?
  {
    hide SimpleTurn;
  }

  lemma {:induction false} TurnsTail(v: Simple, buf: Bytes)
    requires SimpleTurn(v, buf).Next? && SimpleTurn(v, buf).used <= |buf|
    ensures (forall n: nat :: Turns(v, buf, n).Some?) <==>
            forall n: nat :: Turns(v, buf[SimpleTurn(v, buf).used..], n).Some?
  {
    hide SimpleTurn;
    var rest := buf[SimpleTurn(v, buf).used..];
    if forall n: nat :: Turns(v, rest, n).Some? {
      forall n: nat
        ensures Turns(v, buf, n).Some?
      {
        if n > 0 { TurnsStep(v, buf, n - 1); }
      }
    } else {
      var n: nat :| !Turns(v, rest, n).Some?;
      TurnsStep(v, buf, n);
    }
  }

  /** That is the case exactly when the turns lead to a buffer with a frame of length zero that passes
      its check. */
  lemma {:induction false} EndlessExactly(v: Simple, buf: Bytes)
    ensures Call(v, buf).Endless? <==> exists n: nat :: StuckAfter(v, buf, n)
    decreases |buf|
  {
    hide SimpleTurn, Stuck;
    TurnUses(v, buf);
    StuckExactly(v, buf);
    var s := SimpleTurn(v, buf);
    if s.Next? && s.used > 0 {
      var rest := buf[s.used..];
      EndlessExactly(v, rest);
      if exists n: nat :: StuckAfter(v, rest, n) {
        var n: nat :| StuckAfter(v, rest, n);
        TurnsStep(v, buf, n);
        assert StuckAfter(v, buf, n + 1);
      }
      if exists n: nat :: StuckAfter(v, buf, n) {
        var n: nat :| StuckAfter(v, buf, n);
        TurnsStep(v, buf, n - 1);
        assert StuckAfter(v, rest, n - 1);
      }
    } else if s.Next? {
      assert StuckAfter(v, buf, 0);
    } else {
      forall n: nat
        ensures !StuckAfter(v, buf, n)
      {
        NoneAfterEnd(v, buf, n);
      }
    }
  }

  predicate StuckAfter(v: Simple, buf: Bytes, n: nat) {
    Turns(v, buf, n).Some? && Stuck(v, Turns(v, buf, n).value)
  }

  lemma {:induction false} NoneAfterEnd(v: Simple, buf: Bytes, n: nat)
    requires !SimpleTurn(v, buf).Next?
    ensures n > 0 ==> Turns(v, buf, n).None?
  {
    hide SimpleTurn;
  }

  /** The calls that return are those the incremental decoder accepts. */
  lemma {:induction false} CallIsDrain(v: Simple, buf: Bytes)
    ensures match Drain(Deframer(v), (), buf)
            case None => !Call(v, buf).Returned?
            case Some((st, out)) => Call(v, buf) == Returned(st.1, out)
    decreases |buf|
  {
    hide SimpleTurn;
    TurnUses(v, buf);
    var s := SimpleTurn(v, buf);
    assert Deframer(v).step((), buf) == s;
    if s.Next? && s.used > 0 {
      assert s.state == ();
      CallIsDrain(v, buf[s.used..]);
    }
  }

  /** A call raises something else than a `ProtocolError` exactly if its turns lead to two bytes that hold a
      length of at most two: the padding length is not there then. */
  lemma {:induction false} OtherErrorExactly(v: Simple, buf: Bytes)
    ensures Call(v, buf) == Raised(false) <==>
            exists n :: Turns(v, buf, n) in {Some([0, 0]), Some([0, 1]), Some([0, 2])}
  {
    hide Call, Turns;
    if Call(v, buf) == Raised(false) { var n := OtherErrorTurns(v, buf); }
    if n :| Turns(v, buf, n) in {Some([0, 0]), Some([0, 1]), Some([0, 2])} { TurnsOtherError(v, buf, n); }
  }

  lemma {:induction false} ShortFails(v: Simple, buf: Bytes)
    ensures SimpleTurn(v, buf).Fail? && |buf| == 2 <==> buf in {[0, 0], [0, 1], [0, 2]}
  {
    hide FromBE, FromLE, Slice;
    TwoBytes(0);
    TwoBytes(1);
    TwoBytes(2);
    if |buf| == 2 {
      assert buf[..2] == buf;
      var l := FromBE(buf);
      FromBEBound(buf);
      TwoBytes(l);
      BERoundTrip(l, 2);
      BEUnique(buf, [l / 256, l % 256]);
    }
  }

  lemma {:induction false} OtherErrorTurns(v: Simple, buf: Bytes) returns (n: nat)
    requires Call(v, buf) == Raised(false)
    ensures Turns(v, buf, n) in {Some([0, 0]), Some([0, 1]), Some([0, 2])}
    decreases |buf|
  {
    hide SimpleTurn;
    TurnUses(v, buf);
    ShortFails(v, buf);
    n := 0;
    if SimpleTurn(v, buf).Next? {
      var m := OtherErrorTurns(v, buf[SimpleTurn(v, buf).used..]);
      n := m + 1;
    }
  }

  lemma {:induction false} TurnsOtherError(v: Simple, buf: Bytes, n: nat)
    requires Turns(v, buf, n) in {Some([0, 0]), Some([0, 1]), Some([0, 2])}
    ensures Call(v, buf) == Raised(false)
    decreases n
  {
    hide SimpleTurn;
    TurnUses(v, buf);
    ShortFails(v, buf);
    var s := SimpleTurn(v, buf);
    if n > 0 && s.Next? {
      assert buf[0..] == buf;
      TurnsOtherError(v, buf[s.used..], n - 1);
    }
  }

  /** One call per chunk, as long as they return. */
  function Calls(v: Simple, rest: Bytes, chunks: seq<Bytes>): Outcome
    decreases |chunks|
  {
    if chunks == [] then Returned(rest, [])
    else
      match Call(v, rest + chunks[0])
      case Returned(left, out) => Before(out, Calls(v, left, chunks[1..]))
      case o => o
  }

  lemma {:induction false} CallsAreRun(v: Simple, rest: Bytes, chunks: seq<Bytes>)
    ensures match Run(Framed(Deframer(v)), ((), rest), chunks)
            case None => !Calls(v, rest, chunks).Returned?
            case Some((st, out)) => Calls(v, rest, chunks) == Returned(st.1, out)
    decreases |chunks|
  {
    hide Drain, Call;
    if chunks != [] {
      CallIsDrain(v, rest + chunks[0]);
      var r := Drain(Deframer(v), (), rest + chunks[0]);
      if r.Some? {
        var ((st, left), out) := r.value;
        assert st == ();
        CallsAreRun(v, r.value.0.1, chunks[1..]);
      }
    }
  }

  /** On what the framer sends every call returns, whatever the chunks. */
  lemma {:induction false} FramesReturn(v: Simple, k: nat, writes: seq<Bytes>, chunks: seq<Bytes>)
    requires WriteAll(A.Single(SimpleEncoder(v)), k, writes).Some?
    requires Flatten(chunks) <= Flatten(WriteAll(A.Single(SimpleEncoder(v)), k, writes).value.1)
    ensures Calls(v, [], chunks).Returned?
  {
    hide Run, Calls, WriteAll;
    SimpleDelivery(v, k, writes, chunks);
    CallsAreRun(v, [], chunks);
  }

  /** Such input exists: the CRC-32 of 00 00 00 ed 26 be is `0xffffffff`, and any four bytes may follow. */
  lemma {:induction false} EndlessInput(v: Simple, p: Bytes, t: Bytes)
    requires |p| == 4 && |t| == 4 && v.crc([0, 0] + p) == 0xffff_ffff
    ensures Call(v, [0, 0] + p + t).Endless?
  {
    hide SimpleTurn;
    var all := [0, 0] + p + t;
    assert Slice(all, 0, -4) == all[..6] == [0, 0] + p;
    StuckExactly(v, all);
  }

  lemma {:induction false} BeforeNothing(o: Outcome)
    ensures Before([], o) == o
  {
    if o.Returned? { assert [] + o.out == o.out; }
  }

  lemma {:induction false} BeforeTwice(a: Bytes, b: Bytes, o: Outcome)
    ensures Before(a, Before(b, o)) == Before(a + b, o)
  {
    if o.Returned? { assert a + (b + o.out) == a + b + o.out; }
  }

  class VerifySimple {
    const plugin: Simple
    var buf: Bytes
    var drawn: nat

    constructor (v: Simple)
      ensures plugin == v && buf == [] && drawn == 0
    {
      plugin, buf, drawn := v, [], 0;
    }

    /** `Endless` stands for a call that does not return. */
    method Decrypt(s: Bytes) returns (r: Outcome)
      modifies this`buf
      ensures r == Call(plugin, old(buf) + s) && (r.Returned? ==> buf == r.rest)
    {
      hide Slice, Complement;
      ghost var all := Call(plugin, buf + s);
      buf := buf + s;
      var ret: Bytes := [];
      BeforeNothing(all);
      while |buf| >= 2
        invariant all == Before(ret, Call(plugin, buf))
        decreases |buf|
      {
        ghost var prev, got := buf, ret;
        var l: int := FromBE(buf[..2]);
        if |buf| < l { break; }
        if |buf| == 2 { return Raised(false); }
        var skip: int := buf[2];
        var data := Slice(buf, 2 + skip, l - 4);
        var crc := Complement(plugin, Slice(buf, 0, l - 4));
        if FromLE(Slice(buf, l - 4, l)) != crc { return Raised(true); }
        if l == 0 { return Endless; }
        ret := ret + data;
        buf := buf[l..];
        assert SimpleTurn(plugin, prev) == Next((), l, data);
        BeforeTwice(got, data, Call(plugin, buf));
      }
      assert ret + [] == ret;
      return Returned(buf, ret);
    }

    method Encrypt(s: Bytes) returns (out: Bytes)
      modifies this`drawn
      ensures (drawn, out) == SimpleEncrypt(plugin, old(drawn), s)
    {
      out := [];
      var rest := s;
      assert [] + SimpleEncrypt(plugin, drawn, s).1 == SimpleEncrypt(plugin, drawn, s).1;
      while |rest| > 8100
        invariant SimpleEncrypt(plugin, old(drawn), s) ==
                  var (k, more) := SimpleEncrypt(plugin, drawn, rest); (k, out + more)
        decreases |rest|
      {
        ghost var more := SimpleEncrypt(plugin, drawn + 1, rest[8100..]).1;
        var frame := SimplePack(plugin, drawn, rest[..8100]);
        assert out + (frame + more) == out + frame + more;
        out := out + frame;
        drawn := drawn + 1;
        rest := rest[8100..];
      }
      if rest != [] {
        out := out + SimplePack(plugin, drawn, rest);
        drawn := drawn + 1;
      } else {
        assert out + [] == out;
      }
    }
  }

  // ---- Verify_Deflate -------------------------------------------------------------------------

  /** zlib: `inflate` is `None` when the stream is malformed or truncated. */
  datatype Zlib = Zlib(deflate: Bytes -> Bytes, inflate: Bytes -> Option<Bytes>)

  const ZLIB_HEADER: Bytes := [0x78, 0x9c]

  /** An inverse pair with the default header and zlib's bound on expansion. */
  ghost predicate ZlibLaws(z: Zlib) {
    && z.inflate(ZLIB_HEADER).None?
    && forall s :: ZLIB_HEADER <= z.deflate(s) && z.inflate(z.deflate(s)) == Some(s)
                   && |z.deflate(s)| <= |s| + |s| / 4096 + |s| / 16384 + |s| / 33554432 + 13
  }

  function DeflateTurn(z: Zlib, buf: Bytes): Step<(), byte> {
    if |buf| < 2 then More
    else
      var l := FromBE(buf[..2]);
      if |buf| < l then More
      else
        match z.inflate(ZLIB_HEADER + (if l < 2 then [] else buf[2..l]))
        case None => Fail
        case Some(out) => Next((), l, out)
  }

  function Inflater(z: Zlib): Framer<(), byte> {
    Framer((st: (), buf: Bytes) => DeflateTurn(z, buf), (st: ()) => 0)
  }

  lemma {:induction false} InflaterStable(z: Zlib)
    requires ZlibLaws(z)
    ensures Stable(Inflater(z))
  {
    var f := Inflater(z);
    forall st, buf
      ensures Advances(f, st, buf)
    {
      assert ZLIB_HEADER + [] == ZLIB_HEADER;
    }
    forall st, buf, x | !f.step(st, buf).More?
      ensures f.step(st, buf + x) == f.step(st, buf)
    {
      assert (buf + x)[..2] == buf[..2];
      var l := FromBE(buf[..2]);
      if 2 <= l <= |buf| { assert (buf + x)[2..l] == buf[2..l]; }
    }
  }

  /** `encrypt`: slices of 32700 bytes; `None` when a length would not fit its two bytes. */
  function DeflateEncrypt(z: Zlib, s: Bytes): Option<Bytes>
    decreases |s|
  {
    if s == [] then Some([])
    else
      var n := if |s| > 32700 then 32700 else |s|;
      var packed := z.deflate(s[..n]);
      if |packed| >= 0x1_0000 then None
      else
        TwoBytes(|packed|);
        match DeflateEncrypt(z, s[n..])
        case None => None
        case Some(rest) => Some(ToBE(|packed|, 2) + packed[if |packed| < 2 then |packed| else 2..] + rest)
  }

  /** Every packed length fits, and the frames inflate to what was written. */
  lemma {:induction false} DeflateDecrypts(z: Zlib, s: Bytes)
    requires ZlibLaws(z)
    ensures DeflateEncrypt(z, s).Some?
    ensures Drain(Inflater(z), (), DeflateEncrypt(z, s).value) == Some((((), []), s))
    decreases |s|
  {
    InflaterStable(z);
    var f := Inflater(z);
    if s != [] {
      var n := if |s| > 32700 then 32700 else |s|;
      var packed := z.deflate(s[..n]);
      assert |packed| < 0x1_0000 && |packed| >= 2;
      TwoBytes(|packed|);
      var frame := ToBE(|packed|, 2) + packed[2..];
      assert |frame| == |packed| && frame[..2] == ToBE(|packed|, 2);
      assert frame[2..|packed|] == packed[2..];
      assert ZLIB_HEADER + packed[2..] == packed;
      assert f.step((), frame) == Next((), |frame|, s[..n]);
      DeflateDecrypts(z, s[n..]);
      DrainTurn(f, (), frame, DeflateEncrypt(z, s[n..]).value);
      assert s[..n] + s[n..] == s;
    }
  }

  predicate DeflatedAs(p: Bytes, frame: Bytes) {
    2 <= |p| < 0x1_0000 && frame == [|p| / 256, |p| % 256] + p[2..]
  }

  /** One call deflates its argument in slices of 32700 bytes; of each packed slice the length goes in front
      and the two header bytes are dropped. */
  lemma {:induction false} DeflateFrames(z: Zlib, s: Bytes) returns (frames: seq<Bytes>)
    requires ZlibLaws(z)
    ensures var parts := Slices(s, 32700);
            && |frames| == |parts| && DeflateEncrypt(z, s) == Some(Flatten(frames))
            && forall i | 0 <= i < |parts| :: DeflatedAs(z.deflate(parts[i]), frames[i])
    decreases |s|
  {
    hide ToBE, Pow2, DeflateEncrypt, ZlibLaws, Flatten;
    if s == [] {
      frames := [];
      NothingDeflated(z);
      FlattenNone<byte>();
    } else {
      DeflateStep(z, s);
      var n := if |s| > 32700 then 32700 else |s|;
      var p := z.deflate(s[..n]);
      DeflatedFits(z, s[..n]);
      TwoBytes(|p|);
      assert |s| <= 32700 ==> s[..n] == s && s[n..] == [];
      var rest := DeflateFrames(z, s[n..]);
      var frame := ToBE(|p|, 2) + p[2..];
      frames := [frame] + rest;
      FlattenCons(frame, rest);
      assert DeflatedAs(p, frame);
    }
  }

  lemma {:induction false} DeflatedFits(z: Zlib, s: Bytes)
    requires ZlibLaws(z) && |s| <= 32700
    ensures 2 <= |z.deflate(s)| < 0x1_0000
  {
  }

  /** A whole frame is inflated behind the default header, or refused where that is no zlib stream. */
  lemma {:induction false} WholeDeflated(z: Zlib, body: Bytes, rest: Bytes)
    requires |body| + 2 < 0x1_0000
    ensures var l := |body| + 2;
            DeflateTurn(z, [l / 256, l % 256] + body + rest) ==
            match z.inflate([0x78, 0x9c] + body)
            case None => Fail
            case Some(out) => Next((), l, out)
  {
    hide FromBE;
    var l := |body| + 2;
    TwoBytes(l);
    var buf := [l / 256, l % 256] + body + rest;
    assert buf[..2] == [l / 256, l % 256] && buf[2..l] == body;
  }

  function DeflateEncoder(z: Zlib): (nat, Bytes) -> Option<(nat, Bytes)> {
    (k: nat, s: Bytes) =>
      match DeflateEncrypt(z, s)
      case None => None
      case Some(out) => Some((k, out))
  }

  /** The deflate framing is lawful on every input and undoes its encoder. */
  lemma {:induction false} DeflateInverts(z: Zlib)
    requires ZlibLaws(z)
    ensures Lawful(Framed(Inflater(z)))
    ensures Inverts(A.Single(DeflateEncoder(z)), Framed(Inflater(z)), Idle, Same)
  {
    var e, d := A.Single(DeflateEncoder(z)), Framed(Inflater(z));
    InflaterStable(z);
    FramedLawful(Inflater(z));
    forall k, st, data | Idle(k, st) && e.write(k, data).Some?
      ensures Undone(e.write(k, data).value, d, st, Idle, Same(data))
    {
      DeflateDecrypts(z, data);
      var out := DeflateEncrypt(z, data).value;
      FlattenOne(out);
      assert [] + out == out && st.0 == ();
    }
    forall k, st | Idle(k, st)
      ensures d.ready(st)
    {
    }
  }

  /** Deflate framing inside any inverting cipher is a layer that `StackedTransparency` covers. */
  lemma {:induction false} DeflateLayerInverts<C(!new)>(
    z: Zlib, k: A.Cipher<C>, live: C -> bool, session: (C, C) -> bool)
    requires ZlibLaws(z) && A.CipherInverts(k, live, session) && k.ivLength > 0
    ensures A.LayerInverts(A.PluginLayer(k, Framed(Inflater(z)), DeflateEncoder(z)), live,
                           A.PluginPairing(session, Idle))
  {
    DeflateInverts(z);
    A.PluginLayerInverts(k, live, session, Framed(Inflater(z)), DeflateEncoder(z), Idle);
  }

  lemma {:induction false} DeflateStep(z: Zlib, s: Bytes)
    requires s != []
    ensures var n := if |s| > 32700 then 32700 else |s|;
            var packed := z.deflate(s[..n]);
            |packed| < 0x1_0000 ==>
              && Pow2(8 * 2) == 0x1_0000
              && DeflateEncrypt(z, s) ==
                 match DeflateEncrypt(z, s[n..])
                 case None => None
                 case Some(rest) => Some(ToBE(|packed|, 2) + packed[if |packed| < 2 then |packed| else 2..] + rest)
  {
    TwoBytes(0);
  }

  class VerifyDeflate {
    const zlib: Zlib
    var buf: Bytes

    constructor (z: Zlib)
      ensures zlib == z && buf == []
    {
      zlib, buf := z, [];
    }

    /** `None` when zlib raises. */
    method Decrypt(s: Bytes) returns (plain: Option<Bytes>)
      requires ZlibLaws(zlib)
      modifies this`buf
      ensures match Drain(Inflater(zlib), (), old(buf) + s)
              case None => plain == None
              case Some((st, out)) => plain == Some(out) && buf == st.1
    {
      hide Prefixed, Drain, Stable, ZlibLaws, FromBE;
      ghost var f := Inflater(zlib);
      ghost var all := Drain(f, (), buf + s);
      InflaterStable(zlib);
      buf := buf + s;
      var ret: Bytes := [];
      PrefixedUnit(all);
      while |buf| >= 2
        invariant all == Prefixed(ret, Drain(f, (), buf))
        decreases |buf|
      {
        ghost var prev, got := buf, ret;
        DrainStep(f, (), buf);
        var l := FromBE(buf[..2]);
        if |buf| < l { break; }
        var packed := if l < 2 then [] else buf[2..l];
        var data := zlib.inflate(ZLIB_HEADER + packed);
        if data.None? {
          PrefixedOf<((), Bytes), byte>(ret, None);
          return None;
        }
        ret := ret + data.value;
        buf := buf[l..];
        assert f.step((), prev) == Next((), l, data.value);
        PrefixedTwice(got, data.value, Drain(f, (), buf));
      }
      DrainStep(f, (), buf);
      PrefixedOf(ret, Some((((), buf), [])));
      assert ret + [] == ret;
      return Some(ret);
    }

    method Encrypt(s: Bytes) returns (out: Bytes)
      requires ZlibLaws(zlib)
      ensures DeflateEncrypt(zlib, s) == Some(out)
    {
      hide DeflateEncrypt, ToBE, Pow2;
      DeflateDecrypts(zlib, s);
      out := [];
      var rest := s;
      assert [] + DeflateEncrypt(zlib, s).value == DeflateEncrypt(zlib, s).value;
      while rest != []
        invariant DeflateEncrypt(zlib, rest).Some?
        invariant DeflateEncrypt(zlib, s) == Some(out + DeflateEncrypt(zlib, rest).value)
        decreases |rest|
      {
        var n := if |rest| > 32700 then 32700 else |rest|;
        var packed := zlib.deflate(rest[..n]);
        DeflateStep(zlib, rest);
        DeflateDecrypts(zlib, rest[n..]);
        var frame := ToBE(|packed|, 2) + packed[if |packed| < 2 then |packed| else 2..];
        ghost var more := DeflateEncrypt(zlib, rest[n..]).value;
        assert out + (frame + more) == (out + frame) + more;
        out := out + frame;
        rest := rest[n..];
      }
      NothingDeflated(zlib);
      assert out + [] == out;
    }
  }

  lemma {:induction false} NothingDeflated(z: Zlib)
    ensures DeflateEncrypt(z, []) == Some([])
  {
  }
}
