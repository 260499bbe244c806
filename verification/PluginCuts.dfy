/** Which input of the CRC deframer depends on how it is cut into chunks. */
module PluginCuts {
  import opened Bits
  import opened ByteStrings
  import opened Incremental
  import opened Framing
  import opened Plugins

  // ---- Which input depends on chunking --------------------------------------------------------

  /** Two facts about CRC-32: that of the empty string is zero, and the complement of that of the two
      bytes 0, 3 is no single byte. */
  ghost predicate Crc32Facts(v: Simple) {
    v.crc([]) % 0x1_0000_0000 == 0 && Complement(v, [0, 3]) >= 256
  }

  /** A frame shorter than four bytes that arrives byte by byte is refused by the loop as written. */
  lemma {:induction false} ShortRefused(v: Simple, buf: Bytes)
    requires Crc32Facts(v) && Short(buf) && |buf| <= 3 && (|buf| == 3 ==> FromBE(buf[..2]) == 3)
    ensures SimpleTurn(v, buf).Fail?
  {
    hide Pow2;
    if |buf| == 3 {
      ThreeBE(buf[..2]);
      assert buf[..2] == [0, 3];
      assert Slice(buf, -1, 3) == [buf[2]] && Slice(buf, 0, -1) == [0, 3];
      assert FromLE([buf[2]]) == buf[2] + 256 * FromLE([]);
    }
  }

  lemma {:induction false} ThreeBE(b: Bytes)
    requires |b| == 2 && FromBE(b) == 3
    ensures b == [0, 3]
  {
    assert FromBE(b) == FromBE(b[..1]) * 256 + b[1];
    assert FromBE(b[..1]) == FromBE(b[..1][..0]) * 256 + b[0];
    assert b[..1][..0] == [];
  }

  /** A byte that completes a frame leaves nothing behind. */
  lemma {:induction false} LastByte(v: Simple, rest: Bytes, b: byte)
    requires Guarded(v).step((), rest).More? && Guarded(v).step((), rest + [b]).Next?
    ensures Drain(Guarded(v), (), rest + [b]).Some?
  {
    hide FromBE, Slice, Complement, Drain, Stable;
    var buf := rest + [b];
    GuardedStable(v);
    DrainStep(Guarded(v), (), buf);
    if |rest| >= 2 { assert buf[..2] == rest[..2]; }
    assert buf[Guarded(v).step((), buf).used..] == [];
    DrainStep(Guarded(v), (), []);
  }

  /** One more byte after input the guarded loop waits on: where it fails, so does the loop as written. */
  lemma {:induction false} OneByteFails(v: Simple, rest: Bytes, b: byte)
    requires Crc32Facts(v) && Guarded(v).step((), rest).More?
    requires Drain(Guarded(v), (), rest + [b]).None?
    ensures Drain(Deframer(v), (), rest + [b]).None?
  {
    hide FromBE, Slice, Complement;
    var buf := rest + [b];
    GuardedStable(v);
    DrainStep(Guarded(v), (), buf);
    if |rest| >= 2 { assert buf[..2] == rest[..2]; }
    if Short(buf) {
      ShortRefused(v, buf);
    } else if SimpleTurn(v, buf).Next? {
      LastByte(v, rest, b);
      assert false;
    }
  }

  lemma {:induction false} BytewiseFails(v: Simple, rest: Bytes, x: Bytes)
    requires Crc32Facts(v) && Guarded(v).step((), rest).More?
    requires Run(Framed(Guarded(v)), ((), rest), Bytewise(x)).None?
    ensures Run(Framed(Deframer(v)), ((), rest), Bytewise(x)).None?
    decreases |x|
  {
    hide SimpleTurn, Drain, Run, Crc32Facts;
    if x == [] {
      RunNothing(v, rest);
    } else {
      var g, d := Framed(Guarded(v)), Framed(Deframer(v));
      RunFirst(g, ((), rest), x[..1], Bytewise(x[1..]));
      RunFirst(d, ((), rest), x[..1], Bytewise(x[1..]));
      assert x[..1] == [x[0]] && Bytewise(x) == [x[..1]] + Bytewise(x[1..]);
      if Drain(Guarded(v), (), rest + [x[0]]).None? {
        OneByteFails(v, rest, x[0]);
      } else {
        GuardAgrees(v, rest + [x[0]]);
        DrainWaits(Guarded(v), (), rest + [x[0]]);
        var ((u, left), out) := Drain(Guarded(v), (), rest + [x[0]]).value;
        assert u == () && g.feed(((), rest), x[..1]) == d.feed(((), rest), x[..1]) == Some((((), left), out));
        BytewiseFails(v, left, x[1..]);
      }
    }
  }

  lemma {:induction false} RunNothing(v: Simple, rest: Bytes)
    ensures Run(Framed(Guarded(v)), ((), rest), Bytewise([])).Some?
  {
  }

  /** The loop as written gives one result for every chunking of an input it accepts exactly when the
      guarded loop accepts that input. */
  lemma {:induction false} CutsAgree(v: Simple, x: Bytes)
    requires Crc32Facts(v) && Drain(Deframer(v), (), x).Some?
    ensures AnyCut(Framed(Deframer(v)), ((), []), x) <==> Drain(Guarded(v), (), x).Some?
  {
    hide SimpleTurn, Drain, Run, Crc32Facts;
    var g, d := Framed(Guarded(v)), Framed(Deframer(v));
    GuardedStable(v);
    FramedLawful(Guarded(v));
    assert [] + x == x;
    EmptyWaits(v);
    if Drain(Guarded(v), (), x).Some? {
      forall chunks: seq<Bytes> | Flatten(chunks) == x
        ensures Run(d, ((), []), chunks) == d.feed(((), []), x)
      {
        AnyChunking(g, ((), []), chunks);
        GuardAgreesRun(v, [], chunks);
        GuardAgrees(v, x);
      }
    } else {
      AnyChunking(g, ((), []), Bytewise(x));
      BytewiseWhole(x);
      BytewiseFails(v, [], x);
      assert Run(d, ((), []), Bytewise(x)) != d.feed(((), []), x);
    }
  }

  lemma {:induction false} EmptyWaits(v: Simple)
    ensures Guarded(v).step((), []).More?
  {
  }

  /** Such input exists: a one-byte frame is consumed when seven more bytes are buffered behind its
      length and refused when only one is. The CRC-32 of 00 01 96 dd 21 c9 is `0xffffffff`. */
  lemma {:induction false} ShortLengthDependsOnChunks(v: Simple, p: Bytes, t: Bytes)
    requires Crc32Facts(v) && |p| == 4 && |t| == 3 && v.crc([0, 1] + p) == 0xffff_ffff
    ensures SimpleTurn(v, [0, 1] + p + t).Next? && SimpleTurn(v, [0, 1] + p + t).used == 1
    ensures Run(Framed(Deframer(v)), ((), []), [[0, 1] + p[..1], p[1..] + t]).None?
  {
    hide SimpleTurn, Run;
    WholePasses(v, p, t);
    EarlyFails(v, p[0]);
    assert p[..1] == [p[0]];
    RunFirst(Framed(Deframer(v)), ((), []), [0, 1] + p[..1], [p[1..] + t]);
    assert [[0, 1] + p[..1]] + [p[1..] + t] == [[0, 1] + p[..1], p[1..] + t];
    assert [] + ([0, 1] + p[..1]) == [0, 1] + p[..1];
  }

  lemma {:induction false} EarlyFails(v: Simple, b: byte)
    requires Crc32Facts(v)
    ensures SimpleTurn(v, [0, 1] + [b]).Fail?
  {
    hide Pow2;
    var early := [0, 1] + [b];
    TwoBytes(1);
    assert early[..2] == [0, 1];
    assert Slice(early, -3, 1) == [0] && Slice(early, 0, -3) == [];
    assert FromLE([0]) == 0 + 256 * FromLE([]);
  }

  lemma {:induction false} WholeSlices(p: Bytes, t: Bytes)
    requires |p| == 4 && |t| == 3
    ensures var all := [0, 1] + p + t;
            FromBE(all[..2]) == 1 && Slice(all, 0, -3) == [0, 1] + p && Slice(all, -3, 1) == []
  {
    hide Pow2;
    var all := [0, 1] + p + t;
    TwoBytes(1);
    assert all[..2] == [0, 1];
    assert all[..6] == [0, 1] + p;
  }

  lemma {:induction false} WholePasses(v: Simple, p: Bytes, t: Bytes)
    requires |p| == 4 && |t| == 3 && v.crc([0, 1] + p) == 0xffff_ffff
    ensures SimpleTurn(v, [0, 1] + p + t).Next? && SimpleTurn(v, [0, 1] + p + t).used == 1
  {
    hide FromBE, Slice;
    WholeSlices(p, t);
  }

  // ---- Input that only some cuts get accepted -------------------------------------------------

  /** Some way to cut the bytes still to come is accepted by the loop as written. */
  predicate SomeCut(v: Simple, rest: Bytes, more: Bytes)
    decreases |more|
  {
    more == [] ||
    exists n | 0 < n <= |more| ::
      match Drain(Deframer(v), (), rest + more[..n])
      case None => false
      case Some((st, out)) => SomeCut(v, st.1, more[n..])
  }

  lemma {:induction false} DeframerWaits(v: Simple, buf: Bytes)
    requires Drain(Deframer(v), (), buf).Some?
    ensures SimpleTurn(v, Drain(Deframer(v), (), buf).value.0.1).More?
    decreases |buf|
  {
    hide SimpleTurn;
    var s := SimpleTurn(v, buf);
    assert Deframer(v).step((), buf) == s;
    if s.Next? {
      assert s.state == ();
      DeframerWaits(v, buf[s.used..]);
    }
  }

  lemma {:induction false} SomeCutOf(v: Simple, rest: Bytes, chunks: seq<Bytes>)
    requires SimpleTurn(v, rest).More? && Run(Framed(Deframer(v)), ((), rest), chunks).Some?
    ensures SomeCut(v, rest, Flatten(chunks))
    decreases |chunks|
  {
    hide SimpleTurn, Drain;
    if chunks != [] {
      var a, x := chunks[0], Flatten(chunks);
      DeframerWaits(v, rest + a);
      var ((st, left), out) := Drain(Deframer(v), (), rest + a).value;
      assert st == ();
      SomeCutOf(v, left, chunks[1..]);
      assert x == a + Flatten(chunks[1..]);
      if a == [] {
        assert rest + a == rest && x == Flatten(chunks[1..]);
        WaitingDrain(v, rest);
      } else {
        assert x[..|a|] == a && x[|a|..] == Flatten(chunks[1..]);
      }
    }
  }

  lemma {:induction false} WaitingDrain(v: Simple, rest: Bytes)
    requires SimpleTurn(v, rest).More?
    ensures Drain(Deframer(v), (), rest) == Some((((), rest), []))
  {
    hide SimpleTurn;
  }

  lemma {:induction false} CutOf(v: Simple, rest: Bytes, more: Bytes) returns (chunks: seq<Bytes>)
    requires SomeCut(v, rest, more)
    ensures Flatten(chunks) == more && Run(Framed(Deframer(v)), ((), rest), chunks).Some?
    decreases |more|
  {
    hide SimpleTurn, Drain, Run;
    if more == [] {
      chunks := [];
      RunNone(v, rest);
    } else {
      var n :| 0 < n <= |more| && match Drain(Deframer(v), (), rest + more[..n])
                                  case None => false
                                  case Some((st, out)) => SomeCut(v, st.1, more[n..]);
      var ((st, left), out) := Drain(Deframer(v), (), rest + more[..n]).value;
      assert st == ();
      var others := CutOf(v, left, more[n..]);
      chunks := [more[..n]] + others;
      RunFirst(Framed(Deframer(v)), ((), rest), more[..n], others);
      FlattenCons(more[..n], others);
      assert more[..n] + more[n..] == more;
    }
  }

  lemma {:induction false} RunNone(v: Simple, rest: Bytes)
    ensures Run(Framed(Deframer(v)), ((), rest), []).Some?
  {
  }

  /** For any input: all cuts give the same result exactly when the guarded loop accepts it or no cut is
      accepted. */
  lemma {:induction false} AllCutsAgree(v: Simple, x: Bytes)
    requires Crc32Facts(v)
    ensures AnyCut(Framed(Deframer(v)), ((), []), x) <==> Drain(Guarded(v), (), x).Some? || !SomeCut(v, [], x)
  {
    hide SimpleTurn, Drain, Run, Crc32Facts, SomeCut;
    var d := Framed(Deframer(v));
    assert [] + x == x;
    NothingWaits(v);
    if Drain(Guarded(v), (), x).Some? {
      GuardAgrees(v, x);
      CutsAgree(v, x);
    } else {
      GuardedStable(v);
      FramedLawful(Guarded(v));
      EmptyWaits(v);
      AnyChunking(Framed(Guarded(v)), ((), []), Bytewise(x));
      BytewiseWhole(x);
      BytewiseFails(v, [], x);
      if SomeCut(v, [], x) {
        var chunks := CutOf(v, [], x);
        assert Run(d, ((), []), chunks) != Run(d, ((), []), Bytewise(x));
      } else {
        forall chunks: seq<Bytes> | Flatten(chunks) == x
          ensures Run(d, ((), []), chunks) == d.feed(((), []), x)
        {
          if Run(d, ((), []), chunks).Some? { SomeCutOf(v, [], chunks); }
          RunOne(d, ((), []), x);
          FlattenOne(x);
          if Run(d, ((), []), [x]).Some? { SomeCutOf(v, [], [x]); }
        }
      }
    }
  }

  lemma {:induction false} NothingWaits(v: Simple)
    ensures SimpleTurn(v, []).More?
  {
  }

  /** The buffer from which the guarded loop refuses to go on. */
  function Refused(v: Simple, buf: Bytes): Option<Bytes>
    decreases |buf|
  {
    match Guarded(v).step((), buf)
    case More => None
    case Fail => Some(buf)
    case Next(st, used, out) => if 0 < used <= |buf| then Refused(v, buf[used..]) else None
  }

  lemma {:induction false} RefusedDrain(v: Simple, buf: Bytes)
    ensures Refused(v, buf).Some? <==> Drain(Guarded(v), (), buf).None?
    ensures Refused(v, buf).Some? && !Short(Refused(v, buf).value) ==> Drain(Deframer(v), (), buf).None?
    decreases |buf|
  {
    hide SimpleTurn, Short;
    GuardedStable(v);
    DrainStep(Guarded(v), (), buf);
    var n := Guarded(v).step((), buf);
    if n.Next? {
      assert n.state == () && Deframer(v).step((), buf) == n;
      RefusedDrain(v, buf[n.used..]);
    }
  }

  /** What the loop refuses it refuses with more behind it; what it consumes does not matter. */
  lemma {:induction false} RefusedMore(v: Simple, buf: Bytes, more: Bytes)
    ensures Refused(v, buf + more) ==
            match Drain(Guarded(v), (), buf)
            case None => if Refused(v, buf).Some? then Some(Refused(v, buf).value + more) else None
            case Some((st, out)) => Refused(v, st.1 + more)
    decreases |buf|
  {
    hide SimpleTurn, Short;
    GuardedStable(v);
    DrainStep(Guarded(v), (), buf);
    var n := Guarded(v).step((), buf);
    if !n.More? { assert Guarded(v).step((), buf + more) == n; }
    if n.Next? {
      assert n.state == ();
      RefusedMore(v, buf[n.used..], more);
      assert (buf + more)[n.used..] == buf[n.used..] + more;
    }
  }

  /** A frame of proper length that fails its check is refused in every cut. */
  lemma {:induction false} LongFails(v: Simple, rest: Bytes, chunks: seq<Bytes>)
    requires var b := Refused(v, rest + Flatten(chunks)); b.Some? && !Short(b.value)
    requires Guarded(v).step((), rest).More?
    ensures Run(Framed(Deframer(v)), ((), rest), chunks).None?
    decreases |chunks|
  {
    hide SimpleTurn, Drain, Refused;
    if chunks == [] {
      assert rest + Flatten(chunks) == rest;
      RefusedDrain(v, rest);
      GuardedWaiting(v, rest);
      assert false;
    } else {
      var a, more := chunks[0], Flatten(chunks[1..]);
      assert rest + Flatten(chunks) == (rest + a) + more;
      RefusedMore(v, rest + a, more);
      RefusedDrain(v, rest + a);
      if Drain(Guarded(v), (), rest + a).None? {
        ShortStays(Refused(v, rest + a).value, more);
      } else {
        GuardedStable(v);
        DrainWaits(Guarded(v), (), rest + a);
        GuardAgrees(v, rest + a);
        var ((st, left), out) := Drain(Guarded(v), (), rest + a).value;
        assert st == ();
        LongFails(v, left, chunks[1..]);
      }
    }
  }

  lemma {:induction false} GuardedWaiting(v: Simple, rest: Bytes)
    requires Guarded(v).step((), rest).More?
    ensures Drain(Guarded(v), (), rest).Some?
  {
    hide SimpleTurn;
  }

  lemma {:induction false} ShortStays(buf: Bytes, more: Bytes)
    ensures Short(buf) ==> Short(buf + more)
  {
    if |buf| >= 2 { assert (buf + more)[..2] == buf[..2]; }
  }

  lemma {:induction false} OneTurn(v: Simple, buf: Bytes)
    requires SimpleTurn(v, buf).Next? && 0 < SimpleTurn(v, buf).used <= |buf|
    ensures Drain(Deframer(v), (), buf) ==
            Prefixed(SimpleTurn(v, buf).out, Drain(Deframer(v), (), buf[SimpleTurn(v, buf).used..]))
  {
    hide SimpleTurn;
    assert Deframer(v).step((), buf) == SimpleTurn(v, buf);
    assert SimpleTurn(v, buf).state == ();
  }

  /** Such input exists too: the frame of `ShortLengthDependsOnChunks` and one byte more are refused
      in one chunk and accepted with that byte in a chunk of its own. */
  lemma {:induction false} AcceptedInTwo(v: Simple, p: Bytes, t: Bytes, u: byte)
    requires |p| == 4 && |t| == 3 && v.crc([0, 1] + p) == 0xffff_ffff
    requires v.crc([0, 1] + p + t[..1]) % 0x1_0000_0000 != 0xffff_ffff
    ensures var x := [0, 1] + p + t;
            && Drain(Deframer(v), (), x + [u]).None?
            && Run(Framed(Deframer(v)), ((), []), [x, [u]]).Some?
  {
    hide SimpleTurn, Run;
    var x, left := [0, 1] + p + t, [1] + p + t;
    WholePasses(v, p, t);
    OneMoreFails(v, p, t, u);
    LeftWaits(v, left);
    LeftWaits(v, left + [u]);
    assert x[1..] == left && [] + x == x;
    OneTurn(v, x);
    assert Drain(Deframer(v), (), x).Some? && Drain(Deframer(v), (), x).value.0 == ((), left);
    RunTwo(Framed(Deframer(v)), ((), []), x, [u]);
  }

  lemma {:induction false} LeftWaits(v: Simple, left: Bytes)
    requires 8 <= |left| <= 9 && left[0] == 1
    ensures SimpleTurn(v, left).More? && Drain(Deframer(v), (), left) == Some((((), left), []))
  {
    hide Slice, Complement;
    var b := left[..2];
    assert FromBE(b) == FromBE(b[..1]) * 256 + b[1];
    assert FromBE(b[..1]) == FromBE(b[..1][..0]) * 256 + b[0];
    assert b[..1][..0] == [];
  }

  lemma {:induction false} OneMoreFails(v: Simple, p: Bytes, t: Bytes, u: byte)
    requires |p| == 4 && |t| == 3
    requires v.crc([0, 1] + p + t[..1]) % 0x1_0000_0000 != 0xffff_ffff
    ensures SimpleTurn(v, [0, 1] + p + t + [u]).Fail?
  {
    hide Pow2;
    var all := [0, 1] + p + t + [u];
    TwoBytes(1);
    assert all[..2] == [0, 1];
    assert Slice(all, 0, -3) == all[..7] == [0, 1] + p + t[..1];
    assert Slice(all, -3, 1) == [];
  }
}
