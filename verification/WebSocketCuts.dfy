/** Which WebSocket input depends on how it was cut: the loop of `feed_data` does not look at `closed`
    again, so what stands behind a close frame in the same chunk is still handled. */
module WebSocketCuts {
  import opened ByteStrings
  import opened Incremental
  import opened Framing
  import opened WebSocket
  import opened WebSocketWire

  /** All events of one call with all of the input. */
  function Whole(cfg: Config, x: Bytes): seq<Event> {
    Feed(cfg, (FRESH, []), x).1
  }

  ghost predicate CutsAgree(cfg: Config, x: Bytes) {
    forall chunks: seq<Bytes> | Flatten(chunks) == x :: FeedAll(cfg, (FRESH, []), chunks) == Whole(cfg, x)
  }

  // ---- What stands behind the end -------------------------------------------------------------

  /** The connection and the bytes behind the first close frame or failure, if there is one. */
  function Behind(cfg: Config, c: Conn, buf: Bytes): Option<(Conn, Bytes)>
    decreases |buf|, Rank(c)
  {
    if !c.status.Open? then Some((c, buf))
    else
      match Turn(cfg, c, buf)
      case More => None
      case Fail => None
      case Next(t, used, out) =>
        if used <= |buf| && (used > 0 || Rank(t) < Rank(c)) then Behind(cfg, t, buf[used..]) else None
  }

  lemma {:induction false} BehindStep(cfg: Config, c: Conn, buf: Bytes)
    requires c.status.Open?
    ensures Behind(cfg, c, buf) ==
            match Turn(cfg, c, buf)
            case More => None
            case Fail => None
            case Next(t, used, out) => if used <= |buf| then Behind(cfg, t, buf[used..]) else None
  {
    hide Turn;
    if Turn(cfg, c, buf).Next? { LoopAdvances(cfg, c, buf); }
  }

  lemma {:induction false} LoopAdvances(cfg: Config, c: Conn, buf: Bytes)
    requires !c.status.Broken? && Turn(cfg, c, buf).Next?
    ensures var n := Turn(cfg, c, buf); n.used <= |buf| && (n.used > 0 || Rank(n.state) < Rank(c))
  {
  }

  /** The whole call is its events up to the end and what the loop makes of the bytes behind it. */
  lemma {:induction false} LoopSplits(cfg: Config, c: Conn, buf: Bytes)
    requires c.status.Open?
    ensures Drain(Loop(cfg), c, buf).Some?
    ensures var out := Drain(Loop(cfg), c, buf).value.1;
            match Behind(cfg, c, buf)
            case None => UpToEnd(out) == out
            case Some((t, left)) =>
              Drain(Loop(cfg), t, left).Some? && out == UpToEnd(out) + Drain(Loop(cfg), t, left).value.1
    decreases |buf|, Rank(c)
  {
    hide Turn, Drain, UpToEnd, Ended, Behind;
    SessionStable(cfg);
    LoopTotal(cfg, c, buf);
    DrainStep(Loop(cfg), c, buf);
    BehindStep(cfg, c, buf);
    var n := Turn(cfg, c, buf);
    if n.More? {
      NothingEnded();
    } else if n.Next? {
      TurnEnds(cfg, c, buf);
      var rest := buf[n.used..];
      LoopTotal(cfg, n.state, rest);
      var more := Drain(Loop(cfg), n.state, rest).value.1;
      UpToEndAppend(n.out, more);
      if n.state.status.Open? {
        LoopAdvances(cfg, c, buf);
        LoopSplits(cfg, n.state, rest);
        if Behind(cfg, n.state, rest).Some? {
          var (t, left) := Behind(cfg, n.state, rest).value;
          Regrouped(n.out, UpToEnd(more), Drain(Loop(cfg), t, left).value.1);
        }
      } else {
        BehindEnded(cfg, n.state, rest);
      }
    }
  }

  lemma {:induction false} Regrouped<T>(a: seq<T>, b: seq<T>, c: seq<T>)
    ensures a + (b + c) == a + b + c
  {
  }

  lemma {:induction false} BehindEnded(cfg: Config, c: Conn, buf: Bytes)
    requires !c.status.Open?
    ensures Behind(cfg, c, buf) == Some((c, buf))
  {
  }

  // ---- Every cut against the whole ------------------------------------------------------------

  /** No cut yields more than the whole does. */
  lemma {:induction false} CutIsPrefix(cfg: Config, c: Conn, buf: Bytes, chunks: seq<Bytes>)
    requires c.status.Open?
    ensures Drain(Loop(cfg), c, buf + Flatten(chunks)).Some?
    ensures FeedAll(cfg, (c, buf), chunks) <= Drain(Loop(cfg), c, buf + Flatten(chunks)).value.1
    decreases |chunks|
  {
    hide Drain, Stable, Loop;
    var f := Loop(cfg);
    LoopTotal(cfg, c, buf + Flatten(chunks));
    if chunks != [] {
      var a, rest := chunks[0], Flatten(chunks[1..]);
      SessionStable(cfg);
      LoopTotal(cfg, c, buf + a);
      DrainExtend(f, c, buf + a, rest);
      assert buf + Flatten(chunks) == buf + a + rest;
      var ((t, left), out) := Drain(f, c, buf + a).value;
      if t.status.Open? {
        CutIsPrefix(cfg, t, left, chunks[1..]);
      } else {
        FeedAfterEnd(cfg, (t, left), chunks[1..]);
      }
    }
  }

  /** A byte that completes a header or a payload leaves nothing in the buffer. */
  lemma {:induction false} LastByte(cfg: Config, c: Conn, buf: Bytes, b: byte)
    requires c.status.Open? && Turn(cfg, c, buf).More? && Turn(cfg, c, buf + [b]).Next?
    ensures var n := Turn(cfg, c, buf + [b]);
            n.state.status.Broken? || n.used == |buf| + 1
  {
    hide FromBE;
    var all := buf + [b];
    if |buf| >= 2 { assert all[0] == buf[0] && all[1] == buf[1]; }
  }

  lemma {:induction false} WaitsEmpty(cfg: Config, c: Conn)
    requires c.status.Broken? || c.phase.Header? || (c.phase.Body? && c.phase.len > 0)
    ensures Drain(Loop(cfg), c, []) == Some(((c, []), []))
  {
  }

  lemma {:induction false} BodyEndsFrame(cfg: Config, c: Conn, buf: Bytes)
    requires c.phase.Body? && Turn(cfg, c, buf).Next?
    ensures Turn(cfg, c, buf).state.phase.Header?
  {
  }

  /** One byte never carries the loop past the end of the session. */
  lemma {:induction false} OneByteEnds(cfg: Config, c: Conn, buf: Bytes, b: byte)
    requires c.status.Open? && Turn(cfg, c, buf).More?
    ensures Drain(Loop(cfg), c, buf + [b]).Some?
    ensures var out := Drain(Loop(cfg), c, buf + [b]).value.1; UpToEnd(out) == out
  {
    hide Drain, Turn, UpToEnd, Ended, Stable;
    var f, all := Loop(cfg), buf + [b];
    LoopTotal(cfg, c, all);
    SessionStable(cfg);
    LoopSplits(cfg, c, all);
    if Behind(cfg, c, all).Some? {
      BehindByte(cfg, c, buf, b);
      var (t, left) := Behind(cfg, c, all).value;
      WaitsEmptyOrBroken(cfg, t, left);
      var out := Drain(f, c, all).value.1;
      assert UpToEnd(out) + [] == UpToEnd(out);
    }
  }

  lemma {:induction false} WaitsEmptyOrBroken(cfg: Config, t: Conn, left: Bytes)
    requires t.status.Broken? || (left == [] && t.phase.Header?)
    ensures Drain(Loop(cfg), t, left) == Some(((t, left), []))
  {
  }

  lemma {:induction false} BehindByte(cfg: Config, c: Conn, buf: Bytes, b: byte)
    requires c.status.Open? && Turn(cfg, c, buf).More? && Behind(cfg, c, buf + [b]).Some?
    ensures var (t, left) := Behind(cfg, c, buf + [b]).value;
            t.status.Broken? || (left == [] && t.phase.Header?)
  {
    hide Turn, Behind, Stable;
    var all := buf + [b];
    BehindStep(cfg, c, all);
    var n := Turn(cfg, c, all);
    LastByte(cfg, c, buf, b);
    var left := all[n.used..];
    if n.state.status.Broken? {
      BehindEnded(cfg, n.state, left);
    } else {
      assert left == [];
      if c.phase.Body? {
        BodyEndsFrame(cfg, c, all);
        EmptyBehind(cfg, n.state);
      } else {
        HeaderStaysOpen(cfg, c, all);
        BehindStep(cfg, n.state, []);
        var m := Turn(cfg, n.state, []);
        if m.Next? {
          BodyEndsFrame(cfg, n.state, []);
          LoopAdvances(cfg, n.state, []);
          assert left[m.used..] == [];
          EmptyBehind(cfg, m.state);
        }
      }
    }
  }

  lemma {:induction false} HeaderStaysOpen(cfg: Config, c: Conn, buf: Bytes)
    requires c.status.Open? && c.phase.Header? && Turn(cfg, c, buf).Next? && !Turn(cfg, c, buf).state.status.Broken?
    ensures Turn(cfg, c, buf).state.status.Open? && Turn(cfg, c, buf).state.phase.Body?
  {
  }

  lemma {:induction false} EmptyBehind(cfg: Config, c: Conn)
    requires c.phase.Header?
    ensures Behind(cfg, c, []) == if c.status.Open? then None else Some((c, []))
  {
  }

  /** Byte by byte, nothing is emitted after the end. */
  lemma {:induction false} BytewiseEnds(cfg: Config, c: Conn, buf: Bytes, x: Bytes)
    requires c.status.Open? && Turn(cfg, c, buf).More?
    ensures var all := FeedAll(cfg, (c, buf), Bytewise(x)); UpToEnd(all) == all
    decreases |x|
  {
    hide Drain, Turn, UpToEnd, Ended, Stable;
    NothingEnded();
    if x != [] {
      var a, rest := x[..1], Bytewise(x[1..]);
      assert a == [x[0]] && Bytewise(x) == [a] + rest && ([a] + rest)[1..] == rest;
      OneByteEnds(cfg, c, buf, x[0]);
      LoopAgrees(cfg, c, buf + a);
      var ((t, left), out) := Drain(Loop(cfg), c, buf + a).value;
      UpToEndAppend(out, FeedAll(cfg, (t, left), rest));
      if t.status.Open? {
        DrainWaits(Loop(cfg), c, buf + a);
        BytewiseEnds(cfg, t, left, x[1..]);
      } else {
        FeedAfterEnd(cfg, (t, left), rest);
        assert out + [] == out;
      }
    }
  }

  lemma {:induction false} UpToEndShorter(a: seq<Event>)
    ensures |UpToEnd(a)| <= |a|
  {
    if a != [] { UpToEndShorter(a[1..]); }
  }

  lemma {:induction false} WholeIsDrain(cfg: Config, x: Bytes)
    ensures Drain(Loop(cfg), FRESH, x).Some? && Whole(cfg, x) == Drain(Loop(cfg), FRESH, x).value.1
    ensures FeedAll(cfg, (FRESH, []), [x]) == Whole(cfg, x)
  {
    hide Drain, Loop;
    LoopTotal(cfg, FRESH, x);
    assert [] + x == x;
    var none: seq<Bytes> := [];
    assert [x][1..] == none;
    assert Whole(cfg, x) + [] == Whole(cfg, x);
  }

  /** Every chunking of an input gives the same events exactly when the single call emits nothing after
      its first close frame or failure. */
  lemma {:induction false} AgreeUpToEnd(cfg: Config, x: Bytes)
    ensures CutsAgree(cfg, x) <==> UpToEnd(Whole(cfg, x)) == Whole(cfg, x)
  {
    hide Drain, Turn, UpToEnd, FeedAll, Whole;
    var out := Whole(cfg, x);
    WholeIsDrain(cfg, x);
    FlattenOne(x);
    if UpToEnd(out) == out {
      forall chunks: seq<Bytes> | Flatten(chunks) == x
        ensures FeedAll(cfg, (FRESH, []), chunks) == out
      {
        var got := FeedAll(cfg, (FRESH, []), chunks);
        assert [] + x == x;
        CutIsPrefix(cfg, FRESH, [], chunks);
        ChunkInvariance(cfg, chunks, [x]);
        UpToEndShorter(got);
        assert got == out[..|got|];
      }
    } else {
      FreshWaits(cfg);
      BytewiseWhole(x);
      BytewiseEnds(cfg, FRESH, [], x);
    }
  }

  lemma {:induction false} FreshWaits(cfg: Config)
    ensures Turn(cfg, FRESH, []).More?
  {
  }

  /** On the input: that is when no close frame has something behind it that the loop would emit. */
  lemma {:induction false} ChunkingMatters(cfg: Config, x: Bytes)
    ensures CutsAgree(cfg, x) <==>
            match Behind(cfg, FRESH, x)
            case None => true
            case Some((t, left)) => Drain(Loop(cfg), t, left).Some? && Drain(Loop(cfg), t, left).value.1 == []
  {
    hide Drain, Turn, UpToEnd, Whole, Behind, CutsAgree;
    AgreeUpToEnd(cfg, x);
    WholeIsDrain(cfg, x);
    LoopSplits(cfg, FRESH, x);
    var out := Whole(cfg, x);
    if Behind(cfg, FRESH, x).Some? {
      var (t, left) := Behind(cfg, FRESH, x).value;
      var more := Drain(Loop(cfg), t, left).value.1;
      if more == [] { assert UpToEnd(out) + [] == UpToEnd(out); }
      if UpToEnd(out) == out { assert |out| == |out| + |more|; }
    }
  }

  // ---- Two frames -----------------------------------------------------------------------------

  const SHUT: Conn := FRESH.(closeSent := true, status := Shut)

  lemma {:induction false} LoopFrame(cfg: Config, c: Conn, f: Frame, key: Option<Bytes>, rest: Bytes)
    requires Carried(cfg, f, key) && !c.status.Broken? && c.phase.Header?
    ensures var (c', events) := Handle(cfg, c, f);
            Drain(Loop(cfg), c, FrameBytes(f, key) + rest) == Prefixed(events, Drain(Loop(cfg), c', rest))
  {
    hide Drain, Handle, Stable, HeaderBytes, Turn, XorMask;
    var s := Loop(cfg);
    SessionStable(cfg);
    HeaderTurn(cfg, c, f, key);
    BodyTurn(cfg, c, f, key);
    var h, body := HeaderBytes(f, key), Masked(f.payload, key);
    var b := c.(phase := Body(f.fin, f.opcode, if key.Some? then key.value else [], |f.payload|));
    DrainTurn(s, c, h, body + rest);
    DrainTurn(s, b, body, rest);
    PrefixedUnit(Drain(s, b, body + rest));
    assert FrameBytes(f, key) + rest == h + (body + rest);
  }

  lemma {:induction false} BehindFrame(cfg: Config, f: Frame, key: Option<Bytes>, rest: Bytes)
    requires Carried(cfg, f, key) && f.opcode == 8
    ensures Behind(cfg, FRESH, FrameBytes(f, key) + rest) == Some((SHUT, rest))
  {
    hide Handle, HeaderBytes, Turn, XorMask, Behind, Stable;
    SessionStable(cfg);
    HeaderTurn(cfg, FRESH, f, key);
    BodyTurn(cfg, FRESH, f, key);
    var h, body := HeaderBytes(f, key), Masked(f.payload, key);
    var b := FRESH.(phase := Body(f.fin, f.opcode, if key.Some? then key.value else [], |f.payload|));
    var x := FrameBytes(f, key) + rest;
    assert x == h + (body + rest);
    TurnExtends(cfg, FRESH, h, body + rest);
    BehindStep(cfg, FRESH, x);
    assert x[|h|..] == body + rest;
    TurnExtends(cfg, b, body, rest);
    BehindStep(cfg, b, body + rest);
    assert (body + rest)[|body|..] == rest;
    CloseShuts(cfg, f);
    BehindEnded(cfg, SHUT, rest);
  }

  lemma {:induction false} CloseShuts(cfg: Config, f: Frame)
    requires f.opcode == 8
    ensures Handle(cfg, FRESH, f) == (SHUT, [CloseReply(f.payload), Closed(f.payload)])
  {
    assert [CloseReply(f.payload)] + [Closed(f.payload)] == [CloseReply(f.payload), Closed(f.payload)];
  }

  /** A close frame and one more frame, masked or not: chunking matters exactly if the second frame makes
      the handler emit something. */
  lemma {:induction false} FrameBehindClose(
    cfg: Config, close: Frame, k: Option<Bytes>, f: Frame, key: Option<Bytes>)
    requires Carried(cfg, close, k) && close.opcode == 8 && Carried(cfg, f, key)
    ensures CutsAgree(cfg, FrameBytes(close, k) + FrameBytes(f, key)) <==> Handle(cfg, SHUT, f).1 == []
  {
    hide Handle, FrameBytes, Drain, Behind, CutsAgree;
    var rest := FrameBytes(f, key);
    ChunkingMatters(cfg, FrameBytes(close, k) + rest);
    BehindFrame(cfg, close, k, rest);
    LoopFrame(cfg, SHUT, f, key, []);
    assert rest + [] == rest;
    var (c, events) := Handle(cfg, SHUT, f);
    LoopTotal(cfg, c, []);
    HandledWaits(cfg, f);
    assert events + [] == events;
  }

  lemma {:induction false} HandledWaits(cfg: Config, f: Frame)
    ensures var c := Handle(cfg, SHUT, f).0; Drain(Loop(cfg), c, []) == Some(((c, []), []))
  {
    hide Drain;
    WaitsEmpty(cfg, Handle(cfg, SHUT, f).0);
  }

  /** The events of the two cuts, for a message behind the close frame: delivered in one chunk, dropped
      in two. */
  lemma {:induction false} AfterCloseDependsOnChunks(
    cfg: Config, close: Frame, k: Option<Bytes>, f: Frame, key: Option<Bytes>)
    requires Carried(cfg, close, k) && close.opcode == 8
    requires Carried(cfg, f, key) && f.fin && f.opcode == 2 && |f.payload| <= cfg.maxMessage
    ensures var x, y := FrameBytes(close, k), FrameBytes(f, key);
            var end := [CloseReply(close.payload), Closed(close.payload)];
            && FeedAll(cfg, (FRESH, []), [x + y]) == end + [Message(f.payload)]
            && FeedAll(cfg, (FRESH, []), [x, y]) == end
  {
    hide FrameBytes, Drain, Turn;
    var x, y := FrameBytes(close, k), FrameBytes(f, key);
    var end := [CloseReply(close.payload), Closed(close.payload)];
    CloseShuts(cfg, close);
    MessageBehind(cfg, f);
    LoopFrame(cfg, FRESH, close, k, y);
    LoopFrame(cfg, FRESH, close, k, []);
    LoopFrame(cfg, SHUT, f, key, []);
    WaitsEmpty(cfg, SHUT);
    assert x + [] == x && y + [] == y && [] + (x + y) == x + y && [] + x == x;
    var none: seq<Bytes> := [];
    assert [x + y][1..] == none && [x, y][1..] == [y];
    assert [Message(f.payload)] + [] == [Message(f.payload)] && end + [] == end;
    FeedAfterEnd(cfg, (SHUT, []), [y]);
    assert Feed(cfg, (FRESH, []), x + y) == ((SHUT, []), end + [Message(f.payload)]);
    assert Feed(cfg, (FRESH, []), x) == ((SHUT, []), end);
    assert end + [Message(f.payload)] + [] == end + [Message(f.payload)];
    assert FeedAll(cfg, (SHUT, []), none) == [];
  }

  lemma {:induction false} MessageBehind(cfg: Config, f: Frame)
    requires f.fin && f.opcode == 2 && |f.payload| <= cfg.maxMessage
    ensures Handle(cfg, SHUT, f) == (SHUT, [Message(f.payload)])
  {
    assert [] + f.payload == f.payload;
  }
}
