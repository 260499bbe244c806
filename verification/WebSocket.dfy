/** WebSocket framing (sections 5.2 to 5.5 of RFC 6455): a two-phase frame parser with bounded frames
    and messages, and the frame writer. */
module WebSocket {
  import opened Bits
  import opened ByteStrings
  import opened Incremental
  import opened Framing

  datatype Config = Config(expectMasked: bool, maxFrame: nat, maxMessage: nat)

  /** What a call does to its surroundings, in order: messages handed to the reader, control frames
      written back, the close callback, and the failure that raises. */
  datatype Event =
    | Message(payload: Bytes)
    | Pong(payload: Bytes)
    | CloseReply(payload: Bytes)
    | Closed(payload: Bytes)
    | Failed

  datatype Frame = Frame(fin: bool, opcode: nat, payload: Bytes)

  datatype Phase = Header | Body(fin: bool, opcode: nat, maskKey: Bytes, len: nat)

  datatype Status = Open | Shut | Broken

  datatype Conn = Conn(
    phase: Phase, messageOpcode: Option<nat>, message: Bytes, closeSent: bool, status: Status)

  const FRESH: Conn := Conn(Header, None, [], false, Open)

  function XorMask(data: Bytes, key: Bytes): (r: Bytes)
    requires |key| == 4
    ensures |r| == |data|
  {
    seq(|data|, i requires 0 <= i < |data| => XorByte(data[i], key[i % 4]))
  }

  lemma {:induction false} XorMaskTwice(data: Bytes, key: Bytes)
    requires |key| == 4
    ensures XorMask(XorMask(data, key), key) == data
  {
    forall i | 0 <= i < |data|
      ensures XorMask(XorMask(data, key), key)[i] == data[i]
    {
      XorByteCancel(data[i], key[i % 4]);
    }
  }

  /** Section 5.3: octet i of the result is octet i of the data, exclusive or octet i modulo 4 of the key. */
  lemma {:induction false} XorMaskBits(data: Bytes, key: Bytes, i: nat, n: nat)
    requires |key| == 4 && i < |data|
    ensures Bit(XorMask(data, key)[i], n) <==> Bit(data[i], n) != Bit(key[i % 4], n)
  {
    XorByteBit(data[i], key[i % 4], n);
  }

  // ---- One frame handled ----------------------------------------------------------------------

  function Refuse(c: Conn): (Conn, seq<Event>) {
    (c.(status := Broken), [Failed])
  }

  function Emit(cfg: Config, c: Conn, f: Frame): (Conn, seq<Event>) {
    if |c.message| + |f.payload| > cfg.maxMessage then Refuse(c)
    else if f.fin then (c.(messageOpcode := None, message := []), [Message(c.message + f.payload)])
    else (c.(message := c.message + f.payload), [])
  }

  function Handle(cfg: Config, c: Conn, f: Frame): (Conn, seq<Event>) {
    if f.opcode == 0 then
      if c.messageOpcode.None? then Refuse(c) else Emit(cfg, c, f)
    else if f.opcode == 1 || f.opcode == 2 then
      if c.messageOpcode.Some? then Refuse(c)
      else Emit(cfg, c.(messageOpcode := Some(f.opcode)), f)
    else if f.opcode == 9 then (c, [Pong(f.payload)])
    else if f.opcode == 8 then
      (c.(closeSent := true, status := Shut),
       (if c.closeSent then [] else [CloseReply(f.payload)]) + [Closed(f.payload)])
    else if f.opcode == 10 then (c, [])
    else Refuse(c)
  }

  // ---- The parser -----------------------------------------------------------------------------

  datatype Parsed = Wait | Bad | Good(size: nat, body: Phase)

  /** The header checks in the order the code makes them. */
  function ParseHeader(cfg: Config, buf: Bytes): (r: Parsed)
    ensures r.Good? ==> 2 <= r.size <= |buf| && r.body.Body?
  {
    if |buf| < 2 then Wait
    else
      var first, second := buf[0], buf[1];
      var fin, opcode, masked, marker := first >= 0x80, first % 16, second >= 0x80, second % 128;
      if first / 16 % 8 != 0 then Bad
      else if masked != cfg.expectMasked then Bad
      else
        var extension := if marker == 126 then 2 else if marker == 127 then 8 else 0;
        var size := 2 + extension + if masked then 4 else 0;
        if |buf| < size then Wait
        else
          var len := if marker < 126 then marker else FromBE(buf[2..2 + extension]);
          if marker == 127 && len >= 0x8000_0000_0000_0000 then Bad
          else if opcode >= 8 && (!fin || len > 125) then Bad
          else if len > cfg.maxFrame then Bad
          else Good(size, Body(fin, opcode, if masked then buf[size - 4..size] else [], len))
  }

  /** One turn of the loop in `feed_data`. */
  function Turn(cfg: Config, c: Conn, buf: Bytes): Step<Conn, Event> {
    match c.phase
    case Header =>
      (match ParseHeader(cfg, buf)
       case Wait => More
       case Bad => Next(Refuse(c).0, 0, Refuse(c).1)
       case Good(size, body) => Next(c.(phase := body), size, []))
    case Body(fin, opcode, key, len) =>
      if |buf| < len then More
      else
        var payload := if |key| == 4 then XorMask(buf[..len], key) else buf[..len];
        var (c', events) := Handle(cfg, c.(phase := Header), Frame(fin, opcode, payload));
        Next(c', len, events)
  }

  /** The loop as written: it does not look at `closed` again, and ends when a failure raises. */
  function Loop(cfg: Config): Framer<Conn, Event> {
    Framer((c: Conn, buf: Bytes) => if c.status.Broken? then More else Turn(cfg, c, buf), Rank)
  }

  /** The same parser ignoring everything after the first close frame or failure. */
  function Session(cfg: Config): Framer<Conn, Event> {
    Framer((c: Conn, buf: Bytes) =>
             if c.status.Open? then Turn(cfg, c, buf)
             else if buf == [] then More else Next(c, 1, []),
           Rank)
  }

  function Rank(c: Conn): nat {
    if c.status.Broken? then 0 else if c.phase.Header? then 1 else 2
  }

  lemma {:induction false} TurnExtends(cfg: Config, c: Conn, buf: Bytes, x: Bytes)
    requires !Turn(cfg, c, buf).More?
    ensures Turn(cfg, c, buf + x) == Turn(cfg, c, buf)
  {
    match c.phase
    case Header =>
      HeaderExtends(cfg, buf, x);
    case Body(fin, opcode, key, len) =>
      assert (buf + x)[..len] == buf[..len];
  }

  lemma {:induction false} HeaderExtends(cfg: Config, buf: Bytes, x: Bytes)
    requires !ParseHeader(cfg, buf).Wait?
    ensures ParseHeader(cfg, buf + x) == ParseHeader(cfg, buf)
  {
    var marker, masked := buf[1] % 128, buf[1] >= 0x80;
    var extension := if marker == 126 then 2 else if marker == 127 then 8 else 0;
    var size := 2 + extension + if masked then 4 else 0;
    if |buf| >= size {
      SlicePrefix(buf, x, 2, 2 + extension);
      if masked { SlicePrefix(buf, x, size - 4, size); }
    }
  }

  lemma {:induction false} SessionStable(cfg: Config)
    ensures Stable(Session(cfg)) && Stable(Loop(cfg))
  {
    forall c, buf, x
      ensures !Session(cfg).step(c, buf).More? ==> Session(cfg).step(c, buf + x) == Session(cfg).step(c, buf)
      ensures !Loop(cfg).step(c, buf).More? ==> Loop(cfg).step(c, buf + x) == Loop(cfg).step(c, buf)
    {
      if !Turn(cfg, c, buf).More? { TurnExtends(cfg, c, buf, x); }
    }
    forall c, buf
      ensures Advances(Session(cfg), c, buf) && Advances(Loop(cfg), c, buf)
    {
    }
  }

  // ---- Chunking -------------------------------------------------------------------------------

  predicate Terminal(e: Event) { e.Closed? || e.Failed? }

  /** The events up to and including the first close frame or failure. */
  function UpToEnd(events: seq<Event>): seq<Event> {
    if events == [] then []
    else if Terminal(events[0]) then [events[0]]
    else [events[0]] + UpToEnd(events[1..])
  }

  predicate Ended(events: seq<Event>) {
    exists e | e in events :: Terminal(e)
  }

  lemma {:induction false} EndedCons(e: Event, rest: seq<Event>)
    ensures Ended([e] + rest) <==> Terminal(e) || Ended(rest)
  {
    var all := [e] + rest;
    if Terminal(e) { assert all[0] in all; }
    if Ended(rest) {
      var x :| x in rest && Terminal(x);
      assert x in all;
    }
    if Ended(all) && !Terminal(e) {
      var x :| x in all && Terminal(x);
      assert x in rest;
    }
  }

  lemma {:induction false} UpToEndCons(e: Event, rest: seq<Event>)
    ensures UpToEnd([e] + rest) == if Terminal(e) then [e] else [e] + UpToEnd(rest)
  {
    assert ([e] + rest)[1..] == rest;
  }

  lemma {:induction false} NothingEnded()
    ensures !Ended([]) && UpToEnd([]) == []
  {
  }

  lemma {:induction false} Regroup<T>(e: T, a: seq<T>, b: seq<T>)
    ensures [e] + (a + b) == [e] + a + b
  {
  }

  lemma {:induction false} UpToEndAppend(a: seq<Event>, b: seq<Event>)
    ensures UpToEnd(a + b) == if Ended(a) then UpToEnd(a) else a + UpToEnd(b)
  {
    hide UpToEnd, Ended, Terminal;
    if a == [] {
      NothingEnded();
      assert a + b == b && a + UpToEnd(b) == UpToEnd(b);
    } else {
      var e, rest := a[0], a[1..];
      UpToEndAppend(rest, b);
      UpToEndCons(e, rest);
      UpToEndCons(e, rest + b);
      EndedCons(e, rest);
      assert [e] + rest == a;
      Regroup(e, rest, b);
      Regroup(e, rest, UpToEnd(b));
    }
  }

  /** The events of one frame end the session exactly when they contain a close or a failure, and
      nothing follows it. */
  lemma {:induction false} TurnEnds(cfg: Config, c: Conn, buf: Bytes)
    requires c.status.Open? && Turn(cfg, c, buf).Next?
    ensures var n := Turn(cfg, c, buf);
            && Ended(n.out) == !n.state.status.Open?
            && UpToEnd(n.out) == n.out
  {
    var n := Turn(cfg, c, buf);
    assert n.out == [] || n.out == [n.out[0]] || n.out == [n.out[0], n.out[1]];
    if n.out != [] { assert n.out[0] in n.out && n.out[|n.out| - 1] in n.out; }
  }

  lemma {:induction false} EndedIsSilent(cfg: Config, c: Conn, buf: Bytes)
    requires !c.status.Open?
    ensures Drain(Session(cfg), c, buf) == Some(((c, []), []))
    decreases |buf|
  {
    if buf != [] {
      EndedIsSilent(cfg, c, buf[1..]);
      PrefixedUnit(Drain(Session(cfg), c, buf[1..]));
    }
  }

  /** One call of the loop agrees with the session up to the end, and entirely if it did not end. */
  lemma {:induction false} LoopAgrees(cfg: Config, c: Conn, buf: Bytes)
    requires c.status.Open?
    ensures Drain(Loop(cfg), c, buf).Some? && Drain(Session(cfg), c, buf).Some?
    ensures var (l, out) := Drain(Loop(cfg), c, buf).value;
            var (s, upTo) := Drain(Session(cfg), c, buf).value;
            && UpToEnd(out) == upTo
            && Ended(out) == !s.0.status.Open? == !l.0.status.Open?
            && (!Ended(out) ==> l == s && out == upTo)
    decreases |buf|, Rank(c)
  {
    SessionStable(cfg);
    DrainStep(Loop(cfg), c, buf);
    DrainStep(Session(cfg), c, buf);
    var n := Turn(cfg, c, buf);
    if n.Next? {
      TurnEnds(cfg, c, buf);
      var rest := buf[n.used..];
      LoopTotal(cfg, n.state, rest);
      var more := Drain(Loop(cfg), n.state, rest).value.1;
      UpToEndAppend(n.out, more);
      EndedAppend(n.out, more);
      if n.state.status.Open? {
        LoopAgrees(cfg, n.state, rest);
      } else {
        EndedIsSilent(cfg, n.state, rest);
        assert n.out + [] == n.out;
      }
    }
  }

  lemma {:induction false} EndedAppend(a: seq<Event>, b: seq<Event>)
    ensures Ended(a + b) == (Ended(a) || Ended(b))
  {
    if Ended(a) { var e :| e in a && Terminal(e); assert e in a + b; }
    if Ended(b) { var e :| e in b && Terminal(e); assert e in a + b; }
  }

  lemma {:induction false} LoopTotal(cfg: Config, c: Conn, buf: Bytes)
    ensures Drain(Loop(cfg), c, buf).Some?
    ensures !c.status.Open? ==> !Drain(Loop(cfg), c, buf).value.0.0.status.Open?
    decreases |buf|, Rank(c)
  {
    SessionStable(cfg);
    DrainStep(Loop(cfg), c, buf);
    var n := Loop(cfg).step(c, buf);
    if n.Next? { LoopTotal(cfg, n.state, buf[n.used..]); }
  }

  /** `feed_data`: nothing once closed, else the loop over the buffer. */
  function Feed(cfg: Config, st: (Conn, Bytes), data: Bytes): ((Conn, Bytes), seq<Event>) {
    if !st.0.status.Open? then (st, [])
    else
      match Drain(Loop(cfg), st.0, st.1 + data)
      case None => (st, [])
      case Some((t, out)) => (t, out)
  }

  function FeedAll(cfg: Config, st: (Conn, Bytes), chunks: seq<Bytes>): seq<Event>
    decreases |chunks|
  {
    if chunks == [] then []
    else
      var (t, out) := Feed(cfg, st, chunks[0]);
      out + FeedAll(cfg, t, chunks[1..])
  }

  lemma {:induction false} FeedAfterEnd(cfg: Config, st: (Conn, Bytes), chunks: seq<Bytes>)
    requires !st.0.status.Open?
    ensures FeedAll(cfg, st, chunks) == []
  {
    if chunks != [] { FeedAfterEnd(cfg, st, chunks[1..]); }
  }

  lemma {:induction false} FeedAllAgrees(cfg: Config, c: Conn, buf: Bytes, chunks: seq<Bytes>)
    requires c.status.Open?
    ensures Run(Framed(Session(cfg)), (c, buf), chunks).Some?
    ensures UpToEnd(FeedAll(cfg, (c, buf), chunks)) == Run(Framed(Session(cfg)), (c, buf), chunks).value.1
    decreases |chunks|
  {
    if chunks != [] {
      LoopAgrees(cfg, c, buf + chunks[0]);
      var (l, out) := Drain(Loop(cfg), c, buf + chunks[0]).value;
      var (s, upTo) := Drain(Session(cfg), c, buf + chunks[0]).value;
      UpToEndAppend(out, FeedAll(cfg, l, chunks[1..]));
      if Ended(out) {
        FeedAfterEnd(cfg, l, chunks[1..]);
        SilentRun(cfg, s, chunks[1..]);
        assert out + [] == out && upTo + [] == upTo;
      } else {
        FeedAllAgrees(cfg, l.0, l.1, chunks[1..]);
      }
    }
  }

  lemma {:induction false} SilentRun(cfg: Config, st: (Conn, Bytes), chunks: seq<Bytes>)
    requires !st.0.status.Open?
    ensures Run(Framed(Session(cfg)), st, chunks).Some?
    ensures Run(Framed(Session(cfg)), st, chunks).value.1 == []
    decreases |chunks|
  {
    if chunks != [] {
      EndedIsSilent(cfg, st.0, st.1 + chunks[0]);
      SilentRun(cfg, (st.0, []), chunks[1..]);
    }
  }

  /** Any two chunkings of the same bytes, however malformed, give the same events up to and including
      the first close frame or failure. */
  lemma {:induction false} ChunkInvariance(cfg: Config, one: seq<Bytes>, other: seq<Bytes>)
    requires Flatten(one) == Flatten(other)
    ensures UpToEnd(FeedAll(cfg, (FRESH, []), one)) == UpToEnd(FeedAll(cfg, (FRESH, []), other))
  {
    SessionStable(cfg);
    FramedLawful(Session(cfg));
    FeedAllAgrees(cfg, FRESH, [], one);
    FeedAllAgrees(cfg, FRESH, [], other);
    AnyChunking(Framed(Session(cfg)), (FRESH, []), one);
    AnyChunking(Framed(Session(cfg)), (FRESH, []), other);
  }
}
