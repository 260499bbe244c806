/** The WebSocket wire format and the frame writer, with the parser as their inverse. */
module WebSocketWire {
  import opened Bits
  import opened ByteStrings
  import opened Incremental
  import opened Framing
  import opened WebSocket

  predicate Encodable(f: Frame, key: Option<Bytes>) {
    f.opcode < 16 && |f.payload| < 0x1_0000_0000_0000_0000 && (key.Some? ==> |key.value| == 4)
  }

  function Masked(payload: Bytes, key: Option<Bytes>): (r: Bytes)
    requires key.Some? ==> |key.value| == 4
    ensures |r| == |payload|
  {
    if key.Some? then XorMask(payload, key.value) else payload
  }

  /** Section 5.2 of RFC 6455: the shortest of the three length forms, then the masking key. */
  function FrameBytes(f: Frame, key: Option<Bytes>): Bytes
    requires Encodable(f, key)
  {
    HeaderBytes(f, key) + Masked(f.payload, key)
  }

  function HeaderBytes(f: Frame, key: Option<Bytes>): Bytes
    requires Encodable(f, key)
  {
    var (marker, ext) := LengthField(|f.payload|);
    [(if f.fin then 0x80 else 0) + f.opcode, (if key.Some? then 0x80 else 0) + marker]
    + ext + if key.Some? then key.value else []
  }

  /** The seven-bit marker and the extended length. */
  function LengthField(n: nat): (r: (nat, Bytes))
    requires n < 0x1_0000_0000_0000_0000
    ensures r.0 < 128 && |r.1| == (if r.0 == 126 then 2 else if r.0 == 127 then 8 else 0)
    ensures n == (if r.0 < 126 then r.0 else FromBE(r.1))
  {
    EightBytes(n);
    if n < 126 then (n, [])
    else if n < 0x1_0000 then TwoBytes(n); BERoundTrip(n, 2); (126, ToBE(n, 2))
    else (127, ToBE(n, 8))
  }

  /** A frame the parser lets through to its handler. */
  predicate Carried(cfg: Config, f: Frame, key: Option<Bytes>) {
    && Encodable(f, key) && |f.payload| < 0x8000_0000_0000_0000
    && key.Some? == cfg.expectMasked
    && |f.payload| <= cfg.maxFrame
    && (f.opcode >= 8 ==> f.fin && |f.payload| <= 125)
  }

  lemma {:induction false} FlagBits(flag: bool, low: nat, size: nat)
    requires (size == 16 && low < 16) || (size == 128 && low < 128)
    ensures var b := (if flag then 0x80 else 0) + low;
            b % size == low && (b >= 0x80) == flag && (size == 16 ==> b / 16 % 8 == 0)
  {
  }

  lemma {:induction false} HeaderSlices(first: nat, second: nat, ext: Bytes, k: Bytes)
    requires first < 256 && second < 256
    ensures var h: Bytes := [first, second] + ext + k;
            && |h| == 2 + |ext| + |k| && h[0] == first && h[1] == second
            && h[2..2 + |ext|] == ext && h[|h| - |k|..|h|] == k
  {
  }

  /** The parser on a header given by its fields. */
  lemma {:induction false} FieldsParse(
    cfg: Config, fin: bool, opcode: nat, marker: nat, ext: Bytes, k: Bytes, len: nat)
    requires opcode < 16 && marker < 128
    requires |ext| == (if marker == 126 then 2 else if marker == 127 then 8 else 0)
    requires len == (if marker < 126 then marker else FromBE(ext))
    requires |k| == (if cfg.expectMasked then 4 else 0)
    requires len < 0x8000_0000_0000_0000 && len <= cfg.maxFrame && (opcode >= 8 ==> fin && len <= 125)
    ensures var h := [(if fin then 0x80 else 0) + opcode, (if cfg.expectMasked then 0x80 else 0) + marker] + ext + k;
            ParseHeader(cfg, h) == Good(|h|, Body(fin, opcode, k, len))
  {
    hide FromBE;
    var first, second := (if fin then 0x80 else 0) + opcode, (if cfg.expectMasked then 0x80 else 0) + marker;
    FlagBits(fin, opcode, 16);
    FlagBits(cfg.expectMasked, marker, 128);
    HeaderSlices(first, second, ext, k);
  }

  lemma {:induction false} HeaderParses(cfg: Config, f: Frame, key: Option<Bytes>)
    requires Carried(cfg, f, key)
    ensures var h := HeaderBytes(f, key);
            ParseHeader(cfg, h) ==
            Good(|h|, Body(f.fin, f.opcode, if key.Some? then key.value else [], |f.payload|))
  {
    hide ParseHeader, LengthField;
    var (marker, ext) := LengthField(|f.payload|);
    FieldsParse(cfg, f.fin, f.opcode, marker, ext, if key.Some? then key.value else [], |f.payload|);
  }

  lemma {:induction false} HeaderTurn(cfg: Config, c: Conn, f: Frame, key: Option<Bytes>)
    requires Carried(cfg, f, key) && c.phase.Header?
    ensures var h := HeaderBytes(f, key);
            Turn(cfg, c, h) ==
            Next(c.(phase := Body(f.fin, f.opcode, if key.Some? then key.value else [], |f.payload|)), |h|, [])
  {
    hide Handle, HeaderBytes, ParseHeader;
    HeaderParses(cfg, f, key);
  }

  lemma {:induction false} BodyTurn(cfg: Config, c: Conn, f: Frame, key: Option<Bytes>)
    requires Carried(cfg, f, key) && c.phase.Header?
    ensures var (c', events) := Handle(cfg, c, f);
            var body := Masked(f.payload, key);
            Turn(cfg, c.(phase := Body(f.fin, f.opcode, if key.Some? then key.value else [], |f.payload|)), body) ==
            Next(c', |body|, events)
  {
    hide Handle, ParseHeader, XorMask;
    var body := Masked(f.payload, key);
    assert body[..|f.payload|] == body;
    if key.Some? { XorMaskTwice(f.payload, key.value); }
    assert c.(phase := Header) == c && Frame(f.fin, f.opcode, f.payload) == f;
  }

  /** A whole frame at the front of the buffer reaches `Handle` unmasked. */
  lemma {:induction false} FrameDrains(cfg: Config, c: Conn, f: Frame, key: Option<Bytes>, rest: Bytes)
    requires Carried(cfg, f, key) && c.status.Open? && c.phase.Header?
    ensures var (c', events) := Handle(cfg, c, f);
            Drain(Session(cfg), c, FrameBytes(f, key) + rest) ==
            Prefixed(events, Drain(Session(cfg), c', rest))
  {
    hide Drain, Handle, Stable, HeaderBytes, Turn, XorMask;
    var s := Session(cfg);
    SessionStable(cfg);
    HeaderTurn(cfg, c, f, key);
    BodyTurn(cfg, c, f, key);
    var h, body := HeaderBytes(f, key), Masked(f.payload, key);
    var b := c.(phase := Body(f.fin, f.opcode, if key.Some? then key.value else [], |f.payload|));
    DrainTurn(s, c, h, body + rest);
    DrainTurn(s, b, body, rest);
    PrefixedUnit(Drain(s, b, body + rest));
    assert FrameBytes(f, key) + rest == h + (body + rest);
  }

  /** The octets of the extended length. */
  function LengthSize(n: nat): nat {
    if n < 126 then 0 else if n < 0x1_0000 then 2 else 8
  }

  /** Section 5.2, field by field: final flag and opcode, mask flag and length, extended length, key, and
      the payload, masked octet by octet. */
  lemma {:induction false} FrameLayout(f: Frame, key: Option<Bytes>)
    requires Encodable(f, key)
    ensures var b, n, e := FrameBytes(f, key), |f.payload|, 2 + LengthSize(|f.payload|);
            var m := if key.Some? then 4 else 0;
            && |b| == e + m + n
            && b[0] == (if f.fin then 128 else 0) + f.opcode
            && b[1] == (if key.Some? then 128 else 0) + (if n < 126 then n else if n < 0x1_0000 then 126 else 127)
            && (n >= 126 ==> FromBE(b[2..e]) == n)
            && (key.Some? ==> b[e..e + 4] == key.value)
            && b[e + m..] == Masked(f.payload, key)
    ensures key.Some? ==> forall i: nat, k: nat | i < |f.payload| ::
              Bit(Masked(f.payload, key)[i], k) <==> Bit(f.payload[i], k) != Bit(key.value[i % 4], k)
    ensures key.None? ==> Masked(f.payload, key) == f.payload
  {
    hide FromBE, ToBE, Bit, XorMask;
    var n := |f.payload|;
    var (marker, ext) := LengthField(n);
    var k := if key.Some? then key.value else [];
    var body := Masked(f.payload, key);
    var b, e := FrameBytes(f, key), 2 + |ext|;
    LengthForm(n);
    HeaderSlices((if f.fin then 128 else 0) + f.opcode, (if key.Some? then 128 else 0) + marker, ext, k);
    assert b[2..e] == ext && b[e..e + |k|] == k && b[e + |k|..] == body;
    if key.Some? {
      forall i: nat, j: nat | i < n
        ensures Bit(body[i], j) <==> Bit(f.payload[i], j) != Bit(key.value[i % 4], j)
      {
        XorMaskBits(f.payload, key.value, i, j);
      }
    }
  }

  lemma {:induction false} LengthForm(n: nat)
    requires n < 0x1_0000_0000_0000_0000
    ensures LengthField(n).0 == if n < 126 then n else if n < 0x1_0000 then 126 else 127
    ensures |LengthField(n).1| == LengthSize(n)
  {
    hide ToBE, FromBE;
  }

  /** A masked frame of zero octets shows its key, repeated. */
  lemma {:induction false} ZerosShowKey(f: Frame, key: Bytes, i: nat)
    requires Encodable(f, Some(key)) && i < |f.payload| && forall j | 0 <= j < |f.payload| :: f.payload[j] == 0
    ensures FrameBytes(f, Some(key))[|FrameBytes(f, Some(key))| - |f.payload| + i] == key[i % 4]
  {
    hide HeaderBytes, XorByte;
    XorByteZero(key[i % 4]);
    var b, n := FrameBytes(f, Some(key)), |f.payload|;
    assert b[|b| - n + i] == XorMask(f.payload, key)[i];
  }

  /** What the header checks refuse: a reserved bit, the wrong mask flag, and, once the whole header is
      there, a length of 63 bits or more, a fragmented or long control frame, or a length over the limit. */
  lemma {:induction false} HeaderRefused(cfg: Config, buf: Bytes)
    ensures ParseHeader(cfg, buf).Bad? <==>
            |buf| >= 2 &&
            (Bit(buf[0], 4) || Bit(buf[0], 5) || Bit(buf[0], 6) || Bit(buf[1], 7) != cfg.expectMasked ||
             var marker := buf[1] % 128;
             var e := if marker == 126 then 4 else if marker == 127 then 10 else 2;
             |buf| >= e + (if Bit(buf[1], 7) then 4 else 0) &&
             var len := if marker < 126 then marker else FromBE(buf[2..e]);
             (marker == 127 && len >= 0x8000_0000_0000_0000)
             || (Bit(buf[0], 3) && (!Bit(buf[0], 7) || len > 125)) || len > cfg.maxFrame)
  {
    hide FromBE;
    if |buf| >= 2 {
      Reserved(buf[0]);
      TopBits(buf[0]);
      TopBits(buf[1]);
    }
  }

  /** What it reads otherwise, minimal length form or not: final flag, opcode, the length of its form and the
      key behind it; and it waits while the two octets, and then their form, are incomplete. */
  lemma {:induction false} HeaderReads(cfg: Config, buf: Bytes)
    requires !ParseHeader(cfg, buf).Bad?
    ensures |buf| < 2 ==> ParseHeader(cfg, buf).Wait?
    ensures |buf| >= 2 ==>
              var marker, masked := buf[1] % 128, Bit(buf[1], 7);
              var e := if marker == 126 then 4 else if marker == 127 then 10 else 2;
              var size := e + if masked then 4 else 0;
              ParseHeader(cfg, buf) ==
              if |buf| < size then Wait
              else Good(size, Body(Bit(buf[0], 7), buf[0] % 16, if masked then buf[e..size] else [],
                                   if marker < 126 then marker else FromBE(buf[2..e])))
  {
    hide FromBE;
    if |buf| >= 2 {
      TopBits(buf[0]);
      TopBits(buf[1]);
    }
  }

  lemma {:induction false} Reserved(b: byte)
    ensures Bit(b, 4) || Bit(b, 5) || Bit(b, 6) <==> b / 16 % 8 != 0
  {
    hide Bit, Pow2;
    Powers();
    BitIsDigit(b, 4);
    BitIsDigit(b, 5);
    BitIsDigit(b, 6);
  }

  lemma {:induction false} TopBits(b: byte)
    ensures Bit(b, 7) <==> b >= 0x80
    ensures Bit(b, 3) <==> b % 16 >= 8
  {
    hide Bit, Pow2;
    Powers();
    BitIsDigit(b, 7);
    BitIsDigit(b, 3);
  }

  lemma {:induction false} Powers()
    ensures Pow2(3) == 8 && Pow2(4) == 16 && Pow2(5) == 32 && Pow2(6) == 64 && Pow2(7) == 128
  {
  }

  // ---- The writer -----------------------------------------------------------------------------

  /** `keys(k)` is the k-th masking key drawn. */
  datatype Writer = Writer(masked: bool, maxFrame: nat, keys: nat -> Bytes)

  function Key(w: Writer, k: nat): (r: Option<Bytes>)
    ensures r.Some? == w.masked && (r.Some? ==> |r.value| == 4)
  {
    if !w.masked then None
    else if |w.keys(k)| == 4 then Some(w.keys(k))
    else Some([0, 0, 0, 0])
  }

  /** `write_frame`; `None` when it raises. */
  function WriteFrame(w: Writer, k: nat, opcode: nat, payload: Bytes): Option<(nat, seq<Bytes>)>
    requires opcode < 16
  {
    if |payload| > w.maxFrame then None
    else if opcode >= 8 && (|payload| > 125 || opcode > 10) then None
    else if |payload| >= 0x1_0000_0000_0000_0000 then None
    else Some((if w.masked then k + 1 else k, [FrameBytes(Frame(true, opcode, payload), Key(w, k))]))
  }

  /** What the frame writer refuses: a payload over the limit or over eight length octets, a control frame
      that is long or of an unknown kind. */
  lemma {:induction false} WriterRefuses(w: Writer, k: nat, opcode: nat, payload: Bytes)
    requires opcode < 16
    ensures WriteFrame(w, k, opcode, payload).None? <==>
            |payload| > w.maxFrame || |payload| >= 0x1_0000_0000_0000_0000
            || (opcode >= 8 && (|payload| > 125 || opcode !in {8, 9, 10}))
  {
  }

  /** Otherwise it makes one raw write of one final frame, octet by octet: the masking key is the next one drawn
      and is used up, and octet i of the payload meets its octet i modulo 4. */
  lemma {:induction false} WriterLayout(w: Writer, k: nat, opcode: nat, payload: Bytes)
    requires opcode < 16 && WriteFrame(w, k, opcode, payload).Some? && |w.keys(k)| == 4
    ensures var (next, raw) := WriteFrame(w, k, opcode, payload).value;
            var n := |payload|;
            var e := 2 + LengthSize(n);
            var m := if w.masked then 4 else 0;
            && next == (if w.masked then k + 1 else k) && |raw| == 1
            && var b := raw[0];
               && |b| == e + m + n && b[0] == 128 + opcode
               && b[1] == (if w.masked then 128 else 0) + (if n < 126 then n else if n < 0x1_0000 then 126 else 127)
               && (n >= 126 ==> FromBE(b[2..e]) == n)
               && (w.masked ==> b[e..e + 4] == w.keys(k))
               && forall i: nat, j: nat | i < n ::
                    Bit(b[e + m + i], j) <==> Bit(payload[i], j) != (w.masked && Bit(w.keys(k)[i % 4], j))
  {
    hide FrameBytes, FromBE, Bit, Masked;
    FrameLayout(Frame(true, opcode, payload), Key(w, k));
    var b := WriteFrame(w, k, opcode, payload).value.1[0];
    var at := 2 + LengthSize(|payload|) + if w.masked then 4 else 0;
    forall i: nat, j: nat | i < |payload|
      ensures Bit(b[at + i], j) <==> Bit(payload[i], j) != (w.masked && Bit(w.keys(k)[i % 4], j))
    {
      assert b[at..][i] == b[at + i];
    }
  }

  /** `write`: one binary message per call, nothing for empty data. */
  function Write(w: Writer, k: nat, data: Bytes): Option<(nat, seq<Bytes>)> {
    if data == [] then Some((k, [])) else WriteFrame(w, k, 2, data)
  }

  /** A message goes out as one frame that is final and binary, its first octet 82, or as none if it is empty. */
  lemma {:induction false} WritesBinary(w: Writer, k: nat, data: Bytes)
    requires |w.keys(k)| == 4 && Write(w, k, data).Some?
    ensures var (next, raw) := Write(w, k, data).value;
            if data == [] then next == k && raw == []
            else |raw| == 1 && raw[0] != [] && raw[0][0] == 0x82 && WriteFrame(w, k, 2, data) == Some((next, raw))
  {
    if data != [] { WriterLayout(w, k, 2, data); }
  }

  /** The writer as far as its peer's limits allow. */
  function Sender(w: Writer, peer: Config): Encoder<nat> {
    Encoder((k: nat, data: Bytes) =>
              if |data| > peer.maxFrame || |data| > peer.maxMessage || |data| >= 0x8000_0000_0000_0000 then None
              else Write(w, k, data))
  }

  function AsMessage(data: Bytes): seq<Event> {
    if data == [] then [] else [Message(data)]
  }

  predicate BetweenFrames(k: nat, st: (Conn, Bytes)) {
    st.0.phase.Header? && st.0.messageOpcode.None? && st.0.message == [] && st.0.status.Open? && st.1 == []
  }

  /** Every written message comes out as one message with the same bytes. */
  lemma {:induction false} WriterInverts(w: Writer, peer: Config)
    requires w.masked == peer.expectMasked
    ensures Lawful(Framed(Session(peer)))
    ensures Inverts(Sender(w, peer), Framed(Session(peer)), BetweenFrames, AsMessage)
  {
    var e, d := Sender(w, peer), Framed(Session(peer));
    SessionStable(peer);
    FramedLawful(Session(peer));
    forall k, st, data | BetweenFrames(k, st) && e.write(k, data).Some?
      ensures Undone(e.write(k, data).value, d, st, BetweenFrames, AsMessage(data))
    {
      if data == [] {
        assert d.feed(st, []) == Some((st, []));
      } else {
        MessageDrains(w, peer, k, st.0, data);
        FlattenOne(FrameBytes(Frame(true, 2, data), Key(w, k)));
        assert [] + FrameBytes(Frame(true, 2, data), Key(w, k)) == FrameBytes(Frame(true, 2, data), Key(w, k));
      }
    }
    forall k, st | BetweenFrames(k, st)
      ensures d.ready(st)
    {
    }
  }

  lemma {:induction false} MessageDrains(w: Writer, peer: Config, k: nat, c: Conn, data: Bytes)
    requires w.masked == peer.expectMasked && BetweenFrames(k, (c, []))
    requires data != [] && Sender(w, peer).write(k, data).Some?
    ensures Drain(Session(peer), c, FrameBytes(Frame(true, 2, data), Key(w, k))) == Some(((c, []), [Message(data)]))
  {
    var f, key := Frame(true, 2, data), Key(w, k);
    assert Carried(peer, f, key);
    FrameDrains(peer, c, f, key, []);
    assert FrameBytes(f, key) + [] == FrameBytes(f, key);
    assert [] + data == data;
    assert Handle(peer, c, f) == (c, [Message(data)]);
    assert Drain(Session(peer), c, []) == Some(((c, []), []));
    assert [Message(data)] + [] == [Message(data)];
  }

  /** Round trip over the reader as written: any writes within the limits, any masking keys and any
      chunking of the wire give exactly the written messages in order. */
  lemma {:induction false} RoundTrip(w: Writer, peer: Config, writes: seq<Bytes>, chunks: seq<Bytes>)
    requires w.masked == peer.expectMasked
    requires WriteAll(Sender(w, peer), 0, writes).Some?
    requires Flatten(chunks) <= Flatten(WriteAll(Sender(w, peer), 0, writes).value.1)
    ensures var events := FeedAll(peer, (FRESH, []), chunks);
            && !Ended(events) && events <= Views(AsMessage, writes)
            && (Flatten(chunks) == Flatten(WriteAll(Sender(w, peer), 0, writes).value.1) ==>
                  events == Views(AsMessage, writes))
  {
    WriterInverts(w, peer);
    Delivery(Sender(w, peer), Framed(Session(peer)), BetweenFrames, AsMessage, 0, (FRESH, []), writes, chunks);
    FeedAllAgrees(peer, FRESH, [], chunks);
    var events := FeedAll(peer, (FRESH, []), chunks);
    ViewsNeverEnd(writes);
    NotEnded(events, Views(AsMessage, writes));
  }

  lemma {:induction false} ViewsNeverEnd(writes: seq<Bytes>)
    ensures !Ended(Views(AsMessage, writes))
  {
    if writes != [] {
      ViewsNeverEnd(writes[1..]);
      EndedAppend(AsMessage(writes[0]), Views(AsMessage, writes[1..]));
    }
  }

  lemma {:induction false} NotEnded(events: seq<Event>, all: seq<Event>)
    requires UpToEnd(events) <= all && !Ended(all)
    ensures !Ended(events) && UpToEnd(events) == events
    decreases |events|
  {
    if events != [] {
      assert UpToEnd(events)[0] == events[0] == all[0];
      assert events[0] in all;
      assert UpToEnd(events)[1..] == UpToEnd(events[1..]);
      assert UpToEnd(events[1..]) <= all[1..];
      assert !Ended(all[1..]);
      NotEnded(events[1..], all[1..]);
      EndedAppend([events[0]], events[1..]);
      assert [events[0]] + events[1..] == events;
    }
  }
}
