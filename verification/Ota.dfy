/** Shadowsocks one-time authentication: length, truncated HMAC and payload per chunk, keyed by the
    chunk number, installed on a stream that is already flowing. */
module Ota {
  import opened ByteStrings
  import opened Incremental
  import opened Framing
  import A = StreamAdapter

  /** `mac` is HMAC-SHA1, `iv` the vector of the cipher session of this direction. */
  datatype Auth = Auth(iv: Bytes, mac: (Bytes, Bytes) -> Bytes)

  ghost predicate LongMac(a: Auth) {
    forall k, m :: |a.mac(k, m)| >= 10
  }

  const CHUNK_IDS: nat := 0x1_0000_0000

  function Checksum(a: Auth, id: nat, payload: Bytes): Bytes
    requires id < CHUNK_IDS
  {
    FourBytes(id);
    var d := a.mac(a.iv + ToBE(id, 4), payload);
    if |d| < 10 then d else d[..10]
  }

  datatype Chunk = Chunk(id: nat, dataLen: Option<nat>)

  /** Chunk numbers past four bytes raise on both sides. */
  function ReadTurn(a: Auth, st: Chunk, buf: Bytes): Step<Chunk, byte> {
    match st.dataLen
    case None =>
      if |buf| < 2 then More else Next(Chunk(st.id, Some(FromBE(buf[..2]))), 2, [])
    case Some(n) =>
      if |buf| < 10 + n then More
      else if st.id >= CHUNK_IDS then Fail
      else
        var payload := buf[10..10 + n];
        if buf[..10] == Checksum(a, st.id, payload) then Next(Chunk(st.id + 1, None), 10 + n, payload)
        else Fail
  }

  function Reader(a: Auth): Framer<Chunk, byte> {
    Framer((st: Chunk, buf: Bytes) => ReadTurn(a, st, buf), (st: Chunk) => 0)
  }

  lemma {:induction false} ReaderStable(a: Auth)
    ensures Stable(Reader(a))
  {
    var f := Reader(a);
    forall st, buf, x | !f.step(st, buf).More?
      ensures f.step(st, buf + x) == f.step(st, buf)
    {
      match st.dataLen
      case None =>
        assert (buf + x)[..2] == buf[..2];
      case Some(n) =>
        assert (buf + x)[..10] == buf[..10] && (buf + x)[10..10 + n] == buf[10..10 + n];
    }
  }

  function WriteChunk(a: Auth, id: nat, data: Bytes): Option<(nat, seq<Bytes>)> {
    if data == [] then Some((id, []))
    else if id >= CHUNK_IDS || |data| >= 0x1_0000 then None
    else
      TwoBytes(|data|);
      Some((id + 1, [ToBE(|data|, 2) + Checksum(a, id, data) + data]))
  }

  function Writer(a: Auth): Encoder<nat> {
    Encoder((id: nat, data: Bytes) => WriteChunk(a, id, data))
  }

  predicate LockStep(id: nat, st: (Chunk, Bytes)) {
    st == (Chunk(id, None), [])
  }

  lemma {:induction false} LengthTurn(a: Auth, id: nat, head: Bytes)
    requires |head| == 2
    ensures ReadTurn(a, Chunk(id, None), head) == Next(Chunk(id, Some(FromBE(head))), 2, [])
  {
    hide FromBE;
    assert head[..2] == head;
  }

  lemma {:induction false} BodyTurn(a: Auth, id: nat, data: Bytes)
    requires LongMac(a) && id < CHUNK_IDS
    ensures var body := Checksum(a, id, data) + data;
            ReadTurn(a, Chunk(id, Some(|data|)), body) == Next(Chunk(id + 1, None), |body|, data)
  {
    hide FromBE, ToBE;
    var sum := Checksum(a, id, data);
    var body := sum + data;
    assert |sum| == 10;
    assert body[..10] == sum && body[10..10 + |data|] == data;
  }

  lemma {:induction false} ReaderWaits(a: Auth, id: nat)
    ensures Drain(Reader(a), Chunk(id, None), []) == Some(((Chunk(id, None), []), []))
  {
  }

  lemma {:induction false} ChunkRead(a: Auth, id: nat, data: Bytes)
    requires LongMac(a) && data != [] && WriteChunk(a, id, data).Some?
    ensures Drain(Reader(a), Chunk(id, None), WriteChunk(a, id, data).value.1[0]) ==
            Some(((Chunk(id + 1, None), []), data))
  {
    hide ReadTurn, Checksum, LongMac, Stable, Drain, ToBE;
    var f := Reader(a);
    ReaderStable(a);
    TwoBytes(|data|);
    BERoundTrip(|data|, 2);
    LengthTurn(a, id, ToBE(|data|, 2));
    BodyTurn(a, id, data);
    ReaderWaits(a, id + 1);
    var head, body := ToBE(|data|, 2), Checksum(a, id, data) + data;
    DrainTurn(f, Chunk(id, None), head, body);
    DrainTurn(f, Chunk(id, Some(|data|)), body, []);
    assert head + Checksum(a, id, data) + data == head + body;
    assert body + [] == body;
    assert [] + (data + []) == data;
  }

  /** The reader undoes the writer chunk by chunk, with equal chunk numbers, under any chunking. */
  lemma {:induction false} OtaInverts(a: Auth)
    requires LongMac(a)
    ensures Lawful(Framed(Reader(a)))
    ensures Inverts(Writer(a), Framed(Reader(a)), LockStep, Same)
  {
    var e, d := Writer(a), Framed(Reader(a));
    ReaderStable(a);
    FramedLawful(Reader(a));
    forall id, st, data | LockStep(id, st) && e.write(id, data).Some?
      ensures Undone(e.write(id, data).value, d, st, LockStep, Same(data))
    {
      if data == [] {
        assert d.feed(st, []) == Some((st, []));
      } else {
        ChunkRead(a, id, data);
        var raw := WriteChunk(a, id, data).value.1;
        assert raw == [raw[0]];
        FlattenOne(raw[0]);
        assert st.1 + raw[0] == raw[0];
      }
    }
  }

  // ---- The chunks on the wire -----------------------------------------------------------------

  /** A chunk is the big-endian length, the first ten bytes of the HMAC keyed by the vector and the
      four-byte chunk number, and the payload; a longer payload or number raises. */
  lemma {:induction false} ChunkLayout(a: Auth, id: nat, data: Bytes, n: Bytes)
    requires LongMac(a) && data != [] && |n| == 4 && (id < CHUNK_IDS ==> FromBE(n) == id)
    ensures WriteChunk(a, id, data) ==
            if id < 0x1_0000_0000 && |data| < 0x1_0000 then
              Some((id + 1, [[|data| / 256, |data| % 256] + a.mac(a.iv + n, data)[..10] + data]))
            else None
  {
    if id < CHUNK_IDS && |data| < 0x1_0000 {
      hide FromBE, ToBE;
      TwoBytes(|data|);
      FourBytes(id);
      BERoundTrip(id, 4);
      BEUnique(ToBE(id, 4), n);
    }
  }

  /** The chunks of some payloads, numbered from id on. */
  function Chunks(a: Auth, id: nat, payloads: seq<Bytes>): Option<Bytes>
    decreases |payloads|
  {
    if payloads == [] then Some([])
    else if id >= CHUNK_IDS || |payloads[0]| >= 0x1_0000 then None
    else
      match Chunks(a, id + 1, payloads[1..])
      case None => None
      case Some(rest) =>
        TwoBytes(|payloads[0]|);
        Some(ToBE(|payloads[0]|, 2) + Checksum(a, id, payloads[0]) + payloads[0] + rest)
  }

  /** Everything the reader delivers is authentic: accepted input is chunks of some payloads, with a part of
      another one behind them that is no whole chunk, and the payloads are what is delivered. */
  lemma {:induction false} DeliversAuthentic(a: Auth, id: nat, buf: Bytes) returns (payloads: seq<Bytes>)
    requires LongMac(a) && Drain(Reader(a), Chunk(id, None), buf).Some?
    ensures var ((st, left), out) := Drain(Reader(a), Chunk(id, None), buf).value;
            && out == Flatten(payloads) && st.id == id + |payloads|
            && Chunks(a, id, payloads).Some?
            && match st.dataLen
               case None => |left| < 2 && buf == Chunks(a, id, payloads).value + left
               case Some(n) =>
                 n < 0x1_0000 && |left| < 10 + n
                 && buf == Chunks(a, id, payloads).value + [n / 256, n % 256] + left
    decreases |buf|
  {
    hide LongMac, Drain, ToBE, FromBE, Checksum, ReadTurn, Reader, Chunks, Flatten;
    LengthDrain(a, id, buf);
    payloads := [];
    NoChunks(a, id);
    if |buf| >= 2 {
      var n := FromBE(buf[..2]);
      var rest := buf[2..];
      TwoBytesRead(buf);
      BodyDrain(a, id, n, rest);
      if |rest| >= 10 + n {
        var payload, more := rest[10..10 + n], rest[10 + n..];
        var tail := DeliversAuthentic(a, id + 1, more);
        payloads := [payload] + tail;
        OneMoreChunk(a, id, payload, tail);
        assert buf == [n / 256, n % 256] + Checksum(a, id, payload) + payload + more;
      }
    }
  }

  lemma {:induction false} NoChunks(a: Auth, id: nat)
    ensures Chunks(a, id, []) == Some([]) && Flatten<byte>([]) == []
  {
  }

  lemma {:induction false} OneMoreChunk(a: Auth, id: nat, payload: Bytes, tail: seq<Bytes>)
    requires id < CHUNK_IDS && |payload| < 0x1_0000 && Chunks(a, id + 1, tail).Some?
    ensures var n := |payload|;
            Chunks(a, id, [payload] + tail) ==
            Some([n / 256, n % 256] + Checksum(a, id, payload) + payload + Chunks(a, id + 1, tail).value)
    ensures Flatten([payload] + tail) == payload + Flatten(tail)
  {
    hide ToBE, Checksum;
    TwoBytes(|payload|);
    assert ([payload] + tail)[1..] == tail;
  }

  lemma {:induction false} LengthDrain(a: Auth, id: nat, buf: Bytes)
    ensures Drain(Reader(a), Chunk(id, None), buf) ==
            if |buf| < 2 then Some(((Chunk(id, None), buf), []))
            else Drain(Reader(a), Chunk(id, Some(FromBE(buf[..2]))), buf[2..])
  {
    hide Stable, Drain, FromBE;
    ReaderStable(a);
    DrainStep(Reader(a), Chunk(id, None), buf);
    if |buf| >= 2 { PrefixedUnit(Drain(Reader(a), Chunk(id, Some(FromBE(buf[..2]))), buf[2..])); }
  }

  lemma {:induction false} BodyDrain(a: Auth, id: nat, n: nat, buf: Bytes)
    ensures Drain(Reader(a), Chunk(id, Some(n)), buf) ==
            if |buf| < 10 + n then Some(((Chunk(id, Some(n)), buf), []))
            else if id < CHUNK_IDS && buf[..10] == Checksum(a, id, buf[10..10 + n]) then
              Prefixed(buf[10..10 + n], Drain(Reader(a), Chunk(id + 1, None), buf[10 + n..]))
            else None
  {
    hide Stable, Drain, Checksum;
    ReaderStable(a);
    DrainStep(Reader(a), Chunk(id, Some(n)), buf);
  }

  lemma {:induction false} TwoBytesRead(buf: Bytes)
    requires |buf| >= 2
    ensures var n := FromBE(buf[..2]); n < 0x1_0000 && buf[..2] == [n / 256, n % 256]
  {
    hide FromBE, ToBE;
    FromBEBound(buf[..2]);
    TwoBytes(0);
    var n := FromBE(buf[..2]);
    TwoBytes(n);
    BERoundTrip(n, 2);
    BEUnique(buf[..2], ToBE(n, 2));
  }

  /** And the chunks of any payloads, empty ones too, are accepted and delivered. */
  lemma {:induction false} ChunksDelivered(a: Auth, id: nat, payloads: seq<Bytes>)
    requires LongMac(a) && Chunks(a, id, payloads).Some?
    ensures Drain(Reader(a), Chunk(id, None), Chunks(a, id, payloads).value) ==
            Some(((Chunk(id + |payloads|, None), []), Flatten(payloads)))
    decreases |payloads|
  {
    hide ReadTurn, Checksum, LongMac, Stable, Drain, ToBE;
    if payloads == [] {
      ReaderWaits(a, id);
    } else {
      var f, data := Reader(a), payloads[0];
      ReaderStable(a);
      TwoBytes(|data|);
      BERoundTrip(|data|, 2);
      LengthTurn(a, id, ToBE(|data|, 2));
      BodyTurn(a, id, data);
      ChunksDelivered(a, id + 1, payloads[1..]);
      var head, body, rest := ToBE(|data|, 2), Checksum(a, id, data) + data, Chunks(a, id + 1, payloads[1..]).value;
      DrainTurn(f, Chunk(id, None), head, body + rest);
      DrainTurn(f, Chunk(id, Some(|data|)), body, rest);
      assert head + Checksum(a, id, data) + data + rest == head + (body + rest);
      var later := Flatten(payloads[1..]);
      assert [] + (data + later) == data + later;
    }
  }

  /** Authentication over a cipher adapter: delivery for any writes and any chunking of the wire. */
  lemma {:induction false} OtaOverAdapter<C(!new), P(!new), Q(!new)>(
    a: Auth, l: A.Layer<C, P, Q>, live: C -> bool, p: A.Pairing<C, P, Q>,
    out: A.Outbound<C, Q>, inn: A.Inbound<C, P>, writes: seq<Bytes>, chunks: seq<Bytes>)
    requires LongMac(a) && A.LayerInverts(l, live, p) && A.Paired(l, p, out, inn)
    requires WriteAll(PipeEncoder(A.Outward(l), Writer(a)), (out, 0), writes).Some?
    requires Flatten(chunks) <= Flatten(WriteAll(PipeEncoder(A.Outward(l), Writer(a)), (out, 0), writes).value.1)
    ensures var sent := Flatten(WriteAll(PipeEncoder(A.Outward(l), Writer(a)), (out, 0), writes).value.1);
            var got := Run(Pipe(A.Inward(l, live), Framed(Reader(a))), (inn, (Chunk(0, None), [])), chunks);
            && got.Some? && got.value.1 <= Flatten(writes)
            && (Flatten(chunks) == sent ==> got.value.1 == Flatten(writes))
  {
    hide A.LayerInverts, A.Paired, Lawful, Inverts, LongMac;
    var both := (x: (A.Outbound<C, Q>, nat), y: (A.Inbound<C, P>, (Chunk, Bytes))) =>
      A.Paired(l, p, x.0, y.0) && LockStep(x.1, y.1);
    var paired := (x: A.Outbound<C, Q>, y: A.Inbound<C, P>) => A.Paired(l, p, x, y);
    A.AdapterInverts(l, live, p);
    OtaInverts(a);
    PipeInverts(A.Outward(l), A.Inward(l, live), paired, Writer(a), Framed(Reader(a)), LockStep, Same, both);
    PipeLawful(A.Inward(l, live), Framed(Reader(a)));
    Delivery(PipeEncoder(A.Outward(l), Writer(a)), Pipe(A.Inward(l, live), Framed(Reader(a))), both, Same,
             (out, 0), (inn, (Chunk(0, None), [])), writes, chunks);
    ViewsSame(writes);
  }

  /** Switching the reader over in mid-stream: however many bytes of the authenticated part the
      decoder below had already stored (`early`) when this one was installed, and in whatever chunks
      the rest arrives, the payloads come out whole. */
  lemma {:induction false} SwitchOver<S(!new)>(
    a: Auth, below: Decoder<S, byte>, st: S, writes: seq<Bytes>, early: Bytes, late: seq<Bytes>)
    requires LongMac(a) && Lawful(below) && below.ready(st)
    requires WriteAll(Writer(a), 0, writes).Some? && Run(below, st, late).Some?
    requires early + Run(below, st, late).value.1 == Flatten(WriteAll(Writer(a), 0, writes).value.1)
    ensures var d := Framed(Reader(a));
            var start: (Chunk, Bytes) := (Chunk(0, None), []);
            && d.feed(start, early).Some?
            && var (s, first) := d.feed(start, early).value;
               var r := Run(Pipe(below, d), (st, s), late);
               r.Some? && first + r.value.1 == Flatten(writes)
  {
    var d := Framed(Reader(a));
    var start: (Chunk, Bytes) := (Chunk(0, None), []);
    OtaInverts(a);
    WriteAllUndone(Writer(a), d, LockStep, Same, 0, start, writes);
    ViewsSame(writes);
    AnyChunking(below, st, late);
    var mid := Run(below, st, late).value.1;
    assert d.feed(start, early + mid) == Then(d, d.feed(start, early), mid);
    var s := d.feed(start, early).value.0;
    assert d.ready(s);
    EarlyReturnHarmless(below, d, (st, s), Flatten(late));
    PipeLawful(below, d);
    AnyChunking(Pipe(below, d), (st, s), late);
  }

  // ---- The closures ---------------------------------------------------------------------------

  class OtaReader {
    const auth: Auth
    var chunkId: nat
    var dataLen: Option<nat>
    var buffer: Bytes

    constructor (a: Auth)
      ensures auth == a && chunkId == 0 && dataLen == None && buffer == []
    {
      auth, chunkId, dataLen, buffer := a, 0, None, [];
    }

    ghost function State(): Chunk
      reads this
    {
      Chunk(chunkId, dataLen)
    }

    method Decrypt(data: Bytes) returns (plain: Option<Bytes>)
      modifies this
      ensures match Drain(Reader(auth), old(State()), old(buffer) + data)
              case None => plain == None
              case Some(((st, rest), out)) => plain == Some(out) && State() == st && buffer == rest
    {
      hide Drain, Stable, Prefixed;
      ghost var f, all := Reader(auth), Drain(Reader(auth), State(), buffer + data);
      buffer := buffer + data;
      var ret: Bytes := [];
      PrefixedUnit(all);
      while true
        invariant all == Prefixed(ret, Drain(f, State(), buffer))
        decreases |buffer|
      {
        ReaderStable(auth);
        DrainStep(f, State(), buffer);
        ghost var turn, prev, got := f.step(State(), buffer), buffer, ret;
        if dataLen.None? {
          if |buffer| < 2 { break; }
          dataLen := Some(FromBE(buffer[..2]));
          buffer := buffer[2..];
        } else {
          var n := dataLen.value;
          if |buffer| < 10 + n { break; }
          var payload := buffer[10..10 + n];
          if chunkId >= CHUNK_IDS || buffer[..10] != Checksum(auth, chunkId, payload) {
            PrefixedOf<(Chunk, Bytes), byte>(ret, None);
            return None;
          }
          buffer := buffer[10 + n..];
          dataLen := None;
          chunkId := chunkId + 1;
          ret := ret + payload;
        }
        assert ret == got + turn.out;
        PrefixedTwice(got, turn.out, Drain(f, State(), buffer));
      }
      DrainStep(f, State(), buffer);
      PrefixedOf(ret, Some(((State(), buffer), [])));
      assert ret + [] == ret;
      return Some(ret);
    }
  }

  class OtaWriter {
    const auth: Auth
    var chunkId: nat

    constructor (a: Auth)
      ensures auth == a && chunkId == 0
    {
      auth, chunkId := a, 0;
    }

    method Write(data: Bytes) returns (raw: Option<seq<Bytes>>)
      modifies this
      ensures match WriteChunk(auth, old(chunkId), data)
              case None => raw == None
              case Some((id, out)) => raw == Some(out) && chunkId == id
    {
      if data == [] { return Some([]); }
      if chunkId >= CHUNK_IDS { return None; }
      var checksum := Checksum(auth, chunkId, data);
      chunkId := chunkId + 1;
      if |data| >= 0x1_0000 { return None; }
      TwoBytes(|data|);
      return Some([ToBE(|data|, 2) + checksum + data]);
    }
  }
}
