/** The `WebSocketStream` object and its masking loop. */
module WebSocketObjects {
  import opened Bits
  import opened ByteStrings
  import opened Incremental
  import opened Framing
  import opened WebSocket
  import W = WebSocketWire

  /** `xor_mask_bytes`: masks a copy of the data in place. */
  method XorMaskBytes(data: Bytes, key: Bytes) returns (r: Bytes)
    requires |key| == 4
    ensures r == XorMask(data, key)
    ensures forall i: nat, n: nat | i < |data| :: Bit(r[i], n) <==> Bit(data[i], n) != Bit(key[i % 4], n)
  {
    hide Bit;
    var masked := new byte[|data|](i requires 0 <= i < |data| => data[i]);
    for i := 0 to |data|
      invariant forall j | 0 <= j < i :: masked[j] == XorByte(data[j], key[j % 4])
      invariant forall j | i <= j < |data| :: masked[j] == data[j]
    {
      masked[i] := XorByte(masked[i], key[i % 4]);
    }
    r := masked[..];
    forall i: nat, n: nat | i < |data|
      ensures Bit(r[i], n) <==> Bit(data[i], n) != Bit(key[i % 4], n)
    {
      XorMaskBits(data, key, i, n);
    }
  }

  class WebSocketStream {
    const config: Config
    const writer: W.Writer
    var dataLen: Option<nat>
    var maskKey: Bytes
    var opcode: nat
    var fin: bool
    var buffer: Bytes
    var messageOpcode: Option<nat>
    var messageBuffer: Bytes
    var closed: bool
    var closeSent: bool
    var keysDrawn: nat
    /** The call under way has raised. */
    var raised: bool
    /** Everything the callbacks were told, in order. */
    ghost var events: seq<Event>

    constructor (config: Config, writer: W.Writer)
      ensures this.config == config && this.writer == writer
      ensures Valid() && State() == FRESH && buffer == [] && events == []
    {
      this.config, this.writer := config, writer;
      dataLen, maskKey, opcode, fin, buffer := None, [], 0, false, [];
      messageOpcode, messageBuffer, closed, closeSent := None, [], false, false;
      keysDrawn, raised, events := 0, false, [];
    }

    ghost predicate Valid()
      reads this
    {
      (raised ==> closed) && opcode < 16 && (|maskKey| == 0 || |maskKey| == 4)
    }

    ghost function State(): Conn
      reads this
    {
      Conn(if dataLen.None? then Header else Body(fin, opcode, maskKey, dataLen.value),
           messageOpcode, messageBuffer, closeSent,
           if raised then Broken else if closed then Shut else Open)
    }

    method Raise()
      requires Valid()
      modifies this`closed, this`raised, this`events
      ensures Valid() && raised && closed && events == old(events) + [Failed]
    {
      closed, raised := true, true;
      events := events + [Failed];
    }

    method EmitMessage(payload: Bytes)
      requires Valid() && !raised
      modifies this`closed, this`raised, this`events, this`messageOpcode, this`messageBuffer
      ensures Valid()
      ensures var (c, out) := Emit(config, old(State()), Frame(fin, opcode, payload));
              State() == c && events == old(events) + out
    {
      if |messageBuffer| + |payload| > config.maxMessage {
        Raise();
        return;
      }
      messageBuffer := messageBuffer + payload;
      if fin {
        events := events + [Message(messageBuffer)];
        messageBuffer := [];
        messageOpcode := None;
      }
    }

    method HandleFrame(payload: Bytes)
      requires Valid() && !raised
      modifies this`closed, this`raised, this`events, this`messageOpcode, this`messageBuffer, this`closeSent
      ensures Valid()
      ensures var (c, out) := Handle(config, old(State()), Frame(fin, opcode, payload));
              State() == c && events == old(events) + out
    {
      hide Emit;
      if opcode == 0 {
        if messageOpcode.None? {
          Raise();
        } else {
          EmitMessage(payload);
        }
      } else if opcode == 1 || opcode == 2 {
        if messageOpcode.Some? {
          Raise();
        } else {
          messageOpcode := Some(opcode);
          EmitMessage(payload);
        }
      } else if opcode == 9 {
        events := events + [Pong(payload)];
      } else if opcode == 8 {
        if !closeSent {
          events := events + [CloseReply(payload)];
          closeSent := true;
        }
        closed := true;
        events := events + [Closed(payload)];
      } else if opcode != 10 {
        Raise();
      }
    }

    /** The header half of the loop body; false when more input is needed or the header was refused. */
    method ReadHeader() returns (complete: bool)
      requires Valid() && !raised && dataLen.None?
      modifies this`closed, this`raised, this`events, this`fin, this`opcode, this`maskKey, this`dataLen, this`buffer
      ensures Valid()
      ensures match ParseHeader(config, old(buffer))
              case Wait => !complete && State() == old(State()) && buffer == old(buffer) && events == old(events)
              case Bad => !complete && raised && State().phase.Header? && events == old(events) + [Failed]
              case Good(size, body) =>
                && complete && State() == old(State()).(phase := body)
                && buffer == old(buffer)[size..] && events == old(events)
    {
      hide FromBE, Handle;
      if |buffer| < 2 { return false; }
      var first, second := buffer[0], buffer[1];
      if first / 16 % 8 != 0 { Raise(); return false; }
      var masked, marker := second >= 0x80, second % 128;
      if masked != config.expectMasked { Raise(); return false; }
      var extension := if marker == 126 then 2 else if marker == 127 then 8 else 0;
      var size := 2 + extension + if masked then 4 else 0;
      if |buffer| < size { return false; }
      var len := if marker < 126 then marker else FromBE(buffer[2..2 + extension]);
      if marker == 127 && len >= 0x8000_0000_0000_0000 { Raise(); return false; }
      if first % 16 >= 8 && (first < 0x80 || len > 125) { Raise(); return false; }
      if len > config.maxFrame { Raise(); return false; }
      fin, opcode := first >= 0x80, first % 16;
      maskKey := if masked then buffer[size - 4..size] else [];
      dataLen := Some(len);
      buffer := buffer[size..];
      return true;
    }

    /** The payload half of the loop body. */
    method ReadBody()
      requires Valid() && !raised && dataLen.Some? && |buffer| >= dataLen.value
      modifies this`closed, this`raised, this`events, this`messageOpcode, this`messageBuffer, this`closeSent,
               this`dataLen, this`buffer
      ensures Valid()
      ensures Turn(config, old(State()), old(buffer)).Next?
      ensures var n := Turn(config, old(State()), old(buffer));
              State() == n.state && events == old(events) + n.out
              && n.used <= |old(buffer)| && buffer == old(buffer)[n.used..]
    {
      var payload := buffer[..dataLen.value];
      if maskKey != [] {
        payload := XorMaskBytes(payload, maskKey);
      }
      buffer := buffer[dataLen.value..];
      dataLen := None;
      HandleFrame(payload);
    }

    /** The loop of `feed_data`, until input runs out or a check raises. */
    method ProcessFrames()
      requires Valid() && !raised
      modifies this
      ensures Valid() && Drain(Loop(config), old(State()), old(buffer)).Some?
      ensures var (t, out) := Drain(Loop(config), old(State()), old(buffer)).value;
              && events == old(events) + out && State().status == t.0.status
              && (!raised ==> (State(), buffer) == t)
    {
      hide Drain, Stable, Turn, ParseHeader, Prefixed, FromBE;
      ghost var f, all := Loop(config), Drain(Loop(config), State(), buffer);
      ghost var out: seq<Event> := [];
      PrefixedUnit(all);
      while true
        invariant Valid() && !raised && events == old(events) + out
        invariant all == Prefixed(out, Drain(f, State(), buffer))
        decreases |buffer|, Rank(State())
      {
        if dataLen.None? {
          ghost var s, b := State(), buffer;
          HeaderTurns(config, s, b);
          var complete := ReadHeader();
          if !complete {
            if !raised {
              Finished(f, out, s, b);
              return;
            }
            Advance(config, all, out, s, b);
            Finished(f, out + [Failed], Refuse(s).0, b);
            return;
          }
          Advance(config, all, out, s, b);
          assert out + [] == out;
        }
        if |buffer| < dataLen.value {
          BodyWaits(config, State(), buffer);
          Finished(f, out, State(), buffer);
          return;
        }
        ghost var n := Turn(config, State(), buffer);
        BodyTurns(config, State(), buffer);
        Advance(config, all, out, State(), buffer);
        ReadBody();
        out := out + n.out;
        if raised {
          Finished(f, out, State(), buffer);
          return;
        }
      }
    }

    /** Feeds one chunk; the session state, the retained input and the reported events are those of
        `Feed`. */
    method FeedData(data: Bytes)
      requires Valid()
      modifies this
      ensures Valid()
      ensures var (t, out) := Feed(config, (old(State()), old(buffer)), data);
              && events == old(events) + out && State().status == t.0.status
              && (!raised ==> (State(), buffer) == t)
    {
      if closed { return; }
      buffer := buffer + data;
      ProcessFrames();
    }

    /** `write` with the next masking key; `None` when it raises. */
    method Write(data: Bytes) returns (raw: Option<seq<Bytes>>)
      modifies this`keysDrawn
      ensures match W.Write(writer, old(keysDrawn), data)
              case None => raw == None
              case Some((k, out)) => raw == Some(out) && keysDrawn == k
    {
      if data == [] { return Some([]); }
      if |data| > writer.maxFrame || |data| >= 0x1_0000_0000_0000_0000 { return None; }
      var key := W.Key(writer, keysDrawn);
      var frame := W.FrameBytes(Frame(true, 2, data), key);
      if writer.masked { keysDrawn := keysDrawn + 1; }
      return Some([frame]);
    }
  }

  lemma {:induction false} Finished(f: Framer<Conn, Event>, out: seq<Event>, s: Conn, buf: Bytes)
    requires f.step(s, buf).More?
    ensures Prefixed(out, Drain(f, s, buf)) == Some(((s, buf), out))
  {
    assert out + [] == out;
  }

  lemma {:induction false} HeaderTurns(cfg: Config, s: Conn, buf: Bytes)
    requires s.phase.Header?
    ensures Turn(cfg, s, buf) ==
            match ParseHeader(cfg, buf)
            case Wait => More
            case Bad => Next(Refuse(s).0, 0, Refuse(s).1)
            case Good(size, body) => Next(s.(phase := body), size, [])
  {
    hide ParseHeader;
  }

  lemma {:induction false} BodyWaits(cfg: Config, s: Conn, buf: Bytes)
    requires s.phase.Body? && |buf| < s.phase.len
    ensures Turn(cfg, s, buf).More?
  {
  }

  lemma {:induction false} BodyTurns(cfg: Config, s: Conn, buf: Bytes)
    requires s.phase.Body? && |buf| >= s.phase.len
    ensures Turn(cfg, s, buf).Next?
  {
  }

  lemma {:induction false} Advance(
    cfg: Config, all: Option<((Conn, Bytes), seq<Event>)>, out: seq<Event>, s: Conn, buf: Bytes)
    requires s.status.Open? || s.status.Shut?
    requires Turn(cfg, s, buf).Next? && all == Prefixed(out, Drain(Loop(cfg), s, buf))
    ensures var n := Turn(cfg, s, buf);
            && n.used <= |buf| && (n.used == 0 ==> Rank(n.state) < Rank(s))
            && all == Prefixed(out + n.out, Drain(Loop(cfg), n.state, buf[n.used..]))
  {
    var n := Turn(cfg, s, buf);
    SessionStable(cfg);
    DrainStep(Loop(cfg), s, buf);
    PrefixedTwice(out, n.out, Drain(Loop(cfg), n.state, buf[n.used..]));
  }
}
