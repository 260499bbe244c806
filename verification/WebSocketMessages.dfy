/** Reassembly of fragmented messages (section 5.4 of RFC 6455) and the bounds a session keeps. */
module WebSocketMessages {
  import opened ByteStrings
  import opened Incremental
  import opened Framing
  import opened WebSocket
  import opened WebSocketWire

  // ---- From the wire to the frame list --------------------------------------------------------

  /** The handler over a list of frames, stopping at the first close or failure. */
  function HandleAll(cfg: Config, c: Conn, frames: seq<Frame>): (Conn, seq<Event>)
    decreases |frames|
  {
    if frames == [] || !c.status.Open? then (c, [])
    else
      var (c', events) := Handle(cfg, c, frames[0]);
      var (c'', more) := HandleAll(cfg, c', frames[1..]);
      (c'', events + more)
  }

  function Wire(frames: seq<Frame>, keys: seq<Option<Bytes>>): Bytes
    requires |frames| == |keys|
    requires forall i | 0 <= i < |frames| :: Encodable(frames[i], keys[i])
  {
    if frames == [] then [] else FrameBytes(frames[0], keys[0]) + Wire(frames[1..], keys[1..])
  }

  lemma {:induction false} WireDrains(cfg: Config, c: Conn, frames: seq<Frame>, keys: seq<Option<Bytes>>)
    requires |frames| == |keys| && c.phase.Header?
    requires forall i | 0 <= i < |frames| :: Encodable(frames[i], keys[i]) && Carried(cfg, frames[i], keys[i])
    ensures Drain(Session(cfg), c, Wire(frames, keys)) ==
            Some(((HandleAll(cfg, c, frames).0, []), HandleAll(cfg, c, frames).1))
    decreases |frames|
  {
    if !c.status.Open? {
      EndedIsSilent(cfg, c, Wire(frames, keys));
    } else if frames != [] {
      hide Drain, FrameBytes;
      FrameDrains(cfg, c, frames[0], keys[0], Wire(frames[1..], keys[1..]));
      HandleKeepsPhase(cfg, c, frames[0]);
      WireDrains(cfg, Handle(cfg, c, frames[0]).0, frames[1..], keys[1..]);
    }
  }

  lemma {:induction false} HandleKeepsPhase(cfg: Config, c: Conn, f: Frame)
    ensures Handle(cfg, c, f).0.phase == c.phase
  {
  }

  /** Frames of any kind cut into any chunks are handled one by one in order. */
  lemma {:induction false} FramesArrive(
    cfg: Config, frames: seq<Frame>, keys: seq<Option<Bytes>>, chunks: seq<Bytes>)
    requires |frames| == |keys|
    requires forall i | 0 <= i < |frames| :: Encodable(frames[i], keys[i]) && Carried(cfg, frames[i], keys[i])
    requires Flatten(chunks) == Wire(frames, keys)
    ensures UpToEnd(FeedAll(cfg, (FRESH, []), chunks)) == HandleAll(cfg, FRESH, frames).1
  {
    SessionStable(cfg);
    FramedLawful(Session(cfg));
    FeedAllAgrees(cfg, FRESH, [], chunks);
    AnyChunking(Framed(Session(cfg)), (FRESH, []), chunks);
    assert [] + Wire(frames, keys) == Wire(frames, keys);
    WireDrains(cfg, FRESH, frames, keys);
  }

  // ---- Declarative defragmentation ------------------------------------------------------------

  predicate IsData(f: Frame) { f.opcode <= 2 }

  /** Everything but close frames and unknown opcodes. */
  predicate Ordinary(f: Frame) { f.opcode <= 2 || f.opcode == 9 || f.opcode == 10 }

  function DataFrames(frames: seq<Frame>): seq<Frame> {
    if frames == [] then []
    else
      var last := frames[|frames| - 1];
      DataFrames(frames[..|frames| - 1]) + if IsData(last) then [last] else []
  }

  function PingPayloads(frames: seq<Frame>): seq<Bytes> {
    if frames == [] then []
    else
      var last := frames[|frames| - 1];
      PingPayloads(frames[..|frames| - 1]) + if last.opcode == 9 then [last.payload] else []
  }

  /** Data frame i goes on with the message of the data frame before it. */
  predicate Continues(ds: seq<Frame>, i: nat)
    requires i < |ds|
  {
    i > 0 && !ds[i - 1].fin
  }

  predicate WellFormed(ds: seq<Frame>) {
    forall i | 0 <= i < |ds| :: ds[i].opcode == 0 <==> Continues(ds, i)
  }

  /** The bytes of the message that data frame i belongs to, up to and including that frame. */
  function Assembled(ds: seq<Frame>, i: nat): Bytes
    requires i < |ds|
  {
    (if Continues(ds, i) then Assembled(ds, i - 1) else []) + ds[i].payload
  }

  predicate WithinLimit(cfg: Config, ds: seq<Frame>) {
    forall i | 0 <= i < |ds| :: |Assembled(ds, i)| <= cfg.maxMessage
  }

  /** One message per final data frame. */
  function Messages(ds: seq<Frame>): seq<Bytes> {
    if ds == [] then []
    else
      var n := |ds| - 1;
      Messages(ds[..n]) + if ds[n].fin then [Assembled(ds, n)] else []
  }

  function MessagesOf(events: seq<Event>): seq<Bytes> {
    if events == [] then []
    else (if events[0].Message? then [events[0].payload] else []) + MessagesOf(events[1..])
  }

  function PongsOf(events: seq<Event>): seq<Bytes> {
    if events == [] then []
    else (if events[0].Pong? then [events[0].payload] else []) + PongsOf(events[1..])
  }

  lemma {:induction false} NoEvent()
    ensures MessagesOf([]) == [] && PongsOf([]) == []
  {
  }

  lemma {:induction false} MessagesCons(e: Event, rest: seq<Event>)
    ensures MessagesOf([e] + rest) == (if e.Message? then [e.payload] else []) + MessagesOf(rest)
  {
    assert ([e] + rest)[1..] == rest;
  }

  lemma {:induction false} PongsCons(e: Event, rest: seq<Event>)
    ensures PongsOf([e] + rest) == (if e.Pong? then [e.payload] else []) + PongsOf(rest)
  {
    assert ([e] + rest)[1..] == rest;
  }

  lemma {:induction false} MessagesAppend(a: seq<Event>, b: seq<Event>)
    ensures MessagesOf(a + b) == MessagesOf(a) + MessagesOf(b)
  {
    hide MessagesOf;
    if a == [] {
      NoEvent();
      assert a + b == b;
    } else {
      var e, rest := a[0], a[1..];
      assert [e] + rest == a && [e] + (rest + b) == a + b;
      MessagesAppend(rest, b);
      MessagesCons(e, rest);
      MessagesCons(e, rest + b);
    }
  }

  lemma {:induction false} PongsAppend(a: seq<Event>, b: seq<Event>)
    ensures PongsOf(a + b) == PongsOf(a) + PongsOf(b)
  {
    hide PongsOf;
    if a == [] {
      NoEvent();
      assert a + b == b;
    } else {
      var e, rest := a[0], a[1..];
      assert [e] + rest == a && [e] + (rest + b) == a + b;
      PongsAppend(rest, b);
      PongsCons(e, rest);
      PongsCons(e, rest + b);
    }
  }

  lemma {:induction false} HandleAllSnoc(cfg: Config, c: Conn, frames: seq<Frame>, f: Frame)
    ensures var (m, events) := HandleAll(cfg, c, frames);
            HandleAll(cfg, c, frames + [f]) ==
            if m.status.Open? then (Handle(cfg, m, f).0, events + Handle(cfg, m, f).1) else (m, events)
    decreases |frames|
  {
    var all := frames + [f];
    if !c.status.Open? {
    } else if frames == [] {
      assert all == [f] && all[1..] == [];
      var (c', events) := Handle(cfg, c, f);
      assert HandleAll(cfg, c', []) == (c', []);
      assert events + [] == [] + events == events;
    } else {
      assert all[0] == frames[0] && all[1..] == frames[1..] + [f];
      var (c', events) := Handle(cfg, c, frames[0]);
      HandleAllSnoc(cfg, c', frames[1..], f);
      var (m, more) := HandleAll(cfg, c', frames[1..]);
      assert events + (more + Handle(cfg, m, f).1) == events + more + Handle(cfg, m, f).1;
    }
  }

  lemma {:induction false} AssembledPrefix(ds: seq<Frame>, f: Frame, i: nat)
    requires i < |ds|
    ensures Assembled(ds + [f], i) == Assembled(ds, i)
    ensures Continues(ds + [f], i) == Continues(ds, i)
  {
    if Continues(ds, i) { AssembledPrefix(ds, f, i - 1); }
  }

  lemma {:induction false} SnocConditions(cfg: Config, ds: seq<Frame>, f: Frame)
    ensures WellFormed(ds + [f]) <==>
              WellFormed(ds) && (f.opcode == 0 <==> ds != [] && !ds[|ds| - 1].fin)
    ensures WithinLimit(cfg, ds + [f]) <==>
              WithinLimit(cfg, ds) && |Assembled(ds + [f], |ds|)| <= cfg.maxMessage
  {
    var all := ds + [f];
    forall i | 0 <= i < |ds|
      ensures Assembled(all, i) == Assembled(ds, i) && Continues(all, i) == Continues(ds, i) && all[i] == ds[i]
    {
      AssembledPrefix(ds, f, i);
    }
    assert all[|ds|] == f && (Continues(all, |ds|) <==> ds != [] && !ds[|ds| - 1].fin);
    if WellFormed(all) {
      forall i | 0 <= i < |ds|
        ensures ds[i].opcode == 0 <==> Continues(ds, i)
      {
        assert all[i].opcode == 0 <==> Continues(all, i);
      }
      assert all[|ds|].opcode == 0 <==> Continues(all, |ds|);
    }
    if WithinLimit(cfg, all) {
      forall i | 0 <= i < |ds|
        ensures |Assembled(ds, i)| <= cfg.maxMessage
      {
        assert |Assembled(all, i)| <= cfg.maxMessage;
      }
    }
  }

  /** What the connection holds between frames: the unfinished message, if there is one. */
  predicate Holds(c: Conn, ds: seq<Frame>) {
    var open := ds != [] && !ds[|ds| - 1].fin;
    c.status.Open? && c.messageOpcode.Some? == open
    && c.message == if open then Assembled(ds, |ds| - 1) else []
  }

  lemma {:induction false} DataFramesSnoc(frames: seq<Frame>, f: Frame)
    ensures DataFrames(frames + [f]) == if IsData(f) then DataFrames(frames) + [f] else DataFrames(frames)
  {
    assert (frames + [f])[..|frames|] == frames;
    assert DataFrames(frames) + [] == DataFrames(frames);
  }

  lemma {:induction false} MessagesSnoc(ds: seq<Frame>, f: Frame)
    ensures Messages(ds + [f]) == Messages(ds) + if f.fin then [Assembled(ds + [f], |ds|)] else []
  {
    hide Assembled;
    assert (ds + [f])[..|ds|] == ds && (ds + [f])[|ds|] == f;
  }

  lemma {:induction false} PingsSnoc(frames: seq<Frame>, f: Frame)
    ensures PingPayloads(frames + [f]) == PingPayloads(frames) + if f.opcode == 9 then [f.payload] else []
  {
    assert (frames + [f])[..|frames|] == frames;
  }

  lemma {:induction false} ReassemblyNone(cfg: Config)
    ensures HandleAll(cfg, FRESH, []) == (FRESH, []) && Holds(FRESH, [])
    ensures DataFrames([]) == [] && PingPayloads([]) == [] && Messages([]) == []
    ensures WellFormed([]) && WithinLimit(cfg, [])
  {
  }

  lemma {:induction false} LastWithinLimit(cfg: Config, ds: seq<Frame>)
    requires WithinLimit(cfg, ds)
    ensures |ds| > 0 ==> |Assembled(ds, |ds| - 1)| <= cfg.maxMessage
  {
    hide Assembled;
  }

  /** Emitted messages are exactly the defragmentation of the data frames, with control frames
      interleaved anywhere; each ping is answered once, in order, with its own payload; and the
      session survives exactly when the fragments are well formed and within the limit. */
  lemma {:induction false} Reassembly(cfg: Config, frames: seq<Frame>)
    requires forall f | f in frames :: Ordinary(f)
    ensures var (c, events) := HandleAll(cfg, FRESH, frames);
            var ds := DataFrames(frames);
            && (c.status.Open? <==> WellFormed(ds) && WithinLimit(cfg, ds))
            && (c.status.Open? ==>
                  && Holds(c, ds)
                  && MessagesOf(events) == Messages(ds)
                  && PongsOf(events) == PingPayloads(frames))
    decreases |frames|
  {
    hide WellFormed, WithinLimit, Assembled, Holds, HandleAll, Handle, DataFrames, Messages, PingPayloads,
      MessagesOf, PongsOf;
    if frames == [] {
      ReassemblyNone(cfg);
      NoEvent();
    } else {
      var n := |frames| - 1;
      var before, f := frames[..n], frames[n];
      assert frames == before + [f] && Ordinary(f);
      Reassembly(cfg, before);
      HandleAllSnoc(cfg, FRESH, before, f);
      DataFramesSnoc(before, f);
      PingsSnoc(before, f);
      var (m, events) := HandleAll(cfg, FRESH, before);
      var ds := DataFrames(before);
      SnocConditions(cfg, ds, f);
      if m.status.Open? {
        LastWithinLimit(cfg, ds);
        LastFrame(cfg, m, ds, f);
        MessagesAppend(events, Handle(cfg, m, f).1);
        PongsAppend(events, Handle(cfg, m, f).1);
        MessagesSnoc(ds, f);
      }
    }
  }

  /** What is assembled with one more data frame. */
  lemma {:induction false} Grown(m: Conn, ds: seq<Frame>, f: Frame)
    requires Holds(m, ds)
    ensures Assembled(ds + [f], |ds|) == m.message + f.payload
  {
    var all := ds + [f];
    assert all[|ds|] == f;
    if |ds| > 0 { AssembledPrefix(ds, f, |ds| - 1); }
    assert [] + f.payload == f.payload;
  }

  lemma {:induction false} OneEvent(e: Event)
    ensures MessagesOf([e]) == if e.Message? then [e.payload] else []
    ensures PongsOf([e]) == if e.Pong? then [e.payload] else []
  {
    assert [e][1..] == [];
  }

  /** One more ordinary frame. */
  lemma {:induction false} LastFrame(cfg: Config, m: Conn, ds: seq<Frame>, f: Frame)
    requires Holds(m, ds) && Ordinary(f) && (|ds| > 0 ==> |Assembled(ds, |ds| - 1)| <= cfg.maxMessage)
    ensures var (c, out) := Handle(cfg, m, f);
            && (!IsData(f) ==> c == m && MessagesOf(out) == [] &&
                               PongsOf(out) == if f.opcode == 9 then [f.payload] else [])
            && (IsData(f) ==>
                  var all := ds + [f];
                  && (c.status.Open? <==>
                        (f.opcode == 0 <==> ds != [] && !ds[|ds| - 1].fin)
                        && |Assembled(all, |ds|)| <= cfg.maxMessage)
                  && (c.status.Open? ==>
                        && Holds(c, all) && PongsOf(out) == []
                        && MessagesOf(out) == if f.fin then [Assembled(all, |ds|)] else []))
  {
    hide Assembled, MessagesOf, PongsOf;
    var out := Handle(cfg, m, f).1;
    if IsData(f) {
      Grown(m, ds, f);
    }
    if out != [] {
      OneEvent(out[0]);
      assert out == [out[0]];
    } else {
      NoEvent();
    }
  }

  // ---- The first bad frame --------------------------------------------------------------------

  /** Ordinary frames whose data frames are well-formed fragments within the limit. */
  predicate GoodFrames(cfg: Config, frames: seq<Frame>) {
    (forall f | f in frames :: Ordinary(f)) && WellFormed(DataFrames(frames)) && WithinLimit(cfg, DataFrames(frames))
  }

  /** The length of the longest prefix of good frames. */
  function GoodPrefix(cfg: Config, frames: seq<Frame>): (k: nat)
    ensures k <= |frames|
    decreases |frames|
  {
    if frames == [] || GoodFrames(cfg, frames) then |frames| else GoodPrefix(cfg, frames[..|frames| - 1])
  }

  /** What the frame that ends the session makes it do. */
  function Ending(f: Frame): seq<Event> {
    if f.opcode == 8 then [CloseReply(f.payload), Closed(f.payload)] else [Failed]
  }

  lemma {:induction false} GoodPrefixIsLongest(cfg: Config, frames: seq<Frame>)
    ensures var k := GoodPrefix(cfg, frames);
            GoodFrames(cfg, frames[..k]) && (k < |frames| ==> !GoodFrames(cfg, frames[..k + 1]))
    decreases |frames|
  {
    hide Ordinary, WellFormed, WithinLimit;
    if frames == [] {
      NoFramesGood(cfg);
      assert frames[..0] == [];
    } else if GoodFrames(cfg, frames) {
      assert frames[..|frames|] == frames;
    } else {
      var n := |frames| - 1;
      GoodPrefixIsLongest(cfg, frames[..n]);
      var k := GoodPrefix(cfg, frames[..n]);
      assert frames[..n][..k] == frames[..k];
      if k < n {
        assert frames[..n][..k + 1] == frames[..k + 1];
      } else {
        assert frames[..k + 1] == frames;
      }
    }
  }

  lemma {:induction false} NoFramesGood(cfg: Config)
    ensures GoodFrames(cfg, [])
  {
  }

  lemma {:induction false} HandleAllStops(cfg: Config, c: Conn, a: seq<Frame>, b: seq<Frame>)
    requires !HandleAll(cfg, c, a).0.status.Open?
    ensures HandleAll(cfg, c, a + b) == HandleAll(cfg, c, a)
    decreases |a|
  {
    hide Handle;
    if a != [] && c.status.Open? {
      assert (a + b)[0] == a[0] && (a + b)[1..] == a[1..] + b;
      HandleAllStops(cfg, Handle(cfg, c, a[0]).0, a[1..], b);
    }
  }

  lemma {:induction false} NoCloseSent(cfg: Config, c: Conn, frames: seq<Frame>)
    requires !c.closeSent && HandleAll(cfg, c, frames).0.status.Open?
    ensures !HandleAll(cfg, c, frames).0.closeSent
    decreases |frames|
  {
    if frames != [] && c.status.Open? { NoCloseSent(cfg, Handle(cfg, c, frames[0]).0, frames[1..]); }
  }

  /** A frame that is not ordinary, or not a good next fragment, ends the session. */
  lemma {:induction false} BadFrameEnds(cfg: Config, before: seq<Frame>, f: Frame)
    requires GoodFrames(cfg, before) && !GoodFrames(cfg, before + [f])
    ensures var m := HandleAll(cfg, FRESH, before).0;
            m.status.Open? && !Handle(cfg, m, f).0.status.Open? && Handle(cfg, m, f).1 == Ending(f)
  {
    hide WellFormed, WithinLimit, HandleAll, Assembled;
    var m := HandleAll(cfg, FRESH, before).0;
    var ds := DataFrames(before);
    Reassembly(cfg, before);
    NoCloseSent(cfg, FRESH, before);
    DataFramesSnoc(before, f);
    if !Ordinary(f) {
      NotOrdinary(cfg, m, f);
    } else {
      assert forall g | g in before + [f] :: Ordinary(g);
      if IsData(f) {
        SnocConditions(cfg, ds, f);
        LastWithinLimit(cfg, ds);
        LastFrame(cfg, m, ds, f);
        DataRefused(cfg, m, f);
      }
    }
  }

  lemma {:induction false} NotOrdinary(cfg: Config, m: Conn, f: Frame)
    requires m.status.Open? && !m.closeSent && !Ordinary(f)
    ensures !Handle(cfg, m, f).0.status.Open? && Handle(cfg, m, f).1 == Ending(f)
  {
    assert [CloseReply(f.payload)] + [Closed(f.payload)] == [CloseReply(f.payload), Closed(f.payload)];
  }

  lemma {:induction false} DataRefused(cfg: Config, m: Conn, f: Frame)
    requires m.status.Open? && IsData(f)
    ensures !Handle(cfg, m, f).0.status.Open? ==> Handle(cfg, m, f).1 == [Failed]
  {
  }

  /** Any frames at all: messages and pongs are those of the longest good prefix, and the first bad frame
      ends the session with the close events or the failure. */
  lemma {:induction false} ReassembledToTheEnd(cfg: Config, frames: seq<Frame>)
    ensures var k := GoodPrefix(cfg, frames);
            var (c, events) := HandleAll(cfg, FRESH, frames);
            && (c.status.Open? <==> k == |frames|)
            && MessagesOf(events) == Messages(DataFrames(frames[..k]))
            && PongsOf(events) == PingPayloads(frames[..k])
            && (k < |frames| ==> events == HandleAll(cfg, FRESH, frames[..k]).1 + Ending(frames[k]))
  {
    hide GoodFrames, HandleAll, Handle, Messages, DataFrames, PingPayloads, Holds, WellFormed, WithinLimit;
    var k := GoodPrefix(cfg, frames);
    GoodPrefixIsLongest(cfg, frames);
    var good := frames[..k];
    GoodReassembly(cfg, good);
    if k < |frames| {
      var f := frames[k];
      assert frames[..k + 1] == good + [f];
      BadFrameEnds(cfg, good, f);
      HandleAllSnoc(cfg, FRESH, good, f);
      HandleAllStops(cfg, FRESH, good + [f], frames[k + 1..]);
      assert good + [f] + frames[k + 1..] == frames;
      EndingQuiet(HandleAll(cfg, FRESH, good).1, f);
    } else {
      assert good == frames;
    }
  }

  lemma {:induction false} GoodReassembly(cfg: Config, frames: seq<Frame>)
    requires GoodFrames(cfg, frames)
    ensures var (c, events) := HandleAll(cfg, FRESH, frames);
            && c.status.Open?
            && MessagesOf(events) == Messages(DataFrames(frames))
            && PongsOf(events) == PingPayloads(frames)
  {
    hide HandleAll, Messages, DataFrames, PingPayloads, Holds, WellFormed, WithinLimit;
    Reassembly(cfg, frames);
  }

  lemma {:induction false} EndingQuiet(events: seq<Event>, f: Frame)
    ensures MessagesOf(events + Ending(f)) == MessagesOf(events)
    ensures PongsOf(events + Ending(f)) == PongsOf(events)
  {
    MessagesAppend(events, Ending(f));
    PongsAppend(events, Ending(f));
    if f.opcode == 8 {
      OneQuiet(CloseReply(f.payload));
      OneQuiet(Closed(f.payload));
      MessagesAppend([CloseReply(f.payload)], [Closed(f.payload)]);
      PongsAppend([CloseReply(f.payload)], [Closed(f.payload)]);
      assert Ending(f) == [CloseReply(f.payload)] + [Closed(f.payload)];
    } else {
      OneQuiet(Failed);
    }
    assert MessagesOf(events) + [] == MessagesOf(events) && PongsOf(events) + [] == PongsOf(events);
  }

  lemma {:induction false} OneQuiet(e: Event)
    requires !e.Message? && !e.Pong?
    ensures MessagesOf([e]) == [] && PongsOf([e]) == []
  {
    assert [e][1..] == [];
  }

  // ---- In order -------------------------------------------------------------------------------

  /** One pong per ping and one message per final data frame, each in the place of its frame. */
  function Replies(frames: seq<Frame>): seq<Event>
    decreases |frames|
  {
    if frames == [] then []
    else
      var n := |frames| - 1;
      var ds := DataFrames(frames);
      Replies(frames[..n]) +
      if frames[n].opcode == 9 then [Pong(frames[n].payload)]
      else if IsData(frames[n]) && frames[n].fin && ds != [] then [Message(Assembled(ds, |ds| - 1))]
      else []
  }

  lemma {:induction false} LastReply(cfg: Config, m: Conn, ds: seq<Frame>, f: Frame)
    requires Holds(m, ds) && Ordinary(f) && Handle(cfg, m, f).0.status.Open?
    ensures Handle(cfg, m, f).1 ==
            if f.opcode == 9 then [Pong(f.payload)]
            else if IsData(f) && f.fin then [Message(Assembled(ds + [f], |ds|))]
            else []
  {
    hide Assembled;
    if IsData(f) { Grown(m, ds, f); }
  }

  lemma {:induction false} GoodBefore(cfg: Config, before: seq<Frame>, f: Frame)
    requires GoodFrames(cfg, before + [f])
    ensures GoodFrames(cfg, before) && Ordinary(f)
  {
    hide WellFormed, WithinLimit, Ordinary;
    assert f in before + [f];
    assert forall g | g in before :: g in before + [f];
    DataFramesSnoc(before, f);
    if IsData(f) { SnocConditions(cfg, DataFrames(before), f); }
  }

  lemma {:induction false} RepliesSnoc(before: seq<Frame>, f: Frame)
    ensures var ds := DataFrames(before);
            Replies(before + [f]) == Replies(before) +
            if f.opcode == 9 then [Pong(f.payload)]
            else if IsData(f) && f.fin then [Message(Assembled(ds + [f], |ds|))]
            else []
  {
    hide Assembled, DataFrames;
    DataFramesSnoc(before, f);
    assert (before + [f])[..|before|] == before;
  }

  /** Good frames make the session do exactly that, in the order of the frames. */
  lemma {:induction false} RepliesInOrder(cfg: Config, frames: seq<Frame>)
    requires GoodFrames(cfg, frames)
    ensures HandleAll(cfg, FRESH, frames).1 == Replies(frames)
    decreases |frames|
  {
    hide GoodFrames, HandleAll, Handle, Holds, DataFrames, Replies, Assembled, WellFormed, WithinLimit, Ordinary;
    if frames == [] {
      ReassemblyNone(cfg);
      NoReplies();
    } else {
      var n := |frames| - 1;
      var before, f := frames[..n], frames[n];
      assert frames == before + [f];
      GoodBefore(cfg, before, f);
      RepliesInOrder(cfg, before);
      GoodHolds(cfg, before);
      GoodHolds(cfg, frames);
      HandleAllSnoc(cfg, FRESH, before, f);
      LastReply(cfg, HandleAll(cfg, FRESH, before).0, DataFrames(before), f);
      RepliesSnoc(before, f);
    }
  }

  lemma {:induction false} NoReplies()
    ensures Replies([]) == []
  {
  }

  lemma {:induction false} GoodHolds(cfg: Config, frames: seq<Frame>)
    requires GoodFrames(cfg, frames)
    ensures HandleAll(cfg, FRESH, frames).0.status.Open? && Holds(HandleAll(cfg, FRESH, frames).0, DataFrames(frames))
  {
    hide HandleAll, DataFrames, Holds, WellFormed, WithinLimit;
    Reassembly(cfg, frames);
  }

  /** So any frames have exactly these effects. */
  lemma {:induction false} EventsToTheEnd(cfg: Config, frames: seq<Frame>)
    ensures var k := GoodPrefix(cfg, frames);
            HandleAll(cfg, FRESH, frames).1 ==
            Replies(frames[..k]) +
            if k == |frames| then [] else if frames[k].opcode == 8
            then [CloseReply(frames[k].payload), Closed(frames[k].payload)] else [Failed]
  {
    hide GoodFrames, HandleAll, Replies;
    var k := GoodPrefix(cfg, frames);
    GoodPrefixIsLongest(cfg, frames);
    ReassembledToTheEnd(cfg, frames);
    RepliesInOrder(cfg, frames[..k]);
    if k == |frames| { assert frames[..k] == frames; }
  }

  /** A close frame is answered only when none was sent before. */
  lemma {:induction false} CloseAnswered(cfg: Config, c: Conn, f: Frame)
    requires f.opcode == 8
    ensures CloseReply(f.payload) in Handle(cfg, c, f).1 <==> !c.closeSent
    ensures Handle(cfg, c, f).0.closeSent && Closed(f.payload) in Handle(cfg, c, f).1
  {
  }

  // ---- Bounds ---------------------------------------------------------------------------------

  predicate Bounded(cfg: Config, c: Conn) {
    && |c.message| <= cfg.maxMessage
    && (c.messageOpcode.None? ==> c.message == [])
    && (c.phase.Body? ==>
          && c.phase.len <= cfg.maxFrame
          && |c.phase.maskKey| == (if cfg.expectMasked then 4 else 0)
          && (c.phase.opcode >= 8 ==> c.phase.fin && c.phase.len <= 125))
  }

  lemma {:induction false} HandleBounded(cfg: Config, c: Conn, f: Frame)
    requires Bounded(cfg, c)
    ensures Bounded(cfg, Handle(cfg, c, f).0)
  {
  }

  lemma {:induction false} TurnBounded(cfg: Config, c: Conn, buf: Bytes)
    requires Bounded(cfg, c) && Turn(cfg, c, buf).Next?
    ensures Bounded(cfg, Turn(cfg, c, buf).state)
  {
    if c.phase.Body? {
      hide Handle;
      var len, key := c.phase.len, c.phase.maskKey;
      var payload := if |key| == 4 then XorMask(buf[..len], key) else buf[..len];
      HandleBounded(cfg, c.(phase := Header), Frame(c.phase.fin, c.phase.opcode, payload));
    }
  }

  lemma {:induction false} LoopBounded(cfg: Config, c: Conn, buf: Bytes)
    requires Bounded(cfg, c) && Drain(Loop(cfg), c, buf).Some?
    ensures var (c', rest) := Drain(Loop(cfg), c, buf).value.0;
            && Bounded(cfg, c')
            && (!c'.status.Broken? ==> |rest| < if cfg.maxFrame > 14 then cfg.maxFrame else 14)
    decreases |buf|, Rank(c)
  {
    hide Turn, Bounded;
    SessionStable(cfg);
    DrainStep(Loop(cfg), c, buf);
    var n := Loop(cfg).step(c, buf);
    if n.Next? {
      TurnBounded(cfg, c, buf);
      LoopBounded(cfg, n.state, buf[n.used..]);
    } else if !c.status.Broken? {
      WaitingBounded(cfg, c, buf);
    }
  }

  lemma {:induction false} WaitingBounded(cfg: Config, c: Conn, buf: Bytes)
    requires Bounded(cfg, c) && Turn(cfg, c, buf).More?
    ensures |buf| < if cfg.maxFrame > 14 then cfg.maxFrame else 14
  {
  }

  /** After any calls, with any input: a pending length, the message under assembly and (unless a
      failure was raised) the retained input are within the configured limits, and there is no
      message text without a message. */
  lemma {:induction false} FeedBounded(cfg: Config, st: (Conn, Bytes), data: Bytes)
    requires Bounded(cfg, st.0)
    ensures var (t, out) := Feed(cfg, st, data);
            && Bounded(cfg, t.0)
            && (st.0.status.Open? && !t.0.status.Broken? ==>
                  |t.1| < if cfg.maxFrame > 14 then cfg.maxFrame else 14)
  {
    LoopTotal(cfg, st.0, st.1 + data);
    if st.0.status.Open? { LoopBounded(cfg, st.0, st.1 + data); }
  }

  /** Replies to control frames are always accepted by the frame writer of the same stream. */
  lemma {:induction false} RepliesFit(cfg: Config, c: Conn, buf: Bytes, w: Writer, k: nat)
    requires Bounded(cfg, c) && w.maxFrame == cfg.maxFrame && c.phase.Body?
    requires c.status.Open? && Turn(cfg, c, buf).Next?
    ensures forall e | e in Turn(cfg, c, buf).out ::
              && (e.Pong? ==> WriteFrame(w, k, 10, e.payload).Some?)
              && (e.CloseReply? ==> WriteFrame(w, k, 8, e.payload).Some?)
  {
  }
}
