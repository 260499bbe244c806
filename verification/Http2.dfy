/** The HTTP/2 stream writers of one connection: each has a buffer, two events and a job, and all share
    the connection's send window. A step is what runs between two `await` points. */
module Http2 {
  import opened ByteStrings

  const MAX_STREAM_BUFFER: nat := 1024 * 1024
  const MAX_STREAMS: nat := 1024

  /** Where the job is: created, parked on one of the two events, or past the end-of-stream frame. */
  datatype Job = Created | OnFull | OnWait | Finished

  /** `listed` tells membership in `streams`; `written` is all data `write` accepted, `sent` the data
      frames handed to the connection, `granted` all credit the stream ever had. */
  datatype Stream = Stream(
    buffer: Bytes, wait: bool, full: bool, closed: bool, job: Job, listed: bool,
    window: nat, granted: nat, written: Bytes, sent: seq<Bytes>)

  datatype State = State(client: bool, frame: nat, window: nat, granted: nat, streams: seq<Stream>)

  datatype Event =
    | Begin(initial: nat)
    | Write(i: nat, data: Bytes)
    | Close(i: nat)
    | StreamCredit(i: nat, n: nat)
    | ConnectionCredit(n: nat)
    | PeerEnds(i: nat)
    | Resume(i: nat)

  function Min(a: nat, b: nat): nat { if a < b then a else b }

  /** `local_flow_control_window`. */
  function Credit(conn: nat, s: Stream): nat {
    Min(conn, s.window)
  }

  function NewStream(initial: nat): Stream {
    Stream([], false, false, false, Created, true, initial, initial, [], [])
  }

  // ---- The writer -----------------------------------------------------------------------------

  predicate Accepts(s: Stream, data: Bytes) {
    |s.buffer| + |data| <= MAX_STREAM_BUFFER
  }

  function Written(s: Stream, data: Bytes): Stream {
    if Accepts(s, data) then s.(buffer := s.buffer + data, wait := true, written := s.written + data)
    else s
  }

  function Closed(s: Stream): Stream {
    s.(closed := true, wait := true)
  }

  function Woken(s: Stream): Stream {
    if s.listed then s.(full := true) else s
  }

  function Ended(s: Stream): Stream {
    var t := s.(listed := false);
    if s.listed && !s.closed then Closed(t) else t
  }

  // ---- The job --------------------------------------------------------------------------------

  predicate Runnable(s: Stream) {
    match s.job
    case Created => true
    case OnFull => s.full
    case OnWait => s.wait
    case Finished => false
  }

  /** One data frame of n bytes. */
  function Sent(s: Stream, n: nat): Stream
    requires n <= |s.buffer| && n <= s.window
  {
    s.(buffer := s.buffer[n..], sent := s.sent + [s.buffer[..n]], window := s.window - n)
  }

  /** The send loop and what follows it, up to the next `await` or the end. */
  function Flush(s: Stream, conn: nat, frame: nat): (Stream, nat)
    requires frame > 0
    decreases |s.buffer|
  {
    if s.buffer == [] then
      (if s.closed then s.(job := Finished) else s.(wait := false, job := OnWait), conn)
    else if Credit(conn, s) == 0 then
      (s.(full := false, job := OnFull), conn)
    else
      var n := Min(Min(Credit(conn, s), |s.buffer|), frame);
      Flush(Sent(s, n), conn - n, frame)
  }

  lemma {:induction false} FlushStep(s: Stream, conn: nat, frame: nat)
    requires frame > 0
    ensures Flush(s, conn, frame) ==
            if s.buffer == [] then
              (if s.closed then s.(job := Finished) else s.(wait := false, job := OnWait), conn)
            else if Credit(conn, s) == 0 then
              (s.(full := false, job := OnFull), conn)
            else
              var n := Min(Min(Credit(conn, s), |s.buffer|), frame);
              Flush(Sent(s, n), conn - n, frame)
  {
  }

  /** From a wake-up to the next one. A job woken on `write_full` after `close` leaves the window loop
      even without credit, and sends an empty frame then. */
  function Resumed(s: Stream, conn: nat, frame: nat): (Stream, nat)
    requires frame > 0
  {
    if !Runnable(s) then (s, conn)
    else if s.job == OnFull then
      Flush(if s.closed && Credit(conn, s) == 0 then Sent(s, 0) else s, conn, frame)
    else if s.closed then (s.(job := Finished), conn)
    else Flush(s, conn, frame)
  }

  // ---- The connection -------------------------------------------------------------------------

  function Sum(f: Stream -> nat, streams: seq<Stream>): nat {
    if streams == [] then 0 else Sum(f, streams[..|streams| - 1]) + f(streams[|streams| - 1])
  }

  function Listed(s: Stream): nat { if s.listed then 1 else 0 }

  function SentBytes(s: Stream): nat { |Flatten(s.sent)| }

  function With(st: State, i: nat, s: Stream): State
    requires i < |st.streams|
  {
    st.(streams := st.streams[i := s])
  }

  /** Events about streams that do not exist change nothing. */
  function Apply(st: State, e: Event): State
    requires st.frame > 0
  {
    match e
    case Begin(initial) =>
      if !st.client && Sum(Listed, st.streams) >= MAX_STREAMS then st
      else st.(streams := st.streams + [NewStream(initial)])
    case ConnectionCredit(n) =>
      st.(window := st.window + n, granted := st.granted + n, streams := WakeAll(st.streams))
    case Write(i, data) => if i < |st.streams| then With(st, i, Written(st.streams[i], data)) else st
    case Close(i) => if i < |st.streams| then With(st, i, Closed(st.streams[i])) else st
    case StreamCredit(i, n) =>
      if i < |st.streams| then With(st, i, Credited(st.streams[i], n)) else st
    case PeerEnds(i) => if i < |st.streams| then With(st, i, Ended(st.streams[i])) else st
    case Resume(i) =>
      if i < |st.streams| then
        var (s, conn) := Resumed(st.streams[i], st.window, st.frame);
        With(st, i, s).(window := conn)
      else st
  }

  function WakeAll(streams: seq<Stream>): (r: seq<Stream>)
    ensures |r| == |streams|
  {
    seq(|streams|, i requires 0 <= i < |streams| => Woken(streams[i]))
  }

  function Credited(s: Stream, n: nat): Stream {
    Woken(s.(window := s.window + n, granted := s.granted + n))
  }

  function Execute(st: State, events: seq<Event>): (r: State)
    requires st.frame > 0
    decreases |events|
  {
    if events == [] then st
    else
      ApplyFrame(st, events[0]);
      Execute(Apply(st, events[0]), events[1..])
  }

  lemma {:induction false} ApplyFrame(st: State, e: Event)
    requires st.frame > 0
    ensures Apply(st, e).frame == st.frame && Apply(st, e).client == st.client
  {
    hide Flush, Sum;
  }

  // ---- One stream -----------------------------------------------------------------------------

  /** What every stream keeps, given the connection window. */
  ghost predicate Good(s: Stream, conn: nat, frame: nat) {
    // No lost wake-up.
    && (s.job == OnWait && !s.wait ==> s.buffer == [] && !s.closed)
    && (s.job == OnFull && !s.full && s.listed ==> Credit(conn, s) == 0)
    && (s.job == OnFull ==> s.buffer != [])
    && (s.job == Finished || !s.listed ==> s.closed)
    // Conservation and credit.
    && Flatten(s.sent) + s.buffer == s.written
    && s.window + |Flatten(s.sent)| == s.granted
    && |s.buffer| <= MAX_STREAM_BUFFER
    && Frames(s.sent, frame, s.closed)
  }

  predicate Frames(sent: seq<Bytes>, frame: nat, closed: bool) {
    forall k | 0 <= k < |sent| :: |sent[k]| <= frame && (sent[k] == [] ==> closed)
  }

  lemma {:induction false} SentKeeps(s: Stream, n: nat)
    requires n <= |s.buffer| && n <= s.window
    requires Flatten(s.sent) + s.buffer == s.written && s.window + |Flatten(s.sent)| == s.granted
    ensures var t := Sent(s, n);
            && Flatten(t.sent) + t.buffer == t.written && t.window + |Flatten(t.sent)| == t.granted
            && |Flatten(t.sent)| == |Flatten(s.sent)| + n
  {
    var c := s.buffer[..n];
    FlattenAppend(s.sent, [c]);
    FlattenOne(c);
    assert s.buffer == c + s.buffer[n..];
    assert Flatten(s.sent) + c + s.buffer[n..] == Flatten(s.sent) + s.buffer;
  }

  /** The job stops only without data or without credit. */
  ghost predicate Settled(s: Stream, t: Stream, conn: nat, conn': nat, frame: nat) {
    && Good(t, conn', frame)
    && conn' + |Flatten(t.sent)| == conn + |Flatten(s.sent)|
    && (t.buffer == [] || Credit(conn', t) == 0)
    && t.job == (if t.buffer != [] then OnFull else if s.closed then Finished else OnWait)
    && t.listed == s.listed && t.closed == s.closed && t.written == s.written && t.granted == s.granted
    && s.sent <= t.sent
  }

  lemma {:induction false} FlushGood(s: Stream, conn: nat, frame: nat)
    requires frame > 0
    requires Flatten(s.sent) + s.buffer == s.written && s.window + |Flatten(s.sent)| == s.granted
    requires |s.buffer| <= MAX_STREAM_BUFFER && Frames(s.sent, frame, s.closed) && (!s.listed ==> s.closed)
    ensures Settled(s, Flush(s, conn, frame).0, conn, Flush(s, conn, frame).1, frame)
    decreases |s.buffer|
  {
    hide Settled;
    if s.buffer != [] && Credit(conn, s) != 0 {
      var n := Min(Min(Credit(conn, s), |s.buffer|), frame);
      SentKeeps(s, n);
      FlushGood(Sent(s, n), conn - n, frame);
      SettledVia(s, n, Flush(s, conn, frame).0, conn, Flush(s, conn, frame).1, frame);
    } else {
      SettledAtOnce(s, conn, frame);
    }
  }

  lemma {:induction false} SettledAtOnce(s: Stream, conn: nat, frame: nat)
    requires frame > 0 && (s.buffer == [] || Credit(conn, s) == 0)
    requires Flatten(s.sent) + s.buffer == s.written && s.window + |Flatten(s.sent)| == s.granted
    requires |s.buffer| <= MAX_STREAM_BUFFER && Frames(s.sent, frame, s.closed) && (!s.listed ==> s.closed)
    ensures Settled(s, Flush(s, conn, frame).0, conn, Flush(s, conn, frame).1, frame)
  {
  }

  /** One frame and then the rest. */
  lemma {:induction false} SettledVia(s: Stream, n: nat, t: Stream, conn: nat, conn': nat, frame: nat)
    requires n <= conn && n <= |s.buffer| && n <= s.window
    requires Flatten(s.sent) + s.buffer == s.written && s.window + |Flatten(s.sent)| == s.granted
    requires Settled(Sent(s, n), t, conn - n, conn', frame)
    ensures Settled(s, t, conn, conn', frame)
  {
    hide Good;
    SentKeeps(s, n);
  }

  /** The send loop adds frames that are full but for the last one, none of them empty; the end of the
      stream, which a close makes of it, is not among them. */
  lemma {:induction false} FullFrames(s: Stream, conn: nat, frame: nat)
    requires frame > 0
    ensures var t := Flush(s, conn, frame).0;
            && s.sent <= t.sent
            && (forall k | |s.sent| <= k < |t.sent| ::
                  0 < |t.sent[k]| <= frame && (k < |t.sent| - 1 ==> |t.sent[k]| == frame))
            && (|t.sent| > |s.sent| <==> s.buffer != [] && conn > 0 && s.window > 0)
    decreases |s.buffer|
  {
    if s.buffer != [] && Credit(conn, s) != 0 {
      var n := Min(Min(Credit(conn, s), |s.buffer|), frame);
      FullFrames(Sent(s, n), conn - n, frame);
      assert Sent(s, n).sent == s.sent + [s.buffer[..n]];
    }
  }

  /** A job woken for credit after `close` sends one empty frame where there is none; a closed one that was
      waiting for data ends at once; one whose event is not set stays. */
  lemma {:induction false} ClosedResumes(s: Stream, conn: nat, frame: nat)
    requires frame > 0 && s.closed
    ensures var (t, conn') := Resumed(s, conn, frame);
            && (s.job == OnFull && s.full && s.buffer != [] && (conn == 0 || s.window == 0) ==>
                  t == s.(sent := s.sent + [[]], full := false) && conn' == conn)
            && (s.job == Created || (s.job == OnWait && s.wait) ==> t == s.(job := Finished) && conn' == conn)
            && (s.job == Finished || (s.job == OnWait && !s.wait) || (s.job == OnFull && !s.full) ==>
                  t == s && conn' == conn)
  {
    if s.job == OnFull && s.full && s.buffer != [] && (conn == 0 || s.window == 0) {
      assert s.buffer[..0] == [] && s.buffer[0..] == s.buffer;
    }
  }

  lemma {:induction false} ResumedGood(s: Stream, conn: nat, frame: nat)
    requires frame > 0 && Good(s, conn, frame)
    ensures var (t, conn') := Resumed(s, conn, frame);
            && Good(t, conn', frame) && conn' <= conn
            && conn' + |Flatten(t.sent)| == conn + |Flatten(s.sent)|
            && t.listed == s.listed
  {
    hide Flush;
    if Runnable(s) && !(s.job != OnFull && s.closed) {
      var u := if s.job == OnFull && s.closed && Credit(conn, s) == 0 then Sent(s, 0) else s;
      SentKeeps(s, 0);
      FlushGood(u, conn, frame);
      SentGrows(u.sent, Flush(u, conn, frame).0.sent);
    }
  }

  lemma {:induction false} SentGrows(a: seq<Bytes>, b: seq<Bytes>)
    requires a <= b
    ensures |Flatten(a)| <= |Flatten(b)|
  {
    assert b == a + b[|a|..];
    FlattenAppend(a, b[|a|..]);
  }

  /** With credit for all data the send loop sends all of it. */
  lemma {:induction false} FlushAll(s: Stream, conn: nat, frame: nat)
    requires frame > 0 && |s.buffer| <= Credit(conn, s)
    requires Flatten(s.sent) + s.buffer == s.written && s.window + |Flatten(s.sent)| == s.granted
    requires |s.buffer| <= MAX_STREAM_BUFFER && Frames(s.sent, frame, s.closed) && (!s.listed ==> s.closed)
    ensures var t := Flush(s, conn, frame).0;
            t.buffer == [] && Flatten(t.sent) == s.written && t.job == if s.closed then Finished else OnWait
  {
    hide Flush;
    FlushGood(s, conn, frame);
    var t := Flush(s, conn, frame).0;
    SentGrows(s.sent, t.sent);
    assert |Flatten(t.sent)| + |t.buffer| == |t.written| == |Flatten(s.sent)| + |s.buffer|;
    assert |t.buffer| == 0;
    assert Flatten(t.sent) + [] == Flatten(t.sent);
  }

  /** With credit for all of its data, an open stream's job sends all of it when it runs. */
  lemma {:induction false} ResumeDelivers(s: Stream, conn: nat, frame: nat)
    requires frame > 0 && Good(s, conn, frame) && Runnable(s) && !s.closed
    requires |s.buffer| <= Credit(conn, s)
    ensures var t := Resumed(s, conn, frame).0;
            t.buffer == [] && Flatten(t.sent) == s.written && t.job == OnWait
  {
    hide Flush;
    FlushAll(s, conn, frame);
  }

  /** When `close` loses data: given credit for everything, the job of a stream just closed ends, and
      it has sent all that was written exactly if it was waiting for credit or had nothing to send. */
  lemma {:induction false} CloseDecides(s: Stream, conn: nat, frame: nat, n: nat)
    requires frame > 0 && Good(s, conn, frame) && !s.closed
    requires |s.buffer| <= Credit(conn, Credited(Closed(s), n))
    ensures var t := Resumed(Credited(Closed(s), n), conn, frame).0;
            && t.job == Finished
            && (Flatten(t.sent) == s.written <==> s.job == OnFull || s.buffer == [])
  {
    hide Flush;
    var u := Credited(Closed(s), n);
    if s.job == OnFull {
      FlushAll(u, conn, frame);
    } else {
      assert |s.written| == |Flatten(s.sent)| + |s.buffer|;
      if s.buffer == [] { assert Flatten(s.sent) + [] == Flatten(s.sent); }
    }
  }

  // ---- All runs -------------------------------------------------------------------------------

  ghost predicate Inv(st: State) {
    && st.frame > 0
    && (forall i | 0 <= i < |st.streams| :: Good(st.streams[i], st.window, st.frame))
    && st.window + Sum(SentBytes, st.streams) == st.granted
    && (!st.client ==> Sum(Listed, st.streams) <= MAX_STREAMS)
  }

  lemma {:induction false} SumAppend(f: Stream -> nat, a: seq<Stream>, s: Stream)
    ensures Sum(f, a + [s]) == Sum(f, a) + f(s)
  {
    assert (a + [s])[..|a|] == a;
  }

  lemma {:induction false} SumUpdate(f: Stream -> nat, a: seq<Stream>, i: nat, s: Stream)
    requires i < |a|
    ensures Sum(f, a[i := s]) + f(a[i]) == Sum(f, a) + f(s)
    decreases |a|
  {
    var n := |a| - 1;
    if i == n {
      assert a[i := s][..n] == a[..n];
    } else {
      SumUpdate(f, a[..n], i, s);
      assert a[i := s][..n] == a[..n][i := s];
    }
  }

  lemma {:induction false} SumSame(f: Stream -> nat, a: seq<Stream>, b: seq<Stream>)
    requires |a| == |b| && forall i | 0 <= i < |a| :: f(a[i]) == f(b[i])
    ensures Sum(f, a) == Sum(f, b)
    decreases |a|
  {
    if a != [] { SumSame(f, a[..|a| - 1], b[..|b| - 1]); }
  }

  /** Replacing one stream by a good one that keeps its frames and does not become listed. */
  lemma {:induction false} WithGood(st: State, i: nat, s: Stream)
    requires Inv(st) && i < |st.streams|
    requires Good(s, st.window, st.frame) && s.sent == st.streams[i].sent
    requires s.listed ==> st.streams[i].listed
    ensures Inv(With(st, i, s))
  {
    hide Good, Sum;
    SumUpdate(SentBytes, st.streams, i, s);
    SumUpdate(Listed, st.streams, i, s);
  }

  lemma {:induction false} ResumeKeeps(st: State, i: nat)
    requires Inv(st) && i < |st.streams|
    ensures Inv(Apply(st, Resume(i)))
  {
    var (s, conn) := Resumed(st.streams[i], st.window, st.frame);
    ResumedGood(st.streams[i], st.window, st.frame);
    var next := Apply(st, Resume(i));
    forall k | 0 <= k < |st.streams|
      ensures Good(next.streams[k], next.window, next.frame)
    {
      if k != i { LessCredit(st.streams[k], st.window, conn, st.frame); }
    }
    hide Good, Sum, Resumed;
    SumUpdate(SentBytes, st.streams, i, s);
    SumUpdate(Listed, st.streams, i, s);
  }

  lemma {:induction false} LessCredit(s: Stream, conn: nat, conn': nat, frame: nat)
    requires Good(s, conn, frame) && conn' <= conn
    ensures Good(s, conn', frame)
  {
  }

  lemma {:induction false} CreditKeeps(st: State, n: nat)
    requires Inv(st)
    ensures Inv(Apply(st, ConnectionCredit(n)))
  {
    hide Good, Sum;
    var a, b := st.streams, WakeAll(st.streams);
    forall i | 0 <= i < |a|
      ensures Good(b[i], st.window + n, st.frame)
    {
      WakeGood(a[i], st.window, st.window + n, st.frame);
    }
    assert forall i | 0 <= i < |a| :: SentBytes(a[i]) == SentBytes(b[i]) && Listed(a[i]) == Listed(b[i]);
    SumSame(SentBytes, a, b);
    SumSame(Listed, a, b);
  }

  lemma {:induction false} WakeGood(s: Stream, conn: nat, conn': nat, frame: nat)
    requires Good(s, conn, frame)
    ensures Good(Woken(s), conn', frame)
  {
  }

  lemma {:induction false} BeginKeeps(st: State, initial: nat)
    requires Inv(st)
    ensures Inv(Apply(st, Begin(initial)))
  {
    hide Sum;
    SumAppend(SentBytes, st.streams, NewStream(initial));
    SumAppend(Listed, st.streams, NewStream(initial));
  }

  lemma {:induction false} ApplyKeeps(st: State, e: Event)
    requires Inv(st)
    ensures Inv(Apply(st, e))
  {
    hide Sum, Resumed;
    match e
    case Begin(initial) => BeginKeeps(st, initial);
    case ConnectionCredit(n) => CreditKeeps(st, n);
    case Write(i, data) => if i < |st.streams| { WriteKeeps(st, i, data); }
    case Close(i) => if i < |st.streams| { WithGood(st, i, Closed(st.streams[i])); }
    case StreamCredit(i, n) => if i < |st.streams| { WithGood(st, i, Credited(st.streams[i], n)); }
    case PeerEnds(i) => if i < |st.streams| { WithGood(st, i, Ended(st.streams[i])); }
    case Resume(i) => if i < |st.streams| { ResumeKeeps(st, i); }
  }

  lemma {:induction false} WriteKeeps(st: State, i: nat, data: Bytes)
    requires Inv(st) && i < |st.streams|
    ensures Inv(Apply(st, Write(i, data)))
  {
    hide Sum;
    var s := st.streams[i];
    assert Flatten(s.sent) + (s.buffer + data) == s.written + data;
    WithGood(st, i, Written(s, data));
  }

  function Initial(client: bool, frame: nat, window: nat): State {
    State(client, frame, window, window, [])
  }

  lemma {:induction false} Reachable(st: State, events: seq<Event>)
    requires Inv(st)
    ensures Inv(Execute(st, events))
    decreases |events|
  {
    hide Inv, Apply;
    if events != [] {
      assert st.frame > 0 by { InvFrame(st); }
      ApplyKeeps(st, events[0]);
      Reachable(Apply(st, events[0]), events[1..]);
    }
  }

  lemma {:induction false} InvFrame(st: State)
    requires Inv(st)
    ensures st.frame > 0
  {
  }

  lemma {:induction false} FromStart(client: bool, frame: nat, window: nat, events: seq<Event>)
    requires frame > 0
    ensures Inv(Execute(Initial(client, frame, window), events))
  {
    Reachable(Initial(client, frame, window), events);
  }

  /** No lost wake-up, on every run: a job parked on an event that is not set has nothing to send, or
      no credit to send it with. */
  lemma {:induction false} NoLostWakeUp(client: bool, frame: nat, window: nat, events: seq<Event>, i: nat)
    requires frame > 0 && i < |Execute(Initial(client, frame, window), events).streams|
    ensures var st := Execute(Initial(client, frame, window), events);
            var s := st.streams[i];
            && (s.job == OnWait && !s.wait ==> s.buffer == [] && !s.closed)
            && (s.job == OnFull && !s.full && s.listed ==> Credit(st.window, s) == 0)
  {
    FromStart(client, frame, window, events);
  }

  // ---- What the events ask for ----------------------------------------------------------------

  /** The data that an event hands to stream i: a write that the buffer limit of one MiB leaves room for. */
  function GivenNow(st: State, e: Event, i: nat): Bytes {
    match e
    case Write(j, data) =>
      if j == i && i < |st.streams| && |st.streams[i].buffer| + |data| <= 0x10_0000 then data else []
    case _ => []
  }

  function Given(st: State, events: seq<Event>, i: nat): Bytes
    requires st.frame > 0
    decreases |events|
  {
    if events == [] then []
    else
      ApplyFrame(st, events[0]);
      GivenNow(st, events[0], i) + Given(Apply(st, events[0]), events[1..], i)
  }

  /** The credit an event gives to stream i: its own window updates, and the initial window when it is the
      stream that begins. */
  function CreditNow(st: State, e: Event, i: nat): nat {
    match e
    case Begin(initial) =>
      if i == |st.streams| && (st.client || Sum(Listed, st.streams) < 1024) then initial else 0
    case StreamCredit(j, n) => if j == i && i < |st.streams| then n else 0
    case _ => 0
  }

  function CreditOf(st: State, events: seq<Event>, i: nat): nat
    requires st.frame > 0
    decreases |events|
  {
    if events == [] then 0
    else
      ApplyFrame(st, events[0]);
      CreditNow(st, events[0], i) + CreditOf(Apply(st, events[0]), events[1..], i)
  }

  function ConnectionCredits(events: seq<Event>): nat {
    if events == [] then 0
    else (if events[0].ConnectionCredit? then events[0].n else 0) + ConnectionCredits(events[1..])
  }

  lemma {:induction false} FlushRecord(s: Stream, conn: nat, frame: nat)
    requires frame > 0
    ensures var t := Flush(s, conn, frame).0; t.written == s.written && t.granted == s.granted
    decreases |s.buffer|
  {
    if s.buffer != [] && Credit(conn, s) != 0 {
      var n := Min(Min(Credit(conn, s), |s.buffer|), frame);
      FlushRecord(Sent(s, n), conn - n, frame);
    }
  }

  lemma {:induction false} ResumedRecord(s: Stream, conn: nat, frame: nat)
    requires frame > 0
    ensures var t := Resumed(s, conn, frame).0; t.written == s.written && t.granted == s.granted
  {
    hide Flush;
    FlushRecord(s, conn, frame);
    if s.job == OnFull { FlushRecord(Sent(s, 0), conn, frame); }
  }

  lemma {:induction false} RecordStep(st: State, e: Event, i: nat)
    requires st.frame > 0 && i < |st.streams|
    ensures i < |Apply(st, e).streams|
    ensures var s, t := st.streams[i], Apply(st, e).streams[i];
            t.written == s.written + GivenNow(st, e, i) && t.granted == s.granted + CreditNow(st, e, i)
  {
    hide Flush, Sum, Resumed;
    ResumedRecord(st.streams[i], st.window, st.frame);
  }

  lemma {:induction false} RecordStart(st: State, e: Event, i: nat)
    requires st.frame > 0 && i >= |st.streams|
    ensures GivenNow(st, e, i) == []
    ensures if i < |Apply(st, e).streams| then
              var t := Apply(st, e).streams[i]; t.written == [] && t.granted == CreditNow(st, e, i)
            else
              CreditNow(st, e, i) == 0
  {
    hide Flush, Sum, Resumed;
  }

  lemma {:induction false} Recorded(st: State, events: seq<Event>, i: nat)
    requires st.frame > 0 && i < |Execute(st, events).streams|
    ensures var t := Execute(st, events).streams[i];
            && t.written == (if i < |st.streams| then st.streams[i].written else []) + Given(st, events, i)
            && t.granted == (if i < |st.streams| then st.streams[i].granted else 0) + CreditOf(st, events, i)
    decreases |events|
  {
    hide Apply, GivenNow, CreditNow;
    if events != [] {
      var e, rest := events[0], events[1..];
      ApplyFrame(st, e);
      Recorded(Apply(st, e), rest, i);
      if i < |st.streams| { RecordStep(st, e, i); } else { RecordStart(st, e, i); }
    }
  }

  lemma {:induction false} ConnectionRecorded(st: State, events: seq<Event>)
    requires st.frame > 0
    ensures Execute(st, events).granted == st.granted + ConnectionCredits(events)
    decreases |events|
  {
    hide Sum, Resumed, WakeAll;
    if events != [] {
      ApplyFrame(st, events[0]);
      ConnectionRecorded(Apply(st, events[0]), events[1..]);
    }
  }

  /** Conservation, on every run: frames and buffer together are the data of the accepted writes in order,
      so the frames are a prefix of it, also across `close`. */
  lemma {:induction false} Conservation(client: bool, frame: nat, window: nat, events: seq<Event>, i: nat)
    requires frame > 0 && i < |Execute(Initial(client, frame, window), events).streams|
    ensures var s := Execute(Initial(client, frame, window), events).streams[i];
            && Flatten(s.sent) + s.buffer == s.written == Given(Initial(client, frame, window), events, i)
            && Flatten(s.sent) <= s.written
            && |s.buffer| <= 0x10_0000
            && (forall k | 0 <= k < |s.sent| :: |s.sent[k]| <= frame)
            && (!s.closed ==> forall k | 0 <= k < |s.sent| :: s.sent[k] != [])
  {
    hide Execute, Given, CreditOf, Sum;
    FromStart(client, frame, window, events);
    ExecuteFrame(Initial(client, frame, window), events);
    Recorded(Initial(client, frame, window), events, i);
  }

  lemma {:induction false} ExecuteFrame(st: State, events: seq<Event>)
    requires st.frame > 0
    ensures Execute(st, events).frame == st.frame && Execute(st, events).client == st.client
    decreases |events|
  {
    hide Apply;
    if events != [] {
      ApplyFrame(st, events[0]);
      ExecuteFrame(Apply(st, events[0]), events[1..]);
    }
  }

  /** Credit, on every run: what a stream has sent and what it may still send add up to its initial window
      and its updates, and so for the connection; a server never lists more than 1024 streams. */
  lemma {:induction false} CreditRespected(client: bool, frame: nat, window: nat, events: seq<Event>)
    requires frame > 0
    ensures var start := Initial(client, frame, window);
            var st := Execute(start, events);
            && Sum(SentBytes, st.streams) + st.window == window + ConnectionCredits(events)
            && (forall i | 0 <= i < |st.streams| ::
                  SentBytes(st.streams[i]) + st.streams[i].window == CreditOf(start, events, i))
            && (!client ==> Sum(Listed, st.streams) <= 1024)
  {
    hide Sum, Execute, Given, CreditOf;
    var start := Initial(client, frame, window);
    FromStart(client, frame, window, events);
    ExecuteFrame(start, events);
    ConnectionRecorded(start, events);
    var st := Execute(start, events);
    forall i | 0 <= i < |st.streams|
      ensures SentBytes(st.streams[i]) + st.streams[i].window == CreditOf(start, events, i)
    {
      Recorded(start, events, i);
      assert Good(st.streams[i], st.window, st.frame);
    }
  }

  // ---- Who is open, and what is sent ----------------------------------------------------------

  /** Some event closes stream i, its writer's `close` or its peer's end. */
  predicate EndedBy(st: State, events: seq<Event>, i: nat)
    requires st.frame > 0
    decreases |events|
  {
    events != [] &&
    (ApplyFrame(st, events[0]);
     || (i < |st.streams| && events[0] in {Close(i), PeerEnds(i)})
     || EndedBy(Apply(st, events[0]), events[1..], i))
  }

  predicate EndedByPeer(st: State, events: seq<Event>, i: nat)
    requires st.frame > 0
    decreases |events|
  {
    events != [] &&
    (ApplyFrame(st, events[0]);
     || (i < |st.streams| && events[0] == PeerEnds(i))
     || EndedByPeer(Apply(st, events[0]), events[1..], i))
  }

  lemma {:induction false} EndStep(st: State, e: Event, i: nat)
    requires Inv(st) && i < |Apply(st, e).streams|
    ensures var t := Apply(st, e).streams[i];
            if i < |st.streams| then
              && (t.closed <==> st.streams[i].closed || e in {Close(i), PeerEnds(i)})
              && (t.listed <==> st.streams[i].listed && e != PeerEnds(i))
            else !t.closed && t.listed
  {
    hide Sum, Resumed;
    if i < |st.streams| {
      assert Good(st.streams[i], st.window, st.frame);
      ResumedStatus(st.streams[i], st.window, st.frame);
    }
  }

  lemma {:induction false} ResumedStatus(s: Stream, conn: nat, frame: nat)
    requires frame > 0
    ensures var t := Resumed(s, conn, frame).0; t.closed == s.closed && t.listed == s.listed
  {
    hide Flush;
    FlushStatus(s, conn, frame);
    if s.job == OnFull { FlushStatus(Sent(s, 0), conn, frame); }
  }

  lemma {:induction false} FlushStatus(s: Stream, conn: nat, frame: nat)
    requires frame > 0
    ensures var t := Flush(s, conn, frame).0; t.closed == s.closed && t.listed == s.listed
    decreases |s.buffer|
  {
    if s.buffer != [] && Credit(conn, s) != 0 {
      var n := Min(Min(Credit(conn, s), |s.buffer|), frame);
      FlushStatus(Sent(s, n), conn - n, frame);
    }
  }

  /** A stream is closed exactly by such an event, and unlisted exactly by its peer's end. */
  lemma {:induction false} EndsExactly(st: State, events: seq<Event>, i: nat)
    requires Inv(st) && i < |Execute(st, events).streams|
    ensures var t := Execute(st, events).streams[i];
            && (t.closed <==> EndedBy(st, events, i) || (i < |st.streams| && st.streams[i].closed))
            && (t.listed <==> !EndedByPeer(st, events, i) && (i < |st.streams| ==> st.streams[i].listed))
    decreases |events|
  {
    hide Inv, Apply;
    InvFrame(st);
    if events != [] {
      ApplyFrame(st, events[0]);
      ApplyKeeps(st, events[0]);
      EndsExactly(Apply(st, events[0]), events[1..], i);
      if i < |Apply(st, events[0]).streams| { EndStep(st, events[0], i); } else { NoneLost(st, events[0]); }
    }
  }

  lemma {:induction false} NoneLost(st: State, e: Event)
    requires st.frame > 0
    ensures |Apply(st, e).streams| >= |st.streams|
  {
    hide Sum, Resumed;
  }

  /** On every run: as long as nobody has ended a stream, its job has sent every accepted byte once it runs
      with credit for what is buffered. */
  lemma {:induction false} EverythingSent(client: bool, frame: nat, window: nat, events: seq<Event>, i: nat)
    requires frame > 0 && !EndedBy(Initial(client, frame, window), events, i)
    requires var st := Execute(Initial(client, frame, window), events);
             && st.frame > 0 && i < |st.streams|
             && |st.streams[i].buffer| <= st.window && |st.streams[i].buffer| <= st.streams[i].window
    ensures var st := Execute(Initial(client, frame, window), events);
            var t := Apply(st, Resume(i)).streams[i];
            && t.buffer == [] && !t.closed && t.listed
            && Flatten(t.sent) == Given(Initial(client, frame, window), events, i)
  {
    hide Execute, Given, CreditOf, Sum, EndedBy, EndedByPeer, Flush;
    var start := Initial(client, frame, window);
    Conservation(client, frame, window, events, i);
    InitialInv(client, frame, window);
    FromStart(client, frame, window, events);
    EndsExactly(start, events, i);
    var st := Execute(start, events);
    var s := st.streams[i];
    assert Good(s, st.window, st.frame);
    ResumedStatus(s, st.window, st.frame);
    if Runnable(s) {
      ResumeDelivers(s, st.window, st.frame);
    } else {
      assert s.buffer == [];
      assert Flatten(s.sent) + [] == Flatten(s.sent);
    }
  }

  lemma {:induction false} InitialInv(client: bool, frame: nat, window: nat)
    requires frame > 0
    ensures Inv(Initial(client, frame, window))
  {
  }

  function ListedStreams(streams: seq<Stream>): set<nat> {
    set i: nat | i < |streams| && streams[i].listed
  }

  lemma {:induction false} ListedCount(streams: seq<Stream>)
    ensures |ListedStreams(streams)| == Sum(Listed, streams)
    decreases |streams|
  {
    if streams != [] {
      var n := |streams| - 1;
      ListedCount(streams[..n]);
      var last: set<nat> := if streams[n].listed then {n} else {};
      assert ListedStreams(streams) == ListedStreams(streams[..n]) + last;
    } else {
      assert ListedStreams(streams) == {};
    }
  }

  /** A stream begins, open, listed and with its initial window, exactly if there is room: always for a client,
      below 1024 listed streams for a server. */
  lemma {:induction false} BeginsExactly(st: State, initial: nat)
    requires st.frame > 0
    ensures var t, room := Apply(st, Begin(initial)), st.client || |ListedStreams(st.streams)| < 1024;
            && |t.streams| == |st.streams| + (if room then 1 else 0) && t.streams[..|st.streams|] == st.streams
            && (room ==>
                  var s := t.streams[|st.streams|];
                  && s.listed && !s.closed && s.job == Created && s.window == initial
                  && s.buffer == [] && s.sent == [])
  {
    hide Sum;
    ListedCount(st.streams);
  }

  // ---- What close discards --------------------------------------------------------------------

  /** Closed while its job was not in the middle of sending. */
  ghost predicate Silent(s: Stream) {
    s.closed && s.job != OnFull
  }

  lemma {:induction false} SilentStep(st: State, e: Event, i: nat)
    requires st.frame > 0 && i < |st.streams| && Silent(st.streams[i])
    ensures i < |Apply(st, e).streams|
    ensures Silent(Apply(st, e).streams[i]) && Apply(st, e).streams[i].sent == st.streams[i].sent
  {
    hide Sum, Flush;
  }

  lemma {:induction false} SilentStays(st: State, events: seq<Event>, i: nat)
    requires st.frame > 0 && i < |st.streams| && Silent(st.streams[i])
    ensures i < |Execute(st, events).streams|
    ensures Execute(st, events).streams[i].sent == st.streams[i].sent
    decreases |events|
  {
    hide Apply, Silent;
    if events != [] {
      ApplyFrame(st, events[0]);
      SilentStep(st, events[0], i);
      SilentStays(Apply(st, events[0]), events[1..], i);
    }
  }

  /** A job that is not waiting for credit when its stream is closed sends nothing more on any run, with
      any credit: all that was written has been sent exactly if the buffer was empty then. */
  lemma {:induction false} CloseDiscards(st: State, i: nat, events: seq<Event>)
    requires Inv(st) && i < |st.streams| && st.streams[i].job != OnFull
    ensures i < |Execute(Apply(st, Close(i)), events).streams|
    ensures var s, t := st.streams[i], Execute(Apply(st, Close(i)), events).streams[i];
            t.sent == s.sent && (Flatten(t.sent) == s.written <==> s.buffer == [])
  {
    hide Execute, Sum;
    var s := st.streams[i];
    SilentStays(Apply(st, Close(i)), events, i);
    assert Good(s, st.window, st.frame);
    assert |s.written| == |Flatten(s.sent)| + |s.buffer|;
    if s.buffer == [] { assert Flatten(s.sent) + [] == Flatten(s.sent); }
  }

  // ---- A job that never ends ------------------------------------------------------------------

  ghost predicate Abandoned(s: Stream) {
    s.job == OnFull && !s.full && !s.listed
  }

  lemma {:induction false} AbandonedStep(st: State, e: Event, i: nat)
    requires st.frame > 0 && i < |st.streams| && Abandoned(st.streams[i])
    ensures i < |Apply(st, e).streams|
    ensures Abandoned(Apply(st, e).streams[i]) && Apply(st, e).streams[i].sent == st.streams[i].sent
  {
    hide Sum, Flush;
  }

  /** When the peer ends a stream while its job waits for credit, no later event wakes the job: window
      updates only reach listed streams and `close` only sets the other event. */
  lemma {:induction false} AbandonedStays(st: State, events: seq<Event>, i: nat)
    requires st.frame > 0 && i < |st.streams| && Abandoned(st.streams[i])
    ensures i < |Execute(st, events).streams|
    ensures Abandoned(Execute(st, events).streams[i])
    ensures Execute(st, events).streams[i].sent == st.streams[i].sent
    decreases |events|
  {
    hide Apply, Abandoned;
    if events != [] {
      ApplyFrame(st, events[0]);
      AbandonedStep(st, events[0], i);
      AbandonedStays(Apply(st, events[0]), events[1..], i);
    }
  }

  /** The peer's end leaves a job that can never run again exactly when it waits for credit. */
  lemma {:induction false} PeerEndStrands(s: Stream, conn: nat, frame: nat)
    requires Good(s, conn, frame) && s.listed
    ensures Abandoned(Ended(s)) <==> s.job == OnFull && !s.full
    ensures !Abandoned(Ended(s)) <==> Runnable(Ended(s)) || s.job == Finished
  {
  }

  // ---- The objects ----------------------------------------------------------------------------

  class H2Connection {
    const client: bool
    const frame: nat
    var window: nat
    var granted: nat
    var streams: seq<Stream>

    constructor (isClient: bool, maxFrame: nat, initial: nat)
      requires maxFrame > 0
      ensures Valid() && St() == Initial(isClient, maxFrame, initial)
    {
      client, frame, window, granted, streams := isClient, maxFrame, initial, initial, [];
    }

    ghost function St(): State
      reads this
    {
      State(client, frame, window, granted, streams)
    }

    ghost predicate Valid()
      reads this
    {
      Inv(St())
    }

    method BeginStream(initial: nat) returns (ok: bool)
      requires Valid()
      modifies this`streams
      ensures Valid() && St() == Apply(old(St()), Begin(initial))
      ensures ok <==> client || Sum(Listed, old(streams)) < MAX_STREAMS
    {
      hide Good, Sum;
      BeginKeeps(St(), initial);
      if !client {
        var n := CountListed();
        if n >= MAX_STREAMS {
          return false;
        }
      }
      streams := streams + [NewStream(initial)];
      ok := true;
    }

    /** `len(streams)`. */
    method CountListed() returns (n: nat)
      ensures n == Sum(Listed, streams)
    {
      n := 0;
      for i := 0 to |streams|
        invariant n == Sum(Listed, streams[..i])
      {
        assert streams[..i + 1] == streams[..i] + [streams[i]];
        SumAppend(Listed, streams[..i], streams[i]);
        if streams[i].listed {
          n := n + 1;
        }
      }
      assert streams[..|streams|] == streams;
    }

    /** False when the write raises. */
    method WriteTo(i: nat, data: Bytes) returns (ok: bool)
      requires Valid() && i < |streams|
      modifies this`streams
      ensures Valid() && St() == Apply(old(St()), Write(i, data))
      ensures ok <==> |old(streams)[i].buffer| + |data| <= MAX_STREAM_BUFFER
    {
      hide Good, Sum;
      ApplyKeeps(St(), Write(i, data));
      var s := streams[i];
      if |s.buffer| + |data| > MAX_STREAM_BUFFER {
        assert streams[i := s] == streams;
        return false;
      }
      streams := streams[i := s.(buffer := s.buffer + data, wait := true, written := s.written + data)];
      ok := true;
    }

    method CloseStream(i: nat)
      requires Valid() && i < |streams|
      modifies this`streams
      ensures Valid() && St() == Apply(old(St()), Close(i))
    {
      hide Good, Sum;
      ApplyKeeps(St(), Close(i));
      streams := streams[i := streams[i].(closed := true, wait := true)];
    }

    /** `WindowUpdated`; `None` is stream 0. */
    method WindowUpdated(stream: Option<nat>, n: nat)
      requires Valid() && (stream.Some? ==> stream.value < |streams|)
      modifies this`window, this`granted, this`streams
      ensures Valid()
      ensures St() == Apply(old(St()), if stream.Some? then StreamCredit(stream.value, n) else ConnectionCredit(n))
    {
      hide Good, Sum;
      ApplyKeeps(St(), if stream.Some? then StreamCredit(stream.value, n) else ConnectionCredit(n));
      if stream.Some? {
        var s := streams[stream.value];
        var t := s.(window := s.window + n, granted := s.granted + n);
        streams := streams[stream.value := if t.listed then t.(full := true) else t];
      } else {
        window, granted := window + n, granted + n;
        for i := 0 to |streams|
          invariant |streams| == |old(streams)|
          invariant window == old(window) + n && granted == old(granted) + n
          invariant forall k | 0 <= k < i :: streams[k] == Woken(old(streams)[k])
          invariant forall k | i <= k < |streams| :: streams[k] == old(streams)[k]
        {
          if streams[i].listed {
            streams := streams[i := streams[i].(full := true)];
          }
        }
        assert streams == WakeAll(old(streams));
      }
    }

    method StreamEnded(i: nat)
      requires Valid() && i < |streams|
      modifies this`streams
      ensures Valid() && St() == Apply(old(St()), PeerEnds(i))
    {
      hide Good, Sum;
      ApplyKeeps(St(), PeerEnds(i));
      var s := streams[i];
      if s.listed {
        var t := s.(listed := false);
        streams := streams[i := if s.closed then t else t.(closed := true, wait := true)];
      } else {
        assert streams[i := s] == streams;
      }
    }

    /** `write_job`, from one suspension to the next. */
    method WriteJob(i: nat)
      requires Valid() && i < |streams| && Runnable(streams[i])
      modifies this`window, this`streams
      ensures Valid() && St() == Apply(old(St()), Resume(i))
    {
      ApplyKeeps(St(), Resume(i));
      var s, conn := streams[i], window;
      ghost var goal := Resumed(s, conn, frame);
      s, conn := RunJob(s, conn, goal);
      streams := streams[i := s];
      window := conn;
    }

    method RunJob(start: Stream, credit: nat, ghost goal: (Stream, nat)) returns (s: Stream, conn: nat)
      requires frame > 0 && Runnable(start) && (start.job == OnFull ==> start.buffer != [])
      requires goal == Resumed(start, credit, frame)
      ensures (s, conn) == goal
    {
      hide Flush;
      s, conn := start, credit;
      // Resumed inside the window loop, which `close` breaks; otherwise at the top.
      var broken := s.job == OnFull && s.closed;
      if s.job != OnFull && s.closed {
        s := s.(job := Finished);
        return;
      }
      while |s.buffer| > 0
        invariant broken ==> s.buffer != []
        invariant goal == Flush(if broken && Credit(conn, s) == 0 then Sent(s, 0) else s, conn, frame)
        decreases |s.buffer|, broken
      {
        FlushStep(s, conn, frame);
        if Credit(conn, s) == 0 && !broken {
          s := s.(full := false, job := OnFull);
          return;
        }
        var n := Min(Min(Credit(conn, s), |s.buffer|), frame);
        s := Sent(s, n);
        conn := conn - n;
        broken := false;
      }
      FlushStep(s, conn, frame);
      s := if s.closed then s.(job := Finished) else s.(wait := false, job := OnWait);
    }
  }
}
