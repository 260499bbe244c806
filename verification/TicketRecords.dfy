/** The record framing of the TLS-ticket plugin. Its loop waits for as many bytes as the record's
    payload, not for the five header bytes as well, so a record cut near its end is torn apart. */
module TicketRecords {
  import opened ByteStrings
  import opened Incremental
  import opened Framing
  import A = StreamAdapter

  const DATA: Bytes := [0x17, 0x03, 0x03]
  const HANDSHAKE: Bytes := [0x16, 0x03, 0x03]
  const CHANGE: Bytes := [0x14, 0x03, 0x03]

  function Size(buf: Bytes): nat
    requires |buf| >= 5
  {
    FromBE(buf[3..5])
  }

  /** What is removed and delivered once the loop does not wait; slices stop at the end of the buffer. */
  function Consume(buf: Bytes): Step<(), byte>
    requires |buf| >= 5
  {
    var end := if 5 + Size(buf) < |buf| then 5 + Size(buf) else |buf|;
    if buf[..3] == HANDSHAKE || buf[..3] == CHANGE then Next((), end, [])
    else if buf[..3] != DATA then Fail
    else Next((), end, buf[5..end])
  }

  /** The loop body as written. */
  function RecordTurn(buf: Bytes): Step<(), byte> {
    if |buf| < 5 || |buf| < Size(buf) then More else Consume(buf)
  }

  /** The same loop waiting for whole records. */
  function WholeTurn(buf: Bytes): Step<(), byte> {
    if |buf| < 5 || |buf| < 5 + Size(buf) then More else Consume(buf)
  }

  function Deframer(): Framer<(), byte> {
    Framer((st: (), buf: Bytes) => RecordTurn(buf), (st: ()) => 0)
  }

  function Whole(): Framer<(), byte> {
    Framer((st: (), buf: Bytes) => WholeTurn(buf), (st: ()) => 0)
  }

  /** The buffer ends inside the last five bytes of a record. */
  predicate Cut(buf: Bytes) {
    |buf| >= 5 && Size(buf) <= |buf| < 5 + Size(buf)
  }

  lemma {:induction false} WholeStable()
    ensures Stable(Whole())
  {
    hide FromBE;
    var f := Whole();
    forall st, buf, x | !f.step(st, buf).More?
      ensures f.step(st, buf + x) == f.step(st, buf)
    {
      var n := 5 + Size(buf);
      assert (buf + x)[..3] == buf[..3] && (buf + x)[3..5] == buf[3..5] && (buf + x)[5..n] == buf[5..n];
    }
  }

  /** The two loop bodies differ exactly on buffers that are cut there. */
  lemma {:induction false} DifferWhenCut(buf: Bytes)
    ensures RecordTurn(buf) == WholeTurn(buf) <==> !Cut(buf)
  {
    hide FromBE;
  }

  // ---- Runs without such cuts -----------------------------------------------------------------

  /** What is left after every chunk is not cut near the end of a record. */
  predicate Clean(rest: Bytes, chunks: seq<Bytes>)
    decreases |chunks|
  {
    chunks != [] ==>
      match Drain(Whole(), (), rest + chunks[0])
      case None => true
      case Some(((st, left), out)) => !Cut(left) && Clean(left, chunks[1..])
  }

  lemma {:induction false} CleanDrain(buf: Bytes)
    requires match Drain(Whole(), (), buf)
             case None => true
             case Some(((st, left), out)) => !Cut(left)
    ensures Drain(Deframer(), (), buf) == Drain(Whole(), (), buf)
    decreases |buf|
  {
    hide Stable, Size, Consume, FromBE, Cut, Drain;
    WholeStable();
    DrainStep(Whole(), (), buf);
    var n := Whole().step((), buf);
    DifferWhenCut(buf);
    if n.Next? {
      assert n.state == ();
      WholeNotCut(buf);
      OneTurn(buf);
      CleanDrain(buf[n.used..]);
    } else {
      if n.Fail? { WholeFailsUncut(buf); }
      Stops(buf);
    }
  }

  lemma {:induction false} WholeNotCut(buf: Bytes)
    requires WholeTurn(buf).Next?
    ensures !Cut(buf)
    ensures 0 < WholeTurn(buf).used <= |buf|
  {
    hide FromBE;
  }

  lemma {:induction false} WholeFailsUncut(buf: Bytes)
    requires WholeTurn(buf).Fail?
    ensures !Cut(buf)
  {
    hide FromBE;
  }

  /** A drain of the loop as written, taken turn by turn. */
  lemma {:induction false} OneTurn(buf: Bytes)
    requires RecordTurn(buf).Next? && 0 < RecordTurn(buf).used <= |buf|
    ensures Drain(Deframer(), (), buf) ==
            Prefixed(RecordTurn(buf).out, Drain(Deframer(), (), buf[RecordTurn(buf).used..]))
  {
    hide RecordTurn;
    var n := Deframer().step((), buf);
    assert n == RecordTurn(buf) && n.state == ();
    assert Advances(Deframer(), (), buf);
  }

  lemma {:induction false} Stops(b: Bytes)
    requires !RecordTurn(b).Next?
    ensures Drain(Deframer(), (), b) == if RecordTurn(b).More? then Some((((), b), [])) else None
  {
    hide RecordTurn;
  }

  /** On clean runs the loop as written is the one that waits for whole records. */
  lemma {:induction false} CleanRun(rest: Bytes, chunks: seq<Bytes>)
    requires Clean(rest, chunks)
    ensures Run(Framed(Deframer()), ((), rest), chunks) == Run(Framed(Whole()), ((), rest), chunks)
    decreases |chunks|
  {
    hide Drain, Cut;
    if chunks != [] {
      CleanDrain(rest + chunks[0]);
      if Framed(Whole()).feed(((), rest), chunks[0]).Some? {
        var st := Framed(Whole()).feed(((), rest), chunks[0]).value.0;
        assert st.0 == ();
        CleanRun(st.1, chunks[1..]);
      }
    }
  }

  // ---- Exactly those runs ---------------------------------------------------------------------

  /** What the loop as written makes of a buffer cut there: it consumes all of it or fails. */
  lemma {:induction false} CutConsumed(left: Bytes)
    requires Cut(left)
    ensures var r := Drain(Deframer(), (), left); r.Some? ==> r.value.0.1 == []
  {
    hide FromBE, Drain;
    if RecordTurn(left).Next? {
      OneTurn(left);
      EmptyDrains();
      assert left[|left|..] == [];
    } else {
      CutTurns(left);
      Stops(left);
    }
  }

  lemma {:induction false} CutTurns(left: Bytes)
    requires Cut(left)
    ensures !RecordTurn(left).More?
  {
    hide FromBE;
  }

  lemma {:induction false} EmptyDrains()
    ensures Drain(Deframer(), (), []) == Some((((), []), []))
  {
  }

  lemma {:induction false} TornDrain(buf: Bytes)
    requires match Drain(Whole(), (), buf)
             case None => false
             case Some(((st, left), out)) => Cut(left)
    ensures Drain(Deframer(), (), buf) != Drain(Whole(), (), buf)
    ensures var r := Drain(Deframer(), (), buf); r.Some? ==> r.value.0.1 == []
    decreases |buf|
  {
    hide Stable, Size, Consume, FromBE, Drain;
    WholeStable();
    DrainStep(Whole(), (), buf);
    var n := Whole().step((), buf);
    DifferWhenCut(buf);
    if n.Next? {
      assert n.state == ();
      WholeNotCut(buf);
      OneTurn(buf);
      TornDrain(buf[n.used..]);
    } else {
      CutConsumed(buf);
    }
  }

  /** After every chunk the same result, state and rest included. */
  ghost predicate SameThroughout(rest: Bytes, chunks: seq<Bytes>) {
    forall k | 0 <= k <= |chunks| ::
      Run(Framed(Deframer()), ((), rest), chunks[..k]) == Run(Framed(Whole()), ((), rest), chunks[..k])
  }

  lemma {:induction false} CleanPrefix(rest: Bytes, chunks: seq<Bytes>, k: nat)
    requires Clean(rest, chunks) && k <= |chunks|
    ensures Clean(rest, chunks[..k])
    decreases k
  {
    hide Drain, Cut;
    if k > 0 {
      var part := chunks[..k];
      assert part[0] == chunks[0] && part[1..] == chunks[1..][..k - 1];
      var r := Drain(Whole(), (), rest + chunks[0]);
      if r.Some? { CleanPrefix(r.value.0.1, chunks[1..], k - 1); }
    }
  }

  /** The first chunk after which the loop as written has torn a record. */
  lemma {:induction false} TornSomewhere(rest: Bytes, chunks: seq<Bytes>) returns (k: nat)
    requires !Clean(rest, chunks)
    ensures k <= |chunks|
    ensures Run(Framed(Deframer()), ((), rest), chunks[..k]) != Run(Framed(Whole()), ((), rest), chunks[..k])
    decreases |chunks|
  {
    hide Drain, Cut, Run;
    var d, w := Framed(Deframer()), Framed(Whole());
    var a := chunks[0];
    var ((st, left), out) := Drain(Whole(), (), rest + a).value;
    if Cut(left) {
      k := 1;
      TornDrain(rest + a);
      assert chunks[..1] == [a];
      RunOne(d, ((), rest), a);
      RunOne(w, ((), rest), a);
    } else {
      CleanDrain(rest + a);
      assert st == ();
      var j := TornSomewhere(left, chunks[1..]);
      k := j + 1;
      assert chunks[..k] == [a] + chunks[1..][..j];
      RunFirst(d, ((), rest), a, chunks[1..][..j]);
      RunFirst(w, ((), rest), a, chunks[1..][..j]);
      PrefixedDiffers(out, Run(d, ((), left), chunks[1..][..j]), Run(w, ((), left), chunks[1..][..j]));
    }
  }

  lemma {:induction false} PrefixedDiffers<S, O>(out: seq<O>, a: Option<(S, seq<O>)>, b: Option<(S, seq<O>)>)
    requires a != b
    ensures Prefixed(out, a) != Prefixed(out, b)
  {
    if a.Some? && b.Some? && out + a.value.1 == out + b.value.1 {
      assert a.value.1 == (out + a.value.1)[|out|..];
      assert b.value.1 == (out + b.value.1)[|out|..];
    }
  }

  /** The loop as written behaves like the one that waits for whole records, chunk after chunk and on
      any input, exactly on clean runs. */
  lemma {:induction false} CleanExactly(rest: Bytes, chunks: seq<Bytes>)
    ensures SameThroughout(rest, chunks) <==> Clean(rest, chunks)
  {
    hide Run, Clean;
    if Clean(rest, chunks) {
      forall k | 0 <= k <= |chunks|
        ensures Run(Framed(Deframer()), ((), rest), chunks[..k]) == Run(Framed(Whole()), ((), rest), chunks[..k])
      {
        CleanPrefix(rest, chunks, k);
        CleanRun(rest, chunks[..k]);
      }
    } else {
      var k := TornSomewhere(rest, chunks);
    }
  }

  // ---- The framer -----------------------------------------------------------------------------

  function Record(s: Bytes): Bytes
    requires |s| < 0x1_0000
  {
    TwoBytes(|s|);
    DATA + ToBE(|s|, 2) + s
  }

  /** `encrypt`: random record sizes while more than 2048 bytes are left; `draws(k)` is the k-th
      `random.randrange(4096)`. */
  function Records(draws: nat -> nat, k: nat, s: Bytes): (nat, Bytes)
    decreases |s|
  {
    if s == [] then (k, [])
    else if |s| <= 2048 then (k, Record(s))
    else
      var drawn := draws(k) % 4096 + 100;
      var size := if drawn < |s| then drawn else |s|;
      var (last, rest) := Records(draws, k + 1, s[size..]);
      (last, Record(s[..size]) + rest)
  }

  lemma {:induction false} RecordTaken(s: Bytes)
    requires |s| < 0x1_0000
    ensures |Record(s)| == 5 + |s| && Size(Record(s)) == |s| && Record(s)[..3] == DATA && Record(s)[5..] == s
    ensures WholeTurn(Record(s)) == Next((), |Record(s)|, s)
  {
    hide FromBE, ToBE;
    TwoBytes(|s|);
    BERoundTrip(|s|, 2);
    var r := Record(s);
    assert r[3..5] == ToBE(|s|, 2) && r[5..] == s && r[..3] == DATA;
    assert r[5..|r|] == s;
  }

  lemma {:induction false} RecordsTaken(draws: nat -> nat, k: nat, s: Bytes)
    ensures Drain(Whole(), (), Records(draws, k, s).1) == Some((((), []), s))
    decreases |s|
  {
    hide Drain, Stable, Record, WholeTurn;
    WholeStable();
    NothingDrains();
    if s != [] {
      if |s| <= 2048 {
        RecordFront(s, []);
        assert Record(s) + [] == Record(s) && s + [] == s;
      } else {
        var drawn := draws(k) % 4096 + 100;
        var size := if drawn < |s| then drawn else |s|;
        RecordsTaken(draws, k + 1, s[size..]);
        RecordFront(s[..size], Records(draws, k + 1, s[size..]).1);
        assert s[..size] + s[size..] == s;
      }
    }
  }

  lemma {:induction false} NothingDrains()
    ensures Drain(Whole(), (), []) == Some((((), []), []))
  {
  }

  lemma {:induction false} RecordFront(s: Bytes, rest: Bytes)
    requires |s| < 0x1_0000
    ensures Drain(Whole(), (), Record(s) + rest) == Prefixed(s, Drain(Whole(), (), rest))
  {
    hide Drain, Stable, Record, WholeTurn;
    WholeStable();
    RecordTaken(s);
    DrainTurn(Whole(), (), Record(s), rest);
  }

  /** Part i is as many bytes as drawn while more than 2048 are left, if there are as many, else all of them. */
  predicate Sized(draws: nat -> nat, k: nat, parts: seq<Bytes>, i: nat)
    requires i < |parts|
  {
    var left, drawn := |Flatten(parts[i..])|, 100 + draws(k + i) % 4096;
    0 < |parts[i]| == if left > 2048 && drawn < left then drawn else left
  }

  /** Application-data records of those texts. */
  function Wire(parts: seq<Bytes>): Bytes
    decreases |parts|
  {
    if parts == [] then []
    else
      var n := |parts[0]|;
      [0x17, 0x03, 0x03, n / 256 % 256, n % 256] + parts[0] + Wire(parts[1..])
  }

  /** One call writes its argument in parts of such sizes as records, in order. */
  lemma {:induction false} RecordsLayout(draws: nat -> nat, k: nat, s: Bytes) returns (parts: seq<Bytes>)
    ensures Flatten(parts) == s && (s == [] ==> parts == [])
    ensures forall i | 0 <= i < |parts| :: Sized(draws, k, parts, i) && |parts[i]| < 0x1_0000
    ensures Records(draws, k, s).0 ==
            (if parts == [] || |parts[|parts| - 1]| > 2048 then k + |parts| else k + |parts| - 1)
    ensures Records(draws, k, s).1 == Wire(parts)
    decreases |s|
  {
    hide Record, Wire, Flatten, Records, Sized;
    RecordsStep(draws, k, s);
    NoRecords();
    if s == [] {
      parts := [];
    } else {
      var size := Taken(draws, k, s);
      var last := RecordsLayout(draws, k + 1, s[size..]);
      parts := [s[..size]] + last;
      FlattenCons(s[..size], last);
      RecordIs(s[..size], last);
      assert s[..size] + s[size..] == s;
      FirstSized(draws, k, s, parts);
      forall i | 0 < i < |parts|
        ensures Sized(draws, k, parts, i) && |parts[i]| < 0x1_0000
      {
        LaterSized(draws, k, parts, last, i);
      }
      RecordsStep(draws, k, []);
      RecordsStep(draws, k + 1, []);
      assert size == |s| ==> s[size..] == [];
    }
  }

  lemma {:induction false} NoRecords()
    ensures Flatten<byte>([]) == [] && Wire([]) == []
  {
  }

  function Taken(draws: nat -> nat, k: nat, s: Bytes): (n: nat)
    requires s != []
    ensures 0 < n <= |s| && n < 0x1_0000
  {
    var drawn := draws(k) % 4096 + 100;
    if |s| > 2048 && drawn < |s| then drawn else |s|
  }

  lemma {:induction false} RecordsStep(draws: nat -> nat, k: nat, s: Bytes)
    ensures s == [] ==> Records(draws, k, s) == (k, [])
    ensures s != [] ==>
              var size := Taken(draws, k, s);
              var next := if |s| > 2048 then k + 1 else k;
              Records(draws, k, s) ==
              (Records(draws, next, s[size..]).0, Record(s[..size]) + Records(draws, next, s[size..]).1)
  {
    if 0 < |s| <= 2048 {
      assert s[..|s|] == s && s[|s|..] == [];
      assert Record(s) + [] == Record(s);
    }
  }

  lemma {:induction false} FirstSized(draws: nat -> nat, k: nat, s: Bytes, parts: seq<Bytes>)
    requires s != [] && parts != [] && Flatten(parts) == s && parts[0] == s[..Taken(draws, k, s)]
    ensures Sized(draws, k, parts, 0)
  {
    hide Flatten;
    assert parts[0..] == parts;
  }

  lemma {:induction false} LaterSized(draws: nat -> nat, k: nat, parts: seq<Bytes>, last: seq<Bytes>, i: nat)
    requires 0 < i < |parts| && parts[1..] == last && Sized(draws, k + 1, last, i - 1)
    ensures Sized(draws, k, parts, i)
  {
    hide Flatten;
    assert parts[i..] == last[i - 1..] && k + i == k + 1 + (i - 1);
  }

  lemma {:induction false} RecordIs(s: Bytes, rest: seq<Bytes>)
    requires |s| < 0x1_0000
    ensures Wire([s] + rest) == Record(s) + Wire(rest)
  {
    hide ToBE;
    TwoBytes(|s|);
    assert ([s] + rest)[1..] == rest;
  }

  /** A whole record of any content: application data is delivered, handshake and cipher-change records are
      skipped, anything else is refused. */
  lemma {:induction false} WholeRecord(kind: Bytes, s: Bytes, rest: Bytes)
    requires |kind| == 3 && |s| < 0x1_0000
    ensures RecordTurn(kind + [|s| / 256, |s| % 256] + s + rest) ==
            if kind == [0x17, 0x03, 0x03] then Next((), |s| + 5, s)
            else if kind == [0x16, 0x03, 0x03] || kind == [0x14, 0x03, 0x03] then Next((), |s| + 5, [])
            else Fail
  {
    hide FromBE;
    var buf := kind + [|s| / 256, |s| % 256] + s + rest;
    TwoBytes(|s|);
    assert buf[..3] == kind && buf[3..5] == [|s| / 256, |s| % 256] && buf[5..5 + |s|] == s;
  }

  predicate Idle(k: nat, st: ((), Bytes)) {
    st.1 == []
  }

  function RecordEncoder(draws: nat -> nat): (nat, Bytes) -> Option<(nat, Bytes)> {
    (k: nat, s: Bytes) => Some(Records(draws, k, s))
  }

  lemma {:induction false} RecordsInvert(draws: nat -> nat)
    ensures Lawful(Framed(Whole()))
    ensures Inverts(A.Single(RecordEncoder(draws)), Framed(Whole()), Idle, Same)
  {
    hide WholeTurn, Drain, Records;
    var e, d := A.Single(RecordEncoder(draws)), Framed(Whole());
    WholeStable();
    FramedLawful(Whole());
    forall k, st, data | Idle(k, st) && e.write(k, data).Some?
      ensures Undone(e.write(k, data).value, d, st, Idle, Same(data))
    {
      RecordsTaken(draws, k, data);
      var out := Records(draws, k, data).1;
      FlattenOne(out);
      assert [] + out == out && st.0 == ();
    }
    forall k, st | Idle(k, st)
      ensures d.ready(st)
    {
      EmptyWaits();
    }
  }

  lemma {:induction false} EmptyWaits()
    ensures WholeTurn([]).More?
  {
  }

  /** Any writes, any record sizes: what arrives in chunks that are not cut near the end of a record is
      delivered in full. */
  lemma {:induction false} CleanDelivery(draws: nat -> nat, k: nat, writes: seq<Bytes>, chunks: seq<Bytes>)
    requires WriteAll(A.Single(RecordEncoder(draws)), k, writes).Some?
    requires Flatten(chunks) <= Flatten(WriteAll(A.Single(RecordEncoder(draws)), k, writes).value.1)
    requires Clean([], chunks)
    ensures var got := Run(Framed(Deframer()), ((), []), chunks);
            && got.Some? && got.value.1 <= Flatten(writes)
            && (Flatten(chunks) == Flatten(WriteAll(A.Single(RecordEncoder(draws)), k, writes).value.1) ==>
                  got.value.1 == Flatten(writes))
  {
    RecordsInvert(draws);
    Delivery(A.Single(RecordEncoder(draws)), Framed(Whole()), Idle, Same, k, ((), []), writes, chunks);
    ViewsSame(writes);
    CleanRun([], chunks);
  }

  // ---- Runs with one --------------------------------------------------------------------------

  function Output(record: Bytes, at: nat): Option<Bytes>
    requires at <= |record|
  {
    match Run(Framed(Deframer()), ((), []), [record[..at], record[at..]])
    case None => None
    case Some((st, out)) => Some(out)
  }

  /** One record in two chunks: it is delivered exactly when the first chunk does not reach into its
      last five bytes, or holds all of it, or not yet the header. */
  lemma {:induction false} CutRecord(s: Bytes, at: nat)
    requires |s| < 0x1_0000 && at <= |Record(s)|
    ensures Output(Record(s), at) == Some(s) <==> at < 5 || at < |s| || at == 5 + |s|
  {
    hide Drain, Record, Run;
    var r := Record(s);
    RecordTaken(s);
    var a, b := r[..at], r[at..];
    RunTwo(Framed(Deframer()), ((), []), a, b);
    assert [] + a == a && a + b == r;
    if at < 5 || at < |s| {
      Waits(r, s, at);
      WholeRecordDrains(s);
      assert [] + s == s;
    } else if at == 5 + |s| {
      assert a == r && [] + b == [];
      WholeRecordDrains(s);
      EmptyDrains();
      assert s + [] == s;
    } else {
      TornDrains(r, s, at);
      TailDrains(b);
      assert [] + b == b;
      var part := s[..at - 5];
      assert part + [] == part && |part| < |s|;
    }
  }

  lemma {:induction false} Waits(r: Bytes, s: Bytes, at: nat)
    requires |s| < 0x1_0000 && r == Record(s) && at <= |r| && (at < 5 || at < |s|)
    ensures Drain(Deframer(), (), r[..at]) == Some((((), r[..at]), []))
  {
    hide Record;
    RecordTaken(s);
    if at >= 5 { assert r[..at][3..5] == r[3..5]; }
  }

  lemma {:induction false} WholeRecordDrains(s: Bytes)
    requires |s| < 0x1_0000
    ensures Drain(Deframer(), (), Record(s)) == Some((((), []), s))
  {
    hide Record, Drain;
    RecordFront(s, []);
    NothingDrains();
    assert Record(s) + [] == Record(s) && s + [] == s;
    CleanDrain(Record(s));
  }

  lemma {:induction false} TornDrains(r: Bytes, s: Bytes, at: nat)
    requires |s| < 0x1_0000 && r == Record(s) && 5 <= at < 5 + |s| && |s| <= at
    ensures Drain(Deframer(), (), r[..at]) == Some((((), []), s[..at - 5]))
  {
    hide Record, Drain, FromBE;
    RecordTaken(s);
    var a := r[..at];
    assert a[..3] == r[..3] && a[3..5] == r[3..5] && a[5..at] == s[..at - 5];
    assert RecordTurn(a) == Next((), at, s[..at - 5]);
    OneTurn(a);
    EmptyDrains();
    assert a[at..] == [] && s[..at - 5] + [] == s[..at - 5];
  }

  /** The last bytes of a torn record give no output, whatever they look like. */
  lemma {:induction false} TailDrains(b: Bytes)
    requires |b| <= 5
    ensures var r := Drain(Deframer(), (), b); r.Some? ==> r.value.1 == []
  {
    hide FromBE, Drain;
    if RecordTurn(b).Next? {
      OneTurn(b);
      EmptyDrains();
      assert b[5..] == [];
    } else {
      Stops(b);
    }
  }

  // ---- The object -----------------------------------------------------------------------------

  class TicketFraming {
    const draws: nat -> nat
    var buf: Bytes
    var drawn: nat

    constructor (d: nat -> nat)
      ensures draws == d && buf == [] && drawn == 0
    {
      draws, buf, drawn := d, [], 0;
    }

    /** `None` when the check of the record type raises. */
    method Decrypt(s: Bytes) returns (plain: Option<Bytes>)
      modifies this`buf
      ensures match Drain(Deframer(), (), old(buf) + s)
              case None => plain == None
              case Some((st, out)) => plain == Some(out) && buf == st.1
    {
      hide Prefixed, FromBE, Drain;
      ghost var all := Drain(Deframer(), (), buf + s);
      buf := buf + s;
      var ret: Bytes := [];
      PrefixedUnit(all);
      while |buf| >= 5
        invariant all == Prefixed(ret, Drain(Deframer(), (), buf))
        decreases |buf|
      {
        ghost var prev, got := buf, ret;
        var l := FromBE(buf[3..5]);
        if |buf| < l { break; }
        var end := if 5 + l < |buf| then 5 + l else |buf|;
        var data: Bytes := [];
        if buf[..3] != HANDSHAKE && buf[..3] != CHANGE {
          if buf[..3] != DATA {
            Stops(buf);
            PrefixedOf<((), Bytes), byte>(ret, None);
            return None;
          }
          data := buf[5..end];
        }
        OneTurn(buf);
        ret := ret + data;
        buf := buf[end..];
        PrefixedTwice(got, data, Drain(Deframer(), (), buf));
      }
      Stops(buf);
      PrefixedOf(ret, Some((((), buf), [])));
      assert ret + [] == ret;
      return Some(ret);
    }

    method Encrypt(s: Bytes) returns (out: Bytes)
      modifies this`drawn
      ensures (drawn, out) == Records(draws, old(drawn), s)
    {
      hide Record;
      out := [];
      var rest := s;
      ghost var all := Records(draws, drawn, s);
      assert [] + all.1 == all.1;
      while |rest| > 2048
        invariant all.0 == Records(draws, drawn, rest).0 && all.1 == out + Records(draws, drawn, rest).1
        decreases |rest|
      {
        var size := draws(drawn) % 4096 + 100;
        if size > |rest| {
          size := |rest|;
        }
        ghost var more := Records(draws, drawn + 1, rest[size..]).1;
        assert out + (Record(rest[..size]) + more) == (out + Record(rest[..size])) + more;
        out := out + Record(rest[..size]);
        drawn := drawn + 1;
        rest := rest[size..];
      }
      if rest != [] {
        out := out + Record(rest);
      } else {
        assert out + [] == out;
      }
    }
  }
}
