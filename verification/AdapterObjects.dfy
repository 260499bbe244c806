/** The mutable objects around the stream adapters: the adapter itself and the patched reader. */
module AdapterObjects {
  import opened ByteStrings
  import opened Incremental
  import A = StreamAdapter

  class StreamCipherAdapter<C, P, Q> {
    const layer: A.Layer<C, P, Q>
    var readerIv: Option<Bytes>
    var readerState: Option<C>
    var streamBuffer: Bytes
    var readerWire: P
    var readerPlain: P
    var writerIv: Option<Bytes>
    var writerState: Option<C>
    var writerWire: Q
    var writerPlain: Q

    ghost predicate Valid()
      reads this
    {
      && readerIv.Some? == readerState.Some? && writerIv.Some? == writerState.Some?
      && (readerIv.Some? ==> |readerIv.value| == layer.cipher.ivLength)
      && (layer.cipher.ivLength == 0 ==> streamBuffer == [])
    }

    ghost function Reading(): A.Inbound<C, P>
      requires Valid()
      reads this
    {
      A.Inbound(if readerIv.None? then A.Unset(streamBuffer) else A.Set(readerIv.value, readerState.value),
                readerWire, readerPlain)
    }

    ghost function Writing(drawn: Bytes): A.Outbound<C, Q>
      requires Valid()
      reads this
    {
      A.Outbound(if writerIv.None? then A.Unset([]) else A.Set(writerIv.value, writerState.value),
                 drawn, writerWire, writerPlain)
    }

    constructor (layer: A.Layer<C, P, Q>, readerWire: P, readerPlain: P, writerWire: Q, writerPlain: Q)
      ensures Valid() && this.layer == layer
      ensures Reading() == A.Inbound(A.Unset([]), readerWire, readerPlain)
      ensures forall drawn :: Writing(drawn) == A.Outbound(A.Unset([]), drawn, writerWire, writerPlain)
    {
      this.layer := layer;
      readerIv, readerState, streamBuffer := None, None, [];
      writerIv, writerState := None, None;
      this.readerWire, this.readerPlain := readerWire, readerPlain;
      this.writerWire, this.writerPlain := writerWire, writerPlain;
    }

    /** One inbound call; `None` when a callback or the cipher raised, after which the connection is
        closed and the adapter is not used again. */
    method Decrypt(raw: Bytes) returns (plain: Option<Bytes>)
      requires Valid()
      modifies this`readerIv, this`readerState, this`streamBuffer, this`readerWire, this`readerPlain
      ensures match A.Decrypt(layer, old(Reading()), raw)
              case None => plain == None
              case Some((st, out)) => Valid() && Reading() == st && plain == Some(out)
    {
      var unwrapped := layer.pdecrypt2.feed(readerWire, raw);
      if unwrapped.None? { return None; }
      readerWire := unwrapped.value.0;
      var data := unwrapped.value.1;
      if readerIv.None? || readerIv.value == [] {
        data := streamBuffer + data;
        if |data| < layer.cipher.ivLength {
          streamBuffer := data;
          return Some([]);
        }
        readerIv := Some(data[..layer.cipher.ivLength]);
        readerState := Some(layer.cipher.start(data[..layer.cipher.ivLength]));
        data := data[layer.cipher.ivLength..];
      }
      var unsealed := layer.cipher.decrypt(readerState.value, data);
      if unsealed.None? { return None; }
      readerState := Some(unsealed.value.0);
      var unframed := layer.pdecrypt.feed(readerPlain, unsealed.value.1);
      if unframed.None? { return None; }
      readerPlain := unframed.value.0;
      return Some(unframed.value.1);
    }

    /** One outbound call; the result lists the raw writes in order, `drawn` is the random vector used
        if none has been sent yet. */
    method Write(data: Bytes, drawn: Bytes) returns (raw: Option<seq<Bytes>>)
      requires Valid()
      modifies this`writerIv, this`writerState, this`writerWire, this`writerPlain
      ensures match A.Write(layer, old(Writing(drawn)), data)
              case None => raw == None
              case Some((st, out)) => Valid() && Writing(drawn) == st && raw == Some(out)
    {
      var sent: seq<Bytes> := [];
      if writerIv.None? || writerIv.value == [] {
        writerIv, writerState := Some(drawn), Some(layer.cipher.start(drawn));
        var head := layer.pencrypt2(writerWire, drawn);
        if head.None? { return None; }
        writerWire := head.value.0;
        sent := [head.value.1];
      }
      if data == [] { return Some(sent); }
      var framed := layer.pencrypt(writerPlain, data);
      if framed.None? { return None; }
      writerPlain := framed.value.0;
      var body := layer.cipher.encrypt(writerState.value, framed.value.1);
      if body.None? { return None; }
      writerState := Some(body.value.0);
      var wrapped := layer.pencrypt2(writerWire, body.value.1);
      if wrapped.None? { return None; }
      writerWire := wrapped.value.0;
      assert sent == [] ==> sent + [wrapped.value.1] == [wrapped.value.1];
      return Some(sent + [wrapped.value.1]);
    }
  }

  function Rejoin<S>(done: seq<S>, r: Option<(seq<S>, Bytes)>): Option<(seq<S>, Bytes)> {
    match r
    case None => None
    case Some((rest, out)) => Some((done + rest, out))
  }

  lemma {:induction false} RejoinOf<S>(done: seq<S>, r: Option<(seq<S>, Bytes)>)
    ensures Rejoin(done, r) == if r.None? then None else Some((done + r.value.0, r.value.1))
  {
  }

  lemma {:induction false} RejoinEmpty<S>(r: Option<(seq<S>, Bytes)>)
    ensures Rejoin([], r) == r
  {
    if r.Some? { assert [] + r.value.0 == r.value.0; }
  }

  lemma {:induction false} RejoinCons<S>(done: seq<S>, s: S, r: Option<(seq<S>, Bytes)>)
    ensures Rejoin(done + [s], r) == Rejoin(done, Rejoin([s], r))
  {
    if r.Some? { assert done + [s] + r.value.0 == done + ([s] + r.value.0); }
  }

  /** The turn of decoder i in the loop of `feed_data`. */
  lemma {:induction false} StackTurn<S>(ds: seq<Decoder<S, byte>>, st: seq<S>, i: nat, d: Bytes)
    requires |ds| == |st| && i <= |ds|
    ensures StackFeed(ds[i..], st[i..], d) ==
            if i == |ds| then Some(([], d))
            else
              match ds[i].feed(st[i], d)
              case None => None
              case Some((s, mid)) =>
                if mid == [] then Some(([s] + st[i + 1..], []))
                else Rejoin([s], StackFeed(ds[i + 1..], st[i + 1..], mid))
  {
    if i == |ds| {
      assert ds[i..] == [] && st[i..] == [];
    } else {
      assert ds[i..][1..] == ds[i + 1..] && st[i..][1..] == st[i + 1..];
    }
  }

  /** Whether what the stack raises is a `ProtocolError`; `kinds[i]` says that of decoder i in a state
      on some input. */
  predicate Protocol<S>(ds: seq<Decoder<S, byte>>, kinds: seq<(S, Bytes) -> bool>, st: seq<S>, a: Bytes)
    requires |ds| == |kinds| == |st|
    decreases |ds|
  {
    ds != [] &&
    match ds[0].feed(st[0], a)
    case None => kinds[0](st[0], a)
    case Some((s, mid)) => mid != [] && Protocol(ds[1..], kinds[1..], st[1..], mid)
  }

  lemma {:induction false} ProtocolTurn<S>(
    ds: seq<Decoder<S, byte>>, kinds: seq<(S, Bytes) -> bool>, st: seq<S>, i: nat, d: Bytes)
    requires |ds| == |kinds| == |st| && i < |ds|
    ensures Protocol(ds[i..], kinds[i..], st[i..], d) ==
            match ds[i].feed(st[i], d)
            case None => kinds[i](st[i], d)
            case Some((s, mid)) => mid != [] && Protocol(ds[i + 1..], kinds[i + 1..], st[i + 1..], mid)
  {
    assert ds[i..][1..] == ds[i + 1..] && kinds[i..][1..] == kinds[i + 1..] && st[i..][1..] == st[i + 1..];
  }

  /** A stream reader whose `feed_data` runs the installed decoders in order before storing; without
      any it has no `decrypts` yet. */
  class Reader<S> {
    var decrypts: seq<Decoder<S, byte>>
    var kinds: seq<(S, Bytes) -> bool>
    var states: seq<S>
    var buffer: Bytes
    var writerClosed: bool

    ghost predicate Valid()
      reads this
    {
      |decrypts| == |kinds| == |states|
    }

    constructor ()
      ensures Valid() && decrypts == [] && states == [] && buffer == [] && !writerClosed
    {
      decrypts, kinds, states, buffer, writerClosed := [], [], [], [], false;
    }

    /** False when a decoder raised: the writer is closed for a `ProtocolError` and nothing is stored. */
    method FeedData(data: Bytes) returns (ok: bool)
      requires Valid()
      modifies this`states, this`buffer, this`writerClosed
      ensures Valid() && ok == StackFeed(decrypts, old(states), data).Some?
      ensures match StackFeed(decrypts, old(states), data)
              case None =>
                && buffer == old(buffer)
                && writerClosed == (old(writerClosed) || Protocol(decrypts, kinds, old(states), data))
              case Some((st, out)) =>
                states == st && buffer == old(buffer) + out && writerClosed == old(writerClosed)
    {
      hide StackFeed, Rejoin, Protocol;
      var d := data;
      var i := 0;
      ghost var before := states;
      assert decrypts[0..] == decrypts && before[0..] == before && kinds[0..] == kinds;
      RejoinEmpty(StackFeed(decrypts, before, data));
      while i < |decrypts|
        invariant 0 <= i <= |decrypts| == |kinds| == |states| == |before|
        invariant states[i..] == before[i..]
        invariant buffer == old(buffer) && writerClosed == old(writerClosed)
        invariant StackFeed(decrypts, before, data) ==
                  Rejoin(states[..i], StackFeed(decrypts[i..], before[i..], d))
        invariant Protocol(decrypts, kinds, before, data) == Protocol(decrypts[i..], kinds[i..], before[i..], d)
      {
        var r := decrypts[i].feed(states[i], d);
        assert states[i] == before[i] by { assert states[i..][0] == before[i..][0]; }
        StackTurn(decrypts, before, i, d);
        ProtocolTurn(decrypts, kinds, before, i, d);
        if r.None? {
          RejoinOf(states[..i], None);
          if kinds[i](states[i], d) {
            writerClosed := true;
          }
          return false;
        }
        ghost var prev := states;
        states := states[i := r.value.0];
        d := r.value.1;
        assert states[..i + 1] == prev[..i] + [r.value.0];
        assert states[i + 1..] == before[i + 1..] by { assert prev[i + 1..] == prev[i..][1..]; }
        if d == [] {
          RejoinOf(prev[..i], Some(([r.value.0] + before[i + 1..], [])));
          assert states == prev[..i] + ([r.value.0] + before[i + 1..]);
          return true;
        }
        RejoinCons(prev[..i], r.value.0, StackFeed(decrypts[i + 1..], before[i + 1..], d));
        i := i + 1;
      }
      StackTurn(decrypts, before, i, d);
      RejoinOf(states[..i], Some(([], d)));
      assert states[..i] + [] == states;
      buffer := buffer + d;
      return true;
    }

    /** `attach`: the first adapter also decodes what is already stored, a later one is only appended. */
    method Attach(d: Decoder<S, byte>, kind: (S, Bytes) -> bool, initial: S) returns (ok: bool)
      requires Valid()
      modifies this
      ensures Valid() && decrypts == old(decrypts) + [d] && kinds == old(kinds) + [kind]
      ensures old(decrypts) != [] || old(buffer) == [] ==>
                && ok && states == old(states) + [initial]
                && buffer == old(buffer) && writerClosed == old(writerClosed)
      ensures old(decrypts) == [] && old(buffer) != [] ==>
                match d.feed(initial, old(buffer))
                case None => !ok && buffer == [] && writerClosed == (old(writerClosed) || kind(initial, old(buffer)))
                case Some((s, out)) => ok && states == [s] && buffer == out && writerClosed == old(writerClosed)
    {
      hide StackFeed, Protocol;
      var first := decrypts == [];
      decrypts, kinds, states := decrypts + [d], kinds + [kind], states + [initial];
      if first {
        var buffered := TakeBuffer();
        if buffered != [] {
          StackOfOne(d, kind, initial, buffered);
          assert decrypts == [d] && kinds == [kind] && states == [initial];
          ok := FeedData(buffered);
          assert [] + buffer == buffer;
          return;
        }
      }
      return true;
    }

    /** `patch_ota_reader`: install one more decoder and push what is already buffered through it. */
    method Install(d: Decoder<S, byte>, kind: (S, Bytes) -> bool, initial: S) returns (ok: bool)
      requires Valid()
      modifies this`decrypts, this`kinds, this`states, this`buffer
      ensures Valid()
      ensures ok == (old(buffer) == [] || d.feed(initial, old(buffer)).Some?)
      ensures ok ==> decrypts == old(decrypts) + [d] && kinds == old(kinds) + [kind]
      ensures ok && old(buffer) == [] ==> states == old(states) + [initial] && buffer == []
      ensures ok && old(buffer) != [] ==>
                && states == old(states) + [d.feed(initial, old(buffer)).value.0]
                && buffer == d.feed(initial, old(buffer)).value.1
    {
      decrypts, kinds, states := decrypts + [d], kinds + [kind], states + [initial];
      var buffered := TakeBuffer();
      if buffered != [] {
        var r := d.feed(initial, buffered);
        if r.None? { return false; }
        states := states[|states| - 1 := r.value.0];
        Prepend(r.value.1);
      }
      return true;
    }

    method TakeBuffer() returns (b: Bytes)
      modifies this`buffer
      ensures b == old(buffer) && buffer == []
    {
      b := buffer;
      buffer := [];
    }

    method Prepend(data: Bytes)
      modifies this`buffer
      ensures buffer == data + old(buffer)
    {
      if data != [] { buffer := data + buffer; }
    }
  }

  lemma {:induction false} StackOfOne<S>(d: Decoder<S, byte>, kind: (S, Bytes) -> bool, s: S, a: Bytes)
    ensures StackFeed([d], [s], a) ==
            match d.feed(s, a)
            case None => None
            case Some((u, out)) => Some(([u], out))
    ensures d.feed(s, a).None? ==> Protocol([d], [kind], [s], a) == kind(s, a)
  {
    if d.feed(s, a).Some? {
      var out := d.feed(s, a).value.1;
      assert StackFeed([d][1..], [s][1..], out) == Some(([], out));
      assert [d.feed(s, a).value.0] + [] == [d.feed(s, a).value.0];
      assert [s][1..] == [];
    }
  }

  // ---- Installing a decoder in mid-stream -----------------------------------------------------

  lemma {:induction false} StackPush<S(!new)>(
    ds: seq<Decoder<S, byte>>, d: Decoder<S, byte>, st: seq<S>, s: S, a: Bytes)
    requires |ds| == |st|
    requires Lawful(d) && d.ready(s)
    ensures StackFeed(ds + [d], st + [s], a) == Pushed(d, s, StackFeed(ds, st, a))
  {
    var es, et := ds + [d], st + [s];
    if ds == [] {
      assert es == [d] && et == [s];
      if d.feed(s, a).Some? {
        var (u, out) := d.feed(s, a).value;
        assert StackFeed(es[1..], et[1..], out) == Some(([], out));
        assert [u] + et[1..] == [u] + [] == [] + [u];
      }
    } else {
      assert es[1..] == ds[1..] + [d] && et[1..] == st[1..] + [s];
      assert es[0] == ds[0] && et[0] == st[0];
      var r := ds[0].feed(st[0], a);
      if r.Some? {
        var (u, mid) := r.value;
        StackPush(ds[1..], d, st[1..], s, mid);
        PushedCons(d, s, u, StackFeed(ds[1..], st[1..], mid));
        if mid == [] {
          assert [u] + (st[1..] + [s]) == [u] + st[1..] + [s];
          assert d.feed(s, []) == Some((s, []));
        }
      }
    }
  }

  function Pushed<S>(d: Decoder<S, byte>, s: S, r: Option<(seq<S>, Bytes)>): Option<(seq<S>, Bytes)> {
    match r
    case None => None
    case Some((t, mid)) =>
      match d.feed(s, mid)
      case None => None
      case Some((u, out)) => Some((t + [u], out))
  }

  lemma {:induction false} PushedCons<S>(d: Decoder<S, byte>, s: S, x: S, r: Option<(seq<S>, Bytes)>)
    ensures Pushed(d, s, Rejoin([x], r)) == Rejoin([x], Pushed(d, s, r))
  {
    if r.Some? && d.feed(s, r.value.1).Some? {
      var u := d.feed(s, r.value.1).value.0;
      assert [x] + r.value.0 + [u] == [x] + (r.value.0 + [u]);
    }
  }

  /** Installing a lawful decoder gives the same total output wherever the stream happened to be cut:
      `early` was buffered when `Install` ran, `late` reached `FeedData` afterwards. */
  lemma {:induction false} InstallAnywhere<S(!new)>(
    ds: seq<Decoder<S, byte>>, d: Decoder<S, byte>, initial: S, st: seq<S>, early: Bytes, late: Bytes)
    requires |ds| == |st| && Lawful(d) && d.ready(initial)
    requires StackFeed(ds, st, late).Some?
    requires d.feed(initial, early + StackFeed(ds, st, late).value.1).Some?
    ensures d.feed(initial, early).Some?
    ensures var (s, first) := d.feed(initial, early).value;
            var r := StackFeed(ds + [d], st + [s], late);
            r.Some? && first + r.value.1 == d.feed(initial, early + StackFeed(ds, st, late).value.1).value.1
  {
    var mid := StackFeed(ds, st, late).value.1;
    assert d.feed(initial, early + mid) == Then(d, d.feed(initial, early), mid);
    StackPush(ds, d, st, d.feed(initial, early).value.0, late);
  }

  // ---- Attaching a second adapter -------------------------------------------------------------

  /** All the bytes the reader gets when a decoder is only appended: what was stored, as it is, and
      the decoded rest. */
  function Late<S>(d: Decoder<S, byte>, s: S, stored: Bytes, rest: Bytes): Option<Bytes> {
    match d.feed(s, rest)
    case None => None
    case Some((u, out)) => Some(stored + out)
  }

  lemma {:induction false} LateBegins<S>(d: Decoder<S, byte>, s: S, stored: Bytes, rest: Bytes)
    requires stored != []
    ensures match Late(d, s, stored, rest)
            case None => true
            case Some(all) => all != [] && all[0] == stored[0]
  {
  }

  /** That is what `Attach` on a reader with decoders and then `FeedData` make of it. */
  lemma {:induction false} AttachLater<S(!new)>(
    ds: seq<Decoder<S, byte>>, d: Decoder<S, byte>, st: seq<S>, s: S, stored: Bytes, raw: Bytes)
    requires |ds| == |st| && Lawful(d) && d.ready(s) && StackFeed(ds, st, raw).Some?
    ensures Late(d, s, stored, StackFeed(ds, st, raw).value.1) ==
            match StackFeed(ds + [d], st + [s], raw)
            case None => None
            case Some((t, out)) => Some(stored + out)
  {
    hide StackFeed, Lawful;
    StackPush(ds, d, st, s, raw);
  }

  /** With n bytes of its wire, or all of them, stored when the second adapter attaches, every text of
      the peer is delivered. */
  ghost predicate Delivers<C(!new), P(!new), Q(!new)>(
    l: A.Layer<C, P, Q>, live: C -> bool, x: A.Outbound<C, Q>, y: A.Inbound<C, P>, n: nat)
  {
    forall data | A.Write(l, x, data).Some? ::
      var wire := Flatten(A.Write(l, x, data).value.1);
      var k := if n < |wire| then n else |wire|;
      Late(A.Inward(l, live), y, wire[..k], wire[k..]) == Some(data)
  }

  /** Every wire of a fresh session begins with the same bytes, those that carry the vector. */
  lemma {:induction false} WireBegins<C(!new), P(!new), Q(!new)>(
    l: A.Layer<C, P, Q>, live: C -> bool, p: A.Pairing<C, P, Q>, x: A.Outbound<C, Q>, y: A.Inbound<C, P>, data: Bytes)
    requires A.LayerInverts(l, live, p) && A.Paired(l, p, x, y) && x.session.Unset?
    requires A.Write(l, x, data).Some?
    ensures l.pencrypt2(x.wire, x.drawn).Some?
    ensures var head := l.pencrypt2(x.wire, x.drawn).value.1;
            head != [] && head <= Flatten(A.Write(l, x, data).value.1)
  {
    hide A.Decrypt, A.Seal;
    var (w, head) := l.pencrypt2(x.wire, x.drawn).value;
    A.SingleUndone(l.pencrypt2, l.pdecrypt2, p.wire, x.wire, y.wire, x.drawn);
    assert l.pdecrypt2.feed(y.wire, []) == Some((y.wire, []));
    assert head != [];
    var raw := A.Write(l, x, data).value.1;
    assert raw[0] == head;
    assert raw == [head] + raw[1..];
    FlattenCons(head, raw[1..]);
  }

  /** For an adapter that can send any single byte: delivery exactly if nothing is stored. */
  lemma {:induction false} DeliversExactly<C(!new), P(!new), Q(!new)>(
    l: A.Layer<C, P, Q>, live: C -> bool, p: A.Pairing<C, P, Q>, x: A.Outbound<C, Q>, y: A.Inbound<C, P>, n: nat)
    requires A.LayerInverts(l, live, p) && A.Paired(l, p, x, y) && x.session.Unset?
    requires forall b: byte :: A.Write(l, x, [b]).Some?
    ensures Delivers(l, live, x, y, n) <==> n == 0
  {
    hide A.LayerInverts, A.Paired, A.Write, A.Decrypt, Flatten;
    if n == 0 {
      forall data | A.Write(l, x, data).Some?
        ensures var wire := Flatten(A.Write(l, x, data).value.1);
                Late(A.Inward(l, live), y, wire[..0], wire[0..]) == Some(data)
      {
        var wire := Flatten(A.Write(l, x, data).value.1);
        A.WriteUndone(l, live, p, x, y, data);
        assert wire[..0] == [] && wire[0..] == wire && [] + data == data;
      }
    } else {
      assert A.Write(l, x, [0]).Some?;
      WireBegins(l, live, p, x, y, [0]);
      var head := l.pencrypt2(x.wire, x.drawn).value.1;
      var b: byte := if head[0] == 0 then 1 else 0;
      assert A.Write(l, x, [b]).Some?;
      WireBegins(l, live, p, x, y, [b]);
      var wire := Flatten(A.Write(l, x, [b]).value.1);
      var k := if n < |wire| then n else |wire|;
      assert wire[0] == head[0] && wire[..k][0] == wire[0];
      LateBegins(A.Inward(l, live), y, wire[..k], wire[k..]);
    }
  }
}
