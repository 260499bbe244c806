/** Ciphers that add a key stream byte by byte, and what an empty initialisation vector does to them
    behind the stream adapter. */
module KeyStreams {
  import opened Bits
  import opened ByteStrings
  import opened Incremental
  import A = StreamAdapter

  /** `encrypt` and `decrypt` of `StreamCipher`: the next |s| bytes of the key stream, added. */
  function AddStream(ks: nat -> byte, pos: nat, s: Bytes): (r: Bytes)
    ensures |r| == |s|
  {
    seq(|s|, i requires 0 <= i < |s| => XorByte(s[i], ks(pos + i)))
  }

  lemma {:induction false} AddStreamSplit(ks: nat -> byte, pos: nat, a: Bytes, b: Bytes)
    ensures AddStream(ks, pos, a + b) == AddStream(ks, pos, a) + AddStream(ks, pos + |a|, b)
  {
    var l, r := AddStream(ks, pos, a + b), AddStream(ks, pos, a) + AddStream(ks, pos + |a|, b);
    forall i | 0 <= i < |l|
      ensures l[i] == r[i]
    {
      if i >= |a| { assert pos + i == pos + |a| + (i - |a|); }
    }
  }

  lemma {:induction false} AddStreamTwice(ks: nat -> byte, pos: nat, s: Bytes)
    ensures AddStream(ks, pos, AddStream(ks, pos, s)) == s
  {
    forall i | 0 <= i < |s|
      ensures AddStream(ks, pos, AddStream(ks, pos, s))[i] == s[i]
    {
      XorByteCancel(s[i], ks(pos + i));
    }
  }

  /** Byte i of a call meets byte `pos + i` of the stream, bit by bit. */
  lemma {:induction false} AddStreamBit(ks: nat -> byte, pos: nat, s: Bytes, i: nat, n: nat)
    requires i < |s|
    ensures Bit(AddStream(ks, pos, s)[i], n) <==> Bit(s[i], n) != Bit(ks(pos + i), n)
  {
    XorByteBit(s[i], ks(pos + i), n);
  }

  /** A session is its vector and the number of bytes processed. */
  type Session = (Bytes, nat)

  function Step(ks: Bytes -> nat -> byte, st: Session, s: Bytes): (Session, Bytes) {
    ((st.0, st.1 + |s|), AddStream(ks(st.0), st.1, s))
  }

  function KeyCipher(ivLength: nat, ks: Bytes -> nat -> byte): A.Cipher<Session> {
    A.Cipher(ivLength, (iv: Bytes) => (iv, 0),
             (st: Session, s: Bytes) => Some(Step(ks, st, s)),
             (st: Session, s: Bytes) => Some(Step(ks, st, s)))
  }

  /** Any key stream gives a layer that inverts under any chunking, if its vector is not empty. */
  lemma {:induction false} KeyCipherInverts(ivLength: nat, ks: Bytes -> nat -> byte)
    ensures A.CipherInverts(KeyCipher(ivLength, ks), (st: Session) => true, (a: Session, b: Session) => a == b)
  {
    var k := KeyCipher(ivLength, ks);
    var d := A.CipherDecoder(k, (st: Session) => true);
    var same := (a: Session, b: Session) => a == b;
    forall st, a, b
      ensures d.feed(st, a + b) == Then(d, d.feed(st, a), b)
    {
      AddStreamSplit(ks(st.0), st.1, a, b);
    }
    forall w, r, x | same(w, r)
      ensures Undone(A.Single(k.encrypt).write(w, x).value, d, r, same, Same(x))
    {
      FlattenOne(AddStream(ks(w.0), w.1, x));
      AddStreamTwice(ks(w.0), w.1, x);
    }
  }

  // ---- The empty vector -----------------------------------------------------------------------

  /** A cipher class with `IV_LENGTH == 0` behind an adapter without plugins. */
  function Bare(ks: nat -> byte): A.Layer<Session, (), ()> {
    A.PlainLayer(KeyCipher(0, (iv: Bytes) => ks))
  }

  const OUT: A.Outbound<Session, ()> := A.Outbound(A.Unset([]), [], (), ())
  const IN: A.Inbound<Session, ()> := A.Inbound(A.Unset([]), (), ())

  function Sent(ks: nat -> byte, writes: seq<Bytes>): Bytes {
    match WriteAll(A.Outward(Bare(ks)), OUT, writes)
    case None => []
    case Some((st, raw)) => Flatten(raw)
  }

  function Received(ks: nat -> byte, chunks: seq<Bytes>): Option<Bytes> {
    match Run(A.Inward(Bare(ks), (st: Session) => true), IN, chunks)
    case None => None
    case Some((st, out)) => Some(out)
  }

  /** Each call starts the key stream again. */
  function Restarted(ks: nat -> byte, parts: seq<Bytes>): Bytes {
    if parts == [] then [] else AddStream(ks, 0, parts[0]) + Restarted(ks, parts[1..])
  }

  lemma {:induction false} EveryWriteRestarts(ks: nat -> byte, st: A.Outbound<Session, ()>, writes: seq<Bytes>)
    requires st.session.NoIv() && st.drawn == []
    ensures var r := WriteAll(A.Outward(Bare(ks)), st, writes);
            r.Some? && Flatten(r.value.1) == Restarted(ks, writes)
    decreases |writes|
  {
    if writes != [] {
      var (t, raw) := A.Write(Bare(ks), st, writes[0]).value;
      EveryWriteRestarts(ks, t, writes[1..]);
      FlattenAppend(raw, WriteAll(A.Outward(Bare(ks)), t, writes[1..]).value.1);
      var none: Bytes := [];
      var body := AddStream(ks, 0, writes[0]);
      FlattenOne(none);
      FlattenOne(body);
      FlattenAppend([none], [body]);
      assert [none] + [body] == [none, body];
      assert none + body == body;
    }
  }

  lemma {:induction false} EveryChunkRestarts(ks: nat -> byte, st: A.Inbound<Session, ()>, chunks: seq<Bytes>)
    requires st.session.NoIv() && st.session.Pending() == []
    ensures var r := Run(A.Inward(Bare(ks), (st: Session) => true), st, chunks);
            r.Some? && r.value.1 == Restarted(ks, chunks)
    decreases |chunks|
  {
    if chunks != [] {
      var c := chunks[0];
      assert [] + c == c && c[..0] == [] && c[0..] == c;
      var t := A.Decrypt(Bare(ks), st, c).value.0;
      EveryChunkRestarts(ks, t, chunks[1..]);
    }
  }

  ghost predicate Transparent(ks: nat -> byte, writes: seq<Bytes>, chunks: seq<Bytes>) {
    Flatten(chunks) == Sent(ks, writes) ==> Received(ks, chunks) == Some(Flatten(writes))
  }

  lemma {:induction false} ConstantRestarts(ks: nat -> byte, parts: seq<Bytes>)
    requires forall i: nat :: ks(i) == ks(0)
    ensures Restarted(ks, parts) == AddStream(ks, 0, Flatten(parts))
  {
    if parts != [] {
      ConstantRestarts(ks, parts[1..]);
      AddStreamSplit(ks, 0, parts[0], Flatten(parts[1..]));
      var a, b := AddStream(ks, 0, Flatten(parts[1..])), AddStream(ks, |parts[0]|, Flatten(parts[1..]));
      assert forall i | 0 <= i < |a| :: a[i] == b[i];
      assert a == b;
    }
  }

  /** With an empty vector the adapter is transparent exactly for key streams that repeat one byte:
      for any other, some write and some chunking of it are decoded wrongly. */
  lemma {:induction false} EmptyVector(ks: nat -> byte)
    ensures (forall writes, chunks :: Transparent(ks, writes, chunks)) <==> (forall i: nat :: ks(i) == ks(0))
  {
    if forall i: nat :: ks(i) == ks(0) {
      forall writes, chunks
        ensures Transparent(ks, writes, chunks)
      {
        EveryWriteRestarts(ks, OUT, writes);
        EveryChunkRestarts(ks, IN, chunks);
        ConstantRestarts(ks, writes);
        ConstantRestarts(ks, chunks);
        AddStreamTwice(ks, 0, Flatten(writes));
      }
    } else {
      var i: nat :| ks(i) != ks(0);
      CutBefore(ks, i);
    }
  }

  /** The offending run: i zero bytes and one more, with the last byte in a chunk of its own. */
  lemma {:induction false} CutBefore(ks: nat -> byte, i: nat)
    requires ks(i) != ks(0)
    ensures var data: Bytes := seq(i + 1, _ => 0);
            var wire := AddStream(ks, 0, data);
            !Transparent(ks, [data], [wire[..i], wire[i..]])
  {
    var data: Bytes := seq(i + 1, _ => 0);
    var wire := AddStream(ks, 0, data);
    var writes, chunks := [data], [wire[..i], wire[i..]];
    EveryWriteRestarts(ks, OUT, writes);
    EveryChunkRestarts(ks, IN, chunks);
    assert Restarted(ks, writes) == wire + Restarted(ks, []);
    var none: seq<Bytes> := [];
    assert chunks[1..] == [wire[i..]] && chunks[1..][1..] == none;
    assert Flatten(chunks) == wire[..i] + (wire[i..] + []);
    assert Flatten(chunks) == wire;
    FlattenOne(data);
    var got := AddStream(ks, 0, wire[..i]) + (AddStream(ks, 0, wire[i..]) + []);
    assert Restarted(ks, chunks) == got;
    assert got[i] == XorByte(wire[i], ks(0)) == XorByte(XorByte(0, ks(i)), ks(0));
    XorZero(ks(i));
    if got[i] == 0 {
      XorByteCancel(ks(i), ks(0));
      XorZero(ks(0));
      assert false;
    }
    assert data[i] == 0;
  }
}
