/** Byte strings and their integer readings. */
module ByteStrings {
  import opened Bits

  type byte = x: nat | x < 256
  type Bytes = seq<byte>

  datatype Option<+T> = None | Some(value: T)

  function Flatten<T>(parts: seq<seq<T>>): seq<T> {
    if parts == [] then [] else parts[0] + Flatten(parts[1..])
  }

  lemma {:induction false} FlattenCons<T>(x: seq<T>, rest: seq<seq<T>>)
    ensures Flatten([x] + rest) == x + Flatten(rest)
  {
    assert ([x] + rest)[1..] == rest;
  }

  lemma {:induction false} FlattenNone<T>()
    ensures Flatten<T>([]) == []
  {
  }

  lemma {:induction false} FlattenAppend<T>(a: seq<seq<T>>, b: seq<seq<T>>)
    ensures Flatten(a + b) == Flatten(a) + Flatten(b)
  {
    hide Flatten;
    if a == [] {
      FlattenNone<T>();
      assert a + b == b;
    } else {
      FlattenAppend(a[1..], b);
      FlattenCons(a[0], a[1..]);
      FlattenCons(a[0], a[1..] + b);
      assert [a[0]] + a[1..] == a && [a[0]] + (a[1..] + b) == a + b;
    }
  }

  lemma {:induction false} FlattenOne<T>(a: seq<T>)
    ensures Flatten([a]) == a
  {
    assert Flatten([a]) == a + Flatten([]);
  }

  lemma {:induction false} SlicePrefix<T>(a: seq<T>, b: seq<T>, i: nat, j: nat)
    requires i <= j <= |a|
    ensures (a + b)[i..j] == a[i..j]
  {
  }

  /** `int.from_bytes(b, 'big')`. */
  function FromBE(b: Bytes): nat {
    if b == [] then 0 else FromBE(b[..|b| - 1]) * 256 + b[|b| - 1]
  }

  /** `n.to_bytes(size, 'big')`, defined when n fits. */
  function ToBE(n: nat, size: nat): (b: Bytes)
    requires n < Pow2(8 * size)
    ensures |b| == size
  {
    if size == 0 then []
    else
      assert Pow2(8 * size) == 256 * Pow2(8 * (size - 1)) by { Pow2Byte(size); }
      ToBE(n / 256, size - 1) + [n % 256]
  }

  /** `int.from_bytes(b, 'little')`. */
  function FromLE(b: Bytes): nat {
    if b == [] then 0 else b[0] + 256 * FromLE(b[1..])
  }

  /** `n.to_bytes(size, 'little')`, defined when n fits. */
  function ToLE(n: nat, size: nat): (b: Bytes)
    requires n < Pow2(8 * size)
    ensures |b| == size
  {
    if size == 0 then []
    else
      assert Pow2(8 * size) == 256 * Pow2(8 * (size - 1)) by { Pow2Byte(size); }
      [n % 256] + ToLE(n / 256, size - 1)
  }

  lemma {:induction false} Pow2Byte(size: nat)
    requires size > 0
    ensures Pow2(8 * size) == 256 * Pow2(8 * (size - 1))
  {
    Pow2Add(8, 8 * (size - 1));
    assert Pow2(8) == 256;
  }

  lemma {:induction false} BERoundTrip(n: nat, size: nat)
    requires n < Pow2(8 * size)
    ensures FromBE(ToBE(n, size)) == n
  {
    if size != 0 {
      Pow2Byte(size);
      BERoundTrip(n / 256, size - 1);
      assert ToBE(n, size)[..size - 1] == ToBE(n / 256, size - 1);
    }
  }

  lemma {:induction false} LERoundTrip(n: nat, size: nat)
    requires n < Pow2(8 * size)
    ensures FromLE(ToLE(n, size)) == n
  {
    if size != 0 {
      Pow2Byte(size);
      LERoundTrip(n / 256, size - 1);
      assert ToLE(n, size)[1..] == ToLE(n / 256, size - 1);
    }
  }

  lemma {:induction false} FromBEBound(b: Bytes)
    ensures FromBE(b) < Pow2(8 * |b|)
  {
    if b != [] {
      FromBEBound(b[..|b| - 1]);
      Pow2Byte(|b|);
    }
  }

  lemma {:induction false} FromLEBound(b: Bytes)
    ensures FromLE(b) < Pow2(8 * |b|)
  {
    if b != [] {
      FromLEBound(b[1..]);
      Pow2Byte(|b|);
    }
  }

  function XorByte(a: byte, b: byte): byte {
    assert Pow2(8) == 256;
    XorBound(a, b, 8);
    Xor(a, b)
  }

  lemma {:induction false} XorByteCancel(a: byte, b: byte)
    ensures XorByte(XorByte(a, b), b) == a
  {
    XorCancel(a, b);
  }

  /** Two-byte big-endian lengths, as the framing code writes and reads them. */
  lemma {:induction false} TwoBytes(n: nat)
    requires n < 0x1_0000
    ensures Pow2(8 * 2) == 0x1_0000 && ToBE(n, 2) == [n / 256, n % 256] && FromBE([n / 256, n % 256]) == n
  {
    Pow2Byte(2);
    Pow2Byte(1);
    assert ToBE(n, 2) == ToBE(n / 256, 1) + [n % 256];
    assert ToBE(n / 256, 1) == ToBE(n / 256 / 256, 0) + [n / 256 % 256];
    BERoundTrip(n, 2);
  }

  lemma {:induction false} EightBytes(n: nat)
    requires n < 0x1_0000_0000_0000_0000
    ensures n < Pow2(8 * 8) && FromBE(ToBE(n, 8)) == n
  {
    FourBytes(0);
    Pow2Byte(8);
    Pow2Byte(7);
    Pow2Byte(6);
    Pow2Byte(5);
    BERoundTrip(n, 8);
  }

  lemma {:induction false} FourBytes(n: nat)
    requires n < 0x1_0000_0000
    ensures n < Pow2(8 * 4) == 0x1_0000_0000
  {
    TwoBytes(0);
    Pow2Byte(4);
    Pow2Byte(3);
  }

  // ---- Digits ---------------------------------------------------------------------------------

  lemma {:induction false} ShrByte(x: nat, n: nat)
    ensures Shr(x, n + 8) == Shr(x / 256, n)
  {
    assert Shr(x, n + 8) == Shr(x / 2, n + 7) == Shr(x / 2 / 2, n + 6) == Shr(x / 2 / 2 / 2, n + 5);
    var y := x / 2 / 2 / 2;
    assert Shr(y, n + 5) == Shr(y / 2, n + 4) == Shr(y / 2 / 2, n + 3) == Shr(y / 2 / 2 / 2, n + 2);
    var z := y / 2 / 2 / 2;
    assert Shr(z, n + 2) == Shr(z / 2, n + 1) == Shr(z / 2 / 2, n);
    assert z / 2 / 2 == x / 256;
  }

  /** Byte i of a little-endian number has weight `256^i`. */
  lemma {:induction false} LEDigit(b: Bytes, i: nat)
    requires i < |b|
    ensures b[i] == Shr(FromLE(b), 8 * i) % 256
    decreases i
  {
    var rest := FromLE(b[1..]);
    assert FromLE(b) == b[0] + 256 * rest;
    if i > 0 {
      hide Shr;
      LEDigit(b[1..], i - 1);
      ShrByte(FromLE(b), 8 * (i - 1));
      assert 8 * i == 8 * (i - 1) + 8;
    }
  }

  /** Counted from its end, byte i of a big-endian number has weight `256^i`. */
  lemma {:induction false} BEDigit(b: Bytes, i: nat)
    requires i < |b|
    ensures b[|b| - 1 - i] == Shr(FromBE(b), 8 * i) % 256
    decreases i
  {
    var n := |b| - 1;
    assert FromBE(b) == FromBE(b[..n]) * 256 + b[n];
    if i > 0 {
      hide Shr;
      BEDigit(b[..n], i - 1);
      ShrByte(FromBE(b), 8 * (i - 1));
      assert 8 * i == 8 * (i - 1) + 8;
    }
  }

  /** Byte strings of one length are told apart by their numbers. */
  lemma {:induction false} LEUnique(a: Bytes, b: Bytes)
    requires |a| == |b| && FromLE(a) == FromLE(b)
    ensures a == b
  {
    forall i | 0 <= i < |a|
      ensures a[i] == b[i]
    {
      LEDigit(a, i);
      LEDigit(b, i);
    }
  }

  lemma {:induction false} BEUnique(a: Bytes, b: Bytes)
    requires |a| == |b| && FromBE(a) == FromBE(b)
    ensures a == b
  {
    forall i | 0 <= i < |a|
      ensures a[i] == b[i]
    {
      BEDigit(a, |a| - 1 - i);
      BEDigit(b, |a| - 1 - i);
    }
  }

  /** Exclusive or of bytes, bit by bit. */
  lemma {:induction false} XorByteBit(a: byte, b: byte, n: nat)
    ensures Bit(XorByte(a, b), n) <==> Bit(a, n) != Bit(b, n)
  {
    XorBit(a, b, n);
  }

  lemma {:induction false} XorByteZero(b: byte)
    ensures XorByte(0, b) == b
  {
    XorZero(b);
  }

  // ---- Slices ---------------------------------------------------------------------------------

  /** A text in slices of n bytes, the last one shorter. */
  function Slices(s: Bytes, n: nat): (r: seq<Bytes>)
    requires n > 0
    decreases |s|
  {
    if s == [] then [] else if |s| <= n then [s] else [s[..n]] + Slices(s[n..], n)
  }

  /** All of it, in order, in full slices but for the last one, which is not empty. */
  lemma {:induction false} SlicesOf(s: Bytes, n: nat)
    requires n > 0
    ensures var r := Slices(s, n);
            && Flatten(r) == s
            && (forall i | 0 <= i < |r| :: 0 < |r[i]| <= n && (i < |r| - 1 ==> |r[i]| == n))
    decreases |s|
  {
    if s == [] {
    } else if |s| <= n {
      FlattenOne(s);
    } else {
      SlicesOf(s[n..], n);
      FlattenCons(s[..n], Slices(s[n..], n));
      assert s[..n] + s[n..] == s;
    }
  }

  lemma {:induction false} BEAppend(a: Bytes, b: Bytes)
    ensures FromBE(a + b) == Shl(FromBE(a), 8 * |b|) + FromBE(b)
    decreases |b|
  {
    ShlIsMul(FromBE(a), 8 * |b|);
    if b == [] {
      assert a + b == a;
    } else {
      var n := |b| - 1;
      BEAppend(a, b[..n]);
      ShlIsMul(FromBE(a), 8 * n);
      Pow2Byte(|b|);
      assert (a + b)[..|a| + n] == a + b[..n];
      TimesByte(FromBE(a), Pow2(8 * n));
    }
  }

  lemma {:induction false} TimesByte(x: nat, p: nat)
    ensures x * (256 * p) == 256 * (x * p)
  {
  }

  lemma {:induction false} ByteParts(x: nat)
    ensures Shr(x, 8) == x / 256 && Low(x, 8) == x % 256
  {
    ShrByte(x, 0);
    LowIsMod(x, 8);
    assert Pow2(8) == 256;
  }

  lemma {:induction false} XorShr(a: nat, b: nat, n: nat)
    ensures Shr(Xor(a, b), n) == Xor(Shr(a, n), Shr(b, n))
    decreases n
  {
    hide Xor;
    if n > 0 {
      XorStep(a, b);
      XorShr(a / 2, b / 2, n - 1);
    }
  }

  lemma {:induction false} XorParts(a: nat, b: nat)
    ensures Xor(a, b) / 256 == Xor(a / 256, b / 256)
    ensures Xor(a, b) % 256 == Xor(a % 256, b % 256)
  {
    hide Xor, Shr, Low;
    XorLow(a, b, 8);
    XorShr(a, b, 8);
    ByteParts(a);
    ByteParts(b);
    ByteParts(Xor(a, b));
  }

  /** Exclusive or of two numbers is that of their bytes. */
  lemma {:induction false} XorBE(a: nat, b: nat, size: nat, i: nat)
    requires a < Pow2(8 * size) && b < Pow2(8 * size) && Xor(a, b) < Pow2(8 * size) && i < size
    ensures ToBE(Xor(a, b), size)[i] == XorByte(ToBE(a, size)[i], ToBE(b, size)[i])
    decreases size
  {
    hide Xor;
    Pow2Byte(size);
    XorParts(a, b);
    if i < size - 1 { XorBE(a / 256, b / 256, size - 1, i); }
  }
}
