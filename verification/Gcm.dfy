/** Multiplication by the hash subkey of GCM: the table of `setup` and the sum of `multh`, against
    the block multiplication of section 6.3 of NIST SP 800-38D, and the ring laws of the latter. */
module Gcm {
  import opened Bits

  /** Blocks of `width` bits with the reduction constant R; GCM's are 128 and `0xe1 << 120`. */
  datatype Field = Field(width: nat, reduction: nat)

  predicate Proper(f: Field) {
    f.width > 0 && f.reduction < Pow2(f.width)
  }

  // ---- Section 6.3 ----------------------------------------------------------------------------

  /** V shifted right by one, reduced when a one falls off. */
  function Halve(f: Field, x: nat): nat {
    if x % 2 == 1 then Xor(x / 2, f.reduction) else x / 2
  }

  /** Steps i, i + 1, ... of Algorithm 1; bit i of a block counts from its most significant end. */
  function Multiply(f: Field, x: nat, z: nat, v: nat, i: nat): nat
    requires i <= f.width
    decreases f.width - i
  {
    if i == f.width then z
    else Multiply(f, x, if Bit(x, f.width - 1 - i) then Xor(z, v) else z, Halve(f, v), i + 1)
  }

  /** The block product. */
  function Product(f: Field, x: nat, y: nat): nat {
    Multiply(f, x, 0, y, 0)
  }

  // ---- The table ------------------------------------------------------------------------------

  function Halved(f: Field, x: nat, n: nat): nat {
    if n == 0 then x else Halve(f, Halved(f, x, n - 1))
  }

  ghost predicate IsTable(f: Field, hkey: seq<nat>, h: nat) {
    |hkey| == f.width && forall i | 0 <= i < |hkey| :: hkey[i] == Halved(f, h, f.width - 1 - i)
  }

  /** The loop of `setup`. */
  method Table(f: Field, h: nat) returns (hkey: seq<nat>)
    ensures IsTable(f, hkey, h)
  {
    hkey := [];
    var x := h;
    for n := 0 to f.width
      invariant |hkey| == n && x == Halved(f, h, n)
      invariant forall i | 0 <= i < n :: hkey[i] == Halved(f, h, n - 1 - i)
    {
      hkey := [x] + hkey;
      x := if x % 2 == 1 then Xor(x / 2, f.reduction) else x / 2;
    }
  }

  /** The terms of the low n bits of x: bit k contributes y halved once for each bit above it. */
  function Sum(f: Field, x: nat, y: nat, n: nat): nat
    requires n <= f.width
  {
    if n == 0 then 0
    else Xor(Sum(f, x, y, n - 1), if Bit(x, n - 1) then Halved(f, y, f.width - n) else 0)
  }

  /** `multh`: the sum over the table is the product of section 6.3. */
  method MultH(f: Field, hkey: seq<nat>, ghost h: nat, y: nat) returns (z: nat)
    requires IsTable(f, hkey, h)
    ensures z == Product(f, y, h)
  {
    hide Xor, Bit, Halved, Multiply;
    z := 0;
    for i := 0 to |hkey|
      invariant z == Sum(f, y, h, i)
    {
      if Bit(y, i) {
        z := Xor(z, hkey[i]);
      } else {
        XorZero(z);
      }
    }
    ProductIsSum(f, y, h);
  }

  lemma {:induction false} MultiplyIsSum(f: Field, x: nat, y: nat, z: nat, i: nat)
    requires i <= f.width
    ensures Multiply(f, x, z, Halved(f, y, i), i) == Xor(z, Sum(f, x, y, f.width - i))
    decreases f.width - i
  {
    hide Xor, Bit;
    XorZero(z);
    if i < f.width {
      var term := if Bit(x, f.width - 1 - i) then Halved(f, y, i) else 0;
      var s := Sum(f, x, y, f.width - i - 1);
      MultiplyIsSum(f, x, y, Xor(z, term), i + 1);
      XorAssoc(z, term, s);
      XorComm(term, s);
    }
  }

  lemma {:induction false} ProductIsSum(f: Field, x: nat, y: nat)
    ensures Product(f, x, y) == Sum(f, x, y, f.width)
  {
    MultiplyIsSum(f, x, y, 0, 0);
    XorZero(Sum(f, x, y, f.width));
  }

  // ---- Linearity ------------------------------------------------------------------------------

  lemma {:induction false} HalveXor(f: Field, a: nat, b: nat)
    ensures Halve(f, Xor(a, b)) == Xor(Halve(f, a), Halve(f, b))
  {
    hide Xor;
    var r, p, q := f.reduction, a / 2, b / 2;
    XorStep(a, b);
    if a % 2 == 1 && b % 2 == 1 {
      XorSwap(p, r, q, r);
      XorSelf(r);
      XorZero(Xor(p, q));
    } else if a % 2 == 1 {
      XorAssoc(p, r, q);
      XorComm(r, q);
      XorAssoc(p, q, r);
    } else if b % 2 == 1 {
      XorAssoc(p, q, r);
    }
  }

  lemma {:induction false} HalvedXor(f: Field, a: nat, b: nat, n: nat)
    ensures Halved(f, Xor(a, b), n) == Xor(Halved(f, a, n), Halved(f, b, n))
  {
    hide Xor, Halve;
    if n != 0 {
      HalvedXor(f, a, b, n - 1);
      HalveXor(f, Halved(f, a, n - 1), Halved(f, b, n - 1));
    }
  }

  lemma {:induction false} SumStep(f: Field, x: nat, y: nat, n: nat)
    requires 0 < n <= f.width
    ensures Sum(f, x, y, n) == Xor(Sum(f, x, y, n - 1), if Bit(x, n - 1) then Halved(f, y, f.width - n) else 0)
  {
  }

  lemma {:induction false} SumXorRight(f: Field, x: nat, a: nat, b: nat, n: nat)
    requires n <= f.width
    ensures Sum(f, x, Xor(a, b), n) == Xor(Sum(f, x, a, n), Sum(f, x, b, n))
  {
    XorZero(0);
    if n != 0 {
      SumXorRight(f, x, a, b, n - 1);
      SumStep(f, x, a, n);
      SumStep(f, x, b, n);
      SumStep(f, x, Xor(a, b), n);
      hide Xor, Bit, Halved, Sum;
      var p, q := Halved(f, a, f.width - n), Halved(f, b, f.width - n);
      HalvedXor(f, a, b, f.width - n);
      XorSwap(Sum(f, x, a, n - 1), if Bit(x, n - 1) then p else 0,
              Sum(f, x, b, n - 1), if Bit(x, n - 1) then q else 0);
    }
  }

  lemma {:induction false} SumXorLeft(f: Field, a: nat, b: nat, y: nat, n: nat)
    requires n <= f.width
    ensures Sum(f, Xor(a, b), y, n) == Xor(Sum(f, a, y, n), Sum(f, b, y, n))
  {
    XorZero(0);
    if n != 0 {
      SumXorLeft(f, a, b, y, n - 1);
      SumStep(f, a, y, n);
      SumStep(f, b, y, n);
      SumStep(f, Xor(a, b), y, n);
      hide Xor, Bit, Halved, Sum;
      XorBit(a, b, n - 1);
      var v := Halved(f, y, f.width - n);
      XorZero(v);
      XorSelf(v);
      XorSwap(Sum(f, a, y, n - 1), if Bit(a, n - 1) then v else 0,
              Sum(f, b, y, n - 1), if Bit(b, n - 1) then v else 0);
    }
  }

  /** The product is linear over exclusive or in both operands. */
  lemma {:induction false} ProductLinear(f: Field, a: nat, b: nat, c: nat)
    ensures Product(f, Xor(a, b), c) == Xor(Product(f, a, c), Product(f, b, c))
    ensures Product(f, c, Xor(a, b)) == Xor(Product(f, c, a), Product(f, c, b))
  {
    hide Xor, Product, Sum;
    ProductIsSum(f, Xor(a, b), c);
    ProductIsSum(f, a, c);
    ProductIsSum(f, b, c);
    ProductIsSum(f, c, Xor(a, b));
    ProductIsSum(f, c, a);
    ProductIsSum(f, c, b);
    SumXorLeft(f, a, b, c, f.width);
    SumXorRight(f, c, a, b, f.width);
  }

  // ---- The ring of blocks ---------------------------------------------------------------------

  lemma {:induction false} HalveZero(f: Field, n: nat)
    ensures Halved(f, 0, n) == 0
  {
    if n != 0 { HalveZero(f, n - 1); }
  }

  lemma {:induction false} SumZero(f: Field, x: nat, n: nat)
    requires n <= f.width
    ensures Sum(f, x, 0, n) == 0
  {
    if n != 0 {
      hide Xor, Halved, Bit;
      SumZero(f, x, n - 1);
      HalveZero(f, f.width - n);
      XorZero(0);
    }
  }

  lemma {:induction false} HalvedShift(f: Field, x: nat, n: nat)
    ensures Halved(f, Halve(f, x), n) == Halve(f, Halved(f, x, n))
  {
    hide Halve;
    if n != 0 { HalvedShift(f, x, n - 1); }
  }

  /** Multiplying a halved block halves the product. */
  lemma {:induction false} SumHalve(f: Field, x: nat, y: nat, n: nat)
    requires n <= f.width
    ensures Sum(f, x, Halve(f, y), n) == Halve(f, Sum(f, x, y, n))
  {
    if n == 0 {
    } else {
      hide Xor, Halved, Bit, Halve;
      SumHalve(f, x, y, n - 1);
      HalvedShift(f, y, f.width - n);
      var s, v := Sum(f, x, y, n - 1), Halved(f, y, f.width - n);
      HalveXor(f, s, v);
      XorZero(s);
      XorZero(Halve(f, s));
    }
  }

  lemma {:induction false} SumHalved(f: Field, x: nat, y: nat, k: nat)
    ensures Sum(f, x, Halved(f, y, k), f.width) == Halved(f, Sum(f, x, y, f.width), k)
  {
    hide Sum, Halve;
    if k != 0 {
      SumHalved(f, x, y, k - 1);
      SumHalve(f, x, Halved(f, y, k - 1), f.width);
    }
  }

  /** Multipliers commute with each other. */
  lemma {:induction false} SumExchange(f: Field, x: nat, y: nat, z: nat, n: nat)
    requires n <= f.width
    ensures Sum(f, x, Sum(f, y, z, f.width), n) == Sum(f, y, Sum(f, x, z, n), f.width)
  {
    if n == 0 {
      hide Xor, Halved, Bit;
      SumZero(f, y, f.width);
    } else {
      SumExchange(f, x, y, z, n - 1);
      SumStep(f, x, Sum(f, y, z, f.width), n);
      SumStep(f, x, z, n);
      hide Sum, Xor, Halved, Bit;
      var s, v := Sum(f, x, z, n - 1), Halved(f, z, f.width - n);
      SumHalved(f, y, z, f.width - n);
      SumXorRight(f, y, s, if Bit(x, n - 1) then v else 0, f.width);
      SumZero(f, y, f.width);
    }
  }

  /** The unit is the block whose first bit is set. */
  function One(f: Field): nat
    requires f.width > 0
  {
    Pow2(f.width - 1)
  }

  lemma {:induction false} HalvedOne(f: Field, k: nat)
    requires k < f.width
    ensures Halved(f, One(f), k) == Pow2(f.width - 1 - k)
  {
    if k != 0 { HalvedOne(f, k - 1); }
  }

  lemma {:induction false} LowTop(x: nat, n: nat)
    requires n > 0
    ensures Low(x, n) == Xor(Low(x, n - 1), if Bit(x, n - 1) then Pow2(n - 1) else 0)
  {
    hide Xor, Low, Pow2, Bit;
    BitDown(x, n - 1);
    if n == 1 {
      LowHalves(x, 1);
      LowNone(x);
      LowNone(x / 2);
      PowNone();
      XorZero(x % 2);
      XorZero(0);
    } else {
      LowTop(x / 2, n - 1);
      LowStep(x, n);
      LowStep(x, n - 1);
      PowStep(n - 1);
      var t := if Bit(x, n - 1) then Pow2(n - 1) else 0;
      XorStep(Low(x, n - 1), t);
      SameHalves(Low(x, n), Xor(Low(x, n - 1), t));
    }
  }

  lemma {:induction false} BitDown(x: nat, i: nat)
    ensures Bit(x, i) == if i == 0 then x % 2 == 1 else Bit(x / 2, i - 1)
  {
  }

  lemma {:induction false} PowNone()
    ensures Pow2(0) == 1
  {
  }

  lemma {:induction false} PowStep(n: nat)
    requires n > 0
    ensures Pow2(n) / 2 == Pow2(n - 1) && Pow2(n) % 2 == 0
  {
  }

  lemma {:induction false} SumOne(f: Field, x: nat, n: nat)
    requires f.width > 0 && n <= f.width
    ensures Sum(f, x, One(f), n) == Low(x, n)
  {
    if n != 0 {
      SumOne(f, x, n - 1);
      hide Xor, Low, Pow2, Halved, Bit, One;
      HalvedOne(f, f.width - n);
      LowTop(x, n);
    }
  }

  lemma {:induction false} ProductOne(f: Field, x: nat)
    requires f.width > 0 && x < Pow2(f.width)
    ensures Product(f, x, One(f)) == x
  {
    hide Product, Sum, One;
    ProductIsSum(f, x, One(f));
    SumOne(f, x, f.width);
    LowSmall(x, f.width);
  }

  lemma {:induction false} ProductExchange(f: Field, x: nat, y: nat, z: nat)
    ensures Product(f, x, Product(f, y, z)) == Product(f, y, Product(f, x, z))
  {
    hide Product, Sum;
    ProductIsSum(f, y, z);
    ProductIsSum(f, x, z);
    ProductIsSum(f, x, Product(f, y, z));
    ProductIsSum(f, y, Product(f, x, z));
    SumExchange(f, x, y, z, f.width);
  }

  lemma {:induction false} ProductComm(f: Field, x: nat, y: nat)
    requires f.width > 0 && x < Pow2(f.width) && y < Pow2(f.width)
    ensures Product(f, x, y) == Product(f, y, x)
  {
    hide Product;
    ProductOne(f, x);
    ProductOne(f, y);
    ProductExchange(f, x, y, One(f));
  }

  lemma {:induction false} HalvedBound(f: Field, x: nat, n: nat)
    requires Proper(f) && x < Pow2(f.width)
    ensures Halved(f, x, n) < Pow2(f.width)
  {
    if n != 0 {
      hide Xor;
      HalvedBound(f, x, n - 1);
      XorBound(Halved(f, x, n - 1) / 2, f.reduction, f.width);
    }
  }

  lemma {:induction false} SumBound(f: Field, x: nat, y: nat, n: nat)
    requires Proper(f) && y < Pow2(f.width) && n <= f.width
    ensures Sum(f, x, y, n) < Pow2(f.width)
  {
    hide Xor, Halved, Bit;
    if n != 0 {
      SumBound(f, x, y, n - 1);
      HalvedBound(f, y, f.width - n);
      XorBound(Sum(f, x, y, n - 1), if Bit(x, n - 1) then Halved(f, y, f.width - n) else 0, f.width);
    }
  }

  lemma {:induction false} ProductBound(f: Field, x: nat, y: nat)
    requires Proper(f) && y < Pow2(f.width)
    ensures Product(f, x, y) < Pow2(f.width)
  {
    hide Product, Sum;
    ProductIsSum(f, x, y);
    SumBound(f, x, y, f.width);
  }

  lemma {:induction false} ProductAssoc(f: Field, x: nat, y: nat, z: nat)
    requires Proper(f) && x < Pow2(f.width) && y < Pow2(f.width) && z < Pow2(f.width)
    ensures Product(f, Product(f, x, y), z) == Product(f, x, Product(f, y, z))
  {
    hide Product, Proper, Pow2;
    assert f.width > 0 by { ProperWidth(f); }
    ProductBound(f, x, y);
    ProductComm(f, Product(f, x, y), z);
    ProductExchange(f, z, x, y);
    ProductComm(f, z, y);
  }

  lemma {:induction false} ProperWidth(f: Field)
    requires Proper(f)
    ensures f.width > 0
  {
  }

  // ---- The hash -------------------------------------------------------------------------------

  /** GHASH of section 6.4, from an intermediate value. */
  function Hash(f: Field, h: nat, z: nat, blocks: seq<nat>): nat
    decreases |blocks|
  {
    if blocks == [] then z else Hash(f, h, Product(f, Xor(z, blocks[0]), h), blocks[1..])
  }

  function Power(f: Field, h: nat, n: nat): nat
    requires f.width > 0
  {
    if n == 0 then One(f) else Product(f, h, Power(f, h, n - 1))
  }

  /** The polynomial of the blocks at h: the first block has the highest power. */
  function Polynomial(f: Field, h: nat, blocks: seq<nat>): nat
    requires f.width > 0
    decreases |blocks|
  {
    if blocks == [] then 0
    else Xor(Product(f, blocks[0], Power(f, h, |blocks|)), Polynomial(f, h, blocks[1..]))
  }

  predicate Fits(f: Field, blocks: seq<nat>) {
    forall i | 0 <= i < |blocks| :: blocks[i] < Pow2(f.width)
  }

  lemma {:induction false} OneBound(f: Field)
    requires f.width > 0
    ensures One(f) < Pow2(f.width)
  {
  }

  lemma {:induction false} PowerBound(f: Field, h: nat, n: nat)
    requires Proper(f) && h < Pow2(f.width)
    ensures Power(f, h, n) < Pow2(f.width)
  {
    hide Product, One;
    if n == 0 {
      OneBound(f);
    } else {
      PowerBound(f, h, n - 1);
      ProductBound(f, h, Power(f, h, n - 1));
    }
  }

  lemma {:induction false} HashIsPolynomial(f: Field, h: nat, z: nat, blocks: seq<nat>)
    requires Proper(f) && h < Pow2(f.width) && z < Pow2(f.width) && Fits(f, blocks)
    ensures Hash(f, h, z, blocks) ==
            Xor(Product(f, z, Power(f, h, |blocks|)), Polynomial(f, h, blocks))
    decreases |blocks|
  {
    if blocks == [] {
      hide Product, Xor;
      ProductOne(f, z);
      XorZero(z);
    } else {
      hide Product, Xor, Pow2, One;
      var n := |blocks| - 1;
      var x := Xor(z, blocks[0]);
      XorBound(z, blocks[0], f.width);
      ProductBound(f, x, h);
      HashIsPolynomial(f, h, Product(f, x, h), blocks[1..]);
      PowerBound(f, h, n);
      ProductAssoc(f, x, h, Power(f, h, n));
      var p := Power(f, h, n + 1);
      ProductLinear(f, z, blocks[0], p);
      XorAssoc(Product(f, z, p), Product(f, blocks[0], p), Polynomial(f, h, blocks[1..]));
    }
  }

  /** The hash of blocks is their polynomial at the subkey. */
  lemma {:induction false} HashAtZero(f: Field, h: nat, blocks: seq<nat>)
    requires Proper(f) && h < Pow2(f.width) && Fits(f, blocks)
    ensures Hash(f, h, 0, blocks) == Polynomial(f, h, blocks) < Pow2(f.width)
  {
    hide Product, Xor, Power, Hash, Polynomial, One;
    PowerBound(f, h, |blocks|);
    HashIsPolynomial(f, h, 0, blocks);
    var p := Power(f, h, |blocks|);
    ProductLinear(f, 0, 0, p);
    XorSelf(0);
    XorSelf(Product(f, 0, p));
    XorZero(Polynomial(f, h, blocks));
    HashBound(f, h, 0, blocks);
  }

  lemma {:induction false} HashBound(f: Field, h: nat, z: nat, blocks: seq<nat>)
    requires Proper(f) && h < Pow2(f.width) && z < Pow2(f.width) && Fits(f, blocks)
    ensures Hash(f, h, z, blocks) < Pow2(f.width)
    decreases |blocks|
  {
    hide Product, Xor;
    if blocks != [] {
      var x := Xor(z, blocks[0]);
      ProductBound(f, x, h);
      HashBound(f, h, Product(f, x, h), blocks[1..]);
    }
  }
}
