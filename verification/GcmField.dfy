/** What the block product of `Gcm` is: multiplication of polynomials over GF(2) modulo the one that the
    reduction constant stands for. */
module GcmField {
  import opened Bits
  import opened Gcm

  // ---- Polynomials ----------------------------------------------------------------------------

  /** The polynomial of a block: coefficient i, here bit i, is the block's bit i from its most significant end. */
  function Mirror(x: nat, n: nat): nat
    decreases n
  {
    if n == 0 then 0 else 2 * Mirror(x, n - 1) + (if Bit(x, n - 1) then 1 else 0)
  }

  /** The product of two polynomials. */
  function Times(a: nat, b: nat): nat
    decreases a
  {
    if a == 0 then 0 else Xor(if a % 2 == 1 then b else 0, 2 * Times(a / 2, b))
  }

  /** `x^width` and the polynomial of R. */
  function Modulus(f: Field): nat {
    Pow2(f.width) + Mirror(f.reduction, f.width)
  }

  lemma {:induction false} TimesStep(a: nat, u: nat, b: nat)
    requires u < 2
    ensures Times(2 * a + u, b) == Xor(if u == 1 then b else 0, 2 * Times(a, b))
  {
    XorZero(0);
    assert (2 * a + u) / 2 == a && (2 * a + u) % 2 == u;
  }

  lemma {:induction false} Double(a: nat, b: nat)
    ensures 2 * Xor(a, b) == Xor(2 * a, 2 * b)
  {
    XorPair(a, 0, b, 0);
  }

  lemma {:induction false} TimesXor(a: nat, b: nat, p: nat)
    ensures Times(Xor(a, b), p) == Xor(Times(a, p), Times(b, p))
    decreases a + b
  {
    hide Xor, Times;
    var u, v := a % 2, b % 2;
    var s, t := if u == 1 then p else 0, if v == 1 then p else 0;
    if a == 0 && b == 0 {
      XorZero(0);
      TimesNone(p);
    } else {
      var x, y := Times(a / 2, p), Times(b / 2, p);
      XorPair(a / 2, u, b / 2, v);
      TimesXor(a / 2, b / 2, p);
      TimesStep(Xor(a / 2, b / 2), (u + v) % 2, p);
      TimesStep(a / 2, u, p);
      TimesStep(b / 2, v, p);
      Double(x, y);
      XorSwap(s, 2 * x, t, 2 * y);
      XorSelf(p);
      XorZero(p);
      XorZero(0);
    }
  }

  lemma {:induction false} TimesNone(p: nat)
    ensures Times(0, p) == 0
  {
  }

  // ---- Mirrored blocks ------------------------------------------------------------------------

  lemma {:induction false} MirrorBound(x: nat, n: nat)
    ensures Mirror(x, n) < Pow2(n)
  {
    if n > 0 { MirrorBound(x, n - 1); }
  }

  /** Coefficient i is bit `n - 1 - i`. */
  lemma {:induction false} MirrorBit(x: nat, n: nat, i: nat)
    ensures Bit(Mirror(x, n), i) <==> i < n && Bit(x, n - 1 - i)
    decreases n
  {
    if n == 0 {
      ZeroBit(i);
    } else {
      var m, c := Mirror(x, n - 1), if Bit(x, n - 1) then 1 else 0;
      assert (2 * m + c) / 2 == m && (2 * m + c) % 2 == c;
      if i > 0 { MirrorBit(x, n - 1, i - 1); }
    }
  }

  lemma {:induction false} MirrorXor(a: nat, b: nat, n: nat)
    ensures Mirror(Xor(a, b), n) == Xor(Mirror(a, n), Mirror(b, n))
    decreases n
  {
    hide Xor, Bit;
    if n == 0 {
      XorZero(0);
    } else {
      MirrorXor(a, b, n - 1);
      XorBit(a, b, n - 1);
      XorPair(Mirror(a, n - 1), if Bit(a, n - 1) then 1 else 0, Mirror(b, n - 1), if Bit(b, n - 1) then 1 else 0);
    }
  }

  lemma {:induction false} MirrorZero(n: nat)
    ensures Mirror(0, n) == 0
    decreases n
  {
    if n > 0 {
      ZeroBit(n - 1);
      MirrorZero(n - 1);
    }
  }

  lemma {:induction false} NoHighBit(x: nat, n: nat)
    requires x < Pow2(n)
    ensures !Bit(x, n)
    decreases n
  {
    if n > 0 { NoHighBit(x / 2, n - 1); }
  }

  lemma {:induction false} MirrorHalf(x: nat, n: nat)
    ensures Mirror(x, n + 1) == Mirror(x / 2, n) + if x % 2 == 1 then Pow2(n) else 0
    decreases n
  {
    if n > 0 { MirrorHalf(x, n - 1); }
  }

  lemma {:induction false} TopXor(a: nat, n: nat)
    requires a < Pow2(n)
    ensures Xor(Pow2(n), a) == Pow2(n) + a
    decreases n
  {
    if n > 0 {
      hide Xor;
      TopXor(a / 2, n - 1);
      XorPair(Pow2(n - 1), 0, a / 2, a % 2);
    } else {
      XorZero(1);
    }
  }

  /** Halving a block is multiplying its polynomial by x, reduced once. */
  lemma {:induction false} HalveIsTimesX(f: Field, x: nat)
    requires x < Pow2(f.width)
    ensures Xor(2 * Mirror(x, f.width), Mirror(Halve(f, x), f.width)) == if x % 2 == 1 then Modulus(f) else 0
  {
    hide Xor, Mirror, Bit;
    var w := f.width;
    var a, r, t := Mirror(x / 2, w), Mirror(f.reduction, w), Pow2(w);
    NoHighBit(x, w);
    MirrorHalf(x, w);
    assert Mirror(x, w + 1) == 2 * Mirror(x, w) by { MirrorTop(x, w); }
    if x % 2 == 1 {
      MirrorBound(x / 2, w);
      MirrorBound(f.reduction, w);
      MirrorXor(x / 2, f.reduction, w);
      TopXor(a, w);
      TopXor(r, w);
      XorComm(a, r);
      XorSwap(t, a, r, a);
      XorSelf(a);
      XorZero(Xor(t, r));
    } else {
      XorSelf(a);
    }
  }

  lemma {:induction false} MirrorTop(x: nat, n: nat)
    requires !Bit(x, n)
    ensures Mirror(x, n + 1) == 2 * Mirror(x, n)
  {
  }

  /** n halvings are a multiplication by `x^n`, up to a multiple of the modulus. */
  lemma {:induction false} HalvedIsShift(f: Field, y: nat, n: nat) returns (q: nat)
    requires Proper(f) && y < Pow2(f.width)
    ensures Xor(Shl(Mirror(y, f.width), n), Mirror(Halved(f, y, n), f.width)) == Times(q, Modulus(f))
  {
    hide Xor, Mirror, Halve, Times, Modulus;
    var w, p := f.width, Modulus(f);
    q := 0;
    if n == 0 {
      XorSelf(Mirror(y, w));
      TimesNone(p);
    } else {
      var h := Halved(f, y, n - 1);
      var s, m, k := Shl(Mirror(y, w), n - 1), Mirror(h, w), Mirror(Halve(f, h), w);
      var rest := HalvedIsShift(f, y, n - 1);
      HalvedBound(f, y, n - 1);
      HalveIsTimesX(f, h);
      q := 2 * rest + h % 2;
      TimesStep(rest, h % 2, p);
      Double(s, m);
      XorThrough(2 * s, 2 * m, k);
      XorComm(Xor(2 * s, 2 * m), Xor(2 * m, k));
    }
  }

  lemma {:induction false} XorThrough(a: nat, b: nat, c: nat)
    ensures Xor(Xor(a, b), Xor(b, c)) == Xor(a, c)
  {
    hide Xor;
    XorComm(b, c);
    XorSwap(a, b, c, b);
    XorSelf(b);
    XorZero(Xor(a, c));
  }

  lemma {:induction false} ShrStep(x: nat, k: nat)
    requires k > 0
    ensures Shr(x, k - 1) == 2 * Shr(x, k) + (if Bit(x, k - 1) then 1 else 0)
    decreases k
  {
    if k > 1 { ShrStep(x / 2, k - 1); }
  }

  lemma {:induction false} ShlXor(a: nat, b: nat, n: nat)
    ensures Shl(Xor(a, b), n) == Xor(Shl(a, n), Shl(b, n))
    decreases n
  {
    hide Xor;
    if n > 0 {
      ShlXor(a, b, n - 1);
      Double(Shl(a, n - 1), Shl(b, n - 1));
    }
  }

  lemma {:induction false} ShlTwice(a: nat, n: nat)
    ensures Shl(2 * a, n) == Shl(a, n + 1)
    decreases n
  {
    if n > 0 { ShlTwice(a, n - 1); }
  }

  lemma {:induction false} ShlZero(n: nat)
    ensures Shl(0, n) == 0
  {
    ShlIsMul(0, n);
  }

  /** The terms for the low n bits of x are the product with its n highest coefficients. */
  lemma {:induction false} SumIsTimes(f: Field, x: nat, y: nat, n: nat) returns (q: nat)
    requires Proper(f) && y < Pow2(f.width) && n <= f.width
    ensures var w := f.width;
            Xor(Shl(Times(Shr(Mirror(x, w), w - n), Mirror(y, w)), w - n), Mirror(Sum(f, x, y, n), w)) ==
            Times(q, Modulus(f))
    decreases n
  {
    hide Xor, Mirror, Halved, Times, Modulus, Bit, Shl, Shr;
    var w, p := f.width, Modulus(f);
    var mx, my := Mirror(x, w), Mirror(y, w);
    q := 0;
    if n == 0 {
      MirrorBound(x, w);
      LowSmall(mx, w);
      TimesNone(my);
      TimesNone(p);
      ShlZero(w);
      MirrorZero(w);
      XorZero(0);
    } else {
      var i := w - n;
      var c := Bit(x, n - 1);
      var rest := SumIsTimes(f, x, y, n - 1);
      var a, s := Times(Shr(mx, i + 1), my), Sum(f, x, y, n - 1);
      MirrorBit(x, w, i);
      ShrStep(mx, i + 1);
      TimesStep(Shr(mx, i + 1), if c then 1 else 0, my);
      ShlXor(if c then my else 0, 2 * a, i);
      ShlTwice(a, i);
      ShlZero(i);
      var term := if c then Halved(f, y, i) else 0;
      MirrorXor(s, term, w);
      XorComm(Mirror(s, w), Mirror(term, w));
      XorSwap(Shl(if c then my else 0, i), Shl(a, i + 1), Mirror(term, w), Mirror(s, w));
      if c {
        var k := HalvedIsShift(f, y, i);
        q := Xor(k, rest);
        TimesXor(k, rest, p);
      } else {
        q := rest;
        MirrorZero(w);
        XorZero(0);
        XorZero(Times(rest, p));
      }
    }
  }

  /** The block product is the product of the polynomials up to a multiple of the modulus, and its degree is
      below the width: the remainder. */
  lemma {:induction false} ProductIsModular(f: Field, x: nat, y: nat)
    requires Proper(f) && y < Pow2(f.width)
    ensures exists q ::
              Xor(Times(Mirror(x, f.width), Mirror(y, f.width)), Mirror(Product(f, x, y), f.width)) ==
              Times(q, Modulus(f))
    ensures Mirror(Product(f, x, y), f.width) < Pow2(f.width)
  {
    hide Mirror, Times, Sum, Product, Modulus, Xor;
    var q := SumIsTimes(f, x, y, f.width);
    ProductIsSum(f, x, y);
    MirrorBound(Product(f, x, y), f.width);
  }

  lemma {:induction false} ShlBit(a: nat, n: nat, i: nat)
    ensures Bit(Shl(a, n), i) <==> i >= n && Bit(a, i - n)
    decreases n
  {
    if n > 0 && i > 0 {
      assert Shl(a, n) / 2 == Shl(a, n - 1);
      ShlBit(a, n - 1, i - 1);
    }
  }

  lemma {:induction false} MirrorShl(a: nat, n: nat, k: nat)
    ensures Mirror(Shl(a, n), n + k) == Mirror(a, k)
    decreases n + k
  {
    if n + k > 0 {
      hide Bit, Shl;
      ShlBit(a, n, n + k - 1);
      if k > 0 { MirrorShl(a, n, k - 1); } else { MirrorLow(a, n, n); }
    }
  }

  lemma {:induction false} MirrorLow(a: nat, n: nat, k: nat)
    requires k <= n
    ensures Mirror(Shl(a, n), k) == 0
    decreases k
  {
    if k > 0 {
      hide Bit, Shl;
      ShlBit(a, n, k - 1);
      MirrorLow(a, n, k - 1);
    }
  }

  // ---- The only remainder ---------------------------------------------------------------------

  lemma {:induction false} XorKeepsTop(a: nat, b: nat, m: nat)
    requires Pow2(m) <= a < 2 * Pow2(m) && b < Pow2(m)
    ensures Pow2(m) <= Xor(b, a) < 2 * Pow2(m)
    decreases m
  {
    hide Xor;
    if m > 0 {
      XorKeepsTop(a / 2, b / 2, m - 1);
      XorPair(b / 2, b % 2, a / 2, a % 2);
    } else {
      XorZero(a);
    }
  }

  /** Degrees add: a multiple of the modulus is zero or not below it. */
  lemma {:induction false} TimesDegree(q: nat, p: nat, w: nat) returns (d: nat)
    requires q > 0 && Pow2(w) <= p < 2 * Pow2(w)
    ensures d >= w && Pow2(d) <= Times(q, p) < 2 * Pow2(d)
    decreases q
  {
    hide Xor, Times;
    TimesStep(q / 2, q % 2, p);
    if q == 1 {
      TimesNone(p);
      XorZero(p);
      d := w;
    } else {
      var e := TimesDegree(q / 2, p, w);
      d := e + 1;
      PowGrows(w, e);
      XorKeepsTop(2 * Times(q / 2, p), if q % 2 == 1 then p else 0, d);
    }
  }

  lemma {:induction false} PowGrows(m: nat, n: nat)
    requires m <= n
    ensures Pow2(m) <= Pow2(n)
    decreases n
  {
    if m < n { PowGrows(m, n - 1); }
  }

  lemma {:induction false} SameRemainder(a: nat, b: nat, q: nat, p: nat, w: nat)
    requires a < Pow2(w) && b < Pow2(w) && Pow2(w) <= p < 2 * Pow2(w) && Xor(a, b) == Times(q, p)
    ensures a == b
  {
    hide Xor, Times;
    XorBound(a, b, w);
    if q > 0 {
      var d := TimesDegree(q, p, w);
      PowGrows(w, d);
      assert false;
    }
    TimesNone(p);
    XorCancel(a, b);
    XorZero(b);
  }

  lemma {:induction false} MirrorUnique(a: nat, b: nat, n: nat)
    requires a < Pow2(n) && b < Pow2(n) && Mirror(a, n) == Mirror(b, n)
    ensures a == b
    decreases n
  {
    hide Mirror, Bit;
    if n > 0 {
      MirrorHalf(a, n - 1);
      MirrorHalf(b, n - 1);
      MirrorBound(a / 2, n - 1);
      MirrorBound(b / 2, n - 1);
      MirrorUnique(a / 2, b / 2, n - 1);
    }
  }

  /** So the block product is the block, and the only one, whose polynomial is congruent to the product of the
      two polynomials. */
  lemma {:induction false} ProductExactly(f: Field, x: nat, y: nat, z: nat)
    requires Proper(f) && y < Pow2(f.width) && z < Pow2(f.width)
    ensures z == Product(f, x, y) <==>
            exists q ::
              Xor(Times(Mirror(x, f.width), Mirror(y, f.width)), Mirror(z, f.width)) == Times(q, Modulus(f))
  {
    hide Mirror, Times, Product, Xor, Proper;
    var w, p := f.width, Modulus(f);
    var t, mz, mp := Times(Mirror(x, w), Mirror(y, w)), Mirror(z, w), Mirror(Product(f, x, y), w);
    ProductIsModular(f, x, y);
    if q :| Xor(t, mz) == Times(q, p) {
      var r :| Xor(t, mp) == Times(r, p);
      XorComm(t, mz);
      XorThrough(mz, t, mp);
      TimesXor(q, r, p);
      MirrorBound(z, w);
      MirrorBound(f.reduction, w);
      SameRemainder(mz, mp, Xor(q, r), p, w);
      ProductBound(f, x, y);
      MirrorUnique(z, Product(f, x, y), w);
    }
  }
}
