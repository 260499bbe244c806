/** Bitwise operations on unbounded non-negative integers, as Python's `int` defines them.

    Every operation recurses on the low bit, so the proofs stay in linear arithmetic; `LowIsMod`
    and `ShlIsMul` give the arithmetic reading. */
module Bits {
  function Pow2(n: nat): (p: nat)
    ensures p > 0
  {
    if n == 0 then 1 else 2 * Pow2(n - 1)
  }

  function Xor(a: nat, b: nat): nat
    decreases a + b
  {
    if a == 0 && b == 0 then 0 else 2 * Xor(a / 2, b / 2) + (a % 2 + b % 2) % 2
  }

  function Or(a: nat, b: nat): nat
    decreases a + b
  {
    if a == 0 && b == 0 then 0
    else 2 * Or(a / 2, b / 2) + (if a % 2 == 1 || b % 2 == 1 then 1 else 0)
  }

  function And(a: nat, b: nat): nat
    decreases a + b
  {
    if a == 0 && b == 0 then 0
    else 2 * And(a / 2, b / 2) + (if a % 2 == 1 && b % 2 == 1 then 1 else 0)
  }

  /** `a << n`. */
  function Shl(a: nat, n: nat): nat {
    if n == 0 then a else 2 * Shl(a, n - 1)
  }

  /** `a >> n`. */
  function Shr(a: nat, n: nat): nat {
    if n == 0 then a else Shr(a / 2, n - 1)
  }

  /** `a & ((1 << n) - 1)`. */
  function Low(a: nat, n: nat): (r: nat)
    ensures r < Pow2(n)
  {
    if n == 0 then 0 else 2 * Low(a / 2, n - 1) + a % 2
  }

  /** `a & (1 << i) != 0`. */
  predicate Bit(a: nat, i: nat) {
    if i == 0 then a % 2 == 1 else Bit(a / 2, i - 1)
  }

  // ---- Arithmetic reading ---------------------------------------------------------------------

  lemma {:induction false} ShlIsMul(a: nat, n: nat)
    ensures Shl(a, n) == a * Pow2(n)
  {
    if n != 0 { ShlIsMul(a, n - 1); }
  }

  lemma {:induction false} Twice(x: nat, p: nat)
    ensures x * (2 * p) == 2 * (x * p)
  {
  }

  /** Masking with `(1 << n) - 1` is reduction modulo `2^n`, and what it drops is `a >> n`. */
  lemma {:induction false} LowIsMod(a: nat, n: nat)
    ensures a == Shr(a, n) * Pow2(n) + Low(a, n)
  {
    if n != 0 {
      LowIsMod(a / 2, n - 1);
      Twice(Shr(a / 2, n - 1), Pow2(n - 1));
    }
  }

  lemma {:induction false} LowSmall(a: nat, n: nat)
    requires a < Pow2(n)
    ensures Low(a, n) == a && Shr(a, n) == 0
  {
    if n != 0 { LowSmall(a / 2, n - 1); }
  }

  lemma {:induction false} Pow2Add(m: nat, n: nat)
    ensures Pow2(m + n) == Pow2(m) * Pow2(n) == Shl(Pow2(m), n)
  {
    if n == 0 {
    } else {
      Pow2Add(m, n - 1);
      assert Pow2(m) * (2 * Pow2(n - 1)) == 2 * (Pow2(m) * Pow2(n - 1));
    }
  }

  lemma {:induction false} SameHalves(x: nat, y: nat)
    requires x / 2 == y / 2 && x % 2 == y % 2
    ensures x == y
  {
  }

  lemma {:induction false} Scaled(d: int, p: nat)
    ensures d >= 1 ==> d * p >= p
    ensures d <= -1 ==> d * p + p <= 0
  {
    if d >= 1 {
      assert (d - 1) * p >= 0;
    } else if d <= -1 {
      assert (-d - 1) * p >= 0;
    }
  }

  /** Quotient and remainder are the only way to split a number at p. */
  lemma {:induction false} Remainder(q: int, m: nat, p: nat)
    requires m < p
    ensures (q * p + m) % p == m && (q * p + m) / p == q
  {
    var x := q * p + m;
    var d := q - x / p;
    assert x == x / p * p + x % p;
    assert d * p == x % p - m;
    Scaled(d, p);
  }

  // ---- Exclusive or ---------------------------------------------------------------------------

  lemma {:induction false} XorPair(x: nat, u: nat, y: nat, v: nat)
    requires u < 2 && v < 2
    ensures Xor(2 * x + u, 2 * y + v) == 2 * Xor(x, y) + (u + v) % 2
  {
    var a, b := 2 * x + u, 2 * y + v;
    assert a / 2 == x && a % 2 == u && b / 2 == y && b % 2 == v;
  }

  /** The recursion of `Xor`, read as equations on the halves and the low bits. */
  lemma {:induction false} XorStep(a: nat, b: nat)
    ensures Xor(a, b) / 2 == Xor(a / 2, b / 2)
    ensures Xor(a, b) % 2 == (a % 2 + b % 2) % 2
  {
  }

  lemma {:induction false} XorZero(a: nat)
    ensures Xor(a, 0) == a && Xor(0, a) == a
  {
    if a != 0 { XorZero(a / 2); }
  }

  lemma {:induction false} XorSelf(a: nat)
    ensures Xor(a, a) == 0
  {
    if a != 0 { XorSelf(a / 2); }
  }

  lemma {:induction false} XorComm(a: nat, b: nat)
    ensures Xor(a, b) == Xor(b, a)
    decreases a + b
  {
    if a != 0 || b != 0 { XorComm(a / 2, b / 2); }
  }

  lemma {:induction false} XorStep3(a: nat, b: nat, c: nat)
    ensures Xor(Xor(a, b), c) / 2 == Xor(Xor(a / 2, b / 2), c / 2)
    ensures Xor(Xor(a, b), c) % 2 == (a % 2 + b % 2 + c % 2) % 2
  {
    hide Xor;
    XorStep(a, b);
    XorStep(Xor(a, b), c);
  }

  lemma {:induction false} XorAssoc(a: nat, b: nat, c: nat)
    ensures Xor(Xor(a, b), c) == Xor(a, Xor(b, c))
    decreases a + b + c
  {
    XorComm(a, Xor(b, c));
    if a != 0 || b != 0 || c != 0 {
      XorAssoc(a / 2, b / 2, c / 2);
      XorComm(a / 2, Xor(b / 2, c / 2));
      XorStep3(a, b, c);
      XorStep3(b, c, a);
      SameHalves(Xor(Xor(a, b), c), Xor(Xor(b, c), a));
    }
  }

  /** Exclusive or with the same operand twice gives the other operand back. */
  lemma {:induction false} XorCancel(a: nat, b: nat)
    ensures Xor(Xor(a, b), b) == a
  {
    XorAssoc(a, b, b);
    XorSelf(b);
    XorZero(a);
  }

  /** Exclusive or of two pairs, regrouped. */
  lemma {:induction false} XorSwap(a: nat, b: nat, c: nat, d: nat)
    ensures Xor(Xor(a, b), Xor(c, d)) == Xor(Xor(a, c), Xor(b, d))
  {
    hide Xor;
    XorAssoc(a, b, Xor(c, d));
    XorAssoc(b, c, d);
    XorComm(b, c);
    XorAssoc(c, b, d);
    XorAssoc(a, c, Xor(b, d));
  }

  lemma {:induction false} XorBound(a: nat, b: nat, k: nat)
    requires a < Pow2(k) && b < Pow2(k)
    ensures Xor(a, b) < Pow2(k)
  {
    if k != 0 { XorBound(a / 2, b / 2, k - 1); }
  }

  lemma {:induction false} NoBits(x: nat)
    ensures Low(x, 0) == 0
  {
  }

  lemma {:induction false} LowPair(x: nat, u: nat, k: nat)
    requires u < 2
    ensures Low(2 * x + u, k + 1) == 2 * Low(x, k) + u
  {
    var a := 2 * x + u;
    assert a / 2 == x && a % 2 == u;
  }

  /** The low k bits of an exclusive or depend on the low k bits of the operands only. */
  lemma {:induction false} XorLow(a: nat, b: nat, k: nat)
    ensures Low(Xor(a, b), k) == Xor(Low(a, k), Low(b, k))
  {
    hide Xor, Low, Pow2;
    if k == 0 {
      XorZero(0);
      NoBits(a);
      NoBits(b);
      NoBits(Xor(a, b));
    } else {
      XorLow(a / 2, b / 2, k - 1);
      XorLowStep(a / 2, a % 2, b / 2, b % 2, k - 1);
      assert 2 * (a / 2) + a % 2 == a && 2 * (b / 2) + b % 2 == b;
    }
  }

  lemma {:induction false} XorLowStep(x: nat, u: nat, y: nat, v: nat, k: nat)
    requires u < 2 && v < 2 && Low(Xor(x, y), k) == Xor(Low(x, k), Low(y, k))
    ensures Low(Xor(2 * x + u, 2 * y + v), k + 1) == Xor(Low(2 * x + u, k + 1), Low(2 * y + v, k + 1))
  {
    hide Xor, Low, Pow2;
    XorPair(x, u, y, v);
    LowPair(x, u, k);
    LowPair(y, v, k);
    LowPair(Xor(x, y), (u + v) % 2, k);
    XorPair(Low(x, k), u, Low(y, k), v);
  }

  /** Bit i of an exclusive or is the exclusive or of the bits. */
  lemma {:induction false} XorBit(a: nat, b: nat, i: nat)
    ensures Bit(Xor(a, b), i) == (Bit(a, i) != Bit(b, i))
  {
    XorStep(a, b);
    if i != 0 { XorBit(a / 2, b / 2, i - 1); }
  }

  lemma {:induction false} ZeroBit(i: nat)
    ensures !Bit(0, i)
  {
    if i != 0 { ZeroBit(i - 1); }
  }

  // ---- And ------------------------------------------------------------------------------------

  lemma {:induction false} AndZero(a: nat)
    ensures And(a, 0) == 0 && And(0, a) == 0
  {
    if a != 0 { AndZero(a / 2); }
  }

  lemma {:induction false} AndBound(a: nat, b: nat, k: nat)
    requires a < Pow2(k)
    ensures And(a, b) < Pow2(k)
  {
    if k == 0 { AndZero(b); } else { AndBound(a / 2, b / 2, k - 1); }
  }

  /** And works on the low k bits and the bits above them separately. */
  lemma {:induction false} AndSplit(a: nat, x: nat, b: nat, y: nat, k: nat)
    requires a < Pow2(k) && b < Pow2(k)
    ensures And(Shl(x, k) + a, Shl(y, k) + b) == Shl(And(x, y), k) + And(a, b)
  {
    hide And;
    if k == 0 {
      AndZero(0);
    } else {
      AndSplit(a / 2, x, b / 2, y, k - 1);
      AndSplitStep(Shl(x, k - 1), a / 2, a % 2, Shl(y, k - 1), b / 2, b % 2, Shl(And(x, y), k - 1));
      assert 2 * (a / 2) + a % 2 == a && 2 * (b / 2) + b % 2 == b;
    }
  }

  lemma {:induction false} AndSplitStep(p: nat, a: nat, u: nat, q: nat, b: nat, v: nat, r: nat)
    requires u < 2 && v < 2 && And(p + a, q + b) == r + And(a, b)
    ensures And(2 * p + (2 * a + u), 2 * q + (2 * b + v)) == 2 * r + And(2 * a + u, 2 * b + v)
  {
    hide And;
    AndPair(p + a, u, q + b, v);
    AndPair(a, u, b, v);
    assert 2 * (p + a) + u == 2 * p + (2 * a + u);
    assert 2 * (q + b) + v == 2 * q + (2 * b + v);
  }

  lemma {:induction false} AndPair(x: nat, u: nat, y: nat, v: nat)
    requires u < 2 && v < 2
    ensures And(2 * x + u, 2 * y + v) == 2 * And(x, y) + (if u == 1 && v == 1 then 1 else 0)
  {
    var a, b := 2 * x + u, 2 * y + v;
    assert a / 2 == x && a % 2 == u && b / 2 == y && b % 2 == v;
    AndZero(0);
  }

  lemma {:induction false} AndStep(a: nat, b: nat)
    ensures And(a, b) == 2 * And(a / 2, b / 2) + (if a % 2 == 1 && b % 2 == 1 then 1 else 0)
  {
    AndZero(0);
  }

  lemma {:induction false} AndOnes(a: nat, k: nat)
    ensures And(a, Pow2(k) - 1) == Low(a, k)
  {
    if k == 0 {
      AndZero(a);
    } else {
      AndOnes(a / 2, k - 1);
      AndStep(a, Pow2(k) - 1);
    }
  }

  // ---- Shifts and masks -----------------------------------------------------------------------

  lemma {:induction false} OrZero(a: nat)
    ensures Or(a, 0) == a
  {
    if a != 0 { OrZero(a / 2); }
  }

  /** Or-ing a value into clear low bits is addition. */
  lemma {:induction false} OrDisjoint(a: nat, b: nat, k: nat)
    requires b < Pow2(k)
    ensures Or(Shl(a, k), b) == Shl(a, k) + b
  {
    if k == 0 {
      OrZero(a);
    } else {
      OrDisjoint(a, b / 2, k - 1);
    }
  }

  lemma {:induction false} LowDouble(a: nat, k: nat)
    ensures Low(2 * a, k + 1) == 2 * Low(a, k)
  {
  }

  lemma {:induction false} LowShl(a: nat, m: nat, n: nat)
    ensures Low(Shl(a, n), m + n) == Shl(Low(a, m), n)
  {
    hide Low;
    if n != 0 {
      LowShl(a, m, n - 1);
      LowDouble(Shl(a, n - 1), m + n - 1);
    }
  }

  lemma {:induction false} LowHalves(a: nat, n: nat)
    requires n > 0
    ensures Low(a, n) == 2 * Low(a / 2, n - 1) + a % 2
  {
  }

  lemma {:induction false} LowNone(a: nat)
    ensures Low(a, 0) == 0
  {
  }

  lemma {:induction false} LowLow(a: nat, m: nat, n: nat)
    requires m <= n
    ensures Low(Low(a, n), m) == Low(a, m)
  {
    hide Low, Pow2;
    if m != 0 {
      LowLow(a / 2, m - 1, n - 1);
      LowHalves(a, n);
      LowHalves(a, m);
      LowPair(Low(a / 2, n - 1), a % 2, m - 1);
    } else {
      LowNone(a);
      LowNone(Low(a, n));
    }
  }

  lemma {:induction false} ShrLow(a: nat, m: nat, n: nat)
    ensures Shr(Low(a, m + n), m) < Pow2(n)
  {
    if m != 0 { ShrLow(a / 2, m - 1, n); }
  }

  lemma {:induction false} LowStep(a: nat, k: nat)
    requires k > 0
    ensures Low(a, k) / 2 == Low(a / 2, k - 1) && Low(a, k) % 2 == a % 2
  {
  }

  lemma {:induction false} LowAddCarry(a: nat, b: nat, c: nat, k: nat)
    requires c <= 1
    ensures Low(Low(a, k) + Low(b, k) + c, k) == Low(a + b + c, k)
  {
    hide Low, Pow2;
    if k == 0 {
      NoBits(Low(a, 0) + Low(b, 0) + c);
      NoBits(a + b + c);
    } else {
      var d, r := (a % 2 + b % 2 + c) / 2, (a % 2 + b % 2 + c) % 2;
      LowAddCarry(a / 2, b / 2, d, k - 1);
      LowCarryStep(a / 2, a % 2, b / 2, b % 2, c, d, r, k - 1);
      assert 2 * (a / 2) + a % 2 == a && 2 * (b / 2) + b % 2 == b;
    }
  }

  lemma {:induction false} LowCarryStep(x: nat, u: nat, y: nat, v: nat, c: nat, d: nat, r: nat, k: nat)
    requires u < 2 && v < 2 && r < 2 && u + v + c == 2 * d + r
    requires Low(Low(x, k) + Low(y, k) + d, k) == Low(x + y + d, k)
    ensures Low(Low(2 * x + u, k + 1) + Low(2 * y + v, k + 1) + c, k + 1) == Low(2 * x + u + (2 * y + v) + c, k + 1)
  {
    hide Low, Pow2;
    LowPair(x, u, k);
    LowPair(y, v, k);
    var s, t := Low(x, k) + Low(y, k) + d, x + y + d;
    LowPair(s, r, k);
    LowPair(t, r, k);
    assert Low(2 * x + u, k + 1) + Low(2 * y + v, k + 1) + c == 2 * s + r;
    assert 2 * x + u + (2 * y + v) + c == 2 * t + r;
  }

  /** The low k bits of a sum depend on the low k bits of the terms only. */
  lemma {:induction false} LowAdd(a: nat, b: nat, k: nat)
    ensures Low(Low(a, k) + Low(b, k), k) == Low(a + b, k)
  {
    LowAddCarry(a, b, 0, k);
  }

  lemma {:induction false} ShlBound(a: nat, b: nat, m: nat, n: nat)
    requires a < Pow2(m) && b < Pow2(n)
    ensures Shl(a, n) + b < Pow2(m + n)
  {
    if n != 0 { ShlBound(a, b / 2, m, n - 1); }
  }

  lemma {:induction false} ShrBound(a: nat, m: nat, n: nat)
    requires a < Pow2(m + n)
    ensures Shr(a, m) < Pow2(n)
  {
    if m != 0 { ShrBound(a / 2, m - 1, n); }
  }

  lemma {:induction false} LowAddOne(a: nat, n: nat)
    ensures Low(Low(a, n) + 1, n) == Low(a + 1, n)
  {
    if n != 0 {
      LowAdd(a, 1, n);
      LowSmall(1, n);
    }
  }

  /** Counting past `2^n` clears the low bits and carries into the high ones. */
  lemma {:induction false} LowIncrement(a: nat, n: nat)
    ensures Low(a + 1, n) == if Low(a, n) == Pow2(n) - 1 then 0 else Low(a, n) + 1
    ensures Shr(a + 1, n) == if Low(a, n) == Pow2(n) - 1 then Shr(a, n) + 1 else Shr(a, n)
  {
    if n != 0 && a % 2 == 1 {
      assert (a + 1) / 2 == a / 2 + 1;
      LowIncrement(a / 2, n - 1);
    }
  }

  lemma {:induction false} LowOver(a: nat, n: nat)
    requires a < 2 * Pow2(n)
    ensures Low(a, n) == if a < Pow2(n) then a else a - Pow2(n)
  {
    if n != 0 { LowOver(a / 2, n - 1); }
  }

  /** Adding s leaves the low n bits of a alone exactly when the low n bits of s are zero. */
  lemma {:induction false} CarryVanishes(a: nat, s: nat, n: nat)
    requires a < Pow2(n)
    ensures Low(a + s, n) == a <==> Low(s, n) == 0
  {
    LowAdd(a, s, n);
    LowSmall(a, n);
    LowOver(a + Low(s, n), n);
  }

  // ---- Bit by bit -----------------------------------------------------------------------------

  lemma {:induction false} AndBit(a: nat, b: nat, i: nat)
    ensures Bit(And(a, b), i) == (Bit(a, i) && Bit(b, i))
  {
    AndStep(a, b);
    if i != 0 { AndBit(a / 2, b / 2, i - 1); }
  }

  lemma {:induction false} OrStep(a: nat, b: nat)
    ensures Or(a, b) / 2 == Or(a / 2, b / 2)
    ensures Or(a, b) % 2 == if a % 2 == 1 || b % 2 == 1 then 1 else 0
  {
  }

  lemma {:induction false} OrBit(a: nat, b: nat, i: nat)
    ensures Bit(Or(a, b), i) == (Bit(a, i) || Bit(b, i))
  {
    OrStep(a, b);
    if i != 0 { OrBit(a / 2, b / 2, i - 1); }
  }

  /** Bit i of a is its digit of weight `2^i`. */
  lemma {:induction false} BitIsDigit(a: nat, i: nat)
    ensures Bit(a, i) <==> a / Pow2(i) % 2 == 1
  {
    if i == 0 {
      assert Pow2(0) == 1;
    } else {
      BitIsDigit(a / 2, i - 1);
      HalfDigit(a, Pow2(i - 1));
    }
  }

  lemma {:induction false} HalfDigit(a: nat, p: nat)
    requires p > 0
    ensures a / 2 / p == a / (2 * p)
  {
    var q, m := a / 2 / p, a / 2 % p;
    assert a / 2 == q * p + m;
    assert a == q * (2 * p) + (2 * m + a % 2);
    assert 2 * m + a % 2 < 2 * p;
    QuotientIs(a, q, 2 * m + a % 2, 2 * p);
  }

  lemma {:induction false} QuotientIs(a: nat, q: nat, m: nat, p: nat)
    requires a == q * p + m && m < p
    ensures a / p == q
  {
    Remainder(q, m, p);
  }
}
