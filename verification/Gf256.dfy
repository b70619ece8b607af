/**
 The field GF(2^8) with the reduction polynomial x^8 + x^4 + x^3 + x + 1.

 Mul is the carry-less product of section 4.2 of FIPS 197, the definition the log/exp tables have to agree
 with. Exp enumerates the powers of the generator 3 the way the table-building loop does.
 */
module Gf256 {
  import opened Combinatorics

  function Add(a: bv8, b: bv8): bv8 { a ^ b }

  /** Multiplication by x, reduced. */
  function XTime(a: bv8): bv8 {
    Add(a << 1, if a & 0x80 != 0 then 0x1B else 0)
  }

  /** Multiplication by the generator x + 1. */
  function Times3(a: bv8): bv8 { Add(XTime(a), a) }

  function IfOdd(b: bv8, a: bv8): bv8 { if b & 1 != 0 then a else 0 }

  /** Carry-less product modulo 0x11B: the sum of a * x^i over the set bits i of b, by Horner's rule. */
  function Mul(a: bv8, b: bv8): bv8
    decreases b
  {
    if b == 0 then 0 else Add(XTime(Mul(a, b >> 1)), IfOdd(b, a))
  }

  function Exp(n: nat): bv8 {
    if n == 0 then 1 else Times3(Exp(n - 1))
  }

  // Addition

  lemma {:induction false} AddLaws(a: bv8, b: bv8, c: bv8)
    ensures Add(Add(a, b), c) == Add(a, Add(b, c))
    ensures Add(a, b) == Add(b, a)
    ensures Add(a, 0) == a && Add(0, a) == a && Add(a, a) == 0
  {
  }

  lemma {:induction false} AddMedial(a: bv8, b: bv8, c: bv8, d: bv8)
    ensures Add(Add(a, b), Add(c, d)) == Add(Add(a, c), Add(b, d))
  {
    hide Add;
    AddLaws(a, b, Add(c, d));
    AddLaws(b, c, d);
    AddLaws(c, b, d);
    AddLaws(a, c, Add(b, d));
  }

  lemma {:induction false} AddZero(a: bv8, b: bv8)
    ensures Add(a, b) == 0 <==> a == b
  {
  }

  // Multiplication by x and by 3 as linear maps

  lemma {:induction false} ShiftLinear(a: bv8, b: bv8)
    ensures Add(a, b) << 1 == Add(a << 1, b << 1)
    ensures Add(a, b) >> 1 == Add(a >> 1, b >> 1)
    ensures Add(a, b) & 1 == Add(a & 1, b & 1)
    ensures Add(a, b) & 0x80 == Add(a & 0x80, b & 0x80)
    ensures a & 0x80 == 0 || a & 0x80 == 0x80
    ensures a & 1 == 0 || a & 1 == 1
  {
  }

  lemma {:induction false} XTimeLinear(a: bv8, b: bv8)
    ensures XTime(Add(a, b)) == Add(XTime(a), XTime(b))
  {
    var ra: bv8 := if a & 0x80 != 0 then 0x1B else 0;
    var rb: bv8 := if b & 0x80 != 0 then 0x1B else 0;
    calc {
      XTime(Add(a, b));
      Add(Add(a, b) << 1, if Add(a, b) & 0x80 != 0 then 0x1B else 0);
      { ShiftLinear(a, b); ShiftLinear(b, a); }
      Add(Add(a << 1, b << 1), Add(ra, rb));
      { AddMedial(a << 1, b << 1, ra, rb); }
      Add(XTime(a), XTime(b));
    }
  }

  lemma {:induction false} Times3Linear(a: bv8, b: bv8)
    ensures Times3(Add(a, b)) == Add(Times3(a), Times3(b))
  {
    hide Add, XTime;
    XTimeLinear(a, b);
    AddMedial(XTime(a), XTime(b), a, b);
  }

  lemma {:induction false} XTimeTimes3(a: bv8)
    ensures XTime(Times3(a)) == Times3(XTime(a))
  {
    hide Add, XTime;
    XTimeLinear(XTime(a), a);
  }

  lemma {:induction false} IfOddLinear(a: bv8, b: bv8, c: bv8)
    ensures IfOdd(Add(b, c), a) == Add(IfOdd(b, a), IfOdd(c, a))
  {
    ShiftLinear(b, c);
    ShiftLinear(c, b);
  }

  // Multiplication

  lemma {:induction false} MulStep(a: bv8, b: bv8)
    ensures Mul(a, b) == Add(XTime(Mul(a, b >> 1)), IfOdd(b, a))
  {
  }

  lemma {:induction false} MulLinearRight(a: bv8, b: bv8, c: bv8)
    ensures Mul(a, Add(b, c)) == Add(Mul(a, b), Mul(a, c))
    decreases b
  {
    hide XTime, IfOdd;
    if b == 0 {
    } else {
      calc {
        Mul(a, Add(b, c));
        { MulStep(a, Add(b, c)); ShiftLinear(b, c); }
        Add(XTime(Mul(a, Add(b >> 1, c >> 1))), IfOdd(Add(b, c), a));
        { MulLinearRight(a, b >> 1, c >> 1); XTimeLinear(Mul(a, b >> 1), Mul(a, c >> 1)); IfOddLinear(a, b, c); }
        Add(Add(XTime(Mul(a, b >> 1)), XTime(Mul(a, c >> 1))), Add(IfOdd(b, a), IfOdd(c, a)));
        { AddMedial(XTime(Mul(a, b >> 1)), XTime(Mul(a, c >> 1)), IfOdd(b, a), IfOdd(c, a)); }
        Add(Add(XTime(Mul(a, b >> 1)), IfOdd(b, a)), Add(XTime(Mul(a, c >> 1)), IfOdd(c, a)));
        { MulStep(a, b); MulStep(a, c); }
        Add(Mul(a, b), Mul(a, c));
      }
    }
  }

  lemma {:induction false} MulTimes3(a: bv8, b: bv8)
    ensures Mul(Times3(a), b) == Times3(Mul(a, b))
    decreases b
  {
    hide Add, XTime, Times3;
    if b == 0 {
      Times3Zero();
    } else {
      var rest := Mul(a, b >> 1);
      calc {
        Mul(Times3(a), b);
        { MulStep(Times3(a), b); MulTimes3(a, b >> 1); }
        Add(XTime(Times3(rest)), IfOdd(b, Times3(a)));
        { XTimeTimes3(rest); Times3Zero(); Times3Linear(XTime(rest), IfOdd(b, a)); }
        Times3(Mul(a, b));
      }
    }
  }

  lemma {:induction false} Times3Zero()
    ensures Times3(0) == 0
  {
  }

  lemma {:induction false} MulOne(b: bv8)
    ensures Mul(1, b) == b
    decreases b
  {
    if b != 0 {
      MulOne(b >> 1);
      HalveDouble(b);
    }
  }

  lemma {:induction false} HalveDouble(b: bv8)
    ensures Add(XTime(b >> 1), IfOdd(b, 1)) == b
  {
  }

  lemma {:induction false} MulZero(a: bv8)
    ensures Mul(a, 0) == 0 && Mul(0, a) == 0
    decreases a
  {
    if a != 0 {
      MulZero(a >> 1);
    }
  }

  lemma {:induction false} Times3Injective(a: bv8, b: bv8)
    requires Times3(a) == Times3(b)
    ensures a == b
  {
  }

  lemma {:induction false} ExpAdd(m: nat, n: nat)
    ensures Mul(Exp(m), Exp(n)) == Exp(m + n)
  {
    hide Times3, Mul;
    if m == 0 {
      MulOne(Exp(n));
    } else {
      ExpAdd(m - 1, n);
      MulTimes3(Exp(m - 1), Exp(n));
    }
  }

  // The powers of 3 enumerate the non-zero bytes

  lemma {:induction false} ExpSmall()
    ensures Exp(15) == 0x35 && Exp(17) == 0xE1
  {
    assert Exp(3) == 0x0F;
    assert Exp(6) == Times3(Times3(Times3(0x0F)));
    assert Exp(9) == Times3(Times3(Times3(Exp(6))));
    assert Exp(12) == Times3(Times3(Times3(Exp(9))));
    assert Exp(15) == Times3(Times3(Times3(Exp(12))));
    assert Exp(17) == Times3(Times3(Exp(15)));
  }

  /** The products that lead from 3^17 to 3^255. */
  lemma {:induction false} LandmarkProducts()
    ensures Mul(0xE1, 0xE1) == 0x5C && Mul(0x5C, 0xE1) == 0x0C && Mul(0x5C, 0x0C) == 0xBD
    ensures Mul(0xBD, 0xBD) == 0xBC && Mul(0xBC, 0xBD) == 0x01
  {
    assert Mul(0xE1, 0x1) == 0xE1;
    assert Mul(0xE1, 0x3) == 0x38;
    assert Mul(0xE1, 0x7) == 0x91;
    assert Mul(0xE1, 0xE) == 0x39;
    assert Mul(0xE1, 0x1C) == 0x72;
    assert Mul(0xE1, 0x38) == 0xE4;
    assert Mul(0xE1, 0x70) == 0xD3;
    assert Mul(0xE1, 0xE1) == 0x5C;
    assert Mul(0x5C, 0x1) == 0x5C;
    assert Mul(0x5C, 0x3) == 0xE4;
    assert Mul(0x5C, 0x7) == 0x8F;
    assert Mul(0x5C, 0xE) == 0x5;
    assert Mul(0x5C, 0x1C) == 0xA;
    assert Mul(0x5C, 0x38) == 0x14;
    assert Mul(0x5C, 0x70) == 0x28;
    assert Mul(0x5C, 0xE1) == 0xC;
    assert Mul(0x5C, 0x1) == 0x5C;
    assert Mul(0x5C, 0x3) == 0xE4;
    assert Mul(0x5C, 0x6) == 0xD3;
    assert Mul(0x5C, 0xC) == 0xBD;
    assert Mul(0xBD, 0x1) == 0xBD;
    assert Mul(0xBD, 0x2) == 0x61;
    assert Mul(0xBD, 0x5) == 0x7F;
    assert Mul(0xBD, 0xB) == 0x43;
    assert Mul(0xBD, 0x17) == 0x3B;
    assert Mul(0xBD, 0x2F) == 0xCB;
    assert Mul(0xBD, 0x5E) == 0x8D;
    assert Mul(0xBD, 0xBD) == 0xBC;
    assert Mul(0xBC, 0x1) == 0xBC;
    assert Mul(0xBC, 0x2) == 0x63;
    assert Mul(0xBC, 0x5) == 0x7A;
    assert Mul(0xBC, 0xB) == 0x48;
    assert Mul(0xBC, 0x17) == 0x2C;
    assert Mul(0xBC, 0x2F) == 0xE4;
    assert Mul(0xBC, 0x5E) == 0xD3;
    assert Mul(0xBC, 0xBD) == 0x1;
  }

  lemma {:induction false} ExpLandmarks()
    ensures Exp(15) != 1 && Exp(51) != 1 && Exp(85) != 1 && Exp(255) == 1
  {
    hide Exp, Mul;
    ExpSmall();
    LandmarkProducts();
    ExpAdd(17, 17);
    ExpAdd(34, 17);
    ExpAdd(34, 51);
    ExpAdd(85, 85);
    ExpAdd(170, 85);
  }

  lemma {:induction false} ExpMultiple(d: nat, q: nat)
    requires Exp(d) == 1
    ensures Exp(q * d) == 1
  {
    hide Mul, Times3;
    if q > 0 {
      ExpMultiple(d, q - 1);
      ExpAdd(d, (q - 1) * d);
      MulOne(1);
      assert d + (q - 1) * d == q * d;
    }
  }

  lemma {:induction false} ExpPeriodic(d: nat, n: nat)
    requires Exp(d) == 1
    ensures Exp(n + d) == Exp(n)
  {
    hide Mul, Times3;
    ExpAdd(d, n);
    MulOne(Exp(n));
  }

  lemma {:induction false} ExpMod(n: nat)
    ensures Exp(n % 255) == Exp(n)
  {
    hide Mul, Times3, Exp;
    ExpLandmarks();
    ExpMultiple(255, n / 255);
    ExpPeriodic((n / 255) * 255, n % 255);
  }

  lemma {:induction false} ExpNonZero(n: nat)
    ensures Exp(n) != 0
  {
    if n > 0 {
      ExpNonZero(n - 1);
      if Times3(Exp(n - 1)) == 0 {
        Times3Zero();
        Times3Injective(Exp(n - 1), 0);
      }
    }
  }

  /** A proper divisor of 255 = 3 * 5 * 17 divides 15, 51 or 85. */
  lemma {:induction false} ProperDivisor(d: nat, q: nat) returns (c: nat)
    requires 0 < d < 255 && d * q == 255
    ensures c * d == 15 || c * d == 51 || c * d == 85
  {
    if q <= 15 {
      assert q == 3 || q == 5 || q == 15;
      c := if q == 3 then 1 else if q == 5 then 1 else 3;
    } else {
      assert d <= 15;
      assert d == 1 || d == 3 || d == 5 || d == 15;
      c := if d == 1 then 15 else if d == 3 then 5 else if d == 5 then 3 else 1;
    }
  }

  /** The order of the generator is exactly 255. */
  lemma {:induction false} NoShortPeriod(d: nat)
    requires 0 < d < 255
    ensures Exp(d) != 1
    decreases d
  {
    hide Mul, Times3, Exp;
    if Exp(d) == 1 {
      var q, r := 255 / d, 255 % d;
      ExpLandmarks();
      ExpMultiple(d, q);
      ExpPeriodic(q * d, r);
      ExpPeriodic(255, 0);
      assert q * d + r == 255;
      if r > 0 {
        NoShortPeriod(r);
      } else {
        var c := ProperDivisor(d, q);
        ExpMultiple(d, c);
      }
    }
  }

  lemma {:induction false} ExpInjective(i: nat, j: nat)
    requires i < j < 255
    ensures Exp(i) != Exp(j)
    decreases i
  {
    hide Mul, Times3;
    if i == 0 {
      NoShortPeriod(j);
    } else {
      ExpInjective(i - 1, j - 1);
      if Exp(i) == Exp(j) {
        Times3Injective(Exp(i - 1), Exp(j - 1));
      }
    }
  }

  ghost predicate IsLog(a: bv8, n: nat) { n < 255 && Exp(n) == a }

  function Digit(b: bool): nat { if b then 1 else 0 }

  function Nibble(b0: bool, b1: bool, b2: bool, b3: bool): (n: nat)
    ensures n < 16
  {
    Digit(b0) + 2 * Digit(b1) + 4 * Digit(b2) + 8 * Digit(b3)
  }

  /** A byte as a table index, read off its binary digits. */
  function Index(a: bv8): (i: nat)
    ensures i < 256
  {
    Nibble(a & 1 != 0, a & 2 != 0, a & 4 != 0, a & 8 != 0)
    + 16 * Nibble(a & 16 != 0, a & 32 != 0, a & 64 != 0, a & 128 != 0)
  }

  lemma {:induction false} ZeroIndex()
    ensures Index(0) == 0
  {
  }

  lemma {:induction false} NextIndex(a: bv8)
    requires Index(a) < 255
    ensures Index(a + 1) == Index(a) + 1
  {
  }

  /** A table index as a byte. */
  function FromIndex(i: nat): (a: bv8)
    requires i < 256
    ensures Index(a) == i
  {
    ZeroIndex();
    if i == 0 then 0
    else
      NextIndex(FromIndex(i - 1));
      FromIndex(i - 1) + 1
  }

  lemma {:induction false} NibbleUnique(b0: bool, b1: bool, b2: bool, b3: bool, c0: bool, c1: bool, c2: bool, c3: bool)
    requires Nibble(b0, b1, b2, b3) == Nibble(c0, c1, c2, c3)
    ensures b0 == c0 && b1 == c1 && b2 == c2 && b3 == c3
  {
  }

  lemma {:induction false} SameDigits(a: bv8, b: bv8)
    requires (a & 1 != 0) == (b & 1 != 0) && (a & 2 != 0) == (b & 2 != 0)
    requires (a & 4 != 0) == (b & 4 != 0) && (a & 8 != 0) == (b & 8 != 0)
    requires (a & 16 != 0) == (b & 16 != 0) && (a & 32 != 0) == (b & 32 != 0)
    requires (a & 64 != 0) == (b & 64 != 0) && (a & 128 != 0) == (b & 128 != 0)
    ensures a == b
  {
  }

  lemma {:induction false} IndexInjective(a: bv8, b: bv8)
    requires Index(a) == Index(b)
    ensures a == b
  {
    hide Nibble;
    NibbleUnique(a & 1 != 0, a & 2 != 0, a & 4 != 0, a & 8 != 0, b & 1 != 0, b & 2 != 0, b & 4 != 0, b & 8 != 0);
    NibbleUnique(a & 16 != 0, a & 32 != 0, a & 64 != 0, a & 128 != 0,
                 b & 16 != 0, b & 32 != 0, b & 64 != 0, b & 128 != 0);
    SameDigits(a, b);
  }

  lemma {:induction false} IndexFaithful(a: bv8, b: bv8)
    ensures Index(a) == 0 <==> a == 0
    ensures Index(a) == Index(b) <==> a == b
  {
    ZeroIndex();
    hide Index;
    if Index(a) == Index(b) {
      IndexInjective(a, b);
    }
    if Index(a) == 0 {
      IndexInjective(a, 0);
    }
  }

  /** 255 distinct non-zero bytes are all of them, so every non-zero byte is a power of 3. */
  lemma {:induction false} LogExists(a: bv8)
    requires a != 0
    ensures exists n: nat :: IsLog(a, n)
  {
    hide Mul, Times3, Exp, Index;
    var s := seq(255, i requires 0 <= i < 255 => Index(Exp(i)) - 1);
    forall i | 0 <= i < 255 ensures 0 <= s[i] < 255 {
      ExpNonZero(i);
      IndexFaithful(Exp(i), 0);
    }
    forall i, j | 0 <= i < j < 255 ensures s[i] != s[j] {
      ExpInjective(i, j);
      IndexFaithful(Exp(i), Exp(j));
    }
    Pigeonhole(s);
    IndexFaithful(a, 0);
    assert Index(a) - 1 in s;
    var n :| 0 <= n < 255 && s[n] == Index(a) - 1;
    IndexFaithful(Exp(n), a);
    assert IsLog(a, n);
  }

  ghost function Log(a: bv8): (n: nat)
    requires a != 0
    ensures n < 255 && Exp(n) == a
  {
    LogExists(a);
    var n: nat :| IsLog(a, n);
    n
  }

  // Field laws

  lemma {:induction false} MulByLog(a: bv8, b: bv8)
    requires a != 0 && b != 0
    ensures Mul(a, b) == Exp(Log(a) + Log(b)) == Exp((Log(a) + Log(b)) % 255)
  {
    hide Mul, Exp;
    ExpAdd(Log(a), Log(b));
    ExpMod(Log(a) + Log(b));
  }

  lemma {:induction false} MulComm(a: bv8, b: bv8)
    ensures Mul(a, b) == Mul(b, a)
  {
    hide Mul;
    if a == 0 || b == 0 {
      MulZero(a);
      MulZero(b);
    } else {
      MulByLog(a, b);
      MulByLog(b, a);
    }
  }

  lemma {:induction false} MulNonZero(a: bv8, b: bv8)
    ensures Mul(a, b) == 0 <==> a == 0 || b == 0
  {
    hide Mul, Exp;
    if a == 0 || b == 0 {
      MulZero(a);
      MulZero(b);
    } else {
      MulByLog(a, b);
      ExpNonZero(Log(a) + Log(b));
    }
  }

  lemma {:induction false} ExpAssoc(l: nat, m: nat, n: nat)
    ensures Mul(Mul(Exp(l), Exp(m)), Exp(n)) == Mul(Exp(l), Mul(Exp(m), Exp(n)))
  {
    hide Mul, Exp;
    ExpAdd(l, m);
    ExpAdd(l + m, n);
    ExpAdd(m, n);
    ExpAdd(l, m + n);
  }

  lemma {:induction false} MulAssoc(a: bv8, b: bv8, c: bv8)
    ensures Mul(Mul(a, b), c) == Mul(a, Mul(b, c))
  {
    hide Mul, Exp;
    if a == 0 || b == 0 || c == 0 {
      MulNonZero(a, b);
      MulNonZero(b, c);
      MulNonZero(Mul(a, b), c);
      MulNonZero(a, Mul(b, c));
    } else {
      ExpAssoc(Log(a), Log(b), Log(c));
    }
  }

  lemma {:induction false} MulDistributes(a: bv8, b: bv8, c: bv8)
    ensures Mul(a, Add(b, c)) == Add(Mul(a, b), Mul(a, c))
    ensures Mul(Add(b, c), a) == Add(Mul(b, a), Mul(c, a))
  {
    hide Mul, Add;
    MulLinearRight(a, b, c);
    MulComm(a, b);
    MulComm(a, c);
    MulComm(a, Add(b, c));
  }

  ghost function Inv(a: bv8): bv8 {
    if a == 0 then 0 else Exp((255 - Log(a)) % 255)
  }

  lemma {:induction false} MulInverse(a: bv8)
    requires a != 0
    ensures Mul(a, Inv(a)) == 1
  {
    hide Mul, Exp;
    ExpMod(255 - Log(a));
    ExpAdd(Log(a), 255 - Log(a));
    ExpLandmarks();
  }
}
