/** Decimal arithmetic as Python's default context rounds it: 28 significant
    digits, ties to even. The exponent is unbounded here. */
module Decimals {

  const P27 := 1000000000000000000000000000.0
  const P28 := 10000000000000000000000000000.0

  function Abs(x: real): real { if x < 0.0 then -x else x }

  /** The nearest integer, the even one of two. */
  function HalfEven(x: real): int
    requires x >= 0.0
  {
    var f := x.Floor;
    var d := x - f as real;
    if d < 0.5 || (d == 0.5 && f % 2 == 0) then f else f + 1
  }

  /** A value below ten to the 28th, brought up to 28 integer digits, rounded, and brought back. */
  function Small(x: real): real
    requires 0.0 < x < P28
    decreases (P28 / x).Floor
  {
    if x < P27 then
      Shrinks(x);
      Small(10.0 * x) / 10.0
    else HalfEven(x) as real
  }

  /** A value of at least 28 integer digits, brought down to 28, rounded, and brought back. */
  function Big(x: real): real
    requires x >= P27
    decreases x.Floor
  {
    if x >= P28 then 10.0 * Big(x / 10.0) else HalfEven(x) as real
  }

  function Round(x: real): real {
    if x == 0.0 then 0.0
    else if x < 0.0 then -RoundPositive(-x)
    else RoundPositive(x)
  }

  function RoundPositive(x: real): real
    requires x > 0.0
  {
    if x < P28 then Small(x) else Big(x)
  }

  lemma Shrinks(x: real)
    requires 0.0 < x < P27
    ensures (P28 / (10.0 * x)).Floor < (P28 / x).Floor
  {
    var a := P28 / x;
    assert P28 / (10.0 * x) == a / 10.0;
    assert a > 10.0;
  }

  // ---------------------------------------------------------------- order

  lemma HalfEvenMeans(x: real)
    requires x >= 0.0
    ensures HalfEven(x) as real - 0.5 <= x <= HalfEven(x) as real + 0.5
    ensures HalfEven(x) >= 0
    ensures x == x.Floor as real ==> HalfEven(x) == x.Floor
  {
  }

  lemma HalfEvenMonotone(x: real, y: real)
    requires 0.0 <= x <= y
    ensures HalfEven(x) <= HalfEven(y)
  {
    if x.Floor < y.Floor {
      assert HalfEven(x) <= x.Floor + 1 <= y.Floor;
    }
  }

  lemma HalfEvenBetween(x: real)
    requires P27 <= x <= P28
    ensures P27 <= HalfEven(x) as real <= P28
  {
    assert P27 == P27.Floor as real && P28 == P28.Floor as real;
    HalfEvenMeans(P27);
    HalfEvenMeans(P28);
    HalfEvenMonotone(P27, x);
    HalfEvenMonotone(x, P28);
  }

  lemma {:induction false} SmallBetween(x: real)
    requires 0.0 < x < P28
    ensures 0.0 < Small(x) <= P28
    ensures if x < P27 then Small(x) <= P27 else P27 <= Small(x)
    decreases (P28 / x).Floor
  {
    if x < P27 {
      Shrinks(x);
      SmallBetween(10.0 * x);
    } else {
      HalfEvenBetween(x);
    }
  }

  lemma {:induction false} SmallMonotone(x: real, y: real)
    requires 0.0 < x <= y < P28
    ensures Small(x) <= Small(y)
    decreases (P28 / x).Floor
  {
    if y < P27 {
      Shrinks(x);
      SmallMonotone(10.0 * x, 10.0 * y);
    } else if x < P27 {
      SmallBetween(x);
      SmallBetween(y);
    } else {
      HalfEvenMonotone(x, y);
    }
  }

  lemma {:induction false} BigAtLeast(x: real)
    requires x >= P27
    ensures Big(x) >= P27 && (x >= P28 ==> Big(x) >= P28)
    decreases x.Floor
  {
    if x >= P28 {
      BigAtLeast(x / 10.0);
    } else {
      HalfEvenBetween(x);
    }
  }

  lemma {:induction false} BigMonotone(x: real, y: real)
    requires P27 <= x <= y
    ensures Big(x) <= Big(y)
    decreases y.Floor
  {
    if x >= P28 {
      BigMonotone(x / 10.0, y / 10.0);
    } else if y >= P28 {
      HalfEvenBetween(x);
      BigAtLeast(y);
    } else {
      HalfEvenMonotone(x, y);
    }
  }

  lemma PositiveMonotone(x: real, y: real)
    requires 0.0 < x <= y
    ensures 0.0 < RoundPositive(x) <= RoundPositive(y)
  {
    if x < P28 {
      SmallBetween(x);
      if y < P28 { SmallMonotone(x, y); } else { BigAtLeast(y); }
    } else {
      BigAtLeast(x);
      BigMonotone(x, y);
    }
  }

  /** Rounding keeps the order of any two values. */
  lemma RoundMonotone(x: real, y: real)
    requires x <= y
    ensures Round(x) <= Round(y)
  {
    hide RoundPositive;
    if 0.0 < x {
      PositiveMonotone(x, y);
    } else if y < 0.0 {
      PositiveMonotone(-y, -x);
    } else {
      if x < 0.0 { PositiveMonotone(-x, -x); }
      if y > 0.0 { PositiveMonotone(y, y); }
    }
  }

  // ---------------------------------------------------------------- scale

  /** Ten times a value rounds to ten times its rounding. */
  lemma RoundShift(x: real)
    ensures Round(10.0 * x) == 10.0 * Round(x)
  {
    if x > 0.0 {
      PositiveShift(x);
    } else if x < 0.0 {
      PositiveShift(-x);
      assert 10.0 * -x == -(10.0 * x);
    }
  }

  lemma PositiveShift(x: real)
    requires x > 0.0
    ensures RoundPositive(10.0 * x) == 10.0 * RoundPositive(x)
  {
    if x >= P27 {
      assert 10.0 * x / 10.0 == x;
      if x < P28 { assert Big(x) == Small(x); }
    }
  }

  lemma RoundShift9(x: real)
    ensures Round(1000000000.0 * x) == 1000000000.0 * Round(x)
  {
    hide Round;
    RoundShift(x);
    RoundShift(10.0 * x);
    RoundShift(100.0 * x);
    RoundShift(1000.0 * x);
    RoundShift(10000.0 * x);
    RoundShift(100000.0 * x);
    RoundShift(1000000.0 * x);
    RoundShift(10000000.0 * x);
    RoundShift(100000000.0 * x);
  }

  lemma RoundShift27(x: real)
    ensures Round(P27 * x) == P27 * Round(x)
  {
    hide Round;
    RoundShift9(x);
    RoundShift9(1000000000.0 * x);
    RoundShift9(1000000000000000000.0 * x);
  }

  lemma RoundShift28(x: real)
    ensures Round(P28 * x) == P28 * Round(x)
  {
    hide Round;
    RoundShift27(x);
    RoundShift(P27 * x);
  }

  // ---------------------------------------------------------------- digits

  /** A value with at most 28 significant digits is its own rounding. */
  predicate Fits(x: real) { Round(x) == x }

  lemma {:induction false} SmallInteger(n: int)
    requires 0 < n && n as real < P28
    ensures Small(n as real) == n as real
    decreases P28.Floor - n
  {
    if (n as real) < P27 {
      assert 10.0 * n as real == (10 * n) as real;
      SmallInteger(10 * n);
    } else {
      HalfEvenMeans(n as real);
    }
  }

  /** An integer of at most 28 digits fits. */
  lemma {:induction false} IntegerFits(n: int)
    requires -P28 < n as real < P28
    ensures Fits(n as real)
  {
    if n > 0 {
      SmallInteger(n);
    } else if n < 0 {
      SmallInteger(-n);
      assert -(n as real) == (-n) as real;
    }
  }

  lemma FitsOnGrid27(x: real, n: int)
    requires P27 * x == n as real && -P28 < n as real < P28
    ensures Fits(x)
  {
    IntegerFits(n);
    RoundShift27(x);
  }

  lemma FitsOnGrid28(x: real, n: int)
    requires P28 * x == n as real && -P28 < n as real < P28
    ensures Fits(x)
  {
    IntegerFits(n);
    RoundShift28(x);
  }

  /** A value of 28 integer digits rounds to the nearest integer, the even one of two; `RoundShift` and
      `RoundNegates` carry this to every other value. */
  lemma {:induction false} TiesToEven(x: real, n: int)
    requires P27 <= x < P28
    ensures Round(x) == n as real <==> Abs(n as real - x) < 0.5 || (Abs(n as real - x) == 0.5 && n % 2 == 0)
  {
    assert Round(x) == HalfEven(x) as real;
    var f := x.Floor;
    assert Abs(n as real - x) <= 0.5 ==> n == f || n == f + 1;
  }

  lemma RoundNegates(x: real)
    ensures Round(-x) == -Round(x)
  {
    hide RoundPositive;
  }

  /** Where a value of one integer digit rounds to: a grid of 27 decimals. */
  lemma RoundOnes(x: real) returns (n: int)
    requires 1.0 <= x < 10.0
    ensures P27 * Round(x) == n as real && P27 <= n as real <= P28
    ensures Abs(Round(x) - x) * P27 <= 0.5
  {
    n := HalfEven(P27 * x);
    RoundShift27(x);
    HalfEvenBetween(P27 * x);
    HalfEvenMeans(P27 * x);
  }

  /** Where a tenth up to one rounds to: a grid of 28 decimals. */
  lemma RoundTenths(x: real) returns (n: int)
    requires 0.1 <= x < 1.0
    ensures P28 * Round(x) == n as real && P27 <= n as real <= P28
    ensures Abs(Round(x) - x) * P28 <= 0.5
  {
    n := HalfEven(P28 * x);
    RoundShift28(x);
    HalfEvenBetween(P28 * x);
    HalfEvenMeans(P28 * x);
  }
}
