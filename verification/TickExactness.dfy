/** "Exact", as the price table is called in its documentation: no tick but 0 has an exact price. */
module TickExactness {
  import opened RealBounds
  import opened TickMath
  import opened TickAccuracy

  function Power(b: int, n: nat): int {
    if n == 0 then 1 else b * Power(b, n - 1)
  }

  /** 1.0001^n as a fraction. */
  lemma {:induction false} UpIsFraction(n: nat, a: int, b: int)
    requires a == Power(10_001, n) && b == Power(10_000, n)
    ensures Up(n) * b as real == a as real
  {
    if n > 0 {
      var a0, b0 := Power(10_001, n - 1), Power(10_000, n - 1);
      UpIsFraction(n - 1, a0, b0);
      NextFraction(Up(n - 1), Up(n), a0, a, b0, b);
    }
  }

  lemma NextFraction(p0: real, p: real, a0: int, a: int, b0: int, b: int)
    requires p0 * b0 as real == a0 as real && p == p0 * BASE && a == 10_001 * a0 && b == 10_000 * b0
    ensures p * b as real == a as real
  {
    assert b as real == 10_000.0 * b0 as real && a as real == 10_001.0 * a0 as real;
    assert p * b as real == p0 * b0 as real * (BASE * 10_000.0);
  }

  /** 10,001^n leaves 1 modulo 5, and 10,000^n nothing. */
  lemma {:induction false} ModuloFive(n: nat) returns (k: int, j: int)
    requires 0 < n
    ensures Power(10_001, n) == 5 * k + 1 && Power(10_000, n) == 5 * j
  {
    if n == 1 {
      k, j := 2_000, 2_000;
      assert Power(10_001, 0) == 1 && Power(10_000, 0) == 1;
    } else {
      k, j := ModuloFive(n - 1);
      k, j := 10_001 * k + 2_000, 10_000 * j;
    }
  }

  /** 10,001^n is a multiple of 73, and 10,000^n leaves 1 or -1. */
  lemma {:induction false} Modulo73(n: nat) returns (k: int, j: int, e: int)
    requires 0 < n
    ensures Power(10_001, n) == 73 * k && Power(10_000, n) == 73 * j + e && (e == 1 || e == -1)
  {
    if n == 1 {
      k, j, e := 137, 137, -1;
      assert Power(10_001, 0) == 1 && Power(10_000, 0) == 1;
    } else {
      k, j, e := Modulo73(n - 1);
      k, j, e := 10_001 * k, 10_000 * j + 137 * e, -e;
    }
  }

  /** No square times 10,000^n is 2^128 times 10,001^n, */
  lemma {:induction false} NoRootAbove(s: int, n: nat)
    requires 0 < n
    ensures s * s * Power(10_000, n) != Q128 * Power(10_001, n)
  {
    var k, j := ModuloFive(n);
    assert s * s * (5 * j) == 5 * (s * s * j);
    assert Q128 % 5 == 1;
  }

  /** and none times 10,001^n is 2^128 times 10,000^n. */
  lemma {:induction false} NoRootBelow(s: int, n: nat)
    requires 0 < n
    ensures s * s * Power(10_001, n) != Q128 * Power(10_000, n)
  {
    var k, j, e := Modulo73(n);
    assert s * s * (73 * k) == 73 * (s * s * k);
    assert Q128 % 73 == 4;
  }

  /** An exact square root over a fraction, in integers. */
  lemma CrossMultiply(s: int, y: real, p: real, a: int, b: int)
    requires y == s as real / Q64 as real && Square(y) == p && p * b as real == a as real
    ensures s * s * b == Q128 * a
  {
    var q := Q64 as real;
    assert y * q == s as real;
    assert y * y * (q * q) == (s * s) as real;
    assert (s * s * b) as real == (s * s) as real * b as real;
    assert y * y * (q * q) * b as real == p * b as real * (q * q);
    assert (s * s * b) as real == (Q128 * a) as real;
  }

  lemma InverseFraction(p: real, e: real, a: int, b: int)
    requires e * p == 1.0 && p * b as real == a as real
    ensures e * a as real == b as real
  {
    assert e * (p * b as real) == e * p * b as real;
  }

  /** No Q64.64 number at all is the square root of 1.0001^n, */
  lemma {:induction false} NothingAbove(s: int, y: real, n: nat, p: real)
    requires 0 < n && y == s as real / Q64 as real && p == Up(n)
    ensures Square(y) != p
  {
    if Square(y) == p {
      var a, b := Power(10_001, n), Power(10_000, n);
      UpIsFraction(n, a, b);
      CrossMultiply(s, y, p, a, b);
      NoRootAbove(s, n);
    }
  }

  /** or of its reciprocal. */
  lemma {:induction false} NothingBelow(s: int, y: real, n: nat, e: real)
    requires 0 < n && y == s as real / Q64 as real && e * Up(n) == 1.0
    ensures Square(y) != e
  {
    if Square(y) == e {
      var a, b := Power(10_001, n), Power(10_000, n);
      UpIsFraction(n, a, b);
      InverseFraction(Up(n), e, a, b);
      CrossMultiply(s, y, e, b, a);
      NoRootBelow(s, n);
    }
  }

  /** The price of a tick is exactly the square root of 1.0001^tick for tick 0, and for no other tick at all. */
  lemma ExactOnlyAtZero(tick: int, y: real, price: real)
    requires y == SqrtRatioAtTick(tick) as real / Q64 as real && IsPrice(tick, price)
    ensures Square(y) == price <==> tick == 0
  {
    if tick > 0 {
      NothingAbove(SqrtRatioAtTick(tick), y, tick, price);
    } else if tick < 0 {
      NothingBelow(SqrtRatioAtTick(tick), y, -tick, price);
    } else {
      TickZeroIsOne();
    }
  }
}
