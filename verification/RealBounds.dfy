/**
 * Bounds on products and squares of approximations. To keep each fact within what one multiplication needs, the
 * lemmas take products as arguments of their own, tied to their factors by an equation.
 */
module RealBounds {
  import opened Arithmetic

  lemma Assoc(a: real, b: real, c: real, ab: real, bc: real)
    requires ab == a * b && bc == b * c
    ensures ab * c == a * bc
  {
  }

  lemma ProductMono(x: real, y: real, z: real, t: real)
    requires 0.0 <= x <= y && 0.0 <= z <= t
    ensures x * z <= y * t
  {
    RealMulMono(x, y, z);
    RealMulMono(z, t, y);
  }

  lemma Positive(x: real, y: real) returns (p: real)
    requires 0.0 < x && 0.0 < y
    ensures p == x * y && 0.0 < p
  {
    p := x * y;
    RealMulStrict(0.0, x, y);
  }

  lemma Cancel(g: real, k: real, c: real)
    requires 0.0 < c && g * c <= k * c
    ensures g <= k
  {
    if k < g {
      RealMulStrict(k, g, c);
    }
  }

  function Square(x: real): real {
    x * x
  }

  // ---------------------------------------------------------------- squaring an approximate reciprocal

  /** A bound `b` on `W * c`, where `v * b` is within `k * c`, bounds `v * W`. */
  lemma BoundAbove(v: real, W: real, c: real, h: real, b: real, k: real)
    requires 0.0 < c && 0.0 <= v && W * c == h && h <= b && v * b <= k * c
    ensures v * W <= k
  {
    RealMulMono(h, b, v);
    assert v * h <= v * b;
    assert v * W * c == v * h;
    Cancel(v * W, k, c);
  }

  lemma BoundBelow(v: real, W: real, c: real, h: real, b: real, k: real)
    requires 0.0 < c && 0.0 <= v && W * c == h && b <= h && k * c <= v * b
    ensures k <= v * W
  {
    RealMulMono(b, h, v);
    assert v * b <= v * h;
    assert v * W * c == v * h;
    Cancel(k, v * W, c);
  }

  /** If `q * w` is at most `hi`, and `q2` at most `k * q^2 / hi^2`, then `q2 * w^2` is at most `k`. */
  lemma NextAbove(q: real, q2: real, w: real, W: real, c: real, hi: real, hi2: real, k: real)
    requires 0.0 <= q2 && 0.0 <= q * w <= hi && c == q * q && W == w * w && hi2 == hi * hi && 0.0 < c
    requires q2 * hi2 <= k * c
    ensures q2 * W <= k
  {
    ProductMono(q * w, hi, q * w, hi);
    assert W * c == q * w * (q * w);
    BoundAbove(q2, W, c, W * c, hi2, k);
  }

  lemma NextBelow(q: real, q2: real, w: real, W: real, c: real, lo: real, lo2: real, k: real)
    requires 0.0 <= q2 && 0.0 <= lo <= q * w && c == q * q && W == w * w && lo2 == lo * lo && 0.0 < c
    requires k * c <= q2 * lo2
    ensures k <= q2 * W
  {
    ProductMono(lo, q * w, lo, q * w);
    assert W * c == q * w * (q * w);
    BoundBelow(q2, W, c, W * c, lo2, k);
  }

  /** `q2` is close enough to the square of `q` for a bound `hi` on one to give the bound `k` on the other. */
  ghost predicate LinkAbove(q: real, q2: real, hi: real, k: real) {
    q2 * (hi * hi) <= k * (q * q)
  }

  ghost predicate LinkBelow(q: real, q2: real, lo: real, k: real) {
    k * (q * q) <= q2 * (lo * lo)
  }

  lemma StepAbove(q: real, q2: real, w: real, W: real, hi: real, k: real)
    requires 0.0 < q && 0.0 < q2 && 0.0 < w && W == w * w && q * w <= hi && LinkAbove(q, q2, hi, k)
    ensures q2 * W <= k
  {
    var c := Positive(q, q);
    var h := Positive(q, w);
    NextAbove(q, q2, w, W, c, hi, hi * hi, k);
  }

  lemma StepBelow(q: real, q2: real, w: real, W: real, lo: real, k: real)
    requires 0.0 < q && 0.0 < q2 && 0.0 < lo && W == w * w && lo <= q * w && LinkBelow(q, q2, lo, k)
    ensures k <= q2 * W
  {
    var c := Positive(q, q);
    NextBelow(q, q2, w, W, c, lo, lo * lo, k);
  }

  lemma NextIsAccurate(q0: real, q: real, w0: real, w: real, h0: real, h: real, l0: real, l: real)
    requires 0.0 < q0 && 0.0 < q && 0.0 < w0 && w == w0 * w0 && l0 <= q0 * w0 <= h0 && 0.0 < l0
    requires LinkAbove(q0, q, h0, h) && LinkBelow(q0, q, l0, l)
    ensures l <= q * w <= h
  {
    StepAbove(q0, q, w0, w, h0, h);
    StepBelow(q0, q, w0, w, l0, l);
  }

  // ---------------------------------------------------------------- one factor of a product

  /** A floored product of two fixed-point numbers, against the exact one. */
  lemma FloorProduct(r: int, m: int, s: int, q: int, x: real, y: real, z: real)
    requires 0 < q && s == r * m / q
    requires x == r as real / q as real && y == m as real / q as real && z == s as real / q as real
    ensures z <= x * y <= z + 1.0 / q as real
  {
    RealFloor(r * m, q);
    var n, d := (r * m) as real, q as real;
    RealDivMono(s as real, n / d, d);
    RealDivMono(n / d, s as real + 1.0, d);
    assert x * y == n / d / d;
  }

  lemma NonNegative(x: real, y: real, p: real)
    requires x == y && 0.0 < p
    ensures 0.0 <= x * y * p
  {
    assert 0.0 <= x * y;
  }

  ghost predicate SquareAtMost(x: real, p: real, h: real) {
    x * x * p <= h
  }

  ghost predicate SquareAtLeast(l: real, x: real, p: real) {
    l <= x * x * p
  }

  /** Bounds on two squares, weighted, give one on the square of the floored product. */
  lemma TimesAbove(x: real, m: real, y: real, p: real, w: real, W: real, h1: real, h2: real)
    requires 0.0 <= y <= x * m && x * x * p <= h1 && m * m * w <= h2 && W == p * w && 0.0 < p && 0.0 < w
    ensures y * y * W <= h1 * h2
  {
    NonNegative(x, x, p);
    NonNegative(m, m, w);
    RealMulMono(0.0, p, w);
    ProductMono(y, x * m, y, x * m);
    RealMulMono(y * y, x * m * (x * m), W);
    assert x * m * (x * m) * W == x * x * p * (m * m * w);
    ProductMono(x * x * p, h1, m * m * w, h2);
  }

  lemma TimesBelow(x: real, m: real, y: real, p: real, w: real, W: real, h1: real, h2: real)
    requires 0.0 <= x * m <= y && 0.0 <= h1 <= x * x * p && 0.0 <= h2 <= m * m * w && W == p * w && 0.0 < p && 0.0 < w
    ensures h1 * h2 <= y * y * W
  {
    RealMulMono(0.0, p, w);
    ProductMono(x * m, y, x * m, y);
    RealMulMono(x * m * (x * m), y * y, W);
    assert x * m * (x * m) * W == x * x * p * (m * m * w);
    ProductMono(h1, x * x * p, h2, m * m * w);
  }

  /** One bit: the ratio goes from `x` to `y`, and the exact price from `p` to `W`. */
  ghost predicate BitStep(bit: bool, x: real, m: real, y: real, p: real, w: real, W: real, u: real) {
    && 0.0 < x && 0.0 < m <= 1.0 && 0.0 < y && 0.0 < p && 0.0 < w && 0.0 < u
    && (bit ==> y <= x * m <= y + u && W == p * w)
    && (!bit ==> y == x && W == p)
  }

  lemma BitAbove(bit: bool, x: real, m: real, q: real, y: real, p: real, w: real, W: real, u: real, hi: real, hi2: real)
    requires BitStep(bit, x, m, y, p, w, W, u)
    requires SquareAtMost(x, p, hi) && q == Square(m) && q * w <= hi && hi <= hi2 && hi * hi <= hi2
    ensures SquareAtMost(y, W, hi2)
  {
    if bit {
      TimesAbove(x, m, y, p, w, W, hi, hi);
    }
  }

  lemma CarryUnits(x: real, m: real, y: real, d: real, u: real, X: real, Y: real)
    requires x * m <= y + u && 0.0 < m <= 1.0 && 0.0 < x && 0.0 <= d && X == x + d && Y == y + d + u
    ensures 0.0 <= X * m <= Y
  {
    RealMulMono(m, 1.0, d);
    RealMulMono(0.0, X, m);
    assert X * m == x * m + m * d;
  }

  /** The same from below, for the ratios `X` and `Y` with the units of all floors so far given back. */
  lemma BitBelow(bit: bool, x: real, m: real, q: real, y: real, p: real, w: real, W: real, u: real, lo: real, lo2: real,
                 d: real, X: real, Y: real)
    requires BitStep(bit, x, m, y, p, w, W, u) && 0.0 <= d && X == x + d && Y == y + d + u
    requires 0.0 <= lo && SquareAtLeast(lo, X, p) && q == Square(m) && lo <= q * w && lo2 <= lo && lo2 <= lo * lo
    ensures SquareAtLeast(lo2, Y, W)
  {
    if bit {
      CarryUnits(x, m, y, d, u, X, Y);
      TimesBelow(X, m, Y, p, w, W, lo, lo);
    } else {
      ProductMono(X, Y, X, Y);
      RealMulMono(X * X, Y * Y, p);
    }
  }

  // ---------------------------------------------------------------- roots

  /** `low` and `high` enclose the square root of `price`, up to a relative `tol` in the square. */
  ghost predicate Encloses(low: real, high: real, price: real, tol: real) {
    && 0.0 <= low
    && Square(low) <= price * (1.0 + tol)
    && price * (1.0 - tol) <= Square(high)
  }

  /** From bounds on `a^2 * p` to bounds on `a^2`, where `e` is 1 / p. */
  lemma DivideAbove(a: real, x: real, p: real, e: real, hi: real)
    requires 0.0 <= a <= x && 0.0 < p && e * p == 1.0 && SquareAtMost(x, p, hi)
    ensures Square(a) <= e * hi
  {
    ProductMono(a, x, a, x);
    RealMulMono(a * a, x * x, p);
    assert e * hi * p == hi * (e * p);
    Cancel(a * a, e * hi, p);
  }

  lemma DivideBelow(a: real, x: real, p: real, e: real, lo: real)
    requires 0.0 <= x <= a && 0.0 < p && e * p == 1.0 && SquareAtLeast(lo, x, p)
    ensures e * lo <= Square(a)
  {
    ProductMono(x, a, x, a);
    RealMulMono(x * x, a * a, p);
    assert e * lo * p == lo * (e * p);
    Cancel(e * lo, a * a, p);
  }

  /** `X`, a lower bound on the root, is at most `g` times `x`, which is at most `high`. */
  lemma NegativeRoot(low: real, high: real, x: real, X: real, p: real, e: real, hi: real, lo: real, g: real, tol: real)
    requires 0.0 <= low <= x <= high && 0.0 < X <= g * x && 1.0 <= g && 0.0 < p && 0.0 < e && e * p == 1.0
    requires SquareAtMost(x, p, hi) && SquareAtLeast(lo, X, p) && hi <= 1.0 + tol && (1.0 - tol) * Square(g) <= lo
    ensures Encloses(low, high, e, tol)
  {
    DivideAbove(low, x, p, e, hi);
    RealMulMono(hi, 1.0 + tol, e);
    RealMulMono(x, high, g);
    DivideBelow(g * high, X, p, e, lo);
    RealMulMono((1.0 - tol) * Square(g), lo, e);
    CancelSquare(g, high, e, tol);
  }

  lemma CancelSquare(g: real, high: real, e: real, tol: real)
    requires 1.0 <= g && (1.0 - tol) * Square(g) * e <= Square(g * high)
    ensures e * (1.0 - tol) <= Square(high)
  {
    assert Square(g * high) == Square(high) * Square(g);
    assert (1.0 - tol) * Square(g) * e == e * (1.0 - tol) * Square(g);
    RealMulMono(1.0, g, g);
    Cancel(e * (1.0 - tol), Square(high), Square(g));
  }

  /** If `x^2 * p` is at most `hi` and `z * x` at least `c`, then `z^2` is at least `p * c^2 / hi`. */
  lemma InvertBelow(a: real, z: real, x: real, p: real, c: real, hi: real, k: real)
    requires 0.0 <= z <= a && 0.0 < x && 0.0 < p && 0.0 <= c <= z * x && 0.0 < hi && SquareAtMost(x, p, hi)
    requires k * hi <= Square(c)
    ensures p * k <= Square(a)
  {
    ProductMono(c, z * x, c, z * x);
    ProductMono(z, a, z, a);
    var zz, xxp := z * z, x * x * p;
    assert zz * xxp == z * x * (z * x) * p;
    RealMulMono(c * c, z * x * (z * x), p);
    RealMulMono(k * hi, Square(c), p);
    RealMulMono(xxp, hi, zz);
    assert hi * zz == zz * hi && xxp * zz == zz * xxp && k * hi * p == p * k * hi;
    Cancel(p * k, zz, hi);
  }

  lemma AtMostFactor(z: real, x: real, X: real, g: real, zX: real)
    requires 0.0 <= z && z * x <= 1.0 && 0.0 <= X <= g * x && 0.0 <= g && zX == z * X
    ensures 0.0 <= zX <= g
  {
    RealMulMono(0.0, X, z);
    RealMulMono(X, g * x, z);
    RealMulMono(z * x, 1.0, g);
    assert g * x * z == z * x * g;
  }

  lemma InverseCore(zz: real, XX: real, p: real, lo: real, gg: real, k: real)
    requires 0.0 < lo && 0.0 < p && 0.0 <= zz && lo <= XX * p && zz * XX <= gg && gg <= k * lo
    ensures zz <= p * k
  {
    RealMulMono(lo, XX * p, zz);
    RealMulMono(zz * XX, gg, p);
    RealMulMono(gg, k * lo, p);
    assert zz * XX * p == XX * p * zz;
    assert k * lo * p == p * k * lo && lo * zz == zz * lo;
    Cancel(zz, p * k, lo);
  }

  /** If `X^2 * p` is at least `lo`, `X` at most `g * x` and `z * x` at most 1, then `z^2` is at most `p * g^2 / lo`. */
  lemma InvertAbove(a: real, z: real, x: real, X: real, g: real, p: real, lo: real, k: real)
    requires 0.0 <= a <= z && 0.0 < x && 0.0 < p && z * x <= 1.0 && 0.0 < lo && SquareAtLeast(lo, X, p)
    requires 0.0 <= X <= g * x && Square(g) <= k * lo && 0.0 <= g
    ensures Square(a) <= p * k
  {
    var zX, zz, XX := z * X, z * z, X * X;
    AtMostFactor(z, x, X, g, zX);
    ProductMono(zX, g, zX, g);
    ProductMono(a, z, a, z);
    assert zz * XX == zX * zX;
    InverseCore(zz, XX, p, lo, g * g, k);
  }

  lemma PositiveRoot(low: real, high: real, z: real, x: real, X: real, p: real, hi: real, lo: real, c: real, g: real,
                     tol: real)
    requires 0.0 <= low <= z <= high && 0.0 < x <= X <= g * x && 0.0 < p && 0.0 < c <= z * x <= 1.0 && 0.0 < lo
             && 0.0 < hi
    requires SquareAtMost(x, p, hi) && SquareAtLeast(lo, X, p) && 1.0 <= g
    requires (1.0 - tol) * hi <= Square(c) && Square(g) <= (1.0 + tol) * lo
    ensures Encloses(low, high, p, tol)
  {
    InvertBelow(high, z, x, p, c, hi, 1.0 - tol);
    InvertAbove(low, z, x, X, g, p, lo, 1.0 + tol);
  }
}
