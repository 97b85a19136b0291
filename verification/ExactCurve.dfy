/** Chained ranges of constant product, over exact reals: what any walk of ticks would pay if nothing were rounded. */
module ExactCurve {
  import opened Arithmetic

  // ---------------------------------------------------------------- one range

  /** What the other reserve, `k / r`, loses while this one grows from `a` to `b` and the product stays `k`. */
  function Paid(k: real, a: real, b: real): real
    requires 0.0 < a && 0.0 < b
  {
    k / a - k / b
  }

  /** The output of the next unit, where the reserve is `r`. */
  function Marginal(k: real, r: real): real
    requires 0.0 < r
  {
    k / r / r
  }

  /** The tangent lies above the curve. */
  lemma PaidBelowTangent(k: real, r: real, a: real, b: real, d: real, s: real)
    requires 0.0 <= k && 0.0 < r && 0.0 < a && 0.0 < b && d == b - a && s == Marginal(k, a)
    ensures Paid(k, r, b) <= Paid(k, r, a) + s * d
  {
    var u, v := k / a, k / b;
    assert u * a == k && v * b == k && s * a == u;
    assert d * a == b * a - a * a;
    // (v - u + s * d) * b == s * (a - b) * (a - b)
    Tangency(s, u, v, a, b, d);
  }

  lemma Tangency(s: real, u: real, v: real, a: real, b: real, d: real)
    requires 0.0 <= s && 0.0 < b && d == b - a && s * a == u && u * a == v * b
    ensures u - v <= s * d
  {
    RealMulMono(0.0, d * d, s);
    assert s * (d * d) == s * d * (b - a) == s * d * b - s * a * d;
    assert u * d == u * b - u * a;
    assert s * (d * d) == (s * d - u + v) * b;
    if s * d - u + v < 0.0 {
      RealMulStrict(s * d - u + v, 0.0, b);
    }
  }

  /** Further along the next unit buys less. */
  lemma MarginalFalls(k: real, r: real, q: real)
    requires 0.0 <= k && 0.0 < r <= q
    ensures 0.0 <= Marginal(k, q) <= Marginal(k, r)
  {
    RealReciprocalMono(k, r, q);
    RealReciprocalMono(k / q, r, q);
    RealDivMono(k / q, k / r, r);
  }

  lemma PaidMono(k: real, r: real, a: real, b: real)
    requires 0.0 <= k && 0.0 < r && 0.0 < a <= b
    ensures Paid(k, r, a) <= Paid(k, r, b)
  {
    RealReciprocalMono(k, a, b);
  }

  // ---------------------------------------------------------------- a chain of ranges

  /**
   * Nothing more is paid; or the last range goes on for ever; or a range ends at the reserve `q`, and the
   * rest follows.
   */
  datatype Ranges = Nothing | Last(k: real, r: real) | Range(k: real, r: real, q: real, rest: Ranges)

  /** What the first unit is paid. */
  function Spot(c: Ranges): real {
    if c.Nothing? || c.r <= 0.0 then 0.0 else Marginal(c.k, c.r)
  }

  /** The next range never starts at a better price than the last one ended. */
  ghost predicate Chained(c: Ranges) {
    match c
    case Nothing => true
    case Last(k, r) => 0.0 < k && 0.0 < r
    case Range(k, r, q, rest) => 0.0 < k && 0.0 < r <= q && Chained(rest) && Spot(rest) <= Marginal(k, q)
  }

  /** The payment of `x`. */
  function Pays(c: Ranges, x: real): real
    requires Chained(c) && 0.0 <= x
  {
    match c
    case Nothing => 0.0
    case Last(k, r) => Paid(k, r, r + x)
    case Range(k, r, q, rest) =>
      if q - r <= x then Paid(k, r, q) + Pays(rest, x - (q - r)) else Paid(k, r, r + x)
  }

  /** What the next unit would be paid after `x`. */
  function MarginalAt(c: Ranges, x: real): real
    requires Chained(c) && 0.0 <= x
  {
    match c
    case Nothing => 0.0
    case Last(k, r) => Marginal(k, r + x)
    case Range(k, r, q, rest) => if q - r <= x then MarginalAt(rest, x - (q - r)) else Marginal(k, r + x)
  }

  lemma {:induction false} MarginalBelowSpot(c: Ranges, x: real)
    requires Chained(c) && 0.0 <= x
    ensures 0.0 <= MarginalAt(c, x) <= Spot(c)
  {
    match c
    case Nothing =>
    case Last(k, r) =>
      MarginalFalls(k, r, r + x);
    case Range(k, r, q, rest) =>
      if q - r <= x {
        MarginalBelowSpot(rest, x - (q - r));
        MarginalFalls(k, r, q);
      } else {
        MarginalFalls(k, r, r + x);
      }
  }

  lemma {:induction false} NothingForNothing(c: Ranges)
    requires Chained(c)
    ensures Pays(c, 0.0) == 0.0
  {
    if c.Range? && c.q == c.r {
      NothingForNothing(c.rest);
    }
  }

  // ---------------------------------------------------------------- the chain is concave

  /** The tangent of slope `m` inside the range reaches past its end, where the next units are paid at most `s`. */
  lemma TangentAcross(here: real, crossing: real, beyond: real, m: real, s: real, u: real, v: real, d: real)
    requires crossing <= here + m * u && beyond <= s * v
    requires s <= m && 0.0 <= v && d == u + v
    ensures crossing + beyond <= here + m * d
  {
    RealMulMono(s, m, v);
    assert m * u + m * v == m * d;
  }

  /** And the tangent of slope `s` past the end reaches back into the range, where they are paid at least `m`. */
  lemma TangentBack(there: real, crossing: real, beyond: real, m: real, s: real, u: real, v: real, d: real)
    requires there <= crossing - m * u && 0.0 <= beyond + s * v
    requires s <= m && 0.0 <= u && d == v - u
    ensures there <= crossing + beyond + s * d
  {
    RealMulMono(s, m, u);
    assert s * d == s * v - s * u;
  }

  /**
   * The chain lies below each of its tangents, across every end of a range; `m` is the slope at `x`, and `d` the
   * distance from there to `y`.
   */
  lemma {:induction false} Tangent(c: Ranges, x: real, y: real, m: real, d: real)
    requires Chained(c) && 0.0 <= x && 0.0 <= y && m == MarginalAt(c, x) && d == y - x
    ensures Pays(c, y) <= Pays(c, x) + m * d
    decreases c, 1
  {
    if c.Last? || (c.Range? && x < c.q - c.r && y < c.q - c.r) {
      PaidBelowTangent(c.k, c.r, c.r + x, c.r + y, d, m);
    } else if c.Range? {
      var w := c.q - c.r;
      if x < w {
        AcrossRange(c, x, y, m, d, w, w - x, y - w, Spot(c.rest));
      } else if y < w {
        BackIntoRange(c, x, y, m, d, w, w - y, x - w, w - x, Marginal(c.k, c.q));
      } else {
        Tangent(c.rest, x - w, y - w, m, d);
      }
    }
  }

  lemma {:induction false} AcrossRange(c: Ranges, x: real, y: real, m: real, d: real, w: real, u: real, v: real,
                                       s: real)
    requires Chained(c) && c.Range? && Chained(c.rest) && w == c.q - c.r && 0.0 <= x < w <= y
    requires m == MarginalAt(c, x) && d == y - x && u == w - x && v == y - w && s == Spot(c.rest)
    ensures Pays(c, y) <= Pays(c, x) + m * d
    decreases c, 0
  {
    PaidBelowTangent(c.k, c.r, c.r + x, c.q, u, m);
    MarginalFalls(c.k, c.r + x, c.q);
    FromStart(c.rest, v, s);
    TangentAcross(Pays(c, x), Paid(c.k, c.r, c.q), Pays(c.rest, v), m, s, u, v, d);
  }

  lemma {:induction false} BackIntoRange(c: Ranges, x: real, y: real, m: real, d: real, w: real, u: real, over: real,
                                         v: real, s: real)
    requires Chained(c) && c.Range? && w == c.q - c.r && 0.0 <= y < w <= x && m == MarginalAt(c, x) && d == y - x
    requires u == w - y && over == x - w && v == 0.0 - over && s == Marginal(c.k, c.q)
    ensures Pays(c, y) <= Pays(c, x) + m * d
    decreases c, 0
  {
    PaidBelowTangent(c.k, c.r, c.q, c.r + y, -u, s);
    assert s * -u == -(s * u);
    StartUnderTangent(c.rest, over, m, v);
    MarginalBelowSpot(c.rest, over);
    TangentBack(Pays(c, y), Paid(c.k, c.r, c.q), Pays(c.rest, over), s, m, u, v, d);
  }

  lemma {:induction false} SteeperLine(c: Ranges, x: real, y: real, m: real, s: real, d: real)
    requires Chained(c) && 0.0 <= x <= y && m == MarginalAt(c, x) && m <= s && d == y - x
    ensures Pays(c, y) <= Pays(c, x) + s * d
    decreases c, 2
  {
    Tangent(c, x, y, m, d);
    Steeper(Pays(c, y), Pays(c, x), m, s, d);
  }

  lemma Steeper(f: real, e: real, m: real, s: real, d: real)
    requires f <= e + m * d && m <= s && 0.0 <= d
    ensures f <= e + s * d
  {
    RealMulMono(m, s, d);
  }

  lemma {:induction false} FromStart(c: Ranges, x: real, s: real)
    requires Chained(c) && 0.0 <= x && Spot(c) <= s
    ensures Pays(c, x) <= s * x
    decreases c, 3
  {
    NothingForNothing(c);
    MarginalBelowSpot(c, 0.0);
    SteeperLine(c, 0.0, x, MarginalAt(c, 0.0), s, x);
  }

  lemma {:induction false} StartUnderTangent(c: Ranges, x: real, m: real, d: real)
    requires Chained(c) && 0.0 <= x && m == MarginalAt(c, x) && d == 0.0 - x
    ensures 0.0 <= Pays(c, x) + m * d
    decreases c, 2
  {
    NothingForNothing(c);
    Tangent(c, x, 0.0, m, d);
  }

  // ---------------------------------------------------------------- what follows for any curve below its tangents

  ghost predicate UnderTangent(f: real -> real, g: real -> real, x: real, y: real, m: real, d: real) {
    0.0 <= x && 0.0 <= y && m == g(x) && d == y - x ==> f(y) <= f(x) + m * d
  }

  ghost predicate UnderTangents(f: real -> real, g: real -> real) {
    forall x, y, m, d :: UnderTangent(f, g, x, y, m, d)
  }

  function PaysOf(c: Ranges): real -> real
    requires Chained(c)
  {
    x => if 0.0 <= x then Pays(c, x) else 0.0
  }

  function MarginalOf(c: Ranges): real -> real
    requires Chained(c)
  {
    x => if 0.0 <= x then MarginalAt(c, x) else 0.0
  }

  lemma {:induction false} ChainUnderTangents(c: Ranges)
    requires Chained(c)
    ensures UnderTangents(PaysOf(c), MarginalOf(c))
  {
    forall x, y, m, d ensures UnderTangent(PaysOf(c), MarginalOf(c), x, y, m, d) {
      if 0.0 <= x && 0.0 <= y && m == MarginalAt(c, x) && d == y - x {
        Tangent(c, x, y, m, d);
      }
    }
  }

  /** The same step `d` pays less further along. */
  lemma ConcaveUnderTangents(f: real -> real, g: real -> real, a: real, b: real, d: real, a': real, b': real)
    requires UnderTangents(f, g) && 0.0 <= a <= b && 0.0 <= d && a' == a + d && b' == b + d
    ensures f(b') - f(b) <= f(a') - f(a)
  {
    if a < b' {
      var m, n, w := g(b), g(a'), b - a;
      assert UnderTangent(f, g, b, a, m, -w) && UnderTangent(f, g, b, b', m, d);
      assert UnderTangent(f, g, a', a, n, -d) && UnderTangent(f, g, a', b', n, w);
      FourPoints(f(a), f(b), f(a'), f(b'), m, n, w, d);
    }
  }

  lemma {:induction false} PaysConcave(c: Ranges, a: real, b: real, d: real, a': real, b': real)
    requires Chained(c) && 0.0 <= a <= b && 0.0 <= d && a' == a + d && b' == b + d
    ensures Pays(c, b') - Pays(c, b) <= Pays(c, a') - Pays(c, a)
  {
    ChainUnderTangents(c);
    ConcaveUnderTangents(PaysOf(c), MarginalOf(c), a, b, d, a', b');
  }

  /** More input never pays less. */
  lemma {:induction false} PaysMore(c: Ranges, x: real, y: real)
    requires Chained(c) && 0.0 <= x <= y
    ensures Pays(c, x) <= Pays(c, y)
  {
    var n, d := MarginalAt(c, y), x - y;
    Tangent(c, y, x, n, d);
    MarginalBelowSpot(c, y);
    RealMulMono(0.0, n, -d);
  }

  /** At most the spot price `s` for each of the `d` units more. */
  lemma {:induction false} PaysAtMostSpot(c: Ranges, x: real, y: real, s: real, d: real)
    requires Chained(c) && 0.0 <= x <= y && Spot(c) <= s && d == y - x
    ensures Pays(c, y) <= Pays(c, x) + s * d
  {
    MarginalBelowSpot(c, x);
    SteeperLine(c, x, y, MarginalAt(c, x), s, d);
  }

  /** Both middle points lie above the chord between the ends, at the distances `u` and `v` from them. */
  lemma FourPoints(left: real, one: real, other: real, right: real, m: real, n: real, u: real, v: real)
    requires 0.0 <= u && 0.0 <= v && 0.0 < u + v
    requires left <= one + m * -u && right <= one + m * v
    requires left <= other + n * -v && right <= other + n * u
    ensures right - one <= other - left
  {
    BetweenEnds(left, one, right, m, u, v);
    BetweenEnds(left, other, right, n, v, u);
    MiddleSum(left, one, other, right, u, v);
  }

  /** A point above the chord, weighted by the distances to the two ends. */
  lemma BetweenEnds(left: real, middle: real, right: real, s: real, u: real, v: real)
    requires 0.0 <= u && 0.0 <= v && left <= middle + s * -u && right <= middle + s * v
    ensures left * v + right * u <= middle * (u + v)
  {
    RealMulMono(left, middle - s * u, v);
    RealMulMono(right, middle + s * v, u);
    assert (middle - s * u) * v + (middle + s * v) * u == middle * (u + v);
  }

  lemma MiddleSum(left: real, one: real, other: real, right: real, u: real, v: real)
    requires 0.0 <= u && 0.0 <= v && 0.0 < u + v
    requires left * v + right * u <= one * (u + v) && left * u + right * v <= other * (v + u)
    ensures left + right <= one + other
  {
    assert (left + right) * (u + v) == left * v + right * u + left * u + right * v;
    assert (one + other) * (u + v) == one * (u + v) + other * (v + u);
    if one + other < left + right {
      RealMulStrict(one + other, left + right, u + v);
    }
  }
}
