/**
 * The part of JavaScript's number semantics the pipeline depends on: a
 * division whose divisor is zero does not fail but yields `Infinity`,
 * `-Infinity` or `NaN`, and comparisons with `NaN` are all false.
 * Finite numbers are exact reals; rounding is not modelled.
 */
module Numbers {

  datatype Number = Finite(x: real) | PosInfinity | NegInfinity | NaN

  /** `a / b` on numbers: `x / 0` is `Infinity` or `-Infinity` by the sign of `x`, `0 / 0` is `NaN`. */
  function Divide(a: real, b: real): (q: Number)
    ensures q.Finite? <==> b != 0.0
    ensures q.Finite? ==> q.x * b == a
    ensures q.NaN? <==> a == 0.0 && b == 0.0
  {
    if b != 0.0 then Finite(a / b)
    else if a > 0.0 then PosInfinity
    else if a < 0.0 then NegInfinity
    else NaN
  }

  /** `n * k` for a positive finite `k`. */
  function Scale(n: Number, k: real): (r: Number)
    requires k > 0.0
    ensures r.Finite? <==> n.Finite?
    ensures r.Finite? ==> r.x / k == n.x
    ensures r.NaN? <==> n.NaN?
  {
    match n
    case Finite(x) => Finite(x * k)
    case _ => n
  }

  /** `Math.abs(n)`. */
  function Abs(n: Number): (r: Number)
    ensures r.Finite? <==> n.Finite?
    ensures n.Finite? ==> r.x >= 0.0 && (r.x == n.x || r.x == -n.x)
    ensures r.NaN? <==> n.NaN?
    ensures n.PosInfinity? || n.NegInfinity? <==> r.PosInfinity?
  {
    match n
    case Finite(x) => Finite(if x < 0.0 then -x else x)
    case NegInfinity => PosInfinity
    case _ => n
  }

  /** `n > t`, false whenever `n` is `NaN`. */
  predicate GreaterThan(n: Number, t: real) {
    match n
    case Finite(x) => x > t
    case PosInfinity => true
    case NegInfinity => false
    case NaN => false
  }

  /** The sign of a quotient: `a / b > 0` exactly when both have the same strict sign, or `b` is zero and `a` positive. */
  lemma DividePositive(a: real, b: real)
    ensures GreaterThan(Divide(a, b), 0.0) <==> (a > 0.0 && b >= 0.0) || (a < 0.0 && b < 0.0)
  {
    if b > 0.0 {
      if a > 0.0 {
        assert a / b > 0.0;
      } else {
        assert a / b <= 0.0;
      }
    } else if b < 0.0 {
      if a < 0.0 {
        assert a / b > 0.0;
      } else {
        assert a / b <= 0.0;
      }
    }
  }

  /** Scaling by a positive factor keeps the sign. */
  lemma ScalePositive(n: Number, k: real)
    requires k > 0.0
    ensures GreaterThan(Scale(n, k), 0.0) <==> GreaterThan(n, 0.0)
  {
    if n.Finite? {
      if n.x > 0.0 {
        assert n.x * k > 0.0;
      } else {
        assert n.x * k <= 0.0;
      }
    }
  }

  /** `a <= b` on numbers, false whenever either is `NaN`. */
  predicate AtMost(a: Number, b: Number) {
    match (a, b)
    case (NaN, _) => false
    case (_, NaN) => false
    case (NegInfinity, _) => true
    case (_, PosInfinity) => true
    case (PosInfinity, _) => false
    case (_, NegInfinity) => false
    case (Finite(x), Finite(y)) => x <= y
  }

  /**
   * A sort key for a numeric comparator `(a, b) => a - b` over numbers that
   * may be infinite: `x / (1 + |x|)` maps the reals increasingly into
   * (-1, 1), and the infinities go to the ends. `Infinity - Infinity` is
   * `NaN`, which `Array.prototype.sort` treats as a tie, and the two
   * infinities indeed get equal keys. `NaN` itself has no place in the order.
   */
  function Rank(n: Number): real {
    match n
    case Finite(x) => x / (1.0 + (if x < 0.0 then -x else x))
    case PosInfinity => 1.0
    case NegInfinity => -1.0
    case NaN => 0.0
  }

  /** Rank is an order embedding of the numbers other than `NaN`. */
  lemma RankOrder(a: Number, b: Number)
    requires !a.NaN? && !b.NaN?
    ensures Rank(a) <= Rank(b) <==> AtMost(a, b)
  {
    if a.Finite? {
      SquashBounds(a.x);
    }
    if b.Finite? {
      SquashBounds(b.x);
    }
    if a.Finite? && b.Finite? {
      if a.x < b.x {
        SquashIncreasing(a.x, b.x);
      } else if b.x < a.x {
        SquashIncreasing(b.x, a.x);
      }
    }
  }

  lemma SquashBounds(x: real)
    ensures -1.0 < Rank(Finite(x)) < 1.0
  {
    var p := 1.0 + (if x < 0.0 then -x else x);
    QuotientExceeds(x, p, -1.0);
    QuotientExceeds(x, p, 1.0);
  }

  lemma SquashIncreasing(x: real, y: real)
    requires x < y
    ensures Rank(Finite(x)) < Rank(Finite(y))
  {
    var p := 1.0 + (if x < 0.0 then -x else x);
    var q := 1.0 + (if y < 0.0 then -y else y);
    if 0.0 <= x {
      assert x * q == x + x * y && y * p == y + x * y;
    } else if y < 0.0 {
      assert x * q == x - x * y && y * p == y - x * y;
    } else {
      ProductLess(x, 0.0, q);
      ProductAtMost(0.0, y, p);
    }
    CrossLess(x, p, y, q);
  }

  /** `u / p < v / q` follows from `u * q < v * p` for positive `p` and `q`. */
  lemma CrossLess(u: real, p: real, v: real, q: real)
    requires p > 0.0 && q > 0.0 && u * q < v * p
    ensures u / p < v / q
  {
    var a, b := u / p, v / q;
    assert a * p == u && b * q == v;
    ProductPositive(p, q, p * q);
    assert a * (p * q) == u * q;
    assert b * (p * q) == v * p;
    if a >= b {
      ProductAtMost(b, a, p * q);
      assert false;
    }
  }

  // --- Real arithmetic ------------------------------------------------------

  /** A product of two factors of the same strict sign is positive. */
  lemma ProductPositive(a: real, b: real, c: real)
    requires c == a * b
    requires (a > 0.0 && b > 0.0) || (a < 0.0 && b < 0.0)
    ensures c > 0.0
  {
  }

  lemma ProductLess(x: real, y: real, s: real)
    requires x < y && s > 0.0
    ensures x * s < y * s
  {
    ProductPositive(y - x, s, (y - x) * s);
  }

  lemma ProductAtMost(x: real, y: real, s: real)
    requires x <= y && s > 0.0
    ensures x * s <= y * s
  {
    if x < y {
      ProductLess(x, y, s);
    }
  }

  /** `a / s > t` exactly when `a > t * s`, for a positive `s`. */
  lemma QuotientExceeds(a: real, s: real, t: real)
    requires s > 0.0
    ensures a / s > t <==> a > t * s
  {
    assert (a / s) * s == a;
    if a / s > t {
      ProductLess(t, a / s, s);
    } else {
      ProductAtMost(a / s, t, s);
    }
  }
}
