/**
 * The sample statistics of `detectAnomalies` (src/utils/dataProcessing.ts):
 * the sum by `reduce` from the left, the arithmetic mean and the population
 * variance (squared deviations divided by N, not N - 1), over exact reals.
 */
module Statistics {
  import opened Numbers

  /** The sum, accumulated from the left starting at 0. */
  function Sum(vs: seq<real>): real
  {
    if |vs| == 0 then 0.0 else Sum(vs[..|vs| - 1]) + vs[|vs| - 1]
  }

  /** `Math.pow(d, 2)`. */
  function Square(d: real): real
  {
    d * d
  }

  /** Each term squared. */
  function Squares(ds: seq<real>): (sq: seq<real>)
    ensures |sq| == |ds|
  {
    seq(|ds|, i requires 0 <= i < |ds| => Square(ds[i]))
  }

  function SumSquares(ds: seq<real>): real
  {
    Sum(Squares(ds))
  }

  /** Each value minus `c`. */
  function Deviations(vs: seq<real>, c: real): (ds: seq<real>)
    ensures |ds| == |vs|
  {
    seq(|vs|, i requires 0 <= i < |vs| => vs[i] - c)
  }

  /** The arithmetic mean: the sum divided by N. */
  function Mean(vs: seq<real>): real
    requires |vs| > 0
  {
    Sum(vs) / (|vs| as real)
  }

  /** The population variance: the squared deviations from the mean, summed and divided by N. */
  function Variance(vs: seq<real>): real
    requires |vs| > 0
  {
    SumSquares(Deviations(vs, Mean(vs))) / (|vs| as real)
  }

  // --- Sums ------------------------------------------------------------------

  lemma {:induction false} SumAppend(a: seq<real>, b: seq<real>)
    ensures Sum(a + b) == Sum(a) + Sum(b)
  {
    if |b| > 0 {
      var b' := b[..|b| - 1];
      assert (a + b)[..|a + b| - 1] == a + b';
      SumAppend(a, b');
    } else {
      assert a + b == a;
    }
  }

  lemma SumSquaresAppend(a: seq<real>, b: seq<real>)
    ensures SumSquares(a + b) == SumSquares(a) + SumSquares(b)
  {
    SquaresAppend(a, b);
    SumAppend(Squares(a), Squares(b));
  }

  lemma SquaresAppend(a: seq<real>, b: seq<real>)
    ensures Squares(a + b) == Squares(a) + Squares(b)
  {
    var l, r := Squares(a + b), Squares(a) + Squares(b);
    assert |l| == |r|;
    forall i | 0 <= i < |l| ensures l[i] == r[i] {
      if i < |a| {
        assert (a + b)[i] == a[i];
      } else {
        assert (a + b)[i] == b[i - |a|];
      }
    }
  }

  /** The last square splits off a sum of squares. */
  lemma SumSquaresLast(ds: seq<real>)
    requires |ds| > 0
    ensures SumSquares(ds) == SumSquares(ds[..|ds| - 1]) + Square(ds[|ds| - 1])
  {
    assert Squares(ds)[..|ds| - 1] == Squares(ds[..|ds| - 1]);
  }

  lemma {:induction false} SumNonNegative(s: seq<real>)
    requires forall i :: 0 <= i < |s| ==> s[i] >= 0.0
    ensures Sum(s) >= 0.0
  {
    if |s| > 0 {
      SumNonNegative(s[..|s| - 1]);
    }
  }

  /** A sum of non-negative terms is zero exactly when every term is zero. */
  lemma {:induction false} SumZero(s: seq<real>)
    requires forall i :: 0 <= i < |s| ==> s[i] >= 0.0
    ensures Sum(s) == 0.0 <==> forall i :: 0 <= i < |s| ==> s[i] == 0.0
  {
    if |s| > 0 {
      var front := s[..|s| - 1];
      SumZero(front);
      SumNonNegative(front);
      assert forall i :: 0 <= i < |front| ==> front[i] == s[i];
    }
  }

  lemma SumSquaresNonNegative(ds: seq<real>)
    ensures SumSquares(ds) >= 0.0
  {
    SquaresNonNegative(ds);
    SumNonNegative(Squares(ds));
  }

  lemma SquaresNonNegative(ds: seq<real>)
    ensures forall i :: 0 <= i < |ds| ==> Squares(ds)[i] >= 0.0
  {
    forall i | 0 <= i < |ds| ensures Squares(ds)[i] >= 0.0 {
      SquareSign(ds[i]);
    }
  }

  /** A square is never negative, and zero only for `x == 0`. */
  lemma SquareSign(x: real)
    ensures Square(x) >= 0.0
    ensures Square(x) == 0.0 <==> x == 0.0
  {
    if x != 0.0 {
      ProductPositive(x, x, Square(x));
    }
  }

  /** Between non-negative numbers, squaring keeps the order. */
  lemma SquareMonotone(a: real, b: real)
    requires a >= 0.0 && b >= 0.0
    ensures a > b <==> Square(a) > Square(b)
  {
    assert Square(a) - Square(b) == (a - b) * (a + b);
    if a > b {
      ProductPositive(a - b, a + b, (a - b) * (a + b));
    } else if b > a {
      ProductPositive(b - a, b + a, (b - a) * (b + a));
    }
  }

  lemma SquareOfProduct(a: real, b: real)
    ensures Square(a * b) == Square(a) * Square(b)
  {
  }

  lemma SquareOfNegation(a: real)
    ensures Square(-a) == Square(a)
  {
  }

  /** A sum of squares is zero exactly when every term is zero. */
  lemma SumSquaresZero(ds: seq<real>)
    ensures SumSquares(ds) == 0.0 <==> forall i :: 0 <= i < |ds| ==> ds[i] == 0.0
  {
    SquaresNonNegative(ds);
    SumZero(Squares(ds));
    forall i | 0 <= i < |ds| ensures Squares(ds)[i] == 0.0 <==> ds[i] == 0.0 {
      SquareSign(ds[i]);
    }
  }

  /** The deviations from `c` add up to the sum less `N * c`. */
  lemma {:induction false} SumDeviations(vs: seq<real>, c: real)
    ensures Sum(Deviations(vs, c)) == Sum(vs) - (|vs| as real) * c
  {
    if |vs| > 0 {
      var front := vs[..|vs| - 1];
      SumDeviations(front, c);
      assert Deviations(vs, c)[..|vs| - 1] == Deviations(front, c);
    }
  }

  /** The deviations from the mean cancel out. */
  lemma DeviationsFromMeanCancel(vs: seq<real>)
    requires |vs| > 0
    ensures Sum(Deviations(vs, Mean(vs))) == 0.0
  {
    SumDeviations(vs, Mean(vs));
  }

  /** The Cauchy-Schwarz inequality for a sum: `(Σ d)^2 <= N * Σ d^2`. */
  lemma {:induction false} CauchySchwarz(ds: seq<real>)
    ensures Sum(ds) * Sum(ds) <= (|ds| as real) * SumSquares(ds)
  {
    if |ds| > 0 {
      var front := ds[..|ds| - 1];
      CauchySchwarz(front);
      SumSquaresNonNegative(front);
      SumSquaresLast(ds);
      if |front| == 0 {
        assert Sum(front) == 0.0;
      }
      CauchyStep(Sum(front), SumSquares(front), |front| as real, ds[|ds| - 1]);
    }
  }

  /** One step of the induction: adding a term `x` keeps the inequality. */
  lemma CauchyStep(s: real, q: real, k: real, x: real)
    requires k >= 0.0 && q >= 0.0 && s * s <= k * q
    requires k == 0.0 ==> s == 0.0
    ensures (s + x) * (s + x) <= (k + 1.0) * (q + Square(x))
  {
    var y := q + k * x * x - 2.0 * s * x;
    assert y >= 0.0 by {
      if k > 0.0 {
        assert k * y == k * q + (k * x) * (k * x) - 2.0 * s * (k * x);
        assert (s - k * x) * (s - k * x) == s * s + (k * x) * (k * x) - 2.0 * s * (k * x);
        SquareSign(s - k * x);
        assert k * y >= 0.0;
        PositiveFactor(k, y);
      }
    }
    assert (k + 1.0) * (q + x * x) - (s + x) * (s + x) == (k * q - s * s) + y;
  }

  lemma PositiveFactor(k: real, y: real)
    requires k > 0.0 && k * y >= 0.0
    ensures y >= 0.0
  {
  }

  // --- Mean and variance -----------------------------------------------------

  lemma VarianceNonNegative(vs: seq<real>)
    requires |vs| > 0
    ensures Variance(vs) >= 0.0
  {
    SumSquaresNonNegative(Deviations(vs, Mean(vs)));
  }

  /** The variance is zero exactly when every value equals the mean. */
  lemma VarianceZeroIffConstant(vs: seq<real>)
    requires |vs| > 0
    ensures Variance(vs) == 0.0 <==> forall i :: 0 <= i < |vs| ==> vs[i] == Mean(vs)
  {
    var ds := Deviations(vs, Mean(vs));
    SumSquaresZero(ds);
    assert forall i :: 0 <= i < |vs| ==> (ds[i] == 0.0 <==> vs[i] == Mean(vs));
  }

  /** A sequence of one repeated value has that value as its mean. */
  lemma ConstantMean(vs: seq<real>)
    requires |vs| > 0
    requires forall i :: 0 <= i < |vs| ==> vs[i] == vs[0]
    ensures Mean(vs) == vs[0]
  {
    var ds := Deviations(vs, vs[0]);
    assert forall i :: 0 <= i < |ds| ==> ds[i] == 0.0;
    SumZero(ds);
    SumDeviations(vs, vs[0]);
    var n, c, total := |vs| as real, vs[0], Sum(vs);
    assert total == n * c;
    ProductOverFactor(n, c, total);
  }

  /** Dividing `n * c` by `n` gives back `c`. */
  lemma ProductOverFactor(n: real, c: real, p: real)
    requires n > 0.0 && p == n * c
    ensures p / n == c
  {
  }

  /**
   * Samuelson's inequality: no value lies further from the mean than
   * `sqrt(N - 1)` population standard deviations, i.e.
   * `(v - mean)^2 <= (N - 1) * variance`.
   */
  lemma Samuelson(vs: seq<real>, i: nat)
    requires i < |vs|
    ensures Square(vs[i] - Mean(vs)) <= (|vs| as real - 1.0) * Variance(vs)
  {
    var ds := Deviations(vs, Mean(vs));
    DeviationsFromMeanCancel(vs);
    DeviationBound(ds, i);
  }

  /** The same bound for deviations that add up to zero. */
  lemma DeviationBound(ds: seq<real>, i: nat)
    requires i < |ds| && Sum(ds) == 0.0
    ensures Square(ds[i]) <= (|ds| as real - 1.0) * (SumSquares(ds) / (|ds| as real))
  {
    var rest := OthersOf(ds, i);
    var n, k := |ds| as real, |rest| as real;
    var d, r := ds[i], Sum(rest);
    var q, qr := SumSquares(ds), SumSquares(rest);
    SamuelsonStep(n, k, d, r, q, qr);
  }

  /**
   * The deviations other than the one at `i`: one fewer, adding up to minus
   * that one, with its square taken out of the sum of squares, and bound by
   * the Cauchy-Schwarz inequality.
   */
  lemma OthersOf(ds: seq<real>, i: nat) returns (rest: seq<real>)
    requires i < |ds| && Sum(ds) == 0.0
    ensures |rest| == |ds| - 1
    ensures Sum(rest) == -ds[i]
    ensures SumSquares(rest) == SumSquares(ds) - Square(ds[i])
    ensures Sum(rest) * Sum(rest) <= (|rest| as real) * SumSquares(rest)
  {
    rest := ds[..i] + ds[i + 1..];
    RemoveOneSum(ds, i);
    RemoveOneSquare(ds, i);
    CauchySchwarz(rest);
  }

  /** Taking out one term lowers the sum by that term. */
  lemma RemoveOneSum(ds: seq<real>, i: nat)
    requires i < |ds|
    ensures Sum(ds[..i] + ds[i + 1..]) == Sum(ds) - ds[i]
  {
    var a, d, b := ds[..i], ds[i], ds[i + 1..];
    SplitAt(ds, i);
    SumAppend(a + [d], b);
    SumAppend(a, [d]);
    SumAppend(a, b);
    assert [d][..0] == [];
  }

  lemma SplitAt(ds: seq<real>, i: nat)
    requires i < |ds|
    ensures ds == ds[..i] + [ds[i]] + ds[i + 1..]
  {
  }

  /** Taking out one term lowers the sum of squares by its square. */
  lemma RemoveOneSquare(ds: seq<real>, i: nat)
    requires i < |ds|
    ensures SumSquares(ds[..i] + ds[i + 1..]) == SumSquares(ds) - Square(ds[i])
  {
    var sq := Squares(ds);
    SquaresAppend(ds[..i], ds[i + 1..]);
    assert Squares(ds[..i]) == sq[..i];
    assert Squares(ds[i + 1..]) == sq[i + 1..];
    RemoveOneSum(sq, i);
  }

  /**
   * The arithmetic behind Samuelson's inequality: `d` is one deviation, `r`
   * the sum of the others and `q` the sum of all squared deviations.
   */
  lemma SamuelsonStep(n: real, k: real, d: real, r: real, q: real, qr: real)
    requires n >= 1.0 && k == n - 1.0
    requires r == -d && qr == q - Square(d)
    requires r * r <= k * qr
    ensures Square(d) <= (n - 1.0) * (q / n)
  {
    var s := Square(d);
    assert r * r == s;
    assert k * qr == k * q - k * s;
    assert n * s == s + k * s;
    assert n * s <= k * q;
    assert (n - 1.0) * (q / n) == (k * q) / n;
    DivideBound(n * s, k * q, n);
    ProductOverFactor(n, s, n * s);
  }

  lemma DivideBound(a: real, b: real, n: real)
    requires n > 0.0 && a <= b
    ensures a / n <= b / n
  {
  }
}
