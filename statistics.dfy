/**
 * The statistics of 1/index.js: `avgPrice`, the arithmetic mean of a price
 * history, and `findCorr`, the Pearson correlation of two histories
 * truncated by position to their common length, with Bessel-corrected
 * covariance and variances.
 *
 * Prices are `real`s. The square roots of `findCorr` are not modelled: a
 * defined correlation is kept as its three Bessel-corrected sums, and the
 * number `cov / (sqrt(varA) * sqrt(varB))` is characterised by
 * `IsCoefficient` in squared form. Where JavaScript produces NaN (fewer
 * than two points, or a zero variance), the model says `Undefined`.
 */
module Statistics {
  import opened Types

  /** The `price` fields of a history, in order. */
  function Prices(h: seq<PricePoint>): (r: seq<real>)
    ensures |r| == |h| && forall i :: 0 <= i < |h| ==> r[i] == h[i].price
  {
    seq(|h|, i requires 0 <= i < |h| => h[i].price)
  }

  // Small facts of real arithmetic, each proved on plain numbers so that the
  // solver never meets the products inside a larger context.

  lemma {:induction false} SquarePositive(x: real)
    requires x != 0.0
    ensures x * x > 0.0
  {
  }

  lemma {:induction false} SquareNonNegative(x: real)
    ensures x * x >= 0.0
  {
  }

  lemma {:induction false} MulLe(x: real, y: real, c: real)
    requires x <= y && c >= 0.0
    ensures x * c <= y * c
  {
  }

  lemma {:induction false} DivIsMul(a: real, d: real)
    requires d != 0.0
    ensures a / d == a * (1.0 / d)
  {
  }

  lemma {:induction false} Regroup(a: real, b: real, k: real)
    ensures (a * k) * (b * k) == (a * b) * (k * k)
  {
  }

  lemma {:induction false} NonNegativeSumZero(a: real, b: real)
    requires a >= 0.0 && b >= 0.0
    ensures a + b == 0.0 <==> a == 0.0 && b == 0.0
  {
  }

  lemma {:induction false} ZeroSquare(x: real)
    requires x == 0.0
    ensures x * x == 0.0
  {
  }

  /** A number whose square is at most a product with a zero factor is zero. */
  lemma {:induction false} SquareBelowZeroProduct(c: real, a: real, b: real)
    requires c * c <= a * b && (a == 0.0 || b == 0.0)
    ensures c == 0.0
  {
    assert a * b == 0.0;
    SquareNonNegative(c);
    ProductZero(c, c);
  }

  lemma {:induction false} ProductZero(x: real, y: real)
    requires x * y == 0.0
    ensures x == 0.0 || y == 0.0
  {
  }

  lemma {:induction false} CancelPositive(x: real, y: real, v: real)
    requires v > 0.0 && x * v == y * v
    ensures x == y
  {
  }

  /** Two numbers of the same sign with the same square are equal. */
  lemma {:induction false} SameSignSameSquare(r1: real, r2: real)
    requires r1 * r1 == r2 * r2 && (r1 >= 0.0 <==> r2 >= 0.0)
    ensures r1 == r2
  {
    assert (r1 - r2) * (r1 + r2) == 0.0;
    ProductZero(r1 - r2, r1 + r2);
  }

  /** The quotient of s by a positive n lies in [lo, hi] when s lies in [n * lo, n * hi]. */
  lemma {:induction false} QuotientBetween(s: real, n: real, lo: real, hi: real)
    requires n > 0.0 && n * lo <= s <= n * hi
    ensures lo <= s / n <= hi
  {
  }

  /** r^2 * va * vb == cov^2 <= va * vb with positive variances puts r in [-1, 1]. */
  lemma {:induction false} UnitBound(r: real, va: real, vb: real, cov: real)
    requires va > 0.0 && vb > 0.0
    requires r * r * va * vb == cov * cov && cov * cov <= va * vb
    ensures -1.0 <= r <= 1.0
  {
  }

  lemma {:induction false} SquareUnit(r: real, va: real, vb: real)
    requires va > 0.0 && vb == va && r * r * va * vb == va * va
    ensures r * r == 1.0
  {
  }

  lemma {:induction false} UnitScale(r: real, va: real, vb: real)
    requires r * r == 1.0 && vb == va
    ensures r * r * va * vb == va * va
  {
  }

  lemma {:induction false} OppositeSquare(cov: real, va: real, s: real)
    requires (s == 1.0 || s == -1.0) && cov == s * va
    ensures cov * cov == va * va && s * s == 1.0
  {
    if s == -1.0 {
      assert cov == -va;
      assert cov * cov == (-va) * (-va);
    }
  }

  /**
   * With equal positive variances and a covariance of s times them (s = 1
   * or -1), the coefficient condition holds of r exactly when r is s.
   */
  lemma {:induction false} UnitValues(r: real, cov: real, va: real, vb: real, s: real)
    requires va > 0.0 && vb == va && (s == 1.0 || s == -1.0) && cov == s * va
    ensures (r * r * va * vb == cov * cov && (r >= 0.0 <==> cov >= 0.0)) <==> r == s
  {
    OppositeSquare(cov, va, s);
    if r * r * va * vb == cov * cov && (r >= 0.0 <==> cov >= 0.0) {
      SquareUnit(r, va, vb);
      SameSignSameSquare(r, s);
    }
    if r == s {
      OppositeSquare(r * va, va, r);
      UnitScale(r, va, vb);
    }
  }

  lemma {:induction false} NegatedQuotient(x: real, d: real)
    requires d != 0.0
    ensures (-x) / d == -1.0 * (x / d)
  {
  }

  /** t^2 * sxx - 2 * t * sxy + syy: the expanded sum of the squares (t * x_i - y_i)^2. */
  function Quad(t: real, sxx: real, sxy: real, syy: real): real
  {
    t * t * sxx - 2.0 * t * sxy + syy
  }

  /** One step of the expansion of a sum of squares of t * dx - dy. */
  lemma {:induction false} QuadStep(q: real, q': real, sxx: real, sxx': real, sxy: real, sxy': real, syy: real, syy': real,
                 t: real, dx: real, dy: real)
    requires q == t * t * sxx - 2.0 * t * sxy + syy
    requires q' == q + (t * dx - dy) * (t * dx - dy)
    requires sxx' == sxx + dx * dx && sxy' == sxy + dx * dy && syy' == syy + dy * dy
    ensures q' == t * t * sxx' - 2.0 * t * sxy' + syy'
  {
  }

  /** Adding one more square (t * u - v)^2 keeps the expanded quadratic non-negative. */
  lemma {:induction false} QuadStepNonNegative(suu: real, suu': real, suv: real, suv': real, svv: real, svv': real,
                            t: real, u: real, v: real)
    requires Quad(t, suu, suv, svv) >= 0.0
    requires suu' == suu + u * u && suv' == suv + u * v && svv' == svv + v * v
    ensures Quad(t, suu', suv', svv') >= 0.0
  {
    var q := t * t * suu - 2.0 * t * suv + svv;
    SquareNonNegative(t * u - v);
    QuadStep(q, q + (t * u - v) * (t * u - v), suu, suu', suv, suv', svv, svv', t, u, v);
  }

  /** The discriminant argument: a quadratic in t that is never negative, taken at its minimum. */
  lemma {:induction false} DiscriminantBound(sxx: real, sxy: real, syy: real, t: real)
    requires sxx > 0.0 && t * sxx == sxy
    requires Quad(t, sxx, sxy, syy) >= 0.0
    ensures sxy * sxy <= sxx * syy
  {
    var m := t * t * sxx;
    assert Quad(t, sxx, sxy, syy) == syy - m;
    assert sxy * sxy == m * sxx;
  }

  /** With no spread in x, the quadratic reaches -1 unless its linear term vanishes. */
  lemma {:induction false} FlatDiscriminant(sxy: real, syy: real, t: real)
    requires sxy != 0.0 && t == (syy + 1.0) / (2.0 * sxy)
    ensures Quad(t, 0.0, sxy, syy) == -1.0
  {
  }

  /** `reduce((sum, x) => sum + x, 0)`: a left fold over the sequence. */
  function Sum(xs: seq<real>): real
  {
    if xs == [] then 0.0 else Sum(xs[..|xs| - 1]) + xs[|xs| - 1]
  }

  function Mean(xs: seq<real>): real
    requires |xs| > 0
  {
    Sum(xs) / |xs| as real
  }

  /** The least element of a non-empty sequence. */
  function MinOf(xs: seq<real>): (m: real)
    requires |xs| > 0
    ensures m in xs && forall i :: 0 <= i < |xs| ==> m <= xs[i]
  {
    if |xs| == 1 then xs[0]
    else
      var rest := MinOf(xs[1..]);
      if xs[0] <= rest then xs[0] else rest
  }

  /** The greatest element of a non-empty sequence. */
  function MaxOf(xs: seq<real>): (m: real)
    requires |xs| > 0
    ensures m in xs && forall i :: 0 <= i < |xs| ==> xs[i] <= m
  {
    if |xs| == 1 then xs[0]
    else
      var rest := MaxOf(xs[1..]);
      if rest <= xs[0] then xs[0] else rest
  }

  /** `avgPrice(priceHistory)`; `None` is a missing history (`!priceHistory`). */
  function AvgPrice(h: Option<seq<PricePoint>>): real
  {
    if h.None? || |h.value| == 0 then 0.0 else Mean(Prices(h.value))
  }

  /** A sum of values that all lie in [lo, hi] lies between n * lo and n * hi. */
  lemma {:induction false} SumBounds(xs: seq<real>, lo: real, hi: real)
    requires forall i :: 0 <= i < |xs| ==> lo <= xs[i] <= hi
    ensures |xs| as real * lo <= Sum(xs) <= |xs| as real * hi
  {
    if xs != [] {
      var k := |xs| - 1;
      SumBounds(xs[..k], lo, hi);
      assert |xs| as real * lo == k as real * lo + lo;
      assert |xs| as real * hi == k as real * hi + hi;
    }
  }

  /** A missing or empty history averages to 0. */
  lemma {:induction false} AvgPriceOfNothing()
    ensures AvgPrice(None) == 0.0 && AvgPrice(Some([])) == 0.0
  {
  }

  /** The average of a non-empty history lies between its least and its greatest price. */
  lemma {:induction false} AvgPriceBetween(h: seq<PricePoint>)
    requires |h| > 0
    ensures MinOf(Prices(h)) <= AvgPrice(Some(h)) <= MaxOf(Prices(h))
  {
    MeanBetween(Prices(h));
  }

  lemma {:induction false} MeanBetween(xs: seq<real>)
    requires |xs| > 0
    ensures MinOf(xs) <= Mean(xs) <= MaxOf(xs)
  {
    MeanWithin(xs, MinOf(xs), MaxOf(xs));
  }

  /** A mean lies within any bounds that hold for every element. */
  lemma {:induction false} MeanWithin(xs: seq<real>, lo: real, hi: real)
    requires |xs| > 0
    requires forall i :: 0 <= i < |xs| ==> lo <= xs[i] <= hi
    ensures lo <= Mean(xs) <= hi
  {
    SumBounds(xs, lo, hi);
    QuotientBetween(Sum(xs), |xs| as real, lo, hi);
  }

  /** Two sample histories: the mean of 10 and 20 is 15, and of 100, 102, 101 is 101. */
  lemma {:induction false} AvgPriceExamples()
    ensures AvgPrice(Some([PricePoint(10.0, ""), PricePoint(20.0, "")])) == 15.0
    ensures AvgPrice(Some([PricePoint(100.0, ""), PricePoint(102.0, ""), PricePoint(101.0, "")])) == 101.0
  {
    var h2 := [PricePoint(10.0, ""), PricePoint(20.0, "")];
    assert Prices(h2) == [10.0, 20.0];
    assert Sum([10.0, 20.0]) == Sum([10.0]) + 20.0;
    var h3 := [PricePoint(100.0, ""), PricePoint(102.0, ""), PricePoint(101.0, "")];
    assert Prices(h3) == [100.0, 102.0, 101.0];
    assert Sum([100.0, 102.0, 101.0]) == Sum([100.0, 102.0]) + 101.0;
    assert Sum([100.0, 102.0]) == Sum([100.0]) + 102.0;
  }

  /** Each element's distance from the centre `m`, in order. */
  function Deviations(xs: seq<real>, m: real): (r: seq<real>)
    ensures |r| == |xs| && forall i :: 0 <= i < |xs| ==> r[i] == xs[i] - m
  {
    seq(|xs|, i requires 0 <= i < |xs| => xs[i] - m)
  }

  /** Sum of the products of corresponding elements, accumulated front to back. */
  function Dot(us: seq<real>, vs: seq<real>): real
    requires |us| == |vs|
  {
    if us == [] then 0.0
    else
      var k := |us| - 1;
      Dot(us[..k], vs[..k]) + us[k] * vs[k]
  }

  /** Extending both prefixes by one element adds that element's product. */
  lemma {:induction false} DotExtend(us: seq<real>, vs: seq<real>, i: nat)
    requires |us| == |vs| && i < |us|
    ensures Dot(us[..i + 1], vs[..i + 1]) == Dot(us[..i], vs[..i]) + us[i] * vs[i]
  {
    assert us[..i + 1][..i] == us[..i] && vs[..i + 1][..i] == vs[..i];
  }

  /** One pass of the accumulating loop extends all three sums by the products of the i-th deviations. */
  lemma {:induction false} AccumulateStep(da: seq<real>, db: seq<real>, i: nat, devA: real, devB: real)
    requires |da| == |db| && i < |da| && devA == da[i] && devB == db[i]
    ensures Dot(da[..i + 1], db[..i + 1]) == Dot(da[..i], db[..i]) + devA * devB
    ensures Dot(da[..i + 1], da[..i + 1]) == Dot(da[..i], da[..i]) + devA * devA
    ensures Dot(db[..i + 1], db[..i + 1]) == Dot(db[..i], db[..i]) + devB * devB
  {
    DotExtend(da, db, i);
    DotExtend(da, da, i);
    DotExtend(db, db, i);
  }

  /** Every element equals every other. */
  predicate Constant(xs: seq<real>)
  {
    forall i, j :: 0 <= i < |xs| && 0 <= j < |xs| ==> xs[i] == xs[j]
  }

  /** The result of `findCorr`: NaN, or the Bessel-corrected covariance and variances it divides. */
  datatype Correlation = Undefined | Defined(cov: real, varA: real, varB: real)

  /**
   * `r` is the number `cov / (sqrt(varA) * sqrt(varB))`, stated without
   * square roots: it has the sign of `cov`, and its square times both
   * variances is the square of `cov`.
   */
  predicate IsCoefficient(r: real, c: Correlation)
  {
    c.Defined? && r * r * c.varA * c.varB == c.cov * c.cov && (r >= 0.0 <==> c.cov >= 0.0)
  }

  function MinLength(a: seq<PricePoint>, b: seq<PricePoint>): nat
  {
    if |a| < |b| then |a| else |b|
  }

  /** The two price series `findCorr` works on: the first `MinLength` points of each history. */
  function Truncated(a: seq<PricePoint>, b: seq<PricePoint>): (seq<real>, seq<real>)
  {
    var n := MinLength(a, b);
    (Prices(a[..n]), Prices(b[..n]))
  }

  /**
   * The last step of `findCorr`: the three sums over n points divided by
   * n - 1; NaN when a variance is zero.
   */
  function FromSums(n: nat, sab: real, saa: real, sbb: real): Correlation
    requires n >= 2
  {
    var d := (n - 1) as real;
    var cov, varA, varB := sab / d, saa / d, sbb / d;
    if varA == 0.0 || varB == 0.0 then Undefined else Defined(cov, varA, varB)
  }

  /** `findCorr(stockA, stockB)` over exact arithmetic. */
  function Pearson(a: seq<PricePoint>, b: seq<PricePoint>): Correlation
  {
    var n := MinLength(a, b);
    if n < 2 then Undefined
    else
      var (xs, ys) := Truncated(a, b);
      var da, db := Deviations(xs, Mean(xs)), Deviations(ys, Mean(ys));
      FromSums(n, Dot(da, db), Dot(da, da), Dot(db, db))
  }

  /**
   * The accumulating loop of `findCorr`: the sums of the products of the
   * deviations of the two series from the given means.
   */
  method SumDeviationProducts(reducedA: seq<PricePoint>, reducedB: seq<PricePoint>, meanA: real, meanB: real)
    returns (cov: real, varA: real, varB: real)
    requires |reducedA| == |reducedB|
    ensures var da, db := Deviations(Prices(reducedA), meanA), Deviations(Prices(reducedB), meanB);
      cov == Dot(da, db) && varA == Dot(da, da) && varB == Dot(db, db)
  {
    ghost var da, db := Deviations(Prices(reducedA), meanA), Deviations(Prices(reducedB), meanB);
    cov, varA, varB := 0.0, 0.0, 0.0;
    var i := 0;
    while i < |reducedA|
      invariant 0 <= i <= |reducedA|
      invariant cov == Dot(da[..i], db[..i])
      invariant varA == Dot(da[..i], da[..i])
      invariant varB == Dot(db[..i], db[..i])
    {
      var devA := reducedA[i].price - meanA;
      var devB := reducedB[i].price - meanB;
      AccumulateStep(da, db, i, devA, devB);
      cov := cov + devA * devB;
      varA := varA + devA * devA;
      varB := varB + devB * devB;
      i := i + 1;
    }
    assert da[..i] == da && db[..i] == db;
  }

  /** `findCorr` as the source runs it: truncation, two means, the accumulating loop, three divisions. */
  method FindCorr(stockA: seq<PricePoint>, stockB: seq<PricePoint>) returns (r: Correlation)
    ensures r == Pearson(stockA, stockB)
  {
    var minLength := if |stockA| < |stockB| then |stockA| else |stockB|;
    var reducedA := stockA[..minLength];
    var reducedB := stockB[..minLength];
    if minLength == 0 {
      // both means are 0 / 0
      return Undefined;
    }
    var meanA := Mean(Prices(reducedA));
    var meanB := Mean(Prices(reducedB));
    var cov, varA, varB := SumDeviationProducts(reducedA, reducedB, meanA, meanB);
    if minLength == 1 {
      // the divisions by minLength - 1 give 0 / 0
      return Undefined;
    }
    cov := cov / (minLength - 1) as real;
    varA := varA / (minLength - 1) as real;
    varB := varB / (minLength - 1) as real;
    if varA == 0.0 || varB == 0.0 {
      // stdA * stdB is 0 and so is cov (ZeroVarianceZeroCovariance): 0 / 0
      return Undefined;
    }
    r := Defined(cov, varA, varB);
  }

  /** A sum of squares is never negative. */
  lemma {:induction false} SquaresNonNegative(us: seq<real>)
    ensures Dot(us, us) >= 0.0
  {
    if us != [] {
      var k := |us| - 1;
      SquaresNonNegative(us[..k]);
      if us[k] != 0.0 { SquarePositive(us[k]); }
    }
  }

  /** A sum of squares is zero exactly when every element is zero. */
  lemma {:induction false} SquaresZeroIff(us: seq<real>)
    ensures Dot(us, us) == 0.0 <==> forall i :: 0 <= i < |us| ==> us[i] == 0.0
  {
    if us != [] {
      var k := |us| - 1;
      var prefix := us[..k];
      SquaresZeroIff(prefix);
      SquaresNonNegative(prefix);
      var sq := us[k] * us[k];
      assert Dot(us, us) == Dot(prefix, prefix) + sq;
      SquareNonNegative(us[k]);
      NonNegativeSumZero(Dot(prefix, prefix), sq);
      if sq == 0.0 { ProductZero(us[k], us[k]); }
      if us[k] == 0.0 { ZeroSquare(us[k]); }
      assert (forall i :: 0 <= i < |us| ==> us[i] == 0.0) <==>
             (forall i :: 0 <= i < k ==> prefix[i] == 0.0) && us[k] == 0.0;
    }
  }

  /** A sequence whose elements all equal `c` sums to n * c. */
  lemma {:induction false} SumConstant(xs: seq<real>, c: real)
    requires forall i :: 0 <= i < |xs| ==> xs[i] == c
    ensures Sum(xs) == |xs| as real * c
  {
    if xs != [] {
      var k := |xs| - 1;
      SumConstant(xs[..k], c);
      assert |xs| as real * c == k as real * c + c;
    }
  }

  /** A non-empty sequence is constant exactly when every element equals its mean. */
  lemma {:induction false} ConstantIffAtMean(xs: seq<real>)
    requires |xs| > 0
    ensures Constant(xs) <==> forall i :: 0 <= i < |xs| ==> xs[i] == Mean(xs)
  {
    if Constant(xs) {
      SumConstant(xs, xs[0]);
      assert Sum(xs) / |xs| as real == xs[0];
    }
  }

  /** The squared deviations from the mean sum to zero exactly when all elements are equal. */
  lemma {:induction false} VarianceZeroIffConstant(xs: seq<real>)
    requires |xs| > 0
    ensures var d := Deviations(xs, Mean(xs)); Dot(d, d) == 0.0 <==> Constant(xs)
  {
    SquaresZeroIff(Deviations(xs, Mean(xs)));
    ConstantIffAtMean(xs);
  }

  /** The sum over i of (t * u_i - v_i)^2, expanded, is never negative. */
  lemma {:induction false} QuadNonNegative(us: seq<real>, vs: seq<real>, t: real)
    requires |us| == |vs|
    ensures Quad(t, Dot(us, us), Dot(us, vs), Dot(vs, vs)) >= 0.0
  {
    if us == [] {
      QuadStepNonNegative(0.0, 0.0, 0.0, 0.0, 0.0, 0.0, t, 0.0, 0.0);
    } else {
      var k := |us| - 1;
      var pu, pv := us[..k], vs[..k];
      QuadNonNegative(pu, pv, t);
      DotLast(us, vs);
      QuadStepNonNegative(Dot(pu, pu), Dot(us, us), Dot(pu, pv), Dot(us, vs),
                          Dot(pv, pv), Dot(vs, vs), t, us[k], vs[k]);
    }
  }

  /** The three sums of `QuadNonNegative`, each split into its front and its last product. */
  lemma {:induction false} DotLast(us: seq<real>, vs: seq<real>)
    requires |us| == |vs| > 0
    ensures var k := |us| - 1;
      Dot(us, us) == Dot(us[..k], us[..k]) + us[k] * us[k] &&
      Dot(us, vs) == Dot(us[..k], vs[..k]) + us[k] * vs[k] &&
      Dot(vs, vs) == Dot(vs[..k], vs[..k]) + vs[k] * vs[k]
  {
  }

  /** Cauchy–Schwarz: the squared dot product is at most the product of the sums of squares. */
  lemma {:induction false} CauchySchwarz(us: seq<real>, vs: seq<real>)
    requires |us| == |vs|
    ensures Dot(us, vs) * Dot(us, vs) <= Dot(us, us) * Dot(vs, vs)
  {
    var suu, suv, svv := Dot(us, us), Dot(us, vs), Dot(vs, vs);
    SquaresNonNegative(us);
    SquaresNonNegative(vs);
    if suu == 0.0 {
      if suv != 0.0 {
        var t := (svv + 1.0) / (2.0 * suv);
        FlatDiscriminant(suv, svv, t);
        QuadNonNegative(us, vs, t);
      }
    } else {
      var t := suv / suu;
      QuadNonNegative(us, vs, t);
      DiscriminantBound(suu, suv, svv, t);
    }
  }

  lemma {:induction false} DotSymmetric(us: seq<real>, vs: seq<real>)
    requires |us| == |vs|
    ensures Dot(us, vs) == Dot(vs, us)
  {
    if us != [] {
      DotSymmetric(us[..|us| - 1], vs[..|vs| - 1]);
    }
  }

  /** A defined correlation has positive variances. */
  lemma {:induction false} PearsonVariancesPositive(a: seq<PricePoint>, b: seq<PricePoint>)
    requires Pearson(a, b).Defined?
    ensures Pearson(a, b).varA > 0.0 && Pearson(a, b).varB > 0.0
  {
    var (xs, ys) := Truncated(a, b);
    SquaresNonNegative(Deviations(xs, Mean(xs)));
    SquaresNonNegative(Deviations(ys, Mean(ys)));
  }

  /**
   * The correlation is undefined (NaN) exactly when fewer than two points
   * are shared or one of the truncated series is constant.
   */
  lemma {:induction false} PearsonUndefinedIff(a: seq<PricePoint>, b: seq<PricePoint>)
    ensures Pearson(a, b).Undefined? <==>
      MinLength(a, b) < 2 || Constant(Truncated(a, b).0) || Constant(Truncated(a, b).1)
  {
    if MinLength(a, b) >= 2 {
      var (xs, ys) := Truncated(a, b);
      var da, db := Deviations(xs, Mean(xs)), Deviations(ys, Mean(ys));
      VarianceZeroIffConstant(xs);
      VarianceZeroIffConstant(ys);
      FromSumsUndefined(MinLength(a, b), Dot(da, db), Dot(da, da), Dot(db, db));
    }
  }

  /** The last step of `findCorr` gives NaN exactly when one of the two sums of squares is zero. */
  lemma {:induction false} FromSumsUndefined(n: nat, sab: real, saa: real, sbb: real)
    requires n >= 2
    ensures FromSums(n, sab, saa, sbb).Undefined? <==> saa == 0.0 || sbb == 0.0
  {
    var d := (n - 1) as real;
    assert saa / d == 0.0 <==> saa == 0.0;
    assert sbb / d == 0.0 <==> sbb == 0.0;
  }

  /** When a variance is zero, the covariance is zero too: the source's division is 0 / 0, not x / 0. */
  lemma {:induction false} ZeroVarianceZeroCovariance(a: seq<PricePoint>, b: seq<PricePoint>)
    requires MinLength(a, b) >= 2
    ensures var (xs, ys) := Truncated(a, b);
      var da, db := Deviations(xs, Mean(xs)), Deviations(ys, Mean(ys));
      Dot(da, da) == 0.0 || Dot(db, db) == 0.0 ==> Dot(da, db) == 0.0
  {
    var (xs, ys) := Truncated(a, b);
    var da, db := Deviations(xs, Mean(xs)), Deviations(ys, Mean(ys));
    CauchySchwarz(da, db);
    if Dot(da, da) == 0.0 || Dot(db, db) == 0.0 {
      SquareBelowZeroProduct(Dot(da, db), Dot(da, da), Dot(db, db));
    }
  }

  /** A defined correlation's coefficient lies in [-1, 1]. */
  lemma {:induction false} PearsonBounded(a: seq<PricePoint>, b: seq<PricePoint>, r: real)
    requires IsCoefficient(r, Pearson(a, b))
    ensures -1.0 <= r <= 1.0
  {
    var (xs, ys) := Truncated(a, b);
    var da, db := Deviations(xs, Mean(xs)), Deviations(ys, Mean(ys));
    CauchySchwarz(da, db);
    SquaresNonNegative(da);
    SquaresNonNegative(db);
    SumsBounded(MinLength(a, b), Dot(da, db), Dot(da, da), Dot(db, db), r);
  }

  lemma {:induction false} QuotientSign(x: real, n: real)
    requires x >= 0.0 && n > 0.0
    ensures x / n >= 0.0 && (x / n == 0.0 <==> x == 0.0)
  {
  }

  /** The bound of `PearsonBounded` on the three sums themselves. */
  lemma {:induction false} SumsBounded(n: nat, sab: real, saa: real, sbb: real, r: real)
    requires n >= 2 && saa >= 0.0 && sbb >= 0.0 && sab * sab <= saa * sbb
    requires IsCoefficient(r, FromSums(n, sab, saa, sbb))
    ensures -1.0 <= r <= 1.0
  {
    var c := FromSums(n, sab, saa, sbb);
    var d := (n - 1) as real;
    assert c.cov == sab / d && c.varA == saa / d && c.varB == sbb / d;
    ScaledBound(sab, saa, sbb, d);
    QuotientSign(saa, d);
    QuotientSign(sbb, d);
    UnitBound(r, c.varA, c.varB, c.cov);
  }

  /** Dividing all three sums by the same positive d keeps the Cauchy–Schwarz inequality. */
  lemma {:induction false} ScaledBound(sab: real, saa: real, sbb: real, d: real)
    requires d > 0.0 && sab * sab <= saa * sbb
    ensures (sab / d) * (sab / d) <= (saa / d) * (sbb / d)
  {
    var k := 1.0 / d;
    DivIsMul(sab, d);
    DivIsMul(saa, d);
    DivIsMul(sbb, d);
    Regroup(sab, sab, k);
    Regroup(saa, sbb, k);
    SquareNonNegative(k);
    MulLe(sab * sab, saa * sbb, k * k);
  }

  /** The defined correlation determines its coefficient. */
  lemma {:induction false} CoefficientUnique(a: seq<PricePoint>, b: seq<PricePoint>, r1: real, r2: real)
    requires IsCoefficient(r1, Pearson(a, b)) && IsCoefficient(r2, Pearson(a, b))
    ensures r1 == r2
  {
    var c := Pearson(a, b);
    PearsonVariancesPositive(a, b);
    var v := c.varA * c.varB;
    assert v > 0.0;
    assert (r1 * r1) * v == (r2 * r2) * v;
    CancelPositive(r1 * r1, r2 * r2, v);
    SameSignSameSquare(r1, r2);
  }

  /** Swapping the arguments swaps the variances and keeps the covariance, so the coefficient is the same. */
  lemma {:induction false} PearsonSymmetric(a: seq<PricePoint>, b: seq<PricePoint>, r: real)
    ensures Pearson(b, a) == match Pearson(a, b)
      case Undefined => Undefined
      case Defined(cov, va, vb) => Defined(cov, vb, va)
    ensures IsCoefficient(r, Pearson(a, b)) <==> IsCoefficient(r, Pearson(b, a))
  {
    if MinLength(a, b) >= 2 {
      var (xs, ys) := Truncated(a, b);
      assert Truncated(b, a) == (ys, xs);
      DotSymmetric(Deviations(xs, Mean(xs)), Deviations(ys, Mean(ys)));
    }
    var c := Pearson(a, b);
    if c.Defined? {
      CoefficientSwap(r, c.cov, c.varA, c.varB);
    }
  }

  /** Exchanging the two variances leaves the coefficient as it is. */
  lemma {:induction false} CoefficientSwap(r: real, cov: real, va: real, vb: real)
    ensures IsCoefficient(r, Defined(cov, va, vb)) <==> IsCoefficient(r, Defined(cov, vb, va))
  {
    assert r * r * va * vb == r * r * vb * va;
  }

  /** Only the first `MinLength` points of each history matter; later points cannot change the result. */
  lemma {:induction false} PearsonTruncates(a: seq<PricePoint>, b: seq<PricePoint>, a2: seq<PricePoint>, b2: seq<PricePoint>)
    requires MinLength(a2, b2) == MinLength(a, b)
    requires a2[..MinLength(a, b)] == a[..MinLength(a, b)] && b2[..MinLength(a, b)] == b[..MinLength(a, b)]
    ensures Pearson(a2, b2) == Pearson(a, b)
    ensures Pearson(a, b) == Pearson(a[..MinLength(a, b)], b[..MinLength(a, b)])
  {
    var n := MinLength(a, b);
    assert MinLength(a[..n], b[..n]) == n;
    assert a[..n][..n] == a[..n] && b[..n][..n] == b[..n];
    assert Truncated(a2, b2) == Truncated(a, b) == Truncated(a[..n], b[..n]);
  }

  /** A non-constant history of two or more points correlates with itself with coefficient exactly 1. */
  lemma {:induction false} PearsonSelf(a: seq<PricePoint>, r: real)
    requires |a| >= 2 && !Constant(Prices(a))
    ensures Pearson(a, a).Defined?
    ensures IsCoefficient(r, Pearson(a, a)) <==> r == 1.0
  {
    assert a[..|a|] == a;
    PearsonUndefinedIff(a, a);
    PearsonVariancesPositive(a, a);
    var c := Pearson(a, a);
    UnitValues(r, c.cov, c.varA, c.varB, 1.0);
  }

  /** Reflecting every element through `k` reflects the sum: n * k minus the old sum. */
  lemma {:induction false} SumReflected(xs: seq<real>, ys: seq<real>, k: real)
    requires |xs| == |ys| && forall i :: 0 <= i < |xs| ==> ys[i] == k - xs[i]
    ensures Sum(ys) == |xs| as real * k - Sum(xs)
  {
    if xs != [] {
      var n := |xs| - 1;
      SumReflected(xs[..n], ys[..n], k);
      assert |xs| as real * k == n as real * k + k;
    }
  }

  /** Negating one side negates the dot product; negating both leaves it unchanged. */
  lemma {:induction false} DotNegated(us: seq<real>, vs: seq<real>)
    requires |us| == |vs| && forall i :: 0 <= i < |us| ==> vs[i] == -us[i]
    ensures Dot(us, vs) == -Dot(us, us) && Dot(vs, vs) == Dot(us, us)
  {
    if us != [] {
      DotNegated(us[..|us| - 1], vs[..|vs| - 1]);
    }
  }

  /** Reflecting a non-empty series through `k` reflects its mean. */
  lemma {:induction false} MirrorMean(xs: seq<real>, ys: seq<real>, k: real)
    requires |xs| == |ys| > 0 && forall i :: 0 <= i < |xs| ==> ys[i] == k - xs[i]
    ensures Mean(ys) == k - Mean(xs)
  {
    SumReflected(xs, ys, k);
    ReflectedQuotient(Sum(xs), |xs| as real, k);
  }

  lemma {:induction false} ReflectedQuotient(s: real, n: real, k: real)
    requires n > 0.0
    ensures (n * k - s) / n == k - s / n
  {
  }

  /** The deviations of a reflected series are the negated deviations of the original. */
  lemma {:induction false} MirrorDeviations(xs: seq<real>, ys: seq<real>, k: real)
    requires |xs| == |ys| > 0 && forall i :: 0 <= i < |xs| ==> ys[i] == k - xs[i]
    ensures var da, db := Deviations(xs, Mean(xs)), Deviations(ys, Mean(ys));
      forall i :: 0 <= i < |da| ==> db[i] == -da[i]
  {
    MirrorMean(xs, ys, k);
  }

  /** Sums with equal positive squares and the negated square as cross term. */
  lemma {:induction false} FromMirroredSums(n: nat, sab: real, saa: real, sbb: real)
    requires n >= 2 && saa > 0.0 && sbb == saa && sab == -saa
    ensures var c := FromSums(n, sab, saa, sbb);
      c.Defined? && c.varA > 0.0 && c.varB == c.varA && c.cov == -1.0 * c.varA
  {
    NegatedQuotient(saa, (n - 1) as real);
  }

  /** The three sums of a history and its mirror image: equal positive variances and the negated variance as covariance. */
  lemma {:induction false} MirrorSums(a: seq<PricePoint>, b: seq<PricePoint>, k: real)
    requires |a| == |b| && |a| >= 2 && !Constant(Prices(a))
    requires forall i :: 0 <= i < |a| ==> b[i].price == k - a[i].price
    ensures var c := Pearson(a, b);
      c.Defined? && c.varA > 0.0 && c.varB == c.varA && c.cov == -1.0 * c.varA
  {
    assert a[..|a|] == a && b[..|b|] == b;
    var xs, ys := Prices(a), Prices(b);
    assert Truncated(a, b) == (xs, ys);
    MirrorDeviations(xs, ys, k);
    var da, db := Deviations(xs, Mean(xs)), Deviations(ys, Mean(ys));
    DotNegated(da, db);
    VarianceZeroIffConstant(xs);
    SquaresNonNegative(da);
    FromMirroredSums(|a|, Dot(da, db), Dot(da, da), Dot(db, db));
  }

  /**
   * A history and its mirror image through any level `k` (point by point,
   * same length) correlate with coefficient exactly -1.
   */
  lemma {:induction false} PearsonMirror(a: seq<PricePoint>, b: seq<PricePoint>, k: real, r: real)
    requires |a| == |b| && |a| >= 2 && !Constant(Prices(a))
    requires forall i :: 0 <= i < |a| ==> b[i].price == k - a[i].price
    ensures Pearson(a, b).Defined?
    ensures IsCoefficient(r, Pearson(a, b)) <==> r == -1.0
  {
    MirrorSums(a, b, k);
    var c := Pearson(a, b);
    UnitValues(r, c.cov, c.varA, c.varB, -1.0);
  }
}
