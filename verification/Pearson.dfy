/**
 * Pearson correlation of two demand series over the half-hour slots both have
 * data for (internal/analysis/peaks.go).
 */
module PearsonCorrelation {
  import opened Numbers
  import opened RealProducts
  import opened DemandSlots

  const MIN_CORR_SLOTS := 48

  /** The running sums of the loop. */
  datatype Moments = Moments(n: nat, sx: real, sy: real, sxx: real, syy: real, sxy: real)

  function Shared(a: DemandSeries, b: DemandSeries): nat {
    Min(|a.demand|, |b.demand|)
  }

  /** The value pairs of the first m slots in which both series have data. */
  function Common(a: DemandSeries, b: DemandSeries, m: nat): seq<(real, real)>
    requires a.Valid() && b.Valid() && m <= Shared(a, b)
  {
    if m == 0 then []
    else if a.slots[m - 1] == 0 || b.slots[m - 1] == 0 then Common(a, b, m - 1)
    else Common(a, b, m - 1) + [(a.demand[m - 1], b.demand[m - 1])]
  }

  function Tally(m: Moments, x: real, y: real): Moments {
    Moments(m.n + 1, m.sx + x, m.sy + y, m.sxx + Times(x, x), m.syy + Times(y, y), m.sxy + Times(x, y))
  }

  function MomentsOf(c: seq<(real, real)>): (m: Moments)
    ensures m.n == |c|
  {
    if c == [] then Moments(0, 0.0, 0.0, 0.0, 0.0, 0.0)
    else Tally(MomentsOf(c[..|c| - 1]), c[|c| - 1].0, c[|c| - 1].1)
  }

  /** sxy - sx sy / n: n times the covariance, and with y = x, n times the variance. */
  function Scatter(n: nat, sx: real, sy: real, sxy: real): real
    requires n > 0
  {
    sxy - sx * sy / n as real
  }

  function Cov(m: Moments): real
    requires m.n > 0
  {
    Scatter(m.n, m.sx, m.sy, m.sxy)
  }

  function VarX(m: Moments): real
    requires m.n > 0
  {
    Scatter(m.n, m.sx, m.sx, m.sxx)
  }

  function VarY(m: Moments): real
    requires m.n > 0
  {
    Scatter(m.n, m.sy, m.sy, m.syy)
  }

  /** What math.Sqrt is relied on for. */
  ghost predicate IsSqrt(sqrt: real -> real) {
    forall x :: x >= 0.0 ==> sqrt(x) >= 0.0 && Times(sqrt(x), sqrt(x)) == x
  }

  function Coefficient(cov: real, vx: real, vy: real, sqrt: real -> real): (r: Option<real>)
    requires IsSqrt(sqrt)
  {
    if vx <= 0.0 || vy <= 0.0 then None
    else
      RootPositive(vx, vy, sqrt);
      Some(cov / sqrt(Times(vx, vy)))
  }

  lemma RootPositive(vx: real, vy: real, sqrt: real -> real)
    requires IsSqrt(sqrt) && vx > 0.0 && vy > 0.0
    ensures var root := sqrt(Times(vx, vy)); root > 0.0 && Times(root, root) == Times(vx, vy)
  {
    ProductPositive(vx, vy);
    var root := sqrt(Times(vx, vy));
  }

  function PearsonOf(a: DemandSeries, b: DemandSeries, sqrt: real -> real): Option<real>
    requires a.Valid() && b.Valid() && IsSqrt(sqrt)
  {
    var m := MomentsOf(Common(a, b, Shared(a, b)));
    if m.n < MIN_CORR_SLOTS then None else Coefficient(Cov(m), VarX(m), VarY(m), sqrt)
  }

  method Pearson(a: DemandSeries, b: DemandSeries, sqrt: real -> real) returns (r: Option<real>)
    requires a.Valid() && b.Valid() && IsSqrt(sqrt)
    ensures r == PearsonOf(a, b, sqrt) == Correlation(a, b, sqrt)
  {
    PearsonIsCorrelation(a, b, sqrt);
    hide Times, Scatter, Coefficient, Correlation;
    var n, sx, sy, sxx, syy, sxy := 0, 0.0, 0.0, 0.0, 0.0, 0.0;
    for i := 0 to Shared(a, b)
      invariant Moments(n, sx, sy, sxx, syy, sxy) == MomentsOf(Common(a, b, i))
    {
      if a.slots[i] == 0 || b.slots[i] == 0 {
        continue;
      }
      var x, y := a.demand[i], b.demand[i];
      assert Common(a, b, i + 1)[..|Common(a, b, i)|] == Common(a, b, i);
      n, sx, sy := n + 1, sx + x, sy + y;
      sxx, syy, sxy := sxx + Times(x, x), syy + Times(y, y), sxy + Times(x, y);
    }
    if n < MIN_CORR_SLOTS {
      return None;
    }
    var cov := Scatter(n, sx, sy, sxy);
    var vx, vy := Scatter(n, sx, sx, sxx), Scatter(n, sy, sy, syy);
    return Coefficient(cov, vx, vy, sqrt);
  }

  // --------------------------------------------------- sums of centred products

  /** Sum of (x - mx)(y - my). */
  ghost function Products(c: seq<(real, real)>, mx: real, my: real): real {
    if c == [] then 0.0
    else Products(c[..|c| - 1], mx, my) + Times(c[|c| - 1].0 - mx, c[|c| - 1].1 - my)
  }

  /** The pairs (y, x). */
  function Swap(c: seq<(real, real)>): (r: seq<(real, real)>)
    ensures |r| == |c| && forall i :: 0 <= i < |c| ==> r[i] == (c[i].1, c[i].0)
  {
    seq(|c|, i requires 0 <= i < |c| => (c[i].1, c[i].0))
  }

  /** The pairs (x, x). */
  function Diagonal(c: seq<(real, real)>): (r: seq<(real, real)>)
    ensures |r| == |c| && forall i :: 0 <= i < |c| ==> r[i] == (c[i].0, c[i].0)
  {
    seq(|c|, i requires 0 <= i < |c| => (c[i].0, c[i].0))
  }

  lemma {:induction false} MomentsOfSwap(c: seq<(real, real)>)
    ensures var m := MomentsOf(c); MomentsOf(Swap(c)) == Moments(m.n, m.sy, m.sx, m.syy, m.sxx, m.sxy)
  {
    hide Times;
    if c != [] {
      assert Swap(c)[..|c| - 1] == Swap(c[..|c| - 1]);
      MomentsOfSwap(c[..|c| - 1]);
      TimesCommutes(c[|c| - 1].0, c[|c| - 1].1);
    }
  }

  lemma {:induction false} MomentsOfDiagonal(c: seq<(real, real)>)
    ensures var m := MomentsOf(c); MomentsOf(Diagonal(c)) == Moments(m.n, m.sx, m.sx, m.sxx, m.sxx, m.sxx)
  {
    hide Times;
    if c != [] {
      assert Diagonal(c)[..|c| - 1] == Diagonal(c[..|c| - 1]);
      MomentsOfDiagonal(c[..|c| - 1]);
    }
  }

  /** The sum of products around (mx, my) in terms of the running sums. */
  function Around(k: real, sx: real, sy: real, sxy: real, mx: real, my: real): real {
    sxy - my * sx - mx * sy + k * (mx * my)
  }

  lemma ExpandStep(x: real, y: real, mx: real, my: real, sx: real, sy: real, sxy: real, k: real)
    ensures Around(k, sx, sy, sxy, mx, my) + Times(x - mx, y - my)
         == Around(k + 1.0, sx + x, sy + y, sxy + Times(x, y), mx, my)
  {
  }

  lemma {:induction false} ProductsExpand(c: seq<(real, real)>, mx: real, my: real)
    ensures var m := MomentsOf(c); Products(c, mx, my) == Around(|c| as real, m.sx, m.sy, m.sxy, mx, my)
  {
    if c == [] {
      assert 0.0 * (mx * my) == 0.0;
    } else {
      hide Times, Around;
      var init := c[..|c| - 1];
      ProductsExpand(init, mx, my);
      var m := MomentsOf(init);
      ExpandStep(c[|c| - 1].0, c[|c| - 1].1, mx, my, m.sx, m.sy, m.sxy, |init| as real);
    }
  }

  lemma AroundMeans(n: nat, sx: real, sy: real, sxy: real)
    requires n > 0
    ensures Around(n as real, sx, sy, sxy, sx / n as real, sy / n as real) == Scatter(n, sx, sy, sxy)
  {
    var k := n as real;
    var mx, my := sx / k, sy / k;
    assert sx == mx * k && sy == my * k;
    assert k * (mx * my) == mx * sy;
    assert my * sx == mx * sy;
    assert sx * sy / k == mx * sy by {
      assert (mx * sy) * k == sx * sy;
    }
  }

  function MeanX(c: seq<(real, real)>): real
    requires c != []
  {
    MomentsOf(c).sx / |c| as real
  }

  function MeanY(c: seq<(real, real)>): real
    requires c != []
  {
    MomentsOf(c).sy / |c| as real
  }

  /** The one-pass covariance is the sum of products around the means. */
  lemma CovIsCentred(c: seq<(real, real)>)
    requires c != []
    ensures Cov(MomentsOf(c)) == Products(c, MeanX(c), MeanY(c))
  {
    hide Times, Around, Scatter;
    var m := MomentsOf(c);
    ProductsExpand(c, MeanX(c), MeanY(c));
    AroundMeans(|c|, m.sx, m.sy, m.sxy);
  }

  /** A one-pass variance is the sum of squares around the mean. */
  lemma VarIsCentred(c: seq<(real, real)>)
    requires c != []
    ensures VarX(MomentsOf(c)) == Products(Diagonal(c), MeanX(c), MeanX(c))
    ensures VarY(MomentsOf(c)) == Products(Diagonal(Swap(c)), MeanY(c), MeanY(c))
  {
    hide Times, Scatter;
    MomentsOfDiagonal(c);
    CovIsCentred(Diagonal(c));
    MomentsOfSwap(c);
    MomentsOfDiagonal(Swap(c));
    CovIsCentred(Diagonal(Swap(c)));
  }

  // ------------------------------------------------------------ Cauchy-Schwarz

  lemma SquareNonNegative(x: real)
    ensures Times(x, x) >= 0.0
    ensures Times(x, x) == 0.0 <==> x == 0.0
  {
    if x > 0.0 {
      ProductPositive(x, x);
    } else if x < 0.0 {
      ProductPositive(-x, -x);
      assert Times(-x, -x) == Times(x, x);
    }
  }

  lemma SquareLess(a: real, b: real)
    requires 0.0 <= a < b
    ensures Times(a, a) < Times(b, b)
  {
    ProductPositive(b - a, b);
    assert Times(b, b) == Times(a, b) + Times(b - a, b);
    TimesMonotone(a, a, a, b);
  }

  lemma SumSquared(p: real, q: real)
    ensures Times(p + q, p + q) == Times(p - q, p - q) + 4.0 * Times(p, q)
  {
  }

  /** The geometric mean is at most the arithmetic mean, in the form w^2 <= p q. */
  lemma MeansInequality(p: real, q: real, w: real)
    requires p >= 0.0 && q >= 0.0 && Times(w, w) <= Times(p, q)
    ensures 2.0 * w <= p + q
  {
    assert Times(2.0 * w, 2.0 * w) == 4.0 * Times(w, w);
    SumSquared(p, q);
    hide Times;
    SquareNonNegative(p - q);
    if p + q < 2.0 * w {
      SquareLess(p + q, 2.0 * w);
      assert false;
    }
  }

  lemma Rearrange(a: real, b: real, c: real, d: real)
    ensures Times(Times(a, b), Times(c, d)) == Times(Times(a, c), Times(b, d))
  {
    assert Times(Times(a, b), Times(c, d)) == a * (b * (c * d));
    assert Times(Times(a, c), Times(b, d)) == a * (c * (b * d));
  }

  lemma StepExpanded(a: real, b: real, c: real, s: real, t: real, z: real)
    requires Times(a, a) <= Times(b, c) && Times(z, z) == Times(s, t)
    requires 2.0 * Times(a, z) <= Times(b, t) + Times(c, s)
    ensures Times(a + z, a + z) <= Times(b + s, c + t)
  {
    assert Times(a + z, a + z) == Times(a, a) + 2.0 * Times(a, z) + Times(z, z);
    assert Times(b + s, c + t) == Times(b, c) + (Times(b, t) + Times(c, s)) + Times(s, t);
  }

  /** The step of the induction: a^2 <= b c survives adding u v, u^2 and v^2. */
  lemma CauchyStep(a: real, b: real, c: real, u: real, v: real)
    requires b >= 0.0 && c >= 0.0 && Times(a, a) <= Times(b, c)
    ensures var uv := Times(u, v);
      Times(a + uv, a + uv) <= Times(b + Times(u, u), c + Times(v, v))
  {
    hide Times;
    var s, t, z := Times(u, u), Times(v, v), Times(u, v);
    SquareNonNegative(u);
    SquareNonNegative(v);
    SquareNonNegative(a);
    SquareNonNegative(z);
    Rearrange(u, v, u, v);                                        // z^2 == s t
    Rearrange(a, z, a, z);                                        // (a z)^2 == a^2 z^2
    TimesMonotone(Times(a, a), Times(b, c), Times(z, z), Times(s, t));
    TimesCommutes(s, t);
    Rearrange(b, c, t, s);                                        // (b c)(t s) == (b t)(c s)
    TimesMonotone(0.0, b, 0.0, t);
    TimesMonotone(0.0, c, 0.0, s);
    TimesZero();
    MeansInequality(Times(b, t), Times(c, s), Times(a, z));
    StepExpanded(a, b, c, s, t, z);
  }

  lemma TimesZero()
    ensures Times(0.0, 0.0) == 0.0
  {
  }

  lemma {:induction false} CauchySchwarz(c: seq<(real, real)>, mx: real, my: real)
    ensures var xx, yy := Products(Diagonal(c), mx, mx), Products(Diagonal(Swap(c)), my, my);
      xx >= 0.0 && yy >= 0.0 && Times(Products(c, mx, my), Products(c, mx, my)) <= Times(xx, yy)
  {
    TimesZero();
    hide Times;
    if c != [] {
      var init, x, y := c[..|c| - 1], c[|c| - 1].0 - mx, c[|c| - 1].1 - my;
      CauchySchwarz(init, mx, my);
      assert Diagonal(c)[..|c| - 1] == Diagonal(init);
      assert Diagonal(Swap(c))[..|c| - 1] == Diagonal(Swap(init));
      SquareNonNegative(x);
      SquareNonNegative(y);
      CauchyStep(Products(init, mx, my), Products(Diagonal(init), mx, mx), Products(Diagonal(Swap(init)), my, my), x, y);
    }
  }

  // ------------------------------------------------------- what the coefficient is

  /** The slots in which both series have data, in order, and the pairs of their demands there. */
  lemma {:induction false} CommonSlots(a: DemandSeries, b: DemandSeries, m: nat) returns (at: seq<nat>)
    requires a.Valid() && b.Valid() && m <= |a.demand| && m <= |b.demand|
    ensures forall j, k :: 0 <= j < k < |at| ==> at[j] < at[k]
    ensures forall i: nat :: i in at <==> i < m && a.slots[i] > 0 && b.slots[i] > 0
    ensures |Common(a, b, m)| == |at|
    ensures forall k :: 0 <= k < |at| ==> at[k] < m && Common(a, b, m)[k] == (a.demand[at[k]], b.demand[at[k]])
  {
    if m == 0 {
      at := [];
    } else {
      at := CommonSlots(a, b, m - 1);
      assert forall k :: 0 <= k < |at| ==> at[k] in at;
      if a.slots[m - 1] > 0 && b.slots[m - 1] > 0 {
        at := at + [m - 1];
      }
    }
  }

  ghost function SumX(c: seq<(real, real)>): real {
    if c == [] then 0.0 else SumX(c[..|c| - 1]) + c[|c| - 1].0
  }

  ghost function SumY(c: seq<(real, real)>): real {
    if c == [] then 0.0 else SumY(c[..|c| - 1]) + c[|c| - 1].1
  }

  /** Sums of (x - mx)^2 and (y - my)^2. */
  ghost function SquaresX(c: seq<(real, real)>, mx: real): real {
    if c == [] then 0.0 else SquaresX(c[..|c| - 1], mx) + Times(c[|c| - 1].0 - mx, c[|c| - 1].0 - mx)
  }

  ghost function SquaresY(c: seq<(real, real)>, my: real): real {
    if c == [] then 0.0 else SquaresY(c[..|c| - 1], my) + Times(c[|c| - 1].1 - my, c[|c| - 1].1 - my)
  }

  /**
   * The correlation of two series over their common slots, as it is defined: the sum
   * of products of deviations from the means over the root of the two sums of squared
   * deviations. There is none with fewer than 48 slots or without deviation.
   */
  ghost function Correlation(a: DemandSeries, b: DemandSeries, sqrt: real -> real): Option<real>
    requires a.Valid() && b.Valid() && IsSqrt(sqrt)
  {
    var c := Common(a, b, Shared(a, b));
    if |c| < 48 then None
    else
      var mx, my := SumX(c) / |c| as real, SumY(c) / |c| as real;
      var xx, yy := SquaresX(c, mx), SquaresY(c, my);
      if xx <= 0.0 || yy <= 0.0 then None
      else
        RootPositive(xx, yy, sqrt);
        Some(Products(c, mx, my) / sqrt(Times(xx, yy)))
  }

  lemma {:induction false} SumsAre(c: seq<(real, real)>, mx: real, my: real)
    ensures MomentsOf(c).sx == SumX(c) && MomentsOf(c).sy == SumY(c)
    ensures Products(Diagonal(c), mx, mx) == SquaresX(c, mx)
    ensures Products(Diagonal(Swap(c)), my, my) == SquaresY(c, my)
  {
    hide Times;
    if c != [] {
      var init := c[..|c| - 1];
      SumsAre(init, mx, my);
      assert Diagonal(c)[..|c| - 1] == Diagonal(init);
      assert Diagonal(Swap(c))[..|c| - 1] == Diagonal(Swap(init));
    }
  }

  /** The one-pass coefficient is that correlation. */
  lemma PearsonIsCorrelation(a: DemandSeries, b: DemandSeries, sqrt: real -> real)
    requires a.Valid() && b.Valid() && IsSqrt(sqrt)
    ensures PearsonOf(a, b, sqrt) == Correlation(a, b, sqrt)
  {
    hide Times, Scatter;
    var c := Common(a, b, Shared(a, b));
    if |c| >= MIN_CORR_SLOTS {
      SumsAre(c, MeanX(c), MeanY(c));
      CovIsCentred(c);
      VarIsCentred(c);
    }
  }

  /** In whole: the coefficient times the root of the squared deviations is the sum of products. */
  lemma CoefficientTimesRoot(a: DemandSeries, b: DemandSeries, sqrt: real -> real, r: real)
    requires a.Valid() && b.Valid() && IsSqrt(sqrt) && PearsonOf(a, b, sqrt) == Some(r)
    ensures
      var c := Common(a, b, Shared(a, b));
      && |c| >= 48
      && var mx, my := SumX(c) / |c| as real, SumY(c) / |c| as real;
         Times(r, sqrt(Times(SquaresX(c, mx), SquaresY(c, my)))) == Products(c, mx, my)
  {
    PearsonIsCorrelation(a, b, sqrt);
    hide PearsonOf, Times, Products, SquaresX, SquaresY, SumX, SumY, Common, IsSqrt;
    var c := Common(a, b, Shared(a, b));
    var mx, my := SumX(c) / |c| as real, SumY(c) / |c| as real;
    RootPositive(SquaresX(c, mx), SquaresY(c, my), sqrt);
    QuotientTimes(Products(c, mx, my), sqrt(Times(SquaresX(c, mx), SquaresY(c, my))));
  }

  // ------------------------------------------------------------- main results

  ghost predicate ConstantX(c: seq<(real, real)>) {
    forall i, j :: 0 <= i < j < |c| ==> c[i].0 == c[j].0
  }

  ghost predicate ConstantY(c: seq<(real, real)>) {
    forall i, j :: 0 <= i < j < |c| ==> c[i].1 == c[j].1
  }

  lemma {:induction false} SquaresZero(c: seq<(real, real)>, mx: real)
    ensures Products(Diagonal(c), mx, mx) >= 0.0
    ensures Products(Diagonal(c), mx, mx) == 0.0 <==> forall i :: 0 <= i < |c| ==> c[i].0 == mx
  {
    hide Times;
    if c != [] {
      SquaresZero(c[..|c| - 1], mx);
      assert Diagonal(c)[..|c| - 1] == Diagonal(c[..|c| - 1]);
      SquareNonNegative(c[|c| - 1].0 - mx);
      assert forall i :: 0 <= i < |c| - 1 ==> c[..|c| - 1][i] == c[i];
    }
  }

  lemma {:induction false} SumOfConstant(c: seq<(real, real)>, x: real)
    requires forall i :: 0 <= i < |c| ==> c[i].0 == x
    ensures MomentsOf(c).sx == Times(|c| as real, x)
  {
    if c != [] {
      var k := (|c| - 1) as real;
      assert Times(k + 1.0, x) == Times(k, x) + x;
      hide Times;
      SumOfConstant(c[..|c| - 1], x);
    }
  }

  lemma MeanOfConstant(c: seq<(real, real)>, x: real)
    requires c != []
    requires forall i :: 0 <= i < |c| ==> c[i].0 == x
    ensures MeanX(c) == x
  {
    SumOfConstant(c, x);
  }

  lemma VarXZeroIffConstant(c: seq<(real, real)>)
    requires c != []
    ensures VarX(MomentsOf(c)) >= 0.0
    ensures VarX(MomentsOf(c)) == 0.0 <==> ConstantX(c)
  {
    hide Times, Scatter, MeanX;
    VarIsCentred(c);
    SquaresZero(c, MeanX(c));
    if ConstantX(c) {
      MeanOfConstant(c, c[0].0);
    }
  }

  lemma VarYZeroIffConstant(c: seq<(real, real)>)
    requires c != []
    ensures VarY(MomentsOf(c)) >= 0.0
    ensures VarY(MomentsOf(c)) == 0.0 <==> ConstantY(c)
  {
    hide Times, Scatter;
    MomentsOfSwap(c);
    VarXZeroIffConstant(Swap(c));
    if ConstantX(Swap(c)) {
      forall i, j | 0 <= i < j < |c|
        ensures c[i].1 == c[j].1
      {
        assert Swap(c)[i].0 == Swap(c)[j].0;
      }
    }
  }

  lemma CovarianceBound(c: seq<(real, real)>)
    requires c != []
    ensures var m := MomentsOf(c); Times(Cov(m), Cov(m)) <= Times(VarX(m), VarY(m))
  {
    hide Times, Scatter, MeanX, MeanY;
    CauchySchwarz(c, MeanX(c), MeanY(c));
    VarIsCentred(c);
    CovIsCentred(c);
  }

  /** A coefficient is undefined exactly with fewer than 48 shared slots or a series constant on them. */
  lemma PearsonDefined(a: DemandSeries, b: DemandSeries, sqrt: real -> real)
    requires a.Valid() && b.Valid() && IsSqrt(sqrt)
    ensures var c := Common(a, b, Shared(a, b));
      PearsonOf(a, b, sqrt) == None <==> |c| < MIN_CORR_SLOTS || ConstantX(c) || ConstantY(c)
  {
    hide Times, Scatter;
    var c := Common(a, b, Shared(a, b));
    if |c| >= MIN_CORR_SLOTS {
      VarXZeroIffConstant(c);
      VarYZeroIffConstant(c);
    }
  }

  /** A coefficient lies in [-1, 1]. */
  lemma PearsonInRange(a: DemandSeries, b: DemandSeries, sqrt: real -> real)
    requires a.Valid() && b.Valid() && IsSqrt(sqrt)
    requires PearsonOf(a, b, sqrt).Some?
    ensures -1.0 <= PearsonOf(a, b, sqrt).value <= 1.0
  {
    hide Times, Scatter;
    var c := Common(a, b, Shared(a, b));
    var m := MomentsOf(c);
    CovarianceBound(c);
    RootPositive(VarX(m), VarY(m), sqrt);
    RatioInRange(Cov(m), sqrt(Times(VarX(m), VarY(m))));
  }

  lemma RatioInRange(cov: real, root: real)
    requires root > 0.0 && Times(cov, cov) <= Times(root, root)
    ensures -1.0 <= cov / root <= 1.0
  {
    assert Times(-cov, -cov) == Times(cov, cov);
    if cov > root {
      SquareLess(root, cov);
    }
    if -cov > root {
      SquareLess(root, -cov);
    }
    QuotientBounds(cov, root);
  }

  lemma QuotientBounds(a: real, b: real)
    requires b > 0.0 && -b <= a <= b
    ensures -1.0 <= a / b <= 1.0
  {
  }

  lemma {:induction false} CommonSwaps(a: DemandSeries, b: DemandSeries, m: nat)
    requires a.Valid() && b.Valid() && m <= Shared(a, b)
    ensures Common(b, a, m) == Swap(Common(a, b, m))
  {
    if m > 0 {
      CommonSwaps(a, b, m - 1);
    }
  }

  lemma ScatterSymmetric(n: nat, sx: real, sy: real, sxy: real)
    requires n > 0
    ensures Scatter(n, sx, sy, sxy) == Scatter(n, sy, sx, sxy)
  {
    assert sx * sy == sy * sx;
  }

  /** The order of the two series does not matter. */
  lemma PearsonSymmetric(a: DemandSeries, b: DemandSeries, sqrt: real -> real)
    requires a.Valid() && b.Valid() && IsSqrt(sqrt)
    ensures PearsonOf(a, b, sqrt) == PearsonOf(b, a, sqrt)
  {
    hide Times, Scatter;
    CommonSwaps(a, b, Shared(a, b));
    MomentsOfSwap(Common(a, b, Shared(a, b)));
    var m := MomentsOf(Common(a, b, Shared(a, b)));
    if m.n > 0 {
      ScatterSymmetric(m.n, m.sx, m.sy, m.sxy);
      TimesCommutes(VarX(m), VarY(m));
    }
  }

  lemma {:induction false} CommonWithSelf(a: DemandSeries, m: nat)
    requires a.Valid() && m <= |a.demand|
    ensures Common(a, a, m) == Diagonal(Common(a, a, m))
  {
    if m > 0 {
      CommonWithSelf(a, m - 1);
    }
  }

  lemma SelfQuotient(r: real)
    requires r > 0.0
    ensures r / r == 1.0
  {
  }

  lemma RootOfSquare(v: real, r: real)
    requires v > 0.0 && r > 0.0 && Times(r, r) == Times(v, v)
    ensures v / r == 1.0
  {
    if r < v {
      SquareLess(r, v);
    } else if v < r {
      SquareLess(v, r);
    }
    assert v == r;
    SelfQuotient(r);
  }

  /** A series that varies correlates perfectly with itself. */
  lemma PearsonWithSelf(a: DemandSeries, sqrt: real -> real)
    requires a.Valid() && IsSqrt(sqrt)
    requires PearsonOf(a, a, sqrt).Some?
    ensures PearsonOf(a, a, sqrt).value == 1.0
  {
    hide Times, Scatter;
    var c := Common(a, a, |a.demand|);
    CommonWithSelf(a, |a.demand|);
    MomentsOfDiagonal(c);
    var v := VarX(MomentsOf(c));
    RootPositive(v, v, sqrt);
    RootOfSquare(v, sqrt(Times(v, v)));
  }
}
