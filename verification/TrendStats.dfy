/** The trend of performance samples: a least-squares slope, over the real numbers. */
module TrendStats {

  datatype PerfMetrics = PerfMetrics(jitterP99: real, hidP99: real)

  datatype Stats = Stats(sampleCount: nat, jitterTrend: real, hidTrend: real, recentVsBaseline: real)

  function Jitter(metrics: seq<PerfMetrics>): (ys: seq<real>)
    ensures |ys| == |metrics| && forall i :: 0 <= i < |ys| ==> ys[i] == metrics[i].jitterP99
  {
    seq(|metrics|, i requires 0 <= i < |metrics| => metrics[i].jitterP99)
  }

  function Hid(metrics: seq<PerfMetrics>): (ys: seq<real>)
    ensures |ys| == |metrics| && forall i :: 0 <= i < |ys| ==> ys[i] == metrics[i].hidP99
  {
    seq(|metrics|, i requires 0 <= i < |metrics| => metrics[i].hidP99)
  }

  // ---- Sums ----

  /** The sum of the first `k` terms. */
  function Sum(ys: seq<real>, k: nat): real
    requires k <= |ys|
  {
    if k == 0 then 0.0 else Sum(ys, k - 1) + ys[k - 1]
  }

  /** The sum of the first `k` products of one term of `us` and one of `vs`. */
  function Dot(us: seq<real>, vs: seq<real>, k: nat): real
    requires k <= |us| && k <= |vs|
  {
    if k == 0 then 0.0 else Dot(us, vs, k - 1) + us[k - 1] * vs[k - 1]
  }

  function Indices(n: nat): (xs: seq<real>)
    ensures |xs| == n && forall i :: 0 <= i < n ==> xs[i] == i as real
  {
    seq(n, i => i as real)
  }

  function Mean(ys: seq<real>): real
    requires ys != []
  {
    Sum(ys, |ys|) / |ys| as real
  }

  /** How far each term is from `c`. */
  function Gaps(ys: seq<real>, c: real): (gs: seq<real>)
    ensures |gs| == |ys| && forall i :: 0 <= i < |ys| ==> gs[i] == ys[i] - c
  {
    seq(|ys|, i requires 0 <= i < |ys| => ys[i] - c)
  }

  /** How far each of `n` indices is from the mean index. */
  function Offsets(n: nat): (ds: seq<real>)
    requires n > 0
    ensures |ds| == n
  {
    Gaps(Indices(n), Mean(Indices(n)))
  }

  function Slope(ys: seq<real>): real {
    var n := |ys|;
    if n < 2 then 0.0
    else
      var denominator := Dot(Offsets(n), Offsets(n), n);
      if denominator != 0.0 then Dot(Offsets(n), Gaps(ys, Mean(ys)), n) / denominator else 0.0
  }

  function RecentVsBaseline(ys: seq<real>): real {
    if |ys| < 10 then 0.0
    else
      var recent := Mean(ys[|ys| - 5..]);
      var baseline := Mean(ys[..5]);
      if baseline != 0.0 then (recent - baseline) / baseline else 0.0
  }

  // ---- The computation ----

  method Total(ys: seq<real>) returns (sum: real)
    ensures sum == Sum(ys, |ys|)
  {
    sum := 0.0;
    for i := 0 to |ys|
      invariant sum == Sum(ys, i)
    {
      sum := sum + ys[i];
    }
  }

  method TotalOfIndices(n: nat) returns (sum: real)
    ensures sum == Sum(Indices(n), n)
  {
    sum := 0.0;
    for i := 0 to n
      invariant sum == Sum(Indices(n), i)
    {
      sum := sum + i as real;
    }
  }

  /** The loop over the samples. */
  method Accumulate(ys: seq<real>, xMean: real, yMean: real) returns (numerator: real, denominator: real)
    ensures var ds := Gaps(Indices(|ys|), xMean);
      numerator == Dot(ds, Gaps(ys, yMean), |ys|) && denominator == Dot(ds, ds, |ys|)
  {
    ghost var ds := Gaps(Indices(|ys|), xMean);
    numerator, denominator := 0.0, 0.0;
    for i := 0 to |ys|
      invariant numerator == Dot(ds, Gaps(ys, yMean), i)
      invariant denominator == Dot(ds, ds, i)
    {
      var xDiff, yDiff := i as real - xMean, ys[i] - yMean;
      numerator := numerator + xDiff * yDiff;
      denominator := denominator + xDiff * xDiff;
    }
  }

  method CompareEnds(ys: seq<real>) returns (r: real)
    ensures r == RecentVsBaseline(ys)
  {
    r := 0.0;
    if |ys| >= 10 {
      var recentSum := Total(ys[|ys| - 5..]);
      var baselineSum := Total(ys[..5]);
      var recent, baseline := recentSum / 5.0, baselineSum / 5.0;
      r := if baseline != 0.0 then (recent - baseline) / baseline else 0.0;
    }
  }

  method CalculateTrendStats(metrics: seq<PerfMetrics>) returns (stats: Stats)
    ensures stats == Stats(|metrics|, Slope(Jitter(metrics)), Slope(Hid(metrics)),
                           RecentVsBaseline(Jitter(metrics)))
    ensures |metrics| < 2 ==> stats.jitterTrend == stats.hidTrend == 0.0
    ensures |metrics| < 10 ==> stats.recentVsBaseline == 0.0
  {
    var jitter, hid := Jitter(metrics), Hid(metrics);
    if |metrics| < 2 {
      return Stats(|metrics|, 0.0, 0.0, 0.0);
    }
    var xSum := TotalOfIndices(|metrics|);
    var xMean := xSum / |metrics| as real;
    var jitterSum := Total(jitter);
    var jitterNumerator, denominator := Accumulate(jitter, xMean, jitterSum / |metrics| as real);
    var hidSum := Total(hid);
    var hidNumerator, _ := Accumulate(hid, xMean, hidSum / |metrics| as real);
    var jitterTrend := if denominator != 0.0 then jitterNumerator / denominator else 0.0;
    var hidTrend := if denominator != 0.0 then hidNumerator / denominator else 0.0;
    var recentVsBaseline := CompareEnds(jitter);
    return Stats(|metrics|, jitterTrend, hidTrend, recentVsBaseline);
  }

  // ---- Arithmetic ----

  lemma Distribute(f: real, s: real, t: real)
    ensures f * (s + t) == f * s + f * t
  {
  }

  lemma Reorder(f: real, s: real, t: real)
    ensures s * (f * t) == f * (s * t)
  {
  }

  lemma TimesZero(f: real, z: real)
    requires z == 0.0
    ensures f * z == 0.0
  {
  }

  lemma PositiveProduct(a: real, b: real)
    requires a > 0.0 && b > 0.0
    ensures a * b > 0.0
  {
  }

  lemma ProductNonNegative(a: real, b: real)
    requires (a <= 0.0 && b <= 0.0) || (a >= 0.0 && b >= 0.0)
    ensures a * b >= 0.0
  {
  }

  lemma AddPositive(s: real, a: real, b: real)
    requires s >= 0.0 && ((a < 0.0 && b < 0.0) || (a > 0.0 && b > 0.0))
    ensures s + a * b > 0.0
  {
    if a > 0.0 {
      PositiveProduct(a, b);
    } else {
      PositiveProduct(-a, -b);
      assert (-a) * (-b) == a * b;
    }
  }

  lemma Cancel(m: real, a: real, b: real)
    requires m > 0.0 && m * a == m * b
    ensures a == b
  {
  }

  lemma Quotient(s: real, t: real)
    requires t > 0.0
    ensures (s / t) * t == s
    ensures s >= 0.0 ==> s / t >= 0.0
  {
  }

  // ---- Sequences of reals as vectors ----

  function Plus(us: seq<real>, vs: seq<real>): (ws: seq<real>)
    requires |us| == |vs|
    ensures |ws| == |us| && forall i :: 0 <= i < |ws| ==> ws[i] == us[i] + vs[i]
  {
    seq(|us|, i requires 0 <= i < |us| => us[i] + vs[i])
  }

  function Scale(f: real, us: seq<real>): (ws: seq<real>)
    ensures |ws| == |us| && forall i :: 0 <= i < |ws| ==> ws[i] == f * us[i]
  {
    seq(|us|, i requires 0 <= i < |us| => f * us[i])
  }

  function Ones(n: nat): (us: seq<real>)
    ensures |us| == n && forall i :: 0 <= i < n ==> us[i] == 1.0
  {
    seq(n, i => 1.0)
  }

  lemma {:induction false} DotPlus(us: seq<real>, vs: seq<real>, ws: seq<real>, k: nat)
    requires |us| == |vs| == |ws| && k <= |us|
    ensures Dot(us, Plus(vs, ws), k) == Dot(us, vs, k) + Dot(us, ws, k)
  {
    if k > 0 {
      DotPlus(us, vs, ws, k - 1);
      Distribute(us[k - 1], vs[k - 1], ws[k - 1]);
    }
  }

  lemma {:induction false} DotScale(us: seq<real>, f: real, vs: seq<real>, k: nat)
    requires |us| == |vs| && k <= |us|
    ensures Dot(us, Scale(f, vs), k) == f * Dot(us, vs, k)
  {
    if k > 0 {
      DotScale(us, f, vs, k - 1);
      Reorder(f, us[k - 1], vs[k - 1]);
      Distribute(f, Dot(us, vs, k - 1), us[k - 1] * vs[k - 1]);
    } else {
      TimesZero(f, Dot(us, vs, k));
    }
  }

  lemma OrthogonalToScaled(us: seq<real>, f: real, vs: seq<real>, k: nat)
    requires |us| == |vs| && k <= |us| && Dot(us, vs, k) == 0.0
    ensures Dot(us, Scale(f, vs), k) == 0.0
  {
    DotScale(us, f, vs, k);
    TimesZero(f, Dot(us, vs, k));
  }

  lemma {:induction false} DotCommutes(us: seq<real>, vs: seq<real>, k: nat)
    requires k <= |us| && k <= |vs|
    ensures Dot(us, vs, k) == Dot(vs, us, k)
  {
    if k > 0 {
      DotCommutes(us, vs, k - 1);
    }
  }

  lemma {:induction false} DotOnes(us: seq<real>, k: nat)
    requires k <= |us|
    ensures Dot(us, Ones(|us|), k) == Sum(us, k)
  {
    if k > 0 {
      DotOnes(us, k - 1);
    }
  }

  lemma {:induction false} NormNonNegative(us: seq<real>, k: nat)
    requires k <= |us|
    ensures Dot(us, us, k) >= 0.0
  {
    if k > 0 {
      NormNonNegative(us, k - 1);
      ProductNonNegative(us[k - 1], us[k - 1]);
    }
  }

  lemma {:induction false} NormPositive(us: seq<real>, k: nat, i: nat)
    requires i < k <= |us| && us[i] != 0.0
    ensures Dot(us, us, k) > 0.0
  {
    if i < k - 1 {
      NormPositive(us, k - 1, i);
      ProductNonNegative(us[k - 1], us[k - 1]);
    } else {
      NormNonNegative(us, k - 1);
      AddPositive(Dot(us, us, k - 1), us[k - 1], us[k - 1]);
    }
  }

  lemma {:induction false} NormOfZero(us: seq<real>, k: nat)
    requires k <= |us| && forall i :: 0 <= i < k ==> us[i] == 0.0
    ensures Dot(us, us, k) == 0.0
  {
    if k > 0 {
      NormOfZero(us, k - 1);
      TimesZero(us[k - 1], us[k - 1]);
    }
  }

  lemma Pythagoras(rs: seq<real>, us: seq<real>)
    requires |rs| == |us| && Dot(rs, us, |rs|) == 0.0
    ensures Dot(Plus(rs, us), Plus(rs, us), |rs|) == Dot(rs, rs, |rs|) + Dot(us, us, |rs|)
  {
    var es, n := Plus(rs, us), |rs|;
    DotPlus(es, rs, us, n);
    DotCommutes(es, rs, n);
    DotCommutes(es, us, n);
    DotPlus(rs, rs, us, n);
    DotPlus(us, rs, us, n);
    DotCommutes(us, rs, n);
  }

  // ---- Deviations from the mean ----

  lemma {:induction false} SumOfGaps(gs: seq<real>, ys: seq<real>, c: real, k: nat)
    requires |gs| == |ys| && k <= |ys| && forall i :: 0 <= i < |ys| ==> gs[i] == ys[i] - c
    ensures Sum(gs, k) == Sum(ys, k) - c * k as real
  {
    if k > 0 {
      SumOfGaps(gs, ys, c, k - 1);
      Distribute(c, (k - 1) as real, 1.0);
    } else {
      TimesZero(c, k as real);
    }
  }

  lemma GapsCancel(gs: seq<real>, ys: seq<real>, c: real)
    requires ys != [] && |gs| == |ys| && forall i :: 0 <= i < |ys| ==> gs[i] == ys[i] - c
    requires c == Sum(ys, |ys|) / |ys| as real
    ensures Sum(gs, |gs|) == 0.0
  {
    SumOfGaps(gs, ys, c, |ys|);
    Quotient(Sum(ys, |ys|), |ys| as real);
  }

  /** Deviations from the mean cancel. */
  lemma DeviationsCancel(ys: seq<real>)
    requires ys != []
    ensures Sum(Gaps(ys, Mean(ys)), |ys|) == 0.0
  {
    GapsCancel(Gaps(ys, Mean(ys)), ys, Mean(ys));
  }

  lemma {:induction false} SumOfIndices(n: nat, k: nat)
    requires k <= n
    ensures 2.0 * Sum(Indices(n), k) == k as real * (k as real - 1.0)
  {
    if k > 0 {
      SumOfIndices(n, k - 1);
      var m := k as real;
      assert (m - 1.0) * (m - 2.0) + 2.0 * (m - 1.0) == m * (m - 1.0);
    }
  }

  lemma MeanIndex(n: nat)
    requires n > 0
    ensures 2.0 * Mean(Indices(n)) == n as real - 1.0
  {
    SumOfIndices(n, n);
    HalfOf(Sum(Indices(n), n), n as real, Mean(Indices(n)));
  }

  lemma HalfOf(s: real, m: real, x: real)
    requires m > 0.0 && x == s / m && 2.0 * s == m * (m - 1.0)
    ensures 2.0 * x == m - 1.0
  {
    Quotient(s, m);
    assert m * (2.0 * x) == 2.0 * (x * m);
    Cancel(m, 2.0 * x, m - 1.0);
  }

  /** The denominator is positive, so the slope is defined. */
  lemma DenominatorPositive(n: nat)
    requires n >= 2
    ensures Dot(Offsets(n), Offsets(n), n) > 0.0
  {
    MeanIndex(n);
    assert Offsets(n)[0] != 0.0;
    NormPositive(Offsets(n), n, 0);
  }

  // ---- The slope is the least-squares one ----

  /** What the samples deviate from the line a + b * i. */
  function Errors(ys: seq<real>, a: real, b: real): (es: seq<real>)
    ensures |es| == |ys| && forall i :: 0 <= i < |ys| ==> es[i] == ys[i] - (a + b * i as real)
  {
    seq(|ys|, i requires 0 <= i < |ys| => ys[i] - (a + b * i as real))
  }

  function SquaredError(ys: seq<real>, a: real, b: real): real {
    Dot(Errors(ys, a, b), Errors(ys, a, b), |ys|)
  }

  /** The height at index 0 of the line of the given slope through the point of means. */
  function Intercept(ys: seq<real>, b: real): real
    requires ys != []
  {
    Mean(ys) - b * Mean(Indices(|ys|))
  }

  /** The line of height `g` at the mean index and slope `h`. */
  function Line(g: real, h: real, n: nat): (us: seq<real>)
    requires n > 0
    ensures |us| == n
  {
    Plus(Scale(g, Ones(n)), Scale(h, Offsets(n)))
  }

  lemma ErrorsDiffer(y: real, i: real, x: real, a: real, b: real, a': real, b': real, g: real, h: real)
    requires h == b' - b && g == (a' - a) + h * x
    ensures y - (a + b * i) == (y - (a' + b' * i)) + (g * 1.0 + h * (i - x))
  {
    Distribute(h, i, -x);
    assert h * (-x) == -(h * x);
    assert h * i == b' * i - b * i;
  }

  lemma ErrorAt(ys: seq<real>, a: real, b: real, a': real, b': real, x: real, g: real, h: real, i: nat)
    requires i < |ys| && x == Mean(Indices(|ys|))
    requires h == b' - b && g == (a' - a) + h * x
    ensures Errors(ys, a, b)[i] == Errors(ys, a', b')[i] + Line(g, h, |ys|)[i]
  {
    ErrorsDiffer(ys[i], i as real, x, a, b, a', b', g, h);
  }

  /** The errors of one line are those of another and the distance of the two lines. */
  lemma LinesApart(ys: seq<real>, a: real, b: real, a': real, b': real, x: real, g: real, h: real)
    requires ys != [] && x == Mean(Indices(|ys|))
    requires h == b' - b && g == (a' - a) + h * x
    ensures Errors(ys, a, b) == Plus(Errors(ys, a', b'), Line(g, h, |ys|))
  {
    forall i | 0 <= i < |ys|
      ensures Errors(ys, a, b)[i] == Errors(ys, a', b')[i] + Line(g, h, |ys|)[i]
    {
      ErrorAt(ys, a, b, a', b', x, g, h, i);
    }
  }

  /** The deviations from the mean sample, as errors of a line through the means and its rise. */
  lemma GapsThroughMeans(ys: seq<real>, m: real)
    requires ys != []
    ensures Gaps(ys, Mean(ys)) == Plus(Errors(ys, Intercept(ys, m), m), Scale(m, Offsets(|ys|)))
  {
    var x := Mean(Indices(|ys|));
    forall i | 0 <= i < |ys|
      ensures Gaps(ys, Mean(ys))[i]
           == Plus(Errors(ys, Intercept(ys, m), m), Scale(m, Offsets(|ys|)))[i]
    {
      Distribute(m, i as real, -x);
      assert m * (-x) == -(m * x);
    }
  }

  /** The rise of the best line accounts for all that the samples share with the indices. */
  lemma SlopeTimes(ys: seq<real>)
    requires |ys| >= 2
    ensures var n, ds := |ys|, Offsets(|ys|);
      Dot(ds, Scale(Slope(ys), ds), n) == Dot(ds, Gaps(ys, Mean(ys)), n)
  {
    SlopeIsQuotient(ys);
    DotScale(Offsets(|ys|), Slope(ys), Offsets(|ys|), |ys|);
  }

  lemma SlopeIsQuotient(ys: seq<real>)
    requires |ys| >= 2
    ensures var n, ds := |ys|, Offsets(|ys|);
      Slope(ys) * Dot(ds, ds, n) == Dot(ds, Gaps(ys, Mean(ys)), n)
  {
    var n, ds := |ys|, Offsets(|ys|);
    DenominatorPositive(n);
    Quotient(Dot(ds, Gaps(ys, Mean(ys)), n), Dot(ds, ds, n));
  }

  /** The errors of the best line cancel, also when weighted with the indices. */
  lemma BestIsBalanced(ys: seq<real>)
    requires |ys| >= 2
    ensures var m, n := Slope(ys), |ys|;
      && Dot(Errors(ys, Intercept(ys, m), m), Ones(n), n) == 0.0
      && Dot(Errors(ys, Intercept(ys, m), m), Offsets(n), n) == 0.0
  {
    var m, n, ds, gs := Slope(ys), |ys|, Offsets(|ys|), Gaps(ys, Mean(ys));
    var rs := Errors(ys, Intercept(ys, m), m);
    GapsThroughMeans(ys, m);
    DeviationsCancel(ys);
    DeviationsCancel(Indices(n));
    SlopeTimes(ys);
    Balanced(gs, rs, Scale(m, ds), ds, m);
  }

  lemma Balanced(gs: seq<real>, rs: seq<real>, hs: seq<real>, ds: seq<real>, m: real)
    requires |rs| == |hs| == |ds| && gs == Plus(rs, hs) && hs == Scale(m, ds)
    requires Sum(gs, |rs|) == 0.0 && Sum(ds, |rs|) == 0.0 && Dot(ds, hs, |rs|) == Dot(ds, gs, |rs|)
    ensures Dot(rs, Ones(|rs|), |rs|) == 0.0 && Dot(rs, ds, |rs|) == 0.0
  {
    var n := |rs|;
    DotPlus(ds, rs, hs, n);
    DotCommutes(ds, rs, n);
    DotOnes(gs, n);
    DotOnes(ds, n);
    DotPlus(Ones(n), rs, hs, n);
    DotCommutes(Ones(n), gs, n);
    DotCommutes(Ones(n), rs, n);
    DotCommutes(Ones(n), ds, n);
    OrthogonalToScaled(Ones(n), m, ds, n);
  }

  /** The errors of the best line are orthogonal to every line. */
  lemma BestIsOrthogonal(ys: seq<real>, g: real, h: real)
    requires |ys| >= 2
    ensures Dot(Errors(ys, Intercept(ys, Slope(ys)), Slope(ys)), Line(g, h, |ys|), |ys|) == 0.0
  {
    BestIsBalanced(ys);
    OrthogonalToLine(Errors(ys, Intercept(ys, Slope(ys)), Slope(ys)), g, h);
  }

  lemma OrthogonalToLine(rs: seq<real>, g: real, h: real)
    requires rs != [] && Dot(rs, Ones(|rs|), |rs|) == 0.0 && Dot(rs, Offsets(|rs|), |rs|) == 0.0
    ensures Dot(rs, Line(g, h, |rs|), |rs|) == 0.0
  {
    var n := |rs|;
    OrthogonalToScaled(rs, g, Ones(n), n);
    OrthogonalToScaled(rs, h, Offsets(n), n);
    DotPlus(rs, Scale(g, Ones(n)), Scale(h, Offsets(n)), n);
  }

  /** How much worse than the best line another line is, exactly. */
  lemma ErrorsDecompose(ys: seq<real>, a: real, b: real, x: real, g: real, h: real)
    requires |ys| >= 2 && x == Mean(Indices(|ys|))
    requires h == Slope(ys) - b && g == (Intercept(ys, Slope(ys)) - a) + h * x
    ensures var m, us := Slope(ys), Line(g, h, |ys|);
      SquaredError(ys, a, b) == SquaredError(ys, Intercept(ys, m), m) + Dot(us, us, |ys|)
  {
    var m := Slope(ys);
    LinesApart(ys, a, b, Intercept(ys, m), m, x, g, h);
    BestIsOrthogonal(ys, g, h);
    Pythagoras(Errors(ys, Intercept(ys, m), m), Line(g, h, |ys|));
  }

  /** The squares of a line add up to zero exactly when its height and its slope are zero. */
  lemma NormOfLine(g: real, h: real, n: nat)
    requires n >= 2
    ensures var us := Line(g, h, n);
      && Dot(us, us, n) >= 0.0
      && (g == 0.0 && h == 0.0 ==> Dot(us, us, n) == 0.0)
      && (g != 0.0 || h != 0.0 ==> Dot(us, us, n) > 0.0)
  {
    var ds, us := Offsets(n), Line(g, h, n);
    NormNonNegative(us, n);
    LineAt(g, h, ds[0], us[0]);
    LineAt(g, h, ds[1], us[1]);
    Distribute(h, ds[0], 1.0);
    if us[0] != 0.0 {
      NormPositive(us, n, 0);
    } else if us[1] != 0.0 {
      NormPositive(us, n, 1);
    }
    if g == 0.0 && h == 0.0 {
      forall i | 0 <= i < n ensures us[i] == 0.0 {
        LineAt(g, h, ds[i], us[i]);
      }
      NormOfZero(us, n);
    }
  }

  lemma LineAt(g: real, h: real, d: real, u: real)
    requires u == g * 1.0 + h * d
    ensures u == g + h * d && (h == 0.0 ==> u == g)
  {
    if h == 0.0 {
      TimesZero(d, h);
    }
  }

  /** No line has a smaller sum of squared errors, and no other line has the same. */
  lemma SlopeIsLeastSquares(ys: seq<real>, a: real, b: real)
    requires |ys| >= 2
    ensures var m := Slope(ys);
      && SquaredError(ys, Intercept(ys, m), m) <= SquaredError(ys, a, b)
      && (SquaredError(ys, a, b) == SquaredError(ys, Intercept(ys, m), m)
          <==> b == m && a == Intercept(ys, m))
  {
    var m, x := Slope(ys), Mean(Indices(|ys|));
    var h := m - b;
    var g := (Intercept(ys, m) - a) + h * x;
    ErrorsDecompose(ys, a, b, x, g, h);
    NormOfLine(g, h, |ys|);
    if h == 0.0 {
      TimesZero(x, h);
    }
  }

  /** Samples that lie on a line have the slope of that line. */
  lemma SlopeOfLine(ys: seq<real>, a: real, b: real)
    requires |ys| >= 2 && forall i :: 0 <= i < |ys| ==> ys[i] == a + b * i as real
    ensures Slope(ys) == b
  {
    var m := Slope(ys);
    NormOfZero(Errors(ys, a, b), |ys|);
    NormNonNegative(Errors(ys, Intercept(ys, m), m), |ys|);
    SlopeIsLeastSquares(ys, a, b);
  }

  // ---- Recent samples against the first ones ----

  predicate Compares(r: real, recent: real, baseline: real) {
    && (baseline != 0.0 ==> recent == baseline + r * baseline)
    && (r > 0.0 <==> (baseline > 0.0 && recent > baseline) || (baseline < 0.0 && recent < baseline))
    && (r == 0.0 <==> baseline == 0.0 || recent == baseline)
  }

  /** The comparison is the relative change from the first five samples to the last five: positive for
      a change away from zero, and zero only if there is nothing to compare, or no change. */
  lemma RelativeChange(ys: seq<real>)
    ensures if |ys| < 10 then RecentVsBaseline(ys) == 0.0
            else Compares(RecentVsBaseline(ys), Mean(ys[|ys| - 5..]), Mean(ys[..5]))
  {
    if |ys| >= 10 {
      ChangeCompares(Mean(ys[|ys| - 5..]), Mean(ys[..5]));
    }
  }

  lemma ChangeCompares(recent: real, baseline: real)
    ensures Compares(if baseline != 0.0 then (recent - baseline) / baseline else 0.0, recent, baseline)
  {
    if baseline > 0.0 {
      QuotientSign(recent - baseline, baseline);
    } else if baseline < 0.0 {
      QuotientSign(baseline - recent, -baseline);
      NegatedQuotient(recent - baseline, baseline);
    }
  }

  lemma QuotientSign(s: real, t: real)
    requires t > 0.0
    ensures (s / t) * t == s
    ensures (s / t > 0.0 <==> s > 0.0) && (s / t == 0.0 <==> s == 0.0)
  {
  }

  lemma NegatedQuotient(s: real, t: real)
    requires t < 0.0
    ensures s / t == (-s) / (-t)
  {
  }

  // ---- The sign of the trend ----

  predicate SameSigns(us: seq<real>, vs: seq<real>) {
    && |us| == |vs|
    && forall i :: 0 <= i < |us| ==> (us[i] <= 0.0 && vs[i] <= 0.0) || (us[i] >= 0.0 && vs[i] >= 0.0)
  }

  lemma {:induction false} DotNonNegative(us: seq<real>, vs: seq<real>, k: nat)
    requires SameSigns(us, vs) && k <= |us|
    ensures Dot(us, vs, k) >= 0.0
  {
    if k > 0 {
      DotNonNegative(us, vs, k - 1);
      ProductNonNegative(us[k - 1], vs[k - 1]);
    }
  }

  /** Deviations from any value do as well as those from the mean, against deviations that cancel. */
  lemma ShiftedDot(es: seq<real>, rs: seq<real>, s: real, ds: seq<real>)
    requires |es| == |rs| == |ds| && forall i :: 0 <= i < |es| ==> es[i] == rs[i] + s
    requires Sum(ds, |es|) == 0.0
    ensures Dot(ds, es, |es|) == Dot(ds, rs, |es|)
  {
    var n := |es|;
    assert es == Plus(rs, Scale(s, Ones(n)));
    DotOnes(ds, n);
    OrthogonalToScaled(ds, s, Ones(n), n);
    DotPlus(ds, rs, Scale(s, Ones(n)), n);
  }

  /** Samples that never decrease have a trend that is not negative. */
  lemma NondecreasingTrend(ys: seq<real>)
    requires forall i, j :: 0 <= i < j < |ys| ==> ys[i] <= ys[j]
    ensures Slope(ys) >= 0.0
  {
    var n := |ys|;
    if n >= 2 {
      var ds, mid := Offsets(n), ys[(n - 1) / 2];
      MeanIndex(n);
      DeviationsCancel(Indices(n));
      DenominatorPositive(n);
      assert SameSigns(ds, Gaps(ys, mid));
      DotNonNegative(ds, Gaps(ys, mid), n);
      ShiftedDot(Gaps(ys, mid), Gaps(ys, Mean(ys)), Mean(ys) - mid, ds);
      Quotient(Dot(ds, Gaps(ys, Mean(ys)), n), Dot(ds, ds, n));
    }
  }
}
