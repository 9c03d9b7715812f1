/** The sliding-window frequency statistics of the hz command, over the reals. */
module FrequencyStats {

  // ----- the window -----

  function LastN(s: seq<real>, n: nat): seq<real> {
    if |s| <= n then s else s[|s| - n..]
  }

  /** Larger than everything before it. */
  predicate IsRecord(ts: seq<real>, t: real) {
    forall i :: 0 <= i < |ts| ==> ts[i] < t
  }

  /** The timestamps that set a record, in order of arrival. */
  function Records(ts: seq<real>): seq<real> {
    if ts == [] then []
    else
      var before := ts[..|ts| - 1];
      var t := ts[|ts| - 1];
      Records(before) + (if IsRecord(before, t) then [t] else [])
  }

  function Add(deque: seq<real>, window: nat, t: real): seq<real> {
    if deque != [] && t <= deque[|deque| - 1] then deque else LastN(deque + [t], window)
  }

  function Run(ts: seq<real>, window: nat): seq<real> {
    if ts == [] then [] else Add(Run(ts[..|ts| - 1], window), window, ts[|ts| - 1])
  }

  predicate Increasing(s: seq<real>) {
    forall i, j :: 0 <= i < j < |s| ==> s[i] < s[j]
  }

  /** The last record is the maximum. */
  lemma {:induction false} RecordsIncrease(ts: seq<real>)
    ensures Increasing(Records(ts))
    ensures ts != [] ==> Records(ts) != [] && forall i :: 0 <= i < |ts| ==> ts[i] <= Records(ts)[|Records(ts)| - 1]
    ensures forall i :: 0 <= i < |Records(ts)| ==> Records(ts)[i] in ts
  {
    if ts != [] {
      var before, t := ts[..|ts| - 1], ts[|ts| - 1];
      RecordsIncrease(before);
      assert ts == before + [t];
      var r := Records(before);
      if IsRecord(before, t) {
        forall i | 0 <= i < |r| ensures r[i] < t {
          var k :| 0 <= k < |before| && before[k] == r[i];
        }
      } else {
        var k :| 0 <= k < |before| && before[k] >= t;
        assert t <= r[|r| - 1];
      }
    }
  }

  lemma LastNSnoc(r: seq<real>, window: nat, t: real)
    ensures LastN(LastN(r, window) + [t], window) == LastN(r + [t], window)
  {
    if |r| > window {
      assert (r[|r| - window..] + [t])[1..] == (r + [t])[|r| + 1 - window..];
    }
  }

  lemma AddIsWindow(r: seq<real>, window: nat, t: real)
    ensures Add(LastN(r, window), window, t) == LastN(if r == [] || r[|r| - 1] < t then r + [t] else r, window)
  {
    var w := LastN(r, window);
    if window == 0 {
      assert w == [];
    } else if r != [] {
      assert w[|w| - 1] == r[|r| - 1];
    }
    LastNSnoc(r, window, t);
  }

  /** The deque is the window over the records, for every run and every window size. */
  lemma {:induction false} RunIsWindowOfRecords(ts: seq<real>, window: nat)
    ensures Run(ts, window) == LastN(Records(ts), window)
  {
    hide Add, LastN, IsRecord;
    if ts != [] {
      var before, t := ts[..|ts| - 1], ts[|ts| - 1];
      RunIsWindowOfRecords(before, window);
      AddIsWindow(Records(before), window, t);
      if before != [] {
        RecordIffAboveLast(before, t);
      } else {
        NoneBefore(before, t);
      }
      assert Records(ts) == Records(before) + (if IsRecord(before, t) then [t] else []);
      assert Records(before) + [] == Records(before);
    } else {
      EmptyWindow(window);
    }
  }

  lemma EmptyWindow(window: nat)
    ensures LastN([], window) == []
  {
  }

  lemma NoneBefore(ts: seq<real>, t: real)
    ensures ts == [] ==> IsRecord(ts, t) && Records(ts) == []
  {
  }

  lemma RecordIffAboveLast(ts: seq<real>, t: real)
    requires ts != []
    ensures Records(ts) != [] && (IsRecord(ts, t) <==> Records(ts)[|Records(ts)| - 1] < t)
  {
    RecordsIncrease(ts);
    var last := Records(ts)[|Records(ts)| - 1];
    assert last in ts;
    var k :| 0 <= k < |ts| && ts[k] == last;
  }

  // ----- the statistics -----

  function Gaps(s: seq<real>): seq<real> {
    if |s| < 2 then [] else [s[1] - s[0]] + Gaps(s[1..])
  }

  function Sum(xs: seq<real>): real {
    if xs == [] then 0.0 else Sum(xs[..|xs| - 1]) + xs[|xs| - 1]
  }

  function SumSquares(xs: seq<real>, a: real): real {
    if xs == [] then 0.0
    else SumSquares(xs[..|xs| - 1], a) + Square(xs[|xs| - 1] - a)
  }

  function Square(x: real): real { x * x }

  predicate Between(xs: seq<real>, lo: real, hi: real) {
    forall i :: 0 <= i < |xs| ==> lo <= xs[i] <= hi
  }

  lemma {:induction false} SumBounds(xs: seq<real>, lo: real, hi: real)
    requires Between(xs, lo, hi)
    ensures lo * |xs| as real <= Sum(xs) <= hi * |xs| as real
  {
    if xs != [] {
      SumBounds(xs[..|xs| - 1], lo, hi);
      OneMore(lo, |xs|);
      OneMore(hi, |xs|);
    }
  }

  lemma OneMore(k: real, n: nat)
    requires n > 0
    ensures k * n as real == k * (n - 1) as real + k
  {
    assert n as real == (n - 1) as real + 1.0;
  }

  /** If each square lies below a line, so does their sum. */
  lemma {:induction false} SquaresBelowLine(xs: seq<real>, a: real, u: real, v: real)
    requires forall i :: 0 <= i < |xs| ==> Square(xs[i] - a) <= Line(u, v, xs[i])
    ensures SumSquares(xs, a) <= u * Sum(xs) + v * |xs| as real
  {
    hide Square, Line;
    if xs != [] {
      var ys, x := xs[..|xs| - 1], xs[|xs| - 1];
      SquaresBelowLine(ys, a, u, v);
      LineStep(u, v, Sum(ys), x, |xs|);
    }
  }

  function Line(u: real, v: real, x: real): real { u * x + v }

  lemma LineStep(u: real, v: real, sum: real, x: real, n: nat)
    requires n > 0
    ensures u * (sum + x) + v * n as real == u * sum + v * (n - 1) as real + Line(u, v, x)
  {
    OneMore(v, n);
  }

  /** The inequality of Bhatia and Davis: squares around a are bounded by a line through the extremes. */
  lemma SquaresBounded(xs: seq<real>, lo: real, hi: real, a: real)
    requires Between(xs, lo, hi)
    ensures SumSquares(xs, a) <= (hi + lo - 2.0 * a) * Sum(xs) + (a * a - hi * lo) * |xs| as real
  {
    hide Square, Line, SumSquares, Sum;
    forall i | 0 <= i < |xs|
      ensures Square(xs[i] - a) <= Line(hi + lo - 2.0 * a, a * a - hi * lo, xs[i])
    {
      OneSquare(xs[i], lo, hi, a);
    }
    SquaresBelowLine(xs, a, hi + lo - 2.0 * a, a * a - hi * lo);
  }

  lemma OneSquare(x: real, lo: real, hi: real, a: real)
    requires lo <= x <= hi
    ensures Square(x - a) <= Line(hi + lo - 2.0 * a, a * a - hi * lo, x)
  {
    NonNegative(hi - x, x - lo);
    Expand(hi, -x, x, -lo);
    Expand(x, -a, x, -a);
    Expand(hi + lo, -2.0 * a, x, 0.0);
    Expand(hi, lo, x, 0.0);
    Signs(x, x);
    Signs(x, lo);
    Signs(a, x);
    Signs(a, a);
    Signs(hi, lo);
  }

  lemma NonNegative(a: real, b: real)
    requires a >= 0.0 && b >= 0.0
    ensures a * b >= 0.0
  {
  }

  lemma Expand(a: real, b: real, c: real, d: real)
    ensures (a + b) * (c + d) == a * c + a * d + b * c + b * d
  {
  }

  lemma Signs(a: real, b: real)
    ensures -a * b == -(a * b) && a * -b == -(a * b) && -a * -b == a * b && a * b == b * a
    ensures -2.0 * a * b == -2.0 * (a * b)
  {
  }

  lemma {:induction false} GapsSum(s: seq<real>)
    requires |s| >= 1
    ensures |Gaps(s)| == |s| - 1
    ensures Sum(Gaps(s)) == s[|s| - 1] - s[0]
  {
    if |s| >= 2 {
      GapsSum(s[1..]);
      SumCons(s[1] - s[0], Gaps(s[1..]));
    }
  }

  lemma {:induction false} SumCons(x: real, xs: seq<real>)
    ensures Sum([x] + xs) == x + Sum(xs)
  {
    if xs == [] {
      assert [x] + xs == [x];
      assert Sum([x]) == Sum([]) + x;
    } else {
      SumCons(x, xs[..|xs| - 1]);
      assert ([x] + xs)[..|xs|] == [x] + xs[..|xs| - 1];
    }
  }

  lemma {:induction false} GapAt(s: seq<real>, i: nat)
    requires i + 1 < |s|
    ensures |Gaps(s)| == |s| - 1 && Gaps(s)[i] == s[i + 1] - s[i]
  {
    GapsSum(s);
    if i > 0 {
      GapAt(s[1..], i - 1);
    }
  }

  // ----- the class -----

  datatype Stats = Stats(avgHz: real, minHz: real, maxHz: real, varianceHz: real, window: nat)

  function MinOf(xs: seq<real>): (m: real)
    requires xs != []
    ensures forall i :: 0 <= i < |xs| ==> m <= xs[i]
    ensures m in xs
  {
    if |xs| == 1 then xs[0]
    else
      var before, x := MinOf(xs[..|xs| - 1]), xs[|xs| - 1];
      if x < before then x else before
  }

  function MaxOf(xs: seq<real>): (m: real)
    requires xs != []
    ensures forall i :: 0 <= i < |xs| ==> xs[i] <= m
    ensures m in xs
  {
    if |xs| == 1 then xs[0]
    else
      var before, x := MaxOf(xs[..|xs| - 1]), xs[|xs| - 1];
      if before < x then x else before
  }

  function Mean(xs: seq<real>): real
    requires xs != []
  {
    Sum(xs) / |xs| as real
  }

  function Variance(xs: seq<real>): real
    requires xs != []
  {
    SumSquares(xs, Mean(xs)) / |xs| as real
  }

  class FrequencyStats {
    var timestamps: seq<real>
    const windowSize: nat

    /** Everything ever passed to AddTimestamp. */
    ghost var arrived: seq<real>

    ghost predicate Valid()
      reads this
    {
      timestamps == Run(arrived, windowSize)
    }

    constructor (windowSize: nat)
      ensures Valid() && arrived == [] && this.windowSize == windowSize
    {
      this.windowSize := windowSize;
      timestamps := [];
      arrived := [];
    }

    method AddTimestamp(t: real)
      requires Valid()
      modifies this
      ensures Valid() && arrived == old(arrived) + [t]
      ensures timestamps == LastN(Records(old(arrived) + [t]), windowSize)
    {
      arrived := arrived + [t];
      assert arrived[..|arrived| - 1] == old(arrived);
      RunIsWindowOfRecords(arrived, windowSize);
      if timestamps != [] && t <= timestamps[|timestamps| - 1] {
        return;
      }
      timestamps := timestamps + [t];
      ghost var all := timestamps;
      while |timestamps| > windowSize
        invariant LastN(all, windowSize) == LastN(timestamps, windowSize)
        invariant arrived == old(arrived) + [t]
      {
        timestamps := timestamps[1..];
      }
    }

    method Calculate() returns (result: Stats)
      requires Valid()
      ensures |timestamps| < 2 ==> result == Stats(0.0, 0.0, 0.0, 0.0, 0)
      ensures |timestamps| >= 2 ==> Describes(result, timestamps)
    {
      hide *;
      if |timestamps| < 2 {
        return Stats(0.0, 0.0, 0.0, 0.0, 0);
      }
      assert Increasing(timestamps) by { StillIncreases(); }
      result := Summarize(timestamps);
    }

    lemma StillIncreases()
      requires Valid()
      ensures Increasing(timestamps)
    {
      WindowIncreases(arrived, windowSize);
    }
  }

  method Summarize(timestamps: seq<real>) returns (result: Stats)
    requires |timestamps| >= 2 && Increasing(timestamps)
    ensures Describes(result, timestamps)
  {
    hide Increasing, Gaps, MinOf, MaxOf, Sum, SumSquares;
    // The source returns zeros if no interval is left; the contract of Intervals rules that out.
    var intervals := Intervals(timestamps);
    var sum, min, max := Extremes(intervals);
    var avg := sum / |intervals| as real;
    var sumSqDiff := SquareDeviations(intervals, avg);
    var variance := sumSqDiff / |intervals| as real;
    AverageBounds(intervals);
    var hz := 1.0 / avg;
    result := Stats(hz, 1.0 / max, 1.0 / min, Scaled(variance, hz), |timestamps|);
  }

  /** The square of stddev_interval * avg_hz * avg_hz. */
  function Scaled(variance: real, hz: real): real {
    ByRate(ByRate(variance, hz * hz), hz * hz)
  }

  function ByRate(x: real, h: real): real { x * h }

  method SquareDeviations(intervals: seq<real>, avg: real) returns (sumSqDiff: real)
    ensures sumSqDiff == SumSquares(intervals, avg)
  {
    sumSqDiff := 0.0;
    for i := 0 to |intervals|
      invariant sumSqDiff == SumSquares(intervals[..i], avg)
    {
      assert intervals[..i + 1][..i] == intervals[..i];
      var diff := intervals[i] - avg;
      sumSqDiff := sumSqDiff + Square(diff);
    }
    assert intervals[..|intervals|] == intervals;
  }

  /** The intervals of the code: consecutive differences; a non-positive one would be dropped. */
  method Intervals(timestamps: seq<real>) returns (intervals: seq<real>)
    requires |timestamps| >= 2 && Increasing(timestamps)
    ensures intervals == Gaps(timestamps)
    ensures intervals != [] && forall i :: 0 <= i < |intervals| ==> intervals[i] > 0.0
  {
    intervals := [];
    for i := 1 to |timestamps|
      invariant |intervals| == i - 1
      invariant forall k :: 0 <= k < i - 1 ==> intervals[k] == timestamps[k + 1] - timestamps[k]
      invariant forall k :: 0 <= k < |intervals| ==> intervals[k] > 0.0
    {
      var interval := timestamps[i] - timestamps[i - 1];
      if interval > 0.0 {
        intervals := intervals + [interval];
      }
    }
    GapsSum(timestamps);
    forall k | 0 <= k < |intervals| ensures intervals[k] == Gaps(timestamps)[k] {
      GapAt(timestamps, k);
    }
  }

  method Extremes(intervals: seq<real>) returns (sum: real, min: real, max: real)
    requires intervals != []
    ensures sum == Sum(intervals) && min == MinOf(intervals) && max == MaxOf(intervals)
  {
    sum, min, max := 0.0, intervals[0], intervals[0];
    for i := 0 to |intervals|
      invariant sum == Sum(intervals[..i])
      invariant i == 0 ==> min == max == intervals[0]
      invariant i > 0 ==> min == MinOf(intervals[..i]) && max == MaxOf(intervals[..i])
    {
      assert intervals[..i + 1][..i] == intervals[..i];
      sum := sum + intervals[i];
      if intervals[i] < min {
        min := intervals[i];
      }
      if max < intervals[i] {
        max := intervals[i];
      }
    }
    assert intervals[..|intervals|] == intervals;
  }

  /** Reciprocals of the mean and of the extremes of the gaps; the deviation squared instead of its root. */
  ghost predicate Describes(r: Stats, s: seq<real>)
    requires |s| >= 2
  {
    var gaps := Gaps(s);
    && gaps != [] && MinOf(gaps) > 0.0 && Mean(gaps) > 0.0 && MaxOf(gaps) > 0.0
    && r == Stats(1.0 / Mean(gaps), 1.0 / MaxOf(gaps), 1.0 / MinOf(gaps), Scaled(Variance(gaps), 1.0 / Mean(gaps)), |s|)
  }

  lemma WindowIncreases(arrived: seq<real>, window: nat)
    ensures Increasing(Run(arrived, window))
  {
    hide Run, Records, IsRecord;
    RunIsWindowOfRecords(arrived, window);
    RecordsIncrease(arrived);
  }

  lemma Cancel(a: real, b: real, n: real)
    requires n > 0.0 && a * n <= b * n
    ensures a <= b
  {
  }

  lemma AverageBounds(xs: seq<real>)
    requires xs != []
    ensures MinOf(xs) <= Mean(xs) <= MaxOf(xs) && Sum(xs) == Mean(xs) * |xs| as real
  {
    hide MinOf, MaxOf, Sum;
    SumBounds(xs, MinOf(xs), MaxOf(xs));
    QuotientBetween(Sum(xs), |xs| as real, MinOf(xs), MaxOf(xs), Mean(xs));
  }

  lemma QuotientBetween(sum: real, n: real, lo: real, hi: real, q: real)
    requires n > 0.0 && q == sum / n && lo * n <= sum <= hi * n
    ensures lo <= q <= hi && sum == q * n
  {
    assert q * n == sum;
    Cancel(lo, q, n);
    Cancel(q, hi, n);
  }

  /** No interval of a window of increasing timestamps is dropped: they add up to its whole span, the
      average rate lies between the extreme rates, and the variance of the intervals is at most
      (max - avg) * (avg - min). */
  lemma WindowStatistics(s: seq<real>, r: Stats)
    requires |s| >= 2 && Increasing(s) && Describes(r, s)
    ensures var gaps := Gaps(s);
            && |gaps| == |s| - 1 && Sum(gaps) == s[|s| - 1] - s[0]
            && r.avgHz * (s[|s| - 1] - s[0]) == |gaps| as real
            && 0.0 < r.minHz <= r.avgHz <= r.maxHz
            && Variance(gaps) <= (MaxOf(gaps) - Mean(gaps)) * (Mean(gaps) - MinOf(gaps))
  {
    hide MinOf, MaxOf, Mean, Variance, Gaps, Sum, Scaled;
    GapsSum(s);
    WindowRates(s, r);
    WindowVariance(Gaps(s));
  }

  lemma WindowVariance(gaps: seq<real>)
    requires gaps != []
    ensures Variance(gaps) <= (MaxOf(gaps) - Mean(gaps)) * (Mean(gaps) - MinOf(gaps))
  {
    hide MinOf, MaxOf, Mean, Variance, Sum;
    AverageBounds(gaps);
    VarianceBound(gaps, MinOf(gaps), MaxOf(gaps), Mean(gaps));
  }

  lemma WindowRates(s: seq<real>, r: Stats)
    requires |s| >= 2 && Describes(r, s)
    ensures r.avgHz * (s[|s| - 1] - s[0]) == |Gaps(s)| as real && 0.0 < r.minHz <= r.avgHz <= r.maxHz
  {
    hide MinOf, MaxOf, Mean, Variance, Gaps, Sum, Scaled;
    var gaps := Gaps(s);
    GapsSum(s);
    AverageBounds(gaps);
    RatesOrdered(r, MinOf(gaps), Mean(gaps), MaxOf(gaps), |gaps| as real, s[|s| - 1] - s[0]);
  }

  lemma RatesOrdered(r: Stats, lo: real, avg: real, hi: real, n: real, span: real)
    requires 0.0 < lo <= avg <= hi && span == avg * n
    requires r.avgHz == 1.0 / avg && r.minHz == 1.0 / hi && r.maxHz == 1.0 / lo
    ensures 0.0 < r.minHz <= r.avgHz <= r.maxHz && r.avgHz * span == n
  {
    Reciprocals(lo, avg, hi);
    Inverse(avg, n);
  }

  function SumOfSquares(xs: seq<real>): real {
    if xs == [] then 0.0 else SumOfSquares(xs[..|xs| - 1]) + xs[|xs| - 1] * xs[|xs| - 1]
  }

  lemma SquareOf(x: real, a: real)
    ensures Square(x - a) == x * x - 2.0 * (a * x) + a * a
  {
    Expand(x, -a, x, -a);
    Signs(x, a);
    Signs(a, x);
    Signs(a, a);
  }

  /** Deviations from a, from the squares themselves. */
  lemma {:induction false} SumSquaresIs(xs: seq<real>, a: real)
    ensures SumSquares(xs, a) == SumOfSquares(xs) - 2.0 * (a * Sum(xs)) + a * a * |xs| as real
  {
    hide Square;
    if xs != [] {
      var ys, x := xs[..|xs| - 1], xs[|xs| - 1];
      SumSquaresIs(ys, a);
      SquareOf(x, a);
      Expand(a, 0.0, Sum(ys), x);
      OneMore(a * a, |xs|);
    }
  }

  /** The variance of the intervals is the mean of their squares less the square of their mean. */
  lemma VarianceIs(xs: seq<real>)
    requires xs != []
    ensures Variance(xs) * |xs| as real == SumOfSquares(xs) - Mean(xs) * Mean(xs) * |xs| as real
    ensures Mean(xs) * |xs| as real == Sum(xs)
  {
    hide SumSquares, SumOfSquares, Sum;
    var n, a := |xs| as real, Mean(xs);
    SumSquaresIs(xs, a);
    assert a * n == Sum(xs) by { Divided(Sum(xs), n); }
    assert Variance(xs) * n == SumSquares(xs, a) by { Divided(SumSquares(xs, a), n); }
    Triple(a, n);
  }

  lemma Divided(x: real, n: real)
    requires n > 0.0
    ensures x / n * n == x
  {
  }

  lemma Triple(a: real, n: real)
    ensures a * (a * n) == a * a * n
  {
  }

  /** At this rate no interval would be longer than one period, and one is exactly that. */
  ghost predicate IsLeastRate(hz: real, gaps: seq<real>) {
    (forall i :: 0 <= i < |gaps| ==> hz * gaps[i] <= 1.0) && exists i :: 0 <= i < |gaps| && hz * gaps[i] == 1.0
  }

  ghost predicate IsGreatestRate(hz: real, gaps: seq<real>) {
    (forall i :: 0 <= i < |gaps| ==> 1.0 <= hz * gaps[i]) && exists i :: 0 <= i < |gaps| && hz * gaps[i] == 1.0
  }

  /** The least rate is that of the longest interval, the greatest that of the shortest. */
  lemma RatesExactly(s: seq<real>, r: Stats)
    requires |s| >= 2 && Describes(r, s)
    ensures var gaps := Gaps(s);
            IsLeastRate(r.minHz, gaps) && IsGreatestRate(r.maxHz, gaps) && r.window == |s|
  {
    hide *;
    Fields(s, r);
    var gaps := Gaps(s);
    LeastRate(gaps, r.minHz);
    GreatestRate(gaps, r.maxHz);
  }

  /** The mean rate is that of the mean interval, and the deviation of the rate is that of the intervals times the
      square of the mean rate. */
  lemma DeviationExactly(s: seq<real>, r: Stats)
    requires |s| >= 2 && Describes(r, s)
    ensures var avg := Mean(Gaps(s));
            r.avgHz * avg == 1.0 && r.varianceHz * Square(Square(avg)) == Variance(Gaps(s))
  {
    hide Gaps, MinOf, MaxOf, Mean, Variance, Scaled, Square;
    var gaps := Gaps(s);
    RateOf(Mean(gaps), Mean(gaps));
    ScaledBack(Variance(gaps), r.avgHz, Mean(gaps));
  }

  lemma Fields(s: seq<real>, r: Stats)
    requires |s| >= 2 && Describes(r, s)
    ensures var gaps := Gaps(s);
            && gaps != [] && MinOf(gaps) > 0.0 && MaxOf(gaps) > 0.0
            && r.minHz == 1.0 / MaxOf(gaps) && r.maxHz == 1.0 / MinOf(gaps) && r.window == |s|
  {
    hide Gaps, MinOf, MaxOf, Mean, Variance, Scaled;
  }

  lemma LeastRate(gaps: seq<real>, hz: real)
    requires gaps != [] && MaxOf(gaps) > 0.0 && hz == 1.0 / MaxOf(gaps)
    ensures IsLeastRate(hz, gaps)
  {
    hide MaxOf;
    var hi := MaxOf(gaps);
    forall i | 0 <= i < |gaps| ensures hz * gaps[i] <= 1.0 {
      RateOf(gaps[i], hi);
    }
    var i :| 0 <= i < |gaps| && gaps[i] == hi;
    RateOf(gaps[i], hi);
  }

  lemma GreatestRate(gaps: seq<real>, hz: real)
    requires gaps != [] && MinOf(gaps) > 0.0 && hz == 1.0 / MinOf(gaps)
    ensures IsGreatestRate(hz, gaps)
  {
    hide MinOf;
    var lo := MinOf(gaps);
    forall i | 0 <= i < |gaps| ensures 1.0 <= hz * gaps[i] {
      RateOf(gaps[i], lo);
    }
    var i :| 0 <= i < |gaps| && gaps[i] == lo;
    RateOf(gaps[i], lo);
  }

  lemma RateOf(gap: real, of: real)
    requires of > 0.0
    ensures gap <= of ==> 1.0 / of * gap <= 1.0
    ensures gap >= of ==> 1.0 / of * gap >= 1.0
  {
    var h := 1.0 / of;
    assert h * of == 1.0 && h > 0.0;
    if gap <= of {
      NonNegative(h, of - gap);
      Expand(h, 0.0, of, -gap);
      Signs(h, gap);
    } else {
      NonNegative(h, gap - of);
      Expand(h, 0.0, gap, -of);
      Signs(h, of);
    }
  }

  lemma ScaledBack(v: real, hz: real, avg: real)
    requires hz * avg == 1.0
    ensures Scaled(v, hz) * Square(Square(avg)) == v
  {
    hide ByRate, Square;
    var h, a, once := hz * hz, Square(avg), ByRate(v, hz * hz);
    SquareUnfold(avg);
    SquareUnfold(a);
    SquaresCancel(hz, avg, h, a);
    ByRateBack(v, h, a);
    ByRateBack(once, h, a);
    UndoTwice(ByRate(once, h), once, v, a, Square(a));
  }

  lemma SquareUnfold(x: real)
    ensures Square(x) == x * x
  {
  }

  lemma SquaresCancel(x: real, y: real, h: real, a: real)
    requires x * y == 1.0 && h == x * x && a == y * y
    ensures h * a == 1.0
  {
    Regroup(x, x, y, y);
  }

  lemma Regroup(a: real, b: real, c: real, d: real)
    ensures a * b * (c * d) == a * c * (b * d)
  {
  }

  lemma ByRateBack(x: real, h: real, a: real)
    requires h * a == 1.0
    ensures ByRate(x, h) * a == x
  {
    Associate(x, h, a);
    Unit(x, h * a);
  }

  lemma UndoTwice(twice: real, once: real, v: real, a: real, aa: real)
    requires twice * a == once && once * a == v && aa == a * a
    ensures twice * aa == v
  {
    Associate(twice, a, a);
    SameProduct(twice * a, once, a);
  }

  lemma SameProduct(x: real, y: real, a: real)
    requires x == y
    ensures x * a == y * a
  {
  }

  lemma Associate(a: real, b: real, c: real)
    ensures a * b * c == a * (b * c)
  {
  }

  lemma Unit(p: real, one: real)
    requires one == 1.0
    ensures p * one == p
  {
  }

  lemma Inverse(avg: real, n: real)
    requires avg > 0.0
    ensures 1.0 / avg * (avg * n) == n
  {
    assert 1.0 / avg * avg == 1.0;
    assert 1.0 / avg * (avg * n) == 1.0 / avg * avg * n;
  }

  lemma VarianceBound(xs: seq<real>, lo: real, hi: real, avg: real)
    requires xs != [] && Sum(xs) == avg * |xs| as real && avg == Mean(xs) && Between(xs, lo, hi)
    ensures Variance(xs) <= (hi - avg) * (avg - lo)
  {
    hide Mean, Sum, SumSquares, Between;
    SquaresBounded(xs, lo, hi, avg);
    var n, bound := |xs| as real, (hi - avg) * (avg - lo);
    LineAtMean(n, lo, hi, avg);
    assert Variance(xs) * n == SumSquares(xs, avg);
    Cancel(Variance(xs), bound, n);
  }

  lemma LineAtMean(n: real, lo: real, hi: real, avg: real)
    ensures (hi + lo - 2.0 * avg) * (avg * n) + (avg * avg - hi * lo) * n == (hi - avg) * (avg - lo) * n
  {
  }

  lemma Reciprocals(lo: real, avg: real, hi: real)
    requires 0.0 < lo <= avg <= hi
    ensures 0.0 < 1.0 / hi <= 1.0 / avg <= 1.0 / lo
  {
  }
}
