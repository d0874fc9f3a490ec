/**
 * The two averages the system computes: PostgreSQL's
 * `ROUND(AVG(rating)::numeric, 2)`, kept as integer hundredths, and the
 * client's plain arithmetic mean.
 */
module Averages {

  function Sum(vs: seq<int>): int {
    if vs == [] then 0 else vs[0] + Sum(vs[1..])
  }

  /** Every value lies in the rating scale 1..5. */
  predicate InScale(vs: seq<int>) {
    forall i :: 0 <= i < |vs| ==> 1 <= vs[i] <= 5
  }

  lemma {:induction false} SumAppend(a: seq<int>, b: seq<int>)
    ensures Sum(a + b) == Sum(a) + Sum(b)
  {
    if a == [] {
      assert a + b == b;
    } else {
      assert (a + b)[0] == a[0];
      assert (a + b)[1..] == a[1..] + b;
      SumAppend(a[1..], b);
    }
  }

  lemma {:induction false} SumInScale(vs: seq<int>)
    requires InScale(vs)
    ensures |vs| <= Sum(vs) <= 5 * |vs|
  {
    if vs != [] {
      SumInScale(vs[1..]);
    }
  }

  /**
   * `n / d` rounded to the nearest integer, halves away from zero, the way
   * `ROUND(numeric, s)` rounds.
   */
  function RoundHalfAway(n: int, d: int): (q: int)
    requires d > 0
    ensures n >= 0 ==> (2 * q - 1) * d <= 2 * n < (2 * q + 1) * d
    ensures n < 0 ==> (2 * q - 1) * d < 2 * n <= (2 * q + 1) * d
  {
    if n >= 0 then
      var q := (2 * n + d) / (2 * d);
      DivBounds(2 * n + d, 2 * d);
      q
    else
      var q := (-2 * n + d) / (2 * d);
      DivBounds(-2 * n + d, 2 * d);
      -q
  }

  lemma DivBounds(a: int, b: int)
    requires b > 0
    ensures b * (a / b) <= a < b * (a / b) + b
  {
  }

  /**
   * `ROUND(AVG(vs)::numeric, 2) || 0` in hundredths: the mean rounded to two
   * decimals, and 0 where `AVG` over no rows gives NULL.
   */
  function RoundedAverage(vs: seq<int>): (h: int)
    ensures vs == [] ==> h == 0
    ensures vs != [] && Sum(vs) >= 0 ==>
              (2 * h - 1) * |vs| <= 200 * Sum(vs) < (2 * h + 1) * |vs|
  {
    if vs == [] then 0 else RoundHalfAway(100 * Sum(vs), |vs|)
  }

  /** An average of ratings on the 1..5 scale lies between 1.00 and 5.00. */
  lemma RoundedAverageInScale(vs: seq<int>)
    requires InScale(vs) && vs != []
    ensures 100 <= RoundedAverage(vs) <= 500
  {
    SumInScale(vs);
    var h, n, s := RoundedAverage(vs), |vs|, Sum(vs);
    assert (2 * h - 1) * n <= 200 * s < (2 * h + 1) * n;
    if h < 100 {
      MulMonotone(2 * h + 1, 199, n);
    }
    if h > 500 {
      MulMonotone(1001, 2 * h - 1, n);
    }
  }

  lemma MulMonotone(a: int, b: int, n: int)
    requires a <= b && n >= 0
    ensures a * n <= b * n
  {
    assert b * n - a * n == (b - a) * n;
  }

  lemma RealMulStrict(a: real, b: real, n: real)
    requires a < b && n > 0.0
    ensures a * n < b * n
  {
    assert b * n - a * n == (b - a) * n;
  }

  /** Samples: ratings 3 and 5 average to 4.00; 1 and 2 to 1.50; 1, 1, 2 to 1.33; 1, 2, 2 to 1.67. */
  lemma RoundedAverageSamples()
    ensures RoundedAverage([3, 5]) == 400
    ensures RoundedAverage([1, 2]) == 150
    ensures RoundedAverage([1, 1, 2]) == 133
    ensures RoundedAverage([1, 2, 2]) == 167
  {
    assert Sum([3, 5]) == 8 by { assert [3, 5][1..] == [5]; }
    assert Sum([1, 2]) == 3 by { assert [1, 2][1..] == [2]; }
    assert Sum([1, 1, 2]) == 4 by { assert [1, 1, 2][1..] == [1, 2]; assert [1, 2][1..] == [2]; }
    assert Sum([1, 2, 2]) == 5 by { assert [1, 2, 2][1..] == [2, 2]; assert [2, 2][1..] == [2]; }
  }

  /** The client's mean, `reduce((sum, r) => sum + r.rating, 0) / length`, before `toFixed(1)`. */
  function Mean(vs: seq<int>): (m: real)
    requires vs != []
    ensures m * |vs| as real == Sum(vs) as real
  {
    Sum(vs) as real / |vs| as real
  }

  /** The client's mean of ratings on the 1..5 scale lies between 1 and 5. */
  lemma MeanInScale(vs: seq<int>)
    requires InScale(vs) && vs != []
    ensures 1.0 <= Mean(vs) <= 5.0
  {
    SumInScale(vs);
    QuotientBounds(Sum(vs) as real, |vs| as real, 1.0, 5.0);
  }

  lemma QuotientBounds(s: real, n: real, lo: real, hi: real)
    requires n > 0.0 && lo * n <= s <= hi * n
    ensures lo <= s / n <= hi
  {
    var m := s / n;
    assert m * n == s;
    if m < lo {
      RealMulStrict(m, lo, n);
    }
    if m > hi {
      RealMulStrict(hi, m, n);
    }
  }

  /**
   * The server's rounded average and the client's mean of the same ratings
   * differ by at most half a hundredth.
   */
  lemma RoundedAverageNearMean(vs: seq<int>)
    requires vs != [] && Sum(vs) >= 0
    ensures (2 * RoundedAverage(vs) - 1) as real <= 200.0 * Mean(vs) < (2 * RoundedAverage(vs) + 1) as real
  {
    var h, k, s := RoundedAverage(vs), |vs|, Sum(vs);
    assert (2 * h - 1) * k <= 200 * s < (2 * h + 1) * k;
    var m := Mean(vs);
    assert m * k as real == s as real;
    ScaledQuotientBounds(2 * h - 1, 2 * h + 1, s, k, m);
  }

  /** From `lo * k <= 200 * s < hi * k` and `m * k == s`: `lo <= 200 * m < hi`. */
  lemma ScaledQuotientBounds(lo: int, hi: int, s: int, k: int, m: real)
    requires k > 0 && lo * k <= 200 * s < hi * k && m * k as real == s as real
    ensures lo as real <= 200.0 * m < hi as real
  {
    var n := k as real;
    var x := 200.0 * m;
    assert x * n == (200 * s) as real;
    assert (lo * k) as real == lo as real * n;
    assert (hi * k) as real == hi as real * n;
    if x < lo as real {
      RealMulStrict(x, lo as real, n);
    }
    if hi as real <= x {
      RealMulMonotone(hi as real, x, n);
    }
  }

  lemma RealMulMonotone(a: real, b: real, n: real)
    requires a <= b && n >= 0.0
    ensures a * n <= b * n
  {
    assert b * n - a * n == (b - a) * n;
  }
}
