/**
 * The adaptive redraw throttle of print_progress_line (include/tqdm/tqdm.h:227-257):
 * an estimate of how many items pass in one `m_mininterval`, taken from the
 * rate observed since the last redraw; a later call redraws only once that
 * many items have been counted.
 */
module Throttle {
  import opened Wrappers
  import opened Format

  /** `duration_cast<nanoseconds>(m_mininterval).count()`: the interval is held in milliseconds. */
  function IntervalNs(ms: int): (r: int)
    ensures ms >= 0 ==> r >= 0
    ensures r == 0 <==> ms == 0
    ensures r % 1000000 == 0 && r / 1000000 == ms
  {
    ms * 1000000
  }

  /** tqdm.h:233-235 and 253-255: a quotient of 0 is replaced by 1; any other quotient is kept. */
  function NonZero(q: int): (r: int)
    ensures r != 0
    ensures q == 0 ==> r == 1
    ensures q != 0 ==> r == q
    ensures q >= 0 ==> r >= 1
  {
    if q == 0 then 1 else q
  }

  /**
   * tqdm.h:228-232: with no estimate yet, the number of intervals since the
   * last redraw, inverted: interval / (now - last update).
   */
  function FirstEstimate(intervalNs: int, sinceNs: int): int
    requires sinceNs != 0
  {
    NonZero(TruncDiv(intervalNs, sinceNs))
  }

  /**
   * tqdm.h:249-252: after a redraw, the items counted since the previous
   * redraw scaled to one interval: progress * interval / dt.
   */
  function NextEstimate(progress: int, intervalNs: int, dtNs: int): int
    requires dtNs != 0
  {
    NonZero(TruncDiv(progress * intervalNs, dtNs))
  }

  /** tqdm.h:241: redraw once the progress since the last redraw reaches the estimate; with none, always. */
  predicate ShouldPrint(progress: int, estimate: Option<int>) {
    progress >= estimate.GetOr(0)
  }

  /**
   * The first estimate is the whole number of times the elapsed time fits
   * into the interval, and at least 1: when the time since the last redraw
   * is at least the interval, one item already warrants a redraw.
   */
  lemma FirstEstimateBounds(intervalNs: int, sinceNs: int)
    requires intervalNs >= 0 && sinceNs > 0
    ensures var e := FirstEstimate(intervalNs, sinceNs);
      && e >= 1
      && (intervalNs >= sinceNs ==> e * sinceNs <= intervalNs < (e + 1) * sinceNs)
      && (intervalNs < sinceNs ==> e == 1)
  {
    QuotientBounds(intervalNs, sinceNs);
  }

  /**
   * The next estimate is the progress that the observed rate (progress per
   * dtNs) reaches in one interval, rounded down and at least 1.
   */
  lemma NextEstimateIsRate(progress: int, intervalNs: int, dtNs: int)
    requires progress >= 0 && intervalNs >= 0 && dtNs > 0
    ensures var e := NextEstimate(progress, intervalNs, dtNs);
      && e >= 1
      && (progress * intervalNs >= dtNs ==> e * dtNs <= progress * intervalNs < (e + 1) * dtNs)
      && (progress * intervalNs < dtNs ==> e == 1)
  {
    MulMonotone(0, progress, intervalNs);
    QuotientBounds(progress * intervalNs, dtNs);
  }

  /** A non-negative truncated quotient brackets x between consecutive multiples of d. */
  lemma QuotientBounds(x: int, d: int)
    requires x >= 0 && d > 0
    ensures var q := TruncDiv(x, d);
      && q >= 0
      && q * d <= x < (q + 1) * d
      && (q == 0 <==> x < d)
  {
    assert TruncDiv(x, d) == x / d;
    var q := x / d;
    var r := x % d;
    assert x == q * d + r && 0 <= r < d;
    assert (q + 1) * d == q * d + d;
    if q < 0 {
      MulMonotone(q, -1, d);
      assert false;
    } else if q >= 1 {
      MulMonotone(1, q, d);
    }
  }

  /**
   * A slower rate gives a smaller estimate: with the same progress over a
   * longer time the next redraw comes after fewer items.
   */
  lemma NextEstimateAntitone(progress: int, intervalNs: int, dt1: int, dt2: int)
    requires progress >= 0 && intervalNs >= 0 && 0 < dt1 <= dt2
    ensures NextEstimate(progress, intervalNs, dt2) <= NextEstimate(progress, intervalNs, dt1)
  {
    MulMonotone(0, progress, intervalNs);
    QuotientAntitone(progress * intervalNs, dt1, dt2);
  }

  /** A larger divisor gives a smaller truncated quotient of a non-negative number. */
  lemma QuotientAntitone(x: int, d1: int, d2: int)
    requires x >= 0 && 0 < d1 <= d2
    ensures TruncDiv(x, d2) <= TruncDiv(x, d1)
  {
    var q1 := TruncDiv(x, d1);
    var q2 := TruncDiv(x, d2);
    QuotientBounds(x, d1);
    QuotientBounds(x, d2);
    MulMonotone(d1, d2, q2);
    if q2 > q1 {
      MulMonotone(q1 + 1, q2, d1);
      assert false;
    }
  }
}
