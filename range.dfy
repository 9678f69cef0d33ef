/**
 * `tqdm::range` (include/tqdm/tqdm.h:466-517): an arithmetic progression
 * start, start + step, start + 2 * step, … handed to a progress bar as an
 * iterator, a sentinel position and a size used as the bar's total.
 *
 * `operator()(start, end, step)` rounds the size up to whole steps and moves
 * the end to the position reached after exactly that many steps, so that the
 * iterator's `!=` test meets it. The model keeps the code as written
 * (RangeAsWritten) and a corrected version (Range) side by side.
 */
module TqdmRange {
  import opened Format

  /**
   * What `operator()` hands to the progress bar: the iterator's first
   * position and step, the sentinel's position and the size.
   */
  datatype Bounds = Bounds(start: int, step: int, stop: int, size: int)

  /** The position of the iterator after k increments of `operator++` (tqdm.h:488-491). */
  function Position(start: int, step: int, k: int): int {
    start + k * step
  }

  function NonNegative(x: int): nat {
    if x < 0 then 0 else x
  }

  /** Iteration continues at position x while x has not passed end in the direction of step. */
  predicate Before(x: int, end: int, step: int) {
    if step > 0 then x < end else x > end
  }

  /**
   * tqdm.h:502-512 as written. For a positive step the size is
   * (end - start + step - 1) / step; for a negative step the numerator is
   * end - start - step + 1. Both branches then move end to size * step + start.
   * `/` truncates toward zero; a step of 0 is a division by zero.
   */
  function RangeAsWritten(start: int, end: int, step: int): (b: Bounds)
    requires step != 0
    ensures b.start == start && b.step == step
    ensures b.stop == Position(start, step, b.size)
  {
    var size := if step > 0 then TruncDiv(end - start + step - 1, step)
                else TruncDiv(end - start - step + 1, step);
    Bounds(start, step, size * step + start, size)
  }

  /** tqdm.h:514-516: `range(end)` is `range(0, end, 1)`. */
  function RangeTo(end: int): (b: Bounds)
    ensures b == RangeAsWritten(0, end, 1)
  {
    RangeAsWritten(0, end, 1)
  }

  /**
   * The corrected range: a negative step counts, as the positive branch does,
   * the whole steps of length -step needed to cover the distance start - end,
   * and a size below zero, which happens only when end lies behind start in
   * the direction of the step, is raised to 0 so that the sentinel is the
   * first position.
   */
  function Range(start: int, end: int, step: int): (b: Bounds)
    requires step != 0
    ensures b.start == start && b.step == step && b.size >= 0
    ensures b.stop == Position(start, step, b.size)
  {
    var size := if step > 0 then NonNegative(TruncDiv(end - start + step - 1, step))
                else NonNegative(TruncDiv(start - end - step - 1, -step));
    Bounds(start, step, size * step + start, size)
  }

  /** The values a range-based for loop sees: the positions before the sentinel. */
  function Yielded(b: Bounds): (r: seq<int>)
    requires b.size >= 0
    ensures |r| == b.size
    ensures forall k :: 0 <= k < b.size ==> r[k] == Position(b.start, b.step, k)
  {
    seq(b.size, k requires 0 <= k < b.size => Position(b.start, b.step, k))
  }

  // ---------------------------------------------------------------- the iterator

  /** `Range::Iterator` (tqdm.h:479-500): a position that `operator++` moves by the step. */
  class Iterator {
    var pos: int
    var step: int

    constructor(pos: int, step: int)
      ensures this.pos == pos && this.step == step
    {
      this.pos := pos;
      this.step := step;
    }

    /** `operator*`. */
    function Current(): int
      reads this
    {
      pos
    }

    /** `operator++`: `m_pos += m_step`. */
    method Advance()
      modifies this
      ensures pos == old(pos) + step && step == old(step)
    {
      pos := pos + step;
    }

    /** `operator!=` against a sentinel at position `stop`. */
    predicate NotAt(stop: int)
      reads this
    {
      pos != stop
    }
  }

  /**
   * A range-based for loop over the bounds (tqdm.h:479-500): start an
   * iterator at the first position, and while it is not at the sentinel take
   * its value and advance it. For a range whose sentinel lies `size` steps
   * ahead the loop sees exactly the progression's first `size` positions.
   */
  method Iterate(b: Bounds) returns (seen: seq<int>)
    requires b.step != 0 && b.size >= 0 && b.stop == Position(b.start, b.step, b.size)
    ensures seen == Yielded(b)
  {
    var it := new Iterator(b.start, b.step);
    seen := [];
    StopReachedAfterSize(b);
    while it.NotAt(b.stop)
      invariant it.step == b.step
      invariant |seen| <= b.size
      invariant it.pos == Position(b.start, b.step, |seen|)
      invariant seen == Yielded(b)[..|seen|]
      decreases b.size - |seen|
    {
      seen := seen + [it.Current()];
      it.Advance();
      AdvanceIsNextPosition(b.start, b.step, |seen| - 1);
    }
  }

  /** One `operator++` takes the iterator from position k to position k + 1 of the progression. */
  lemma AdvanceIsNextPosition(start: int, step: int, k: int)
    ensures Position(start, step, k) + step == Position(start, step, k + 1)
    ensures Position(start, step, 0) == start
  {
    assert (k + 1) * step == k * step + step;
  }

  /**
   * With a size that is not negative and the sentinel placed size steps
   * ahead, the iterator meets the sentinel after exactly `size` increments:
   * every earlier position differs from it.
   */
  lemma StopReachedAfterSize(b: Bounds)
    requires b.step != 0 && b.size >= 0 && b.stop == Position(b.start, b.step, b.size)
    ensures forall k :: 0 <= k < b.size ==> Position(b.start, b.step, k) != b.stop
  {
    forall k | 0 <= k < b.size
      ensures Position(b.start, b.step, k) != b.stop
    {
      PositionsDistinct(b.start, b.step, k, b.size);
    }
  }

  lemma PositionsDistinct(start: int, step: int, j: int, k: int)
    requires step != 0 && j < k
    ensures Position(start, step, j) != Position(start, step, k)
  {
    if step > 0 {
      MulMonotone(j + 1, k, step);
      assert (j + 1) * step == j * step + step;
    } else {
      MulMonotone(j + 1, k, -step);
      assert (j + 1) * -step == j * -step - step;
      assert k * -step == -(k * step) && j * -step == -(j * step);
    }
  }

  // ---------------------------------------------------------------- sizes

  /** A truncated quotient of a dividend below the divisor is not positive. */
  lemma TruncDivBelow(x: int, s: int)
    requires s > 0 && x < s
    ensures TruncDiv(x, s) <= 0
  {
    var t := TruncDiv(x, s);
    if t >= 1 {
      MulMonotone(1, t, s);
      assert false;
    }
  }

  /**
   * Rounding d / s up: the number of whole steps of length s that stay
   * strictly below d is the clamped truncated quotient of d + s - 1.
   */
  lemma CeilCount(d: int, s: int)
    requires s > 0
    ensures var q := NonNegative(TruncDiv(d + s - 1, s));
      forall k :: 0 <= k ==> (k < q <==> Position(0, s, k) < d)
  {
    var q := NonNegative(TruncDiv(d + s - 1, s));
    if d <= 0 {
      TruncDivBelow(d + s - 1, s);
      assert q == 0;
      forall k | 0 <= k
        ensures !(Position(0, s, k) < d)
      {
        MulMonotone(0, k, s);
      }
    } else {
      var x := d + s - 1;
      assert TruncDiv(x, s) == x / s;
      var r := x % s;
      assert x == q * s + r && 0 <= r < s;
      forall k | 0 <= k
        ensures k < q <==> Position(0, s, k) < d
      {
        if k < q {
          MulMonotone(k, q - 1, s);
          assert (q - 1) * s == q * s - s;
        } else {
          MulMonotone(q, k, s);
        }
      }
    }
  }

  /**
   * The corrected range iterates over exactly the positions before end: the
   * k-th position (k >= 0) is yielded if and only if it has not reached end
   * in the direction of the step, as Python's `range` does.
   */
  lemma RangeCovers(start: int, end: int, step: int)
    requires step != 0
    ensures var b := Range(start, end, step);
      forall k :: 0 <= k ==> (k < b.size <==> Before(Position(start, step, k), end, step))
  {
    if step > 0 {
      CoversForward(start, end, step);
    } else {
      CoversBackward(start, end, step);
    }
  }

  lemma CoversForward(start: int, end: int, step: int)
    requires step > 0
    ensures var b := Range(start, end, step);
      forall k :: 0 <= k ==> (k < b.size <==> Before(Position(start, step, k), end, step))
  {
    var b := Range(start, end, step);
    assert b.size == NonNegative(TruncDiv(end - start + step - 1, step));
    CeilCount(end - start, step);
    forall k | 0 <= k
      ensures k < b.size <==> Before(Position(start, step, k), end, step)
    {
      assert Position(start, step, k) == start + Position(0, step, k);
    }
  }

  lemma CoversBackward(start: int, end: int, step: int)
    requires step < 0
    ensures var b := Range(start, end, step);
      forall k :: 0 <= k ==> (k < b.size <==> Before(Position(start, step, k), end, step))
  {
    var b := Range(start, end, step);
    var s := -step;
    var d := start - end;
    assert b.size == NonNegative(TruncDiv(d + s - 1, s));
    CeilCount(d, s);
    forall k | 0 <= k
      ensures k < b.size <==> Before(Position(start, step, k), end, step)
    {
      assert k * step == -(k * s);
      assert Position(start, step, k) == start - Position(0, s, k);
    }
  }

  /**
   * For a positive step and end not before start the code as written
   * computes the corrected range: size is the ceiling of (end - start) / step,
   * and the sentinel is the position after size steps.
   */
  lemma PositiveStepAsWritten(start: int, end: int, step: int)
    requires step > 0 && end >= start
    ensures RangeAsWritten(start, end, step) == Range(start, end, step)
    ensures var b := RangeAsWritten(start, end, step);
      && b.size * step >= end - start
      && (b.size - 1) * step < end - start
  {
    var x := end - start + step - 1;
    assert TruncDiv(x, step) == x / step;
    var q := x / step;
    assert x == q * step + x % step && 0 <= x % step < step;
    assert (q - 1) * step == q * step - step;
  }

  // ---------------------------------------------------------------- the two discrepancies

  /**
   * The negative-step numerator as written: `range(5, 0, -1)` gets size 3
   * and yields 5, 4, 3, where the corrected range has size 5 and yields
   * 5, 4, 3, 2, 1.
   */
  lemma NegativeStepUndercounts()
    ensures RangeAsWritten(5, 0, -1) == Bounds(5, -1, 2, 3)
    ensures Yielded(RangeAsWritten(5, 0, -1)) == [5, 4, 3]
    ensures Range(5, 0, -1) == Bounds(5, -1, 0, 5)
    ensures Yielded(Range(5, 0, -1)) == [5, 4, 3, 2, 1]
  {
    assert TruncDiv(-3, -1) == 3;
    assert TruncDiv(-5, -1) == 5;
    assert Yielded(RangeAsWritten(5, 0, -1)) == [5, 4, 3];
    assert Yielded(Range(5, 0, -1)) == [5, 4, 3, 2, 1];
  }

  /**
   * A positive step with end well behind start: the size as written is
   * negative and the sentinel lies behind the first position, so no number of
   * increments reaches it and the loop does not end. `range(5, 0)` and
   * `range(-1)` are such ranges; the corrected range is empty there.
   */
  lemma BackwardRangeNeverStops(start: int, end: int, step: int)
    requires step > 0 && start - end >= 2 * step - 1
    ensures var b := RangeAsWritten(start, end, step);
      && b.size < 0
      && forall k :: 0 <= k ==> Position(start, step, k) != b.stop
    ensures Range(start, end, step).size == 0
  {
    var x := end - start + step - 1;
    var b := RangeAsWritten(start, end, step);
    assert x <= -step;
    var t := TruncDiv(x, step);
    if t >= 0 {
      MulMonotone(0, t, step);
      assert false;
    }
    forall k | 0 <= k
      ensures Position(start, step, k) != b.stop
    {
      PositionsDistinct(start, step, b.size, k);
    }
  }

  /**
   * A negative step with start - end <= 1, such as `range(1, 0, -1)` or
   * `range(0, 5, -1)`: the size as written is negative and the sentinel lies
   * behind the first position, so the loop does not end. The corrected range
   * is empty when end is not below start and holds start alone when end is
   * start - 1.
   */
  lemma NegativeStepNeverStops(start: int, end: int, step: int)
    requires step < 0 && start - end <= 1
    ensures var b := RangeAsWritten(start, end, step);
      && b.size < 0
      && forall k :: 0 <= k ==> Position(start, step, k) != b.stop
    ensures Range(start, end, step).size == NonNegative(start - end)
  {
    var s := -step;
    var x := end - start - step + 1;
    assert x >= s;
    var b := RangeAsWritten(start, end, step);
    var t := TruncDiv(x, step);
    if t >= 0 {
      MulMonotone(0, t, s);
      assert false;
    }
    forall k | 0 <= k
      ensures Position(start, step, k) != b.stop
    {
      PositionsDistinct(start, step, b.size, k);
    }
    var y := start - end - step - 1;
    assert y == start - end + s - 1 && y < 2 * s;
    if start - end <= 0 {
      TruncDivBelow(y, s);
    } else {
      assert TruncDiv(y, s) == y / s;
      DivUnique(y, s, 1, y - s);
    }
  }

  /**
   * `range(2, 0, -1)`: the numerator as written is 0, so the loop yields
   * nothing, where the corrected range yields 2, 1.
   */
  lemma NegativeStepTwoEmpty()
    ensures RangeAsWritten(2, 0, -1) == Bounds(2, -1, 2, 0)
    ensures Yielded(RangeAsWritten(2, 0, -1)) == []
    ensures Range(2, 0, -1) == Bounds(2, -1, 0, 2)
    ensures Yielded(Range(2, 0, -1)) == [2, 1]
  {
    TwoDownAsWritten();
    TwoDownCorrected();
    TwoDownYields();
  }

  lemma TwoDownYields()
    ensures Yielded(Bounds(2, -1, 0, 2)) == [2, 1]
  {
    var y := Yielded(Bounds(2, -1, 0, 2));
    assert y[0] == Position(2, -1, 0);
    assert y[1] == Position(2, -1, 1);
  }

  lemma TwoDownAsWritten()
    ensures RangeAsWritten(2, 0, -1) == Bounds(2, -1, 2, 0)
  {
    assert TruncDiv(0, -1) == 0;
  }

  lemma TwoDownCorrected()
    ensures Range(2, 0, -1) == Bounds(2, -1, 0, 2)
  {
    assert TruncDiv(2, 1) == 2;
  }

  /** `range(end)`: size end and sentinel end for end >= 0; for end < 0 the backward case above. */
  lemma RangeToCounts(end: int)
    ensures end >= 0 ==> RangeTo(end) == Bounds(0, 1, end, end) && Yielded(RangeTo(end)) == seq(end, k => k)
    ensures end < 0 ==> RangeTo(end).size == end < 0
  {
    assert TruncDiv(end, 1) == end;
  }
}
