/**
  Axis code tables: the deflection codes written to the X and Y analog
  outputs, one per column (X) or row (Y) of the frame.

  The source builds each table as `rint(linspace(-2048, 2047, R))` cast to
  int16.  Here the table is computed in exact integer arithmetic: the k-th
  entry is the integer nearest to `-2048 + 4095 * k / (R - 1)`, rounding a
  half up.  `AxisCodeIsRint` shows that this agrees with numpy's
  round-half-to-even whenever `R - 1` is odd, which holds for every preset
  resolution (127, 255, 511, 1023), so no entry is ever a tie.
 */
module AxisCodes {
  import opened Arith

  /** Lowest and highest code of the 12-bit analog outputs. */
  const CodeMin: int := -2048
  const CodeMax: int := 2047
  /** CodeMax - CodeMin: the span that linspace divides into R - 1 steps. */
  const CodeSpan: int := 4095

  /** Numpy's `rint` of the rational n / d: nearest integer, ties to even. */
  function RoundHalfEven(n: int, d: int): (r: int)
    requires d > 0
    ensures -d <= 2 * (n - r * d) <= d
    ensures 2 * (n - r * d) == d || 2 * (n - r * d) == -d ==> r % 2 == 0
  {
    DivParts(n, d);
    var q := n / d;
    var m := n % d;
    if 2 * m < d then q
    else if 2 * m > d then q + 1
    else if q % 2 == 0 then q
    else q + 1
  }

  /** The exact linspace value for entry k, as the numerator over R - 1. */
  function LinspaceNumerator(res: int, k: int): int
  {
    CodeMin * (res - 1) + CodeSpan * k
  }

  /**
    Entry k of a table of `res` codes: floor(x + 1/2) for the linspace
    value x, written as one integer division.
   */
  function AxisCode(res: int, k: int): (c: int)
    requires res >= 2 && 0 <= k < res
    ensures -(res - 1) < 2 * (c * (res - 1) - LinspaceNumerator(res, k)) <= res - 1
  {
    var d := res - 1;
    (2 * LinspaceNumerator(res, k) + d) / (2 * d)
  }

  /** The table for one axis; `linspace` with one point yields the start. */
  function AxisTable(res: nat): (t: seq<int>)
    ensures |t| == res
    ensures res == 1 ==> t[0] == CodeMin
    ensures res >= 2 ==> forall k :: 0 <= k < res ==>
      -(res - 1) < 2 * (t[k] * (res - 1) - LinspaceNumerator(res, k)) <= res - 1
  {
    if res == 0 then []
    else if res == 1 then [CodeMin]
    else seq(res, k requires 0 <= k < res => AxisCode(res, k))
  }

  /**
    Every table has one code per pixel, starts at -2048, ends at 2047,
    stays within the device range and never decreases; it is strictly
    increasing as long as there are at most 4096 pixels (one code step or
    more per pixel), which covers every preset.
   */
  lemma AxisTableProperties(res: nat)
    ensures |AxisTable(res)| == res
    ensures res >= 1 ==> AxisTable(res)[0] == CodeMin
    ensures res >= 2 ==> AxisTable(res)[res - 1] == CodeMax
    ensures forall k :: 0 <= k < res ==> CodeMin <= AxisTable(res)[k] <= CodeMax
    ensures forall k, l :: 0 <= k <= l < res ==> AxisTable(res)[k] <= AxisTable(res)[l]
    ensures res <= 4096 ==>
      forall k, l :: 0 <= k < l < res ==> AxisTable(res)[k] < AxisTable(res)[l]
  {
    if res >= 2 {
      var t := AxisTable(res);
      AxisCodeEnds(res);
      forall k, l | 0 <= k <= l < res
        ensures t[k] <= t[l]
        ensures res <= 4096 && k < l ==> t[k] < t[l]
      {
        AxisCodeOrder(res, k, l);
      }
      forall k | 0 <= k < res
        ensures CodeMin <= t[k] <= CodeMax
      {
        AxisCodeOrder(res, 0, k);
        AxisCodeOrder(res, k, res - 1);
      }
    }
  }

  /** The first code is -2048 and the last 2047. */
  lemma AxisCodeEnds(res: int)
    requires res >= 2
    ensures AxisCode(res, 0) == CodeMin && AxisCode(res, res - 1) == CodeMax
  {
    var d := res - 1;
    assert 2 * LinspaceNumerator(res, 0) + d == 2 * d * CodeMin + d;
    DivIsUnique(2 * LinspaceNumerator(res, 0) + d, 2 * d, CodeMin);
    assert 2 * LinspaceNumerator(res, d) + d == 2 * d * CodeMax + d;
    DivIsUnique(2 * LinspaceNumerator(res, d) + d, 2 * d, CodeMax);
  }

  /** Codes never decrease along the axis, and with steps of one code or more they increase. */
  lemma AxisCodeOrder(res: int, k: int, l: int)
    requires res >= 2 && 0 <= k <= l < res
    ensures AxisCode(res, k) <= AxisCode(res, l)
    ensures res <= 4096 && k < l ==> AxisCode(res, k) < AxisCode(res, l)
  {
    var d := res - 1;
    var a := 2 * LinspaceNumerator(res, k) + d;
    var b := 2 * LinspaceNumerator(res, l) + d;
    assert b - a == 2 * CodeSpan * (l - k);
    DivMonotone(a, b, 2 * d);
    if res <= 4096 && k < l {
      assert 2 * CodeSpan * (l - k) >= 2 * CodeSpan;
      DivGap(a, b, 2 * d);
    }
  }

  /**
    With an odd number of steps the linspace value is never exactly halfway
    between two integers, so the half-up rounding of `AxisCode` is numpy's
    round-half-to-even.
   */
  lemma AxisCodeIsRint(res: int, k: int)
    requires res >= 2 && 0 <= k < res
    requires (res - 1) % 2 == 1
    ensures AxisCode(res, k) == RoundHalfEven(LinspaceNumerator(res, k), res - 1)
  {
    var d := res - 1;
    var n := LinspaceNumerator(res, k);
    var q := n / d;
    var m := n % d;
    assert n == d * q + m;
    if 2 * m < d {
      DivIsUnique(2 * n + d, 2 * d, q);
    } else if 2 * m > d {
      DivIsUnique(2 * n + d, 2 * d, q + 1);
    } else {
      assert false;
    }
  }
}
