/**
  The raster coordinate generator: the order in which one pass visits the
  traversal ranges.  A pass is a sequence of steps, one per check of the
  mode flag: each row begins with a `RowStart` step (the check before the
  row) followed by one `Pixel` step per column (the check before the
  pixel), rows in increasing order and columns in increasing order within
  a row.
 */
module Raster {
  import opened Field

  datatype Step = RowStart(j: int) | Pixel(j: int, i: int)

  /** The pixel steps of row j for columns lo .. hi-1. */
  function PixelRun(j: int, lo: int, hi: int): (s: seq<Step>)
    requires lo <= hi
    ensures |s| == hi - lo
    ensures forall q :: 0 <= q < |s| ==> s[q] == Pixel(j, lo + q)
    decreases hi - lo
  {
    if lo == hi then [] else PixelRun(j, lo, hi - 1) + [Pixel(j, hi - 1)]
  }

  /** The steps of row j: its row check, then one pixel per column. */
  function RowSteps(b: Bounds, j: int): seq<Step>
    requires WellFormed(b)
  {
    [RowStart(j)] + PixelRun(j, b.xLow, b.xHigh)
  }

  /** The steps of rows yLow .. j-1. */
  function RowsUpTo(b: Bounds, j: int): seq<Step>
    requires WellFormed(b) && b.yLow <= j
    decreases j - b.yLow
  {
    if j == b.yLow then [] else RowsUpTo(b, j - 1) + RowSteps(b, j - 1)
  }

  /**
    Every step of one full pass over the bounds, row after row; it is
    empty exactly when there are no rows, and otherwise opens with the
    start of row yLow.
   */
  function Schedule(b: Bounds): (r: seq<Step>)
    requires WellFormed(b)
    ensures r == [] <==> b.yLow == b.yHigh
    ensures b.yLow < b.yHigh ==> r[0] == RowStart(b.yLow)
  {
    if b.yLow < b.yHigh then
      RowsUpToPrefix(b, b.yLow + 1, b.yHigh);
      assert RowsUpTo(b, b.yLow + 1) == RowSteps(b, b.yLow);
      RowsUpTo(b, b.yHigh)
    else RowsUpTo(b, b.yHigh)
  }

  /** The cells that the pixel steps of `s` visit, in order. */
  function PixelsOf(s: seq<Step>): seq<Cell>
  {
    if s == [] then [] else StepCells(s[0]) + PixelsOf(s[1..])
  }

  /** The cell a single step visits, if any. */
  function StepCells(st: Step): seq<Cell>
  {
    match st
    case Pixel(j, i) => [Cell(j, i)]
    case RowStart(_) => []
  }


  /** Strict row-major order on cells. */
  predicate Before(a: Cell, b: Cell)
  {
    a.row < b.row || (a.row == b.row && a.col < b.col)
  }

  predicate RowMajor(cs: seq<Cell>)
  {
    forall p, q :: 0 <= p < q < |cs| ==> Before(cs[p], cs[q])
  }

  // ---------------------------------------------------------------------

  lemma {:induction false} PixelsOfAppend(a: seq<Step>, b: seq<Step>)
    ensures PixelsOf(a + b) == PixelsOf(a) + PixelsOf(b)
    decreases |a|
  {
    if a == [] {
      assert a + b == b;
    } else {
      assert (a + b)[0] == a[0];
      assert (a + b)[1..] == a[1..] + b;
      PixelsOfAppend(a[1..], b);
    }
  }

  lemma PixelsOfSnoc(s: seq<Step>, st: Step)
    ensures PixelsOf(s + [st]) == PixelsOf(s) + StepCells(st)
  {
    PixelsOfAppend(s, [st]);
    assert [st][1..] == [];
  }

  lemma {:induction false} PixelsOfPrefix(s: seq<Step>, n: nat)
    requires n <= |s|
    ensures PixelsOf(s[..n]) <= PixelsOf(s)
  {
    assert s == s[..n] + s[n..];
    PixelsOfAppend(s[..n], s[n..]);
  }

  /** The cells of row j for columns lo .. hi-1, left to right. */
  function CellRun(j: int, lo: int, hi: int): (cs: seq<Cell>)
    requires lo <= hi
    ensures |cs| == hi - lo
    ensures forall q :: 0 <= q < |cs| ==> cs[q] == Cell(j, lo + q)
    decreases hi - lo
  {
    if lo == hi then [] else CellRun(j, lo, hi - 1) + [Cell(j, hi - 1)]
  }

  lemma CellRunMember(j: int, lo: int, hi: int, c: Cell)
    requires lo <= hi
    ensures c in CellRun(j, lo, hi) <==> c.row == j && lo <= c.col < hi
  {
    if c.row == j && lo <= c.col < hi {
      assert CellRun(j, lo, hi)[c.col - lo] == c;
    }
  }

  lemma {:induction false} PixelRunCells(j: int, lo: int, hi: int)
    requires lo <= hi
    ensures PixelsOf(PixelRun(j, lo, hi)) == CellRun(j, lo, hi)
    decreases hi - lo
  {
    if lo < hi {
      PixelRunCells(j, lo, hi - 1);
      PixelsOfSnoc(PixelRun(j, lo, hi - 1), Pixel(j, hi - 1));
    }
  }

  /** A row contributes its cells left to right. */
  lemma RowPixels(b: Bounds, j: int)
    requires WellFormed(b)
    ensures PixelsOf(RowSteps(b, j)) == CellRun(j, b.xLow, b.xHigh)
  {
    PixelsOfAppend([RowStart(j)], PixelRun(j, b.xLow, b.xHigh));
    PixelsOfSnoc([], RowStart(j));
    assert [] + [RowStart(j)] == [RowStart(j)];
    PixelRunCells(j, b.xLow, b.xHigh);
  }

  lemma RowMajorAppend(a: seq<Cell>, b: seq<Cell>)
    requires RowMajor(a) && RowMajor(b)
    requires forall p, q :: 0 <= p < |a| && 0 <= q < |b| ==> Before(a[p], b[q])
    ensures RowMajor(a + b)
  {
    forall p, q | 0 <= p < q < |a + b|
      ensures Before((a + b)[p], (a + b)[q])
    {
      if q < |a| {
        assert (a + b)[p] == a[p] && (a + b)[q] == a[q];
      } else if p < |a| {
        assert (a + b)[p] == a[p] && (a + b)[q] == b[q - |a|];
      } else {
        assert (a + b)[p] == b[p - |a|] && (a + b)[q] == b[q - |a|];
      }
    }
  }

  /** The cells of rows yLow .. j-1, row by row. */
  function CellsUpTo(b: Bounds, j: int): seq<Cell>
    requires WellFormed(b) && b.yLow <= j
    decreases j - b.yLow
  {
    if j == b.yLow then [] else CellsUpTo(b, j - 1) + CellRun(j - 1, b.xLow, b.xHigh)
  }

  lemma {:induction false} RowsUpToCellsUpTo(b: Bounds, j: int)
    requires WellFormed(b) && b.yLow <= j
    ensures PixelsOf(RowsUpTo(b, j)) == CellsUpTo(b, j)
    decreases j - b.yLow
  {
    if j > b.yLow {
      var pre := RowsUpTo(b, j - 1);
      var row := RowSteps(b, j - 1);
      assert RowsUpTo(b, j) == pre + row;
      assert CellsUpTo(b, j) == CellsUpTo(b, j - 1) + CellRun(j - 1, b.xLow, b.xHigh);
      RowsUpToCellsUpTo(b, j - 1);
      RowPixels(b, j - 1);
      PixelsOfAppend(pre, row);
    }
  }

  lemma {:induction false} CellsUpToMember(b: Bounds, j: int, c: Cell)
    requires WellFormed(b) && b.yLow <= j <= b.yHigh
    ensures c in CellsUpTo(b, j) <==> InBounds(b, c) && c.row < j
    decreases j - b.yLow
  {
    if j > b.yLow {
      assert CellsUpTo(b, j) == CellsUpTo(b, j - 1) + CellRun(j - 1, b.xLow, b.xHigh);
      CellsUpToMember(b, j - 1, c);
      CellRunMember(j - 1, b.xLow, b.xHigh, c);
    }
  }

  /** The cells of rows yLow .. j-1 are exactly the cells of the bounds in those rows. */
  lemma CellsUpToMembers(b: Bounds, j: int)
    requires WellFormed(b) && b.yLow <= j <= b.yHigh
    ensures forall c :: c in CellsUpTo(b, j) <==> InBounds(b, c) && c.row < j
  {
    forall c {
      CellsUpToMember(b, j, c);
    }
  }

  /** ... and they come in row-major order. */
  lemma {:induction false} CellsUpToOrder(b: Bounds, j: int)
    requires WellFormed(b) && b.yLow <= j <= b.yHigh
    ensures RowMajor(CellsUpTo(b, j))
    decreases j - b.yLow
  {
    if j > b.yLow {
      var prev := CellsUpTo(b, j - 1);
      var row := CellRun(j - 1, b.xLow, b.xHigh);
      CellsUpToOrder(b, j - 1);
      forall p, q | 0 <= p < |prev| && 0 <= q < |row|
        ensures Before(prev[p], row[q])
      {
        assert prev[p] in prev;
        CellsUpToMember(b, j - 1, prev[p]);
      }
      RowMajorAppend(prev, row);
    }
  }

  /** A full pass visits every cell of the bounds, once each, in row-major order. */
  lemma ScheduleVisitsBounds(b: Bounds)
    requires WellFormed(b)
    ensures RowMajor(PixelsOf(Schedule(b)))
    ensures forall c :: c in PixelsOf(Schedule(b)) <==> InBounds(b, c)
  {
    RowsUpToCellsUpTo(b, b.yHigh);
    CellsUpToMembers(b, b.yHigh);
    CellsUpToOrder(b, b.yHigh);
  }

  /** Rows yLow .. j-1 come first in the schedule, in the same order. */
  lemma {:induction false} RowsUpToPrefix(b: Bounds, j: int, j': int)
    requires WellFormed(b) && b.yLow <= j <= j'
    ensures RowsUpTo(b, j) <= RowsUpTo(b, j')
    decreases j' - j
  {
    if j < j' {
      RowsUpToPrefix(b, j, j' - 1);
    }
  }

  /** Index in the schedule of the check before pixel (j, i). */
  function PixelIndex(b: Bounds, j: int, i: int): int
    requires WellFormed(b) && b.yLow <= j
  {
    |RowsUpTo(b, j)| + 1 + (i - b.xLow)
  }

  /** A sequence that extends `pre + row` holds row's q-th step at |pre| + q. */
  lemma ExtendsAt(pre: seq<Step>, row: seq<Step>, t: seq<Step>, q: int)
    requires pre + row <= t && 0 <= q < |row|
    ensures t[|pre| + q] == row[q]
  {
    assert t[|pre| + q] == (pre + row)[|pre| + q];
  }

  /** Where row j's steps sit inside the schedule. */
  lemma ScheduleRow(b: Bounds, j: int)
    requires WellFormed(b) && b.yLow <= j < b.yHigh
    ensures |RowsUpTo(b, j)| + |RowSteps(b, j)| <= |Schedule(b)|
    ensures Schedule(b)[|RowsUpTo(b, j)|] == RowStart(j)
    ensures forall i :: b.xLow <= i < b.xHigh ==> Schedule(b)[PixelIndex(b, j, i)] == Pixel(j, i)
  {
    ScheduleRowStart(b, j);
    forall i | b.xLow <= i < b.xHigh
      ensures Schedule(b)[PixelIndex(b, j, i)] == Pixel(j, i)
    {
      SchedulePixel(b, j, i);
    }
  }

  /** Row j's check sits right after the steps of the rows before it. */
  lemma ScheduleRowStart(b: Bounds, j: int)
    requires WellFormed(b) && b.yLow <= j < b.yHigh
    ensures |RowsUpTo(b, j)| + |RowSteps(b, j)| <= |Schedule(b)|
    ensures Schedule(b)[|RowsUpTo(b, j)|] == RowStart(j)
  {
    RowStepsInSchedule(b, j);
    ExtendsAt(RowsUpTo(b, j), RowSteps(b, j), Schedule(b), 0);
  }

  /** Pixel (j, i) sits at PixelIndex(b, j, i) of the schedule. */
  lemma SchedulePixel(b: Bounds, j: int, i: int)
    requires WellFormed(b) && b.yLow <= j < b.yHigh && b.xLow <= i < b.xHigh
    ensures PixelIndex(b, j, i) < |Schedule(b)|
    ensures Schedule(b)[PixelIndex(b, j, i)] == Pixel(j, i)
  {
    RowStepsInSchedule(b, j);
    ExtendsAt(RowsUpTo(b, j), RowSteps(b, j), Schedule(b), 1 + (i - b.xLow));
    RowStepsPixel(b, j, i);
  }

  lemma RowStepsInSchedule(b: Bounds, j: int)
    requires WellFormed(b) && b.yLow <= j < b.yHigh
    ensures RowsUpTo(b, j) + RowSteps(b, j) <= Schedule(b)
  {
    assert RowsUpTo(b, j + 1) == RowsUpTo(b, j) + RowSteps(b, j);
    RowsUpToPrefix(b, j + 1, b.yHigh);
  }

  lemma RowStepsPixel(b: Bounds, j: int, i: int)
    requires WellFormed(b) && b.xLow <= i < b.xHigh
    ensures RowSteps(b, j)[1 + (i - b.xLow)] == Pixel(j, i)
  {
    assert RowSteps(b, j)[1 + (i - b.xLow)] == PixelRun(j, b.xLow, b.xHigh)[i - b.xLow];
  }

  /** The step stays inside the traversal ranges. */
  predicate StepWithin(b: Bounds, st: Step)
  {
    match st
    case RowStart(j) => b.yLow <= j < b.yHigh
    case Pixel(j, i) => InBounds(b, Cell(j, i))
  }

  lemma {:induction false} RowsUpToWithin(b: Bounds, j: int)
    requires WellFormed(b) && b.yLow <= j <= b.yHigh
    ensures forall k :: 0 <= k < |RowsUpTo(b, j)| ==> StepWithin(b, RowsUpTo(b, j)[k])
    decreases j - b.yLow
  {
    if j > b.yLow {
      RowsUpToWithin(b, j - 1);
      var pre := RowsUpTo(b, j - 1);
      var row := RowSteps(b, j - 1);
      forall k | 0 <= k < |pre + row|
        ensures StepWithin(b, (pre + row)[k])
      {
        if k >= |pre| {
          var q := k - |pre|;
          assert (pre + row)[k] == row[q];
          if q > 0 {
            assert row[q] == PixelRun(j - 1, b.xLow, b.xHigh)[q - 1];
          }
        }
      }
    }
  }

  /** Every step of a pass lies inside the traversal ranges. */
  lemma ScheduleWithin(b: Bounds)
    requires WellFormed(b)
    ensures forall k :: 0 <= k < |Schedule(b)| ==> StepWithin(b, Schedule(b)[k])
  {
    RowsUpToWithin(b, b.yHigh);
  }

  lemma {:induction false} CellsUpToLength(b: Bounds, j: int)
    requires WellFormed(b) && b.yLow <= j
    ensures |CellsUpTo(b, j)| == (j - b.yLow) * (b.xHigh - b.xLow)
    decreases j - b.yLow
  {
    if j > b.yLow {
      CellsUpToLength(b, j - 1);
      assert (j - b.yLow) * (b.xHigh - b.xLow) == (j - 1 - b.yLow) * (b.xHigh - b.xLow) + (b.xHigh - b.xLow);
    }
  }

  /** A full pass visits rows x columns cells. */
  lemma ScheduleCellCount(b: Bounds)
    requires WellFormed(b)
    ensures |PixelsOf(Schedule(b))| == (b.yHigh - b.yLow) * (b.xHigh - b.xLow)
  {
    RowsUpToCellsUpTo(b, b.yHigh);
    CellsUpToLength(b, b.yHigh);
  }

  lemma {:induction false} RowsUpToLength(b: Bounds, j: int)
    requires WellFormed(b) && b.yLow <= j
    ensures |RowsUpTo(b, j)| == (j - b.yLow) * (1 + b.xHigh - b.xLow)
    decreases j - b.yLow
  {
    if j > b.yLow {
      RowsUpToLength(b, j - 1);
      assert (j - b.yLow) * (1 + b.xHigh - b.xLow) ==
        (j - 1 - b.yLow) * (1 + b.xHigh - b.xLow) + (1 + b.xHigh - b.xLow);
    }
  }

  /** A full pass makes one check per row and one per pixel. */
  lemma ScheduleLength(b: Bounds)
    requires WellFormed(b)
    ensures |Schedule(b)| == (b.yHigh - b.yLow) * (1 + b.xHigh - b.xLow)
  {
    RowsUpToLength(b, b.yHigh);
  }

  /** A pass over the whole frame makes res row checks and res * res pixel steps. */
  lemma FullFrameScheduleLength(res: nat)
    ensures |Schedule(FullFrame(res))| == res * (res + 1)
  {
    ScheduleLength(FullFrame(res));
  }
}
