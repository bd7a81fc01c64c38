/** What the pixels set by `line` are: where they lie, which columns and
    rows they occupy, and the special shapes (horizontal, vertical, empty,
    the main diagonal). */
module LineFacts {
  import opened Arith
  import opened Canvas
  import opened Lines

  /** Rightward case of `RowWithinEndpoints`, on the quotients alone. */
  lemma QuotientSpanRight(x1: int, x: int, dx: int, dy: int)
    requires 0 < dx && x1 <= x <= x1 + dx
    ensures Min(0, dy) <= TruncDiv(dy * x, dx) - TruncDiv(dy * x1, dx) <= Max(0, dy)
  {
    assert dy * x == dy * x1 + dy * (x - x1);
    TruncDivSpan(dy * x1, dy, x - x1, dx);
  }

  /** Leftward case of `RowWithinEndpoints`, on the quotients alone. */
  lemma QuotientSpanLeft(x1: int, x: int, dx: int, dy: int)
    requires dx < 0 && x1 + dx <= x <= x1
    ensures Min(0, dy) <= TruncDiv(dy * x, dx) - TruncDiv(dy * x1, dx) <= Max(0, dy)
  {
    TruncDivNegateBoth(dy * x, dx);
    TruncDivNegateBoth(dy * x1, dx);
    assert -(dy * x) == -(dy * x1) + dy * (x1 - x);
    TruncDivSpan(-(dy * x1), dy, x1 - x, -dx);
  }

  /** The line's row at any column between its endpoints stays between the
      endpoints' rows: truncation never carries it past either end. */
  lemma RowWithinEndpoints(x1: int, y1: int, x2: int, y2: int, x: int)
    requires x1 != x2 && Min(x1, x2) <= x <= Max(x1, x2)
    ensures Min(y1, y2) <= RowAt(x1, y1, x2, y2, x) <= Max(y1, y2)
  {
    if x1 < x2 {
      QuotientSpanRight(x1, x, x2 - x1, y2 - y1);
    } else {
      QuotientSpanLeft(x1, x, x2 - x1, y2 - y1);
    }
  }

  /** Every pixel `line` sets is on the canvas and inside the bounding box of
      the two endpoints. */
  lemma LineInBoundingBox(x1: int, y1: int, x2: int, y2: int, q: Pixel)
    requires q in LinePixels(x1, y1, x2, y2)
    ensures OnCanvas(q)
    ensures Min(x1, x2) <= q.0 <= Max(x1, x2)
    ensures Min(y1, y2) <= q.1 <= Max(y1, y2)
  {
    if x1 != x2 {
      RowWithinEndpoints(x1, y1, x2, y2, q.0);
      RowWithinEndpoints(x1, y1, x2, y2, q.0 + 1);
    }
  }

  /** A sloped line occupies only the columns `[min(x1, x2), max(x1, x2))`:
      the column of the endpoint with the larger x is never drawn. */
  lemma SlopedLineColumns(x1: int, y1: int, x2: int, y2: int)
    requires x1 != x2
    ensures forall q :: q in LinePixels(x1, y1, x2, y2) ==> Min(x1, x2) <= q.0 < Max(x1, x2)
    ensures forall p :: (Max(x1, x2), p) !in LinePixels(x1, y1, x2, y2)
  {
  }

  /** Column `x` of a sloped line holds exactly the on-canvas rows between
      the line's rows at `x` and at `x + 1`, both included. */
  lemma SlopedLineColumn(x1: int, y1: int, x2: int, y2: int, x: int, p: int)
    requires x1 != x2 && Min(x1, x2) <= x < Max(x1, x2) && OnCanvas((x, p))
    ensures (x, p) in LinePixels(x1, y1, x2, y2)
            <==> Min(RowAt(x1, y1, x2, y2, x), RowAt(x1, y1, x2, y2, x + 1)) <= p
                 && p <= Max(RowAt(x1, y1, x2, y2, x), RowAt(x1, y1, x2, y2, x + 1))
  {
  }

  /** The line passes through its first endpoint: its row there is `y1`. */
  lemma RowAtFirstEndpoint(x1: int, y1: int, x2: int, y2: int)
    requires x1 != x2
    ensures RowAt(x1, y1, x2, y2, x1) == y1
  {
  }

  /** When the first endpoint is the left one and on the canvas, it is drawn. */
  lemma FirstEndpointDrawn(x1: int, y1: int, x2: int, y2: int)
    requires x1 < x2 && OnCanvas((x1, y1))
    ensures (x1, y1) in LinePixels(x1, y1, x2, y2)
  {
    RowAtFirstEndpoint(x1, y1, x2, y2);
  }

  /** Consecutive columns of a sloped line share a row, the line's row at the
      second of them, so the drawn pixels leave no gap between columns. */
  lemma ColumnsMeet(x1: int, y1: int, x2: int, y2: int, x: int)
    requires x1 != x2 && Min(x1, x2) <= x && x + 1 < Max(x1, x2)
    requires OnCanvas((x, RowAt(x1, y1, x2, y2, x + 1)))
    requires OnCanvas((x + 1, RowAt(x1, y1, x2, y2, x + 1)))
    ensures (x, RowAt(x1, y1, x2, y2, x + 1)) in LinePixels(x1, y1, x2, y2)
    ensures (x + 1, RowAt(x1, y1, x2, y2, x + 1)) in LinePixels(x1, y1, x2, y2)
  {
  }

  /** A horizontal line sets only row `y`, in the columns `[min, max)`. */
  lemma HorizontalLine(x1: int, x2: int, y: int)
    requires x1 != x2
    ensures forall q :: q in LinePixels(x1, y, x2, y) <==> OnCanvas(q) && q.1 == y && Min(x1, x2) <= q.0 < Max(x1, x2)
  {
    forall x
      ensures RowAt(x1, y, x2, y, x) == y
    {
      assert (y - y) * x == 0 * (x2 - x1);
      TruncDivExact(0, x2 - x1);
    }
  }

  /** A vertical line sets only column `x`, in the rows `[min, max)`. */
  lemma VerticalLineRows(x: int, y1: int, y2: int)
    ensures forall q :: q in LinePixels(x, y1, x, y2) <==> OnCanvas(q) && q.0 == x && Min(y1, y2) <= q.1 < Max(y1, y2)
  {
  }

  /** A line whose endpoints coincide sets no pixel. */
  lemma ZeroLengthLine(x: int, y: int)
    ensures LinePixels(x, y, x, y) == {}
  {
  }

  /** The pixel set depends on which endpoint comes first: the offset is
      taken from the first endpoint and truncation is not shift-invariant.
      From `(-1, y)` to `(1, y + 1)` column 0 gets row `y`; from `(1, y + 1)`
      to `(-1, y)` it gets row `y + 1` instead. */
  lemma EndpointOrderMatters(y: int)
    requires 0 <= y && y + 1 < Height
    ensures (0, y) in LinePixels(-1, y, 1, y + 1)
    ensures (0, y) !in LinePixels(1, y + 1, -1, y)
    ensures LinePixels(-1, y, 1, y + 1) != LinePixels(1, y + 1, -1, y)
  {
    ForwardRows(y);
    BackwardRows(y);
    assert OnLine(-1, y, 1, y + 1, (0, y));
    assert !OnLine(1, y + 1, -1, y, (0, y));
  }

  /** The row of a line at column `x` from the two truncated quotients it is
      made of: the slope term at `x` and the one at the first endpoint. */
  lemma RowFromQuotients(x1: int, y1: int, x2: int, y2: int, x: int, qx: int, q1: int)
    requires x1 != x2
    requires IsTruncQuotient((y2 - y1) * x, x2 - x1, qx)
    requires IsTruncQuotient((y2 - y1) * x1, x2 - x1, q1)
    ensures RowAt(x1, y1, x2, y2, x) == qx + y1 - q1
  {
    TruncDivUnique((y2 - y1) * x, x2 - x1, qx);
    TruncDivUnique((y2 - y1) * x1, x2 - x1, q1);
  }

  /** Drawn from `(-1, y)`, the line keeps row `y` over columns 0 and 1. */
  lemma ForwardRows(y: int)
    ensures RowAt(-1, y, 1, y + 1, 0) == y && RowAt(-1, y, 1, y + 1, 1) == y
  {
    RowFromQuotients(-1, y, 1, y + 1, 0, 0, 0);
    RowFromQuotients(-1, y, 1, y + 1, 1, 0, 0);
  }

  /** Drawn from `(1, y + 1)`, the line keeps row `y + 1` over columns 0 and 1. */
  lemma BackwardRows(y: int)
    ensures RowAt(1, y + 1, -1, y, 0) == y + 1 && RowAt(1, y + 1, -1, y, 1) == y + 1
  {
    RowFromQuotients(1, y + 1, -1, y, 0, 0, 0);
    RowFromQuotients(1, y + 1, -1, y, 1, 0, 0);
  }

  /** A segment on the diagonal `y = x`, from `(a, a)` to `(b, b)`, sets two
      rows, `x` and `x + 1`, in each column `x` of `[min(a, b), max(a, b))`,
      and nothing in the last column. */
  lemma Diagonal(a: int, b: int)
    requires a != b
    ensures forall q :: q in LinePixels(a, a, b, b)
                        <==> OnCanvas(q) && Min(a, b) <= q.0 < Max(a, b) && (q.1 == q.0 || q.1 == q.0 + 1)
  {
    forall x
      ensures RowAt(a, a, b, b, x) == x
    {
      assert (b - a) * x == x * (b - a);
      assert (b - a) * a == a * (b - a);
      TruncDivExact(x, b - a);
      TruncDivExact(a, b - a);
    }
  }

  /** Columns `[lo, hi)` of the diagonal `y = x`, two rows each. */
  ghost function DiagonalRun(lo: int, hi: int): set<Pixel> {
    set x, p | lo <= x < hi && x <= p <= x + 1 :: (x, p)
  }

  /** Two pixels per column: the run over `[lo, hi)` has `2 * (hi - lo)`. */
  lemma {:induction false} DiagonalRunSize(lo: int, hi: int)
    requires lo <= hi
    ensures |DiagonalRun(lo, hi)| == 2 * (hi - lo)
    decreases hi - lo
  {
    if lo == hi {
      assert DiagonalRun(lo, hi) == {};
    } else {
      var last := {(hi - 1, hi - 1), (hi - 1, hi)};
      assert DiagonalRun(lo, hi) == DiagonalRun(lo, hi - 1) + last;
      assert DiagonalRun(lo, hi - 1) * last == {};
      DiagonalRunSize(lo, hi - 1);
    }
  }

  /** A segment on the diagonal `y = x` that stays on the canvas sets two
      pixels per column, `2 * |b - a|` in all: from `(0, 0)` to `(99, 99)`
      that is 198 pixels, not one per step. */
  lemma DiagonalCount(a: int, b: int)
    requires 0 <= a < Width && 0 <= b < Width
    ensures |LinePixels(a, a, b, b)| == 2 * Abs(b - a)
  {
    if a == b {
      ZeroLengthLine(a, a);
    } else {
      Diagonal(a, b);
      assert LinePixels(a, a, b, b) == DiagonalRun(Min(a, b), Max(a, b));
    }
    DiagonalRunSize(Min(a, b), Max(a, b));
  }
}
