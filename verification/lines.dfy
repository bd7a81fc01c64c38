/** `line` of main.cpp: a slope-intercept line drawer in integer arithmetic.

    A segment that is not vertical is drawn column by column over the
    half-open range from its smaller to its larger x; in each column the run
    of rows between the line's value there and at the next column is filled,
    both ends included. A vertical segment fills a half-open range of rows
    in its one column. Every write is clipped to the canvas.
 */
module Lines {
  import opened Arith
  import opened Canvas
  import Memory

  /** The offset `c = y1 - dy * x1 / dx`, computed from the first endpoint:
      `y1 - c` is the C++ quotient of `dy * x1` by `dx`. */
  function Intercept(x1: int, y1: int, x2: int, y2: int): (c: int)
    requires x1 != x2
    ensures IsTruncQuotient((y2 - y1) * x1, x2 - x1, y1 - c)
  {
    y1 - TruncDiv((y2 - y1) * x1, x2 - x1)
  }

  /** `dy * x / dx + c`: the row the line takes at column `x`; its distance
      from the offset is the C++ quotient of `dy * x` by `dx`. */
  function RowAt(x1: int, y1: int, x2: int, y2: int, x: int): (r: int)
    requires x1 != x2
    ensures IsTruncQuotient((y2 - y1) * x, x2 - x1, r - Intercept(x1, y1, x2, y2))
  {
    TruncDiv((y2 - y1) * x, x2 - x1) + Intercept(x1, y1, x2, y2)
  }

  /** The lower and upper row of the run a sloped line fills at column `x`:
      its rows at `x` and at `x + 1`, in order. */
  function RunLow(x1: int, y1: int, x2: int, y2: int, x: int): int
    requires x1 != x2
  {
    Min(RowAt(x1, y1, x2, y2, x), RowAt(x1, y1, x2, y2, x + 1))
  }

  function RunHigh(x1: int, y1: int, x2: int, y2: int, x: int): int
    requires x1 != x2
  {
    Max(RowAt(x1, y1, x2, y2, x), RowAt(x1, y1, x2, y2, x + 1))
  }

  /** Whether `line(x1, y1, x2, y2)` sets pixel `q`. */
  predicate OnLine(x1: int, y1: int, x2: int, y2: int, q: Pixel) {
    && OnCanvas(q)
    && if x1 != x2 then
         && Min(x1, x2) <= q.0 < Max(x1, x2)
         && RunLow(x1, y1, x2, y2, q.0) <= q.1 <= RunHigh(x1, y1, x2, y2, q.0)
       else
         q.0 == x1 && Min(y1, y2) <= q.1 < Max(y1, y2)
  }

  /** The set of pixels `line(x1, y1, x2, y2)` sets. */
  function LinePixels(x1: int, y1: int, x2: int, y2: int): (s: set<Pixel>)
    ensures forall q :: q in s <==> OnLine(x1, y1, x2, y2, q)
  {
    set x, p | 0 <= x < Width && 0 <= p < Height && OnLine(x1, y1, x2, y2, (x, p)) :: (x, p)
  }

  /** The pixels of `s` left of column `x`. */
  function Before(s: set<Pixel>, x: int): set<Pixel> {
    set q | q in s && q.0 < x
  }

  /** The on-canvas pixels of column `x` in rows `[from, to)`. */
  function Rows(x: int, from: int, to: int): (r: set<Pixel>)
    ensures forall q :: q in r <==> q.0 == x && from <= q.1 < to && OnCanvas(q)
  {
    if 0 <= x < Width then set p | from <= p < to && 0 <= p < Height :: (x, p) else {}
  }

  /** The innermost loops of `line`: rows `from` up to, not including, `to`
      of column `x` are set, those off the canvas skipped. */
  method FillRows(img: Image, x: int, from: int, to: int) returns (out: Image)
    requires 0 <= x < Width
    ensures out == img + Rows(x, from, to)
  {
    out := img;
    var p := from;
    while p < to
      invariant p == from || from < p <= to
      invariant out == img + Rows(x, from, p)
    {
      if 0 <= p < Height {
        assert Rows(x, from, p + 1) == Rows(x, from, p) + {(x, p)};
        out := out + {(x, p)};
      } else {
        assert Rows(x, from, p + 1) == Rows(x, from, p);
      }
      p := p + 1;
    }
    if p == from {
      assert Rows(x, from, p) == {} == Rows(x, from, to);
    }
  }

  /** The body of the column loop of `line`: the two row bounds are put in
      order with `swapInt` and the rows between them, both included, are set. */
  method FillRun(img: Image, x: int, y: int, error: int) returns (out: Image)
    requires 0 <= x < Width
    ensures out == img + Rows(x, Min(y, error), Max(y, error) + 1)
  {
    var run := [y, error];
    if error < y {
      run := Memory.SwapInt(run, 0, 1);
    }
    out := FillRows(img, x, run[0], run[1] + 1);
  }

  /** The on-canvas pixels the column loop visits at column `x`. */
  function ColumnRun(x1: int, y1: int, x2: int, y2: int, x: int): set<Pixel>
    requires x1 != x2
  {
    Rows(x, RunLow(x1, y1, x2, y2, x), RunHigh(x1, y1, x2, y2, x) + 1)
  }

  /** Column `x` of a sloped line is its run there: adding the run to the
      columns left of `x` gives the columns left of `x + 1`. */
  lemma SlopedColumn(x1: int, y1: int, x2: int, y2: int, x: int)
    requires x1 != x2 && Min(x1, x2) <= x < Max(x1, x2)
    ensures Before(LinePixels(x1, y1, x2, y2), x) + ColumnRun(x1, y1, x2, y2, x)
            == Before(LinePixels(x1, y1, x2, y2), x + 1)
  {
  }

  /** The column `x` step of the loop of `line` for a sloped segment; `dy`,
      `dx` and `c` are the loop's slope and offset. */
  method DrawColumn(img: Image, x1: int, y1: int, x2: int, y2: int, dx: int, dy: int, c: int, x: int)
    returns (out: Image)
    requires dx == x2 - x1 && dy == y2 - y1 && dx != 0 && c == Intercept(x1, y1, x2, y2)
    ensures out == img + ColumnRun(x1, y1, x2, y2, x)
  {
    out := img;
    if 0 <= x < Width {
      var y := TruncDiv(dy * x, dx) + c;
      var error := TruncDiv(dy * (x + 1), dx) + c;
      assert Rows(x, Min(y, error), Max(y, error) + 1) == ColumnRun(x1, y1, x2, y2, x);
      out := FillRun(out, x, y, error);
    } else {
      assert ColumnRun(x1, y1, x2, y2, x) == {};
    }
  }

  /** The branch of `line` for `dx != 0`. */
  method SlopedLine(img: Image, x1: int, y1: int, x2: int, y2: int) returns (out: Image)
    requires x1 != x2
    ensures out == img + LinePixels(x1, y1, x2, y2)
  {
    var dx := x2 - x1;
    var dy := y2 - y1;
    ghost var s := LinePixels(x1, y1, x2, y2);
    var c := y1 - TruncDiv(dy * x1, dx);
    var ends := [x1, x2];
    if x2 < x1 {
      ends := Memory.SwapInt(ends, 0, 1);
    }
    var lo, hi := ends[0], ends[1];
    assert lo == Min(x1, x2) && hi == Max(x1, x2);
    assert Before(s, lo) == {};
    out := img;
    var x := lo;
    while x < hi
      invariant lo <= x <= hi
      invariant out == img + Before(s, x)
    {
      SlopedColumn(x1, y1, x2, y2, x);
      out := DrawColumn(out, x1, y1, x2, y2, dx, dy, c, x);
      x := x + 1;
    }
    assert Before(s, x) == s;
  }

  /** The branch of `line` for `dx == 0`. */
  method VerticalLine(img: Image, x1: int, y1: int, x2: int, y2: int) returns (out: Image)
    requires x1 == x2
    ensures out == img + LinePixels(x1, y1, x2, y2)
  {
    ghost var s := LinePixels(x1, y1, x2, y2);
    out := img;
    var x := x1;
    if 0 <= x < Width {
      var ys := [y1, y2];
      if y2 < y1 {
        ys := Memory.SwapInt(ys, 0, 1);
      }
      assert s == Rows(x, ys[0], ys[1]);
      out := FillRows(out, x, ys[0], ys[1]);
    } else {
      assert s == {};
    }
  }

  /** `line(image, color, x1, y1, x2, y2)`: afterwards the image holds exactly
      the pixels it held before and those of `LinePixels`. */
  method Line(img: Image, x1: int, y1: int, x2: int, y2: int) returns (out: Image)
    ensures out == img + LinePixels(x1, y1, x2, y2)
  {
    var dx := x2 - x1;
    if dx != 0 {
      out := SlopedLine(img, x1, y1, x2, y2);
    } else {
      out := VerticalLine(img, x1, y1, x2, y2);
    }
  }
}
