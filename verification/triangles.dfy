/** `triangle` of main.cpp: an edge-pair column fill.

    The vertices are first sorted by x with three compare-and-swaps, each of
    which moves a vertex's y together with its x. Calling the sorted vertices
    A, B and C, every column from A.x up to, not including, C.x receives a
    vertical `line` from the long edge A→C to the active short edge: A→B left
    of B.x, B→C from B.x on. The three edge offsets divide by the edges'
    horizontal extents, so the routine is defined only when the three x
    coordinates are pairwise distinct.
 */
module Triangles {
  import opened Arith
  import opened Canvas
  import opened Lines
  import opened LineFacts
  import Memory

  datatype Point = Point(x: int, y: int)

  /** The vertices' x coordinates are pairwise distinct: no edge of the
      triangle is vertical, so none of the three offsets divides by zero. */
  predicate DistinctColumns(a: Point, b: Point, c: Point) {
    a.x != b.x && b.x != c.x && a.x != c.x
  }

  /** Vertex `k` of the six cells `x0, y0, x1, y1, x2, y2`. */
  function Vertex(m: seq<int>, k: nat): Point
    requires |m| == 6 && k < 3
  {
    Point(m[2 * k], m[2 * k + 1])
  }

  /** One of the three guarded swaps of `triangle`: when vertex `i` lies right
      of vertex `j`, their y cells and then their x cells are exchanged, so
      the two vertices trade places whole and the third is left alone. */
  function CompareSwap(m: seq<int>, i: nat, j: nat): (r: seq<int>)
    requires |m| == 6 && i < j < 3
    ensures |r| == 6
    ensures r[2 * i] <= r[2 * j]
    ensures m[2 * i] > m[2 * j] ==> Vertex(r, i) == Vertex(m, j) && Vertex(r, j) == Vertex(m, i)
    ensures m[2 * i] <= m[2 * j] ==> Vertex(r, i) == Vertex(m, i) && Vertex(r, j) == Vertex(m, j)
    ensures forall k :: 0 <= k < 3 && k != i && k != j ==> Vertex(r, k) == Vertex(m, k)
    ensures multiset{Vertex(r, 0), Vertex(r, 1), Vertex(r, 2)} == multiset{Vertex(m, 0), Vertex(m, 1), Vertex(m, 2)}
  {
    if m[2 * i] > m[2 * j] then
      var r := Memory.SwapInt(Memory.SwapInt(m, 2 * i + 1, 2 * j + 1), 2 * i, 2 * j);
      SwapVertices(m, r, i, j);
      r
    else
      m
  }

  /** Swapping the y cells and then the x cells of vertices `i` and `j`
      exchanges the two vertices whole and keeps the multiset of vertices. */
  lemma SwapVertices(m: seq<int>, r: seq<int>, i: nat, j: nat)
    requires |m| == 6 && i < j < 3
    requires r == Memory.SwapInt(Memory.SwapInt(m, 2 * i + 1, 2 * j + 1), 2 * i, 2 * j)
    ensures |r| == 6
    ensures Vertex(r, i) == Vertex(m, j) && Vertex(r, j) == Vertex(m, i)
    ensures forall k :: 0 <= k < 3 && k != i && k != j ==> Vertex(r, k) == Vertex(m, k)
    ensures multiset{Vertex(r, 0), Vertex(r, 1), Vertex(r, 2)} == multiset{Vertex(m, 0), Vertex(m, 1), Vertex(m, 2)}
  {
    if i == 0 && j == 1 {
      SwapCells(m, 0, 1, r);
    } else if i == 0 {
      SwapCells(m, 0, 2, r);
    } else {
      SwapCells(m, 1, 2, r);
    }
  }

  /** The six cells after vertices `i` and `j` are swapped, for each of the
      three pairs. */
  lemma SwapCells(m: seq<int>, i: nat, j: nat, r: seq<int>)
    requires |m| == 6 && i < j < 3
    requires r == Memory.SwapInt(Memory.SwapInt(m, 2 * i + 1, 2 * j + 1), 2 * i, 2 * j)
    ensures i == 0 && j == 1 ==> r == [m[2], m[3], m[0], m[1], m[4], m[5]]
    ensures i == 0 && j == 2 ==> r == [m[4], m[5], m[2], m[3], m[0], m[1]]
    ensures i == 1 && j == 2 ==> r == [m[0], m[1], m[4], m[5], m[2], m[3]]
  {
  }

  /** The vertices of `triangle` after its sort: ordered by x, and the same
      three vertices as given. */
  function Sorted(a: Point, b: Point, c: Point): (r: (Point, Point, Point))
    ensures r.0.x <= r.1.x <= r.2.x
    ensures multiset{r.0, r.1, r.2} == multiset{a, b, c}
  {
    var m0 := [a.x, a.y, b.x, b.y, c.x, c.y];
    assert Vertex(m0, 0) == a && Vertex(m0, 1) == b && Vertex(m0, 2) == c;
    var m1 := CompareSwap(m0, 0, 1);
    var m2 := CompareSwap(m1, 1, 2);
    var m3 := CompareSwap(m2, 0, 1);
    (Vertex(m3, 0), Vertex(m3, 1), Vertex(m3, 2))
  }

  /** Three vertices in strictly increasing x, as the fill needs them. */
  predicate Ascending(v: (Point, Point, Point)) {
    v.0.x < v.1.x < v.2.x
  }

  /** `rly0`: the row of the long edge A→C at column `x`. It starts at A and
      stays between the rows of A and C over the fill's columns. */
  function LongRow(v: (Point, Point, Point), x: int): (r: int)
    requires Ascending(v)
    ensures x == v.0.x ==> r == v.0.y
    ensures v.0.x <= x <= v.2.x ==> Min(v.0.y, v.2.y) <= r <= Max(v.0.y, v.2.y)
  {
    RowAtFirstEndpoint(v.0.x, v.0.y, v.2.x, v.2.y);
    if v.0.x <= x <= v.2.x then
      RowWithinEndpoints(v.0.x, v.0.y, v.2.x, v.2.y, x);
      RowAt(v.0.x, v.0.y, v.2.x, v.2.y, x)
    else
      RowAt(v.0.x, v.0.y, v.2.x, v.2.y, x)
  }

  /** `rly1`: the row of the short edge active at column `x`, A→B left of
      B.x and B→C from B.x on. It starts at A, passes through B, and stays
      between the rows of the active edge's endpoints. */
  function ShortRow(v: (Point, Point, Point), x: int): (r: int)
    requires Ascending(v)
    ensures x == v.0.x ==> r == v.0.y
    ensures x == v.1.x ==> r == v.1.y
    ensures v.0.x <= x < v.1.x ==> Min(v.0.y, v.1.y) <= r <= Max(v.0.y, v.1.y)
    ensures v.1.x <= x <= v.2.x ==> Min(v.1.y, v.2.y) <= r <= Max(v.1.y, v.2.y)
  {
    if x < v.1.x then
      RowAtFirstEndpoint(v.0.x, v.0.y, v.1.x, v.1.y);
      if v.0.x <= x then
        RowWithinEndpoints(v.0.x, v.0.y, v.1.x, v.1.y, x);
        RowAt(v.0.x, v.0.y, v.1.x, v.1.y, x)
      else
        RowAt(v.0.x, v.0.y, v.1.x, v.1.y, x)
    else
      RowAtFirstEndpoint(v.1.x, v.1.y, v.2.x, v.2.y);
      if x <= v.2.x then
        RowWithinEndpoints(v.1.x, v.1.y, v.2.x, v.2.y, x);
        RowAt(v.1.x, v.1.y, v.2.x, v.2.y, x)
      else
        RowAt(v.1.x, v.1.y, v.2.x, v.2.y, x)
  }

  /** Whether the fill over the ascending vertices `v` sets pixel `q`: it lies
      on the canvas, in a column from A.x up to C.x, and between the two
      edge rows there, lower bound included and upper bound excluded. */
  predicate InFill(v: (Point, Point, Point), q: Pixel)
    requires Ascending(v)
  {
    && OnCanvas(q)
    && v.0.x <= q.0 < v.2.x
    && Min(LongRow(v, q.0), ShortRow(v, q.0)) <= q.1 < Max(LongRow(v, q.0), ShortRow(v, q.0))
  }

  /** The pixels the fill over the ascending vertices `v` sets. */
  function FillPixels(v: (Point, Point, Point)): (s: set<Pixel>)
    requires Ascending(v)
    ensures forall q :: q in s <==> InFill(v, q)
  {
    set x, p | 0 <= x < Width && 0 <= p < Height && InFill(v, (x, p)) :: (x, p)
  }

  /** Two triples holding the same multiset of vertices hold the same
      vertices: each member of one is a member of the other. */
  lemma SameVertices(a: Point, b: Point, c: Point, v: (Point, Point, Point))
    requires multiset{v.0, v.1, v.2} == multiset{a, b, c}
    ensures v.0 == a || v.0 == b || v.0 == c
    ensures v.1 == a || v.1 == b || v.1 == c
    ensures v.2 == a || v.2 == b || v.2 == c
    ensures a == v.0 || a == v.1 || a == v.2
    ensures b == v.0 || b == v.1 || b == v.2
    ensures c == v.0 || c == v.1 || c == v.2
  {
    assert v.0 in multiset{a, b, c} && v.1 in multiset{a, b, c} && v.2 in multiset{a, b, c};
    assert a in multiset{v.0, v.1, v.2} && b in multiset{v.0, v.1, v.2} && c in multiset{v.0, v.1, v.2};
  }

  /** With distinct x coordinates the sort is strict. */
  lemma SortedAscending(a: Point, b: Point, c: Point)
    requires DistinctColumns(a, b, c)
    ensures Ascending(Sorted(a, b, c))
  {
    SameVertices(a, b, c, Sorted(a, b, c));
  }

  /** The pixels `triangle(a, b, c)` sets. */
  function TrianglePixels(a: Point, b: Point, c: Point): set<Pixel>
    requires DistinctColumns(a, b, c)
  {
    SortedAscending(a, b, c);
    FillPixels(Sorted(a, b, c))
  }

  /** Column `x` of the fill is the vertical `line` from the long edge's row
      to the short edge's row there. */
  lemma FillColumn(v: (Point, Point, Point), x: int)
    requires Ascending(v) && v.0.x <= x < v.2.x
    ensures Before(FillPixels(v), x) + LinePixels(x, LongRow(v, x), x, ShortRow(v, x))
            == Before(FillPixels(v), x + 1)
  {
  }

  /** The column loop of `triangle` over sorted vertices, with the three edge
      offsets computed as the source computes them. */
  method Fill(img: Image, x0: int, y0: int, x1: int, y1: int, x2: int, y2: int) returns (out: Image)
    requires x0 < x1 < x2
    ensures out == img + FillPixels((Point(x0, y0), Point(x1, y1), Point(x2, y2)))
  {
    ghost var v := (Point(x0, y0), Point(x1, y1), Point(x2, y2));
    ghost var s := FillPixels(v);
    var cdy := y1 - y0;
    var cdx := x1 - x0;
    var cc := y0 - TruncDiv(cdy * x0, cdx);
    var bdy := y2 - y0;
    var bdx := x2 - x0;
    var bc := y0 - TruncDiv(bdy * x0, bdx);
    var ady := y2 - y1;
    var adx := x2 - x1;
    var ac := y1 - TruncDiv(ady * x1, adx);
    assert Before(s, x0) == {};
    out := img;
    var x := x0;
    while x < x2
      invariant x0 <= x <= x2
      invariant out == img + Before(s, x)
    {
      var rly1;
      var rly0 := TruncDiv(bdy * x, bdx) + bc;
      if x < x1 {
        rly1 := TruncDiv(cdy * x, cdx) + cc;
      } else {
        rly1 := TruncDiv(ady * x, adx) + ac;
      }
      assert rly0 == LongRow(v, x) && rly1 == ShortRow(v, x);
      FillColumn(v, x);
      out := Line(out, x, rly0, x, rly1);
      x := x + 1;
    }
    assert Before(s, x) == s;
  }

  /** `triangle(image, color, x0, y0, x1, y1, x2, y2)`: the vertices are
      sorted in a six-cell memory by three compare-and-swaps, and the sorted
      vertices filled. The image gains exactly `TrianglePixels(a, b, c)`. */
  method Triangle(img: Image, a: Point, b: Point, c: Point) returns (out: Image)
    requires DistinctColumns(a, b, c)
    ensures out == img + TrianglePixels(a, b, c)
  {
    var m := [a.x, a.y, b.x, b.y, c.x, c.y];
    m := CompareSwap(m, 0, 1);
    m := CompareSwap(m, 1, 2);
    m := CompareSwap(m, 0, 1);
    assert (Vertex(m, 0), Vertex(m, 1), Vertex(m, 2)) == Sorted(a, b, c);
    SortedAscending(a, b, c);
    out := Fill(img, m[0], m[1], m[2], m[3], m[4], m[5]);
  }
}
