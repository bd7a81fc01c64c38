/** What the pixels set by `triangle` are: independent of the order the
    vertices are given in, inside the vertices' bounding box, never in the
    leftmost or rightmost vertex's column, and not empty for every triangle
    of zero area. */
module TriangleFacts {
  import opened Arith
  import opened Canvas
  import opened Lines
  import opened LineFacts
  import opened Triangles

  /** Three vertices with distinct x have only one ordering by x: any
      ascending arrangement of them is the one the sort produces. */
  lemma SortedUnique(a: Point, b: Point, c: Point, v: (Point, Point, Point))
    requires DistinctColumns(a, b, c)
    requires Ascending(v) && multiset{v.0, v.1, v.2} == multiset{a, b, c}
    ensures Sorted(a, b, c) == v
  {
    var r := Sorted(a, b, c);
    SortedAscending(a, b, c);
    SameVertices(a, b, c, r);
    SameVertices(a, b, c, v);
  }

  /** Rearranging three vertices with distinct x coordinates keeps them
      distinct. */
  lemma PermutedDistinct(a: Point, b: Point, c: Point, a': Point, b': Point, c': Point)
    requires DistinctColumns(a, b, c)
    requires multiset{a', b', c'} == multiset{a, b, c}
    ensures DistinctColumns(a', b', c')
  {
    SameVertices(a, b, c, (a', b', c'));
  }

  /** The pixels `triangle` sets do not depend on the order its vertices are
      passed in: any rearrangement of three vertices with distinct x
      coordinates is again admissible and fills the same pixels. */
  lemma TrianglePermutation(a: Point, b: Point, c: Point, a': Point, b': Point, c': Point)
    requires DistinctColumns(a, b, c)
    requires multiset{a', b', c'} == multiset{a, b, c}
    ensures DistinctColumns(a', b', c') && TrianglePixels(a', b', c') == TrianglePixels(a, b, c)
  {
    PermutedDistinct(a, b, c, a', b', c');
    var v := Sorted(a, b, c);
    SortedAscending(a, b, c);
    SortedUnique(a', b', c', v);
  }

  /** The least and greatest of three values. */
  function Min3(a: int, b: int, c: int): int {
    Min(a, Min(b, c))
  }

  function Max3(a: int, b: int, c: int): int {
    Max(a, Max(b, c))
  }

  /** Both edge rows at a column of the fill lie between the least and the
      greatest vertex row. */
  lemma EdgeRowsWithinVertices(v: (Point, Point, Point), x: int)
    requires Ascending(v) && v.0.x <= x < v.2.x
    ensures Min3(v.0.y, v.1.y, v.2.y) <= LongRow(v, x) <= Max3(v.0.y, v.1.y, v.2.y)
    ensures Min3(v.0.y, v.1.y, v.2.y) <= ShortRow(v, x) <= Max3(v.0.y, v.1.y, v.2.y)
  {
  }

  /** With distinct x coordinates the sort returns one of the six
      orderings of its arguments. */
  lemma SortedOrdering(a: Point, b: Point, c: Point)
    requires DistinctColumns(a, b, c)
    ensures || Sorted(a, b, c) == (a, b, c) || Sorted(a, b, c) == (a, c, b)
            || Sorted(a, b, c) == (b, a, c) || Sorted(a, b, c) == (b, c, a)
            || Sorted(a, b, c) == (c, a, b) || Sorted(a, b, c) == (c, b, a)
  {
    SortedAscending(a, b, c);
    SameVertices(a, b, c, Sorted(a, b, c));
  }

  /** The sorted vertices span the same extremes as the given ones. */
  lemma SortedExtremes(a: Point, b: Point, c: Point)
    requires DistinctColumns(a, b, c)
    ensures Ascending(Sorted(a, b, c))
    ensures Sorted(a, b, c).0.x == Min3(a.x, b.x, c.x) && Sorted(a, b, c).2.x == Max3(a.x, b.x, c.x)
    ensures Min3(Sorted(a, b, c).0.y, Sorted(a, b, c).1.y, Sorted(a, b, c).2.y) == Min3(a.y, b.y, c.y)
    ensures Max3(Sorted(a, b, c).0.y, Sorted(a, b, c).1.y, Sorted(a, b, c).2.y) == Max3(a.y, b.y, c.y)
  {
    SortedAscending(a, b, c);
    SortedOrdering(a, b, c);
    OrderingExtremes(a, b, c, Sorted(a, b, c));
  }

  /** An ordering of three vertices by x starts at the least x and ends at
      the greatest, and has the same least and greatest y. */
  lemma OrderingExtremes(a: Point, b: Point, c: Point, v: (Point, Point, Point))
    requires Ascending(v)
    requires || v == (a, b, c) || v == (a, c, b) || v == (b, a, c)
             || v == (b, c, a) || v == (c, a, b) || v == (c, b, a)
    ensures v.0.x == Min3(a.x, b.x, c.x) && v.2.x == Max3(a.x, b.x, c.x)
    ensures Min3(v.0.y, v.1.y, v.2.y) == Min3(a.y, b.y, c.y)
    ensures Max3(v.0.y, v.1.y, v.2.y) == Max3(a.y, b.y, c.y)
  {
  }

  /** Every pixel `triangle` sets is on the canvas, in a column strictly
      between the least and greatest vertex x, and in a row from the least
      vertex y up to, not including, the greatest. */
  lemma TriangleInBoundingBox(a: Point, b: Point, c: Point, q: Pixel)
    requires DistinctColumns(a, b, c) && q in TrianglePixels(a, b, c)
    ensures OnCanvas(q)
    ensures Min3(a.x, b.x, c.x) < q.0 < Max3(a.x, b.x, c.x)
    ensures Min3(a.y, b.y, c.y) <= q.1 < Max3(a.y, b.y, c.y)
  {
    var v := Sorted(a, b, c);
    SortedExtremes(a, b, c);
    FirstColumnEmpty(v, q.1);
    EdgeRowsWithinVertices(v, q.0);
  }

  /** The fill sets nothing in the leftmost vertex's column: both edges start
      at that vertex, so the run between them is empty there. */
  lemma FirstColumnEmpty(v: (Point, Point, Point), p: int)
    requires Ascending(v)
    ensures (v.0.x, p) !in FillPixels(v)
  {
  }

  /** A triangle of zero area can still set pixels: with its vertices on one
      line, `(-1, y)`, `(1, y + 1)` and `(3, y + 2)`, the long edge is at row
      `y` in column 1 and the short edge B→C at row `y + 1`, so `(1, y)` is set. */
  lemma CollinearTriangleDraws(y: int)
    requires 0 <= y < Height
    ensures (1, y) in TrianglePixels(Point(-1, y), Point(1, y + 1), Point(3, y + 2))
  {
    var v := (Point(-1, y), Point(1, y + 1), Point(3, y + 2));
    SortedUnique(Point(-1, y), Point(1, y + 1), Point(3, y + 2), v);
    TruncDivUnique(2, 4, 0);
    TruncDivUnique(-2, 4, 0);
    assert LongRow(v, 1) == y;
    RowAtFirstEndpoint(1, y + 1, 3, y + 2);
    assert ShortRow(v, 1) == y + 1;
  }

  /** The three triangles `main` draws each have distinct x coordinates, so
      `triangle` is defined on all of them. */
  lemma DemoTrianglesAdmissible()
    ensures DistinctColumns(Point(10, 70), Point(50, 160), Point(70, 80))
    ensures DistinctColumns(Point(180, 50), Point(150, 1), Point(70, 180))
    ensures DistinctColumns(Point(180, 150), Point(120, 160), Point(130, 180))
  {
  }
}
