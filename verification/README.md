# Integer rasteriser of `main.cpp`, modelled in Dafny

The renderer draws into a 200 × 200 TGA image. Two of its routines use only
integer arithmetic:
- `line` draws a segment as slope-intercept columns.
- `triangle` sorts its three vertices by x and, column by column, draws a
  vertical `line` between the long edge and the active short edge.

Both use the small helper `swapInt`. This project models those three routines
and the canvas constants `width` and `height`.

The image is abstracted to the set of pixels passed to `image.set`. Each call
draws in one colour, so what a call does to an image is to add a set of
pixels. Every routine is modelled twice:
- as a method that follows the source loops statement by statement, including
  the `swapInt` calls on a small memory of `int` cells;
- as a declarative set of pixels (`Lines.LinePixels`, `Triangles.TrianglePixels`).

The methods' postconditions state that they add exactly the declarative set.
The lemmas then state what those sets contain. C++ `/` truncates toward zero,
so every division goes through `Arith.TruncDiv`. `TruncDiv` is characterised
by its remainder, not by Dafny's Euclidean `/`.

Modules, in dependency order:
- `Arith`: absolute value, min/max, truncating division and its facts.
- `Memory`: `swapInt` on a sequence of cells addressed by index. The two
  indices may be the same cell.
- `Canvas`: `width`, `height`, pixels and images.
- `Lines` and `LineFacts`: `line` and what it draws.
- `Triangles` and `TriangleFacts`: `triangle` and what it draws.

What the code does, as opposed to what a reader of its comments or of a
textbook rasteriser might expect:
- `line` is not Bresenham. A sloped segment fills, in every column `x` from
  the smaller to the larger endpoint x (excluded), the rows between its value
  at `x` and at `x + 1`, both included.
  - The column of the right endpoint is never drawn (`LineFacts.SlopedLineColumns`).
  - A segment on the diagonal y = x sets two pixels per column
    (`LineFacts.Diagonal`), `2 * Abs(b - a)` in all from `(a, a)` to `(b, b)`
    on the canvas. From (0, 0) to (99, 99) that is 198 pixels
    (`LineFacts.DiagonalCount` with `a = 0`, `b = 99`).
- A vertical segment sets rows `[min, max)`, so a segment whose endpoints are
  equal sets nothing (`LineFacts.ZeroLengthLine`).
- The offset `c` is computed from the first endpoint before the endpoints are
  swapped. Truncation is not shift-invariant, so the drawn set depends on the
  endpoint order (`LineFacts.EndpointOrderMatters`).
- The source comment at main.cpp:56 speaks of flooring. The code truncates,
  which differs from flooring for negative products; the model follows the code.
- `triangle` draws nothing in the leftmost vertex's column
  (`TriangleFacts.FirstColumnEmpty`) and nothing in the rightmost one.
- A triangle whose three vertices are collinear can still set pixels
  (`TriangleFacts.CollinearTriangleDraws`).
- If two vertices share an x coordinate, `triangle` divides by zero. The model
  makes distinct x coordinates its precondition.

## Model

| member | source | states |
|---|---|---|
| `Canvas.Width` | main.cpp:14 | the canvas is 200 pixels wide |
| `Canvas.Height` | main.cpp:15 | the canvas is 200 pixels high |
| `Canvas.OnCanvas` | main.cpp:67-72 | the clipping tests `0 <= x < width` and `0 <= p < height` before `image.set`, also at main.cpp:82 and main.cpp:85: a pixel is written only inside the canvas |
| `Arith.TruncDiv` | main.cpp:62 | C++ `/`: the remainder `a - q*b` is smaller in magnitude than the divisor and has the dividend's sign |
| `Arith.TruncDivUnique` | main.cpp:62 | any quotient meeting those remainder conditions is `TruncDiv`'s, so the conditions define C++ division |
| `Arith.TruncDivOfNatural` | main.cpp:68 | for a non-negative dividend and a positive divisor, C++ and Euclidean division agree |
| `Arith.TruncDivNegateBoth` | main.cpp:68 | negating dividend and divisor keeps the quotient |
| `Arith.TruncDivNegateDividend` | main.cpp:68 | negating the dividend negates the quotient (truncation is symmetric about zero) |
| `Arith.TruncDivExact` | main.cpp:68 | an exact multiple `k*b` divides back to `k` |
| `Arith.TruncDivMonotone` | main.cpp:68-69 | for a positive divisor the quotient is monotone in the dividend |
| `Arith.TruncDivShiftAtMost` | main.cpp:68-69 | adding `n` multiples of the divisor raises the quotient by at most `n` |
| `Arith.TruncDivSpan` | main.cpp:68-69 | moving the dividend by `s*v`, with `v` between zero and the divisor, moves the quotient by at most `s`, in the direction of `s` |
| `Memory.SwapInt` | main.cpp:19-23 | the two cells exchange values, every other cell keeps its value, and the length is unchanged, also when both pointers name the same cell |
| `Memory.SwapIntPermutes` | main.cpp:19-23 | the memory holds the same multiset of values after the swap |
| `Memory.SwapIntInvolution` | main.cpp:19-23 | swapping twice restores the memory |
| `Memory.SwapIntSymmetric` | main.cpp:19-23 | the order of the two pointers does not matter |
| `Lines.Intercept` | main.cpp:62 | the offset `c` is `y1` minus the C++ (truncated) quotient of `dy * x1` by `dx` |
| `Lines.RowAt` | main.cpp:68-69 | the row `dy*x/dx + c` differs from the offset by the C++ quotient of `dy * x` by `dx` |
| `Lines.OnLine` | main.cpp:60-90 | which pixels `line` writes: on the canvas, and for `dx != 0` in columns `[min, max)` between the rows at `x` and `x + 1`, for `dx == 0` in column `x1` over rows `[min(y1,y2), max(y1,y2))` |
| `Lines.LinePixels` | main.cpp:48-91 | the set of pixels `line` writes: a pixel is in it exactly when `OnLine` holds, with nothing lost to the canvas bounds of the set |
| `Lines.FillRows` | main.cpp:84-88 | the row loop adds exactly the on-canvas pixels of rows `[from, to)` in its column; rows off the canvas are skipped and the loop continues |
| `Lines.FillRun` | main.cpp:70-75 | after putting `y` and `error` in order with `swapInt`, the inner loop adds exactly the on-canvas rows between them, both included |
| `Lines.DrawColumn` | main.cpp:67-76 | one column step adds the run between the line's rows at `x` and `x + 1`, or nothing for a column off the canvas |
| `Lines.SlopedColumn` | main.cpp:66-77 | the pixels of a sloped line left of `x + 1` are those left of `x` plus the run of column `x` |
| `Lines.SlopedLine` | main.cpp:60-78 | the `dx != 0` branch adds exactly the declarative pixel set of the segment |
| `Lines.VerticalLine` | main.cpp:79-90 | the `dx == 0` branch adds exactly the declarative pixel set of the segment |
| `Lines.Line` | main.cpp:48-91 | `line` adds exactly `LinePixels(x1, y1, x2, y2)` to the image and removes nothing |
| `LineFacts.RowWithinEndpoints` | main.cpp:62-69 | between the endpoint columns, the line's row `dy*x/dx + c` stays between the endpoint rows |
| `LineFacts.LineInBoundingBox` | main.cpp:60-91 | every pixel `line` sets is on the canvas and inside the endpoints' bounding box |
| `LineFacts.SlopedLineColumns` | main.cpp:64-67 | a sloped line sets pixels only in columns `[min(x1,x2), max(x1,x2))`; the larger endpoint's column is never drawn |
| `LineFacts.SlopedLineColumn` | main.cpp:68-75 | in such a column, a row is set if and only if it lies between the line's rows at `x` and at `x + 1`, in either order |
| `LineFacts.RowAtFirstEndpoint` | main.cpp:62 | the offset makes the line pass through its first endpoint |
| `LineFacts.FirstEndpointDrawn` | main.cpp:62-75 | when the first endpoint is the left one and on the canvas, it is drawn |
| `LineFacts.ColumnsMeet` | main.cpp:68-75 | neighbouring columns both contain the row where they meet, so the drawn line has no gap |
| `LineFacts.HorizontalLine` | main.cpp:62-75 | with `dy == 0` exactly row `y` is set, over columns `[min, max)` |
| `LineFacts.VerticalLineRows` | main.cpp:79-90 | with `dx == 0` exactly column `x1` is set, over rows `[min(y1,y2), max(y1,y2))` |
| `LineFacts.ZeroLengthLine` | main.cpp:79-90 | a segment whose endpoints coincide sets no pixel |
| `LineFacts.EndpointOrderMatters` | main.cpp:62-64 | swapping the endpoints of the segment from `(-1, y)` to `(1, y+1)` changes the pixels set |
| `LineFacts.Diagonal` | main.cpp:66-75 | a segment on the diagonal y = x, from `(a, a)` to `(b, b)`, sets rows `x` and `x + 1` in every column `x` of `[min(a, b), max(a, b))` and nothing else |
| `LineFacts.DiagonalCount` | main.cpp:66-75 | such a segment on the canvas sets `2 * Abs(b - a)` pixels, so 198 from `(0, 0)` to `(99, 99)` |
| `Triangles.CompareSwap` | main.cpp:98-101 | a guarded pair of swaps moves two vertices whole (y with its x), leaves the third alone, and keeps the multiset of vertices |
| `Triangles.SwapVertices` | main.cpp:99-100 | swapping the y cells and then the x cells exchanges the two vertices and keeps the multiset of vertices |
| `Triangles.Sorted` | main.cpp:98-109 | after the three compare-and-swaps `x0 <= x1 <= x2` and the multiset of vertices is unchanged |
| `Triangles.SortedAscending` | main.cpp:98-109 | with distinct x coordinates the sorted order is strict |
| `Triangles.LongRow` | main.cpp:140 | `rly0`, the long edge's row, is A's row at A's column and stays between the rows of A and C over `[A.x, C.x]` |
| `Triangles.ShortRow` | main.cpp:141-149 | `rly1`, the active short edge's row, is A's row at A's column and B's row at B's column, and stays between the rows of the active edge's endpoints |
| `Triangles.InFill` | main.cpp:135-151 | which pixels the fill writes: on the canvas, in columns `[A.x, C.x)`, from the lower edge row up to, not including, the upper one |
| `Triangles.FillPixels` | main.cpp:135-151 | the set of pixels the fill writes over sorted vertices: a pixel is in it exactly when `InFill` holds |
| `Triangles.TrianglePixels` | main.cpp:92-153 | the pixels `triangle` writes: the fill over the vertices as the sort leaves them |
| `Triangles.FillColumn` | main.cpp:135-151 | the vertical `line` of column `x`, from the long edge's row to the short edge's row, adds exactly that column of the fill |
| `Triangles.Fill` | main.cpp:122-152 | the intercepts and the column loop over sorted vertices add exactly the fill's pixels |
| `Triangles.Triangle` | main.cpp:92-153 | `triangle` adds exactly `TrianglePixels(a, b, c)` and requires pairwise distinct x coordinates |
| `TriangleFacts.SortedUnique` | main.cpp:98-109 | any ascending arrangement of three vertices with distinct x is the one the sort produces |
| `TriangleFacts.PermutedDistinct` | main.cpp:124-134 | reordering the vertices keeps the x coordinates distinct, so `triangle` stays defined |
| `TriangleFacts.TrianglePermutation` | main.cpp:98-152 | the pixels `triangle` sets do not depend on the order its vertices are passed in |
| `TriangleFacts.SortedOrdering` | main.cpp:98-109 | the sort returns one of the six orderings of its arguments |
| `TriangleFacts.SortedExtremes` | main.cpp:98-109 | the sorted first and last vertices have the least and greatest x, and the least and greatest y are unchanged |
| `TriangleFacts.OrderingExtremes` | main.cpp:98-109 | any ordering of three vertices by x starts at the least x and ends at the greatest |
| `TriangleFacts.EdgeRowsWithinVertices` | main.cpp:135-149 | the long-edge and short-edge rows of every column lie between the least and greatest vertex y |
| `TriangleFacts.TriangleInBoundingBox` | main.cpp:135-152 | every pixel `triangle` sets is on the canvas, strictly between the least and greatest vertex x, and in rows from the least vertex y up to, not including, the greatest |
| `TriangleFacts.FirstColumnEmpty` | main.cpp:135-151 | the leftmost vertex's column is empty, because both edges start at that vertex |
| `TriangleFacts.CollinearTriangleDraws` | main.cpp:124-151 | the zero-area triangle `(-1, y)`, `(1, y+1)`, `(3, y+2)` sets pixel `(1, y)` |
| `TriangleFacts.DemoTrianglesAdmissible` | main.cpp:170-175 | the three triangles `main` draws have distinct x coordinates |

## Left out

- `drawWireMesh` (main.cpp:187-207): floating-point projection of mesh vertices, and calls into `Model`, whose source (model.h) is not part of this model.
- `main` (main.cpp:155-185): image construction, `flip_vertically`, `write_tga_file` and `delete model` are I/O and calls into `TGAImage`; tgaimage.h is not part of this model. Of `main`, only the three demo triangles' coordinates appear, in `TriangleFacts.DemoTrianglesAdmissible`.
- Colours: the `TGAColor` constants and the colour argument of `line` and `triangle` are dropped. Each call uses one colour, so it only decides which colour the added pixels get.
- `image.set` is modelled as adding a coordinate to the set of written pixels. Overwriting a pixel that already has another colour is not distinguished from adding it.
- 32-bit `int` overflow: all arithmetic is on unbounded integers. Products such as `dy*x` at main.cpp:68 can overflow in C++ for coordinates far outside the canvas. The model does not show that overflow.
- The commented-out calls in `triangle` (main.cpp:94-96) and `main` (main.cpp:160-167) are not part of the program and are not modelled.
- `geometry.h` (`Vec2i`, `Vec3f`) is not part of this model. Points are the `Triangles.Point` datatype.
- Triangles.Triangle: when two vertices share an x coordinate the source divides by zero, which is undefined behaviour in C++. The model requires pairwise distinct x coordinates instead of modelling that case.
