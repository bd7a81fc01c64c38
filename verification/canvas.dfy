/** The image the rasteriser draws into, abstracted to the set of pixels
    that have been passed to `image.set`. Each drawing call uses a single
    colour, so what a call does to the image is the set of pixels it sets. */
module Canvas {

  /** Canvas size used by every drawing routine. */
  const Width: int := 200
  const Height: int := 200

  type Pixel = (int, int)

  /** The pixels set so far. */
  type Image = set<Pixel>

  predicate OnCanvas(q: Pixel) {
    0 <= q.0 < Width && 0 <= q.1 < Height
  }
}
