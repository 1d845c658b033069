/**
 * The parts of android.graphics that the screens rely on: rectangles given by their
 * four edges, bitmaps, and the pen colours used for annotation.
 */
module Graphics {

  /**
   * android.graphics.Rect. `Width()` and `Height()` are `right - left` and
   * `bottom - top`, as in the platform class; the edges are 32-bit ints on the device,
   * but every sum the model forms (`top + Height()`, `left + Width()`) equals an edge
   * exactly even under two's-complement wrap-around, so unbounded ints are faithful.
   */
  datatype Rect = Rect(left: int, top: int, right: int, bottom: int) {
    function Width(): int { right - left }
    function Height(): int { bottom - top }
  }

  /**
   * A bitmap. Pixel data is not modelled; a bitmap is either a picture that came from
   * outside (camera, network, decoder), known by an identity and its size, or a region
   * copied out of another bitmap by `Bitmap.createBitmap`.
   */
  datatype Bitmap =
    | Picture(id: nat, pictureWidth: int, pictureHeight: int)
    | Region(source: Bitmap, area: Rect)
  {
    function Width(): int {
      match this
      case Picture(_, w, _) => w
      case Region(_, a) => a.Width()
    }

    function Height(): int {
      match this
      case Picture(_, _, h) => h
      case Region(_, a) => a.Height()
    }
  }

  /** `Bitmap.createBitmap(source, x, y, width, height)`: the sub-bitmap at (x, y). */
  function CreateBitmap(source: Bitmap, x: int, y: int, width: int, height: int): (b: Bitmap)
    ensures b.Width() == width && b.Height() == height
    ensures b.Region? && b.source == source && b.area.left == x && b.area.top == y
  {
    Region(source, Rect(x, y, x + width, y + height))
  }

  /** The pen colours of the annotation code. */
  datatype Color = Red | Green | Yellow
}
