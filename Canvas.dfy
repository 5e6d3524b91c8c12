/**
 * The drawing surface both pages work on: a canvas element whose bitmap is
 * `width` x `height` pixels.
 *
 * `canvas.toDataURL()` is treated as an injective encoding of the bitmap, so
 * a snapshot is identified with the `Bitmap` value it encodes: two snapshots
 * are equal exactly when the bitmaps they encode are.
 */
module Canvas {

  /** Largest value the canvas `width` and `height` attributes keep (2^31 - 1). */
  const MaxDimension: nat := 0x7FFF_FFFF

  /** Default canvas size, used when an out-of-range value is assigned. */
  const DefaultWidth: nat := 300
  const DefaultHeight: nat := 150

  /**
   * The pixel data of a bitmap. The model never looks inside it: it comes
   * from the platform (a decoded file, `getImageData`, a scaled or rotated
   * draw), except for the fully transparent bitmap a cleared canvas holds
   * and a bitmap filled with one colour.
   */
  datatype Pixels = Transparent | Fill(color: string) | Raster(data: seq<int>)

  /** A bitmap: what the canvas shows, and what a snapshot records. */
  datatype Bitmap = Bitmap(width: nat, height: nat, pixels: Pixels)

  /** A bitmap whose size the canvas can hold as it is. */
  predicate InRange(b: Bitmap)
  {
    b.width <= MaxDimension && b.height <= MaxDimension
  }

  /**
   * The value `canvas.width` (or `canvas.height`) holds after a script
   * assigns `v` to it: the number is first reduced modulo 2^32 (the
   * Web IDL conversion to `unsigned long`), and a result above 2^31 - 1
   * makes the attribute fall back to its default (the HTML Living Standard's
   * rule for reflecting an `unsigned long` content attribute).
   */
  function CanvasDimension(v: int, fallback: nat): (r: nat)
    requires fallback <= MaxDimension
    ensures r <= MaxDimension
    ensures 0 <= v <= MaxDimension ==> r == v
    ensures v < 0 && -v <= MaxDimension + 1 ==> r == fallback
  {
    var u := v % 0x1_0000_0000;
    if u <= MaxDimension then u else fallback
  }
}
