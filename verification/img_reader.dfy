/** The image reader (src/img_reader.h): loaded RGB bytes, their size, and the address of
    one pixel's three bytes. Decoding a file is not part of this model: the loaded data is
    given, or absent when loading failed. */
module Images {
  import opened Options

  /** `unsigned char`. */
  newtype byte = x: int | 0 <= x < 256

  const BytesPerPixel: int := 3

  /** `data` (null when absent), `image_width` and `image_height`. */
  datatype ImageReader = ImageReader(data: Option<seq<byte>>, imageWidth: int, imageHeight: int)

  /** What a successful load guarantees: a positive size and one byte per channel of every
      pixel. */
  predicate Valid(img: ImageReader)
  {
    img.data.Some? ==>
      0 < img.imageWidth && 0 < img.imageHeight &&
      |img.data.value| == img.imageWidth * img.imageHeight * BytesPerPixel
  }

  /** `bytes_per_scanline`, as `load` sets it. */
  function BytesPerScanline(img: ImageReader): int { img.imageWidth * BytesPerPixel }

  /** `width()` and `height()`: 0 without data. */
  function Width(img: ImageReader): int { if img.data.None? then 0 else img.imageWidth }

  function Height(img: ImageReader): int { if img.data.None? then 0 else img.imageHeight }

  /** `clamp(x, low, high)`: into `[low, high)`. */
  function ClampIndex(x: int, low: int, high: int): int
  {
    if x < low then low
    else if x < high then x
    else high - 1
  }

  /** The bytes returned when there is no data. */
  function Magenta(): seq<byte> { [255, 0, 255] }

  /** The offset into `data` of the pixel `pixel_data(x, y)` returns. */
  function PixelOffset(img: ImageReader, x: int, y: int): int
  {
    ClampIndex(y, 0, img.imageHeight) * BytesPerScanline(img) + ClampIndex(x, 0, img.imageWidth) * BytesPerPixel
  }

  /** `pixel_data(x, y)`: the three bytes at the clamped pixel, or magenta without data. */
  function PixelData(img: ImageReader, x: int, y: int): (px: seq<byte>)
    requires Valid(img)
    ensures |px| == 3
    ensures img.data.None? ==> px == Magenta()
  {
    if img.data.None? then Magenta()
    else
      PixelOffsetInBounds(img, x, y);
      var offset := PixelOffset(img, x, y);
      img.data.value[offset..offset + 3]
  }

  // ---------------------------------------------------------------------------------------
  // Properties

  /** With `low < high`, the result lies in `[low, high)` and is `x` itself when `x` does. */
  lemma ClampIndexRange(x: int, low: int, high: int)
    requires low < high
    ensures low <= ClampIndex(x, low, high) < high
    ensures low <= x < high ==> ClampIndex(x, low, high) == x
    ensures x < low ==> ClampIndex(x, low, high) == low
    ensures high <= x ==> ClampIndex(x, low, high) == high - 1
  {
  }

  /** Without data the size reads as zero by zero. */
  lemma NoDataSize(img: ImageReader)
    requires img.data.None?
    ensures Width(img) == 0 && Height(img) == 0
  {
  }

  /** `a * b <= c * b` for `0 <= a <= c` and `b >= 0`, over named products. */
  lemma ProductMonotone(a: int, c: int, b: int, ab: int, cb: int)
    requires 0 <= a <= c && 0 <= b && ab == a * b && cb == c * b
    ensures 0 <= ab <= cb
  {
    assert cb - ab == (c - a) * b;
  }

  /** The three bytes of every pixel address lie inside the loaded data. */
  lemma PixelOffsetInBounds(img: ImageReader, x: int, y: int)
    requires Valid(img) && img.data.Some?
    ensures 0 <= PixelOffset(img, x, y)
    ensures PixelOffset(img, x, y) + 2 < img.imageWidth * img.imageHeight * BytesPerPixel
    ensures PixelOffset(img, x, y) + 2 < |img.data.value|
  {
    var w, h := img.imageWidth, img.imageHeight;
    var cx, cy := ClampIndex(x, 0, w), ClampIndex(y, 0, h);
    ClampIndexRange(x, 0, w);
    ClampIndexRange(y, 0, h);
    ProductMonotone(cy, h - 1, w, cy * w, (h - 1) * w);
    assert PixelOffset(img, x, y) == 3 * (cy * w) + 3 * cx;
    RowBefore(h, w);
    assert w * h * BytesPerPixel == 3 * (h * w);
  }

  /** For a pixel inside the image the offset is its row-major position, so different
      pixels have different bytes. */
  lemma PixelOffsetRowMajor(img: ImageReader, x: int, y: int, x2: int, y2: int)
    requires 0 <= x < img.imageWidth && 0 <= y < img.imageHeight
    requires 0 <= x2 < img.imageWidth && 0 <= y2 < img.imageHeight
    ensures PixelOffset(img, x, y) == (y * img.imageWidth + x) * BytesPerPixel
    ensures (x, y) != (x2, y2) ==>
              PixelOffset(img, x, y) + 3 <= PixelOffset(img, x2, y2) ||
              PixelOffset(img, x2, y2) + 3 <= PixelOffset(img, x, y)
  {
    var w := img.imageWidth;
    ClampIndexRange(x, 0, w);
    ClampIndexRange(y, 0, img.imageHeight);
    ClampIndexRange(x2, 0, w);
    ClampIndexRange(y2, 0, img.imageHeight);
    RowMajor(y, w, x);
    RowMajor(y2, w, x2);
    if y < y2 {
      ProductMonotone(y + 1, y2, w, (y + 1) * w, y2 * w);
      assert (y + 1) * w == y * w + w;
    } else if y2 < y {
      ProductMonotone(y2 + 1, y, w, (y2 + 1) * w, y * w);
      assert (y2 + 1) * w == y2 * w + w;
    }
  }

  /** `(n - 1) w == n w - w`. */
  lemma RowBefore(n: int, w: int)
    ensures (n - 1) * w == n * w - w
  {
  }

  lemma RowMajor(y: int, w: int, x: int)
    ensures y * (w * BytesPerPixel) + x * BytesPerPixel == (y * w + x) * BytesPerPixel
  {
  }
}
