/** Writing one pixel (src/color.h): the colour summed over the samples is averaged, gamma
    corrected with a square root, clamped below one and scaled to a byte per channel. */
module Colors {
  import opened Vectors
  import opened Intervals
  import opened Images

  /** `linear_to_gamma`: gamma 2, the square root. */
  function LinearToGamma(c: real, num: Numerics): real { num.sqrt(c) }

  /** The `intensity` interval `[0, 0.999]`. */
  function Intensity(): Interval { Interval(Fin(0.0), Fin(0.999)) }

  /** `256 * intensity.clamp(c)` truncated: the clamped value lies in `[0, 255.744]`, so
      the result is a byte value and the truncation is the floor. */
  function Quantize(c: real): (n: int)
    ensures 0 <= n < 256
    ensures 0.0 <= c <= 0.999 ==> n == (256.0 * c).Floor
  {
    ClampIntoInterval(Intensity(), c);
    var x := 256.0 * Intensity().Clamp(c).v;
    x.Floor
  }

  /** `static_cast<uint8_t>(256 * intensity.clamp(c))`: the value fits, so no wrap-around
      happens. */
  function ToByte(c: real): (b: byte)
    ensures b as int == Quantize(c)
  {
    Quantize(c) as byte
  }

  /** One channel: averaged over `samples`, gamma corrected and quantised. */
  function ChannelByte(c: real, samples: int, num: Numerics): byte
    requires samples != 0
  {
    ToByte(LinearToGamma(c * (1.0 / samples as real), num))
  }

  /** The three bytes `write_color` stores for `pixel`. */
  function PixelBytes(pixel: Vec3, samples: int, num: Numerics): (bytes: seq<byte>)
    requires samples != 0
    ensures |bytes| == 3
  {
    [ChannelByte(pixel.x, samples, num), ChannelByte(pixel.y, samples, num), ChannelByte(pixel.z, samples, num)]
  }

  /** The index of the first byte of pixel `(i, j)`: rows of `image_width` pixels of
      `channels` bytes each. */
  function PixelIndex(imageWidth: int, channels: int, i: int, j: int): int
  {
    j * imageWidth * channels + i * channels
  }

  /** `write_color`: stores the three channel bytes of pixel `(i, j)` and nothing else. */
  method WriteColor(data: array<byte>, pixel: Vec3, imageWidth: int, channels: int, i: int, j: int,
                    samples: int, num: Numerics)
    requires samples != 0
    requires 0 <= PixelIndex(imageWidth, channels, i, j) && PixelIndex(imageWidth, channels, i, j) + 3 <= data.Length
    modifies data
    ensures data[PixelIndex(imageWidth, channels, i, j)] == ChannelByte(pixel.x, samples, num)
    ensures data[PixelIndex(imageWidth, channels, i, j) + 1] == ChannelByte(pixel.y, samples, num)
    ensures data[PixelIndex(imageWidth, channels, i, j) + 2] == ChannelByte(pixel.z, samples, num)
    ensures forall k :: 0 <= k < data.Length && !(PixelIndex(imageWidth, channels, i, j) <= k < PixelIndex(imageWidth, channels, i, j) + 3) ==>
              data[k] == old(data[k])
  {
    var r, g, b := pixel.x, pixel.y, pixel.z;
    var scale := 1.0 / samples as real;
    r := r * scale;
    g := g * scale;
    b := b * scale;
    AveragedChannel(pixel.x, scale, r, samples, num);
    AveragedChannel(pixel.y, scale, g, samples, num);
    AveragedChannel(pixel.z, scale, b, samples, num);
    r := LinearToGamma(r, num);
    g := LinearToGamma(g, num);
    b := LinearToGamma(b, num);
    var offset := PixelIndex(imageWidth, channels, i, j);
    data[offset] := ToByte(r);
    data[offset + 1] := ToByte(g);
    data[offset + 2] := ToByte(b);
  }

  /** Scaling by the precomputed `1 / samples` is the average `ChannelByte` quantises. */
  lemma AveragedChannel(c: real, scale: real, scaled: real, samples: int, num: Numerics)
    requires samples != 0 && scale == 1.0 / samples as real && scaled == c * scale
    ensures ToByte(LinearToGamma(scaled, num)) == ChannelByte(c, samples, num)
  {
    SameChannel(scaled, c * (1.0 / samples as real), num);
  }

  lemma SameChannel(x: real, y: real, num: Numerics)
    requires x == y
    ensures ToByte(LinearToGamma(x, num)) == ToByte(LinearToGamma(y, num))
  {
  }

  // ---------------------------------------------------------------------------------------
  // Properties

  /** Below the interval a channel becomes 0, from 0.999 up it becomes 255, and in between
      it is the floor of `256 c`, which lies within one of `256 c`. */
  lemma QuantizeRange(c: real)
    ensures c <= 0.0 ==> Quantize(c) == 0
    ensures 0.999 <= c ==> Quantize(c) == 255
    ensures 0.0 <= c <= 0.999 ==> 256.0 * c - 1.0 < Quantize(c) as real <= 256.0 * c
  {
  }

  /** A brighter channel never gives a smaller byte. */
  lemma QuantizeMonotone(c1: real, c2: real)
    requires c1 <= c2
    ensures Quantize(c1) <= Quantize(c2)
  {
    ClampIntoInterval(Intensity(), c1);
    ClampIntoInterval(Intensity(), c2);
    var x1, x2 := Intensity().Clamp(c1).v, Intensity().Clamp(c2).v;
    assert x1 <= x2;
    assert (256.0 * x1).Floor <= (256.0 * x2).Floor;
  }

  /** With a square root that is one, gamma correction is undone by squaring, and keeps
      non-negative values non-negative. */
  lemma GammaSquares(c: real, num: Numerics)
    requires num.Valid() && 0.0 <= c
    ensures 0.0 <= LinearToGamma(c, num)
    ensures LinearToGamma(c, num) * LinearToGamma(c, num) == c
  {
  }

  /** Gamma correction preserves order. */
  lemma GammaMonotone(a: real, b: real, num: Numerics)
    requires num.Valid() && 0.0 <= a <= b
    ensures LinearToGamma(a, num) <= LinearToGamma(b, num)
  {
    var sa, sb := LinearToGamma(a, num), LinearToGamma(b, num);
    GammaSquares(a, num);
    GammaSquares(b, num);
    if sb < sa {
      ProductPositive(sa - sb, sa + sb, (sa - sb) * (sa + sb));
      assert false;
    }
  }

  /** Over a positive number of samples, a brighter summed channel gives no smaller byte. */
  lemma ChannelByteMonotone(c1: real, c2: real, samples: int, num: Numerics)
    requires num.Valid() && 0 < samples && 0.0 <= c1 <= c2
    ensures ChannelByte(c1, samples, num) as int <= ChannelByte(c2, samples, num) as int
  {
    ScaledOrder(c1, c2, 1.0 / samples as real, c1 * (1.0 / samples as real), c2 * (1.0 / samples as real));
    GammaMonotone(c1 * (1.0 / samples as real), c2 * (1.0 / samples as real), num);
    QuantizeMonotone(LinearToGamma(c1 * (1.0 / samples as real), num), LinearToGamma(c2 * (1.0 / samples as real), num));
  }

  /** `0 <= c1 k <= c2 k` for `0 <= c1 <= c2` and `k > 0`, over named products. */
  lemma ScaledOrder(c1: real, c2: real, k: real, a: real, b: real)
    requires 0.0 <= c1 <= c2 && 0.0 < k && a == c1 * k && b == c2 * k
    ensures 0.0 <= a <= b
  {
    ProductNonNegative(c1, k, a);
    ProductNonNegative(c2 - c1, k, (c2 - c1) * k);
  }

  /** Black is written as three zero bytes. */
  lemma BlackPixel(samples: int, num: Numerics)
    requires num.Valid() && samples != 0
    ensures PixelBytes(Zero(), samples, num) == [0, 0, 0]
  {
    GammaSquares(0.0, num);
    ZeroRoot(LinearToGamma(0.0, num));
    QuantizeRange(0.0);
  }

  /** A colour summed to `samples` in every channel, white on average, is written as three
      255 bytes. */
  lemma WhitePixel(samples: int, num: Numerics)
    requires num.Valid() && 0 < samples
    ensures PixelBytes(Vec3(samples as real, samples as real, samples as real), samples, num) == [255, 255, 255]
  {
    var s := samples as real;
    assert s * (1.0 / s) == 1.0;
    GammaSquares(1.0, num);
    UnitRoot(LinearToGamma(1.0, num));
    QuantizeRange(1.0);
  }

  lemma ZeroRoot(r: real)
    requires r * r == 0.0
    ensures r == 0.0
  {
    if r != 0.0 {
      ProductPositive(r, r, r * r);
    }
  }

  lemma UnitRoot(r: real)
    requires 0.0 <= r && r * r == 1.0
    ensures r == 1.0
  {
    var d := r - 1.0;
    assert d * (r + 1.0) == 0.0;
    if d > 0.0 {
      ProductPositive(d, r + 1.0, d * (r + 1.0));
    } else if d < 0.0 {
      ProductPositive(-d, r + 1.0, (-d) * (r + 1.0));
    }
  }

  /** For an image of `image_width` by `image_height` pixels of three bytes each, every
      pixel's bytes lie inside the buffer, at the pixel's row-major position. */
  lemma PixelIndexInImage(imageWidth: int, imageHeight: int, i: int, j: int)
    requires 0 <= i < imageWidth && 0 <= j < imageHeight
    ensures PixelIndex(imageWidth, 3, i, j) == (j * imageWidth + i) * 3
    ensures 0 <= PixelIndex(imageWidth, 3, i, j)
    ensures PixelIndex(imageWidth, 3, i, j) + 3 <= imageWidth * imageHeight * 3
  {
    var w, h := imageWidth, imageHeight;
    assert PixelIndex(w, 3, i, j) == (j * w + i) * 3;
    ProductMonotone(j, h - 1, w, j * w, (h - 1) * w);
    RowBefore(h, w);
    assert w * h * 3 == (h * w) * 3;
  }

  /** Two different pixels of an image are written to disjoint bytes. */
  lemma PixelsDisjoint(imageWidth: int, imageHeight: int, i: int, j: int, i2: int, j2: int)
    requires 0 <= i < imageWidth && 0 <= j < imageHeight
    requires 0 <= i2 < imageWidth && 0 <= j2 < imageHeight
    requires (i, j) != (i2, j2)
    ensures PixelIndex(imageWidth, 3, i, j) + 3 <= PixelIndex(imageWidth, 3, i2, j2) ||
            PixelIndex(imageWidth, 3, i2, j2) + 3 <= PixelIndex(imageWidth, 3, i, j)
  {
    var w := imageWidth;
    PixelIndexInImage(imageWidth, imageHeight, i, j);
    PixelIndexInImage(imageWidth, imageHeight, i2, j2);
    if j < j2 {
      ProductMonotone(j + 1, j2, w, (j + 1) * w, j2 * w);
      assert (j + 1) * w == j * w + w;
    } else if j2 < j {
      ProductMonotone(j2 + 1, j, w, (j2 + 1) * w, j * w);
      assert (j2 + 1) * w == j2 * w + w;
    }
  }
}
