/** Textures (src/texture.h): a solid colour, a 3-D checker of two textures, and an image
    looked up by surface coordinates. */
module Textures {
  import opened Options
  import opened Vectors
  import opened Intervals
  import opened Images

  datatype Texture =
    | Solid(c: Vec3)
    | Checker(iscale: real, even: Texture, odd: Texture)
    | ImageTex(img: ImageReader)

  /** Every image inside the texture satisfies what a load guarantees. */
  predicate TexValid(tex: Texture)
  {
    match tex
    case Solid(_) => true
    case Checker(_, even, odd) => TexValid(even) && TexValid(odd)
    case ImageTex(img) => Valid(img)
  }

  /** The `checker` constructors store the reciprocal of the scale. */
  function MakeChecker(scale: real, even: Texture, odd: Texture): (tex: Texture)
    requires scale != 0.0
    ensures tex.Checker? && tex.iscale * scale == 1.0 && tex.even == even && tex.odd == odd
  {
    Checker(1.0 / scale, even, odd)
  }

  // ---------------------------------------------------------------------------------------
  // Integer conversions of the source

  /** `static_cast<int>` of a `double`: rounds toward zero. */
  function Trunc(x: real): int
  {
    if x < 0.0 then -((-x).Floor) else x.Floor
  }

  /** C++ integer division and `%`: the quotient rounds toward zero, so the remainder takes
      the sign of the dividend. */
  function CppQuot(a: int, b: int): int
    requires b != 0
  {
    var q := Abs(a) / Abs(b);
    if (a < 0) == (b < 0) then q else -q
  }

  function CppRem(a: int, b: int): int
    requires b != 0
  {
    a - b * CppQuot(a, b)
  }

  function Abs(a: int): nat { if a < 0 then -a else a }

  // ---------------------------------------------------------------------------------------
  // value

  /** The checker's parity test on the scaled, floored coordinates. */
  predicate CheckerEven(iscale: real, p: Vec3)
  {
    CppRem(FloorSum(Scale(iscale, p)), 2) == 0
  }

  /** `x_int + y_int + z_int` of the scaled point. */
  function FloorSum(s: Vec3): int
  {
    s.x.Floor + s.y.Floor + s.z.Floor
  }

  /** `interval(0,1).clamp(x)`. */
  function Clamp01(x: real): (c: real)
    ensures 0.0 <= c <= 1.0
    ensures 0.0 <= x <= 1.0 ==> c == x
  {
    var unit := Interval(Fin(0.0), Fin(1.0));
    ClampIntoInterval(unit, x);
    unit.Clamp(x).v
  }

  /** The column and row `image::value` asks the reader for. */
  function ImageIndices(img: ImageReader, u: real, v: real): (int, int)
  {
    (Trunc(Clamp01(u) * (Width(img) as real)), Trunc((1.0 - Clamp01(v)) * (Height(img) as real)))
  }

  /** A byte scaled by `1/255`. */
  function Channel(b: byte): real { (1.0 / 255.0) * ((b as int) as real) }

  /** `image::value`: cyan without an image, else the pixel at the clamped, flipped
      coordinates. */
  function ImageValue(img: ImageReader, u: real, v: real): Vec3
    requires Valid(img)
  {
    if Height(img) <= 0 then Vec3(0.0, 1.0, 1.0)
    else
      var (i, j) := ImageIndices(img, u, v);
      var pixel := PixelData(img, i, j);
      Vec3(Channel(pixel[0]), Channel(pixel[1]), Channel(pixel[2]))
  }

  /** `value(u, v, p)` of any texture. */
  function Value(tex: Texture, u: real, v: real, p: Vec3): Vec3
    requires TexValid(tex)
  {
    match tex
    case Solid(c) => c
    case Checker(iscale, even, odd) =>
      if CheckerEven(iscale, p) then Value(even, u, v, p) else Value(odd, u, v, p)
    case ImageTex(img) => ImageValue(img, u, v)
  }

  // ---------------------------------------------------------------------------------------
  // Properties

  /** A solid texture ignores where it is looked up. */
  lemma SolidIgnoresArguments(c: Vec3, u: real, v: real, p: Vec3, u2: real, v2: real, p2: Vec3)
    ensures Value(Solid(c), u, v, p) == Value(Solid(c), u2, v2, p2) == c
  {
  }

  /** C++ `%` by 2 is zero exactly for even numbers, negative ones included, although it
      is negative for negative odd numbers. */
  lemma CppRemParity(n: int)
    ensures CppRem(n, 2) == 0 <==> n % 2 == 0
    ensures n < 0 && n % 2 != 0 ==> CppRem(n, 2) == -1
  {
    if n < 0 {
      var q := (-n) / 2;
      assert -n == 2 * q + (-n) % 2;
      assert CppRem(n, 2) == n + 2 * q;
    }
  }

  /** The checker shows its even texture exactly when the floored, scaled coordinates have
      an even sum. */
  lemma CheckerChoice(iscale: real, even: Texture, odd: Texture, u: real, v: real, p: Vec3)
    requires TexValid(even) && TexValid(odd)
    ensures Value(Checker(iscale, even, odd), u, v, p) ==
              if FloorSum(Scale(iscale, p)) % 2 == 0 then Value(even, u, v, p) else Value(odd, u, v, p)
  {
    CppRemParity(FloorSum(Scale(iscale, p)));
  }

  /** `floor(x + 1) == floor(x) + 1`. */
  lemma FloorPlusOne(x: real)
    ensures (x + 1.0).Floor == x.Floor + 1
  {
  }

  /** Moving the point by the checker's scale along any axis swaps the two textures. */
  lemma CheckerShift(scale: real, even: Texture, odd: Texture, p: Vec3)
    requires scale != 0.0
    ensures CheckerEven(MakeChecker(scale, even, odd).iscale, Add(p, Vec3(scale, 0.0, 0.0))) <==>
              !CheckerEven(MakeChecker(scale, even, odd).iscale, p)
    ensures CheckerEven(MakeChecker(scale, even, odd).iscale, Add(p, Vec3(0.0, scale, 0.0))) <==>
              !CheckerEven(MakeChecker(scale, even, odd).iscale, p)
    ensures CheckerEven(MakeChecker(scale, even, odd).iscale, Add(p, Vec3(0.0, 0.0, scale))) <==>
              !CheckerEven(MakeChecker(scale, even, odd).iscale, p)
  {
    var k := MakeChecker(scale, even, odd).iscale;
    ShiftSwaps(k, scale, p, Add(p, Vec3(scale, 0.0, 0.0)), 0);
    ShiftSwaps(k, scale, p, Add(p, Vec3(0.0, scale, 0.0)), 1);
    ShiftSwaps(k, scale, p, Add(p, Vec3(0.0, 0.0, scale)), 2);
  }

  /** `q` is `p` moved by `scale` along the axis `axis`. */
  predicate MovedAlong(p: Vec3, q: Vec3, scale: real, axis: int)
  {
    if axis == 0 then q == Vec3(p.x + scale, p.y, p.z)
    else if axis == 1 then q == Vec3(p.x, p.y + scale, p.z)
    else q == Vec3(p.x, p.y, p.z + scale)
  }

  /** A move by `scale` along one axis raises the floored sum by one, flipping its parity. */
  lemma ShiftSwaps(k: real, scale: real, p: Vec3, q: Vec3, axis: int)
    requires k * scale == 1.0 && MovedAlong(p, q, scale, axis)
    ensures CheckerEven(k, q) <==> !CheckerEven(k, p)
  {
    FloorSumStep(k, scale, p, q, axis);
    ParitySwap(FloorSum(Scale(k, p)), FloorSum(Scale(k, q)));
  }

  /** The move raises the floored sum of the scaled point by one. */
  lemma FloorSumStep(k: real, scale: real, p: Vec3, q: Vec3, axis: int)
    requires k * scale == 1.0 && MovedAlong(p, q, scale, axis)
    ensures FloorSum(Scale(k, q)) == FloorSum(Scale(k, p)) + 1
  {
    var sp, sq := Scale(k, p), Scale(k, q);
    if axis == 0 {
      ShiftOneAxis(k, scale, p.x, q.x);
      SumStep(sp, sq, 0);
    } else if axis == 1 {
      ShiftOneAxis(k, scale, p.y, q.y);
      SumStep(sp, sq, 1);
    } else {
      ShiftOneAxis(k, scale, p.z, q.z);
      SumStep(sp, sq, 2);
    }
  }

  /** Consecutive integers have C++ remainders by 2 of which exactly one is zero. */
  lemma ParitySwap(n: int, m: int)
    requires m == n + 1
    ensures CppRem(m, 2) == 0 <==> CppRem(n, 2) != 0
  {
    CppRemParity(n);
    CppRemParity(m);
    ParityFlip(n);
  }

  /** One floored component up by one, the others equal: the sum goes up by one. */
  lemma SumStep(a: Vec3, b: Vec3, axis: int)
    requires axis == 0 ==> b.x.Floor == a.x.Floor + 1 && b.y == a.y && b.z == a.z
    requires axis == 1 ==> b.x == a.x && b.y.Floor == a.y.Floor + 1 && b.z == a.z
    requires axis != 0 && axis != 1 ==> b.x == a.x && b.y == a.y && b.z.Floor == a.z.Floor + 1
    ensures FloorSum(b) == FloorSum(a) + 1
  {
  }

  lemma ParityFlip(n: int)
    ensures (n + 1) % 2 == 0 <==> n % 2 != 0
  {
  }

  /** One scaled coordinate moves to the next integer cell. */
  lemma ShiftOneAxis(k: real, scale: real, x: real, shifted: real)
    requires k * scale == 1.0 && shifted == x + scale
    ensures (k * shifted).Floor == (k * x).Floor + 1
  {
    assert k * shifted == k * x + k * scale;
    FloorPlusOne(k * x);
  }

  /** Without an image the texture is cyan. */
  lemma ImageFallback(img: ImageReader, u: real, v: real)
    requires Valid(img) && img.data.None?
    ensures ImageValue(img, u, v) == Vec3(0.0, 1.0, 1.0)
  {
  }

  /** `0 <= c x <= x` for `0 <= c <= 1` and `x >= 0`. */
  lemma ScaledDown(c: real, x: real, cx: real)
    requires 0.0 <= c <= 1.0 && 0.0 <= x && cx == c * x
    ensures 0.0 <= cx <= x
  {
    ProductNonNegative(c, x, cx);
    ProductNonNegative(1.0 - c, x, (1.0 - c) * x);
  }

  /** Truncating a real in `[0, n]` gives an integer in `[0, n]`. */
  lemma TruncBetween(x: real, n: int)
    requires 0.0 <= x <= n as real
    ensures 0 <= Trunc(x) <= n
  {
  }

  /** The indices lie in `[0, width]` and `[0, height]`; `v >= 1` gives row 0 and `v <= 0`
      gives row `height`, which the reader clamps to the last row. */
  lemma ImageIndicesRange(img: ImageReader, u: real, v: real)
    requires Valid(img) && img.data.Some?
    ensures 0 <= ImageIndices(img, u, v).0 <= Width(img)
    ensures 0 <= ImageIndices(img, u, v).1 <= Height(img)
    ensures v >= 1.0 ==> ImageIndices(img, u, v).1 == 0
    ensures v <= 0.0 ==> ClampIndex(ImageIndices(img, u, v).1, 0, img.imageHeight) == img.imageHeight - 1
  {
    var w, h := Width(img) as real, Height(img) as real;
    var cu, cv := Clamp01(u), 1.0 - Clamp01(v);
    ScaledDown(cu, w, cu * w);
    ScaledDown(cv, h, cv * h);
    TruncBetween(cu * w, Width(img));
    TruncBetween(cv * h, Height(img));
    if v <= 0.0 {
      assert Clamp01(v) == 0.0;
    }
  }

  /** Every channel of an image lookup lies in `[0, 1]`. */
  lemma ImageChannelsInUnit(img: ImageReader, u: real, v: real)
    requires Valid(img)
    ensures 0.0 <= ImageValue(img, u, v).x <= 1.0
    ensures 0.0 <= ImageValue(img, u, v).y <= 1.0
    ensures 0.0 <= ImageValue(img, u, v).z <= 1.0
  {
  }
}
