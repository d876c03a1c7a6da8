/**
 Colour arithmetic between YUV and RGB. `>> 8` on a negative int is an arithmetic shift, that is,
 division rounding down; the sample code assumes a little-endian RGB565 layout.
 */
module Color {
  import opened Basics

  datatype Rgb = Rgb(r: Byte, g: Byte, b: Byte)

  datatype Yuv = Yuv(y: Byte, u: Byte, v: Byte)

  function Clamp(x: int): Byte {
    if x > 255 then 255 else if x < 0 then 0 else x
  }

  function Red(y: int, u: int, v: int): Byte { Clamp((298 * (y - 16) + 409 * (v - 128) + 128) / 256) }

  function Green(y: int, u: int, v: int): Byte {
    Clamp((298 * (y - 16) - 100 * (u - 128) - 208 * (v - 128) + 128) / 256)
  }

  function Blue(y: int, u: int, v: int): Byte { Clamp((298 * (y - 16) + 516 * (u - 128) + 128) / 256) }

  /** The colour channels of YUVToRGB32; the fourth byte of the pixel is never set. */
  function ToRgb(p: Yuv): Rgb {
    Rgb(Red(p.y, p.u, p.v), Green(p.y, p.u, p.v), Blue(p.y, p.u, p.v))
  }

  type Word16 = x: int | 0 <= x < 65536

  /** RGB565: red in the low five bits, then six bits of green, then five of blue. */
  function Pack565(r: int, g: int, b: int): int { (b * 64 + g) * 32 + r }

  function ToRgb565(p: Yuv): Word16 {
    var c := ToRgb(p);
    Pack565(c.r / 8 % 32, c.g / 4 % 64, c.b / 8 % 32)
  }

  /** R16_32, G16_32 and B16_32: each channel widened to eight bits by repeating its top bits. */
  function Unpack565(w: Word16): Rgb {
    var r, g, b := w % 32, w / 32 % 64, w / 2048;
    Rgb(r * 8 + r / 4, g * 4 + g / 16, b * 8 + b / 4)
  }

  function Luma(c: Rgb): int { (66 * c.r + 129 * c.g + 25 * c.b + 128) / 256 + 16 }

  function ChromaU(c: Rgb): int { (-38 * c.r - 74 * c.g + 112 * c.b + 128) / 256 + 128 }

  function ChromaV(c: Rgb): int { (112 * c.r - 94 * c.g - 18 * c.b + 128) / 256 + 128 }

  /** The bytes that R8G8B8ToYUV stores, each cut to eight bits. */
  function ToYuv(c: Rgb): Yuv {
    Yuv(Luma(c) % 256, ChromaU(c) % 256, ChromaV(c) % 256)
  }

  predicate Near(x: int, y: int, d: nat) { x - d <= y <= x + d }

  lemma InRange(c: Rgb)
    ensures 16 <= Luma(c) <= 235 && 16 <= ChromaU(c) <= 240 && 16 <= ChromaV(c) <= 240
  {
  }

  lemma ByteStays(x: int)
    requires 0 <= x < 256
    ensures x % 256 == x
  {
  }

  /** The cut to eight bits never loses anything: every colour lands in the nominal video range. */
  lemma VideoRange(c: Rgb)
    ensures 16 <= ToYuv(c).y <= 235 && 16 <= ToYuv(c).u <= 240 && 16 <= ToYuv(c).v <= 240
    ensures ToYuv(c) == Yuv(Luma(c), ChromaU(c), ChromaV(c))
  {
    InRange(c);
    ByteStays(Luma(c));
    ByteStays(ChromaU(c));
    ByteStays(ChromaV(c));
  }

  /** q is x over 256, rounded down. */
  predicate Shifted(q: int, x: int) { 256 * q <= x <= 256 * q + 255 }

  lemma ShiftRight(x: int)
    ensures Shifted(x / 256, x)
  {
  }

  lemma LumaNear(r: Byte, g: Byte, b: Byte, q: int)
    requires Shifted(q, 66 * r + 129 * g + 25 * b + 128)
    ensures -194200 < 255000 * q - (65481 * r + 128553 * g + 24966 * b) < 194200
  {
  }

  lemma ChromaUNear(r: Byte, g: Byte, b: Byte, q: int)
    requires Shifted(q, -38 * r - 74 * g + 112 * b + 128)
    ensures -253000 < 255000 * q - (-37797 * r - 74203 * g + 112000 * b) < 253000
  {
  }

  lemma ChromaVNear(r: Byte, g: Byte, b: Byte, q: int)
    requires Shifted(q, 112 * r - 94 * g - 18 * b + 128)
    ensures -239100 < 255000 * q - (112000 * r - 93786 * g - 18214 * b) < 239100
  {
  }

  /**
   The conversion of a colour is off by less than one step from what ITU-R Recommendation BT.601 says
   for eight bits, whose coefficients over 255 are 65.481, 128.553 and so on.
   */
  lemma NearStandard(c: Rgb)
    ensures -194200 < 255000 * (Luma(c) - 16) - (65481 * c.r + 128553 * c.g + 24966 * c.b) < 194200
    ensures -253000 < 255000 * (ChromaU(c) - 128) - (-37797 * c.r - 74203 * c.g + 112000 * c.b) < 253000
    ensures -239100 < 255000 * (ChromaV(c) - 128) - (112000 * c.r - 93786 * c.g - 18214 * c.b) < 239100
  {
    ShiftRight(66 * c.r + 129 * c.g + 25 * c.b + 128);
    ShiftRight(-38 * c.r - 74 * c.g + 112 * c.b + 128);
    ShiftRight(112 * c.r - 94 * c.g - 18 * c.b + 128);
    LumaNear(c.r, c.g, c.b, Luma(c) - 16);
    ChromaUNear(c.r, c.g, c.b, ChromaU(c) - 128);
    ChromaVNear(c.r, c.g, c.b, ChromaV(c) - 128);
  }

  /** b is x thousandths, cut to a byte, but for d thousandths. */
  predicate Within(b: Byte, x: int, d: int) {
    if x < -d then b == 0
    else if x > 255000 + d then b == 255
    else -d <= 1000 * b - x <= d
  }

  lemma ClampWithin(q: int, x: int, d: int)
    requires -d <= 1000 * q - x <= d
    ensures Within(Clamp(q), x, d)
  {
  }

  lemma RedNear(y: Byte, v: Byte, q: int)
    requires Shifted(q, 298 * (y - 16) + 409 * (v - 128) + 128)
    ensures -726 <= 1000 * q - (1164 * (y - 16) + 1596 * (v - 128)) <= 726
  {
  }

  lemma GreenNear(y: Byte, u: Byte, v: Byte, q: int)
    requires Shifted(q, 298 * (y - 16) - 100 * (u - 128) - 208 * (v - 128) + 128)
    ensures -754 <= 1000 * q - (1164 * (y - 16) - 392 * (u - 128) - 813 * (v - 128)) <= 754
  {
  }

  lemma BlueNear(y: Byte, u: Byte, q: int)
    requires Shifted(q, 298 * (y - 16) + 516 * (u - 128) + 128)
    ensures -691 <= 1000 * q - (1164 * (y - 16) + 2017 * (u - 128)) <= 691
  {
  }

  lemma RedStandard(y: Byte, u: Byte, v: Byte)
    ensures Within(Red(y, u, v), 1164 * (y - 16) + 1596 * (v - 128), 726)
  {
    var x := 298 * (y - 16) + 409 * (v - 128) + 128;
    ShiftRight(x);
    RedNear(y, v, x / 256);
    ClampWithin(x / 256, 1164 * (y - 16) + 1596 * (v - 128), 726);
  }

  lemma GreenStandard(y: Byte, u: Byte, v: Byte)
    ensures Within(Green(y, u, v), 1164 * (y - 16) - 392 * (u - 128) - 813 * (v - 128), 754)
  {
    var x := 298 * (y - 16) - 100 * (u - 128) - 208 * (v - 128) + 128;
    ShiftRight(x);
    GreenNear(y, u, v, x / 256);
    ClampWithin(x / 256, 1164 * (y - 16) - 392 * (u - 128) - 813 * (v - 128), 754);
  }

  lemma BlueStandard(y: Byte, u: Byte, v: Byte)
    ensures Within(Blue(y, u, v), 1164 * (y - 16) + 2017 * (u - 128), 691)
  {
    var x := 298 * (y - 16) + 516 * (u - 128) + 128;
    ShiftRight(x);
    BlueNear(y, u, x / 256);
    ClampWithin(x / 256, 1164 * (y - 16) + 2017 * (u - 128), 691);
  }

  /** So is the way back, with the coefficients of that recommendation to three decimals. */
  lemma BackNearStandard(p: Yuv)
    ensures Within(ToRgb(p).r, 1164 * (p.y - 16) + 1596 * (p.v - 128), 726)
    ensures Within(ToRgb(p).g, 1164 * (p.y - 16) - 392 * (p.u - 128) - 813 * (p.v - 128), 754)
    ensures Within(ToRgb(p).b, 1164 * (p.y - 16) + 2017 * (p.u - 128), 691)
  {
    RedStandard(p.y, p.u, p.v);
    GreenStandard(p.y, p.u, p.v);
    BlueStandard(p.y, p.u, p.v);
  }

  /** b is x over 256, rounded to the nearest, halves up, and cut to a byte. */
  predicate Nearest(b: Byte, x: int) {
    if x < -128 then b == 0
    else if x >= 256 * 255 + 128 then b == 255
    else -128 <= x - 256 * b < 128
  }

  lemma ClampNearest(q: int, x: int)
    requires Shifted(q, x + 128)
    ensures Nearest(Clamp(q), x)
  {
  }

  /** The weighted sums of the conversion back are rounded to the nearest. */
  lemma RoundsToNearest(p: Yuv)
    ensures Nearest(ToRgb(p).r, 298 * (p.y - 16) + 409 * (p.v - 128))
    ensures Nearest(ToRgb(p).g, 298 * (p.y - 16) - 100 * (p.u - 128) - 208 * (p.v - 128))
    ensures Nearest(ToRgb(p).b, 298 * (p.y - 16) + 516 * (p.u - 128))
  {
    NearestSum(298 * (p.y - 16) + 409 * (p.v - 128));
    NearestSum(298 * (p.y - 16) - 100 * (p.u - 128) - 208 * (p.v - 128));
    NearestSum(298 * (p.y - 16) + 516 * (p.u - 128));
  }

  lemma NearestSum(x: int)
    ensures Nearest(Clamp((x + 128) / 256), x)
  {
    ShiftRight(x + 128);
    ClampNearest((x + 128) / 256, x);
  }

  lemma RedReturns(c: Rgb)
    ensures var p := ToYuv(c); Near(c.r, Red(p.y, p.u, p.v), 2)
  {
    VideoRange(c);
  }

  lemma GreenReturns(c: Rgb)
    ensures var p := ToYuv(c); Near(c.g, Green(p.y, p.u, p.v), 2)
  {
    VideoRange(c);
  }

  lemma BlueReturns(c: Rgb)
    ensures var p := ToYuv(c); Near(c.b, Blue(p.y, p.u, p.v), 3)
  {
    VideoRange(c);
  }

  /** Converting a colour to YUV and back moves red and green by at most 2 and blue by at most 3. */
  lemma RoundTrip(c: Rgb)
    ensures var d := ToRgb(ToYuv(c)); Near(c.r, d.r, 2) && Near(c.g, d.g, 2) && Near(c.b, d.b, 3)
  {
    RedReturns(c);
    GreenReturns(c);
    BlueReturns(c);
  }

  /** The three bounds are reached. */
  lemma RoundTripTight()
    ensures ToRgb(ToYuv(Rgb(0, 1, 215))).r == 2
    ensures ToRgb(ToYuv(Rgb(147, 0, 211))).g == 2
    ensures ToRgb(ToYuv(Rgb(11, 255, 2))).b == 5
  {
    assert ToYuv(Rgb(0, 1, 215)) == Yuv(38, 222, 113);
    assert ToYuv(Rgb(147, 0, 211)) == Yuv(75, 198, 177);
    assert ToYuv(Rgb(11, 255, 2)) == Yuv(148, 54, 39);
  }

  /** Exchanging U and V matters: full red becomes no red at all. */
  lemma ExchangeMatters()
    ensures ToRgb(Yuv(128, 0, 255)).r == 255 && ToRgb(Yuv(128, 255, 0)).r == 0
  {
    assert Red(128, 0, 255) == 255;
  }

  /** The bit fields of a packed pixel do not overlap. */
  lemma Fields(r: int, g: int, b: int)
    requires 0 <= r < 32 && 0 <= g < 64 && 0 <= b < 32
    ensures var w := Pack565(r, g, b); 0 <= w < 65536 && w % 32 == r && w / 32 % 64 == g && w / 2048 == b
  {
  }

  lemma Masks(c: Rgb)
    ensures c.r / 8 % 32 == c.r / 8 && c.g / 4 % 64 == c.g / 4 && c.b / 8 % 32 == c.b / 8
  {
  }

  lemma Widened(r: int, g: int, b: int)
    requires 0 <= r < 32 && 0 <= g < 64 && 0 <= b < 32
    ensures (r * 8 + r / 4) / 8 == r && (g * 4 + g / 16) / 4 == g && (b * 8 + b / 4) / 8 == b
  {
  }

  /** Packing keeps the top bits: what comes back differs only below the bits that were kept. */
  lemma PackKeepsTopBits(p: Yuv)
    ensures var c, d := ToRgb(p), Unpack565(ToRgb565(p));
      d.r / 8 == c.r / 8 && d.g / 4 == c.g / 4 && d.b / 8 == c.b / 8
  {
    var c := ToRgb(p);
    Masks(c);
    Fields(c.r / 8, c.g / 4, c.b / 8);
    Widened(c.r / 8, c.g / 4, c.b / 8);
  }

  /** Widening scales the range of a channel to that of a byte: its ends exactly, and all else within a step. */
  lemma WidenedScales(w: Word16)
    ensures var c, r, g, b := Unpack565(w), w % 32, w / 32 % 64, w / 2048;
      && (c.r == 0 <==> r == 0) && (c.g == 0 <==> g == 0) && (c.b == 0 <==> b == 0)
      && (c.r == 255 <==> r == 31) && (c.g == 255 <==> g == 63) && (c.b == 255 <==> b == 31)
      && -31 < 31 * c.r - 255 * r < 31 && -63 < 63 * c.g - 255 * g < 63 && -31 < 31 * c.b - 255 * b < 31
  {
  }

  /** Every word is what its widened channels pack to. */
  lemma UnpackPack(w: Word16)
    ensures var c := Unpack565(w); Pack565(c.r / 8, c.g / 4, c.b / 8) == w
  {
    Recomposed(w);
    Widened(w % 32, w / 32 % 64, w / 2048);
  }

  lemma Recomposed(w: Word16)
    ensures w == Pack565(w % 32, w / 32 % 64, w / 2048)
  {
    assert w / 32 == w / 2048 * 64 + w / 32 % 64;
  }
}
