/**
 The walk that converts a YUV 4:2:0 frame to RGB. Pointers into the frame are indices; the frame
 is the whole buffer of width * height * 3 / 2 bytes.
 */
module Converters {
  import opened Basics
  import opened Color

  type Frame = seq<Byte>

  /** n steps of a pointer. The proofs follow the walk, so they count steps instead of multiplying. */
  function Times(step: nat, n: nat): nat {
    if n == 0 then 0 else Times(step, n - 1) + step
  }

  lemma {:induction false} TimesIsProduct(step: nat, n: nat)
    ensures Times(step, n) == n * step
  {
    if n > 0 {
      TimesIsProduct(step, n - 1);
    }
  }

  /** Half of n, rounded down, and whether nothing is left over: counted like the walk does, by twos. */
  function Half(n: nat): nat {
    if n < 2 then 0 else 1 + Half(n - 2)
  }

  predicate Even(n: nat) { n == 0 || (n > 1 && Even(n - 2)) }

  lemma {:induction false} HalfIs(n: nat)
    ensures Half(n) == n / 2 && (Even(n) <==> n % 2 == 0)
  {
    if n >= 2 {
      HalfIs(n - 2);
    }
  }

  lemma {:induction false} EvenHalf(n: nat)
    requires Even(n)
    ensures Half(n + 1) == Half(n) && n == 2 * Half(n)
  {
    if n > 0 {
      EvenHalf(n - 2);
    }
  }

  /** From one even number to a larger one is at least a step of two. */
  lemma {:induction false} EvenGap(x: nat, n: nat)
    requires Even(n) && x < n
    ensures Half(x) < Half(n) && (Even(x) ==> x + 2 <= n && Even(x + 2))
  {
    if x >= 2 {
      EvenGap(x - 2, n - 2);
    }
  }

  /** Where a frame keeps its chroma planes: their first elements, and the step between elements. */
  datatype Planes = Planes(u: nat, v: nat, step: nat)

  /** The index of the pixel in row y and column x of a frame that is w pixels wide. */
  function At(w: nat, y: nat, x: nat): nat { Times(w, y) + x }

  /** The index of its chroma sample. */
  function Chroma(w: nat, y: nat, x: nat): nat { Times(Half(w), Half(y)) + Half(x) }

  function UAt(planes: Planes, c: nat): nat { planes.u + Times(planes.step, c) }

  function VAt(planes: Planes, c: nat): nat { planes.v + Times(planes.step, c) }

  function Get(frame: Frame, i: nat): Byte { if i < |frame| then frame[i] else 0 }

  /** What a frame says of the pixel in row y and column x. */
  function Pixel(frame: Frame, planes: Planes, w: nat, y: nat, x: nat): Yuv {
    var c := Chroma(w, y, x);
    Yuv(Get(frame, At(w, y, x)), Get(frame, UAt(planes, c)), Get(frame, VAt(planes, c)))
  }

  /** The number of chroma samples of a frame with even sides. */
  function Samples(w: nat, h: nat): nat { Times(Half(w), Half(h)) }

  /** All the elements that a walk over a w x h frame reads are there. */
  ghost predicate Fits(frame: Frame, planes: Planes, w: nat, h: nat) {
    && Times(w, h) <= |frame|
    && forall c :: 0 <= c < Samples(w, h) ==> UAt(planes, c) < |frame| && VAt(planes, c) < |frame|
  }

  lemma {:induction false} Later(w: nat, y: nat, h: nat)
    requires y < h
    ensures Times(w, y) + w == Times(w, y + 1) <= Times(w, h)
  {
    if y + 1 < h {
      Later(w, y, h - 1);
    }
  }

  lemma InPlane(w: nat, h: nat, y: nat, x: nat)
    requires Even(w) && Even(h) && y < h && x < w
    ensures Chroma(w, y, x) < Samples(w, h)
  {
    EvenGap(y, h);
    EvenGap(x, w);
    Later(Half(w), Half(y), Half(h));
  }

  /** Two pixels share a sample, and the next two take the next one. */
  lemma NextPair(planes: Planes, w: nat, y: nat, x: nat)
    requires Even(x)
    ensures Chroma(w, y, x + 1) == Chroma(w, y, x)
    ensures UAt(planes, Chroma(w, y, x + 2)) == UAt(planes, Chroma(w, y, x)) + planes.step
    ensures VAt(planes, Chroma(w, y, x + 2)) == VAt(planes, Chroma(w, y, x)) + planes.step
  {
    EvenHalf(x);
    assert Half(x + 2) == Half(x) + 1;
  }

  /** The first n pixels of row y have been written. */
  ghost predicate Begun<P>(out: seq<P>, frame: Frame, planes: Planes, color: Yuv -> P, w: nat, y: nat, n: nat) {
    forall x :: 0 <= x < n ==>
      At(w, y, x) < |out| && out[At(w, y, x)] == color(Pixel(frame, planes, w, y, x))
  }

  ghost predicate RowShown<P>(out: seq<P>, frame: Frame, planes: Planes, color: Yuv -> P, w: nat, y: nat) {
    Begun(out, frame, planes, color, w, y, w)
  }

  /** The reads of one step lie in the frame, and are those of the indexed definition. */
  lemma PairPixels(frame: Frame, planes: Planes, w: nat, h: nat, y: nat, x: nat)
    requires Even(w) && Even(h) && Even(x) && y < h && x < w && Fits(frame, planes, w, h)
    ensures var Y, U, V := At(w, y, x), UAt(planes, Chroma(w, y, x)), VAt(planes, Chroma(w, y, x));
      && Y + 2 == At(w, y, x + 2) && Y + 1 == At(w, y, x + 1) < Times(w, h) <= |frame| && U < |frame| && V < |frame|
      && Pixel(frame, planes, w, y, x) == Yuv(frame[Y], frame[U], frame[V])
      && Pixel(frame, planes, w, y, x + 1) == Yuv(frame[Y + 1], frame[U], frame[V])
  {
    EvenGap(x, w);
    Later(w, y, h);
    InPlane(w, h, y, x);
    NextPair(planes, w, y, x);
  }

  /** `after` is `before` with row y shown up to pixel n, and otherwise the same. */
  ghost predicate Extends<P>(before: seq<P>, after: seq<P>, frame: Frame, planes: Planes, color: Yuv -> P, w: nat, y: nat, n: nat) {
    && |before| == |after| && Begun(after, frame, planes, color, w, y, n)
    && forall p :: 0 <= p < |before| && !(At(w, y, 0) <= p < At(w, y, n)) ==> after[p] == before[p]
  }

  lemma TwoMore<P>(before: seq<P>, out: seq<P>, frame: Frame, planes: Planes, color: Yuv -> P, w: nat, y: nat, x: nat, a: P, b: P)
    requires Extends(before, out, frame, planes, color, w, y, x) && At(w, y, x + 1) < |out|
    requires a == color(Pixel(frame, planes, w, y, x)) && b == color(Pixel(frame, planes, w, y, x + 1))
    ensures Extends(before, out[At(w, y, x) := a][At(w, y, x + 1) := b], frame, planes, color, w, y, x + 2)
  {
  }

  /** The three pointers stand at pixel x of row y. */
  ghost predicate AtPixel(planes: Planes, w: nat, y: nat, x: nat, Y: nat, U: nat, V: nat) {
    Y == At(w, y, x) && U == UAt(planes, Chroma(w, y, x)) && V == VAt(planes, Chroma(w, y, x))
  }

  /** The body of the inner loop: two pixels. */
  method Pair<P>(frame: Frame, planes: Planes, color: Yuv -> P, rgb: array<P>, ghost first: seq<P>,
                 ghost width: nat, ghost height: nat, ghost y: nat, ghost x: nat, Y0: nat, U0: nat, V0: nat)
    returns (Y: nat, U: nat, V: nat)
    requires Even(width) && Even(height) && Even(x) && y < height && x < width
    requires Fits(frame, planes, width, height) && Times(width, height) <= rgb.Length
    requires AtPixel(planes, width, y, x, Y0, U0, V0) && Extends(first, rgb[..], frame, planes, color, width, y, x)
    modifies rgb
    ensures AtPixel(planes, width, y, x + 2, Y, U, V)
    ensures Extends(first, rgb[..], frame, planes, color, width, y, x + 2)
  {
    PairPixels(frame, planes, width, height, y, x);
    NextPair(planes, width, y, x);
    ghost var before := rgb[..];
    Y, U, V := Y0, U0, V0;
    var nU, nV := frame[U], frame[V];
    rgb[Y] := color(Yuv(frame[Y], nU, nV));
    Y := Y + 1;
    rgb[Y] := color(Yuv(frame[Y], nU, nV));
    Y := Y + 1;
    TwoMore(first, before, frame, planes, color, width, y, x, rgb[Y - 2], rgb[Y - 1]);
    assert rgb[..] == before[Y - 2 := rgb[Y - 2]][Y - 1 := rgb[Y - 1]];
    U, V := U + planes.step, V + planes.step;
  }

  /** The inner loop: row y, from the pointers at its start. */
  method Row<P>(frame: Frame, planes: Planes, color: Yuv -> P, rgb: array<P>, width: nat, ghost height: nat, ghost y: nat,
                Y0: nat, U0: nat, V0: nat)
    returns (Y: nat, U: nat, V: nat)
    requires Even(width) && Even(height) && y < height
    requires Fits(frame, planes, width, height) && Times(width, height) <= rgb.Length
    requires AtPixel(planes, width, y, 0, Y0, U0, V0)
    modifies rgb
    ensures AtPixel(planes, width, y, width, Y, U, V)
    ensures Y <= rgb.Length && Extends(old(rgb[..]), rgb[..], frame, planes, color, width, y, width)
  {
    Later(width, y, height);
    Y, U, V := Y0, U0, V0;
    var x := 0;
    ghost var first := rgb[..];
    while x < width
      invariant x <= width && Even(x) && AtPixel(planes, width, y, x, Y, U, V)
      invariant Extends(first, rgb[..], frame, planes, color, width, y, x)
    {
      Y, U, V := Pair(frame, planes, color, rgb, first, width, height, y, x, Y, U, V);
      EvenGap(x, width);
      x := x + 2;
    }
  }

  ghost predicate Shown<P>(out: seq<P>, frame: Frame, planes: Planes, color: Yuv -> P, w: nat, h: nat) {
    forall y :: 0 <= y < h ==> RowShown(out, frame, planes, color, w, y)
  }

  /** The chroma pointers go back after an even row and go on after an odd one. */
  lemma NextRow(w: nat, y: nat)
    ensures At(w, y + 1, 0) == At(w, y, w)
    ensures Chroma(w, y + 1, 0) == if y % 2 == 1 then Chroma(w, y, w) else Chroma(w, y, 0)
  {
    HalfIs(y);
    HalfIs(y + 1);
  }

  /** Writing beyond a row leaves the row shown. */
  lemma RowStays<P>(before: seq<P>, after: seq<P>, frame: Frame, planes: Planes, color: Yuv -> P, w: nat, y: nat, h: nat)
    requires y < h && RowShown(before, frame, planes, color, w, y)
    requires |before| == |after| && forall p :: 0 <= p < Times(w, h) && p < |before| ==> after[p] == before[p]
    ensures RowShown(after, frame, planes, color, w, y)
  {
    Later(w, y, h);
  }

  lemma RowsStay<P>(before: seq<P>, after: seq<P>, frame: Frame, planes: Planes, color: Yuv -> P, w: nat, y: nat)
    requires Shown(before, frame, planes, color, w, y) && Extends(before, after, frame, planes, color, w, y, w)
    ensures Shown(after, frame, planes, color, w, y + 1)
  {
    forall y' | 0 <= y' < y ensures RowShown(after, frame, planes, color, w, y') {
      RowStays(before, after, frame, planes, color, w, y', y);
    }
  }

  /** The first y rows are shown, and nothing beyond them has been written. */
  ghost predicate Walked<P>(first: seq<P>, out: seq<P>, frame: Frame, planes: Planes, color: Yuv -> P, w: nat, y: nat) {
    && |first| == |out| && Shown(out, frame, planes, color, w, y)
    && forall p :: Times(w, y) <= p < |out| ==> out[p] == first[p]
  }

  lemma WalkedOn<P>(first: seq<P>, before: seq<P>, after: seq<P>, frame: Frame, planes: Planes, color: Yuv -> P, w: nat, y: nat)
    requires Walked(first, before, frame, planes, color, w, y) && Extends(before, after, frame, planes, color, w, y, w)
    ensures Walked(first, after, frame, planes, color, w, y + 1)
  {
    RowsStay(before, after, frame, planes, color, w, y);
  }

  /** The body of the outer loop: one row, and where the chroma pointers go after it. */
  method NextLine<P>(frame: Frame, planes: Planes, color: Yuv -> P, rgb: array<P>, ghost first: seq<P>,
                     width: nat, ghost height: nat, y: nat, Y0: nat, U0: nat, V0: nat)
    returns (Y: nat, U: nat, V: nat)
    requires width % 2 == 0 && height % 2 == 0 && y < height
    requires Fits(frame, planes, width, height) && Times(width, height) <= rgb.Length
    requires AtPixel(planes, width, y, 0, Y0, U0, V0) && Walked(first, rgb[..], frame, planes, color, width, y)
    modifies rgb
    ensures AtPixel(planes, width, y + 1, 0, Y, U, V) && Walked(first, rgb[..], frame, planes, color, width, y + 1)
  {
    HalfIs(width);
    HalfIs(height);
    var uPos, vPos := U0, V0;
    ghost var before := rgb[..];
    Y, U, V := Row(frame, planes, color, rgb, width, height, y, Y0, U0, V0);
    WalkedOn(first, before, rgb[..], frame, planes, color, width, y);
    NextRow(width, y);
    if y % 2 == 1 {
      uPos, vPos := U, V;
    } else {
      U, V := uPos, vPos;
    }
  }

  /** The walk of _YUV420SToRGB32 and _YUV420SToRGB565, which differ in `color` alone. */
  method Walk<P>(frame: Frame, planes: Planes, color: Yuv -> P, rgb: array<P>, width: nat, height: nat)
    requires width % 2 == 0 && height % 2 == 0
    requires Fits(frame, planes, width, height) && Times(width, height) <= rgb.Length
    modifies rgb
    ensures Walked(old(rgb[..]), rgb[..], frame, planes, color, width, height)
  {
    var Y, U, V := 0, planes.u, planes.v;
    var y := 0;
    ghost var first := rgb[..];
    while y < height
      invariant y <= height && AtPixel(planes, width, y, 0, Y, U, V)
      invariant Walked(first, rgb[..], frame, planes, color, width, y)
    {
      Y, U, V := NextLine(frame, planes, color, rgb, first, width, height, y, Y, U, V);
      y := y + 1;
    }
  }

  // ---------------------------------------------------------------------------------------
  // Frame layouts
  // ---------------------------------------------------------------------------------------

  datatype Format = YV12 | YU12 | NV12 | NV21

  /** The pointers that each entry point computes from the number of pixels. */
  function PlanesOf(format: Format, total: nat): Planes {
    match format
    case YV12 => Planes(total + total / 4, total, 1)
    case YU12 => Planes(total, total + total / 4, 1)
    case NV12 => Planes(total, total + 1, 2)
    case NV21 => Planes(total + 1, total, 2)
  }

  /** The order of planes that the RGB565 entry points assume: the one for YV12 takes U before V. */
  function Order565(format: Format): Format { if format == YV12 then YU12 else format }

  method ToRgb32(format: Format, frame: Frame, rgb: array<Rgb>, width: nat, height: nat)
    requires width % 2 == 0 && height % 2 == 0
    requires 2 * |frame| == 3 * (height * width) && height * width <= rgb.Length
    modifies rgb
    ensures Walked(old(rgb[..]), rgb[..], frame, PlanesOf(format, height * width), ToRgb, width, height)
  {
    HalfIs(width);
    HalfIs(height);
    TimesIsProduct(width, height);
    PlanesFit(format, frame, width, height);
    Walk(frame, PlanesOf(format, height * width), ToRgb, rgb, width, height);
  }

  /** There is no entry point to RGB565 for YU12. */
  method ToRgb565Frame(format: Format, frame: Frame, rgb: array<Word16>, width: nat, height: nat)
    requires format != YU12
    requires width % 2 == 0 && height % 2 == 0
    requires 2 * |frame| == 3 * (height * width) && height * width <= rgb.Length
    modifies rgb
    ensures Walked(old(rgb[..]), rgb[..], frame, PlanesOf(Order565(format), height * width), ToRgb565, width, height)
  {
    HalfIs(width);
    HalfIs(height);
    TimesIsProduct(width, height);
    PlanesFit(Order565(format), frame, width, height);
    Walk(frame, PlanesOf(Order565(format), height * width), ToRgb565, rgb, width, height);
  }

  lemma {:induction false} Halves(w: nat, h: nat)
    requires Even(w)
    ensures Times(w, h) == 2 * Times(Half(w), h)
  {
    if h > 0 {
      EvenHalf(w);
      Halves(w, h - 1);
    }
  }

  lemma {:induction false} HalfRows(w: nat, h: nat)
    requires Even(h)
    ensures Times(w, h) == 2 * Times(w, Half(h))
  {
    if h > 0 {
      HalfRows(w, h - 2);
      assert Times(w, h) == Times(w, h - 1) + w == Times(w, h - 2) + w + w;
    }
  }

  /** There is one chroma sample for every four pixels. */
  lemma Quarter(w: nat, h: nat)
    requires Even(w) && Even(h)
    ensures 4 * Samples(w, h) == Times(w, h)
  {
    Halves(w, h);
    HalfRows(Half(w), h);
  }

  lemma StepOne(c: nat)
    ensures Times(1, c) == c && Times(2, c) == 2 * c
  {
    TimesIsProduct(1, c);
    TimesIsProduct(2, c);
  }

  lemma ElementFits(format: Format, samples: nat, c: nat)
    requires c < samples
    ensures var planes := PlanesOf(format, 4 * samples); UAt(planes, c) < 6 * samples && VAt(planes, c) < 6 * samples
  {
    StepOne(c);
  }

  /** No read leaves a buffer of one and a half bytes per pixel, whatever the layout. */
  lemma PlanesFit(format: Format, frame: Frame, w: nat, h: nat)
    requires Even(w) && Even(h) && 2 * |frame| == 3 * Times(w, h)
    ensures Fits(frame, PlanesOf(format, Times(w, h)), w, h)
  {
    Quarter(w, h);
    forall c | 0 <= c < Samples(w, h)
      ensures var planes := PlanesOf(format, Times(w, h)); UAt(planes, c) < |frame| && VAt(planes, c) < |frame|
    {
      ElementFits(format, Samples(w, h), c);
    }
  }

  /** An image as three separate planes. */
  datatype Image = Image(y: seq<Byte>, u: seq<Byte>, v: seq<Byte>)

  ghost predicate Sized(image: Image, w: nat, h: nat) {
    Even(w) && Even(h) && |image.y| == Times(w, h) && |image.u| == |image.v| == Samples(w, h)
  }

  function Interleave(a: seq<Byte>, b: seq<Byte>): Frame
    requires |a| == |b|
  {
    seq(2 * |a|, i requires 0 <= i < 2 * |a| => if i % 2 == 0 then a[i / 2] else b[i / 2])
  }

  /** The four layouts, as their names define them. */
  function Encode(format: Format, image: Image): Frame
    requires |image.u| == |image.v|
  {
    match format
    case YV12 => image.y + image.v + image.u
    case YU12 => image.y + image.u + image.v
    case NV12 => image.y + Interleave(image.u, image.v)
    case NV21 => image.y + Interleave(image.v, image.u)
  }

  /** The pixel in row y and column x of an image: its own luma, and the chroma of its block of four. */
  function Sample(image: Image, w: nat, y: nat, x: nat): Yuv {
    Yuv(Get(image.y, At(w, y, x)), Get(image.u, Chroma(w, y, x)), Get(image.v, Chroma(w, y, x)))
  }

  /** Row and column are what they are called: pixels lie row by row, and chroma at half of both. */
  lemma PixelsByRow(w: nat, y: nat, x: nat)
    ensures At(w, y, x) == y * w + x && Chroma(w, y, x) == y / 2 * (w / 2) + x / 2
  {
    TimesIsProduct(w, y);
    TimesIsProduct(w / 2, y / 2);
    HalfIs(w);
    HalfIs(y);
    HalfIs(x);
  }

  /** Different rows or columns are different pixels. */
  lemma AtInjective(w: nat, y: nat, x: nat, y': nat, x': nat)
    requires x < w && x' < w && At(w, y, x) == At(w, y', x')
    ensures y == y' && x == x'
  {
    if y < y' {
      Later(w, y, y');
    } else if y' < y {
      Later(w, y', y);
    }
  }

  /** Two pixels share a chroma sample exactly if they lie in the same block of two by two. */
  lemma ChromaBlocks(w: nat, y: nat, x: nat, y': nat, x': nat)
    requires Even(w) && x < w && x' < w
    ensures Chroma(w, y, x) == Chroma(w, y', x') <==> y / 2 == y' / 2 && x / 2 == x' / 2
  {
    HalfIs(y);
    HalfIs(y');
    HalfIs(x);
    HalfIs(x');
    EvenGap(x, w);
    EvenGap(x', w);
    if Chroma(w, y, x) == Chroma(w, y', x') {
      AtInjective(Half(w), Half(y), Half(x), Half(y'), Half(x'));
    }
  }

  /** Planar layouts: the planes lie one after the other. */
  lemma Planar(y: Frame, a: Frame, b: Frame, c: nat)
    requires c < |a| == |b| && |y| == 4 * |a|
    ensures Get(y + a + b, |y| + c) == a[c]
    ensures Get(y + a + b, |y| + |a| + c) == b[c]
  {
  }

  /** Interleaved layouts: the samples alternate. */
  lemma Interleaved(y: Frame, a: Frame, b: Frame, c: nat)
    requires c < |a| == |b|
    ensures Get(y + Interleave(a, b), |y| + 2 * c) == a[c]
    ensures Get(y + Interleave(a, b), |y| + 1 + 2 * c) == b[c]
  {
    assert (y + Interleave(a, b))[|y| + 2 * c] == Interleave(a, b)[2 * c];
    assert (y + Interleave(a, b))[|y| + 1 + 2 * c] == Interleave(a, b)[2 * c + 1];
  }

  ghost predicate ReadsChroma(format: Format, image: Image, c: nat)
    requires c < |image.u| == |image.v|
  {
    var frame, planes := Encode(format, image), PlanesOf(format, |image.y|);
    Get(frame, UAt(planes, c)) == image.u[c] && Get(frame, VAt(planes, c)) == image.v[c]
  }

  lemma PlanarReads(image: Image, c: nat)
    requires c < |image.u| == |image.v| && |image.y| == 4 * |image.u|
    ensures ReadsChroma(YV12, image, c) && ReadsChroma(YU12, image, c)
  {
    StepOne(c);
    Planar(image.y, image.v, image.u, c);
    Planar(image.y, image.u, image.v, c);
  }

  lemma InterleavedReads(image: Image, c: nat)
    requires c < |image.u| == |image.v|
    ensures ReadsChroma(NV12, image, c) && ReadsChroma(NV21, image, c)
  {
    StepOne(c);
    Interleaved(image.y, image.u, image.v, c);
    Interleaved(image.y, image.v, image.u, c);
  }

  lemma ChromaReads(format: Format, image: Image, c: nat)
    requires c < |image.u| == |image.v| && |image.y| == 4 * |image.u|
    ensures ReadsChroma(format, image, c)
  {
    PlanarReads(image, c);
    InterleavedReads(image, c);
  }

  lemma LumaReads(format: Format, image: Image, p: nat)
    requires |image.u| == |image.v| && p < |image.y|
    ensures Get(Encode(format, image), p) == image.y[p]
  {
  }

  /** Whichever of the four layouts an image is stored in, the walk reads the same image. */
  lemma SameImage(format: Format, image: Image, w: nat, h: nat, y: nat, x: nat)
    requires Sized(image, w, h) && y < h && x < w
    ensures Pixel(Encode(format, image), PlanesOf(format, Times(w, h)), w, y, x) == Sample(image, w, y, x)
  {
    InPlane(w, h, y, x);
    Quarter(w, h);
    Later(w, y, h);
    ChromaReads(format, image, Chroma(w, y, x));
    LumaReads(format, image, At(w, y, x));
  }

  /** The RGB565 entry points for the two interleaved layouts show the image as it was stored. */
  lemma InterleavedAs565(format: Format, image: Image, w: nat, h: nat, y: nat, x: nat)
    requires format == NV12 || format == NV21
    requires Sized(image, w, h) && y < h && x < w
    ensures Pixel(Encode(format, image), PlanesOf(Order565(format), Times(w, h)), w, y, x) == Sample(image, w, y, x)
  {
    SameImage(format, image, w, h, y, x);
  }

  /** The RGB565 entry point for YV12 therefore shows a YV12 image with its chroma planes exchanged. */
  lemma Yv12As565(image: Image, w: nat, h: nat, y: nat, x: nat)
    requires Sized(image, w, h) && y < h && x < w
    ensures Pixel(Encode(YV12, image), PlanesOf(Order565(YV12), Times(w, h)), w, y, x)
         == Sample(Image(image.y, image.v, image.u), w, y, x)
  {
    SameImage(YU12, Image(image.y, image.v, image.u), w, h, y, x);
  }

  /** A pixel is the stored one exactly if its block has the same U and V. */
  lemma Yv12As565Exactly(image: Image, w: nat, h: nat, y: nat, x: nat)
    requires Sized(image, w, h) && y < h && x < w
    ensures Chroma(w, y, x) < Samples(w, h)
    ensures Pixel(Encode(YV12, image), PlanesOf(Order565(YV12), Times(w, h)), w, y, x) == Sample(image, w, y, x)
       <==> image.u[Chroma(w, y, x)] == image.v[Chroma(w, y, x)]
  {
    InPlane(w, h, y, x);
    Yv12As565(image, w, h, y, x);
  }

  /** Every chroma sample belongs to a pixel. */
  lemma {:induction false} RowAndColumn(w: nat, h: nat, c: nat) returns (r: nat, k: nat)
    requires c < Times(w, h)
    ensures r < h && k < w && c == At(w, r, k)
  {
    if c < Times(w, h - 1) {
      r, k := RowAndColumn(w, h - 1, c);
    } else {
      r, k := h - 1, c - Times(w, h - 1);
    }
  }

  lemma PixelOfSample(w: nat, h: nat, c: nat) returns (y: nat, x: nat)
    requires Even(w) && Even(h) && c < Samples(w, h)
    ensures y < h && x < w && Chroma(w, y, x) == c
  {
    var r, k := RowAndColumn(Half(w), Half(h), c);
    y, x := 2 * r, 2 * k;
    HalfIs(w);
    HalfIs(h);
    HalfIs(y);
    HalfIs(x);
  }

  /** So the entry point shows a whole image as it was stored if and only if its two chroma planes are equal. */
  lemma Yv12As565Whole(image: Image, w: nat, h: nat)
    requires Sized(image, w, h)
    ensures (forall y, x :: 0 <= y < h && 0 <= x < w ==>
               Pixel(Encode(YV12, image), PlanesOf(Order565(YV12), Times(w, h)), w, y, x) == Sample(image, w, y, x))
       <==> image.u == image.v
  {
    if image.u == image.v {
      forall y, x | 0 <= y < h && 0 <= x < w
        ensures Pixel(Encode(YV12, image), PlanesOf(Order565(YV12), Times(w, h)), w, y, x) == Sample(image, w, y, x)
      {
        Yv12As565(image, w, h, y, x);
      }
    } else {
      var c :| 0 <= c < |image.u| && image.u[c] != image.v[c];
      var y, x := PixelOfSample(w, h, c);
      Yv12As565Exactly(image, w, h, y, x);
    }
  }

  /** An image of one block: four pixels, and one sample of each colour. */
  function OneBlock(l: Byte, u: Byte, v: Byte): Image { Image([l, l, l, l], [u], [v]) }

  lemma OneBlockIsTwoByTwo(l: Byte, u: Byte, v: Byte, side: nat)
    requires side == 2
    ensures Sized(OneBlock(l, u, v), side, side)
  {
    HalfIs(side);
    TimesIsProduct(side, side);
    TimesIsProduct(Half(side), Half(side));
  }

  lemma OneBlockAsYv12(l: Byte, u: Byte, v: Byte)
    ensures Encode(YV12, OneBlock(l, u, v)) == [l, l, l, l, v, u]
  {
    var y: Frame := [l, l, l, l];
    assert y + [v] + [u] == [l, l, l, l, v, u];
  }

  /** The frame [l, l, l, l, v, u], with u and v different: none of its pixels is shown as it was stored. */
  lemma Yv12As565Fails(l: Byte, u: Byte, v: Byte, side: nat, y: nat, x: nat)
    requires Sized(OneBlock(l, u, v), side, side) && y < side && x < side && u != v
    ensures Pixel(Encode(YV12, OneBlock(l, u, v)), PlanesOf(Order565(YV12), Times(side, side)), side, y, x)
         != Sample(OneBlock(l, u, v), side, y, x)
  {
    InPlane(side, side, y, x);
    Yv12As565Exactly(OneBlock(l, u, v), side, side, y, x);
  }
}
