/** Where the samples of a scaled image are taken (src/inference/YoloV8Processor.cc): pixel centres
    are mapped to pixel centres, except in the first rows and columns of an enlarged image. */
module Samplings {
  import opened Text
  import opened Letterboxes

  // ---------- geometry ----------

  /** The larger side becomes 640, the other keeps the proportion up to half a pixel, and what is left
      of the square is halved, the odd pixel behind. */
  lemma GeometryMeaning(width: int, height: int)
    requires width > 0 && height > 0
    ensures var s := Scale(width, height);
            var rw, rh := Resized(width, s), Resized(height, s);
            && width as real * s <= 640.0 && height as real * s <= 640.0
            && (width >= height ==> width as real * s == 640.0)
            && (height >= width ==> height as real * s == 640.0)
            && -0.5 < rw as real - width as real * s <= 0.5
            && -0.5 < rh as real - height as real * s <= 0.5
            && 0 <= 640 - rw - 2 * Pad(rw) <= 1 && 0 <= 640 - rh - 2 * Pad(rh) <= 1
  {
    var s := Scale(width, height);
    Fits(width, height);
    Compare(width, height);
    Compare(height, width);
    Product(width, s, 640.0);
    Product(height, s, 640.0);
    hide Scale, Pad;
    Halved(Resized(width, s));
    Halved(Resized(height, s));
  }

  lemma Halved(resized: int)
    requires 0 <= resized <= 640
    ensures 0 <= 640 - resized - 2 * Pad(resized) <= 1
  {
  }

  /** Outside the resized image the tensor is grey. */
  lemma GreyAround(pixels: Pixels, width: int, height: int, row: int, column: int, c: int)
    requires Loaded(pixels, width, height) && 0 <= c < 3
    ensures var s := Scale(width, height);
            var top, left := Pad(Resized(height, s)), Pad(Resized(width, s));
            !(top <= row < top + Resized(height, s) && left <= column < left + Resized(width, s)) ==>
              Cell(pixels, width, height, row, column, c) == 114.0 / 255.0
  {
    hide Sample, Pad, Resized, Scale;
    CellMeaning(pixels, width, height, row, column, c);
  }

  // ---------- layout ----------

  /** The size of rows of one width put one behind the other, and where an element stands. */
  lemma {:induction false} FlatSize<T>(rows: seq<seq<T>>, w: nat)
    requires forall k :: 0 <= k < |rows| ==> |rows[k]| == w
    ensures |Flat(rows)| == |rows| * w
  {
    if rows != [] {
      FlatSize(rows[1..], w);
      assert w + (|rows| - 1) * w == |rows| * w;
    }
  }

  lemma {:induction false} FlatAt<T>(rows: seq<seq<T>>, w: nat, r: nat, i: nat)
    requires forall k :: 0 <= k < |rows| ==> |rows[k]| == w
    requires r < |rows| && i < w
    ensures |Flat(rows)| == |rows| * w && r * w + i < |rows| * w
    ensures Flat(rows)[r * w + i] == rows[r][i]
    decreases r
  {
    FlatSize(rows, w);
    assert w + (|rows| - 1) * w == |rows| * w;
    if r > 0 {
      FlatAt(rows[1..], w, r - 1, i);
      assert w + (r - 1) * w == r * w;
    }
  }

  /** A decoded image is its rows of pixels one behind the other, three components to a pixel. */
  lemma PixelMeaning(rows: seq<seq<int>>, width: int, height: int, row: int, column: int, c: int)
    requires |rows| == height && forall k :: 0 <= k < height ==> |rows[k]| == width * 3
    requires Loaded(Flat(rows), width, height) && 0 <= row < height && 0 <= column < width && 0 <= c < 3
    ensures Pixel(Flat(rows), width, height, row, column, c) == rows[row][column * 3 + c] as real
  {
    hide Flat, Loaded;
    IndexInRange(width, height, row, column, c);
    FlatAt(rows, width * 3, row, column * 3 + c);
    assert row * (width * 3) + (column * 3 + c) == Index(width, row, column, c);
  }

  // ---------- one axis ----------

  /** The coordinate whose value interpolation gives: the coordinate itself up to the last pixel, where
      it stays; in front of the first pixel the fraction is that of the pixel in front, but the pixels
      mixed are the first two, so the coordinate is one too far on. */
  function Effective(source: real, side: int): real {
    if side == 1 then 0.0
    else if source < 0.0 then source + 1.0
    else if source > (side - 1) as real then (side - 1) as real
    else source
  }

  lemma AxisMeaning(source: real, side: int)
    requires side > 0 && source >= -1.0
    ensures var f := Fraction(source);
            First(source, side) as real * (1.0 - f) + Second(source, side) as real * f == Effective(source, side)
  {
    var n, f := source.Floor, Fraction(source);
    assert n as real + f == source && -1 <= n;
    Weights(First(source, side) as real, Second(source, side) as real, f);
  }

  lemma Weights(a: real, b: real, f: real)
    ensures b == a ==> a * (1.0 - f) + b * f == a
    ensures b == a + 1.0 ==> a * (1.0 - f) + b * f == a + f
  {
    assert a * (1.0 - f) == a - a * f;
    assert b == a + 1.0 ==> b * f == a * f + f;
  }

  lemma SourceRange(x: int, scale: real)
    requires x >= 0 && scale > 0.0
    ensures Source(x, scale) > -0.5
    ensures Source(x, scale) < 0.0 <==> 2.0 * x as real + 1.0 < scale
  {
    var q := (x as real + 0.5) / scale;
    assert q * scale == x as real + 0.5;
    PositiveQuotient(x as real + 0.5, scale);
    HalfOf(q, scale);
  }

  lemma PositiveQuotient(a: real, b: real)
    requires a > 0.0 && b > 0.0
    ensures a / b > 0.0
  {
  }

  lemma HalfOf(q: real, scale: real)
    requires scale > 0.0
    ensures q < 0.5 <==> 2.0 * (q * scale) < scale
  {
    assert (0.5 - q) * scale == 0.5 * scale - q * scale;
    if q < 0.5 {
      PositiveProduct(0.5 - q, scale);
    } else {
      NonNegative(q - 0.5, scale);
      assert (q - 0.5) * scale == q * scale - 0.5 * scale;
    }
  }

  lemma PositiveProduct(a: real, b: real)
    requires a > 0.0 && b > 0.0
    ensures a * b > 0.0
  {
  }

  // ---------- affine images ----------

  /** A component that grows by `down` from row to row and by `across` from column to column. */
  ghost predicate Affine(pixels: Pixels, width: int, height: int, c: int, base: real, down: real, across: real)
    requires Loaded(pixels, width, height) && 0 <= c < 3
  {
    forall i, j :: 0 <= i < height && 0 <= j < width ==>
      Pixel(pixels, width, height, i, j, c) == base + down * i as real + across * j as real
  }

  /** Mixing two values of a line mixes the places. */
  lemma MixLine(p: real, q: real, base: real, slope: real, a: real, b: real, f: real, at: real)
    requires p == base + slope * a && q == base + slope * b && at == a * (1.0 - f) + b * f
    ensures Mix(p, q, f) == base + slope * at
  {
    assert slope * (a * (1.0 - f) + b * f) == slope * (a * (1.0 - f)) + slope * (b * f);
    assert (base + slope * a) * (1.0 - f) == base * (1.0 - f) + (slope * a) * (1.0 - f);
    assert (base + slope * b) * f == base * f + (slope * b) * f;
    assert (slope * a) * (1.0 - f) == slope * (a * (1.0 - f)) && (slope * b) * f == slope * (b * f);
    assert base * (1.0 - f) == base - base * f;
  }

  lemma MixPlane(base: real, down: real, across: real, y0: real, y1: real, fy: real, x0: real, x1: real, fx: real,
                 y: real, x: real, p: real, q: real, r: real, t: real)
    requires p == base + down * y0 + across * x0 && q == base + down * y0 + across * x1
    requires r == base + down * y1 + across * x0 && t == base + down * y1 + across * x1
    requires y == y0 * (1.0 - fy) + y1 * fy && x == x0 * (1.0 - fx) + x1 * fx
    ensures Mix(Mix(p, q, fx), Mix(r, t, fx), fy) == base + down * y + across * x
  {
    hide Mix;
    MixLine(p, q, base + down * y0, across, x0, x1, fx, x);
    MixLine(r, t, base + down * y1, across, x0, x1, fx, x);
    MixLine(Mix(p, q, fx), Mix(r, t, fx), base + across * x, down, y0, y1, fy, y);
  }

  /** On an affine image every sample is the affine function at the effective coordinates. */
  lemma AffineSample(pixels: Pixels, width: int, height: int, scale: real, y: int, x: int, c: int,
                     base: real, down: real, across: real)
    requires Loaded(pixels, width, height) && scale > 0.0 && 0 <= c < 3 && 0 <= y && 0 <= x
    requires Affine(pixels, width, height, c, base, down, across)
    ensures Sample(pixels, width, height, scale, y, x, c)
         == (base + down * Effective(Source(y, scale), height) + across * Effective(Source(x, scale), width)) / 255.0
  {
    hide Mix, First, Second, Fraction, Source, Pixel, Loaded, Effective;
    NotEmpty(pixels, width, height);
    var sy, sx := Source(y, scale), Source(x, scale);
    SourceRange(y, scale);
    SourceRange(x, scale);
    Neighbours(sy, height);
    Neighbours(sx, width);
    AxisMeaning(sy, height);
    AxisMeaning(sx, width);
    var y0, y1, x0, x1 := First(sy, height), Second(sy, height), First(sx, width), Second(sx, width);
    MixPlane(base, down, across, y0 as real, y1 as real, Fraction(sy), x0 as real, x1 as real, Fraction(sx),
             Effective(sy, height), Effective(sx, width),
             Pixel(pixels, width, height, y0, x0, c), Pixel(pixels, width, height, y0, x1, c),
             Pixel(pixels, width, height, y1, x0, c), Pixel(pixels, width, height, y1, x1, c));
  }

  lemma EffectiveInside(source: real, side: int)
    requires 0.0 <= source <= (side - 1) as real
    ensures Effective(source, side) == source
  {
  }

  /** Pixel centres go to pixel centres: a sample that falls between the first and the last pixel centre
      is the affine function there. */
  lemma CentresMeet(pixels: Pixels, width: int, height: int, scale: real, y: int, x: int, c: int,
                    base: real, down: real, across: real)
    requires Loaded(pixels, width, height) && scale > 0.0 && 0 <= c < 3 && 0 <= y && 0 <= x
    requires Affine(pixels, width, height, c, base, down, across)
    requires 0.0 <= (y as real + 0.5) / scale - 0.5 <= (height - 1) as real
    requires 0.0 <= (x as real + 0.5) / scale - 0.5 <= (width - 1) as real
    ensures Sample(pixels, width, height, scale, y, x, c)
         == (base + down * ((y as real + 0.5) / scale - 0.5) + across * ((x as real + 0.5) / scale - 0.5)) / 255.0
  {
    hide Sample, Loaded, Affine, Effective;
    AffineSample(pixels, width, height, scale, y, x, c, base, down, across);
    EffectiveInside(Source(y, scale), height);
    EffectiveInside(Source(x, scale), width);
  }

  /** An image that grows by one from row to row is sampled at the nearest place inside the image exactly
      if it has one row only or the sample is not in front of the first pixel centre: only the first
      rows of an enlarged image are off, by one row of the image less the distance to the border. */
  lemma FirstRowsAreOff(pixels: Pixels, width: int, height: int, scale: real, y: int, x: int, c: int, base: real)
    requires Loaded(pixels, width, height) && scale > 0.0 && 0 <= c < 3 && 0 <= y && 0 <= x
    requires Affine(pixels, width, height, c, base, 1.0, 0.0)
    ensures var s := (y as real + 0.5) / scale - 0.5;
            var nearest := Max(0.0, Min(s, (height - 1) as real));
            Sample(pixels, width, height, scale, y, x, c) == (base + nearest) / 255.0
            <==> height == 1 || 2.0 * y as real + 1.0 >= scale
  {
    hide Sample, Loaded, Affine;
    NotEmpty(pixels, width, height);
    AffineSample(pixels, width, height, scale, y, x, c, base, 1.0, 0.0);
    SourceRange(y, scale);
    assert 1.0 * Effective(Source(y, scale), height) == Effective(Source(y, scale), height);
    assert 0.0 * Effective(Source(x, scale), width) == 0.0;
  }

  // ---------- half size ----------

  lemma HalfSource(x: int)
    ensures Source(x, 0.5) == 2.0 * x as real + 0.5
    ensures Source(x, 0.5).Floor == 2 * x && Fraction(Source(x, 0.5)) == 0.5
  {
  }

  lemma HalfNeighbours(x: int, side: int)
    requires 0 <= x && 2 * x + 1 < side
    ensures First(Source(x, 0.5), side) == 2 * x && Second(Source(x, 0.5), side) == 2 * x + 1
  {
    HalfSource(x);
    hide Source;
  }

  lemma MeanOfFour(a: real, b: real, d: real, e: real)
    ensures Mix(Mix(a, b, 0.5), Mix(d, e, 0.5), 0.5) / 255.0 == (a + b + d + e) / 1020.0
  {
  }

  lemma ScaleIsHalf(width: int, height: int)
    requires 0 < width <= 1280 && 0 < height <= 1280 && (width == 1280 || height == 1280)
    ensures Scale(width, height) == 0.5
    ensures Resized(width, 0.5) == (width + 1) / 2 && Resized(height, 0.5) == (height + 1) / 2
  {
    Smaller(width as real, 1280.0);
    Smaller(height as real, 1280.0);
    HalfRounded(width);
    HalfRounded(height);
  }

  lemma HalfRounded(side: int)
    ensures Resized(side, 0.5) == (side + 1) / 2
  {
    var n := (side + 1) / 2;
    assert side as real * 0.5 + 0.5 == (side + 1) as real / 2.0;
    assert 2 * n <= side + 1 < 2 * n + 2;
    assert n as real <= (side + 1) as real / 2.0 < n as real + 1.0;
  }

  /** An image whose longer side is 1280 is halved: every cell is the mean of the four pixels it covers,
      and the image stands in the middle of the tensor. */
  lemma HalfSizeIsMean(pixels: Pixels, width: int, height: int, y: int, x: int, c: int)
    requires Loaded(pixels, width, height) && 0 <= c < 3
    requires width <= 1280 && height <= 1280 && (width == 1280 || height == 1280)
    requires 0 <= y && 2 * y + 1 < height && 0 <= x && 2 * x + 1 < width
    ensures var row, column := (640 - (height + 1) / 2) / 2 + y, (640 - (width + 1) / 2) / 2 + x;
            Cell(pixels, width, height, row, column, c)
            == (Pixel(pixels, width, height, 2 * y, 2 * x, c) + Pixel(pixels, width, height, 2 * y, 2 * x + 1, c)
                + Pixel(pixels, width, height, 2 * y + 1, 2 * x, c)
                + Pixel(pixels, width, height, 2 * y + 1, 2 * x + 1, c)) / 1020.0
  {
    hide Pixel, Scale, Resized, Loaded, Source, First, Second, Fraction, Mix;
    NotEmpty(pixels, width, height);
    ScaleIsHalf(width, height);
    Fits(width, height);
    HalfSource(y);
    HalfSource(x);
    HalfNeighbours(y, height);
    HalfNeighbours(x, width);
    MeanOfFour(Pixel(pixels, width, height, 2 * y, 2 * x, c), Pixel(pixels, width, height, 2 * y, 2 * x + 1, c),
               Pixel(pixels, width, height, 2 * y + 1, 2 * x, c), Pixel(pixels, width, height, 2 * y + 1, 2 * x + 1, c));
  }

  // ---------- boxes ----------

  /** A corner of a box is moved with the image. */
  lemma CornersMove(b: Box, f: Frame)
    ensures var v := Letterboxed(b, f);
            && v.x - v.width / 2.0 == b.x1 * f.scale + f.padX && v.x + v.width / 2.0 == b.x2 * f.scale + f.padX
            && v.y - v.height / 2.0 == b.y1 * f.scale + f.padY && v.y + v.height / 2.0 == b.y2 * f.scale + f.padY
  {
    assert (b.x1 + b.x2) * f.scale == b.x1 * f.scale + b.x2 * f.scale;
    assert (b.x2 - b.x1) * f.scale == b.x2 * f.scale - b.x1 * f.scale;
    assert (b.y1 + b.y2) * f.scale == b.y1 * f.scale + b.y2 * f.scale;
    assert (b.y2 - b.y1) * f.scale == b.y2 * f.scale - b.y1 * f.scale;
  }

  predicate InBox(b: Box, x: real, y: real) {
    b.x1 <= x <= b.x2 && b.y1 <= y <= b.y2
  }

  /** A detected box, inside the image or not, is decoded to its part inside the image. */
  lemma PointsKept(b: Box, f: Frame, x: real, y: real)
    requires f.scale != 0.0
    ensures InBox(Unboxed(Letterboxed(b, f), f), x, y)
            <==> InBox(b, x, y) && 0.0 <= x <= f.width as real && 0.0 <= y <= f.height as real
  {
    hide Letterboxed, Unclipped;
    LetterboxRoundTrip(b, f);
  }

  /** Boxes and pixels agree: the place a tensor cell is sampled at, taken as a point of the image, is
      moved to the centre of that cell. */
  lemma CellsAndBoxesAgree(x: int, scale: real, pad: int)
    requires scale > 0.0
    ensures (Source(x, scale) + 0.5) * scale + pad as real == (pad + x) as real + 0.5
  {
    var q := (x as real + 0.5) / scale;
    assert q * scale == x as real + 0.5;
  }
}
