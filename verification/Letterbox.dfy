/** Scaling an image into the square input of the detector, and back (src/inference/YoloV8Processor.cc).
    Floats are reals here. */
module Letterboxes {
  import opened Text

  const INPUT := 640
  const GREY: real := 114.0 / 255.0

  /** What `preprocess` records about the geometry of an image. */
  datatype Frame = Frame(width: int, height: int, scale: real, padX: real, padY: real)

  predicate Acceptable(width: int, height: int) {
    0 < width <= 8192 && 0 < height <= 8192 && width * height <= 40000000
  }

  function Min(a: real, b: real): real {
    if b < a then b else a
  }

  function Max(a: real, b: real): real {
    if a < b then b else a
  }

  function Clamp(low: int, high: int, x: int): int {
    var capped := if x < high then x else high;
    if low < capped then capped else low
  }

  /** Rounding half away from zero, of a non-negative number. */
  function Round(x: real): int {
    (x + 0.5).Floor
  }

  function Scale(width: int, height: int): real
    requires width > 0 && height > 0
  {
    Min(INPUT as real / width as real, INPUT as real / height as real)
  }

  function Resized(side: int, scale: real): int {
    Round(side as real * scale)
  }

  function Pad(resized: int): int {
    (INPUT - resized) / 2
  }

  lemma Product(side: int, scale: real, bound: real)
    requires side > 0 && 0.0 < scale <= bound / side as real
    ensures 0.0 < side as real * scale <= bound
    ensures scale == bound / side as real ==> side as real * scale == bound
  {
    var s := side as real;
    assert s * (bound / s) == bound;
    assert s * scale <= s * (bound / s);
  }

  /** The resized image fits the square and fills it in one direction. */
  lemma Fits(width: int, height: int)
    requires width > 0 && height > 0
    ensures var s := Scale(width, height);
            && s > 0.0
            && 0 <= Resized(width, s) <= INPUT && 0 <= Resized(height, s) <= INPUT
            && (Resized(width, s) == INPUT || Resized(height, s) == INPUT)
            && 0 <= Pad(Resized(width, s)) && Pad(Resized(width, s)) + Resized(width, s) <= INPUT
            && 0 <= Pad(Resized(height, s)) && Pad(Resized(height, s)) + Resized(height, s) <= INPUT
  {
    var s := Scale(width, height);
    Positive(width);
    Positive(height);
    Product(width, s, INPUT as real);
    Product(height, s, INPUT as real);
  }

  lemma Positive(side: int)
    requires side > 0
    ensures INPUT as real / side as real > 0.0
  {
  }

  /** An extremely flat or narrow image is rounded away altogether: no pixel of it reaches the
      tensor. */
  lemma Vanishes(width: int, height: int)
    requires width > 0 && height > 0
    ensures Resized(height, Scale(width, height)) == 0 <==> width > 2 * INPUT * height
    ensures Resized(width, Scale(width, height)) == 0 <==> height > 2 * INPUT * width
  {
    HeightVanishes(width, height);
    HeightVanishes(height, width);
    assert Scale(width, height) == Scale(height, width);
  }

  lemma HeightVanishes(width: int, height: int)
    requires width > 0 && height > 0
    ensures Resized(height, Scale(width, height)) == 0 <==> width > 2 * INPUT * height
  {
    var s := Scale(width, height);
    var w, h := width as real, height as real;
    Fits(width, height);
    Compare(width, height);
    if height <= width {
      assert s == INPUT as real / w;
      assert h * s == h * INPUT as real / w;
      Quotient(h * INPUT as real, w);
    } else {
      assert s == INPUT as real / h;
      assert h * s == INPUT as real;
    }
  }

  lemma Quotient(a: real, w: real)
    requires w > 0.0
    ensures a / w < 0.5 <==> 2.0 * a < w
  {
    var q := a / w;
    assert q * w == a;
    if q < 0.5 {
      assert q * w < 0.5 * w;
    } else {
      assert q * w >= 0.5 * w;
    }
  }

  lemma Compare(width: int, height: int)
    requires width > 0 && height > 0
    ensures height <= width <==> INPUT as real / width as real <= INPUT as real / height as real
  {
    var w, h := width as real, height as real;
    Smaller(h, w);
    Smaller(w, h);
  }

  lemma Smaller(small: real, large: real)
    requires small > 0.0 && large > 0.0
    ensures small <= large ==> INPUT as real / large <= INPUT as real / small
    ensures small < large ==> INPUT as real / large < INPUT as real / small
  {
    var p, q := INPUT as real / large, INPUT as real / small;
    assert p * large == INPUT as real && q * small == INPUT as real;
    assert p > 0.0;
    assert small <= large ==> p * small <= p * large;
    assert small < large ==> p * small < p * large;
    Cancel(p, q, small);
  }

  lemma Cancel(p: real, q: real, k: real)
    requires k > 0.0
    ensures p * k <= q * k ==> p <= q
    ensures p * k < q * k ==> p < q
  {
    assert (q - p) * k == q * k - p * k;
  }

  // ---------- sampling ----------

  type Pixels = seq<int>

  ghost predicate Loaded(pixels: Pixels, width: int, height: int) {
    && width > 0 && height > 0 && |pixels| == width * height * 3
    && forall i :: 0 <= i < |pixels| ==> 0 <= pixels[i] <= 255
  }

  /** Position of a colour component in the decoded image. */
  function Index(width: int, row: int, column: int, c: int): int {
    (row * width + column) * 3 + c
  }

  lemma IndexInRange(width: int, height: int, row: int, column: int, c: int)
    requires 0 <= row < height && 0 <= column < width && 0 <= c < 3
    ensures 0 <= Index(width, row, column, c) < width * height * 3
  {
    assert 0 <= row * width <= (height - 1) * width;
    assert (height - 1) * width == height * width - width;
  }

  function Pixel(pixels: Pixels, width: int, height: int, row: int, column: int, c: int): (value: real)
    requires Loaded(pixels, width, height) && 0 <= row < height && 0 <= column < width && 0 <= c < 3
    ensures 0.0 <= value <= 255.0
  {
    IndexInRange(width, height, row, column, c);
    pixels[Index(width, row, column, c)] as real
  }

  /** The source coordinate of a target pixel's centre. */
  function Source(x: int, scale: real): real
    requires scale > 0.0
  {
    (x as real + 0.5) / scale - 0.5
  }

  function First(source: real, side: int): int {
    Clamp(0, side - 1, source.Floor)
  }

  function Second(source: real, side: int): int {
    var first := First(source, side);
    if first + 1 < side - 1 then first + 1 else side - 1
  }

  function Fraction(source: real): real {
    source - source.Floor as real
  }

  function Mix(a: real, b: real, f: real): real {
    a * (1.0 - f) + b * f
  }

  function Sample(pixels: Pixels, width: int, height: int, scale: real, y: int, x: int, c: int): real
    requires Loaded(pixels, width, height) && scale > 0.0 && 0 <= c < 3
  {
    var sy, sx := Source(y, scale), Source(x, scale);
    var y0, y1, x0, x1 := First(sy, height), Second(sy, height), First(sx, width), Second(sx, width);
    Mix(Mix(Pixel(pixels, width, height, y0, x0, c), Pixel(pixels, width, height, y0, x1, c), Fraction(sx)),
        Mix(Pixel(pixels, width, height, y1, x0, c), Pixel(pixels, width, height, y1, x1, c), Fraction(sx)),
        Fraction(sy)) / 255.0
  }

  lemma MixBetween(a: real, b: real, f: real, low: real, high: real)
    requires low <= a <= high && low <= b <= high && 0.0 <= f <= 1.0
    ensures low <= Mix(a, b, f) <= high
  {
    NotBelow(a - low, b - low, f);
    NotBelow(high - a, high - b, f);
    Spread(a, b, f, low);
    Spread(a, b, f, high);
  }

  lemma NotBelow(p: real, q: real, f: real)
    requires 0.0 <= p && 0.0 <= q && 0.0 <= f <= 1.0
    ensures p * (1.0 - f) + q * f >= 0.0
  {
    NonNegative(p, 1.0 - f);
    NonNegative(q, f);
  }

  lemma NonNegative(p: real, q: real)
    requires 0.0 <= p && 0.0 <= q
    ensures p * q >= 0.0
  {
  }

  lemma Spread(a: real, b: real, f: real, k: real)
    ensures (a - k) * (1.0 - f) + (b - k) * f == Mix(a, b, f) - k
    ensures (k - a) * (1.0 - f) + (k - b) * f == k - Mix(a, b, f)
  {
    assert (a - k) * (1.0 - f) == a * (1.0 - f) - k * (1.0 - f) && (b - k) * f == b * f - k * f;
    assert (k - a) * (1.0 - f) == k * (1.0 - f) - a * (1.0 - f) && (k - b) * f == k * f - b * f;
  }

  /** Interpolation invents nothing: bounds on the component's values bound its samples. */
  lemma SampleWithin(pixels: Pixels, width: int, height: int, scale: real, y: int, x: int, c: int, low: real, high: real)
    requires Loaded(pixels, width, height) && scale > 0.0 && 0 <= c < 3
    requires forall i, j :: 0 <= i < height && 0 <= j < width ==> low <= Pixel(pixels, width, height, i, j, c) <= high
    ensures low / 255.0 <= Sample(pixels, width, height, scale, y, x, c) <= high / 255.0
  {
    assert width > 0 && height > 0;
    hide Mix, First, Second, Fraction, Source, Pixel, Loaded;
    var sy, sx := Source(y, scale), Source(x, scale);
    Neighbours(sy, height);
    Neighbours(sx, width);
    var y0, y1, x0, x1 := First(sy, height), Second(sy, height), First(sx, width), Second(sx, width);
    var top := Mix(Pixel(pixels, width, height, y0, x0, c), Pixel(pixels, width, height, y0, x1, c), Fraction(sx));
    var bottom := Mix(Pixel(pixels, width, height, y1, x0, c), Pixel(pixels, width, height, y1, x1, c), Fraction(sx));
    MixBetween(Pixel(pixels, width, height, y0, x0, c), Pixel(pixels, width, height, y0, x1, c), Fraction(sx), low, high);
    MixBetween(Pixel(pixels, width, height, y1, x0, c), Pixel(pixels, width, height, y1, x1, c), Fraction(sx), low, high);
    MixBetween(top, bottom, Fraction(sy), low, high);
  }

  lemma SampleInUnit(pixels: Pixels, width: int, height: int, scale: real, y: int, x: int, c: int)
    requires Loaded(pixels, width, height) && scale > 0.0 && 0 <= c < 3
    ensures 0.0 <= Sample(pixels, width, height, scale, y, x, c) <= 1.0
  {
    hide Sample, Loaded;
    SampleWithin(pixels, width, height, scale, y, x, c, 0.0, 255.0);
  }

  /** At scale one every sample is the pixel itself. */
  lemma SampleIsPixel(pixels: Pixels, width: int, height: int, y: int, x: int, c: int)
    requires Loaded(pixels, width, height) && 0 <= y < height && 0 <= x < width && 0 <= c < 3
    ensures Sample(pixels, width, height, 1.0, y, x, c) == Pixel(pixels, width, height, y, x, c) / 255.0
  {
    OnTheSpot(y, height);
    OnTheSpot(x, width);
    hide Source, First, Second, Fraction, Pixel, Loaded;
  }

  lemma OnTheSpot(x: int, side: int)
    requires 0 <= x < side
    ensures var s := Source(x, 1.0); First(s, side) == x && Fraction(s) == 0.0
  {
    assert Source(x, 1.0) == x as real;
  }

  lemma Neighbours(source: real, side: int)
    requires side > 0
    ensures 0 <= First(source, side) <= Second(source, side) < side
    ensures 0.0 <= Fraction(source) < 1.0
  {
  }

  // ---------- the tensor ----------

  const CELLS := INPUT * INPUT * 3

  function Target(row: int, column: int, c: int): int {
    (row * INPUT + column) * 3 + c
  }

  predicate InTensor(row: int, column: int, c: int) {
    0 <= row < INPUT && 0 <= column < INPUT && 0 <= c < 3
  }

  lemma TargetIsOneToOne(row: int, column: int, c: int, row': int, column': int, c': int)
    requires InTensor(row, column, c) && InTensor(row', column', c')
    ensures 0 <= Target(row, column, c) < CELLS
    ensures Target(row, column, c) == Target(row', column', c') ==> row == row' && column == column' && c == c'
  {
  }

  /** The value of every tensor cell: the sampled image inside the resized rectangle, grey around it. */
  function Cell(pixels: Pixels, width: int, height: int, row: int, column: int, c: int): real
    requires Loaded(pixels, width, height) && 0 <= c < 3
  {
    var scale := Scale(width, height);
    var rw, rh := Resized(width, scale), Resized(height, scale);
    var y, x := row - Pad(rh), column - Pad(rw);
    Fits(width, height);
    if 0 <= y < rh && 0 <= x < rw then Sample(pixels, width, height, scale, y, x, c) else GREY
  }

  /** An image whose longer side is 640 is copied, not resampled: its pixels stand in the middle of
      the tensor, grey around them. */
  lemma UnscaledIsCopied(pixels: Pixels, width: int, height: int, row: int, column: int, c: int)
    requires Loaded(pixels, width, height) && InTensor(row, column, c)
    requires width <= INPUT && height <= INPUT && (width == INPUT || height == INPUT)
    ensures var y, x := row - Pad(height), column - Pad(width);
            Cell(pixels, width, height, row, column, c)
            == if 0 <= y < height && 0 <= x < width then Pixel(pixels, width, height, y, x, c) / 255.0 else GREY
  {
    hide Sample, Pixel, Scale, Resized, Pad, Loaded;
    assert width > 0 && height > 0 by {
      NotEmpty(pixels, width, height);
    }
    ScaleIsOne(width, height);
    Fits(width, height);
    var y, x := row - Pad(height), column - Pad(width);
    if 0 <= y < height && 0 <= x < width {
      SampleIsPixel(pixels, width, height, y, x, c);
    }
  }

  lemma NotEmpty(pixels: Pixels, width: int, height: int)
    requires Loaded(pixels, width, height)
    ensures width > 0 && height > 0
  {
  }

  lemma ScaleIsOne(width: int, height: int)
    requires 0 < width <= INPUT && 0 < height <= INPUT && (width == INPUT || height == INPUT)
    ensures Scale(width, height) == 1.0
    ensures Resized(width, 1.0) == width && Resized(height, 1.0) == height
  {
    Smaller(width as real, INPUT as real);
    Smaller(height as real, INPUT as real);
  }

  lemma CellInUnit(pixels: Pixels, width: int, height: int, row: int, column: int, c: int)
    requires Loaded(pixels, width, height) && 0 <= c < 3
    ensures 0.0 <= Cell(pixels, width, height, row, column, c) <= 1.0
  {
    hide Sample;
    var scale := Scale(width, height);
    Fits(width, height);
    var rw, rh := Resized(width, scale), Resized(height, scale);
    SampleInUnit(pixels, width, height, scale, row - Pad(rh), column - Pad(rw), c);
  }

  lemma CellMeaning(pixels: Pixels, width: int, height: int, row: int, column: int, c: int)
    requires Loaded(pixels, width, height) && 0 <= c < 3
    ensures var scale := Scale(width, height);
            var y, x := row - Pad(Resized(height, scale)), column - Pad(Resized(width, scale));
            && scale > 0.0
            && Cell(pixels, width, height, row, column, c)
               == if 0 <= y < Resized(height, scale) && 0 <= x < Resized(width, scale)
                  then Sample(pixels, width, height, scale, y, x, c) else GREY
  {
    Fits(width, height);
  }

  /** The cell comes before the given position in the order the loops visit them. */
  predicate Before(row: int, column: int, c: int, y: int, x: int, k: int) {
    row < y || (row == y && (column < x || (column == x && c < k)))
  }

  method Write(tensor: array<real>, row: int, column: int, c: int, value: real)
    requires tensor.Length == CELLS && InTensor(row, column, c)
    modifies tensor
    ensures forall i, j, k :: InTensor(i, j, k) ==>
              && 0 <= Target(i, j, k) < CELLS
              && tensor[Target(i, j, k)]
                 == if i == row && j == column && k == c then value else old(tensor[Target(i, j, k)])
  {
    hide Target;
    forall i, j, k | InTensor(i, j, k)
      ensures 0 <= Target(i, j, k) < CELLS
      ensures Target(i, j, k) == Target(row, column, c) ==> i == row && j == column && k == c
    {
      TargetIsOneToOne(i, j, k, row, column, c);
    }
    tensor[Target(row, column, c)] := value;
  }

  ghost predicate Filled(tensor: array<real>, pixels: Pixels, width: int, height: int, y: int, x: int, k: int)
    requires tensor.Length == CELLS && Loaded(pixels, width, height)
    reads tensor
  {
    forall i, j, c :: InTensor(i, j, c) ==>
      && 0 <= Target(i, j, c) < CELLS
      && tensor[Target(i, j, c)]
         == if Before(i, j, c, y, x, k) then Cell(pixels, width, height, i, j, c) else GREY
  }

  lemma AllGrey(tensor: array<real>, pixels: Pixels, width: int, height: int)
    requires tensor.Length == CELLS && Loaded(pixels, width, height)
    requires forall t :: 0 <= t < CELLS ==> tensor[t] == GREY
    ensures Filled(tensor, pixels, width, height, Pad(Resized(height, Scale(width, height))), 0, 0)
  {
    hide Sample, Pad, Resized, Scale;
    forall i, j, c | InTensor(i, j, c) ensures 0 <= Target(i, j, c) < CELLS {
      TargetIsOneToOne(i, j, c, i, j, c);
    }
    forall i, j, c | InTensor(i, j, c) && i < Pad(Resized(height, Scale(width, height)))
      ensures Cell(pixels, width, height, i, j, c) == GREY
    {
      CellMeaning(pixels, width, height, i, j, c);
    }
  }

  /** Cells between two positions that are all outside the resized rectangle are grey anyway. */
  lemma Skip(tensor: array<real>, pixels: Pixels, width: int, height: int, y: int, x: int, y': int, x': int)
    requires tensor.Length == CELLS && Loaded(pixels, width, height)
    requires Filled(tensor, pixels, width, height, y, x, 0)
    requires forall i, j, c :: InTensor(i, j, c) && Before(i, j, c, y, x, 0) != Before(i, j, c, y', x', 0) ==>
               Cell(pixels, width, height, i, j, c) == GREY
    ensures Filled(tensor, pixels, width, height, y', x', 0)
  {
    hide Cell, Target;
  }

  lemma GreyBeside(pixels: Pixels, width: int, height: int, row: int, column: int, c: int)
    requires Loaded(pixels, width, height) && 0 <= c < 3
    requires var rw := Resized(width, Scale(width, height)); column < Pad(rw) || column >= Pad(rw) + rw
    ensures Cell(pixels, width, height, row, column, c) == GREY
  {
    hide Sample, Pad, Resized, Scale;
    CellMeaning(pixels, width, height, row, column, c);
  }

  /** One row of the resized image, `y` counted within the resized rectangle. */
  method FillRow(tensor: array<real>, pixels: Pixels, width: int, height: int, scale: real, y: int)
    requires tensor.Length == CELLS && Loaded(pixels, width, height) && scale == Scale(width, height)
    requires 0 <= y < Resized(height, scale)
    requires Filled(tensor, pixels, width, height, Pad(Resized(height, scale)) + y, 0, 0)
    modifies tensor
    ensures Filled(tensor, pixels, width, height, Pad(Resized(height, scale)) + y + 1, 0, 0)
  {
    Fits(width, height);
    var resizedWidth, row := Resized(width, scale), Pad(Resized(height, scale)) + y;
    var padLeft := Pad(resizedWidth);
    hide Cell, Sample, Target, Filled, Loaded, Scale, Resized, Pad, Source, First, Second, Fraction;
    forall j, c | 0 <= j < padLeft && 0 <= c < 3 ensures Cell(pixels, width, height, row, j, c) == GREY {
      GreyBeside(pixels, width, height, row, j, c);
    }
    Skip(tensor, pixels, width, height, row, 0, row, padLeft);
    for x := 0 to resizedWidth
      invariant Filled(tensor, pixels, width, height, row, padLeft + x, 0)
    {
      FillPixel(tensor, pixels, width, height, scale, y, x);
    }
    forall j, c | padLeft + resizedWidth <= j && 0 <= c < 3 ensures Cell(pixels, width, height, row, j, c) == GREY {
      GreyBeside(pixels, width, height, row, j, c);
    }
    Skip(tensor, pixels, width, height, row, padLeft + resizedWidth, row + 1, 0);
  }

  method FillPixel(tensor: array<real>, pixels: Pixels, width: int, height: int, scale: real, y: int, x: int)
    requires tensor.Length == CELLS && Loaded(pixels, width, height) && scale == Scale(width, height)
    requires 0 <= y < Resized(height, scale) && 0 <= x < Resized(width, scale)
    requires Filled(tensor, pixels, width, height, Pad(Resized(height, scale)) + y, Pad(Resized(width, scale)) + x, 0)
    modifies tensor
    ensures Filled(tensor, pixels, width, height, Pad(Resized(height, scale)) + y, Pad(Resized(width, scale)) + x + 1, 0)
  {
    Fits(width, height);
    var row, column := Pad(Resized(height, scale)) + y, Pad(Resized(width, scale)) + x;
    var c := 0;
    hide Cell, Sample, Target, Loaded, Scale, Resized, Pad, Filled;
    while c < 3
      invariant 0 <= c <= 3
      invariant Filled(tensor, pixels, width, height, row, column, c)
    {
      var value := Blend(pixels, width, height, scale, y, x, c);
      CellMeaning(pixels, width, height, row, column, c);
      WriteCell(tensor, pixels, width, height, row, column, c, value);
      c := c + 1;
    }
    PixelDone(tensor, pixels, width, height, row, column);
  }

  method WriteCell(tensor: array<real>, pixels: Pixels, width: int, height: int, row: int, column: int, c: int, value: real)
    requires tensor.Length == CELLS && Loaded(pixels, width, height) && InTensor(row, column, c)
    requires Filled(tensor, pixels, width, height, row, column, c) && value == Cell(pixels, width, height, row, column, c)
    modifies tensor
    ensures Filled(tensor, pixels, width, height, row, column, c + 1)
  {
    hide Cell, Target, Loaded;
    Write(tensor, row, column, c, value);
    assert forall i, j, k :: InTensor(i, j, k) ==>
      Before(i, j, k, row, column, c + 1) == (Before(i, j, k, row, column, c) || (i == row && j == column && k == c));
  }

  lemma PixelDone(tensor: array<real>, pixels: Pixels, width: int, height: int, row: int, column: int)
    requires tensor.Length == CELLS && Loaded(pixels, width, height)
    requires Filled(tensor, pixels, width, height, row, column, 3)
    ensures Filled(tensor, pixels, width, height, row, column + 1, 0)
  {
    hide Cell, Target, Loaded;
    assert forall i, j, k :: InTensor(i, j, k) ==>
      Before(i, j, k, row, column, 3) == Before(i, j, k, row, column + 1, 0);
  }

  /** Bilinear interpolation at one target pixel and component, bytes read by position. */
  method Blend(pixels: Pixels, width: int, height: int, scale: real, y: int, x: int, c: int) returns (value: real)
    requires Loaded(pixels, width, height) && scale > 0.0 && 0 <= c < 3
    ensures value == Sample(pixels, width, height, scale, y, x, c)
    ensures 0.0 <= value <= 1.0
  {
    var sourceY, sourceX := Source(y, scale), Source(x, scale);
    Neighbours(sourceY, height);
    Neighbours(sourceX, width);
    var y0, x0 := Clamp(0, height - 1, sourceY.Floor), Clamp(0, width - 1, sourceX.Floor);
    var y1 := if y0 + 1 < height - 1 then y0 + 1 else height - 1;
    var x1 := if x0 + 1 < width - 1 then x0 + 1 else width - 1;
    var fy, fx := sourceY - sourceY.Floor as real, sourceX - sourceX.Floor as real;
    assert y0 == First(sourceY, height) && y1 == Second(sourceY, height) && fy == Fraction(sourceY);
    assert x0 == First(sourceX, width) && x1 == Second(sourceX, width) && fx == Fraction(sourceX);
    hide First, Second, Fraction, Source, Loaded, Mix;
    var top := Mix(Pixel(pixels, width, height, y0, x0, c), Pixel(pixels, width, height, y0, x1, c), fx);
    var bottom := Mix(Pixel(pixels, width, height, y1, x0, c), Pixel(pixels, width, height, y1, x1, c), fx);
    value := Mix(top, bottom, fy) / 255.0;
    SampleInUnit(pixels, width, height, scale, y, x, c);
  }

  /** `size` is what stb reports for the encoded image, `loaded` the pixels it decodes; either may
      fail. A tensor comes out exactly when both succeed for an image within the limits. */
  method Preprocess(encodedBytes: nat, size: Option<(int, int)>, loaded: Option<Pixels>)
    returns (output: Option<(Frame, array<real>)>)
    requires size.Some? && size.value.0 > 0 && size.value.1 > 0 && loaded.Some? ==>
               Loaded(loaded.value, size.value.0, size.value.1)
    ensures output.Some? <==>
            && encodedBytes > 0 && size.Some? && loaded.Some?
            && 0 < size.value.0 <= 8192 && 0 < size.value.1 <= 8192 && size.value.0 * size.value.1 <= 40000000
    ensures output.Some? ==>
              var (width, height) := size.value; var (frame, tensor) := output.value; var scale := Scale(width, height);
              && fresh(tensor) && tensor.Length == 640 * 640 * 3
              && frame == Frame(width, height, scale, Pad(Resized(width, scale)) as real, Pad(Resized(height, scale)) as real)
              && forall i, j, c :: InTensor(i, j, c) ==>
                   && 0 <= Target(i, j, c) == (i * 640 + j) * 3 + c < tensor.Length
                   && tensor[Target(i, j, c)] == Cell(loaded.value, width, height, i, j, c)
                   && 0.0 <= tensor[Target(i, j, c)] <= 1.0
  {
    if encodedBytes == 0 || size.None? || !Acceptable(size.value.0, size.value.1) || loaded.None? {
      return None;
    }
    var (width, height) := size.value;
    var pixels := loaded.value;
    Fits(width, height);
    var scale := Scale(width, height);
    var resizedWidth, resizedHeight := Resized(width, scale), Resized(height, scale);
    var padLeft, padTop := Pad(resizedWidth), Pad(resizedHeight);
    var tensor := new real[CELLS](_ => GREY);
    hide Cell, Sample, Target, Loaded, Scale, Resized, Pad;
    AllGrey(tensor, pixels, width, height);
    for y := 0 to resizedHeight
      invariant Filled(tensor, pixels, width, height, padTop + y, 0, 0)
    {
      hide Filled;
      FillRow(tensor, pixels, width, height, scale, y);
    }
    forall i, j, c | InTensor(i, j, c)
      ensures 0 <= Target(i, j, c) < CELLS
      ensures tensor[Target(i, j, c)] == Cell(pixels, width, height, i, j, c)
      ensures 0.0 <= tensor[Target(i, j, c)] <= 1.0
    {
      CellMeaning(pixels, width, height, i, j, c);
      CellInUnit(pixels, width, height, i, j, c);
    }
    output := Some((Frame(width, height, scale, padLeft as real, padTop as real), tensor));
  }

  // ---------- boxes ----------

  datatype Box = Box(x1: real, y1: real, x2: real, y2: real)

  /** Centre and size in input coordinates, as the detector reports them. */
  datatype Centred = Centred(x: real, y: real, width: real, height: real)

  /** The map `preprocess` applies to the image, on the corners of a box. */
  function Letterboxed(b: Box, f: Frame): Centred {
    Centred((b.x1 + b.x2) * f.scale / 2.0 + f.padX, (b.y1 + b.y2) * f.scale / 2.0 + f.padY,
            (b.x2 - b.x1) * f.scale, (b.y2 - b.y1) * f.scale)
  }

  /** The corners before they are clipped to the image. */
  function Unclipped(v: Centred, f: Frame): Box
    requires f.scale != 0.0
  {
    Box((v.x - v.width * 0.5 - f.padX) / f.scale, (v.y - v.height * 0.5 - f.padY) / f.scale,
        (v.x + v.width * 0.5 - f.padX) / f.scale, (v.y + v.height * 0.5 - f.padY) / f.scale)
  }

  function Unboxed(v: Centred, f: Frame): Box
    requires f.scale != 0.0
  {
    var b := Unclipped(v, f);
    Box(Max(0.0, b.x1), Max(0.0, b.y1), Min(f.width as real, b.x2), Min(f.height as real, b.y2))
  }

  predicate Inside(b: Box, f: Frame) {
    0.0 <= b.x1 && 0.0 <= b.y1 && b.x2 <= f.width as real && b.y2 <= f.height as real
  }

  predicate NonEmpty(b: Box) {
    b.x1 < b.x2 && b.y1 < b.y2
  }

  lemma Scaled(a: real, scale: real)
    requires scale != 0.0
    ensures a * scale / scale == a && a / scale * scale == a
  {
  }

  /** One axis of the letterbox map and back. */
  lemma Axis(low: real, high: real, scale: real, pad: real)
    requires scale != 0.0
    ensures var centre, size := (low + high) * scale / 2.0 + pad, (high - low) * scale;
            (centre - size * 0.5 - pad) / scale == low && (centre + size * 0.5 - pad) / scale == high
  {
    var centre, size := (low + high) * scale / 2.0 + pad, (high - low) * scale;
    assert (low + high) * scale == low * scale + high * scale;
    assert size == high * scale - low * scale;
    assert centre - size * 0.5 - pad == low * scale && centre + size * 0.5 - pad == high * scale;
    Scaled(low, scale);
    Scaled(high, scale);
  }

  /** Decoding inverts the letterbox map, and clips: a box comes back exactly when it lies inside
      the image. */
  lemma LetterboxRoundTrip(b: Box, f: Frame)
    requires f.scale != 0.0
    ensures Unclipped(Letterboxed(b, f), f) == b
    ensures Unboxed(Letterboxed(b, f), f) == b <==> Inside(b, f)
  {
    Axis(b.x1, b.x2, f.scale, f.padX);
    Axis(b.y1, b.y2, f.scale, f.padY);
    assert Unclipped(Letterboxed(b, f), f).x1 == b.x1 && Unclipped(Letterboxed(b, f), f).y1 == b.y1;
  }

  lemma AxisBack(centre: real, size: real, scale: real, pad: real)
    requires scale != 0.0
    ensures var low, high := (centre - size * 0.5 - pad) / scale, (centre + size * 0.5 - pad) / scale;
            (low + high) * scale / 2.0 + pad == centre && (high - low) * scale == size
  {
    var low, high := (centre - size * 0.5 - pad) / scale, (centre + size * 0.5 - pad) / scale;
    Scaled(centre - size * 0.5 - pad, scale);
    Scaled(centre + size * 0.5 - pad, scale);
    assert (low + high) * scale == low * scale + high * scale;
    assert (high - low) * scale == high * scale - low * scale;
  }

  /** The other way round: unless it is clipped, the detector's own coordinates come back. */
  lemma UnboxedRoundTrip(v: Centred, f: Frame)
    requires f.scale != 0.0
    ensures Letterboxed(Unclipped(v, f), f) == v
    ensures Inside(Unclipped(v, f), f) ==> Letterboxed(Unboxed(v, f), f) == v
    ensures Inside(Unboxed(v, f), f)
  {
    AxisBack(v.x, v.width, f.scale, f.padX);
    AxisBack(v.y, v.height, f.scale, f.padY);
    var b := Unclipped(v, f);
    assert Letterboxed(b, f).x == v.x && Letterboxed(b, f).y == v.y;
    assert Letterboxed(b, f).width == v.width && Letterboxed(b, f).height == v.height;
    hide Letterboxed, Unclipped;
    assert Inside(b, f) ==> Unboxed(v, f) == b;
  }
}
