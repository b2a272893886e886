/** What intersection over union counts, and what decoding and suppression make of the raw output
    (src/inference/YoloV8Processor.cc). */
module Overlaps {
  import opened Text
  import opened Letterboxes
  import opened Detections
  import opened Samplings

  // ---------- cells of a grid ----------

  datatype GridBox = GridBox(x1: int, y1: int, x2: int, y2: int)

  function OnGrid(b: GridBox): Box {
    Box(b.x1 as real, b.y1 as real, b.x2 as real, b.y2 as real)
  }

  /** The unit cells in a box. */
  ghost function Cells(b: GridBox): set<(int, int)> {
    set x, y | b.x1 <= x < b.x2 && b.y1 <= y < b.y2 :: (x, y)
  }

  lemma InCells(b: GridBox, p: (int, int))
    ensures p in Cells(b) <==> b.x1 <= p.0 < b.x2 && b.y1 <= p.1 < b.y2
  {
  }

  function Length(low: int, high: int): nat {
    if low < high then high - low else 0
  }

  lemma SideLength(low: int, high: int)
    ensures Side(low as real, high as real) == Length(low, high) as real
  {
  }

  /** A column of cells. */
  lemma {:induction false} ColumnCount(b: GridBox)
    requires b.x2 == b.x1 + 1
    ensures |Cells(b)| == Length(b.y1, b.y2)
    decreases b.y2 - b.y1
  {
    if b.y1 < b.y2 {
      var rest := b.(y1 := b.y1 + 1);
      ColumnCount(rest);
      forall p ensures p in Cells(b) <==> p in Cells(rest) || p == (b.x1, b.y1) {
        InCells(b, p);
        InCells(rest, p);
      }
      assert Cells(b) == Cells(rest) + {(b.x1, b.y1)};
    } else {
      NoCells(b);
    }
  }

  lemma NoCells(b: GridBox)
    requires b.x1 >= b.x2 || b.y1 >= b.y2
    ensures Cells(b) == {}
  {
    forall p ensures p !in Cells(b) {
      InCells(b, p);
    }
  }

  lemma {:induction false} CellCount(b: GridBox)
    ensures |Cells(b)| == Length(b.x1, b.x2) * Length(b.y1, b.y2)
    decreases b.x2 - b.x1
  {
    if b.x1 < b.x2 {
      var rest, first := b.(x1 := b.x1 + 1), b.(x2 := b.x1 + 1);
      CellCount(rest);
      ColumnCount(first);
      forall p ensures p in Cells(b) <==> p in Cells(rest) || p in Cells(first)
                       ensures !(p in Cells(rest) && p in Cells(first))
      {
        InCells(b, p);
        InCells(rest, p);
        InCells(first, p);
      }
      hide Cells;
      assert Cells(b) == Cells(rest) + Cells(first) && Cells(rest) !! Cells(first);
      OneMoreColumn(Length(rest.x1, rest.x2), Length(b.y1, b.y2));
    } else {
      NoCells(b);
    }
  }

  lemma OneMoreColumn(columns: nat, height: nat)
    ensures (columns + 1) * height == columns * height + height
  {
  }

  function Common(a: GridBox, b: GridBox): GridBox {
    GridBox(if a.x1 < b.x1 then b.x1 else a.x1, if a.y1 < b.y1 then b.y1 else a.y1,
            if b.x2 < a.x2 then b.x2 else a.x2, if b.y2 < a.y2 then b.y2 else a.y2)
  }

  lemma AreaCounts(b: GridBox)
    ensures Area(OnGrid(b)) == |Cells(b)| as real
  {
    hide Cells, Side;
    CellCount(b);
    SideLength(b.x1, b.x2);
    SideLength(b.y1, b.y2);
  }

  lemma IntersectionCounts(a: GridBox, b: GridBox)
    ensures Intersection(OnGrid(a), OnGrid(b)) == |Cells(a) * Cells(b)| as real
  {
    hide Cells, Side;
    var c := Common(a, b);
    CommonCells(a, b);
    CellCount(c);
    SideLength(c.x1, c.x2);
    SideLength(c.y1, c.y2);
    CommonSides(a, b);
  }

  lemma CommonSides(a: GridBox, b: GridBox)
    ensures var c, p, q := Common(a, b), OnGrid(a), OnGrid(b);
            && c.x1 as real == Max(p.x1, q.x1) && c.x2 as real == Min(p.x2, q.x2)
            && c.y1 as real == Max(p.y1, q.y1) && c.y2 as real == Min(p.y2, q.y2)
  {
  }

  lemma CommonCells(a: GridBox, b: GridBox)
    ensures Cells(Common(a, b)) == Cells(a) * Cells(b)
  {
    hide Cells;
    var c := Common(a, b);
    forall p ensures p in Cells(c) <==> p in Cells(a) && p in Cells(b) {
      InCells(a, p);
      InCells(b, p);
      InCells(c, p);
    }
  }

  /** For boxes with integer corners, empty and inverted ones included: the number of cells in both
      over the number of cells in either. */
  lemma IoUCounts(a: GridBox, b: GridBox)
    ensures IoU(OnGrid(a), OnGrid(b)) * |Cells(a) + Cells(b)| as real == |Cells(a) * Cells(b)| as real
    ensures Cells(a) + Cells(b) == {} ==> IoU(OnGrid(a), OnGrid(b)) == 0.0
  {
    hide Cells, Area, Intersection;
    AreaCounts(a);
    AreaCounts(b);
    IntersectionCounts(a, b);
    assert |Cells(a) + Cells(b)| + |Cells(a) * Cells(b)| == |Cells(a)| + |Cells(b)|;
    Share(|Cells(a) * Cells(b)| as real, |Cells(a) + Cells(b)| as real);
  }

  lemma Share(part: real, total: real)
    ensures total > 0.0 ==> part / total * total == part
  {
  }

  // ---------- other units ----------

  /** The box after a change of scale and origin of the axes. */
  function Placed(b: Box, kx: real, ky: real, dx: real, dy: real): Box {
    Box(b.x1 * kx + dx, b.y1 * ky + dy, b.x2 * kx + dx, b.y2 * ky + dy)
  }

  lemma Times(a: real, b: real, k: real)
    requires k > 0.0
    ensures a < b <==> a * k < b * k
  {
    assert (b - a) * k == b * k - a * k;
  }

  lemma SidePlaced(low: real, high: real, low': real, high': real, k: real, d: real)
    requires k > 0.0 && low' == low * k + d && high' == high * k + d
    ensures Side(low', high') == Side(low, high) * k
  {
    Times(low, high, k);
    assert (high - low) * k == high * k - low * k;
  }

  lemma MaxPlaced(a: real, b: real, a': real, b': real, k: real, d: real)
    requires k > 0.0 && a' == a * k + d && b' == b * k + d
    ensures Max(a', b') == Max(a, b) * k + d
    ensures Min(a', b') == Min(a, b) * k + d
  {
    Times(a, b, k);
    Times(b, a, k);
  }

  /** The common stretch of two intervals. */
  lemma CommonPlaced(a1: real, a2: real, b1: real, b2: real, a1': real, a2': real, b1': real, b2': real, k: real, d: real)
    requires k > 0.0 && a1' == a1 * k + d && a2' == a2 * k + d && b1' == b1 * k + d && b2' == b2 * k + d
    ensures Side(Max(a1', b1'), Min(a2', b2')) == Side(Max(a1, b1), Min(a2, b2)) * k
  {
    hide Side, Max, Min;
    MaxPlaced(a1, b1, a1', b1', k, d);
    MaxPlaced(a2, b2, a2', b2', k, d);
    SidePlaced(Max(a1, b1), Min(a2, b2), Max(a1', b1'), Min(a2', b2'), k, d);
  }

  lemma Products(w: real, h: real, w': real, h': real, kx: real, ky: real, q: real)
    requires w' == w * kx && h' == h * ky && q == kx * ky
    ensures w' * h' == (w * h) * q
  {
    assert (w * kx) * (h * ky) == w * (kx * (h * ky));
    assert kx * (h * ky) == h * (kx * ky);
  }

  lemma AreaPlaced(b: Box, kx: real, ky: real, q: real, dx: real, dy: real)
    requires kx > 0.0 && ky > 0.0 && q == kx * ky
    ensures Area(Placed(b, kx, ky, dx, dy)) == Area(b) * q
  {
    hide Side;
    var p := Placed(b, kx, ky, dx, dy);
    SidePlaced(b.x1, b.x2, p.x1, p.x2, kx, dx);
    SidePlaced(b.y1, b.y2, p.y1, p.y2, ky, dy);
    Products(Side(b.x1, b.x2), Side(b.y1, b.y2), Side(p.x1, p.x2), Side(p.y1, p.y2), kx, ky, q);
  }

  lemma IntersectionPlaced(a: Box, b: Box, kx: real, ky: real, q: real, dx: real, dy: real)
    requires kx > 0.0 && ky > 0.0 && q == kx * ky
    ensures Intersection(Placed(a, kx, ky, dx, dy), Placed(b, kx, ky, dx, dy)) == Intersection(a, b) * q
  {
    hide Side, Max, Min;
    var p, r := Placed(a, kx, ky, dx, dy), Placed(b, kx, ky, dx, dy);
    CommonPlaced(a.x1, a.x2, b.x1, b.x2, p.x1, p.x2, r.x1, r.x2, kx, dx);
    CommonPlaced(a.y1, a.y2, b.y1, b.y2, p.y1, p.y2, r.y1, r.y2, ky, dy);
    Products(Side(Max(a.x1, b.x1), Min(a.x2, b.x2)), Side(Max(a.y1, b.y1), Min(a.y2, b.y2)),
             Side(Max(p.x1, r.x1), Min(p.x2, r.x2)), Side(Max(p.y1, r.y1), Min(p.y2, r.y2)), kx, ky, q);
  }

  lemma RatioPlaced(part: real, total: real, q: real, part': real, total': real)
    requires q > 0.0 && part' == part * q && total' == total * q
    ensures total > 0.0 <==> total' > 0.0
    ensures total > 0.0 ==> part' / total' == part / total
  {
    Times(0.0, total, q);
    if total > 0.0 {
      var r := part / total;
      assert r * total == part;
      assert r * (total * q) == (r * total) * q;
      Quotients(r, part', total');
    }
  }

  lemma Quotients(r: real, part: real, total: real)
    requires total > 0.0 && r * total == part
    ensures part / total == r
  {
  }

  lemma Distributes(a: real, b: real, c: real, q: real)
    ensures a * q + b * q - c * q == (a + b - c) * q
  {
  }

  /** Neither the units of the axes nor the origin matter, which carries the count to all boxes with
      rational corners. */
  lemma IoUPlaced(a: Box, b: Box, kx: real, ky: real, dx: real, dy: real)
    requires kx > 0.0 && ky > 0.0
    ensures IoU(Placed(a, kx, ky, dx, dy), Placed(b, kx, ky, dx, dy)) == IoU(a, b)
  {
    hide Area, Intersection, Placed;
    var q := kx * ky;
    AreaPlaced(a, kx, ky, q, dx, dy);
    AreaPlaced(b, kx, ky, q, dx, dy);
    IntersectionPlaced(a, b, kx, ky, q, dx, dy);
    Distributes(Area(a), Area(b), Intersection(a, b), q);
    var p, r := Placed(a, kx, ky, dx, dy), Placed(b, kx, ky, dx, dy);
    PositiveProduct(kx, ky);
    RatioPlaced(Intersection(a, b), Area(a) + Area(b) - Intersection(a, b), q,
                Intersection(p, r), Area(p) + Area(r) - Intersection(p, r));
  }

  lemma PositiveProduct(a: real, b: real)
    requires a > 0.0 && b > 0.0
    ensures a * b > 0.0
  {
  }

  // ---------- the raw output ----------

  /** The network's output row by row: 84 rows of 8400 columns. */
  ghost predicate IsTable(rows: seq<seq<real>>) {
    |rows| == 84 && forall r :: 0 <= r < 84 ==> |rows[r]| == 8400
  }

  /** `c` is the first class with the highest score in column `i`; the class scores are the rows from
      the fifth on. */
  ghost predicate IsTop(rows: seq<seq<real>>, i: nat, c: nat)
    requires IsTable(rows) && i < 8400
    ensures IsTop(rows, i, c) ==> c < 80
  {
    && c < 80
    && (forall r :: 4 <= r < 84 ==> rows[r][i] <= rows[4 + c][i])
    && (forall r :: 4 <= r < 4 + c ==> rows[r][i] < rows[4 + c][i])
  }

  /** The first four rows are centre and size of the box. */
  function BoxIn(rows: seq<seq<real>>, i: nat, f: Frame): Box
    requires IsTable(rows) && i < 8400 && f.scale != 0.0
  {
    Unboxed(Centred(rows[0][i], rows[1][i], rows[2][i], rows[3][i]), f)
  }

  lemma TableAt(rows: seq<seq<real>>)
    requires IsTable(rows)
    ensures |Flat(rows)| == 84 * 8400
    ensures forall r, i :: 0 <= r < 84 && 0 <= i < 8400 ==> At(Flat(rows), r, i) == rows[r][i]
  {
    FlatSize(rows, 8400);
    forall r, i | 0 <= r < 84 && 0 <= i < 8400 ensures At(Flat(rows), r, i) == rows[r][i] {
      FlatAt(rows, 8400, r, i);
    }
  }

  lemma TopIsBest(rows: seq<seq<real>>, i: nat, c: nat)
    requires IsTable(rows) && i < 8400 && |Flat(rows)| == 84 * 8400
    requires forall r :: 0 <= r < 84 ==> At(Flat(rows), r, i) == rows[r][i]
    ensures IsTop(rows, i, c) <==> FirstBest(Flat(rows), i, 80, c)
  {
    hide At, Flat;
    forall k: nat | k < 80 ensures Score(Flat(rows), k, i) == rows[4 + k][i] {
    }
    hide Score;
    if FirstBest(Flat(rows), i, 80, c) {
      forall r | 4 <= r < 84 ensures rows[r][i] <= rows[4 + c][i] && (r < 4 + c ==> rows[r][i] < rows[4 + c][i]) {
        assert rows[r][i] == Score(Flat(rows), r - 4, i);
      }
    }
  }

  /** A column is found exactly if its best score reaches the threshold and its clipped box is not
      empty; and nothing is found that is not in a column. */
  lemma DecodingMeaning(rows: seq<seq<real>>, f: Frame, threshold: real, found: seq<Detection>)
    requires IsTable(rows) && f.scale != 0.0 && |Flat(rows)| == 84 * 8400
    requires IsDecoded(Flat(rows), f, threshold, found)
    ensures forall d :: d in found <==>
              exists i: nat :: i < 8400 && IsTop(rows, i, d.classId) && d.confidence == rows[4 + d.classId][i]
                               && d.box == BoxIn(rows, i, f)
                               && d.confidence >= threshold && d.box.x1 < d.box.x2 && d.box.y1 < d.box.y2
  {
    hide At, Flat, Decoded, Describes, IsTop, BoxIn;
    var output: Output := Flat(rows);
    TableAt(rows);
    var from :| Decoded(output, f, threshold, CANDIDATES, found, from);
    forall d ensures d in found <==> exists i: nat :: i < 8400 && Describes(output, i, f, d) && Passes(d, threshold) {
      FoundMeaning(output, f, threshold, found, from, d);
    }
    forall i: nat, d: Detection | i < 8400
      ensures Describes(output, i, f, d) <==>
              IsTop(rows, i, d.classId) && d.confidence == rows[4 + d.classId][i] && d.box == BoxIn(rows, i, f)
    {
      DescribesMeaning(rows, i, f, d);
    }
  }

  lemma DescribesMeaning(rows: seq<seq<real>>, i: nat, f: Frame, d: Detection)
    requires IsTable(rows) && i < 8400 && f.scale != 0.0 && |Flat(rows)| == 84 * 8400
    requires forall r :: 0 <= r < 84 ==> At(Flat(rows), r, i) == rows[r][i]
    ensures Describes(Flat(rows), i, f, d) <==>
            IsTop(rows, i, d.classId) && d.confidence == rows[4 + d.classId][i] && d.box == BoxIn(rows, i, f)
  {
    hide At, Flat, Unboxed;
    TopIsBest(rows, i, d.classId);
    if IsTop(rows, i, d.classId) {
      assert Score(Flat(rows), d.classId, i) == rows[4 + d.classId][i];
    }
  }

  lemma FoundMeaning(output: Output, f: Frame, threshold: real, found: seq<Detection>, from: seq<nat>, d: Detection)
    requires f.scale != 0.0 && Decoded(output, f, threshold, CANDIDATES, found, from)
    ensures d in found <==> exists i: nat :: i < CANDIDATES && Describes(output, i, f, d) && Passes(d, threshold)
  {
    hide Describes, Passes;
    if d in found {
      var k :| 0 <= k < |found| && found[k] == d;
      assert Describes(output, from[k], f, d);
    }
    if i: nat :| i < CANDIDATES && Describes(output, i, f, d) && Passes(d, threshold) {
      assert i in from;
      var k :| 0 <= k < |from| && from[k] == i;
      DescribesOne(output, i, f, d, found[k]);
    }
  }

  /** Of the detections kept, two of one class overlap by at most the threshold; of those missing, each
      overlaps a kept one of its class, at least as confident, by more. */
  lemma SuppressionMeaning(candidates: seq<Detection>, kept: seq<Detection>, threshold: real)
    requires IsSuppression(candidates, kept, threshold)
    ensures forall i, j :: 0 <= i < j < |kept| && kept[i].classId == kept[j].classId ==>
              IoU(kept[i].box, kept[j].box) <= threshold
    ensures forall d :: d in candidates && d !in kept ==>
              exists k :: 0 <= k < |kept| && kept[k].classId == d.classId
                          && kept[k].confidence >= d.confidence && IoU(kept[k].box, d.box) > threshold
    ensures forall d :: d in kept ==> d in candidates
    ensures forall i, j :: 0 <= i < j < |kept| ==> kept[i].confidence >= kept[j].confidence
  {
    hide IoU;
    forall a, b ensures IoU(a, b) == IoU(b, a) {
      IoUBounds(a, b);
    }
    forall i, j | 0 <= i < j < |kept| && kept[i].classId == kept[j].classId
      ensures IoU(kept[i].box, kept[j].box) <= threshold
    {
      assert !Suppresses(kept[i], kept[j], threshold);
    }
    forall d | d in candidates && d !in kept
      ensures exists k :: 0 <= k < |kept| && kept[k].classId == d.classId
                          && kept[k].confidence >= d.confidence && IoU(kept[k].box, d.box) > threshold
    {
      assert d in multiset(candidates) && multiset(kept)[d] == 0;
      assert LostTo(kept, d, threshold);
    }
    forall d | d in kept ensures d in candidates {
      assert d in multiset(kept);
    }
  }
}
