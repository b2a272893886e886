/** Reading detections out of the network's output and suppressing duplicates
    (src/inference/YoloV8Processor.cc). Floats are reals here. */
module Detections {
  import opened Text
  import opened Letterboxes

  const CLASSES := 80
  const CANDIDATES := 8400

  datatype Detection = Detection(classId: nat, confidence: real, box: Box)

  // ---------- intersection over union ----------

  function Side(low: real, high: real): real {
    Max(0.0, high - low)
  }

  function Area(b: Box): real {
    Side(b.x1, b.x2) * Side(b.y1, b.y2)
  }

  function Intersection(a: Box, b: Box): real {
    Side(Max(a.x1, b.x1), Min(a.x2, b.x2)) * Side(Max(a.y1, b.y1), Min(a.y2, b.y2))
  }

  function IoU(a: Box, b: Box): real {
    var total := Area(a) + Area(b) - Intersection(a, b);
    if total > 0.0 then Intersection(a, b) / total else 0.0
  }

  lemma ProductGrows(a: real, b: real, c: real, d: real)
    requires 0.0 <= a <= c && 0.0 <= b <= d
    ensures 0.0 <= a * b <= c * d
    ensures a * b == c * d && c * d > 0.0 ==> a == c && b == d
  {
    assert 0.0 <= a * b;
    assert a * b <= a * d;
    assert a * d <= c * d;
    assert c * d - a * b == (c - a) * d + a * (d - b);
    if c * d > 0.0 && a * b == c * d {
      assert c > 0.0 && d > 0.0 && a > 0.0;
      assert (c - a) * d >= 0.0 && a * (d - b) >= 0.0;
      ZeroFactor(c - a, d);
      ZeroFactor(d - b, a);
    }
  }

  lemma ZeroFactor(x: real, k: real)
    requires x >= 0.0 && k > 0.0
    ensures x * k <= 0.0 ==> x == 0.0
  {
  }

  lemma SideShrinks(low: real, high: real, low': real, high': real)
    ensures 0.0 <= Side(Max(low, low'), Min(high, high')) <= Side(low, high)
    ensures Side(Max(low, low'), Min(high, high')) == Side(Max(low', low), Min(high', high))
  {
  }

  lemma IntersectionInBoth(a: Box, b: Box)
    ensures 0.0 <= Intersection(a, b) <= Area(a) && Intersection(a, b) <= Area(b)
    ensures Intersection(a, b) == Intersection(b, a)
  {
    hide Side, Max, Min;
    SideShrinks(a.x1, a.x2, b.x1, b.x2);
    SideShrinks(a.y1, a.y2, b.y1, b.y2);
    SideShrinks(b.x1, b.x2, a.x1, a.x2);
    SideShrinks(b.y1, b.y2, a.y1, a.y2);
    var w, h := Side(Max(a.x1, b.x1), Min(a.x2, b.x2)), Side(Max(a.y1, b.y1), Min(a.y2, b.y2));
    ProductGrows(w, h, Side(a.x1, a.x2), Side(a.y1, a.y2));
    ProductGrows(w, h, Side(b.x1, b.x2), Side(b.y1, b.y2));
  }

  lemma Ratio(part: real, total: real)
    requires 0.0 <= part <= total && total > 0.0
    ensures 0.0 <= part / total <= 1.0
    ensures part / total == 1.0 <==> part == total
    ensures part / total == 0.0 <==> part == 0.0
  {
    var q := part / total;
    assert q * total == part;
  }

  /** For all boxes, inverted and empty ones included: symmetric and between 0 and 1, and 1 only for
      two copies of one box. */
  lemma IoUBounds(a: Box, b: Box)
    ensures IoU(a, b) == IoU(b, a)
    ensures 0.0 <= IoU(a, b) <= 1.0
    ensures IoU(a, b) == 0.0 <==> Intersection(a, b) == 0.0
    ensures IoU(a, b) == 1.0 <==> Intersection(a, b) == Area(a) == Area(b) && Area(a) > 0.0
  {
    hide Area, Intersection;
    IntersectionInBoth(a, b);
    IntersectionInBoth(b, a);
    var total := Area(a) + Area(b) - Intersection(a, b);
    if total > 0.0 {
      Ratio(Intersection(a, b), total);
    }
  }

  lemma OnlyItself(a: Box, b: Box)
    requires NonEmpty(a) && NonEmpty(b)
    ensures IoU(a, b) == 1.0 <==> a == b
  {
    IoUBounds(a, b);
    ProductGrows(0.0, 0.0, Side(a.x1, a.x2), Side(a.y1, a.y2));
    PositiveArea(a);
    if Intersection(a, b) == Area(a) == Area(b) {
      var w, h := Side(Max(a.x1, b.x1), Min(a.x2, b.x2)), Side(Max(a.y1, b.y1), Min(a.y2, b.y2));
      ProductGrows(w, h, Side(a.x1, a.x2), Side(a.y1, a.y2));
      ProductGrows(w, h, Side(b.x1, b.x2), Side(b.y1, b.y2));
    }
  }

  lemma PositiveArea(a: Box)
    requires NonEmpty(a)
    ensures Area(a) > 0.0
  {
    assert (a.x2 - a.x1) * (a.y2 - a.y1) > 0.0;
  }

  // ---------- decoding ----------

  /** The network's output is one row per attribute, 8400 columns: four box rows, then the classes. */
  type Output = s: seq<real> | |s| == (4 + CLASSES) * CANDIDATES witness seq((4 + CLASSES) * CANDIDATES, _ => 0.0)

  function At(output: Output, row: nat, i: nat): real
    requires row < 4 + CLASSES && i < CANDIDATES
  {
    output[row * CANDIDATES + i]
  }

  function Score(output: Output, c: nat, i: nat): real
    requires c < CLASSES && i < CANDIDATES
  {
    At(output, 4 + c, i)
  }

  /** `best` is the first class with the highest score among the first `n`. */
  ghost predicate FirstBest(output: Output, i: nat, n: nat, best: nat)
    requires i < CANDIDATES && n <= CLASSES
  {
    && best < n
    && (forall c :: 0 <= c < n ==> Score(output, c, i) <= Score(output, best, i))
    && (forall c :: 0 <= c < best ==> Score(output, c, i) < Score(output, best, i))
  }

  method BestClass(output: Output, i: nat) returns (best: nat, score: real)
    requires i < CANDIDATES
    ensures FirstBest(output, i, CLASSES, best) && score == Score(output, best, i)
  {
    best, score := 0, Score(output, 0, i);
    for c := 1 to CLASSES
      invariant FirstBest(output, i, c, best) && score == Score(output, best, i)
    {
      hide At;
      if Score(output, c, i) > score {
        best, score := c, Score(output, c, i);
      }
    }
  }

  /** The detection in one column, were its score high enough and its box not empty. */
  ghost predicate Describes(output: Output, i: nat, f: Frame, d: Detection)
    requires i < CANDIDATES && f.scale != 0.0
  {
    && FirstBest(output, i, CLASSES, d.classId)
    && d.confidence == Score(output, d.classId, i)
    && d.box == Unboxed(Centred(At(output, 0, i), At(output, 1, i), At(output, 2, i), At(output, 3, i)), f)
  }

  lemma DescribesOne(output: Output, i: nat, f: Frame, d: Detection, e: Detection)
    requires i < CANDIDATES && f.scale != 0.0
    requires Describes(output, i, f, d) && Describes(output, i, f, e)
    ensures d == e
  {
    hide At, Unboxed;
    assert d.classId == e.classId;
  }

  predicate Passes(d: Detection, threshold: real) {
    d.confidence >= threshold && NonEmpty(d.box)
  }

  /** What decoding the first `n` columns must give: the passing detections in column order, each
      with the column it comes from. */
  ghost predicate Decoded(output: Output, f: Frame, threshold: real, n: nat, found: seq<Detection>, from: seq<nat>)
    requires n <= CANDIDATES && f.scale != 0.0
  {
    && |found| == |from|
    && (forall k :: 0 <= k < |from| ==> from[k] < n)
    && (forall k :: 0 <= k < |from| ==> Describes(output, from[k], f, found[k]) && Passes(found[k], threshold))
    && Increasing(from)
    && (forall i, d | 0 <= i < n && Describes(output, i, f, d) && Passes(d, threshold) :: i in from)
  }

  /** The decoding of the whole output. */
  ghost predicate IsDecoded(output: Output, f: Frame, threshold: real, found: seq<Detection>)
    requires f.scale != 0.0
  {
    exists from: seq<nat> :: Decoded(output, f, threshold, CANDIDATES, found, from)
  }

  method DecodeCandidates(output: Output, f: Frame, threshold: real) returns (candidates: seq<Detection>)
    requires f.scale != 0.0
    ensures IsDecoded(output, f, threshold, candidates)
  {
    candidates := [];
    ghost var from: seq<nat> := [];
    for i := 0 to CANDIDATES
      invariant Decoded(output, f, threshold, i, candidates, from)
    {
      var bestClass, bestScore := BestClass(output, i);
      var v := Centred(At(output, 0, i), At(output, 1, i), At(output, 2, i), At(output, 3, i));
      var detection := Detection(bestClass, bestScore, Unboxed(v, f));
      assert Describes(output, i, f, detection);
      hide Describes, NonEmpty;
      forall d | Describes(output, i, f, d) ensures d == detection {
        DescribesOne(output, i, f, d, detection);
      }
      if bestScore < threshold {
        continue;
      }
      if NonEmpty(detection.box) {
        candidates := candidates + [detection];
        from := from + [i];
      }
    }
  }

  /** Every box handed on is non-empty and inside the image, whatever the network put out. */
  lemma CandidatesInImage(output: Output, f: Frame, threshold: real, found: seq<Detection>)
    requires f.scale != 0.0 && IsDecoded(output, f, threshold, found)
    ensures forall k :: 0 <= k < |found| ==>
              && NonEmpty(found[k].box) && Inside(found[k].box, f)
              && found[k].confidence >= threshold && found[k].classId < CLASSES
  {
    var from :| Decoded(output, f, threshold, CANDIDATES, found, from);
    forall k | 0 <= k < |found| ensures Inside(found[k].box, f) {
      hide Letterboxed, Unclipped;
      assert Describes(output, from[k], f, found[k]);
    }
  }

  /** Nothing else is a decoding of the output. */
  lemma DecodedIsUnique(output: Output, f: Frame, threshold: real, found: seq<Detection>, found': seq<Detection>)
    requires f.scale != 0.0 && IsDecoded(output, f, threshold, found) && IsDecoded(output, f, threshold, found')
    ensures found == found'
  {
    var from :| Decoded(output, f, threshold, CANDIDATES, found, from);
    var from' :| Decoded(output, f, threshold, CANDIDATES, found', from');
    SameColumns(output, f, threshold, found, from, found', from');
    SameColumns(output, f, threshold, found', from', found, from);
    SameIncreasing(from, from');
    hide Describes, Passes;
    forall k | 0 <= k < |found| ensures found[k] == found'[k] {
      DescribesOne(output, from[k], f, found[k], found'[k]);
    }
  }

  lemma SameColumns(output: Output, f: Frame, threshold: real, found: seq<Detection>, from: seq<nat>,
                    found': seq<Detection>, from': seq<nat>)
    requires f.scale != 0.0
    requires Decoded(output, f, threshold, CANDIDATES, found, from)
    requires Decoded(output, f, threshold, CANDIDATES, found', from')
    ensures forall i :: i in from ==> i in from'
  {
    hide Describes, Passes;
    forall i | i in from ensures i in from' {
      var k :| 0 <= k < |from| && from[k] == i;
      assert Describes(output, i, f, found[k]) && Passes(found[k], threshold);
    }
  }

  ghost predicate Increasing(s: seq<nat>) {
    forall j, k :: 0 <= j < k < |s| ==> s[j] < s[k]
  }

  lemma SomeIn(s: seq<nat>)
    ensures s == [] || exists i :: i in s
  {
    if s != [] {
      assert s[0] in s;
    }
  }

  lemma {:induction false} SameIncreasing(a: seq<nat>, b: seq<nat>)
    requires Increasing(a) && Increasing(b)
    requires forall i :: i in a <==> i in b
    ensures a == b
  {
    if a == [] {
      SomeIn(b);
    } else {
      assert a[0] in b && b[0] in a;
      assert forall i :: i in a[1..] <==> i in a && i != a[0];
      assert forall i :: i in b[1..] <==> i in b && i != b[0];
      SameIncreasing(a[1..], b[1..]);
      assert a == [a[0]] + a[1..] && b == [b[0]] + b[1..];
    }
  }

  // ---------- suppression ----------

  ghost predicate Descending(s: seq<Detection>) {
    forall i, j :: 0 <= i < j < |s| ==> s[i].confidence >= s[j].confidence
  }

  /** What `std::sort` promises for the comparison by confidence; the order of ties is open. */
  ghost predicate SortOf(s: seq<Detection>, sorted: seq<Detection>) {
    Descending(sorted) && multiset(sorted) == multiset(s)
  }

  predicate Suppresses(kept: Detection, d: Detection, threshold: real) {
    d.classId == kept.classId && IoU(d.box, kept.box) > threshold
  }

  ghost predicate AnySuppresses(kept: seq<Detection>, d: Detection, threshold: real) {
    exists k :: 0 <= k < |kept| && Suppresses(kept[k], d, threshold)
  }

  /** The greedy choice over a list. */
  ghost function Greedy(sorted: seq<Detection>, threshold: real): seq<Detection> {
    if sorted == [] then []
    else
      var kept, d := Greedy(sorted[..|sorted| - 1], threshold), sorted[|sorted| - 1];
      if AnySuppresses(kept, d, threshold) then kept else kept + [d]
  }

  /** The declarative specification of the result: a part of the list, still by confidence, no two
      of one class overlapping too much, and every copy of a candidate that is missing lost to a kept
      one of its class with at least its confidence. */
  ghost predicate IsSuppression(sorted: seq<Detection>, kept: seq<Detection>, threshold: real) {
    && multiset(kept) <= multiset(sorted)
    && Descending(kept)
    && (forall i, j :: 0 <= i < j < |kept| ==> !Suppresses(kept[i], kept[j], threshold))
    && (forall d :: multiset(kept)[d] < multiset(sorted)[d] ==> LostTo(kept, d, threshold))
  }

  ghost predicate LostTo(kept: seq<Detection>, d: Detection, threshold: real) {
    exists k :: 0 <= k < |kept| && kept[k].confidence >= d.confidence && Suppresses(kept[k], d, threshold)
  }

  lemma {:induction false} GreedyMeaning(sorted: seq<Detection>, threshold: real)
    requires Descending(sorted)
    ensures IsSuppression(sorted, Greedy(sorted, threshold), threshold)
  {
    if sorted == [] {
    } else {
      hide IsSuppression, Greedy, AnySuppresses;
      var n := |sorted| - 1;
      var before, d := sorted[..n], sorted[n];
      assert sorted == before + [d];
      var kept := Greedy(before, threshold);
      assert Descending(before);
      GreedyMeaning(before, threshold);
      GreedyStep(before, d, threshold);
      forall e | e in before ensures e.confidence >= d.confidence {
        var i :| 0 <= i < n && before[i] == e;
        assert sorted[i] == e;
      }
      hide Descending;
      if AnySuppresses(kept, d, threshold) {
        Dropping(before, kept, d, threshold);
      } else {
        Keeping(before, kept, d, threshold);
      }
    }
  }

  lemma GreedyStep(before: seq<Detection>, d: Detection, threshold: real)
    ensures var kept := Greedy(before, threshold);
            Greedy(before + [d], threshold) == if AnySuppresses(kept, d, threshold) then kept else kept + [d]
  {
    hide AnySuppresses;
    assert (before + [d])[..|before|] == before;
  }

  lemma Dropping(before: seq<Detection>, kept: seq<Detection>, d: Detection, threshold: real)
    requires IsSuppression(before, kept, threshold) && AnySuppresses(kept, d, threshold)
    requires forall e :: e in before ==> e.confidence >= d.confidence
    ensures IsSuppression(before + [d], kept, threshold)
  {
    hide Suppresses;
    var k :| 0 <= k < |kept| && Suppresses(kept[k], d, threshold);
    assert kept[k] in multiset(kept) && kept[k] in before;
    assert LostTo(kept, d, threshold);
    hide LostTo;
    forall e | multiset(kept)[e] < multiset(before + [d])[e] ensures LostTo(kept, e, threshold) {
      assert multiset(before + [d]) == multiset(before) + multiset{d};
      if e != d {
        assert multiset(kept)[e] < multiset(before)[e];
      }
    }
  }

  lemma Keeping(before: seq<Detection>, kept: seq<Detection>, d: Detection, threshold: real)
    requires IsSuppression(before, kept, threshold) && !AnySuppresses(kept, d, threshold)
    requires forall e :: e in before ==> e.confidence >= d.confidence
    ensures IsSuppression(before + [d], kept + [d], threshold)
  {
    hide Suppresses;
    var more := kept + [d];
    assert multiset(before + [d]) == multiset(before) + multiset{d};
    assert multiset(more) == multiset(kept) + multiset{d};
    forall k | 0 <= k < |kept| ensures kept[k].confidence >= d.confidence {
      assert kept[k] in multiset(kept) && kept[k] in before;
    }
    assert Descending(more);
    forall i, j | 0 <= i < j < |more| ensures !Suppresses(more[i], more[j], threshold) {
      if j == |kept| {
        assert !Suppresses(kept[i], d, threshold);
      } else {
        assert more[i] == kept[i] && more[j] == kept[j];
      }
    }
    forall e | multiset(more)[e] < multiset(before + [d])[e] ensures LostTo(more, e, threshold) {
      assert multiset(kept)[e] < multiset(before)[e];
      LostToMore(kept, d, e, threshold);
    }
  }

  lemma LostToMore(kept: seq<Detection>, d: Detection, e: Detection, threshold: real)
    requires LostTo(kept, e, threshold)
    ensures LostTo(kept + [d], e, threshold)
  {
    hide Suppresses;
    var k :| 0 <= k < |kept| && kept[k].confidence >= e.confidence && Suppresses(kept[k], e, threshold);
    assert (kept + [d])[k] == kept[k];
  }

  /** The choice is the only one: of two lists drawn from the sorted one by the same rule, position by
      position, none differs. */
  lemma {:induction false} TheOnlyChoice(sorted: seq<Detection>, keep: seq<bool>, threshold: real)
    requires |keep| == |sorted|
    requires forall j :: 0 <= j < |sorted| ==> (keep[j] <==> !KeptSuppresses(sorted, keep, sorted[j], threshold, j))
    ensures Chosen(sorted, keep) == Greedy(sorted, threshold)
  {
    hide Suppresses, AnySuppresses;
    if sorted != [] {
      var n := |sorted| - 1;
      var before, d := sorted[..n], sorted[n];
      RulePrefix(sorted, keep, threshold, n);
      TheOnlyChoice(before, keep[..n], threshold);
      ChosenSuppresses(before, keep[..n], d, threshold);
      KeptBefore(sorted, keep, d, threshold, n);
      assert keep[n] <==> !KeptSuppresses(sorted, keep, d, threshold, n);
    }
  }

  ghost predicate KeptSuppresses(sorted: seq<Detection>, keep: seq<bool>, d: Detection, threshold: real, n: nat)
    requires n <= |keep| == |sorted|
  {
    exists i :: 0 <= i < n && keep[i] && Suppresses(sorted[i], d, threshold)
  }

  lemma KeptBefore(sorted: seq<Detection>, keep: seq<bool>, d: Detection, threshold: real, n: nat)
    requires n <= |keep| == |sorted|
    ensures KeptSuppresses(sorted, keep, d, threshold, n)
            <==> exists i :: 0 <= i < n && keep[..n][i] && Suppresses(sorted[..n][i], d, threshold)
  {
    hide Suppresses;
    forall i | 0 <= i < n ensures keep[..n][i] == keep[i] && sorted[..n][i] == sorted[i] {
    }
    if KeptSuppresses(sorted, keep, d, threshold, n) {
      var i :| 0 <= i < n && keep[i] && Suppresses(sorted[i], d, threshold);
      assert keep[..n][i] && Suppresses(sorted[..n][i], d, threshold);
    }
  }

  lemma RulePrefix(sorted: seq<Detection>, keep: seq<bool>, threshold: real, n: nat)
    requires n <= |keep| == |sorted|
    requires forall j :: 0 <= j < |sorted| ==> (keep[j] <==> !KeptSuppresses(sorted, keep, sorted[j], threshold, j))
    ensures forall j :: 0 <= j < n ==>
              (keep[..n][j] <==> !KeptSuppresses(sorted[..n], keep[..n], sorted[..n][j], threshold, j))
  {
    hide KeptSuppresses;
    forall j | 0 <= j < n
      ensures keep[..n][j] <==> !KeptSuppresses(sorted[..n], keep[..n], sorted[..n][j], threshold, j)
    {
      assert keep[..n][j] == keep[j] && sorted[..n][j] == sorted[j];
      SamePrefix(sorted, keep, sorted[j], threshold, n, j);
    }
  }

  lemma SamePrefix(sorted: seq<Detection>, keep: seq<bool>, d: Detection, threshold: real, n: nat, j: nat)
    requires j <= n <= |keep| == |sorted|
    ensures KeptSuppresses(sorted[..n], keep[..n], d, threshold, j) <==> KeptSuppresses(sorted, keep, d, threshold, j)
  {
    hide Suppresses;
    assert forall i :: 0 <= i < j ==> keep[..n][i] == keep[i] && sorted[..n][i] == sorted[i];
    if KeptSuppresses(sorted, keep, d, threshold, j) {
      var i :| 0 <= i < j && keep[i] && Suppresses(sorted[i], d, threshold);
      assert keep[..n][i] && Suppresses(sorted[..n][i], d, threshold);
    }
  }

  ghost function Chosen(sorted: seq<Detection>, keep: seq<bool>): seq<Detection>
    requires |keep| == |sorted|
  {
    if sorted == [] then []
    else
      var n := |sorted| - 1;
      Chosen(sorted[..n], keep[..n]) + if keep[n] then [sorted[n]] else []
  }

  lemma {:induction false} ChosenSuppresses(sorted: seq<Detection>, keep: seq<bool>, d: Detection, threshold: real)
    requires |keep| == |sorted|
    ensures AnySuppresses(Chosen(sorted, keep), d, threshold)
            <==> exists i :: 0 <= i < |sorted| && keep[i] && Suppresses(sorted[i], d, threshold)
  {
    hide Suppresses;
    if sorted != [] {
      var n := |sorted| - 1;
      ChosenSuppresses(sorted[..n], keep[..n], d, threshold);
      var c, c' := Chosen(sorted[..n], keep[..n]), Chosen(sorted, keep);
      assert c' == if keep[n] then c + [sorted[n]] else c;
      assert AnySuppresses(c', d, threshold) <==>
             AnySuppresses(c, d, threshold) || (keep[n] && Suppresses(sorted[n], d, threshold)) by {
        if keep[n] {
          assert c'[|c|] == sorted[n];
          assert forall k :: 0 <= k < |c| ==> c'[k] == c[k];
        }
      }
      assert forall i :: 0 <= i < n ==> keep[..n][i] == keep[i] && sorted[..n][i] == sorted[i];
    }
  }

  method Suppress(sorted: seq<Detection>, threshold: real) returns (selected: seq<Detection>)
    ensures selected == Greedy(sorted, threshold)
  {
    selected := [];
    for n := 0 to |sorted|
      invariant selected == Greedy(sorted[..n], threshold)
    {
      var candidate := sorted[n];
      var suppressed := false;
      hide Suppresses;
      for k := 0 to |selected|
        invariant !suppressed
        invariant forall j :: 0 <= j < k ==> !Suppresses(selected[j], candidate, threshold)
      {
        if Suppresses(selected[k], candidate, threshold) {
          suppressed := true;
          break;
        }
      }
      assert suppressed <==> AnySuppresses(selected, candidate, threshold);
      GreedyStep(sorted[..n], candidate, threshold);
      assert sorted[..n + 1] == sorted[..n] + [candidate];
      if !suppressed {
        selected := selected + [candidate];
      }
    }
    assert sorted[..|sorted|] == sorted;
  }

  method Position(sorted: seq<Detection>, confidence: real) returns (i: nat)
    ensures i <= |sorted| && forall j :: 0 <= j < i ==> sorted[j].confidence >= confidence
    ensures i < |sorted| ==> sorted[i].confidence < confidence
  {
    i := 0;
    while i < |sorted| && sorted[i].confidence >= confidence
      invariant i <= |sorted|
      invariant forall j :: 0 <= j < i ==> sorted[j].confidence >= confidence
    {
      i := i + 1;
    }
  }

  /** Any sort will do: only its contract is used. */
  method Sort(s: seq<Detection>) returns (sorted: seq<Detection>)
    ensures SortOf(s, sorted)
  {
    sorted := [];
    EmptySorted();
    assert s[..0] == [];
    hide Insert, SortOf;
    for n := 0 to |s|
      invariant SortOf(s[..n], sorted)
    {
      var i := Position(sorted, s[n].confidence);
      InsertSorted(s[..n], sorted, s[n], i);
      assert s[..n + 1] == s[..n] + [s[n]];
      sorted := Insert(sorted, s[n], i);
    }
    assert s[..|s|] == s;
  }

  lemma EmptySorted()
    ensures SortOf([], [])
  {
  }

  function Insert(sorted: seq<Detection>, d: Detection, i: nat): seq<Detection>
    requires i <= |sorted|
  {
    sorted[..i] + [d] + sorted[i..]
  }

  lemma InsertAt(sorted: seq<Detection>, d: Detection, i: nat, j: nat)
    requires i <= |sorted| && j <= |sorted|
    ensures |Insert(sorted, d, i)| == |sorted| + 1
    ensures Insert(sorted, d, i)[j] == if j < i then sorted[j] else if j == i then d else sorted[j - 1]
  {
  }

  lemma InsertElements(sorted: seq<Detection>, d: Detection, i: nat)
    requires i <= |sorted|
    ensures multiset(Insert(sorted, d, i)) == multiset(sorted) + multiset{d}
  {
    assert sorted == sorted[..i] + sorted[i..];
  }

  lemma InsertSorted(s: seq<Detection>, sorted: seq<Detection>, d: Detection, i: nat)
    requires SortOf(s, sorted) && i <= |sorted|
    requires forall j :: 0 <= j < i ==> sorted[j].confidence >= d.confidence
    requires i < |sorted| ==> sorted[i].confidence < d.confidence
    ensures SortOf(s + [d], Insert(sorted, d, i))
  {
    hide Insert;
    InsertElements(sorted, d, i);
    InsertAt(sorted, d, i, 0);
    assert multiset(s + [d]) == multiset(s) + multiset{d};
    forall j | i <= j < |sorted| ensures d.confidence >= sorted[j].confidence {
      assert sorted[i].confidence >= sorted[j].confidence || i == j;
    }
    var more := Insert(sorted, d, i);
    forall j, k | 0 <= j < k < |more| ensures more[j].confidence >= more[k].confidence {
      InsertAt(sorted, d, i, j);
      InsertAt(sorted, d, i, k);
    }
  }

  /** All of `postprocess`. A missing or wrongly sized output gives no detections; otherwise they are
      the suppression of the decoded candidates, so inside the image and above the threshold too. */
  method Postprocess(output: Option<seq<real>>, f: Frame, confidenceThreshold: real, nmsThreshold: real)
    returns (selected: seq<Detection>)
    requires f.scale != 0.0
    ensures if output.None? || |output.value| != 84 * CANDIDATES then selected == []
            else exists candidates: seq<Detection> ::
                   && IsDecoded(output.value, f, confidenceThreshold, candidates)
                   && IsSuppression(candidates, selected, nmsThreshold)
    ensures forall d :: d in selected ==>
              NonEmpty(d.box) && Inside(d.box, f) && d.confidence >= confidenceThreshold && d.classId < CLASSES
  {
    selected := [];
    if output.None? || |output.value| != 84 * CANDIDATES {
      return;
    }
    hide IsDecoded, Suppresses, NonEmpty, Inside;
    var candidates := DecodeCandidates(output.value, f, confidenceThreshold);
    CandidatesInImage(output.value, f, confidenceThreshold, candidates);
    var sorted := Sort(candidates);
    selected := Suppress(sorted, nmsThreshold);
    GreedyMeaning(sorted, nmsThreshold);
    forall d | d in selected ensures d in candidates {
      assert d in multiset(selected) && d in multiset(sorted);
    }
  }
}
