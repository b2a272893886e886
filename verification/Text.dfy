/** String searching and trimming as the C++ standard library calls in the sources do it.
    A `char` stands for one byte; no definition here depends on its width. */
module Text {

  datatype Option<+T> = None | Some(value: T)

  const CRLF := "\r\n"

  /** Lists one behind the other. */
  function Flat<T>(lists: seq<seq<T>>): seq<T> {
    if lists == [] then [] else lists[0] + Flat(lists[1..])
  }

  lemma {:induction false} FlatGrows<T>(lists: seq<seq<T>>, last: seq<T>)
    ensures Flat(lists + [last]) == Flat(lists) + last
  {
    if lists == [] {
      assert (lists + [last])[1..] == [];
    } else {
      FlatGrows(lists[1..], last);
      assert (lists + [last])[1..] == lists[1..] + [last];
    }
  }

  /** `p` stands in `s` at position `k`. */
  predicate OccursAt(s: string, p: string, k: int) {
    0 <= k && k + |p| <= |s| && s[k..k + |p|] == p
  }

  /** `std::string::find(p, from)`, and `std::search` for `from == 0`. */
  function Find(s: string, p: string, from: nat): (r: Option<nat>)
    ensures r.Some? ==> from <= r.value && r.value + |p| <= |s|
    decreases |s| - from
  {
    if from + |p| > |s| then None
    else if s[from..from + |p|] == p then Some(from)
    else Find(s, p, from + 1)
  }

  /** The result is the first occurrence from `from` on, or there is none. */
  lemma {:induction false} FindMeans(s: string, p: string, from: nat)
    ensures var r := Find(s, p, from);
            && (r.Some? ==> from <= r.value && OccursAt(s, p, r.value))
            && (r.Some? ==> forall k :: from <= k < r.value ==> !OccursAt(s, p, k))
            && (r.None? ==> forall k :: from <= k ==> !OccursAt(s, p, k))
    decreases |s| - from
  {
    if from + |p| <= |s| && s[from..from + |p|] != p {
      FindMeans(s, p, from + 1);
    }
  }

  lemma OccursCut(s: string, p: string, k: nat)
    requires OccursAt(s, p, k)
    ensures s == s[..k] + p + s[k + |p|..]
  {
    assert s[..k] + s[k..k + |p|] == s[..k + |p|];
  }

  lemma SlicesOfTail(s: string, start: nat, k: nat, n: nat)
    requires start <= k && k + n <= |s|
    ensures s[start..][..k - start] == s[start..k] && s[start..][k - start + n..] == s[k + n..]
  {
  }

  /** Whether any occurrence exists, whatever the position. */
  predicate Contains(s: string, p: string) {
    Find(s, p, 0).Some?
  }

  /** A first occurrence is the one `Find` returns. */
  lemma FindIs(s: string, p: string, from: nat, k: nat)
    requires from <= k && OccursAt(s, p, k)
    requires forall j :: from <= j < k ==> !OccursAt(s, p, j)
    ensures Find(s, p, from) == Some(k)
  {
    FindMeans(s, p, from);
  }

  lemma OccursInPrefix(s: string, more: string, p: string, k: nat)
    requires k + |p| <= |s|
    ensures OccursAt(s + more, p, k) == OccursAt(s, p, k)
  {
    assert (s + more)[k..k + |p|] == s[k..k + |p|];
  }

  lemma OccursBehind(pre: string, s: string, p: string, k: nat)
    ensures OccursAt(pre + s, p, |pre| + k) == OccursAt(s, p, k)
  {
    if k + |p| <= |s| {
      assert (pre + s)[|pre| + k..|pre| + k + |p|] == s[k..k + |p|];
    }
  }

  /** Looking behind a prefix is looking in the rest. */
  lemma {:induction false} FindShift(pre: string, s: string, p: string, from: nat)
    ensures Find(pre + s, p, |pre| + from)
         == if Find(s, p, from).Some? then Some(|pre| + Find(s, p, from).value) else None
    decreases |s| - from
  {
    if from + |p| <= |s| {
      assert (pre + s)[|pre| + from..|pre| + from + |p|] == s[from..from + |p|];
      if s[from..from + |p|] != p {
        FindShift(pre, s, p, from + 1);
        assert |pre| + (from + 1) == (|pre| + from) + 1;
      }
    }
  }

  /** An occurrence found in a prefix of the data is the one found in all of it. */
  lemma FindExtends(s: string, more: string, p: string)
    requires Find(s, p, 0).Some?
    ensures Find(s + more, p, 0) == Find(s, p, 0)
  {
    var k := Find(s, p, 0).value;
    FindMeans(s, p, 0);
    forall j | 0 <= j <= k ensures OccursAt(s + more, p, j) == OccursAt(s, p, j) {
      OccursInPrefix(s, more, p, j);
    }
    FindIs(s + more, p, 0, k);
  }

  /** An occurrence that ends inside the prefix is found by searching the prefix alone. */
  lemma FindCut(s: string, more: string, p: string)
    requires Find(s + more, p, 0).Some? && Find(s + more, p, 0).value + |p| <= |s|
    ensures Find(s, p, 0) == Find(s + more, p, 0)
  {
    var k := Find(s + more, p, 0).value;
    FindMeans(s + more, p, 0);
    forall j | 0 <= j <= k ensures OccursAt(s + more, p, j) == OccursAt(s, p, j) {
      OccursInPrefix(s, more, p, j);
    }
    FindIs(s, p, 0, k);
  }

  /** A text with no line break inside it. */
  ghost predicate OneLine(s: string) {
    forall k :: !OccursAt(s, CRLF, k)
  }

  lemma OccursChar(s: string, c: char, k: nat)
    ensures OccursAt(s, [c], k) <==> k < |s| && s[k] == c
  {
    if k < |s| {
      assert s[k..k + 1] == [s[k]];
    }
  }

  lemma OccursCrlf(s: string, k: nat)
    ensures OccursAt(s, CRLF, k) <==> k + 1 < |s| && s[k] == '\r' && s[k + 1] == '\n'
  {
    if k + 1 < |s| {
      assert s[k..k + 2] == [s[k], s[k + 1]];
    }
  }

  lemma OneLineWithoutFeed(s: string)
    requires '\n' !in s
    ensures OneLine(s)
  {
    forall k ensures !OccursAt(s, CRLF, k) {
      if 0 <= k {
        OccursCrlf(s, k);
      }
    }
  }

  /** One-line texts join to one line unless the seam makes a line break. */
  lemma OneLineJoin(a: string, b: string)
    requires OneLine(a) && OneLine(b)
    requires a != "" && b != "" ==> !(a[|a| - 1] == '\r' && b[0] == '\n')
    ensures OneLine(a + b)
  {
    forall k ensures !OccursAt(a + b, CRLF, k) {
      if 0 <= k {
        OccursCrlf(a + b, k);
        OccursCrlf(a, k);
        assert !OccursAt(a, CRLF, k);
        if |a| <= k {
          OccursCrlf(b, k - |a|);
          assert !OccursAt(b, CRLF, k - |a|);
        }
      }
    }
  }

  /** The line break behind a one-line text is the first one. */
  lemma FindLineEnd(line: string, rest: string)
    requires OneLine(line)
    ensures Find(line + CRLF + rest, CRLF, 0) == Some(|line|)
  {
    var s := line + CRLF + rest;
    forall j | 0 <= j <= |line| ensures OccursAt(s, CRLF, j) == (j == |line|) {
      OccursCrlf(s, j);
      OccursCrlf(line, j);
      assert !OccursAt(line, CRLF, j);
    }
    FindIs(s, CRLF, 0, |line|);
  }

  /** A character absent from the text in front of it is found there. */
  lemma FindChar(pre: string, c: char, post: string)
    requires c !in pre
    ensures Find(pre + [c] + post, [c], 0) == Some(|pre|)
  {
    var s := pre + [c] + post;
    forall j | 0 <= j <= |pre| ensures OccursAt(s, [c], j) == (j == |pre|) {
      OccursChar(s, c, j);
    }
    FindIs(s, [c], 0, |pre|);
  }

  lemma FindNoChar(s: string, c: char)
    ensures Find(s, [c], 0).None? <==> c !in s
  {
    FindMeans(s, [c], 0);
    forall j | 0 <= j ensures OccursAt(s, [c], j) <==> j < |s| && s[j] == c {
      OccursChar(s, c, j);
    }
    if c in s {
      var i :| 0 <= i < |s| && s[i] == c;
      assert OccursAt(s, [c], i);
    }
  }

  // ---------- characters ----------

  /** `isspace` in the C locale. */
  predicate IsSpace(c: char) {
    c == ' ' || 9 as char <= c <= 13 as char
  }

  /** The four characters `trim` removes. */
  predicate IsBlank(c: char) {
    c == ' ' || c == '\t' || c == '\r' || c == '\n'
  }

  function LowerChar(c: char): char {
    if 'A' <= c <= 'Z' then c - 'A' + 'a' else c
  }

  function Lower(s: string): (r: string)
    ensures |r| == |s| && forall i :: 0 <= i < |s| ==> r[i] == LowerChar(s[i])
  {
    seq(|s|, i requires 0 <= i < |s| => LowerChar(s[i]))
  }

  predicate IsLetter(c: char) {
    'A' <= c <= 'Z' || 'a' <= c <= 'z'
  }

  /** The same character, or the two cases of one ASCII letter: they differ in one bit, 32. */
  predicate SameLetter(c: char, d: char) {
    c == d || (IsLetter(c) && IsLetter(d) && (c as int - d as int == 32 || d as int - c as int == 32))
  }

  /** Lower-casing identifies exactly the texts that differ in the case of letters only. */
  lemma LowerMeaning(a: string, b: string)
    ensures Lower(a) == Lower(b) <==> |a| == |b| && forall i :: 0 <= i < |a| ==> SameLetter(a[i], b[i])
  {
    if |a| == |b| {
      forall i | 0 <= i < |a| ensures Lower(a)[i] == Lower(b)[i] <==> SameLetter(a[i], b[i]) {
        LowerCharMeaning(a[i], b[i]);
      }
    }
  }

  lemma LowerCharMeaning(c: char, d: char)
    ensures LowerChar(c) == LowerChar(d) <==> SameLetter(c, d)
  {
  }

  /** `s` without its leading characters that satisfy `drop`. */
  function DropLeading(s: string, drop: char -> bool): string {
    if s != "" && drop(s[0]) then DropLeading(s[1..], drop) else s
  }

  /** `s` without its trailing characters that satisfy `drop`. */
  function DropTrailing(s: string, drop: char -> bool): string {
    if s != "" && drop(s[|s| - 1]) then DropTrailing(s[..|s| - 1], drop) else s
  }

  function Strip(s: string, drop: char -> bool): string {
    DropTrailing(DropLeading(s, drop), drop)
  }

  /** Nothing to strip at either end. */
  predicate Stripped(s: string, drop: char -> bool) {
    s == "" || (!drop(s[0]) && !drop(s[|s| - 1]))
  }

  /** Stripping removes exactly the padding: what remains is a slice with clean ends,
      everything cut away was padding. */
  lemma {:induction false} StripMeaning(s: string, drop: char -> bool)
    ensures Stripped(Strip(s, drop), drop)
    ensures exists i, j ::
              && 0 <= i <= j <= |s| && Strip(s, drop) == s[i..j]
              && (forall k :: 0 <= k < i ==> drop(s[k]))
              && (forall k :: j <= k < |s| ==> drop(s[k]))
  {
    var i := DropLeadingMeaning(s, drop);
    var t := DropLeading(s, drop);
    var j := DropTrailingMeaning(t, drop);
    assert Strip(s, drop) == t[..j] == s[i..i + j];
    assert forall k :: i + j <= k < |s| ==> s[k] == t[k - i];
  }

  lemma {:induction false} DropLeadingMeaning(s: string, drop: char -> bool) returns (i: nat)
    ensures i <= |s| && DropLeading(s, drop) == s[i..]
    ensures forall k :: 0 <= k < i ==> drop(s[k])
    ensures i < |s| ==> !drop(s[i])
  {
    if s != "" && drop(s[0]) {
      var rest := DropLeadingMeaning(s[1..], drop);
      i := rest + 1;
      assert forall k :: 1 <= k < i ==> s[k] == s[1..][k - 1];
    } else {
      i := 0;
    }
  }

  lemma {:induction false} DropTrailingMeaning(s: string, drop: char -> bool) returns (j: nat)
    ensures j <= |s| && DropTrailing(s, drop) == s[..j]
    ensures forall k :: j <= k < |s| ==> drop(s[k])
    ensures j > 0 ==> !drop(s[j - 1])
  {
    if s != "" && drop(s[|s| - 1]) {
      j := DropTrailingMeaning(s[..|s| - 1], drop);
      assert s[..|s| - 1][..j] == s[..j];
    } else {
      j := |s|;
    }
  }

  /** One leading padding character in front of stripped text goes. */
  lemma StripPadded(c: char, s: string, drop: char -> bool)
    requires drop(c) && Stripped(s, drop)
    ensures Strip([c] + s, drop) == s
  {
    assert ([c] + s)[1..] == s;
    assert DropLeading(s, drop) == s && DropTrailing(s, drop) == s;
    assert DropLeading([c] + s, drop) == s;
  }

  /** `core` is `s` without characters of `padding` at either end. */
  ghost predicate Trimmed(s: string, core: string, padding: string) {
    && (core != "" ==> core[0] !in padding && core[|core| - 1] !in padding)
    && exists before, after ::
         && s == before + core + after
         && (forall c :: c in before ==> c in padding)
         && (forall c :: c in after ==> c in padding)
  }

  lemma StripTrims(s: string, drop: char -> bool, padding: string)
    requires forall c :: drop(c) <==> c in padding
    ensures Trimmed(s, Strip(s, drop), padding)
  {
    hide Strip;
    StripMeaning(s, drop);
    var core := Strip(s, drop);
    var i, j :|
      && 0 <= i <= j <= |s| && core == s[i..j]
      && (forall k :: 0 <= k < i ==> drop(s[k]))
      && (forall k :: j <= k < |s| ==> drop(s[k]));
    AllPadding(s, 0, i, drop, padding);
    AllPadding(s, j, |s|, drop, padding);
    CutInThree(s, i, j);
    assert s == s[..i] + core + s[j..];
  }

  lemma AllPadding(s: string, low: nat, high: nat, drop: char -> bool, padding: string)
    requires low <= high <= |s| && forall c :: drop(c) <==> c in padding
    requires forall k :: low <= k < high ==> drop(s[k])
    ensures forall c :: c in s[low..high] ==> c in padding
  {
    forall c | c in s[low..high] ensures c in padding {
      var k :| 0 <= k < high - low && s[low..high][k] == c;
      assert drop(s[low + k]);
    }
  }

  lemma CutInThree(s: string, i: nat, j: nat)
    requires i <= j <= |s|
    ensures s == s[..i] + s[i..j] + s[j..] && s[..i] == s[0..i] && s[j..] == s[j..|s|]
  {
  }

  const SPACES := " \t\n\U{0B}\U{0C}\r"
  const BLANKS := " \t\r\n"

  /** Header values lose what `isspace` takes for white space, parameters blanks and line ends. */
  lemma PaddingMeaning(s: string)
    ensures Trimmed(s, Strip(s, IsSpace), SPACES)
    ensures Trimmed(s, Strip(s, IsBlank), BLANKS)
  {
    hide Strip, Trimmed;
    forall c ensures IsSpace(c) <==> c in SPACES {
      SpacesListed(c);
    }
    StripTrims(s, IsSpace, SPACES);
    StripTrims(s, IsBlank, BLANKS);
  }

  lemma SpacesListed(c: char)
    ensures IsSpace(c) <==> c in SPACES
  {
    if IsSpace(c) {
      var i := if c == ' ' then 0 else if c == '\r' then 5 else c as int - 8;
      assert SPACES[i] == c;
    }
  }
}
