/** Integers as log text, formatted in place (src/logger/LogStream.cc). */
module LogStreams {
  import opened Text
  import opened Numerals

  const SMALL_BUFFER: nat := 4000
  const MAX_NUMERIC_SIZE: nat := 48

  /** The mirrored digit table; position 9 is its zero. */
  const DIGITS: string := "9876543210123456789"

  const INT64_MIN := -0x8000_0000_0000_0000
  const UINT64_MAX := 0xFFFF_FFFF_FFFF_FFFF

  /** Division as in C++: towards zero, the remainder with the sign of the dividend. */
  function TruncDiv(a: int, b: int): int
    requires b > 0
  {
    if a >= 0 then a / b else -(-a / b)
  }

  function TruncMod(a: int, b: int): int
    requires b > 0
  {
    a - TruncDiv(a, b) * b
  }

  function Magnitude(num: int): nat {
    if num < 0 then -num else num
  }

  /** `zero[remainder]`, for remainders of either sign. */
  function ZeroAt(remainder: int): char
    requires -9 <= remainder <= 9
  {
    DIGITS[9 + remainder]
  }

  /** Dividing, the code never leaves the type and never negates the smallest number. */
  lemma OneDigit(num: int)
    ensures -9 <= TruncMod(num, 10) <= 9
    ensures Magnitude(TruncDiv(num, 10)) == Magnitude(num) / 10
    ensures Magnitude(TruncMod(num, 10)) == Magnitude(num) % 10
    ensures ZeroAt(TruncMod(num, 10)) == DigitChar(Magnitude(num) % 10)
    ensures num >= 0 ==> TruncDiv(num, 10) >= 0
    ensures num <= 0 ==> TruncDiv(num, 10) <= 0
  {
    Table(TruncMod(num, 10));
  }

  lemma Table(r: int)
    requires -9 <= r <= 9
    ensures ZeroAt(r) == DigitChar(Magnitude(r))
  {
  }

  // ---------- what the text is ----------

  function Numeral(num: int): string {
    (if num < 0 then "-" else "") + Decimal(Magnitude(num))
  }

  /** The number a decimal numeral denotes. */
  function ReadNumeral(s: string): Option<int> {
    var negative := s != "" && s[0] == '-';
    var digits := if negative then s[1..] else s;
    if digits == "" || !AllDigits(digits) then None
    else
      var n: int := NatOf(digits);
      Some(if negative then -n else n)
  }

  /** No superfluous zero and no negative zero. */
  predicate Canonical(s: string) {
    var digits := if s != "" && s[0] == '-' then s[1..] else s;
    digits != "" && (digits[0] == '0' ==> s == "0")
  }

  lemma NumeralReads(num: int)
    ensures ReadNumeral(Numeral(num)) == Some(num) && Canonical(Numeral(num))
  {
    var m := Magnitude(num);
    DecimalRoundTrip(m);
    ZeroText(m);
    hide Decimal, NatOf;
    var t := Numeral(num);
    if num < 0 {
      assert t[1..] == Decimal(m);
    } else {
      assert t == Decimal(m) && IsDigit(t[0]);
    }
  }

  lemma ZeroText(m: nat)
    ensures m == 0 ==> Decimal(m) == "0"
  {
  }

  lemma OnlyNumeral(num: int, s: string)
    requires ReadNumeral(s) == Some(num) && Canonical(s)
    ensures s == Numeral(num)
  {
    var digits := if s[0] == '-' then s[1..] else s;
    DecimalUnique(digits);
    DecimalRoundTrip(NatOf(digits));
    ZeroText(NatOf(digits));
    hide Decimal, NatOf;
    if s[0] == '-' {
      assert s == "-" + digits;
    } else {
      assert "" + digits == s;
    }
  }

  /** The text reads back as the number and is the only canonical one that does. */
  lemma NumeralRoundTrip(num: int, s: string)
    ensures s == Numeral(num) <==> ReadNumeral(s) == Some(num) && Canonical(s)
  {
    hide Numeral, ReadNumeral, Canonical;
    NumeralReads(num);
    if ReadNumeral(s) == Some(num) && Canonical(s) {
      OnlyNumeral(num, s);
    }
  }

  function Pow10(k: nat): nat {
    if k == 0 then 1 else 10 * Pow10(k - 1)
  }

  lemma {:induction false} DecimalLength(n: nat, k: nat)
    requires k > 0 && n < Pow10(k)
    ensures |Decimal(n)| <= k
  {
    if n >= 10 {
      assert k > 1;
      DecimalLength(n / 10, k - 1);
    }
  }

  lemma DigitsLength(num: int)
    requires INT64_MIN <= num <= UINT64_MAX
    ensures 0 < |Decimal(Magnitude(num))| <= if num < 0 then 19 else 20
  {
    assert Pow10(5) == 100000 && Pow10(10) == 10000000000;
    assert Pow10(15) == 1000000000000000;
    assert Pow10(18) == 1000000000000000000;
    assert Pow10(19) == 10 * Pow10(18) && Pow10(20) == 10 * Pow10(19);
    DecimalRoundTrip(Magnitude(num));
    DecimalLength(Magnitude(num), if num < 0 then 19 else 20);
  }

  /** Twenty characters suffice, sign included, so the terminator is well inside the 48. */
  lemma NumeralLength(num: int)
    requires INT64_MIN <= num <= UINT64_MAX
    ensures 0 < |Numeral(num)| <= 20 && |Numeral(num)| + 1 <= MAX_NUMERIC_SIZE
    ensures |Numeral(num)| == |Decimal(Magnitude(num))| + if num < 0 then 1 else 0
  {
    DigitsLength(num);
  }

  // ---------- reversing ----------

  function Reversed(s: string): (r: string)
    ensures |r| == |s|
    ensures forall i :: 0 <= i < |s| ==> r[i] == s[|s| - 1 - i]
  {
    seq(|s|, i requires 0 <= i < |s| => s[|s| - 1 - i])
  }

  lemma ReversedAppend(s: string, c: char)
    ensures Reversed(s + [c]) == [c] + Reversed(s)
    ensures Reversed(Reversed(s)) == s
  {
  }

  /** The range `first..last` of `before` is turned round in `after` outside `lo..hi`, the rest is
      as it was. */
  ghost predicate Swapped(before: seq<char>, after: seq<char>, first: nat, last: nat, lo: nat, hi: nat)
    requires first <= last <= |before| == |after|
  {
    && (forall k :: first <= k < last && !(lo <= k < hi) ==> after[k] == before[first + last - 1 - k])
    && (forall k :: 0 <= k < |after| && (k < first || k >= last || lo <= k < hi) ==> after[k] == before[k])
  }

  lemma AllSwapped(before: seq<char>, after: seq<char>, first: nat, last: nat, lo: nat, hi: nat)
    requires first <= lo <= hi <= last <= |before| == |after| && lo - first == last - hi && hi <= lo + 1
    requires Swapped(before, after, first, last, lo, hi)
    ensures after[first..last] == Reversed(before[first..last])
    ensures forall k :: 0 <= k < |after| && (k < first || k >= last) ==> after[k] == before[k]
  {
    var part, whole := before[first..last], after[first..last];
    forall i | 0 <= i < |part| ensures whole[i] == Reversed(part)[i] {
      var k := first + i;
      assert lo <= k < hi ==> k == first + last - 1 - k;
      assert after[k] == before[first + last - 1 - k];
      assert part[|part| - 1 - i] == before[first + last - 1 - k];
    }
  }

  lemma OneSwap(before: seq<char>, after: seq<char>, first: nat, last: nat, lo: nat, hi: nat)
    requires first <= lo && lo + 1 < hi && hi <= last <= |before| == |after| && lo - first == last - hi
    requires Swapped(before, after, first, last, lo, hi)
    ensures Swapped(before, after[lo := after[hi - 1]][hi - 1 := after[lo]], first, last, lo + 1, hi - 1)
  {
    var next := after[lo := after[hi - 1]][hi - 1 := after[lo]];
    assert after[lo] == before[lo] && after[hi - 1] == before[hi - 1];
    forall k | first <= k < last && !(lo + 1 <= k < hi - 1) ensures next[k] == before[first + last - 1 - k] {
      if k != lo && k != hi - 1 {
        assert next[k] == after[k];
      }
    }
  }

  /** `std::reverse` on part of an array. */
  method ReverseRange(data: array<char>, first: nat, last: nat)
    requires first <= last <= data.Length
    modifies data
    ensures data[first..last] == Reversed(old(data[first..last]))
    ensures forall k :: 0 <= k < data.Length && (k < first || k >= last) ==> data[k] == old(data[k])
  {
    var lo, hi := first, last;
    ghost var before := data[..];
    while lo < hi && lo < hi - 1
      invariant first <= lo <= hi <= last && lo - first == last - hi
      invariant Swapped(before, data[..], first, last, lo, hi)
    {
      hide Swapped;
      OneSwap(before, data[..], first, last, lo, hi);
      ghost var next := data[..][lo := data[hi - 1]][hi - 1 := data[lo]];
      hi := hi - 1;
      data[lo], data[hi] := data[hi], data[lo];
      assert data[..] == next;
      lo := lo + 1;
    }
    AllSwapped(before, data[..], first, last, lo, hi);
    hide Swapped;
    assert before[first..last] == old(data[first..last]) && data[..][first..last] == data[first..last];
  }

  // ---------- formatting in place ----------

  /** `*cur = c`, where the text so far is `data[start..i]`. */
  method Put(data: array<char>, start: nat, i: nat, c: char)
    requires start <= i < data.Length
    modifies data
    ensures data[start..i + 1] == old(data[start..i]) + [c]
    ensures forall k :: 0 <= k < data.Length && (k < start || k > i) ==> data[k] == old(data[k])
  {
    data[i] := c;
  }

  /** Digits of `num` from the last to the first; returns how many. */
  method WriteDigits(data: array<char>, start: nat, num: int) returns (len: nat)
    requires start + MAX_NUMERIC_SIZE <= data.Length && INT64_MIN <= num <= UINT64_MAX
    modifies data
    ensures len == |Decimal(Magnitude(num))| && start + len <= data.Length
    ensures data[start..start + len] == Reversed(Decimal(Magnitude(num)))
    ensures forall k :: 0 <= k < data.Length && (k < start || k >= start + len) ==> data[k] == old(data[k])
  {
    hide ZeroAt, TruncMod, TruncDiv, Magnitude, Reversed, Decimal, DigitChar, Partly;
    ghost var text, written := Decimal(Magnitude(num)), "";
    DigitsLength(num);
    NothingWritten(num);
    var n, more := num, true;
    len := 0;
    while more
      invariant len == |written| <= |text| <= 20 && data[start..start + len] == written
      invariant Partly(text, n, more, written)
      invariant forall k :: 0 <= k < data.Length && (k < start || k >= start + len) ==> data[k] == old(data[k])
      decreases more, Magnitude(n)
    {
      Advance(text, n, written);
      var c := ZeroAt(TruncMod(n, 10));
      n := TruncDiv(n, 10);
      more := n != 0;
      Put(data, start, start + len, c);
      written := written + [c];
      len := len + 1;
    }
    AllWritten(text, n, written);
  }

  /** The digits still to come, then those written, turned round. */
  ghost predicate Partly(text: string, n: int, more: bool, written: string) {
    text == (if more then Decimal(Magnitude(n)) else "") + Reversed(written)
  }

  lemma NothingWritten(num: int)
    ensures Partly(Decimal(Magnitude(num)), num, true, "")
  {
    assert Reversed("") == "";
  }

  lemma Advance(text: string, n: int, written: string)
    requires Partly(text, n, true, written)
    ensures -9 <= TruncMod(n, 10) <= 9
    ensures var left := TruncDiv(n, 10);
            && Partly(text, left, left != 0, written + [ZeroAt(TruncMod(n, 10))])
            && |written| < |text|
            && (left != 0 ==> Magnitude(left) < Magnitude(n))
  {
    hide ZeroAt, TruncMod, TruncDiv, Magnitude, Reversed, Decimal, DigitChar;
    OneDigit(n);
    Smaller(n);
    NextDigit(n, written, ZeroAt(TruncMod(n, 10)));
    DecimalRoundTrip(Magnitude(n));
  }

  lemma AllWritten(text: string, n: int, written: string)
    requires Partly(text, n, false, written)
    ensures written == Reversed(text)
  {
    ReversedAppend(written, ' ');
    assert text == Reversed(written);
  }

  lemma LastDigit(n: nat)
    ensures Decimal(n) == (if n / 10 == 0 then "" else Decimal(n / 10)) + [DigitChar(n % 10)]
  {
  }

  lemma NextDigit(n: int, before: string, c: char)
    requires c == DigitChar(Magnitude(n) % 10)
    ensures var left := TruncDiv(n, 10);
            Decimal(Magnitude(n)) + Reversed(before)
            == (if left == 0 then "" else Decimal(Magnitude(left))) + Reversed(before + [c])
  {
    hide TruncMod, TruncDiv, Magnitude, Reversed, Decimal, DigitChar;
    OneDigit(n);
    Smaller(n);
    LastDigit(Magnitude(n));
    ReversedAppend(before, c);
  }

  lemma Smaller(n: int)
    ensures n != 0 ==> Magnitude(TruncDiv(n, 10)) < Magnitude(n)
    ensures TruncDiv(n, 10) == 0 <==> Magnitude(n) / 10 == 0
    ensures Magnitude(TruncDiv(n, 10)) == 0 <==> TruncDiv(n, 10) == 0
  {
  }

  /** The digits backwards, the sign behind them, a NUL, and the text turned round. */
  method WriteNumeral(data: array<char>, start: nat, num: int) returns (len: nat)
    requires start + MAX_NUMERIC_SIZE <= data.Length && INT64_MIN <= num <= UINT64_MAX
    modifies data
    ensures len == |Numeral(num)| && len + 1 <= MAX_NUMERIC_SIZE
    ensures data[start..start + len] == Numeral(num) && data[start + len] == '\0'
    ensures forall k :: 0 <= k < data.Length && (k < start || k > start + len) ==> data[k] == old(data[k])
  {
    hide Magnitude, Reversed, Decimal, Numeral;
    NumeralLength(num);
    Backwards(num);
    len := WriteDigits(data, start, num);
    if num < 0 {
      Put(data, start, start + len, '-');
      len := len + 1;
    }
    ghost var backwards := data[start..start + len];
    assert Reversed(backwards) == Numeral(num);
    Put(data, start, start + len, '\0');
    assert data[start..start + len + 1][..len] == backwards;
    assert data[start..start + len] == backwards;
    assert data[start + len] == data[start..start + len + 1][len];
    ReverseRange(data, start, start + len);
  }

  lemma Backwards(num: int)
    ensures var digits := Reversed(Decimal(Magnitude(num)));
            Reversed(if num < 0 then digits + ['-'] else digits) == Numeral(num)
  {
    var text := Decimal(Magnitude(num));
    ReversedAppend(text, ' ');
    ReversedAppend(Reversed(text), '-');
    assert "" + text == text;
  }

  // ---------- the object ----------

  class LogStream {
    const data: array<char>
    /** The buffer's `cur_`. */
    var cur: nat

    ghost predicate Valid()
      reads this
    {
      data.Length == SMALL_BUFFER && cur <= data.Length
    }

    constructor ()
      ensures Valid() && fresh(data) && cur == 0
    {
      data := new char[SMALL_BUFFER];
      cur := 0;
    }

    predicate HasRoom()
      requires Valid()
      reads this
    {
      data.Length - cur >= MAX_NUMERIC_SIZE
    }

    function Contents(): string
      requires Valid()
      reads this, data
    {
      data[..cur]
    }

    /** The numeral is appended and a NUL put behind it, if 48 bytes are free; otherwise nothing
        happens. */
    method FormatInteger(num: int)
      requires Valid() && INT64_MIN <= num <= UINT64_MAX
      modifies this`cur, data
      ensures Valid()
      ensures old(cur) + 48 > 4000 ==> cur == old(cur) && data[..] == old(data[..])
      ensures old(cur) + 48 <= 4000 ==>
                && Contents() == old(Contents()) + Numeral(num)
                && cur + 1 <= old(cur) + MAX_NUMERIC_SIZE && data[cur] == '\0'
                && forall k :: cur < k < data.Length ==> data[k] == old(data[k])
    {
      if HasRoom() {
        hide Numeral;
        var len := WriteNumeral(data, cur, num);
        assert data[..cur + len] == data[..cur] + data[cur..cur + len];
        cur := cur + len;
      }
    }
  }
}
