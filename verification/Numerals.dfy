/** Decimal numerals, and what `strtoull` makes of a header value. */
module Numerals {
  import opened Text

  const TWO_64: nat := 0x1_0000_0000_0000_0000

  predicate IsDigit(c: char) {
    '0' <= c <= '9'
  }

  predicate AllDigits(s: string) {
    forall i :: 0 <= i < |s| ==> IsDigit(s[i])
  }

  function DigitChar(d: nat): (c: char)
    requires d < 10
    ensures IsDigit(c) && DigitValue(c) == d
  {
    '0' + d as char
  }

  function DigitValue(c: char): (d: nat)
    requires IsDigit(c)
    ensures d < 10
  {
    (c - '0') as nat
  }

  /** The number a string of decimal digits denotes. */
  function NatOf(s: string): nat
    requires AllDigits(s)
  {
    if s == "" then 0 else NatOf(s[..|s| - 1]) * 10 + DigitValue(s[|s| - 1])
  }

  /** The canonical numeral: no leading zero except for zero itself. */
  function Decimal(n: nat): string {
    if n < 10 then [DigitChar(n)] else Decimal(n / 10) + [DigitChar(n % 10)]
  }

  lemma {:induction false} DecimalRoundTrip(n: nat)
    ensures Decimal(n) != "" && AllDigits(Decimal(n))
    ensures NatOf(Decimal(n)) == n
    ensures Decimal(n)[0] == '0' ==> n == 0
  {
    var s := Decimal(n);
    if n >= 10 {
      DecimalRoundTrip(n / 10);
      assert s[..|s| - 1] == Decimal(n / 10);
    } else {
      assert s[..|s| - 1] == "";
    }
  }

  /** Two numerals without superfluous zeros that denote the same number are the same text. */
  lemma {:induction false} DecimalUnique(s: string)
    requires s != "" && AllDigits(s) && (s[0] == '0' ==> |s| == 1)
    ensures s == Decimal(NatOf(s))
  {
    var front := s[..|s| - 1];
    if front == "" {
      assert NatOf(front) == 0;
      assert NatOf(s) == DigitValue(s[0]);
      assert s == [DigitChar(DigitValue(s[0]))];
    } else {
      DecimalUnique(front);
      DecimalRoundTrip(NatOf(front));
      assert Decimal(0) == "0";
      assert NatOf(front) > 0;
      var last := s[|s| - 1];
      assert NatOf(s) / 10 == NatOf(front) && NatOf(s) % 10 == DigitValue(last);
      assert DigitChar(DigitValue(last)) == last;
      assert s == front + [last];
    }
  }

  // ---------- strtoull ----------

  /** What `c_str()` shows a C function: the text up to the first NUL. */
  function CString(s: string): string {
    if s == "" || s[0] == 0 as char then "" else [s[0]] + CString(s[1..])
  }

  predicate IsSign(c: char) {
    c == '+' || c == '-'
  }

  /** `strtoull(value, &end, 10)` on the whole C string: leading white space and one sign are
      accepted, a minus sign negates modulo 2^64, and the result is `None` when there is no
      digit, when anything follows the digits, or when the magnitude overflows. */
  function Strtoull(value: string): (r: Option<nat>)
    ensures r.Some? ==> r.value < TWO_64
  {
    var t := DropLeading(CString(value), IsSpace);
    var digits := if t != "" && IsSign(t[0]) then t[1..] else t;
    if digits == "" || !AllDigits(digits) || NatOf(digits) >= TWO_64 then None
    else if t[0] == '-' && NatOf(digits) != 0 then Some(TWO_64 - NatOf(digits))
    else Some(NatOf(digits))
  }

  lemma {:induction false} CStringOf(s: string)
    requires 0 as char !in s
    ensures CString(s) == s
  {
    if s != "" {
      CStringOf(s[1..]);
    }
  }

  /** A printed length is read back. */
  lemma StrtoullDecimal(n: nat)
    requires n < TWO_64
    ensures Strtoull(Decimal(n)) == Some(n)
  {
    DecimalRoundTrip(n);
    CStringOf(Decimal(n));
    assert IsDigit(Decimal(n)[0]);
  }

  /** The text is `blanks` `sign` `digits` up to its first NUL. */
  ghost predicate Spelled(value: string, blanks: string, sign: string, digits: string) {
    && CString(value) == blanks + sign + digits
    && (forall i :: 0 <= i < |blanks| ==> IsSpace(blanks[i]))
    && (sign == "" || sign == "+" || sign == "-")
    && digits != "" && AllDigits(digits)
  }

  lemma {:induction false} CStringMeaning(s: string)
    ensures CString(s) <= s && 0 as char !in CString(s)
    ensures CString(s) == s || s[|CString(s)|] == 0 as char
  {
    if s != "" && s[0] != 0 as char {
      CStringMeaning(s[1..]);
      assert s == [s[0]] + s[1..];
    }
  }

  lemma {:induction false} BlanksDropped(blanks: string, rest: string)
    requires forall i :: 0 <= i < |blanks| ==> IsSpace(blanks[i])
    requires rest == "" || !IsSpace(rest[0])
    ensures DropLeading(blanks + rest, IsSpace) == rest
  {
    if blanks == "" {
      assert blanks + rest == rest;
    } else {
      BlanksDropped(blanks[1..], rest);
      assert (blanks + rest)[1..] == blanks[1..] + rest;
    }
  }

  /** What a spelled number denotes: a minus sign counts back from 2^64. */
  function Denoted(sign: string, magnitude: nat): nat {
    if sign == "-" && 0 < magnitude < TWO_64 then TWO_64 - magnitude else magnitude
  }

  lemma SpelledIsRead(value: string, blanks: string, sign: string, digits: string)
    requires Spelled(value, blanks, sign, digits)
    ensures Strtoull(value) == if NatOf(digits) < TWO_64 then Some(Denoted(sign, NatOf(digits))) else None
  {
    hide CString, DropLeading, NatOf;
    var rest := sign + digits;
    assert IsDigit(digits[0]) && !IsSpace(rest[0]);
    assert blanks + sign + digits == blanks + rest;
    BlanksDropped(blanks, rest);
    if sign == "" {
      assert rest == digits;
    } else {
      assert rest[1..] == digits;
    }
  }

  lemma ReadIsSpelled(value: string) returns (blanks: string, sign: string, digits: string)
    requires Strtoull(value).Some?
    ensures Spelled(value, blanks, sign, digits)
  {
    hide CString, DropLeading, NatOf;
    var s := CString(value);
    var i := DropLeadingMeaning(s, IsSpace);
    blanks := s[..i];
    var t := s[i..];
    assert s == blanks + t;
    if IsSign(t[0]) {
      sign, digits := [t[0]], t[1..];
      assert blanks + sign + digits == blanks + t;
    } else {
      sign, digits := "", t;
      assert blanks + sign + digits == blanks + t;
    }
  }

  /** Exactly which texts `strtoull` takes as a number up to `limit`: those that spell one up to the
      limit, and, with a minus sign, zero and the numbers within `limit` of 2^64. */
  lemma AcceptedUpTo(value: string, limit: nat)
    requires limit < TWO_64
    ensures Strtoull(value).Some? && Strtoull(value).value <= limit <==>
            exists blanks, sign, digits ::
              && Spelled(value, blanks, sign, digits)
              && if sign == "-" then NatOf(digits) == 0 || TWO_64 - limit <= NatOf(digits) < TWO_64
                 else NatOf(digits) <= limit
  {
    hide Strtoull;
    if Strtoull(value).Some? {
      var blanks, sign, digits := ReadIsSpelled(value);
      SpelledIsRead(value, blanks, sign, digits);
    }
    forall blanks, sign, digits | Spelled(value, blanks, sign, digits)
      ensures Strtoull(value) == if NatOf(digits) < TWO_64 then Some(Denoted(sign, NatOf(digits))) else None
    {
      SpelledIsRead(value, blanks, sign, digits);
    }
  }

  lemma NatOfOne(s: string, c: char)
    requires AllDigits(s) && IsDigit(c)
    ensures AllDigits(s + [c]) && NatOf(s + [c]) == NatOf(s) * 10 + DigitValue(c)
  {
    assert (s + [c])[..|s|] == s;
  }

  lemma NatOfFive(s: string, a: char, b: char, c: char, d: char, e: char)
    requires AllDigits(s) && IsDigit(a) && IsDigit(b) && IsDigit(c) && IsDigit(d) && IsDigit(e)
    ensures AllDigits(s + [a, b, c, d, e])
    ensures NatOf(s + [a, b, c, d, e])
         == NatOf(s) * 100000 + DigitValue(a) * 10000 + DigitValue(b) * 1000 + DigitValue(c) * 100
            + DigitValue(d) * 10 + DigitValue(e)
  {
    hide NatOf;
    NatOfOne(s, a);
    NatOfOne(s + [a], b);
    NatOfOne(s + [a] + [b], c);
    NatOfOne(s + [a] + [b] + [c], d);
    NatOfOne(s + [a] + [b] + [c] + [d], e);
    assert s + [a] + [b] + [c] + [d] + [e] == s + [a, b, c, d, e];
  }

  const WRAPPING := "-18446744073709551615"

  lemma FrontHalf()
    ensures AllDigits("1844674407") && NatOf("1844674407") == 1844674407
  {
    NothingIsZero();
    hide NatOf;
    NatOfFive("", '1', '8', '4', '4', '6');
    assert "" + ['1', '8', '4', '4', '6'] == "18446";
    NatOfFive("18446", '7', '4', '4', '0', '7');
    assert "18446" + ['7', '4', '4', '0', '7'] == "1844674407";
  }

  lemma BothHalves()
    ensures AllDigits("18446744073709551615") && NatOf("18446744073709551615") == TWO_64 - 1
  {
    FrontHalf();
    hide NatOf;
    NatOfFive("1844674407", '3', '7', '0', '9', '5');
    assert "1844674407" + ['3', '7', '0', '9', '5'] == "184467440737095";
    NatOfFive("184467440737095", '5', '1', '6', '1', '5');
    assert "184467440737095" + ['5', '1', '6', '1', '5'] == "18446744073709551615";
  }

  /** A length of one can be spelled with a minus sign in front of 2^64 - 1. */
  lemma MinusWraps()
    ensures Strtoull(WRAPPING) == Some(1)
  {
    hide NatOf, Strtoull;
    BothHalves();
    var digits := "18446744073709551615";
    MinusForm(digits);
    assert WRAPPING == "-" + digits;
    SpelledIsRead("-" + digits, "", "-", digits);
  }

  lemma MinusForm(digits: string)
    requires digits != "" && AllDigits(digits)
    ensures Spelled("-" + digits, "", "-", digits)
  {
    CStringOf("-" + digits);
    assert "-" + digits == "" + "-" + digits;
  }

  lemma NothingIsZero()
    ensures NatOf("") == 0
  {
  }
}
