/** The UTF codec of the vendored file system header (end2end/include/filesystem.hpp): a table
    driven decoder and a branching encoder, against RFC 3629 section 4 and RFC 2781 section 2. */
module Utf {

  /** A byte, widened to the 32-bit word the codec computes in. */
  type Byte = b: bv32 | b < 256

  type Bytes = seq<Byte>

  const REJECT: bv32 := 8
  const REPLACEMENT: bv32 := 0xfffd

  // ---------- the decoder's step ----------

  /** The packed table: eight 4-bit entries per word; 16 words of byte categories, then one word of
      successor states per category. */
  function StateInfo(i: bv32): bv32 {
    if i < 2 then 0x11111111
    else if i < 4 then 0x77777777
    else if i < 8 then 0x88888888
    else if i == 8 then 0x22222299
    else if i < 12 then 0x22222222
    else if i == 12 then 0x3333333a
    else if i == 13 then 0x33433333
    else if i == 14 then 0x9995666b
    else if i == 15 then 0x99999999
    else if i == 16 then 0x88888880
    else if i == 17 then 0x22818108
    else if i == 18 then 0x88888881
    else if i == 19 then 0x88888882
    else if i == 20 then 0x88888884
    else if i == 21 then 0x88888887
    else if i == 22 then 0x88888886
    else if i == 23 then 0x82218108
    else if i == 24 then 0x82281108
    else if i == 25 then 0x88888888
    else if i == 26 then 0x88888883
    else if i == 27 then 0x88888885
    else 0
  }

  function Category(fragment: Byte): (category: bv32)
    ensures category < 16
  {
    if fragment < 128 then 0 else (StateInfo((fragment >> 3) & 0xf) >> ((fragment & 7) << 2)) & 0xf
  }

  function NextState(state: bv32, fragment: Byte): bv32
    requires state <= REJECT
  {
    if state == REJECT then REJECT
    else (StateInfo(Category(fragment) + 16) >> (state << 2)) & 0xf
  }

  function NextCodepoint(state: bv32, fragment: Byte, codepoint: bv32): bv32 {
    if state != 0 then (codepoint << 6) | (fragment & 0x3f)
    else (0xff >> Category(fragment)) & fragment
  }

  // ---------- RFC 3629 ----------

  predicate In(b: bv32, lo: bv32, hi: bv32) {
    lo <= b && b <= hi
  }

  predicate Tail(b: bv32) {
    In(b, 0x80, 0xbf)
  }

  /** UTF8-char = UTF8-1 / UTF8-2 / UTF8-3 / UTF8-4 */
  predicate Utf8Char(c: Bytes) {
    || (|c| == 1 && In(c[0], 0, 0x7f))
    || (|c| == 2 && In(c[0], 0xc2, 0xdf) && Tail(c[1]))
    || (|c| == 3 && Tail(c[2])
        && (|| (c[0] == 0xe0 && In(c[1], 0xa0, 0xbf))
            || (In(c[0], 0xe1, 0xec) && Tail(c[1]))
            || (c[0] == 0xed && In(c[1], 0x80, 0x9f))
            || (In(c[0], 0xee, 0xef) && Tail(c[1]))))
    || (|c| == 4 && Tail(c[2]) && Tail(c[3])
        && (|| (c[0] == 0xf0 && In(c[1], 0x90, 0xbf))
            || (In(c[0], 0xf1, 0xf3) && Tail(c[1]))
            || (c[0] == 0xf4 && In(c[1], 0x80, 0x8f))))
  }

  /** UTF8-octets = *( UTF8-char ) */
  ghost predicate WellFormed(s: Bytes) {
    s == [] || exists n :: 1 <= n <= |s| && Utf8Char(s[..n]) && WellFormed(s[n..])
  }

  /** A Unicode scalar value. */
  predicate Scalar(c: bv32) {
    c <= 0xd7ff || (0xe000 <= c && c <= 0x10ffff)
  }

  lemma CategoryMeaning(b: Byte)
    ensures Category(b) ==
            if b < 0x80 then 0
            else if b < 0x90 then 1
            else if b < 0xa0 then 7
            else if b < 0xc0 then 8
            else if b < 0xc2 then 9
            else if b < 0xe0 then 2
            else if b == 0xe0 then 10
            else if b == 0xed then 4
            else if b < 0xf0 then 3
            else if b == 0xf0 then 11
            else if b < 0xf4 then 6
            else if b == 0xf4 then 5
            else 9
  {
  }

  /** The automaton: state 1, 2, 6 wait for one, two, three tails; 3, 4, 5, 7 stand behind E0, ED,
      F0 and F4, whose second byte is restricted. */
  lemma NextStateMeaning(state: bv32, b: Byte)
    requires state < REJECT
    ensures NextState(state, b) ==
            if state == 0 then
              if b < 0x80 then 0
              else if b < 0xc2 then REJECT
              else if b < 0xe0 then 1
              else if b == 0xe0 then 3
              else if b == 0xed then 4
              else if b < 0xf0 then 2
              else if b == 0xf0 then 5
              else if b < 0xf4 then 6
              else if b == 0xf4 then 7
              else REJECT
            else if state == 1 && Tail(b) then 0
            else if state == 2 && Tail(b) then 1
            else if state == 3 && In(b, 0xa0, 0xbf) then 1
            else if state == 4 && In(b, 0x80, 0x9f) then 1
            else if state == 5 && In(b, 0x90, 0xbf) then 2
            else if state == 6 && Tail(b) then 2
            else if state == 7 && In(b, 0x80, 0x8f) then 2
            else REJECT
  {
    CategoryMeaning(b);
    hide Category;
  }

  /** The automaton on a whole string. */
  predicate Accepts(state: bv32, s: Bytes)
    requires state <= REJECT
    decreases |s|
  {
    if s == [] then state == 0
    else
      var next := NextState(state, s[0]);
      StateInRange(state, s[0]);
      next != REJECT && Accepts(next, s[1..])
  }

  lemma StateInRange(state: bv32, b: Byte)
    requires state <= REJECT
    ensures NextState(state, b) <= REJECT
  {
    if state < REJECT {
      NextStateMeaning(state, b);
    }
  }

  /** What each state still expects. */
  ghost predicate Expects(state: bv32, s: Bytes)
    decreases |s|
  {
    if state == 0 then WellFormed(s)
    else
      && s != []
      && match state {
        case 1 => Tail(s[0]) && WellFormed(s[1..])
        case 2 => Tail(s[0]) && Expects(1, s[1..])
        case 3 => In(s[0], 0xa0, 0xbf) && Expects(1, s[1..])
        case 4 => In(s[0], 0x80, 0x9f) && Expects(1, s[1..])
        case 5 => In(s[0], 0x90, 0xbf) && Expects(2, s[1..])
        case 6 => Tail(s[0]) && Expects(2, s[1..])
        case 7 => In(s[0], 0x80, 0x8f) && Expects(2, s[1..])
        case _ => false
      }
  }

  /** The state behind the first byte of a character of `n` bytes. */
  predicate AfterFirst(state: bv32, n: nat) {
    match n
    case 1 => state == 0
    case 2 => state == 1
    case 3 => state == 2 || state == 3 || state == 4
    case 4 => state == 5 || state == 6 || state == 7
    case _ => false
  }

  lemma ShortChar(s: Bytes, n: nat)
    requires 1 <= n <= 2 && n <= |s|
    ensures Utf8Char(s[..n]) && WellFormed(s[n..]) <==>
            AfterFirst(NextState(0, s[0]), n) && Expects(NextState(0, s[0]), s[1..])
  {
    NextStateMeaning(0, s[0]);
    hide NextState;
    assert n == 2 ==> s[1..][1..] == s[2..];
  }

  /** The second byte a state behind the first one of a long character waits for. */
  predicate Second(state: bv32, b: bv32) {
    match state
    case 2 => Tail(b)
    case 3 => In(b, 0xa0, 0xbf)
    case 4 => In(b, 0x80, 0x9f)
    case 5 => In(b, 0x90, 0xbf)
    case 6 => Tail(b)
    case 7 => In(b, 0x80, 0x8f)
    case _ => false
  }

  lemma LongByState(c: Bytes)
    requires |c| == 3 || |c| == 4
    ensures var state := NextState(0, c[0]);
            Utf8Char(c) <==> AfterFirst(state, |c|) && Second(state, c[1]) && Tail(c[2]) && (|c| == 4 ==> Tail(c[3]))
  {
    NextStateMeaning(0, c[0]);
    hide NextState;
  }

  lemma ExpectsThree(state: bv32, t: Bytes)
    requires AfterFirst(state, 3) && |t| >= 2
    ensures Expects(state, t) <==> Second(state, t[0]) && Tail(t[1]) && WellFormed(t[2..])
  {
    hide In, Tail;
    assert t[1..][0] == t[1] && t[1..][1..] == t[2..];
    assert Expects(1, t[1..]) <==> Tail(t[1]) && WellFormed(t[2..]);
  }

  lemma ExpectsFour(state: bv32, t: Bytes)
    requires AfterFirst(state, 4) && |t| >= 3
    ensures Expects(state, t) <==> Second(state, t[0]) && Tail(t[1]) && Tail(t[2]) && WellFormed(t[3..])
  {
    hide In, Tail;
    ExpectsThree(2, t[1..]);
    assert t[1..][0] == t[1] && t[1..][1] == t[2] && t[1..][2..] == t[3..];
  }

  lemma LongChar(s: Bytes, n: nat)
    requires 3 <= n <= 4 && n <= |s|
    ensures Utf8Char(s[..n]) && WellFormed(s[n..]) <==>
            AfterFirst(NextState(0, s[0]), n) && Expects(NextState(0, s[0]), s[1..])
  {
    hide NextState, Utf8Char, WellFormed, Expects, Second, Tail, AfterFirst;
    LongByState(s[..n]);
    var state, t := NextState(0, s[0]), s[1..];
    assert t[n - 1..] == s[n..] && t[0] == s[1] && t[1] == s[2];
    if AfterFirst(state, n) {
      if n == 3 {
        ExpectsThree(state, t);
      } else {
        assert t[2] == s[3];
        ExpectsFour(state, t);
      }
    }
  }

  lemma ExpectsLength(state: bv32, s: Bytes, n: nat)
    requires AfterFirst(state, n) && Expects(state, s)
    ensures n - 1 <= |s|
  {
    if n == 3 {
      assert Expects(1, s[1..]);
    } else if n == 4 {
      assert Expects(2, s[1..]) && Expects(1, s[1..][1..]);
    }
  }

  /** A well-formed string by its first byte. */
  lemma WellFormedByFirst(s: Bytes)
    requires s != []
    ensures WellFormed(s) <==> NextState(0, s[0]) != REJECT && Expects(NextState(0, s[0]), s[1..])
  {
    NextStateMeaning(0, s[0]);
    hide NextState, Expects;
    var state := NextState(0, s[0]);
    forall n | 1 <= n <= |s|
      ensures Utf8Char(s[..n]) && WellFormed(s[n..]) <==> AfterFirst(state, n) && Expects(state, s[1..])
    {
      if n <= 2 {
        ShortChar(s, n);
      } else if n <= 4 {
        LongChar(s, n);
      }
    }
    if state != REJECT && Expects(state, s[1..]) {
      var n := if state == 0 then 1 else if state == 1 then 2 else if state <= 4 then 3 else 4;
      ExpectsLength(state, s[1..], n);
      assert Utf8Char(s[..n]) && WellFormed(s[n..]);
    }
  }

  lemma {:induction false} AcceptsMeaning(state: bv32, s: Bytes)
    requires state < REJECT
    ensures Accepts(state, s) <==> Expects(state, s)
    decreases |s|
  {
    hide NextState;
    if s != [] {
      NextStateMeaning(state, s[0]);
      StateInRange(state, s[0]);
      if NextState(state, s[0]) != REJECT {
        AcceptsMeaning(NextState(state, s[0]), s[1..]);
      }
      if state == 0 {
        WellFormedByFirst(s);
      }
    }
  }

  // ---------- the encoder ----------

  /** The code point the encoder writes: an invalid one is replaced. */
  function Sanitized(c: bv32): bv32 {
    if Scalar(c) then c else REPLACEMENT
  }

  function Encode(c: bv32): Bytes
    decreases !Scalar(c)
  {
    if c <= 0x7f then [c]
    else if 0x80 <= c && c <= 0x7ff then [(c >> 6) + 192, (c & 0x3f) + 128]
    else if (0x800 <= c && c <= 0xd7ff) || (0xe000 <= c && c <= 0xffff) then
      [(c >> 12) + 224, ((c & 0xfff) >> 6) + 128, (c & 0x3f) + 128]
    else if 0x10000 <= c && c <= 0x10ffff then
      [(c >> 18) + 240, ((c & 0x3ffff) >> 12) + 128, ((c & 0xfff) >> 6) + 128, (c & 0x3f) + 128]
    else Encode(REPLACEMENT)
  }

  function EncodeAll(cs: seq<bv32>): Bytes {
    if cs == [] then [] else Encode(cs[0]) + EncodeAll(cs[1..])
  }

  // ---------- characters and scalar values ----------

  function Two(b0: bv32, b1: bv32): bv32 {
    ((b0 & 0x1f) << 6) | (b1 & 0x3f)
  }

  function Three(b0: bv32, b1: bv32, b2: bv32): bv32 {
    ((b0 & 0xf) << 12) | ((b1 & 0x3f) << 6) | (b2 & 0x3f)
  }

  function Four(b0: bv32, b1: bv32, b2: bv32, b3: bv32): bv32 {
    ((b0 & 7) << 18) | ((b1 & 0x3f) << 12) | ((b2 & 0x3f) << 6) | (b3 & 0x3f)
  }

  /** The code point a character stands for. */
  function CodepointOf(c: Bytes): bv32
    requires Utf8Char(c)
  {
    if |c| == 1 then c[0]
    else if |c| == 2 then Two(c[0], c[1])
    else if |c| == 3 then Three(c[0], c[1], c[2])
    else Four(c[0], c[1], c[2], c[3])
  }

  lemma TwoBits(c: bv32)
    requires 0x80 <= c && c <= 0x7ff
    ensures var b0, b1 := (c >> 6) + 192, (c & 0x3f) + 128;
            Two(b0, b1) == c && In(b0, 0xc2, 0xdf) && Tail(b1)
  {
  }

  lemma ThreeBits(c: bv32)
    requires 0x800 <= c && c <= 0xffff
    ensures var b0, b1, b2 := (c >> 12) + 224, ((c & 0xfff) >> 6) + 128, (c & 0x3f) + 128;
            && Three(b0, b1, b2) == c
            && In(b0, 0xe0, 0xef) && Tail(b1) && Tail(b2)
            && (b0 == 0xe0 ==> 0xa0 <= b1)
            && (!In(c, 0xd800, 0xdfff) && b0 == 0xed ==> b1 <= 0x9f)
  {
  }

  lemma FourBits(c: bv32)
    requires 0x10000 <= c && c <= 0x10ffff
    ensures var b0, b1, b2, b3 :=
              (c >> 18) + 240, ((c & 0x3ffff) >> 12) + 128, ((c & 0xfff) >> 6) + 128, (c & 0x3f) + 128;
            && Four(b0, b1, b2, b3) == c
            && In(b0, 0xf0, 0xf4) && Tail(b1) && Tail(b2) && Tail(b3)
            && (b0 == 0xf0 ==> 0x90 <= b1) && (b0 == 0xf4 ==> b1 <= 0x8f)
  {
  }

  lemma ScalarShort(c: bv32)
    requires c <= 0x7ff
    ensures Utf8Char(Encode(c)) && CodepointOf(Encode(c)) == c
  {
    hide Two;
    if 0x80 <= c {
      TwoBits(c);
    }
  }

  lemma ScalarThree(c: bv32)
    requires Scalar(c) && 0x800 <= c && c <= 0xffff
    ensures Utf8Char(Encode(c)) && CodepointOf(Encode(c)) == c
  {
    hide Three;
    ThreeBits(c);
    var b0, b1, b2 := (c >> 12) + 224, ((c & 0xfff) >> 6) + 128, (c & 0x3f) + 128;
    assert Encode(c) == [b0, b1, b2];
    ThreeChar(b0, b1, b2);
  }

  lemma ThreeChar(b0: Byte, b1: Byte, b2: Byte)
    requires In(b0, 0xe0, 0xef) && Tail(b1) && Tail(b2) && (b0 == 0xe0 ==> 0xa0 <= b1) && (b0 == 0xed ==> b1 <= 0x9f)
    ensures Utf8Char([b0, b1, b2])
  {
  }

  lemma ScalarFour(c: bv32)
    requires 0x10000 <= c && c <= 0x10ffff
    ensures Utf8Char(Encode(c)) && CodepointOf(Encode(c)) == c
  {
    hide Four;
    FourBits(c);
    var b0, b1, b2, b3 :=
      (c >> 18) + 240, ((c & 0x3ffff) >> 12) + 128, ((c & 0xfff) >> 6) + 128, (c & 0x3f) + 128;
    assert Encode(c) == [b0, b1, b2, b3];
    FourChar(b0, b1, b2, b3);
  }

  lemma FourChar(b0: Byte, b1: Byte, b2: Byte, b3: Byte)
    requires In(b0, 0xf0, 0xf4) && Tail(b1) && Tail(b2) && Tail(b3)
    requires (b0 == 0xf0 ==> 0x90 <= b1) && (b0 == 0xf4 ==> b1 <= 0x8f)
    ensures Utf8Char([b0, b1, b2, b3])
  {
  }

  /** Encoding a scalar value yields a well-formed character that stands for it. */
  lemma ScalarRoundTrip(c: bv32)
    requires Scalar(c)
    ensures Utf8Char(Encode(c)) && CodepointOf(Encode(c)) == c
  {
    if c <= 0x7ff {
      ScalarShort(c);
    } else if c <= 0xffff {
      ScalarThree(c);
    } else {
      ScalarFour(c);
    }
  }

  lemma ThreeBytes(b0: bv32, b1: bv32, b2: bv32)
    requires In(b0, 0xe0, 0xef) && Tail(b1) && Tail(b2) && (b0 == 0xe0 ==> 0xa0 <= b1) && (b0 == 0xed ==> b1 <= 0x9f)
    ensures var c := Three(b0, b1, b2);
            && 0x800 <= c && c <= 0xffff && !In(c, 0xd800, 0xdfff)
            && (c >> 12) + 224 == b0 && ((c & 0xfff) >> 6) + 128 == b1 && (c & 0x3f) + 128 == b2
  {
  }

  lemma FourBytes(b0: bv32, b1: bv32, b2: bv32, b3: bv32)
    requires In(b0, 0xf0, 0xf4) && Tail(b1) && Tail(b2) && Tail(b3)
    requires (b0 == 0xf0 ==> 0x90 <= b1) && (b0 == 0xf4 ==> b1 <= 0x8f)
    ensures var c := Four(b0, b1, b2, b3);
            && 0x10000 <= c && c <= 0x10ffff
            && (c >> 18) + 240 == b0 && ((c & 0x3ffff) >> 12) + 128 == b1
            && ((c & 0xfff) >> 6) + 128 == b2 && (c & 0x3f) + 128 == b3
  {
  }

  lemma TwoBytes(b0: bv32, b1: bv32)
    requires In(b0, 0xc2, 0xdf) && Tail(b1)
    ensures var c := Two(b0, b1);
            0x80 <= c && c <= 0x7ff && (c >> 6) + 192 == b0 && (c & 0x3f) + 128 == b1
  {
  }

  lemma EncodeThree(c: bv32, b0: Byte, b1: Byte, b2: Byte)
    requires 0x800 <= c && c <= 0xffff && !In(c, 0xd800, 0xdfff)
    requires (c >> 12) + 224 == b0 && ((c & 0xfff) >> 6) + 128 == b1 && (c & 0x3f) + 128 == b2
    ensures Scalar(c) && Encode(c) == [b0, b1, b2]
  {
  }

  lemma EncodeFour(c: bv32, b0: Byte, b1: Byte, b2: Byte, b3: Byte)
    requires 0x10000 <= c && c <= 0x10ffff
    requires (c >> 18) + 240 == b0 && ((c & 0x3ffff) >> 12) + 128 == b1
    requires ((c & 0xfff) >> 6) + 128 == b2 && (c & 0x3f) + 128 == b3
    ensures Scalar(c) && Encode(c) == [b0, b1, b2, b3]
  {
  }

  lemma LongCharRoundTrip(c: Bytes)
    requires Utf8Char(c) && |c| >= 3
    ensures Scalar(CodepointOf(c)) && Encode(CodepointOf(c)) == c
  {
    hide Three, Four, Encode;
    if |c| == 3 {
      ThreeBytes(c[0], c[1], c[2]);
      EncodeThree(Three(c[0], c[1], c[2]), c[0], c[1], c[2]);
    } else {
      FourBytes(c[0], c[1], c[2], c[3]);
      EncodeFour(Four(c[0], c[1], c[2], c[3]), c[0], c[1], c[2], c[3]);
    }
  }

  /** A well-formed character is the encoding of the scalar value it stands for. */
  lemma CharRoundTrip(c: Bytes)
    requires Utf8Char(c)
    ensures Scalar(CodepointOf(c)) && Encode(CodepointOf(c)) == c
  {
    hide Two;
    if |c| == 2 {
      TwoBytes(c[0], c[1]);
    } else if |c| >= 3 {
      LongCharRoundTrip(c);
    }
  }

  // ---------- the decoder ----------

  /** Decoding from a state with `codepoint` bits collected: an invalid byte is replaced and
      decoding starts over behind it, an unfinished character at the end is replaced. */
  function DecodeFrom(state: bv32, codepoint: bv32, s: Bytes): seq<bv32>
    requires state < REJECT
    decreases |s|
  {
    if s == [] then if state != 0 then [REPLACEMENT] else []
    else
      var next := NextState(state, s[0]);
      StateInRange(state, s[0]);
      var cp := NextCodepoint(state, s[0], codepoint);
      if next == 0 then [cp] + DecodeFrom(0, 0, s[1..])
      else if next == REJECT then [REPLACEMENT] + DecodeFrom(0, 0, s[1..])
      else DecodeFrom(next, cp, s[1..])
  }

  function Decode(s: Bytes): seq<bv32> {
    DecodeFrom(0, 0, s)
  }

  lemma FirstPayload(b: Byte)
    ensures b < 0x80 ==> NextCodepoint(0, b, 0) == b
    ensures In(b, 0xc2, 0xdf) ==> NextCodepoint(0, b, 0) == b & 0x1f
    ensures In(b, 0xe0, 0xef) ==> NextCodepoint(0, b, 0) == b & 0xf
    ensures In(b, 0xf0, 0xf4) ==> NextCodepoint(0, b, 0) == b & 7
  {
    CategoryMeaning(b);
    hide Category;
  }

  lemma DecodeStep(state: bv32, codepoint: bv32, b: Byte, rest: Bytes)
    requires state < REJECT
    ensures NextState(state, b) <= REJECT
    ensures var next, cp := NextState(state, b), NextCodepoint(state, b, codepoint);
            DecodeFrom(state, codepoint, [b] + rest)
            == if next == 0 then [cp] + DecodeFrom(0, 0, rest)
               else if next == REJECT then [REPLACEMENT] + DecodeFrom(0, 0, rest)
               else DecodeFrom(next, cp, rest)
  {
    StateInRange(state, b);
    assert ([b] + rest)[1..] == rest;
  }

  /** One tail byte in state 1 completes the character. */
  lemma DecodeTail(cp: bv32, b: Byte, rest: Bytes)
    requires Tail(b)
    ensures DecodeFrom(1, cp, [b] + rest) == [(cp << 6) | (b & 0x3f)] + Decode(rest)
  {
    DecodeStep(1, cp, b, rest);
    NextStateMeaning(1, b);
  }

  /** The byte behind the first one of a three-byte character. */
  lemma DecodeSecond(state: bv32, cp: bv32, b: Byte, b': Byte, rest: Bytes)
    requires state == 2 || state == 3 || state == 4
    requires NextState(state, b) == 1 && Tail(b')
    ensures DecodeFrom(state, cp, [b] + ([b'] + rest))
         == [(((cp << 6) | (b & 0x3f)) << 6) | (b' & 0x3f)] + Decode(rest)
  {
    DecodeStep(state, cp, b, [b'] + rest);
    DecodeTail((cp << 6) | (b & 0x3f), b', rest);
  }

  lemma ThreeJoined(b0: bv32, b1: bv32, b2: bv32)
    ensures ((((b0 & 0xf) << 6) | (b1 & 0x3f)) << 6) | (b2 & 0x3f) == Three(b0, b1, b2)
  {
  }

  lemma FourJoined(b0: bv32, b1: bv32, b2: bv32, b3: bv32)
    ensures ((((((b0 & 7) << 6) | (b1 & 0x3f)) << 6) | (b2 & 0x3f)) << 6) | (b3 & 0x3f) == Four(b0, b1, b2, b3)
  {
  }

  lemma DecodeTwo(b0: Byte, b1: Byte, rest: Bytes)
    requires In(b0, 0xc2, 0xdf) && Tail(b1)
    ensures Decode([b0] + ([b1] + rest)) == [Two(b0, b1)] + Decode(rest)
  {
    hide NextState, NextCodepoint, DecodeFrom;
    DecodeStep(0, 0, b0, [b1] + rest);
    NextStateMeaning(0, b0);
    FirstPayload(b0);
    DecodeTail(b0 & 0x1f, b1, rest);
  }

  /** The states behind the first two bytes of a long character. */
  lemma LongStates(b0: Byte, b1: Byte)
    requires In(b0, 0xe0, 0xf4) && Tail(b1)
    requires (b0 == 0xe0 ==> 0xa0 <= b1) && (b0 == 0xed ==> b1 <= 0x9f)
    requires (b0 == 0xf0 ==> 0x90 <= b1) && (b0 == 0xf4 ==> b1 <= 0x8f)
    ensures var state := NextState(0, b0);
            && 2 <= state && state <= 7
            && (b0 <= 0xef ==> state == 2 || state == 3 || state == 4)
            && NextState(state, b1) == (if b0 <= 0xef then 1 else 2)
  {
    NextStateMeaning(0, b0);
    var state := NextState(0, b0);
    hide NextState;
    NextStateMeaning(state, b1);
  }

  lemma DecodeThree(b0: Byte, b1: Byte, b2: Byte, rest: Bytes)
    requires In(b0, 0xe0, 0xef) && Tail(b1) && Tail(b2)
    requires (b0 == 0xe0 ==> 0xa0 <= b1) && (b0 == 0xed ==> b1 <= 0x9f)
    ensures Decode([b0] + ([b1] + ([b2] + rest))) == [Three(b0, b1, b2)] + Decode(rest)
  {
    hide NextState, NextCodepoint, Three, DecodeFrom;
    ThreeStates(b0, b1);
    ThreePayload(b0, b1, b2);
    ThreeSteps(b0, b1, b2, rest);
  }

  lemma ThreeStates(b0: Byte, b1: Byte)
    requires In(b0, 0xe0, 0xef) && Tail(b1)
    requires (b0 == 0xe0 ==> 0xa0 <= b1) && (b0 == 0xed ==> b1 <= 0x9f)
    ensures var state := NextState(0, b0);
            (state == 2 || state == 3 || state == 4) && NextState(state, b1) == 1
  {
    hide NextState;
    LongStates(b0, b1);
  }

  lemma ThreePayload(b0: Byte, b1: Byte, b2: Byte)
    requires In(b0, 0xe0, 0xef)
    ensures (((NextCodepoint(0, b0, 0) << 6) | (b1 & 0x3f)) << 6) | (b2 & 0x3f) == Three(b0, b1, b2)
  {
    FirstPayload(b0);
    hide NextCodepoint;
    ThreeJoined(b0, b1, b2);
  }

  lemma ThreeSteps(b0: Byte, b1: Byte, b2: Byte, rest: Bytes)
    requires var state := NextState(0, b0); (state == 2 || state == 3 || state == 4) && NextState(state, b1) == 1
    requires Tail(b2)
    ensures Decode([b0] + ([b1] + ([b2] + rest)))
         == [(((NextCodepoint(0, b0, 0) << 6) | (b1 & 0x3f)) << 6) | (b2 & 0x3f)] + Decode(rest)
  {
    hide NextState, NextCodepoint, DecodeFrom, Tail;
    DecodeStep(0, 0, b0, [b1] + ([b2] + rest));
    DecodeSecond(NextState(0, b0), NextCodepoint(0, b0, 0), b1, b2, rest);
  }

  lemma DecodeFour(b0: Byte, b1: Byte, b2: Byte, b3: Byte, rest: Bytes)
    requires In(b0, 0xf0, 0xf4) && Tail(b1) && Tail(b2) && Tail(b3)
    requires (b0 == 0xf0 ==> 0x90 <= b1) && (b0 == 0xf4 ==> b1 <= 0x8f)
    ensures Decode([b0] + ([b1] + ([b2] + ([b3] + rest)))) == [Four(b0, b1, b2, b3)] + Decode(rest)
  {
    hide NextState, NextCodepoint, Four, DecodeFrom;
    LongStates(b0, b1);
    DecodeStep(0, 0, b0, [b1] + ([b2] + ([b3] + rest)));
    FirstPayload(b0);
    var state := NextState(0, b0);
    DecodeStep(state, b0 & 7, b1, [b2] + ([b3] + rest));
    TailPayload(state, b1, b0 & 7);
    var cp := ((b0 & 7) << 6) | (b1 & 0x3f);
    NextStateMeaning(2, b2);
    DecodeSecond(2, cp, b2, b3, rest);
    FourJoined(b0, b1, b2, b3);
  }

  lemma TailPayload(state: bv32, b: Byte, codepoint: bv32)
    requires state != 0
    ensures NextCodepoint(state, b, codepoint) == (codepoint << 6) | (b & 0x3f)
  {
  }

  /** A well-formed character in front is decoded to its code point. */
  lemma DecodeChar(c: Bytes, rest: Bytes)
    requires Utf8Char(c)
    ensures Decode(c + rest) == [CodepointOf(c)] + Decode(rest)
  {
    hide NextState, NextCodepoint, Decode;
    if |c| == 1 {
      assert c + rest == [c[0]] + rest;
      DecodeOne(c[0], rest);
    } else if |c| == 2 {
      assert c + rest == [c[0]] + ([c[1]] + rest);
      DecodeTwo(c[0], c[1], rest);
    } else if |c| == 3 {
      assert c + rest == [c[0]] + ([c[1]] + ([c[2]] + rest));
      DecodeThree(c[0], c[1], c[2], rest);
    } else {
      assert c + rest == [c[0]] + ([c[1]] + ([c[2]] + ([c[3]] + rest)));
      DecodeFour(c[0], c[1], c[2], c[3], rest);
    }
  }

  lemma DecodeOne(b: Byte, rest: Bytes)
    requires b < 0x80
    ensures Decode([b] + rest) == [b as bv32] + Decode(rest)
  {
    DecodeStep(0, 0, b, rest);
    NextStateMeaning(0, b);
    FirstPayload(b);
  }

  // ---------- UTF-8 and UTF-32 ----------

  function SanitizeAll(cs: seq<bv32>): seq<bv32> {
    seq(|cs|, i requires 0 <= i < |cs| => Sanitized(cs[i]))
  }

  ghost predicate Scalars(cs: seq<bv32>) {
    forall i :: 0 <= i < |cs| ==> Scalar(cs[i])
  }

  lemma EncodeSanitized(c: bv32)
    ensures Utf8Char(Encode(c)) && CodepointOf(Encode(c)) == Sanitized(c)
  {
    ScalarRoundTrip(Sanitized(c));
    assert Encode(c) == Encode(Sanitized(c));
  }

  /** Decoding what was encoded: every scalar value comes back, anything else as U+FFFD. */
  lemma {:induction false} DecodeEncode(cs: seq<bv32>)
    ensures Decode(EncodeAll(cs)) == SanitizeAll(cs)
  {
    if cs != [] {
      DecodeEncode(cs[1..]);
      EncodeSanitized(cs[0]);
      hide Encode, Decode, Utf8Char;
      DecodeChar(Encode(cs[0]), EncodeAll(cs[1..]));
      assert SanitizeAll(cs) == [Sanitized(cs[0])] + SanitizeAll(cs[1..]);
    }
  }

  lemma WellFormedJoin(c: Bytes, rest: Bytes)
    requires Utf8Char(c) && WellFormed(rest)
    ensures WellFormed(c + rest)
  {
    assert (c + rest)[..|c|] == c && (c + rest)[|c|..] == rest;
  }

  lemma {:induction false} EncodeIsWellFormed(cs: seq<bv32>)
    ensures WellFormed(EncodeAll(cs))
  {
    if cs != [] {
      EncodeIsWellFormed(cs[1..]);
      EncodeSanitized(cs[0]);
      WellFormedJoin(Encode(cs[0]), EncodeAll(cs[1..]));
    }
  }

  lemma {:induction false} WellFormedDecodes(s: Bytes)
    requires WellFormed(s)
    ensures Scalars(Decode(s)) && EncodeAll(Decode(s)) == s
    decreases |s|
  {
    hide Decode, Encode, EncodeAll, Utf8Char, CodepointOf, Scalar, Scalars;
    if s == [] {
      NothingToDo();
    } else {
      var n :| 1 <= n <= |s| && Utf8Char(s[..n]) && WellFormed(s[n..]);
      var c, rest := s[..n], s[n..];
      assert s == c + rest;
      hide WellFormed;
      WellFormedDecodes(rest);
      CharDecodes(c, rest);
    }
  }

  lemma NothingToDo()
    ensures Decode([]) == [] && EncodeAll([]) == [] && Scalars([])
  {
  }

  lemma CharDecodes(c: Bytes, rest: Bytes)
    requires Utf8Char(c) && Scalars(Decode(rest)) && EncodeAll(Decode(rest)) == rest
    ensures Scalars(Decode(c + rest)) && EncodeAll(Decode(c + rest)) == c + rest
  {
    hide Decode, Encode, EncodeAll, Utf8Char, CodepointOf, Scalar;
    CharRoundTrip(c);
    DecodeChar(c, rest);
    EncodeFirst(CodepointOf(c), Decode(rest));
  }

  /** Decoding then encoding gives the bytes back exactly when they are well-formed. */
  lemma EncodeDecode(s: Bytes)
    ensures EncodeAll(Decode(s)) == s <==> WellFormed(s)
  {
    if WellFormed(s) {
      WellFormedDecodes(s);
    }
    EncodeIsWellFormed(Decode(s));
  }

  // ---------- UTF-16 ----------

  /** A UTF-16 code unit, widened to 32 bits. */
  type Unit = u: bv32 | u < 0x10000

  type Units = seq<Unit>

  /** `in_range(c, 0xd800, 0xdfff)` with its unsigned difference. */
  predicate IsSurrogate(c: bv32) {
    c - 0xd800 < 0x800
  }

  predicate IsHigh(c: bv32) {
    c & 0xfffffc00 == 0xd800
  }

  predicate IsLow(c: bv32) {
    c & 0xfffffc00 == 0xdc00
  }

  function Combined(high: bv32, low: bv32): bv32 {
    (high << 10) + low - 0x35fdc00
  }

  /** RFC 2781 section 2: surrogates only in pairs, high before low. */
  predicate WellFormed16(u: Units) {
    u == []
    || (!In(u[0], 0xd800, 0xdfff) && WellFormed16(u[1..]))
    || (|u| >= 2 && In(u[0], 0xd800, 0xdbff) && In(u[1], 0xdc00, 0xdfff) && WellFormed16(u[2..]))
  }

  /** The code points the UTF-16 encoder passes on: a surrogate that starts no pair is replaced
      together with the unit behind it. */
  function CodePoints(u: Units): seq<bv32> {
    if u == [] then []
    else if !IsSurrogate(u[0]) then [u[0] as bv32] + CodePoints(u[1..])
    else if |u| == 1 then [REPLACEMENT]
    else if IsHigh(u[0]) && IsLow(u[1]) then [Combined(u[0], u[1])] + CodePoints(u[2..])
    else [REPLACEMENT] + CodePoints(u[2..])
  }

  function Encode16(u: Units): Bytes {
    EncodeAll(CodePoints(u))
  }

  /** The units of a decoded code point, each cut to 16 bits. */
  function UnitsOf(c: bv32): Units {
    if c <= 0xffff then [c & 0xffff]
    else [(((c - 0x10000) >> 10) + 0xd800) & 0xffff, (((c - 0x10000) & 0x3ff) + 0xdc00) & 0xffff]
  }

  function AllUnits(cs: seq<bv32>): Units {
    if cs == [] then [] else UnitsOf(cs[0]) + AllUnits(cs[1..])
  }

  function Decode16(s: Bytes): Units {
    AllUnits(Decode(s))
  }

  lemma SurrogateTests(c: bv32)
    ensures IsSurrogate(c) <==> In(c, 0xd800, 0xdfff)
    ensures IsHigh(c) <==> In(c, 0xd800, 0xdbff)
    ensures IsLow(c) <==> In(c, 0xdc00, 0xdfff)
  {
  }

  /** The surrogate arithmetic undoes itself in both directions. */
  lemma PairRoundTrip(high: bv32, low: bv32)
    requires In(high, 0xd800, 0xdbff) && In(low, 0xdc00, 0xdfff)
    ensures 0x10000 <= Combined(high, low) && Combined(high, low) <= 0x10ffff
    ensures ((Combined(high, low) - 0x10000) >> 10) + 0xd800 == high
    ensures ((Combined(high, low) - 0x10000) & 0x3ff) + 0xdc00 == low
  {
  }

  lemma SplitRoundTrip(c: bv32)
    requires 0x10000 <= c && c <= 0x10ffff
    ensures var high, low := ((c - 0x10000) >> 10) + 0xd800, ((c - 0x10000) & 0x3ff) + 0xdc00;
            In(high, 0xd800, 0xdbff) && In(low, 0xdc00, 0xdfff) && Combined(high, low) == c
  {
  }

  lemma Narrow(x: bv32)
    requires x <= 0xffff
    ensures x & 0xffff == x
  {
  }

  /** Every code point passed on is a scalar value. */
  lemma {:induction false} CodePointsAreScalars(u: Units)
    ensures Scalars(CodePoints(u))
  {
    hide Combined;
    if u != [] {
      SurrogateTests(u[0]);
      if |u| >= 2 {
        SurrogateTests(u[1]);
        CodePointsAreScalars(u[2..]);
        if IsHigh(u[0]) && IsLow(u[1]) {
          PairRoundTrip(u[0], u[1]);
        }
      }
      CodePointsAreScalars(u[1..]);
    }
  }

  lemma PairUnits(high: Unit, low: Unit)
    requires In(high, 0xd800, 0xdbff) && In(low, 0xdc00, 0xdfff)
    ensures UnitsOf(Combined(high, low)) == [high, low]
  {
    hide Combined;
    PairRoundTrip(high, low);
    LargeForm(Combined(high, low), high, low);
  }

  lemma LargeForm(c: bv32, high: Unit, low: Unit)
    requires c > 0xffff && ((c - 0x10000) >> 10) + 0xd800 == high && ((c - 0x10000) & 0x3ff) + 0xdc00 == low
    ensures UnitsOf(c) == [high, low]
  {
    Narrow(high);
    Narrow(low);
  }

  lemma {:induction false} WellFormed16RoundTrip(u: Units)
    requires WellFormed16(u)
    ensures AllUnits(CodePoints(u)) == u
  {
    hide UnitsOf, Combined, IsSurrogate, IsHigh, IsLow;
    if u != [] {
      SurrogateTests(u[0]);
      if In(u[0], 0xd800, 0xdfff) {
        SurrogateTests(u[1]);
        WellFormed16RoundTrip(u[2..]);
        PairUnits(u[0], u[1]);
        assert CodePoints(u)[1..] == CodePoints(u[2..]);
        assert u == [u[0], u[1]] + u[2..];
      } else {
        WellFormed16RoundTrip(u[1..]);
        SmallUnits(u[0]);
        assert CodePoints(u)[1..] == CodePoints(u[1..]);
        assert u == [u[0]] + u[1..];
      }
    }
  }

  lemma SmallUnits(c: bv32)
    requires c <= 0xffff
    ensures UnitsOf(c) == [c]
  {
    Narrow(c);
  }

  lemma LargeUnits(c: bv32)
    requires 0x10000 <= c && c <= 0x10ffff
    ensures |UnitsOf(c)| == 2 && In(UnitsOf(c)[0], 0xd800, 0xdbff) && In(UnitsOf(c)[1], 0xdc00, 0xdfff)
    ensures Combined(UnitsOf(c)[0], UnitsOf(c)[1]) == c
  {
    SplitRoundTrip(c);
    hide Combined;
    Narrow(((c - 0x10000) >> 10) + 0xd800);
    Narrow(((c - 0x10000) & 0x3ff) + 0xdc00);
  }

  /** The units of scalar values are well-formed and lead back to them. */
  lemma {:induction false} ScalarsRoundTrip16(cs: seq<bv32>)
    requires Scalars(cs)
    ensures WellFormed16(AllUnits(cs)) && CodePoints(AllUnits(cs)) == cs
  {
    hide UnitsOf, Combined, IsSurrogate, IsHigh, IsLow;
    if cs != [] {
      var c, rest := cs[0], AllUnits(cs[1..]);
      var u := AllUnits(cs);
      ScalarsRoundTrip16(cs[1..]);
      if c <= 0xffff {
        SmallUnits(c);
        assert u[0] == c && u[1..] == rest;
      } else {
        LargeUnits(c);
        assert u[0] == UnitsOf(c)[0] && u[1] == UnitsOf(c)[1] && u[2..] == rest;
        SurrogateTests(u[1]);
      }
      SurrogateTests(u[0]);
      assert cs == [c] + cs[1..];
    }
  }

  /** Encoding UTF-16 then decoding gives the units back exactly when they are well-formed. */
  lemma DecodeEncode16(u: Units)
    ensures Decode16(Encode16(u)) == AllUnits(CodePoints(u))
    ensures Decode16(Encode16(u)) == u <==> WellFormed16(u)
  {
    CodePointsAreScalars(u);
    DecodeEncode(CodePoints(u));
    assert SanitizeAll(CodePoints(u)) == CodePoints(u);
    ScalarsRoundTrip16(CodePoints(u));
    if WellFormed16(u) {
      WellFormed16RoundTrip(u);
    }
  }

  /** Decoding to UTF-16 then encoding gives the bytes back exactly when they are well-formed. */
  lemma EncodeDecode16(s: Bytes)
    ensures Encode16(Decode16(s)) == s <==> WellFormed(s)
  {
    if WellFormed(s) {
      WellFormedDecodes(s);
      ScalarsRoundTrip16(Decode(s));
    }
    EncodeIsWellFormed(CodePoints(Decode16(s)));
  }

  // ---------- the loops ----------

  method AppendUtf8(str: Bytes, unicode: bv32) returns (result: Bytes)
    ensures result == str + Encode(unicode)
    decreases !Scalar(unicode)
  {
    if unicode <= 0x7f {
      result := str + [unicode];
    } else if 0x80 <= unicode && unicode <= 0x7ff {
      result := str + [(unicode >> 6) + 192] + [(unicode & 0x3f) + 128];
    } else if (0x800 <= unicode && unicode <= 0xd7ff) || (0xe000 <= unicode && unicode <= 0xffff) {
      result := str + [(unicode >> 12) + 224] + [((unicode & 0xfff) >> 6) + 128] + [(unicode & 0x3f) + 128];
    } else if 0x10000 <= unicode && unicode <= 0x10ffff {
      result := str + [(unicode >> 18) + 240] + [((unicode & 0x3ffff) >> 12) + 128]
                    + [((unicode & 0xfff) >> 6) + 128] + [(unicode & 0x3f) + 128];
    } else {
      result := AppendUtf8(str, REPLACEMENT);
    }
  }

  method ConsumeUtf8Fragment(state: bv32, fragment: Byte, codepoint: bv32) returns (next: bv32, cp: bv32)
    requires state <= REJECT
    ensures next == NextState(state, fragment) && next <= REJECT
    ensures cp == NextCodepoint(state, fragment, codepoint)
  {
    hide Category, StateInfo;
    var category := Category(fragment);
    cp := if state != 0 then (codepoint << 6) | (fragment & 0x3f) else (0xff >> category) & fragment;
    next := if state == REJECT then REJECT else (StateInfo(category + 16) >> (state << 2)) & 0xf;
    StateInRange(state, fragment);
  }

  /** True exactly for the byte strings of RFC 3629 section 4. */
  method ValidUtf8(s: Bytes) returns (valid: bool)
    ensures valid <==> WellFormed(s)
  {
    hide NextState, NextCodepoint;
    AcceptsMeaning(0, s);
    var state: bv32 := 0;
    var codepoint: bv32 := 0;
    for i := 0 to |s|
      invariant state < REJECT && Accepts(state, s[i..]) == Accepts(0, s)
    {
      state, codepoint := ConsumeUtf8Fragment(state, s[i], codepoint);
      assert s[i..][1..] == s[i + 1..];
      if state == REJECT {
        return false;
      }
    }
    valid := state == 0;
  }

  method FromUtf8To32(s: Bytes) returns (result: seq<bv32>)
    ensures result == Decode(s)
  {
    hide NextState, NextCodepoint;
    result := [];
    var state: bv32 := 0;
    var codepoint: bv32 := 0;
    for i := 0 to |s|
      invariant state < REJECT && (state == 0 ==> codepoint == 0)
      invariant result + DecodeFrom(state, codepoint, s[i..]) == Decode(s)
    {
      ghost var before, cp := state, codepoint;
      assert s[i..] == [s[i]] + s[i + 1..];
      DecodeStep(before, cp, s[i], s[i + 1..]);
      state, codepoint := ConsumeUtf8Fragment(state, s[i], codepoint);
      if state == 0 {
        result := result + [codepoint];
        codepoint := 0;
      } else if state == REJECT {
        result := result + [REPLACEMENT];
        state := 0;
        codepoint := 0;
      }
    }
    if state != 0 {
      result := result + [REPLACEMENT];
    }
  }

  method FromUtf8To16(s: Bytes) returns (result: Units)
    ensures result == Decode16(s)
  {
    hide NextState, NextCodepoint, UnitsOf;
    result := [];
    var state: bv32 := 0;
    var codepoint: bv32 := 0;
    for i := 0 to |s|
      invariant state < REJECT && (state == 0 ==> codepoint == 0)
      invariant result + AllUnits(DecodeFrom(state, codepoint, s[i..])) == Decode16(s)
    {
      hide DecodeFrom, AllUnits;
      assert s[i..] == [s[i]] + s[i + 1..];
      ghost var rest := DecodeFrom(0, 0, s[i + 1..]);
      DecodeStep(state, codepoint, s[i], s[i + 1..]);
      state, codepoint := ConsumeUtf8Fragment(state, s[i], codepoint);
      if state == 0 {
        AllUnitsFirst(codepoint, rest);
        Moved(result, UnitsOf(codepoint), AllUnits(rest));
        result := result + UnitsOf(codepoint);
        codepoint := 0;
      } else if state == REJECT {
        AllUnitsFirst(REPLACEMENT, rest);
        SmallUnits(REPLACEMENT);
        Moved(result, [REPLACEMENT], AllUnits(rest));
        result := result + [REPLACEMENT];
        state := 0;
        codepoint := 0;
      }
    }
    if state != 0 {
      AllUnitsFirst(REPLACEMENT, []);
      SmallUnits(REPLACEMENT);
      result := result + [REPLACEMENT];
    }
  }

  lemma Moved(done: Units, first: Units, rest: Units)
    ensures done + (first + rest) == (done + first) + rest
  {
  }

  lemma AllUnitsFirst(c: bv32, rest: seq<bv32>)
    ensures AllUnits([c] + rest) == UnitsOf(c) + AllUnits(rest)
  {
    assert ([c] + rest)[1..] == rest;
  }

  method ToUtf8From32(cs: seq<bv32>) returns (result: Bytes)
    ensures result == EncodeAll(cs)
  {
    hide Encode;
    result := [];
    for i := 0 to |cs|
      invariant result + EncodeAll(cs[i..]) == EncodeAll(cs)
    {
      assert cs[i..][1..] == cs[i + 1..];
      result := AppendUtf8(result, cs[i]);
    }
  }

  /** What the encoder does with the unit, or the two units, in front. */
  lemma EncodeStep16(u: Units, i: nat)
    requires i < |u|
    ensures var c: bv32 := u[i];
            Encode16(u[i..]) ==
            if !IsSurrogate(c) then Encode(c) + Encode16(u[i + 1..])
            else if i + 1 == |u| then Encode(REPLACEMENT)
            else if IsHigh(c) && IsLow(u[i + 1]) then Encode(Combined(c, u[i + 1])) + Encode16(u[i + 2..])
            else Encode(REPLACEMENT) + Encode16(u[i + 2..])
  {
    hide Encode, IsSurrogate, IsHigh, IsLow, Combined;
    var rest := u[i..];
    assert rest[1..] == u[i + 1..];
    if !IsSurrogate(u[i]) {
      EncodeFirst(u[i], CodePoints(u[i + 1..]));
    } else if i + 1 == |u| {
      EncodeFirst(REPLACEMENT, []);
    } else {
      assert rest[2..] == u[i + 2..] && rest[1] == u[i + 1];
      EncodeFirst(if IsHigh(u[i]) && IsLow(u[i + 1]) then Combined(u[i], u[i + 1]) else REPLACEMENT,
                  CodePoints(u[i + 2..]));
    }
  }

  method ToUtf8From16(u: Units) returns (result: Bytes)
    ensures result == Encode16(u)
  {
    hide Encode, IsSurrogate, IsHigh, IsLow, Combined, Encode16;
    result := [];
    var i := 0;
    EmptyEncoding();
    assert u[0..] == u;
    while i < |u|
      invariant 0 <= i <= |u|
      invariant result + Encode16(u[i..]) == Encode16(u)
    {
      EncodeStep16(u, i);
      var c: bv32 := u[i];
      if IsSurrogate(c) {
        i := i + 1;
        if i != |u| && IsHigh(c) && IsLow(u[i]) {
          result := AppendUtf8(result, Combined(c, u[i]));
        } else {
          result := AppendUtf8(result, REPLACEMENT);
          if i == |u| {
            return;
          }
        }
      } else {
        result := AppendUtf8(result, c);
      }
      i := i + 1;
    }
    assert u[i..] == [];
  }

  lemma EmptyEncoding()
    ensures Encode16([]) == []
  {
  }

  lemma EncodeFirst(c: bv32, rest: seq<bv32>)
    ensures EncodeAll([c] + rest) == Encode(c) + EncodeAll(rest)
    ensures EncodeAll([c]) == Encode(c)
  {
    assert ([c] + rest)[1..] == rest && [c][1..] == [];
  }
}
