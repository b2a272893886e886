/** What the UTF codec makes of malformed input, and what its bits count
    (end2end/include/filesystem.hpp). */
module UtfReplacements {
  import opened Utf

  // ---------- bits and numbers ----------

  function Digit(b: bv32, low: bv32): bv32 {
    b - low
  }

  function TwoDigits(b0: bv32, b1: bv32): bv32 {
    Digit(b0, 0xc0) * 64 + Digit(b1, 0x80)
  }

  function ThreeDigits(b0: bv32, b1: bv32, b2: bv32): bv32 {
    Digit(b0, 0xe0) * 4096 + Digit(b1, 0x80) * 64 + Digit(b2, 0x80)
  }

  function FourDigits(b0: bv32, b1: bv32, b2: bv32, b3: bv32): bv32 {
    Digit(b0, 0xf0) * 262144 + Digit(b1, 0x80) * 4096 + Digit(b2, 0x80) * 64 + Digit(b3, 0x80)
  }

  lemma TwoCounts(b0: bv32, b1: bv32)
    requires In(b0, 0xc2, 0xdf) && Tail(b1)
    ensures Two(b0, b1) == TwoDigits(b0, b1)
  {
  }

  lemma ThreeCounts(b0: bv32, b1: bv32, b2: bv32)
    requires In(b0, 0xe0, 0xef) && Tail(b1) && Tail(b2)
    ensures Three(b0, b1, b2) == ThreeDigits(b0, b1, b2)
  {
  }

  lemma FourCounts(b0: bv32, b1: bv32, b2: bv32, b3: bv32)
    requires In(b0, 0xf0, 0xf4) && Tail(b1) && Tail(b2) && Tail(b3)
    ensures Four(b0, b1, b2, b3) == FourDigits(b0, b1, b2, b3)
  {
  }

  /** A character is read as a number in base 64, in what its first byte leaves for it. */
  lemma CodepointMeaning(c: Bytes)
    requires Utf8Char(c)
    ensures CodepointOf(c)
         == if |c| == 1 then c[0]
            else if |c| == 2 then TwoDigits(c[0], c[1])
            else if |c| == 3 then ThreeDigits(c[0], c[1], c[2])
            else FourDigits(c[0], c[1], c[2], c[3])
  {
    hide Two, Three, Four, TwoDigits, ThreeDigits, FourDigits;
    if |c| == 2 {
      TwoCounts(c[0], c[1]);
    } else if |c| == 3 {
      ThreeCounts(c[0], c[1], c[2]);
    } else if |c| == 4 {
      FourCounts(c[0], c[1], c[2], c[3]);
    }
  }

  function PairValue(high: bv32, low: bv32): bv32 {
    Digit(high, 0xd800) * 1024 + Digit(low, 0xdc00) + 0x10000
  }

  /** A surrogate pair is a number in base 1024 behind the first 65536 code points. */
  lemma PairMeaning(high: bv32, low: bv32)
    requires In(high, 0xd800, 0xdbff) && In(low, 0xdc00, 0xdfff)
    ensures Combined(high, low) == PairValue(high, low)
  {
  }

  // ---------- malformed UTF-8 ----------

  /** Some bytes, but not all, of a character. */
  ghost predicate Begun(p: Bytes) {
    p != [] && exists tail: Bytes :: tail != [] && Utf8Char(p + tail)
  }

  /** The second byte the first one allows. */
  predicate Follows(b0: bv32, b1: bv32) {
    || (b0 == 0xe0 && In(b1, 0xa0, 0xbf))
    || (b0 == 0xed && In(b1, 0x80, 0x9f))
    || (b0 == 0xf0 && In(b1, 0x90, 0xbf))
    || (b0 == 0xf4 && In(b1, 0x80, 0x8f))
    || (In(b0, 0xe1, 0xf3) && b0 != 0xed && b0 != 0xf0 && Tail(b1))
  }

  predicate BegunForm(p: Bytes) {
    || (|p| == 1 && In(p[0], 0xc2, 0xf4))
    || (|p| == 2 && Follows(p[0], p[1]))
    || (|p| == 3 && Follows(p[0], p[1]) && In(p[0], 0xf0, 0xf4) && Tail(p[2]))
  }

  lemma LongForm(c: Bytes)
    requires |c| == 3 || |c| == 4
    ensures Utf8Char(c) <==>
            Follows(c[0], c[1]) && Tail(c[2])
            && if |c| == 3 then In(c[0], 0xe0, 0xef) else In(c[0], 0xf0, 0xf4) && Tail(c[3])
  {
  }

  /** Bytes that carry a beginning on to a character. */
  function Rest(p: Bytes): Bytes
    requires BegunForm(p)
  {
    if |p| == 1 then
      if p[0] < 0xe0 then [0x80]
      else if p[0] == 0xe0 then [0xa0, 0x80]
      else if p[0] < 0xf0 then [0x80, 0x80]
      else if p[0] == 0xf0 then [0x90, 0x80, 0x80]
      else [0x80, 0x80, 0x80]
    else if |p| == 2 && p[0] >= 0xf0 then [0x80, 0x80]
    else [0x80]
  }

  lemma RestCompletes(p: Bytes)
    requires BegunForm(p)
    ensures Rest(p) != [] && Utf8Char(p + Rest(p))
  {
    if |p| > 1 || p[0] >= 0xe0 {
      LongForm(p + Rest(p));
    }
  }

  lemma BegunMeaning(p: Bytes)
    ensures Begun(p) <==> BegunForm(p)
  {
    if BegunForm(p) {
      RestCompletes(p);
    }
    if Begun(p) {
      var tail: Bytes :| tail != [] && Utf8Char(p + tail);
      var c := p + tail;
      assert forall i :: 0 <= i < |p| ==> c[i] == p[i];
      if |c| >= 3 {
        LongForm(c);
      }
    }
  }

  /** The state behind a beginning, and what it takes for the next byte. */
  function StateOf(p: Bytes): bv32
    requires BegunForm(p)
  {
    if |p| == 1 then
      if p[0] < 0xe0 then 1
      else if p[0] == 0xe0 then 3
      else if p[0] == 0xed then 4
      else if p[0] < 0xf0 then 2
      else if p[0] == 0xf0 then 5
      else if p[0] < 0xf4 then 6
      else 7
    else if |p| == 2 && p[0] >= 0xf0 then 2
    else 1
  }

  /** The bytes a state lets through. */
  predicate Allowed(state: bv32, b: bv32) {
    match state
    case 1 => Tail(b)
    case 2 => Tail(b)
    case 3 => In(b, 0xa0, 0xbf)
    case 4 => In(b, 0x80, 0x9f)
    case 5 => In(b, 0x90, 0xbf)
    case 6 => Tail(b)
    case 7 => In(b, 0x80, 0x8f)
    case _ => false
  }

  lemma AllowedMoves(state: bv32, b: Byte)
    requires 0 < state && state < REJECT
    ensures NextState(state, b)
         == if !Allowed(state, b) then REJECT else if state == 1 then 0 else if state < 5 then 1 else 2
  {
    NextStateMeaning(state, b);
    hide NextState;
  }

  lemma StateTakes(p: Bytes, b: Byte)
    requires BegunForm(p)
    ensures Utf8Char(p + [b]) <==> Allowed(StateOf(p), b) && StateOf(p) == 1
    ensures BegunForm(p + [b]) <==> Allowed(StateOf(p), b) && StateOf(p) != 1
    ensures BegunForm(p + [b]) ==> StateOf(p + [b]) == if StateOf(p) < 5 then 1 else 2
  {
    var c := p + [b];
    assert forall i :: 0 <= i < |p| ==> c[i] == p[i];
    if |c| >= 3 {
      LongForm(c);
    }
  }

  lemma StateMoves(p: Bytes, b: Byte)
    requires BegunForm(p)
    ensures NextState(StateOf(p), b) == 0 <==> Utf8Char(p + [b])
    ensures NextState(StateOf(p), b) != 0 && NextState(StateOf(p), b) != REJECT <==> BegunForm(p + [b])
    ensures BegunForm(p + [b]) ==> NextState(StateOf(p), b) == StateOf(p + [b])
  {
    hide NextState, Allowed, BegunForm, Utf8Char, StateOf;
    StateInside(p);
    StateTakes(p, b);
    AllowedMoves(StateOf(p), b);
  }

  lemma FirstMoves(b: Byte)
    ensures NextState(0, b) == 0 <==> Utf8Char([b])
    ensures NextState(0, b) != 0 && NextState(0, b) != REJECT <==> BegunForm([b])
    ensures BegunForm([b]) ==> NextState(0, b) == StateOf([b])
  {
    NextStateMeaning(0, b);
    hide NextState;
  }

  lemma StateInside(p: Bytes)
    requires BegunForm(p)
    ensures 0 < StateOf(p) && StateOf(p) < REJECT
  {
  }

  lemma FrontBegun(p: Bytes)
    requires BegunForm(p) && |p| > 1
    ensures BegunForm(p[..|p| - 1])
  {
  }

  /** A beginning takes the decoder into its state. */
  lemma {:induction false} Through(p: Bytes, rest: Bytes) returns (cp: bv32)
    requires BegunForm(p)
    ensures 0 < StateOf(p) && StateOf(p) < REJECT
    ensures Decode(p + rest) == DecodeFrom(StateOf(p), cp, rest)
    decreases |p|
  {
    hide NextState, NextCodepoint, DecodeFrom, BegunForm, StateOf;
    StateInside(p);
    if |p| == 1 {
      FirstMoves(p[0]);
      assert p == [p[0]];
      DecodeStep(0, 0, p[0], rest);
      cp := NextCodepoint(0, p[0], 0);
    } else {
      var front, b := Front(p);
      assert p + rest == front + ([b] + rest);
      var before := Through(front, [b] + rest);
      StateMoves(front, b);
      DecodeStep(StateOf(front), before, b, rest);
      cp := NextCodepoint(StateOf(front), b, before);
    }
  }

  lemma Front(p: Bytes) returns (front: Bytes, b: Byte)
    requires BegunForm(p) && |p| != 1
    ensures |front| < |p| && BegunForm(front) && p == front + [b]
  {
    front, b := p[..|p| - 1], p[|p| - 1];
    FrontBegun(p);
  }

  /** A byte that carries neither nothing nor a beginning on is replaced together with the beginning, and
      decoding starts over behind it. */
  lemma MalformedMeaning(p: Bytes, b: Byte, rest: Bytes)
    requires p == [] || Begun(p)
    requires !Utf8Char(p + [b]) && !Begun(p + [b])
    ensures Decode(p + [b] + rest) == [0xfffd] + Decode(rest)
  {
    hide NextState, NextCodepoint, DecodeFrom, Begun, Utf8Char, BegunForm, StateOf;
    BegunMeaning(p);
    BegunMeaning(p + [b]);
    assert p + [b] + rest == p + ([b] + rest);
    if p == [] {
      assert [] + [b] == [b] && [] + ([b] + rest) == [b] + rest;
      FirstMoves(b);
      DecodeStep(0, 0, b, rest);
    } else {
      var cp := Through(p, [b] + rest);
      StateMoves(p, b);
      DecodeStep(StateOf(p), cp, b, rest);
    }
  }

  /** A character that is not finished at the end is replaced. */
  lemma UnfinishedMeaning(p: Bytes)
    requires Begun(p)
    ensures Decode(p) == [0xfffd]
  {
    hide NextState, NextCodepoint, BegunForm, StateOf, Begun;
    BegunMeaning(p);
    var cp := Through(p, []);
    assert p + [] == p;
  }

  /** With `DecodeChar` these are all the cases there are. */
  lemma {:induction false} DecodeCases(s: Bytes) returns (p: Bytes, rest: Bytes)
    ensures s == p + rest
    ensures || (s == [] && Decode(s) == [])
            || (Utf8Char(p) && Decode(s) == [CodepointOf(p)] + Decode(rest))
            || (Begun(p) && rest == [] && Decode(s) == [0xfffd])
            || (p != [] && (|p| == 1 || Begun(p[..|p| - 1])) && !Utf8Char(p) && !Begun(p)
                && Decode(s) == [0xfffd] + Decode(rest))
  {
    hide Decode, Begun, Utf8Char, CodepointOf;
    if s == [] {
      p, rest := [], [];
      NothingDecoded();
    } else {
      p, rest := [s[0]], s[1..];
      while Begun(p) && rest != []
        invariant s == p + rest && p != [] && (|p| == 1 || Begun(p[..|p| - 1]))
        decreases |rest|
      {
        assert (p + [rest[0]])[..|p|] == p;
        p, rest := p + [rest[0]], rest[1..];
      }
      if Utf8Char(p) {
        DecodeChar(p, rest);
      } else if Begun(p) {
        assert p + rest == p;
        UnfinishedMeaning(p);
      } else {
        var front, b := p[..|p| - 1], p[|p| - 1];
        assert p == front + [b];
        MalformedMeaning(front, b, rest);
      }
    }
  }

  lemma NothingDecoded()
    ensures Decode([]) == []
  {
  }

  // ---------- malformed UTF-16, and what is no scalar value ----------

  /** U+FFFD in UTF-8. */
  const REPLACED: Bytes := [0xef, 0xbf, 0xbd]

  lemma InvalidIsReplaced(c: bv32)
    ensures In(c, 0xd800, 0xdfff) || c > 0x10ffff ==> Encode(c) == REPLACED
    ensures Encode(0xfffd) == REPLACED
  {
  }

  /** Unit by unit: a surrogate that starts no pair is replaced together with the unit behind it, if
      there is one, whatever that unit is. */
  lemma Encode16Meaning(u: Units)
    ensures Encode16(u)
         == if u == [] then []
            else if !In(u[0], 0xd800, 0xdfff) then Encode(u[0]) + Encode16(u[1..])
            else if |u| == 1 then REPLACED
            else if In(u[0], 0xd800, 0xdbff) && In(u[1], 0xdc00, 0xdfff) then
              Encode(PairValue(u[0], u[1])) + Encode16(u[2..])
            else REPLACED + Encode16(u[2..])
  {
    hide Encode, IsSurrogate, IsHigh, IsLow, Combined, Encode16, In, PairValue;
    if u == [] {
      EmptyEncoding();
    } else {
      assert u[0..] == u;
      EncodeStep16(u, 0);
      SurrogateTests(u[0]);
      InvalidIsReplaced(0);
      if |u| > 1 {
        SurrogateTests(u[1]);
        if In(u[0], 0xd800, 0xdbff) && In(u[1], 0xdc00, 0xdfff) {
          PairMeaning(u[0], u[1]);
        }
      }
    }
  }
}
