/**
 * What the decoder reports of any units whatever, well formed or not: how many
 * units it takes, which error it names, and the code.
 */
module UtfDecoding {

  import opened UtfCode
  import opened UtfCodeTheorems

  // ---- How many units a first unit calls for ----

  function LeadLength(enc: Encoding, u: Unit): (n: nat)
    ensures 1 <= n <= 4
  {
    match enc
    case Utf8 => if u < 0xC0 then 1 else if u < 0xE0 then 2 else if u < 0xF0 then 3 else if u < 0xF8 then 4 else 1
    case Utf16 => if 0xD800 <= u <= 0xDBFF then 2 else 1
    case Utf32 => 1
  }

  /** A unit that starts no character. */
  predicate Stray(enc: Encoding, u: Unit) {
    match enc
    case Utf8 => 0x80 <= u <= 0xBF || 0xF8 <= u
    case Utf16 => 0xDC00 <= u <= 0xDFFF
    case Utf32 => false
  }

  /** A unit that may follow the first one of a character. */
  predicate Trails(enc: Encoding, u: Unit) {
    match enc
    case Utf8 => 0x80 <= u <= 0xBF
    case Utf16 => 0xDC00 <= u <= 0xDFFF
    case Utf32 => false
  }

  /** All the units the first one calls for are there. */
  predicate Complete(enc: Encoding, s: seq<Unit>) {
    s != [] && LeadLength(enc, s[0]) <= |s|
  }

  predicate TrailsFollow(enc: Encoding, s: seq<Unit>)
    requires Complete(enc, s)
  {
    forall i :: 1 <= i < LeadLength(enc, s[0]) ==> Trails(enc, s[i])
  }

  // ---- Which code the units spell ----

  /** Six bits from each trailing byte, the first one highest. */
  function Gathered(high: Unit, tails: seq<Unit>): Unit
    decreases tails
  {
    if tails == [] then high else Gathered(Joined(high, tails[0]), tails[1..])
  }

  function Joined(high: Unit, tail: Unit): Unit {
    (high << 6) | (tail & 0x3F)
  }

  /** The bits a first byte contributes: all but its mark. */
  function LeadBits(u: Unit): Unit {
    if u < 0xE0 then u & 0x1F else if u < 0xF0 then u & 0x0F else u & 0x07
  }

  function Spelled(enc: Encoding, s: seq<Unit>): Unit
    requires Complete(enc, s)
  {
    var n := LeadLength(enc, s[0]);
    if n == 1 then s[0]
    else if enc.Utf8? then Gathered(LeadBits(s[0]), s[1..n])
    else 0x10000 + ((s[0] - 0xD800) << 10) + (s[1] & 0x3FF)
  }

  // ---- What is wrong with them ----

  /** What each mode objects to in a code spelled with n units. */
  function CodeFault(enc: Encoding, mode: CharMode, u: Unit, n: nat): Error {
    match mode
    case Strict =>
      if IsSurrogate(u) then Surrogates
      else if IsNonCharacter(u) then NonCharacters
      else if u > 0x10FFFF then InvalidUnicode
      else if EncodedLength(enc, u) < n then NonShortest
      else NoError
    case Compatible => if u > 0x10FFFF then InvalidUnicode else NoError
    case Unchecked => NoError
  }

  function Fault(enc: Encoding, mode: CharMode, s: seq<Unit>): Error {
    if !Complete(enc, s) then InTruncated
    else if Stray(enc, s[0]) || (!mode.Unchecked? && !TrailsFollow(enc, s)) then InvalidSource
    else CodeFault(enc, mode, Spelled(enc, s), LeadLength(enc, s[0]))
  }

  /** The report on the front of a text, by its first unit, its trailing units and its code. */
  function Meaning(enc: Encoding, mode: CharMode, s: seq<Unit>): Decoded {
    var e := Fault(enc, mode, s);
    Decoded(e, if s == [] then 1 else LeadLength(enc, s[0]), if e == NoError then Spelled(enc, s) else 0)
  }

  // ---- Bytes ----

  lemma LeadRanges(c: Unit)
    requires 0x80 <= c <= 0xFF
    ensures c & 0xE0 == 0xC0 <==> 0xC0 <= c < 0xE0
    ensures c & 0xF0 == 0xE0 <==> 0xE0 <= c < 0xF0
    ensures c & 0xF8 == 0xF0 <==> 0xF0 <= c < 0xF8
  {
  }

  lemma Join2Is(c1: Unit, c2: Unit)
    ensures Joined(c1 & 0x1F, c2) == Join2(c1, c2) <= 0x7FF
  {
  }

  lemma Join3Is(c1: Unit, c2: Unit, c3: Unit)
    ensures Joined(Joined(c1 & 0x0F, c2), c3) == Join3(c1, c2, c3) <= 0xFFFF
  {
  }

  lemma Join4Is(c1: Unit, c2: Unit, c3: Unit, c4: Unit)
    ensures Joined(Joined(Joined(c1 & 0x07, c2), c3), c4) == Join4(c1, c2, c3, c4)
  {
  }

  lemma GatheredFirst(high: Unit, c: Unit, tails: seq<Unit>)
    ensures Gathered(high, [c] + tails) == Gathered(Joined(high, c), tails)
  {
    assert ([c] + tails)[1..] == tails;
  }

  lemma Gather2(high: Unit, c2: Unit)
    ensures Gathered(high, [c2]) == Joined(high, c2)
  {
    GatheredFirst(high, c2, []);
    assert [c2] + [] == [c2];
  }

  lemma Gather3(high: Unit, c2: Unit, c3: Unit)
    ensures Gathered(high, [c2, c3]) == Joined(Joined(high, c2), c3)
  {
    GatheredFirst(high, c2, [c3]);
    assert [c2] + [c3] == [c2, c3];
    Gather2(Joined(high, c2), c3);
  }

  lemma Gather4(high: Unit, c2: Unit, c3: Unit, c4: Unit)
    ensures Gathered(high, [c2, c3, c4]) == Joined(Joined(Joined(high, c2), c3), c4)
  {
    GatheredFirst(high, c2, [c3, c4]);
    assert [c2] + [c3, c4] == [c2, c3, c4];
    Gather3(Joined(high, c2), c3, c4);
  }

  lemma TwoMeans(mode: CharMode, u: Unit, c2: Unit)
    requires c2 <= 0xFF && u <= 0x7FF
    ensures TwoError(mode, u, c2)
         == if !mode.Unchecked? && !Trails(Utf8, c2) then InvalidSource else CodeFault(Utf8, mode, u, 2)
  {
    TailIsTail(c2);
    SmallLegal(u);
  }

  lemma ThreeMeans(mode: CharMode, u: Unit, c2: Unit, c3: Unit)
    requires c2 <= 0xFF && c3 <= 0xFF && u <= 0xFFFF
    ensures ThreeError(mode, u, c2, c3)
         == if !mode.Unchecked? && !(Trails(Utf8, c2) && Trails(Utf8, c3)) then InvalidSource
            else CodeFault(Utf8, mode, u, 3)
  {
    TailIsTail(c2);
    TailIsTail(c3);
    if u < 0x800 {
      SmallLegal(u);
    }
  }

  lemma FourMeans(mode: CharMode, u: Unit, c2: Unit, c3: Unit, c4: Unit)
    requires c2 <= 0xFF && c3 <= 0xFF && c4 <= 0xFF
    ensures FourError(mode, u, c2, c3, c4)
         == if !mode.Unchecked? && !(Trails(Utf8, c2) && Trails(Utf8, c3) && Trails(Utf8, c4)) then InvalidSource
            else CodeFault(Utf8, mode, u, 4)
  {
    TailIsTail(c2);
    TailIsTail(c3);
    TailIsTail(c4);
  }

  lemma Means2(mode: CharMode, s: seq<Unit>)
    requires |s| >= 2 && AreUnits(Utf8, s) && LeadLength(Utf8, s[0]) == 2
    ensures DecodeTwo(mode, s[0], s[1]) == Meaning(Utf8, mode, s)
  {
    assert s[1..2] == [s[1]];
    Gather2(s[0] & 0x1F, s[1]);
    Join2Is(s[0], s[1]);
    TwoMeans(mode, Join2(s[0], s[1]), s[1]);
  }

  lemma Means3(mode: CharMode, s: seq<Unit>)
    requires |s| >= 3 && AreUnits(Utf8, s) && LeadLength(Utf8, s[0]) == 3
    ensures DecodeThree(mode, s[0], s[1], s[2]) == Meaning(Utf8, mode, s)
  {
    assert s[1..3] == [s[1], s[2]];
    Gather3(s[0] & 0x0F, s[1], s[2]);
    Join3Is(s[0], s[1], s[2]);
    ThreeMeans(mode, Join3(s[0], s[1], s[2]), s[1], s[2]);
  }

  lemma Means4(mode: CharMode, s: seq<Unit>)
    requires |s| >= 4 && AreUnits(Utf8, s) && LeadLength(Utf8, s[0]) == 4
    ensures DecodeFour(mode, s[0], s[1], s[2], s[3]) == Meaning(Utf8, mode, s)
  {
    assert s[1..4] == [s[1], s[2], s[3]];
    Gather4(s[0] & 0x07, s[1], s[2], s[3]);
    Join4Is(s[0], s[1], s[2], s[3]);
    FourMeans(mode, Join4(s[0], s[1], s[2], s[3]), s[1], s[2], s[3]);
  }

  /** The branches of the decoder are the ranges of the first byte. */
  lemma Utf8Branches(mode: CharMode, s: seq<Unit>)
    requires s != [] && s[0] <= 0xFF
    ensures var n := LeadLength(Utf8, s[0]);
      DecodeUtf8(mode, s) ==
        if s[0] < 0x80 then Decoded(NoError, 1, s[0])
        else if n == 1 then Fail(InvalidSource, 1)
        else if |s| < n then Fail(InTruncated, n)
        else if n == 2 then DecodeTwo(mode, s[0], s[1])
        else if n == 3 then DecodeThree(mode, s[0], s[1], s[2])
        else DecodeFour(mode, s[0], s[1], s[2], s[3])
  {
    if s[0] >= 0x80 {
      LeadRanges(s[0]);
    }
  }

  lemma Utf8Means(mode: CharMode, s: seq<Unit>)
    requires s != [] && AreUnits(Utf8, s)
    ensures DecodeUtf8(mode, s) == Meaning(Utf8, mode, s)
  {
    var n := LeadLength(Utf8, s[0]);
    Utf8Branches(mode, s);
    if s[0] < 0x80 {
      SmallLegal(s[0]);
    } else if n == 2 && |s| >= 2 {
      Means2(mode, s);
    } else if n == 3 && |s| >= 3 {
      Means3(mode, s);
    } else if n == 4 && |s| >= 4 {
      Means4(mode, s);
    }
  }

  // ---- Words ----

  lemma PairCode(c1: Unit, c2: Unit)
    requires 0xD800 <= c1 <= 0xDBFF
    ensures JoinPair(c1, c2) == 0x10000 + ((c1 - 0xD800) << 10) + (c2 & 0x3FF)
    ensures 0xFFFF < JoinPair(c1, c2) <= 0x10FFFF
  {
  }

  /** No code beyond the first plane is a surrogate or in the block of noncharacters. */
  lemma PairMeans(mode: CharMode, u: Unit, c2: Unit)
    requires 0xFFFF < u <= 0x10FFFF
    ensures PairError(mode, u, c2)
         == if !mode.Unchecked? && !Trails(Utf16, c2) then InvalidSource else CodeFault(Utf16, mode, u, 2)
  {
  }

  lemma MeansPair(mode: CharMode, s: seq<Unit>)
    requires |s| >= 2 && AreUnits(Utf16, s) && LeadLength(Utf16, s[0]) == 2
    ensures DecodePair(mode, s[0], s[1]) == Meaning(Utf16, mode, s)
  {
    PairCode(s[0], s[1]);
    PairMeans(mode, JoinPair(s[0], s[1]), s[1]);
  }

  lemma MeansBmp(mode: CharMode, s: seq<Unit>)
    requires s != [] && AreUnits(Utf16, s) && !IsSurrogate(s[0])
    ensures DecodeBmp(mode, s[0]) == Meaning(Utf16, mode, s)
  {
  }

  lemma Utf16Means(mode: CharMode, s: seq<Unit>)
    requires s != [] && AreUnits(Utf16, s)
    ensures DecodeUtf16(mode, s) == Meaning(Utf16, mode, s)
  {
    if !IsSurrogate(s[0]) {
      MeansBmp(mode, s);
    } else if LeadLength(Utf16, s[0]) == 2 && |s| >= 2 {
      MeansPair(mode, s);
    }
  }

  // ---- Every encoding, every mode ----

  /**
   * On any units of the encoding the decoder takes as many as the first one
   * calls for, whatever follows and whatever the outcome, and reports what is
   * wrong with them: that they are cut off, that a unit is out of place, or
   * what the mode objects to in the code they spell.
   */
  lemma {:induction false} DecodeMeans(enc: Encoding, mode: CharMode, s: seq<Unit>)
    requires AreUnits(enc, s)
    ensures Decode(enc, mode, s) == Meaning(enc, mode, s)
  {
    if s != [] {
      match enc
      case Utf8 => Utf8Means(mode, s);
      case Utf16 => Utf16Means(mode, s);
      case Utf32 =>
    }
  }

  // ---- Lax decoding undoes encoding beyond the legal codes ----

  /** The codes that a mode which is not strict can read back from the encoding. */
  predicate Readable(enc: Encoding, mode: CharMode, u: Unit) {
    match enc
    case Utf8 => u <= if mode.Unchecked? then 0x1FFFFF else 0x10FFFF
    case Utf16 => u <= 0x10FFFF && !IsSurrogate(u)
    case Utf32 => mode.Unchecked? || u <= 0x10FFFF
  }

  lemma BitsWide(u: Unit)
    requires u <= 0x1FFFFF
    ensures Join4(Lead4(u), Tail12(u), Tail6(u), Tail0(u)) == u && Lead4(u) >= 0x80 && Lead4(u) & 0xF8 == 0xF0
  {
  }

  /** Surrogates and noncharacters too come back from UTF-8, and without checks the codes beyond U+10FFFF. */
  lemma LaxDecodeOfEncode(enc: Encoding, mode: CharMode, u: Unit, rest: seq<Unit>)
    requires !mode.Strict? && Readable(enc, mode, u)
    ensures Decode(enc, mode, Encode(enc, u) + rest) == Decoded(NoError, EncodedLength(enc, u), u)
  {
    match enc
    case Utf8 =>
      TailBits(u);
      if 0x7F < u <= 0x7FF {
        Bits2(u);
      } else if 0x7FF < u <= 0xFFFF {
        Bits3(u);
        LeadApart(Lead3(u));
      } else if 0xFFFF < u {
        BitsWide(u);
        LeadApart(Lead4(u));
      }
    case Utf16 =>
      if u > 0xFFFF {
        BitsPair(u);
      }
    case Utf32 =>
  }
}
