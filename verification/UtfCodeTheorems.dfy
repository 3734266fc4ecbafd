/**
 * Strict decoding accepts exactly what the encoder makes of legal codes, and,
 * for UTF-8, exactly the byte sequences of the syntax in section 4 of RFC 3629
 * less the noncharacters.
 */
module UtfCodeTheorems {

  import opened UtfCode

  // ---- Bits: gathering undoes spreading, and spreading undoes gathering ----

  lemma Bits2(u: Unit)
    requires 0x7F < u <= 0x7FF
    ensures Join2(Lead2(u), Tail0(u)) == u && Lead2(u) >= 0x80 && Lead2(u) & 0xE0 == 0xC0
  {
  }

  lemma Bits3(u: Unit)
    requires u <= 0xFFFF
    ensures Join3(Lead3(u), Tail6(u), Tail0(u)) == u && Lead3(u) >= 0x80 && Lead3(u) & 0xF0 == 0xE0
  {
  }

  lemma Bits4(u: Unit)
    requires u <= 0x10FFFF
    ensures Join4(Lead4(u), Tail12(u), Tail6(u), Tail0(u)) == u && Lead4(u) >= 0x80 && Lead4(u) & 0xF8 == 0xF0
  {
  }

  lemma BitsPair(u: Unit)
    requires 0xFFFF < u <= 0x10FFFF
    ensures JoinPair(High10(u), Low10(u)) == u && 0xD800 <= High10(u) <= 0xDBFF && 0xDC00 <= Low10(u) <= 0xDFFF
  {
  }

  lemma TailBits(u: Unit)
    ensures IsTail(Tail12(u)) && IsTail(Tail6(u)) && IsTail(Tail0(u))
  {
  }

  lemma Spread2(c1: Unit, c2: Unit)
    requires c1 <= 0xFF && c1 & 0xE0 == 0xC0 && c2 <= 0xFF && IsTail(c2)
    ensures var u := Join2(c1, c2); u <= 0x7FF && c1 == Lead2(u) && c2 == Tail0(u)
  {
  }

  lemma Spread3(c1: Unit, c2: Unit, c3: Unit)
    requires c1 <= 0xFF && c1 & 0xF0 == 0xE0 && c2 <= 0xFF && IsTail(c2) && c3 <= 0xFF && IsTail(c3)
    ensures var u := Join3(c1, c2, c3); u <= 0xFFFF && c1 == Lead3(u) && c2 == Tail6(u) && c3 == Tail0(u)
  {
  }

  lemma Spread4(c1: Unit, c2: Unit, c3: Unit, c4: Unit)
    requires c1 <= 0xFF && c1 & 0xF8 == 0xF0 && c2 <= 0xFF && IsTail(c2)
    requires c3 <= 0xFF && IsTail(c3) && c4 <= 0xFF && IsTail(c4)
    ensures var u := Join4(c1, c2, c3, c4);
      c1 == Lead4(u) && c2 == Tail12(u) && c3 == Tail6(u) && c4 == Tail0(u)
  {
  }

  lemma SpreadPair(c1: Unit, c2: Unit)
    requires 0xD800 <= c1 <= 0xDBFF && 0xDC00 <= c2 <= 0xDFFF
    ensures var u := JoinPair(c1, c2); 0xFFFF < u <= 0x10FFFF && c1 == High10(u) && c2 == Low10(u)
  {
  }

  /** A byte starts at most one form. */
  lemma LeadApart(c: Unit)
    ensures c & 0xE0 == 0xC0 ==> c & 0xF0 != 0xE0 && c & 0xF8 != 0xF0
    ensures c & 0xF0 == 0xE0 ==> c & 0xE0 != 0xC0 && c & 0xF8 != 0xF0
    ensures c & 0xF8 == 0xF0 ==> c & 0xE0 != 0xC0 && c & 0xF0 != 0xE0
  {
  }

  // ---- Both directions, for every encoding ----

  lemma DecodeOfEncode(enc: Encoding, u: Unit, rest: seq<Unit>)
    requires Legal(u)
    ensures Decode(enc, Strict, Encode(enc, u) + rest) == Decoded(NoError, EncodedLength(enc, u), u)
  {
    match enc
    case Utf8 => DecodeOfEncodeUtf8(u, rest);
    case Utf16 => DecodeOfEncodeUtf16(u, rest);
    case Utf32 =>
  }

  lemma DecodeOfEncodeUtf8(u: Unit, rest: seq<Unit>)
    requires Legal(u)
    ensures DecodeUtf8(Strict, EncodeUtf8(u) + rest) == Decoded(NoError, EncodedLength(Utf8, u), u)
  {
    TailBits(u);
    if 0x7F < u <= 0x7FF {
      Bits2(u);
    } else if 0x7FF < u <= 0xFFFF {
      Bits3(u);
      LeadApart(Lead3(u));
    } else if 0xFFFF < u {
      Bits4(u);
      LeadApart(Lead4(u));
    }
  }

  lemma DecodeOfEncodeUtf16(u: Unit, rest: seq<Unit>)
    requires Legal(u)
    ensures DecodeUtf16(Strict, EncodeUtf16(u) + rest) == Decoded(NoError, EncodedLength(Utf16, u), u)
  {
    if u > 0xFFFF {
      BitsPair(u);
    }
  }

  lemma EncodeOfDecode(enc: Encoding, s: seq<Unit>)
    requires s != [] && AreUnits(enc, s)
    requires Decode(enc, Strict, s).error == NoError
    ensures var d := Decode(enc, Strict, s);
      Legal(d.unicode) && d.blocks <= |s| && s[..d.blocks] == Encode(enc, d.unicode)
  {
    match enc
    case Utf8 => EncodeOfDecodeUtf8(s);
    case Utf16 => EncodeOfDecodeUtf16(s);
    case Utf32 =>
  }

  lemma From2(c1: Unit, c2: Unit)
    requires c1 <= 0xFF && c1 & 0xE0 == 0xC0 && c2 <= 0xFF
    requires DecodeTwo(Strict, c1, c2).error == NoError
    ensures Legal(Join2(c1, c2)) && EncodeUtf8(Join2(c1, c2)) == [c1, c2]
  {
    Spread2(c1, c2);
    SmallLegal(Join2(c1, c2));
  }

  lemma From3(c1: Unit, c2: Unit, c3: Unit)
    requires c1 <= 0xFF && c1 & 0xF0 == 0xE0 && c2 <= 0xFF && c3 <= 0xFF
    requires DecodeThree(Strict, c1, c2, c3).error == NoError
    ensures Legal(Join3(c1, c2, c3)) && EncodeUtf8(Join3(c1, c2, c3)) == [c1, c2, c3]
  {
    Spread3(c1, c2, c3);
  }

  lemma From4(c1: Unit, c2: Unit, c3: Unit, c4: Unit)
    requires c1 <= 0xFF && c1 & 0xF8 == 0xF0 && c2 <= 0xFF && c3 <= 0xFF && c4 <= 0xFF
    requires DecodeFour(Strict, c1, c2, c3, c4).error == NoError
    ensures Legal(Join4(c1, c2, c3, c4)) && EncodeUtf8(Join4(c1, c2, c3, c4)) == [c1, c2, c3, c4]
  {
    Spread4(c1, c2, c3, c4);
  }

  lemma SmallLegal(u: Unit)
    requires u <= 0x7FF
    ensures Legal(u)
  {
  }

  lemma EncodeOfDecodeUtf8(s: seq<Unit>)
    requires s != [] && AreUnits(Utf8, s)
    requires DecodeUtf8(Strict, s).error == NoError
    ensures var d := DecodeUtf8(Strict, s);
      Legal(d.unicode) && d.blocks <= |s| && s[..d.blocks] == EncodeUtf8(d.unicode)
  {
    var c1 := s[0];
    if c1 < 0x80 {
      SmallLegal(c1);
      assert s[..1] == [c1];
    } else if c1 & 0xE0 == 0xC0 {
      From2(c1, s[1]);
      assert s[..2] == [c1, s[1]];
    } else if c1 & 0xF0 == 0xE0 {
      From3(c1, s[1], s[2]);
      assert s[..3] == [c1, s[1], s[2]];
    } else {
      From4(c1, s[1], s[2], s[3]);
      assert s[..4] == [c1, s[1], s[2], s[3]];
    }
  }

  lemma FromPair(c1: Unit, c2: Unit)
    requires 0xD800 <= c1 <= 0xDBFF && c2 <= 0xFFFF
    requires DecodePair(Strict, c1, c2).error == NoError
    ensures Legal(JoinPair(c1, c2)) && EncodeUtf16(JoinPair(c1, c2)) == [c1, c2]
  {
    SpreadPair(c1, c2);
  }

  lemma EncodeOfDecodeUtf16(s: seq<Unit>)
    requires s != [] && AreUnits(Utf16, s)
    requires DecodeUtf16(Strict, s).error == NoError
    ensures var d := DecodeUtf16(Strict, s);
      Legal(d.unicode) && d.blocks <= |s| && s[..d.blocks] == EncodeUtf16(d.unicode)
  {
    if IsSurrogate(s[0]) {
      FromPair(s[0], s[1]);
      assert s[..2] == [s[0], s[1]];
    } else {
      assert s[..1] == [s[0]];
    }
  }

  /** Strict decoding accepts a text's front exactly when that front is the encoding of a legal code. */
  lemma StrictAcceptsExactly(enc: Encoding, s: seq<Unit>, u: Unit)
    requires s != [] && AreUnits(enc, s)
    ensures Decode(enc, Strict, s) == Decoded(NoError, EncodedLength(enc, u), u)
       <==> Legal(u) && Encode(enc, u) <= s
  {
    if Legal(u) && Encode(enc, u) <= s {
      assert s == Encode(enc, u) + s[|Encode(enc, u)|..];
      DecodeOfEncode(enc, u, s[|Encode(enc, u)|..]);
    }
    if Decode(enc, Strict, s) == Decoded(NoError, EncodedLength(enc, u), u) {
      EncodeOfDecode(enc, s);
    }
  }

  // ---- UTF-8 as RFC 3629 writes it ----

  predicate Tail(c: Unit) {
    0x80 <= c <= 0xBF
  }

  /** The productions UTF8-1 to UTF8-4: s starts with a character of n bytes. */
  predicate Utf8Syntax(s: seq<Unit>, n: nat)
    requires s != []
  {
    match n
    case 1 => s[0] <= 0x7F
    case 2 => |s| >= 2 && 0xC2 <= s[0] <= 0xDF && Tail(s[1])
    case 3 => |s| >= 3 && Syntax3(s[0], s[1], s[2])
    case 4 => |s| >= 4 && Syntax4(s[0], s[1], s[2], s[3])
    case _ => false
  }

  predicate Syntax3(c1: Unit, c2: Unit, c3: Unit) {
    Tail(c3) && (
      || (c1 == 0xE0 && 0xA0 <= c2 <= 0xBF)
      || (0xE1 <= c1 <= 0xEC && Tail(c2))
      || (c1 == 0xED && 0x80 <= c2 <= 0x9F)
      || (0xEE <= c1 <= 0xEF && Tail(c2)))
  }

  predicate Syntax4(c1: Unit, c2: Unit, c3: Unit, c4: Unit) {
    Tail(c3) && Tail(c4) && (
      || (c1 == 0xF0 && 0x90 <= c2 <= 0xBF)
      || (0xF1 <= c1 <= 0xF3 && Tail(c2))
      || (c1 == 0xF4 && 0x80 <= c2 <= 0x8F))
  }

  /** The bytes that spell a noncharacter: U+FDD0 to U+FDEF and the last two codes of every plane. */
  predicate SpellsNonCharacter(s: seq<Unit>, n: nat)
    requires n <= |s|
  {
    || (n == 3 && s[0] == 0xEF && s[1] == 0xB7 && 0x90 <= s[2] <= 0xAF)
    || (n == 3 && s[0] == 0xEF && s[1] == 0xBF && s[2] >= 0xBE)
    || (n == 4 && s[1] & 0x0F == 0x0F && s[2] == 0xBF && s[3] >= 0xBE)
  }

  lemma SyntaxTwo(c1: Unit, c2: Unit)
    requires c1 <= 0xFF && c2 <= 0xFF
    ensures c1 >= 0x80 && c1 & 0xE0 == 0xC0 && DecodeTwo(Strict, c1, c2).error == NoError
       <==> 0xC2 <= c1 <= 0xDF && Tail(c2)
  {
  }

  lemma SyntaxThree(c1: Unit, c2: Unit, c3: Unit)
    requires c1 <= 0xFF && c2 <= 0xFF && c3 <= 0xFF
    ensures c1 & 0xF0 == 0xE0 && DecodeThree(Strict, c1, c2, c3).error == NoError
       <==> && Syntax3(c1, c2, c3)
            && !(c1 == 0xEF && c2 == 0xB7 && 0x90 <= c3 <= 0xAF)
            && !(c1 == 0xEF && c2 == 0xBF && c3 >= 0xBE)
  {
    Lead3Bits(c1);
    TailIsTail(c2);
    TailIsTail(c3);
    if c1 & 0xF0 == 0xE0 && Tail(c2) && Tail(c3) {
      Join3Ranges(c1, c2, c3);
    }
  }

  lemma Lead3Bits(c: Unit)
    requires c <= 0xFF
    ensures c & 0xF0 == 0xE0 <==> 0xE0 <= c <= 0xEF
  {
  }

  lemma TailIsTail(c: Unit)
    requires c <= 0xFF
    ensures IsTail(c) <==> Tail(c)
  {
  }

  lemma Join3Ranges(c1: Unit, c2: Unit, c3: Unit)
    requires 0xE0 <= c1 <= 0xEF && Tail(c2) && Tail(c3)
    ensures Join3(c1, c2, c3) < 0x800 <==> c1 == 0xE0 && c2 < 0xA0
    ensures IsSurrogate(Join3(c1, c2, c3)) <==> c1 == 0xED && c2 >= 0xA0
    ensures IsNonCharacter(Join3(c1, c2, c3))
       <==> c1 == 0xEF && ((c2 == 0xB7 && 0x90 <= c3 <= 0xAF) || (c2 == 0xBF && c3 >= 0xBE))
  {
  }

  lemma SyntaxFour(c1: Unit, c2: Unit, c3: Unit, c4: Unit)
    requires c1 <= 0xFF && c2 <= 0xFF && c3 <= 0xFF && c4 <= 0xFF
    ensures c1 & 0xF8 == 0xF0 && DecodeFour(Strict, c1, c2, c3, c4).error == NoError
       <==> Syntax4(c1, c2, c3, c4) && !(c2 & 0x0F == 0x0F && c3 == 0xBF && c4 >= 0xBE)
  {
  }

  /** The strict UTF-8 decoder accepts the RFC's syntax less the noncharacters. */
  lemma {:induction false} Utf8MeetsRfc(s: seq<Unit>, n: nat)
    requires s != [] && AreUnits(Utf8, s)
    ensures DecodeUtf8(Strict, s).error == NoError && DecodeUtf8(Strict, s).blocks == n
       <==> Utf8Syntax(s, n) && !SpellsNonCharacter(s, n)
  {
    var c1 := s[0];
    LeadApart(c1);
    if |s| >= 2 {
      SyntaxTwo(c1, s[1]);
    }
    if |s| >= 3 {
      SyntaxThree(c1, s[1], s[2]);
    }
    if |s| >= 4 {
      SyntaxFour(c1, s[1], s[2], s[3]);
    }
  }

  // ---- The decoding modes ----

  /** Each mode checks less than the one before, and says the same where that one finds no fault. */
  predicate Laxer(a: CharMode, b: CharMode) {
    a == b || a.Strict? || b.Unchecked?
  }

  /** What one mode accepts a laxer one accepts alike. */
  predicate Follows(strict: Decoded, lax: Decoded) {
    strict.blocks == lax.blocks && (strict.error == NoError ==> lax == strict)
  }

  lemma ModesOfUtf8(a: CharMode, b: CharMode, s: seq<Unit>)
    requires Laxer(a, b) && s != []
    ensures Follows(DecodeUtf8(a, s), DecodeUtf8(b, s))
  {
  }

  lemma ModesOfUtf16(a: CharMode, b: CharMode, s: seq<Unit>)
    requires Laxer(a, b) && s != []
    ensures Follows(DecodeUtf16(a, s), DecodeUtf16(b, s))
  {
  }

  /**
   * The decoding mode never changes how many units a character takes, and a
   * laxer mode gives the same code wherever a stricter one accepts.
   */
  lemma ModesAgree(enc: Encoding, a: CharMode, b: CharMode, s: seq<Unit>)
    requires Laxer(a, b)
    ensures Follows(Decode(enc, a, s), Decode(enc, b, s))
  {
    if s != [] {
      match enc
      case Utf8 => ModesOfUtf8(a, b, s);
      case Utf16 => ModesOfUtf16(a, b, s);
      case Utf32 =>
    }
  }

  /** In compatible mode every code that comes out is at most U+10FFFF, in a text of proper units. */
  lemma CompatibleInRange(enc: Encoding, s: seq<Unit>)
    requires AreUnits(enc, s) && Decode(enc, Compatible, s).error == NoError
    ensures Decode(enc, Compatible, s).unicode <= 0x10FFFF
  {
    match enc
    case Utf8 => CompatibleUtf8(s);
    case Utf16 => CompatibleUtf16(s);
    case Utf32 =>
  }

  lemma ShortJoins(c1: Unit, c2: Unit, c3: Unit)
    ensures Join2(c1, c2) <= 0x7FF && Join3(c1, c2, c3) <= 0xFFFF
  {
  }

  lemma CompatibleUtf8(s: seq<Unit>)
    requires s != [] && DecodeUtf8(Compatible, s).error == NoError
    ensures DecodeUtf8(Compatible, s).unicode <= 0x10FFFF
  {
    if |s| >= 2 {
      ShortJoins(s[0], s[1], 0);
    }
    if |s| >= 3 {
      ShortJoins(s[0], s[1], s[2]);
    }
  }

  lemma CompatibleUtf16(s: seq<Unit>)
    requires s != [] && AreUnits(Utf16, s) && DecodeUtf16(Compatible, s).error == NoError
    ensures DecodeUtf16(Compatible, s).unicode <= 0x10FFFF
  {
    if IsSurrogate(s[0]) && s[0] <= 0xDBFF {
      SpreadPair(s[0], s[1]);
    }
  }
}
