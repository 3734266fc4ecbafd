/**
 * UTF-8, UTF-16 and UTF-32 as the driver's formats: the laws it asks for hold,
 * so its theorems hold of every pair of encodings.
 */
module UtfFormats {

  import opened UtfCode
  import opened UtfCodeTheorems
  import opened UtfString

  // ---- Eight bytes read as one word ----

  function Lanes(enc: Encoding): (n: nat) {
    match enc case Utf8 => 8 case Utf16 => 4 case Utf32 => 2
  }

  /** The lanes of eight bytes, first lane lowest. */
  function Gather(enc: Encoding, s: seq<Unit>): bv64
    requires |s| == Lanes(enc)
  {
    match enc
    case Utf8 => Low4(s[0], s[1], s[2], s[3]) | (Low4(s[4], s[5], s[6], s[7]) << 32)
    case Utf16 => Low2(s[0], s[1]) | (Low2(s[2], s[3]) << 32)
    case Utf32 => (s[0] as bv64) | ((s[1] as bv64) << 32)
  }

  function Low2(a: Unit, b: Unit): bv64 {
    (a as bv64) | ((b as bv64) << 16)
  }

  function Low4(a: Unit, b: Unit, c: Unit, d: Unit): bv64 {
    (a as bv64) | ((b as bv64) << 8) | ((c as bv64) << 16) | ((d as bv64) << 24)
  }

  /** The bits that no ASCII character has. */
  function WordMask(enc: Encoding): bv64 {
    match enc
    case Utf8 => 0x8080_8080_8080_8080
    case Utf16 => 0xFF80_FF80_FF80_FF80
    case Utf32 => 0xFFFF_FF80_FFFF_FF80
  }

  /** One mask test on the word; the units' type keeps them in range. */
  predicate AsciiBlock(enc: Encoding, s: seq<Unit>) {
    |s| == Lanes(enc) && AreUnits(enc, s) && Gather(enc, s) & WordMask(enc) == 0
  }

  predicate IsAscii(u: Unit) {
    u < 0x80
  }

  lemma Mask4(a: Unit, b: Unit, c: Unit, d: Unit)
    requires a <= 0xFF && b <= 0xFF && c <= 0xFF && d <= 0xFF
    ensures Low4(a, b, c, d) & 0x8080_8080 == 0 <==> IsAscii(a) && IsAscii(b) && IsAscii(c) && IsAscii(d)
    ensures Low4(a, b, c, d) <= 0xFFFF_FFFF
  {
  }

  lemma Mask2(a: Unit, b: Unit)
    requires a <= 0xFFFF && b <= 0xFFFF
    ensures Low2(a, b) & 0xFF80_FF80 == 0 <==> IsAscii(a) && IsAscii(b)
    ensures Low2(a, b) <= 0xFFFF_FFFF
  {
  }

  lemma Mask1(a: Unit)
    ensures (a as bv64) & 0xFFFF_FF80 == 0 <==> IsAscii(a)
    ensures a as bv64 <= 0xFFFF_FFFF
  {
  }

  lemma Halves8(low: bv64, high: bv64)
    requires low <= 0xFFFF_FFFF && high <= 0xFFFF_FFFF
    ensures (low | (high << 32)) & 0x8080_8080_8080_8080 == 0 <==> low & 0x8080_8080 == 0 && high & 0x8080_8080 == 0
  {
  }

  lemma Halves16(low: bv64, high: bv64)
    requires low <= 0xFFFF_FFFF && high <= 0xFFFF_FFFF
    ensures (low | (high << 32)) & 0xFF80_FF80_FF80_FF80 == 0 <==> low & 0xFF80_FF80 == 0 && high & 0xFF80_FF80 == 0
  {
  }

  lemma Halves32(low: bv64, high: bv64)
    requires low <= 0xFFFF_FFFF && high <= 0xFFFF_FFFF
    ensures (low | (high << 32)) & 0xFFFF_FF80_FFFF_FF80 == 0 <==> low & 0xFFFF_FF80 == 0 && high & 0xFFFF_FF80 == 0
  {
  }

  predicate AllAscii(s: seq<Unit>) {
    forall i :: 0 <= i < |s| ==> IsAscii(s[i])
  }

  lemma WordTest8(s: seq<Unit>)
    requires |s| == 8 && AreUnits(Utf8, s)
    ensures Gather(Utf8, s) & WordMask(Utf8) == 0 <==> AllAscii(s)
  {
    Mask4(s[0], s[1], s[2], s[3]);
    Mask4(s[4], s[5], s[6], s[7]);
    Halves8(Low4(s[0], s[1], s[2], s[3]), Low4(s[4], s[5], s[6], s[7]));
  }

  lemma WordTest16(s: seq<Unit>)
    requires |s| == 4 && AreUnits(Utf16, s)
    ensures Gather(Utf16, s) & WordMask(Utf16) == 0 <==> AllAscii(s)
  {
    Mask2(s[0], s[1]);
    Mask2(s[2], s[3]);
    Halves16(Low2(s[0], s[1]), Low2(s[2], s[3]));
  }

  lemma WordTest32(s: seq<Unit>)
    requires |s| == 2
    ensures Gather(Utf32, s) & WordMask(Utf32) == 0 <==> AllAscii(s)
  {
    Mask1(s[0]);
    Mask1(s[1]);
    Halves32(s[0] as bv64, s[1] as bv64);
  }

  /** One mask test on the word is the test that every unit is ASCII. */
  lemma {:induction false} WordTest(enc: Encoding, s: seq<Unit>)
    requires |s| == Lanes(enc) && AreUnits(enc, s)
    ensures AsciiBlock(enc, s) <==> AllAscii(s)
  {
    match enc
    case Utf8 => WordTest8(s);
    case Utf16 => WordTest16(s);
    case Utf32 => WordTest32(s);
  }

  // ---- The formats ----

  function FormatOf(enc: Encoding, mode: CharMode): Format {
    Format((u: Unit) => IsUnit(enc, u), Legal, (s: seq<Unit>) => Decode(enc, mode, s), (u: Unit) => Encode(enc, u),
           Lanes(enc), (s: seq<Unit>) => AsciiBlock(enc, s))
  }

  lemma FormatSteps(enc: Encoding, mode: CharMode)
    ensures Steps(FormatOf(enc, mode))
  {
  }

  /** Every decoding mode reads the encoding of a legal code back, since strict decoding does. */
  lemma FormatDecodesBack(enc: Encoding, mode: CharMode)
    ensures DecodesBack(FormatOf(enc, mode))
  {
    forall u, rest | Legal(u)
      ensures Decode(enc, mode, Encode(enc, u) + rest) == Decoded(NoError, |Encode(enc, u)|, u)
    {
      DecodeOfEncode(enc, u, rest);
      ModesAgree(enc, Strict, mode, Encode(enc, u) + rest);
    }
  }

  lemma UnitsOfFormat(enc: Encoding, mode: CharMode, s: seq<Unit>)
    ensures AreUnitsOf(FormatOf(enc, mode), s) <==> AreUnits(enc, s)
  {
    var f := FormatOf(enc, mode);
    assert forall u :: f.isUnit(u) <==> IsUnit(enc, u);
  }

  lemma StrictAcceptsOnly(enc: Encoding)
    ensures AcceptsOnly(FormatOf(enc, Strict))
  {
    var f := FormatOf(enc, Strict);
    forall s: seq<Unit> | s != [] && AreUnitsOf(f, s) && f.decode(s).error == NoError
      ensures f.legal(f.decode(s).unicode) && f.decode(s).blocks <= |s|
           && s[..f.decode(s).blocks] == f.encode(f.decode(s).unicode)
    {
      UnitsOfFormat(enc, Strict, s);
      EncodeOfDecode(enc, s);
    }
  }

  /** Every strict format decodes exactly what it encodes. */
  lemma StrictIsExact(enc: Encoding)
    ensures Exact(FormatOf(enc, Strict))
  {
    FormatSteps(enc, Strict);
    FormatDecodesBack(enc, Strict);
    StrictAcceptsOnly(enc);
  }
}
