/**
 * One character: the decoder to a 32-bit code and the encoder from it, for
 * UTF-8 (RFC 3629, section 3), UTF-16 (RFC 2781, sections 2.1 and 2.2) and
 * UTF-32.  Code units of all three are 32-bit words within their width.
 */
module UtfCode {

  type Unit = bv32

  datatype Encoding = Utf8 | Utf16 | Utf32

  datatype CharMode = Strict | Compatible | Unchecked

  datatype Error =
    | NoError | InTruncated | OutOverflow | InvalidSource | InvalidUnicode | NonCharacters | Surrogates | NonShortest

  /** What the decoder reports: an error or none, the units it looked at, and the code. */
  datatype Decoded = Decoded(error: Error, blocks: nat, unicode: Unit)

  predicate IsUnit(enc: Encoding, u: Unit) {
    match enc
    case Utf8 => u <= 0xFF
    case Utf16 => u <= 0xFFFF
    case Utf32 => true
  }

  predicate AreUnits(enc: Encoding, s: seq<Unit>) {
    forall i :: 0 <= i < |s| ==> IsUnit(enc, s[i])
  }

  // ---- Which codes are characters ----

  predicate IsSurrogate(u: Unit) {
    0xD800 <= u <= 0xDFFF
  }

  predicate IsNonCharacter(u: Unit) {
    0xFDD0 <= u <= 0xFDEF || u & 0xFFFE == 0xFFFE
  }

  /** A Unicode scalar value that is not a noncharacter. */
  predicate Legal(u: Unit) {
    u <= 0x10FFFF && !IsSurrogate(u) && !IsNonCharacter(u)
  }

  // ---- The bits of a code, gathered from its units and spread over them ----

  function Join2(c1: Unit, c2: Unit): Unit {
    ((c1 & 0x1F) << 6) | (c2 & 0x3F)
  }

  function Join3(c1: Unit, c2: Unit, c3: Unit): Unit {
    ((c1 & 0x0F) << 12) | ((c2 & 0x3F) << 6) | (c3 & 0x3F)
  }

  function Join4(c1: Unit, c2: Unit, c3: Unit, c4: Unit): Unit {
    ((c1 & 0x07) << 18) | ((c2 & 0x3F) << 12) | ((c3 & 0x3F) << 6) | (c4 & 0x3F)
  }

  function JoinPair(c1: Unit, c2: Unit): Unit {
    (((c1 & 0x03FF) << 10) | (c2 & 0x03FF)) + 0x10000
  }

  /** static_cast to a unit of 8 bits. */
  function Byte(u: Unit): Unit {
    u & 0xFF
  }

  /** static_cast to a unit of 16 bits. */
  function Word(u: Unit): Unit {
    u & 0xFFFF
  }

  function Lead2(u: Unit): Unit { Byte(0xC0 | (u >> 6)) }

  function Lead3(u: Unit): Unit { Byte(0xE0 | (u >> 12)) }

  function Lead4(u: Unit): Unit { Byte(0xF0 | (u >> 18)) }

  function Tail12(u: Unit): Unit { Byte(0x80 | ((u >> 12) & 0x3F)) }

  function Tail6(u: Unit): Unit { Byte(0x80 | ((u >> 6) & 0x3F)) }

  function Tail0(u: Unit): Unit { Byte(0x80 | (u & 0x3F)) }

  function High10(u: Unit): Unit { Word(0xD800 | ((u - 0x10000) >> 10)) }

  function Low10(u: Unit): Unit { Word(0xDC00 | (u & 0x3FF)) }

  // ---- Decoding ----

  function Fail(error: Error, blocks: nat): Decoded {
    Decoded(error, blocks, 0)
  }

  /** At least one unit is looked at, and never past the end unless that is the error. */
  predicate Forward(d: Decoded, n: nat) {
    1 <= d.blocks && (d.error != InTruncated ==> d.blocks <= n) && d.error != OutOverflow
  }

  function Decode(enc: Encoding, mode: CharMode, s: seq<Unit>): (d: Decoded)
    ensures Forward(d, |s|)
  {
    if s == [] then Fail(InTruncated, 1)
    else
      match enc
      case Utf8 => DecodeUtf8(mode, s)
      case Utf16 => DecodeUtf16(mode, s)
      case Utf32 => DecodeUtf32(mode, s[0])
  }

  function DecodeUtf8(mode: CharMode, s: seq<Unit>): (d: Decoded)
    requires s != []
    ensures Forward(d, |s|)
  {
    var c1 := s[0];
    if c1 < 0x80 then Decoded(NoError, 1, c1)
    else if c1 & 0xE0 == 0xC0 then
      if |s| < 2 then Fail(InTruncated, 2) else DecodeTwo(mode, c1, s[1])
    else if c1 & 0xF0 == 0xE0 then
      if |s| < 3 then Fail(InTruncated, 3) else DecodeThree(mode, c1, s[1], s[2])
    else if c1 & 0xF8 == 0xF0 then
      if |s| < 4 then Fail(InTruncated, 4) else DecodeFour(mode, c1, s[1], s[2], s[3])
    else Fail(InvalidSource, 1)
  }

  predicate IsTail(c: Unit) {
    c & 0xC0 == 0x80
  }

  function DecodeTwo(mode: CharMode, c1: Unit, c2: Unit): Decoded {
    Settle(TwoError(mode, Join2(c1, c2), c2), 2, Join2(c1, c2))
  }

  function DecodeThree(mode: CharMode, c1: Unit, c2: Unit, c3: Unit): Decoded {
    Settle(ThreeError(mode, Join3(c1, c2, c3), c2, c3), 3, Join3(c1, c2, c3))
  }

  function DecodeFour(mode: CharMode, c1: Unit, c2: Unit, c3: Unit, c4: Unit): Decoded {
    Settle(FourError(mode, Join4(c1, c2, c3, c4), c2, c3, c4), 4, Join4(c1, c2, c3, c4))
  }

  function Settle(error: Error, blocks: nat, unicode: Unit): Decoded {
    if error == NoError then Decoded(NoError, blocks, unicode) else Fail(error, blocks)
  }

  function TwoError(mode: CharMode, unicode: Unit, c2: Unit): (e: Error)
    ensures e != InTruncated && e != OutOverflow
  {
    if !mode.Unchecked? && !IsTail(c2) then InvalidSource
    else if mode.Strict? && unicode < 0x80 then NonShortest
    else NoError
  }

  function ThreeError(mode: CharMode, unicode: Unit, c2: Unit, c3: Unit): (e: Error)
    ensures e != InTruncated && e != OutOverflow
  {
    if !mode.Unchecked? && !(IsTail(c2) && IsTail(c3)) then InvalidSource
    else if mode.Strict? && unicode < 0x800 then NonShortest
    else if mode.Strict? && IsSurrogate(unicode) then Surrogates
    else if mode.Strict? && IsNonCharacter(unicode) then NonCharacters
    else NoError
  }

  function FourError(mode: CharMode, unicode: Unit, c2: Unit, c3: Unit, c4: Unit): (e: Error)
    ensures e != InTruncated && e != OutOverflow
  {
    if !mode.Unchecked? && !(IsTail(c2) && IsTail(c3) && IsTail(c4)) then InvalidSource
    else if mode.Strict? && IsSurrogate(unicode) then Surrogates
    else if mode.Strict? && IsNonCharacter(unicode) then NonCharacters
    else if !mode.Unchecked? && unicode > 0x10FFFF then InvalidUnicode
    else if mode.Strict? && unicode < 0x10000 then NonShortest
    else NoError
  }

  function DecodeUtf16(mode: CharMode, s: seq<Unit>): (d: Decoded)
    requires s != []
    ensures Forward(d, |s|)
  {
    var unicode := s[0];
    if unicode < 0xD800 || unicode > 0xDFFF then DecodeBmp(mode, unicode)
    else if unicode <= 0xDBFF then
      if |s| < 2 then Fail(InTruncated, 2) else DecodePair(mode, unicode, s[1])
    else Fail(InvalidSource, 1)
  }

  function DecodeBmp(mode: CharMode, unicode: Unit): Decoded {
    if mode.Strict? && IsNonCharacter(unicode) then Fail(NonCharacters, 1) else Decoded(NoError, 1, unicode)
  }

  function DecodePair(mode: CharMode, c1: Unit, c2: Unit): Decoded {
    Settle(PairError(mode, JoinPair(c1, c2), c2), 2, JoinPair(c1, c2))
  }

  /** The second and third tests can never hold of a pair's code. */
  function PairError(mode: CharMode, unicode: Unit, c2: Unit): (e: Error)
    ensures e != InTruncated && e != OutOverflow
  {
    if !mode.Unchecked? && (c2 < 0xDC00 || c2 > 0xDFFF) then InvalidSource
    else if mode.Strict? && unicode < 0x10000 then NonShortest
    else if mode.Strict? && IsSurrogate(unicode) then Surrogates
    else if mode.Strict? && unicode & 0xFFFE == 0xFFFE then NonCharacters
    else NoError
  }

  function DecodeUtf32(mode: CharMode, unicode: Unit): (d: Decoded) {
    if mode.Strict? && IsSurrogate(unicode) then Fail(Surrogates, 1)
    else if mode.Strict? && IsNonCharacter(unicode) then Fail(NonCharacters, 1)
    else if !mode.Unchecked? && unicode > 0x10FFFF then Fail(InvalidUnicode, 1)
    else Decoded(NoError, 1, unicode)
  }

  // ---- Encoding ----

  function EncodedLength(enc: Encoding, u: Unit): (n: nat)
    ensures 1 <= n <= 4
  {
    match enc
    case Utf8 => if u <= 0x7F then 1 else if u <= 0x7FF then 2 else if u <= 0xFFFF then 3 else 4
    case Utf16 => if u <= 0xFFFF then 1 else 2
    case Utf32 => 1
  }

  function Encode(enc: Encoding, u: Unit): (s: seq<Unit>)
    ensures |s| == EncodedLength(enc, u)
  {
    match enc
    case Utf8 => EncodeUtf8(u)
    case Utf16 => EncodeUtf16(u)
    case Utf32 => [u]
  }

  function EncodeUtf8(u: Unit): (s: seq<Unit>)
    ensures |s| == EncodedLength(Utf8, u)
  {
    if u <= 0x7F then [u]
    else if u <= 0x7FF then [Lead2(u), Tail0(u)]
    else if u <= 0xFFFF then [Lead3(u), Tail6(u), Tail0(u)]
    else [Lead4(u), Tail12(u), Tail6(u), Tail0(u)]
  }

  function EncodeUtf16(u: Unit): (s: seq<Unit>)
    ensures |s| == EncodedLength(Utf16, u)
  {
    if u <= 0xFFFF then [u] else [High10(u), Low10(u)]
  }

  lemma EncodeIsUnits(enc: Encoding, u: Unit)
    ensures AreUnits(enc, Encode(enc, u))
  {
  }
}
