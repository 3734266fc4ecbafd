/** The driver's theorems for conversions between UTF-8, UTF-16 and UTF-32. */
module UtfConversions {

  import opened UtfCode
  import opened UtfCodeTheorems
  import opened UtfString
  import opened UtfTheorems
  import opened UtfRoundTrip
  import opened UtfBlocks
  import opened UtfFormats

  function Between(a: Encoding, b: Encoding, mode: CharMode, errors: ErrorMode, out: OutMode,
                   replaceChar: Unit): Options {
    Options(FormatOf(a, mode), FormatOf(b, mode), errors, out, replaceChar)
  }

  // ---- ASCII is plain in every pair of encodings ----

  lemma AsciiDecodes(enc: Encoding, mode: CharMode, u: Unit, rest: seq<Unit>)
    requires IsAscii(u)
    ensures Decode(enc, mode, [u] + rest) == Decoded(NoError, 1, u)
  {
  }

  lemma AsciiEncodes(enc: Encoding, u: Unit)
    requires IsAscii(u)
    ensures Encode(enc, u) == [u]
  {
  }

  lemma AsciiIsPlain(opt: Options, a: Encoding, b: Encoding, mode: CharMode, u: Unit)
    requires opt.input == FormatOf(a, mode) && opt.output == FormatOf(b, mode) && IsAscii(u)
    ensures Plain(opt, u)
  {
    forall rest
      ensures opt.input.decode([u] + rest) == Decoded(NoError, 1, u)
    {
      AsciiDecodes(a, mode, u, rest);
    }
    AsciiEncodes(b, u);
  }

  lemma AsciiBlocksArePlain(opt: Options, a: Encoding, b: Encoding, mode: CharMode)
    requires opt.input == FormatOf(a, mode) && opt.output == FormatOf(b, mode)
    ensures BlocksArePlain(opt)
  {
    forall s | AsciiBlock(a, s)
      ensures AllPlain(opt, s)
    {
      WordTest(a, s);
      forall i | 0 <= i < |s|
        ensures Plain(opt, s[i])
      {
        AsciiIsPlain(opt, a, b, mode, s[i]);
      }
    }
  }

  // ---- Two passes, and the round trip ----

  /** Count with an empty buffer, allocate, convert: for any encodings, decoding mode and error mode. */
  lemma CountThenConvertAll(a: Encoding, b: Encoding, mode: CharMode, errors: ErrorMode, replaceChar: Unit,
                            s: seq<Unit>)
    ensures var opt := Between(a, b, mode, errors, Normal, replaceChar);
      var count := opt.(outMode := Count);
      && Steps(opt.input) && Moves(ByBlock(opt)) && Moves(ByBlock(count))
      && var first := Run(ByBlock(count), s, 0, START);
      && first.Finished? && first.text.out == []
      && var need := first.text.report.need;
      var second := Run(ByBlock(opt), s, need, START);
      && second == Finished(Scan(opt, s, need, START))
      && second.text.out == EncodeAll(opt.output, CodesOf(opt, s))
      && |second.text.out| == second.text.report.outputBlocks == need
      && SameTally(second.text.report, first.text.report)
  {
    var opt := Between(a, b, mode, errors, Normal, replaceChar);
    FormatSteps(a, mode);
    AsciiBlocksArePlain(opt, a, b, mode);
    CountThenConvert(opt, s);
  }

  /** A strict conversion that accepts all of a text is undone by the strict conversion back. */
  lemma StrictRoundTrip(a: Encoding, b: Encoding, errors: ErrorMode, replaceChar: Unit, s: seq<Unit>, room: nat,
                        room': nat)
    requires AreUnits(a, s) && |s| <= room'
    requires Steps(FormatOf(a, Strict))
    requires Scan(Between(a, b, Strict, errors, Normal, replaceChar), s, room, START).report.status == Ok
    ensures Steps(FormatOf(b, Strict))
    ensures var t := Scan(Between(a, b, Strict, errors, Normal, replaceChar), s, room, START);
      var back := Scan(Between(b, a, Strict, errors, Normal, replaceChar), t.out, room', START);
      && back.out == s && back.report.status == Ok && back.report.errors == {}
      && back.report.normalChars == t.report.normalChars && t.report.inputBlocks == |s|
  {
    StrictIsExact(a);
    StrictIsExact(b);
    UnitsOfFormat(a, Strict, s);
    RoundTrip(Between(a, b, Strict, errors, Normal, replaceChar), Between(b, a, Strict, errors, Normal, replaceChar),
              s, room, room');
  }

  /** What a format encodes is units of it. */
  lemma EncodedUnits(a: Encoding, mode: CharMode, cs: seq<Unit>)
    ensures AreUnits(a, EncodeAll(FormatOf(a, mode), cs))
  {
    var f := FormatOf(a, mode);
    forall u
      ensures AreUnitsOf(f, f.encode(u))
    {
      EncodeIsUnits(a, u);
      UnitsOfFormat(a, mode, Encode(a, u));
    }
    EncodeAllIsUnits(f, cs);
    UnitsOfFormat(a, mode, EncodeAll(f, cs));
  }

  /**
   * The codes a strict run passes on are legal, and its output is well formed
   * however the run ends: it reads as the first of those codes, in order.
   */
  lemma StrictOutput(a: Encoding, b: Encoding, errors: ErrorMode, replaceChar: Unit, s: seq<Unit>, room: nat)
    returns (k: nat)
    requires AreUnits(a, s) && (errors.Replace? ==> Legal(replaceChar))
    ensures var opt := Between(a, b, Strict, errors, Normal, replaceChar);
      && Steps(opt.input) && Steps(opt.output)
      && k <= |CodesOf(opt, s)| && AllLegal(opt.input, CodesOf(opt, s))
      && AreUnits(b, Scan(opt, s, room, START).out)
      && WellFormed(opt.output, Scan(opt, s, room, START).out)
      && Parse(opt.output, Scan(opt, s, room, START).out) == Clean(opt.output, CodesOf(opt, s)[..k])
      && (OutOverflow !in Scan(opt, s, room, START).report.errors ==> k == |CodesOf(opt, s)|)
  {
    var opt := Between(a, b, Strict, errors, Normal, replaceChar);
    StrictIsExact(a);
    StrictIsExact(b);
    UnitsOfFormat(a, Strict, s);
    CodesAreLegal(opt, s);
    k := OutputWellFormed(opt, s, room);
    EncodedUnits(b, Strict, CodesOf(opt, s)[..k]);
  }

  // ---- A buffer as long as the input ----

  lemma NoLongerFromUtf8(b: Encoding, mode: CharMode, s: seq<Unit>)
    requires s != [] && DecodeUtf8(mode, s).error == NoError
    ensures |Encode(b, DecodeUtf8(mode, s).unicode)| <= DecodeUtf8(mode, s).blocks
  {
    if |s| >= 2 {
      ShortJoins(s[0], s[1], 0);
    }
    if |s| >= 3 {
      ShortJoins(s[0], s[1], s[2]);
    }
  }

  lemma NoLongerFromUtf16(b: Encoding, mode: CharMode, s: seq<Unit>)
    requires s != [] && AreUnits(Utf16, s) && DecodeUtf16(mode, s).error == NoError && !b.Utf8?
    ensures |Encode(b, DecodeUtf16(mode, s).unicode)| <= DecodeUtf16(mode, s).blocks
  {
  }

  /** Units never get narrower from a to b. */
  predicate Widens(a: Encoding, b: Encoding) {
    Lanes(a) >= Lanes(b)
  }

  lemma NoCharacterGrows(a: Encoding, b: Encoding, mode: CharMode, s: seq<Unit>)
    requires Widens(a, b) && s != [] && AreUnits(a, s) && Decode(a, mode, s).error == NoError
    ensures |Encode(b, Decode(a, mode, s).unicode)| <= Decode(a, mode, s).blocks
  {
    match a
    case Utf8 => NoLongerFromUtf8(b, mode, s);
    case Utf16 => NoLongerFromUtf16(b, mode, s);
    case Utf32 =>
  }

  /**
   * Between units of the same width or into wider ones, a buffer as long as
   * the input is never overrun by the block path, and the run is the scalar
   * one; a substitute must be a single unit.
   */
  lemma InputLengthIsEnough(a: Encoding, b: Encoding, mode: CharMode, errors: ErrorMode, replaceChar: Unit,
                            s: seq<Unit>, room: nat, r: Report)
    requires Widens(a, b) && AreUnits(a, s) && |s| <= room
    requires errors.Replace? ==> |Encode(b, replaceChar)| == 1
    ensures var opt := Between(a, b, mode, errors, Normal, replaceChar);
      && Steps(opt.input) && Moves(ByBlock(opt))
      && Run(ByBlock(opt), s, room, r) == Finished(Scan(opt, s, room, r))
  {
    var opt := Between(a, b, mode, errors, Normal, replaceChar);
    FormatSteps(a, mode);
    forall s | s != [] && AreUnitsOf(opt.input, s) && opt.input.decode(s).error == NoError
      ensures |opt.output.encode(opt.input.decode(s).unicode)| <= opt.input.decode(s).blocks
    {
      UnitsOfFormat(a, mode, s);
      NoCharacterGrows(a, b, mode, s);
    }
    UnitsOfFormat(a, mode, s);
    RoomForInputIsSafe(opt, s, room, r);
    AsciiBlocksArePlain(opt, a, b, mode);
    BlockLoop(opt, s, room, r);
  }
}
