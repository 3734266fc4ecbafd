/**
 * What a text in an encoding means, read unit by unit without the decoder, and
 * that this is what a conversion passes on: a bad character never costs the
 * characters around it.
 */
module UtfMeaning {

  import opened UtfCode
  import opened UtfDecoding
  import opened UtfString
  import opened UtfFormats
  import opened UtfConversions

  /** The codes of a text: each first unit calls for so many, and they spell a code or are at fault. */
  function Meant(enc: Encoding, mode: CharMode, errors: ErrorMode, replaceChar: Unit, s: seq<Unit>): seq<Unit>
    decreases |s|
  {
    if !Complete(enc, s) then []
    else
      var e, rest := Fault(enc, mode, s), s[LeadLength(enc, s[0])..];
      if e == NoError then [Spelled(enc, s)] + Meant(enc, mode, errors, replaceChar, rest)
      else
        match errors
        case Stop => []
        case Skip => Meant(enc, mode, errors, replaceChar, rest)
        case Replace => [replaceChar] + Meant(enc, mode, errors, replaceChar, rest)
  }

  lemma CodesFirst(opt: Options, s: seq<Unit>)
    requires Steps(opt.input) && s != [] && opt.input.decode(s).error != InTruncated
    ensures var d := opt.input.decode(s);
      CodesOf(opt, s) ==
        if d.error == NoError then [d.unicode] + CodesOf(opt, s[d.blocks..])
        else match opt.errorMode
          case Stop => []
          case Skip => CodesOf(opt, s[d.blocks..])
          case Replace => [opt.replaceChar] + CodesOf(opt, s[d.blocks..])
  {
    var d := opt.input.decode(s);
    assert Parse(opt.input, s)[0] == d && Parse(opt.input, s)[1..] == Parse(opt.input, s[d.blocks..]);
  }

  lemma CodesOfTruncated(opt: Options, s: seq<Unit>)
    requires Steps(opt.input) && s != [] && opt.input.decode(s).error == InTruncated
    ensures CodesOf(opt, s) == []
  {
  }

  lemma ReadsFront(f: Format, enc: Encoding, mode: CharMode, s: seq<Unit>)
    requires f == FormatOf(enc, mode) && AreUnits(enc, s) && s != []
    ensures f.decode(s).error == InTruncated <==> !Complete(enc, s)
    ensures Complete(enc, s) ==>
      && f.decode(s).blocks == LeadLength(enc, s[0]) && f.decode(s).error == Fault(enc, mode, s)
      && (Fault(enc, mode, s) == NoError ==> f.decode(s).unicode == Spelled(enc, s))
  {
    DecodeMeans(enc, mode, s);
  }

  lemma {:induction false} PassesOn(opt: Options, enc: Encoding, mode: CharMode, s: seq<Unit>)
    requires opt.input == FormatOf(enc, mode) && Steps(opt.input) && AreUnits(enc, s)
    ensures CodesOf(opt, s) == Meant(enc, mode, opt.errorMode, opt.replaceChar, s)
    decreases |s|
  {
    if s != [] {
      ReadsFront(opt.input, enc, mode, s);
      if Complete(enc, s) {
        CodesFirst(opt, s);
        PassesOn(opt, enc, mode, s[LeadLength(enc, s[0])..]);
      } else {
        CodesOfTruncated(opt, s);
      }
    }
  }

  /** A conversion passes on what the text means. */
  lemma CodesMean(a: Encoding, b: Encoding, mode: CharMode, errors: ErrorMode, out: OutMode, replaceChar: Unit,
                  s: seq<Unit>)
    requires AreUnits(a, s)
    ensures var opt := Between(a, b, mode, errors, out, replaceChar);
      Steps(opt.input) && CodesOf(opt, s) == Meant(a, mode, errors, replaceChar, s)
  {
    FormatSteps(a, mode);
    PassesOn(Between(a, b, mode, errors, out, replaceChar), a, mode, s);
  }

  lemma StrayAlone(enc: Encoding, mode: CharMode, u: Unit, rest: seq<Unit>)
    requires IsUnit(enc, u) && Stray(enc, u)
    ensures Complete(enc, [u] + rest) && LeadLength(enc, u) == 1 && Fault(enc, mode, [u] + rest) == InvalidSource
  {
  }

  /** A stray unit before a text costs nothing but itself: it is skipped, or replaced, or ends a run that stops. */
  lemma StrayUnit(a: Encoding, b: Encoding, mode: CharMode, errors: ErrorMode, out: OutMode, replaceChar: Unit,
                  u: Unit, rest: seq<Unit>)
    requires AreUnits(a, rest) && IsUnit(a, u) && Stray(a, u)
    ensures var opt := Between(a, b, mode, errors, out, replaceChar);
      && Steps(opt.input)
      && CodesOf(opt, [u] + rest) ==
           match errors
           case Stop => []
           case Skip => CodesOf(opt, rest)
           case Replace => [replaceChar] + CodesOf(opt, rest)
  {
    StrayAlone(a, mode, u, rest);
    assert ([u] + rest)[1..] == rest;
    CodesMean(a, b, mode, errors, out, replaceChar, rest);
    CodesMean(a, b, mode, errors, out, replaceChar, [u] + rest);
  }
}
