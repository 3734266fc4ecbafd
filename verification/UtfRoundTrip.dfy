/** Strict conversion: its output is always well formed, and converting it back restores the input. */
module UtfRoundTrip {

  import opened UtfCode
  import opened UtfString
  import opened UtfTheorems

  // ---- What strict decoding passes on is legal ----

  lemma LegalFirst(opt: Options, d: Decoded, ds: seq<Decoded>, f: Format)
    requires d.error == NoError ==> f.legal(d.unicode)
    requires opt.errorMode.Replace? ==> f.legal(opt.replaceChar)
    requires AllLegal(f, Codes(opt, ds))
    ensures AllLegal(f, Codes(opt, [d] + ds))
  {
    assert ([d] + ds)[1..] == ds;
  }

  lemma {:induction false} CodesAreLegal(opt: Options, s: seq<Unit>)
    requires Exact(opt.input) && AreUnitsOf(opt.input, s)
    requires opt.errorMode.Replace? ==> opt.input.legal(opt.replaceChar)
    ensures AllLegal(opt.input, CodesOf(opt, s))
    decreases |s|
  {
    if s != [] {
      var d := opt.input.decode(s);
      if d.error == InTruncated {
        LegalFirst(opt, d, [], opt.input);
      } else {
        CodesAreLegal(opt, s[d.blocks..]);
        LegalFirst(opt, d, Parse(opt.input, s[d.blocks..]), opt.input);
      }
    }
  }

  // ---- An encoded sequence of legal codes reads back as those codes ----

  /** What decoding finds in the encoding of legal codes. */
  function Clean(f: Format, cs: seq<Unit>): (ds: seq<Decoded>)
    ensures |ds| == |cs|
  {
    if cs == [] then [] else [Decoded(NoError, |f.encode(cs[0])|, cs[0])] + Clean(f, cs[1..])
  }

  lemma {:induction false} ParseOfEncodeAll(f: Format, cs: seq<Unit>)
    requires Steps(f) && DecodesBack(f) && AllLegal(f, cs)
    ensures Parse(f, EncodeAll(f, cs)) == Clean(f, cs)
    ensures WellFormed(f, EncodeAll(f, cs))
  {
    if cs != [] {
      var units, rest := f.encode(cs[0]), EncodeAll(f, cs[1..]);
      assert f.decode(units + rest) == Decoded(NoError, |units|, cs[0]);
      assert (units + rest)[|units|..] == rest;
      ParseOfEncodeAll(f, cs[1..]);
    }
  }

  lemma {:induction false} CodesOfClean(opt: Options, cs: seq<Unit>)
    ensures Codes(opt, Clean(opt.input, cs)) == cs
  {
    if cs != [] {
      CodesOfClean(opt, cs[1..]);
      assert Clean(opt.input, cs)[1..] == Clean(opt.input, cs[1..]);
    }
  }

  /** A well-formed text is the encoding of the legal codes it holds. */
  lemma {:induction false} WellFormedIsEncoded(f: Format, s: seq<Unit>) returns (cs: seq<Unit>)
    requires Exact(f) && AreUnitsOf(f, s) && WellFormed(f, s)
    ensures AllLegal(f, cs) && s == EncodeAll(f, cs)
    decreases |s|
  {
    cs := [];
    if s != [] {
      var d := f.decode(s);
      var rest := WellFormedIsEncoded(f, s[d.blocks..]);
      cs := [d.unicode] + rest;
      assert cs[1..] == rest;
      assert s == s[..d.blocks] + s[d.blocks..];
    }
  }

  lemma {:induction false} EncodeAllIsUnits(f: Format, cs: seq<Unit>)
    requires forall u :: AreUnitsOf(f, f.encode(u))
    ensures AreUnitsOf(f, EncodeAll(f, cs))
  {
    if cs != [] {
      EncodeAllIsUnits(f, cs[1..]);
      assert AreUnitsOf(f, f.encode(cs[0]));
    }
  }

  // ---- The output of a strict run ----

  /**
   * Whatever the input and the room, the written units decode without error to
   * the first codes passed on, in order: truncation and overflow never leave
   * half a character.
   */
  lemma OutputWellFormed(opt: Options, s: seq<Unit>, room: nat) returns (k: nat)
    requires Exact(opt.input) && Exact(opt.output) && opt.input.legal == opt.output.legal
    requires opt.outMode.Normal? && AreUnitsOf(opt.input, s)
    requires opt.errorMode.Replace? ==> opt.input.legal(opt.replaceChar)
    ensures var out := Scan(opt, s, room, START).out;
      && WellFormed(opt.output, out)
      && k <= |CodesOf(opt, s)| && out == EncodeAll(opt.output, CodesOf(opt, s)[..k])
      && Parse(opt.output, out) == Clean(opt.output, CodesOf(opt, s)[..k])
      && (OutOverflow !in Scan(opt, s, room, START).report.errors ==> k == |CodesOf(opt, s)|)
  {
    k := NormalWrites(opt, s, room);
    CodesAreLegal(opt, s);
    ParseOfEncodeAll(opt.output, CodesOf(opt, s)[..k]);
  }

  // ---- Status Ok means that every character was accepted ----

  predicate NoErrors(ds: seq<Decoded>) {
    forall d :: d in ds ==> d.error == NoError
  }

  lemma AdvanceClean(opt: Options, d: Decoded, room: nat, r: Report)
    requires opt.outMode.Normal? && d.error == NoError && |opt.output.encode(d.unicode)| <= room
    ensures var units := opt.output.encode(d.unicode);
      Advance(opt, d, room, r) == Go(units, r.(inputBlocks := r.inputBlocks + d.blocks,
                                               outputBlocks := r.outputBlocks + |units|,
                                               normalChars := r.normalChars + 1))
  {
  }

  /** The report of a run over good characters with room for all of them. */
  lemma {:induction false} PlayClean(opt: Options, cs: seq<Unit>, room: nat, r: Report)
    requires opt.outMode.Normal? && |EncodeAll(opt.output, cs)| <= room
    ensures Play(opt, Clean(opt.input, cs), room, r) == Text(
      r.(inputBlocks := r.inputBlocks + |EncodeAll(opt.input, cs)|,
         outputBlocks := r.outputBlocks + |EncodeAll(opt.output, cs)|,
         normalChars := r.normalChars + |cs|),
      EncodeAll(opt.output, cs))
  {
    if cs != [] {
      var d := Decoded(NoError, |opt.input.encode(cs[0])|, cs[0]);
      AdvanceClean(opt, d, room, r);
      var m := Advance(opt, d, room, r);
      PlayFirst(opt, d, Clean(opt.input, cs[1..]), room, r);
      PlayClean(opt, cs[1..], room - |m.units|, m.next);
    }
  }

  lemma AdvanceErrors(opt: Options, d: Decoded, room: nat, r: Report)
    requires opt.outMode.Normal?
    ensures match Advance(opt, d, room, r)
      case Halt(last) => last.status == Failed
      case Go(_, next) => next.status == Ok ==> r.status == Ok && d.error == NoError
  {
  }

  lemma {:induction false} PlayErrors(opt: Options, ds: seq<Decoded>, room: nat, r: Report)
    requires opt.outMode.Normal?
    ensures Play(opt, ds, room, r).report.status == Ok ==> r.status == Ok && NoErrors(ds)
  {
    if ds != [] {
      AdvanceErrors(opt, ds[0], room, r);
      match Advance(opt, ds[0], room, r)
      case Halt(_) =>
      case Go(units, next) =>
        PlayErrors(opt, ds[1..], room - |units|, next);
    }
  }

  lemma {:induction false} NoErrorsWellFormed(f: Format, s: seq<Unit>)
    requires Steps(f)
    ensures NoErrors(Parse(f, s)) <==> WellFormed(f, s)
    decreases |s|
  {
    if s != [] {
      var d := f.decode(s);
      assert Parse(f, s)[0] == d;
      if d.error == NoError {
        NoErrorsWellFormed(f, s[d.blocks..]);
        assert Parse(f, s)[1..] == Parse(f, s[d.blocks..]);
      }
    }
  }

  /** A run over the encoding of legal codes, with room for their conversion. */
  lemma EncodedRun(opt: Options, cs: seq<Unit>, room: nat)
    requires Exact(opt.input) && opt.outMode.Normal? && AllLegal(opt.input, cs)
    requires |EncodeAll(opt.output, cs)| <= room
    ensures var s, out := EncodeAll(opt.input, cs), EncodeAll(opt.output, cs);
      Scan(opt, s, room, START) == Text(Report(|s|, |out|, |cs|, 0, 0, Ok, {}), out)
  {
    ParseOfEncodeAll(opt.input, cs);
    PlayClean(opt, cs, room, START);
  }

  /** A well-formed text with enough room: the report and the output in full. */
  lemma AcceptedRun(opt: Options, s: seq<Unit>, room: nat) returns (cs: seq<Unit>)
    requires Exact(opt.input) && opt.outMode.Normal? && AreUnitsOf(opt.input, s)
    requires WellFormed(opt.input, s) && Needed(opt, s) <= room
    ensures AllLegal(opt.input, cs) && s == EncodeAll(opt.input, cs) && cs == CodesOf(opt, s)
    ensures var out := EncodeAll(opt.output, cs);
      Scan(opt, s, room, START) == Text(Report(|s|, |out|, |cs|, 0, 0, Ok, {}), out)
  {
    cs := WellFormedIsEncoded(opt.input, s);
    ParseOfEncodeAll(opt.input, cs);
    CodesOfClean(opt, cs);
    EncodedRun(opt, cs, room);
  }

  /** A run ends with status Ok exactly when the input is well formed and the room is enough. */
  lemma OkIff(opt: Options, s: seq<Unit>, room: nat)
    requires Exact(opt.input) && opt.outMode.Normal? && AreUnitsOf(opt.input, s)
    ensures Scan(opt, s, room, START).report.status == Ok <==> WellFormed(opt.input, s) && Needed(opt, s) <= room
  {
    PlayErrors(opt, Parse(opt.input, s), room, START);
    NoErrorsWellFormed(opt.input, s);
    var k := NormalWrites(opt, s, room);
    assert CodesOf(opt, s)[..|CodesOf(opt, s)|] == CodesOf(opt, s);
    if WellFormed(opt.input, s) && Needed(opt, s) <= room {
      var cs := AcceptedRun(opt, s, room);
    }
  }

  /**
   * The whole-string round trip: when a run accepts all of a text, the run
   * back, given room for the text, accepts all of the output, writes the text
   * again and counts as many characters.
   */
  lemma RoundTrip(opt: Options, back: Options, s: seq<Unit>, room: nat, room': nat)
    requires Exact(opt.input) && Exact(opt.output) && opt.input.legal == opt.output.legal
    requires opt.outMode.Normal? && AreUnitsOf(opt.input, s)
    requires back.outMode.Normal? && back.input == opt.output && back.output == opt.input
    requires Scan(opt, s, room, START).report.status == Ok && |s| <= room'
    ensures var t := Scan(opt, s, room, START);
      && t.report.inputBlocks == |s| && t.report.errorChars == 0 && t.report.errors == {}
      && Scan(back, t.out, room', START) == Text(Report(|t.out|, |s|, t.report.normalChars, 0, 0, Ok, {}), s)
  {
    OkIff(opt, s, room);
    var cs := AcceptedRun(opt, s, room);
    EncodedRun(back, cs, room');
  }
}
