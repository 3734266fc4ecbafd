/** What the scalar loop writes, counts and reports, for every input and every room. */
module UtfTheorems {

  import opened UtfCode
  import opened UtfString

  // ---- The longest encoded prefix that fits ----

  /** k codes fit into the room and one more, if there is one, does not. */
  ghost predicate Longest(f: Format, cs: seq<Unit>, room: nat, k: nat) {
    && k <= |cs| && |EncodeAll(f, cs[..k])| <= room
    && (k < |cs| ==> |EncodeAll(f, cs[..k + 1])| > room)
  }

  lemma EncodeAllFront(f: Format, u: Unit, cs: seq<Unit>, k: nat)
    requires k <= |cs|
    ensures EncodeAll(f, ([u] + cs)[..k + 1]) == f.encode(u) + EncodeAll(f, cs[..k])
  {
    var front := ([u] + cs)[..k + 1];
    assert front[0] == u && front[1..] == cs[..k];
  }

  lemma LongestNone(f: Format, u: Unit, cs: seq<Unit>, room: nat)
    requires |f.encode(u)| > room
    ensures Longest(f, [u] + cs, room, 0)
  {
    EncodeAllFront(f, u, cs, 0);
  }

  lemma LongestMore(f: Format, u: Unit, cs: seq<Unit>, room: nat, k: nat)
    requires |f.encode(u)| <= room && Longest(f, cs, room - |f.encode(u)|, k)
    ensures Longest(f, [u] + cs, room, k + 1)
    ensures EncodeAll(f, ([u] + cs)[..k + 1]) == f.encode(u) + EncodeAll(f, cs[..k])
  {
    EncodeAllFront(f, u, cs, k);
    if k < |cs| {
      EncodeAllFront(f, u, cs, k + 1);
    }
  }

  lemma {:induction false} EncodeAllGrows(f: Format, cs: seq<Unit>, k: nat)
    requires k <= |cs|
    ensures |EncodeAll(f, cs[..k])| <= |EncodeAll(f, cs)|
  {
    if k > 0 {
      assert cs[..k][1..] == cs[1..][..k - 1];
      EncodeAllGrows(f, cs[1..], k - 1);
    }
  }

  // ---- The loop over characters already decoded ----

  lemma PlayFirst(opt: Options, d: Decoded, ds: seq<Decoded>, room: nat, r: Report)
    ensures Play(opt, [d] + ds, room, r) ==
      match Advance(opt, d, room, r)
      case Halt(last) => Text(last, [])
      case Go(units, next) => Join(units, Play(opt, ds, room - |units|, next))
  {
    var all := [d] + ds;
    assert all[0] == d && all[1..] == ds;
  }

  /** The units one character asks for. */
  function Asked(opt: Options, d: Decoded): seq<Unit> {
    if Stops(opt, d) || Skips(opt, d) then [] else opt.output.encode(Passed(opt, d))
  }

  lemma AskedFirst(opt: Options, ds: seq<Decoded>)
    requires ds != [] && !Stops(opt, ds[0])
    ensures EncodeAll(opt.output, Codes(opt, ds)) == Asked(opt, ds[0]) + EncodeAll(opt.output, Codes(opt, ds[1..]))
  {
    if !Skips(opt, ds[0]) {
      assert Codes(opt, ds)[1..] == Codes(opt, ds[1..]);
    }
  }

  // ---- Normal mode ----

  lemma AdvanceNormal(opt: Options, d: Decoded, room: nat, r: Report)
    requires opt.outMode.Normal? && d.error != OutOverflow && OutOverflow !in r.errors
    ensures match Advance(opt, d, room, r)
      case Halt(last) =>
        && last.outputBlocks == r.outputBlocks && last.need == r.need && last.status == Failed
        && (OutOverflow in last.errors <==> !Stops(opt, d))
        && (!Stops(opt, d) ==> !Skips(opt, d) && |Asked(opt, d)| > room)
      case Go(units, next) =>
        && !Stops(opt, d) && units == Asked(opt, d) && next.outputBlocks == r.outputBlocks + |units|
        && next.need == r.need && OutOverflow !in next.errors
  {
  }

  /** What a normal run has done when it has written the first k codes. */
  ghost predicate Wrote(opt: Options, cs: seq<Unit>, room: nat, r: Report, t: Text, k: nat) {
    && Longest(opt.output, cs, room, k)
    && t.out == EncodeAll(opt.output, cs[..k])
    && t.report.outputBlocks == r.outputBlocks + |t.out|
    && t.report.need == r.need
    && (OutOverflow in t.report.errors <==> k < |cs|)
    && (k < |cs| ==> t.report.status == Failed)
  }

  lemma WroteMore(opt: Options, u: Unit, cs: seq<Unit>, room: nat, r: Report, r': Report, t: Text, k: nat)
    requires var n := |opt.output.encode(u)|;
      && n <= room && r'.outputBlocks == r.outputBlocks + n && r'.need == r.need
      && Wrote(opt, cs, room - n, r', t, k)
    ensures Wrote(opt, [u] + cs, room, r, Join(opt.output.encode(u), t), k + 1)
  {
    LongestMore(opt.output, u, cs, room, k);
  }

  lemma {:induction false} PlayNormal(opt: Options, ds: seq<Decoded>, room: nat, r: Report) returns (k: nat)
    requires opt.outMode.Normal? && OutOverflow !in r.errors
    requires forall d :: d in ds ==> d.error != OutOverflow
    ensures Wrote(opt, Codes(opt, ds), room, r, Play(opt, ds, room, r), k)
  {
    k := 0;
    if ds != [] {
      var d := ds[0];
      AdvanceNormal(opt, d, room, r);
      match Advance(opt, d, room, r)
      case Halt(_) =>
        if !Stops(opt, d) {
          LongestNone(opt.output, Passed(opt, d), Codes(opt, ds[1..]), room);
        }
      case Go(units, next) =>
        k := PlayNormal(opt, ds[1..], room - |units|, next);
        if !Skips(opt, d) {
          WroteMore(opt, Passed(opt, d), Codes(opt, ds[1..]), room, r, next,
                    Play(opt, ds[1..], room - |units|, next), k);
          k := k + 1;
        }
    }
  }

  lemma {:induction false} ParseNeverOverflows(f: Format, s: seq<Unit>)
    requires Steps(f)
    ensures forall d :: d in Parse(f, s) ==> d.error != OutOverflow
    decreases |s|
  {
    if s != [] && f.decode(s).error != InTruncated {
      ParseNeverOverflows(f, s[f.decode(s).blocks..]);
    }
  }

  /** In normal mode the longest encoded prefix that fits is written; overflow says exactly that it is not all. */
  lemma NormalWrites(opt: Options, s: seq<Unit>, room: nat) returns (k: nat)
    requires Steps(opt.input) && opt.outMode.Normal?
    ensures var cs := CodesOf(opt, s);
      var t := Scan(opt, s, room, START);
      && Longest(opt.output, cs, room, k)
      && t.out == EncodeAll(opt.output, cs[..k])
      && t.report.outputBlocks == |t.out|
      && (OutOverflow in t.report.errors <==> k < |cs|)
      && (k < |cs| ==> t.report.status == Failed)
  {
    ParseNeverOverflows(opt.input, s);
    k := PlayNormal(opt, Parse(opt.input, s), room, START);
  }

  // ---- Counting and full mode ----

  lemma AdvanceCounts(opt: Options, d: Decoded, room: nat, r: Report)
    requires !opt.outMode.Normal?
    ensures match Advance(opt, d, room, r)
      case Halt(last) => Stops(opt, d) && last.need == r.need && last.outputBlocks == r.outputBlocks
      case Go(units, next) =>
        && !Stops(opt, d) && next.need == r.need + |Asked(opt, d)|
        && next.outputBlocks == r.outputBlocks + |units| && (opt.outMode.Count? ==> units == [])
  {
  }

  lemma {:induction false} PlayCounts(opt: Options, ds: seq<Decoded>, room: nat, r: Report)
    requires !opt.outMode.Normal?
    ensures var t := Play(opt, ds, room, r);
      && t.report.need == r.need + |EncodeAll(opt.output, Codes(opt, ds))|
      && t.report.outputBlocks == r.outputBlocks + |t.out|
      && (opt.outMode.Count? ==> t.out == [])
  {
    if ds != [] {
      AdvanceCounts(opt, ds[0], room, r);
      match Advance(opt, ds[0], room, r)
      case Halt(_) =>
      case Go(units, next) =>
        PlayCounts(opt, ds[1..], room - |units|, next);
        AskedFirst(opt, ds);
    }
  }

  /** Counting and full mode both report the whole need, whatever the room. */
  lemma CountIsNeed(opt: Options, s: seq<Unit>, room: nat)
    requires Steps(opt.input) && !opt.outMode.Normal?
    ensures Scan(opt, s, room, START).report.need == Needed(opt, s)
    ensures Scan(opt, s, room, START).report.outputBlocks == |Scan(opt, s, room, START).out|
    ensures opt.outMode.Count? ==> Scan(opt, s, room, START).out == []
  {
    PlayCounts(opt, Parse(opt.input, s), room, START);
  }

  // ---- With enough room the output mode does not change the story of the input ----

  /** Both reports tell the same story of the input. */
  ghost predicate SameTally(a: Report, b: Report) {
    && a.inputBlocks == b.inputBlocks && a.normalChars == b.normalChars && a.errorChars == b.errorChars
    && a.status == b.status && a.errors == b.errors
  }

  /** The report of reading alone. */
  function Story(opt: Options, ds: seq<Decoded>, r: Report): Report {
    if ds == [] then r
    else if Stops(opt, ds[0]) then Read(opt, r, ds[0])
    else Story(opt, ds[1..], Read(opt, r, ds[0]))
  }

  lemma AdvanceRoomy(opt: Options, d: Decoded, room: nat, r: Report)
    requires opt.outMode.Count? || |Asked(opt, d)| <= room
    ensures match Advance(opt, d, room, r)
      case Halt(last) => Stops(opt, d) && SameTally(last, Read(opt, r, d))
      case Go(units, next) =>
        && !Stops(opt, d) && SameTally(next, Read(opt, r, d))
        && units == if opt.outMode.Count? then [] else Asked(opt, d)
  {
  }

  lemma {:induction false} PlayRoomy(opt: Options, ds: seq<Decoded>, room: nat, r: Report, r': Report)
    requires opt.outMode.Count? || |EncodeAll(opt.output, Codes(opt, ds))| <= room
    requires SameTally(r, r')
    ensures SameTally(Play(opt, ds, room, r).report, Story(opt, ds, r'))
    ensures !opt.outMode.Count? ==> Play(opt, ds, room, r).out == EncodeAll(opt.output, Codes(opt, ds))
  {
    if ds != [] {
      if !Stops(opt, ds[0]) {
        AskedFirst(opt, ds);
      }
      AdvanceRoomy(opt, ds[0], room, r);
      match Advance(opt, ds[0], room, r)
      case Halt(_) =>
      case Go(units, next) =>
        PlayRoomy(opt, ds[1..], room - |units|, next, Read(opt, r', ds[0]));
    }
  }

  lemma {:induction false} OutModeApart(opt: Options, m: OutMode, ds: seq<Decoded>, r: Report)
    ensures Codes(opt.(outMode := m), ds) == Codes(opt, ds)
    ensures Story(opt.(outMode := m), ds, r) == Story(opt, ds, r)
  {
    if ds != [] {
      OutModeApart(opt, m, ds[1..], Read(opt, r, ds[0]));
    }
  }

  /**
   * The two passes: the count is the exact room.  With it, or more, a run in
   * normal or full mode never overflows, writes exactly that many units, the
   * encoding of every code passed on, and tells the same story of the input;
   * with less it overflows.
   */
  lemma TwoPasses(opt: Options, s: seq<Unit>, room: nat)
    requires Steps(opt.input) && !opt.outMode.Count?
    ensures var count := Scan(opt.(outMode := Count), s, 0, START).report;
      var t := Scan(opt, s, room, START);
      && count.need == Needed(opt, s)
      && (count.need <= room ==>
            && t.report.outputBlocks == |t.out| == count.need
            && t.out == EncodeAll(opt.output, CodesOf(opt, s))
            && SameTally(t.report, count))
  {
    var ds := Parse(opt.input, s);
    var count := opt.(outMode := Count);
    OutModeApart(opt, Count, ds, START);
    CountIsNeed(count, s, 0);
    if Needed(opt, s) <= room {
      PlayRoomy(opt, ds, room, START, START);
      PlayRoomy(count, ds, 0, START, START);
      if opt.outMode.Normal? {
        var k := NormalWrites(opt, s, room);
      } else {
        CountIsNeed(opt, s, room);
      }
    }
  }

  /** A normal run overflows exactly when the room is less than the count. */
  lemma OverflowIff(opt: Options, s: seq<Unit>, room: nat)
    requires Steps(opt.input) && opt.outMode.Normal?
    ensures OutOverflow in Scan(opt, s, room, START).report.errors
       <==> room < Scan(opt.(outMode := Count), s, 0, START).report.need
  {
    var k := NormalWrites(opt, s, room);
    var cs := CodesOf(opt, s);
    assert cs[..|cs|] == cs;
    TwoPasses(opt, s, room);
    if k < |cs| {
      EncodeAllGrows(opt.output, cs, k + 1);
    }
  }

  // ---- A character by itself ----

  /** The two conversions report alike what they wrote and how it ended. */
  ghost predicate SameEnd(c: Single, t: Text) {
    c.status == t.report.status && c.errors == t.report.errors && c.out == t.out
  }

  /** In full mode, a character that is passed on and does not fit. */
  predicate FullOverflow(opt: Options, d: Decoded, room: nat) {
    opt.outMode.Full? && !Stops(opt, d) && |Asked(opt, d)| > room
  }

  /**
   * For a text of one character, char_to_char and str_to_str end alike in
   * every output mode, unless an error is skipped, which the former treats as
   * fatal, a truncated character is to be replaced, which the latter treats as
   * fatal, or full mode overflows, which only the former calls fatal.
   */
  lemma SingleAgreesIff(opt: Options, s: seq<Unit>, room: nat)
    requires Steps(opt.input) && s != [] && opt.input.decode(s).blocks >= |s|
    ensures var d := opt.input.decode(s);
      SameEnd(Convert(opt, d, room), Scan(opt, s, room, START))
      <==> !Skips(opt, d) && !(opt.errorMode.Replace? && d.error == InTruncated) && !FullOverflow(opt, d, room)
  {
    var d := opt.input.decode(s);
    OneCharacter(opt.input, s);
    PlayFirst(opt, d, [], room, START);
    SingleEnd(opt, d, room);
  }

  lemma OneCharacter(f: Format, s: seq<Unit>)
    requires Steps(f) && s != [] && f.decode(s).blocks >= |s|
    ensures Parse(f, s) == [f.decode(s)] + []
    ensures f.decode(s).error != OutOverflow
  {
    var d := f.decode(s);
    assert Forward(d, |s|);
    assert d.error != InTruncated ==> s[d.blocks..] == [];
  }

  lemma SingleEnd(opt: Options, d: Decoded, room: nat)
    requires d.error != OutOverflow
    ensures var c := Convert(opt, d, room);
      match Advance(opt, d, room, START)
      case Halt(last) => SameEnd(c, Text(last, [])) <==> !(opt.errorMode.Replace? && d.error == InTruncated)
      case Go(units, next) => SameEnd(c, Text(next, units)) <==> !Skips(opt, d) && !FullOverflow(opt, d, room)
  {
  }

  /**
   * char_to_char counts the units that str_to_str reads and needs, whether they
   * fit or not, unless a truncated character is replaced: then the substitute's.
   */
  lemma SingleCounts(opt: Options, s: seq<Unit>, room: nat)
    requires Steps(opt.input) && s != [] && opt.input.decode(s).blocks >= |s|
    ensures var d := opt.input.decode(s);
      var c := Convert(opt, d, room);
      && c.inputBlocks == Scan(opt, s, room, START).report.inputBlocks
      && c.outputBlocks == if opt.errorMode.Replace? && d.error == InTruncated then |opt.output.encode(opt.replaceChar)|
                           else Needed(opt, s)
  {
    var d := opt.input.decode(s);
    OneCharacter(opt.input, s);
    PlayFirst(opt, d, [], room, START);
    AskedAlone(opt, d);
    AdvanceReads(opt, d, room);
    ConvertCounts(opt, d, room);
  }

  lemma ConvertCounts(opt: Options, d: Decoded, room: nat)
    ensures var c := Convert(opt, d, room);
      && c.inputBlocks == d.blocks
      && c.outputBlocks == if opt.errorMode.Replace? && d.error == InTruncated then |opt.output.encode(opt.replaceChar)|
                           else |Asked(opt, d)|
  {
  }

  lemma AskedAlone(opt: Options, d: Decoded)
    ensures EncodeAll(opt.output, Codes(opt, [d])) == Asked(opt, d)
  {
    if !Stops(opt, d) {
      AskedFirst(opt, [d]);
      assert Asked(opt, d) + [] == Asked(opt, d);
    }
  }

  lemma AdvanceReads(opt: Options, d: Decoded, room: nat)
    ensures match Advance(opt, d, room, START)
      case Halt(last) => last.inputBlocks == d.blocks
      case Go(_, next) => next.inputBlocks == d.blocks
  {
  }

  /** Where the two differ, char_to_char does as in stop mode, as in normal mode, or as with any other error. */
  lemma SingleElsewhere(opt: Options, d: Decoded, room: nat)
    ensures Convert(opt.(errorMode := Skip), d, room) == Convert(opt.(errorMode := Stop), d, room)
    ensures Convert(opt.(outMode := Full), d, room) == Convert(opt.(outMode := Normal), d, room)
    ensures var any := Convert(opt, d.(error := InvalidSource), room);
      d.error != NoError ==> Convert(opt, d, room) == any.(errors := any.errors - {InvalidSource} + {d.error})
  {
  }
}
