/**
 * What a run reports, in every output mode and every error mode, for every
 * text and every room: its status, whether it overflowed, and its counters.
 */
module UtfReports {

  import opened UtfCode
  import opened UtfString
  import opened UtfTheorems
  import opened UtfRoundTrip

  // ---- Overflow ----

  lemma AdvanceFull(opt: Options, d: Decoded, room: nat, r: Report)
    requires opt.outMode.Full? && d.error != OutOverflow
    ensures match Advance(opt, d, room, r)
      case Halt(last) => Stops(opt, d) && (OutOverflow in last.errors <==> OutOverflow in r.errors)
      case Go(units, next) =>
        && !Stops(opt, d)
        && if |Asked(opt, d)| <= room then
             |units| == |Asked(opt, d)| && (OutOverflow in next.errors <==> OutOverflow in r.errors)
           else units == [] && OutOverflow in next.errors
  {
  }

  lemma {:induction false} PlayFull(opt: Options, ds: seq<Decoded>, room: nat, r: Report)
    requires opt.outMode.Full? && forall d :: d in ds ==> d.error != OutOverflow
    ensures OutOverflow in Play(opt, ds, room, r).report.errors <==>
      OutOverflow in r.errors || room < |EncodeAll(opt.output, Codes(opt, ds))|
  {
    if ds != [] {
      AdvanceFull(opt, ds[0], room, r);
      match Advance(opt, ds[0], room, r)
      case Halt(_) =>
      case Go(units, next) =>
        PlayFull(opt, ds[1..], room - |units|, next);
        AskedFirst(opt, ds);
    }
  }

  lemma {:induction false} PlayCountOverflow(opt: Options, ds: seq<Decoded>, room: nat, r: Report)
    requires opt.outMode.Count? && OutOverflow !in r.errors && forall d :: d in ds ==> d.error != OutOverflow
    ensures OutOverflow !in Play(opt, ds, room, r).report.errors
  {
    if ds != [] {
      match Advance(opt, ds[0], room, r)
      case Halt(_) =>
      case Go(units, next) => PlayCountOverflow(opt, ds[1..], room - |units|, next);
    }
  }

  /** A run reports an overflow exactly when it has a buffer and the buffer is too small for the whole conversion. */
  lemma OverflowMeans(opt: Options, s: seq<Unit>, room: nat)
    requires Steps(opt.input)
    ensures OutOverflow in Scan(opt, s, room, START).report.errors <==> !opt.outMode.Count? && room < Needed(opt, s)
  {
    var ds := Parse(opt.input, s);
    ParseNeverOverflows(opt.input, s);
    match opt.outMode
    case Count => PlayCountOverflow(opt, ds, room, START);
    case Full => PlayFull(opt, ds, room, START);
    case Normal =>
      OverflowIff(opt, s, room);
      TwoPasses(opt, s, room);
  }

  // ---- Status ----

  /** A bad character that ends the run: a truncated one always, any other one unless errors are skipped or replaced. */
  predicate Fatal(opt: Options, d: Decoded) {
    d.error != NoError && (d.error == InTruncated || opt.errorMode == Stop)
  }

  predicate AnyFatal(opt: Options, ds: seq<Decoded>) {
    exists d :: d in ds && Fatal(opt, d)
  }

  lemma AdvanceStatus(opt: Options, d: Decoded, room: nat, r: Report)
    requires r.status != Failed
    ensures match Advance(opt, d, room, r)
      case Halt(last) => last.status == Failed && (Fatal(opt, d) || (opt.outMode.Normal? && room < |Asked(opt, d)|))
      case Go(units, next) =>
        && !Fatal(opt, d) && next.status != Failed
        && (next.status == Ok <==>
              r.status == Ok && d.error == NoError && (opt.outMode.Count? || |Asked(opt, d)| <= room))
        && (opt.outMode.Normal? ==> |Asked(opt, d)| <= room)
        && |units| == if opt.outMode.Count? || |Asked(opt, d)| > room then 0 else |Asked(opt, d)|
  {
  }

  lemma AskedAtFront(opt: Options, ds: seq<Decoded>)
    requires ds != []
    ensures |Asked(opt, ds[0])| <= |EncodeAll(opt.output, Codes(opt, ds))|
    ensures !Fatal(opt, ds[0]) ==>
      |EncodeAll(opt.output, Codes(opt, ds))|
      == |Asked(opt, ds[0])| + |EncodeAll(opt.output, Codes(opt, ds[1..]))|
  {
    if !Stops(opt, ds[0]) {
      AskedFirst(opt, ds);
    }
  }

  lemma FatalAtFront(opt: Options, d: Decoded, ds: seq<Decoded>)
    ensures AnyFatal(opt, [d] + ds) <==> Fatal(opt, d) || AnyFatal(opt, ds)
    ensures NoErrors([d] + ds) <==> d.error == NoError && NoErrors(ds)
    ensures Fatal(opt, d) ==> d.error != NoError
  {
    assert forall x :: x in [d] + ds <==> x == d || x in ds;
  }

  lemma {:induction false} PlayStatus(opt: Options, ds: seq<Decoded>, room: nat, r: Report)
    requires r.status != Failed
    ensures var need := |EncodeAll(opt.output, Codes(opt, ds))|;
      var status := Play(opt, ds, room, r).report.status;
      && (status == Failed <==> AnyFatal(opt, ds) || (opt.outMode.Normal? && room < need))
      && (status == Ok <==> r.status == Ok && NoErrors(ds) && (opt.outMode.Count? || need <= room))
  {
    if ds != [] {
      var d, rest := ds[0], ds[1..];
      assert ds == [d] + rest;
      PlayFirst(opt, d, rest, room, r);
      AdvanceStatus(opt, d, room, r);
      AskedAtFront(opt, ds);
      FatalAtFront(opt, d, rest);
      match Advance(opt, d, room, r)
      case Halt(_) =>
      case Go(units, next) => PlayStatus(opt, rest, room - |units|, next);
    }
  }

  /**
   * The status of a run.  It failed exactly when a bad character was fatal or a
   * normal run overflowed; it is ok exactly when the whole text is well formed
   * and was not too long for the buffer; otherwise it is partial.
   */
  lemma StatusMeans(opt: Options, s: seq<Unit>, room: nat)
    requires Steps(opt.input)
    ensures var status := Scan(opt, s, room, START).report.status;
      && (status == Failed <==>
            || AnyFatal(opt, Parse(opt.input, s))
            || (opt.outMode.Normal? && room < Needed(opt, s)))
      && (status == Ok <==> WellFormed(opt.input, s) && (opt.outMode.Count? || Needed(opt, s) <= room))
  {
    PlayStatus(opt, Parse(opt.input, s), room, START);
    NoErrorsWellFormed(opt.input, s);
  }

  // ---- Counters ----

  function Good(ds: seq<Decoded>): nat {
    if ds == [] then 0 else (if ds[0].error == NoError then 1 else 0) + Good(ds[1..])
  }

  /** How many units the characters take. */
  function Length(ds: seq<Decoded>): nat {
    if ds == [] then 0 else ds[0].blocks + Length(ds[1..])
  }

  function Errors(ds: seq<Decoded>): set<Error> {
    set d | d in ds && d.error != NoError :: d.error
  }

  /** The report has counted these characters on top of another report. */
  ghost predicate Counted(r: Report, ds: seq<Decoded>, r': Report) {
    && r'.inputBlocks == r.inputBlocks + Length(ds)
    && r'.normalChars == r.normalChars + Good(ds)
    && r'.errorChars == r.errorChars + |ds| - Good(ds)
    && r'.errors - {OutOverflow} == r.errors - {OutOverflow} + Errors(ds)
  }

  lemma CountedFirst(r: Report, d: Decoded, r1: Report, ds: seq<Decoded>, r': Report)
    requires Counted(r, [d], r1) && Counted(r1, ds, r')
    ensures Counted(r, [d] + ds, r')
  {
    assert ([d] + ds)[1..] == ds;
    assert Errors([d] + ds) == Errors([d]) + Errors(ds);
    assert Good([d]) == if d.error == NoError then 1 else 0;
    assert Length([d]) == d.blocks;
  }

  lemma AdvanceCounted(opt: Options, d: Decoded, room: nat, r: Report)
    requires d.error != OutOverflow
    ensures match Advance(opt, d, room, r)
      case Halt(last) => Counted(r, [d], last) && (Fatal(opt, d) || (opt.outMode.Normal? && room < |Asked(opt, d)|))
      case Go(units, next) =>
        Counted(r, [d], next) && !Fatal(opt, d) && (opt.outMode.Normal? ==> units == Asked(opt, d))
  {
    assert Errors([d]) == if d.error == NoError then {} else {d.error};
  }

  /** A run over the first k characters: it ends there for a reason, or because there are no more. */
  ghost predicate ReadsOnly(opt: Options, ds: seq<Decoded>, room: nat, k: nat) {
    && k <= |ds|
    && (forall j :: 0 <= j < k - 1 ==> !Fatal(opt, ds[j]))
    && (k < |ds| ==> k > 0 && (Fatal(opt, ds[k - 1])
                               || (opt.outMode.Normal? && room < |EncodeAll(opt.output, Codes(opt, ds[..k]))|)))
  }

  lemma ReadsMore(opt: Options, ds: seq<Decoded>, room: nat, k: nat, used: nat)
    requires ds != [] && !Fatal(opt, ds[0]) && used <= room && (opt.outMode.Normal? ==> used == |Asked(opt, ds[0])|)
    requires ReadsOnly(opt, ds[1..], room - used, k)
    ensures ReadsOnly(opt, ds, room, k + 1)
  {
    var front := ds[..k + 1];
    assert front[0] == ds[0] && front[1..] == ds[1..][..k];
    AskedFirst(opt, front);
  }

  lemma {:induction false} PlayCounted(opt: Options, ds: seq<Decoded>, room: nat, r: Report) returns (k: nat)
    requires forall d :: d in ds ==> d.error != OutOverflow
    ensures ReadsOnly(opt, ds, room, k) && Counted(r, ds[..k], Play(opt, ds, room, r).report)
  {
    k := 0;
    if ds != [] {
      var d := ds[0];
      AdvanceCounted(opt, d, room, r);
      assert ds[..1] == [d];
      match Advance(opt, d, room, r)
      case Halt(last) =>
        k := 1;
        if !Stops(opt, d) {
          AskedFirst(opt, [d]);
        }
      case Go(units, next) =>
        k := PlayCounted(opt, ds[1..], room - |units|, next);
        ReadsMore(opt, ds, room, k, |units|);
        CountedFirst(r, d, next, ds[1..][..k], Play(opt, ds[1..], room - |units|, next).report);
        k := k + 1;
        assert ds[..k] == [d] + ds[1..][..k - 1];
    }
  }

  /**
   * The counters of a run are those of the characters it reads: all of them,
   * or as far as the first fatal one, or the one that overflows a normal run.
   * Every kind of error met on the way is reported, none is forgotten and none
   * is made up.
   */
  lemma CountersMean(opt: Options, s: seq<Unit>, room: nat) returns (k: nat)
    requires Steps(opt.input)
    ensures var ds := Parse(opt.input, s);
      var r := Scan(opt, s, room, START).report;
      && ReadsOnly(opt, ds, room, k)
      && r.inputBlocks == Length(ds[..k]) && r.normalChars == Good(ds[..k]) && r.normalChars + r.errorChars == k
      && r.errors - {OutOverflow} == Errors(ds[..k])
  {
    ParseNeverOverflows(opt.input, s);
    k := PlayCounted(opt, Parse(opt.input, s), room, START);
  }
}
