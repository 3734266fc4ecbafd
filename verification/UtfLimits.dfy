/**
 * Limits of the code, for conversions between UTF-8, UTF-16 and UTF-32: when
 * the block path overruns a buffer, when it changes what the scalar loop
 * reports, and when full mode leaves a gap.
 */
module UtfLimits {

  import opened UtfCode
  import opened UtfString
  import opened UtfTheorems
  import opened UtfRoundTrip
  import opened UtfBlocks
  import opened UtfBlockNeeds
  import opened UtfFormats
  import opened UtfConversions

  // ---- Exactly when the guard of the block path is enough ----

  /** Whatever the input, this much room is never overrun. */
  ghost predicate SafeRoom(step: Stepper, a: Encoding, room: nat)
    requires Moves(step)
  {
    forall s :: AreUnits(a, s) ==> Run(step, s, room, START).Finished?
  }

  /** U+00E9, one unit in UTF-16 and UTF-32, is not ASCII. */
  function Accent(a: Encoding): seq<Unit> {
    Encode(a, 0xE9)
  }

  lemma AccentNoBlock(a: Encoding, s: seq<Unit>)
    requires |s| == Lanes(a) && s[0] == Accent(a)[0]
    ensures !AsciiBlock(a, s)
  {
    AccentNotAscii(a);
    if AreUnits(a, s) {
      WordTest(a, s);
    }
  }

  lemma AccentStep(opt: Options, a: Encoding, b: Encoding, mode: CharMode, s: seq<Unit>, room: nat, r: Report)
    requires opt.input == FormatOf(a, mode) && opt.output == FormatOf(b, mode) && !opt.outMode.Count?
    requires !b.Utf8? && room > 0
    ensures TakesOne(BlockStep(opt, Accent(a) + s, room, r), |Accent(a)|)
  {
    var t := Accent(a) + s;
    AccentDecodes(a, mode, s);
    if |t| >= Lanes(a) {
      AccentNoBlock(a, t[..Lanes(a)]);
    }
  }

  predicate TakesOne(m: Step, used: nat) {
    m.On? && m.used == used && |m.units| == 1
  }

  lemma AccentDecodes(a: Encoding, mode: CharMode, s: seq<Unit>)
    ensures Decode(a, mode, Accent(a) + s) == Decoded(NoError, |Accent(a)|, 0xE9)
  {
    match a
    case Utf8 =>
      assert Accent(a) == [0xC3, 0xA9];
    case Utf16 =>
      assert Accent(a) == [0xE9];
    case Utf32 =>
      assert Accent(a) == [0xE9];
  }

  lemma AccentNotAscii(a: Encoding)
    ensures !IsAscii(Accent(a)[0])
  {
  }

  /** So many accents, then a block. */
  function Trap(accent: seq<Unit>, accents: nat, block: seq<Unit>): (s: seq<Unit>) {
    if accents == 0 then block else accent + Trap(accent, accents - 1, block)
  }

  lemma {:induction false} TrapIsUnits(a: Encoding, accents: nat, block: seq<Unit>)
    requires AreUnits(a, block)
    ensures AreUnits(a, Trap(Accent(a), accents, block))
  {
    if accents > 0 {
      EncodeIsUnits(a, 0xE9);
      TrapIsUnits(a, accents - 1, block);
    }
  }

  /** The accents use up the room until only that much is left, and there the block bursts. */
  lemma {:induction false} TrapCloses(step: Stepper, accent: seq<Unit>, accents: nat, block: seq<Unit>, room: nat,
                                      r: Report)
    requires Moves(step) && accent != [] && block != []
    requires forall s, more, r :: more > room ==> TakesOne(step(accent + s, more, r), |accent|)
    requires forall r :: step(block, room, r) == Burst
    ensures Run(step, Trap(accent, accents, block), room + accents, r) == Overrun
  {
    if accents > 0 {
      var rest := Trap(accent, accents - 1, block);
      var m := step(accent + rest, room + accents, r);
      assert TakesOne(m, |accent|);
      assert (accent + rest)[m.used..] == rest;
      TrapCloses(step, accent, accents - 1, block, room, m.next);
    }
  }

  /** A block of the letter A. */
  function Letters(a: Encoding): (s: seq<Unit>)
    ensures |s| == Lanes(a) && AreUnits(a, s) && AllAscii(s)
  {
    seq(Lanes(a), i => 0x41)
  }

  lemma AccentSteps(opt: Options, a: Encoding, b: Encoding, mode: CharMode)
    requires opt.input == FormatOf(a, mode) && opt.output == FormatOf(b, mode) && !opt.outMode.Count? && !b.Utf8?
    ensures forall s, more, r :: more > Lanes(b) ==> TakesOne(ByBlock(opt)(Accent(a) + s, more, r), |Accent(a)|)
  {
    forall s, more, r | more > Lanes(b)
      ensures TakesOne(ByBlock(opt)(Accent(a) + s, more, r), |Accent(a)|)
    {
      AccentStep(opt, a, b, mode, s, more, r);
    }
  }

  lemma LettersBurst(opt: Options, a: Encoding, b: Encoding, mode: CharMode)
    requires opt.input == FormatOf(a, mode) && opt.output == FormatOf(b, mode) && Lanes(a) > Lanes(b)
    ensures forall r :: ByBlock(opt)(Letters(a), Lanes(b), r) == Burst
  {
    WordTest(a, Letters(a));
    assert Letters(a)[..Lanes(a)] == Letters(a);
  }

  lemma RoomIsUnsafe(step: Stepper, a: Encoding, least: nat, room: nat)
    requires Moves(step) && least <= room
    requires forall s, more, r :: more > least ==> TakesOne(step(Accent(a) + s, more, r), |Accent(a)|)
    requires forall r :: step(Letters(a), least, r) == Burst
    ensures !SafeRoom(step, a, room)
  {
    TrapIsUnits(a, room - least, Letters(a));
    TrapCloses(step, Accent(a), room - least, Letters(a), least, START);
  }

  // In count mode only blocks use up room.

  lemma RemainderKeeps(room: nat, n: nat)
    requires n == 8 || n == 4 || n == 2
    ensures room < n ==> room % n == room
    ensures room >= n ==> (room - n) % n == room % n
  {
  }

  lemma CountingIsSafe(opt: Options, a: Encoding, b: Encoding, mode: CharMode, s: seq<Unit>, room: nat)
    requires opt.input == FormatOf(a, mode) && opt.output == FormatOf(b, mode) && opt.outMode.Count?
    requires Steps(opt.input) && room % Lanes(a) < Lanes(b)
    ensures Moves(ByBlock(opt)) && Run(ByBlock(opt), s, room, START).Finished?
  {
    StepsMove(opt);
    var short := (s: seq<Unit>, room: nat) => room % Lanes(a) < Lanes(b);
    forall s, room, r
      ensures Keeps(ByBlock(opt), short, s, room, r)
    {
      if s != [] && short(s, room) {
        CountingStep(opt, a, s, room, r);
      }
    }
    RunFinishes(ByBlock(opt), short, s, room, START);
  }

  lemma CountingStep(opt: Options, a: Encoding, s: seq<Unit>, room: nat, r: Report)
    requires opt.input.lanes == Lanes(a) && opt.outMode.Count? && Steps(opt.input) && s != []
    requires room % Lanes(a) < opt.output.lanes
    ensures match BlockStep(opt, s, room, r)
      case End(_) => true
      case Burst => false
      case On(used, units, _) => used <= |s| && |units| <= room && (room - |units|) % Lanes(a) == room % Lanes(a)
  {
    RemainderKeeps(room, Lanes(a));
    CharSound(opt, s, room, r);
  }

  /** This block, whatever follows, bursts or is copied. */
  ghost predicate CopiesBlock(step: Stepper, block: seq<Unit>, least: nat) {
    forall rest: seq<Unit>, room: nat, r: Report | least <= room ::
      step(block + rest, room, r) == if |block| > room then Burst else On(|block|, block, Copied(r, |block|))
  }

  lemma BlockTurn(step: Stepper, block: seq<Unit>, least: nat, rest: seq<Unit>, room: nat, r: Report)
    requires Moves(step) && block != [] && CopiesBlock(step, block, least) && least <= room
    ensures Run(step, block + rest, room, r)
         == if |block| > room then Overrun else Before(block, Run(step, rest, room - |block|, Copied(r, |block|)))
  {
    assert (block + rest)[|block|..] == rest;
  }

  /** Blocks use up the room until what is left is enough for the guard and not for a block. */
  lemma {:induction false} BlocksBurst(step: Stepper, a: Encoding, block: seq<Unit>, least: nat, room: nat, r: Report)
    returns (s: seq<Unit>)
    requires Moves(step) && CopiesBlock(step, block, least) && AreUnits(a, block)
    requires |block| == Lanes(a) && least <= room % |block|
    ensures AreUnits(a, s) && Run(step, s, room, r) == Overrun
    decreases room
  {
    var n, rest := |block|, [];
    RemainderKeeps(room, n);
    if room >= n {
      rest := BlocksBurst(step, a, block, least, room - n, Copied(r, n));
    }
    s := block + rest;
    BlockTurn(step, block, least, rest, room, r);
  }

  lemma LettersCopied(opt: Options, a: Encoding, b: Encoding, mode: CharMode)
    requires opt.input == FormatOf(a, mode) && opt.output == FormatOf(b, mode)
    ensures CopiesBlock(ByBlock(opt), Letters(a), Lanes(b))
  {
    WordTest(a, Letters(a));
    forall rest: seq<Unit>, room: nat, r: Report | Lanes(b) <= room
      ensures BlockStep(opt, Letters(a) + rest, room, r)
           == if Lanes(a) > room then Burst else On(Lanes(a), Letters(a), Copied(r, Lanes(a)))
    {
      assert (Letters(a) + rest)[..Lanes(a)] == Letters(a);
    }
  }

  /** The room that decides: all of it, or, where only blocks use it up, what whole blocks leave. */
  function Deciding(out: OutMode, a: Encoding, room: nat): nat {
    if out.Count? then room % Lanes(a) else room
  }

  /**
   * The block path keeps inside a buffer of some room, whatever the input,
   * exactly when units do not get wider or the room, less whole blocks of the
   * input in count mode, is below eight bytes.
   */
  lemma SafeRoomIff(a: Encoding, b: Encoding, mode: CharMode, errors: ErrorMode, out: OutMode, replaceChar: Unit,
                    room: nat)
    ensures var opt := Between(a, b, mode, errors, out, replaceChar);
      Moves(ByBlock(opt))
      && (SafeRoom(ByBlock(opt), a, room) <==> Lanes(a) <= Lanes(b) || Deciding(out, a, room) < Lanes(b))
  {
    var opt := Between(a, b, mode, errors, out, replaceChar);
    FormatSteps(a, mode);
    StepsMove(opt);
    if Lanes(a) <= Lanes(b) || Deciding(out, a, room) < Lanes(b) {
      forall s | AreUnits(a, s)
        ensures Run(ByBlock(opt), s, room, START).Finished?
      {
        RoomSuffices(opt, a, b, mode, s, room);
      }
    } else if out.Count? {
      LettersCopied(opt, a, b, mode);
      var s := BlocksBurst(ByBlock(opt), a, Letters(a), Lanes(b), room, START);
    } else {
      AccentSteps(opt, a, b, mode);
      LettersBurst(opt, a, b, mode);
      RoomIsUnsafe(ByBlock(opt), a, Lanes(b), room);
    }
  }

  lemma RoomSuffices(opt: Options, a: Encoding, b: Encoding, mode: CharMode, s: seq<Unit>, room: nat)
    requires opt.input == FormatOf(a, mode) && opt.output == FormatOf(b, mode)
    requires Lanes(a) <= Lanes(b) || Deciding(opt.outMode, a, room) < Lanes(b)
    ensures Moves(ByBlock(opt)) && Run(ByBlock(opt), s, room, START).Finished?
  {
    FormatSteps(a, mode);
    if Lanes(a) <= Lanes(b) {
      NarrowingIsSafe(opt, s, room, START);
    } else if opt.outMode.Count? {
      CountingIsSafe(opt, a, b, mode, s, room);
    } else {
      NoRoomNoBlock(opt, s, room, START);
    }
  }

  // ---- Exactly when blocks change the report ----

  /**
   * With the block path on, counting and full mode report a need that is short
   * by the units copied in blocks, so it is right exactly for the runs that
   * copy none.  Everything else they report of the input is the scalar loop's,
   * and in full mode so is the output.
   */
  lemma NeedWithBlocks(a: Encoding, b: Encoding, mode: CharMode, errors: ErrorMode, out: OutMode, replaceChar: Unit,
                       s: seq<Unit>, room: nat)
    requires !out.Normal?
    ensures var opt := Between(a, b, mode, errors, out, replaceChar);
      && Steps(opt.input) && Moves(ByBlock(opt))
      && var c := Run(ByBlock(opt), s, room, START);
      c.Finished? ==>
        && c.text.report.need + BlockUnits(opt, s, room, START) == Needed(opt, s)
        && (c.text.report.need == Needed(opt, s) <==> BlockUnits(opt, s, room, START) == 0)
        && SameTally(c.text.report, Scan(opt, s, room, START).report)
        && (out.Full? ==> c.text.out == Scan(opt, s, room, START).out)
  {
    var opt := Between(a, b, mode, errors, out, replaceChar);
    FormatSteps(a, mode);
    AsciiBlocksArePlain(opt, a, b, mode);
    NeedIsShort(opt, s, room, START);
    CountIsNeed(opt, s, room);
  }

  /** Whatever the input, the loop with blocks does all that the scalar loop does. */
  ghost predicate BlocksAgree(opt: Options, a: Encoding, room: nat)
    requires Steps(opt.input) && Moves(ByBlock(opt))
  {
    forall s :: AreUnits(a, s) ==> Run(ByBlock(opt), s, room, START) == Finished(Scan(opt, s, room, START))
  }

  lemma LettersNeeded(opt: Options, a: Encoding, b: Encoding, mode: CharMode)
    requires opt.input == FormatOf(a, mode) && opt.output == FormatOf(b, mode) && Steps(opt.input)
    ensures opt.input.ascii(Letters(a)) && Needed(opt, Letters(a)) == Lanes(a)
  {
    var s := Letters(a);
    WordTest(a, s);
    AsciiBlocksArePlain(opt, a, b, mode);
    PlainIsNeeded(opt, s, []);
    assert s + [] == s && Needed(opt, []) == 0;
  }

  /** A run over a single block. */
  lemma SingleBlock(step: Stepper, block: seq<Unit>, least: nat, room: nat, r: Report)
    requires Moves(step) && block != [] && CopiesBlock(step, block, least) && least <= room
    ensures Run(step, block, room, r)
         == if |block| > room then Overrun else Finished(Text(Copied(r, |block|), block))
  {
    BlockTurn(step, block, least, [], room, r);
    assert block + [] == block;
    assert |block| <= room ==>
        Run(step, [], room - |block|, Copied(r, |block|)) == Finished(Text(Copied(r, |block|), []));
  }

  /** One block of letters: it is copied, and the need stays at zero. */
  lemma LettersUncounted(opt: Options, a: Encoding, b: Encoding, mode: CharMode, room: nat)
    requires opt.input == FormatOf(a, mode) && opt.output == FormatOf(b, mode) && Steps(opt.input) &&
      !opt.outMode.Normal?
    requires Lanes(b) <= room
    ensures Moves(ByBlock(opt)) && Scan(opt, Letters(a), room, START).report.need == Lanes(a)
    ensures Run(ByBlock(opt), Letters(a), room, START)
         == if Lanes(a) > room then Overrun else Finished(Text(Copied(START, Lanes(a)), Letters(a)))
  {
    StepsMove(opt);
    LettersNeeded(opt, a, b, mode);
    CountIsNeed(opt, Letters(a), room);
    LettersCopied(opt, a, b, mode);
    SingleBlock(ByBlock(opt), Letters(a), Lanes(b), room, START);
  }

  /**
   * The loop with blocks does what the scalar loop does, for every input,
   * exactly with less room than eight bytes, or in normal mode into units no
   * wider.
   */
  lemma BlocksAgreeIff(a: Encoding, b: Encoding, mode: CharMode, errors: ErrorMode, out: OutMode, replaceChar: Unit,
                       room: nat)
    ensures var opt := Between(a, b, mode, errors, out, replaceChar);
      && Steps(opt.input) && Moves(ByBlock(opt))
      && (BlocksAgree(opt, a, room) <==> room < Lanes(b) || (out.Normal? && Lanes(a) <= Lanes(b)))
  {
    var opt := Between(a, b, mode, errors, out, replaceChar);
    FormatSteps(a, mode);
    StepsMove(opt);
    if room < Lanes(b) || (out.Normal? && Lanes(a) <= Lanes(b)) {
      forall s | AreUnits(a, s)
        ensures Run(ByBlock(opt), s, room, START) == Finished(Scan(opt, s, room, START))
      {
        if room < Lanes(b) {
          NoRoomNoBlock(opt, s, room, START);
        } else {
          NarrowingIsSafe(opt, s, room, START);
          AsciiBlocksArePlain(opt, a, b, mode);
          BlockLoop(opt, s, room, START);
        }
      }
    } else if out.Normal? {
      SafeRoomIff(a, b, mode, errors, out, replaceChar, room);
    } else {
      LettersUncounted(opt, a, b, mode, room);
      assert AreUnits(a, Letters(a));
    }
  }

  /** Eight letters from UTF-8 to UTF-8 in full mode, with room for them: the need comes out as 0 and not 8. */
  lemma FullNeedCanBeShort(errors: ErrorMode, replaceChar: Unit)
    ensures var opt := Between(Utf8, Utf8, Strict, errors, Full, replaceChar);
      && Steps(opt.input) && Moves(ByBlock(opt))
      && Run(ByBlock(opt), Letters(Utf8), 8, START) == Finished(Text(Report(8, 8, 8, 0, 0, Ok, {}), Letters(Utf8)))
      && Scan(opt, Letters(Utf8), 8, START).report.need == 8
  {
    EightLetters(Between(Utf8, Utf8, Strict, errors, Full, replaceChar), Utf8);
  }

  lemma EightLetters(opt: Options, a: Encoding)
    requires a.Utf8? && opt.input == FormatOf(a, Strict) && opt.output == FormatOf(a, Strict) && opt.outMode.Full?
    ensures Steps(opt.input) && Moves(ByBlock(opt))
    ensures Run(ByBlock(opt), Letters(a), 8, START) == Finished(Text(Report(8, 8, 8, 0, 0, Ok, {}), Letters(a)))
    ensures Scan(opt, Letters(a), 8, START).report.need == 8
  {
    FormatSteps(a, Strict);
    LettersUncounted(opt, a, a, Strict, 8);
    assert Copied(START, 8) == Report(8, 8, 8, 0, 0, Ok, {});
  }

  // ---- Full mode: when the written units are not a prefix of the text ----

  /** Whatever the input, what a run that stays in the buffer writes is the front of the converted text. */
  ghost predicate Gapless(step: Stepper, opt: Options, a: Encoding, room: nat)
    requires Moves(step) && Steps(opt.input)
  {
    forall s :: AreUnits(a, s) && Run(step, s, room, START).Finished? ==>
      Run(step, s, room, START).text.out <= EncodeAll(opt.output, CodesOf(opt, s))
  }

  lemma {:induction false} NoRoomNothing(opt: Options, ds: seq<Decoded>, r: Report)
    requires forall u :: opt.output.encode(u) != []
    ensures Play(opt, ds, 0, r).out == []
  {
    if ds != [] {
      match Advance(opt, ds[0], 0, r)
      case Halt(_) =>
      case Go(_, next) => NoRoomNothing(opt, ds[1..], next);
    }
  }

  lemma AdvanceFull(opt: Options, d: Decoded, room: nat, r: Report)
    requires opt.outMode.Full? && forall u :: |opt.output.encode(u)| == 1
    ensures match Advance(opt, d, room, r)
      case Halt(_) => true
      case Go(units, _) => !Stops(opt, d) && if room > 0 then units == Asked(opt, d) else units == []
  {
  }

  /** When every code is one unit, nothing that fits follows what did not. */
  lemma {:induction false} SingleUnitsGapless(opt: Options, ds: seq<Decoded>, room: nat, r: Report)
    requires opt.outMode.Full? && forall u :: |opt.output.encode(u)| == 1
    ensures Play(opt, ds, room, r).out <= EncodeAll(opt.output, Codes(opt, ds))
  {
    if room == 0 {
      NoRoomNothing(opt, ds, r);
    } else if ds != [] {
      AdvanceFull(opt, ds[0], room, r);
      match Advance(opt, ds[0], room, r)
      case Halt(_) =>
      case Go(units, next) =>
        AskedFirst(opt, ds);
        SingleUnitsGapless(opt, ds[1..], room - |units|, next);
    }
  }

  /** A letter, a code too long for one unit of room, a letter that fits. */
  ghost predicate Gap(opt: Options, letter: Unit, long: Unit) {
    && opt.output.encode(letter) == [letter]
    && |opt.output.encode(long)| > 1 && opt.output.encode(long)[0] != letter
  }

  lemma AdvanceGap(opt: Options, d: Decoded, room: nat, r: Report)
    requires opt.outMode.Full? && d.error == NoError && room > 0
    ensures var units := opt.output.encode(d.unicode);
      var m := Advance(opt, d, room, r);
      m.Go? && m.units == if |units| <= room then units else []
  {
  }

  lemma {:induction false} FullSkips(opt: Options, letter: Unit, long: Unit, letters: nat, r: Report)
    requires opt.outMode.Full? && Gap(opt, letter, long)
    ensures Play(opt, Clean(opt.input, Trap([letter], letters, [long, letter])), letters + 1, r).out
         == Trap([letter], letters, [letter])
  {
    var cs := Trap([letter], letters, [long, letter]);
    var d := Clean(opt.input, cs)[0];
    AdvanceGap(opt, d, letters + 1, r);
    var m := Advance(opt, d, letters + 1, r);
    PlayFirst(opt, d, Clean(opt.input, cs[1..]), letters + 1, r);
    if letters == 0 {
      var last := Clean(opt.input, [letter]);
      assert cs[1..] == [letter] && last == [last[0]] + [];
      AdvanceGap(opt, last[0], 1, m.next);
      PlayFirst(opt, last[0], [], 1, m.next);
    } else {
      assert cs[1..] == Trap([letter], letters - 1, [long, letter]);
      FullSkips(opt, letter, long, letters - 1, m.next);
    }
  }

  lemma {:induction false} EncodeTrap(f: Format, letter: Unit, letters: nat, cs: seq<Unit>)
    requires f.encode(letter) == [letter]
    ensures EncodeAll(f, Trap([letter], letters, cs)) == Trap([letter], letters, EncodeAll(f, cs))
  {
    if letters > 0 {
      var rest := Trap([letter], letters - 1, cs);
      assert ([letter] + rest)[1..] == rest;
      EncodeTrap(f, letter, letters - 1, cs);
    }
  }

  lemma {:induction false} TrapPrefix(u: Unit, n: nat, p: seq<Unit>, q: seq<Unit>)
    requires Trap([u], n, p) <= Trap([u], n, q)
    ensures p <= q
  {
    if n > 0 {
      assert Trap([u], n, p)[1..] == Trap([u], n - 1, p) && Trap([u], n, q)[1..] == Trap([u], n - 1, q);
      TrapPrefix(u, n - 1, p, q);
    }
  }

  lemma {:induction false} TrapLegal(f: Format, u: Unit, n: nat, cs: seq<Unit>)
    requires f.legal(u) && AllLegal(f, cs)
    ensures AllLegal(f, Trap([u], n, cs))
  {
    if n > 0 {
      TrapLegal(f, u, n - 1, cs);
    }
  }

  lemma SomeGap(opt: Options, b: Encoding, mode: CharMode) returns (letter: Unit, long: Unit)
    requires opt.output == FormatOf(b, mode) && !b.Utf32?
    ensures Gap(opt, letter, long) && Legal(letter) && Legal(long) && IsAscii(letter) && !IsAscii(long)
  {
    letter, long := 0x41, 0x10348;
  }

  lemma GapRun(opt: Options, letter: Unit, long: Unit, letters: nat)
    requires Steps(opt.input) && DecodesBack(opt.input) && opt.outMode.Full? && Gap(opt, letter, long)
    requires opt.input.legal(letter) && opt.input.legal(long)
    ensures var cs := Trap([letter], letters, [long, letter]);
      var s := EncodeAll(opt.input, cs);
      CodesOf(opt, s) == cs && Scan(opt, s, letters + 1, START).out == Trap([letter], letters, [letter])
  {
    var cs := Trap([letter], letters, [long, letter]);
    TrapLegal(opt.input, letter, letters, [long, letter]);
    ParseOfEncodeAll(opt.input, cs);
    CodesOfClean(opt, cs);
    FullSkips(opt, letter, long, letters, START);
  }

  lemma GapApart(opt: Options, letter: Unit, long: Unit, letters: nat)
    requires Gap(opt, letter, long)
    ensures !(Trap([letter], letters, [letter]) <= EncodeAll(opt.output, Trap([letter], letters, [long, letter])))
  {
    EncodeTrap(opt.output, letter, letters, [long, letter]);
    var text := EncodeAll(opt.output, [long, letter]);
    assert text[0] == opt.output.encode(long)[0];
    if Trap([letter], letters, [letter]) <= Trap([letter], letters, text) {
      TrapPrefix(letter, letters, [letter], text);
    }
  }

  // The same text with the block path on: only letters are copied in blocks, and there is room for them.

  lemma {:induction false} TrapFrom(u: Unit, n: nat, tail: seq<Unit>, k: nat)
    requires k <= n
    ensures |Trap([u], n, tail)| == n + |tail| && Trap([u], n, tail)[k..] == Trap([u], n - k, tail)
    ensures forall i :: 0 <= i < n ==> Trap([u], n, tail)[i] == u
    ensures tail != [] ==> Trap([u], n, tail)[n] == tail[0]
  {
    if n > 0 {
      var t := Trap([u], n, tail);
      TrapFrom(u, n - 1, tail, if k == 0 then 0 else k - 1);
      assert t[1..] == Trap([u], n - 1, tail);
      assert k > 0 ==> t[k..] == t[1..][k - 1..];
    }
  }

  /** A block at the front of the letters is no longer than they are. */
  lemma BlockOfLetters(opt: Options, a: Encoding, mode: CharMode, letter: Unit, tail: seq<Unit>, n: nat, room: nat)
    requires opt.input == FormatOf(a, mode) && tail != [] && !IsAscii(tail[0])
    ensures BlockReady(opt, Trap([letter], n, tail), room) ==> Lanes(a) <= n
  {
    var s := Trap([letter], n, tail);
    TrapFrom(letter, n, tail, n);
    if n < Lanes(a) <= |s| {
      var block := s[..Lanes(a)];
      assert block[n] == tail[0];
      if AreUnits(a, block) {
        WordTest(a, block);
      }
    }
  }

  /** Room for the letters and one unit more, or not enough for the guard. */
  ghost predicate OneToSpare(opt: Options, letter: Unit, tail: seq<Unit>, s: seq<Unit>, room: nat) {
    room < opt.output.lanes || exists n: nat :: room == n + 1 && s == Trap([letter], n, tail)
  }

  lemma LetterStep(opt: Options, letter: Unit, rest: seq<Unit>, room: nat, r: Report)
    requires Plain(opt, letter) && opt.outMode.Full? && room > 0
    ensures var m := CharStep(opt, [letter] + rest, room, r); m.On? && m.used == 1 && |m.units| == 1
  {
  }

  lemma SpareKept(opt: Options, a: Encoding, mode: CharMode, letter: Unit, tail: seq<Unit>,
                  s: seq<Unit>, room: nat, r: Report, n: nat)
    requires opt.input == FormatOf(a, mode) && opt.outMode.Full? && Plain(opt, letter)
    requires tail != [] && !IsAscii(tail[0]) && room == n + 1 >= opt.output.lanes >= 2 && s == Trap([letter], n, tail)
    ensures match BlockStep(opt, s, room, r)
      case End(_) => false
      case Burst => false
      case On(used, units, _) =>
        used <= |s| && |units| <= room && OneToSpare(opt, letter, tail, s[used..], room - |units|)
  {
    BlockOfLetters(opt, a, mode, letter, tail, n, room);
    if BlockReady(opt, s, room) {
      TrapFrom(letter, n, tail, Lanes(a));
    } else {
      TrapFrom(letter, n, tail, 1);
      LetterStep(opt, letter, Trap([letter], n - 1, tail), room, r);
    }
  }

  lemma SpareKeeps(opt: Options, a: Encoding, mode: CharMode, letter: Unit, tail: seq<Unit>, s: seq<Unit>, room: nat,
                   r: Report)
    requires opt.input == FormatOf(a, mode) && Steps(opt.input) && opt.outMode.Full? && Plain(opt, letter)
    requires tail != [] && !IsAscii(tail[0]) && opt.output.lanes >= 2
    requires s != [] && OneToSpare(opt, letter, tail, s, room)
    ensures match BlockStep(opt, s, room, r)
      case End(_) => true
      case Burst => false
      case On(used, units, _) =>
        used <= |s| && |units| <= room && OneToSpare(opt, letter, tail, s[used..], room - |units|)
  {
    if room < opt.output.lanes {
      CharSound(opt, s, room, r);
    } else {
      var n: nat :| room == n + 1 && s == Trap([letter], n, tail);
      SpareKept(opt, a, mode, letter, tail, s, room, r, n);
    }
  }

  ghost function Spare(opt: Options, letter: Unit, tail: seq<Unit>): (seq<Unit>, nat) -> bool {
    (s: seq<Unit>, room: nat) => OneToSpare(opt, letter, tail, s, room)
  }

  lemma SpareAlways(opt: Options, a: Encoding, mode: CharMode, letter: Unit, tail: seq<Unit>)
    requires opt.input == FormatOf(a, mode) && Steps(opt.input) && opt.outMode.Full? && Plain(opt, letter)
    requires tail != [] && !IsAscii(tail[0]) && opt.output.lanes >= 2
    ensures forall s, room, r :: Keeps(ByBlock(opt), Spare(opt, letter, tail), s, room, r)
  {
    forall s, room, r
      ensures Keeps(ByBlock(opt), Spare(opt, letter, tail), s, room, r)
    {
      if s != [] && OneToSpare(opt, letter, tail, s, room) {
        SpareKeeps(opt, a, mode, letter, tail, s, room, r);
      }
    }
  }

  lemma FinishesBy(step: Stepper, opt: Options, letter: Unit, tail: seq<Unit>, n: nat)
    requires Moves(step) && forall s, room, r :: Keeps(step, Spare(opt, letter, tail), s, room, r)
    ensures Run(step, Trap([letter], n, tail), n + 1, START).Finished?
  {
    assert OneToSpare(opt, letter, tail, Trap([letter], n, tail), n + 1);
    RunFinishes(step, Spare(opt, letter, tail), Trap([letter], n, tail), n + 1, START);
  }

  lemma SpareFinishes(opt: Options, a: Encoding, mode: CharMode, letter: Unit, tail: seq<Unit>, n: nat)
    requires opt.input == FormatOf(a, mode) && Steps(opt.input) && opt.outMode.Full? && Plain(opt, letter)
    requires tail != [] && !IsAscii(tail[0]) && opt.output.lanes >= 2
    ensures Moves(ByBlock(opt)) && Run(ByBlock(opt), Trap([letter], n, tail), n + 1, START).Finished?
  {
    StepsMove(opt);
    SpareAlways(opt, a, mode, letter, tail);
    FinishesBy(ByBlock(opt), opt, letter, tail, n);
  }

  // ---- Exactly when full mode leaves a gap ----

  function StepperFor(opt: Options, simd: bool): Stepper {
    if simd then ByBlock(opt) else ByChar(opt)
  }

  /** In full mode a run that stays in the buffer writes what the scalar loop writes, with blocks or without. */
  lemma FullWrites(opt: Options, simd: bool, s: seq<Unit>, room: nat)
    requires Steps(opt.input) && BlocksArePlain(opt) && opt.outMode.Full?
    ensures Moves(StepperFor(opt, simd))
    ensures var c := Run(StepperFor(opt, simd), s, room, START);
      c.Finished? ==> c.text.out == Scan(opt, s, room, START).out
  {
    ScalarLoop(opt, s, room, START);
    NeedIsShort(opt, s, room, START);
  }

  lemma NotGapless(step: Stepper, opt: Options, a: Encoding, room: nat, s: seq<Unit>, out: seq<Unit>)
    requires Moves(step) && Steps(opt.input) && AreUnits(a, s)
    requires Run(step, s, room, START).Finished? && Run(step, s, room, START).text.out == out
    requires !(out <= EncodeAll(opt.output, CodesOf(opt, s)))
    ensures !Gapless(step, opt, a, room)
  {
  }

  /** The text with the gap is read to the end, with blocks or without. */
  lemma GapFinishes(opt: Options, a: Encoding, b: Encoding, mode: CharMode, simd: bool, letter: Unit, long: Unit,
                    letters: nat)
    requires opt.input == FormatOf(a, mode) && opt.output == FormatOf(b, mode) && opt.outMode.Full? && Steps(opt.input)
    requires IsAscii(letter) && !IsAscii(long) && Legal(long)
    ensures var s := EncodeAll(opt.input, Trap([letter], letters, [long, letter]));
      Moves(StepperFor(opt, simd)) && Run(StepperFor(opt, simd), s, letters + 1, START).Finished?
  {
    var cs := Trap([letter], letters, [long, letter]);
    var tail := EncodeAll(opt.input, [long, letter]);
    ScalarLoop(opt, EncodeAll(opt.input, cs), letters + 1, START);
    AsciiIsPlain(opt, a, b, mode, letter);
    AsciiEncodes(a, letter);
    EncodeTrap(opt.input, letter, letters, [long, letter]);
    LongIsNotAscii(a, long);
    assert tail == Encode(a, long) + EncodeAll(opt.input, [letter]);
    SpareFinishes(opt, a, mode, letter, tail, letters);
  }

  lemma LongIsNotAscii(a: Encoding, u: Unit)
    requires !IsAscii(u) && Legal(u)
    ensures Encode(a, u) != [] && !IsAscii(Encode(a, u)[0])
  {
  }

  /** The text, its units, and what the scalar loop makes of it. */
  lemma GapText(opt: Options, a: Encoding, mode: CharMode, letter: Unit, long: Unit, letters: nat)
    returns (s: seq<Unit>, out: seq<Unit>)
    requires opt.input == FormatOf(a, mode) && Steps(opt.input) && opt.outMode.Full?
    requires Gap(opt, letter, long) && Legal(letter) && Legal(long)
    ensures s == EncodeAll(opt.input, Trap([letter], letters, [long, letter])) && AreUnits(a, s)
    ensures out == Scan(opt, s, letters + 1, START).out && !(out <= EncodeAll(opt.output, CodesOf(opt, s)))
  {
    var cs := Trap([letter], letters, [long, letter]);
    s := EncodeAll(opt.input, cs);
    out := Scan(opt, s, letters + 1, START).out;
    FormatDecodesBack(a, mode);
    GapRun(opt, letter, long, letters);
    GapApart(opt, letter, long, letters);
    EncodedUnits(a, mode, cs);
  }

  lemma GapRuns(opt: Options, a: Encoding, b: Encoding, mode: CharMode, simd: bool, letter: Unit, long: Unit,
                letters: nat, s: seq<Unit>, out: seq<Unit>)
    requires opt.input == FormatOf(a, mode) && opt.output == FormatOf(b, mode) && opt.outMode.Full? && Steps(opt.input)
    requires IsAscii(letter) && !IsAscii(long) && Legal(long)
    requires s == EncodeAll(opt.input, Trap([letter], letters, [long, letter]))
    requires out == Scan(opt, s, letters + 1, START).out
    ensures Moves(StepperFor(opt, simd))
    ensures var c := Run(StepperFor(opt, simd), s, letters + 1, START); c.Finished? && c.text.out == out
  {
    AsciiBlocksArePlain(opt, a, b, mode);
    GapFinishes(opt, a, b, mode, simd, letter, long, letters);
    FullWrites(opt, simd, s, letters + 1);
  }

  lemma HasGap(opt: Options, a: Encoding, b: Encoding, mode: CharMode, simd: bool, letters: nat)
    requires opt.input == FormatOf(a, mode) && opt.output == FormatOf(b, mode) && Steps(opt.input)
    requires opt.outMode.Full? && !b.Utf32?
    ensures Moves(StepperFor(opt, simd)) && !Gapless(StepperFor(opt, simd), opt, a, letters + 1)
  {
    var letter, long := SomeGap(opt, b, mode);
    var s, out := GapText(opt, a, mode, letter, long, letters);
    GapRuns(opt, a, b, mode, simd, letter, long, letters, s, out);
    NotGapless(StepperFor(opt, simd), opt, a, letters + 1, s, out);
  }

  lemma ScanGapless(opt: Options, s: seq<Unit>, room: nat)
    requires Steps(opt.input) && opt.outMode.Full?
    requires if room == 0 then forall u :: opt.output.encode(u) != [] else forall u :: |opt.output.encode(u)| == 1
    ensures Scan(opt, s, room, START).out <= EncodeAll(opt.output, CodesOf(opt, s))
  {
    if room == 0 {
      NoRoomNothing(opt, Parse(opt.input, s), START);
    } else {
      SingleUnitsGapless(opt, Parse(opt.input, s), room, START);
    }
  }

  lemma EncodeLengths(b: Encoding, mode: CharMode)
    ensures var f := FormatOf(b, mode);
      (forall u :: f.encode(u) != []) && (b.Utf32? ==> forall u :: |f.encode(u)| == 1)
  {
  }

  lemma NoGap(opt: Options, a: Encoding, b: Encoding, mode: CharMode, simd: bool, room: nat)
    requires opt.input == FormatOf(a, mode) && opt.output == FormatOf(b, mode) && Steps(opt.input)
    requires opt.outMode.Full? && (b.Utf32? || room == 0)
    ensures Moves(StepperFor(opt, simd)) && Gapless(StepperFor(opt, simd), opt, a, room)
  {
    var step := StepperFor(opt, simd);
    StepsMove(opt);
    AsciiBlocksArePlain(opt, a, b, mode);
    EncodeLengths(b, mode);
    forall s | AreUnits(a, s) && Run(step, s, room, START).Finished?
      ensures Run(step, s, room, START).text.out <= EncodeAll(opt.output, CodesOf(opt, s))
    {
      FullWrites(opt, simd, s, room);
      ScanGapless(opt, s, room);
    }
  }

  /**
   * Full mode goes on after a code that did not fit, and a shorter one may
   * still fit: what it writes is the front of the converted text, whatever the
   * input, in every decoding mode and with blocks or without, exactly for
   * UTF-32 output or an empty buffer.
   */
  lemma GaplessIff(a: Encoding, b: Encoding, mode: CharMode, errors: ErrorMode, replaceChar: Unit, simd: bool,
                   room: nat)
    ensures var opt := Between(a, b, mode, errors, Full, replaceChar);
      && Steps(opt.input) && Moves(StepperFor(opt, simd))
      && (Gapless(StepperFor(opt, simd), opt, a, room) <==> b.Utf32? || room == 0)
  {
    var opt := Between(a, b, mode, errors, Full, replaceChar);
    FormatSteps(a, mode);
    if b.Utf32? || room == 0 {
      NoGap(opt, a, b, mode, simd, room);
    } else {
      HasGap(opt, a, b, mode, simd, room - 1);
    }
  }
}
