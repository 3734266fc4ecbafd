/**
 * The transcoder as it runs: branches over an input buffer, units written into
 * an output buffer in place, and a loop that advances two cursors.
 */
module UtfConvert {

  import opened UtfCode
  import opened UtfString
  import opened UtfTheorems
  import opened UtfBlocks
  import opened UtfFormats
  import opened UtfConversions

  // ---- char_to_utf32 ----

  method ReadUtf8(mode: CharMode, input: array<Unit>, at: nat) returns (d: Decoded)
    requires at < input.Length
    ensures d == DecodeUtf8(mode, input[at..])
  {
    var left := input.Length - at;
    var c1 := input[at];
    if c1 < 0x80 {
      d := Decoded(NoError, 1, c1);
    } else if c1 & 0xE0 == 0xC0 {
      if left < 2 {
        d := Fail(InTruncated, 2);
      } else {
        d := DecodeTwo(mode, c1, input[at + 1]);
      }
    } else if c1 & 0xF0 == 0xE0 {
      if left < 3 {
        d := Fail(InTruncated, 3);
      } else {
        d := DecodeThree(mode, c1, input[at + 1], input[at + 2]);
      }
    } else if c1 & 0xF8 == 0xF0 {
      if left < 4 {
        d := Fail(InTruncated, 4);
      } else {
        d := DecodeFour(mode, c1, input[at + 1], input[at + 2], input[at + 3]);
      }
    } else {
      d := Fail(InvalidSource, 1);
    }
  }

  method ReadUtf16(mode: CharMode, input: array<Unit>, at: nat) returns (d: Decoded)
    requires at < input.Length
    ensures d == DecodeUtf16(mode, input[at..])
  {
    var unicode := input[at];
    ghost var s := input[at..];
    assert s[0] == unicode && |s| == input.Length - at && (|s| >= 2 ==> s[1] == input[at + 1]);
    if unicode < 0xD800 || unicode > 0xDFFF {
      d := DecodeBmp(mode, unicode);
    } else if unicode <= 0xDBFF {
      if at + 1 >= input.Length {
        d := Fail(InTruncated, 2);
      } else {
        d := DecodePair(mode, unicode, input[at + 1]);
      }
    } else {
      d := Fail(InvalidSource, 1);
    }
  }

  /** Decode one character at the cursor. */
  method CharToUtf32(enc: Encoding, mode: CharMode, input: array<Unit>, at: nat) returns (d: Decoded)
    requires at <= input.Length
    ensures d == Decode(enc, mode, input[at..])
  {
    if at >= input.Length {
      d := Fail(InTruncated, 1);
    } else {
      match enc {
        case Utf8 => d := ReadUtf8(mode, input, at);
        case Utf16 => d := ReadUtf16(mode, input, at);
        case Utf32 => d := DecodeUtf32(mode, input[at]);
      }
    }
  }

  // ---- utf32_to_char ----

  /** The buffer after the units were written at the cursor. */
  function Written(buffer: seq<Unit>, at: nat, units: seq<Unit>): (after: seq<Unit>)
    requires at + |units| <= |buffer|
    ensures |after| == |buffer| && after[..at] == buffer[..at] && after[at..at + |units|] == units
    ensures after[at + |units|..] == buffer[at + |units|..]
  {
    buffer[..at] + units + buffer[at + |units|..]
  }

  method Write2(output: array<Unit>, at: nat, c1: Unit, c2: Unit)
    requires at + 2 <= output.Length
    modifies output
    ensures output[..] == Written(old(output[..]), at, [c1, c2])
  {
    output[at] := c1;
    output[at + 1] := c2;
  }

  method Write3(output: array<Unit>, at: nat, c1: Unit, c2: Unit, c3: Unit)
    requires at + 3 <= output.Length
    modifies output
    ensures output[..] == Written(old(output[..]), at, [c1, c2, c3])
  {
    output[at] := c1;
    output[at + 1] := c2;
    output[at + 2] := c3;
  }

  method Write4(output: array<Unit>, at: nat, c1: Unit, c2: Unit, c3: Unit, c4: Unit)
    requires at + 4 <= output.Length
    modifies output
    ensures output[..] == Written(old(output[..]), at, [c1, c2, c3, c4])
  {
    output[at] := c1;
    output[at + 1] := c2;
    output[at + 2] := c3;
    output[at + 3] := c4;
  }

  method WriteUtf8(u: Unit, output: array<Unit>, at: nat) returns (blocks: nat)
    requires at + EncodedLength(Utf8, u) <= output.Length
    modifies output
    ensures blocks == EncodedLength(Utf8, u)
    ensures output[..] == Written(old(output[..]), at, EncodeUtf8(u))
  {
    if u <= 0x7F {
      output[at] := u;
      blocks := 1;
    } else if u <= 0x7FF {
      Write2(output, at, Lead2(u), Tail0(u));
      blocks := 2;
    } else if u <= 0xFFFF {
      Write3(output, at, Lead3(u), Tail6(u), Tail0(u));
      blocks := 3;
    } else {
      Write4(output, at, Lead4(u), Tail12(u), Tail6(u), Tail0(u));
      blocks := 4;
    }
  }

  method WriteUtf16(u: Unit, output: array<Unit>, at: nat) returns (blocks: nat)
    requires at + EncodedLength(Utf16, u) <= output.Length
    modifies output
    ensures blocks == EncodedLength(Utf16, u)
    ensures output[..] == Written(old(output[..]), at, EncodeUtf16(u))
  {
    if u <= 0xFFFF {
      output[at] := u;
      blocks := 1;
    } else {
      Write2(output, at, High10(u), Low10(u));
      blocks := 2;
    }
  }

  /** Encode one code at the cursor; the bound is checked unless only counting. */
  method Utf32ToChar(enc: Encoding, mode: OutMode, u: Unit, output: array<Unit>, at: nat)
    returns (error: Error, blocks: nat)
    requires at <= output.Length
    modifies output
    ensures blocks == EncodedLength(enc, u)
    ensures error == if mode.Count? || at + blocks <= output.Length then NoError else OutOverflow
    ensures output[..] == if mode.Count? || error != NoError then old(output[..])
                          else Written(old(output[..]), at, Encode(enc, u))
  {
    blocks := EncodedLength(enc, u);
    if mode.Count? {
      return NoError, blocks;
    }
    if at + blocks > output.Length {
      return OutOverflow, blocks;
    }
    match enc {
      case Utf8 => blocks := WriteUtf8(u, output, at);
      case Utf16 => blocks := WriteUtf16(u, output, at);
      case Utf32 => output[at] := u;
    }
    error := NoError;
  }

  // ---- str_to_str ----

  /** What the program fixes when it picks its options and unit types. */
  datatype Settings = Settings(inEnc: Encoding, outEnc: Encoding, charMode: CharMode, errorMode: ErrorMode,
                               outMode: OutMode, replaceChar: Unit, simd: bool)

  function OptionsOf(how: Settings): Options {
    Between(how.inEnc, how.outEnc, how.charMode, how.errorMode, how.outMode, how.replaceChar)
  }

  function StepOf(how: Settings, s: seq<Unit>, room: nat, r: Report): Step {
    if how.simd then BlockStep(OptionsOf(how), s, room, r) else CharStep(OptionsOf(how), s, room, r)
  }

  function StepperOf(how: Settings): Stepper {
    if how.simd then ByBlock(OptionsOf(how)) else ByChar(OptionsOf(how))
  }

  /** A stepper that does what the settings ask for. */
  ghost predicate Follows(step: Stepper, how: Settings) {
    forall s, room, r {:trigger StepOf(how, s, room, r)} :: step(s, room, r) == StepOf(how, s, room, r)
  }

  /** The loop as a function of the text and the room. */
  ghost function Converted(how: Settings, s: seq<Unit>, room: nat): (c: Outcome)
  {
    StepperMoves(how);
    Run(StepperOf(how), s, room, START)
  }

  lemma StepperMoves(how: Settings)
    ensures Moves(StepperOf(how))
  {
    FormatSteps(how.inEnc, how.charMode);
    StepsMove(OptionsOf(how));
  }

  /** The switch on the decoder's error: counters, status, and whether a code is passed on. */
  method Account(how: Settings, d: Decoded, r: Report) returns (stop: bool, skip: bool, unicode: Unit, r': Report)
    ensures stop <==> Stops(OptionsOf(how), d)
    ensures skip <==> Skips(OptionsOf(how), d)
    ensures r' == Read(OptionsOf(how), r, d)
    ensures !stop && !skip ==> unicode == Passed(OptionsOf(how), d)
  {
    stop, skip, unicode := false, false, d.unicode;
    r' := r.(inputBlocks := r.inputBlocks + d.blocks);
    match d.error {
      case NoError =>
        r' := r'.(normalChars := r.normalChars + 1);
      case InTruncated =>
        r' := r'.(errorChars := r.errorChars + 1, status := Failed, errors := r.errors + {InTruncated});
        stop := true;
      case _ =>
        r' := r'.(errorChars := r.errorChars + 1, errors := r.errors + {d.error});
        match how.errorMode {
          case Stop =>
            r' := r'.(status := Failed);
            stop := true;
          case Skip =>
            r' := r'.(status := Partial);
            skip := true;
          case Replace =>
            unicode := how.replaceChar;
            r' := r'.(status := Partial);
        }
    }
  }

  /** One character: decode, account for it, encode.  The cursors move by used and by written. */
  method ConvertChar(how: Settings, input: array<Unit>, i: nat, output: array<Unit>, o: nat, r: Report)
    returns (stop: bool, used: nat, written: nat, r': Report)
    requires input != output && i < input.Length && o <= output.Length
    modifies output
    ensures o + written <= output.Length && (stop ==> written == 0)
    ensures CharStep(OptionsOf(how), input[i..], output.Length - o, r)
         == if stop then End(r') else On(used, output[o..o + written], r')
    ensures output[..o] == old(output[..o]) && output[o + written..] == old(output[o + written..])
  {
    var d := CharToUtf32(how.inEnc, how.charMode, input, i);
    var skip, unicode;
    stop, skip, unicode, r' := Account(how, d, r);
    used, written := d.blocks, 0;
    assert OptionsOf(how).input.decode(input[i..]) == d;
    if !stop && !skip {
      stop, written, r' := EmitChar(how, unicode, output, o, r');
    }
  }

  /** The second half: encode at the cursor and account for the units. */
  method EmitChar(how: Settings, unicode: Unit, output: array<Unit>, o: nat, r: Report)
    returns (stop: bool, written: nat, r': Report)
    requires o <= output.Length
    modifies output
    ensures o + written <= output.Length && (stop ==> written == 0)
    ensures Put(OptionsOf(how), OptionsOf(how).output.encode(unicode), output.Length - o, r)
         == if stop then Halt(r') else Go(output[o..o + written], r')
    ensures output[..o] == old(output[..o]) && output[o + written..] == old(output[o + written..])
  {
    stop, written, r' := false, 0, r;
    var error, blocks := Utf32ToChar(how.outEnc, how.outMode, unicode, output, o);
    if error == NoError {
      match how.outMode {
        case Count => r' := r.(need := r.need + blocks);
        case Normal =>
          r' := r.(outputBlocks := r.outputBlocks + blocks);
          written := blocks;
        case Full =>
          r' := r.(outputBlocks := r.outputBlocks + blocks, need := r.need + blocks);
          written := blocks;
      }
    } else if how.outMode.Normal? {
      r' := r.(errors := r.errors + {OutOverflow}, status := Failed);
      stop := true;
    } else {
      r' := r.(need := r.need + blocks, status := Partial, errors := r.errors + {OutOverflow});
    }
  }

  /** char_to_char: one character at the front of both buffers. */
  method CharToChar(how: Settings, input: array<Unit>, output: array<Unit>) returns (c: Single)
    requires input != output
    modifies output
    ensures var opt := OptionsOf(how);
      c == Convert(opt, opt.input.decode(input[..]), output.Length)
    ensures |c.out| <= output.Length && output[..] == Written(old(output[..]), 0, c.out)
  {
    assert input[0..] == input[..];
    var d := CharToUtf32(how.inEnc, how.charMode, input, 0);
    assert OptionsOf(how).input.decode(input[..]) == d;
    var unicode := d.unicode;
    var status, errors := Ok, {};
    if d.error != NoError {
      if !how.errorMode.Replace? {
        return Single(d.blocks, 0, Failed, {d.error}, []);
      }
      unicode, status, errors := how.replaceChar, Partial, {d.error};
    }
    var error, blocks := Utf32ToChar(how.outEnc, how.outMode, unicode, output, 0);
    assert OptionsOf(how).output.encode(unicode) == Encode(how.outEnc, unicode);
    if error != NoError {
      return Single(d.blocks, blocks, Failed, errors + {error}, []);
    }
    var units := if how.outMode.Count? then [] else output[..blocks];
    return Single(d.blocks, blocks, status, errors, units);
  }

  // ---- The block path and the loop ----

  /** Eight bytes of ASCII, unit by unit. */
  method CopyBlock(input: array<Unit>, i: nat, output: array<Unit>, o: nat, n: nat)
    requires input != output && i + n <= input.Length && o + n <= output.Length
    modifies output
    ensures output[..o] == old(output[..o]) && output[o + n..] == old(output[o + n..])
    ensures output[o..o + n] == input[i..i + n]
  {
    for k := 0 to n
      invariant output[..o] == old(output[..o]) && output[o + n..] == old(output[o + n..])
      invariant output[o..o + k] == input[i..i + k]
    {
      output[o + k] := input[i + k];
    }
  }

  /** The guard: a whole block on both sides, and one mask test on the word. */
  method BlockHere(how: Settings, input: array<Unit>, i: nat, room: nat) returns (ready: bool)
    requires i <= input.Length
    ensures ready <==> BlockReady(OptionsOf(how), input[i..], room)
  {
    var n := Lanes(how.inEnc);
    ready := i + n <= input.Length && Lanes(how.outEnc) <= room;
    if ready {
      assert input[i..][..n] == input[i..i + n];
      ready := AsciiBlock(how.inEnc, input[i..i + n]);
    }
  }

  /**
   * One turn of the loop: the block path if it is on and ready, otherwise one
   * character.  A block that would be written past the end is not written.
   */
  method Turn(how: Settings, input: array<Unit>, i: nat, output: array<Unit>, o: nat, r: Report)
    returns (burst: bool, stop: bool, used: nat, written: nat, r': Report)
    requires input != output && i < input.Length && o <= output.Length
    modifies output
    ensures o + written <= output.Length && (stop || burst ==> written == 0)
    ensures StepOf(how, input[i..], output.Length - o, r)
         == if burst then Burst else if stop then End(r') else On(used, output[o..o + written], r')
    ensures output[..o] == old(output[..o]) && output[o + written..] == old(output[o + written..])
  {
    burst, stop := false, false;
    var block := false;
    if how.simd {
      block := BlockHere(how, input, i, output.Length - o);
    }
    if block {
      var n := Lanes(how.inEnc);
      if n > output.Length - o {
        burst, used, written, r' := true, 0, 0, r;
      } else {
        assert input[i..][..n] == input[i..i + n];
        CopyBlock(input, i, output, o, n);
        used, written, r' := n, n, Copied(r, n);
      }
    } else {
      stop, used, written, r' := ConvertChar(how, input, i, output, o, r);
    }
  }

  lemma RunOn(step: Stepper, s: seq<Unit>, room: nat, r: Report, front: seq<Unit>)
    requires Moves(step) && s != []
    ensures match step(s, room, r)
      case End(last) => Before(front, Run(step, s, room, r)) == Finished(Text(last, front))
      case Burst => Before(front, Run(step, s, room, r)) == Overrun
      case On(used, units, next) =>
        && 1 <= used <= |s| && |units| <= room
        && Before(front, Run(step, s, room, r)) == Before(front + units, Run(step, s[used..], room - |units|, next))
  {
    var m := step(s, room, r);
    assert Sound(m, |s|, room);
    assert front + [] == front;
    if m.On? {
      var c := Run(step, s[m.used..], room - |m.units|, m.next);
      if c.Finished? {
        assert front + (m.units + c.text.out) == (front + m.units) + c.text.out;
      }
    }
  }

  /** What is written so far, and the run from here, make the whole run. */
  ghost predicate Resumes(step: Stepper, done: seq<Unit>, s: seq<Unit>, room: nat, r: Report, all: Outcome)
    requires Moves(step)
  {
    Before(done, Run(step, s, room, r)) == all
  }

  lemma ResumesOn(step: Stepper, done: seq<Unit>, s: seq<Unit>, room: nat, r: Report, all: Outcome)
    requires Moves(step) && s != [] && Resumes(step, done, s, room, r, all)
    ensures match step(s, room, r)
      case End(last) => all == Finished(Text(last, done))
      case Burst => all == Overrun
      case On(used, units, next) =>
        1 <= used <= |s| && |units| <= room && Resumes(step, done + units, s[used..], room - |units|, next, all)
  {
    RunOn(step, s, room, r, done);
  }

  lemma ResumesFirst(step: Stepper, s: seq<Unit>, room: nat, r: Report)
    requires Moves(step)
    ensures Resumes(step, [], s, room, r, Run(step, s, room, r))
  {
    var c := Run(step, s, room, r);
    if c.Finished? {
      assert [] + c.text.out == c.text.out;
    }
  }

  lemma ResumesLast(step: Stepper, done: seq<Unit>, room: nat, r: Report, all: Outcome)
    requires Moves(step) && Resumes(step, done, [], room, r, all)
    ensures all == Finished(Text(r, done))
  {
    assert done + [] == done;
  }

  /** A turn as the loop sees it: its stepper's step, carried out on the buffers. */
  method TurnOf(how: Settings, ghost step: Stepper, input: array<Unit>, i: nat, output: array<Unit>, o: nat, r: Report)
    returns (burst: bool, stop: bool, used: nat, written: nat, r': Report)
    requires input != output && i < input.Length && o <= output.Length && Follows(step, how)
    modifies output
    ensures o + written <= output.Length && (stop || burst ==> written == 0)
    ensures step(input[i..], output.Length - o, r)
         == if burst then Burst else if stop then End(r') else On(used, output[o..o + written], r')
    ensures output[..o] == old(output[..o]) && output[o + written..] == old(output[o + written..])
  {
    assert step(input[i..], output.Length - o, r) == StepOf(how, input[i..], output.Length - o, r);
    burst, stop, used, written, r' := Turn(how, input, i, output, o, r);
  }

  /** A turn keeps that the run from here completes the whole run. */
  method Onward(how: Settings, ghost step: Stepper, input: array<Unit>, i: nat, output: array<Unit>, o: nat,
                r: Report, ghost all: Outcome)
    returns (burst: bool, stop: bool, i': nat, o': nat, r': Report)
    requires input != output && i < input.Length && o <= output.Length && Moves(step) && Follows(step, how)
    requires Resumes(step, output[..o], input[i..], output.Length - o, r, all)
    modifies output
    ensures o <= o' <= output.Length && output[o'..] == old(output[o'..])
    ensures burst ==> all == Overrun
    ensures stop && !burst ==> all == Finished(Text(r', output[..o']))
    ensures !stop && !burst ==>
      i < i' <= input.Length && Resumes(step, output[..o'], input[i'..], output.Length - o', r', all)
  {
    ResumesOn(step, output[..o], input[i..], output.Length - o, r, all);
    var used, written;
    burst, stop, used, written, r' := TurnOf(how, step, input, i, output, o, r);
    i', o' := i + used, o + written;
    if !stop && !burst {
      assert input[i..][used..] == input[i'..];
      assert output[..o'] == output[..o] + output[o..o'];
    }
  }

  /** The loop, for the stepper that the settings ask for. */
  method Loop(how: Settings, ghost step: Stepper, input: array<Unit>, output: array<Unit>)
    returns (burst: bool, r: Report, o: nat)
    requires input != output && Moves(step) && Follows(step, how)
    modifies output
    ensures o <= output.Length && output[o..] == old(output[o..])
    ensures Run(step, input[..], output.Length, START) == if burst then Overrun else Finished(Text(r, output[..o]))
  {
    ghost var all := Run(step, input[..], output.Length, START);
    ResumesFirst(step, input[..], output.Length, START);
    var i, stop := 0, false;
    burst, r, o := false, START, 0;
    assert input[0..] == input[..] && output[..0] == [];
    while i < input.Length
      invariant i <= input.Length && o <= output.Length && !burst
      invariant Resumes(step, output[..o], input[i..], output.Length - o, r, all)
      invariant output[o..] == old(output[o..])
      decreases input.Length - i
    {
      burst, stop, i, o, r := Onward(how, step, input, i, output, o, r, all);
      if burst || stop {
        return;
      }
    }
    ResumesLast(step, output[..o], output.Length - o, r, all);
  }

  /**
   * The conversion of a string.  Where the source would copy a block past the
   * end of the output, this stops and says so.
   */
  method StrToStr(how: Settings, input: array<Unit>, output: array<Unit>) returns (burst: bool, r: Report, o: nat)
    requires input != output
    modifies output
    ensures o <= output.Length && output[o..] == old(output[o..])
    ensures Converted(how, input[..], output.Length) == if burst then Overrun else Finished(Text(r, output[..o]))
  {
    StepperMoves(how);
    burst, r, o := Loop(how, StepperOf(how), input, output);
  }

  // ---- Counting first ----

  /**
   * What the program does with a text: count with an empty buffer, allocate
   * exactly that much, convert with the block path on.  The buffer is filled
   * with the encoding of every code passed on, and both reports agree.
   */
  method CountThenFill(how: Settings, input: array<Unit>) returns (output: array<Unit>, first: Report, second: Report)
    requires how.simd && how.outMode.Normal?
    ensures fresh(output) && output.Length == first.need == second.outputBlocks
    ensures Steps(OptionsOf(how).input)
    ensures output[..] == EncodeAll(OptionsOf(how).output, CodesOf(OptionsOf(how), input[..]))
    ensures SameTally(first, second)
  {
    var counting := how.(outMode := Count);
    CountThenConvertAll(how.inEnc, how.outEnc, how.charMode, how.errorMode, how.replaceChar, input[..]);
    assert OptionsOf(counting) == OptionsOf(how).(outMode := Count);
    var nothing := new Unit[0];
    var burst, written;
    burst, first, written := StrToStr(counting, input, nothing);
    output := new Unit[first.need];
    burst, second, written := StrToStr(how, input, output);
    assert output[..written] == output[..];
  }

  /** The need that a scalar count reports. */
  ghost function CountOf(how: Settings, s: seq<Unit>): nat {
    FormatSteps(how.inEnc, how.charMode);
    Scan(OptionsOf(how).(outMode := Count), s, 0, START).report.need
  }

  /** Rooms that are never overrun whatever the text, and the counted room. */
  lemma RoomIsFine(how: Settings, s: seq<Unit>, room: nat)
    requires
      || !how.simd || Lanes(how.inEnc) <= Lanes(how.outEnc) || room < Lanes(how.outEnc)
      || (how.outMode.Normal? && room >= CountOf(how, s))
    ensures Converted(how, s, room).Finished?
  {
    var opt := OptionsOf(how);
    FormatSteps(how.inEnc, how.charMode);
    if !how.simd {
      ScalarLoop(opt, s, room, START);
    } else if Lanes(how.inEnc) <= Lanes(how.outEnc) {
      NarrowingIsSafe(opt, s, room, START);
    } else if room < Lanes(how.outEnc) {
      NoRoomNoBlock(opt, s, room, START);
    } else {
      TwoPasses(opt, s, room);
      AsciiBlocksArePlain(opt, how.inEnc, how.outEnc, how.charMode);
      CountedRoomIsSafe(opt, s, room, START);
    }
  }
}
