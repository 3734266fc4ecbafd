/**
 * The loop does what Scan says, with and without the block path.  The block
 * path never changes what a normal run does, but its guard asks for less room
 * than a block writes when units grow in width; here is when it stays inside
 * the buffer.
 */
module UtfBlocks {

  import opened UtfCode
  import opened UtfString
  import opened UtfTheorems

  /** An ASCII unit is a character of one unit, the same in the input and in the output. */
  ghost predicate Plain(opt: Options, u: Unit) {
    && (forall rest :: opt.input.decode([u] + rest) == Decoded(NoError, 1, u))
    && opt.output.encode(u) == [u]
  }

  ghost predicate AllPlain(opt: Options, s: seq<Unit>) {
    forall i :: 0 <= i < |s| ==> Plain(opt, s[i])
  }

  ghost predicate BlocksArePlain(opt: Options) {
    forall s :: opt.input.ascii(s) ==> AllPlain(opt, s)
  }

  // ---- Loops and meanings, whatever the step ----

  type Meaning = (seq<Unit>, nat, Report) -> Text

  /** One turn does what the meaning says of the text at hand. */
  ghost predicate Agrees(step: Stepper, means: Meaning, s: seq<Unit>, room: nat, r: Report) {
    if s == [] then means(s, room, r) == Text(r, [])
    else
      match step(s, room, r)
      case End(last) => means(s, room, r) == Text(last, [])
      case Burst => true
      case On(used, units, next) =>
        && 1 <= used <= |s| && |units| <= room
        && means(s, room, r) == Join(units, means(s[used..], room - |units|, next))
  }

  lemma AgreesOn(step: Stepper, means: Meaning, s: seq<Unit>, room: nat, r: Report, used: nat, units: seq<Unit>,
                 next: Report)
    requires step(s, room, r) == On(used, units, next) && 1 <= used <= |s| && |units| <= room
    requires means(s, room, r) == Join(units, means(s[used..], room - |units|, next))
    ensures Agrees(step, means, s, room, r)
  {
  }

  lemma AgreesAlike(a: Stepper, b: Stepper, means: Meaning, s: seq<Unit>, room: nat, r: Report)
    requires Agrees(a, means, s, room, r) && a(s, room, r) == b(s, room, r)
    ensures Agrees(b, means, s, room, r)
  {
  }

  lemma {:induction false} RunMeans(step: Stepper, means: Meaning, s: seq<Unit>, room: nat, r: Report)
    requires Moves(step) && forall s, room, r :: Agrees(step, means, s, room, r)
    ensures Run(step, s, room, r) in {Finished(means(s, room, r)), Overrun}
    decreases |s|
  {
    assert Agrees(step, means, s, room, r);
    if s != [] && step(s, room, r).On? {
      var m := step(s, room, r);
      RunMeans(step, means, s[m.used..], room - |m.units|, m.next);
    }
  }

  /** A turn neither bursts nor leaves the states where that is known. */
  ghost predicate Keeps(step: Stepper, inv: (seq<Unit>, nat) -> bool, s: seq<Unit>, room: nat, r: Report) {
    s != [] && inv(s, room) ==>
      match step(s, room, r)
      case End(_) => true
      case Burst => false
      case On(used, units, _) => used <= |s| && |units| <= room && inv(s[used..], room - |units|)
  }

  lemma {:induction false} RunFinishes(step: Stepper, inv: (seq<Unit>, nat) -> bool, s: seq<Unit>, room: nat, r: Report)
    requires Moves(step) && forall s, room, r :: Keeps(step, inv, s, room, r)
    requires inv(s, room)
    ensures Run(step, s, room, r).Finished?
    decreases |s|
  {
    assert Keeps(step, inv, s, room, r);
    if s != [] && step(s, room, r).On? {
      var m := step(s, room, r);
      RunFinishes(step, inv, s[m.used..], room - |m.units|, m.next);
    }
  }

  lemma {:induction false} RunsAlike(a: Stepper, b: Stepper, inv: (seq<Unit>, nat) -> bool, s: seq<Unit>, room: nat,
                                     r: Report)
    requires Moves(a) && Moves(b) && forall s, room, r :: Keeps(b, inv, s, room, r)
    requires forall s, room, r :: s != [] && inv(s, room) ==> a(s, room, r) == b(s, room, r)
    requires inv(s, room)
    ensures Run(a, s, room, r) == Run(b, s, room, r)
    decreases |s|
  {
    assert Keeps(b, inv, s, room, r);
    if s != [] && b(s, room, r).On? {
      var m := b(s, room, r);
      RunsAlike(a, b, inv, s[m.used..], room - |m.units|, m.next);
    }
  }

  // ---- The steps of this driver ----

  lemma StepsMove(opt: Options)
    requires Steps(opt.input)
    ensures Moves(ByChar(opt)) && Moves(ByBlock(opt))
  {
    forall s: seq<Unit>, room: nat, r: Report | s != []
      ensures Sound(CharStep(opt, s, room, r), |s|, room) && Sound(BlockStep(opt, s, room, r), |s|, room)
    {
      CharSound(opt, s, room, r);
    }
  }

  lemma CharSound(opt: Options, s: seq<Unit>, room: nat, r: Report)
    requires Steps(opt.input) && s != []
    ensures Sound(CharStep(opt, s, room, r), |s|, room)
  {
    assert Forward(opt.input.decode(s), |s|);
  }

  function Meant(opt: Options): Meaning
    requires Steps(opt.input)
  {
    (s: seq<Unit>, room: nat, r: Report) => Scan(opt, s, room, r)
  }

  /** The first character of a text, and the rest. */
  lemma ScanFirst(opt: Options, s: seq<Unit>, room: nat, r: Report, d: Decoded)
    requires Steps(opt.input) && s != [] && d == opt.input.decode(s)
    ensures Scan(opt, s, room, r) ==
      match Advance(opt, d, room, r)
      case Halt(last) => Text(last, [])
      case Go(units, next) => Join(units, Scan(opt, s[d.blocks..], room - |units|, next))
  {
    if d.error == InTruncated {
      PlayFirst(opt, d, [], room, r);
    } else {
      PlayFirst(opt, d, Parse(opt.input, s[d.blocks..]), room, r);
    }
  }

  lemma CharAgreesWith(opt: Options, means: Meaning, s: seq<Unit>, room: nat, r: Report)
    requires Steps(opt.input) && s != []
    requires var d := opt.input.decode(s);
      means(s, room, r) ==
        match Advance(opt, d, room, r)
        case Halt(last) => Text(last, [])
        case Go(units, next) => Join(units, means(s[d.blocks..], room - |units|, next))
    ensures Agrees(ByChar(opt), means, s, room, r)
  {
    CharSound(opt, s, room, r);
  }

  lemma MeantFirst(opt: Options, s: seq<Unit>, room: nat, r: Report)
    requires Steps(opt.input) && s != []
    ensures var d, means := opt.input.decode(s), Meant(opt);
      means(s, room, r) ==
        match Advance(opt, d, room, r)
        case Halt(last) => Text(last, [])
        case Go(units, next) => Join(units, means(s[d.blocks..], room - |units|, next))
  {
    ScanFirst(opt, s, room, r, opt.input.decode(s));
  }

  lemma CharAgrees(opt: Options, s: seq<Unit>, room: nat, r: Report)
    requires Steps(opt.input)
    ensures Agrees(ByChar(opt), Meant(opt), s, room, r)
  {
    if s != [] {
      MeantFirst(opt, s, room, r);
      CharAgreesWith(opt, Meant(opt), s, room, r);
    }
  }

  /** The scalar loop does what Scan says. */
  lemma {:induction false} ScalarLoop(opt: Options, s: seq<Unit>, room: nat, r: Report)
    requires Steps(opt.input)
    ensures Moves(ByChar(opt)) && Run(ByChar(opt), s, room, r) == Finished(Scan(opt, s, room, r))
  {
    StepsMove(opt);
    forall s, room, r
      ensures Agrees(ByChar(opt), Meant(opt), s, room, r)
    {
      CharAgrees(opt, s, room, r);
    }
    RunMeans(ByChar(opt), Meant(opt), s, room, r);
    var anywhere := (s: seq<Unit>, room: nat) => true;
    forall s, room, r
      ensures Keeps(ByChar(opt), anywhere, s, room, r)
    {
      if s != [] {
        CharSound(opt, s, room, r);
      }
    }
    RunFinishes(ByChar(opt), anywhere, s, room, r);
  }

  // ---- A block is that many characters ----

  lemma AdvancePlain(opt: Options, u: Unit, room: nat, r: Report)
    requires opt.output.encode(u) == [u] && opt.outMode.Normal? && room > 0
    ensures Advance(opt, Decoded(NoError, 1, u), room, r) == Go([u], Copied(r, 1))
  {
  }

  /** ASCII units as the decoder reports them. */
  function AsRead(s: seq<Unit>): (ds: seq<Decoded>) {
    if s == [] then [] else [Decoded(NoError, 1, s[0])] + AsRead(s[1..])
  }

  lemma {:induction false} ParsePlain(opt: Options, s: seq<Unit>, rest: seq<Unit>)
    requires Steps(opt.input) && AllPlain(opt, s)
    ensures Parse(opt.input, s + rest) == AsRead(s) + Parse(opt.input, rest)
  {
    if s == [] {
      assert s + rest == rest;
    } else {
      var more := s[1..] + rest;
      assert s + rest == [s[0]] + more;
      assert Plain(opt, s[0]);
      assert opt.input.decode([s[0]] + more) == Decoded(NoError, 1, s[0]);
      assert ([s[0]] + more)[1..] == more;
      ParsePlain(opt, s[1..], rest);
    }
  }

  type Player = (seq<Decoded>, nat, Report) -> Text

  /** Whatever follows, an ASCII unit is played by copying it. */
  ghost predicate Copies(play: Player, u: Unit) {
    forall ds: seq<Decoded>, room: nat, r: Report | room > 0 ::
      play([Decoded(NoError, 1, u)] + ds, room, r) == Join([u], play(ds, room - 1, Copied(r, 1)))
  }

  lemma {:induction false} PlayCopies(play: Player, s: seq<Unit>, ds: seq<Decoded>, room: nat, r: Report)
    requires (forall u :: u in s ==> Copies(play, u)) && |s| <= room
    ensures play(AsRead(s) + ds, room, r) == Join(s, play(ds, room - |s|, Copied(r, |s|)))
  {
    if s == [] {
      assert AsRead(s) + ds == ds && Copied(r, 0) == r;
    } else {
      var more := AsRead(s[1..]) + ds;
      assert AsRead(s) + ds == [Decoded(NoError, 1, s[0])] + more;
      assert Copies(play, s[0]);
      PlayCopies(play, s[1..], ds, room - 1, Copied(r, 1));
      assert Copied(Copied(r, 1), |s| - 1) == Copied(r, |s|);
      JoinJoin([s[0]], s[1..], play(ds, room - |s|, Copied(r, |s|)));
      assert [s[0]] + s[1..] == s;
    }
  }

  function Played(opt: Options): Player {
    (ds: seq<Decoded>, room: nat, r: Report) => Play(opt, ds, room, r)
  }

  lemma PlainCopies(opt: Options, u: Unit)
    requires Plain(opt, u) && opt.outMode.Normal?
    ensures Copies(Played(opt), u)
  {
    forall ds: seq<Decoded>, room: nat, r: Report | room > 0
      ensures Play(opt, [Decoded(NoError, 1, u)] + ds, room, r) == Join([u], Play(opt, ds, room - 1, Copied(r, 1)))
    {
      AdvancePlain(opt, u, room, r);
      PlayFirst(opt, Decoded(NoError, 1, u), ds, room, r);
    }
  }

  lemma PlayPlain(opt: Options, s: seq<Unit>, ds: seq<Decoded>, room: nat, r: Report)
    requires AllPlain(opt, s) && opt.outMode.Normal? && |s| <= room
    ensures Play(opt, AsRead(s) + ds, room, r) == Join(s, Play(opt, ds, room - |s|, Copied(r, |s|)))
  {
    forall u | u in s
      ensures Copies(Played(opt), u)
    {
      PlainCopies(opt, u);
    }
    PlayCopies(Played(opt), s, ds, room, r);
  }

  lemma ScanPlain(opt: Options, s: seq<Unit>, rest: seq<Unit>, room: nat, r: Report)
    requires Steps(opt.input) && AllPlain(opt, s) && opt.outMode.Normal? && |s| <= room
    ensures Scan(opt, s + rest, room, r) == Join(s, Scan(opt, rest, room - |s|, Copied(r, |s|)))
  {
    ParsePlain(opt, s, rest);
    PlayPlain(opt, s, Parse(opt.input, rest), room, r);
  }

  lemma JoinJoin(a: seq<Unit>, b: seq<Unit>, t: Text)
    ensures Join(a, Join(b, t)) == Join(a + b, t)
  {
    assert a + (b + t.out) == (a + b) + t.out;
  }

  lemma CopyAgrees(opt: Options, s: seq<Unit>, room: nat, r: Report)
    requires Steps(opt.input) && BlocksArePlain(opt) && opt.outMode.Normal?
    requires BlockReady(opt, s, room) && opt.input.lanes <= room
    ensures var n := opt.input.lanes;
      Scan(opt, s, room, r) == Join(s[..n], Scan(opt, s[n..], room - n, Copied(r, n)))
  {
    var n := opt.input.lanes;
    ScanPlain(opt, s[..n], s[n..], room, r);
    assert s[..n] + s[n..] == s;
  }

  lemma BlockAgrees(opt: Options, s: seq<Unit>, room: nat, r: Report)
    requires Steps(opt.input) && BlocksArePlain(opt) && opt.outMode.Normal?
    ensures Agrees(ByBlock(opt), Meant(opt), s, room, r)
  {
    if BlockReady(opt, s, room) {
      var n := opt.input.lanes;
      if n <= room {
        CopyAgrees(opt, s, room, r);
        AgreesOn(ByBlock(opt), Meant(opt), s, room, r, n, s[..n], Copied(r, n));
      }
    } else {
      CharAgrees(opt, s, room, r);
      AgreesAlike(ByChar(opt), ByBlock(opt), Meant(opt), s, room, r);
    }
  }

  /** In normal mode a run with blocks that stays inside the buffer does what the scalar loop does. */
  lemma BlockLoop(opt: Options, s: seq<Unit>, room: nat, r: Report)
    requires Steps(opt.input) && BlocksArePlain(opt) && opt.outMode.Normal?
    ensures Moves(ByBlock(opt)) && Run(ByBlock(opt), s, room, r) in {Finished(Scan(opt, s, room, r)), Overrun}
  {
    StepsMove(opt);
    forall s, room, r
      ensures Agrees(ByBlock(opt), Meant(opt), s, room, r)
    {
      BlockAgrees(opt, s, room, r);
    }
    RunMeans(ByBlock(opt), Meant(opt), s, room, r);
  }

  // ---- Inside the buffer ----

  /** When blocks of the output are at least as long as blocks of the input, the guard is enough. */
  lemma {:induction false} NarrowingIsSafe(opt: Options, s: seq<Unit>, room: nat, r: Report)
    requires Steps(opt.input) && opt.input.lanes <= opt.output.lanes
    ensures Moves(ByBlock(opt)) && Run(ByBlock(opt), s, room, r).Finished?
  {
    StepsMove(opt);
    var anywhere := (s: seq<Unit>, room: nat) => true;
    forall s, room, r
      ensures Keeps(ByBlock(opt), anywhere, s, room, r)
    {
      if s != [] {
        CharSound(opt, s, room, r);
      }
    }
    RunFinishes(ByBlock(opt), anywhere, s, room, r);
  }

  /** With less room than a block of the output no block is copied, in any mode. */
  lemma NoRoomNoBlock(opt: Options, s: seq<Unit>, room: nat, r: Report)
    requires Steps(opt.input) && room < opt.output.lanes
    ensures Moves(ByBlock(opt)) && Run(ByBlock(opt), s, room, r) == Finished(Scan(opt, s, room, r))
  {
    StepsMove(opt);
    var short := (s: seq<Unit>, room: nat) => room < opt.output.lanes;
    forall s, room, r
      ensures Keeps(ByChar(opt), short, s, room, r)
    {
      if s != [] {
        CharSound(opt, s, room, r);
      }
    }
    RunsAlike(ByBlock(opt), ByChar(opt), short, s, room, r);
    ScalarLoop(opt, s, room, r);
  }

  /** No character, and no substitute, is longer in the output than in the input. */
  ghost predicate NeverGrows(opt: Options) {
    && (forall s :: s != [] && AreUnitsOf(opt.input, s) && opt.input.decode(s).error == NoError ==>
          |opt.output.encode(opt.input.decode(s).unicode)| <= opt.input.decode(s).blocks)
    && (opt.errorMode.Replace? ==> |opt.output.encode(opt.replaceChar)| <= 1)
  }

  /** A buffer as long as the input is never overrun when no character grows. */
  lemma RoomForInputIsSafe(opt: Options, s: seq<Unit>, room: nat, r: Report)
    requires Steps(opt.input) && NeverGrows(opt) && opt.outMode.Normal? && AreUnitsOf(opt.input, s) && |s| <= room
    ensures Moves(ByBlock(opt)) && Run(ByBlock(opt), s, room, r).Finished?
  {
    StepsMove(opt);
    var fits := (s: seq<Unit>, room: nat) => AreUnitsOf(opt.input, s) && |s| <= room;
    forall s, room, r
      ensures Keeps(ByBlock(opt), fits, s, room, r)
    {
      if s != [] && fits(s, room) && !BlockReady(opt, s, room) {
        CharSound(opt, s, room, r);
        CharFits(opt, s, room, r);
      }
    }
    RunFinishes(ByBlock(opt), fits, s, room, r);
  }

  lemma CharFits(opt: Options, s: seq<Unit>, room: nat, r: Report)
    requires Steps(opt.input) && NeverGrows(opt) && opt.outMode.Normal? && s != [] && AreUnitsOf(opt.input, s)
    ensures var m := CharStep(opt, s, room, r); !m.Burst? && (m.On? ==> |m.units| <= m.used)
  {
  }

  // ---- The counted room is enough ----

  lemma NeededFirst(opt: Options, s: seq<Unit>, d: Decoded)
    requires Steps(opt.input) && s != [] && d == opt.input.decode(s) && !Stops(opt, d)
    ensures Needed(opt, s) == |Asked(opt, d)| + Needed(opt, s[d.blocks..])
  {
    var ds := Parse(opt.input, s);
    assert ds[0] == d && ds[1..] == Parse(opt.input, s[d.blocks..]);
    AskedFirst(opt, ds);
  }

  lemma {:induction false} PlainIsNeeded(opt: Options, s: seq<Unit>, rest: seq<Unit>)
    requires Steps(opt.input) && AllPlain(opt, s)
    ensures Needed(opt, s + rest) == |s| + Needed(opt, rest)
  {
    if s == [] {
      assert s + rest == rest;
    } else {
      var more := s[1..] + rest;
      assert s + rest == [s[0]] + more;
      assert Plain(opt, s[0]);
      NeededFirst(opt, [s[0]] + more, Decoded(NoError, 1, s[0]));
      assert ([s[0]] + more)[1..] == more;
      PlainIsNeeded(opt, s[1..], rest);
    }
  }

  lemma CharNeeds(opt: Options, s: seq<Unit>, room: nat, r: Report)
    requires Steps(opt.input) && opt.outMode.Normal? && s != [] && Needed(opt, s) <= room
    ensures var m := CharStep(opt, s, room, r);
      !m.Burst? && (m.On? ==> m.used <= |s| && |m.units| <= room && Needed(opt, s[m.used..]) <= room - |m.units|)
  {
    var d := opt.input.decode(s);
    if !Stops(opt, d) {
      NeededFirst(opt, s, d);
      AdvanceRoomy(opt, d, room, r);
    }
  }

  lemma BlockNeeds(opt: Options, s: seq<Unit>, room: nat, r: Report)
    requires Steps(opt.input) && BlocksArePlain(opt) && Needed(opt, s) <= room && BlockReady(opt, s, room)
    ensures opt.input.lanes <= room && Needed(opt, s[opt.input.lanes..]) <= room - opt.input.lanes
  {
    var n := opt.input.lanes;
    PlainIsNeeded(opt, s[..n], s[n..]);
    assert s[..n] + s[n..] == s;
  }

  /** A buffer with the counted room is never overrun. */
  lemma CountedRoomIsSafe(opt: Options, s: seq<Unit>, room: nat, r: Report)
    requires Steps(opt.input) && BlocksArePlain(opt) && opt.outMode.Normal?
    requires Needed(opt, s) <= room
    ensures Moves(ByBlock(opt)) && Run(ByBlock(opt), s, room, r).Finished?
  {
    StepsMove(opt);
    var enough := (s: seq<Unit>, room: nat) => Needed(opt, s) <= room;
    forall s, room, r
      ensures Keeps(ByBlock(opt), enough, s, room, r)
    {
      if s != [] && enough(s, room) {
        if BlockReady(opt, s, room) {
          BlockNeeds(opt, s, room, r);
        } else {
          CharNeeds(opt, s, room, r);
        }
      }
    }
    RunFinishes(ByBlock(opt), enough, s, room, r);
  }

  /**
   * The two calls of the program together: count with an empty buffer, allocate
   * exactly that much, convert.  With the block path on in both, the conversion
   * stays in the buffer, fills it, and reports what the count reported.
   */
  lemma CountThenConvert(opt: Options, s: seq<Unit>)
    requires Steps(opt.input) && BlocksArePlain(opt) && opt.outMode.Normal? && opt.output.lanes > 0
    ensures Moves(ByBlock(opt)) && Moves(ByBlock(opt.(outMode := Count)))
    ensures var first := Run(ByBlock(opt.(outMode := Count)), s, 0, START);
      && first.Finished? && first.text.out == []
      && var need := first.text.report.need;
      var second := Run(ByBlock(opt), s, need, START);
      && second == Finished(Scan(opt, s, need, START))
      && second.text.out == EncodeAll(opt.output, CodesOf(opt, s))
      && |second.text.out| == second.text.report.outputBlocks == need
      && SameTally(second.text.report, first.text.report)
  {
    var count := opt.(outMode := Count);
    NoRoomNoBlock(count, s, 0, START);
    CountIsNeed(count, s, 0);
    TwoPasses(opt, s, Needed(opt, s));
    CountedRoomIsSafe(opt, s, Needed(opt, s), START);
    BlockLoop(opt, s, Needed(opt, s), START);
  }
}
