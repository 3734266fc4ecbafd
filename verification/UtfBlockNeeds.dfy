/**
 * The block path outside normal mode.  A copied block adds nothing to the
 * need, so the reported need is short by the units copied in blocks, and by
 * nothing else.
 */
module UtfBlockNeeds {

  import opened UtfCode
  import opened UtfString
  import opened UtfTheorems
  import opened UtfBlocks

  // ---- Loops that fall behind a meaning ----

  /** The same story of the input, and a need greater by k. */
  ghost predicate NeedsMore(r: Report, r': Report, k: nat) {
    SameTally(r, r') && r.need == r'.need + k
  }

  /** a tells the same story as b and needs k more; if outputs count, a's is units and then b's. */
  ghost predicate Ahead(a: Text, b: Text, units: seq<Unit>, k: nat, outs: bool) {
    NeedsMore(a.report, b.report, k) && (outs ==> a.out == units + b.out)
  }

  lemma AheadThen(a: Text, b: Text, c: Text, x: seq<Unit>, y: seq<Unit>, k: nat, l: nat, outs: bool)
    requires Ahead(a, b, x, k, outs) && Ahead(b, c, y, l, outs)
    ensures Ahead(a, c, x + y, k + l, outs)
  {
    assert x + (y + c.out) == (x + y) + c.out;
  }

  type Cost = (seq<Unit>, nat) -> nat

  /** One turn falls behind the meaning by its cost. */
  ghost predicate Tracks(step: Stepper, means: Meaning, cost: Cost, outs: bool, s: seq<Unit>, room: nat, r: Report) {
    if s == [] then means(s, room, r) == Text(r, [])
    else
      match step(s, room, r)
      case End(last) => means(s, room, r) == Text(last, [])
      case Burst => true
      case On(used, units, next) =>
        && 1 <= used <= |s| && |units| <= room
        && Ahead(means(s, room, r), means(s[used..], room - |units|, next), units, cost(s, room), outs)
  }

  /** What the turns of a run cost together. */
  function Paid(step: Stepper, cost: Cost, s: seq<Unit>, room: nat, r: Report): nat
    requires Moves(step)
    decreases |s|
  {
    if s == [] then 0
    else
      match step(s, room, r)
      case On(used, units, next) => cost(s, room) + Paid(step, cost, s[used..], room - |units|, next)
      case _ => 0
  }

  lemma {:induction false} RunTracks(step: Stepper, means: Meaning, cost: Cost, outs: bool, s: seq<Unit>, room: nat,
                                     r: Report)
    requires Moves(step) && forall s, room, r :: Tracks(step, means, cost, outs, s, room, r)
    requires Run(step, s, room, r).Finished?
    ensures Ahead(means(s, room, r), Run(step, s, room, r).text, [], Paid(step, cost, s, room, r), outs)
    decreases |s|
  {
    assert Tracks(step, means, cost, outs, s, room, r);
    if s != [] && step(s, room, r).On? {
      var m := step(s, room, r);
      var rest, room' := s[m.used..], room - |m.units|;
      RunTracks(step, means, cost, outs, rest, room', m.next);
      var t := Run(step, rest, room', m.next).text;
      AheadThen(means(s, room, r), means(rest, room', m.next), t, m.units, [],
                cost(s, room), Paid(step, cost, rest, room', m.next), outs);
      assert m.units + [] == m.units && [] + (m.units + t.out) == m.units + t.out;
    }
  }

  // ---- Reports that differ only in the need ----

  /** The same units, and reports that differ in the need by k. */
  ghost predicate MovesAlike(a: Move, b: Move, k: nat) {
    match a
    case Halt(last) => b.Halt? && NeedsMore(last, b.last, k)
    case Go(units, next) => b.Go? && units == b.units && NeedsMore(next, b.next, k)
  }

  type Mover = (Decoded, nat, Report) -> Move

  /** How one character moves a player on, whatever the rest. */
  ghost predicate Plays(play: Player, move: Mover) {
    && (forall room, r :: play([], room, r) == Text(r, []))
    && forall d, ds, room, r :: PlaysFirst(play, move, d, ds, room, r)
  }

  ghost predicate PlaysFirst(play: Player, move: Mover, d: Decoded, ds: seq<Decoded>, room: nat, r: Report) {
    match move(d, room, r)
    case Halt(last) => play([d] + ds, room, r) == Text(last, [])
    case Go(units, next) => |units| <= room && play([d] + ds, room, r) == Join(units, play(ds, room - |units|, next))
  }

  ghost predicate Alike(move: Mover, full: bool, k: nat) {
    forall d, room, room', r, r' :: NeedsMore(r, r', k) && (full ==> room == room') ==>
      MovesAlike(move(d, room, r), move(d, room', r'), k)
  }

  lemma {:induction false} PlayersAlike(play: Player, move: Mover, full: bool, ds: seq<Decoded>, room: nat, room': nat,
                                       r: Report, r': Report, k: nat)
    requires Plays(play, move) && Alike(move, full, k) && NeedsMore(r, r', k) && (full ==> room == room')
    ensures Ahead(play(ds, room, r), play(ds, room', r'), [], k, full)
  {
    if ds == [] {
      assert play(ds, room, r) == Text(r, []) && play(ds, room', r') == Text(r', []);
    } else {
      var d, rest := ds[0], ds[1..];
      assert ds == [d] + rest;
      assert PlaysFirst(play, move, d, rest, room, r) && PlaysFirst(play, move, d, rest, room', r');
      var m, m' := move(d, room, r), move(d, room', r');
      assert MovesAlike(m, m', k);
      if m.Go? {
        PlayersAlike(play, move, full, rest, room - |m.units|, room' - |m'.units|, m.next, m'.next, k);
        JoinsAlike(m.units, play(rest, room - |m.units|, m.next), play(rest, room' - |m'.units|, m'.next), k, full);
      }
    }
  }

  function Advances(opt: Options): Mover {
    (d: Decoded, room: nat, r: Report) => Advance(opt, d, room, r)
  }

  lemma AdvanceAlike(opt: Options, d: Decoded, room: nat, room': nat, r: Report, r': Report, k: nat)
    requires !opt.outMode.Normal? && NeedsMore(r, r', k)
    requires opt.outMode.Full? ==> room == room'
    ensures MovesAlike(Advance(opt, d, room, r), Advance(opt, d, room', r'), k)
  {
  }

  /** Outside normal mode a need carried along is added at the end, and in count mode the room does not matter. */
  lemma PlayAlike(opt: Options, ds: seq<Decoded>, room: nat, room': nat, r: Report, r': Report, k: nat)
    requires !opt.outMode.Normal? && NeedsMore(r, r', k)
    requires opt.outMode.Full? ==> room == room'
    ensures Ahead(Play(opt, ds, room, r), Play(opt, ds, room', r'), [], k, opt.outMode.Full?)
  {
    var play, move := Played(opt), Advances(opt);
    forall d, ds, room, r
      ensures PlaysFirst(play, move, d, ds, room, r)
    {
      PlayFirst(opt, d, ds, room, r);
    }
    forall d, room, room', r, r' | NeedsMore(r, r', k) && (opt.outMode.Full? ==> room == room')
      ensures MovesAlike(move(d, room, r), move(d, room', r'), k)
    {
      AdvanceAlike(opt, d, room, room', r, r', k);
    }
    PlayersAlike(play, move, opt.outMode.Full?, ds, room, room', r, r', k);
  }

  lemma JoinsAlike(units: seq<Unit>, a: Text, b: Text, k: nat, outs: bool)
    requires Ahead(a, b, [], k, outs)
    ensures Ahead(Join(units, a), Join(units, b), [], k, outs)
  {
    assert [] + b.out == b.out && [] + (units + b.out) == units + b.out;
  }

  // ---- A copied block ----

  lemma AdvanceCounted(opt: Options, u: Unit, room: nat, r: Report)
    requires opt.output.encode(u) == [u] && !opt.outMode.Normal? && room > 0
    ensures var m := Advance(opt, Decoded(NoError, 1, u), room, r);
      && m.Go? && SameTally(m.next, Copied(r, 1)) && m.next.need == r.need + 1
      && m.units == if opt.outMode.Full? then [u] else []
  {
  }

  lemma JoinAhead(units: seq<Unit>, a: Text, b: Text, x: seq<Unit>, k: nat, outs: bool)
    requires Ahead(a, b, [], k, outs) && (outs ==> units == x)
    ensures Ahead(Join(units, a), b, x, k, outs)
  {
    assert [] + b.out == b.out;
  }

  lemma OneAhead(opt: Options, u: Unit, ds: seq<Decoded>, room: nat, r: Report)
    requires Plain(opt, u) && !opt.outMode.Normal? && room > 0
    ensures Ahead(Play(opt, [Decoded(NoError, 1, u)] + ds, room, r), Play(opt, ds, room - 1, Copied(r, 1)), [u], 1,
                  opt.outMode.Full?)
  {
    var d := Decoded(NoError, 1, u);
    AdvanceCounted(opt, u, room, r);
    var m := Advance(opt, d, room, r);
    PlayFirst(opt, d, ds, room, r);
    PlayAlike(opt, ds, room - |m.units|, room - 1, m.next, Copied(r, 1), 1);
    JoinAhead(m.units, Play(opt, ds, room - |m.units|, m.next), Play(opt, ds, room - 1, Copied(r, 1)), [u], 1,
              opt.outMode.Full?);
  }

  lemma {:induction false} PlainAhead(opt: Options, s: seq<Unit>, ds: seq<Decoded>, room: nat, r: Report)
    requires AllPlain(opt, s) && !opt.outMode.Normal? && |s| <= room
    ensures Ahead(Play(opt, AsRead(s) + ds, room, r), Play(opt, ds, room - |s|, Copied(r, |s|)), s, |s|,
                  opt.outMode.Full?)
  {
    if s == [] {
      assert AsRead(s) + ds == ds && Copied(r, 0) == r;
    } else {
      var more := AsRead(s[1..]) + ds;
      assert AsRead(s) + ds == [Decoded(NoError, 1, s[0])] + more;
      assert Plain(opt, s[0]);
      OneAhead(opt, s[0], more, room, r);
      PlainAhead(opt, s[1..], ds, room - 1, Copied(r, 1));
      assert Copied(Copied(r, 1), |s| - 1) == Copied(r, |s|);
      AheadThen(Play(opt, AsRead(s) + ds, room, r), Play(opt, more, room - 1, Copied(r, 1)),
                Play(opt, ds, room - |s|, Copied(r, |s|)), [s[0]], s[1..], 1, |s| - 1, opt.outMode.Full?);
      assert [s[0]] + s[1..] == s;
    }
  }

  lemma ScanAhead(opt: Options, s: seq<Unit>, rest: seq<Unit>, room: nat, r: Report)
    requires Steps(opt.input) && AllPlain(opt, s) && !opt.outMode.Normal? && |s| <= room
    ensures Ahead(Scan(opt, s + rest, room, r), Scan(opt, rest, room - |s|, Copied(r, |s|)), s, |s|, opt.outMode.Full?)
  {
    ParsePlain(opt, s, rest);
    PlainAhead(opt, s, Parse(opt.input, rest), room, r);
  }

  lemma CopyAhead(opt: Options, s: seq<Unit>, room: nat, r: Report)
    requires Steps(opt.input) && BlocksArePlain(opt) && !opt.outMode.Normal?
    requires BlockReady(opt, s, room) && opt.input.lanes <= room
    ensures var n := opt.input.lanes;
      Ahead(Scan(opt, s, room, r), Scan(opt, s[n..], room - n, Copied(r, n)), s[..n], n, opt.outMode.Full?)
  {
    var n := opt.input.lanes;
    ScanAhead(opt, s[..n], s[n..], room, r);
    assert s[..n] + s[n..] == s;
  }

  // ---- The need of a run with blocks ----

  /** A block turn leaves its units out of the need. */
  function Toll(opt: Options): Cost {
    (s: seq<Unit>, room: nat) => if BlockReady(opt, s, room) then opt.input.lanes else 0
  }

  /** The units that a run copies in blocks. */
  function BlockUnits(opt: Options, s: seq<Unit>, room: nat, r: Report): nat
    requires Moves(ByBlock(opt))
  {
    Paid(ByBlock(opt), Toll(opt), s, room, r)
  }

  lemma TracksOn(step: Stepper, means: Meaning, cost: Cost, outs: bool, s: seq<Unit>, room: nat, r: Report,
                 used: nat, units: seq<Unit>, next: Report)
    requires step(s, room, r) == On(used, units, next) && 1 <= used <= |s| && |units| <= room
    requires Ahead(means(s, room, r), means(s[used..], room - |units|, next), units, cost(s, room), outs)
    ensures Tracks(step, means, cost, outs, s, room, r)
  {
  }

  /** A turn that agrees with the meaning and is free keeps up with it. */
  lemma TracksFree(a: Stepper, b: Stepper, means: Meaning, cost: Cost, outs: bool, s: seq<Unit>, room: nat, r: Report)
    requires Agrees(a, means, s, room, r) && a(s, room, r) == b(s, room, r) && cost(s, room) == 0
    ensures Tracks(b, means, cost, outs, s, room, r)
  {
  }

  lemma BlockTracks(opt: Options, s: seq<Unit>, room: nat, r: Report)
    requires Steps(opt.input) && BlocksArePlain(opt) && !opt.outMode.Normal?
    ensures Tracks(ByBlock(opt), Meant(opt), Toll(opt), opt.outMode.Full?, s, room, r)
  {
    if BlockReady(opt, s, room) {
      var n := opt.input.lanes;
      if n <= room {
        CopyAhead(opt, s, room, r);
        TracksOn(ByBlock(opt), Meant(opt), Toll(opt), opt.outMode.Full?, s, room, r, n, s[..n], Copied(r, n));
      }
    } else {
      CharAgrees(opt, s, room, r);
      TracksFree(ByChar(opt), ByBlock(opt), Meant(opt), Toll(opt), opt.outMode.Full?, s, room, r);
    }
  }

  /**
   * Outside normal mode, a run with blocks that stays inside the buffer tells
   * the story of the scalar loop, and in full mode writes what it writes; its
   * need is short by the units copied in blocks.
   */
  lemma NeedIsShort(opt: Options, s: seq<Unit>, room: nat, r: Report)
    requires Steps(opt.input) && BlocksArePlain(opt) && !opt.outMode.Normal?
    ensures Moves(ByBlock(opt))
    ensures Run(ByBlock(opt), s, room, r).Finished? ==>
      Ahead(Scan(opt, s, room, r), Run(ByBlock(opt), s, room, r).text, [], BlockUnits(opt, s, room, r),
            opt.outMode.Full?)
  {
    StepsMove(opt);
    if Run(ByBlock(opt), s, room, r).Finished? {
      forall s, room, r
        ensures Tracks(ByBlock(opt), Meant(opt), Toll(opt), opt.outMode.Full?, s, room, r)
      {
        BlockTracks(opt, s, room, r);
      }
      RunTracks(ByBlock(opt), Meant(opt), Toll(opt), opt.outMode.Full?, s, room, r);
    }
  }
}
