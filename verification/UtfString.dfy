/**
 * The string driver as a function on sequences: one character per step, the
 * three output modes, the three error modes, and the block path that copies
 * eight bytes of ASCII at once.  The driver knows an encoding only by its
 * decoder, its encoder and the ASCII test on its eight-byte blocks.
 */
module UtfString {

  import opened UtfCode

  /**
   * One side of a conversion: which units and codes it has, how it reads and
   * writes one character, how many units eight bytes hold and when they are
   * all ASCII.
   */
  datatype Format = Format(
    isUnit: Unit -> bool,
    legal: Unit -> bool,
    decode: seq<Unit> -> Decoded,
    encode: Unit -> seq<Unit>,
    lanes: nat,
    ascii: seq<Unit> -> bool)

  ghost predicate Steps(f: Format) {
    && f.lanes > 0
    && forall s :: Forward(f.decode(s), |s|)
  }

  datatype ErrorMode = Stop | Skip | Replace

  datatype OutMode = Normal | Full | Count

  datatype Options = Options(input: Format, output: Format, errorMode: ErrorMode, outMode: OutMode, replaceChar: Unit)

  datatype Status = Ok | Partial | Failed

  datatype Report = Report(inputBlocks: nat, outputBlocks: nat, normalChars: nat, errorChars: nat, need: nat,
                           status: Status, errors: set<Error>)

  const START := Report(0, 0, 0, 0, 0, Ok, {})

  // ---- One character ----

  /** Stop with this report, or write some units and go on. */
  datatype Move = Halt(last: Report) | Go(units: seq<Unit>, next: Report)

  /** The report after a character is decoded, well or badly. */
  function Read(opt: Options, r: Report, d: Decoded): Report {
    var r' := r.(inputBlocks := r.inputBlocks + d.blocks);
    if d.error == NoError then r'.(normalChars := r.normalChars + 1)
    else r'.(errorChars := r.errorChars + 1, errors := r.errors + {d.error},
             status := if d.error == InTruncated || opt.errorMode.Stop? then Failed else Partial)
  }

  predicate Stops(opt: Options, d: Decoded) {
    d.error == InTruncated || (d.error != NoError && opt.errorMode.Stop?)
  }

  predicate Skips(opt: Options, d: Decoded) {
    d.error != NoError && d.error != InTruncated && opt.errorMode.Skip?
  }

  /** The code that is passed on to the encoder. */
  function Passed(opt: Options, d: Decoded): Unit {
    if d.error == NoError then d.unicode else opt.replaceChar
  }

  /** The encoder's part: the output mode decides what becomes of the units. */
  function Put(opt: Options, units: seq<Unit>, room: nat, r: Report): (m: Move)
    ensures m.Go? ==> |m.units| <= room
  {
    var n := |units|;
    match opt.outMode
    case Count => Go([], r.(need := r.need + n))
    case Normal =>
      if n <= room then Go(units, r.(outputBlocks := r.outputBlocks + n))
      else Halt(r.(errors := r.errors + {OutOverflow}, status := Failed))
    case Full =>
      if n <= room then Go(units, r.(outputBlocks := r.outputBlocks + n, need := r.need + n))
      else Go([], r.(need := r.need + n, errors := r.errors + {OutOverflow}, status := Partial))
  }

  function Advance(opt: Options, d: Decoded, room: nat, r: Report): (m: Move)
    ensures m.Go? ==> d.error != InTruncated && |m.units| <= room
  {
    if Stops(opt, d) then Halt(Read(opt, r, d))
    else if Skips(opt, d) then Go([], Read(opt, r, d))
    else Put(opt, opt.output.encode(Passed(opt, d)), room, Read(opt, r, d))
  }

  // ---- A character by itself ----

  /** What char_to_char reports, and the units it writes. */
  datatype Single = Single(inputBlocks: nat, outputBlocks: nat, status: Status, errors: set<Error>, out: seq<Unit>)

  function Convert(opt: Options, d: Decoded, room: nat): (c: Single) {
    if d.error != NoError && !opt.errorMode.Replace? then Single(d.blocks, 0, Failed, {d.error}, [])
    else
      var units := opt.output.encode(Passed(opt, d));
      var n := |units|;
      var c := if d.error == NoError then Single(d.blocks, n, Ok, {}, units)
               else Single(d.blocks, n, Partial, {d.error}, units);
      if opt.outMode.Count? then c.(out := [])
      else if n <= room then c
      else c.(status := Failed, errors := c.errors + {OutOverflow}, out := [])
  }

  // ---- The loop ----

  datatype Text = Text(report: Report, out: seq<Unit>)

  /** What one step writes goes before what the rest writes. */
  function Join(units: seq<Unit>, t: Text): Text {
    Text(t.report, units + t.out)
  }

  /** One turn of the loop; Burst is a write past the end of the buffer. */
  datatype Step = End(last: Report) | Burst | On(used: nat, units: seq<Unit>, next: Report)

  type Stepper = (seq<Unit>, nat, Report) -> Step

  /** How the loop ends. */
  datatype Outcome = Finished(text: Text) | Overrun

  function Before(units: seq<Unit>, c: Outcome): Outcome {
    match c
    case Overrun => Overrun
    case Finished(t) => Finished(Join(units, t))
  }

  predicate Sound(m: Step, length: nat, room: nat) {
    m.On? ==> 1 <= m.used <= length && |m.units| <= room
  }

  /** Every turn consumes some input and writes what fits. */
  ghost predicate Moves(step: Stepper) {
    forall s, room, r :: s != [] ==> Sound(step(s, room, r), |s|, room)
  }

  /** Turn after turn while there is input. */
  function Run(step: Stepper, s: seq<Unit>, room: nat, r: Report): (c: Outcome)
    requires Moves(step)
    ensures c.Finished? ==> |c.text.out| <= room
    decreases |s|
  {
    if s == [] then Finished(Text(r, []))
    else
      match step(s, room, r)
      case End(last) => Finished(Text(last, []))
      case Burst => Overrun
      case On(used, units, next) => Before(units, Run(step, s[used..], room - |units|, next))
  }

  /** The scalar turn: one character. */
  function CharStep(opt: Options, s: seq<Unit>, room: nat, r: Report): (m: Step) {
    var d := opt.input.decode(s);
    match Advance(opt, d, room, r)
    case Halt(last) => End(last)
    case Go(units, next) => On(d.blocks, units, next)
  }

  /** The guard compares the room with the output's lane count, not with what is written. */
  predicate BlockReady(opt: Options, s: seq<Unit>, room: nat) {
    opt.input.lanes <= |s| && opt.output.lanes <= room && opt.input.ascii(s[..opt.input.lanes])
  }

  function Copied(r: Report, n: nat): Report {
    r.(inputBlocks := r.inputBlocks + n, outputBlocks := r.outputBlocks + n, normalChars := r.normalChars + n)
  }

  /** The turn with the block path: eight bytes of ASCII are copied unit by unit. */
  function BlockStep(opt: Options, s: seq<Unit>, room: nat, r: Report): (m: Step) {
    var n := opt.input.lanes;
    if !BlockReady(opt, s, room) then CharStep(opt, s, room, r)
    else if n > room then Burst
    else On(n, s[..n], Copied(r, n))
  }

  function ByChar(opt: Options): Stepper {
    (s: seq<Unit>, room: nat, r: Report) => CharStep(opt, s, room, r)
  }

  function ByBlock(opt: Options): Stepper {
    (s: seq<Unit>, room: nat, r: Report) => BlockStep(opt, s, room, r)
  }

  // ---- What a text says, apart from any buffer ----

  /** The characters of a text, good and bad, as the decoder finds them one after another. */
  function Parse(f: Format, s: seq<Unit>): (ds: seq<Decoded>)
    requires Steps(f)
    decreases |s|
  {
    if s == [] then []
    else
      var d := f.decode(s);
      if d.error == InTruncated then [d] else [d] + Parse(f, s[d.blocks..])
  }

  /** The codes passed on, in order: accepted characters and substitutes. */
  function Codes(opt: Options, ds: seq<Decoded>): (cs: seq<Unit>) {
    if ds == [] || Stops(opt, ds[0]) then []
    else if Skips(opt, ds[0]) then Codes(opt, ds[1..])
    else [Passed(opt, ds[0])] + Codes(opt, ds[1..])
  }

  function CodesOf(opt: Options, s: seq<Unit>): (cs: seq<Unit>)
    requires Steps(opt.input)
  {
    Codes(opt, Parse(opt.input, s))
  }

  function EncodeAll(f: Format, cs: seq<Unit>): seq<Unit> {
    if cs == [] then [] else f.encode(cs[0]) + EncodeAll(f, cs[1..])
  }

  /** The room a text needs when it is converted. */
  function Needed(opt: Options, s: seq<Unit>): nat
    requires Steps(opt.input)
  {
    |EncodeAll(opt.output, CodesOf(opt, s))|
  }

  /** A text the decoder takes all of. */
  predicate WellFormed(f: Format, s: seq<Unit>)
    requires Steps(f)
    decreases |s|
  {
    s == [] || (f.decode(s).error == NoError && WellFormed(f, s[f.decode(s).blocks..]))
  }

  predicate AreUnitsOf(f: Format, s: seq<Unit>) {
    forall i :: 0 <= i < |s| ==> f.isUnit(s[i])
  }

  predicate AllLegal(f: Format, cs: seq<Unit>) {
    forall i :: 0 <= i < |cs| ==> f.legal(cs[i])
  }

  // ---- The meaning of a run: split the text, then play the characters ----

  function Play(opt: Options, ds: seq<Decoded>, room: nat, r: Report): (t: Text)
    ensures |t.out| <= room
  {
    if ds == [] then Text(r, [])
    else
      match Advance(opt, ds[0], room, r)
      case Halt(last) => Text(last, [])
      case Go(units, next) => Join(units, Play(opt, ds[1..], room - |units|, next))
  }

  function Scan(opt: Options, s: seq<Unit>, room: nat, r: Report): (t: Text)
    requires Steps(opt.input)
  {
    Play(opt, Parse(opt.input, s), room, r)
  }

  // ---- What the theorems below ask of a format ----

  /** The encoding of a legal code decodes to it, whatever follows. */
  ghost predicate DecodesBack(f: Format) {
    && (forall u, rest :: f.legal(u) ==> f.decode(f.encode(u) + rest) == Decoded(NoError, |f.encode(u)|, u))
    && (forall u :: f.legal(u) ==> f.encode(u) != [])
  }

  /** What the decoder accepts is the encoding of a legal code. */
  ghost predicate AcceptsOnly(f: Format) {
    forall s :: s != [] && AreUnitsOf(f, s) && f.decode(s).error == NoError ==>
      && f.legal(f.decode(s).unicode) && f.decode(s).blocks <= |s|
      && s[..f.decode(s).blocks] == f.encode(f.decode(s).unicode)
  }

  ghost predicate Exact(f: Format) {
    Steps(f) && DecodesBack(f) && AcceptsOnly(f)
  }
}
