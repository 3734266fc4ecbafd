/**
 * shared_mutex as a state machine whose steps are the atomic accesses of its
 * threads.  Waiting on a signal word may end at any time, so it is a pause;
 * the signals themselves are left out.
 */
module SharedMutex {
  import opened LockWords

  /** lock_state_: the write bit, the pending bit and the number of readers. */
  datatype State = State(write: bool, pending: bool, readers: nat)

  const FREE := State(false, false, 0)

  /** The lock word and the counts of registered waiters. */
  datatype Memory = Memory(state: State, writeWait: u16, readWait: u16) {
    function Waits(side: Side): u16 {
      if side.Read? then readWait else writeWait
    }

    function SetWaits(side: Side, n: u16): Memory {
      if side.Read? then this.(readWait := n) else this.(writeWait := n)
    }
  }

  /**
   * Where a thread is, by the access it makes next.  `stay` tells lock() from
   * try_lock(), `waiting` is is_add_wait, `exp` a copy of the lock word.  From Hold on, unlock() branches on the
   * lock word and not on how the lock was taken; `side` records the latter.
   */
  datatype Thread =
    | Idle
    | WriteTry(stay: bool)
    | SetPending
    | WriteTop(waiting: bool)
    | WriteCas(waiting: bool, exp: State)
    | ReadTop(stay: bool, waiting: bool)
    | ReadCas(stay: bool, waiting: bool, exp: State)
    | Pause(side: Side, waiting: bool)
    | Deregister(side: Side)
    | Hold(side: Side)
    | LoadWaits(side: Side)
    | Store(side: Side, hasWriter: bool)
    | Subtract(side: Side)

  datatype System = System(mem: Memory, threads: map<nat, Thread>)

  /** What the model leaves open: which operation, when to wait, spurious failure of the weak exchange. */
  datatype Choice = Choice(side: Side, yes: bool, weak: bool)

  predicate ReadOpen(w: State) {
    !w.write && !w.pending
  }

  predicate WriteOpen(w: State) {
    !w.write && w.readers == 0
  }

  /** A thread that has just taken the lock first leaves the count of waiters. */
  function Taken(side: Side, waiting: bool): Thread {
    if waiting then Deregister(side) else Hold(side)
  }

  function Access(m: Memory, l: Thread, c: Choice): (r: (Memory, Thread)) {
    match l
    case Idle =>
      (m, if c.side.Read? then ReadTop(c.yes, false) else WriteTry(c.yes))
    case WriteTry(stay) =>
      if m.state == FREE then (m.(state := State(true, false, 0)), Hold(Write))
      else (m, if stay then SetPending else Idle)
    case SetPending =>
      (m.(state := m.state.(pending := true)), WriteTop(false))
    case WriteTop(waiting) =>
      (m, if WriteOpen(m.state) then WriteCas(waiting, m.state) else Pause(Write, waiting))
    case WriteCas(waiting, exp) =>
      if m.state == exp then (m.(state := State(true, exp.pending, 0)), Taken(Write, waiting))
      else (m, Pause(Write, waiting))
    case ReadTop(stay, waiting) =>
      (m, if ReadOpen(m.state) then ReadCas(stay, waiting, m.state)
          else if stay then Pause(Read, waiting) else Idle)
    case ReadCas(stay, waiting, exp) =>
      if m.state == exp && !c.weak then (m.(state := exp.(readers := exp.readers + 1)), Taken(Read, waiting))
      else (m, if stay then Pause(Read, waiting) else Idle)
    case Pause(side, waiting) =>
      var again := if side.Read? then ReadTop(true, waiting) else WriteTop(waiting);
      var counted := if side.Read? then ReadTop(true, true) else WriteTop(true);
      if waiting || !c.yes then (m, again)
      else (m.SetWaits(side, Inc16(m.Waits(side))), counted)
    case Deregister(side) =>
      (m.SetWaits(side, Dec16(m.Waits(side))), Hold(side))
    case Hold(side) =>
      (m, if m.state.write then LoadWaits(side) else Subtract(side))
    case LoadWaits(side) =>
      (m, Store(side, m.writeWait > 0))
    case Store(_, hasWriter) =>
      (m.(state := State(false, hasWriter, 0)), Idle)
    case Subtract(_) =>
      (m.(state := m.state.(readers := if m.state.readers == 0 then 0 else m.state.readers - 1)), Idle)
  }

  function Step(s: System, t: nat, c: Choice): System
    requires t in s.threads
  {
    var (mem, l) := Access(s.mem, s.threads[t], c);
    System(mem, s.threads[t := l])
  }

  /** A new lock, shared by fewer than 2^16 threads that do not hold it. */
  predicate Init(s: System) {
    && s.mem == Memory(FREE, 0, 0)
    && |s.threads| < 0x1_0000
    && forall t :: t in s.threads ==> s.threads[t].Idle?
  }

  ghost predicate Next(s: System, s': System) {
    exists t, c :: t in s.threads && s' == Step(s, t, c)
  }

  ghost predicate StepAt(run: seq<System>, i: nat)
    requires i + 1 < |run|
  {
    Next(run[i], run[i + 1])
  }

  ghost predicate Run(run: seq<System>) {
    |run| > 0 && forall i: nat :: i + 1 < |run| ==> StepAt(run, i)
  }
}
