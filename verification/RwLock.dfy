/**
 * The writer-preferring reader/writer lock, as a state machine whose steps are
 * the atomic accesses of its threads.  A system is the three shared words and,
 * for each thread, the point of lock(), try_lock() or unlock() it has reached
 * together with its local variables.
 */
module RwLock {
  import opened LockWords

  type u64 = x: nat | x < 0x1_0000_0000_0000_0000

  /** The four counters that share one compare-and-swap word. */
  datatype Word = Word(prepRead: u16, prepWrite: u16, actiRead: u16, actiWrite: u16) {
    function Acti(side: Side): u16 {
      if side.Read? then actiRead else actiWrite
    }

    function Prep(side: Side): u16 {
      if side.Read? then prepRead else prepWrite
    }
  }

  // A wait word keeps the number of registered waiters in its low 16 bits and
  // a version in the other 48.

  const VER_INC: u64 := 0x1_0000

  function Waiters(w: u64): u16 {
    w % 0x1_0000
  }

  function Version(w: u64): nat {
    w / 0x1_0000
  }

  function FetchAdd(w: u64, n: u64): u64 {
    (w + n) % 0x1_0000_0000_0000_0000
  }

  function FetchSub(w: u64, n: u64): u64 {
    (w + 0x1_0000_0000_0000_0000 - n) % 0x1_0000_0000_0000_0000
  }

  /**
   * Where a thread is.  Each constructor names the access the thread makes
   * next; `stay` tells lock() from try_lock(), `exp` is its local copy of the
   * state word, `waiting` its is_wait flag, and `wexp` the wait word it will go
   * to sleep on.
   */
  datatype Thread =
    | Idle
    | TryLoad(side: Side, stay: bool)
    | TryCas(side: Side, stay: bool, exp: Word)
    | SlowLoad(side: Side)
    | Announce(side: Side, exp: Word)
    | Top(side: Side, waiting: bool)
    | Acquire(side: Side, waiting: bool, exp: Word)
    | Pass(side: Side, waiting: bool)
    | Recheck(side: Side, wexp: u64)
    | Unregister(side: Side)
    | WaitCheck(side: Side, wexp: u64)
    | Blocked(side: Side, wexp: u64)
    | Deregister(side: Side)
    | Hold(side: Side)
    | Release(side: Side, exp: Word)
    | BumpWrite
    | NotifyOne
    | BumpRead
    | NotifyAll

  /** The words the threads share. */
  datatype Memory = Memory(word: Word, waitRead: u64, waitWrite: u64) {
    function Wait(side: Side): u64 {
      if side.Read? then waitRead else waitWrite
    }

    function SetWait(side: Side, w: u64): Memory {
      if side.Read? then this.(waitRead := w) else this.(waitWrite := w)
    }
  }

  datatype System = System(mem: Memory, threads: map<nat, Thread>)

  /** Everything the model leaves open: timing, spurious wakeups, whom notify_one picks. */
  datatype Choice = Choice(side: Side, yes: bool, sleeper: nat)

  // The tests of the code.

  predicate TryOpen(side: Side, w: Word) {
    if side.Read? then
      w.actiWrite == 0 && w.prepWrite == 0
    else
      w.actiRead == 0 && w.prepRead == 0 && w.actiWrite == 0 && w.prepWrite == 0
  }

  predicate SlowOpen(side: Side, w: Word) {
    if side.Read? then
      w.actiWrite == 0 && w.prepWrite == 0
    else
      w.actiRead == 0 && w.actiWrite == 0
  }

  // The new values the code swaps in.

  function Announced(side: Side, w: Word): Word {
    if side.Read? then w.(prepRead := Inc16(w.prepRead)) else w.(prepWrite := Inc16(w.prepWrite))
  }

  function TryTaken(side: Side, w: Word): Word {
    if side.Read? then w.(actiRead := Inc16(w.actiRead)) else w.(actiWrite := 1)
  }

  function SlowTaken(side: Side, w: Word): Word {
    if side.Read? then
      w.(actiRead := Inc16(w.actiRead), prepRead := Dec16(w.prepRead))
    else
      w.(actiWrite := 1, prepWrite := Dec16(w.prepWrite))
  }

  function Released(side: Side, w: Word): Word {
    if side.Read? then w.(actiRead := Dec16(w.actiRead)) else w.(actiWrite := 0)
  }

  /** One atomic access: what it leaves in memory, and where its thread goes next. */
  function Access(m: Memory, l: Thread, c: Choice): (r: (Memory, Thread)) {
    match l
    case Idle =>
      (m, TryLoad(c.side, c.yes))
    case TryLoad(side, stay) =>
      if TryOpen(side, m.word) then (m, TryCas(side, stay, m.word))
      else (m, if stay then SlowLoad(side) else Idle)
    case TryCas(side, stay, exp) =>
      if m.word == exp then (m.(word := TryTaken(side, exp)), Hold(side))
      else (m, if stay then SlowLoad(side) else Idle)
    case SlowLoad(side) =>
      (m, Announce(side, m.word))
    case Announce(side, exp) =>
      if m.word == exp then (m.(word := Announced(side, exp)), Top(side, false))
      else (m, Announce(side, m.word))
    case Top(side, waiting) =>
      (m, if SlowOpen(side, m.word) then Acquire(side, waiting, m.word) else Pass(side, waiting))
    case Acquire(side, waiting, exp) =>
      if m.word == exp then
        (m.(word := SlowTaken(side, exp)), if waiting then Deregister(side) else Hold(side))
      else (m, Top(side, waiting))
    case Pass(side, waiting) =>
      if !c.yes then (m, Top(side, waiting))
      else if waiting then (m, Recheck(side, m.Wait(side)))
      else
        var w := FetchAdd(m.Wait(side), 1);
        (m.SetWait(side, w), Recheck(side, w))
    case Recheck(side, wexp) =>
      (m, if SlowOpen(side, m.word) then Unregister(side) else WaitCheck(side, wexp))
    case Unregister(side) =>
      (m.SetWait(side, FetchSub(m.Wait(side), 1)), Top(side, false))
    case WaitCheck(side, wexp) =>
      (m, if m.Wait(side) == wexp then Blocked(side, wexp) else Top(side, true))
    case Blocked(side, wexp) =>
      (m, if c.yes then WaitCheck(side, wexp) else l)
    case Deregister(side) =>
      (m.SetWait(side, FetchSub(m.Wait(side), 1)), Hold(side))
    case Hold(side) =>
      (m, Release(side, m.word))
    case Release(side, exp) =>
      if exp.Acti(side) == 0 then (m, Idle)
      else if m.word == exp then (m.(word := Released(side, exp)), BumpWrite)
      else (m, Release(side, m.word))
    case BumpWrite =>
      (m.(waitWrite := FetchAdd(m.waitWrite, VER_INC)), if Waiters(m.waitWrite) != 0 then NotifyOne else BumpRead)
    case NotifyOne =>
      (m, Idle)
    case BumpRead =>
      (m.(waitRead := FetchAdd(m.waitRead, VER_INC)), if Waiters(m.waitRead) != 0 then NotifyAll else Idle)
    case NotifyAll =>
      (m, Idle)
  }

  predicate Asleep(side: Side, l: Thread) {
    l.Blocked? && l.side == side
  }

  /** A sleeper that is notified compares the wait word once more. */
  function Woken(l: Thread): Thread {
    if l.Blocked? then WaitCheck(l.side, l.wexp) else l
  }

  /** What l's notification does to the other threads. */
  function Notify(l: Thread, threads: map<nat, Thread>, c: Choice): map<nat, Thread> {
    match l
    case NotifyOne =>
      if c.sleeper in threads && Asleep(Write, threads[c.sleeper]) then
        threads[c.sleeper := Woken(threads[c.sleeper])]
      else threads
    case NotifyAll =>
      map t | t in threads :: if Asleep(Read, threads[t]) then Woken(threads[t]) else threads[t]
    case _ => threads
  }

  /**
   * A choice is enabled unless it makes notify_one pass over a sleeper, or a
   * version counter wrap: 2^48 releases of one lock are assumed away.
   */
  predicate Enabled(s: System, t: nat, c: Choice) {
    && t in s.threads
    && (s.threads[t].NotifyOne? ==>
          || (c.sleeper in s.threads && Asleep(Write, s.threads[c.sleeper]))
          || forall u :: u in s.threads ==> !Asleep(Write, s.threads[u]))
    && (s.threads[t].BumpWrite? ==> Version(s.mem.waitWrite) + 1 < 0x1_0000_0000_0000)
    && (s.threads[t].BumpRead? ==> Version(s.mem.waitRead) + 1 < 0x1_0000_0000_0000)
  }

  /** Thread t makes its next access. */
  function Step(s: System, t: nat, c: Choice): System
    requires t in s.threads
  {
    var l := s.threads[t];
    var (mem, l') := Access(s.mem, l, c);
    System(mem, Notify(l, s.threads[t := l'], c))
  }

  /** A new lock, shared by fewer than 2^16 threads that do not hold it. */
  predicate Init(s: System) {
    && s.mem == Memory(Word(0, 0, 0, 0), 0, 0)
    && |s.threads| < 0x1_0000
    && forall t :: t in s.threads ==> s.threads[t].Idle?
  }

  ghost predicate Next(s: System, s': System) {
    exists t, c :: Enabled(s, t, c) && s' == Step(s, t, c)
  }

  ghost predicate StepAt(run: seq<System>, i: nat)
    requires i + 1 < |run|
  {
    Next(run[i], run[i + 1])
  }

  /** A run: consecutive states are one step apart. */
  ghost predicate Run(run: seq<System>) {
    |run| > 0 && forall i: nat :: i + 1 < |run| ==> StepAt(run, i)
  }
}
