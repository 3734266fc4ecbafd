/**
 * No lost wakeup.  Whenever a thread sleeps, some other thread is awake and is
 * holding the lock, in the slow path of lock(), or inside unlock() with its
 * version bump or notification still to come.
 */
module RwLockWakeup {
  import opened Counting
  import opened LockWords
  import opened RwLock
  import opened RwLockSafety

  /** Some thread other than a sleeper satisfies p. */
  ghost predicate Somewhere(threads: map<nat, Thread>, p: Thread -> bool) {
    exists u :: u in threads && !threads[u].Blocked? && p(threads[u])
  }

  const BUMPS_WRITE: Thread -> bool := (l: Thread) => l.BumpWrite?
  const BUMPS_READ: Thread -> bool := (l: Thread) => l.BumpRead?
  const NOTIFIES_ONE: Thread -> bool := (l: Thread) => l.NotifyOne?
  const NOTIFIES_ALL: Thread -> bool := (l: Thread) => l.NotifyAll?

  function Retests(version: nat): Thread -> bool {
    l => WillRetest(version, l)
  }

  predicate Held(w: Word) {
    w.actiRead > 0 || w.actiWrite > 0
  }

  // Four facts, one for each side and each age of the version slept on.  A
  // sleeper is current while no release has bumped its word since it read it,
  // and stale afterwards.

  ghost predicate WriterCurrent(s: System) {
    forall u :: u in s.threads && GoesToSleep(Write, s.threads[u])
                && Version(s.threads[u].wexp) == Version(s.mem.waitWrite)
      ==> Held(s.mem.word) || Somewhere(s.threads, BUMPS_WRITE)
  }

  ghost predicate WriterStale(s: System) {
    forall u :: u in s.threads && Asleep(Write, s.threads[u])
                && Version(s.threads[u].wexp) < Version(s.mem.waitWrite)
      ==> || Held(s.mem.word)
          || Somewhere(s.threads, BUMPS_WRITE)
          || Somewhere(s.threads, NOTIFIES_ONE)
          || Somewhere(s.threads, Retests(Version(s.mem.waitWrite)))
  }

  ghost predicate ReaderWatched(s: System) {
    || !SlowOpen(Read, s.mem.word)
    || Somewhere(s.threads, BUMPS_WRITE)
    || Somewhere(s.threads, BUMPS_READ)
  }

  ghost predicate ReaderCurrent(s: System) {
    forall u :: u in s.threads && GoesToSleep(Read, s.threads[u])
                && Version(s.threads[u].wexp) == Version(s.mem.waitRead)
      ==> ReaderWatched(s)
  }

  ghost predicate ReaderStale(s: System) {
    forall u :: u in s.threads && Asleep(Read, s.threads[u])
                && Version(s.threads[u].wexp) < Version(s.mem.waitRead)
      ==> Somewhere(s.threads, NOTIFIES_ALL)
  }

  ghost predicate Watched(s: System) {
    WriterCurrent(s) && WriterStale(s) && ReaderCurrent(s) && ReaderStale(s)
  }

  /** A witness other than the moving thread is still there after the move. */
  lemma WitnessKept(s: System, t: nat, c: Choice, p: Thread -> bool)
    requires Enabled(s, t, c)
    requires Somewhere(s.threads, p) && !p(s.threads[t])
    ensures Somewhere(Step(s, t, c).threads, p)
  {
    var u :| u in s.threads && !s.threads[u].Blocked? && p(s.threads[u]);
    assert u != t;
    assert Step(s, t, c).threads[u] == s.threads[u];
  }

  /** The moving thread is a witness of what it has become. */
  lemma MoverIs(s: System, t: nat, c: Choice, p: Thread -> bool)
    requires Enabled(s, t, c)
    requires var l' := Access(s.mem, s.threads[t], c).1; !l'.Blocked? && p(l')
    ensures Somewhere(Step(s, t, c).threads, p)
  {
    assert Step(s, t, c).threads[t] == Access(s.mem, s.threads[t], c).1;
  }

  /** What the other threads look like after t's step. */
  lemma OtherKept(s: System, t: nat, c: Choice, u: nat)
    requires Enabled(s, t, c) && u in s.threads && u != t
    ensures u in Step(s, t, c).threads
    ensures Step(s, t, c).threads[u] == s.threads[u] || Step(s, t, c).threads[u] == Woken(s.threads[u])
  {
  }

  /** The facts of Safe a single access needs, gathered once. */
  lemma Facts(s: System, t: nat, c: Choice, side: Side)
    requires Safe(s) && Enabled(s, t, c)
    ensures RoomFor(s.mem, s.threads[t], side)
    ensures Version(Step(s, t, c).mem.Wait(side)) == Version(s.mem.Wait(side)) + One(Bumps(side, s.threads[t]))
  {
    Room(s, t, c, side);
    AccessWait(s.mem, s.threads[t], c, side);
  }

  // What one access can do to the two conditions a sleeper waits for.

  /** The lock stops being held only by a release, which goes on to bump. */
  lemma HeldUntilRelease(m: Memory, l: Thread, c: Choice)
    requires LocalOk(m, l) && Exclusive(m.word) && RoomFor(m, l, Read) && Held(m.word)
    ensures Held(Access(m, l, c).0.word) || Access(m, l, c).1.BumpWrite?
  {
  }

  /** Writers stop being in the way only by a release, which goes on to bump. */
  lemma WriterUntilRelease(m: Memory, l: Thread, c: Choice)
    requires LocalOk(m, l) && Exclusive(m.word) && RoomFor(m, l, Write)
    requires !SlowOpen(Read, m.word)
    ensures !SlowOpen(Read, Access(m, l, c).0.word) || Access(m, l, c).1.BumpWrite?
  {
  }

  /** A thread starts going to sleep only on a lock it has just seen closed. */
  lemma SleepsOnlyIfClosed(m: Memory, l: Thread, c: Choice, side: Side)
    requires GoesToSleep(side, Access(m, l, c).1) && !GoesToSleep(side, l)
    ensures Access(m, l, c).0.word == m.word && !SlowOpen(side, m.word)
  {
  }

  lemma StepWriterCurrent(s: System, t: nat, c: Choice)
    requires Safe(s) && Enabled(s, t, c) && WriterCurrent(s)
    ensures WriterCurrent(Step(s, t, c))
  {
    var l, s' := s.threads[t], Step(s, t, c);
    Facts(s, t, c, Write);
    forall u | u in s'.threads && GoesToSleep(Write, s'.threads[u])
               && Version(s'.threads[u].wexp) == Version(s'.mem.waitWrite)
      ensures Held(s'.mem.word) || Somewhere(s'.threads, BUMPS_WRITE)
    {
      if GoesToSleep(Write, s.threads[u]) {
        SleeperWas(s, t, c, u, Write);
        WatcherMoves(s, t, c);
      } else {
        SleepsOnlyIfClosed(s.mem, l, c, Write);
      }
    }
  }

  /** A thread that still goes to sleep on the current version did so before, and t did not bump. */
  lemma SleeperWas(s: System, t: nat, c: Choice, u: nat, side: Side)
    requires Safe(s) && Enabled(s, t, c) && u in s.threads
    requires GoesToSleep(side, s.threads[u]) && GoesToSleep(side, Step(s, t, c).threads[u])
    ensures var s' := Step(s, t, c);
            && s'.threads[u].wexp == s.threads[u].wexp
            && Version(s.threads[u].wexp) <= Version(s.mem.Wait(side))
            && Version(s'.mem.Wait(side)) == Version(s.mem.Wait(side)) + One(Bumps(side, s.threads[t]))
  {
    Facts(s, t, c, side);
    assert LocalOk(s.mem, s.threads[u]);
    if u != t {
      OtherKept(s, t, c, u);
    }
  }

  /** Somebody who holds the lock or is about to bump is followed by another such. */
  lemma WatcherMoves(s: System, t: nat, c: Choice)
    requires Safe(s) && Enabled(s, t, c) && !s.threads[t].BumpWrite?
    requires Held(s.mem.word) || Somewhere(s.threads, BUMPS_WRITE)
    ensures Held(Step(s, t, c).mem.word) || Somewhere(Step(s, t, c).threads, BUMPS_WRITE)
  {
    if Somewhere(s.threads, BUMPS_WRITE) {
      WitnessKept(s, t, c, BUMPS_WRITE);
    } else {
      Facts(s, t, c, Read);
      HeldUntilRelease(s.mem, s.threads[t], c);
      if !Held(Step(s, t, c).mem.word) {
        MoverIs(s, t, c, BUMPS_WRITE);
      }
    }
  }

  lemma ReaderWatcherMoves(s: System, t: nat, c: Choice)
    requires Safe(s) && Enabled(s, t, c) && !s.threads[t].BumpRead? && ReaderWatched(s)
    ensures ReaderWatched(Step(s, t, c))
  {
    if s.threads[t].BumpWrite? {
      BumpHandsOver(s, t, c);
    } else if Somewhere(s.threads, BUMPS_WRITE) {
      WitnessKept(s, t, c, BUMPS_WRITE);
    } else if Somewhere(s.threads, BUMPS_READ) {
      WitnessKept(s, t, c, BUMPS_READ);
    } else {
      Facts(s, t, c, Write);
      WriterUntilRelease(s.mem, s.threads[t], c);
      if SlowOpen(Read, Step(s, t, c).mem.word) {
        MoverIs(s, t, c, BUMPS_WRITE);
      }
    }
  }

  lemma StepReaderCurrent(s: System, t: nat, c: Choice)
    requires Safe(s) && Enabled(s, t, c) && ReaderCurrent(s)
    ensures ReaderCurrent(Step(s, t, c))
  {
    var l, s' := s.threads[t], Step(s, t, c);
    forall u | u in s'.threads && GoesToSleep(Read, s'.threads[u])
               && Version(s'.threads[u].wexp) == Version(s'.mem.waitRead)
      ensures ReaderWatched(s')
    {
      if GoesToSleep(Read, s.threads[u]) {
        SleeperWas(s, t, c, u, Read);
        ReaderWatcherMoves(s, t, c);
      } else {
        SleepsOnlyIfClosed(s.mem, l, c, Read);
      }
    }
  }

  /** A releaser that does not go on to the readers leaves them to a writer. */
  lemma BumpHandsOver(s: System, t: nat, c: Choice)
    requires Safe(s) && Enabled(s, t, c) && s.threads[t].BumpWrite?
    ensures var s' := Step(s, t, c);
            !SlowOpen(Read, s'.mem.word) || Somewhere(s'.threads, BUMPS_READ)
  {
    if Waiters(s.mem.waitWrite) == 0 {
      MoverIs(s, t, c, BUMPS_READ);
    } else {
      CountPositive(s.threads, RegisteredOn(Write));
      var u :| u in s.threads && RegisteredOn(Write)(s.threads[u]);
      CountPositive(s.threads, PreparingOn(Write));
      CountPositive(s.threads, ActiveOn(Write));
      assert PreparingOn(Write)(s.threads[u]) || ActiveOn(Write)(s.threads[u]);
    }
  }

  lemma StepReaderStale(s: System, t: nat, c: Choice)
    requires Safe(s) && Enabled(s, t, c) && ReaderStale(s)
    ensures ReaderStale(Step(s, t, c))
  {
    var l, s' := s.threads[t], Step(s, t, c);
    Facts(s, t, c, Read);
    forall u | u in s'.threads && Asleep(Read, s'.threads[u])
               && Version(s'.threads[u].wexp) < Version(s'.mem.waitRead)
      ensures Somewhere(s'.threads, NOTIFIES_ALL)
    {
      assert u != t || l.WaitCheck? || l.Blocked?;
      if u != t {
        OtherKept(s, t, c, u);
      }
      if l.BumpRead? {
        CountPositive(s.threads, RegisteredOn(Read));
        assert RegisteredOn(Read)(s.threads[u]);
        MoverIs(s, t, c, NOTIFIES_ALL);
      } else {
        assert !l.NotifyAll?;
        WitnessKept(s, t, c, NOTIFIES_ALL);
      }
    }
  }

  lemma StepWriterStale(s: System, t: nat, c: Choice)
    requires Safe(s) && Enabled(s, t, c) && WriterCurrent(s) && WriterStale(s)
    ensures WriterStale(Step(s, t, c))
  {
    var l, s' := s.threads[t], Step(s, t, c);
    Facts(s, t, c, Write);
    forall u | u in s'.threads && Asleep(Write, s'.threads[u])
               && Version(s'.threads[u].wexp) < Version(s'.mem.waitWrite)
      ensures || Held(s'.mem.word)
              || Somewhere(s'.threads, BUMPS_WRITE)
              || Somewhere(s'.threads, NOTIFIES_ONE)
              || Somewhere(s'.threads, Retests(Version(s'.mem.waitWrite)))
    {
      assert LocalOk(s.mem, s.threads[u]);
      if u != t {
        OtherKept(s, t, c, u);
      }
      if l.BumpWrite? {
        CountPositive(s.threads, RegisteredOn(Write));
        assert RegisteredOn(Write)(s.threads[u]);
        MoverIs(s, t, c, NOTIFIES_ONE);
      } else {
        assert u != t || l.Blocked?;
        StaleHandedOn(s, t, c, u);
      }
    }
  }

  /** A stale sleeping writer still has somebody to count on after any step that is not a bump. */
  lemma StaleHandedOn(s: System, t: nat, c: Choice, u: nat)
    requires Safe(s) && Enabled(s, t, c) && WriterCurrent(s) && WriterStale(s)
    requires !s.threads[t].BumpWrite?
    requires u in s.threads && Asleep(Write, s.threads[u])
    requires Version(s.threads[u].wexp) < Version(s.mem.waitWrite)
    ensures var s' := Step(s, t, c);
            || Held(s'.mem.word)
            || Somewhere(s'.threads, BUMPS_WRITE)
            || Somewhere(s'.threads, NOTIFIES_ONE)
            || Somewhere(s'.threads, Retests(Version(s'.mem.waitWrite)))
  {
    var l, s' := s.threads[t], Step(s, t, c);
    var version := Version(s.mem.waitWrite);
    Facts(s, t, c, Write);
    assert Version(s'.mem.waitWrite) == version;
    if Held(s.mem.word) || Somewhere(s.threads, BUMPS_WRITE) {
      WatcherMoves(s, t, c);
    } else if l.NotifyOne? {
      OneIsWoken(s, t, c, u);
    } else if Somewhere(s.threads, NOTIFIES_ONE) {
      WitnessKept(s, t, c, NOTIFIES_ONE);
    } else if WillRetest(version, l) {
      RetesterMoves(s, t, c);
    } else {
      WitnessKept(s, t, c, Retests(version));
    }
  }

  /** notify_one finds a stale sleeper, or a current one whose own watcher is still there. */
  lemma OneIsWoken(s: System, t: nat, c: Choice, u: nat)
    requires Safe(s) && Enabled(s, t, c) && WriterCurrent(s)
    requires s.threads[t].NotifyOne?
    requires u in s.threads && Asleep(Write, s.threads[u])
    ensures var s' := Step(s, t, c);
            || Held(s'.mem.word)
            || Somewhere(s'.threads, BUMPS_WRITE)
            || Somewhere(s'.threads, Retests(Version(s'.mem.waitWrite)))
  {
    var s', v := Step(s, t, c), c.sleeper;
    assert v in s.threads && Asleep(Write, s.threads[v]) && v != t;
    assert LocalOk(s.mem, s.threads[v]);
    if Version(s.threads[v].wexp) < Version(s.mem.waitWrite) {
      assert s'.threads[v] == Woken(s.threads[v]);
      assert WillRetest(Version(s'.mem.waitWrite), s'.threads[v]);
    } else if !Held(s.mem.word) {
      WitnessKept(s, t, c, BUMPS_WRITE);
    }
  }

  /** A writer that will test the lock again tests it, takes it, or sees it held. */
  lemma RetesterMoves(s: System, t: nat, c: Choice)
    requires Safe(s) && Enabled(s, t, c)
    requires WillRetest(Version(s.mem.waitWrite), s.threads[t])
    ensures var s' := Step(s, t, c);
            || Held(s'.mem.word)
            || Somewhere(s'.threads, Retests(Version(s'.mem.waitWrite)))
  {
    var l, s' := s.threads[t], Step(s, t, c);
    Facts(s, t, c, Write);
    if !Held(s'.mem.word) {
      MoverIs(s, t, c, Retests(Version(s'.mem.waitWrite)));
    }
  }

  lemma StepWatched(s: System, t: nat, c: Choice)
    requires Safe(s) && Watched(s) && Enabled(s, t, c)
    ensures Watched(Step(s, t, c))
  {
    StepWriterCurrent(s, t, c);
    StepWriterStale(s, t, c);
    StepReaderCurrent(s, t, c);
    StepReaderStale(s, t, c);
  }

  lemma InitWatched(s: System)
    requires Init(s)
    ensures Watched(s)
  {
  }
}
