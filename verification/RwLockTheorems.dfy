/** What every run of the lock keeps, for any number of threads and any interleaving. */
module RwLockTheorems {
  import opened Counting
  import opened LockWords
  import opened RwLock
  import opened RwLockSafety
  import opened RwLockWakeup

  lemma {:induction false} RunKeeps(run: seq<System>, i: nat)
    requires Run(run) && Init(run[0]) && i < |run|
    ensures Safe(run[i]) && Watched(run[i])
  {
    if i == 0 {
      InitSafe(run[0]);
      InitWatched(run[0]);
    } else {
      RunKeeps(run, i - 1);
      assert StepAt(run, i - 1);
      var t, c :| Enabled(run[i - 1], t, c) && run[i] == Step(run[i - 1], t, c);
      StepSafe(run[i - 1], t, c);
      StepWatched(run[i - 1], t, c);
    }
  }

  /** A writer that holds the lock is the only thread that does. */
  lemma MutualExclusion(run: seq<System>, i: nat, t: nat, u: nat, side: Side)
    requires Run(run) && Init(run[0]) && i < |run|
    requires t in run[i].threads && Active(Write, run[i].threads[t])
    requires u in run[i].threads && Active(side, run[i].threads[u])
    ensures t == u
  {
    var s := run[i];
    RunKeeps(run, i);
    CountPositive(s.threads, ActiveOn(Write));
    assert ActiveOn(Write)(s.threads[t]);
    CountPositive(s.threads, ActiveOn(side));
    assert ActiveOn(side)(s.threads[u]);
    CountUnique(s.threads, ActiveOn(Write), t, if side.Write? then u else t);
  }

  /** In every reachable state the four counters and both waiter counts are exact. */
  lemma ExactAccounting(run: seq<System>, i: nat, side: Side)
    requires Run(run) && Init(run[0]) && i < |run|
    ensures var s := run[i];
            && s.mem.word.Acti(side) == Count(s.threads, ActiveOn(side))
            && s.mem.word.Prep(side) == Count(s.threads, PreparingOn(side))
            && Waiters(s.mem.Wait(side)) == Count(s.threads, RegisteredOn(side))
  {
    RunKeeps(run, i);
  }

  /** Awake, and on the way to a release or a notification. */
  predicate Busy(l: Thread) {
    || Active(Read, l)
    || Active(Write, l)
    || (Preparing(Read, l) && !l.Blocked?)
    || (Preparing(Write, l) && !l.Blocked?)
    || l.BumpWrite? || l.NotifyOne? || l.BumpRead? || l.NotifyAll?
  }

  /** A positive active or preparing counter is some thread's. */
  lemma Counted(s: System, side: Side) returns (t: nat)
    requires Safe(s) && (s.mem.word.Acti(side) > 0 || s.mem.word.Prep(side) > 0)
    ensures t in s.threads
    ensures if s.mem.word.Acti(side) > 0 then Active(side, s.threads[t]) else Preparing(side, s.threads[t])
  {
    CountPositive(s.threads, ActiveOn(side));
    CountPositive(s.threads, PreparingOn(side));
    if s.mem.word.Acti(side) > 0 {
      t :| t in s.threads && ActiveOn(side)(s.threads[t]);
    } else {
      t :| t in s.threads && PreparingOn(side)(s.threads[t]);
    }
  }

  /** What the invariant says of a sleeping writer, whatever version it sleeps on. */
  lemma WriterCovered(s: System, u: nat)
    requires Safe(s) && Watched(s)
    requires u in s.threads && Asleep(Write, s.threads[u])
    ensures || Held(s.mem.word)
            || Somewhere(s.threads, BUMPS_WRITE)
            || Somewhere(s.threads, NOTIFIES_ONE)
            || Somewhere(s.threads, Retests(Version(s.mem.waitWrite)))
  {
    assert LocalOk(s.mem, s.threads[u]);
  }

  lemma ReaderCovered(s: System, u: nat)
    requires Safe(s) && Watched(s)
    requires u in s.threads && Asleep(Read, s.threads[u])
    ensures || !SlowOpen(Read, s.mem.word)
            || Somewhere(s.threads, BUMPS_WRITE)
            || Somewhere(s.threads, BUMPS_READ)
            || Somewhere(s.threads, NOTIFIES_ALL)
  {
    assert LocalOk(s.mem, s.threads[u]);
  }

  /**
   * In every reachable state, a writer asleep on a lock nobody holds is about
   * to be woken, or another writer is awake to take the lock.
   */
  lemma SleepingWriterWatched(run: seq<System>, i: nat, u: nat)
    requires Run(run) && Init(run[0]) && i < |run|
    requires u in run[i].threads && Asleep(Write, run[i].threads[u])
    ensures var s := run[i];
            || Held(s.mem.word)
            || Somewhere(s.threads, BUMPS_WRITE)
            || Somewhere(s.threads, NOTIFIES_ONE)
            || Somewhere(s.threads, Retests(Version(s.mem.waitWrite)))
  {
    RunKeeps(run, i);
    WriterCovered(run[i], u);
  }

  /** In every reachable state, a reader asleep on a lock that is open to it is about to be woken. */
  lemma SleepingReaderWatched(run: seq<System>, i: nat, u: nat)
    requires Run(run) && Init(run[0]) && i < |run|
    requires u in run[i].threads && Asleep(Read, run[i].threads[u])
    ensures var s := run[i];
            || !SlowOpen(Read, s.mem.word)
            || Somewhere(s.threads, BUMPS_WRITE)
            || Somewhere(s.threads, BUMPS_READ)
            || Somewhere(s.threads, NOTIFIES_ALL)
  {
    RunKeeps(run, i);
    ReaderCovered(run[i], u);
  }

  lemma WriterWatcher(s: System, u: nat) returns (v: nat)
    requires Safe(s) && Watched(s)
    requires u in s.threads && Asleep(Write, s.threads[u])
    ensures v in s.threads && Busy(s.threads[v])
  {
    WriterCovered(s, u);
    if s.mem.word.actiRead > 0 {
      v := Counted(s, Read);
    } else if s.mem.word.actiWrite > 0 {
      v := Counted(s, Write);
    } else {
      v :| v in s.threads && !s.threads[v].Blocked?
           && (BUMPS_WRITE(s.threads[v]) || NOTIFIES_ONE(s.threads[v])
               || Retests(Version(s.mem.waitWrite))(s.threads[v]));
      assert Retests(Version(s.mem.waitWrite))(s.threads[v]) ==> Preparing(Write, s.threads[v]);
    }
  }

  /**
   * No lost wakeup: in every reachable state in which a thread sleeps, some
   * other thread is awake and holds the lock, is in the slow path of lock(), or
   * is inside unlock() with its bump or notification to come.
   */
  lemma NoLostWakeup(run: seq<System>, i: nat, u: nat)
    requires Run(run) && Init(run[0]) && i < |run|
    requires u in run[i].threads && run[i].threads[u].Blocked?
    ensures exists v :: v in run[i].threads && v != u && Busy(run[i].threads[v])
  {
    var s, v := run[i], u;
    RunKeeps(run, i);
    if Asleep(Write, s.threads[u]) {
      v := WriterWatcher(s, u);
    } else {
      ReaderCovered(s, u);
      if SlowOpen(Read, s.mem.word) {
        v :| v in s.threads && !s.threads[v].Blocked?
             && (BUMPS_WRITE(s.threads[v]) || BUMPS_READ(s.threads[v]) || NOTIFIES_ALL(s.threads[v]));
      } else {
        v := Counted(s, Write);
        if s.threads[v].Blocked? {
          v := WriterWatcher(s, v);
        }
      }
    }
    assert Busy(s.threads[v]);
  }

  /** The access of a thread that is inside an operation and awake can be made, and moves it. */
  lemma AwakeCanMove(s: System, v: nat)
    requires v in s.threads && !s.threads[v].Idle? && !s.threads[v].Blocked?
    requires Version(s.mem.waitRead) + 1 < 0x1_0000_0000_0000
    requires Version(s.mem.waitWrite) + 1 < 0x1_0000_0000_0000
    ensures exists c :: Enabled(s, v, c) && Step(s, v, c).threads != s.threads
  {
    var w := if w :| w in s.threads && Asleep(Write, s.threads[w]) then w else v;
    var c := Choice(Read, true, w);
    assert Enabled(s, v, c);
    assert Access(s.mem, s.threads[v], c).1 != s.threads[v];
    assert Step(s, v, c).threads[v] == Access(s.mem, s.threads[v], c).1;
  }

  /**
   * While any thread is inside an operation, asleep or not, some awake thread
   * is inside one and can make its next access.
   */
  lemma NeverStuck(run: seq<System>, i: nat, u: nat)
    requires Run(run) && Init(run[0]) && i < |run|
    requires u in run[i].threads && !run[i].threads[u].Idle?
    requires Version(run[i].mem.waitRead) + 1 < 0x1_0000_0000_0000
    requires Version(run[i].mem.waitWrite) + 1 < 0x1_0000_0000_0000
    ensures exists v, c :: Enabled(run[i], v, c) && !run[i].threads[v].Blocked? && !run[i].threads[v].Idle?
                           && Step(run[i], v, c).threads != run[i].threads
  {
    var s, v := run[i], u;
    if s.threads[u].Blocked? {
      NoLostWakeup(run, i, u);
      v :| v in s.threads && v != u && Busy(s.threads[v]);
    }
    AwakeCanMove(s, v);
    var c :| Enabled(s, v, c) && Step(s, v, c).threads != s.threads;
  }

  // ---- No deadlock ----

  /** Past its release, with bumps or notifications to make. */
  predicate Unlocking(l: Thread) {
    l.BumpWrite? || l.NotifyOne? || l.BumpRead? || l.NotifyAll?
  }

  /** In the slow path, awake and not about to sleep, and its own test of the lock would pass. */
  predicate Ready(m: Memory, side: Side, l: Thread) {
    && Preparing(side, l) && SlowOpen(side, m.word) && !l.Blocked?
    && (l.WaitCheck? ==> l.wexp != m.Wait(side))
  }

  /** Nobody has the lock or is on the way out. */
  predicate Deserted(s: System) {
    forall t :: t in s.threads ==>
      !Active(Read, s.threads[t]) && !Active(Write, s.threads[t]) && !Unlocking(s.threads[t])
  }

  lemma DesertedIsFree(s: System)
    requires Safe(s) && Deserted(s)
    ensures !Held(s.mem.word)
    ensures !Somewhere(s.threads, BUMPS_WRITE) && !Somewhere(s.threads, BUMPS_READ)
    ensures !Somewhere(s.threads, NOTIFIES_ONE) && !Somewhere(s.threads, NOTIFIES_ALL)
  {
    CountPositive(s.threads, ActiveOn(Read));
    CountPositive(s.threads, ActiveOn(Write));
    assert forall t :: t in s.threads ==> !Unlocking(s.threads[t]);
  }

  /** A writer of the slow path on a deserted lock: it is ready, or another one is. */
  lemma WriterReady(s: System, u: nat) returns (v: nat)
    requires Safe(s) && Watched(s) && Deserted(s) && u in s.threads && Preparing(Write, s.threads[u])
    ensures v in s.threads && Ready(s.mem, Write, s.threads[v])
  {
    DesertedIsFree(s);
    v := u;
    assert LocalOk(s.mem, s.threads[u]);
    if s.threads[u].Blocked? {
      WriterCovered(s, u);
      v :| v in s.threads && !s.threads[v].Blocked? && Retests(Version(s.mem.waitWrite))(s.threads[v]);
    }
  }

  /** A reader of the slow path on a deserted lock that no writer wants is ready. */
  lemma ReaderReady(s: System, u: nat)
    requires Safe(s) && Watched(s) && Deserted(s) && u in s.threads && Preparing(Read, s.threads[u])
    requires s.mem.word.prepWrite == 0
    ensures Ready(s.mem, Read, s.threads[u])
  {
    DesertedIsFree(s);
    assert LocalOk(s.mem, s.threads[u]);
    if s.threads[u].Blocked? {
      ReaderCovered(s, u);
    }
  }

  /**
   * No deadlock: whenever a thread waits in the slow path and nobody holds the
   * lock or is giving it back, some thread of the slow path is awake, will not
   * sleep before it has tested the lock again, and would find it open.
   */
  lemma NoDeadlock(run: seq<System>, i: nat, u: nat, side: Side)
    requires Run(run) && Init(run[0]) && i < |run| && Deserted(run[i])
    requires u in run[i].threads && Preparing(side, run[i].threads[u])
    ensures exists v, d :: v in run[i].threads && Ready(run[i].mem, d, run[i].threads[v])
  {
    var s := run[i];
    RunKeeps(run, i);
    CountPositive(s.threads, PreparingOn(Write));
    if s.mem.word.prepWrite > 0 {
      var w :| w in s.threads && PreparingOn(Write)(s.threads[w]);
      var v := WriterReady(s, w);
    } else {
      assert side.Read? by {
        assert PreparingOn(Write)(s.threads[u]) == Preparing(Write, s.threads[u]);
      }
      ReaderReady(s, u);
    }
  }

  /** The state after k accesses of one thread that neither backs off into a wait nor is disturbed. */
  function Undisturbed(s: System, v: nat, k: nat): System
    requires v in s.threads
    decreases k
  {
    if k == 0 then s else Undisturbed(Step(s, v, Choice(Read, false, v)), v, k - 1)
  }

  /** How many accesses a ready thread is from taking the lock. */
  function Distance(m: Memory, l: Thread): nat {
    match l
    case Acquire(_, _, exp) => if exp == m.word then 1 else 3
    case Top(_, _) => 2
    case Recheck(_, _) => 4
    case _ => 3
  }

  lemma ReadyNears(m: Memory, side: Side, l: Thread, c: Choice)
    requires Ready(m, side, l) && !c.yes
    ensures var (m', l') := Access(m, l, c);
      Active(side, l') || (Ready(m', side, l') && Distance(m', l') < Distance(m, l))
  {
  }

  /** A ready thread that is left alone takes the lock with at most four accesses. */
  lemma {:induction false} ReadyTakes(s: System, v: nat, side: Side) returns (k: nat)
    requires v in s.threads && Ready(s.mem, side, s.threads[v])
    ensures k <= Distance(s.mem, s.threads[v]) <= 4
    ensures v in Undisturbed(s, v, k).threads && Active(side, Undisturbed(s, v, k).threads[v])
    decreases Distance(s.mem, s.threads[v])
  {
    var c := Choice(Read, false, v);
    var s' := Step(s, v, c);
    ReadyNears(s.mem, side, s.threads[v], c);
    assert s'.threads[v] == Access(s.mem, s.threads[v], c).1;
    k := 1;
    if Active(side, s'.threads[v]) {
      assert Undisturbed(s', v, 0) == s';
    } else {
      k := ReadyTakes(s', v, side);
      k := k + 1;
    }
  }

  // ---- Writer preference ----

  lemma AccessUnderWriter(m: Memory, l: Thread, c: Choice)
    requires LocalOk(m, l) && m.word.prepWrite > 0
    requires Active(Read, Access(m, l, c).1)
    ensures Active(Read, l)
  {
  }

  /** While a writer is announced, no step lets a reader in. */
  lemma StepUnderWriter(s: System, t: nat, c: Choice, u: nat)
    requires Safe(s) && Enabled(s, t, c) && s.mem.word.prepWrite > 0
    requires u in s.threads && Active(Read, Step(s, t, c).threads[u])
    ensures Active(Read, s.threads[u])
  {
    NotifyRoles(s.threads[t], s.threads[t := Access(s.mem, s.threads[t], c).1], c);
    if u == t {
      AccessUnderWriter(s.mem, s.threads[t], c);
    }
  }

  lemma StepKeys(s: System, t: nat, c: Choice)
    requires Enabled(s, t, c)
    ensures Step(s, t, c).threads.Keys == s.threads.Keys
  {
    NotifyRoles(s.threads[t], s.threads[t := Access(s.mem, s.threads[t], c).1], c);
  }

  lemma NextUnderWriter(s: System, s': System)
    requires Safe(s) && Next(s, s') && s.mem.word.prepWrite > 0
    ensures s'.threads.Keys == s.threads.Keys
    ensures Where(s'.threads, ActiveOn(Read)) <= Where(s.threads, ActiveOn(Read))
  {
    var t, c :| Enabled(s, t, c) && s' == Step(s, t, c);
    StepKeys(s, t, c);
    forall u | u in Where(s'.threads, ActiveOn(Read))
      ensures u in Where(s.threads, ActiveOn(Read))
    {
      StepUnderWriter(s, t, c, u);
    }
  }

  /** No thread comes or goes, and the readers inside only get fewer. */
  ghost predicate Shrinks(s: System, s': System) {
    s'.threads.Keys == s.threads.Keys && Where(s'.threads, ActiveOn(Read)) <= Where(s.threads, ActiveOn(Read))
  }

  lemma ShrinksOnce(run: seq<System>, k: nat)
    requires Run(run) && Init(run[0]) && k + 1 < |run| && run[k].mem.word.prepWrite > 0
    ensures Shrinks(run[k], run[k + 1])
  {
    RunKeeps(run, k);
    assert StepAt(run, k);
    NextUnderWriter(run[k], run[k + 1]);
  }

  lemma ShrinksTransitive(a: System, b: System, c: System)
    requires Shrinks(a, b) && Shrinks(b, c)
    ensures Shrinks(a, c)
  {
  }

  lemma {:induction false} ReadersShrink(run: seq<System>, i: nat, j: nat)
    requires Run(run) && Init(run[0]) && i <= j < |run|
    requires forall k :: i <= k < j ==> run[k].mem.word.prepWrite > 0
    ensures Shrinks(run[i], run[j])
  {
    if i < j {
      ReadersShrink(run, i, j - 1);
      ShrinksOnce(run, j - 1);
      ShrinksTransitive(run[i], run[j - 1], run[j]);
    }
  }

  /**
   * Writer preference: over any stretch of a run in which some writer stays
   * announced, the readers inside at the end were inside at the beginning, so
   * the active reader count never rises and only they can delay the writer.
   */
  lemma WriterPreference(run: seq<System>, i: nat, j: nat)
    requires Run(run) && Init(run[0]) && i <= j < |run|
    requires forall k :: i <= k < j ==> run[k].mem.word.prepWrite > 0
    ensures run[j].mem.word.actiRead <= run[i].mem.word.actiRead
    ensures forall u :: u in run[j].threads && Active(Read, run[j].threads[u])
              ==> u in run[i].threads && Active(Read, run[i].threads[u])
  {
    ReadersShrink(run, i, j);
    RunKeeps(run, i);
    RunKeeps(run, j);
    SubsetSize(Where(run[j].threads, ActiveOn(Read)), Where(run[i].threads, ActiveOn(Read)));
    forall u | u in run[j].threads && Active(Read, run[j].threads[u])
      ensures u in run[i].threads && Active(Read, run[i].threads[u])
    {
      assert u in Where(run[j].threads, ActiveOn(Read));
    }
  }
}
