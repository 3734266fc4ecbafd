/**
 * What every reachable state of the lock keeps: exclusion, exact accounting of
 * the counters, and that no thread sleeps through its wakeup.
 */
module RwLockSafety {
  import opened Counting
  import opened LockWords
  import opened RwLock

  // ---- The roles a thread plays ----

  predicate Active(side: Side, l: Thread) {
    match l
    case Deregister(d) => d == side
    case Hold(d) => d == side
    case Release(d, _) => d == side
    case _ => false
  }

  /** In the slow path of lock(), announced and not yet holding. */
  predicate Preparing(side: Side, l: Thread) {
    match l
    case Top(d, _) => d == side
    case Acquire(d, _, _) => d == side
    case Pass(d, _) => d == side
    case Recheck(d, _) => d == side
    case Unregister(d) => d == side
    case WaitCheck(d, _) => d == side
    case Blocked(d, _) => d == side
    case _ => false
  }

  /** Counted in the low half of the side's wait word. */
  predicate Registered(side: Side, l: Thread) {
    match l
    case Top(d, waiting) => d == side && waiting
    case Acquire(d, waiting, _) => d == side && waiting
    case Pass(d, waiting) => d == side && waiting
    case Recheck(d, _) => d == side
    case Unregister(d) => d == side
    case WaitCheck(d, _) => d == side
    case Blocked(d, _) => d == side
    case Deregister(d) => d == side
    case _ => false
  }

  /** Asleep, or about to be, on wexp. */
  predicate GoesToSleep(side: Side, l: Thread) {
    (l.WaitCheck? || l.Blocked?) && l.side == side
  }

  /** A writer of the slow path that will test the lock again before it sleeps. */
  predicate WillRetest(version: nat, l: Thread) {
    && Preparing(Write, l)
    && !l.Blocked?
    && (l.WaitCheck? ==> Version(l.wexp) < version)
  }

  function ActiveOn(side: Side): Thread -> bool { l => Active(side, l) }
  function PreparingOn(side: Side): Thread -> bool { l => Preparing(side, l) }
  function RegisteredOn(side: Side): Thread -> bool { l => Registered(side, l) }

  // ---- The invariant ----

  predicate Accounted(s: System, side: Side) {
    && s.mem.word.Acti(side) == Count(s.threads, ActiveOn(side))
    && s.mem.word.Prep(side) == Count(s.threads, PreparingOn(side))
    && Waiters(s.mem.Wait(side)) == Count(s.threads, RegisteredOn(side))
  }

  predicate Exclusive(w: Word) {
    w.actiWrite <= 1 && (w.actiWrite > 0 ==> w.actiRead == 0)
  }

  /** What a thread's local copies say. */
  predicate LocalOk(m: Memory, l: Thread) {
    match l
    case TryCas(side, _, exp) => TryOpen(side, exp)
    case Acquire(side, _, exp) => SlowOpen(side, exp)
    case Release(side, exp) => exp.Acti(side) > 0
    case Recheck(side, wexp) => Version(wexp) <= Version(m.Wait(side))
    case WaitCheck(side, wexp) => Version(wexp) <= Version(m.Wait(side))
    case Blocked(side, wexp) => Version(wexp) <= Version(m.Wait(side))
    case _ => true
  }

  predicate Safe(s: System) {
    && |s.threads| < 0x1_0000
    && Exclusive(s.mem.word)
    && Accounted(s, Read)
    && Accounted(s, Write)
    && forall t :: t in s.threads ==> LocalOk(s.mem, s.threads[t])
  }

  lemma InitSafe(s: System)
    requires Init(s)
    ensures Safe(s)
  {
    forall side: Side
      ensures Accounted(s, side)
    {
      assert Where(s.threads, ActiveOn(side)) == {};
      assert Where(s.threads, PreparingOn(side)) == {};
      assert Where(s.threads, RegisteredOn(side)) == {};
    }
  }

  // ---- The wait words ----

  lemma RegisterWord(w: u64)
    requires Waiters(w) < 0xFFFF
    ensures Waiters(FetchAdd(w, 1)) == Waiters(w) + 1
    ensures Version(FetchAdd(w, 1)) == Version(w)
  {
  }

  lemma UnregisterWord(w: u64)
    requires Waiters(w) > 0
    ensures Waiters(FetchSub(w, 1)) == Waiters(w) - 1
    ensures Version(FetchSub(w, 1)) == Version(w)
  {
  }

  lemma BumpWord(w: u64)
    requires Version(w) + 1 < 0x1_0000_0000_0000
    ensures Waiters(FetchAdd(w, VER_INC)) == Waiters(w)
    ensures Version(FetchAdd(w, VER_INC)) == Version(w) + 1
  {
  }

  /** The version of a side moves on the side's bump and on nothing else. */
  predicate Bumps(side: Side, l: Thread) {
    if side.Read? then l.BumpRead? else l.BumpWrite?
  }

  // ---- One access, for one thread ----

  /** The counters have room for l to be counted once more, and count l if it is there. */
  predicate RoomFor(m: Memory, l: Thread, side: Side) {
    && One(Active(side, l)) <= m.word.Acti(side) < 0xFFFF + One(Active(side, l))
    && One(Preparing(side, l)) <= m.word.Prep(side) < 0xFFFF + One(Preparing(side, l))
    && One(Registered(side, l)) <= Waiters(m.Wait(side)) < 0xFFFF + One(Registered(side, l))
    && (Bumps(side, l) ==> Version(m.Wait(side)) + 1 < 0x1_0000_0000_0000)
  }

  lemma AccessWord(m: Memory, l: Thread, c: Choice, side: Side)
    requires Exclusive(m.word) && LocalOk(m, l) && RoomFor(m, l, side)
    ensures var (m', l') := Access(m, l, c);
            && m'.word.Acti(side) + One(Active(side, l)) == m.word.Acti(side) + One(Active(side, l'))
            && m'.word.Prep(side) + One(Preparing(side, l)) == m.word.Prep(side) + One(Preparing(side, l'))
  {
  }

  lemma AccessWait(m: Memory, l: Thread, c: Choice, side: Side)
    requires LocalOk(m, l) && RoomFor(m, l, side)
    ensures var (m', l') := Access(m, l, c);
            && Waiters(m'.Wait(side)) + One(Registered(side, l)) == Waiters(m.Wait(side)) + One(Registered(side, l'))
            && Version(m'.Wait(side)) == Version(m.Wait(side)) + One(Bumps(side, l))
  {
    var w := m.Wait(side);
    if l.Pass? && c.yes && !l.waiting && l.side == side {
      RegisterWord(w);
    } else if (l.Unregister? || l.Deregister?) && l.side == side {
      UnregisterWord(w);
    } else if Bumps(side, l) {
      BumpWord(w);
    }
  }

  lemma AccessLocal(m: Memory, l: Thread, c: Choice)
    requires Exclusive(m.word) && LocalOk(m, l) && RoomFor(m, l, Read) && RoomFor(m, l, Write)
    ensures var (m', l') := Access(m, l, c);
            Exclusive(m'.word) && LocalOk(m', l')
  {
    AccessWait(m, l, c, Read);
    AccessWait(m, l, c, Write);
  }

  // ---- Accounting ----

  lemma SameSize(a: map<nat, Thread>, b: map<nat, Thread>)
    requires a.Keys == b.Keys
    ensures |a| == |b|
  {
    assert |a.Keys| == |a| && |b.Keys| == |b|;
  }

  lemma CountedOnce(th: map<nat, Thread>, t: nat, p: Thread -> bool)
    requires t in th && |th| < 0x1_0000
    ensures One(p(th[t])) <= Count(th, p) < 0xFFFF + One(p(th[t]))
  {
    var found := Where(th, p);
    var others := th.Keys - {t};
    assert |th.Keys| == |th|;
    SplitOff(th.Keys, t);
    SplitOff(found, t);
    SubsetSize(found - {t}, others);
  }

  lemma Room(s: System, t: nat, c: Choice, side: Side)
    requires Safe(s) && Enabled(s, t, c)
    ensures RoomFor(s.mem, s.threads[t], side)
  {
    CountedOnce(s.threads, t, ActiveOn(side));
    CountedOnce(s.threads, t, PreparingOn(side));
    CountedOnce(s.threads, t, RegisteredOn(side));
  }

  /** A notification moves sleepers only, and to a point with the same roles. */
  lemma NotifyRoles(l: Thread, th: map<nat, Thread>, c: Choice)
    ensures Notify(l, th, c).Keys == th.Keys
    ensures forall u :: u in th ==> Notify(l, th, c)[u] == th[u] || Notify(l, th, c)[u] == Woken(th[u])
  {
  }

  lemma NotifyCount(l: Thread, th: map<nat, Thread>, c: Choice, p: Thread -> bool)
    requires forall x :: p(Woken(x)) == p(x)
    ensures Count(Notify(l, th, c), p) == Count(th, p)
  {
    NotifyRoles(l, th, c);
    CountSame(Notify(l, th, c), th, p);
  }

  /** Waking changes no role. */
  lemma WokenRoles(side: Side)
    ensures forall x :: Active(side, Woken(x)) == Active(side, x)
    ensures forall x :: Preparing(side, Woken(x)) == Preparing(side, x)
    ensures forall x :: Registered(side, Woken(x)) == Registered(side, x)
  {
  }

  lemma NotifyCounts(l: Thread, th: map<nat, Thread>, c: Choice, side: Side)
    ensures Count(Notify(l, th, c), ActiveOn(side)) == Count(th, ActiveOn(side))
    ensures Count(Notify(l, th, c), PreparingOn(side)) == Count(th, PreparingOn(side))
    ensures Count(Notify(l, th, c), RegisteredOn(side)) == Count(th, RegisteredOn(side))
  {
    WokenRoles(side);
    NotifyCount(l, th, c, ActiveOn(side));
    NotifyCount(l, th, c, PreparingOn(side));
    NotifyCount(l, th, c, RegisteredOn(side));
  }

  lemma StepAccounted(s: System, t: nat, c: Choice, side: Side)
    requires Safe(s) && Enabled(s, t, c)
    ensures Accounted(Step(s, t, c), side)
  {
    var l := s.threads[t];
    var (m', l') := Access(s.mem, l, c);
    Room(s, t, c, side);
    AccessWord(s.mem, l, c, side);
    AccessWait(s.mem, l, c, side);
    CountUpdate(s.threads, t, l', ActiveOn(side));
    CountUpdate(s.threads, t, l', PreparingOn(side));
    CountUpdate(s.threads, t, l', RegisteredOn(side));
    NotifyCounts(l, s.threads[t := l'], c, side);
  }

  lemma StepLocals(s: System, t: nat, c: Choice)
    requires Safe(s) && Enabled(s, t, c)
    ensures var s' := Step(s, t, c);
      Exclusive(s'.mem.word) && forall u :: u in s'.threads ==> LocalOk(s'.mem, s'.threads[u])
  {
    var l, s' := s.threads[t], Step(s, t, c);
    var (m', l') := Access(s.mem, l, c);
    Room(s, t, c, Read);
    Room(s, t, c, Write);
    AccessWait(s.mem, l, c, Read);
    AccessWait(s.mem, l, c, Write);
    AccessLocal(s.mem, l, c);
    NotifyRoles(l, s.threads[t := l'], c);
    forall u | u in s'.threads
      ensures LocalOk(s'.mem, s'.threads[u])
    {
      assert LocalOk(s'.mem, s.threads[t := l'][u]);
    }
  }

  /** Every atomic access keeps exclusion and the exact counts. */
  lemma StepSafe(s: System, t: nat, c: Choice)
    requires Safe(s) && Enabled(s, t, c)
    ensures Safe(Step(s, t, c))
  {
    StepAccounted(s, t, c, Read);
    StepAccounted(s, t, c, Write);
    StepLocals(s, t, c);
    SameThreads(s, t, c);
  }

  lemma SameThreads(s: System, t: nat, c: Choice)
    requires Enabled(s, t, c)
    ensures |Step(s, t, c).threads| == |s.threads|
  {
    var (_, l') := Access(s.mem, s.threads[t], c);
    NotifyRoles(s.threads[t], s.threads[t := l'], c);
    SameSize(s.threads, Step(s, t, c).threads);
  }
}
