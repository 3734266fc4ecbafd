/**
 * What the lock answers: when an attempt succeeds, in terms of the threads and
 * not of the word they share, and what a call has come to when it returns.
 */
module RwLockAnswers {
  import opened Counting
  import opened LockWords
  import opened RwLock
  import opened RwLockSafety
  import opened RwLockTheorems

  predicate NoneActive(s: System, side: Side) {
    forall u :: u in s.threads ==> !Active(side, s.threads[u])
  }

  predicate NonePreparing(s: System, side: Side) {
    forall u :: u in s.threads ==> !Preparing(side, s.threads[u])
  }

  /** A counter is zero exactly when no thread has its role. */
  lemma ZeroMeansNone(s: System, side: Side)
    requires Safe(s)
    ensures s.mem.word.Acti(side) == 0 <==> NoneActive(s, side)
    ensures s.mem.word.Prep(side) == 0 <==> NonePreparing(s, side)
  {
    CountPositive(s.threads, ActiveOn(side));
    CountPositive(s.threads, PreparingOn(side));
    assert forall u :: u in s.threads ==> ActiveOn(side)(s.threads[u]) == Active(side, s.threads[u]);
    assert forall u :: u in s.threads ==> PreparingOn(side)(s.threads[u]) == Preparing(side, s.threads[u]);
  }

  /** Nobody keeps the quick attempt of this side out. */
  predicate TryFree(s: System, side: Side) {
    && NoneActive(s, Write) && NonePreparing(s, Write)
    && (side.Write? ==> NoneActive(s, Read) && NonePreparing(s, Read))
  }

  /** Nobody keeps a waiter of this side out: for a reader a writer that prepares does, for a writer not. */
  predicate SlowFree(s: System, side: Side) {
    NoneActive(s, Write) && if side.Read? then NonePreparing(s, Write) else NoneActive(s, Read)
  }

  lemma OpenMeansFree(run: seq<System>, i: nat, side: Side)
    requires Run(run) && Init(run[0]) && i < |run|
    ensures TryOpen(side, run[i].mem.word) <==> TryFree(run[i], side)
    ensures SlowOpen(side, run[i].mem.word) <==> SlowFree(run[i], side)
  {
    RunKeeps(run, i);
    ZeroMeansNone(run[i], Read);
    ZeroMeansNone(run[i], Write);
  }

  // ---- When an attempt succeeds ----

  lemma TryTwoAccesses(m: Memory, l: Thread, c: Choice, c': Choice)
    requires l.TryLoad?
    ensures var (m', l') := Access(m, l, c);
      m' == m && (Access(m, l', c').1 == Hold(l.side) <==> TryOpen(l.side, m.word))
  {
  }

  lemma SlowTwoAccesses(m: Memory, l: Thread, c: Choice, c': Choice)
    requires l.Top?
    ensures var (m', l') := Access(m, l, c);
      m' == m && (Active(l.side, Access(m, l', c').1) <==> SlowOpen(l.side, m.word))
  {
  }

  /** Two accesses of a thread that tests the lock, one after the other. */
  lemma TestsAlone(s: System, t: nat, c: Choice, c': Choice)
    requires t in s.threads && (s.threads[t].TryLoad? || s.threads[t].Top?)
    ensures var s' := Step(s, t, c);
      var l' := Access(s.mem, s.threads[t], c).1;
      && s'.mem == s.mem && t in s'.threads && s'.threads[t] == l'
      && Step(s', t, c').threads[t] == Access(s.mem, l', c').1
  {
  }

  /**
   * The quick attempt, undisturbed, takes the lock exactly when no writer holds
   * it or prepares to, and for a writer no reader either.
   */
  lemma TryTakesIff(run: seq<System>, i: nat, t: nat, side: Side, c: Choice, c': Choice)
    requires Run(run) && Init(run[0]) && i < |run|
    requires t in run[i].threads && run[i].threads[t].TryLoad? && run[i].threads[t].side == side
    ensures var s' := Step(run[i], t, c);
      && s'.mem == run[i].mem && t in s'.threads
      && (Step(s', t, c').threads[t] == Hold(side) <==> TryFree(run[i], side))
  {
    OpenMeansFree(run, i, side);
    TryTwoAccesses(run[i].mem, run[i].threads[t], c, c');
    TestsAlone(run[i], t, c, c');
  }

  /**
   * The attempt of the slow path, undisturbed, takes the lock exactly when
   * nobody is in the way: for a reader a writer that holds or prepares, for a
   * writer anybody who holds.
   */
  lemma SlowTakesIff(run: seq<System>, i: nat, t: nat, side: Side, c: Choice, c': Choice)
    requires Run(run) && Init(run[0]) && i < |run|
    requires t in run[i].threads && run[i].threads[t].Top? && run[i].threads[t].side == side
    ensures var s' := Step(run[i], t, c);
      && s'.mem == run[i].mem && t in s'.threads
      && (Active(side, Step(s', t, c').threads[t]) <==> SlowFree(run[i], side))
  {
    OpenMeansFree(run, i, side);
    SlowTwoAccesses(run[i].mem, run[i].threads[t], c, c');
    TestsAlone(run[i], t, c, c');
  }

  /**
   * With somebody in the way, a waiter that is left alone and has waited enough
   * registers once and sleeps, and stays asleep until it is woken.
   */
  lemma SleepsWhenClosed(run: seq<System>, i: nat, t: nat, side: Side, waiting: bool) returns (s': System)
    requires Run(run) && Init(run[0]) && i < |run| && !SlowFree(run[i], side)
    requires t in run[i].threads && run[i].threads[t] == Top(side, waiting)
    ensures var s := run[i];
      var w := if waiting then s.mem.Wait(side) else FetchAdd(s.mem.Wait(side), 1);
      && s' == System(s.mem.SetWait(side, w), s.threads[t := Blocked(side, w)])
      && forall c: Choice, m :: !c.yes ==> Access(m, Blocked(side, w), c) == (m, Blocked(side, w))
  {
    OpenMeansFree(run, i, side);
    s' := FallsAsleep(run[i], t, side, waiting);
  }

  lemma FallsAsleep(s: System, t: nat, side: Side, waiting: bool) returns (s': System)
    requires t in s.threads && s.threads[t] == Top(side, waiting) && !SlowOpen(side, s.mem.word)
    ensures var w := if waiting then s.mem.Wait(side) else FetchAdd(s.mem.Wait(side), 1);
      s' == System(s.mem.SetWait(side, w), s.threads[t := Blocked(side, w)])
  {
    var c := Choice(side, true, t);
    s' := Step(s, t, c);
    s' := Step(s', t, c);
    s' := Step(s', t, c);
    s' := Step(s', t, c);
  }

  // ---- What a call has come to ----

  /** In lock(), up to the moment the lock is held. */
  predicate Locking(side: Side, l: Thread) {
    || Preparing(side, l)
    || ((l.TryLoad? || l.TryCas?) && l.stay && l.side == side)
    || ((l.SlowLoad? || l.Announce?) && l.side == side)
  }

  lemma AccessLocking(m: Memory, l: Thread, c: Choice, side: Side)
    requires Locking(side, l)
    ensures var l' := Access(m, l, c).1; Locking(side, l') || Active(side, l')
  {
  }

  lemma StepLocking(s: System, u: nat, c: Choice, t: nat, side: Side)
    requires Enabled(s, u, c) && t in s.threads && Locking(side, s.threads[t])
    ensures t in Step(s, u, c).threads
    ensures var l' := Step(s, u, c).threads[t]; Locking(side, l') || Active(side, l')
  {
    AccessLocking(s.mem, s.threads[t], c, side);
    NotifyRoles(s.threads[u], s.threads[u := Access(s.mem, s.threads[u], c).1], c);
  }

  /** lock() never gives up: the only way out of it is to hold the lock. */
  lemma {:induction false} LockEndsHolding(run: seq<System>, i: nat, j: nat, t: nat, side: Side)
    requires Run(run) && i <= j < |run| && t in run[i].threads && Locking(side, run[i].threads[t])
    requires forall k :: i < k <= j && t in run[k].threads ==> !Active(side, run[k].threads[t])
    ensures t in run[j].threads && Locking(side, run[j].threads[t])
  {
    if i < j {
      LockEndsHolding(run, i, j - 1, t, side);
      assert StepAt(run, j - 1);
      var u, c :| Enabled(run[j - 1], u, c) && run[j] == Step(run[j - 1], u, c);
      StepLocking(run[j - 1], u, c, t, side);
    }
  }

  /** In try_lock(). */
  predicate Trying(side: Side, l: Thread) {
    (l.TryLoad? || l.TryCas?) && !l.stay && l.side == side
  }

  /** A call begins with the quick attempt for its side, and lock() stays. */
  lemma CallStarts(s: System, t: nat, c: Choice)
    requires t in s.threads && s.threads[t].Idle?
    ensures var l' := Step(s, t, c).threads[t];
      Step(s, t, c).mem == s.mem && if c.yes then Locking(c.side, l') else Trying(c.side, l')
  {
  }

  /**
   * try_lock() never waits, whatever the others do: each access, and there are
   * at most two, takes the lock or changes nothing, and the call is over with
   * the second.
   */
  lemma TryIsQuick(m: Memory, l: Thread, c: Choice, side: Side)
    requires Trying(side, l)
    ensures var (m', l') := Access(m, l, c);
      || l' == Hold(side)
      || (m' == m && (l'.Idle? || (l.TryLoad? && l'.TryCas? && Trying(side, l'))))
  {
  }

  // ---- unlock() left alone ----

  /** Holding, or inside unlock(). */
  predicate Releasing(l: Thread) {
    l.Hold? || l.Release? || Unlocking(l)
  }

  /** How many accesses unlock() is from its end. */
  function ToGo(m: Memory, l: Thread): nat {
    match l
    case Release(_, exp) => if exp == m.word then 4 else 5
    case BumpWrite => 3
    case BumpRead => 2
    case NotifyOne => 1
    case NotifyAll => 1
    case _ => 5
  }

  lemma UnlockNears(m: Memory, l: Thread, c: Choice)
    requires Releasing(l)
    ensures var (m', l') := Access(m, l, c); l'.Idle? || (Releasing(l') && ToGo(m', l') < ToGo(m, l))
  {
  }

  ghost predicate MovedBy(run: seq<System>, k: nat, t: nat)
    requires k + 1 < |run|
  {
    exists c :: Enabled(run[k], t, c) && run[k + 1] == Step(run[k], t, c)
  }

  /** A call of unlock() that is left alone has returned after at most five accesses. */
  lemma {:induction false} UnlockReturns(run: seq<System>, i: nat, n: nat, t: nat) returns (j: nat)
    requires i + n < |run| && t in run[i].threads && Releasing(run[i].threads[t])
    requires ToGo(run[i].mem, run[i].threads[t]) <= n
    requires forall k :: i <= k < i + n ==> MovedBy(run, k, t)
    ensures i < j <= i + n && t in run[j].threads && run[j].threads[t].Idle?
    decreases n
  {
    assert MovedBy(run, i, t);
    var c :| Enabled(run[i], t, c) && run[i + 1] == Step(run[i], t, c);
    UnlockNears(run[i].mem, run[i].threads[t], c);
    NotifyRoles(run[i].threads[t], run[i].threads[t := Access(run[i].mem, run[i].threads[t], c).1], c);
    j := i + 1;
    if !run[j].threads[t].Idle? {
      j := UnlockReturns(run, i + 1, n - 1, t);
    }
  }
}
