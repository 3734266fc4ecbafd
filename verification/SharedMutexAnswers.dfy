/**
 * What shared_mutex answers: when an attempt succeeds, that the pending bit
 * keeps new readers out for as long as it stands, and what a call has come to
 * when it returns.
 */
module SharedMutexAnswers {
  import opened Counting
  import opened LockWords
  import opened SharedMutex
  import opened SharedMutexSafety

  predicate NoneHolds(s: System, side: Side) {
    forall u :: u in s.threads ==> !Holds(side, s.threads[u])
  }

  /** The lock word tells who holds. */
  lemma WordMeans(run: seq<System>, i: nat)
    requires Run(run) && Init(run[0]) && i < |run|
    ensures run[i].mem.state.write <==> !NoneHolds(run[i], Write)
    ensures run[i].mem.state.readers > 0 <==> !NoneHolds(run[i], Read)
    ensures run[i].mem.state == FREE <==>
      NoneHolds(run[i], Write) && NoneHolds(run[i], Read) && !run[i].mem.state.pending
  {
    RunSafe(run, i);
    CountPositive(run[i].threads, HoldsOn(Write));
    CountPositive(run[i].threads, HoldsOn(Read));
  }

  // ---- When an attempt succeeds ----

  /**
   * A reader's attempt, undisturbed and without the weak exchange failing for
   * no reason, takes the lock exactly when no writer holds it and the pending
   * bit is clear.
   */
  lemma ReaderTakesIff(run: seq<System>, i: nat, t: nat, c: Choice, c': Choice)
    requires Run(run) && Init(run[0]) && i < |run| && !c'.weak
    requires t in run[i].threads && run[i].threads[t].ReadTop?
    ensures var s := run[i]; var s' := Step(s, t, c);
      && s'.mem == s.mem && t in s'.threads
      && (Holds(Read, Step(s', t, c').threads[t]) <==> NoneHolds(s, Write) && !s.mem.state.pending)
  {
    WordMeans(run, i);
  }

  /** A writer's first attempt takes the lock exactly when nobody holds it and the pending bit is clear. */
  lemma WriterTriesIff(run: seq<System>, i: nat, t: nat, c: Choice)
    requires Run(run) && Init(run[0]) && i < |run|
    requires t in run[i].threads && run[i].threads[t].WriteTry?
    ensures var s := run[i];
      Holds(Write, Step(s, t, c).threads[t]) <==>
        NoneHolds(s, Write) && NoneHolds(s, Read) && !s.mem.state.pending
  {
    WordMeans(run, i);
  }

  /** A waiting writer's attempt, undisturbed, takes the lock exactly when nobody holds it, whoever set the bit. */
  lemma WriterTakesIff(run: seq<System>, i: nat, t: nat, c: Choice, c': Choice)
    requires Run(run) && Init(run[0]) && i < |run|
    requires t in run[i].threads && run[i].threads[t].WriteTop?
    ensures var s := run[i]; var s' := Step(s, t, c);
      && s'.mem == s.mem && t in s'.threads
      && (Holds(Write, Step(s', t, c').threads[t]) <==> NoneHolds(s, Write) && NoneHolds(s, Read))
  {
    WordMeans(run, i);
  }

  // ---- Writer preference ----

  /** While the bit is set, no access lets a reader in. */
  lemma StepUnderPending(s: System, t: nat, c: Choice, u: nat)
    requires Safe(s) && t in s.threads && s.mem.state.pending
    requires u in s.threads && Holds(Read, Step(s, t, c).threads[u])
    ensures Holds(Read, s.threads[u])
  {
    assert LocalOk(s.threads[t]);
  }

  /** No thread comes or goes, and the readers inside only get fewer. */
  ghost predicate Shrinks(s: System, s': System) {
    s'.threads.Keys == s.threads.Keys && Where(s'.threads, HoldsOn(Read)) <= Where(s.threads, HoldsOn(Read))
  }

  lemma ShrinksOnce(run: seq<System>, k: nat)
    requires Run(run) && Init(run[0]) && k + 1 < |run| && run[k].mem.state.pending
    ensures Shrinks(run[k], run[k + 1])
  {
    var s, s' := run[k], run[k + 1];
    RunSafe(run, k);
    assert StepAt(run, k);
    var t, c :| t in s.threads && s' == Step(s, t, c);
    forall u | u in Where(s'.threads, HoldsOn(Read))
      ensures u in Where(s.threads, HoldsOn(Read))
    {
      StepUnderPending(s, t, c, u);
    }
  }

  lemma {:induction false} ReadersShrink(run: seq<System>, i: nat, j: nat)
    requires Run(run) && Init(run[0]) && i <= j < |run|
    requires forall k :: i <= k < j ==> run[k].mem.state.pending
    ensures Shrinks(run[i], run[j])
  {
    if i < j {
      ReadersShrink(run, i, j - 1);
      ShrinksOnce(run, j - 1);
    }
  }

  /**
   * Writer preference: over any stretch of a run in which the pending bit
   * stands, the readers inside at the end were inside at the beginning, and
   * the reader count never rises.
   */
  lemma PendingKeepsReadersOut(run: seq<System>, i: nat, j: nat)
    requires Run(run) && Init(run[0]) && i <= j < |run|
    requires forall k :: i <= k < j ==> run[k].mem.state.pending
    ensures run[j].mem.state.readers <= run[i].mem.state.readers
    ensures forall u :: u in run[j].threads && Holds(Read, run[j].threads[u]) ==>
              u in run[i].threads && Holds(Read, run[i].threads[u])
  {
    ReadersShrink(run, i, j);
    RunSafe(run, i);
    RunSafe(run, j);
    SubsetSize(Where(run[j].threads, HoldsOn(Read)), Where(run[i].threads, HoldsOn(Read)));
    forall u | u in run[j].threads && Holds(Read, run[j].threads[u])
      ensures u in run[i].threads && Holds(Read, run[i].threads[u])
    {
      assert u in Where(run[j].threads, HoldsOn(Read));
    }
  }

  /** The step from k is the store of an unlocking writer that saw no registered writer. */
  ghost predicate DropsAt(run: seq<System>, k: nat)
    requires k + 1 < |run|
  {
    exists u :: u in run[k].threads && run[k].threads[u].Store? && !run[k].threads[u].hasWriter
      && u in run[k + 1].threads && run[k + 1].threads[u].Idle?
  }

  lemma PendingStays(run: seq<System>, k: nat)
    requires Run(run) && Init(run[0]) && k + 1 < |run| && run[k].mem.state.pending && !DropsAt(run, k)
    ensures run[k + 1].mem.state.pending
  {
    RunSafe(run, k);
    assert StepAt(run, k);
    var t, c :| t in run[k].threads && run[k + 1] == Step(run[k], t, c);
    StoreDrops(run[k], t, c);
  }

  lemma {:induction false} PendingStands(run: seq<System>, i: nat, j: nat)
    requires Run(run) && Init(run[0]) && i <= j < |run| && run[i].mem.state.pending
    requires forall k :: i <= k < j ==> !DropsAt(run, k)
    ensures forall k :: i <= k <= j ==> run[k].mem.state.pending
  {
    if i < j {
      PendingStands(run, i, j - 1);
      PendingStays(run, j - 1);
    }
  }

  /**
   * A writer that could not take the lock at once keeps new readers out: from
   * its second access on, until an unlocking writer overlooks it, no reader
   * gets in.
   */
  lemma WaitingWriterKeepsReadersOut(run: seq<System>, i: nat, j: nat, t: nat, c: Choice)
    requires Run(run) && Init(run[0]) && i < j < |run|
    requires t in run[i].threads && run[i].threads[t].SetPending? && run[i + 1] == Step(run[i], t, c)
    requires forall k :: i < k < j ==> !DropsAt(run, k)
    ensures run[j].mem.state.pending && run[j].mem.state.readers <= run[i].mem.state.readers
    ensures forall u :: u in run[j].threads && Holds(Read, run[j].threads[u]) ==>
              u in run[i].threads && Holds(Read, run[i].threads[u])
  {
    PendingStands(run, i + 1, j);
    PendingKeepsReadersOut(run, i + 1, j);
    assert forall u :: u in run[i + 1].threads && Holds(Read, run[i + 1].threads[u]) ==>
      u in run[i].threads && Holds(Read, run[i].threads[u]);
  }

  // ---- What a call has come to ----

  /** In lock() or lock_shared() past a failed first attempt, up to the moment the lock is held. */
  predicate Locking(side: Side, l: Thread) {
    match side
    case Write => Contends(l)
    case Read => (l.ReadTop? && l.stay) || (l.ReadCas? && l.stay) || (l.Pause? && l.side.Read?)
  }

  /** lock() and lock_shared() never give up: the only way out is to hold the lock. */
  lemma {:induction false} LockEndsHolding(run: seq<System>, i: nat, j: nat, t: nat, side: Side)
    requires Run(run) && i <= j < |run| && t in run[i].threads && Locking(side, run[i].threads[t])
    requires forall k :: i < k <= j && t in run[k].threads ==> !Holds(side, run[k].threads[t])
    ensures t in run[j].threads && Locking(side, run[j].threads[t])
  {
    if i < j {
      LockEndsHolding(run, i, j - 1, t, side);
      assert StepAt(run, j - 1);
      var u, c :| u in run[j - 1].threads && run[j] == Step(run[j - 1], u, c);
    }
  }

  /** In try_lock() or try_lock_shared(). */
  predicate Trying(side: Side, l: Thread) {
    match side
    case Write => l == WriteTry(false)
    case Read => (l.ReadTop? && !l.stay) || (l.ReadCas? && !l.stay)
  }

  /** A call begins with an attempt for its side, and lock() and lock_shared() stay when it fails. */
  lemma CallStarts(s: System, t: nat, c: Choice)
    requires t in s.threads && s.threads[t].Idle?
    ensures var l' := Step(s, t, c).threads[t];
      && Step(s, t, c).mem == s.mem
      && (c.yes ==> forall m, c' ::
            Locking(c.side, Access(m, l', c').1) || Holds(c.side, Access(m, l', c').1))
      && (!c.yes ==> Trying(c.side, l'))
  {
  }

  /**
   * An attempt never waits, whatever the others do: each access, and there are
   * at most two, takes the lock for its side or changes nothing, and the call is
   * over with the last.
   */
  lemma TryIsQuick(m: Memory, l: Thread, c: Choice, side: Side)
    requires Trying(side, l) && LocalOk(l)
    ensures var (m', l') := Access(m, l, c);
      || l' == Hold(side)
      || (m' == m && (l'.Idle? || (l.ReadTop? && l'.ReadCas? && Trying(side, l'))))
  {
  }

  // ---- A waiter left alone ----

  /** Nobody keeps this side out. */
  predicate Free(s: System, side: Side) {
    NoneHolds(s, Write) && if side.Read? then !s.mem.state.pending else NoneHolds(s, Read)
  }

  predicate Open(m: Memory, side: Side) {
    !m.state.write && if side.Read? then !m.state.pending else m.state.readers == 0
  }

  /** On the way to the lock, or taking its name off the count of waiters. */
  predicate Taking(m: Memory, side: Side, l: Thread) {
    (Locking(side, l) && Open(m, side)) || l == Deregister(side)
  }

  /** How many accesses are left to holding it. */
  function ToHold(m: Memory, l: Thread): nat {
    match l
    case Deregister(_) => 1
    case WriteCas(_, exp) => if exp == m.state then 2 else 5
    case ReadCas(_, _, exp) => if exp == m.state then 2 else 5
    case WriteTop(_) => 3
    case ReadTop(_, _) => 3
    case _ => 4
  }

  lemma TakingNears(m: Memory, side: Side, l: Thread, c: Choice)
    requires Taking(m, side, l) && !c.weak
    ensures var (m', l') := Access(m, l, c);
      l' == Hold(side) || (Taking(m', side, l') && ToHold(m', l') < ToHold(m, l))
  {
  }

  /** From k only t moves, and its weak exchange does not fail for no reason. */
  ghost predicate MovedBy(run: seq<System>, k: nat, t: nat)
    requires k + 1 < |run|
  {
    exists c: Choice :: t in run[k].threads && !c.weak && run[k + 1] == Step(run[k], t, c)
  }

  lemma {:induction false} TakingHolds(run: seq<System>, i: nat, n: nat, t: nat, side: Side) returns (j: nat)
    requires i + n < |run| && t in run[i].threads && Taking(run[i].mem, side, run[i].threads[t])
    requires ToHold(run[i].mem, run[i].threads[t]) <= n
    requires forall k :: i <= k < i + n ==> MovedBy(run, k, t)
    ensures i < j <= i + n && t in run[j].threads && run[j].threads[t] == Hold(side)
    decreases n
  {
    assert MovedBy(run, i, t);
    var c: Choice :| !c.weak && run[i + 1] == Step(run[i], t, c);
    TakingNears(run[i].mem, side, run[i].threads[t], c);
    j := i + 1;
    if run[j].threads[t] != Hold(side) {
      j := TakingHolds(run, i + 1, n - 1, t, side);
    }
  }

  /** A waiter that nobody keeps out, left alone, holds the lock after at most five accesses. */
  lemma LoneWaiterHolds(run: seq<System>, i: nat, t: nat, side: Side) returns (j: nat)
    requires Run(run) && Init(run[0]) && i + 5 < |run| && t in run[i].threads
    requires Locking(side, run[i].threads[t]) && Free(run[i], side)
    requires forall k :: i <= k < i + 5 ==> MovedBy(run, k, t)
    ensures i < j <= i + 5 && t in run[j].threads && run[j].threads[t] == Hold(side)
  {
    WordMeans(run, i);
    j := TakingHolds(run, i, 5, t, side);
  }

  /** unlock(), left alone, has returned after at most three accesses. */
  lemma UnlockReturns(s: System, t: nat, c: Choice)
    requires t in s.threads && s.threads[t].Hold?
    ensures var s' := Step(Step(s, t, c), t, c);
      t in s'.threads && (s'.threads[t].Idle? || Step(s', t, c).threads[t].Idle?)
  {
  }
}
