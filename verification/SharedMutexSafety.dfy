/** What every reachable state of shared_mutex keeps. */
module SharedMutexSafety {
  import opened Counting
  import opened LockWords
  import opened SharedMutex

  // ---- The roles a thread plays ----

  /** From the taking of the lock until the access that gives it back. */
  predicate Holds(side: Side, l: Thread) {
    match l
    case Deregister(d) => d == side
    case Hold(d) => d == side
    case LoadWaits(d) => d == side
    case Store(d, _) => d == side
    case Subtract(d) => d == side
    case _ => false
  }

  /** A writer past its first attempt that has not taken the lock. */
  predicate Contends(l: Thread) {
    l.SetPending? || l.WriteTop? || l.WriteCas? || (l.Pause? && l.side.Write?)
  }

  /** Counted among the waiters of its side. */
  predicate Counted(side: Side, l: Thread) {
    match l
    case WriteTop(waiting) => side.Write? && waiting
    case WriteCas(waiting, _) => side.Write? && waiting
    case ReadTop(_, waiting) => side.Read? && waiting
    case ReadCas(_, waiting, _) => side.Read? && waiting
    case Pause(d, waiting) => d == side && waiting
    case Deregister(d) => d == side
    case _ => false
  }

  predicate Wants(l: Thread) {
    Contends(l) || Holds(Write, l)
  }

  function HoldsOn(side: Side): Thread -> bool { l => Holds(side, l) }
  function CountedOn(side: Side): Thread -> bool { l => Counted(side, l) }
  function WantsIt(): Thread -> bool { l => Wants(l) }
  function ContendsForIt(): Thread -> bool { l => Contends(l) }

  // ---- The invariant ----

  predicate Accounted(s: System) {
    && One(s.mem.state.write) == Count(s.threads, HoldsOn(Write))
    && s.mem.state.readers == Count(s.threads, HoldsOn(Read))
    && s.mem.Waits(Write) == Count(s.threads, CountedOn(Write))
    && s.mem.Waits(Read) == Count(s.threads, CountedOn(Read))
  }

  predicate LocalOk(l: Thread) {
    match l
    case WriteCas(_, exp) => WriteOpen(exp)
    case ReadTop(stay, waiting) => waiting ==> stay
    case ReadCas(stay, waiting, exp) => ReadOpen(exp) && (waiting ==> stay)
    case LoadWaits(side) => side.Write?
    case Store(side, _) => side.Write?
    case Subtract(side) => side.Read?
    case _ => true
  }

  predicate SawWriter(l: Thread) {
    l.Store? && l.hasWriter
  }

  predicate Safe(s: System) {
    && |s.threads| < 0x1_0000
    && (s.mem.state.write ==> s.mem.state.readers == 0)
    && Accounted(s)
    && (s.mem.state.pending ==> Count(s.threads, WantsIt()) > 0)
    && (forall t :: t in s.threads ==> LocalOk(s.threads[t]))
    && (forall t :: t in s.threads && SawWriter(s.threads[t]) ==> Count(s.threads, ContendsForIt()) > 0)
  }

  lemma InitSafe(s: System)
    requires Init(s)
    ensures Safe(s)
  {
    assert Where(s.threads, HoldsOn(Write)) == {} && Where(s.threads, HoldsOn(Read)) == {};
    assert Where(s.threads, CountedOn(Write)) == {} && Where(s.threads, CountedOn(Read)) == {};
  }

  // ---- One step ----

  lemma RoleBounds(s: System, t: nat)
    requires Safe(s) && t in s.threads
    ensures Holds(Write, s.threads[t]) ==> s.mem.state.write
    ensures Holds(Read, s.threads[t]) ==> s.mem.state.readers > 0 && !s.mem.state.write
  {
    CountPositive(s.threads, HoldsOn(Write));
    CountPositive(s.threads, HoldsOn(Read));
  }

  lemma WaitBounds(s: System, t: nat, side: Side)
    requires Safe(s) && t in s.threads
    ensures One(Counted(side, s.threads[t])) <= s.mem.Waits(side) < 0xFFFF + One(Counted(side, s.threads[t]))
  {
    CountPositive(s.threads, CountedOn(side));
    CountBound(s.threads, CountedOn(side));
    if !Counted(side, s.threads[t]) {
      NotAll(s.threads, CountedOn(side), t);
    }
  }

  lemma NotAll(threads: map<nat, Thread>, p: Thread -> bool, t: nat)
    requires t in threads && !p(threads[t])
    ensures Count(threads, p) < |threads|
  {
    SubsetSize(Where(threads, p), threads.Keys - {t});
  }

  lemma StepHolders(s: System, t: nat, c: Choice)
    requires Safe(s) && t in s.threads
    ensures var s' := Step(s, t, c);
      && One(s'.mem.state.write) == Count(s'.threads, HoldsOn(Write))
      && s'.mem.state.readers == Count(s'.threads, HoldsOn(Read))
  {
    var l := Step(s, t, c).threads[t];
    CountUpdate(s.threads, t, l, HoldsOn(Write));
    CountUpdate(s.threads, t, l, HoldsOn(Read));
    RoleBounds(s, t);
    assert LocalOk(s.threads[t]);
  }

  lemma AccessWaits(m: Memory, l: Thread, c: Choice, side: Side)
    requires LocalOk(l) && One(Counted(side, l)) <= m.Waits(side) < 0xFFFF + One(Counted(side, l))
    ensures var (m', l') := Access(m, l, c);
      m'.Waits(side) + One(Counted(side, l)) == m.Waits(side) + One(Counted(side, l'))
  {
  }

  lemma StepWaiters(s: System, t: nat, c: Choice, side: Side)
    requires Safe(s) && t in s.threads
    ensures var s' := Step(s, t, c); s'.mem.Waits(side) == Count(s'.threads, CountedOn(side))
  {
    var (_, l) := Access(s.mem, s.threads[t], c);
    CountUpdate(s.threads, t, l, CountedOn(side));
    WaitBounds(s, t, side);
    AccessWaits(s.mem, s.threads[t], c, side);
  }

  lemma StepLocals(s: System, t: nat, c: Choice)
    requires Safe(s) && t in s.threads
    ensures forall u :: u in s.threads ==> LocalOk(Step(s, t, c).threads[u])
  {
    RoleBounds(s, t);
    assert LocalOk(s.threads[t]);
  }

  /** The holder that stores is alone with the lock, so a registered writer is still contending. */
  lemma RegisteredContends(s: System, t: nat)
    requires Safe(s) && t in s.threads && s.threads[t].LoadWaits? && s.mem.writeWait > 0
    ensures Count(s.threads, ContendsForIt()) > 0
  {
    assert LocalOk(s.threads[t]);
    CountPositive(s.threads, CountedOn(Write));
    var u :| u in s.threads && Counted(Write, s.threads[u]);
    if s.threads[u].Deregister? {
      CountUnique(s.threads, HoldsOn(Write), t, u);
    }
    CountPositive(s.threads, ContendsForIt());
  }

  /** While one thread is about to store, no other writer can take the lock. */
  lemma ContendersStay(s: System, t: nat, c: Choice, u: nat)
    requires Safe(s) && t in s.threads && u in s.threads && SawWriter(Step(s, t, c).threads[u])
    ensures Count(Step(s, t, c).threads, ContendsForIt()) > 0
  {
    var s' := Step(s, t, c);
    CountUpdate(s.threads, t, s'.threads[t], ContendsForIt());
    RoleBounds(s, t);
    RoleBounds(s, u);
    assert LocalOk(s.threads[u]) && LocalOk(s.threads[t]);
    if u == t {
      RegisteredContends(s, t);
    }
  }

  /** Only the store of unlock() ends a writer's interest. */
  lemma WantsStays(s: System, t: nat, c: Choice)
    requires Safe(s) && t in s.threads && Wants(s.threads[t]) && !s.threads[t].Store?
    ensures Wants(Step(s, t, c).threads[t])
  {
    RoleBounds(s, t);
    assert LocalOk(s.threads[t]);
  }

  /** A step that leaves the pending bit set finds it set, or sets it, or saw a registered writer. */
  lemma PendingFrom(s: System, t: nat, c: Choice)
    requires Safe(s) && t in s.threads && Step(s, t, c).mem.state.pending
    ensures (s.mem.state.pending && !s.threads[t].Store?) || s.threads[t].SetPending? || SawWriter(s.threads[t])
  {
  }

  /** After a step that leaves the pending bit set, a writer contends or holds. */
  lemma StepPending(s: System, t: nat, c: Choice)
    requires Safe(s) && t in s.threads && Step(s, t, c).mem.state.pending
    ensures Count(Step(s, t, c).threads, WantsIt()) > 0
  {
    var s' := Step(s, t, c);
    PendingFrom(s, t, c);
    CountPositive(s.threads, ContendsForIt());
    CountPositive(s.threads, WantsIt());
    CountPositive(s'.threads, WantsIt());
    if s.threads[t].SetPending? {
      assert Wants(s'.threads[t]);
    } else if SawWriter(s.threads[t]) {
      var u :| u in s.threads && Contends(s.threads[u]);
      assert s'.threads[u] == s.threads[u];
    } else {
      var u :| u in s.threads && Wants(s.threads[u]);
      if u == t {
        WantsStays(s, t, c);
      } else {
        assert s'.threads[u] == s.threads[u];
      }
    }
  }

  lemma StepSafe(s: System, t: nat, c: Choice)
    requires Safe(s) && t in s.threads
    ensures Safe(Step(s, t, c))
  {
    var s' := Step(s, t, c);
    assert s'.threads.Keys == s.threads.Keys;
    StepHolders(s, t, c);
    StepWaiters(s, t, c, Read);
    StepWaiters(s, t, c, Write);
    StepLocals(s, t, c);
    if s'.mem.state.pending {
      StepPending(s, t, c);
    }
    forall u | u in s'.threads && SawWriter(s'.threads[u])
      ensures Count(s'.threads, ContendsForIt()) > 0
    {
      ContendersStay(s, t, c, u);
    }
    WriteAlone(s, t, c);
    assert |s'.threads| == |s.threads|;
  }

  lemma WriteAlone(s: System, t: nat, c: Choice)
    requires Safe(s) && t in s.threads
    ensures Step(s, t, c).mem.state.write ==> Step(s, t, c).mem.state.readers == 0
  {
    RoleBounds(s, t);
    assert LocalOk(s.threads[t]);
  }

  // ---- Every reachable state ----

  lemma {:induction false} RunSafe(run: seq<System>, i: nat)
    requires Run(run) && Init(run[0]) && i < |run|
    ensures Safe(run[i])
  {
    if i == 0 {
      InitSafe(run[0]);
    } else {
      RunSafe(run, i - 1);
      assert StepAt(run, i - 1);
      var t, c :| t in run[i - 1].threads && run[i] == Step(run[i - 1], t, c);
      StepSafe(run[i - 1], t, c);
    }
  }

  /**
   * Exclusion and accounting: the write bit is set exactly while one writer
   * holds and then no reader does, the reader field is the number of readers,
   * and the two counts are the registered waiters.
   */
  lemma ExclusionAndAccounting(run: seq<System>, i: nat)
    requires Run(run) && Init(run[0]) && i < |run|
    ensures var s := run[i];
      && Count(s.threads, HoldsOn(Write)) <= 1
      && (Count(s.threads, HoldsOn(Write)) == 1 ==> Count(s.threads, HoldsOn(Read)) == 0)
      && (s.mem.state.write <==> Count(s.threads, HoldsOn(Write)) == 1)
      && s.mem.state.readers == Count(s.threads, HoldsOn(Read)) < 0x4000_0000
      && s.mem.writeWait == Count(s.threads, CountedOn(Write))
      && s.mem.readWait == Count(s.threads, CountedOn(Read))
  {
    RunSafe(run, i);
    CountBound(run[i].threads, HoldsOn(Read));
  }

  /** unlock() tells writers from readers by the lock word alone, and is never wrong. */
  lemma UnlockKnowsItsSide(run: seq<System>, i: nat, t: nat)
    requires Run(run) && Init(run[0]) && i < |run| && t in run[i].threads && run[i].threads[t].Hold?
    ensures run[i].mem.state.write <==> run[i].threads[t].side.Write?
  {
    RunSafe(run, i);
    RoleBounds(run[i], t);
  }

  /** The pending bit is never stale: it is set only while some writer contends or holds. */
  lemma PendingIsJustified(run: seq<System>, i: nat)
    requires Run(run) && Init(run[0]) && i < |run|
    ensures run[i].mem.state.pending ==> exists t :: t in run[i].threads && Wants(run[i].threads[t])
  {
    RunSafe(run, i);
    CountPositive(run[i].threads, WantsIt());
  }

  /** So once no writer contends or holds, a reader finds the lock open. */
  lemma ReadersNotShutOut(run: seq<System>, i: nat)
    requires Run(run) && Init(run[0]) && i < |run|
    requires forall t :: t in run[i].threads ==> !Wants(run[i].threads[t])
    ensures !run[i].mem.state.write && !run[i].mem.state.pending
  {
    RunSafe(run, i);
    CountPositive(run[i].threads, WantsIt());
    CountPositive(run[i].threads, HoldsOn(Write));
  }

  // ---- When the pending bit is lost ----

  lemma StoreDrops(s: System, t: nat, c: Choice)
    requires Safe(s) && t in s.threads && s.mem.state.pending
    ensures !Step(s, t, c).mem.state.pending <==> s.threads[t].Store? && !s.threads[t].hasWriter
  {
    assert LocalOk(s.threads[t]);
    RoleBounds(s, t);
  }

  /** At k, thread t is at its read of the writers' count, and from there to j about to store. */
  predicate LoadedAt(run: seq<System>, k: nat, j: nat, t: nat)
    requires j < |run|
  {
    && k < j && t in run[k].threads && run[k].threads[t].LoadWaits?
    && forall i :: k < i <= j ==> t in run[i].threads && run[i].threads[t].Store?
  }

  /** How a thread comes to store, and that it stays about to. */
  lemma StoreFrom(s: System, t: nat, c: Choice, u: nat)
    requires t in s.threads && u in s.threads && Step(s, t, c).threads[u].Store?
    ensures s.threads[u].Store? ==> Step(s, t, c).threads[u] == s.threads[u]
    ensures !s.threads[u].Store? ==>
      s.threads[u].LoadWaits? && Step(s, t, c).threads[u].hasWriter == (s.mem.writeWait > 0)
  {
  }

  lemma StoreBefore(run: seq<System>, k: nat, t: nat)
    requires Run(run) && k + 1 < |run| && t in run[k + 1].threads && run[k + 1].threads[t].Store?
    ensures t in run[k].threads
    ensures run[k].threads[t].Store? ==> run[k + 1].threads[t] == run[k].threads[t]
    ensures !run[k].threads[t].Store? ==>
      run[k].threads[t].LoadWaits? && run[k + 1].threads[t].hasWriter == (run[k].mem.writeWait > 0)
  {
    assert StepAt(run, k);
    var u, c :| u in run[k].threads && run[k + 1] == Step(run[k], u, c);
    StoreFrom(run[k], u, c, t);
  }

  /** A thread about to store read the writers' count earlier, and remembers whether a writer was registered then. */
  lemma {:induction false} StoreWasLoaded(run: seq<System>, j: nat, t: nat) returns (k: nat)
    requires Run(run) && Init(run[0]) && j < |run| && t in run[j].threads && run[j].threads[t].Store?
    ensures LoadedAt(run, k, j, t) && run[j].threads[t].hasWriter == (run[k].mem.writeWait > 0)
  {
    assert j > 0;
    StoreBefore(run, j - 1, t);
    k := j - 1;
    if run[j - 1].threads[t].Store? {
      k := StoreWasLoaded(run, j - 1, t);
    }
  }

  lemma LoadedOnce(run: seq<System>, i: nat, k: nat, j: nat, t: nat)
    requires j < |run| && LoadedAt(run, i, j, t) && LoadedAt(run, k, j, t)
    ensures i == k
  {
    assert run[i].threads[t].LoadWaits? && run[k].threads[t].LoadWaits?;
  }

  /**
   * In every run, an access drops the pending bit exactly when it is the store
   * of a writer giving the lock back that found no writer registered when it
   * read their count.
   */
  lemma PendingLostIff(run: seq<System>, j: nat, t: nat, c: Choice)
    requires Run(run) && Init(run[0]) && j < |run| && t in run[j].threads && run[j].mem.state.pending
    ensures !Step(run[j], t, c).mem.state.pending <==>
      run[j].threads[t].Store? &&
      exists k: nat :: LoadedAt(run, k, j, t) && Count(run[k].threads, CountedOn(Write)) == 0
  {
    RunSafe(run, j);
    StoreDrops(run[j], t, c);
    if run[j].threads[t].Store? {
      var k := StoreWasLoaded(run, j, t);
      RunSafe(run, k);
      forall i: nat | LoadedAt(run, i, j, t)
        ensures i == k
      {
        LoadedOnce(run, i, k, j, t);
      }
    }
  }

  lemma Extend(run: seq<System>, t: nat, c: Choice) returns (run': seq<System>)
    requires Run(run) && t in run[|run| - 1].threads
    ensures Run(run') && run'[0] == run[0] && run'[|run'| - 1] == Step(run[|run| - 1], t, c)
  {
    run' := run + [Step(run[|run| - 1], t, c)];
    forall i: nat | i + 1 < |run'|
      ensures StepAt(run', i)
    {
      if i + 1 < |run| {
        assert StepAt(run, i);
      } else {
        assert run'[i] == run[|run| - 1];
      }
    }
  }

  /**
   * The bit can be lost: a writer that has set it and is spinning, not yet
   * registered, loses it to the unlock of the writer before it, and readers
   * may pass.
   */
  lemma WriterCanBePassed() returns (run: seq<System>)
    ensures Run(run) && Init(run[0])
    ensures var s := run[|run| - 1];
      !s.mem.state.write && !s.mem.state.pending && exists t :: t in s.threads && s.threads[t].WriteTop?
  {
    var first, second := 1, 2;
    var start := System(Memory(FREE, 0, 0), map[first := Idle, second := Idle]);
    run := [start];
    run := TakesFree(run, first);
    run := Overtakes(run, first, second);
    assert run[|run| - 1].threads[second] == WriteTop(false);
  }

  /** A writer takes a free lock. */
  lemma TakesFree(run: seq<System>, t: nat) returns (run': seq<System>)
    requires Run(run) && t in run[|run| - 1].threads
    requires run[|run| - 1].threads[t].Idle? && run[|run| - 1].mem.state == FREE
    ensures Run(run') && run'[0] == run[0]
    ensures var s, s' := run[|run| - 1], run'[|run'| - 1];
      s'.mem == s.mem.(state := State(true, false, 0)) && s'.threads == s.threads[t := Hold(Write)]
  {
    run' := Extend(run, t, Choice(Write, true, false));
    run' := Extend(run', t, Choice(Write, true, false));
  }

  /**
   * A second writer fails, sets the bit and spins, and the holder, seeing no
   * registered writer, gives the lock back.
   */
  lemma Overtakes(run: seq<System>, first: nat, second: nat) returns (run': seq<System>)
    requires Run(run) && first != second && {first, second} <= run[|run| - 1].threads.Keys
    requires var s := run[|run| - 1];
      && s.mem.state == State(true, false, 0) && s.mem.writeWait == 0
      && s.threads[first] == Hold(Write) && s.threads[second].Idle?
    ensures Run(run') && run'[0] == run[0]
    ensures var s' := run'[|run'| - 1];
      s'.mem.state == FREE && second in s'.threads && s'.threads[second] == WriteTop(false)
  {
    var write := Choice(Write, true, false);
    run' := Extend(run, second, write);
    run' := Extend(run', second, write);
    run' := Extend(run', second, write);
    run' := Extend(run', first, write);
    run' := Extend(run', first, write);
    run' := Extend(run', first, write);
  }
}
