/**
 * The wait on stat_: a push or pop that sleeps there because of a resize is
 * woken.  As long as it has no notification to wake to, the resizer that will
 * notify it is there and awake.
 */
module QueueWaiting {
  import opened Counting
  import opened QueueMachine
  import opened QueueInvariant
  import opened QueueTheorems

  ghost predicate Notifying<T>(th: map<nat, Thread<T>>) {
    exists u :: u in th && th[u].NotifyAll?
  }

  predicate SleeperOk<T>(m: Memory<T>, l: Thread<T>) {
    l.Asleep? ==> l.seen <= m.notified
  }

  /** A sleeper that has seen every notification so far. */
  predicate Unnotified<T>(m: Memory<T>, l: Thread<T>) {
    l.Asleep? && l.seen == m.notified
  }

  ghost predicate WaitOk<T>(s: System<T>) {
    && (forall t :: t in s.threads ==> SleeperOk(s.mem, s.threads[t]))
    && forall t :: t in s.threads && Unnotified(s.mem, s.threads[t]) ==> s.mem.stat.Resizing? || Notifying(s.threads)
  }

  /** What an access does to the two things a sleeper looks at. */
  lemma AccessWait<T>(m: Memory<T>, t: nat, l: Thread<T>, c: Choice<T>)
    ensures var (m', l') := Access(m, t, l, c);
      && m'.notified == m.notified + One(l.NotifyAll?)
      && (m.stat.Resizing? && !m'.stat.Resizing? ==> l'.NotifyAll?)
      && (l'.Asleep? && !l.Asleep? ==> m.stat.Resizing? && m'.stat.Resizing? && l'.seen == m'.notified)
      && (l'.Asleep? && l.Asleep? ==> l' == l)
  {
  }

  lemma StepWait<T>(s: System<T>, t: nat, c: Choice<T>)
    requires WaitOk(s) && t in s.threads
    ensures WaitOk(Step(s, t, c))
  {
    var s', l := Step(s, t, c), s.threads[t];
    AccessWait(s.mem, t, l, c);
    forall u | u in s'.threads
      ensures SleeperOk(s'.mem, s'.threads[u])
      ensures Unnotified(s'.mem, s'.threads[u]) ==> s'.mem.stat.Resizing? || Notifying(s'.threads)
    {
      assert SleeperOk(s.mem, s.threads[u]);
      if Unnotified(s'.mem, s'.threads[u]) && !s'.mem.stat.Resizing? {
        WaitHandedOn(s, t, c, u);
      }
    }
  }

  lemma WaitHandedOn<T>(s: System<T>, t: nat, c: Choice<T>, u: nat)
    requires WaitOk(s) && t in s.threads && u in s.threads
    requires Unnotified(Step(s, t, c).mem, Step(s, t, c).threads[u]) && !Step(s, t, c).mem.stat.Resizing?
    ensures Notifying(Step(s, t, c).threads)
  {
    var s', l := Step(s, t, c), s.threads[t];
    AccessWait(s.mem, t, l, c);
    assert SleeperOk(s.mem, s.threads[u]);
    assert Unnotified(s.mem, s.threads[u]);
    if s.mem.stat.Resizing? {
      assert s'.threads[t].NotifyAll?;
    } else {
      var w :| w in s.threads && s.threads[w].NotifyAll?;
      assert s'.threads[w].NotifyAll?;
    }
  }

  lemma {:induction false} RunWaits<T(!new)>(run: seq<System<T>>, capa: nat, i: nat)
    requires FreeRun(run) && Init(run[0], capa) && i < |run|
    ensures WaitOk(run[i])
  {
    if i > 0 {
      RunWaits(run, capa, i - 1);
      assert MoveAt(run, i - 1);
      var t, c :| t in run[i - 1].threads && run[i] == Step(run[i - 1], t, c);
      StepWait(run[i - 1], t, c);
    }
  }

  /**
   * No lost wakeup on stat_: whenever a thread sleeps there, a notification has
   * come since it went to sleep, or a thread that is awake has won the resize
   * or is about to notify.
   */
  lemma SleeperIsNotified<T(!new)>(run: seq<System<T>>, capa: nat, i: nat, t: nat)
    requires Run(run) && Init(run[0], capa) && capa >= 2 && i < |run|
    requires t in run[i].threads && run[i].threads[t].Asleep?
    ensures || run[i].mem.notified > run[i].threads[t].seen
            || exists u :: u in run[i].threads && (Resizer(run[i].threads[u]) || run[i].threads[u].NotifyAll?)
  {
    var s := run[i];
    forall k: nat | k + 1 < |run|
      ensures MoveAt(run, k)
    {
      assert StepAt(run, k);
    }
    RunWaits(run, capa, i);
    RunKeeps(run, capa, i);
    assert SleeperOk(s.mem, s.threads[t]);
    if Unnotified(s.mem, s.threads[t]) && s.mem.stat.Resizing? {
      CountPositive(s.threads, Resizers<T>());
      var u :| u in s.threads && Resizers<T>()(s.threads[u]);
      assert Resizer(s.threads[u]);
    }
  }

  /** Once the gate is open again and nobody is left to notify, every sleeper has its notification. */
  lemma NobodyLeftAsleep<T(!new)>(run: seq<System<T>>, capa: nat, i: nat, t: nat)
    requires FreeRun(run) && Init(run[0], capa) && i < |run|
    requires run[i].mem.stat.Normal? && !Notifying(run[i].threads)
    requires t in run[i].threads && run[i].threads[t].Asleep?
    ensures run[i].mem.notified > run[i].threads[t].seen
    ensures forall c :: Step(run[i], t, c).threads[t].WaitStat?
  {
    RunWaits(run, capa, i);
    assert SleeperOk(run[i].mem, run[i].threads[t]);
    assert !Unnotified(run[i].mem, run[i].threads[t]);
  }

  /**
   * While the gate is closed a call does not come near the queue: it goes to
   * sleep, and unless it wakes for no reason it sleeps until it is notified.
   */
  lemma ClosedGateSleeps<T>(s: System<T>, t: nat, c: Choice<T>, c': Choice<T>, c'': Choice<T>)
    requires t in s.threads && s.threads[t].LoadStat? && s.mem.stat.Resizing? && !c''.weak
    ensures var s1 := Step(s, t, c);
      var s2 := Step(s1, t, c');
      var l := s2.threads[t];
      && s2.mem == s.mem && l.Asleep? && l.op == s.threads[t].op && l.seen == s.mem.notified
      && forall m: Memory<T> ::
           Access(m, t, l, c'') == (m, if m.notified > s.mem.notified then WaitStat(l.op) else l)
  {
  }
}
