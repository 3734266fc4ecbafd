/**
 * A call that nobody hinders returns: from any point of a push or a pop, with
 * nobody else inside and no resize going on but its own, a bounded number of
 * its own accesses ends it.
 */
module QueueReturns {
  import opened Bits
  import opened Counting
  import opened QueueMachine
  import opened QueueInvariant
  import opened QueueGrowth
  import opened QueueTheorems

  /** Nobody else is inside, nobody else resizes, and t is not asleep without a notification. */
  predicate Unhindered<T>(m: Memory<T>, l: Thread<T>) {
    && m.active == One(Entered(l))
    && (m.stat.Resizing? ==> Resizer(l))
    && (l.Asleep? ==> m.notified > l.seen)
  }

  // ---- How far from its end a call is ----

  /** A push that has not claimed a position yet. */
  predicate Unclaimed<T>(l: Thread<T>) {
    match l
    case LoadStat(op) => op.Push?
    case WaitStat(op) => op.Push?
    case Asleep(op, _) => op.Push?
    case Enter(op) => op.Push?
    case CheckStat(op) => op.Push?
    case BackOff(op) => op.Push?
    case LoadCapa(op) => op.Push?
    case LoadPos(op, _) => op.Push?
    case LoadMap(op, _, _) => op.Push?
    case LoadSequence(op, _, _, _) => op.Push?
    case Cas(op, _, _, _) => op.Push?
    case Retry(op) => op.Push?
    case _ => Resizer(l) || l.Overfull? || l.Claim? || l.NotifyAll?
  }

  /** The size of the ring, or what it will be once the resize asked for is done. */
  function Size<T>(m: Memory<T>, l: Thread<T>): nat {
    match l
    case Overfull(_, capa) => 2 * capa
    case Claim(_, newCapa) => newCapa
    case Await(_, newCapa) => newCapa
    case Migrate(_, newCapa) => newCapa
    case _ => |m.slots|
  }

  /** At most this many growths are left: a ring larger than the tail has its slot open. */
  function Growths<T>(m: Memory<T>, l: Thread<T>): nat {
    if Unclaimed(l) && Size(m, l) <= m.tail then m.tail + 1 - Size(m, l) else 0
  }

  /** The position a thread has loaded is still the one to be claimed. */
  predicate Fresh<T>(m: Memory<T>, op: Op<T>, pos: nat) {
    pos == if op.Push? then m.tail else m.head
  }

  /** Accesses to the end if no growth is needed, or to the start of the loop. */
  function Rank<T>(m: Memory<T>, l: Thread<T>): nat {
    match l
    case Idle => 0
    case Leave(_) => 1
    case Publish(_, _, _) => 2
    case Vacate(_, _, _, _) => 2
    case Construct(_, _, _, _) => 3
    case Take(_, _, _) => 3
    case Cas(op, _, pos, _) => if Fresh(m, op, pos) then 4 else 13
    case LoadSequence(op, _, pos, _) => if Fresh(m, op, pos) then 5 else 14
    case LoadMap(op, _, pos) => if Fresh(m, op, pos) then 6 else 15
    case LoadPos(_, _) => 7
    case LoadCapa(_) => 8
    case CheckStat(_) => 9
    case Enter(_) => 10
    case LoadStat(_) => 11
    case WaitStat(_) => 12
    case Asleep(_, _) => 13
    case BackOff(_) => 12
    case Retry(_) => 12
    case Overfull(_, _) => 18
    case Claim(_, _) => 17
    case Await(_, _) => 16
    case Migrate(_, _) => 15
    case SetCapacity(_, _) => 14
    case Reopen(_) => 13
    case NotifyAll(_) => 12
  }

  function ToEnd<T>(m: Memory<T>, l: Thread<T>): nat {
    20 * Growths(m, l) + Rank(m, l)
  }

  // ---- Every access nears the end ----

  /** The call goes on unhindered, and is nearer its end. */
  predicate Nears<T>(m: Memory<T>, l: Thread<T>, m': Memory<T>, l': Thread<T>) {
    Unhindered(m', l') && ToEnd(m', l') < ToEnd(m, l)
  }

  lemma WaitNears<T>(m: Memory<T>, t: nat, l: Thread<T>, c: Choice<T>)
    requires Unhindered(m, l)
    requires l.LoadStat? || l.WaitStat? || l.Asleep?
    ensures var (m', l') := Access(m, t, l, c); Nears(m, l, m', l')
  {
  }

  lemma GateNears<T>(m: Memory<T>, t: nat, l: Thread<T>, c: Choice<T>)
    requires Unhindered(m, l)
    requires l.Enter? || l.CheckStat? || l.BackOff? || l.Retry? || l.Leave?
    ensures var (m', l') := Access(m, t, l, c); Nears(m, l, m', l')
  {
  }

  lemma LoadNears<T>(m: Memory<T>, t: nat, l: Thread<T>, c: Choice<T>)
    requires Unhindered(m, l)
    requires l.LoadCapa? || l.LoadPos? || l.LoadMap?
    ensures var (m', l') := Access(m, t, l, c); Nears(m, l, m', l')
  {
  }

  lemma RequestNears<T>(m: Memory<T>, t: nat, l: Thread<T>, c: Choice<T>)
    requires Unhindered(m, l)
    requires l.Overfull? || l.Claim? || l.Await?
    ensures var (m', l') := Access(m, t, l, c); Nears(m, l, m', l')
  {
  }

  lemma MigrateNears<T>(m: Memory<T>, t: nat, l: Thread<T>, c: Choice<T>)
    requires Unhindered(m, l) && |m.slots| > 0 && m.head <= m.tail
    requires l.Migrate? && BitCeil(l.newCapa) == l.newCapa
    ensures var (m', l') := Access(m, t, l, c); Nears(m, l, m', l')
  {
  }

  lemma ReopenNears<T>(m: Memory<T>, t: nat, l: Thread<T>, c: Choice<T>)
    requires Unhindered(m, l)
    requires l.SetCapacity? || l.Reopen? || l.NotifyAll?
    ensures var (m', l') := Access(m, t, l, c); Nears(m, l, m', l')
  {
  }

  lemma OwnerNears<T>(m: Memory<T>, t: nat, l: Thread<T>, c: Choice<T>)
    requires Unhindered(m, l) && !Access(m, t, l, c).0.fault && Owner(l)
    ensures var (m', l') := Access(m, t, l, c); Nears(m, l, m', l')
  {
  }

  lemma CasNears<T>(m: Memory<T>, t: nat, l: Thread<T>, c: Choice<T>)
    requires Unhindered(m, l) && !Access(m, t, l, c).0.fault && l.Cas? && !c.weak
    ensures var (m', l') := Access(m, t, l, c); Nears(m, l, m', l')
  {
  }

  /** What a thread reads in the slot of its position, and what it does then. */
  lemma SequenceNears<T>(s: System<T>, t: nat, c: Choice<T>)
    requires Inv(s) && t in s.threads && s.threads[t].LoadSequence? && Unhindered(s.mem, s.threads[t])
    ensures var (m', l') := Access(s.mem, t, s.threads[t], c); Nears(s.mem, s.threads[t], m', l')
  {
    assert LocalOk(s.mem, t, s.threads[t]);
    HeadSequence(s);
    TailSequence(s);
  }

  lemma AccessNears<T>(s: System<T>, t: nat, c: Choice<T>)
    requires Inv(s) && t in s.threads && MoveFits(s, t) && !c.weak
    requires Unhindered(s.mem, s.threads[t]) && !s.threads[t].Idle?
    ensures var (m', l') := Access(s.mem, t, s.threads[t], c); Nears(s.mem, s.threads[t], m', l')
  {
    var m, l := s.mem, s.threads[t];
    StepKeeps(s, t, c);
    if l.LoadSequence? {
      SequenceNears(s, t, c);
    } else if l.Cas? {
      CasNears(m, t, l, c);
    } else if Owner(l) {
      OwnerNears(m, t, l, c);
    } else if l.Migrate? {
      RequestIsSize(s, t);
      MigrateNears(m, t, l, c);
    } else if l.Overfull? || l.Claim? || l.Await? {
      RequestNears(m, t, l, c);
    } else if l.SetCapacity? || l.Reopen? || l.NotifyAll? {
      ReopenNears(m, t, l, c);
    } else if l.LoadStat? || l.WaitStat? || l.Asleep? {
      WaitNears(m, t, l, c);
    } else if l.LoadCapa? || l.LoadPos? || l.LoadMap? {
      LoadNears(m, t, l, c);
    } else {
      GateNears(m, t, l, c);
    }
  }

  lemma RequestIsSize<T>(s: System<T>, t: nat)
    requires Inv(s) && t in s.threads && s.threads[t].Migrate?
    ensures BitCeil(s.threads[t].newCapa) == s.threads[t].newCapa
  {
    assert LocalOk(s.mem, t, s.threads[t]);
    BitCeilPow2(s.threads[t].newCapa);
  }

  // ---- Runs ----

  /** The access from k is t's, and a weak exchange does not fail for no reason. */
  ghost predicate MovedBy<T(!new)>(run: seq<System<T>>, k: nat, t: nat)
    requires k + 1 < |run|
  {
    exists c: Choice<T> :: t in run[k].threads && MoveFits(run[k], t) && !c.weak && run[k + 1] == Step(run[k], t, c)
  }

  lemma OneNears<T(!new)>(run: seq<System<T>>, capa: nat, k: nat, t: nat)
    requires Run(run) && Init(run[0], capa) && capa >= 2 && k + 1 < |run| && MovedBy(run, k, t)
    requires t in run[k].threads && Unhindered(run[k].mem, run[k].threads[t]) && !run[k].threads[t].Idle?
    ensures t in run[k + 1].threads && Nears(run[k].mem, run[k].threads[t], run[k + 1].mem, run[k + 1].threads[t])
  {
    var c: Choice<T> :| MoveFits(run[k], t) && !c.weak && run[k + 1] == Step(run[k], t, c);
    RunKeeps(run, capa, k);
    AccessNears(run[k], t, c);
  }

  /**
   * Wherever in a call t is, unhindered and left alone it has returned after a
   * number of accesses that is known beforehand.
   */
  lemma {:induction false} LoneCallReturns<T(!new)>(run: seq<System<T>>, capa: nat, i: nat, n: nat, t: nat)
    returns (j: nat)
    requires Run(run) && Init(run[0], capa) && capa >= 2 && i + n < |run|
    requires t in run[i].threads && Unhindered(run[i].mem, run[i].threads[t])
    requires ToEnd(run[i].mem, run[i].threads[t]) <= n
    requires forall k :: i <= k < i + n ==> MovedBy(run, k, t)
    ensures i <= j <= i + n && t in run[j].threads && run[j].threads[t].Idle?
    decreases n
  {
    j := i;
    if !run[i].threads[t].Idle? {
      OneNears(run, capa, i, t);
      j := LoneCallReturns(run, capa, i + 1, n - 1, t);
    }
  }
}
