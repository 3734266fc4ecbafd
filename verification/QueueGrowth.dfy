/** Growth: the resizer works alone, and moving keeps the queue. */
module QueueGrowth {
  import opened Bits
  import opened Counting
  import opened Ring
  import opened QueueMachine
  import opened QueueInvariant
  import opened QueueSteps

  lemma {:induction false} MovedUsesAt(h: nat, i: nat, capa: nat, p: nat)
    requires capa > 0 && h <= p < i <= h + capa
    ensures MovedUses(h, i, capa)[Index(p, capa)] == Full(p)
    decreases i
  {
    if p < i - 1 {
      MovedUsesAt(h, i - 1, capa, p);
      IndexApart(p, i - 1, capa);
    }
  }

  lemma {:induction false} MovedUsesElsewhere(h: nat, i: nat, capa: nat, j: nat)
    requires capa > 0 && h <= i && j < capa
    requires forall p :: h <= p < i ==> Index(p, capa) != j
    ensures MovedUses(h, i, capa)[j] == Free
    decreases i
  {
    if i > h {
      MovedUsesElsewhere(h, i - 1, capa, j);
    }
  }

  /**
   * While the resizer is past its wait nobody is inside, so every queued
   * position is published and every dequeued one has been taken.
   */
  lemma AloneMeansSettled<T>(s: System<T>, t: nat)
    requires Inv(s) && t in s.threads && Alone(s.threads[t])
    ensures forall p :: s.mem.head <= p < s.mem.tail ==> UseAt(s.mem, p) == Full(p)
    ensures forall p :: 0 <= p < s.mem.head ==> p in s.mem.taken
    ensures forall u :: u in s.threads ==> !Inside(s.threads[u])
  {
    var m := s.mem;
    forall p | m.head <= p < m.tail
      ensures UseAt(m, p) == Full(p)
    {
      assert Queued(m, p);
      assert SlotOk(m, s.threads, Index(p, |m.slots|));
    }
    forall p | 0 <= p < m.head
      ensures p in m.taken
    {
      assert Gone(m, p);
      assert SlotOk(m, s.threads, Index(p, |m.slots|));
    }
  }

  lemma OneResizer<T>(s: System<T>, t: nat, u: nat)
    requires Inv(s) && t in s.threads && u in s.threads && Resizer(s.threads[t]) && Resizer(s.threads[u])
    ensures t == u
  {
    CountUnique(s.threads, Resizers<T>(), t, u);
  }

  lemma GrownShape<T>(s: System<T>, t: nat)
    requires Inv(s) && t in s.threads && s.threads[t].Migrate? && MoveFits(s, t)
    ensures var m := s.mem; var capa := s.threads[t].newCapa;
            BitCeil(capa) == capa && Shape(Grown(m, capa))
  {
    var m, capa := s.mem, s.threads[t].newCapa;
    assert LocalOk(m, t, s.threads[t]);
    BitCeilPow2(capa);
    AloneMeansSettled(s, t);
    forall p | m.head <= p < m.tail
      ensures m.slots[Index(p, |m.slots|)].cell.Built?
    {
      assert UseAt(m, p) == Full(p);
      assert SlotOk(m, s.threads, Index(p, |m.slots|));
    }
    MoveIsSafe(m.slots, m.head, m.tail, capa);
  }

  /** Moving constructs over a live object exactly when the queue does not fit the new array. */
  lemma MoveFaultsIff<T>(s: System<T>, t: nat, c: Choice<T>)
    requires Inv(s) && t in s.threads && s.threads[t].Migrate?
    ensures Step(s, t, c).mem.fault <==> !MoveFits(s, t)
  {
    var m := s.mem;
    AloneMeansSettled(s, t);
    forall p | m.head <= p < m.tail
      ensures m.slots[Index(p, |m.slots|)].cell.Built?
    {
      assert UseAt(m, p) == Full(p);
      assert SlotOk(m, s.threads, Index(p, |m.slots|));
    }
    MoveIsSafeIff(m.slots, m.head, m.tail, BitCeil(s.threads[t].newCapa));
  }

  /** Every slot of the grown ring holds the object of its position, or is fresh. */
  lemma GrownSlot<T>(s: System<T>, t: nat, l: Thread<T>, j: nat)
    requires Inv(s) && t in s.threads && s.threads[t].Migrate? && MoveFits(s, t) && j < s.threads[t].newCapa
    ensures var m' := Grown(s.mem, s.threads[t].newCapa);
            Shape(m') && j < |m'.slots| && SlotOk(m', s.threads[t := l], j)
  {
    var m, n, capa := s.mem, |s.mem.slots|, s.threads[t].newCapa;
    GrownShape(s, t);
    if p :| m.head <= p < m.tail && Index(p, capa) == j {
      MovedAt(m.slots, m.head, m.tail, capa, p);
      MovedUsesAt(m.head, m.tail, capa, p);
      AloneMeansSettled(s, t);
      assert SlotOk(m, s.threads, Index(p, n));
    } else {
      MovedElsewhere(m.slots, m.head, m.tail, capa, j);
      MovedUsesElsewhere(m.head, m.tail, capa, j);
    }
  }

  lemma MigrateKeeps<T>(s: System<T>, t: nat, c: Choice<T>)
    requires Inv(s) && t in s.threads && s.threads[t].Migrate? && MoveFits(s, t)
    ensures RingOk(Step(s, t, c).mem, Step(s, t, c).threads)
    ensures LocalsOk(Step(s, t, c).mem, Step(s, t, c).threads)
  {
    var m, capa, s' := s.mem, s.threads[t].newCapa, Step(s, t, c);
    var m', l' := s'.mem, s'.threads[t];
    GrownShape(s, t);
    AloneMeansSettled(s, t);
    assert LocalOk(m, t, s.threads[t]);
    forall j | 0 <= j < |m'.slots|
      ensures SlotOk(m', s'.threads, j)
    {
      GrownSlot(s, t, l', j);
    }
    forall p | m'.head <= p < m'.tail
      ensures Queued(m', p)
    {
      MovedUsesAt(m.head, m.tail, capa, p);
    }
    forall u | u in s'.threads
      ensures LocalOk(m', u, s'.threads[u])
    {
      if u != t {
        assert LocalOk(m, u, s.threads[u]);
        if Resizer(s.threads[u]) {
          OneResizer(s, t, u);
        }
      }
    }
  }

  // ---- The gate ----

  lemma GateCounts<T>(th: map<nat, Thread<T>>, t: nat, l: Thread<T>)
    requires t in th
    ensures Count(th[t := l], EnteredThreads()) + One(Entered(th[t])) == Count(th, EnteredThreads()) + One(Entered(l))
    ensures Count(th[t := l], Resizers()) + One(Resizer(th[t])) == Count(th, Resizers()) + One(Resizer(l))
  {
    CountUpdate(th, t, l, EnteredThreads<T>());
    CountUpdate(th, t, l, Resizers<T>());
  }

  /** The resizer sees active_threads_ == 0 only when nobody is inside. */
  lemma NobodyInside<T>(s: System<T>, u: nat)
    requires Inv(s) && s.mem.active == 0 && u in s.threads
    ensures !Inside(s.threads[u])
  {
    CountPositive(s.threads, EnteredThreads<T>());
    assert EnteredThreads<T>()(s.threads[u]) == Entered(s.threads[u]);
  }

  /** With a resizer about, the second check turns everybody away. */
  lemma ResizingIfResizer<T>(s: System<T>, t: nat)
    requires Inv(s) && t in s.threads && Resizer(s.threads[t])
    ensures s.mem.stat.Resizing?
  {
    CountPositive(s.threads, Resizers<T>());
    assert Resizers<T>()(s.threads[t]);
  }

  /** The gate's own words move with the roles of the thread that accesses them. */
  lemma AccessActive<T>(m: Memory<T>, t: nat, l: Thread<T>, c: Choice<T>)
    ensures var (m', l') := Access(m, t, l, c);
            && m'.active + One(Entered(l)) == m.active + One(Entered(l'))
            && (Inside(l') && !Inside(l) ==> m.stat.Normal?)
  {
  }

  lemma AccessStat<T>(m: Memory<T>, t: nat, l: Thread<T>, c: Choice<T>)
    requires Resizer(l) ==> m.stat.Resizing?
    ensures var (m', l') := Access(m, t, l, c);
            && One(m'.stat.Resizing?) + One(Resizer(l)) == One(m.stat.Resizing?) + One(Resizer(l'))
            && (Alone(l') && !Alone(l) ==> m.active <= 0)
  {
  }

  lemma AccessCapacity<T>(m: Memory<T>, t: nat, l: Thread<T>, c: Choice<T>)
    ensures var (m', l') := Access(m, t, l, c);
            && (!l.Migrate? ==> |m'.slots| == |m.slots|)
            && (!l.SetCapacity? ==> m'.capacity == m.capacity)
  {
  }

  lemma AloneKept<T>(s: System<T>, t: nat, c: Choice<T>, u: nat, v: nat)
    requires Inv(s) && t in s.threads && u in s.threads && v in s.threads
    requires Alone(Step(s, t, c).threads[u])
    ensures !Inside(Step(s, t, c).threads[v])
  {
    if Resizer(s.threads[t]) {
      ResizingIfResizer(s, t);
    }
    AccessActive(s.mem, t, s.threads[t], c);
    AccessStat(s.mem, t, s.threads[t], c);
    if u == t && !Alone(s.threads[t]) {
      NobodyInside(s, v);
    } else {
      ResizingIfResizer(s, u);
    }
  }

  lemma CapacityKept<T>(s: System<T>, t: nat, c: Choice<T>)
    requires Inv(s) && t in s.threads && MoveFits(s, t)
    ensures var s' := Step(s, t, c);
            IsPow2(|s'.mem.slots|) && (s'.mem.capacity == |s'.mem.slots| || SetsCapacity(s'.threads))
  {
    var l, s' := s.threads[t], Step(s, t, c);
    assert LocalOk(s.mem, t, l);
    AccessCapacity(s.mem, t, l, c);
    if l.Migrate? {
      GrownShape(s, t);
      assert s'.threads[t].SetCapacity?;
    } else if l.SetCapacity? {
      BitCeilPow2(l.newCapa);
    } else if s.mem.capacity != |s.mem.slots| {
      var u :| u in s.threads && s.threads[u].SetCapacity?;
      assert s'.threads[u].SetCapacity?;
    }
  }

  lemma GateKeeps<T>(s: System<T>, t: nat, c: Choice<T>)
    requires Inv(s) && t in s.threads && MoveFits(s, t)
    ensures GateOk(Step(s, t, c).mem, Step(s, t, c).threads)
  {
    var l, s' := s.threads[t], Step(s, t, c);
    if Resizer(l) {
      ResizingIfResizer(s, t);
    }
    AccessActive(s.mem, t, l, c);
    AccessStat(s.mem, t, l, c);
    GateCounts(s.threads, t, s'.threads[t]);
    CapacityKept(s, t, c);
    forall u, v | u in s'.threads && v in s'.threads && Alone(s'.threads[u])
      ensures !Inside(s'.threads[v])
    {
      AloneKept(s, t, c, u, v);
    }
  }

  /** Every access of every thread keeps the invariant. */
  lemma StepKeeps<T>(s: System<T>, t: nat, c: Choice<T>)
    requires Inv(s) && t in s.threads && MoveFits(s, t)
    ensures Inv(Step(s, t, c))
  {
    var m, th, l := s.mem, s.threads, s.threads[t];
    var (m', l') := Access(m, t, l, c);
    GateKeeps(s, t, c);
    if l.Migrate? {
      MigrateKeeps(s, t, c);
    } else if l.Cas? || Owner(l) {
      RingAccess(m, th, t, c);
    } else {
      QuietMover(s, t, c);
      QuietRing(m, m', th, t, l');
      QuietLocals(m, m', th, t, l');
    }
  }
}
