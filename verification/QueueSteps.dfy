/** Every access of every thread keeps the queue's invariant. */
module QueueSteps {
  import opened Bits
  import opened Ring
  import opened QueueMachine
  import opened QueueInvariant

  // ---- Accesses that leave the ring alone ----

  /** Everything but the gate's own fields is the same. */
  predicate SameRing<T(==)>(m: Memory<T>, m': Memory<T>) {
    m' == m.(capacity := m'.capacity, stat := m'.stat, active := m'.active, notified := m'.notified)
  }

  lemma QuietRing<T>(m: Memory<T>, m': Memory<T>, th: map<nat, Thread<T>>, t: nat, l: Thread<T>)
    requires RingOk(m, th) && SameRing(m, m') && t in th && !Owner(th[t])
    ensures RingOk(m', th[t := l])
  {
    var th' := th[t := l];
    forall j | 0 <= j < |m'.slots|
      ensures SlotOk(m', th', j)
    {
      assert SlotOk(m, th, j);
    }
    forall p | m.head <= p < m.tail
      ensures Queued(m', p)
    {
      assert Queued(m, p);
    }
    forall p | 0 <= p < m.head
      ensures Gone(m', p)
    {
      assert Gone(m, p);
    }
  }

  lemma QuietLocals<T>(m: Memory<T>, m': Memory<T>, th: map<nat, Thread<T>>, t: nat, l: Thread<T>)
    requires LocalsOk(m, th) && SameRing(m, m') && t in th && LocalOk(m', t, l)
    ensures LocalsOk(m', th[t := l])
  {
    var th' := th[t := l];
    forall u | u in th'
      ensures LocalOk(m', u, th'[u])
    {
      if u != t {
        assert LocalOk(m, u, th[u]);
        LocalQuiet(m, m', u, th[u]);
      }
    }
  }

  lemma LocalQuiet<T>(m: Memory<T>, m': Memory<T>, u: nat, l: Thread<T>)
    requires Shape(m) && SameRing(m, m') && LocalOk(m, u, l)
    ensures LocalOk(m', u, l)
  {
  }

  /** Accesses that change the ring. */
  predicate Rings<T>(l: Thread<T>) {
    l.Cas? || Owner(l) || l.Migrate?
  }

  /** Accesses that load what a push or pop works with. */
  predicate Loads<T>(l: Thread<T>) {
    l.LoadCapa? || l.LoadPos? || l.LoadMap? || l.LoadSequence?
  }

  lemma LoadMover<T>(s: System<T>, t: nat, c: Choice<T>)
    requires Inv(s) && t in s.threads && Loads(s.threads[t])
    ensures var (m', l') := Access(s.mem, t, s.threads[t], c);
            m' == s.mem && LocalOk(m', t, l')
  {
    var m, l := s.mem, s.threads[t];
    assert LocalOk(m, t, l);
    if l.LoadCapa? {
      NoSetter(s, t);
    } else if l.LoadSequence? {
      PlaceOk(m, l.pos);
    }
  }

  lemma GateMover<T>(s: System<T>, t: nat, c: Choice<T>)
    requires Inv(s) && t in s.threads && !Rings(s.threads[t]) && !Loads(s.threads[t])
    ensures var (m', l') := Access(s.mem, t, s.threads[t], c);
            SameRing(s.mem, m') && LocalOk(m', t, l')
  {
    var m, l := s.mem, s.threads[t];
    assert LocalOk(m, t, l);
    if l.Overfull? {
      DoublePow2(l.capa);
    } else if l.Claim? {
      BitCeilPow2(l.newCapa);
    }
  }

  /** A thread that passes the gate or loads something ends with locals that are right. */
  lemma QuietMover<T>(s: System<T>, t: nat, c: Choice<T>)
    requires Inv(s) && t in s.threads && !Rings(s.threads[t])
    ensures var (m', l') := Access(s.mem, t, s.threads[t], c);
            SameRing(s.mem, m') && LocalOk(m', t, l')
  {
    if Loads(s.threads[t]) {
      LoadMover(s, t, c);
    } else {
      GateMover(s, t, c);
    }
  }

  /** While a thread is inside, nobody is about to set the capacity. */
  lemma NoSetter<T>(s: System<T>, t: nat)
    requires Inv(s) && t in s.threads && Inside(s.threads[t])
    ensures s.mem.capacity == |s.mem.slots|
  {
  }

  lemma PlaceOk<T>(m: Memory<T>, pos: nat)
    requires Shape(m)
    ensures Live(m, |m.slots|, pos, m.base)
  {
  }

  // ---- Accesses that change one slot ----

  /** A thread owns at most one slot, so another slot's owner has not moved. */
  lemma OtherSlot<T>(m: Memory<T>, m': Memory<T>, th: map<nat, Thread<T>>, t: nat, l: Thread<T>, j: nat)
    requires RingOk(m, th) && LocalsOk(m, th) && Shape(m') && t in th
    requires |m'.slots| == |m.slots| && j < |m.slots| && m'.base == m.base
    requires m'.slots[j] == m.slots[j] && m'.uses[j] == m.uses[j]
    requires m.head <= m'.head && m.tail <= m'.tail && m.history <= m'.history
    requires Owner(th[t]) ==> Index(th[t].pos, |m.slots|) != j
    requires match m.uses[j]
             case Free => true
             case Claimed(p, _) => m'.head <= p
             case Full(p) => m'.head <= p
             case Draining(p, _) => m'.tail <= p + |m.slots| && (p in m'.taken <==> p in m.taken)
    ensures SlotOk(m', th[t := l], j)
  {
    assert SlotOk(m, th, j);
  }

  /** A slot whose sequence is the tail belongs to nobody, so the ring is not full. */
  lemma TailSlotFree<T>(m: Memory<T>, th: map<nat, Thread<T>>)
    requires RingOk(m, th) && SequenceAt(m, m.tail) == m.tail
    ensures UseAt(m, m.tail).Free? && m.tail < m.head + |m.slots|
    ensures forall j :: 0 <= j < |m.slots| && m.uses[j].Draining? ==> m.tail < m.uses[j].pos + |m.slots|
  {
    var n := |m.slots|;
    var i := Index(m.tail, n);
    assert SlotOk(m, th, i);
    match m.uses[i] {
      case Free =>
      case Claimed(p, w) =>
      case Full(p) => IndexNext(p, n);
      case Draining(p, w) => IndexNext(p, n);
    }
    assert m.head < m.tail ==> Queued(m, m.head);
    forall j | 0 <= j < n && m.uses[j].Draining?
      ensures m.tail < m.uses[j].pos + n
    {
      assert SlotOk(m, th, j);
    }
  }

  /** A slot whose sequence is one past the head holds the object at the head. */
  lemma HeadSlotFull<T>(m: Memory<T>, th: map<nat, Thread<T>>)
    requires RingOk(m, th) && SequenceAt(m, m.head) == m.head + 1
    ensures UseAt(m, m.head) == Full(m.head) && m.head < m.tail
  {
    var n := |m.slots|;
    var i := Index(m.head, n);
    assert SlotOk(m, th, i);
    IndexNext(m.head, n);
  }

  // The accesses that change the ring keep it, and leave their thread right.

  lemma CasPush<T>(m: Memory<T>, th: map<nat, Thread<T>>, t: nat, c: Choice<T>)
    requires RingOk(m, th) && LocalsOk(m, th) && t in th
    requires th[t].Cas? && th[t].op.Push? && m.tail == th[t].pos && !c.weak
    ensures var (m', l') := Access(m, t, th[t], c);
            RingOk(m', th[t := l']) && LocalOk(m', t, l')
  {
    var l, n, pos := th[t], |m.slots|, m.tail;
    var (m', l') := Access(m, t, l, c);
    var th', i := th[t := l'], Index(pos, n);
    assert LocalOk(m, t, l);
    TailSlotFree(m, th);
    assert SlotOk(m, th, i);
    forall j | 0 <= j < n
      ensures SlotOk(m', th', j)
    {
      if j != i {
        assert SlotOk(m, th, j);
        OtherSlot(m, m', th, t, l', j);
      }
    }
    forall p | m'.head <= p < m'.tail
      ensures Queued(m', p)
    {
      if p < pos {
        assert Queued(m, p);
      }
    }
    forall p | 0 <= p < m'.head
      ensures Gone(m', p)
    {
      assert Gone(m, p);
    }
  }

  lemma CasPop<T>(m: Memory<T>, th: map<nat, Thread<T>>, t: nat, c: Choice<T>)
    requires RingOk(m, th) && LocalsOk(m, th) && t in th
    requires th[t].Cas? && th[t].op.Pop? && m.head == th[t].pos && !c.weak
    ensures var (m', l') := Access(m, t, th[t], c);
            RingOk(m', th[t := l']) && LocalOk(m', t, l')
  {
    var l, n, pos := th[t], |m.slots|, m.head;
    var (m', l') := Access(m, t, l, c);
    var th', i := th[t := l'], Index(pos, n);
    assert LocalOk(m, t, l);
    HeadSlotFull(m, th);
    assert SlotOk(m, th, i);
    forall j | 0 <= j < n
      ensures SlotOk(m', th', j)
    {
      if j != i {
        assert SlotOk(m, th, j);
        OtherSlot(m, m', th, t, l', j);
      }
    }
    forall p | m'.head <= p < m'.tail
      ensures Queued(m', p)
    {
      assert Queued(m, p);
      IndexApart(pos, p, n);
    }
    forall p | 0 <= p < m'.head
      ensures Gone(m', p)
    {
      if p < pos {
        assert Gone(m, p);
      }
    }
  }

  /** The owner's slot after its access, and what the access leaves alone. */
  lemma OwnerSlot<T>(m: Memory<T>, th: map<nat, Thread<T>>, t: nat, c: Choice<T>)
    requires RingOk(m, th) && LocalsOk(m, th) && t in th && Owner(th[t])
    ensures var (m', l') := Access(m, t, th[t], c);
            var i := Index(th[t].pos, |m.slots|);
            && Shape(m') && |m'.slots| == |m.slots| && m'.base == m.base
            && m'.head == m.head && m'.tail == m.tail && m'.history == m.history
            && SlotOk(m', th[t := l'], i) && LocalOk(m', t, l')
            && (forall j :: 0 <= j < |m.slots| && j != i ==> m'.slots[j] == m.slots[j] && m'.uses[j] == m.uses[j])
  {
    assert LocalOk(m, t, th[t]);
    assert SlotOk(m, th, Index(th[t].pos, |m.slots|));
  }

  /** Queued positions stay queued and gone ones gone. */
  lemma OwnerPlaces<T>(m: Memory<T>, th: map<nat, Thread<T>>, t: nat, c: Choice<T>)
    requires RingOk(m, th) && LocalsOk(m, th) && t in th && Owner(th[t])
    requires Shape(Access(m, t, th[t], c).0)
    ensures var m' := Access(m, t, th[t], c).0;
            && (forall p :: m.head <= p < m.tail ==> Queued(m', p))
            && (forall p :: 0 <= p < m.head ==> Gone(m', p))
            && (forall p :: p in m'.taken ==> p < m.head && m'.taken[p] == m.history[p])
            && (forall p :: p in m.taken ==> p in m'.taken)
            && (forall p :: p in m'.taken ==> p in m.taken || p == th[t].pos)
  {
    var l, m' := th[t], Access(m, t, th[t], c).0;
    assert LocalOk(m, t, l);
    assert SlotOk(m, th, Index(l.pos, |m.slots|));
    forall p | m.head <= p < m.tail
      ensures Queued(m', p)
    {
      assert Queued(m, p);
    }
    forall p | 0 <= p < m.head
      ensures Gone(m', p)
    {
      assert Gone(m, p);
    }
  }

  /** The owner of a slot constructs, publishes, takes or vacates it. */
  lemma OwnerActs<T>(m: Memory<T>, th: map<nat, Thread<T>>, t: nat, c: Choice<T>)
    requires RingOk(m, th) && LocalsOk(m, th) && t in th && Owner(th[t])
    ensures var (m', l') := Access(m, t, th[t], c);
            RingOk(m', th[t := l']) && LocalOk(m', t, l')
  {
    var l, n := th[t], |m.slots|;
    var (m', l') := Access(m, t, l, c);
    var th', i := th[t := l'], Index(l.pos, n);
    OwnerSlot(m, th, t, c);
    OwnerPlaces(m, th, t, c);
    assert LocalOk(m, t, l);
    forall j | 0 <= j < n
      ensures SlotOk(m', th', j)
    {
      if j != i {
        assert SlotOk(m, th, j);
        OtherSlot(m, m', th, t, l', j);
      }
    }
  }

  // ---- The locals of the other threads ----

  /** What a change of the ring by thread t does to what other threads look at. */
  predicate RingMoves<T(==)>(m: Memory<T>, m': Memory<T>, t: nat) {
    && Shape(m) && Shape(m') && |m'.slots| == |m.slots| && m'.base == m.base
    && m.head <= m'.head && m.tail <= m'.tail
    && (forall p :: p in m.taken ==> p in m'.taken && m'.taken[p] == m.taken[p])
    // a use changes only by its owner, or when it has none
    && (forall j :: 0 <= j < |m.slots| ==>
          || m'.uses[j] == m.uses[j]
          || ((m.uses[j].Claimed? || m.uses[j].Draining?) ==> m.uses[j].who == t))
    // a sequence only grows, and not where a claim could still succeed
    && (forall j :: 0 <= j < |m.slots| ==> m.slots[j].sequence <= m'.slots[j].sequence)
    && (SequenceAt(m, m.tail) == m.tail ==> SequenceAt(m', m.tail) == m.tail)
    && (SequenceAt(m, m.head) == m.head + 1 ==> SequenceAt(m', m.head) == m.head + 1)
    && (m.head < m'.head ==> m'.head == m.head + 1 && SequenceAt(m, m.head) == m.head + 1)
    && (m.tail < m'.tail ==> m'.tail == m.tail + 1 && SequenceAt(m, m.tail) == m.tail)
  }

  lemma LocalMoves<T>(m: Memory<T>, m': Memory<T>, t: nat, u: nat, l: Thread<T>)
    requires RingMoves(m, m', t) && u != t && LocalOk(m, u, l)
    ensures LocalOk(m', u, l)
  {
  }

  lemma ClaimMoves<T>(m: Memory<T>, th: map<nat, Thread<T>>, t: nat, c: Choice<T>)
    requires RingOk(m, th) && LocalsOk(m, th) && t in th && th[t].Cas?
    requires Shape(Access(m, t, th[t], c).0)
    ensures RingMoves(m, Access(m, t, th[t], c).0, t)
  {
    assert LocalOk(m, t, th[t]);
    assert SlotOk(m, th, Index(th[t].pos, |m.slots|));
    if SequenceAt(m, m.tail) == m.tail {
      TailSlotFree(m, th);
    }
    if SequenceAt(m, m.head) == m.head + 1 {
      HeadSlotFull(m, th);
    }
  }

  lemma PusherMoves<T>(m: Memory<T>, th: map<nat, Thread<T>>, t: nat, c: Choice<T>)
    requires RingOk(m, th) && LocalsOk(m, th) && t in th && (th[t].Construct? || th[t].Publish?)
    requires Shape(Access(m, t, th[t], c).0)
    ensures RingMoves(m, Access(m, t, th[t], c).0, t)
  {
    assert LocalOk(m, t, th[t]);
    assert SlotOk(m, th, Index(th[t].pos, |m.slots|));
    if SequenceAt(m, m.tail) == m.tail {
      TailSlotFree(m, th);
    }
    if SequenceAt(m, m.head) == m.head + 1 {
      HeadSlotFull(m, th);
    }
  }

  lemma PopperMoves<T>(m: Memory<T>, th: map<nat, Thread<T>>, t: nat, c: Choice<T>)
    requires RingOk(m, th) && LocalsOk(m, th) && t in th && (th[t].Take? || th[t].Vacate?)
    requires Shape(Access(m, t, th[t], c).0)
    ensures RingMoves(m, Access(m, t, th[t], c).0, t)
  {
    assert LocalOk(m, t, th[t]);
    assert SlotOk(m, th, Index(th[t].pos, |m.slots|));
    if SequenceAt(m, m.tail) == m.tail {
      TailSlotFree(m, th);
    }
    if SequenceAt(m, m.head) == m.head + 1 {
      HeadSlotFull(m, th);
    }
  }

  /** A change of the ring keeps the invariant of the ring and of every thread's locals. */
  lemma RingAccess<T>(m: Memory<T>, th: map<nat, Thread<T>>, t: nat, c: Choice<T>)
    requires RingOk(m, th) && LocalsOk(m, th) && t in th && (th[t].Cas? || Owner(th[t]))
    ensures var (m', l') := Access(m, t, th[t], c);
            RingOk(m', th[t := l']) && LocalsOk(m', th[t := l'])
  {
    var l := th[t];
    var (m', l') := Access(m, t, l, c);
    var th' := th[t := l'];
    assert LocalOk(m, t, l);
    if Owner(l) {
      OwnerActs(m, th, t, c);
    } else if l.op.Push? && m.tail == l.pos && !c.weak {
      CasPush(m, th, t, c);
    } else if l.op.Pop? && m.head == l.pos && !c.weak {
      CasPop(m, th, t, c);
    } else {
      QuietRing(m, m', th, t, l');
    }
    if l.Cas? {
      ClaimMoves(m, th, t, c);
    } else if l.Construct? || l.Publish? {
      PusherMoves(m, th, t, c);
    } else {
      PopperMoves(m, th, t, c);
    }
    forall u | u in th'
      ensures LocalOk(m', u, th'[u])
    {
      if u != t {
        assert LocalOk(m, u, th[u]);
        LocalMoves(m, m', t, u, th[u]);
      }
    }
  }
}
