/** What every run of the concurrent queue keeps, for any threads and any interleaving. */
module QueueTheorems {
  import opened Bits
  import opened Ring
  import opened QueueMachine
  import opened QueueInvariant
  import opened QueueGrowth

  lemma {:induction false} RunKeeps<T(!new)>(run: seq<System<T>>, capa: nat, i: nat)
    requires Run(run) && Init(run[0], capa) && capa >= 2 && i < |run|
    ensures Inv(run[i])
  {
    if i == 0 {
      InitInv(run[0], capa);
    } else {
      RunKeeps(run, capa, i - 1);
      assert StepAt(run, i - 1);
      var t, c :| t in run[i - 1].threads && MoveFits(run[i - 1], t) && run[i] == Step(run[i - 1], t, c);
      StepKeeps(run[i - 1], t, c);
    }
  }

  /**
   * No reachable state has touched a freed slot array, constructed over a live
   * object, or read or destroyed one that is not there; and the ring is never
   * overfull.
   */
  lemma NeverFaults<T(!new)>(run: seq<System<T>>, capa: nat, i: nat)
    requires Run(run) && Init(run[0], capa) && capa >= 2 && i < |run|
    ensures var m := run[i].mem;
            !m.fault && m.head <= m.tail <= m.head + |m.slots|
  {
    RunKeeps(run, capa, i);
  }

  /** History is only ever extended, and what was taken stays taken. */
  predicate Extends<T(==)>(m: Memory<T>, m': Memory<T>) {
    && m.history <= m'.history
    && m.head <= m'.head
    && (forall p :: p in m.taken ==> p in m'.taken && m'.taken[p] == m.taken[p])
  }

  lemma StepExtends<T>(s: System<T>, t: nat, c: Choice<T>)
    requires Inv(s) && t in s.threads
    ensures Extends(s.mem, Step(s, t, c).mem)
  {
    var m, l := s.mem, s.threads[t];
    assert LocalOk(m, t, l);
    if Owner(l) {
      assert SlotOk(m, s.threads, Index(l.pos, |m.slots|));
    }
  }

  lemma NextExtends<T(!new)>(s: System<T>, s': System<T>)
    requires Inv(s) && Next(s, s')
    ensures Extends(s.mem, s'.mem)
  {
    var t, c :| t in s.threads && MoveFits(s, t) && s' == Step(s, t, c);
    StepExtends(s, t, c);
  }

  lemma StepOfRunExtends<T(!new)>(run: seq<System<T>>, capa: nat, i: nat)
    requires Run(run) && Init(run[0], capa) && capa >= 2 && i + 1 < |run|
    ensures Extends(run[i].mem, run[i + 1].mem)
  {
    RunKeeps(run, capa, i);
    assert StepAt(run, i);
    NextExtends(run[i], run[i + 1]);
  }

  lemma ExtendsTransitive<T>(a: Memory<T>, b: Memory<T>, c: Memory<T>)
    requires Extends(a, b) && Extends(b, c)
    ensures Extends(a, c)
  {
  }

  lemma {:induction false} RunExtends<T(!new)>(run: seq<System<T>>, capa: nat, i: nat, j: nat)
    requires Run(run) && Init(run[0], capa) && capa >= 2 && i <= j < |run|
    ensures Extends(run[i].mem, run[j].mem)
  {
    if i < j {
      RunExtends(run, capa, i, j - 1);
      StepOfRunExtends(run, capa, j - 1);
      ExtendsTransitive(run[i].mem, run[j - 1].mem, run[j].mem);
    }
  }

  /** The step that claims a position for a push writes its value into the history there. */
  lemma ClaimRecords<T>(s: System<T>, t: nat, c: Choice<T>)
    requires Inv(s) && t in s.threads && s.threads[t].Cas? && Step(s, t, c).threads[t].Construct?
    ensures s.threads[t].op.Push? && |Step(s, t, c).mem.history| == s.mem.tail + 1
    ensures Step(s, t, c).mem.history[s.mem.tail] == s.threads[t].op.value
  {
  }

  /** What a pop is about to return is what the history has at its position. */
  lemma ReturnsRecorded<T>(s: System<T>, u: nat)
    requires Inv(s) && u in s.threads && s.threads[u].Leave? && s.threads[u].result.Got?
    ensures s.threads[u].result.pos < |s.mem.history|
    ensures s.threads[u].result.value == s.mem.history[s.threads[u].result.pos]
  {
    assert LocalOk(s.mem, u, s.threads[u]);
  }

  /**
   * FIFO over every interleaving, growth included: the pop that claimed
   * position p returns the value of the push that claimed p.
   */
  lemma Fifo<T(!new)>(run: seq<System<T>>, capa: nat, i: nat, j: nat, t: nat, u: nat, c: Choice<T>)
    requires Run(run) && Init(run[0], capa) && capa >= 2 && i < j < |run|
    // the step from i claims a position for t's push
    requires t in run[i].threads && run[i + 1] == Step(run[i], t, c)
    requires run[i].threads[t].Cas? && run[i + 1].threads[t].Construct?
    // at j, u is about to return what it popped from the same position
    requires u in run[j].threads && run[j].threads[u].Leave? && run[j].threads[u].result.Got?
    requires run[j].threads[u].result.pos == run[i].mem.tail
    ensures run[i].threads[t].op.Push? && run[j].threads[u].result.value == run[i].threads[t].op.value
  {
    RunKeeps(run, capa, i);
    ClaimRecords(run[i], t, c);
    RunKeeps(run, capa, j);
    ReturnsRecorded(run[j], u);
    RunExtends(run, capa, i + 1, j);
  }

  /** Each position is taken at most once. */
  lemma TakenOnce<T(!new)>(run: seq<System<T>>, capa: nat, i: nat, j: nat, t: nat, u: nat, c: Choice<T>)
    requires Run(run) && Init(run[0], capa) && capa >= 2 && i < j < |run|
    requires t in run[i].threads && run[i + 1] == Step(run[i], t, c)
    requires run[i].threads[t].Take? && run[i + 1].threads[t].Vacate?
    requires u in run[j].threads && run[j].threads[u].Take?
    ensures run[i].threads[t].pos != run[j].threads[u].pos
  {
    RunKeeps(run, capa, i);
    RunKeeps(run, capa, j);
    RunExtends(run, capa, i + 1, j);
    var m, l := run[j].mem, run[j].threads[u];
    assert LocalOk(m, u, l);
    assert SlotOk(m, run[j].threads, Index(l.pos, |m.slots|));
    assert LocalOk(run[i].mem, t, run[i].threads[t]);
    assert run[i].threads[t].pos in run[i + 1].mem.taken;
  }

  // ---- Growth ----

  /**
   * The resizer past its wait is alone, and finds every queued position
   * published.  If the new array has room for them, bigger than the old one or
   * not, it then holds exactly the queued objects at their places; if it has
   * not, one object is constructed over another.
   */
  lemma GrowthKeepsTheQueue<T(!new)>(run: seq<System<T>>, capa: nat, i: nat, t: nat, c: Choice<T>)
    requires Run(run) && Init(run[0], capa) && capa >= 2 && i < |run|
    requires t in run[i].threads && run[i].threads[t].Migrate?
    ensures forall u :: u in run[i].threads ==> !Inside(run[i].threads[u])
    ensures var m := run[i].mem;
            Shape(m) && forall p :: m.head <= p < m.tail ==>
              m.slots[Index(p, |m.slots|)] == Slot(p + 1, Built(m.history[p]))
    ensures var m, m', room := run[i].mem, Step(run[i], t, c).mem, BitCeil(run[i].threads[t].newCapa);
            if m.tail - m.head > room then m'.fault
            else
              && Shape(m') && |m'.slots| == room && m'.head == m.head && m'.tail == m.tail && m'.history == m.history
              && (forall p :: m.head <= p < m.tail ==> m'.slots[Index(p, room)] == Slot(p + 1, Built(m.history[p])))
              && (forall j :: 0 <= j < room && (forall p :: m.head <= p < m.tail ==> Index(p, room) != j)
                    ==> m'.slots[j] == Slot(j, Raw))
  {
    var s := run[i];
    var m, m', room := s.mem, Step(s, t, c).mem, BitCeil(s.threads[t].newCapa);
    RunKeeps(run, capa, i);
    AloneMeansSettled(s, t);
    forall p | m.head <= p < m.tail
      ensures m.slots[Index(p, |m.slots|)] == Slot(p + 1, Built(m.history[p]))
    {
      assert UseAt(m, p) == Full(p);
      assert SlotOk(m, s.threads, Index(p, |m.slots|));
    }
    if m.tail - m.head > room {
      MoveFaultsIff(s, t, c);
    } else {
      GrownShape(s, t);
      forall p | m.head <= p < m.tail
        ensures m'.slots[Index(p, room)] == Slot(p + 1, Built(m.history[p]))
      {
        MovedAt(m.slots, m.head, m.tail, room, p);
      }
      forall j | 0 <= j < room && (forall p :: m.head <= p < m.tail ==> Index(p, room) != j)
        ensures m'.slots[j] == Slot(j, Raw)
      {
        MovedElsewhere(m.slots, m.head, m.tail, room, j);
      }
    }
  }

  // ---- Quiescence ----

  /**
   * When every thread is idle, exactly the positions before head have been
   * taken, and the objects in the ring are exactly those at [head, tail): what
   * was pushed is what was popped and what remains, and destroying positions
   * head..tail destroys every object once.
   */
  lemma QuiescentAccounting<T(!new)>(run: seq<System<T>>, capa: nat, i: nat)
    requires Run(run) && Init(run[0], capa) && capa >= 2 && i < |run|
    requires forall t :: t in run[i].threads ==> run[i].threads[t].Idle?
    ensures var m := run[i].mem;
            && Shape(m)
            && (forall p :: p in m.taken <==> 0 <= p < m.head)
            && (forall p :: p in m.taken ==> m.taken[p] == m.history[p])
            && (forall p :: m.head <= p < m.tail ==> m.slots[Index(p, |m.slots|)].cell == Built(m.history[p]))
            && (forall j :: 0 <= j < |m.slots| && m.slots[j].cell.Built?
                  ==> exists p :: m.head <= p < m.tail && Index(p, |m.slots|) == j)
  {
    var s, m := run[i], run[i].mem;
    RunKeeps(run, capa, i);
    forall j | 0 <= j < |m.slots|
      ensures m.uses[j].Free? || m.uses[j].Full?
    {
      assert SlotOk(m, s.threads, j);
    }
    forall p | 0 <= p < m.head
      ensures p in m.taken
    {
      assert Gone(m, p);
    }
    forall p | m.head <= p < m.tail
      ensures m.slots[Index(p, |m.slots|)].cell == Built(m.history[p])
    {
      assert Queued(m, p);
      assert SlotOk(m, s.threads, Index(p, |m.slots|));
    }
    forall j | 0 <= j < |m.slots| && m.slots[j].cell.Built?
      ensures exists p :: m.head <= p < m.tail && Index(p, |m.slots|) == j
    {
      assert SlotOk(m, s.threads, j);
      assert Index(m.uses[j].pos, |m.slots|) == j;
    }
  }

  // ---- The answers of a pop and a push ----

  /** The position is claimed, and its producer has not published yet. */
  ghost predicate MidWrite<T>(s: System<T>, pos: nat) {
    exists w :: w in s.threads && (s.threads[w].Construct? || s.threads[w].Publish?) && s.threads[w].pos == pos
  }


  /** Different positions with one place are at least a round apart. */
  lemma SamePlace(p: nat, q: nat, n: nat)
    requires n > 0 && Index(p, n) == Index(q, n) && p <= q
    ensures p == q || p + n <= q
  {
    if q < p + n {
      IndexInjective(p, q, n);
    }
  }

  /** The sequence at the head says exactly whether its object is there to be taken. */
  lemma HeadSequence<T>(s: System<T>)
    requires Inv(s)
    ensures var m := s.mem;
      && (SequenceAt(m, m.head) == m.head + 1 <==> m.head < m.tail && !MidWrite(s, m.head))
      && SequenceAt(m, m.head) <= m.head + 1
      && (SequenceAt(m, m.head) == m.head + 1 ==>
            m.slots[Index(m.head, |m.slots|)].cell == Built(m.history[m.head]))
  {
    var m, n := s.mem, |s.mem.slots|;
    var i := Index(m.head, n);
    IndexNext(m.head, n);
    assert SlotOk(m, s.threads, i);
    if m.uses[i].Free? && m.head < m.slots[i].sequence {
      SamePlace(m.head, m.slots[i].sequence, n);
    }
    if m.head < m.tail {
      assert Queued(m, m.head);
      if MidWrite(s, m.head) {
        var w :| w in s.threads && (s.threads[w].Construct? || s.threads[w].Publish?) && s.threads[w].pos == m.head;
        assert LocalOk(m, w, s.threads[w]);
      }
    }
  }

  /** The sequence at the tail invites a push, or the ring is too small for the position. */
  lemma TailSequence<T>(s: System<T>)
    requires Inv(s)
    ensures var m := s.mem;
      || (SequenceAt(m, m.tail) == m.tail && m.slots[Index(m.tail, |m.slots|)].cell.Raw?)
      || (SequenceAt(m, m.tail) < m.tail && |m.slots| <= m.tail)
  {
    var m, n := s.mem, |s.mem.slots|;
    var q := SequenceAt(m, m.tail);
    assert SlotOk(m, s.threads, Index(m.tail, n));
    match UseAt(m, m.tail) {
      case Free => SamePlace(if q < m.tail then q else m.tail, if q < m.tail then m.tail else q, n);
      case Claimed(p, _) => SamePlace(p, m.tail, n);
      case Full(p) => SamePlace(p, m.tail, n);
      case Draining(p, _) => SamePlace(p, m.tail, n);
    }
  }

  /**
   * A pop that returns nothing is right to: when it read the sequence, its
   * position was the head, and that position was unclaimed or its producer had
   * not yet published.
   */
  lemma EmptyIsJustified<T(!new)>(run: seq<System<T>>, capa: nat, i: nat, t: nat, c: Choice<T>)
    requires Run(run) && Init(run[0], capa) && capa >= 2 && i < |run|
    requires t in run[i].threads && run[i].threads[t].LoadSequence?
    requires Step(run[i], t, c).threads[t] == Leave(Empty)
    ensures var m, l := run[i].mem, run[i].threads[t];
            && l.pos == m.head
            && (|| m.head == m.tail
                || exists w :: w in run[i].threads && (run[i].threads[w].Construct? || run[i].threads[w].Publish?)
                               && run[i].threads[w].pos == m.head)
  {
    var s, m, l := run[i], run[i].mem, run[i].threads[t];
    RunKeeps(run, capa, i);
    assert LocalOk(m, t, l);
    if m.head < m.tail {
      assert Queued(m, m.head);
      assert SlotOk(m, s.threads, Index(m.head, |m.slots|));
      var w := UseAt(m, m.head).who;
      assert s.threads[w].pos == m.head;
    }
  }

  /**
   * A push asks for growth only when its position is still the tail and the
   * tail's slot is not open in a ring that has wrapped; and it tries again only
   * when another push has claimed its position, a pop only when another pop
   * has.
   */
  lemma GrowsOnlyWhenWrapped<T(!new)>(run: seq<System<T>>, capa: nat, i: nat, t: nat, c: Choice<T>)
    requires Run(run) && Init(run[0], capa) && capa >= 2 && i < |run|
    requires t in run[i].threads && run[i].threads[t].LoadSequence?
    ensures var m, l, l' := run[i].mem, run[i].threads[t], Step(run[i], t, c).threads[t];
      && Shape(m)
      && (l'.Overfull? ==> l.pos == m.tail && l'.capa == |m.slots| <= m.tail && SequenceAt(m, m.tail) < m.tail)
      && (l'.Retry? ==> l.pos < if l.op.Push? then m.tail else m.head)
  {
    var s, m, l := run[i], run[i].mem, run[i].threads[t];
    RunKeeps(run, capa, i);
    assert LocalOk(m, t, l);
    TailSequence(s);
    HeadSequence(s);
  }
}
