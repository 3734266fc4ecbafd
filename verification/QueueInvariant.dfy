/**
 * The invariant of the concurrent queue: what each slot holds and who may
 * touch it, what each thread's locals say, and when the resizer is alone.
 */
module QueueInvariant {
  import opened Bits
  import opened Counting
  import opened Ring
  import opened QueueMachine

  // ---- Thread roles ----

  /** Counted in active_threads_. */
  predicate Entered<T>(l: Thread<T>) {
    l.CheckStat? || l.BackOff? || Inside(l)
  }

  /** Between the second check of stat_ and the decrement of active_threads_. */
  predicate Inside<T>(l: Thread<T>) {
    || l.LoadCapa? || l.LoadPos? || l.LoadMap? || l.LoadSequence? || l.Cas? || l.Construct? || l.Publish?
    || l.Take? || l.Vacate? || l.Retry? || l.Overfull? || l.Leave?
  }

  /** Has won the resize and not yet reopened. */
  predicate Resizer<T>(l: Thread<T>) {
    l.Await? || Alone(l)
  }

  /** Has won the resize and seen active_threads_ == 0. */
  predicate Alone<T>(l: Thread<T>) {
    l.Migrate? || l.SetCapacity? || l.Reopen?
  }

  /** Owns a slot. */
  predicate Owner<T>(l: Thread<T>) {
    l.Construct? || l.Publish? || l.Take? || l.Vacate?
  }

  function EnteredThreads<T>(): Thread<T> -> bool { (l: Thread<T>) => Entered(l) }
  function Resizers<T>(): Thread<T> -> bool { (l: Thread<T>) => Resizer(l) }

  // ---- The ring ----

  predicate Shape<T>(m: Memory<T>) {
    && !m.fault
    && |m.slots| == |m.uses| >= 2
    && m.head <= m.tail == |m.history|
    && m.tail <= m.head + |m.slots|
  }

  /** A slot's sequence, contents and use agree with the history and with its owner. */
  predicate SlotOk<T(==)>(m: Memory<T>, th: map<nat, Thread<T>>, j: nat)
    requires Shape(m) && j < |m.slots|
  {
    var s, n := m.slots[j], |m.slots|;
    match m.uses[j]
    case Free => s.cell.Raw? && Index(s.sequence, n) == j && s.sequence < m.tail + n
    case Claimed(p, w) =>
      && m.head <= p < m.tail && Index(p, n) == j && s.sequence == p && w in th
      && (|| (th[w] == Construct(m.history[p], n, p, m.base) && s.cell.Raw?)
          || (th[w] == Publish(n, p, m.base) && s.cell == Built(m.history[p])))
    case Full(p) =>
      m.head <= p < m.tail && Index(p, n) == j && s.sequence == p + 1 && s.cell == Built(m.history[p])
    case Draining(p, w) =>
      && p < m.head && m.tail <= p + n && Index(p, n) == j && s.sequence == p + 1 && w in th
      && (|| (th[w] == Take(n, p, m.base) && s.cell == Built(m.history[p]) && p !in m.taken)
          || (th[w] == Vacate(n, p, m.base, m.history[p]) && s.cell.Raw? && p in m.taken))
  }

  predicate Queued<T>(m: Memory<T>, p: nat)
    requires Shape(m)
  {
    var u := m.uses[Index(p, |m.slots|)];
    (u.Claimed? || u.Full?) && u.pos == p
  }

  predicate Gone<T>(m: Memory<T>, p: nat)
    requires Shape(m)
  {
    var u := m.uses[Index(p, |m.slots|)];
    p in m.taken || (u.Draining? && u.pos == p)
  }

  predicate RingOk<T(==)>(m: Memory<T>, th: map<nat, Thread<T>>) {
    && Shape(m)
    && (forall j :: 0 <= j < |m.slots| ==> SlotOk(m, th, j))
    && (forall p :: m.head <= p < m.tail ==> Queued(m, p))
    && (forall p :: 0 <= p < m.head ==> Gone(m, p))
    && (forall p :: p in m.taken ==> p < m.head && m.taken[p] == m.history[p])
  }

  // ---- Locals ----

  function SequenceAt<T>(m: Memory<T>, p: nat): nat
    requires Shape(m)
  {
    m.slots[Index(p, |m.slots|)].sequence
  }

  function UseAt<T>(m: Memory<T>, p: nat): Use
    requires Shape(m)
  {
    m.uses[Index(p, |m.slots|)]
  }

  /** A loaded position is not ahead of its counter, and a thread that fell behind can tell. */
  predicate PosOk<T>(m: Memory<T>, op: Op<T>, pos: nat)
    requires Shape(m)
  {
    if op.Push? then pos <= m.tail && (pos < m.tail ==> SequenceAt(m, pos) >= pos)
    else pos <= m.head && (pos < m.head ==> SequenceAt(m, pos) >= pos + 1)
  }

  ghost predicate LocalOk<T>(m: Memory<T>, t: nat, l: Thread<T>)
    requires Shape(m)
  {
    var n := |m.slots|;
    match l
    case LoadPos(_, capa) => capa == n
    case LoadMap(op, capa, pos) => capa == n && PosOk(m, op, pos)
    case LoadSequence(op, capa, pos, base) => capa == n && base == m.base && PosOk(m, op, pos)
    case Cas(Push(_), capa, pos, base) =>
      capa == n && base == m.base && pos <= m.tail && (pos == m.tail ==> SequenceAt(m, pos) == pos)
    case Cas(Pop, capa, pos, base) =>
      capa == n && base == m.base && pos <= m.head && (pos == m.head ==> SequenceAt(m, pos) == pos + 1)
    case Construct(_, capa, pos, base) => capa == n && base == m.base && UseAt(m, pos) == Claimed(pos, t)
    case Publish(capa, pos, base) => capa == n && base == m.base && UseAt(m, pos) == Claimed(pos, t)
    case Take(capa, pos, base) => capa == n && base == m.base && UseAt(m, pos) == Draining(pos, t)
    case Vacate(capa, pos, base, _) => capa == n && base == m.base && UseAt(m, pos) == Draining(pos, t)
    case Leave(Got(pos, value)) => pos in m.taken && m.taken[pos] == value
    case Overfull(_, capa) => capa == n
    case Claim(_, capa) => IsPow2(capa) && capa >= 2
    case Await(_, capa) => IsPow2(capa) && capa >= 2
    case Migrate(_, capa) => IsPow2(capa) && capa >= 2
    case SetCapacity(_, capa) => IsPow2(capa) && capa == n
    case _ => true
  }

  ghost predicate LocalsOk<T>(m: Memory<T>, th: map<nat, Thread<T>>) {
    Shape(m) && forall t :: t in th ==> LocalOk(m, t, th[t])
  }

  // ---- The gate ----

  predicate SetsCapacity<T>(th: map<nat, Thread<T>>) {
    exists t :: t in th && th[t].SetCapacity?
  }

  ghost predicate GateOk<T>(m: Memory<T>, th: map<nat, Thread<T>>) {
    && m.active == Count(th, EnteredThreads())
    && One(m.stat.Resizing?) == Count(th, Resizers())
    && (forall t, u :: t in th && u in th && Alone(th[t]) ==> !Inside(th[u]))
    && IsPow2(|m.slots|)
    && (m.capacity == |m.slots| || SetsCapacity(th))
  }

  ghost predicate Inv<T>(s: System<T>) {
    RingOk(s.mem, s.threads) && LocalsOk(s.mem, s.threads) && GateOk(s.mem, s.threads)
  }

  lemma InitInv<T>(s: System<T>, capa: nat)
    requires Init(s, capa) && capa >= 2
    ensures Inv(s)
  {
    BitCeilSpec(capa);
    assert Where(s.threads, EnteredThreads<T>()) == {};
    assert Where(s.threads, Resizers<T>()) == {};
  }
}
