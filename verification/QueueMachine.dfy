/**
 * The growing ring queue under concurrency: a state machine whose steps are
 * the atomic accesses of its threads, and the exclusive work between two of
 * them.  Positions are unbounded.
 */
module QueueMachine {
  import opened Bits
  import opened Ring

  datatype Status = Normal | Resizing

  /**
   * Who may touch a slot.  This is bookkeeping for the proofs: no step reads
   * it.  Claimed and Draining name the position and the thread that won it.
   */
  datatype Use = Free | Claimed(pos: nat, who: nat) | Full(pos: nat) | Draining(pos: nat, who: nat)

  /**
   * The shared memory.  `base` stands for the address of the slot array, and
   * `notified` for how often stat_.notify_all() has been called.  The last four
   * fields record the history: the value claimed for each position,
   * what was taken from each, the slots' uses, and whether a step has touched
   * freed memory, constructed over a live object, or read or destroyed one
   * that is not there.
   */
  datatype Memory<T> = Memory(
    slots: seq<Slot<T>>, base: nat, capacity: nat, stat: Status, head: nat, tail: nat, active: int, notified: nat,
    history: seq<T>, taken: map<nat, T>, uses: seq<Use>, fault: bool)
  {
    function Put(i: nat, sequence: nat, cell: Cell<T>, use: Use): Memory<T>
      requires i < |slots| && i < |uses|
    {
      this.(slots := slots[i := Slot(sequence, cell)], uses := uses[i := use])
    }

    function Mark(i: nat, use: Use): Memory<T>
      requires i < |uses|
    {
      this.(uses := uses[i := use])
    }

    function Fault(): Memory<T> {
      this.(fault := true)
    }
  }

  datatype Op<T> = Push(value: T) | Pop

  datatype Result<T> = Pushed | Got(pos: nat, value: T) | Empty

  /**
   * Where a thread is; each constructor names the access it makes next.
   * Locals: the operation, the capacity, position and slot array it loaded.  A
   * thread asleep in stat_.wait() remembers how many notifications it has seen.
   */
  datatype Thread<T> =
    | Idle
    | LoadStat(op: Op<T>)
    | WaitStat(op: Op<T>)
    | Asleep(op: Op<T>, seen: nat)
    | Enter(op: Op<T>)
    | CheckStat(op: Op<T>)
    | BackOff(op: Op<T>)
    | LoadCapa(op: Op<T>)
    | LoadPos(op: Op<T>, capa: nat)
    | LoadMap(op: Op<T>, capa: nat, pos: nat)
    | LoadSequence(op: Op<T>, capa: nat, pos: nat, base: nat)
    | Cas(op: Op<T>, capa: nat, pos: nat, base: nat)
    | Construct(value: T, capa: nat, pos: nat, base: nat)
    | Publish(capa: nat, pos: nat, base: nat)
    | Take(capa: nat, pos: nat, base: nat)
    | Vacate(capa: nat, pos: nat, base: nat, value: T)
    | Retry(op: Op<T>)
    | Overfull(value: T, capa: nat)
    | Leave(result: Result<T>)
    | Claim(value: T, newCapa: nat)
    | Await(value: T, newCapa: nat)
    | Migrate(value: T, newCapa: nat)
    | SetCapacity(value: T, newCapa: nat)
    | Reopen(value: T)
    | NotifyAll(value: T)

  datatype System<T> = System(mem: Memory<T>, threads: map<nat, Thread<T>>)

  /** What the model leaves open: the operation called, a weak CAS failing and a sleeper waking for no reason. */
  datatype Choice<T> = Choice(op: Op<T>, weak: bool)

  /** A pointer into the slot array can be followed. */
  predicate Live<T>(m: Memory<T>, capa: nat, pos: nat, base: nat) {
    base == m.base && capa > 0 && Index(pos, capa) < |m.slots| && |m.uses| == |m.slots|
  }

  // ---- Growth ----

  function MovedUses(h: nat, i: nat, capa: nat): (u: seq<Use>)
    requires capa > 0 && h <= i
    ensures |u| == capa
    decreases i
  {
    if i == h then seq(capa, _ => Free)
    else MovedUses(h, i - 1, capa)[Index(i - 1, capa) := Full(i - 1)]
  }

  ghost function Grown<T>(m: Memory<T>, newCapa: nat): Memory<T> {
    var capa := BitCeil(newCapa);
    if |m.slots| == 0 || m.tail < m.head then m.Fault()
    else m.(slots := Moved(m.slots, m.head, m.tail, capa),
            uses := MovedUses(m.head, m.tail, capa),
            base := m.base + 1,
            fault := m.fault || MoveFaults(m.slots, m.head, m.tail, capa))
  }

  // ---- Steps ----

  /** One access by thread t: what it leaves in memory, and where t goes next. */
  ghost function Access<T>(m: Memory<T>, t: nat, l: Thread<T>, c: Choice<T>): (Memory<T>, Thread<T>) {
    match l
    case Idle => (m, LoadStat(c.op))
    case LoadStat(op) =>
      (m, if m.stat.Resizing? then WaitStat(op) else Enter(op))
    case WaitStat(op) =>
      (m, if m.stat.Resizing? then Asleep(op, m.notified) else LoadStat(op))
    case Asleep(op, seen) =>
      (m, if m.notified > seen || c.weak then WaitStat(op) else l)
    case Enter(op) =>
      (m.(active := m.active + 1), CheckStat(op))
    case CheckStat(op) =>
      (m, if m.stat.Resizing? then BackOff(op) else LoadCapa(op))
    case BackOff(op) =>
      (m.(active := m.active - 1), LoadStat(op))
    case LoadCapa(op) =>
      (m, LoadPos(op, m.capacity))
    case LoadPos(op, capa) =>
      (m, LoadMap(op, capa, if op.Push? then m.tail else m.head))
    case LoadMap(op, capa, pos) =>
      (m, LoadSequence(op, capa, pos, m.base))
    case LoadSequence(op, capa, pos, base) =>
      if !Live(m, capa, pos, base) then (m.Fault(), Retry(op))
      else (m, Verdict(op, capa, pos, base, m.slots[Index(pos, capa)].sequence))
    case Cas(Push(v), capa, pos, base) =>
      if m.tail != pos || c.weak then (m, Retry(Push(v)))
      else if !Live(m, capa, pos, base) then (m.Fault(), Retry(Push(v)))
      else (m.(tail := pos + 1, history := m.history + [v]).Mark(Index(pos, capa), Claimed(pos, t)),
            Construct(v, capa, pos, base))
    case Cas(Pop, capa, pos, base) =>
      if m.head != pos || c.weak then (m, Retry(Pop))
      else if !Live(m, capa, pos, base) then (m.Fault(), Retry(Pop))
      else (m.(head := pos + 1).Mark(Index(pos, capa), Draining(pos, t)), Take(capa, pos, base))
    case Construct(v, capa, pos, base) =>
      if !Live(m, capa, pos, base) || m.slots[Index(pos, capa)].cell.Built? then (m.Fault(), Leave(Pushed))
      else
        var i := Index(pos, capa);
        (m.Put(i, m.slots[i].sequence, Built(v), m.uses[i]), Publish(capa, pos, base))
    case Publish(capa, pos, base) =>
      if !Live(m, capa, pos, base) then (m.Fault(), Leave(Pushed))
      else
        var i := Index(pos, capa);
        (m.Put(i, pos + 1, m.slots[i].cell, Full(pos)), Leave(Pushed))
    case Take(capa, pos, base) =>
      if !Live(m, capa, pos, base) || m.slots[Index(pos, capa)].cell.Raw? then (m.Fault(), Leave(Empty))
      else
        var i := Index(pos, capa);
        var v := m.slots[i].cell.value;
        (m.(taken := m.taken[pos := v]).Put(i, m.slots[i].sequence, Raw, m.uses[i]), Vacate(capa, pos, base, v))
    case Vacate(capa, pos, base, v) =>
      if !Live(m, capa, pos, base) then (m.Fault(), Leave(Empty))
      else
        var i := Index(pos, capa);
        (m.Put(i, pos + capa, m.slots[i].cell, Free), Leave(Got(pos, v)))
    case Retry(op) =>
      (m.(active := m.active - 1), LoadStat(op))
    case Overfull(v, capa) =>
      (m.(active := m.active - 1), Claim(v, 2 * capa))
    case Leave(_) =>
      (m.(active := m.active - 1), Idle)
    case Claim(v, newCapa) =>
      if m.stat.Resizing? then (m, LoadStat(Push(v)))
      else (m.(stat := Resizing), Await(v, newCapa))
    case Await(v, newCapa) =>
      (m, if m.active > 0 then l else Migrate(v, newCapa))
    case Migrate(v, newCapa) =>
      (Grown(m, newCapa), SetCapacity(v, newCapa))
    case SetCapacity(v, newCapa) =>
      (m.(capacity := BitCeil(newCapa)), Reopen(v))
    case Reopen(v) =>
      (m.(stat := Normal), NotifyAll(v))
    case NotifyAll(v) =>
      (m.(notified := m.notified + 1), LoadStat(Push(v)))
  }

  /** What the sequence of its slot tells a thread to do. */
  function Verdict<T>(op: Op<T>, capa: nat, pos: nat, base: nat, sequence: nat): Thread<T> {
    match op
    case Push(v) =>
      if sequence == pos then Cas(op, capa, pos, base)
      else if sequence < pos then Overfull(v, capa)
      else Retry(op)
    case Pop =>
      if sequence == pos + 1 then Cas(op, capa, pos, base)
      else if sequence < pos + 1 then Leave(Empty)
      else Retry(op)
  }

  ghost function Step<T>(s: System<T>, t: nat, c: Choice<T>): System<T>
    requires t in s.threads
  {
    var (m, l) := Access(s.mem, t, s.threads[t], c);
    System(m, s.threads[t := l])
  }

  /** A new queue of the given capacity, rounded up, with idle threads. */
  ghost predicate Init<T>(s: System<T>, initialCapa: nat) {
    var capa := BitCeil(initialCapa);
    && s.mem == Memory(FreshSlots(capa), 0, capa, Normal, 0, 0, 0, 0, [], map[], seq(capa, _ => Free), false)
    && forall t :: t in s.threads ==> s.threads[t].Idle?
  }

  /** A thread that is about to move the queue has asked for room for all of it. */
  predicate MoveFits<T>(s: System<T>, t: nat)
    requires t in s.threads
  {
    s.threads[t].Migrate? ==> s.mem.tail <= s.mem.head + BitCeil(s.threads[t].newCapa)
  }

  /** Any access of any thread. */
  ghost predicate Moves<T(!new)>(s: System<T>, s': System<T>) {
    exists t, c :: t in s.threads && s' == Step(s, t, c)
  }

  /** Any access, but no move into too small an array. */
  ghost predicate Next<T(!new)>(s: System<T>, s': System<T>) {
    exists t, c :: t in s.threads && MoveFits(s, t) && s' == Step(s, t, c)
  }

  ghost predicate MoveAt<T(!new)>(run: seq<System<T>>, i: nat)
    requires i + 1 < |run|
  {
    Moves(run[i], run[i + 1])
  }

  ghost predicate StepAt<T(!new)>(run: seq<System<T>>, i: nat)
    requires i + 1 < |run|
  {
    Next(run[i], run[i + 1])
  }

  /** A run of the code: any interleaving, with resize requests however stale. */
  ghost predicate FreeRun<T(!new)>(run: seq<System<T>>) {
    |run| > 0 && forall i: nat :: i + 1 < |run| ==> MoveAt(run, i)
  }

  /** A run in which every array the queue is moved into has room for it. */
  ghost predicate Run<T(!new)>(run: seq<System<T>>) {
    |run| > 0 && forall i: nat :: i + 1 < |run| ==> StepAt(run, i)
  }
}
