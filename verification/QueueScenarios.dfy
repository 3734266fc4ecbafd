/**
 * Runs made to measure: a thread that is left alone pushes onto a queue nobody
 * pops from, and one that is held up before its resize goes on later.
 */
module QueueScenarios {
  import opened Bits
  import opened Ring
  import opened QueueMachine

  // ---- Who pushes ----

  /** Inside push(), before the value is published. */
  predicate Producing<T>(l: Thread<T>) {
    match l
    case LoadStat(op) => op.Push?
    case WaitStat(op) => op.Push?
    case Asleep(op, _) => op.Push?
    case Enter(op) => op.Push?
    case CheckStat(op) => op.Push?
    case BackOff(op) => op.Push?
    case LoadCapa(op) => op.Push?
    case LoadPos(op, _) => op.Push?
    case LoadMap(op, _, _) => op.Push?
    case LoadSequence(op, _, _, _) => op.Push?
    case Cas(op, _, _, _) => op.Push?
    case Retry(op) => op.Push?
    case Idle => false
    case Take(_, _, _) => false
    case Vacate(_, _, _, _) => false
    case Leave(_) => false
    case _ => true
  }

  predicate OnlyProducers<T>(s: System<T>, producers: set<nat>) {
    forall u :: u in s.threads && u !in producers ==> !Producing(s.threads[u])
  }

  // ---- Reaching a state ----

  ghost predicate ReachesBy<T(!new)>(run: seq<System<T>>, s: System<T>, s': System<T>, producers: set<nat>) {
    && Run(run) && run[0] == s && run[|run| - 1] == s'
    && forall i :: 0 <= i < |run| ==> OnlyProducers(run[i], producers)
  }

  ghost predicate Reaches<T(!new)>(s: System<T>, s': System<T>, producers: set<nat>) {
    exists run: seq<System<T>> :: ReachesBy(run, s, s', producers)
  }

  lemma ReachesSelf<T(!new)>(s: System<T>, producers: set<nat>)
    requires OnlyProducers(s, producers)
    ensures Reaches(s, s, producers)
  {
    assert ReachesBy([s], s, s, producers);
  }

  /** A producer's access leads on, unless it moves the queue into too small an array. */
  lemma Go<T(!new)>(s: System<T>, at: System<T>, producers: set<nat>, t: nat, c: Choice<T>) returns (next: System<T>)
    requires Reaches(s, at, producers) && t in producers && t in at.threads && MoveFits(at, t)
    ensures next == Step(at, t, c) && Reaches(s, next, producers)
  {
    next := Step(at, t, c);
    var run: seq<System<T>> :| ReachesBy(run, s, at, producers);
    var run' := run + [next];
    forall i: nat | i + 1 < |run'|
      ensures StepAt(run', i)
    {
      if i + 1 < |run| {
        assert StepAt(run, i);
        assert run'[i] == run[i] && run'[i + 1] == run[i + 1];
      } else {
        assert run'[i] == at && run'[i + 1] == next;
      }
    }
    assert OnlyProducers(at, producers);
    assert ReachesBy(run', s, next, producers);
  }

  // ---- Pushing alone onto a queue nobody pops from ----

  /** A slot array with v at its first k places. */
  function FilledSlots<T>(n: nat, k: nat, v: T): (s: seq<Slot<T>>)
    ensures |s| == n
  {
    seq(n, (j: nat) => if j < k then Slot(j + 1, Built(v)) else Slot(j, Raw))
  }

  predicate Filled<T(==)>(m: Memory<T>, n: nat, k: nat, v: T) {
    && m.stat.Normal? && m.active == 0 && !m.fault
    && m.head == 0 && m.tail == k == |m.history| && k <= n
    && m.capacity == n == |m.uses| && m.slots == FilledSlots(n, k, v)
  }

  /** An open gate lets a lone call in. */
  lemma PassGate<T(!new)>(s: System<T>, at: System<T>, producers: set<nat>, t: nat, op: Op<T>) returns (next: System<T>)
    requires Reaches(s, at, producers) && t in producers && t in at.threads
    requires at.threads[t] == LoadStat(op) && at.mem.stat.Normal?
    ensures Reaches(s, next, producers) && next.mem == at.mem.(active := at.mem.active + 1)
    ensures next.threads == at.threads[t := LoadCapa(op)]
  {
    var c := Choice(op, false);
    next := Go(s, at, producers, t, c);
    next := Go(s, next, producers, t, c);
    next := Go(s, next, producers, t, c);
  }

  /** A lone call gets past the gate and to the sequence of the slot it is after. */
  lemma Arrive<T(!new)>(s: System<T>, at: System<T>, producers: set<nat>, t: nat, op: Op<T>) returns (next: System<T>)
    requires Reaches(s, at, producers) && t in producers && t in at.threads
    requires at.threads[t] == LoadStat(op) && at.mem.stat.Normal?
    ensures Reaches(s, next, producers) && next.mem == at.mem.(active := at.mem.active + 1)
    ensures var m := at.mem;
      next.threads == at.threads[t := LoadSequence(op, m.capacity, if op.Push? then m.tail else m.head, m.base)]
  {
    var c := Choice(op, false);
    next := PassGate(s, at, producers, t, op);
    next := Go(s, next, producers, t, c);
    next := Go(s, next, producers, t, c);
    next := Go(s, next, producers, t, c);
  }

  /** Where the sequence invites it, the push claims the tail and constructs there. */
  lemma Settle<T(!new)>(s: System<T>, at: System<T>, producers: set<nat>, t: nat, v: T, n: nat)
    returns (next: System<T>)
    requires Reaches(s, at, producers) && t in producers && t in at.threads
    requires at.mem.capacity == n == |at.mem.slots| == |at.mem.uses| > 0
    requires at.threads[t] == LoadSequence(Push(v), n, at.mem.tail, at.mem.base)
    requires at.mem.slots[Index(at.mem.tail, n)].sequence == at.mem.tail
    ensures Reaches(s, next, producers)
    ensures var m, i := at.mem, Index(at.mem.tail, n);
      if m.slots[i].cell.Built? then next.mem.fault
      else
        && next.threads == at.threads[t := Publish(n, m.tail, m.base)]
        && next.mem == m.(tail := m.tail + 1, history := m.history + [v], slots := m.slots[i := Slot(m.tail, Built(v))],
                          uses := m.uses[i := Claimed(m.tail, t)])
  {
    var c := Choice(Push(v), false);
    var m, i := at.mem, Index(at.mem.tail, n);
    next := Go(s, at, producers, t, c);
    assert next.mem == m && next.threads[t] == Cas(Push(v), n, m.tail, m.base);
    next := Go(s, next, producers, t, c);
    assert next.threads[t] == Construct(v, n, m.tail, m.base);
    next := Go(s, next, producers, t, c);
  }

  /** It publishes and returns. */
  lemma Finish<T(!new)>(s: System<T>, at: System<T>, producers: set<nat>, t: nat, v: T, n: nat, pos: nat)
    returns (next: System<T>)
    requires Reaches(s, at, producers) && t in producers && t in at.threads
    requires n == |at.mem.slots| == |at.mem.uses| > 0 && at.threads[t] == Publish(n, pos, at.mem.base)
    ensures Reaches(s, next, producers)
    ensures var m, i := at.mem, Index(pos, n);
      next.mem == m.(active := m.active - 1, slots := m.slots[i := Slot(pos + 1, m.slots[i].cell)],
                     uses := m.uses[i := Full(pos)])
    ensures next.threads == at.threads[t := Idle]
  {
    var c := Choice(Push(v), false);
    next := Go(s, at, producers, t, c);
    assert next.threads[t] == Leave(Pushed);
    next := Go(s, next, producers, t, c);
  }

  lemma FilledNext<T>(n: nat, k: nat, v: T)
    requires k < n
    ensures Index(k, n) == k && FilledSlots(n, k, v)[k] == Slot(k, Raw)
    ensures FilledSlots(n, k, v)[k := Slot(k + 1, Built(v))] == FilledSlots(n, k + 1, v)
  {
  }

  /** With room, a lone push from the start of its loop fills the next slot. */
  lemma PushFits<T(!new)>(s: System<T>, at: System<T>, producers: set<nat>, t: nat, v: T, n: nat, k: nat)
    returns (next: System<T>)
    requires Reaches(s, at, producers) && t in producers && t in at.threads
    requires at.threads[t] == LoadStat(Push(v)) && Filled(at.mem, n, k, v) && k < n
    ensures Reaches(s, next, producers) && Filled(next.mem, n, k + 1, v) && next.threads == at.threads[t := Idle]
  {
    FilledNext(n, k, v);
    next := Arrive(s, at, producers, t, Push(v));
    next := Settle(s, next, producers, t, v, n);
    var slots := next.mem.slots;
    assert slots == FilledSlots(n, k, v)[k := Slot(k, Built(v))];
    next := Finish(s, next, producers, t, v, n, k);
    assert next.mem.slots == FilledSlots(n, k, v)[k := Slot(k + 1, Built(v))];
  }

  /** On a full ring of at least two slots a push goes to ask for twice the room. */
  lemma PushOverfull<T(!new)>(s: System<T>, at: System<T>, producers: set<nat>, t: nat, v: T, n: nat)
    returns (next: System<T>)
    requires Reaches(s, at, producers) && t in producers && t in at.threads
    requires at.threads[t] == LoadStat(Push(v)) && Filled(at.mem, n, n, v) && n >= 2
    ensures Reaches(s, next, producers) && next.mem == at.mem && next.threads == at.threads[t := Claim(v, 2 * n)]
  {
    var c := Choice(Push(v), false);
    assert Index(n, n) == 0;
    next := Arrive(s, at, producers, t, Push(v));
    next := Go(s, next, producers, t, c);
    assert next.threads[t] == Overfull(v, n);
    next := Go(s, next, producers, t, c);
  }

  /** Moving a full ring into one of twice the size. */
  lemma FilledMoved<T>(n: nat, v: T)
    requires n >= 2
    ensures Moved(FilledSlots(n, n, v), 0, n, 2 * n) == FilledSlots(2 * n, n, v)
    ensures !MoveFaults(FilledSlots(n, n, v), 0, n, 2 * n)
  {
    var src := FilledSlots(n, n, v);
    var dst := Moved(src, 0, n, 2 * n);
    forall p | 0 <= p < n
      ensures Index(p, n) == p && src[p].cell.Built? && dst[p] == Slot(p + 1, Built(v))
    {
      MovedAt(src, 0, n, 2 * n, p);
    }
    forall j | n <= j < 2 * n
      ensures dst[j] == Slot(j, Raw)
    {
      MovedElsewhere(src, 0, n, 2 * n, j);
    }
    MoveIsSafe(src, 0, n, 2 * n);
  }

  /** A lone request of any size is granted: its thread wins the resize and sees nobody inside. */
  lemma WinResize<T(!new)>(s: System<T>, at: System<T>, producers: set<nat>, t: nat, v: T, newCapa: nat)
    returns (next: System<T>)
    requires Reaches(s, at, producers) && t in producers && t in at.threads
    requires at.threads[t] == Claim(v, newCapa) && at.mem.stat.Normal? && at.mem.active == 0
    ensures Reaches(s, next, producers) && next.mem == at.mem.(stat := Resizing)
    ensures next.threads == at.threads[t := Migrate(v, newCapa)]
  {
    var c := Choice(Push(v), false);
    next := Go(s, at, producers, t, c);
    next := Go(s, next, producers, t, c);
  }

  /** The resizer that has moved the queue publishes the capacity, reopens, notifies and tries its push again. */
  lemma Reopens<T(!new)>(s: System<T>, at: System<T>, producers: set<nat>, t: nat, v: T, newCapa: nat)
    returns (next: System<T>)
    requires Reaches(s, at, producers) && t in producers && t in at.threads && at.threads[t] == SetCapacity(v, newCapa)
    ensures Reaches(s, next, producers) && next.threads == at.threads[t := LoadStat(Push(v))]
    ensures next.mem == at.mem.(capacity := BitCeil(newCapa), stat := Normal, notified := at.mem.notified + 1)
  {
    var c := Choice(Push(v), false);
    next := Go(s, at, producers, t, c);
    next := Go(s, next, producers, t, c);
    next := Go(s, next, producers, t, c);
  }

  /** A lone resizer with twice the room moves the queue and goes back to the start of its loop. */
  lemma ResizeDoubles<T(!new)>(s: System<T>, at: System<T>, producers: set<nat>, t: nat, v: T, n: nat)
    returns (next: System<T>)
    requires Reaches(s, at, producers) && t in producers && t in at.threads
    requires at.threads[t] == Migrate(v, 2 * n) && Filled(at.mem.(stat := Normal), n, n, v) && n >= 2 && IsPow2(n)
    ensures Reaches(s, next, producers) && Filled(next.mem, 2 * n, n, v)
    ensures next.threads == at.threads[t := LoadStat(Push(v))]
  {
    DoublePow2(n);
    FilledMoved(n, v);
    next := Go(s, at, producers, t, Choice(Push(v), false));
    assert next.mem == Grown(at.mem, 2 * n);
    next := Reopens(s, next, producers, t, v, 2 * n);
  }

  /** A lone push on a full ring makes it twice as large before it tries again. */
  lemma GrowFirst<T(!new)>(s: System<T>, at: System<T>, producers: set<nat>, t: nat, v: T, n: nat)
    returns (next: System<T>)
    requires Reaches(s, at, producers) && t in producers && t in at.threads
    requires at.threads[t] == LoadStat(Push(v)) && Filled(at.mem, n, n, v) && n >= 2 && IsPow2(n)
    ensures Reaches(s, next, producers) && Filled(next.mem, 2 * n, n, v) && IsPow2(2 * n)
    ensures next.threads == at.threads
  {
    DoublePow2(n);
    next := PushOverfull(s, at, producers, t, v, n);
    next := WinResize(s, next, producers, t, v, 2 * n);
    next := ResizeDoubles(s, next, producers, t, v, n);
  }

  /** A whole lone push, with one growth if the ring is full. */
  lemma LonePush<T(!new)>(s: System<T>, at: System<T>, producers: set<nat>, t: nat, v: T, n: nat, k: nat)
    returns (next: System<T>, n': nat)
    requires Reaches(s, at, producers) && t in producers && t in at.threads && at.threads[t].Idle?
    requires Filled(at.mem, n, k, v) && n >= 2 && IsPow2(n)
    ensures Reaches(s, next, producers) && next.threads == at.threads
    ensures Filled(next.mem, n', k + 1, v) && n' >= n && IsPow2(n') && (k < n ==> n' == n)
  {
    n' := n;
    next := Go(s, at, producers, t, Choice(Push(v), false));
    if k == n {
      next := GrowFirst(s, next, producers, t, v, n);
      n' := 2 * n;
    }
    next := PushFits(s, next, producers, t, v, n', k);
  }

  /** As many lone pushes as it takes. */
  lemma {:induction false} FillTo<T(!new)>(s: System<T>, at: System<T>, producers: set<nat>, t: nat, v: T, n: nat,
                                           k: nat, goal: nat)
    returns (next: System<T>, n': nat)
    requires Reaches(s, at, producers) && t in producers && t in at.threads && at.threads[t].Idle?
    requires Filled(at.mem, n, k, v) && n >= 2 && IsPow2(n) && k <= goal
    ensures Reaches(s, next, producers) && next.threads == at.threads
    ensures Filled(next.mem, n', goal, v) && IsPow2(n') && (goal <= n ==> n' == n)
    decreases goal - k
  {
    next, n' := at, n;
    if k < goal {
      next, n' := LonePush(s, at, producers, t, v, n, k);
      next, n' := FillTo(s, next, producers, t, v, n', k + 1, goal);
    }
  }

  lemma InitFilled<T>(s: System<T>, capa: nat, v: T)
    requires Init(s, capa)
    ensures Filled(s.mem, BitCeil(capa), 0, v) && IsPow2(BitCeil(capa)) && capa <= BitCeil(capa)
  {
    BitCeilSpec(capa);
    assert FilledSlots(BitCeil(capa), 0, v) == FreshSlots(BitCeil(capa));
  }

  lemma FullPlaces<T>(n: nat, k: nat, v: T)
    requires 0 < k <= n
    ensures forall p :: 0 <= p < k ==> Index(p, n) == p && FilledSlots(n, k, v)[p].cell.Built?
  {
  }

  /** A move of more objects than the new array has slots goes wrong. */
  lemma TooManyFault<T>(at: System<T>, u: nat, c: Choice<T>, v: T, n: nat, k: nat, newCapa: nat)
    requires Filled(at.mem.(stat := Normal), n, k, v) && 0 < newCapa < k && BitCeil(newCapa) == newCapa
    requires u in at.threads && at.threads[u] == Migrate(v, newCapa)
    ensures Step(at, u, c).mem.fault && !MoveFits(at, u)
  {
    FullPlaces(n, k, v);
    MoveOverruns(at.mem.slots, 0, k, newCapa);
  }
}
