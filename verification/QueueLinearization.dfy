/**
 * The ring as a queue: every run is explained by its successful CAS accesses,
 * replayed one after another on an empty sequence.
 */
module QueueLinearization {
  import opened Ring
  import opened QueueMachine
  import opened QueueInvariant
  import opened QueueSteps
  import opened QueueTheorems

  /** What an access does to the queue. */
  datatype Event<T> = Enqueue(value: T) | Dequeue(value: T) | Nothing

  function Contents<T>(m: Memory<T>): seq<T>
    requires m.head <= m.tail <= |m.history|
  {
    m.history[m.head..m.tail]
  }

  /** A successful tail CAS enqueues its value; a successful head CAS dequeues what was pushed at the head. */
  ghost function Effect<T>(s: System<T>, t: nat, c: Choice<T>): Event<T>
    requires t in s.threads
  {
    var l, l' := s.threads[t], Step(s, t, c).threads[t];
    if l.Cas? && l.op.Push? && l'.Construct? then Enqueue(l.op.value)
    else if l.Cas? && l'.Take? && s.mem.head < |s.mem.history| then Dequeue(s.mem.history[s.mem.head])
    else Nothing
  }

  /** The sequential queue: a dequeue must give the oldest value. */
  function Apply<T(==)>(q: Option<seq<T>>, e: Event<T>): Option<seq<T>> {
    match q
    case None => None
    case Some(s) =>
      match e
      case Enqueue(v) => Some(s + [v])
      case Dequeue(v) => if s != [] && s[0] == v then Some(s[1..]) else None
      case Nothing => q
  }

  function Replay<T(==)>(es: seq<Event<T>>): Option<seq<T>> {
    if es == [] then Some([]) else Apply(Replay(es[..|es| - 1]), es[|es| - 1])
  }

  // ---- One access ----

  /** Every access but a successful CAS leaves head, tail and history alone. */
  lemma OthersKeepQueue<T>(m: Memory<T>, t: nat, l: Thread<T>, c: Choice<T>)
    requires m.head <= m.tail
    ensures var (m', l') := Access(m, t, l, c);
      || (l.Cas? && (l'.Construct? || l'.Take?))
      || (m'.head == m.head && m'.tail == m.tail && m'.history == m.history)
  {
  }

  lemma ClaimsAppend<T>(s: System<T>, t: nat, c: Choice<T>)
    requires Inv(s) && t in s.threads && s.threads[t].Cas? && s.threads[t].op.Push? &&
      Step(s, t, c).threads[t].Construct?
    ensures var m, m' := s.mem, Step(s, t, c).mem;
      m'.head == m.head && m'.tail == m.tail + 1 && m'.history == m.history + [s.threads[t].op.value]
  {
  }

  lemma ClaimsRemove<T>(s: System<T>, t: nat, c: Choice<T>)
    requires Inv(s) && t in s.threads && s.threads[t].Cas? && s.threads[t].op.Pop? && Step(s, t, c).threads[t].Take?
    ensures var m, m' := s.mem, Step(s, t, c).mem;
      m.head < m.tail && m'.head == m.head + 1 && m'.tail == m.tail && m'.history == m.history
  {
    assert LocalOk(s.mem, t, s.threads[t]);
    HeadSlotFull(s.mem, s.threads);
  }

  /** The access does to the contents what its event does to the sequential queue. */
  lemma AccessRefinesQueue<T>(s: System<T>, t: nat, c: Choice<T>)
    requires Inv(s) && t in s.threads && Inv(Step(s, t, c))
    ensures Apply(Some(Contents(s.mem)), Effect(s, t, c)) == Some(Contents(Step(s, t, c).mem))
  {
    var m, l := s.mem, s.threads[t];
    var (m', l') := Access(m, t, l, c);
    if l.Cas? && l'.Construct? {
      ClaimsAppend(s, t, c);
      assert m'.history[m.head..m.tail + 1] == m.history[m.head..m.tail] + [l.op.value];
    } else if l.Cas? && l'.Take? {
      ClaimsRemove(s, t, c);
      assert Contents(m)[0] == m.history[m.head] && Contents(m)[1..] == m.history[m.head + 1..m.tail];
    } else {
      OthersKeepQueue(m, t, l, c);
    }
  }

  // ---- Runs ----

  /** Who made each access of a run, and with what choice. */
  ghost predicate Schedule<T(!new)>(run: seq<System<T>>, moves: seq<(nat, Choice<T>)>) {
    && |moves| + 1 == |run|
    && forall i :: 0 <= i < |moves| ==> ScheduledAt(run, moves, i)
  }

  ghost predicate ScheduledAt<T(!new)>(run: seq<System<T>>, moves: seq<(nat, Choice<T>)>, i: nat)
    requires i < |moves| && |moves| + 1 == |run|
  {
    moves[i].0 in run[i].threads && run[i + 1] == Step(run[i], moves[i].0, moves[i].1)
  }

  /** The events of the first j accesses. */
  ghost function Events<T(!new)>(run: seq<System<T>>, moves: seq<(nat, Choice<T>)>, j: nat): (es: seq<Event<T>>)
    requires Schedule(run, moves) && j < |run|
    ensures |es| == j
  {
    if j == 0 then []
    else
      assert ScheduledAt(run, moves, j - 1);
      Events(run, moves, j - 1) + [Effect(run[j - 1], moves[j - 1].0, moves[j - 1].1)]
  }

  /**
   * In every run, growth included, an access appends its value, removes the
   * oldest one or leaves the queue alone, as its event says.
   */
  lemma StepOfRunRefines<T(!new)>(run: seq<System<T>>, capa: nat, i: nat, t: nat, c: Choice<T>)
    requires Run(run) && Init(run[0], capa) && capa >= 2 && i + 1 < |run|
    requires t in run[i].threads && run[i + 1] == Step(run[i], t, c)
    ensures var m, m' := run[i].mem, run[i + 1].mem;
      && m.head <= m.tail == |m.history| && m'.head <= m'.tail == |m'.history|
      && match Effect(run[i], t, c)
         case Enqueue(v) => Contents(m') == Contents(m) + [v] && run[i].threads[t].op == Push(v)
         case Dequeue(v) => Contents(m) == [v] + Contents(m')
         case Nothing => Contents(m') == Contents(m)
  {
    RunKeeps(run, capa, i);
    RunKeeps(run, capa, i + 1);
    AccessRefinesQueue(run[i], t, c);
  }

  /** At every point of a run the contents are what the successful CAS accesses so far make of the empty queue. */
  lemma {:induction false} ContentsAreReplayed<T(!new)>(run: seq<System<T>>, moves: seq<(nat, Choice<T>)>, capa: nat,
                                                        j: nat)
    requires Run(run) && Init(run[0], capa) && capa >= 2 && Schedule(run, moves) && j < |run|
    ensures run[j].mem.head <= run[j].mem.tail == |run[j].mem.history|
    ensures Replay(Events(run, moves, j)) == Some(Contents(run[j].mem))
  {
    RunKeeps(run, capa, j);
    if j > 0 {
      var t, c := moves[j - 1].0, moves[j - 1].1;
      assert ScheduledAt(run, moves, j - 1);
      ContentsAreReplayed(run, moves, capa, j - 1);
      RunKeeps(run, capa, j - 1);
      AccessRefinesQueue(run[j - 1], t, c);
      var es := Events(run, moves, j);
      assert es[..j - 1] == Events(run, moves, j - 1);
    }
  }

  // ---- Each call has its event ----

  /** A pop that has won its position and not yet returned. */
  predicate Popping<T>(l: Thread<T>) {
    l.Take? || l.Vacate? || (l.Leave? && l.result.Got?)
  }

  function PosOf<T>(l: Thread<T>): nat
    requires Popping(l)
  {
    if l.Leave? then l.result.pos else l.pos
  }

  /** A push that has won its position and not yet returned. */
  predicate Pushing<T>(l: Thread<T>) {
    l.Construct? || l.Publish? || (l.Leave? && l.result.Pushed?)
  }

  /** How a thread gets into that part of a call, and that it keeps its position there. */
  lemma AccessEnters<T>(m: Memory<T>, t: nat, l: Thread<T>, c: Choice<T>)
    ensures var l' := Access(m, t, l, c).1;
      && (Popping(l') && !Popping(l) ==> l.Cas? && l.op.Pop? && l'.Take? && PosOf(l') == m.head)
      && (Popping(l') && Popping(l) ==> PosOf(l') == PosOf(l))
      && (Pushing(l') && !Pushing(l) ==> l.Cas? && l.op.Push? && l'.Construct?)
  {
  }

  /** One access back: the thread was in that part already, or this access is the event of its call. */
  lemma StepPoint<T(!new)>(run: seq<System<T>>, moves: seq<(nat, Choice<T>)>, capa: nat, k: nat, u: nat)
    requires Run(run) && Init(run[0], capa) && capa >= 2 && Schedule(run, moves) && k + 1 < |run|
    requires u in run[k + 1].threads && Popping(run[k + 1].threads[u])
    ensures u in run[k].threads && run[k].mem.head <= run[k].mem.tail == |run[k].mem.history|
    ensures var m, l, l' := run[k].mem, run[k].threads[u], run[k + 1].threads[u];
      if Popping(l) then PosOf(l) == PosOf(l')
      else
        && moves[k].0 == u && m.head < m.tail && PosOf(l') == m.head
        && Effect(run[k], u, moves[k].1) == Dequeue(m.history[m.head])
  {
    var t, c := moves[k].0, moves[k].1;
    assert ScheduledAt(run, moves, k);
    RunKeeps(run, capa, k);
    if t == u {
      AccessEnters(run[k].mem, t, run[k].threads[t], c);
      if !Popping(run[k].threads[u]) {
        ClaimsRemove(run[k], u, c);
      }
    }
  }

  lemma {:induction false} PopPoint<T(!new)>(run: seq<System<T>>, moves: seq<(nat, Choice<T>)>, capa: nat, j: nat,
                                             u: nat)
    returns (k: nat)
    requires Run(run) && Init(run[0], capa) && capa >= 2 && Schedule(run, moves) && j < |run|
    requires u in run[j].threads && Popping(run[j].threads[u])
    ensures k < j && moves[k].0 == u && u in run[k].threads
    ensures run[k].mem.head < run[k].mem.tail == |run[k].mem.history|
    ensures Effect(run[k], u, moves[k].1) == Dequeue(run[k].mem.history[run[k].mem.head])
    ensures PosOf(run[j].threads[u]) == run[k].mem.head
    ensures forall i :: k < i <= j ==> u in run[i].threads && Popping(run[i].threads[u])
  {
    assert j > 0;
    StepPoint(run, moves, capa, j - 1, u);
    k := j - 1;
    if Popping(run[k].threads[u]) {
      k := PopPoint(run, moves, capa, j - 1, u);
    }
  }

  /** A pop that returns a value dequeued that very value, by its own access, during its call. */
  lemma PopIsItsEvent<T(!new)>(run: seq<System<T>>, moves: seq<(nat, Choice<T>)>, capa: nat, j: nat, u: nat)
    returns (k: nat)
    requires Run(run) && Init(run[0], capa) && capa >= 2 && Schedule(run, moves) && j < |run|
    requires u in run[j].threads && run[j].threads[u].Leave? && run[j].threads[u].result.Got?
    ensures k < j && moves[k].0 == u && u in run[k].threads
    ensures Effect(run[k], u, moves[k].1) == Dequeue(run[j].threads[u].result.value)
    ensures forall i :: k < i <= j ==> u in run[i].threads && Popping(run[i].threads[u])
  {
    k := PopPoint(run, moves, capa, j, u);
    RunKeeps(run, capa, j);
    ReturnsRecorded(run[j], u);
    RunExtends(run, capa, k, j);
  }

  lemma StepPushPoint<T(!new)>(run: seq<System<T>>, moves: seq<(nat, Choice<T>)>, k: nat, u: nat)
    requires Schedule(run, moves) && k + 1 < |run|
    requires u in run[k + 1].threads && Pushing(run[k + 1].threads[u])
    ensures u in run[k].threads
    ensures var l := run[k].threads[u];
      Pushing(l) || (moves[k].0 == u && l.Cas? && l.op.Push? && Effect(run[k], u, moves[k].1) == Enqueue(l.op.value))
  {
    assert ScheduledAt(run, moves, k);
    if moves[k].0 == u {
      AccessEnters(run[k].mem, u, run[k].threads[u], moves[k].1);
    }
  }

  /** A push that returns enqueued its value, by its own access, during its call. */
  lemma {:induction false} PushIsItsEvent<T(!new)>(run: seq<System<T>>, moves: seq<(nat, Choice<T>)>, capa: nat,
                                                   j: nat, u: nat)
    returns (k: nat)
    requires Schedule(run, moves) && Init(run[0], capa) && j < |run|
    requires u in run[j].threads && Pushing(run[j].threads[u])
    ensures k < j && moves[k].0 == u && u in run[k].threads && run[k].threads[u].Cas? && run[k].threads[u].op.Push?
    ensures Effect(run[k], u, moves[k].1) == Enqueue(run[k].threads[u].op.value)
    ensures forall i :: k < i <= j ==> u in run[i].threads && Pushing(run[i].threads[u])
  {
    assert j > 0;
    StepPushPoint(run, moves, j - 1, u);
    k := j - 1;
    if Pushing(run[k].threads[u]) {
      k := PushIsItsEvent(run, moves, capa, j - 1, u);
    }
  }
}
