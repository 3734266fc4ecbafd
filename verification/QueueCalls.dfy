/**
 * Whole calls: what a push or a pop has done to the queue by the time it
 * returns, however often it lost a race, waited or grew the ring on the way.
 */
module QueueCalls {
  import opened QueueMachine
  import opened QueueInvariant
  import opened QueueTheorems
  import opened QueueLinearization

  /** Inside a call of op. */
  predicate Calls<T(==)>(l: Thread<T>, op: Op<T>) {
    match l
    case Idle => false
    case LoadStat(o) => o == op
    case WaitStat(o) => o == op
    case Asleep(o, _) => o == op
    case Enter(o) => o == op
    case CheckStat(o) => o == op
    case BackOff(o) => o == op
    case LoadCapa(o) => o == op
    case LoadPos(o, _) => o == op
    case LoadMap(o, _, _) => o == op
    case LoadSequence(o, _, _, _) => o == op
    case Cas(o, _, _, _) => o == op
    case Retry(o) => o == op
    case Take(_, _, _) => op.Pop?
    case Vacate(_, _, _, _) => op.Pop?
    case Construct(v, _, _, _) => op == Push(v)
    case Publish(_, _, _) => op.Push?
    case Leave(result) => op.Push? <==> result.Pushed?
    case Overfull(v, _) => op == Push(v)
    case Claim(v, _) => op == Push(v)
    case Await(v, _) => op == Push(v)
    case Migrate(v, _) => op == Push(v)
    case SetCapacity(v, _) => op == Push(v)
    case Reopen(v) => op == Push(v)
    case NotifyAll(v) => op == Push(v)
  }

  // ---- One access of the call ----

  /** An access goes on with the call, or is its last one. */
  lemma AccessCalls<T>(m: Memory<T>, t: nat, l: Thread<T>, c: Choice<T>, op: Op<T>)
    requires Calls(l, op)
    ensures var l' := Access(m, t, l, c).1;
      if l'.Idle? then l.Leave? else Calls(l', op)
  {
  }

  /** A call that has won its position keeps it to the end. */
  lemma AccessStaysDone<T>(m: Memory<T>, t: nat, l: Thread<T>, c: Choice<T>)
    requires !Access(m, t, l, c).0.fault && !l.Leave?
    ensures var l' := Access(m, t, l, c).1; (Pushing(l) ==> Pushing(l')) && (Popping(l) ==> Popping(l'))
  {
  }

  /** The answer that there is nothing is given on the sequence alone. */
  lemma AccessEmpty<T>(m: Memory<T>, t: nat, l: Thread<T>, c: Choice<T>)
    requires !Access(m, t, l, c).0.fault && Access(m, t, l, c).1 == Leave(Empty)
    ensures l.LoadSequence? && l.op.Pop?
  {
  }

  // ---- What the call has done so far ----

  /** What thread u's accesses from i to k did to the queue. */
  ghost function OwnEvents<T(!new)>(run: seq<System<T>>, moves: seq<(nat, Choice<T>)>, i: nat, k: nat,
                                    u: nat): seq<Event<T>>
    requires Schedule(run, moves) && i <= k < |run|
    decreases k
  {
    if k == i then []
    else
      assert ScheduledAt(run, moves, k - 1);
      var e := Effect(run[k - 1], moves[k - 1].0, moves[k - 1].1);
      OwnEvents(run, moves, i, k - 1, u) + if moves[k - 1].0 == u && !e.Nothing? then [e] else []
  }

  /** At k, u has found the head unclaimed or its producer between claim and publication. */
  ghost predicate FindsNothing<T(!new)>(run: seq<System<T>>, moves: seq<(nat, Choice<T>)>, k: nat, u: nat)
    requires Schedule(run, moves) && k < |moves|
  {
    var s := run[k];
    && moves[k].0 == u
    && (|| s.mem.head == s.mem.tail
        || exists w :: w in s.threads && (s.threads[w].Construct? || s.threads[w].Publish?)
                       && s.threads[w].pos == s.mem.head)
  }

  ghost predicate FoundNothing<T(!new)>(run: seq<System<T>>, moves: seq<(nat, Choice<T>)>, i: nat, k: nat, u: nat)
    requires Schedule(run, moves) && k < |run|
  {
    exists e :: i < e < k && FindsNothing(run, moves, e, u)
  }

  /** The call of op that u began at i has got this far at k. */
  ghost predicate Sofar<T(!new)>(run: seq<System<T>>, moves: seq<(nat, Choice<T>)>, i: nat, k: nat, u: nat, op: Op<T>)
    requires Schedule(run, moves) && i <= k < |run| && u in run[k].threads
  {
    var m, l, es := run[k].mem, run[k].threads[u], OwnEvents(run, moves, i, k, u);
    && Calls(l, op)
    && (if Pushing(l) then op.Push? && es == [Enqueue(op.value)]
        else if Popping(l) then PosOf(l) < |m.history| && es == [Dequeue(m.history[PosOf(l)])]
        else es == [])
    && (l == Leave(Empty) ==> FoundNothing(run, moves, i, k, u))
  }

  lemma StartsSofar<T(!new)>(run: seq<System<T>>, moves: seq<(nat, Choice<T>)>, i: nat, u: nat)
    requires Schedule(run, moves) && i + 1 < |run|
    requires u in run[i].threads && run[i].threads[u].Idle? && moves[i].0 == u
    ensures u in run[i + 1].threads && Sofar(run, moves, i, i + 1, u, moves[i].1.op)
  {
    assert ScheduledAt(run, moves, i);
    assert OwnEvents(run, moves, i, i, u) == [];
  }

  /** What one access adds to the events of its own call. */
  lemma OwnEffect<T>(s: System<T>, t: nat, c: Choice<T>, op: Op<T>)
    requires Inv(s) && t in s.threads && Calls(s.threads[t], op) && !s.threads[t].Leave?
    requires !Step(s, t, c).mem.fault
    ensures var l, l', e := s.threads[t], Step(s, t, c).threads[t], Effect(s, t, c);
      if Pushing(l) || Popping(l) || !(Pushing(l') || Popping(l')) then e.Nothing?
      else if Pushing(l') then op.Push? && e == Enqueue(op.value)
      else s.mem.head < |s.mem.history| && PosOf(l') == s.mem.head && e == Dequeue(s.mem.history[s.mem.head])
  {
    AccessEnters(s.mem, t, s.threads[t], c);
    AccessStaysDone(s.mem, t, s.threads[t], c);
    if s.threads[t].Cas? && Step(s, t, c).threads[t].Take? {
      ClaimsRemove(s, t, c);
    }
  }

  /** What the access of u from k, inside its call, leaves and adds. */
  lemma OwnAccess<T(!new)>(run: seq<System<T>>, moves: seq<(nat, Choice<T>)>, capa: nat, k: nat, u: nat, op: Op<T>)
    requires Run(run) && Init(run[0], capa) && capa >= 2 && Schedule(run, moves) && k + 1 < |run|
    requires u in run[k].threads && Calls(run[k].threads[u], op) && moves[k].0 == u
    requires u in run[k + 1].threads && !run[k + 1].threads[u].Idle?
    ensures run[k].mem.history <= run[k + 1].mem.history && !run[k].threads[u].Leave?
    ensures var l, l', e := run[k].threads[u], run[k + 1].threads[u], Effect(run[k], u, moves[k].1);
      && Calls(l', op)
      && (Pushing(l) ==> Pushing(l')) && (Popping(l) ==> Popping(l') && PosOf(l') == PosOf(l))
      && if Pushing(l) || Popping(l) || !(Pushing(l') || Popping(l')) then e.Nothing?
         else if Pushing(l') then op.Push? && e == Enqueue(op.value)
         else PosOf(l') < |run[k].mem.history| && e == Dequeue(run[k].mem.history[PosOf(l')])
  {
    var s, c := run[k], moves[k].1;
    assert ScheduledAt(run, moves, k);
    RunKeeps(run, capa, k);
    NeverFaults(run, capa, k + 1);
    StepExtends(s, u, c);
    AccessCalls(s.mem, u, s.threads[u], c, op);
    OwnEffect(s, u, c, op);
    AccessEnters(s.mem, u, s.threads[u], c);
    AccessStaysDone(s.mem, u, s.threads[u], c);
  }

  /** The access that decides on nothing. */
  lemma EmptyFound<T(!new)>(run: seq<System<T>>, moves: seq<(nat, Choice<T>)>, capa: nat, k: nat, u: nat)
    requires Run(run) && Init(run[0], capa) && capa >= 2 && Schedule(run, moves) && k + 1 < |run|
    requires u in run[k].threads && moves[k].0 == u
    requires u in run[k + 1].threads && run[k + 1].threads[u] == Leave(Empty)
    ensures FindsNothing(run, moves, k, u)
  {
    assert ScheduledAt(run, moves, k);
    NeverFaults(run, capa, k + 1);
    AccessEmpty(run[k].mem, u, run[k].threads[u], moves[k].1);
    EmptyIsJustified(run, capa, k, u, moves[k].1);
  }

  lemma OwnStep<T(!new)>(run: seq<System<T>>, moves: seq<(nat, Choice<T>)>, capa: nat, i: nat, k: nat, u: nat,
                         op: Op<T>)
    requires Run(run) && Init(run[0], capa) && capa >= 2 && Schedule(run, moves) && i < k && k + 1 < |run|
    requires u in run[k].threads && Sofar(run, moves, i, k, u, op)
    requires moves[k].0 == u && u in run[k + 1].threads && !run[k + 1].threads[u].Idle?
    ensures Sofar(run, moves, i, k + 1, u, op)
  {
    OwnAccess(run, moves, capa, k, u, op);
    if run[k + 1].threads[u] == Leave(Empty) {
      EmptyFound(run, moves, capa, k, u);
    }
  }

  lemma OtherStep<T(!new)>(run: seq<System<T>>, moves: seq<(nat, Choice<T>)>, capa: nat, i: nat, k: nat, u: nat,
                           op: Op<T>)
    requires Run(run) && Init(run[0], capa) && capa >= 2 && Schedule(run, moves) && i < k && k + 1 < |run|
    requires u in run[k].threads && Sofar(run, moves, i, k, u, op) && moves[k].0 != u
    ensures u in run[k + 1].threads && Sofar(run, moves, i, k + 1, u, op)
  {
    assert ScheduledAt(run, moves, k);
    RunKeeps(run, capa, k);
    StepExtends(run[k], moves[k].0, moves[k].1);
    if FoundNothing(run, moves, i, k, u) {
      var e :| i < e < k && FindsNothing(run, moves, e, u);
    }
  }

  /** From i on, u is Idle, calls, and has not returned before k. */
  ghost predicate InCall<T(!new)>(run: seq<System<T>>, moves: seq<(nat, Choice<T>)>, i: nat, k: nat, u: nat)
    requires Schedule(run, moves)
  {
    && i < k < |run| && u in run[i].threads && run[i].threads[u].Idle? && moves[i].0 == u
    && forall j :: i < j < k ==> u in run[j].threads && !run[j].threads[u].Idle?
  }

  lemma {:induction false} CallSofar<T(!new)>(run: seq<System<T>>, moves: seq<(nat, Choice<T>)>, capa: nat, i: nat,
                                              k: nat,
                                              u: nat)
    requires Run(run) && Init(run[0], capa) && capa >= 2 && Schedule(run, moves)
    requires InCall(run, moves, i, k, u) && u in run[k].threads && !run[k].threads[u].Idle?
    ensures Sofar(run, moves, i, k, u, moves[i].1.op)
  {
    StartsSofar(run, moves, i, u);
    if k > i + 1 {
      CallSofar(run, moves, capa, i, k - 1, u);
      if moves[k - 1].0 == u {
        OwnStep(run, moves, capa, i, k - 1, u, moves[i].1.op);
      } else {
        OtherStep(run, moves, capa, i, k - 1, u, moves[i].1.op);
      }
    }
  }

  // ---- The call has returned ----

  /**
   * A call that has returned did its work, once, and nothing else: a push has
   * enqueued its own value; a pop has dequeued the value it returns, or it
   * returns nothing, has left the queue alone, and found the queue empty, or
   * the oldest value not yet published, at some access of its own.
   */
  lemma CallDoesItsWork<T(!new)>(run: seq<System<T>>, moves: seq<(nat, Choice<T>)>, capa: nat, i: nat, j: nat, u: nat)
    requires Run(run) && Init(run[0], capa) && capa >= 2 && Schedule(run, moves)
    requires InCall(run, moves, i, j, u) && u in run[j].threads && run[j].threads[u].Idle?
    ensures i < j - 1 && moves[j - 1].0 == u && u in run[j - 1].threads && run[j - 1].threads[u].Leave?
    ensures var es := OwnEvents(run, moves, i, j, u);
      match moves[i].1.op
      case Push(v) => run[j - 1].threads[u].result == Pushed && es == [Enqueue(v)]
      case Pop =>
        match run[j - 1].threads[u].result
        case Got(_, w) => es == [Dequeue(w)]
        case Empty => es == [] && FoundNothing(run, moves, i, j, u)
        case Pushed => false
  {
    StartsSofar(run, moves, i, u);
    CallSofar(run, moves, capa, i, j - 1, u);
    CallEnds(run, moves, i, j - 1, u, moves[i].1.op);
    if run[j - 1].threads[u].result.Got? {
      GotRecorded(run, capa, j - 1, u);
    }
  }

  lemma GotRecorded<T(!new)>(run: seq<System<T>>, capa: nat, k: nat, u: nat)
    requires Run(run) && Init(run[0], capa) && capa >= 2 && k < |run|
    requires u in run[k].threads && run[k].threads[u].Leave? && run[k].threads[u].result.Got?
    ensures var m, r := run[k].mem, run[k].threads[u].result; r.pos < |m.history| && r.value == m.history[r.pos]
  {
    RunKeeps(run, capa, k);
    ReturnsRecorded(run[k], u);
  }

  /** The last access of a call only leaves. */
  lemma CallEnds<T(!new)>(run: seq<System<T>>, moves: seq<(nat, Choice<T>)>, i: nat, k: nat, u: nat, op: Op<T>)
    requires Schedule(run, moves) && i < k && k + 1 < |run|
    requires u in run[k].threads && Sofar(run, moves, i, k, u, op)
    requires u in run[k + 1].threads && run[k + 1].threads[u].Idle?
    ensures moves[k].0 == u && run[k].threads[u].Leave?
    ensures OwnEvents(run, moves, i, k + 1, u) == OwnEvents(run, moves, i, k, u)
    ensures FoundNothing(run, moves, i, k, u) ==> FoundNothing(run, moves, i, k + 1, u)
  {
    assert ScheduledAt(run, moves, k);
    AccessCalls(run[k].mem, u, run[k].threads[u], moves[k].1, op);
    if FoundNothing(run, moves, i, k, u) {
      var e :| i < e < k && FindsNothing(run, moves, e, u);
    }
  }
}
