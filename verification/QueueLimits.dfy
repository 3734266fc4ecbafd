/**
 * Where the queue's guarantees begin and end.  A run of the code goes wrong
 * exactly when it moves the queue into an array without room for it; one
 * producer never does that, two can, and a ring of one slot loses an object on
 * its second push whoever makes it.
 */
module QueueLimits {
  import opened Bits
  import opened Counting
  import opened Ring
  import opened QueueMachine
  import opened QueueInvariant
  import opened QueueGrowth
  import opened QueueTheorems
  import opened QueueScenarios

  // ---- Any run ----

  /** Whichever access led on from run[k], it was no move into too small an array. */
  ghost predicate FitsAt<T(!new)>(run: seq<System<T>>, k: nat)
    requires k + 1 < |run|
  {
    forall t, c :: t in run[k].threads && run[k + 1] == Step(run[k], t, c) ==> MoveFits(run[k], t)
  }

  /** A fault is never undone. */
  lemma FaultStays<T>(s: System<T>, t: nat, c: Choice<T>)
    requires t in s.threads && s.mem.fault
    ensures Step(s, t, c).mem.fault
  {
  }

  lemma FitRun<T(!new)>(run: seq<System<T>>, i: nat)
    requires FreeRun(run) && i < |run| && forall k: nat :: k < i ==> FitsAt(run, k)
    ensures Run(run[..i + 1])
  {
    var front := run[..i + 1];
    forall k: nat | k + 1 < |front|
      ensures StepAt(front, k)
    {
      assert MoveAt(run, k) && FitsAt(run, k);
      assert front[k] == run[k] && front[k + 1] == run[k + 1];
      var t, c :| t in run[k].threads && run[k + 1] == Step(run[k], t, c);
      assert MoveFits(run[k], t);
    }
  }

  /** The first move that does not fit goes wrong. */
  lemma MisfitFaults<T(!new)>(run: seq<System<T>>, capa: nat, i: nat)
    requires FreeRun(run) && Init(run[0], capa) && capa >= 2 && i + 1 < |run|
    requires (forall k: nat :: k < i ==> FitsAt(run, k)) && !FitsAt(run, i)
    ensures run[i + 1].mem.fault
  {
    var t, c :| t in run[i].threads && run[i + 1] == Step(run[i], t, c) && !MoveFits(run[i], t);
    FitRun(run, i);
    RunKeeps(run[..i + 1], capa, i);
    MoveFaultsIff(run[i], t, c);
  }

  lemma FaultStaysAt<T(!new)>(run: seq<System<T>>, i: nat)
    requires FreeRun(run) && i + 1 < |run| && run[i].mem.fault
    ensures run[i + 1].mem.fault
  {
    assert MoveAt(run, i);
    var t, c :| t in run[i].threads && run[i + 1] == Step(run[i], t, c);
    FaultStays(run[i], t, c);
  }

  /**
   * In any interleaving, however stale the resize requests, nothing has gone
   * wrong exactly when every array the queue was moved into had room for it.
   */
  lemma {:induction false} FaultFreeIff<T(!new)>(run: seq<System<T>>, capa: nat, i: nat)
    requires FreeRun(run) && Init(run[0], capa) && capa >= 2 && i < |run|
    ensures !run[i].mem.fault <==> forall k: nat :: k < i ==> FitsAt(run, k)
  {
    if forall k: nat :: k < i ==> FitsAt(run, k) {
      FitRun(run, i);
      NeverFaults(run[..i + 1], capa, i);
    } else {
      FaultFreeIff(run, capa, i - 1);
      if run[i - 1].mem.fault {
        FaultStaysAt(run, i - 1);
      } else {
        MisfitFaults(run, capa, i - 1);
      }
    }
  }

  // ---- One producer ----

  /** A run of the code in which only these threads push. */
  ghost predicate PushedBy<T(!new)>(run: seq<System<T>>, producers: set<nat>) {
    FreeRun(run) && forall i :: 0 <= i < |run| ==> OnlyProducers(run[i], producers)
  }

  /** On the way to a resize. */
  predicate Requests<T>(l: Thread<T>) {
    l.Claim? || l.Await? || l.Migrate?
  }

  /** The producer asks for twice the capacity the ring has. */
  predicate AsksDouble<T>(s: System<T>, p: nat) {
    p in s.threads && Requests(s.threads[p]) ==> s.threads[p].newCapa == 2 * |s.mem.slots|
  }

  lemma DoubleFits<T>(s: System<T>, p: nat, t: nat)
    requires Inv(s) && OnlyProducers(s, {p}) && AsksDouble(s, p) && t in s.threads
    ensures MoveFits(s, t)
  {
    if s.threads[t].Migrate? {
      assert Producing(s.threads[t]);
      DoublePow2(|s.mem.slots|);
    }
  }

  /** Requests are made for twice the capacity loaded, and kept. */
  lemma RequestFrom<T>(m: Memory<T>, t: nat, l: Thread<T>, c: Choice<T>)
    ensures var l' := Access(m, t, l, c).1;
      Requests(l') ==> if Requests(l) then l'.newCapa == l.newCapa else l.Overfull? && l'.newCapa == 2 * l.capa
  {
  }

  lemma StepAsksDouble<T>(s: System<T>, p: nat, t: nat, c: Choice<T>)
    requires Inv(s) && OnlyProducers(s, {p}) && AsksDouble(s, p) && t in s.threads
    ensures AsksDouble(Step(s, t, c), p)
  {
    assert LocalOk(s.mem, t, s.threads[t]);
    AccessCapacity(s.mem, t, s.threads[t], c);
    RequestFrom(s.mem, t, s.threads[t], c);
    if s.threads[t].Migrate? {
      assert Producing(s.threads[t]);
    }
  }

  lemma {:induction false} SoloRunKeeps<T(!new)>(run: seq<System<T>>, capa: nat, p: nat, i: nat)
    requires PushedBy(run, {p}) && Init(run[0], capa) && capa >= 2 && i < |run|
    ensures Inv(run[i]) && AsksDouble(run[i], p)
  {
    if i == 0 {
      InitInv(run[0], capa);
    } else {
      SoloRunKeeps(run, capa, p, i - 1);
      assert MoveAt(run, i - 1);
      var t, c :| t in run[i - 1].threads && run[i] == Step(run[i - 1], t, c);
      DoubleFits(run[i - 1], p, t);
      StepKeeps(run[i - 1], t, c);
      StepAsksDouble(run[i - 1], p, t, c);
    }
  }

  /** With a single producer no array is too small, so every guarantee of Run holds of every run. */
  lemma SingleProducerIsSafe<T(!new)>(run: seq<System<T>>, capa: nat, p: nat)
    requires PushedBy(run, {p}) && Init(run[0], capa) && capa >= 2
    ensures Run(run)
  {
    forall i: nat | i + 1 < |run|
      ensures StepAt(run, i)
    {
      SoloRunKeeps(run, capa, p, i);
      assert MoveAt(run, i);
      var t, c :| t in run[i].threads && run[i + 1] == Step(run[i], t, c);
      DoubleFits(run[i], p, t);
    }
  }

  /**
   * With a single producer, a pop that returns nothing while the producer is
   * not in the middle of a write has read an empty queue: no completed push is
   * waiting.
   */
  lemma EmptyMeansDrained<T(!new)>(run: seq<System<T>>, capa: nat, p: nat, i: nat, t: nat, c: Choice<T>)
    requires PushedBy(run, {p}) && Init(run[0], capa) && capa >= 2 && i < |run|
    requires t in run[i].threads && run[i].threads[t].LoadSequence?
    requires Step(run[i], t, c).threads[t] == Leave(Empty)
    requires p in run[i].threads ==> !run[i].threads[p].Construct? && !run[i].threads[p].Publish?
    ensures run[i].mem.head == run[i].mem.tail
  {
    SingleProducerIsSafe(run, capa, p);
    EmptyIsJustified(run, capa, i, t, c);
    assert OnlyProducers(run[i], {p});
  }

  // ---- Two producers, and one slot ----

  /**
   * A producer finds the ring full and stops before its resize; another fills
   * the ring past twice its size, growing it; the first goes on, and its stale
   * request has no room for what is queued.
   */
  lemma StaleRequest<T(!new)>(s: System<T>, capa: nat, producers: set<nat>, t: nat, u: nat, v: T)
    returns (at: System<T>)
    requires Init(s, capa) && capa >= 2 && t != u && {t, u} <= producers <= s.threads.Keys
    ensures Reaches(s, at, producers) && u in at.threads && at.threads[u].Migrate?
    ensures Step(at, u, Choice(Push(v), false)).mem.fault && !MoveFits(at, u)
  {
    var n := BitCeil(capa);
    InitFilled(s, capa, v);
    ReachesSelf(s, producers);
    var n1;
    at, n1 := FillTo(s, s, producers, t, v, n, 0, n);
    at := Go(s, at, producers, u, Choice(Push(v), false));
    at := PushOverfull(s, at, producers, u, v, n);
    at := OvertakenBy(s, at, producers, t, u, v, n);
  }

  lemma OvertakenBy<T(!new)>(s: System<T>, from: System<T>, producers: set<nat>, t: nat, u: nat, v: T, n: nat)
    returns (at: System<T>)
    requires Reaches(s, from, producers) && t != u && {t, u} <= producers && t in from.threads && u in from.threads
    requires Filled(from.mem, n, n, v) && n >= 2 && IsPow2(n)
    requires from.threads[t].Idle? && from.threads[u] == Claim(v, 2 * n)
    ensures Reaches(s, at, producers) && u in at.threads && at.threads[u].Migrate?
    ensures Step(at, u, Choice(Push(v), false)).mem.fault && !MoveFits(at, u)
  {
    var n1;
    at, n1 := FillTo(s, from, producers, t, v, n, n, 2 * n + 1);
    at := WinResize(s, at, producers, u, v, 2 * n);
    DoublePow2(n);
    TooManyFault(at, u, Choice(Push(v), false), v, n1, 2 * n + 1, 2 * n);
  }

  /** Every queue made for two or more has a run in which two producers lose an object. */
  lemma TwoProducersFault<T(!new)>(s: System<T>, capa: nat, producers: set<nat>, t: nat, u: nat, v: T)
    returns (run: seq<System<T>>)
    requires Init(s, capa) && capa >= 2 && t != u && {t, u} <= producers <= s.threads.Keys
    ensures PushedBy(run, producers) && run[0] == s && run[|run| - 1].mem.fault
  {
    var at := StaleRequest(s, capa, producers, t, u, v);
    var before: seq<System<T>> :| ReachesBy(before, s, at, producers);
    var last := Step(at, u, Choice(Push(v), false));
    run := before + [last];
    forall i: nat | i + 1 < |run|
      ensures MoveAt(run, i)
    {
      if i + 1 < |before| {
        assert StepAt(before, i);
        assert run[i] == before[i] && run[i + 1] == before[i + 1];
      } else {
        assert run[i] == at && run[i + 1] == last;
      }
    }
    assert OnlyProducers(at, producers);
  }

  /**
   * A queue made with room for one object rounds to one slot, where the
   * sequence of a full slot is the next position: the second push constructs
   * over the first object.
   */
  lemma OneSlotFaults<T(!new)>(s: System<T>, capa: nat, producers: set<nat>, t: nat, v: T) returns (run: seq<System<T>>)
    requires Init(s, capa) && capa <= 1 && t in producers && t in s.threads
    ensures Run(run) && (forall i :: 0 <= i < |run| ==> OnlyProducers(run[i], producers))
    ensures run[0] == s && run[|run| - 1].mem.fault
  {
    InitFilled(s, capa, v);
    ReachesSelf(s, producers);
    var at := Go(s, s, producers, t, Choice(Push(v), false));
    at := PushFits(s, at, producers, t, v, 1, 0);
    at := Go(s, at, producers, t, Choice(Push(v), false));
    at := Arrive(s, at, producers, t, Push(v));
    assert Index(1, 1) == 0;
    at := Settle(s, at, producers, t, v, 1);
    run :| ReachesBy(run, s, at, producers);
  }

  // ---- Exactly when the queue is safe ----

  lemma RunIsFree<T(!new)>(run: seq<System<T>>)
    requires Run(run)
    ensures FreeRun(run)
  {
    forall i: nat | i + 1 < |run|
      ensures MoveAt(run, i)
    {
      assert StepAt(run, i);
    }
  }

  /** No run in which these threads push goes wrong. */
  ghost predicate NeverGoesWrong<T(!new)>(s: System<T>, producers: set<nat>) {
    forall run: seq<System<T>> :: PushedBy(run, producers) && run[0] == s ==> !run[|run| - 1].mem.fault
  }

  lemma OneProducerIsSafe<T(!new)>(s: System<T>, capa: nat, p: nat)
    requires Init(s, capa) && capa >= 2
    ensures NeverGoesWrong(s, {p})
  {
    forall run: seq<System<T>> | PushedBy(run, {p}) && run[0] == s
      ensures !run[|run| - 1].mem.fault
    {
      SingleProducerIsSafe(run, capa, p);
      NeverFaults(run, capa, |run| - 1);
    }
  }

  lemma OneSlotIsUnsafe<T(!new)>(s: System<T>, capa: nat, producers: set<nat>, t: nat, v: T)
    requires Init(s, capa) && capa <= 1 && t in producers && t in s.threads
    ensures !NeverGoesWrong(s, producers)
  {
    var run := OneSlotFaults(s, capa, producers, t, v);
    RunIsFree(run);
    assert PushedBy(run, producers);
  }

  /** For a single producer, a queue is safe exactly when it was made for at least two objects. */
  lemma SafeIffTwoSlots<T(!new)>(s: System<T>, capa: nat, p: nat, v: T)
    requires Init(s, capa) && p in s.threads
    ensures NeverGoesWrong(s, {p}) <==> capa >= 2
  {
    if capa >= 2 {
      OneProducerIsSafe(s, capa, p);
    } else {
      OneSlotIsUnsafe(s, capa, {p}, p, v);
    }
  }

  /**
   * No run of the code, over all interleavings, goes wrong exactly when the
   * queue was made for at least two objects and only one of the threads pushes.
   */
  lemma SafeIffOneProducer<T(!new)>(s: System<T>, capa: nat, producers: set<nat>, v: T)
    requires Init(s, capa) && producers != {} && producers <= s.threads.Keys
    ensures NeverGoesWrong(s, producers) <==> capa >= 2 && |producers| == 1
  {
    var t :| t in producers;
    SplitOff(producers, t);
    if capa <= 1 {
      OneSlotIsUnsafe(s, capa, producers, t, v);
    } else if producers - {t} == {} {
      assert producers == {t};
      OneProducerIsSafe(s, capa, t);
    } else {
      var u :| u in producers - {t};
      var run := TwoProducersFault(s, capa, producers, t, u, v);
      assert PushedBy(run, producers) && run[0] == s;
    }
  }
}
