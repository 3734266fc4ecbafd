/**
 * What a push or a pop answers when the other threads, wherever they are, stay
 * where they are: from any reachable state with the gate open, a pop returns
 * the right answer, and a push appends its value or leaves to grow the ring.
 */
module QueueAlone {
  import opened Ring
  import opened QueueMachine
  import opened QueueInvariant
  import opened QueueGrowth
  import opened QueueTheorems
  import opened QueueScenarios

  /** With the gate open, the capacity is the size of the slot array. */
  lemma OpenGate<T>(s: System<T>)
    requires Inv(s) && s.mem.stat.Normal?
    ensures s.mem.capacity == |s.mem.slots|
  {
    if t :| t in s.threads && s.threads[t].SetCapacity? {
      ResizingIfResizer(s, t);
    }
  }

  // ---- A pop ----

  /** From the sequence that invites it, a pop takes the object at the head and is about to return it. */
  lemma Takes<T(!new)>(s: System<T>, at: System<T>, all: set<nat>, t: nat, n: nat) returns (next: System<T>)
    requires Reaches(s, at, all) && t in all && t in at.threads
    requires n == |at.mem.slots| == |at.mem.uses| > 0
    requires at.threads[t] == LoadSequence(Pop, n, at.mem.head, at.mem.base)
    requires var slot := at.mem.slots[Index(at.mem.head, n)]; slot.sequence == at.mem.head + 1 && slot.cell.Built?
    ensures Reaches(s, next, all)
    ensures var m, i := at.mem, Index(at.mem.head, n);
      && next.threads == at.threads[t := Leave(Got(m.head, m.slots[i].cell.value))]
      && next.mem.head == m.head + 1 && next.mem.tail == m.tail && next.mem.history == m.history
      && next.mem.slots == m.slots[i := Slot(m.head + n, Raw)]
  {
    var c: Choice<T> := Choice(Pop, false);
    next := Go(s, at, all, t, c);
    assert next.mem == at.mem && next.threads[t] == Cas(Pop, n, at.mem.head, at.mem.base);
    next := Go(s, next, all, t, c);
    assert next.threads == at.threads[t := Take(n, at.mem.head, at.mem.base)];
    next := Empties(s, next, all, t, n, at.mem.head);
  }

  /** Past its claim, it moves the value out and gives the slot back. */
  lemma Empties<T(!new)>(s: System<T>, at: System<T>, all: set<nat>, t: nat, n: nat, pos: nat) returns (next: System<T>)
    requires Reaches(s, at, all) && t in all && t in at.threads
    requires n == |at.mem.slots| == |at.mem.uses| > 0 && at.threads[t] == Take(n, pos, at.mem.base)
    requires at.mem.slots[Index(pos, n)].cell.Built?
    ensures Reaches(s, next, all)
    ensures var m, i := at.mem, Index(pos, n);
      && next.threads == at.threads[t := Leave(Got(pos, m.slots[i].cell.value))]
      && next.mem.head == m.head && next.mem.tail == m.tail && next.mem.history == m.history
      && next.mem.slots == m.slots[i := Slot(pos + n, Raw)]
  {
    var c: Choice<T> := Choice(Pop, false);
    next := Go(s, at, all, t, c);
    assert next.threads[t] == Vacate(n, pos, at.mem.base, at.mem.slots[Index(pos, n)].cell.value);
    next := Go(s, next, all, t, c);
  }

  lemma PopMeets<T(!new)>(run: seq<System<T>>, capa: nat, i: nat)
    requires Run(run) && Init(run[0], capa) && capa >= 2 && i < |run| && run[i].mem.stat.Normal?
    ensures var m := run[i].mem;
      && m.capacity == |m.slots| == |m.uses| > 0 && m.head <= m.tail == |m.history|
      && var slot := m.slots[Index(m.head, |m.slots|)];
      if m.head < m.tail && !MidWrite(run[i], m.head) then slot == Slot(m.head + 1, Built(m.history[m.head]))
      else slot.sequence < m.head + 1
  {
    RunKeeps(run, capa, i);
    HeadSequence(run[i]);
    OpenGate(run[i]);
  }

  /**
   * A pop left alone answers: with the oldest value if it is there, and with
   * nothing exactly if the queue is empty or the oldest value's producer has
   * not published it.
   */
  lemma LonePop<T(!new)>(run: seq<System<T>>, capa: nat, i: nat, t: nat) returns (next: System<T>)
    requires Run(run) && Init(run[0], capa) && capa >= 2 && i < |run|
    requires run[i].mem.stat.Normal? && t in run[i].threads && run[i].threads[t].Idle?
    ensures Reaches(run[i], next, run[i].threads.Keys)
    ensures var m, m' := run[i].mem, next.mem;
      && m'.tail == m.tail && m'.history == m.history
      && if m.head < m.tail && !MidWrite(run[i], m.head) then
           && m.head < |m.history| && m'.head == m.head + 1
           && next.threads == run[i].threads[t := Leave(Got(m.head, m.history[m.head]))]
         else m'.head == m.head && next.threads == run[i].threads[t := Leave(Empty)]
  {
    var s, all := run[i], run[i].threads.Keys;
    var c: Choice<T> := Choice(Pop, false);
    PopMeets(run, capa, i);
    ReachesSelf(s, all);
    next := Go(s, s, all, t, c);
    next := Arrive(s, next, all, t, Pop);
    if s.mem.head < s.mem.tail && !MidWrite(s, s.mem.head) {
      next := Takes(s, next, all, t, |s.mem.slots|);
    } else {
      next := Go(s, next, all, t, c);
    }
  }

  // ---- A push ----

  lemma PushMeets<T(!new)>(run: seq<System<T>>, capa: nat, i: nat)
    requires Run(run) && Init(run[0], capa) && capa >= 2 && i < |run| && run[i].mem.stat.Normal?
    ensures var m := run[i].mem;
      && m.capacity == |m.slots| == |m.uses| > 0 && m.head <= m.tail == |m.history|
      && var slot := m.slots[Index(m.tail, |m.slots|)];
      && slot.sequence <= m.tail && (slot.sequence == m.tail ==> slot.cell.Raw?)
      && (|m.slots| > m.tail ==> slot.sequence == m.tail)
  {
    RunKeeps(run, capa, i);
    TailSequence(run[i]);
    OpenGate(run[i]);
  }

  /** Where the tail's slot is open, the push fills it and returns. */
  lemma Appends<T(!new)>(s: System<T>, at: System<T>, all: set<nat>, t: nat, v: T, n: nat) returns (next: System<T>)
    requires Reaches(s, at, all) && t in all && t in at.threads
    requires n == |at.mem.slots| == |at.mem.uses| > 0
    requires at.threads[t] == LoadSequence(Push(v), n, at.mem.tail, at.mem.base) && at.mem.capacity == n
    requires var slot := at.mem.slots[Index(at.mem.tail, n)]; slot.sequence == at.mem.tail && slot.cell.Raw?
    ensures Reaches(s, next, all) && next.threads == at.threads[t := Idle]
    ensures var m, m' := at.mem, next.mem;
      m'.head == m.head && m'.tail == m.tail + 1 && m'.history == m.history + [v]
  {
    next := Settle(s, at, all, t, v, n);
    next := Finish(s, next, all, t, v, n, at.mem.tail);
  }

  /** Where it is not, the push leaves to ask for twice the room. */
  lemma AsksDouble<T(!new)>(s: System<T>, at: System<T>, all: set<nat>, t: nat, v: T, n: nat) returns (next: System<T>)
    requires Reaches(s, at, all) && t in all && t in at.threads
    requires n == |at.mem.slots| == |at.mem.uses| > 0
    requires at.threads[t] == LoadSequence(Push(v), n, at.mem.tail, at.mem.base)
    requires at.mem.slots[Index(at.mem.tail, n)].sequence < at.mem.tail
    ensures Reaches(s, next, all) && next.threads == at.threads[t := Claim(v, 2 * n)]
    ensures next.mem == at.mem.(active := at.mem.active - 1)
  {
    var c := Choice(Push(v), false);
    next := Go(s, at, all, t, c);
    assert next.threads[t] == Overfull(v, n);
    next := Go(s, next, all, t, c);
  }

  /**
   * A push left alone, whoever is inside, appends its value and returns if the
   * tail's slot is open, as it is in every ring that has not wrapped, and goes
   * to ask for twice the room if it is not.
   */
  lemma LonePush<T(!new)>(run: seq<System<T>>, capa: nat, i: nat, t: nat, v: T) returns (next: System<T>)
    requires Run(run) && Init(run[0], capa) && capa >= 2 && i < |run|
    requires run[i].mem.stat.Normal? && t in run[i].threads && run[i].threads[t].Idle?
    ensures Reaches(run[i], next, run[i].threads.Keys)
    ensures var m, m', n := run[i].mem, next.mem, |run[i].mem.slots|;
      && n > 0 && m'.head == m.head
      && if n > m.tail || m.slots[Index(m.tail, n)].sequence == m.tail then
           next.threads == run[i].threads && m'.history == m.history + [v] && m'.tail == m.tail + 1
         else next.threads == run[i].threads[t := Claim(v, 2 * n)] && m' == m
  {
    var s, all, n := run[i], run[i].threads.Keys, |run[i].mem.slots|;
    PushMeets(run, capa, i);
    ReachesSelf(s, all);
    next := Go(s, s, all, t, Choice(Push(v), false));
    next := Arrive(s, next, all, t, Push(v));
    if s.mem.slots[Index(s.mem.tail, n)].sequence == s.mem.tail {
      next := Appends(s, next, all, t, v, n);
    } else {
      next := AsksDouble(s, next, all, t, v, n);
    }
  }
}
