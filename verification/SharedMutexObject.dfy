/**
 * shared_mutex as an object: its lock word and waiter counts, and its
 * operations access by access.  Any interleaving of turns over the object is a
 * run of the state machine.
 */
module SharedMutexObject {
  import opened LockWords
  import opened SharedMutex

  class Mutex {
    var state: State
    var writeWait: u16
    var readWait: u16

    function Shared(): Memory
      reads this
    {
      Memory(state, writeWait, readWait)
    }

    constructor ()
      ensures Shared() == Memory(FREE, 0, 0)
    {
      state, writeWait, readWait := FREE, 0, 0;
    }

    method CompareExchange(expected: State, desired: State) returns (ok: bool)
      modifies this`state
      ensures ok <==> old(state) == expected
      ensures state == if ok then desired else old(state)
    {
      ok := state == expected;
      if ok {
        state := desired;
      }
    }

    /** fetch_add(1) or fetch_sub(1) on a side's count of waiters. */
    method CountWaiter(side: Side, enter: bool)
      modifies this`writeWait, this`readWait
      ensures var n := old(Shared()).Waits(side);
        Shared() == old(Shared()).SetWaits(side, if enter then Inc16(n) else Dec16(n))
    {
      if side.Read? {
        readWait := if enter then Inc16(readWait) else Dec16(readWait);
      } else {
        writeWait := if enter then Inc16(writeWait) else Dec16(writeWait);
      }
    }

    /** lock() of a writer, up to the pause. */
    method WriteAccess(l: Thread, c: Choice) returns (l': Thread)
      requires l.WriteTry? || l.SetPending? || l.WriteTop? || l.WriteCas?
      modifies this
      ensures (Shared(), l') == Access(old(Shared()), l, c)
    {
      match l {
        case WriteTry(stay) =>
          var ok := CompareExchange(FREE, State(true, false, 0));
          l' := if ok then Hold(Write) else if stay then SetPending else Idle;
        case SetPending =>
          state := state.(pending := true);
          l' := WriteTop(false);
        case WriteTop(waiting) =>
          l' := if WriteOpen(state) then WriteCas(waiting, state) else Pause(Write, waiting);
        case WriteCas(waiting, exp) =>
          var ok := CompareExchange(exp, State(true, exp.pending, 0));
          l' := if ok then Taken(Write, waiting) else Pause(Write, waiting);
      }
    }

    /** lock_shared(), up to the pause; the exchange is the weak one. */
    method ReadAccess(l: Thread, c: Choice) returns (l': Thread)
      requires l.Idle? || l.ReadTop? || l.ReadCas?
      modifies this
      ensures (Shared(), l') == Access(old(Shared()), l, c)
    {
      match l {
        case Idle =>
          l' := if c.side.Read? then ReadTop(c.yes, false) else WriteTry(c.yes);
        case ReadTop(stay, waiting) =>
          l' := if ReadOpen(state) then ReadCas(stay, waiting, state)
                else if stay then Pause(Read, waiting) else Idle;
        case ReadCas(stay, waiting, exp) =>
          var ok := false;
          if !c.weak {
            ok := CompareExchange(exp, exp.(readers := exp.readers + 1));
          }
          l' := if ok then Taken(Read, waiting) else if stay then Pause(Read, waiting) else Idle;
      }
    }

    method WaitAccess(l: Thread, c: Choice) returns (l': Thread)
      requires l.Pause? || l.Deregister?
      modifies this
      ensures (Shared(), l') == Access(old(Shared()), l, c)
    {
      match l {
        case Pause(side, waiting) =>
          if !waiting && c.yes {
            CountWaiter(side, true);
          }
          var waiting' := waiting || c.yes;
          l' := if side.Read? then ReadTop(true, waiting') else WriteTop(waiting');
        case Deregister(side) =>
          CountWaiter(side, false);
          l' := Hold(side);
      }
    }

    /** unlock(), for a writer and for a reader alike. */
    method UnlockAccess(l: Thread, c: Choice) returns (l': Thread)
      requires l.Hold? || l.LoadWaits? || l.Store? || l.Subtract?
      modifies this
      ensures (Shared(), l') == Access(old(Shared()), l, c)
    {
      match l {
        case Hold(side) =>
          l' := if state.write then LoadWaits(side) else Subtract(side);
        case LoadWaits(side) =>
          l' := Store(side, writeWait > 0);
        case Store(_, hasWriter) =>
          state := State(false, hasWriter, 0);
          l' := Idle;
        case Subtract(_) =>
          state := state.(readers := if state.readers == 0 then 0 else state.readers - 1);
          l' := Idle;
      }
    }

    /** Whatever a thread does next, done on the object. */
    method Advance(l: Thread, c: Choice) returns (l': Thread)
      modifies this
      ensures (Shared(), l') == Access(old(Shared()), l, c)
    {
      if l.WriteTry? || l.SetPending? || l.WriteTop? || l.WriteCas? {
        l' := WriteAccess(l, c);
      } else if l.Idle? || l.ReadTop? || l.ReadCas? {
        l' := ReadAccess(l, c);
      } else if l.Pause? || l.Deregister? {
        l' := WaitAccess(l, c);
      } else {
        l' := UnlockAccess(l, c);
      }
    }
  }

  /** Threads that share one mutex. */
  class Execution {
    const mutex: Mutex
    var threads: map<nat, Thread>

    function Snapshot(): System
      reads this, mutex
    {
      System(mutex.Shared(), threads)
    }

    constructor (ids: set<nat>)
      requires |ids| < 0x1_0000
      ensures fresh(mutex) && Init(Snapshot()) && threads.Keys == ids
    {
      mutex := new Mutex();
      threads := map t | t in ids :: Idle;
      new;
      assert threads.Keys == ids;
    }

    /** One turn of thread t. */
    method Turn(t: nat, c: Choice)
      requires t in threads
      modifies this, mutex
      ensures Snapshot() == Step(old(Snapshot()), t, c) && Next(old(Snapshot()), Snapshot())
    {
      var l := mutex.Advance(threads[t], c);
      threads := threads[t := l];
    }
  }
}
