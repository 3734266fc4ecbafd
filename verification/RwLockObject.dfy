/**
 * The lock as an object: three fields, the atomic operations on them, and the
 * bodies of try_lock(), lock() and unlock() carried out access by access.  Any
 * interleaving of enabled turns over the object is a run of the state machine.
 */
module RwLockObject {
  import opened LockWords
  import opened RwLock

  /** Whom unlock() wakes. */
  datatype Notice = Nobody | OneWriter | AllReaders

  class Lock {
    var word: Word
    var waitRead: u64
    var waitWrite: u64

    function Shared(): Memory
      reads this
    {
      Memory(word, waitRead, waitWrite)
    }

    constructor ()
      ensures Shared() == Memory(Word(0, 0, 0, 0), 0, 0)
    {
      word := Word(0, 0, 0, 0);
      waitRead, waitWrite := 0, 0;
    }

    // ---- The atomic operations ----

    /** compare_exchange_strong on the packed word; a failure reports what is there. */
    method CompareExchange(expected: Word, desired: Word) returns (ok: bool, seen: Word)
      modifies this`word
      ensures ok <==> old(word) == expected
      ensures seen == old(word) && word == if ok then desired else old(word)
    {
      seen := word;
      ok := seen == expected;
      if ok {
        word := desired;
      }
    }

    method LoadWait(side: Side) returns (w: u64)
      ensures w == Shared().Wait(side)
    {
      w := if side.Read? then waitRead else waitWrite;
    }

    /** fetch_add on a wait word; the value before is returned. */
    method AddWait(side: Side, n: u64) returns (before: u64)
      modifies this`waitRead, this`waitWrite
      ensures before == old(Shared()).Wait(side)
      ensures Shared() == old(Shared()).SetWait(side, FetchAdd(before, n))
    {
      before := LoadWait(side);
      if side.Read? {
        waitRead := FetchAdd(before, n);
      } else {
        waitWrite := FetchAdd(before, n);
      }
    }

    method SubWait(side: Side, n: u64)
      modifies this`waitRead, this`waitWrite
      ensures Shared() == old(Shared()).SetWait(side, FetchSub(old(Shared()).Wait(side), n))
    {
      if side.Read? {
        waitRead := FetchSub(waitRead, n);
      } else {
        waitWrite := FetchSub(waitWrite, n);
      }
    }

    // ---- The bodies, one access at a time ----

    /** The quick attempt. */
    method TryAccess(l: Thread, c: Choice) returns (l': Thread)
      requires l.Idle? || l.TryLoad? || l.TryCas?
      modifies this
      ensures (Shared(), l') == Access(old(Shared()), l, c)
    {
      match l {
        case Idle =>
          l' := TryLoad(c.side, c.yes);
        case TryLoad(side, stay) =>
          l' := if TryOpen(side, word) then TryCas(side, stay, word) else if stay then SlowLoad(side) else Idle;
        case TryCas(side, stay, exp) =>
          var ok, _ := CompareExchange(exp, TryTaken(side, exp));
          l' := if ok then Hold(side) else if stay then SlowLoad(side) else Idle;
      }
    }

    /** The slow path: announce, then take the lock when it is open. */
    method SlowAccess(l: Thread, c: Choice) returns (l': Thread)
      requires l.SlowLoad? || l.Announce? || l.Top? || l.Acquire? || l.Deregister?
      modifies this
      ensures (Shared(), l') == Access(old(Shared()), l, c)
    {
      match l {
        case SlowLoad(side) =>
          l' := Announce(side, word);
        case Announce(side, exp) =>
          var ok, seen := CompareExchange(exp, Announced(side, exp));
          l' := if ok then Top(side, false) else Announce(side, seen);
        case Top(side, waiting) =>
          l' := if SlowOpen(side, word) then Acquire(side, waiting, word) else Pass(side, waiting);
        case Acquire(side, waiting, exp) =>
          var ok, _ := CompareExchange(exp, SlowTaken(side, exp));
          l' := if !ok then Top(side, waiting) else if waiting then Deregister(side) else Hold(side);
        case Deregister(side) =>
          SubWait(side, 1);
          l' := Hold(side);
      }
    }

    /** The waiting part: register, check again, sleep on the wait word. */
    method WaitAccess(l: Thread, c: Choice) returns (l': Thread)
      requires l.Pass? || l.Recheck? || l.Unregister? || l.WaitCheck? || l.Blocked?
      modifies this
      ensures (Shared(), l') == Access(old(Shared()), l, c)
    {
      match l {
        case Pass(side, waiting) =>
          if !c.yes {
            l' := Top(side, waiting);
          } else if waiting {
            var w := LoadWait(side);
            l' := Recheck(side, w);
          } else {
            var before := AddWait(side, 1);
            l' := Recheck(side, FetchAdd(before, 1));
          }
        case Recheck(side, wexp) =>
          l' := if SlowOpen(side, word) then Unregister(side) else WaitCheck(side, wexp);
        case Unregister(side) =>
          SubWait(side, 1);
          l' := Top(side, false);
        case WaitCheck(side, wexp) =>
          var w := LoadWait(side);
          l' := if w == wexp then Blocked(side, wexp) else Top(side, true);
        case Blocked(side, wexp) =>
          l' := if c.yes then WaitCheck(side, wexp) else l;
      }
    }

    /** unlock(): release, bump the writers' word, and the readers' if no writer waits. */
    method UnlockAccess(l: Thread, c: Choice) returns (l': Thread)
      requires l.Hold? || l.Release? || l.BumpWrite? || l.NotifyOne? || l.BumpRead? || l.NotifyAll?
      modifies this
      ensures (Shared(), l') == Access(old(Shared()), l, c)
    {
      match l {
        case Hold(side) =>
          l' := Release(side, word);
        case Release(side, exp) =>
          if exp.Acti(side) == 0 {
            l' := Idle;
          } else {
            var ok, seen := CompareExchange(exp, Released(side, exp));
            l' := if ok then BumpWrite else Release(side, seen);
          }
        case BumpWrite =>
          var before := AddWait(Write, VER_INC);
          l' := if Waiters(before) != 0 then NotifyOne else BumpRead;
        case NotifyOne =>
          l' := Idle;
        case BumpRead =>
          var before := AddWait(Read, VER_INC);
          l' := if Waiters(before) != 0 then NotifyAll else Idle;
        case NotifyAll =>
          l' := Idle;
      }
    }

    /** Whatever a thread does next, done on the object. */
    method Advance(l: Thread, c: Choice) returns (l': Thread)
      modifies this
      ensures (Shared(), l') == Access(old(Shared()), l, c)
    {
      if l.Idle? || l.TryLoad? || l.TryCas? {
        l' := TryAccess(l, c);
      } else if l.SlowLoad? || l.Announce? || l.Top? || l.Acquire? || l.Deregister? {
        l' := SlowAccess(l, c);
      } else if l.Pass? || l.Recheck? || l.Unregister? || l.WaitCheck? || l.Blocked? {
        l' := WaitAccess(l, c);
      } else {
        l' := UnlockAccess(l, c);
      }
    }

    // ---- Whole operations, when no other thread comes between ----

    /** No writer holds the lock or prepares to, and for a writer no reader does. */
    method TryLock(side: Side) returns (ok: bool)
      modifies this`word
      ensures ok <==>
        && old(word).actiWrite == 0 && old(word).prepWrite == 0
        && (side.Write? ==> old(word).actiRead == 0 && old(word).prepRead == 0)
      ensures word ==
        if !ok then old(word)
        else if side.Read? then old(word).(actiRead := Inc16(old(word).actiRead))
        else old(word).(actiWrite := 1)
    {
      var expected := word;
      if !TryOpen(side, expected) {
        return false;
      }
      var seen;
      ok, seen := CompareExchange(expected, TryTaken(side, expected));
    }

    /** Releasing a lock that is not held changes nothing; otherwise writers are woken first. */
    method Unlock(side: Side) returns (notice: Notice)
      modifies this
      ensures old(word).Acti(side) == 0 ==> Shared() == old(Shared()) && notice == Nobody
      ensures old(word).Acti(side) > 0 ==>
        && word == Released(side, old(word))
        && waitWrite == FetchAdd(old(waitWrite), VER_INC)
        && waitRead == (if Waiters(old(waitWrite)) != 0 then old(waitRead) else FetchAdd(old(waitRead), VER_INC))
        && notice == if Waiters(old(waitWrite)) != 0 then OneWriter
                     else if Waiters(old(waitRead)) != 0 then AllReaders else Nobody
    {
      var expected := word;
      var ok := false;
      notice := Nobody;
      while !ok
        invariant expected == old(word) && notice == Nobody
        invariant if ok then expected.Acti(side) > 0 && Shared() == old(Shared()).(word := Released(side, expected))
                  else Shared() == old(Shared())
        decreases !ok
      {
        if expected.Acti(side) == 0 {
          return;
        }
        ok, expected := CompareExchange(expected, Released(side, expected));
      }
      var before := AddWait(Write, VER_INC);
      if Waiters(before) != 0 {
        notice := OneWriter;
      } else {
        before := AddWait(Read, VER_INC);
        if Waiters(before) != 0 {
          notice := AllReaders;
        }
      }
    }
  }

  /** Threads that share one lock. */
  class Execution {
    const lock: Lock
    var threads: map<nat, Thread>

    function Snapshot(): System
      reads this, lock
    {
      System(lock.Shared(), threads)
    }

    constructor (ids: set<nat>)
      requires |ids| < 0x1_0000
      ensures fresh(lock) && Init(Snapshot()) && threads.Keys == ids
    {
      lock := new Lock();
      threads := map t | t in ids :: Idle;
      new;
      assert threads.Keys == ids;
    }

    /** One turn of thread t: its access, and the notification that goes with it. */
    method Turn(t: nat, c: Choice)
      requires Enabled(Snapshot(), t, c)
      modifies this, lock
      ensures Snapshot() == Step(old(Snapshot()), t, c) && Next(old(Snapshot()), Snapshot())
    {
      var l := threads[t];
      var l' := lock.Advance(l, c);
      threads := threads[t := l'];
      match l {
        case NotifyOne =>
          if c.sleeper in threads && Asleep(Write, threads[c.sleeper]) {
            threads := threads[c.sleeper := Woken(threads[c.sleeper])];
          }
        case NotifyAll =>
          threads := map u | u in threads :: if Asleep(Read, threads[u]) then Woken(threads[u]) else threads[u];
        case _ =>
      }
    }
  }
}
