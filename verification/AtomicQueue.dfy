/**
 * The queue as a thread that has it to itself runs it, on the slot array: push
 * with growth, pop, construction and destruction.
 */
module AtomicQueue {
  import opened Bits
  import opened Ring

  datatype Status = Normal | Resizing

  // ---- What a ring holds ----

  /** No queued position lives at place j. */
  predicate Vacant(n: nat, h: nat, t: nat, j: nat)
    requires n > 0
  {
    forall p :: h <= p < t ==> Index(p, n) != j
  }

  /** The slot of position p is published, with its object. */
  predicate Published<T(==)>(slots: seq<Slot<T>>, h: nat, q: seq<T>, p: nat)
    requires |slots| > 0 && h <= p < h + |q|
  {
    slots[Index(p, |slots|)] == Slot(p + 1, Built(q[p - h]))
  }

  /** Slot j has no object, and a sequence that a push may still meet. */
  predicate Open<T>(slots: seq<Slot<T>>, t: nat, j: nat)
    requires j < |slots|
  {
    slots[j].cell.Raw? && Index(slots[j].sequence, |slots|) == j && slots[j].sequence < t + |slots|
  }

  /** The ring holds q at positions [h, t), and its other slots are open. */
  predicate Holds<T(==)>(slots: seq<Slot<T>>, h: nat, t: nat, q: seq<T>) {
    && |slots| >= 2 && |q| <= |slots| && t == h + |q|
    && (forall p :: h <= p < t ==> Published(slots, h, q, p))
    && (forall j :: 0 <= j < |slots| && Vacant(|slots|, h, t, j) ==> Open(slots, t, j))
  }

  /** The place after the last queued position is vacant unless the ring is full. */
  lemma TailVacant(n: nat, h: nat, t: nat)
    requires n > 0 && h <= t < h + n
    ensures Vacant(n, h, t, Index(t, n))
  {
    forall p | h <= p < t
      ensures Index(p, n) != Index(t, n)
    {
      IndexApart(p, t, n);
    }
  }

  /** Where the sequence equals the tail there is room; where it does not, it is behind, and the ring has wrapped. */
  lemma PushVerdict<T>(slots: seq<Slot<T>>, h: nat, t: nat, q: seq<T>)
    requires Holds(slots, h, t, q)
    ensures var s := slots[Index(t, |slots|)];
            && s.sequence <= t
            && (s.sequence == t ==> |q| < |slots| && s.cell.Raw?)
            && (s.sequence < t ==> |slots| <= t)
  {
    var n := |slots|;
    var s := slots[Index(t, n)];
    if |q| < n {
      TailVacant(n, h, t);
      assert Open(slots, t, Index(t, n));
      if s.sequence > t {
        IndexApart(t, s.sequence, n);
      }
    } else {
      assert Index(t, n) == Index(h, n);
      assert Published(slots, h, q, h);
    }
  }

  lemma HoldsPush<T>(slots: seq<Slot<T>>, h: nat, t: nat, q: seq<T>, v: T)
    requires Holds(slots, h, t, q) && |q| < |slots|
    ensures Holds(slots[Index(t, |slots|) := Slot(t + 1, Built(v))], h, t + 1, q + [v])
  {
    var n, t' := |slots|, t + 1;
    var slots', q' := slots[Index(t, n) := Slot(t + 1, Built(v))], q + [v];
    forall p | h <= p < t'
      ensures Published(slots', h, q', p)
    {
      if p < t {
        assert Published(slots, h, q, p);
        IndexApart(p, t, n);
      }
    }
    forall j | 0 <= j < n && Vacant(n, h, t', j)
      ensures Open(slots', t', j)
    {
      assert Vacant(n, h, t, j);
      assert Open(slots, t, j);
      assert Index(t, n) != j;
    }
  }

  /** The head's slot is published exactly when the ring is not empty, and otherwise is behind. */
  lemma PopVerdict<T>(slots: seq<Slot<T>>, h: nat, t: nat, q: seq<T>)
    requires Holds(slots, h, t, q)
    ensures var s := slots[Index(h, |slots|)];
            if q == [] then s.sequence < h + 1 else s == Slot(h + 1, Built(q[0]))
  {
    var n := |slots|;
    if q == [] {
      var s := slots[Index(h, n)];
      TailVacant(n, h, h);
      assert Open(slots, h, Index(h, n));
      if s.sequence > h {
        IndexApart(h, s.sequence, n);
      }
    } else {
      assert Published(slots, h, q, h);
    }
  }

  lemma HoldsPop<T>(slots: seq<Slot<T>>, h: nat, t: nat, q: seq<T>)
    requires Holds(slots, h, t, q) && q != []
    ensures Holds(slots[Index(h, |slots|) := Slot(h + |slots|, Raw)], h + 1, t, q[1..])
  {
    var n, h', i := |slots|, h + 1, Index(h, |slots|);
    var slots', q' := slots[i := Slot(h + n, Raw)], q[1..];
    forall p | h' <= p < t
      ensures Published(slots', h', q', p)
    {
      assert Published(slots, h, q, p);
      IndexApart(h, p, n);
    }
    forall j | 0 <= j < n && Vacant(n, h', t, j)
      ensures Open(slots', t, j)
    {
      if j != i {
        VacantBefore(n, h, t, j);
        assert Open(slots, t, j);
      } else {
        IndexBack(h, n);
      }
    }
  }

  lemma IndexBack(h: nat, n: nat)
    requires n > 0
    ensures Index(h + n, n) == Index(h, n)
  {
  }

  lemma VacantBefore(n: nat, h: nat, t: nat, j: nat)
    requires n > 0 && Vacant(n, h + 1, t, j) && Index(h, n) != j
    ensures Vacant(n, h, t, j)
  {
  }

  lemma HoldsBuilt<T>(slots: seq<Slot<T>>, h: nat, t: nat, q: seq<T>)
    requires Holds(slots, h, t, q)
    ensures forall p :: h <= p < t ==> slots[Index(p, |slots|)].cell.Built?
  {
    forall p | h <= p < t
      ensures slots[Index(p, |slots|)].cell.Built?
    {
      assert Published(slots, h, q, p);
    }
  }

  lemma FreshHolds<T>(capa: nat)
    requires capa >= 2
    ensures Holds<T>(FreshSlots(capa), 0, 0, [])
  {
  }

  /** Growth keeps the queue. */
  lemma HoldsMoved<T>(slots: seq<Slot<T>>, h: nat, t: nat, q: seq<T>, capa: nat)
    requires Holds(slots, h, t, q) && capa >= 2 && |q| <= capa
    ensures Holds(Moved(slots, h, t, capa), h, t, q)
  {
    var slots' := Moved(slots, h, t, capa);
    forall p | h <= p < t
      ensures Published(slots', h, q, p)
    {
      assert Published(slots, h, q, p);
      MovedAt(slots, h, t, capa, p);
    }
    forall j | 0 <= j < capa && Vacant(capa, h, t, j)
      ensures Open(slots', t, j)
    {
      MovedElsewhere(slots, h, t, capa, j);
    }
  }

  // ---- Destroying and moving, one position at a time ----

  /** Of the slots that held [h, t), those of [i, t) still do and nothing else holds an object. */
  predicate LeftFrom<T(==)>(now: seq<Slot<T>>, slots: seq<Slot<T>>, i: nat, t: nat) {
    && |now| == |slots| > 0
    && (forall p :: i <= p < t ==> Kept(now, slots, p))
    && (forall j :: 0 <= j < |now| && Vacant(|now|, i, t, j) ==> now[j].cell.Raw?)
  }

  predicate Kept<T(==)>(now: seq<Slot<T>>, slots: seq<Slot<T>>, p: nat)
    requires |now| == |slots| > 0
  {
    now[Index(p, |now|)] == slots[Index(p, |slots|)]
  }

  lemma LeftStart<T>(slots: seq<Slot<T>>, h: nat, t: nat, q: seq<T>)
    requires Holds(slots, h, t, q)
    ensures LeftFrom(slots, slots, h, t)
  {
    forall j | 0 <= j < |slots| && Vacant(|slots|, h, t, j)
      ensures slots[j].cell.Raw?
    {
      assert Open(slots, t, j);
    }
  }

  lemma LeftStep<T>(now: seq<Slot<T>>, slots: seq<Slot<T>>, i: nat, t: nat, sequence: nat)
    requires LeftFrom(now, slots, i, t) && i < t <= i + |slots|
    ensures LeftFrom(now[Index(i, |now|) := Slot(sequence, Raw)], slots, i + 1, t)
  {
    var n, at := |now|, Index(i, |now|);
    var now' := now[at := Slot(sequence, Raw)];
    forall p | i + 1 <= p < t
      ensures Kept(now', slots, p)
    {
      assert Kept(now, slots, p);
      IndexApart(i, p, n);
    }
    forall j | 0 <= j < n && Vacant(n, i + 1, t, j)
      ensures now'[j].cell.Raw?
    {
      if j != at {
        VacantBefore(n, i, t, j);
      }
    }
  }

  /** The next object to go is still where it was. */
  lemma StillThere<T>(now: seq<Slot<T>>, slots: seq<Slot<T>>, h: nat, q: seq<T>, i: nat)
    requires Holds(slots, h, h + |q|, q) && LeftFrom(now, slots, i, h + |q|) && h <= i < h + |q|
    ensures now[Index(i, |now|)] == slots[Index(i, |slots|)] && slots[Index(i, |slots|)].cell.Built?
    ensures i < h + |q| <= i + |slots|
  {
    assert Published(slots, h, q, i);
    assert Kept(now, slots, i);
  }

  lemma LeftNone<T>(now: seq<Slot<T>>, slots: seq<Slot<T>>, t: nat)
    requires LeftFrom(now, slots, t, t)
    ensures forall j :: 0 <= j < |now| ==> now[j].cell.Raw?
  {
    forall j | 0 <= j < |now|
      ensures now[j].cell.Raw?
    {
      assert Vacant(|now|, t, t, j);
    }
  }

  /** The migration has moved [h, i): what the new array and the old one hold, and whether all went well. */
  ghost predicate Moving<T>(from: seq<Slot<T>>, to: seq<Slot<T>>, slots: seq<Slot<T>>, h: nat, i: nat, t: nat,
                            clear: bool) {
    && |to| > 0 && h <= i && LeftFrom(from, slots, i, t)
    && to == Moved(slots, h, i, |to|)
    && (clear <==> !MoveFaults(slots, h, i, |to|))
  }

  lemma MovingStarts<T>(slots: seq<Slot<T>>, empty: seq<Slot<T>>, h: nat, t: nat, q: seq<T>)
    requires Holds(slots, h, t, q) && |empty| > 0 && empty == FreshSlots(|empty|)
    ensures Moving(slots, empty, slots, h, h, t, true)
  {
    LeftStart(slots, h, t, q);
  }

  // ---- The queue ----

  class Queue<T> {
    var kmap: array<Slot<T>>
    var capacity: nat
    var stat: Status
    var active: int
    var head: nat
    var tail: nat
    ghost var contents: seq<T>

    /** Nobody is inside, and the ring holds the contents. */
    ghost predicate Valid()
      reads this, kmap
    {
      && kmap.Length == capacity && IsPow2(capacity)
      && stat.Normal? && active == 0
      && Holds(kmap[..], head, tail, contents)
    }

    /** Any capacity is rounded up; from two on the queue is ready for use. */
    constructor (initialCapa: nat)
      ensures fresh(kmap) && contents == [] && capacity == kmap.Length == BitCeil(initialCapa)
      ensures stat == Normal && active == 0 && head == tail == 0 && kmap[..] == FreshSlots(capacity)
      ensures initialCapa >= 2 ==> Valid()
    {
      var capa := BitCeil(initialCapa);
      BitCeilSpec(initialCapa);
      var data := NewMap(capa);
      if initialCapa >= 2 {
        FreshHolds<T>(capa);
      }
      kmap, capacity := data, capa;
      stat, active := Normal, 0;
      head, tail := 0, 0;
      contents := [];
    }

    /** Enqueues value, growing the ring as often as that takes. */
    method Push(value: T)
      requires Valid()
      modifies this, kmap
      ensures Valid() && (kmap == old(kmap) || fresh(kmap))
      ensures contents == old(contents) + [value]
      ensures head == old(head) && capacity >= old(capacity)
    {
      var done := TryPush(value);
      while !done
        invariant Valid() && (kmap == old(kmap) || fresh(kmap))
        invariant contents == if done then old(contents) + [value] else old(contents)
        invariant head == old(head) && capacity >= old(capacity)
        decreases !done, if capacity <= tail then tail + 1 - capacity else 0
      {
        BitCeilPow2(capacity);
        DoublePow2(capacity);
        var _ := ResetCapa(capacity * 2);
        done := TryPush(value);
      }
    }

    /** One turn of push's loop: it fails only where the ring has wrapped, whatever room there is. */
    method TryPush(value: T) returns (done: bool)
      requires Valid()
      modifies this, kmap
      ensures Valid() && kmap == old(kmap) && capacity == old(capacity) && head == old(head)
      ensures contents == if done then old(contents) + [value] else old(contents)
      ensures !done ==> capacity <= tail
    {
      active := active + 1;
      var capa, pos := capacity, tail;
      ghost var slots := kmap[..];
      IndexIsMask(pos, capa);
      PushVerdict(slots, head, tail, contents);
      var i := BitAnd(pos, capa - 1);
      var sequence := kmap[i].sequence;
      done := sequence == pos;
      if done {
        tail := pos + 1;
        assert kmap[i].cell.Raw?;
        kmap[i] := Slot(sequence, Built(value));
        kmap[i] := Slot(pos + 1, kmap[i].cell);
        HoldsPush(slots, head, pos, contents, value);
        assert kmap[..] == slots[i := Slot(pos + 1, Built(value))];
        contents := contents + [value];
      }
      active := active - 1;
    }

    /** Dequeues the oldest value, or reports that there is none. */
    method Pop() returns (result: Option<T>)
      requires Valid()
      modifies this, kmap
      ensures Valid() && kmap == old(kmap) && capacity == old(capacity) && tail == old(tail)
      ensures if old(contents) == [] then result == None && contents == [] && head == old(head)
              else result == Some(old(contents)[0]) && contents == old(contents)[1..]
    {
      active := active + 1;
      var capa, pos := capacity, head;
      ghost var slots := kmap[..];
      IndexIsMask(pos, capa);
      PopVerdict(slots, head, tail, contents);
      var i := BitAnd(pos, capa - 1);
      var sequence := kmap[i].sequence;
      result := None;
      if sequence == pos + 1 {
        head := pos + 1;
        var value := TakeOut(kmap, i, pos + capa);
        result := Some(value);
        HoldsPop(slots, pos, tail, contents);
        contents := contents[1..];
      }
      active := active - 1;
    }

    /** Moves the object out of slot i, destroys it there, and frees the slot for the given position. */
    static method TakeOut(slots: array<Slot<T>>, i: nat, sequence: nat) returns (value: T)
      requires i < slots.Length && slots[i].cell.Built?
      modifies slots
      ensures value == old(slots[i]).cell.value && slots[..] == old(slots[..])[i := Slot(sequence, Raw)]
    {
      value := slots[i].cell.value;
      slots[i] := Slot(slots[i].sequence, Raw);
      slots[i] := Slot(sequence, slots[i].cell);
    }

    method Size() returns (size: nat)
      requires Valid()
      ensures size == |contents|
    {
      var t := tail;
      var h := head;
      return if t > h then t - h else 0;
    }

    /**
     * Moves every queued object into a new array, leaving none behind in the
     * old one.  The result says that no object was constructed over another,
     * which is so exactly when the new array has room for the contents.
     */
    method ResetCapa(newCapacity: nat) returns (clear: bool)
      requires Valid()
      modifies this, kmap
      ensures clear <==> |contents| <= BitCeil(newCapacity)
      ensures fresh(kmap) && capacity == BitCeil(newCapacity) == kmap.Length
      ensures contents == old(contents) && head == old(head) && tail == old(tail) && stat.Normal? && active == 0
      ensures kmap[..] == Moved(old(kmap[..]), head, tail, capacity)
      ensures forall j :: 0 <= j < old(kmap).Length ==> old(kmap)[j].cell.Raw?
      ensures clear && capacity >= 2 ==> Valid()
    {
      stat := Resizing;
      BitCeilSpec(newCapacity);
      ghost var slots := kmap[..];
      var newMap := NewMap(BitCeil(newCapacity));
      clear := MoveAll(kmap, newMap, head, tail, contents);
      HoldsBuilt(slots, head, tail, contents);
      MoveIsSafeIff(slots, head, tail, newMap.Length);
      if clear && newMap.Length >= 2 {
        HoldsMoved(slots, head, tail, contents, newMap.Length);
      }
      kmap := newMap;
      capacity := newMap.Length;
      stat := Normal;
    }

    /** The migration loop; every step constructs and destroys as the source does, and notes what it constructs over. */
    static method MoveAll(oldMap: array<Slot<T>>, newMap: array<Slot<T>>, h: nat, t: nat, ghost q: seq<T>)
      returns (clear: bool)
      requires oldMap != newMap && IsPow2(oldMap.Length) && IsPow2(newMap.Length)
      requires Holds(oldMap[..], h, t, q) && newMap[..] == FreshSlots(newMap.Length)
      modifies oldMap, newMap
      ensures newMap.Length > 0 && newMap[..] == Moved(old(oldMap[..]), h, t, newMap.Length)
      ensures clear <==> !MoveFaults(old(oldMap[..]), h, t, newMap.Length)
      ensures forall j :: 0 <= j < oldMap.Length ==> oldMap[j].cell.Raw?
    {
      ghost var slots := oldMap[..];
      assert newMap.Length > 0;
      var i := h;
      clear := true;
      MovingStarts(slots, newMap[..], h, t, q);
      while i < t
        invariant h <= i <= t
        invariant Moving(oldMap[..], newMap[..], slots, h, i, t, clear)
      {
        clear := MoveTurn(oldMap, newMap, slots, h, t, q, i, clear);
        i := i + 1;
      }
      LeftNone(oldMap[..], slots, t);
    }

    /** One object on, and what is left. */
    static method MoveTurn(oldMap: array<Slot<T>>, newMap: array<Slot<T>>, ghost slots: seq<Slot<T>>, ghost h: nat,
                           ghost t: nat, ghost q: seq<T>, i: nat, clear: bool) returns (clear': bool)
      requires oldMap != newMap && IsPow2(oldMap.Length) && IsPow2(newMap.Length)
      requires Holds(slots, h, t, q) && h <= i < t && Moving(oldMap[..], newMap[..], slots, h, i, t, clear)
      modifies oldMap, newMap
      ensures Moving(oldMap[..], newMap[..], slots, h, i + 1, t, clear')
    {
      ghost var before := oldMap[..];
      StillThere(before, slots, h, q, i);
      clear' := MoveOne(oldMap, newMap, slots, h, i, clear);
      LeftStep(before, slots, i, t, before[Index(i, |before|)].sequence);
    }

    /** new Node[capa] and the loop that numbers the slots. */
    static method NewMap(capa: nat) returns (data: array<Slot<T>>)
      ensures fresh(data) && data[..] == FreshSlots(capa)
    {
      data := new Slot<T>[capa](_ => Slot(0, Raw));
      var i := 0;
      while i < capa
        invariant 0 <= i <= capa
        invariant forall j :: 0 <= j < i ==> data[j] == Slot(j, Raw)
        invariant forall j :: i <= j < capa ==> data[j].cell.Raw?
      {
        data[i] := Slot(i, data[i].cell);
        i := i + 1;
      }
    }

    /** One turn of the migration: construct at the new place, which should be raw, and destroy at the old. */
    static method MoveOne(oldMap: array<Slot<T>>, newMap: array<Slot<T>>, ghost slots: seq<Slot<T>>, ghost h: nat,
                          i: nat, clear: bool) returns (clear': bool)
      requires oldMap != newMap && |slots| == oldMap.Length && IsPow2(oldMap.Length) && IsPow2(newMap.Length)
      requires h <= i && newMap.Length > 0 && oldMap.Length > 0 && newMap[..] == Moved(slots, h, i, newMap.Length)
      requires oldMap[Index(i, oldMap.Length)] == slots[Index(i, oldMap.Length)]
      requires slots[Index(i, oldMap.Length)].cell.Built?
      requires clear <==> !MoveFaults(slots, h, i, newMap.Length)
      modifies oldMap, newMap
      ensures clear' <==> !MoveFaults(slots, h, i + 1, newMap.Length)
      ensures newMap[..] == Moved(slots, h, i + 1, newMap.Length)
      ensures var from := Index(i, oldMap.Length);
              oldMap[..] == old(oldMap[..])[from := Slot(old(oldMap[from].sequence), Raw)]
    {
      var from, to := BitAnd(i, oldMap.Length - 1), BitAnd(i, newMap.Length - 1);
      IndexIsMask(i, oldMap.Length);
      IndexIsMask(i, newMap.Length);
      assert newMap[to] == newMap[..][to] && oldMap[from].cell.Built?;
      clear' := clear && newMap[to].cell.Raw?;
      MoveFaultsNext(slots, h, i, newMap.Length);
      newMap[to] := Slot(newMap[to].sequence, oldMap[from].cell);
      oldMap[from] := Slot(oldMap[from].sequence, Raw);
      newMap[to] := Slot(i + 1, newMap[to].cell);
    }

    /** The destructor destroys the objects still queued, each once, and no raw slot. */
    method Destroy() returns (ghost destroyed: seq<T>)
      requires Valid()
      modifies kmap
      ensures destroyed == contents
      ensures forall j :: 0 <= j < kmap.Length ==> kmap[j].cell.Raw?
    {
      var h, t := head, tail;
      ghost var slots := kmap[..];
      var i := h;
      destroyed := [];
      LeftStart(slots, h, t, contents);
      while i < t
        invariant h <= i <= t && destroyed == contents[..i - h]
        invariant LeftFrom(kmap[..], slots, i, t)
      {
        IndexIsMask(i, capacity);
        var j := BitAnd(i, capacity - 1);
        ghost var before := kmap[..];
        assert Published(slots, h, contents, i);
        assert Kept(before, slots, i);
        assert kmap[j].cell.Built?;
        destroyed := destroyed + [kmap[j].cell.value];
        kmap[j] := Slot(kmap[j].sequence, Raw);
        LeftStep(before, slots, i, t, before[j].sequence);
        assert kmap[..] == before[j := Slot(before[j].sequence, Raw)];
        i := i + 1;
      }
      LeftNone(kmap[..], slots, t);
    }
  }
}
