/**
 * A ring of slots with sequence numbers, the place of a position in it, and
 * what moving the queued objects into a bigger ring does.
 */
module Ring {
  import opened Bits

  datatype Option<T> = None | Some(value: T)

  /** Node.data_: bytes with no object in them, or one constructed object. */
  datatype Cell<T> = Raw | Built(value: T)

  datatype Slot<T> = Slot(sequence: nat, cell: Cell<T>)

  /** Where position pos lives in a ring of capa slots. */
  function Index(pos: nat, capa: nat): (i: nat)
    requires capa > 0
    ensures i < capa
  {
    if pos < capa then pos else Index(pos - capa, capa)
  }

  /** new Node[capa], with every sequence set to its index. */
  function FreshSlots<T>(capa: nat): seq<Slot<T>> {
    seq(capa, (i: nat) => Slot(i, Raw))
  }

  /** The new array once the objects at positions h..i have been moved into it, in order. */
  function Moved<T>(src: seq<Slot<T>>, h: nat, i: nat, capa: nat): (s: seq<Slot<T>>)
    requires |src| > 0 && capa > 0 && h <= i
    ensures |s| == capa
    decreases i
  {
    if i == h then FreshSlots(capa)
    else Moved(src, h, i - 1, capa)[Index(i - 1, capa) := Slot(i, src[Index(i - 1, |src|)].cell)]
  }

  /** Moving position i goes wrong if its source holds no object or its target already holds one. */
  predicate FaultAt<T>(src: seq<Slot<T>>, h: nat, i: nat, capa: nat)
    requires |src| > 0 && capa > 0 && h <= i
  {
    src[Index(i, |src|)].cell.Raw? || Moved(src, h, i, capa)[Index(i, capa)].cell.Built?
  }

  predicate MoveFaults<T>(src: seq<Slot<T>>, h: nat, t: nat, capa: nat)
    requires |src| > 0 && capa > 0 && h <= t
  {
    exists i :: h <= i < t && FaultAt(src, h, i, capa)
  }

  // ---- Places ----

  lemma {:induction false} IndexInjective(p: nat, q: nat, capa: nat)
    requires capa > 0 && p <= q < p + capa && Index(p, capa) == Index(q, capa)
    ensures p == q
    decreases p
  {
    if p >= capa {
      IndexInjective(p - capa, q - capa, capa);
    }
  }

  lemma IndexApart(p: nat, q: nat, capa: nat)
    requires capa > 0 && p < q < p + capa
    ensures Index(p, capa) != Index(q, capa)
  {
    if Index(p, capa) == Index(q, capa) {
      IndexInjective(p, q, capa);
    }
  }

  /** Neighbours live in different slots: a ring of one slot confuses full and free. */
  lemma IndexNext(p: nat, capa: nat)
    requires capa >= 2
    ensures Index(p + 1, capa) != Index(p, capa)
  {
    IndexApart(p, p + 1, capa);
  }

  lemma {:induction false} IndexIsMod(p: nat, capa: nat)
    requires capa > 0
    ensures Index(p, capa) == p % capa
    decreases p
  {
    if p >= capa {
      IndexIsMod(p - capa, capa);
      DivModUnique(p, capa, (p - capa) / capa + 1, (p - capa) % capa);
    } else {
      DivModUnique(p, capa, 0, p);
    }
  }

  /** For a power of two, pos & (capa - 1) is the place of pos. */
  lemma IndexIsMask(p: nat, capa: nat)
    requires IsPow2(capa)
    ensures capa > 0 && BitAnd(p, capa - 1) == Index(p, capa)
  {
    var k: nat :| capa == Pow2(k);
    MaskIsLow(p, k);
    LowIsMod(p, k);
    IndexIsMod(p, capa);
  }

  // ---- Moving ----

  /** The new array, place by place: the last position moved there, or a fresh slot. */
  lemma {:induction false} MovedAt<T>(src: seq<Slot<T>>, h: nat, i: nat, capa: nat, p: nat)
    requires |src| > 0 && capa > 0 && h <= p < i <= h + capa
    ensures Moved(src, h, i, capa)[Index(p, capa)] == Slot(p + 1, src[Index(p, |src|)].cell)
    decreases i
  {
    if p < i - 1 {
      MovedAt(src, h, i - 1, capa, p);
      if Index(p, capa) == Index(i - 1, capa) {
        IndexInjective(p, i - 1, capa);
      }
    }
  }

  lemma {:induction false} MovedElsewhere<T>(src: seq<Slot<T>>, h: nat, i: nat, capa: nat, j: nat)
    requires |src| > 0 && capa > 0 && h <= i && j < capa
    requires forall p :: h <= p < i ==> Index(p, capa) != j
    ensures Moved(src, h, i, capa)[j] == Slot(j, Raw)
    decreases i
  {
    if i > h {
      MovedElsewhere(src, h, i - 1, capa, j);
    }
  }

  /** One more object to move: the new fault, if any, is at its place. */
  lemma MoveFaultsNext<T>(src: seq<Slot<T>>, h: nat, i: nat, capa: nat)
    requires |src| > 0 && capa > 0 && h <= i
    ensures MoveFaults(src, h, i + 1, capa) <==> MoveFaults(src, h, i, capa) || FaultAt(src, h, i, capa)
  {
  }

  /** Moving n objects into at least n slots never constructs over an object. */
  lemma MoveIsSafe<T>(src: seq<Slot<T>>, h: nat, t: nat, capa: nat)
    requires |src| > 0 && capa > 0 && h <= t <= h + capa
    requires forall p :: h <= p < t ==> src[Index(p, |src|)].cell.Built?
    ensures !MoveFaults(src, h, t, capa)
  {
    forall i | h <= i < t
      ensures !FaultAt(src, h, i, capa)
    {
      forall p | h <= p < i
        ensures Index(p, capa) != Index(i, capa)
      {
        IndexApart(p, i, capa);
      }
      MovedElsewhere(src, h, i, capa, Index(i, capa));
    }
  }

  /**
   * Moving is safe exactly when the queued objects fit the new array: a stale
   * request for less room constructs one object over another.
   */
  lemma MoveIsSafeIff<T>(src: seq<Slot<T>>, h: nat, t: nat, capa: nat)
    requires |src| > 0 && capa > 0 && h <= t
    requires forall p :: h <= p < t ==> src[Index(p, |src|)].cell.Built?
    ensures !MoveFaults(src, h, t, capa) <==> t <= h + capa
  {
    if t <= h + capa {
      MoveIsSafe(src, h, t, capa);
    } else {
      MoveOverruns(src, h, t, capa);
    }
  }

  /** The object one array length after the first is constructed over it. */
  lemma MoveOverruns<T>(src: seq<Slot<T>>, h: nat, t: nat, capa: nat)
    requires |src| > 0 && capa > 0 && h + capa < t
    requires forall p :: h <= p < t ==> src[Index(p, |src|)].cell.Built?
    ensures MoveFaults(src, h, t, capa)
  {
    var i := h + capa;
    MovedAt(src, h, i, capa, h);
    assert Index(i, capa) == Index(h, capa);
    assert src[Index(h, |src|)].cell.Built?;
    assert FaultAt(src, h, i, capa);
  }
}
