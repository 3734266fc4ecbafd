/** Counting the threads of a system that satisfy a predicate. */
module Counting {

  function Where<T>(threads: map<nat, T>, p: T -> bool): set<nat> {
    set t | t in threads && p(threads[t])
  }

  function Count<T>(threads: map<nat, T>, p: T -> bool): nat {
    |Where(threads, p)|
  }

  function One(b: bool): nat {
    if b then 1 else 0
  }

  lemma WhereUpdate<T>(threads: map<nat, T>, t: nat, x: T, p: T -> bool)
    requires t in threads
    ensures Where(threads[t := x], p) - {t} == Where(threads, p) - {t}
    ensures t in Where(threads[t := x], p) <==> p(x)
    ensures t in Where(threads, p) <==> p(threads[t])
  {
  }

  /** Changing one entry moves the count by exactly that entry. */
  lemma CountUpdate<T>(threads: map<nat, T>, t: nat, x: T, p: T -> bool)
    requires t in threads
    ensures Count(threads[t := x], p) + One(p(threads[t])) == Count(threads, p) + One(p(x))
  {
    var after := Where(threads[t := x], p);
    WhereUpdate(threads, t, x, p);
    SplitOff(Where(threads, p), t);
    SplitOff(after, t);
  }

  lemma SplitOff<T>(s: set<T>, x: T)
    ensures |s| == |s - {x}| + One(x in s)
  {
    if x in s {
      assert s == (s - {x}) + {x};
    } else {
      assert s == s - {x};
    }
  }

  /** Two systems whose threads agree on p pointwise have the same count. */
  lemma CountSame<T>(a: map<nat, T>, b: map<nat, T>, p: T -> bool)
    requires a.Keys == b.Keys
    requires forall t :: t in a ==> p(a[t]) == p(b[t])
    ensures Count(a, p) == Count(b, p)
  {
    assert Where(a, p) == Where(b, p);
  }

  lemma CountBound<T>(threads: map<nat, T>, p: T -> bool)
    ensures Count(threads, p) <= |threads|
  {
    SubsetSize(Where(threads, p), threads.Keys);
  }

  lemma SubsetSize<T>(a: set<T>, b: set<T>)
    requires a <= b
    ensures |a| <= |b|
  {
    assert b == a + (b - a);
  }

  /** A positive count has a witness, and a witness makes the count positive. */
  lemma CountPositive<T>(threads: map<nat, T>, p: T -> bool)
    ensures Count(threads, p) > 0 <==> exists t :: t in threads && p(threads[t])
  {
    var found := Where(threads, p);
    if t :| t in threads && p(threads[t]) {
      assert t in found;
    }
    if |found| > 0 {
      var t :| t in found;
    }
  }

  /** A count of at most one has at most one witness. */
  lemma CountUnique<T>(threads: map<nat, T>, p: T -> bool, t: nat, u: nat)
    requires Count(threads, p) <= 1
    requires t in threads && u in threads && p(threads[t]) && p(threads[u])
    ensures t == u
  {
    if t != u {
      SubsetSize({t, u}, Where(threads, p));
    }
  }
}
