/**
 * Bitwise operators and powers of two.  Everything is defined bit by bit, so
 * that the proofs stay linear; the last section says what the definitions
 * amount to in terms of *, / and %.
 */
module Bits {

  function Pow2(k: nat): (p: nat)
    ensures p >= 1
  {
    if k == 0 then 1 else 2 * Pow2(k - 1)
  }

  /** x * 2^k. */
  function Shl(x: int, k: nat): int {
    if k == 0 then x else 2 * Shl(x, k - 1)
  }

  /** x / 2^k, rounded down. */
  function High(x: int, k: nat): int
    decreases k
  {
    if k == 0 then x else High(x / 2, k - 1)
  }

  /** x modulo 2^k, which for a negative x is its two's complement. */
  function Low(x: int, k: nat): (r: nat)
    ensures r < Pow2(k)
    decreases k
  {
    if k == 0 then 0 else x % 2 + 2 * Low(x / 2, k - 1)
  }

  function BitAnd(a: nat, b: nat): nat {
    if a == 0 || b == 0 then 0
    else (if a % 2 == 1 && b % 2 == 1 then 1 else 0) + 2 * BitAnd(a / 2, b / 2)
  }

  function BitOr(a: nat, b: nat): nat
    decreases a + b
  {
    if a == 0 then b
    else if b == 0 then a
    else (if a % 2 == 1 || b % 2 == 1 then 1 else 0) + 2 * BitOr(a / 2, b / 2)
  }

  /** The smallest power of two that is at least n, as std::bit_ceil. */
  function BitCeil(n: nat): (p: nat)
    ensures p >= 1
  {
    if n <= 1 then 1 else 2 * BitCeil((n + 1) / 2)
  }

  ghost predicate IsPow2(n: nat) {
    exists k: nat :: n == Pow2(k)
  }

  // ---- Shifting ----

  lemma {:induction false} ShlAdd(x: int, y: int, k: nat)
    ensures Shl(x + y, k) == Shl(x, k) + Shl(y, k)
  {
    if k > 0 {
      ShlAdd(x, y, k - 1);
    }
  }

  lemma {:induction false} ShlZero(k: nat)
    ensures Shl(0, k) == 0
  {
    if k > 0 {
      ShlZero(k - 1);
    }
  }

  lemma {:induction false} ShlShl(x: int, a: nat, b: nat)
    ensures Shl(Shl(x, a), b) == Shl(x, a + b)
    decreases b
  {
    if b > 0 {
      ShlShl(x, a, b - 1);
    }
  }

  lemma {:induction false} ShlOne(k: nat)
    ensures Shl(1, k) == Pow2(k)
  {
    if k > 0 {
      ShlOne(k - 1);
    }
  }

  /** Shifting keeps order, with a gap of at least 2^k. */
  lemma {:induction false} ShlGap(x: int, y: int, k: nat)
    requires x < y
    ensures Shl(x, k) + Pow2(k) <= Shl(y, k)
  {
    if k > 0 {
      ShlGap(x, y, k - 1);
    }
  }

  // ---- Splitting ----

  lemma {:induction false} Split(x: int, k: nat)
    ensures x == Low(x, k) + Shl(High(x, k), k)
    decreases k
  {
    if k > 0 {
      Split(x / 2, k - 1);
    }
  }

  /** There is only one way to split. */
  lemma {:induction false} SplitUnique(x: int, r: nat, q: int, k: nat)
    requires x == r + Shl(q, k) && r < Pow2(k)
    ensures Low(x, k) == r && High(x, k) == q
    decreases k
  {
    if k > 0 {
      SplitUnique(x / 2, r / 2, q, k - 1);
    }
  }

  lemma LowSmall(x: nat, k: nat)
    requires x < Pow2(k)
    ensures Low(x, k) == x && High(x, k) == 0
  {
    ShlZero(k);
    SplitUnique(x, x, 0, k);
  }

  /** Multiples of 2^k do not show below bit k. */
  lemma LowAddShl(x: int, y: int, k: nat)
    ensures Low(x + Shl(y, k), k) == Low(x, k) && High(x + Shl(y, k), k) == High(x, k) + y
  {
    Split(x, k);
    ShlAdd(High(x, k), y, k);
    SplitUnique(x + Shl(y, k), Low(x, k), High(x, k) + y, k);
  }

  /** Splitting at a, then the upper part at b, is splitting at a + b. */
  lemma {:induction false} LowTwice(x: int, a: nat, b: nat)
    ensures Low(x, a + b) == Low(x, a) + Shl(Low(High(x, a), b), a)
    ensures High(x, a + b) == High(High(x, a), b)
    decreases a
  {
    if a > 0 {
      LowTwice(x / 2, a - 1, b);
    }
  }

  lemma LowOfLow(x: int, a: nat, b: nat)
    requires a <= b
    ensures Low(Low(x, b), a) == Low(x, a)
  {
    LowTwice(x, a, b - a);
    LowAddShl(Low(x, a), Low(High(x, a), b - a), a);
    LowSmall(Low(x, a), a);
  }

  /** The low bits of a shifted number. */
  lemma {:induction false} LowOfShl(x: int, s: nat, k: nat)
    ensures Low(Shl(x, s), k) == if s <= k then Shl(Low(x, k - s), s) else 0
    decreases s
  {
    if s > 0 && k > 0 {
      LowOfShl(x, s - 1, k - 1);
    }
  }

  /** Equal low bits mean a difference with none. */
  lemma LowEqualIff(x: int, y: int, k: nat)
    ensures Low(x, k) == Low(y, k) <==> Low(x - y, k) == 0
  {
    Split(x, k);
    Split(y, k);
    var q := High(x, k) - High(y, k);
    ShlAdd(q, High(y, k), k);
    var d := Low(x, k) - Low(y, k);
    LowAddShl(d, q, k);
    if d >= 0 {
      LowSmall(d, k);
    } else {
      ShlOne(k);
      LowAddShl(d, 1, k);
      LowSmall(d + Pow2(k), k);
    }
  }

  // ---- And, or ----

  /** Masking with 2^k - 1 keeps the k low bits. */
  lemma {:induction false} MaskIsLow(a: nat, k: nat)
    ensures BitAnd(a, Pow2(k) - 1) == Low(a, k)
    decreases k
  {
    if k > 0 {
      MaskIsLow(a / 2, k - 1);
      assert (Pow2(k) - 1) % 2 == 1 && (Pow2(k) - 1) / 2 == Pow2(k - 1) - 1;
      if a == 0 {
        LowSmall(0, k);
      }
    }
  }

  /** Where the set bits of a and b lie on different sides of bit k, or is addition. */
  lemma {:induction false} OrDisjoint(a: nat, b: nat, k: nat)
    requires Low(a, k) == 0 && b < Pow2(k)
    ensures BitOr(a, b) == a + b
  {
    if k > 0 && a > 0 && b > 0 {
      OrDisjoint(a / 2, b / 2, k - 1);
    }
  }

  // ---- bit_ceil ----

  /** bit_ceil is the least power of two not below n. */
  lemma {:induction false} BitCeilSpec(n: nat)
    ensures IsPow2(BitCeil(n)) && n <= BitCeil(n)
    ensures forall k: nat :: n <= Pow2(k) ==> BitCeil(n) <= Pow2(k)
  {
    if n <= 1 {
      assert BitCeil(n) == Pow2(0);
    } else {
      var h := (n + 1) / 2;
      BitCeilSpec(h);
      var k: nat :| BitCeil(h) == Pow2(k);
      assert BitCeil(n) == Pow2(k + 1);
      forall j: nat | n <= Pow2(j)
        ensures BitCeil(n) <= Pow2(j)
      {
        assert j > 0 && h <= Pow2(j - 1);
      }
    }
  }

  lemma BitCeilPow2(n: nat)
    requires IsPow2(n)
    ensures BitCeil(n) == n
  {
    BitCeilSpec(n);
  }

  lemma DoublePow2(n: nat)
    requires IsPow2(n)
    ensures IsPow2(2 * n) && BitCeil(2 * n) == 2 * n
  {
    var k: nat :| n == Pow2(k);
    assert 2 * n == Pow2(k + 1);
    BitCeilPow2(2 * n);
  }

  // ---- In terms of *, / and % ----

  lemma {:induction false} ShlIsTimes(x: int, k: nat)
    ensures Shl(x, k) == x * Pow2(k)
  {
    if k > 0 {
      ShlIsTimes(x, k - 1);
      assert 2 * (x * Pow2(k - 1)) == x * (2 * Pow2(k - 1));
    }
  }

  lemma DivModUnique(a: int, m: nat, q: int, r: nat)
    requires m > 0 && a == m * q + r && r < m
    ensures a / m == q && a % m == r
  {
    var d := a / m - q;
    assert a == m * (a / m) + a % m;
    assert m * (a / m) - m * q == m * d;
    assert m * d == r - a % m;
    assert d > 0 ==> m * d >= m;
    assert d < 0 ==> m * d <= 0 - m;
  }

  lemma LowIsMod(x: int, k: nat)
    ensures Low(x, k) == x % Pow2(k) && High(x, k) == x / Pow2(k)
  {
    var m, q, r := Pow2(k), High(x, k), Low(x, k);
    assert x == m * q + r by {
      Split(x, k);
      ShlIsTimes(q, k);
    }
    DivModUnique(x, m, q, r);
  }
}
