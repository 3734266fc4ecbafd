/** Little-endian sequences of 64-bit limbs and the naturals they stand for. */
module Limbs {
  import opened Bits

  const BASE: nat := 0x1_0000_0000_0000_0000

  type u64 = x: nat | x < BASE

  function Value(s: seq<u64>): nat {
    if s == [] then 0 else s[0] + BASE * Value(s[1..])
  }

  /** x * BASE^n: what x is worth from limb n on. */
  function Scale(x: int, n: nat): int {
    if n == 0 then x else BASE * Scale(x, n - 1)
  }

  // ---- Scaling ----

  lemma {:induction false} ScaleAdd(x: int, y: int, n: nat)
    ensures Scale(x + y, n) == Scale(x, n) + Scale(y, n)
  {
    if n > 0 {
      ScaleAdd(x, y, n - 1);
    }
  }

  lemma {:induction false} ScaleZero(n: nat)
    ensures Scale(0, n) == 0
  {
    if n > 0 {
      ScaleZero(n - 1);
    }
  }

  lemma {:induction false} ScaleScale(x: int, m: nat, n: nat)
    ensures Scale(Scale(x, m), n) == Scale(x, m + n)
    decreases n
  {
    if n > 0 {
      ScaleScale(x, m, n - 1);
    }
  }

  lemma {:induction false} ScaleNext(x: int, n: nat)
    ensures Scale(BASE * x, n) == Scale(x, n + 1)
  {
    if n > 0 {
      ScaleNext(x, n - 1);
    }
  }

  lemma Shl4(x: int)
    ensures Shl(x, 4) == 0x10 * x
  {
    assert Shl(x, 1) == 2 * Shl(x, 0);
    assert Shl(x, 2) == 2 * Shl(x, 1);
    assert Shl(x, 3) == 2 * Shl(x, 2);
    assert Shl(x, 4) == 2 * Shl(x, 3);
  }

  lemma Shl16(x: int)
    ensures Shl(x, 16) == 0x1_0000 * x
  {
    Shl4(x);
    Shl4(Shl(x, 4));
    ShlShl(x, 4, 4);
    Shl4(Shl(x, 8));
    ShlShl(x, 8, 4);
    Shl4(Shl(x, 12));
    ShlShl(x, 12, 4);
  }

  /** One limb is 64 bits. */
  lemma Shl64(x: int)
    ensures Shl(x, 64) == BASE * x
  {
    Shl16(x);
    Shl16(Shl(x, 16));
    ShlShl(x, 16, 16);
    Shl16(Shl(x, 32));
    ShlShl(x, 32, 16);
    Shl16(Shl(x, 48));
    ShlShl(x, 48, 16);
  }

  lemma {:induction false} ScaleIsShl(x: int, n: nat)
    ensures Scale(x, n) == Shl(x, 64 * n)
  {
    if n > 0 {
      ScaleIsShl(x, n - 1);
      Shl64(Shl(x, 64 * (n - 1)));
      ShlShl(x, 64 * (n - 1), 64);
    }
  }

  // ---- Values ----

  lemma {:induction false} ValueConcat(a: seq<u64>, b: seq<u64>)
    ensures Value(a + b) == Value(a) + Scale(Value(b), |a|)
  {
    if a == [] {
      assert a + b == b;
    } else {
      ValueConcat(a[1..], b);
      assert (a + b)[1..] == a[1..] + b;
    }
  }

  lemma ValueSplit(s: seq<u64>, i: nat)
    requires i <= |s|
    ensures Value(s) == Value(s[..i]) + Scale(Value(s[i..]), i)
  {
    assert s == s[..i] + s[i..];
    ValueConcat(s[..i], s[i..]);
  }

  /** One more limb at the top. */
  lemma ValueNext(s: seq<u64>, i: nat)
    requires i < |s|
    ensures Value(s[..i + 1]) == Value(s[..i]) + Scale(s[i], i)
  {
    assert s[..i + 1] == s[..i] + [s[i]];
    ValueConcat(s[..i], [s[i]]);
    assert Value([s[i]]) == s[i];
  }

  lemma {:induction false} ValueBound(s: seq<u64>)
    ensures Value(s) < Scale(1, |s|)
  {
    if s != [] {
      ValueBound(s[1..]);
    }
  }

  lemma ValueFits(s: seq<u64>)
    ensures Value(s) < Pow2(64 * |s|)
  {
    ValueBound(s);
    ScaleIsShl(1, |s|);
    ShlOne(64 * |s|);
  }

  function Zeros(n: nat): seq<u64> {
    seq(n, _ => 0)
  }

  function Ones(n: nat): seq<u64> {
    seq(n, _ => BASE - 1)
  }

  lemma {:induction false} ValueZeros(n: nat)
    ensures Value(Zeros(n)) == 0
  {
    if n > 0 {
      ValueZeros(n - 1);
      assert Zeros(n)[1..] == Zeros(n - 1);
    }
  }

  lemma {:induction false} ValueOnes(n: nat)
    ensures Value(Ones(n)) == Scale(1, n) - 1
  {
    if n > 0 {
      ValueOnes(n - 1);
      assert Ones(n)[1..] == Ones(n - 1);
    }
  }

  /** Zeros above limb i add nothing. */
  lemma ZerosAbove(s: seq<u64>, i: nat)
    requires i <= |s| && s[i..] == Zeros(|s| - i)
    ensures Value(s) == Value(s[..i])
  {
    ValueSplit(s, i);
    ValueZeros(|s| - i);
    ScaleZero(i);
  }

  // ---- The width ----

  /** Replacing the top limb by its r low bits keeps the low 64n + r bits of the value. */
  lemma ReduceTop(s: seq<u64>, n: nat, r: nat, top: u64)
    requires |s| == n + 1 && top == Low(s[n], r)
    ensures Value(s[n := top]) == Low(Value(s), 64 * n + r)
  {
    var low := ValueTop(s, n);
    TopReplaced(s, n, top, low);
    ReducedSum(Value(s), Value(s[n := top]), low, s[n], top, 64 * n, r);
  }

  lemma ReducedSum(v: nat, v': nat, low: nat, x: nat, top: nat, k: nat, r: nat)
    requires low < Pow2(k) && v == low + Shl(x, k) && v' == low + Shl(top, k) && top == Low(x, r)
    ensures v' == Low(v, k + r)
  {
    LowOfSum(low, x, k, r);
  }

  lemma TopReplaced(s: seq<u64>, n: nat, top: u64, low: nat)
    requires |s| == n + 1 && low == Value(s[..n])
    ensures Value(s[n := top]) == low + Shl(top, 64 * n)
  {
    assert s[n := top][..n] == s[..n];
    var low' := ValueTop(s[n := top], n);
  }

  lemma LowOfSum(low: nat, x: int, k: nat, r: nat)
    requires low < Pow2(k)
    ensures Low(low + Shl(x, k), k + r) == low + Shl(Low(x, r), k)
  {
    LowTwice(low + Shl(x, k), k, r);
    SplitUnique(low + Shl(x, k), low, x, k);
  }

  /** The top limb is what is above the bits of the others. */
  lemma ValueTop(s: seq<u64>, n: nat) returns (low: nat)
    requires |s| == n + 1
    ensures low == Value(s[..n]) < Pow2(64 * n) && Value(s) == low + Shl(s[n], 64 * n)
  {
    low := Value(s[..n]);
    assert s[..n + 1] == s;
    ValueNext(s, n);
    ScaleIsShl(s[n], n);
    ValueFits(s[..n]);
  }

  lemma {:induction false} LowAtMost(x: nat, k: nat)
    ensures Low(x, k) <= x
    decreases k
  {
    if k > 0 {
      LowAtMost(x / 2, k - 1);
    }
  }

  /** Masking a limb with r ones. */
  lemma MaskLimb(x: u64, r: nat)
    ensures BitAnd(x, Pow2(r) - 1) == Low(x, r) < BASE
  {
    MaskIsLow(x, r);
    LowAtMost(x, r);
  }

  /** What is carried past the last limb does not show in the width. */
  lemma DropCarry(x: int, k: int, n: nat, bits: nat)
    requires bits <= 64 * n
    ensures Low(x + Scale(k, n), bits) == Low(x, bits)
  {
    ScaleIsShl(k, n);
    ShlShl(k, 64 * n - bits, bits);
    LowAddShl(x, Shl(k, 64 * n - bits), bits);
  }

  /** A part at limb n shows in the width exactly as its own low bits do. */
  lemma HighPartShows(x: int, hi: int, n: nat, bits: nat)
    ensures Low(x, bits) == Low(x + Scale(hi, n), bits) <==> bits <= 64 * n || Low(hi, bits - 64 * n) == 0
  {
    var y := Scale(hi, n);
    LowEqualIff(x + y, x, bits);
    ScaleIsShl(hi, n);
    LowOfShl(hi, 64 * n, bits);
    if bits > 64 * n {
      ShlZero(64 * n);
      if Low(hi, bits - 64 * n) > 0 {
        ShlGap(0, Low(hi, bits - 64 * n), 64 * n);
      }
    } else if bits == 64 * n {
      ShlZero(64 * n);
    }
  }
}
