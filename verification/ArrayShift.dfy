/** Shifts of fixed-width integers, between numbers of different widths or in place. */
module ArrayShift {
  import opened Bits
  import opened Limbs
  import opened ArrayUint

  // ---- Shifting one limb ----

  /** x << r on a limb. */
  function Lsh(x: u64, r: nat): u64 {
    Shl(x, r) % BASE
  }

  /** x >> r on a limb. */
  function Rsh(x: u64, r: nat): u64 {
    HighAtMost(x, r);
    High(x, r)
  }

  lemma {:induction false} HighAtMost(x: nat, k: nat)
    ensures 0 <= High(x, k) <= x
    decreases k
  {
    if k > 0 {
      HighAtMost(x / 2, k - 1);
    }
  }

  /** A limb is less than 2^64, written so that r and 64 - r bits make it up. */
  lemma BaseSplit(r: nat)
    requires r <= 64
    ensures Shl(Pow2(64 - r), r) == BASE
  {
    ShlOne(64 - r);
    ShlShl(1, 64 - r, r);
    Shl64(1);
  }

  /** The bits of a limb above 64 - r are fewer than r. */
  lemma HighFits(x: u64, r: nat)
    requires r <= 64
    ensures 0 <= High(x, 64 - r) < Pow2(r)
  {
    var q := High(x, 64 - r);
    HighAtMost(x, 64 - r);
    Split(x, 64 - r);
    BaseSplit(64 - r);
    if q > Pow2(r) {
      ShlGap(Pow2(r), q, 64 - r);
    }
  }

  /** What a left shift by r keeps of a limb, and what it moves out. */
  lemma LshParts(x: u64, r: nat)
    requires r <= 64
    ensures Lsh(x, r) == Shl(Low(x, 64 - r), r)
    ensures Shl(x, r) == Lsh(x, r) + BASE * High(x, 64 - r)
  {
    ShlSpills(x, r);
    ShlBelow(Low(x, 64 - r), r);
    WrapsTo(Shl(x, r), Shl(Low(x, 64 - r), r), High(x, 64 - r));
  }

  lemma ShlSpills(x: u64, r: nat)
    requires r <= 64
    ensures Shl(x, r) == Shl(Low(x, 64 - r), r) + BASE * High(x, 64 - r)
  {
    var hi, lo := High(x, 64 - r), Low(x, 64 - r);
    Split(x, 64 - r);
    ShlAdd(lo, Shl(hi, 64 - r), r);
    ShlShl(hi, 64 - r, r);
    Shl64(hi);
  }

  lemma WrapsTo(x: int, r: nat, q: int)
    requires x == r + BASE * q && r < BASE
    ensures x % BASE == r
  {
  }

  lemma ShlBelow(lo: nat, r: nat)
    requires r <= 64 && lo < Pow2(64 - r)
    ensures 0 <= Shl(lo, r) && Shl(lo, r) + Pow2(r) <= BASE
  {
    BaseSplit(r);
    ShlGap(lo, Pow2(64 - r), r);
    ShlZero(r);
    if lo > 0 {
      ShlGap(0, lo, r);
    }
  }

  /** The two halves a shift puts together share no bit. */
  lemma LshOr(x: u64, y: u64, r: nat)
    requires r <= 64
    ensures BitOr(Lsh(x, r), Rsh(y, 64 - r)) == Lsh(x, r) + Rsh(y, 64 - r) < BASE
  {
    HighFits(y, r);
    LshParts(x, r);
    OrHalves(Low(x, 64 - r), Rsh(y, 64 - r), r);
  }

  lemma OrHalves(hi: nat, lo: nat, r: nat)
    requires r <= 64 && hi < Pow2(64 - r) && lo < Pow2(r)
    ensures 0 <= Shl(hi, r) && BitOr(Shl(hi, r), lo) == Shl(hi, r) + lo < BASE
  {
    ShlBelow(hi, r);
    ShlHasNoLow(hi, r);
    OrDisjoint(Shl(hi, r), lo, r);
  }

  lemma ShlHasNoLow(x: int, r: nat)
    ensures Low(Shl(x, r), r) == 0
  {
    LowOfShl(x, r, r);
    assert Low(x, 0) == 0;
    ShlZero(r);
  }

  // ---- Left shift ----

  /** Limb i of s << r, for r below 64; limb |s| takes what the last one spills. */
  function LshLimb(s: seq<u64>, i: nat, r: nat): u64
    requires i <= |s| && r < 64
  {
    if i == 0 then (if s == [] then 0 else Lsh(s[0], r))
    else if i == |s| then Rsh(s[i - 1], 64 - r)
    else (LshOr(s[i], s[i - 1], r); Lsh(s[i], r) + Rsh(s[i - 1], 64 - r))
  }

  /** The first i limbs of o are those of s << r, but for what they spill. */
  lemma {:induction false} LshValue(o: seq<u64>, s: seq<u64>, r: nat, i: nat)
    requires i <= |o| && i <= |s| && r < 64
    requires forall j :: 0 <= j < i ==> o[j] == LshLimb(s, j, r)
    ensures Value(o[..i]) + Scale(if i == 0 then 0 else High(s[i - 1], 64 - r), i) == Shl(Value(s[..i]), r)
  {
    if i == 0 {
      ShlZero(r);
    } else {
      LshValue(o, s, r, i - 1);
      ValueNext(o, i - 1);
      ValueNext(s, i - 1);
      ShlAdd(Value(s[..i - 1]), Scale(s[i - 1], i - 1), r);
      ShlScale(s[i - 1], i - 1, r);
      LshParts(s[i - 1], r);
      ScaleAdd(Lsh(s[i - 1], r), BASE * High(s[i - 1], 64 - r), i - 1);
      ScaleNext(High(s[i - 1], 64 - r), i - 1);
      if i == 1 {
        ScaleZero(0);
      } else {
        ScaleAdd(Lsh(s[i - 1], r), High(s[i - 2], 64 - r), i - 1);
      }
    }
  }

  lemma {:induction false} ShlScale(x: int, n: nat, r: nat)
    ensures Shl(Scale(x, n), r) == Scale(Shl(x, r), n)
  {
    ScaleIsShl(x, n);
    ScaleIsShl(Shl(x, r), n);
    ShlShl(x, 64 * n, r);
    ShlShl(x, r, 64 * n);
  }

  /** The limbs of s << r, one more for what it spills, and zeros, as far as there is room. */
  predicate LshBody(body: seq<u64>, s: seq<u64>, r: nat)
    requires r < 64 && s != []
  {
    && (forall j :: 0 <= j <= |s| && j < |body| ==> body[j] == LshLimb(s, j, r))
    && (forall j :: |s| < j < |body| ==> body[j] == 0)
  }

  /** k zero limbs below the limbs of s << r are those of s << shift, modulo the width. */
  lemma LshWhole(o: seq<u64>, s: seq<u64>, k: nat, r: nat, bits: nat)
    requires |o| == Blocks(bits) && k < |o| && r < 64 && s != []
    requires o[..k] == Zeros(k) && LshBody(o[k..], s, r)
    ensures Low(Value(o), bits) == Low(Shl(Value(s), 64 * k + r), bits)
  {
    var body := o[k..];
    assert Value(o) == Scale(Value(body), k) by {
      ValueSplit(o, k);
      ValueZeros(k);
    }
    assert Shl(Value(s), 64 * k + r) == Scale(Shl(Value(s), r), k) by {
      ShlShl(Value(s), r, 64 * k);
      ScaleIsShl(Shl(Value(s), r), k);
    }
    if |s| < |body| {
      LshBodyWhole(body, s, r);
    } else {
      LshBodyCut(body, s, r, k, bits);
    }
  }

  lemma LshBodyWhole(body: seq<u64>, s: seq<u64>, r: nat)
    requires r < 64 && 0 < |s| < |body| && LshBody(body, s, r)
    ensures Value(body) == Shl(Value(s), r)
  {
    var n := |s|;
    LshValue(body, s, r, n);
    assert s[..n] == s;
    assert body[n + 1..] == Zeros(|body| - n - 1);
    ZerosAbove(body, n + 1);
    ValueNext(body, n);
  }

  /** What the limbs of the body leave of the shifted value. */
  lemma LshBodyRest(body: seq<u64>, s: seq<u64>, r: nat) returns (more: int)
    requires r < 64 && 0 < |body| <= |s| && LshBody(body, s, r)
    ensures Shl(Value(s), r) == Value(body) + Scale(more, |body|)
  {
    var n := |body|;
    var spill, rest := High(s[n - 1], 64 - r), Value(s[n..]);
    LshValue(body, s, r, n);
    assert body[..n] == body;
    ValueSplit(s, n);
    ShlAdd(Value(s[..n]), Scale(rest, n), r);
    ShlScale(rest, n, r);
    more := spill + Shl(rest, r);
    ScaleAdd(spill, Shl(rest, r), n);
  }

  /** The limbs that do not fit only matter above the width. */
  lemma LshBodyCut(body: seq<u64>, s: seq<u64>, r: nat, k: nat, bits: nat)
    requires r < 64 && 0 < |body| <= |s| && bits <= 64 * (k + |body|) && LshBody(body, s, r)
    ensures Low(Scale(Value(body), k), bits) == Low(Scale(Shl(Value(s), r), k), bits)
  {
    var n := |body|;
    var more := LshBodyRest(body, s, r);
    ScaleAdd(Value(body), Scale(more, n), k);
    ScaleScale(more, n, k);
    DropCarry(Scale(Value(body), k), more, n + k, bits);
  }

  // ---- The loops ----

  /** The shifted limbs of s are in d from limb off on: n of them, and the spilled one if it has a place. */
  predicate Placed(d: seq<u64>, s: seq<u64>, n: nat, off: nat, r: nat)
    requires r < 64 && n <= |s| && off + n <= |d| && (off + n < |d| ==> n == |s|)
  {
    forall j :: 0 <= j <= n && off + j < |d| ==> d[off + j] == LshLimb(s, j, r)
  }

  /** std::copy and std::copy_backward: n limbs of src to dst, off limbs up. */
  method CopyUp(dst: array<u64>, src: array<u64>, n: nat, off: nat, backward: bool)
    requires n <= src.Length && off + n <= dst.Length && (dst == src && off > 0 ==> backward)
    modifies dst
    ensures forall j :: 0 <= j < n ==> dst[off + j] == old(src[j])
  {
    ghost var s := src[..];
    if backward {
      var i := n;
      while i > 0
        invariant 0 <= i <= n
        invariant forall j :: 0 <= j < i ==> src[j] == s[j]
        invariant forall j :: i <= j < n ==> dst[off + j] == s[j]
      {
        dst[off + i - 1] := src[i - 1];
        i := i - 1;
      }
    } else {
      var i := 0;
      while i < n
        invariant 0 <= i <= n
        invariant forall j :: i <= j < n ==> src[j] == s[j]
        invariant forall j :: 0 <= j < i ==> dst[off + j] == s[j]
      {
        dst[off + i] := src[i];
        i := i + 1;
      }
    }
  }

  /** The loop for two different arrays, low limb first. */
  method ShiftForward(dst: array<u64>, src: array<u64>, n: nat, off: nat, r: nat)
    requires dst != src && 0 < n <= src.Length && off + n <= dst.Length && 0 < r < 64
    requires off + n < dst.Length ==> n == src.Length
    modifies dst
    ensures Placed(dst[..], src[..], n, off, r)
  {
    var prev: u64 := 0;
    var i := 0;
    HighAtMost(0, 64 - r);
    while i < n
      invariant 0 <= i <= n
      invariant prev == if i == 0 then 0 else src[i - 1]
      invariant forall j :: 0 <= j < i ==> dst[off + j] == LshLimb(src[..], j, r)
    {
      var cur := src[i];
      LshOr(cur, prev, r);
      dst[i + off] := BitOr(Lsh(cur, r), Rsh(prev, 64 - r));
      prev := cur;
      i := i + 1;
    }
    if n + off < dst.Length {
      dst[n + off] := Rsh(prev, 64 - r);
    }
  }

  /** The loop for overlapping arrays, high limb first. */
  method ShiftBackward(dst: array<u64>, src: array<u64>, n: nat, off: nat, r: nat)
    requires 0 < n <= src.Length && off + n <= dst.Length && 0 < r < 64
    requires off + n < dst.Length ==> n == src.Length && dst != src
    modifies dst
    ensures Placed(dst[..], old(src[..]), n, off, r)
  {
    ghost var s := src[..];
    var i := n;
    while i > 0
      invariant 0 <= i <= n
      invariant dst == src ==> forall j :: 0 <= j < i ==> src[j] == s[j]
      invariant forall j :: i <= j < n ==> dst[off + j] == LshLimb(s, j, r)
    {
      var idx := i - 1;
      var cur := src[idx];
      var low: u64 := 0;
      if idx > 0 {
        low := Rsh(src[idx - 1], 64 - r);
        LshOr(cur, src[idx - 1], r);
      } else {
        OrZero(Lsh(cur, r));
      }
      dst[idx + off] := BitOr(Lsh(cur, r), low);
      i := i - 1;
    }
    if n + off < dst.Length {
      dst[n + off] := Rsh(src[n - 1], 64 - r);
    }
  }

  lemma OrZero(x: nat)
    ensures BitOr(x, 0) == x
  {
  }

  /** A whole-limb shift places the limbs themselves, and spills nothing. */
  lemma WholeLimb(s: seq<u64>, j: nat)
    requires j <= |s|
    ensures LshLimb(s, j, 0) == if j < |s| then s[j] else 0
  {
    if j > 0 {
      HighFits(s[j - 1], 0);
    }
  }

  /**
   * left_shift_to.  `adjacent` and `after` are what the address comparisons
   * say of two different arrays: that they touch, and that the target's
   * shifted start lies after the source's.  They pick a path and change nothing.
   */
  method LeftShiftTo(out: Uint, a: Uint, shift: nat, adjacent: bool, after: bool)
    requires out.Sized() && a.Sized() && (out != a ==> out.data != a.data)
    modifies out.data
    ensures out.Valid()
    ensures Value(out.data[..]) == Low(Shl(Value(old(a.data[..])), shift), out.bits)
  {
    ghost var s := a.data[..];
    if shift >= out.bits {
      Fill(out.data, 0, out.data.Length, 0);
      ShiftedOut(out.data[..], Value(s), shift, out.bits);
      return;
    }
    ShiftLimbs(out.data, a.data, shift / 64, shift % 64, adjacent, after);
    LshWhole(out.data[..], s, shift / 64, shift % 64, out.bits);
    out.Sanitize();
  }

  /** The limbs of left_shift_to, before they are cut to the width. */
  method ShiftLimbs(dst: array<u64>, src: array<u64>, k: nat, r: nat, adjacent: bool, after: bool)
    requires k < dst.Length && r < 64 && src.Length > 0
    modifies dst
    ensures dst[..k] == Zeros(k) && LshBody(dst[k..], old(src[..]), r)
  {
    ghost var s := src[..];
    var n := Min(src.Length, dst.Length - k);
    var aliased := dst == src || adjacent;
    if r == 0 {
      CopyUp(dst, src, n, k, aliased && (if dst == src then k > 0 else after));
    } else if !aliased {
      ShiftForward(dst, src, n, k, r);
    } else {
      ShiftBackward(dst, src, n, k, r);
    }
    ClearAround(dst, s, n, k, r);
  }

  lemma ShiftedOut(o: seq<u64>, v: nat, shift: nat, bits: nat)
    requires bits <= shift && (forall j :: 0 <= j < |o| ==> o[j] == 0)
    ensures Value(o) == 0 && Low(Shl(v, shift), bits) == 0
  {
    assert o == Zeros(|o|);
    ValueZeros(|o|);
    LowOfShl(v, shift, bits);
    assert Low(v, 0) == 0;
    ShlZero(shift);
  }

  /** Zeros above the shifted limbs. */
  method ClearAbove(dst: array<u64>, ghost s: seq<u64>, n: nat, k: nat, r: nat)
    requires r < 64 && 0 < n <= |s| && k + n <= dst.Length && (k + n < dst.Length ==> n == |s|)
    requires if r == 0 then forall j :: 0 <= j < n ==> dst[k + j] == s[j] else Placed(dst[..], s, n, k, r)
    modifies dst
    ensures LshBody(dst[k..], s, r)
  {
    if r == 0 {
      Fill(dst, k + n, dst.Length, 0);
      WholeBody(dst[k..], s, n);
    } else if k + n + 1 < dst.Length {
      Fill(dst, k + n + 1, dst.Length, 0);
    }
  }

  /** A shift by whole limbs moves them unchanged. */
  lemma WholeBody(body: seq<u64>, s: seq<u64>, n: nat)
    requires 0 < n <= |s| && n <= |body| && (n < |body| ==> n == |s|)
    requires (forall j :: 0 <= j < n ==> body[j] == s[j]) && (forall j :: n <= j < |body| ==> body[j] == 0)
    ensures LshBody(body, s, 0)
  {
    forall j | 0 <= j <= |s| && j < |body|
      ensures body[j] == LshLimb(s, j, 0)
    {
      WholeLimb(s, j);
    }
  }

  /** Zeros below the shifted limbs, and above them. */
  method ClearAround(dst: array<u64>, ghost s: seq<u64>, n: nat, k: nat, r: nat)
    requires r < 64 && 0 < n <= |s| && k + n <= dst.Length && (k + n < dst.Length ==> n == |s|)
    requires if r == 0 then forall j :: 0 <= j < n ==> dst[k + j] == s[j] else Placed(dst[..], s, n, k, r)
    modifies dst
    ensures dst[..k] == Zeros(k) && LshBody(dst[k..], s, r)
  {
    ClearAbove(dst, s, n, k, r);
    Fill(dst, 0, k, 0);
  }

  // ---- Right shift ----

  /** Limb i of t >> r, for r below 64. */
  function RshLimb(t: seq<u64>, i: nat, r: nat): u64
    requires i < |t| && r < 64
  {
    if i + 1 < |t| then (RshOr(t[i], t[i + 1], r); Rsh(t[i], r) + Lsh(t[i + 1], 64 - r)) else Rsh(t[i], r)
  }

  /** The two halves a right shift puts together share no bit. */
  lemma RshOr(x: u64, y: u64, r: nat)
    requires r < 64
    ensures BitOr(Rsh(x, r), Lsh(y, 64 - r)) == Rsh(x, r) + Lsh(y, 64 - r) < BASE
  {
    LshOr(y, x, 64 - r);
    assert 64 - (64 - r) == r;
    OrSymmetric(Rsh(x, r), Lsh(y, 64 - r));
  }

  lemma {:induction false} OrSymmetric(a: nat, b: nat)
    ensures BitOr(a, b) == BitOr(b, a)
    decreases a + b
  {
    if a > 0 && b > 0 {
      OrSymmetric(a / 2, b / 2);
    }
  }

  function RshSeq(t: seq<u64>, r: nat): seq<u64>
    requires r < 64
  {
    seq(|t|, i requires 0 <= i < |t| => RshLimb(t, i, r))
  }

  /** The shifted limbs, all of them, are the shifted number. */
  lemma {:induction false} RshValue(t: seq<u64>, r: nat)
    requires r < 64
    ensures Value(RshSeq(t, r)) == High(Value(t), r)
  {
    if t == [] {
      LowSmall(0, r);
    } else {
      var rest := t[1..];
      RshValue(rest, r);
      assert RshSeq(t, r)[1..] == RshSeq(rest, r);
      RshStep(t[0], Value(rest), r);
      if rest != [] {
        LshParts(rest[0], 64 - r);
        LowOfValue(rest, r);
      } else {
        LowSmall(0, r);
        ShlZero(64 - r);
      }
    }
  }

  /** The low limb takes the r low bits of what is above it. */
  lemma RshStep(x: u64, v: nat, r: nat)
    requires r < 64
    ensures High(x + BASE * v, r) == High(x, r) + Shl(Low(v, r), 64 - r) + BASE * High(v, r)
  {
    var hi, lo := High(v, r), Low(v, r);
    assert BASE * v == Shl(Shl(v, 64 - r), r) by {
      ShlShl(v, 64 - r, r);
      Shl64(v);
    }
    LowAddShl(x, Shl(v, 64 - r), r);
    assert Shl(v, 64 - r) == Shl(lo, 64 - r) + BASE * hi by {
      Split(v, r);
      ShlAdd(lo, Shl(hi, r), 64 - r);
      ShlShl(hi, r, 64 - r);
      Shl64(hi);
    }
  }

  lemma LowOfValue(s: seq<u64>, r: nat)
    requires s != [] && r < 64
    ensures Low(Value(s), r) == Low(s[0], r)
  {
    var v := Value(s[1..]);
    ShlShl(v, 64 - r, r);
    Shl64(v);
    LowAddShl(s[0], Shl(v, 64 - r), r);
  }

  /** Dropping limbs and bits is dropping bits. */
  lemma HighOfValue(s: seq<u64>, k: nat, r: nat)
    requires k <= |s|
    ensures High(Value(s), 64 * k + r) == High(Value(s[k..]), r)
  {
    ValueSplit(s, k);
    ValueFits(s[..k]);
    ScaleIsShl(Value(s[k..]), k);
    SplitUnique(Value(s), Value(s[..k]), Value(s[k..]), 64 * k);
    LowTwice(Value(s), 64 * k, r);
  }

  lemma LowOfPrefix(s: seq<u64>, i: nat)
    requires i <= |s|
    ensures Low(Value(s), 64 * i) == Value(s[..i])
  {
    ValueSplit(s, i);
    ValueFits(s[..i]);
    ScaleIsShl(Value(s[i..]), i);
    SplitUnique(Value(s), Value(s[..i]), Value(s[i..]), 64 * i);
  }

  /** n limbs of t >> r and zeros above them are t >> r, modulo the width. */
  lemma RshWhole(o: seq<u64>, t: seq<u64>, n: nat, r: nat, bits: nat)
    requires |o| == Blocks(bits) && r < 64 && n == Min(|t|, |o|)
    requires (forall j :: 0 <= j < n ==> o[j] == RshLimb(t, j, r)) && o[n..] == Zeros(|o| - n)
    ensures Low(Value(o), bits) == Low(High(Value(t), r), bits)
  {
    var full := RshSeq(t, r);
    RshValue(t, r);
    ZerosAbove(o, n);
    assert o[..n] == full[..n];
    if n < |o| {
      assert full[..n] == full;
    } else {
      LowOfPrefix(full, n);
      LowOfLow(Value(full), bits, 64 * n);
    }
  }

  /** The loop of right_shift_to; low limb first is safe in place. */
  method ShiftDown(dst: array<u64>, src: array<u64>, n: nat, k: nat, r: nat)
    requires n <= dst.Length && k + n <= src.Length && 0 < r < 64
    modifies dst
    ensures forall j :: 0 <= j < n ==> dst[j] == RshLimb(old(src[k..]), j, r)
  {
    ghost var s, t := src[..], src[k..];
    var i := 0;
    while i < n
      invariant 0 <= i <= n
      invariant forall j :: i <= j < src.Length ==> src[j] == s[j]
      invariant forall j :: 0 <= j < i ==> dst[j] == RshLimb(t, j, r)
    {
      var idx := i + k;
      var cur := src[idx];
      var high: u64 := 0;
      if idx + 1 < src.Length {
        high := Lsh(src[idx + 1], 64 - r);
        RshOr(cur, src[idx + 1], r);
      } else {
        OrZero(Rsh(cur, r));
      }
      dst[i] := BitOr(Rsh(cur, r), high);
      i := i + 1;
    }
  }

  /** A whole-limb shift moves the limbs themselves. */
  lemma WholeLimbDown(t: seq<u64>, j: nat)
    requires j < |t|
    ensures RshLimb(t, j, 0) == t[j]
  {
    if j + 1 < |t| {
      LshParts(t[j + 1], 64);
      assert Low(t[j + 1], 64 - 64) == 0;
      ShlZero(64);
    }
  }

  /** std::copy of n limbs of src from limb k to the bottom of dst; the two may be one array. */
  method CopyDown(dst: array<u64>, src: array<u64>, n: nat, k: nat)
    requires n <= dst.Length && k + n <= src.Length
    modifies dst
    ensures forall j :: 0 <= j < n ==> dst[j] == RshLimb(old(src[k..]), j, 0)
  {
    ghost var s, t := src[..], src[k..];
    var i := 0;
    while i < n
      invariant 0 <= i <= n
      invariant forall j :: i <= j < src.Length ==> src[j] == s[j]
      invariant forall j :: 0 <= j < i ==> dst[j] == RshLimb(t, j, 0)
    {
      WholeLimbDown(t, i);
      dst[i] := src[i + k];
      i := i + 1;
    }
  }

  method ShiftDownLimbs(dst: array<u64>, src: array<u64>, k: nat, r: nat) returns (ghost n: nat)
    requires k < src.Length && r < 64
    modifies dst
    ensures n == Min(src.Length - k, dst.Length)
    ensures forall j :: 0 <= j < n ==> dst[j] == RshLimb(old(src[k..]), j, r)
    ensures dst[n..] == Zeros(dst.Length - n)
  {
    var len := Min(src.Length - k, dst.Length);
    if r == 0 {
      CopyDown(dst, src, len, k);
    } else {
      ShiftDown(dst, src, len, k, r);
    }
    if dst.Length > len {
      Fill(dst, len, dst.Length, 0);
    }
    n := len;
  }

  /** right_shift_to. */
  method RightShiftTo(out: Uint, a: Uint, shift: nat)
    requires out.Sized() && a.Valid() && (out != a ==> out.data != a.data)
    modifies out.data
    ensures out.Valid()
    ensures Value(out.data[..]) == Low(High(Value(old(a.data[..])), shift), out.bits)
  {
    ghost var s := a.data[..];
    if shift >= a.bits {
      Fill(out.data, 0, out.data.Length, 0);
      ShiftedAway(out.data[..], Value(s), a.bits, shift, out.bits);
      return;
    }
    var k, r := shift / 64, shift % 64;
    ghost var n := ShiftDownLimbs(out.data, a.data, k, r);
    RshWhole(out.data[..], s[k..], n, r, out.bits);
    HighOfValue(s, k, r);
    out.Sanitize();
  }

  lemma ShiftedAway(o: seq<u64>, v: nat, width: nat, shift: nat, bits: nat)
    requires v < Pow2(width) && width <= shift && (forall j :: 0 <= j < |o| ==> o[j] == 0)
    ensures Value(o) == 0 && Low(High(v, shift), bits) == 0
  {
    assert o == Zeros(|o|);
    ValueZeros(|o|);
    LowSmall(v, width);
    LowTwice(v, width, shift - width);
    LowSmall(0, shift - width);
    LowSmall(0, bits);
  }

  // ---- Left and right together ----

  /** At equal width, shifting left and then right drops the bits that left the width. */
  lemma LeftThenRight(v: nat, s: nat, bits: nat)
    requires s < bits
    ensures Low(High(Low(Shl(v, s), bits), s), bits) == Low(v, bits - s)
  {
    LowOfShl(v, s, bits);
    LowAddShl(0, Low(v, bits - s), s);
    LowSmall(0, s);
    Pow2Grows(bits - s, bits);
    LowSmall(Low(v, bits - s), bits);
  }

  /** Bits that fit above s come back when they are shifted up. */
  lemma ShiftUpFits(h: int, s: nat, bits: nat)
    requires s <= bits && Low(h, bits - s) == h
    ensures Low(Shl(Low(h, bits), s), bits) == Shl(h, s)
  {
    LowOfLow(h, bits - s, bits);
    LowOfShl(Low(h, bits), s, bits);
  }

  /** At equal width, shifting right and then left clears the s low bits. */
  lemma RightThenLeft(v: nat, s: nat, bits: nat)
    requires s < bits && v < Pow2(bits)
    ensures Low(Shl(Low(High(v, s), bits), s), bits) == v - Low(v, s)
  {
    HighInWidth(v, s, bits);
    ShiftUpFits(High(v, s), s, bits);
    Split(v, s);
  }

  /** The bits above s of a value of the width fit the rest of the width. */
  lemma {:induction false} HighInWidth(v: nat, s: nat, bits: nat)
    requires s <= bits && v < Pow2(bits)
    ensures Low(High(v, s), bits - s) == High(v, s)
    decreases s
  {
    if s == 0 {
      LowSmall(v, bits);
    } else {
      HighInWidth(v / 2, s - 1, bits - 1);
    }
  }

  lemma {:induction false} Pow2Grows(a: nat, b: nat)
    requires a <= b
    ensures Pow2(a) <= Pow2(b)
  {
    if a < b {
      Pow2Grows(a, b - 1);
    }
  }
}
