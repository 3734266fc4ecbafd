/**
 * Fixed-width unsigned integers over arrays of 64-bit limbs.  The width of each
 * number is a field; operands and result may have different widths, and the
 * result may be one of the operands.
 */
module ArrayUint {
  import opened Bits
  import opened Limbs

  /** Just enough limbs for the width. */
  function Blocks(bits: nat): (n: nat)
    ensures bits <= 64 * n < bits + 64
  {
    (bits + 63) / 64
  }

  function Min(a: nat, b: nat): nat {
    if a < b then a else b
  }

  class Uint {
    const bits: nat
    const data: array<u64>

    /** The array has the limbs the width needs. */
    ghost predicate Sized() {
      bits > 0 && data.Length == Blocks(bits)
    }

    /** Sized, and no bit at or above the width is set. */
    ghost predicate Valid()
      reads data
    {
      Sized() && Value(data[..]) < Pow2(bits)
    }

    constructor (bits: nat)
      requires bits > 0
      ensures Valid() && this.bits == bits && fresh(data) && Value(data[..]) == 0
    {
      this.bits := bits;
      var d := new u64[Blocks(bits)](_ => 0);
      assert d[..] == Zeros(d.Length);
      ValueZeros(d.Length);
      data := d;
    }

    /** Clears the bits above the width. */
    method Sanitize()
      requires Sized()
      modifies data
      ensures Valid() && Value(data[..]) == Low(Value(old(data[..])), bits)
    {
      var n, r := data.Length - 1, bits % 64;
      BlocksOf(bits);
      if r != 0 {
        ghost var s := data[..];
        MaskLimb(data[n], r);
        var top: u64 := BitAnd(data[n], Pow2(r) - 1);
        ReduceTop(s, n, r, top);
        data[n] := top;
        assert data[..] == s[n := top];
      } else {
        ValueFits(data[..]);
        LowSmall(Value(data[..]), bits);
      }
    }
  }

  /** The limbs of a width: whole ones, and one for the bits that are left. */
  lemma BlocksOf(bits: nat)
    requires bits > 0
    ensures bits == if bits % 64 == 0 then 64 * Blocks(bits) else 64 * (Blocks(bits) - 1) + bits % 64
  {
  }

  // ---- Filling and copying ----

  /** x at limb i and zeros above it. */
  method FillAbove(d: array<u64>, i: nat, x: u64)
    requires i < d.Length
    modifies d
    ensures d[..i] == old(d[..i]) && d[i] == x && d[i + 1..] == Zeros(d.Length - i - 1)
  {
    d[i] := x;
    Fill(d, i + 1, d.Length, 0);
  }

  /** std::fill of the limbs [from, to). */
  method Fill(d: array<u64>, from: nat, to: nat, x: u64)
    requires from <= to <= d.Length
    modifies d
    ensures d[..from] == old(d[..from]) && d[to..] == old(d[to..])
    ensures forall j :: from <= j < to ==> d[j] == x
  {
    var i := from;
    while i < to
      invariant from <= i <= to
      invariant d[..from] == old(d[..from]) && d[to..] == old(d[to..])
      invariant forall j :: from <= j < i ==> d[j] == x
    {
      d[i] := x;
      i := i + 1;
    }
  }

  /** std::copy_n from limb i of a to limb i of d; the two may be one array. */
  method CopyFrom(d: array<u64>, a: array<u64>, from: nat, to: nat)
    requires from <= to <= d.Length && to <= a.Length
    modifies d
    ensures d[..from] == old(d[..from]) && d[to..] == old(d[to..])
    ensures d[from..to] == old(a[from..to])
  {
    var i := from;
    while i < to
      invariant from <= i <= to
      invariant d[..from] == old(d[..from]) && d[to..] == old(d[to..])
      invariant a[i..to] == old(a[i..to])
      invariant d[from..i] == old(a[from..i])
    {
      assert a[i] == a[i..to][0];
      d[i] := a[i];
      i := i + 1;
    }
  }

  // ---- Addition ----

  /** What add_to computes: the sum of the limbs all three numbers have. */
  function AddSpec(a: seq<u64>, b: seq<u64>, bits: nat): nat {
    var common := Min(Blocks(bits), Min(|a|, |b|));
    Low(Value(a[..common]) + Value(b[..common]), bits)
  }

  /** The first i limbs of o are those of a + b, with carry out. */
  predicate AddedTo(o: seq<u64>, a: seq<u64>, b: seq<u64>, i: nat, carry: nat)
    requires i <= |o| && i <= |a| && i <= |b|
  {
    carry <= 1 && Value(o[..i]) + Scale(carry, i) == Value(a[..i]) + Value(b[..i])
  }

  /** One limb of the carry chain. */
  lemma AddLimb(o: seq<u64>, a: seq<u64>, b: seq<u64>, i: nat, carry: nat)
    requires i < |o| && i < |a| && i < |b| && AddedTo(o, a, b, i, carry)
    ensures var sum := a[i] + b[i] + carry;
            var x: u64 := sum % BASE;
            AddedTo(o[i := x], a, b, i + 1, sum / BASE)
  {
    var sum := a[i] + b[i] + carry;
    var x: u64 := sum % BASE;
    var o', carry' := o[i := x], sum / BASE;
    assert o'[..i] == o[..i];
    ValueNext(o', i);
    ValueNext(a, i);
    ValueNext(b, i);
    CarryStep(a[i], b[i], carry, x, carry', i);
  }

  lemma CarryStep(a: nat, b: nat, carry: nat, x: nat, carry': nat, i: nat)
    requires a + b + carry == x + BASE * carry'
    ensures Scale(x, i) + Scale(carry', i + 1) == Scale(a, i) + Scale(b, i) + Scale(carry, i)
  {
    ScaleAdd(a, b, i);
    ScaleAdd(a + b, carry, i);
    ScaleAdd(x, BASE * carry', i);
    ScaleNext(carry', i);
  }

  /** The first phase: the limbs all three numbers have. */
  method AddCommon(out: array<u64>, a: array<u64>, b: array<u64>, common: nat) returns (carry: u64)
    requires common <= out.Length && common <= a.Length && common <= b.Length
    modifies out
    ensures AddedTo(out[..], old(a[..]), old(b[..]), common, carry)
    ensures out[common..] == old(out[common..])
  {
    ghost var a0, b0 := a[..], b[..];
    var i := 0;
    carry := 0;
    while i < common
      invariant 0 <= i <= common
      invariant a[i..] == a0[i..] && b[i..] == b0[i..] && out[common..] == old(out[common..])
      invariant AddedTo(out[..], a0, b0, i, carry)
    {
      AddLimb(out[..], a0, b0, i, carry);
      assert a[i] == a[i..][0] == a0[i] && b[i] == b[i..][0] == b0[i];
      ghost var a1, b1 := a[i + 1..], b[i + 1..];
      assert a1 == a[i..][1..] && b1 == b[i..][1..];
      var sum := a[i] + b[i] + carry;
      var x: u64 := sum % BASE;
      ghost var before := out[..];
      out[i] := x;
      assert out[..] == before[i := x];
      carry := sum / BASE;
      i := i + 1;
    }
  }

  /** One limb above limb c, and zeros above that. */
  lemma OneMore(o: seq<u64>, c: nat)
    requires c < |o| && o[c + 1..] == Zeros(|o| - c - 1)
    ensures Value(o) == Value(o[..c]) + Scale(o[c], c)
  {
    ZerosAbove(o, c + 1);
    ValueNext(o, c);
  }

  /** A carry and zeros above the common limbs make the sum whole. */
  lemma CarryOut(o: seq<u64>, a: seq<u64>, b: seq<u64>, c: nat, carry: u64, bits: nat)
    requires |o| == Blocks(bits) && c <= |o| && c <= |a| && c <= |b| && AddedTo(o, a, b, c, carry)
    requires c < |o| ==> o[c] == carry && o[c + 1..] == Zeros(|o| - c - 1)
    ensures Low(Value(o), bits) == Low(Value(a[..c]) + Value(b[..c]), bits)
  {
    if c < |o| {
      OneMore(o, c);
    } else {
      assert o[..c] == o;
      DropCarry(Value(o), carry, c, bits);
    }
  }

  method AddTo(out: Uint, a: Uint, b: Uint)
    requires out.Sized() && a.Sized() && b.Sized()
    requires (out != a ==> out.data != a.data) && (out != b ==> out.data != b.data)
    modifies out.data
    ensures out.Valid()
    ensures Value(out.data[..]) == AddSpec(old(a.data[..]), old(b.data[..]), out.bits)
  {
    AddLimbs(out.data, a.data, b.data, out.bits);
    out.Sanitize();
  }

  /** The phases of add_to. */
  method AddLimbs(out: array<u64>, a: array<u64>, b: array<u64>, ghost bits: nat)
    requires out.Length == Blocks(bits)
    modifies out
    ensures Low(Value(out[..]), bits) == AddSpec(old(a[..]), old(b[..]), bits)
  {
    ghost var a0, b0 := a[..], b[..];
    var common := Min(out.Length, Min(a.Length, b.Length));
    var carry := AddCommon(out, a, b, common);
    if common < out.Length {
      ghost var before := out[..];
      FillAbove(out, common, carry);
      assert out[..common] == before[..common];
    }
    CarryOut(out[..], a0, b0, common, carry, bits);
  }

  /** The part of the operands that add_to leaves out, as it would show in the result. */
  function AddLost(a: seq<u64>, b: seq<u64>, bits: nat): nat {
    var common := Min(Blocks(bits), Min(|a|, |b|));
    if bits <= 64 * common then 0
    else Low(Value(a[common..]) + Value(b[common..]), bits - 64 * common)
  }

  /** Two numbers split at limb c: leaving the upper parts out of the sum shows exactly as their own low bits do. */
  lemma SumShows(va: int, la: int, ha: int, vb: int, lb: int, hb: int, c: nat, bits: nat)
    requires va == la + Scale(ha, c) && vb == lb + Scale(hb, c)
    ensures Low(la + lb, bits) == Low(va + vb, bits) <==> bits <= 64 * c || Low(ha + hb, bits - 64 * c) == 0
  {
    ScaleAdd(ha, hb, c);
    HighPartShows(la + lb, ha + hb, c, bits);
  }

  /** add_to is the sum modulo 2^bits exactly when the limbs it leaves out do not show in the result. */
  lemma AddExactIff(a: seq<u64>, b: seq<u64>, bits: nat)
    ensures AddSpec(a, b, bits) == Low(Value(a) + Value(b), bits) <==> AddLost(a, b, bits) == 0
  {
    var c := Min(Blocks(bits), Min(|a|, |b|));
    ValueSplit(a, c);
    ValueSplit(b, c);
    SumShows(Value(a), Value(a[..c]), Value(a[c..]), Value(b), Value(b[..c]), Value(b[c..]), c, bits);
  }

  /** The widths for which nothing is left out. */
  lemma AddExact(a: seq<u64>, b: seq<u64>, bits: nat)
    requires |a| == |b| || Blocks(bits) <= Min(|a|, |b|)
    ensures AddSpec(a, b, bits) == Low(Value(a) + Value(b), bits)
  {
    AddExactIff(a, b, bits);
    NothingLost(a, b, bits);
  }

  lemma NothingLost(a: seq<u64>, b: seq<u64>, bits: nat)
    requires |a| == |b| || Blocks(bits) <= Min(|a|, |b|)
    ensures AddLost(a, b, bits) == 0
  {
    var c := Min(Blocks(bits), Min(|a|, |b|));
    if bits > 64 * c {
      assert a[c..] == [] && b[c..] == [];
      LowSmall(0, bits - 64 * c);
    }
  }

  // ---- Subtraction ----

  /** What sub_to computes: a less the limbs of b that a and the result have too. */
  function SubSpec(a: seq<u64>, b: seq<u64>, bits: nat): nat {
    var common := Min(Blocks(bits), Min(|a|, |b|));
    Low(Value(a) - Value(b[..common]), bits)
  }

  /** The first i limbs of o are those of a - vb, with borrow out. */
  predicate SubbedTo(o: seq<u64>, a: seq<u64>, vb: int, i: nat, borrow: nat)
    requires i <= |o| && i <= |a|
  {
    borrow <= 1 && Value(o[..i]) + vb == Value(a[..i]) + Scale(borrow, i)
  }

  /** One limb of the borrow chain, with y to subtract. */
  lemma SubLimb(o: seq<u64>, a: seq<u64>, vb: int, i: nat, borrow: nat, y: u64)
    requires i < |o| && i < |a| && SubbedTo(o, a, vb, i, borrow)
    ensures SubbedTo(o[i := SubbedLimb(a[i], y, borrow)], a, vb + Scale(y, i), i + 1, BorrowOf(a[i], y, borrow))
  {
    var x := SubbedLimb(a[i], y, borrow);
    var o' := o[i := x];
    assert o'[..i] == o[..i];
    ValueNext(o', i);
    ValueNext(a, i);
    LimbBorrows(a[i], y, borrow);
    BorrowStep(a[i], y, borrow, x, BorrowOf(a[i], y, borrow), i);
  }

  /** One limb of the difference, wrapped to 64 bits. */
  function SubbedLimb(x: u64, y: u64, borrow: nat): u64 {
    (x - (y + borrow)) % BASE
  }

  function BorrowOf(x: u64, y: u64, borrow: nat): u64 {
    if x < y + borrow then 1 else 0
  }

  lemma LimbBorrows(x: u64, y: u64, borrow: nat)
    requires borrow <= 1
    ensures SubbedLimb(x, y, borrow) + (y + borrow) == x + BASE * BorrowOf(x, y, borrow)
  {
  }

  lemma BorrowStep(a: nat, y: nat, borrow: nat, x: nat, borrow': nat, i: nat)
    requires x + (y + borrow) == a + BASE * borrow'
    ensures Scale(x, i) + Scale(y, i) + Scale(borrow, i) == Scale(a, i) + Scale(borrow', i + 1)
  {
    ScaleAdd(y, borrow, i);
    ScaleAdd(x, y + borrow, i);
    ScaleAdd(a, BASE * borrow', i);
    ScaleNext(borrow', i);
  }

  /** The first phase: the limbs all three numbers have. */
  method SubCommon(out: array<u64>, a: array<u64>, b: array<u64>, common: nat) returns (borrow: u64)
    requires common <= out.Length && common <= a.Length && common <= b.Length
    modifies out
    ensures SubbedTo(out[..], old(a[..]), Value(old(b[..common])), common, borrow)
    ensures out[common..] == old(out[common..]) && a[common..] == old(a[common..])
  {
    ghost var a0, b0 := a[..], b[..];
    var i := 0;
    borrow := 0;
    while i < common
      invariant 0 <= i <= common
      invariant a[i..] == a0[i..] && b[i..] == b0[i..] && out[common..] == old(out[common..])
      invariant SubbedTo(out[..], a0, Value(b0[..i]), i, borrow)
    {
      assert a[i] == a[i..][0] == a0[i] && b[i] == b[i..][0] == b0[i];
      SubLimb(out[..], a0, Value(b0[..i]), i, borrow, b0[i]);
      ValueNext(b0, i);
      var x, borrow' := SubbedLimb(a[i], b[i], borrow), BorrowOf(a[i], b[i], borrow);
      ghost var before := out[..];
      out[i] := x;
      assert out[..] == before[i := x];
      borrow := borrow';
      i := i + 1;
    }
    assert b0[..common] == old(b[..common]);
  }

  /** The second phase: what is left of a, until the borrow is paid. */
  method SubRest(out: array<u64>, a: array<u64>, from: nat, limit: nat, borrow: u64, ghost a0: seq<u64>, ghost vb: int)
    returns (borrow': u64)
    requires from <= limit && limit <= out.Length && limit <= a.Length
    requires |a0| == a.Length && a[from..] == a0[from..] && SubbedTo(out[..], a0, vb, from, borrow)
    modifies out
    ensures SubbedTo(out[..], a0, vb, limit, borrow')
  {
    var i := from;
    borrow' := borrow;
    while i < limit && borrow' != 0
      invariant from <= i <= limit && a[i..] == a0[i..]
      invariant SubbedTo(out[..], a0, vb, i, borrow')
    {
      assert a[i] == a[i..][0] == a0[i];
      SubLimb(out[..], a0, vb, i, borrow', 0);
      ScaleZero(i);
      var x := SubbedLimb(a[i], 0, borrow');
      ghost var before := out[..];
      borrow' := BorrowOf(a[i], 0, borrow');
      out[i] := x;
      assert out[..] == before[i := x];
      i := i + 1;
    }
    if i < limit {
      SubCopy(out, a, i, limit, a0, vb);
    }
  }

  /** The borrow is paid: the rest of a is copied. */
  method SubCopy(out: array<u64>, a: array<u64>, i: nat, limit: nat, ghost a0: seq<u64>, ghost vb: int)
    requires i <= limit && limit <= out.Length && limit <= a.Length
    requires |a0| == a.Length && a[i..] == a0[i..] && SubbedTo(out[..], a0, vb, i, 0)
    modifies out
    ensures SubbedTo(out[..], a0, vb, limit, 0)
  {
    CopyRest(out[..], a0, vb, i, limit);
    ghost var before := out[..];
    assert a[i..limit] == a0[i..limit] by {
      assert a[i..limit] == a[i..][..limit - i];
      assert a0[i..limit] == a0[i..][..limit - i];
    }
    CopyFrom(out, a, i, limit);
    assert out[..limit] == before[..i] + a0[i..limit];
  }

  /** With no borrow, the remaining limbs of a are the remaining limbs of the difference. */
  lemma CopyRest(o: seq<u64>, a: seq<u64>, vb: int, i: nat, limit: nat)
    requires i <= limit && limit <= |o| && limit <= |a| && SubbedTo(o, a, vb, i, 0)
    ensures Value(o[..i] + a[i..limit]) + vb == Value(a[..limit]) + Scale(0, limit)
  {
    ValueConcat(o[..i], a[i..limit]);
    assert a[..limit] == a[..i] + a[i..limit];
    ValueConcat(a[..i], a[i..limit]);
    ScaleZero(i);
    ScaleZero(limit);
  }

  /** What fills the limbs above a: zeros, or ones for a borrow. */
  function Filler(n: nat, borrow: u64): seq<u64> {
    if borrow == 0 then Zeros(n) else Ones(n)
  }

  /** The difference wraps around: a filled borrow is worth the weight above the last limb. */
  lemma BorrowTop(o: seq<u64>, i: nat, borrow: u64)
    requires i <= |o| && borrow <= 1 && o[i..] == Filler(|o| - i, borrow)
    ensures Value(o) + Scale(borrow, i) == Value(o[..i]) + Scale(borrow, |o|)
  {
    var n := |o| - i;
    ValueSplit(o, i);
    ValueZeros(n);
    ValueOnes(n);
    ScaleAdd(Value(o[i..]), borrow, i);
    ScaleZero(n);
    ScaleScale(borrow, n, i);
  }

  /** A finished borrow chain, filled to the top, is the difference modulo 2^bits. */
  lemma BorrowOut(o: seq<u64>, a: seq<u64>, vb: int, i: nat, borrow: u64, bits: nat)
    requires |o| == Blocks(bits) && i <= |o| && i <= |a| && SubbedTo(o, a, vb, i, borrow)
    requires o[i..] == Filler(|o| - i, borrow) && (i < |o| ==> i == |a|)
    ensures Low(Value(o), bits) == Low(Value(a) - vb, bits)
  {
    var x := Value(a[..i]) - vb;
    BorrowTop(o, i, borrow);
    assert Value(o) == x + Scale(borrow, |o|);
    DropCarry(x, borrow, |o|, bits);
    if i == |o| {
      ValueSplit(a, i);
      DropCarry(x, Value(a[i..]), |o|, bits);
    } else {
      assert a[..i] == a;
    }
  }

  /** The third phase: the limbs above a. */
  method FillBorrow(out: array<u64>, i: nat, borrow: u64)
    requires i <= out.Length
    modifies out
    ensures out[..i] == old(out[..i]) && out[i..] == Filler(out.Length - i, borrow)
  {
    if i < out.Length {
      Fill(out, i, out.Length, if borrow == 0 then 0 else BASE - 1);
    }
  }

  method SubTo(out: Uint, a: Uint, b: Uint)
    requires out.Sized() && a.Sized() && b.Sized()
    requires (out != a ==> out.data != a.data) && (out != b ==> out.data != b.data)
    modifies out.data
    ensures out.Valid()
    ensures Value(out.data[..]) == SubSpec(old(a.data[..]), old(b.data[..]), out.bits)
  {
    SubLimbs(out.data, a.data, b.data, out.bits);
    out.Sanitize();
  }

  /** The three phases of sub_to. */
  method SubLimbs(out: array<u64>, a: array<u64>, b: array<u64>, ghost bits: nat)
    requires out.Length == Blocks(bits)
    modifies out
    ensures Low(Value(out[..]), bits) == SubSpec(old(a[..]), old(b[..]), bits)
  {
    var common := Min(out.Length, Min(a.Length, b.Length));
    ghost var a0, vb := a[..], Value(b[..common]);
    assert b[..][..common] == b[..common];
    var i := common;
    var borrow := SubCommon(out, a, b, common);
    if out.Length > common && a.Length > common {
      i := Min(out.Length, a.Length);
      borrow := SubRest(out, a, common, i, borrow, a0, vb);
    }
    ghost var before := out[..];
    FillBorrow(out, i, borrow);
    assert out[..i] == before[..i];
    BorrowOut(out[..], a0, vb, i, borrow, bits);
  }

  /** The part of b that sub_to leaves out, as it would show in the result. */
  function SubLost(a: seq<u64>, b: seq<u64>, bits: nat): nat {
    var common := Min(Blocks(bits), Min(|a|, |b|));
    if bits <= 64 * common then 0 else Low(Value(b[common..]), bits - 64 * common)
  }

  /** A number taken off that is split at limb c: leaving its upper part out shows exactly as its own low bits do. */
  lemma DifferenceShows(va: int, vb: int, lb: int, hb: int, c: nat, bits: nat)
    requires vb == lb + Scale(hb, c)
    ensures Low(va - lb, bits) == Low(va - vb, bits) <==> bits <= 64 * c || Low(hb, bits - 64 * c) == 0
  {
    HighPartShows(va - vb, hb, c, bits);
  }

  /** sub_to is the difference modulo 2^bits exactly when the limbs of b it leaves out do not show in the result. */
  lemma SubExactIff(a: seq<u64>, b: seq<u64>, bits: nat)
    ensures SubSpec(a, b, bits) == Low(Value(a) - Value(b), bits) <==> SubLost(a, b, bits) == 0
  {
    var c := Min(Blocks(bits), Min(|a|, |b|));
    ValueSplit(b, c);
    DifferenceShows(Value(a), Value(b), Value(b[..c]), Value(b[c..]), c, bits);
  }

  lemma SubExact(a: seq<u64>, b: seq<u64>, bits: nat)
    requires |b| <= |a| || Blocks(bits) <= |a|
    ensures SubSpec(a, b, bits) == Low(Value(a) - Value(b), bits)
  {
    SubExactIff(a, b, bits);
    NothingLostOf(a, b, bits);
  }

  lemma NothingLostOf(a: seq<u64>, b: seq<u64>, bits: nat)
    requires |b| <= |a| || Blocks(bits) <= |a|
    ensures SubLost(a, b, bits) == 0
  {
    var c := Min(Blocks(bits), Min(|a|, |b|));
    if bits > 64 * c {
      assert b[c..] == [];
      LowSmall(0, bits - 64 * c);
    }
  }

  // ---- What goes wrong otherwise ----

  /** A two-limb number and a one-limb one, in two limbs: 2^64 + 1 comes out as 1. */
  lemma AddCanLose(a: seq<u64>, b: seq<u64>, bits: nat)
    requires a == [0, 1] && b == [1] && bits == 128
    ensures AddSpec(a, b, bits) == 1 && Low(Value(a) + Value(b), bits) == BASE + 1
  {
    OneInCommon(a, b, bits);
    TwoBases(bits);
    var va := TwoLimbs(a);
    var vb := OneLimb(b);
    AddsFirst(a, b, bits, 0, 1);
    Fits(Value(a) + Value(b), BASE + 1, bits);
  }

  /** A one-limb number less a two-limb one, in two limbs: 5 - 2^64 comes out as 5. */
  lemma SubCanLose(a: seq<u64>, b: seq<u64>, bits: nat)
    requires a == [5] && b == [0, 1] && bits == 128
    ensures SubSpec(a, b, bits) == 5 && Low(Value(a) - Value(b), bits) == Pow2(bits) - BASE + 5
  {
    OneInCommon(a, b, bits);
    TwoBases(bits);
    var va := OneLimb(a);
    var vb := TwoLimbs(b);
    SubsFirst(a, b, bits, 5, 0);
    Wraps(Value(a) - Value(b), bits, Pow2(bits));
  }

  lemma AddsFirst(a: seq<u64>, b: seq<u64>, bits: nat, x: nat, y: nat)
    requires |a| > 0 && |b| > 0 && Min(Blocks(bits), Min(|a|, |b|)) == 1
    requires Value(a[..1]) == x && Value(b[..1]) == y && x + y < Pow2(bits)
    ensures AddSpec(a, b, bits) == x + y
  {
    Fits(Value(a[..1]) + Value(b[..1]), x + y, bits);
  }

  lemma SubsFirst(a: seq<u64>, b: seq<u64>, bits: nat, x: nat, y: nat)
    requires |a| > 0 && |b| > 0 && Min(Blocks(bits), Min(|a|, |b|)) == 1
    requires Value(a) == x && Value(b[..1]) == y && 0 <= x - y < Pow2(bits)
    ensures SubSpec(a, b, bits) == x - y
  {
    Fits(Value(a) - Value(b[..1]), x - y, bits);
  }

  lemma OneInCommon(a: seq<u64>, b: seq<u64>, bits: nat)
    requires |a| > 0 && |b| > 0 && (|a| == 1 || |b| == 1) && bits == 128
    ensures Min(Blocks(bits), Min(|a|, |b|)) == 1
    ensures Value(a[..1]) == a[0] && Value(b[..1]) == b[0]
  {
    var x := OneLimb(a[..1]);
    var y := OneLimb(b[..1]);
  }

  lemma OneLimb(s: seq<u64>) returns (v: nat)
    requires |s| == 1
    ensures v == Value(s) == s[0]
  {
    v := s[0];
    assert s[1..] == [];
  }

  lemma TwoLimbs(s: seq<u64>) returns (v: nat)
    requires |s| == 2
    ensures v == Value(s) == s[0] + BASE * s[1]
  {
    var upper := OneLimb(s[1..]);
    v := s[0] + BASE * upper;
  }

  lemma TwoBases(bits: nat)
    requires bits == 128
    ensures 2 * BASE <= Pow2(bits)
  {
    var s: seq<u64> := [BASE - 1, 1];
    var v := TwoLimbs(s);
    ValueFits(s);
  }

  lemma Fits(v: int, x: nat, bits: nat)
    requires v == x < Pow2(bits)
    ensures Low(v, bits) == x
  {
    LowSmall(x, bits);
  }

  lemma Wraps(x: int, bits: nat, p: nat)
    requires p == Pow2(bits) && x < 0 <= x + p
    ensures Low(x, bits) == x + p
  {
    ShlOne(bits);
    LowAddShl(x, 1, bits);
    LowSmall(x + p, bits);
  }
}
