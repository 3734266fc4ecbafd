/** Comparing fixed-width integers of different widths, and converting between them. */
module ArrayCompare {
  import opened Bits
  import opened Limbs
  import opened ArrayUint

  datatype Ordering = Less | Equal | Greater

  function Order(x: int, y: int): Ordering {
    if x < y then Less else if x == y then Equal else Greater
  }

  /** Numbers that agree on their common limbs are equal exactly when the longer one has zeros above. */
  lemma EqualIff(a: seq<u64>, b: seq<u64>)
    requires |a| <= |b|
    ensures Value(a) == Value(b) <==> a == b[..|a|] && b[|a|..] == Zeros(|b| - |a|)
  {
    var n := |a|;
    if a == b[..n] && b[n..] == Zeros(|b| - n) {
      ZerosAbove(b, n);
    }
    if Value(a) == Value(b) {
      SplitAt(a, b);
      ValueInjective(a, b[..n]);
      ZeroLimbs(b[n..]);
    }
  }

  /** The low part and the high part of an equality. */
  lemma SplitAt(a: seq<u64>, b: seq<u64>)
    requires |a| <= |b| && Value(a) == Value(b)
    ensures Value(a) == Value(b[..|a|]) && Value(b[|a|..]) == 0
  {
    var n := |a|;
    ValueSplit(b, n);
    ValueFits(a);
    ValueFits(b[..n]);
    ScaleIsShl(Value(b[n..]), n);
    SplitUnique(Value(b), Value(b[..n]), Value(b[n..]), 64 * n);
    LowSmall(Value(a), 64 * n);
  }

  /** Equally many limbs with one value are the same limbs. */
  lemma {:induction false} ValueInjective(a: seq<u64>, b: seq<u64>)
    requires |a| == |b| && Value(a) == Value(b)
    ensures a == b
  {
    if a != [] {
      assert Value(a) % BASE == a[0] && Value(b) % BASE == b[0];
      ValueInjective(a[1..], b[1..]);
      assert a == [a[0]] + a[1..] && b == [b[0]] + b[1..];
    }
  }

  lemma ZeroLimbs(s: seq<u64>)
    requires Value(s) == 0
    ensures s == Zeros(|s|)
  {
    ValueZeros(|s|);
    ValueInjective(s, Zeros(|s|));
  }

  /** operator==, for any two widths. */
  method EqualTo(a: Uint, b: Uint) returns (equal: bool)
    requires a.Sized() && b.Sized()
    ensures equal <==> Value(a.data[..]) == Value(b.data[..])
  {
    if b.data.Length < a.data.Length {
      equal := SameValue(b.data, a.data);
    } else {
      equal := SameValue(a.data, b.data);
    }
  }

  /** The two loops of operator==: the limbs both have, then zeros in the longer one. */
  method SameValue(a: array<u64>, b: array<u64>) returns (equal: bool)
    requires a.Length <= b.Length
    ensures equal <==> Value(a[..]) == Value(b[..])
  {
    EqualIff(a[..], b[..]);
    var n := a.Length;
    var i := 0;
    while i < n
      invariant 0 <= i <= n
      invariant forall j :: 0 <= j < i ==> a[j] == b[j]
    {
      if a[i] != b[i] {
        assert a[..][i] != b[..][..n][i];
        return false;
      }
      i := i + 1;
    }
    while i < b.Length
      invariant n <= i <= b.Length
      invariant forall j :: n <= j < i ==> b[j] == 0
    {
      if b[i] != 0 {
        assert b[..][n..][i - n] != 0;
        return false;
      }
      i := i + 1;
    }
    assert a[..] == b[..][..n];
    return true;
  }

  /** The top limb that differs decides. */
  lemma TopLimbDecides(a: seq<u64>, b: seq<u64>, i: nat)
    requires i < |a| && |a| <= |b| && a[i] < b[i]
    requires a[i + 1..] == b[i + 1..|a|]
    ensures Value(a) < Value(b)
  {
    ValueSplit(a, i + 1);
    ValueSplit(b, i + 1);
    LowerDecides(a, b, i);
    MoreLimbs(a[i + 1..], b[i + 1..]);
    ScaleMonotone(Value(a[i + 1..]), Value(b[i + 1..]), i + 1);
  }

  lemma LowerDecides(a: seq<u64>, b: seq<u64>, i: nat)
    requires i < |a| && i < |b| && a[i] < b[i]
    ensures Value(a[..i + 1]) < Value(b[..i + 1])
  {
    ValueNext(a, i);
    ValueNext(b, i);
    ValueBound(a[..i]);
    ScaleGap(a[i], b[i], i);
  }

  /** More limbs at the top never make a number smaller. */
  lemma MoreLimbs(a: seq<u64>, b: seq<u64>)
    requires a <= b
    ensures Value(a) <= Value(b)
  {
    var n := |a|;
    ValueSplit(b, n);
    assert b[..n] == a;
    ScaleMonotone(0, Value(b[n..]), n);
    ScaleZero(n);
  }

  lemma {:induction false} ScaleMonotone(x: int, y: int, n: nat)
    requires x <= y
    ensures Scale(x, n) <= Scale(y, n)
  {
    if n > 0 {
      ScaleMonotone(x, y, n - 1);
    }
  }

  lemma {:induction false} ScaleGap(x: int, y: int, n: nat)
    requires x < y
    ensures Scale(x, n) + Scale(1, n) <= Scale(y, n)
  {
    if n > 0 {
      ScaleGap(x, y, n - 1);
    }
  }

  /**
   * The second loop of operator<=> starts at the left side's top limb, so with
   * a longer left side it stays inside the right one only if the first loop
   * has already decided.
   */
  predicate StaysInside(a: seq<u64>, b: seq<u64>) {
    |a| <= |b| || exists j :: |b| <= j < |a| && a[j] != 0
  }

  /** Two zeros of one and two limbs: they are equal, and comparing the longer with the shorter reads outside. */
  lemma CompareCanReadOutside(a: seq<u64>, b: seq<u64>)
    requires a == [0, 0] && b == [0]
    ensures Value(a) == Value(b) && !StaysInside(a, b)
  {
    assert a == Zeros(2) && b == Zeros(1);
    ValueZeros(2);
    ValueZeros(1);
  }

  /** An order, or a read of a limb that is not there. */
  datatype Compared = Decided(order: Ordering) | ReadsOutside

  /** operator<=>; where the source would read past the right side, this stops and says so. */
  method Compare(a: Uint, b: Uint) returns (result: Compared)
    requires a.Sized() && b.Sized()
    ensures result.ReadsOutside? <==> !StaysInside(a.data[..], b.data[..])
    ensures match result
      case Decided(Less) => Value(a.data[..]) < Value(b.data[..])
      case Decided(Equal) => Value(a.data[..]) == Value(b.data[..])
      case Decided(Greater) => Value(a.data[..]) > Value(b.data[..])
      case ReadsOutside => true
  {
    ghost var s, t := a.data[..], b.data[..];
    if a.data.Length > b.data.Length {
      var i := TopLimb(a.data, b.data.Length);
      if i == b.data.Length {
        return ReadsOutside;
      }
      LongerIsGreater(t, s, i - 1);
      return Decided(Greater);
    }
    var n := a.data.Length;
    var i := TopLimb(b.data, n);
    if i > n {
      LongerIsGreater(s, t, i - 1);
      return Decided(Less);
    }
    assert t[n..] == Zeros(|t| - n);
    ZerosAbove(t, n);
    var order := CompareCommon(a.data, b.data);
    return Decided(order);
  }

  /** The first loop: from the top down to limb n, past the zeros. */
  method TopLimb(d: array<u64>, n: nat) returns (i: nat)
    requires n <= d.Length
    ensures n <= i <= d.Length && (i > n ==> d[i - 1] != 0)
    ensures forall j :: i <= j < d.Length ==> d[j] == 0
  {
    i := d.Length;
    while i > n && d[i - 1] == 0
      invariant n <= i <= d.Length
      invariant forall j :: i <= j < d.Length ==> d[j] == 0
    {
      i := i - 1;
    }
  }

  /** The second loop: the limbs both have, from the top down. */
  method CompareCommon(a: array<u64>, b: array<u64>) returns (order: Ordering)
    requires a.Length <= b.Length
    ensures order == Order(Value(a[..]), Value(b[..a.Length]))
  {
    var i := a.Length;
    ghost var s, t := a[..], b[..a.Length];
    while i > 0
      invariant 0 <= i <= a.Length
      invariant forall j :: i <= j < a.Length ==> a[j] == b[j]
    {
      if a[i - 1] != b[i - 1] {
        assert s[i..] == t[i..];
        if a[i - 1] < b[i - 1] {
          TopLimbDecides(s, t, i - 1);
          return Less;
        } else {
          TopLimbDecides(t, s, i - 1);
          return Greater;
        }
      }
      i := i - 1;
    }
    assert s == t;
    return Equal;
  }

  /** A nonzero limb above all of a's makes b the greater. */
  lemma LongerIsGreater(a: seq<u64>, b: seq<u64>, i: nat)
    requires |a| <= i < |b| && b[i] != 0
    ensures Value(a) < Value(b)
  {
    ValueBound(a);
    ValueSplit(b, i + 1);
    ValueNext(b, i);
    ScaleGap(0, b[i], i);
    ScaleZero(i);
    ScaleMonotone(0, Value(b[i + 1..]), i + 1);
    ScaleZero(i + 1);
    ScaleScale(1, i - |a|, |a|);
    OneScaled(i - |a|);
    ScaleMonotone(1, Scale(1, i - |a|), |a|);
  }

  lemma {:induction false} OneScaled(n: nat)
    ensures Scale(1, n) >= 1
  {
    if n > 0 {
      OneScaled(n - 1);
    }
  }

  /** operator= from another width: the value modulo the width. */
  method Assign(out: Uint, a: Uint)
    requires out.Sized() && a.Sized() && out != a && out.data != a.data
    modifies out.data
    ensures out.Valid() && Value(out.data[..]) == Low(Value(a.data[..]), out.bits)
  {
    var n := Min(out.data.Length, a.data.Length);
    CopyFrom(out.data, a.data, 0, n);
    if n < out.data.Length {
      Fill(out.data, n, out.data.Length, 0);
    }
    PrefixShows(out.data[..], a.data[..], n, out.bits);
    out.Sanitize();
  }

  lemma PrefixShows(o: seq<u64>, a: seq<u64>, n: nat, bits: nat)
    requires |o| == Blocks(bits) && n == Min(|o|, |a|) && o[..n] == a[..n] && o[n..] == Zeros(|o| - n)
    ensures Low(Value(o), bits) == Low(Value(a), bits)
  {
    ZerosAbove(o, n);
    if n < |a| {
      PrefixCut(a, n, bits);
    } else {
      assert a[..n] == a;
    }
  }

  lemma PrefixCut(a: seq<u64>, n: nat, bits: nat)
    requires n <= |a| && bits <= 64 * n
    ensures Low(Value(a[..n]), bits) == Low(Value(a), bits)
  {
    ValueSplit(a, n);
    DropCarry(Value(a[..n]), Value(a[n..]), n, bits);
  }
}
