/** The loops of huft_build (src/opkg/libbb/unzip.c:222-345), each proved against what it computes. */
module HuftParts {
  import opened BitStrings
  import opened CanonicalCode
  import opened HuftTables
  import opened HuftSteps

  /** Counts of each length (lines 222-228). */
  method CountLengths(b: seq<nat>) returns (c: array<nat>)
    requires 1 <= |b| && LengthsOk(b)
    ensures fresh(c) && c.Length == BMAX + 1 && c[..] == Counts(b)
  {
    c := new nat[BMAX + 1](_ => 0);
    var i := 0;
    while i < |b|
      invariant 0 <= i <= |b|
      invariant forall k :: 0 <= k <= BMAX ==> c[k] == CountBelow(b, k, i)
    {
      c[b[i]] := c[b[i]] + 1;
      i := i + 1;
    }
  }

  lemma {:induction false} SpaceLocal(c: seq<nat>, c': seq<nat>, g: nat, k: nat)
    requires k <= g < |c| == |c'| && forall m :: 0 < m <= k ==> c[m] == c'[m]
    ensures Space(c, g, k) == Space(c', g, k)
  {
    if k > 0 {
      SpaceLocal(c, c', g, k - 1);
    }
  }

  lemma {:induction false} SpaceZero(c: seq<nat>, g: nat, k: nat)
    requires k <= g < |c| && forall m :: 0 < m <= k ==> c[m] == 0
    ensures Space(c, g, k) == 0
  {
    if k > 0 {
      ScaleUnit(g - k);
      SpaceZero(c, g, k - 1);
    }
  }

  /** `y` is the number of codes of length `j` that the shorter codes leave. */
  ghost predicate Left(cs: seq<nat>, g: nat, j: nat, y: int)
    requires 1 <= j <= g < |cs|
  {
    y >= 0 && Scale(y, g - j) + Space(cs, g, j - 1) == Pow2(g)
  }

  lemma KraftStep(cs: seq<nat>, g: nat, j: nat, y: nat)
    requires 1 <= j <= g < |cs| && Left(cs, g, j, y)
    ensures y < cs[j] ==> Space(cs, g, g) > Pow2(g)
    ensures j == g ==> Space(cs, g, g) + (y - cs[g]) == Pow2(g)
    ensures j < g && y >= cs[j] ==> Left(cs, g, j + 1, 2 * (y - cs[j]))
  {
    if y < cs[j] {
      ScaleLess(y, cs[j], g - j);
      SpaceMonotone(cs, g, j, g);
    } else {
      ScaleAdd(y - cs[j], cs[j], g - j);
      if j < g {
        ScaleDouble(y - cs[j], g - (j + 1));
      }
    }
  }

  /** The Kraft test, and the filling out of the last count (lines 251-257).  A negative `y` makes
      huft_build return 2. */
  method FillOut(c: array<nat>, first: nat, g: nat) returns (y: int)
    requires c.Length == BMAX + 1 && 1 <= first <= g <= BMAX && forall k :: 0 < k < first ==> c[k] == 0
    modifies c
    ensures y < 0 <==> Space(old(c[..]), g, g) > Pow2(g)
    ensures y < 0 ==> c[..] == old(c[..])
    ensures y >= 0 ==> c[..] == old(c[..])[g := old(c[g]) + y] && Space(c[..], g, g) == Pow2(g)
    ensures y >= 0 ==> Space(old(c[..]), g, g) + y == Pow2(g)
  {
    ghost var cs := c[..];
    var j := first;
    y := Pow2(j);
    SpaceZero(cs, g, first - 1);
    ScaleUnit(first);
    ScaleTwice(1, first, g - first);
    ScaleUnit(g);
    while j < g
      invariant first <= j <= g && 0 <= y && c[..] == cs
      invariant Left(cs, g, j, y)
    {
      KraftStep(cs, g, j, y);
      y := y - c[j];
      if y < 0 {
        return;
      }
      j, y := j + 1, 2 * y;
    }
    KraftStep(cs, g, g, y);
    y := y - c[g];
    if y < 0 {
      return;
    }
    c[g] := c[g] + y;
    SpaceLocal(cs, c[..], g, g - 1);
  }

  // ------------------------------------------------------------------------------- sorting

  /** How many symbols have codes shorter than `k`: where those of length `k` start in `v`. */
  function Offset(b: seq<nat>, k: nat): nat {
    if k <= 1 then 0 else Offset(b, k - 1) + CountBelow(b, k - 1, |b|)
  }

  /** `v` lists the symbols by length, and in order within a length. */
  ghost predicate Sorted(b: seq<nat>, v: seq<nat>, g: nat) {
    forall k, r :: 1 <= k <= g && 0 <= r < CountBelow(b, k, |b|) ==> SortedAt(b, v, k, r)
  }

  ghost predicate SortedAt(b: seq<nat>, v: seq<nat>, k: nat, r: nat) {
    && Offset(b, k) + r < |v|
    && var s := v[Offset(b, k) + r];
    && s < |b| && b[s] == k && CountBelow(b, k, s) == r
  }

  function SumBelow(b: seq<nat>, k: nat, i: nat): nat
    requires i <= |b|
  {
    if k == 0 then 0 else SumBelow(b, k - 1, i) + CountBelow(b, k, i)
  }

  lemma {:induction false} SumBelowStep(b: seq<nat>, k: nat, i: nat)
    requires 0 < i <= |b|
    ensures SumBelow(b, k, i) == SumBelow(b, k, i - 1) + (if 1 <= b[i - 1] <= k then 1 else 0)
  {
    if k > 0 {
      SumBelowStep(b, k - 1, i);
    }
  }

  lemma {:induction false} SumBelowBound(b: seq<nat>, k: nat, i: nat)
    requires i <= |b|
    ensures SumBelow(b, k, i) <= i
    ensures (forall s :: 0 <= s < i ==> 1 <= b[s] <= k) ==> SumBelow(b, k, i) == i
  {
    if i > 0 {
      SumBelowStep(b, k, i);
      SumBelowBound(b, k, i - 1);
    } else {
      SumBelowEmpty(b, k);
    }
  }

  lemma {:induction false} SumBelowEmpty(b: seq<nat>, k: nat)
    ensures SumBelow(b, k, 0) == 0
  {
    if k > 0 {
      SumBelowEmpty(b, k - 1);
    }
  }

  lemma {:induction false} OffsetSum(b: seq<nat>, k: nat)
    ensures Offset(b, k + 1) == SumBelow(b, k, |b|)
    ensures Offset(b, k + 1) <= |b|
  {
    if k > 0 {
      OffsetSum(b, k - 1);
    }
    SumBelowBound(b, k, |b|);
  }

  lemma {:induction false} OffsetMonotone(b: seq<nat>, k: nat, m: nat)
    requires 1 <= k < m
    ensures Offset(b, k) + CountBelow(b, k, |b|) <= Offset(b, m)
  {
    if k + 1 < m {
      OffsetMonotone(b, k, m - 1);
    }
  }

  /** The counting sort (lines 259-273); `x` is scratch space. */
  method SortSymbols(b: seq<nat>, c: array<nat>, x: array<nat>, g: nat) returns (v: array<nat>)
    requires 1 <= |b| <= 288 && LengthsOk(b) && 1 <= g <= BMAX && c.Length == x.Length == BMAX + 1
    requires c != x && (forall k :: 1 <= k < g ==> c[k] == CountBelow(b, k, |b|))
    requires forall s :: 0 <= s < |b| ==> b[s] <= g
    modifies x
    ensures fresh(v) && v.Length == 288 && Sorted(b, v[..], g)
  {
    v := new nat[288];
    var j := 0;
    x[1] := 0;
    var m := 1;
    while m < g
      invariant 1 <= m <= g && j == Offset(b, m)
      invariant forall k :: 1 <= k <= m ==> x[k] == Offset(b, k)
      modifies x
    {
      j := j + c[m];
      x[m + 1] := j;
      m := m + 1;
    }
    SortLoop(b, x, v, g);
  }

  /** `x` holds, for each length, where the next symbol of that length goes. */
  ghost predicate NextSlots(b: seq<nat>, x: seq<nat>, g: nat, i: nat)
    requires i <= |b|
  {
    g < |x| && forall k :: 1 <= k <= g ==> x[k] == Offset(b, k) + CountBelow(b, k, i)
  }

  /** The sort is right for the first `i` symbols. */
  ghost predicate SortedTo(b: seq<nat>, v: seq<nat>, g: nat, i: nat)
    requires i <= |b|
  {
    forall k, r :: 1 <= k <= g && 0 <= r < CountBelow(b, k, i) ==> SortedAt(b, v, k, r)
  }

  method SortLoop(b: seq<nat>, x: array<nat>, v: array<nat>, g: nat)
    requires |b| <= v.Length && LengthsOk(b) && g <= BMAX && x.Length == BMAX + 1 && v != x
    requires forall s :: 0 <= s < |b| ==> b[s] <= g
    requires forall k :: 1 <= k <= g ==> x[k] == Offset(b, k)
    modifies x, v
    ensures Sorted(b, v[..], g)
  {
    var i := 0;
    hide SortedTo, NextSlots, Offset, CountBelow;
    StartSorted(b, x[..], v[..], g);
    while i < |b|
      invariant 0 <= i <= |b|
      invariant NextSlots(b, x[..], g, i) && SortedTo(b, v[..], g, i)
    {
      ghost var v0, x0 := v[..], x[..];
      var k := b[i];
      if k != 0 {
        SlotInRange(b, k, i);
        SlotIs(b, x0, g, i, k);
        v[x[k]] := i;
        x[k] := x[k] + 1;
        SortStep(b, v0, v[..], g, i);
        assert x[..] == x0[k := x0[k] + 1];
      } else {
        SortSkip(b, v0, g, i);
      }
      SlotsStep(b, x0, x[..], g, i);
      i := i + 1;
    }
    EndSorted(b, v[..], g);
  }

  lemma StartSorted(b: seq<nat>, x: seq<nat>, v: seq<nat>, g: nat)
    requires g < |x| && forall k :: 1 <= k <= g ==> x[k] == Offset(b, k)
    ensures NextSlots(b, x, g, 0) && SortedTo(b, v, g, 0)
  {
  }

  lemma SortSkip(b: seq<nat>, v: seq<nat>, g: nat, i: nat)
    requires i < |b| && b[i] == 0 && SortedTo(b, v, g, i)
    ensures SortedTo(b, v, g, i + 1)
  {
  }

  lemma EndSorted(b: seq<nat>, v: seq<nat>, g: nat)
    requires SortedTo(b, v, g, |b|)
    ensures Sorted(b, v, g)
  {
  }

  lemma SlotIs(b: seq<nat>, x: seq<nat>, g: nat, i: nat, k: nat)
    requires i < |b| && NextSlots(b, x, g, i) && 1 <= k <= g
    ensures k < |x| && x[k] == Offset(b, k) + CountBelow(b, k, i)
  {
  }

  lemma SlotInRange(b: seq<nat>, k: nat, i: nat)
    requires i < |b| && b[i] == k >= 1
    ensures Offset(b, k) + CountBelow(b, k, i) < |b|
  {
    OffsetSum(b, k);
    CountsSplit(b, k, i, |b|);
  }

  lemma SlotsStep(b: seq<nat>, x: seq<nat>, x': seq<nat>, g: nat, i: nat)
    requires i < |b| && b[i] <= g && NextSlots(b, x, g, i)
    requires x' == if b[i] != 0 then x[b[i] := x[b[i]] + 1] else x
    ensures NextSlots(b, x', g, i + 1)
  {
  }

  lemma SortStep(b: seq<nat>, v: seq<nat>, v': seq<nat>, g: nat, i: nat)
    requires i < |b| && b[i] >= 1 && Offset(b, b[i]) + CountBelow(b, b[i], i) < |v|
    requires v' == v[Offset(b, b[i]) + CountBelow(b, b[i], i) := i]
    requires SortedTo(b, v, g, i)
    ensures SortedTo(b, v', g, i + 1)
  {
    forall k, r | 1 <= k <= g && 0 <= r < CountBelow(b, k, i + 1) ensures SortedAt(b, v', k, r) {
      SortKeeps(b, v, v', b[i], i, k, r);
    }
  }

  lemma SortKeeps(b: seq<nat>, v: seq<nat>, v': seq<nat>, k: nat, i: nat, m: nat, r: nat)
    requires i < |b| && b[i] == k >= 1 && m >= 1 && r < CountBelow(b, m, i + 1)
    requires Offset(b, k) + CountBelow(b, k, i) < |v| && v' == v[Offset(b, k) + CountBelow(b, k, i) := i]
    requires r < CountBelow(b, m, i) ==> SortedAt(b, v, m, r)
    ensures SortedAt(b, v', m, r)
  {
    CountsSplit(b, k, i, |b|);
    CountsSplit(b, m, i, |b|);
    if m < k {
      OffsetMonotone(b, m, k);
    } else if k < m {
      OffsetMonotone(b, k, m);
    }
  }

  // ---------------------------------------------------------------------------- increment

  /** `i & j` for a mask `j` of at most one bit */
  predicate TestBit(i: nat, j: nat) {
    if j <= 1 then j == 1 && i % 2 == 1 else TestBit(i / 2, j / 2)
  }

  lemma {:induction false} TestBitShr(i: nat, e: nat)
    ensures TestBit(i, Pow2(e)) <==> Shr(i, e) % 2 == 1
  {
    if e > 0 {
      TestBitShr(i / 2, e - 1);
    }
  }

  /** `i ^ j` for a mask `j` of at most one bit */
  function FlipBit(i: nat, j: nat): int {
    if TestBit(i, j) then i - j else i + j
  }

  lemma LastBit(q: Bits)
    requires q != []
    ensures var n, e := Lsb(q), |q| - 1;
            && (TestBit(n, Pow2(e)) <==> q[e])
            && FlipBit(n, Pow2(e)) == Lsb(q[..e]) + (if q[e] then 0 else Pow2(e))
  {
    var a, e := q[..|q| - 1], |q| - 1;
    assert q == a + [q[e]];
    LsbConcat(a, [q[e]]);
    assert Lsb([q[e]]) == Bit(q[e]) by { assert [q[e]][1..] == []; }
    LsbBound(a);
    assert q[..e] == a;
    ScaleUnit(e);
    LowShr(Lsb(q), e, Bit(q[e]), Lsb(a));
    TestBitShr(Lsb(q), e);
  }

  /** Step to the next code in bit-reversed order (lines 348-351). */
  method NextCode(i: nat, k: nat, ghost p: Bits) returns (i': nat)
    requires 0 < k == |p| && i == Lsb(p)
    ensures i' == Lsb(Succ(p))
  {
    hide Lsb, FlipBit, Succ;
    var n := i;
    var j := Pow2(k - 1);
    ghost var q := p;
    assert Succ(p) == Succ(q) + Zeros(0);
    while TestBit(n, j)
      invariant |q| <= k && n == Lsb(q) && j == (if q == [] then 0 else Pow2(|q| - 1))
      invariant Succ(p) == Succ(q) + Zeros(k - |q|)
      decreases |q|
    {
      LastBit(q);
      CarryOn(q, k - |q|);
      n := FlipBit(n, j);
      j := j / 2;
      q := q[..|q| - 1];
    }
    LastStep(q, k - |q|, j);
    i' := FlipBit(n, j);
  }

  /** A one becomes zero, and the bit before it is next. */
  lemma CarryOn(q: Bits, z: nat)
    requires q != [] && q[|q| - 1]
    ensures Succ(q) + Zeros(z) == Succ(q[..|q| - 1]) + Zeros(z + 1)
  {
  }

  /** A zero becomes one, or there is no bit left. */
  lemma LastStep(q: Bits, z: nat, j: nat)
    requires j == if q == [] then 0 else Pow2(|q| - 1)
    requires !TestBit(Lsb(q), j)
    ensures FlipBit(Lsb(q), j) == Lsb(Succ(q) + Zeros(z))
  {
    LsbConcat(Succ(q), Zeros(z));
    LsbZeros(Zeros(z));
    ScaleUnit(|q|);
    if q != [] {
      LastBit(q);
      ScaleUnit(|q| - 1);
      LsbConcat(q[..|q| - 1], [true]);
      assert Lsb([true]) == 1 by { assert [true][1..] == []; }
    }
  }

  // --------------------------------------------------------------------------- table sizes

  function Total(c: seq<nat>, k: nat): nat
    requires k < |c|
  {
    if k == 0 then 0 else Total(c, k - 1) + c[k]
  }

  lemma {:induction false} SpaceCrowded(c: seq<nat>, g: nat, k: nat, m: nat)
    requires k <= m <= g < |c|
    ensures Total(c, k) <= Total(c, m)
    ensures Space(c, g, m) - Space(c, g, k) <= Scale(Total(c, m) - Total(c, k), g - k)
  {
    ScaleUnit(g - k);
    if k < m {
      SpaceCrowded(c, g, k, m - 1);
      ScaleAdd(Total(c, m - 1) - Total(c, k), c[m], g - k);
      ScaleMonotone(c[m], g - m, g - k);
    }
  }

  lemma {:induction false} ScaleMonotone(n: nat, d: nat, e: nat)
    requires d <= e
    ensures Scale(n, d) <= Scale(n, e)
  {
    if d < e {
      ScaleMonotone(n, d, e - 1);
    }
  }

  /** Few enough codes, or short enough ones: then no level of tables is skipped, and every table
      below the root has at most `l` bits. */
  ghost predicate InScope(cs: seq<nat>, g: nat, l: nat)
    requires g < |cs|
  {
    Total(cs, g) < Pow2(l) || g <= 2 * l
  }

  /** Codes of length `k` or more fill what is left from the start of a prefix of `w` bits on, so
      there are at least `2^(k-w)` of them. */
  lemma ManyCodes(x: Ctx, k: nat, a: nat, prefix: Bits)
    requires x.Shape() && Space(x.cs, x.g, x.g) == Pow2(x.g) && |prefix| < k <= x.g && a < x.cs[k]
    requires Start(x.g, prefix) == Space(x.cs, x.g, k - 1) + Scale(x.cs[k] - (a + 1), x.g - k)
    ensures Pow2(k - |prefix|) <= Total(x.cs, x.g)
  {
    var g, n := x.g, Pow2(k - |prefix|);
    SpaceCrowded(x.cs, g, 0, k);
    SpaceCrowded(x.cs, g, k, g);
    RoomFirst(x, k, a, prefix);
    EndBound(g, prefix);
    if n > a + 1 {
      ScaleLess(Total(x.cs, g) - Total(x.cs, k), n - (a + 1), g - k);
    }
    assert a + 1 <= x.cs[k] <= Total(x.cs, k);
  }

  lemma NoSkip(x: Ctx, k: nat, a: nat, prefix: Bits)
    requires x.Shape() && Space(x.cs, x.g, x.g) == Pow2(x.g) && |prefix| < k <= x.g && a < x.cs[k]
    requires Start(x.g, prefix) == Space(x.cs, x.g, k - 1) + Scale(x.cs[k] - (a + 1), x.g - k)
    ensures |prefix| >= x.l && InScope(x.cs, x.g, x.l) ==> k - |prefix| < x.l || x.g - |prefix| <= x.l
  {
    if k - |prefix| >= x.l {
      ManyCodes(x, k, a, prefix);
      Pow2Monotone(x.l, k - |prefix|);
    }
  }

  /** The size, in bits, of the table to make for the codes from here on (lines 294-304); `a` more
      codes of length `k` follow the current one. */
  method TableBits(ghost x: Ctx, c: seq<nat>, g: nat, l: nat, k: nat, w: nat, a: nat, ghost prefix: Bits)
    returns (j: nat)
    requires x.Shape() && c == x.cs && x.g == g && x.l == l && Space(x.cs, g, g) == Pow2(g)
    requires |prefix| == w < k <= g && a < x.cs[k]
    requires Start(g, prefix) == Space(x.cs, g, k - 1) + Scale(x.cs[k] - (a + 1), g - k)
    ensures 0 < j <= BMAX + 1
    ensures j <= l ==> w + j <= g && Space(x.cs, g, w + j - 1) < End(g, prefix)
    ensures j >= l || End(g, prefix) <= Space(x.cs, g, w + j)
    ensures w >= l && InScope(x.cs, g, l) ==> j <= l
    ensures j <= l <==> k - w < l || (k - w == l && Pow2(l) <= a + 1)
  {
    var z := if g - w > l then l else g - w;
    j := k - w;
    var f := Pow2(j);
    RoomFirst(x, k, a, prefix);
    NoSkip(x, k, a, prefix);
    EndBound(g, prefix);
    if f > a + 1 {
      j := SmallerTables(x, c, k, w, z, f - (a + 1), prefix);
    }
  }

  /** One code each of one and two bits and two of three, in tables of one bit: the table for what begins
      with a one has two bits. */
  method TooWide(ghost c: Coding) returns (j: nat)
    ensures j > 1
  {
    var cs := [0, 1, 1, 2] + seq(BMAX - 3, _ => 0);
    ghost var x := Ctx(c, 3, 1, cs);
    assert Space(cs, 3, 0) == 0 && Space(cs, 3, 1) == Scale(1, 2) == 4;
    assert Space(cs, 3, 2) == 4 + Scale(1, 1) == 6 && Space(cs, 3, 3) == 6 + Scale(2, 0) == 8;
    assert Msb([true]) == 1 && Scale(0, 1) == 0 by { assert [true][..0] == []; }
    j := TableBits(x, cs, 3, 1, 2, 1, 0, [true]);
  }

  /** Try smaller tables, up to `z` bits (lines 299-303). */
  method SmallerTables(ghost x: Ctx, c: seq<nat>, k: nat, w: nat, z: nat, f0: nat, ghost prefix: Bits)
    returns (j: nat)
    requires x.Shape() && c == x.cs && Space(x.cs, x.g, x.g) == Pow2(x.g)
    requires |prefix| == w < k < x.g && z == (if x.g - w > x.l then x.l else x.g - w)
    requires f0 > 0 && Room(x, prefix, k, f0)
    ensures k - w < j && (j <= z || j == k - w + 1)
    ensures Space(x.cs, x.g, w + j - 1) < End(x.g, prefix)
    ensures j >= x.l || End(x.g, prefix) <= Space(x.cs, x.g, w + j)
  {
    EndArea(x.g, x.g, prefix);
    RoomLeft(x, prefix, k, f0);
    var f := f0;
    j := k - w + 1;
    while j < z
      invariant k - w < j && (j <= z || j == k - w + 1) && f > 0
      invariant Room(x, prefix, w + j - 1, f) && Space(x.cs, x.g, w + j - 1) < End(x.g, prefix)
    {
      RoomStep(x, prefix, w + j - 1, f);
      f := 2 * f;
      if f <= c[w + j] {
        break;
      }
      f := f - c[w + j];
      RoomLeft(x, prefix, w + j, f);
      j := j + 1;
    }
  }

  lemma RoomLeft(x: Ctx, prefix: Bits, k: nat, f: nat)
    requires x.Shape() && |prefix| <= x.g && k <= x.g && Room(x, prefix, k, f) && f > 0
    ensures Space(x.cs, x.g, k) < End(x.g, prefix)
  {
    ScalePositive(f, x.g - k);
  }

  lemma {:induction false} ScalePositive(n: nat, e: nat)
    requires n > 0
    ensures Scale(n, e) > 0
  {
    if e > 0 {
      ScalePositive(n, e - 1);
    }
  }

  /** The codes of up to `k` bits leave `f` patterns of `k` bits with this prefix. */
  ghost predicate Room(x: Ctx, prefix: Bits, k: nat, f: int)
    requires x.Shape() && |prefix| <= x.g && k <= x.g
  {
    f >= 0 ==> Scale(f, x.g - k) + Space(x.cs, x.g, k) == End(x.g, prefix)
  }

  lemma RoomFirst(x: Ctx, k: nat, a: nat, prefix: Bits)
    requires x.Shape() && Space(x.cs, x.g, x.g) == Pow2(x.g) && |prefix| < k <= x.g && a < x.cs[k]
    requires Start(x.g, prefix) == Space(x.cs, x.g, k - 1) + Scale(x.cs[k] - (a + 1), x.g - k)
    ensures Room(x, prefix, k, Pow2(k - |prefix|) - (a + 1))
    ensures Pow2(k - |prefix|) <= a + 1 ==> End(x.g, prefix) <= Space(x.cs, x.g, k)
    ensures Pow2(k - |prefix|) > a + 1 ==> k < x.g
  {
    EndArea(x.g, k, prefix);
    RoomNumbers(Space(x.cs, x.g, k - 1), x.cs[k], a + 1, Pow2(k - |prefix|), x.g - k);
  }

  lemma RoomNumbers(space: nat, n: nat, a: nat, f: nat, e: nat)
    requires a <= n
    ensures space + Scale(n - a, e) + Scale(a, e) == space + Scale(n, e)
    ensures f <= a <==> Scale(f, e) <= Scale(a, e)
    ensures f >= a ==> Scale(f - a, e) == Scale(f, e) - Scale(a, e)
  {
    ScaleAdd(n - a, a, e);
    ScaleLess(a, f, e);
    if f >= a {
      ScaleAdd(f - a, a, e);
    }
  }

  lemma EndArea(g: nat, k: nat, prefix: Bits)
    requires |prefix| <= k <= g
    ensures End(g, prefix) == Start(g, prefix) + Scale(Pow2(k - |prefix|), g - k)
    ensures End(g, prefix) <= Pow2(g)
  {
    EndBound(g, prefix);
    ScaleUnit(k - |prefix|);
    ScaleTwice(1, k - |prefix|, g - k);
    ScaleUnit(g - |prefix|);
  }

  lemma RoomStep(x: Ctx, prefix: Bits, k: nat, f: nat)
    requires x.Shape() && |prefix| <= x.g && k < x.g && Room(x, prefix, k, f)
    ensures Room(x, prefix, k + 1, 2 * f - x.cs[k + 1])
    ensures 2 * f <= x.cs[k + 1] ==> End(x.g, prefix) <= Space(x.cs, x.g, k + 1)
  {
    var e, n := x.g - (k + 1), x.cs[k + 1];
    ScaleDouble(f, e);
    if 2 * f <= n {
      ScaleLess(n, 2 * f, e);
    }
    if 2 * f >= n {
      ScaleAdd(2 * f - n, n, e);
    }
  }

  /** Fill code-like entries (lines 344-346). */
  method FillEntries(tab: seq<Huft>, first: nat, m: nat, r: Huft) returns (tab': seq<Huft>)
    requires first < Pow2(m)
    ensures Filled(tab, tab', first, m, r)
  {
    tab' := tab;
    var j: nat := first;
    ghost var n: nat := 0;
    ScaleUnit(m);
    forall i: nat | i < first ensures Low(i, m) != first {
      LowShr(i, m, 0, i);
    }
    while j < |tab'|
      invariant Multiple(j, first, m, n) && |tab'| == |tab|
      invariant forall i :: 0 <= i < |tab| ==>
                  tab'[i] == if Low(i, m) == first && i < j then r else tab[i]
    {
      forall i: nat | j <= i < j + Pow2(m) ensures Low(i, m) == first <==> i == j {
        OnceInStride(i, j, m, n, first);
      }
      OnceInStride(j, j, m, n, first);
      tab' := tab'[j := r];
      j, n := j + Pow2(m), n + 1;
    }
  }

  ghost predicate Multiple(j: nat, first: nat, m: nat, n: nat) { j == first + Scale(n, m) }

  lemma OnceInStride(i: nat, j: nat, m: nat, n: nat, first: nat)
    requires first < Pow2(m) && Multiple(j, first, m, n) && j <= i < j + Pow2(m)
    ensures Low(i, m) == first <==> i == j
    ensures Multiple(j + Pow2(m), first, m, n + 1)
  {
    var d := i - j;
    ScaleAdd(n, 1, m);
    ScaleUnit(m);
    if first + d < Pow2(m) {
      LowShr(i, m, n, first + d);
    } else {
      LowShr(i, m, n + 1, first + d - Pow2(m));
    }
  }
}
