/** Bit strings read in two ways: least significant bit first, as DEFLATE packs its stream and
    indexes its tables, and most significant bit first, as Huffman codes are numbered. */
module BitStrings {

  type Bits = seq<bool>

  type Byte = n: nat | n < 256

  function Pow2(n: nat): (p: nat)
    ensures p > 0
  {
    if n == 0 then 1 else 2 * Pow2(n - 1)
  }

  /** `n * 2^e`, defined so that reasoning about it stays linear. */
  function Scale(n: nat, e: nat): nat {
    if e == 0 then n else 2 * Scale(n, e - 1)
  }

  lemma {:induction false} ScaleAdd(m: nat, n: nat, e: nat)
    ensures Scale(m + n, e) == Scale(m, e) + Scale(n, e)
  {
    if e > 0 {
      ScaleAdd(m, n, e - 1);
    }
  }

  lemma {:induction false} ScaleLess(m: nat, n: nat, e: nat)
    ensures m < n <==> Scale(m, e) < Scale(n, e)
    ensures m < n ==> Scale(m, e) + Pow2(e) <= Scale(n, e)
  {
    if e > 0 {
      ScaleLess(m, n, e - 1);
    }
  }

  lemma {:induction false} ScaleTwice(n: nat, d: nat, e: nat)
    ensures Scale(Scale(n, d), e) == Scale(n, d + e)
  {
    if e > 0 {
      ScaleTwice(n, d, e - 1);
    }
  }

  lemma {:induction false} ScaleUnit(e: nat)
    ensures Scale(1, e) == Pow2(e) && Scale(0, e) == 0
  {
    if e > 0 {
      ScaleUnit(e - 1);
    }
  }

  lemma {:induction false} ScaleDouble(n: nat, e: nat)
    ensures Scale(2 * n, e) == 2 * Scale(n, e) == Scale(n, e + 1)
  {
    if e > 0 {
      ScaleDouble(n, e - 1);
    }
  }

  lemma {:induction false} Pow2Monotone(m: nat, n: nat)
    requires m <= n
    ensures Pow2(m) <= Pow2(n)
    ensures m < n ==> 2 * Pow2(m) <= Pow2(n)
  {
    if m < n {
      Pow2Monotone(m, n - 1);
    }
  }

  function Bit(b: bool): (n: nat) { if b then 1 else 0 }

  /** The value of `b` when its first bit is the least significant one. */
  function Lsb(b: Bits): nat {
    if b == [] then 0 else Bit(b[0]) + 2 * Lsb(b[1..])
  }

  /** The value of `b` when its first bit is the most significant one. */
  function Msb(b: Bits): nat {
    if b == [] then 0 else 2 * Msb(b[..|b| - 1]) + Bit(b[|b| - 1])
  }

  /** The low `m` bits of `n`, least significant first. */
  function ToBits(n: nat, m: nat): (b: Bits)
    ensures |b| == m
  {
    if m == 0 then [] else [n % 2 == 1] + ToBits(n / 2, m - 1)
  }

  /** `n >> m` */
  function Shr(n: nat, m: nat): nat {
    if m == 0 then n else Shr(n / 2, m - 1)
  }

  /** `n & ((1 << m) - 1)` */
  function Low(n: nat, m: nat): nat {
    if m == 0 then 0 else n % 2 + 2 * Low(n / 2, m - 1)
  }

  function Zeros(n: nat): Bits { seq(n, _ => false) }

  lemma {:induction false} LsbConcat(a: Bits, b: Bits)
    ensures Lsb(a + b) == Lsb(a) + Scale(Lsb(b), |a|)
    decreases |a|
  {
    if a == [] {
      assert a + b == b;
    } else {
      assert (a + b)[1..] == a[1..] + b;
      LsbConcat(a[1..], b);
    }
  }

  lemma {:induction false} LsbBound(b: Bits)
    ensures Lsb(b) < Pow2(|b|)
  {
    if b != [] {
      LsbBound(b[1..]);
    }
  }

  lemma {:induction false} LsbZeros(b: Bits)
    requires forall j :: 0 <= j < |b| ==> !b[j]
    ensures Lsb(b) == 0 && Msb(b) == 0
    decreases |b|
  {
    if b != [] {
      LsbZeros(b[1..]);
      LsbZeros(b[..|b| - 1]);
    }
  }

  lemma LsbPad(a: Bits, n: nat)
    ensures Lsb(a + Zeros(n)) == Lsb(a)
  {
    LsbConcat(a, Zeros(n));
    LsbZeros(Zeros(n));
    ScaleUnit(|a|);
  }

  lemma {:induction false} LowShr(n: nat, m: nat, q: nat, r: nat)
    requires n == r + Scale(q, m) && r < Pow2(m)
    ensures Shr(n, m) == q && Low(n, m) == r
  {
    if m > 0 {
      LowShr(n / 2, m - 1, q, r / 2);
    }
  }

  /** Taking a value modulo, or dividing it by, a power of two takes or drops low bits. */
  lemma LsbSplit(b: Bits, m: nat)
    requires m <= |b|
    ensures Low(Lsb(b), m) == Lsb(b[..m])
    ensures Shr(Lsb(b), m) == Lsb(b[m..])
  {
    assert b == b[..m] + b[m..];
    LsbConcat(b[..m], b[m..]);
    LsbBound(b[..m]);
    LowShr(Lsb(b), m, Lsb(b[m..]), Lsb(b[..m]));
  }

  lemma {:induction false} LsbInjective(a: Bits, b: Bits)
    requires |a| == |b| && Lsb(a) == Lsb(b)
    ensures a == b
    decreases |a|
  {
    if a != [] {
      LsbInjective(a[1..], b[1..]);
      assert a == [a[0]] + a[1..] && b == [b[0]] + b[1..];
    }
  }

  lemma LsbOfByte(b: Bits)
    requires |b| == 8
    ensures Lsb(b) == Bit(b[0]) + 2 * Bit(b[1]) + 4 * Bit(b[2]) + 8 * Bit(b[3])
                      + 16 * Bit(b[4]) + 32 * Bit(b[5]) + 64 * Bit(b[6]) + 128 * Bit(b[7])
  {
    assert b == b[..4] + b[4..];
    LsbConcat(b[..4], b[4..]);
    LsbOfFour(b[..4]);
    LsbOfFour(b[4..]);
    var n := Lsb(b[4..]);
    assert Scale(n, 4) == 2 * Scale(n, 3) && Scale(n, 2) == 2 * Scale(n, 1);
  }

  lemma LsbOfFour(b: Bits)
    requires |b| == 4
    ensures Lsb(b) == Bit(b[0]) + 2 * Bit(b[1]) + 4 * Bit(b[2]) + 8 * Bit(b[3])
  {
    assert b[1..][1..] == b[2..] && b[2..][1..] == b[3..] && b[3..][1..] == [];
    assert Lsb(b[2..]) == Bit(b[2]) + 2 * Lsb(b[3..]);
  }

  lemma {:induction false} ToBitsLsb(b: Bits)
    ensures ToBits(Lsb(b), |b|) == b
  {
    if b != [] {
      ToBitsLsb(b[1..]);
      assert b == [b[0]] + b[1..];
    }
  }

  lemma {:induction false} LsbToBits(n: nat, m: nat)
    requires n < Pow2(m)
    ensures Lsb(ToBits(n, m)) == n
    decreases m
  {
    if m > 0 {
      LsbToBits(n / 2, m - 1);
      assert ToBits(n, m)[1..] == ToBits(n / 2, m - 1);
    }
  }

  lemma {:induction false} MsbConcat(a: Bits, b: Bits)
    ensures Msb(a + b) == Scale(Msb(a), |b|) + Msb(b)
    decreases |b|
  {
    if b == [] {
      assert a + b == a;
    } else {
      assert (a + b)[..|a + b| - 1] == a + b[..|b| - 1];
      MsbConcat(a, b[..|b| - 1]);
    }
  }

  lemma {:induction false} MsbBound(b: Bits)
    ensures Msb(b) < Pow2(|b|)
  {
    if b != [] {
      MsbBound(b[..|b| - 1]);
    }
  }

  lemma {:induction false} MsbInjective(a: Bits, b: Bits)
    requires |a| == |b| && Msb(a) == Msb(b)
    ensures a == b
    decreases |a|
  {
    if a != [] {
      MsbInjective(a[..|a| - 1], b[..|b| - 1]);
      assert a == a[..|a| - 1] + [a[|a| - 1]] && b == b[..|b| - 1] + [b[|b| - 1]];
    }
  }

  // ---------------------------------------------------------------- intervals of code space

  /** The first of the `Pow2(g)` strings of `g` bits that begins with `p`, in numeric order. */
  function Start(g: nat, p: Bits): nat
    requires |p| <= g
  {
    Scale(Msb(p), g - |p|)
  }

  /** One past the last string of `g` bits that begins with `p`. */
  function End(g: nat, p: Bits): nat
    requires |p| <= g
  {
    Scale(Msb(p) + 1, g - |p|)
  }

  lemma EndBound(g: nat, p: Bits)
    requires |p| <= g
    ensures End(g, p) <= Pow2(g)
    ensures End(g, p) == Start(g, p) + Pow2(g - |p|)
    ensures Start(g, p) < End(g, p)
  {
    var e := g - |p|;
    MsbBound(p);
    ScaleAdd(Msb(p), 1, e);
    ScaleUnit(e);
    ScaleUnit(|p|);
    ScaleTwice(1, |p|, e);
    ScaleUnit(g);
    ScaleLess(Pow2(|p|), Msb(p) + 1, e);
  }

  /** A longer string with prefix `a` has its interval inside that of `a`. */
  lemma Nested(g: nat, a: Bits, b: Bits)
    requires a <= b && |b| <= g
    ensures Start(g, a) <= Start(g, b) && End(g, b) <= End(g, a)
    ensures (forall j :: |a| <= j < |b| ==> !b[j]) ==> Start(g, a) == Start(g, b)
  {
    var r, e := b[|a|..], g - |b|;
    assert b == a + r;
    MsbConcat(a, r);
    MsbBound(r);
    ScaleTwice(Msb(a), |r|, e);
    ScaleTwice(Msb(a) + 1, |r|, e);
    ScaleAdd(Msb(a), 1, |r|);
    ScaleUnit(|r|);
    ScaleAdd(Scale(Msb(a), |r|), Msb(r), e);
    ScaleLess(Scale(Msb(a) + 1, |r|), Msb(b) + 1, e);
    if forall j :: |a| <= j < |b| ==> !b[j] {
      assert forall j :: 0 <= j < |r| ==> r[j] == b[|a| + j];
      LsbZeros(r);
    }
  }

  /** Two strings, neither a prefix of the other, have disjoint intervals. */
  lemma Disjoint(g: nat, a: Bits, b: Bits)
    requires |a| <= |b| <= g && !(a <= b)
    ensures End(g, b) <= Start(g, a) || End(g, a) <= Start(g, b)
  {
    var c := b[..|a|];
    Nested(g, c, b);
    assert c != a;
    if Msb(c) == Msb(a) {
      MsbInjective(a, c);
    }
    ScaleLess(Msb(a), Msb(c) + 1, g - |a|);
    ScaleLess(Msb(c), Msb(a) + 1, g - |a|);
  }

  /** The string that follows `p` among those of its length; all zeros after the last one. */
  function Succ(p: Bits): (s: Bits)
    ensures |s| == |p|
  {
    if p == [] then []
    else if p[|p| - 1] then Succ(p[..|p| - 1]) + [false]
    else p[..|p| - 1] + [true]
  }

  predicate AllOnes(p: Bits) { forall j :: 0 <= j < |p| ==> p[j] }

  lemma OnesPrefix(p: Bits)
    requires p != []
    ensures AllOnes(p) <==> AllOnes(p[..|p| - 1]) && p[|p| - 1]
  {
    var q := p[..|p| - 1];
    if AllOnes(q) && p[|p| - 1] {
      forall j | 0 <= j < |p| ensures p[j] { if j < |q| { assert q[j] == p[j]; } }
    }
  }

  lemma {:induction false} SuccMsb(p: Bits)
    ensures AllOnes(p) <==> Msb(p) + 1 == Pow2(|p|)
    ensures Msb(Succ(p)) == if AllOnes(p) then 0 else Msb(p) + 1
  {
    if p != [] {
      var q := p[..|p| - 1];
      SuccMsb(q);
      MsbBound(q);
      OnesPrefix(p);
      assert Pow2(|p|) == 2 * Pow2(|q|) && Msb(p) == 2 * Msb(q) + Bit(p[|p| - 1]);
      MsbLast(Succ(p), if p[|p| - 1] then Succ(q) else q);
      hide AllOnes, Msb, Pow2, Succ;
    }
  }

  lemma MsbLast(p: Bits, q: Bits)
    requires p != [] && p[..|p| - 1] == q
    ensures Msb(p) == 2 * Msb(q) + Bit(p[|p| - 1])
  {
  }

  lemma SuccStart(g: nat, p: Bits)
    requires |p| <= g
    ensures AllOnes(p) ==> End(g, p) == Pow2(g) && Start(g, Succ(p)) == 0
    ensures !AllOnes(p) ==> Start(g, Succ(p)) == End(g, p)
  {
    hide AllOnes, Msb, Succ, Scale, Pow2;
    SuccMsb(p);
    ScaleUnit(g - |p|);
    ScaleUnit(|p|);
    ScaleTwice(1, |p|, g - |p|);
    ScaleUnit(g);
  }

  lemma SuccKeepsPrefix(p: Bits, m: nat)
    requires m < |p| && !p[|p| - 1]
    ensures Succ(p)[..m] == p[..m]
  {
  }

  /** Where the successor differs from `p` within the first `m` bits, its later bits are zero. */
  lemma {:induction false} SuccTail(p: Bits, m: nat, j: nat)
    requires m <= j < |p| && Succ(p)[..m] != p[..m]
    ensures !Succ(p)[j]
  {
    var q := p[..|p| - 1];
    if !p[|p| - 1] {
      SuccKeepsPrefix(p, m);
    } else if j < |q| {
      assert Succ(p)[..m] == Succ(q)[..m] && p[..m] == q[..m];
      SuccTail(q, m, j);
    }
  }
}
