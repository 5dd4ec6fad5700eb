/** The canonical Huffman code of section 3.2.2 of RFC 1951: the reference that the lookup tables
    of src/opkg/libbb/unzip.c are compared with. */
module CanonicalCode {
  import opened BitStrings

  /** Longest code, in bits. */
  const BMAX := 16

  predicate LengthsOk(b: seq<nat>) { forall i :: 0 <= i < |b| ==> b[i] <= BMAX }

  /** How many of the first `i` symbols have codes of length `k`. */
  function CountBelow(b: seq<nat>, k: nat, i: nat): (n: nat)
    requires i <= |b|
  {
    if i == 0 then 0 else CountBelow(b, k, i - 1) + (if b[i - 1] == k then 1 else 0)
  }

  /** The table of bl_count: entry `k` counts the codes of length `k`. */
  function Counts(b: seq<nat>): (c: seq<nat>)
    ensures |c| == BMAX + 1
  {
    seq(BMAX + 1, k requires k >= 0 => CountBelow(b, k, |b|))
  }

  /** next_code of RFC 1951: the numerically smallest code of length `k`. */
  function FirstCode(b: seq<nat>, k: nat): nat {
    if k <= 1 then 0 else 2 * (FirstCode(b, k - 1) + CountBelow(b, k - 1, |b|))
  }

  function CodeOf(b: seq<nat>, s: nat): nat
    requires s < |b|
  {
    FirstCode(b, b[s]) + CountBelow(b, b[s], s)
  }

  /** The code of symbol `s`, packed most significant bit first, begins the stream `bits`. */
  predicate Matches(b: seq<nat>, s: nat, bits: Bits) {
    s < |b| && 0 < b[s] <= |bits| && Msb(bits[..b[s]]) == CodeOf(b, s)
  }

  /** How much of the space of `g`-bit strings the codes of length 1 to `k` take. */
  function Space(c: seq<nat>, g: nat, k: nat): (n: nat)
    requires k <= g < |c|
  {
    if k == 0 then 0 else Space(c, g, k - 1) + Scale(c[k], g - k)
  }

  predicate Oversubscribed(b: seq<nat>) { Space(Counts(b), BMAX, BMAX) > Pow2(BMAX) }

  predicate Complete(b: seq<nat>) { Space(Counts(b), BMAX, BMAX) == Pow2(BMAX) }

  /** The longest length up to `k` that has codes. */
  function Longest(c: seq<nat>, k: nat): (g: nat)
    requires k < |c|
    ensures g <= k && (g > 0 ==> c[g] > 0)
    ensures forall m :: g < m <= k ==> c[m] == 0
  {
    if k == 0 || c[k] > 0 then k else Longest(c, k - 1)
  }

  lemma {:induction false} SpaceMonotone(c: seq<nat>, g: nat, k: nat, m: nat)
    requires k <= m <= g < |c|
    ensures Space(c, g, k) <= Space(c, g, m)
  {
    if k < m {
      SpaceMonotone(c, g, k, m - 1);
    }
  }

  /** Lengths above `g`, where there are no codes, add nothing, and a longer unit only scales. */
  lemma {:induction false} SpaceScale(c: seq<nat>, g: nat, k: nat, top: nat)
    requires k <= top && g <= top < |c|
    requires forall m :: g < m <= top ==> c[m] == 0
    ensures Space(c, top, k) == Scale(Space(c, g, if k < g then k else g), top - g)
  {
    ScaleUnit(top - g);
    if k > 0 {
      SpaceScale(c, g, k - 1, top);
      if k <= g {
        ScaleTwice(c[k], g - k, top - g);
        ScaleAdd(Space(c, g, k - 1), Scale(c[k], g - k), top - g);
      } else {
        ScaleUnit(top - k);
      }
    }
  }

  lemma KraftScale(c: seq<nat>, g: nat, top: nat)
    requires g <= top < |c| && forall m :: g < m <= top ==> c[m] == 0
    ensures Space(c, top, top) > Pow2(top) <==> Space(c, g, g) > Pow2(g)
    ensures Space(c, top, top) == Pow2(top) <==> Space(c, g, g) == Pow2(g)
  {
    SpaceScale(c, g, top, top);
    PowScale(g, top);
    ScaleLess(Pow2(g), Space(c, g, g), top - g);
    ScaleLess(Space(c, g, g), Pow2(g), top - g);
  }

  lemma PowScale(g: nat, top: nat)
    requires g <= top
    ensures Pow2(top) == Scale(Pow2(g), top - g)
  {
    ScaleUnit(g);
    ScaleUnit(top);
    ScaleTwice(1, g, top - g);
  }

  lemma KraftAtLongest(b: seq<nat>, g: nat)
    requires LengthsOk(b) && g == Longest(Counts(b), BMAX)
    ensures Oversubscribed(b) <==> Space(Counts(b), g, g) > Pow2(g)
    ensures Complete(b) <==> Space(Counts(b), g, g) == Pow2(g)
  {
    KraftScale(Counts(b), g, BMAX);
  }

  lemma {:induction false} CountsSplit(b: seq<nat>, k: nat, i: nat, j: nat)
    requires i <= j <= |b|
    ensures CountBelow(b, k, i) <= CountBelow(b, k, j)
    ensures i < j && b[i] == k ==> CountBelow(b, k, i) < CountBelow(b, k, j)
  {
    if i < j {
      CountsSplit(b, k, i, j - 1);
    }
  }

  /** The codes of length `k` start where the shorter ones stop. */
  lemma {:induction false} FirstCodeSpace(b: seq<nat>, g: nat, k: nat)
    requires 1 <= k <= g <= BMAX
    ensures Scale(FirstCode(b, k), g - k) == Space(Counts(b), g, k - 1)
  {
    if k > 1 {
      FirstCodeSpace(b, g, k - 1);
      var f, n := FirstCode(b, k - 1), CountBelow(b, k - 1, |b|);
      ScaleDouble(f + n, g - k);
      ScaleAdd(f, n, g - (k - 1));
    } else {
      ScaleUnit(g - 1);
    }
  }

  /** The interval of a matched code lies between the shorter and the longer codes. */
  lemma MatchInterval(b: seq<nat>, g: nat, s: nat, bits: Bits)
    requires Matches(b, s, bits) && b[s] <= g <= BMAX
    ensures Start(g, bits[..b[s]])
         == Space(Counts(b), g, b[s] - 1) + Scale(CountBelow(b, b[s], s), g - b[s])
    ensures Start(g, bits[..b[s]]) < End(g, bits[..b[s]]) <= Space(Counts(b), g, b[s])
  {
    var k, r := b[s], CountBelow(b, b[s], s);
    FirstCodeSpace(b, g, k);
    ScaleAdd(FirstCode(b, k), r, g - k);
    ScaleAdd(FirstCode(b, k), r + 1, g - k);
    CountsSplit(b, k, s, |b|);
    ScaleLess(CountBelow(b, k, |b|), r + 1, g - k);
    ScaleLess(Msb(bits[..k]), Msb(bits[..k]) + 1, g - k);
  }

  /** No stream begins with the codes of two symbols. */
  lemma MatchUnique(b: seq<nat>, s: nat, t: nat, bits: Bits)
    requires LengthsOk(b) && Matches(b, s, bits) && Matches(b, t, bits)
    ensures s == t
  {
    if b[s] < b[t] {
      MatchShorter(b, s, t, bits);
    } else if b[t] < b[s] {
      MatchShorter(b, t, s, bits);
    } else if s < t {
      CountsSplit(b, b[s], s, t);
    } else if t < s {
      CountsSplit(b, b[s], t, s);
    }
  }

  lemma MatchShorter(b: seq<nat>, s: nat, t: nat, bits: Bits)
    requires LengthsOk(b) && Matches(b, s, bits) && t < |b| && b[s] < b[t]
    ensures !Matches(b, t, bits)
  {
    MatchInterval(b, BMAX, s, bits);
    if Matches(b, t, bits) {
      MatchInterval(b, BMAX, t, bits);
      SpaceMonotone(Counts(b), BMAX, b[s], b[t] - 1);
      Nested(BMAX, bits[..b[s]], bits[..b[t]]);
    }
  }
}
