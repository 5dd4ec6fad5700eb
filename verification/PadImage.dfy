/** The loop of src/padjffs2/padjffs2.c that pads an image to several sizes and puts an end marker at
    each. */
module PadImage {
  import opened BitStrings
  import opened Words

  /** 1UL << i */
  function Mask(i: nat): (m: nat)
    ensures m > 0
  {
    Pow2(i)
  }

  /** ALIGN (line 38): its mask has 32 bits, so that it cuts off what is above. */
  function Align(x: nat, m: nat): nat
    requires m > 0
  {
    var y := (x + m - 1) % TWO32;
    y - y % m
  }

  /** The next multiple. */
  function RoundUp(x: nat, m: nat): nat
    requires m > 0
  {
    x + m - 1 - (x + m - 1) % m
  }

  // ----------------------------------------------------------------------------- multiples

  /** `n` is a multiple of `m`. */
  ghost predicate Multiple(n: nat, m: nat) { exists q: nat :: n == q * m }

  lemma MultipleMod(n: nat, m: nat)
    requires m > 0
    ensures Multiple(n, m) <==> n % m == 0
  {
    if n % m == 0 {
      assert n == (n / m) * m;
    }
    if Multiple(n, m) {
      var q: nat :| n == q * m;
      ModOfMultiple(q, m);
    }
  }

  lemma {:induction false} ModOfMultiple(q: nat, m: nat)
    requires m > 0
    ensures q * m % m == 0
  {
    if q > 0 {
      ModOfMultiple(q - 1, m);
      assert q * m == (q - 1) * m + m;
      AddMod((q - 1) * m, m);
    }
  }

  lemma AddMod(n: nat, m: nat)
    requires m > 0
    ensures (n + m) % m == n % m
  {
    var q, r := n / m, n % m;
    assert n + m == (q + 1) * m + r;
    var d: int := (n + m) / m - (q + 1);
    assert m * d == r - (n + m) % m;
    assert d > 0 ==> m * d >= m;
    assert d < 0 ==> m * d <= 0 - m as int;
  }

  lemma {:induction false} MaskDivides(i: nat, j: nat)
    requires i <= j
    ensures Multiple(Mask(j), Mask(i))
  {
    if i == j {
      assert Mask(j) == 1 * Mask(i);
    } else {
      MaskDivides(i, j - 1);
      var q: nat :| Mask(j - 1) == q * Mask(i);
      assert Mask(j) == (2 * q) * Mask(i);
    }
  }

  lemma MultipleThrough(n: nat, m: nat, l: nat)
    requires Multiple(n, m) && Multiple(m, l)
    ensures Multiple(n, l)
  {
    var p: nat :| n == p * m;
    var q: nat :| m == q * l;
    assert n == (p * q) * l;
  }

  lemma MulMonotone(p: nat, q: nat, m: nat)
    ensures p <= q ==> p * m <= q * m
  {
    if p <= q {
      assert q * m == p * m + (q - p) * m;
    }
  }

  /** Two multiples are the same or that far apart. */
  lemma MultipleGap(a: nat, b: nat, m: nat)
    requires m > 0 && Multiple(a, m) && Multiple(b, m) && a < b
    ensures a + m <= b
  {
    var p: nat :| a == p * m;
    var q: nat :| b == q * m;
    MulMonotone(q, p, m);
    MulMonotone(p + 1, q, m);
    assert (p + 1) * m == p * m + m;
  }

  lemma RoundUpIs(x: nat, m: nat)
    requires m > 0
    ensures x <= RoundUp(x, m) < x + m && Multiple(RoundUp(x, m), m)
    ensures Multiple(x, m) <==> RoundUp(x, m) == x
  {
    var y := x + m - 1;
    assert RoundUp(x, m) == (y / m) * m;
    if Multiple(x, m) && x < RoundUp(x, m) {
      MultipleGap(x, RoundUp(x, m), m);
    }
  }

  /** Rounding up does not pass a multiple. */
  lemma RoundUpLeast(x: nat, m: nat, t: nat)
    requires m > 0 && x <= t && Multiple(t, m)
    ensures RoundUp(x, m) <= t
  {
    RoundUpIs(x, m);
    if t < RoundUp(x, m) {
      MultipleGap(t, RoundUp(x, m), m);
    }
  }

  /** Where nothing is cut off ALIGN rounds up. */
  lemma AlignRoundsUp(x: nat, i: nat)
    requires i < 32 && RoundUp(x, Mask(i)) < TWO32
    ensures Align(x, Mask(i)) == RoundUp(x, Mask(i))
  {
    var m := Mask(i);
    MaskDivides(i, 32);
    TwoTo32();
    RoundUpIs(x, m);
    MultipleGap(RoundUp(x, m), TWO32, m);
  }

  lemma TwoTo32()
    ensures Mask(32) == TWO32
  {
    assert Pow2(10) == 1024 && Pow2(20) == 0x10_0000 && Pow2(30) == 0x4000_0000;
  }

  // ------------------------------------------------------------------------------- the padding

  /** eof_mark */
  const MARK: seq<Byte> := [0xde, 0xad, 0xc0, 0xde]

  function Fill(n: nat): seq<Byte> { seq(n, _ => 0xff) }

  predicate Increasing(s: seq<nat>) { forall i, j :: 0 <= i < j < |s| ==> s[i] < s[j] }

  /** The image with a marker at each place, and 0xff between. */
  function Padded(image: seq<Byte>, marks: seq<nat>): seq<Byte> {
    if marks == [] then image
    else
      var before, last := Padded(image, marks[..|marks| - 1]), marks[|marks| - 1];
      before + Fill(if last >= |before| then last - |before| else 0) + MARK
  }

  /** The file goes on behind the image to the end of the last marker; it has the marker at each place, and 0xff
      everywhere else. */
  ghost predicate Layout(image: seq<Byte>, out: seq<Byte>, marks: seq<nat>) {
    && image <= out && |out| == (if marks == [] then |image| else marks[|marks| - 1] + 4)
    && (forall k :: 0 <= k < |marks| ==> marks[k] + 4 <= |out| && MarkAt(out, marks[k]))
    && forall p :: |image| <= p < |out| && Between(marks, p) ==> out[p] == 0xff
  }

  predicate MarkAt(out: seq<Byte>, p: nat)
    requires p + 4 <= |out|
  {
    out[p] == 0xde && out[p + 1] == 0xad && out[p + 2] == 0xc0 && out[p + 3] == 0xde
  }

  lemma MarkStays(out: seq<Byte>, more: seq<Byte>, p: nat)
    requires p + 4 <= |out| && MarkAt(out, p)
    ensures MarkAt(out + more, p)
  {
  }

  lemma LastMark(before: seq<Byte>)
    ensures MarkAt(before + MARK, |before|)
  {
  }

  /** No marker reaches to `p`. */
  ghost predicate Between(marks: seq<nat>, p: nat) {
    forall k :: 0 <= k < |marks| ==> !(marks[k] <= p < marks[k] + 4)
  }

  lemma BetweenFewer(marks: seq<nat>, at: nat, p: nat)
    requires Between(marks + [at], p)
    ensures Between(marks, p) && !(at <= p < at + 4)
  {
    assert (marks + [at])[|marks|] == at;
    forall k | 0 <= k < |marks| ensures !(marks[k] <= p < marks[k] + 4) {
      assert (marks + [at])[k] == marks[k];
    }
  }

  lemma LayoutNext(image: seq<Byte>, out: seq<Byte>, marks: seq<nat>, at: nat)
    requires Layout(image, out, marks) && |out| <= at
    ensures Layout(image, out + Fill(at - |out|) + MARK, marks + [at])
  {
    var fill, marks' := Fill(at - |out|), marks + [at];
    var out' := out + fill + MARK;
    assert out' == out + (fill + MARK);
    hide MarkAt, Fill, Between;
    forall k | 0 <= k < |marks'| ensures marks'[k] + 4 <= |out'| && MarkAt(out', marks'[k]) {
      if k < |marks| {
        MarkStays(out, fill + MARK, marks[k]);
      } else {
        LastMark(out + fill);
      }
    }
    forall p | |image| <= p < |out'| && Between(marks', p) ensures out'[p] == 0xff {
      BetweenFewer(marks, at, p);
      if p >= |out| {
        Filled(at - |out|, p - |out|);
        assert out'[p] == fill[p - |out|];
      }
    }
  }

  lemma Filled(n: nat, i: nat)
    requires i < n
    ensures |Fill(n)| == n && Fill(n)[i] == 0xff
  {
  }

  lemma PaddedNext(image: seq<Byte>, marks: seq<nat>, at: nat)
    requires |Padded(image, marks)| <= at
    ensures Padded(image, marks + [at]) == Padded(image, marks) + Fill(at - |Padded(image, marks)|) + MARK
  {
    assert (marks + [at])[..|marks|] == marks;
  }

  /** Some marker is at a multiple of `m`. */
  ghost predicate MarkedAt(marks: seq<nat>, m: nat) { exists k :: 0 <= k < |marks| && Multiple(marks[k], m) }

  lemma StillMarked(marks: seq<nat>, at: nat, m: nat)
    ensures MarkedAt(marks, m) ==> MarkedAt(marks + [at], m)
    ensures Multiple(at, m) ==> MarkedAt(marks + [at], m)
  {
    if MarkedAt(marks, m) {
      var k :| 0 <= k < |marks| && Multiple(marks[k], m);
      assert (marks + [at])[k] == marks[k];
    }
    assert (marks + [at])[|marks|] == at;
  }

  lemma NotMarked(marks: seq<nat>, at: nat, m: nat)
    requires !MarkedAt(marks, m) && !Multiple(at, m)
    ensures !MarkedAt(marks + [at], m)
  {
    if k :| 0 <= k < |marks + [at]| && Multiple((marks + [at])[k], m) {
      assert k < |marks| ==> (marks + [at])[k] == marks[k];
    }
  }

  /** Pad sizes that can be asked for: multiples of 1024 (line 141). */
  predicate Sizes(w: Word) { forall i :: 0 <= i < 10 ==> !w[i] }

  /** No size is so large that the image would have to grow to 2^32 bytes: so it is for images of up to 2^31
      bytes. */
  ghost predicate Fits(n: nat, w: Word) { forall i :: 0 <= i < 32 && w[i] ==> RoundUp(n, Mask(i)) < TWO32 }

  lemma SmallImageFits(n: nat, w: Word)
    requires n <= 0x8000_0000
    ensures Fits(n, w)
  {
    forall i | 0 <= i < 32 && w[i] ensures RoundUp(n, Mask(i)) < TWO32 {
      MaskDivides(i, 31);
      Mask31();
      RoundUpLeast(n, Mask(i), 0x8000_0000);
    }
  }

  lemma Mask31()
    ensures Mask(31) == 0x8000_0000
  {
    assert Pow2(10) == 1024 && Pow2(20) == 0x10_0000 && Pow2(30) == 0x4000_0000;
  }

  /** How many sizes are still to be padded to. */
  function Left(w: Bits): nat {
    if w == [] then 0 else Left(w[..|w| - 1]) + if w[|w| - 1] then 1 else 0
  }

  lemma {:induction false} LeftClear(w: Bits, v: Bits)
    requires |v| == |w| && forall i :: 0 <= i < |w| && v[i] ==> w[i]
    ensures Left(v) <= Left(w)
    ensures (exists i :: 0 <= i < |w| && w[i] && !v[i]) ==> Left(v) < Left(w)
    decreases |w|
  {
    if w != [] {
      LeftClear(w[..|w| - 1], v[..|w| - 1]);
      if i :| 0 <= i < |w| && w[i] && !v[i] {
        if i < |w| - 1 {
          assert w[..|w| - 1][i] && !v[..|w| - 1][i];
        }
      }
    }
  }

  /** `(in_len & (mask - 1)) == 0` */
  predicate IsAligned(n: nat, i: nat) { n % Mask(i) == 0 }

  lemma AlignedMultiple(n: nat, i: nat)
    ensures IsAligned(n, i) <==> Multiple(n, Mask(i))
  {
    MultipleMod(n, Mask(i));
  }

  /** The first loop over the sizes (lines 72-76): the smallest that is asked for. */
  method Smallest(w: Word) returns (i: nat)
    requires Sizes(w) && exists k :: 0 <= k < 32 && w[k]
    ensures 10 <= i < 32 && w[i] && forall k :: 0 <= k < i ==> !w[k]
  {
    i := 10;
    while !w[i]
      invariant 10 <= i < 32 && forall k :: 0 <= k < i ==> !w[k]
      decreases 32 - i
    {
      var k :| 0 <= k < 32 && w[k];
      assert k > i;
      i := i + 1;
    }
  }

  /** The second (lines 80-84): the sizes that `n` is aligned to are done. */
  method ClearAligned(w: Word, n: nat) returns (v: Word)
    ensures forall i :: 0 <= i < 32 ==> v[i] == (w[i] && !(i >= 10 && IsAligned(n, i)))
  {
    v := w;
    var i := 10;
    while i < 32
      invariant 10 <= i <= 32
      invariant forall k :: 0 <= k < 32 ==> v[k] == (w[k] && !(10 <= k < i && IsAligned(n, k)))
    {
      if IsAligned(n, i) {
        v := v[i := false];
      }
      i := i + 1;
    }
  }

  /** What the loop keeps while nothing has been cut off: `n` is where the last marker is, or the size of the
      image when there is none. */
  ghost predicate Padding(image: seq<Byte>, asked: Word, w: Word, n: nat, marks: seq<nat>) {
    && Sizes(w) && |image| <= n < TWO32 && (Fits(|image|, asked) ==> Fits(n, w)) && Increasing(marks)
    && (forall k :: 0 <= k < |marks| ==> |image| <= marks[k] <= n)
    && (forall i :: 0 <= i < 32 && w[i] ==> !MarkedAt(marks, Mask(i)))
    && (if marks == [] then n == |image| && w == asked else n == marks[|marks| - 1] && Multiple(n, 1024))
    && |Padded(image, marks)| == (if marks == [] then n else n + 4)
    && (forall i :: 0 <= i < 32 && w[i] ==> asked[i] && (marks != [] ==> !Multiple(n, Mask(i))))
    && forall i :: 0 <= i < 32 && asked[i] && !w[i] ==> MarkedAt(marks, Mask(i))
  }

  /** The next place. */
  lemma NextPlace(image: seq<Byte>, asked: Word, w: Word, n: nat, marks: seq<nat>, i: nat, n': nat, v: Word)
    requires Padding(image, asked, w, n, marks) && 10 <= i < 32 && w[i] && n' == Align(n, Mask(i))
    requires forall j :: 0 <= j < i ==> !w[j]
    requires forall k :: 0 <= k < 32 ==> v[k] == (w[k] && !(k >= 10 && IsAligned(n', k)))
    requires RoundUp(n, Mask(i)) < TWO32
    ensures |Padded(image, marks)| <= n' && Padding(image, asked, v, n', marks + [n'])
  {
    hide Align, RoundUp, IsAligned, Multiple, Mask, Padded, Left, MarkedAt;
    PlaceAfter(n, i, n', marks);
    PaddedNext(image, marks, n');
    forall k | 0 <= k < 32 && w[k] ensures k >= 10 && (v[k] <==> !Multiple(n', Mask(k))) {
      AlignedMultiple(n', k);
    }
    if Fits(|image|, asked) {
      forall k | 0 <= k < 32 && v[k] ensures RoundUp(n', Mask(k)) < TWO32 {
        StillFits(n, n', w, i, k);
      }
    }
    forall k | 0 <= k < 32 && v[k] ensures !MarkedAt(marks + [n'], Mask(k)) {
      NotMarked(marks, n', Mask(k));
    }
    forall k | 0 <= k < 32 && asked[k] && !v[k] ensures MarkedAt(marks + [n'], Mask(k)) {
      StillMarked(marks, n', Mask(k));
    }
  }

  /** When a size would take the image to 2^32 bytes, it is done with all the same: its marker is put at the
      end of the file, which is not at a multiple of it, and no other follows. */
  ghost predicate Missed(image: seq<Byte>, asked: Word, w: Word, marks: seq<nat>) {
    && (forall k :: 0 <= k < 32 ==> !w[k]) && !Fits(|image|, asked)
    && exists i :: 0 <= i < 32 && asked[i] && !MarkedAt(marks, Mask(i))
  }

  lemma CutOff(image: seq<Byte>, asked: Word, w: Word, n: nat, marks: seq<nat>, i: nat, v: Word)
    requires Padding(image, asked, w, n, marks) && 10 <= i < 32 && w[i] && RoundUp(n, Mask(i)) >= TWO32
    requires forall k :: 0 <= k < 32 ==> v[k] == (w[k] && !(k >= 10 && IsAligned(Align(n, Mask(i)), k)))
    ensures Align(n, Mask(i)) == 0 && Missed(image, asked, v, marks + [|Padded(image, marks)|])
  {
    hide RoundUp, Multiple, Padded, Mask, MarkedAt, Align;
    AlignCut(n, i);
    forall k | 0 <= k < 32 ensures !v[k] {
      ZeroAligned(k);
    }
    EndOfFile(n, i, |Padded(image, marks)|);
    NotMarked(marks, |Padded(image, marks)|, Mask(i));
  }

  lemma ZeroAligned(k: nat)
    ensures IsAligned(0, k)
  {
  }

  lemma AlignCut(n: nat, i: nat)
    requires i < 32 && n < TWO32 <= RoundUp(n, Mask(i))
    ensures Align(n, Mask(i)) == 0
  {
    hide RoundUp, Align, Mask;
    MaskDivides(i, 32);
    TwoTo32();
    RoundUpLeast(n, Mask(i), TWO32);
    MaskAtMost(i);
    CutToZero(n, Mask(i));
  }

  lemma CutToZero(n: nat, m: nat)
    requires 0 < m <= 0x8000_0000 && n < TWO32 && RoundUp(n, m) == TWO32
    ensures Align(n, m) == 0
  {
    var y := n + m - 1;
    var r := y % m;
    assert y == TWO32 + r;
    SmallMod(r, m);
    assert y % TWO32 == r;
  }

  lemma SmallMod(r: nat, m: nat)
    requires r < m
    ensures r % m == r
  {
  }

  /** The end of the image, or four bytes behind a multiple of 1024, is not at a multiple of the size. */
  lemma EndOfFile(n: nat, i: nat, end: nat)
    requires 10 <= i < 32 && n < TWO32 <= RoundUp(n, Mask(i)) && (end == n || (end == n + 4 && Multiple(n, 1024)))
    ensures !Multiple(end, Mask(i))
  {
    RoundUpIs(n, Mask(i));
    if end == n + 4 && Multiple(end, Mask(i)) {
      Kilo(i, end);
      MultipleGap(n, end, 1024);
    }
  }

  /** The place is at the size, not before the end of the file, and beyond the last marker. */
  lemma PlaceAfter(n: nat, i: nat, n': nat, marks: seq<nat>)
    requires 10 <= i < 32 && RoundUp(n, Mask(i)) < TWO32 && n' == Align(n, Mask(i))
    requires marks != [] ==> Multiple(n, 1024) && !Multiple(n, Mask(i))
    ensures n' == RoundUp(n, Mask(i)) && n <= n' && Multiple(n', Mask(i)) && Multiple(n', 1024)
    ensures marks != [] ==> n + 1024 <= n'
  {
    hide Align, RoundUp, Multiple, Mask;
    AlignRoundsUp(n, i);
    RoundUpIs(n, Mask(i));
    Kilo(i, n');
    if marks != [] {
      MultipleGap(n, n', 1024);
    }
  }

  /** Multiples of a size are multiples of 1024. */
  lemma Kilo(i: nat, n: nat)
    requires 10 <= i && Multiple(n, Mask(i))
    ensures Multiple(n, 1024)
  {
    assert Mask(10) == 1024;
    MaskDivides(10, i);
    MultipleThrough(n, Mask(i), 1024);
  }

  lemma StillFits(n: nat, n': nat, w: Word, i: nat, k: nat)
    requires Fits(n, w) && i < 32 && k < 32 && w[i] && w[k] && n' == RoundUp(n, Mask(i))
    requires forall j :: 0 <= j < i ==> !w[j]
    ensures RoundUp(n', Mask(k)) < TWO32
  {
    var t := RoundUp(n, Mask(k));
    MaskDivides(i, k);
    RoundUpIs(n, Mask(k));
    MultipleThrough(t, Mask(k), Mask(i));
    RoundUpLeast(n, Mask(i), t);
    RoundUpLeast(n', Mask(k), t);
  }

  /** Where a marker goes: at the place aligned to, unless the file is longer already. */
  function Place(length: nat, n: nat, i: nat): (p: nat)
    ensures length <= p
  {
    if Align(n, Mask(i)) >= length then Align(n, Mask(i)) else length
  }

  /** What the loop keeps for any image: markers one after the other, behind the image. */
  ghost predicate Marked(image: seq<Byte>, out: seq<Byte>, asked: Word, w: Word, n: nat, marks: seq<nat>) {
    && out == Padded(image, marks) && image <= out && Layout(image, out, marks) && Increasing(marks)
    && (|image| < TWO32 && Fits(|image|, asked) ==> Exact(|image|, asked, w, n, marks))
    && (forall k :: 0 <= k < |marks| ==> |image| <= marks[k] < |out|)
    && (|image| < TWO32 ==> Padding(image, asked, w, n, marks) || Missed(image, asked, w, marks))
    && forall i: nat :: OnlySize(asked, i) ==> OneMark(image, asked, w, n, marks, i)
  }

  /** `p` is the first place behind an image of `n` bytes that is a multiple of a size asked for. */
  ghost predicate NextOf(n: nat, asked: Word, p: nat) {
    exists i :: 0 <= i < 32 && asked[i] && p == RoundUp(n, Mask(i))
  }

  /** The places are such places; and what is still to be done leads to the others. */
  ghost predicate Exact(size: nat, asked: Word, w: Word, n: nat, marks: seq<nat>) {
    && (forall k :: 0 <= k < |marks| ==> NextOf(size, asked, marks[k]))
    && (forall i :: 0 <= i < 32 && w[i] ==> asked[i] && RoundUp(n, Mask(i)) == RoundUp(size, Mask(i)))
    && forall i :: 0 <= i < 32 && asked[i] && !w[i] ==> RoundUp(size, Mask(i)) in marks
  }

  /** Rounding up to a size by way of a smaller one makes no difference. */
  lemma RoundUpTwice(n: nat, i: nat, k: nat)
    requires i <= k
    ensures RoundUp(RoundUp(n, Mask(i)), Mask(k)) == RoundUp(n, Mask(k))
  {
    hide RoundUp, Mask, Multiple;
    var n', t := RoundUp(n, Mask(i)), RoundUp(n, Mask(k));
    MaskDivides(i, k);
    RoundUpIs(n, Mask(i));
    RoundUpIs(n, Mask(k));
    RoundUpIs(n', Mask(k));
    MultipleThrough(t, Mask(k), Mask(i));
    RoundUpLeast(n, Mask(i), t);
    RoundUpLeast(n', Mask(k), t);
    RoundUpLeast(n, Mask(k), RoundUp(n', Mask(k)));
  }

  lemma ExactNext(size: nat, asked: Word, w: Word, n: nat, marks: seq<nat>, i: nat, n': nat, v: Word)
    requires Exact(size, asked, w, n, marks) && i < 32 && w[i] && n' == RoundUp(n, Mask(i))
    requires forall j :: 0 <= j < i ==> !w[j]
    requires forall k :: 0 <= k < 32 ==> v[k] == (w[k] && !(k >= 10 && IsAligned(n', k)))
    ensures Exact(size, asked, v, n', marks + [n'])
  {
    hide RoundUp, Mask, IsAligned;
    forall k | 0 <= k < 32 && w[k] ensures RoundUp(n', Mask(k)) == RoundUp(size, Mask(k)) {
      RoundUpTwice(n, i, k);
    }
    forall k | 0 <= k < 32 && asked[k] && !v[k] ensures RoundUp(size, Mask(k)) in marks + [n'] {
      if w[k] {
        AlignedMultiple(n', k);
        RoundUpIs(n', Mask(k));
        assert (marks + [n'])[|marks|] == n';
      }
    }
    assert NextOf(size, asked, n');
  }

  /** When only one size is asked for there is only one place. */
  ghost predicate OneMark(image: seq<Byte>, asked: Word, w: Word, n: nat, marks: seq<nat>, i: nat) {
    if marks == [] then w == asked && n == |image|
    else marks == [Place(|image|, |image|, i)] && forall k :: 0 <= k < 32 ==> !w[k]
  }

  predicate OnlySize(w: Word, i: nat) { i < 32 && forall k :: 0 <= k < 32 ==> w[k] == (k == i) }

  lemma PadNext(image: seq<Byte>, out: seq<Byte>, asked: Word, w: Word, n: nat, marks: seq<nat>, i: nat, n': nat,
                v: Word, at: nat)
    requires Padding(image, asked, w, n, marks) && out == Padded(image, marks) && at == Place(|out|, n, i)
    requires 10 <= i < 32 && w[i] && n' == Align(n, Mask(i)) && forall j :: 0 <= j < i ==> !w[j]
    requires forall k :: 0 <= k < 32 ==> v[k] == (w[k] && !(k >= 10 && IsAligned(n', k)))
    ensures Padding(image, asked, v, n', marks + [at]) || Missed(image, asked, v, marks + [at])
  {
    hide Padding, Missed, Padded, IsAligned, Align, RoundUp, Mask;
    if RoundUp(n, Mask(i)) < TWO32 {
      NextPlace(image, asked, w, n, marks, i, n', v);
    } else {
      CutOff(image, asked, w, n, marks, i, v);
    }
  }

  lemma MarkedNext(image: seq<Byte>, out: seq<Byte>, asked: Word, w: Word, n: nat, marks: seq<nat>, i: nat, n': nat,
                   v: Word)
    requires Marked(image, out, asked, w, n, marks) && 10 <= i < 32 && w[i] && n' == Align(n, Mask(i))
    requires forall j :: 0 <= j < i ==> !w[j]
    requires forall k :: 0 <= k < 32 ==> v[k] == (w[k] && !(k >= 10 && IsAligned(n', k)))
    ensures var at := Place(|out|, n, i);
            Marked(image, out + Fill(at - |out|) + MARK, asked, v, n', marks + [at]) && Left(v) < Left(w)
  {
    hide Align, IsAligned, Mask, Padded, Left, Fits, MarkedAt, RoundUp, Multiple, Layout, Exact;
    var at := Place(|out|, n, i);
    PaddedNext(image, marks, at);
    AlignAligned(n, i);
    LeftClear(w, v);
    NoMarks(image);
    if |image| < TWO32 {
      PadNext(image, out, asked, w, n, marks, i, n', v, at);
    }
    LayoutNext(image, out, marks, at);
    ExactMarked(image, out, asked, w, n, marks, i, n', v);
    forall j: nat | OnlySize(asked, j) ensures OneMark(image, asked, v, n', marks + [at], j) {
      assert OneMark(image, asked, w, n, marks, j);
      assert v[i] == false;
    }
  }

  lemma ExactPlace(image: seq<Byte>, out: seq<Byte>, asked: Word, w: Word, n: nat, marks: seq<nat>, i: nat)
    requires Padding(image, asked, w, n, marks) && Fits(|image|, asked) && out == Padded(image, marks)
    requires 10 <= i < 32 && w[i]
    ensures Align(n, Mask(i)) == RoundUp(n, Mask(i)) == Place(|out|, n, i)
  {
    hide Align, RoundUp, Mask, Padded, MarkedAt, Multiple;
    assert RoundUp(n, Mask(i)) < TWO32;
    PlaceAfter(n, i, Align(n, Mask(i)), marks);
  }

  lemma ExactMarked(image: seq<Byte>, out: seq<Byte>, asked: Word, w: Word, n: nat, marks: seq<nat>, i: nat, n': nat,
                    v: Word)
    requires Marked(image, out, asked, w, n, marks) && 10 <= i < 32 && w[i] && n' == Align(n, Mask(i))
    requires forall j :: 0 <= j < i ==> !w[j]
    requires forall k :: 0 <= k < 32 ==> v[k] == (w[k] && !(k >= 10 && IsAligned(n', k)))
    ensures |image| < TWO32 && Fits(|image|, asked) ==>
              Exact(|image|, asked, v, n', marks + [Place(|out|, n, i)])
  {
    hide Padding, Exact, Layout, Padded, Align, RoundUp, IsAligned, Mask, Place, OneMark;
    if |image| < TWO32 && Fits(|image|, asked) {
      ExactPlace(image, out, asked, w, n, marks, i);
      ExactNext(|image|, asked, w, n, marks, i, n', v);
    }
  }

  lemma NoMarks(image: seq<Byte>)
    ensures Padded(image, []) == image
  {
  }

  lemma AlignAligned(n: nat, i: nat)
    requires i < 32
    ensures IsAligned(Align(n, Mask(i)), i)
  {
    var m := Mask(i);
    var y := (n + m - 1) % TWO32;
    assert Align(n, m) == (y / m) * m;
    ModOfMultiple(y / m, m);
  }

  /** Every size that is asked for has a marker at a multiple of it. */
  ghost predicate AllMarked(asked: Word, marks: seq<nat>) {
    forall i :: 0 <= i < 32 && asked[i] ==> MarkedAt(marks, Mask(i))
  }

  /** pad_image (lines 40-121), for a file that can be read and written. */
  method PadImage(image: seq<Byte>, asked: Word) returns (out: seq<Byte>, ghost marks: seq<nat>)
    requires Sizes(asked)
    ensures Increasing(marks) && Layout(image, out, marks)
    ensures forall k :: 0 <= k < |marks| ==> |image| <= marks[k]
    ensures |image| < TWO32 ==> (AllMarked(asked, marks) <==> Fits(|image|, asked))
    ensures |image| < TWO32 && Fits(|image|, asked) ==> forall p :: p in marks <==> NextOf(|image|, asked, p)
    ensures forall i: nat :: OnlySize(asked, i) ==> marks == [Place(|image|, |image|, i)]
    ensures forall i: nat :: OnlySize(asked, i) ==> (MarkedAt(marks, Mask(i)) <==> OneFits(|image|, i))
  {
    hide OneFits, Align, IsAligned, Multiple, Mask, Padded, Left, MarkedAt, Padding, Marked, Place, Layout, RoundUp;
    out, marks := image, [];
    FirstState(image, asked);
    var w: Word, n: nat := asked, |image|;
    while exists k :: 0 <= k < 32 && w[k]
      invariant Sizes(w) && Marked(image, out, asked, w, n, marks)
      decreases Left(w)
    {
      var i := Smallest(w);
      var n': nat := Align(n, Mask(i));
      var v := ClearAligned(w, n');
      MarkedNext(image, out, asked, w, n, marks, i, n', v);
      PlaceIs(|out|, n, i);
      marks := marks + [Place(|out|, n, i)];
      out := WriteFill(out, n');
      out := out + MARK;
      w, n := v, n';
    }
    LastState(image, out, asked, w, n, marks);
  }

  lemma PlaceIs(length: nat, n: nat, i: nat)
    ensures Place(length, n, i) == if Align(n, Mask(i)) >= length then Align(n, Mask(i)) else length
  {
  }

  /** The image does not grow to 2^32 bytes, or has no need to grow. */
  ghost predicate OneFits(n: nat, i: nat) { RoundUp(n, Mask(i)) < TWO32 || Multiple(n, Mask(i)) }

  /** One size, for images of any size: its marker is at a multiple of it exactly then. */
  lemma OneSize(n: nat, i: nat)
    requires i < 32
    ensures Multiple(Place(n, n, i), Mask(i)) <==> OneFits(n, i)
  {
    var m := Mask(i);
    RoundUpIs(n, m);
    if RoundUp(n, m) < TWO32 {
      AlignRoundsUp(n, i);
    } else {
      Mask31();
      MaskDivides(i, 31);
      MaskAtMost(i);
      assert Align(n, m) < n;
    }
  }

  lemma {:induction false} MaskAtMost(i: nat)
    requires i < 32
    ensures Mask(i) <= 0x8000_0000
  {
    Pow2Monotone(i, 31);
    Mask31();
  }

  /** An image of a size for which it fails: a marker is put at an odd place. */
  lemma TooLarge()
    ensures Mask(10) == 1024 && Place(TWO32 - 1, TWO32 - 1, 10) == TWO32 - 1 && (TWO32 - 1) % 1024 != 0
  {
  }

  /** A marker at a multiple of a size, below 2^32, shows that there is room for it. */
  lemma MarkFits(n: nat, marks: seq<nat>, last: nat, i: nat)
    requires MarkedAt(marks, Mask(i)) && last < TWO32 && forall k :: 0 <= k < |marks| ==> n <= marks[k] <= last
    ensures RoundUp(n, Mask(i)) < TWO32
  {
    var k :| 0 <= k < |marks| && Multiple(marks[k], Mask(i));
    RoundUpLeast(n, Mask(i), marks[k]);
  }

  lemma FirstState(image: seq<Byte>, asked: Word)
    requires Sizes(asked)
    ensures Marked(image, image, asked, asked, |image|, [])
  {
  }

  lemma LastState(image: seq<Byte>, out: seq<Byte>, asked: Word, w: Word, n: nat, marks: seq<nat>)
    requires Marked(image, out, asked, w, n, marks) && forall k :: 0 <= k < 32 ==> !w[k]
    ensures Increasing(marks) && Layout(image, out, marks)
    ensures forall k :: 0 <= k < |marks| ==> |image| <= marks[k]
    ensures |image| < TWO32 ==> (AllMarked(asked, marks) <==> Fits(|image|, asked))
    ensures |image| < TWO32 && Fits(|image|, asked) ==> forall p :: p in marks <==> NextOf(|image|, asked, p)
    ensures forall i: nat :: OnlySize(asked, i) ==> marks == [Place(|image|, |image|, i)]
    ensures forall i: nat :: OnlySize(asked, i) ==> (MarkedAt(marks, Mask(i)) <==> OneFits(|image|, i))
  {
    hide Align, Mask, Padded, Place, MarkedAt, Multiple, RoundUp, OneFits, Layout;
    if |image| < TWO32 && Padding(image, asked, w, n, marks) {
      forall i | 0 <= i < 32 && asked[i] ensures RoundUp(|image|, Mask(i)) < TWO32 {
        MarkFits(|image|, marks, n, i);
      }
    }
    forall i: nat | OnlySize(asked, i) ensures marks == [Place(|image|, |image|, i)] {
      assert OneMark(image, asked, w, n, marks, i);
      assert asked[i] && !w[i];
    }
    forall i: nat | OnlySize(asked, i) ensures MarkedAt(marks, Mask(i)) <==> OneFits(|image|, i) {
      OneSize(|image|, i);
      OneMarked(Place(|image|, |image|, i), Mask(i));
    }
  }

  lemma OneMarked(p: nat, m: nat)
    ensures MarkedAt([p], m) <==> Multiple(p, m)
  {
    assert [p][0] == p;
  }

  const BUF_SIZE := 65536

  /** The loop that fills up to the place (lines 88-102). */
  method WriteFill(out: seq<Byte>, n: nat) returns (r: seq<Byte>)
    ensures r == out + Fill(if n >= |out| then n - |out| else 0)
  {
    r := out;
    while |r| < n
      invariant |out| <= |r| && (|r| <= n || r == out) && r == out + Fill(|r| - |out|)
      decreases n - |r|
    {
      var len := if n - |r| > BUF_SIZE then BUF_SIZE else n - |r|;
      r := r + Fill(len);
    }
  }
}
