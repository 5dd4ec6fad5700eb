/** inflate_block and inflate of src/opkg/libbb/unzip.c: the blocks of a DEFLATE stream. */
module Inflate {
  import opened BitStrings
  import opened CanonicalCode
  import opened HuftTables
  import opened HuftParts
  import opened LookAhead
  import opened HuftBuild
  import opened BitReader
  import opened Crc32
  import opened Window
  import opened InflateCodes

  // ------------------------------------------------------------------------- stored blocks

  /** Section 3.2.4 of RFC 1951. */
  ghost function StoredBlock(bits: Bits, output: seq<Byte>): (o: Outcome)
    ensures o.Done? ==> |o.rest| <= |bits|
  {
    var b := bits[|bits| % 8..];
    if |b| < 32 then RanOut
    else if Lsb(b[..16]) + Lsb(b[16..][..16]) != 0xffff then Bad(1)
    else StoredBytes(b[16..][16..], Lsb(b[..16]), output)
  }

  ghost function StoredBytes(bits: Bits, n: nat, output: seq<Byte>): (o: Outcome)
    ensures o.Done? ==> |o.rest| <= |bits|
    decreases n
  {
    if n == 0 then Done(bits, output)
    else if |bits| < 8 then RanOut
    else StoredBytes(bits[8..], n - 1, output + [NextByte(bits)])
  }

  ghost function NextByte(bits: Bits): Byte
    requires |bits| >= 8
  {
    LsbBound(bits[..8]);
    assert Pow2(8) == 256;
    Lsb(bits[..8])
  }

  lemma NextFromFile(data: seq<Byte>, pos: nat)
    requires pos < |data|
    ensures |BitsFrom(data, pos)| >= 8 && NextByte(BitsFrom(data, pos)) == data[pos]
    ensures BitsFrom(data, pos)[8..] == BitsFrom(data, pos + 1)
  {
    var bits := BitsFrom(data, pos);
    assert bits[..8] == ToBits(data[pos], 8) && bits[8..] == BitsFrom(data, pos + 1);
    assert Pow2(8) == 256;
    LsbToBits(data[pos], 8);
  }

  /** The bytes of a stored block are those of the file. */
  lemma {:induction false} StoredBytesCopied(data: seq<Byte>, pos: nat, n: nat, output: seq<Byte>)
    requires pos + n <= |data|
    ensures StoredBytes(BitsFrom(data, pos), n, output) == Done(BitsFrom(data, pos + n), output + data[pos..pos + n])
    decreases n
  {
    hide BitsFrom, NextByte;
    if n == 0 {
      assert output + data[pos..pos] == output;
    } else {
      NextFromFile(data, pos);
      var more := output + [data[pos]];
      StoredBytesCopied(data, pos + 1, n - 1, more);
      assert output + data[pos..pos + n] == more + data[pos + 1..pos + n];
    }
  }

  /** The bits in the buffer after `n` bytes of a stored block, when `total` bits are left in all. */
  ghost function BytesHeld(n: nat, total: int, held: int): int {
    if n == 0 then held else BytesHeld(n - 1, total - 8, Taken(held, 8, total))
  }

  ghost function StoredHeld(bits: Bits, held: int): int {
    var b := bits[|bits| % 8..];
    if |b| < 32 then 0
    else
      BytesHeld(Lsb(b[..16]), |b| - 32, Taken(Taken(held - held % 8, 16, |b|), 16, |b| - 16))
  }

  /** Lines 551-606. */
  method InflateStored(inp: Input, out: Output) returns (s: Status)
    requires inp.Valid() && out.Valid()
    modifies inp, out, out.window
    ensures inp.Valid() && out.Valid() && |inp.stream| <= |old(inp.stream)|
    ensures Meets(StoredBlock(old(inp.stream), old(out.output)), s, inp.stream, out.output)
    ensures s == Return(0) ==> inp.bk == StoredHeld(old(inp.stream), old(inp.bk))
  {
    hide Lsb, Holds, Taken;
    inp.Align();
    if !inp.Has(32) {
      return OutOfInput;
    }
    var n := inp.Take(16);
    var complement := inp.Take(16);
    if n + complement != 0xffff {
      return Return(1);
    }
    s := CopyStored(inp, out, n);
  }

  method CopyStored(inp: Input, out: Output, count: nat) returns (s: Status)
    requires inp.Valid() && out.Valid()
    modifies inp, out, out.window
    ensures inp.Valid() && out.Valid() && |inp.stream| <= |old(inp.stream)|
    ensures Meets(StoredBytes(old(inp.stream), count, old(out.output)), s, inp.stream, out.output)
    ensures s == Return(0) ==> inp.bk == BytesHeld(count, |old(inp.stream)|, old(inp.bk))
  {
    hide Holds, Taken;
    var n := count;
    ghost var spec, held := StoredBytes(inp.stream, n, out.output), BytesHeld(n, |inp.stream|, inp.bk);
    while n > 0
      invariant inp.Valid() && out.Valid() && |inp.stream| <= |old(inp.stream)| && 0 <= n
      invariant spec == StoredBytes(inp.stream, n, out.output) && held == BytesHeld(n, |inp.stream|, inp.bk)
    {
      n := n - 1;
      if !inp.Has(8) {
        return OutOfInput;
      }
      ghost var next := NextByte(inp.stream);
      var c := inp.Take(8);
      out.Put(c);
    }
    return Return(0);
  }

  // -------------------------------------------------------------------------- fixed blocks

  /** Section 3.2.6 of RFC 1951. */
  function FixedLiteral(i: nat): nat {
    if i < 144 then 8 else if i < 256 then 9 else if i < 280 then 7 else 8
  }

  function FixedLiterals(): seq<nat> { seq(288, i requires 0 <= i < 288 => FixedLiteral(i)) }

  function FixedDistances(): seq<nat> { seq(30, _ => 5) }

  ghost function FixedBlock(bits: Bits, output: seq<Byte>): (o: Outcome)
    ensures o.Done? ==> |o.rest| <= |bits|
  {
    ValidCodings(FixedLiterals(), FixedDistances());
    Symbols(LiteralCoding(FixedLiterals()), DistanceCoding(FixedDistances()), bits, output)
  }

  ghost function FixedHeld(bits: Bits, held: int): int {
    ValidCodings(FixedLiterals(), FixedDistances());
    SymbolsHeld(LiteralCoding(FixedLiterals()), DistanceCoding(FixedDistances()),
                RootWidth(FixedLiterals(), 7), RootWidth(FixedDistances(), 5), bits, held)
  }

  lemma ValidCodings(b: seq<nat>, d: seq<nat>)
    requires 1 <= |b| <= 288 && LengthsOk(b) && 1 <= |d| <= 30 && LengthsOk(d)
    ensures Alphabets(LiteralCoding(b), DistanceCoding(d))
    ensures LiteralCoding(b).Valid() && DistanceCoding(d).Valid()
  {
    hide Alphabets, Coding.Valid;
    LiteralValid(b);
    DistanceValid(d);
    TheAlphabets(b, d);
  }

  lemma LiteralValid(b: seq<nat>)
    requires 1 <= |b| <= 288 && LengthsOk(b)
    ensures LiteralCoding(b).Valid()
  {
  }

  lemma DistanceValid(d: seq<nat>)
    requires 1 <= |d| <= 30 && LengthsOk(d)
    ensures DistanceCoding(d).Valid()
  {
  }

  lemma {:induction false} CountRun(b: seq<nat>, k: nat, i: nat, j: nat, length: nat)
    requires i <= j <= |b| && forall m :: i <= m < j ==> b[m] == length
    ensures CountBelow(b, k, j) == CountBelow(b, k, i) + if k == length then j - i else 0
    decreases j
  {
    if i < j {
      CountRun(b, k, i, j - 1, length);
    }
  }

  lemma FixedLiteralCount(k: nat)
    ensures CountBelow(FixedLiterals(), k, 288) == FixedCount(k)
  {
    var b := FixedLiterals();
    assert CountBelow(b, k, 0) == 0;
    hide CountBelow;
    CountRun(b, k, 0, 144, 8);
    CountRun(b, k, 144, 256, 9);
    CountRun(b, k, 256, 280, 7);
    CountRun(b, k, 280, 288, 8);
  }

  lemma FixedDistanceCount(k: nat)
    ensures CountBelow(FixedDistances(), k, 30) == if k == 5 then 30 else 0
  {
    CountRun(FixedDistances(), k, 0, 30, 5);
  }

  lemma LongestIs(c: seq<nat>, g: nat, k: nat)
    requires g <= k < |c| && (g == 0 || c[g] > 0) && forall m :: g < m <= k ==> c[m] == 0
    ensures Longest(c, k) == g
  {
    if k > g {
      LongestIs(c, g, k - 1);
    }
  }

  lemma FixedLiteralsComplete()
    ensures Complete(FixedLiterals()) && MaxLength(FixedLiterals()) == 9
  {
    hide FixedLiterals, Counts, Longest, CountBelow;
    var b := FixedLiterals();
    FixedOk();
    FixedCounts();
    LongestIs(Counts(b), 9, BMAX);
    FixedSpace(Counts(b));
    KraftAtLongest(b, 9);
  }

  lemma FixedCounts()
    ensures |Counts(FixedLiterals())| == BMAX + 1
    ensures forall k :: 0 <= k <= BMAX ==> Counts(FixedLiterals())[k] == FixedCount(k)
  {
    hide FixedLiterals, CountBelow;
    forall k | 0 <= k <= BMAX ensures Counts(FixedLiterals())[k] == FixedCount(k) {
      FixedOk();
      FixedLiteralCount(k);
    }
  }

  function FixedCount(k: nat): nat { if k == 7 then 24 else if k == 8 then 152 else if k == 9 then 112 else 0 }

  lemma FixedSpace(c: seq<nat>)
    requires |c| == BMAX + 1 && forall k :: 0 <= k <= BMAX ==> c[k] == FixedCount(k)
    ensures Space(c, 9, 9) == Pow2(9)
  {
    SpaceZero(c, 9, 6);
    assert Scale(24, 2) == 96 && Scale(152, 1) == 304 && Scale(112, 0) == 112;
    assert Space(c, 9, 7) == 96 && Space(c, 9, 8) == 400 && Space(c, 9, 9) == 512;
    assert Pow2(9) == 512;
  }

  lemma FixedDistancesIncomplete()
    ensures !Oversubscribed(FixedDistances()) && !Complete(FixedDistances()) && MaxLength(FixedDistances()) == 5
  {
    var b := FixedDistances();
    var c := Counts(b);
    forall k | 0 <= k <= BMAX
      ensures c[k] == if k == 5 then 30 else 0
    {
      FixedDistanceCount(k);
    }
    LongestIs(c, 5, BMAX);
    SpaceZero(c, 5, 4);
    assert Space(c, 5, 5) == 30;
    assert Pow2(5) == 32;
    KraftAtLongest(b, 5);
  }

  lemma NoTable(cd: Coding)
    requires cd.Valid() && NoCodes(cd.b)
    ensures Reads([], 0, cd)
  {
    assert !cd.Usable() by {
      NoneBelow(cd.b);
    }
    forall bits: Bits ensures DecodesAt([], 0, cd, bits) {
    }
    forall bits: Bits, held: int ensures HoldingAt([], 0, cd, bits, held) {
    }
  }

  lemma NoneBelow(b: seq<nat>)
    requires NoCodes(b)
    ensures !Complete(b)
  {
    forall k | 0 < k <= BMAX ensures Counts(b)[k] == 0 {
      CountRun(b, k, 0, |b|, 0);
    }
    SpaceZero(Counts(b), BMAX, BMAX);
  }

  /** huft_build, where no codes at all make a table that decodes nothing. */
  method BuildTable(cd: Coding, m: nat) returns (status: nat, mem: seq<seq<Huft>>, bits: nat)
    requires cd.Valid()
    ensures status == BuildStatus(cd.b)
    ensures status != 2 && FewCodes(cd.b, m) ==> Reads(mem, bits, cd)
    ensures status != 2 && !NoCodes(cd.b) && MaxLength(cd.b) <= m ==> OneLevel(mem, bits, cd)
    ensures NoCodes(cd.b) ==> mem == []
    ensures status != 2 ==> bits == RootWidth(cd.b, m)
  {
    status, mem, bits := HuftBuild.HuftBuild(cd, m);
    if NoCodes(cd.b) {
      NoTable(cd);
    }
  }

  lemma FixedTables()
    ensures BuildStatus(FixedLiterals()) == 0 && FewCodes(FixedLiterals(), 7)
    ensures BuildStatus(FixedDistances()) == 1 && FewCodes(FixedDistances(), 5)
  {
    assert FixedLiterals()[0] == 8 && FixedDistances()[0] == 5;
    hide FixedLiterals, FixedDistances, Counts, Longest, Space, Pow2;
    FixedOk();
    FixedLiteralsComplete();
    FixedDistancesIncomplete();
    NotNone(FixedLiterals(), 0);
    NotNone(FixedDistances(), 0);
  }

  lemma NotNone(b: seq<nat>, i: nat)
    requires i < |b| && b[i] > 0
    ensures !NoCodes(b)
  {
  }

  lemma FixedOk()
    ensures |FixedLiterals()| == 288 && LengthsOk(FixedLiterals())
    ensures |FixedDistances()| == 30 && LengthsOk(FixedDistances())
  {
  }

  /** The tables of a fixed block (lines 618-650), which are always made. */
  method FixedCodes() returns (status: nat, tl: seq<seq<Huft>>, bl: nat, td: seq<seq<Huft>>, bd: nat)
    ensures status == 0 && LiteralCoding(FixedLiterals()).Valid() && DistanceCoding(FixedDistances()).Valid()
    ensures Reads(tl, bl, LiteralCoding(FixedLiterals())) && bl == RootWidth(FixedLiterals(), 7)
    ensures Reads(td, bd, DistanceCoding(FixedDistances())) && bd == RootWidth(FixedDistances(), 5)
  {
    hide Reads, FewCodes, BuildStatus, Alphabets, RootWidth, FixedLiterals, FixedDistances, OneLevel;
    hide Coding.Valid, NoCodes, MaxLength, LengthsOk;
    FixedOk();
    ValidCodings(FixedLiterals(), FixedDistances());
    FixedTables();
    td, bd := [], 0;
    status, tl, bl := BuildTable(LiteralCoding(FixedLiterals()), 7);
    if status != 0 {
      return;
    }
    status, td, bd := BuildTable(DistanceCoding(FixedDistances()), 5);
    if status <= 1 {
      status := 0;
    }
  }

  /** Lines 612-659. */
  method InflateFixed(inp: Input, out: Output) returns (s: Status)
    requires inp.Valid() && out.Valid()
    modifies inp, out, out.window
    ensures inp.Valid() && out.Valid() && |inp.stream| <= |old(inp.stream)|
    ensures Meets(FixedBlock(old(inp.stream), old(out.output)), s, inp.stream, out.output)
    ensures FixedBlock(old(inp.stream), old(out.output)).Done? ==>
              inp.bk == FixedHeld(old(inp.stream), old(inp.bk))
  {
    hide Symbols, SymbolsHeld, Reads, Alphabets, RootWidth, FixedLiterals, FixedDistances, Coding.Valid, Meets;
    hide LengthsOk;
    FixedOk();
    ValidCodings(FixedLiterals(), FixedDistances());
    var status, tl, bl, td, bd := FixedCodes();
    if status != 0 {
      return Return(status);
    }
    s := InflateCodes.InflateCodes(inp, out, tl, td, bl, bd, LiteralCoding(FixedLiterals()),
                                   DistanceCoding(FixedDistances()));
  }

  // ------------------------------------------------------------- the table sizes of a dynamic block

  lemma LengthsUpTo(b: seq<nat>, most: nat)
    requires LengthsOk(b) && forall i :: 0 <= i < |b| ==> b[i] <= most
    ensures MaxLength(b) <= most
  {
    if MaxLength(b) > 0 {
      var s := SomeSymbol(b, MaxLength(b), |b|);
    }
  }

  /** With no more than 30 distances, tables of 6 bits take every set that huft_build accepts: it has
      fewer codes than a table has entries, or a single one (line 819). */
  lemma FewDistances(b: seq<nat>)
    requires |b| <= 30 && LengthsOk(b) && BuildStatus(b) == 0
    ensures FewCodes(b, 6)
  {
    var g := MaxLength(b);
    if g > 12 {
      assert !NoCodes(b) by {
        var s := SomeSymbol(b, g, |b|);
      }
      KraftAtLongest(b, g);
      TotalSum(b, g);
      SumBelowBound(b, g, |b|);
      assert Pow2(6) == 64;
    }
  }

  lemma {:induction false} TotalSum(b: seq<nat>, k: nat)
    requires k <= BMAX
    ensures Total(Counts(b), k) == SumBelow(b, k, |b|)
  {
    if k > 0 {
      TotalSum(b, k - 1);
    }
  }

  // ------------------------------------------------------------------ lengths of a dynamic block

  /** Line 663: the order of the lengths of the code lengths; `PLACE` gives the place of each in it. */
  const BORDER: seq<nat> := [16, 17, 18, 0, 8, 7, 9, 6, 10, 5, 11, 4, 12, 3, 13, 2, 14, 1, 15]
  const PLACE: seq<nat> := [3, 17, 15, 13, 11, 9, 7, 5, 4, 6, 8, 10, 12, 14, 16, 18, 0, 1, 2]

  lemma PlaceInOrder(j: nat)
    requires j < 19
    ensures BORDER[j] < 19 && PLACE[BORDER[j]] == j && PLACE[j] < 19 && BORDER[PLACE[j]] == j
  {
  }

  /** Section 3.2.7 of RFC 1951: the length of code length `sym`, when `nb` of them are given. */
  ghost function LengthOfLength(bits: Bits, nb: nat, sym: nat): (n: nat)
    requires nb <= 19 && |bits| >= 3 * nb && sym < 19
    ensures n <= 7
  {
    var p := PLACE[sym];
    if p < nb then
      LsbBound(bits[3 * p..][..3]);
      assert Pow2(3) == 8;
      Lsb(bits[3 * p..][..3])
    else 0
  }

  ghost function LengthsOfLengths(bits: Bits, nb: nat): (b: seq<nat>)
    requires nb <= 19 && |bits| >= 3 * nb
    ensures |b| == 19 && forall i :: 0 <= i < 19 ==> b[i] <= 7
  {
    seq(19, sym requires 0 <= sym < 19 => LengthOfLength(bits, nb, sym))
  }

  /** The first `j` places of the order are filled in. */
  ghost predicate Placed(ll: seq<nat>, bits: Bits, nb: nat, j: nat) {
    && nb <= 19 && |bits| >= 3 * nb && |ll| >= 19
    && forall sym :: 0 <= sym < 19 && PLACE[sym] < j ==> ll[sym] == LengthOfLength(bits, nb, sym)
  }

  lemma PlaceNext(ll: seq<nat>, bits: Bits, nb: nat, j: nat, v: nat)
    requires Placed(ll, bits, nb, j) && j < 19
    requires v == if j < nb then Lsb(bits[3 * j..][..3]) else 0
    ensures BORDER[j] < 19 && Placed(ll[BORDER[j] := v], bits, nb, j + 1)
  {
    PlaceInOrder(j);
    forall sym | 0 <= sym < 19 && PLACE[sym] < j + 1
      ensures ll[BORDER[j] := v][sym] == LengthOfLength(bits, nb, sym)
    {
      PlaceInOrder(sym);
    }
  }

  lemma PlacedAll(ll: seq<nat>, bits: Bits, nb: nat)
    requires Placed(ll, bits, nb, 19)
    ensures ll[..19] == LengthsOfLengths(bits, nb)
  {
    forall sym | 0 <= sym < 19 ensures ll[sym] == LengthOfLength(bits, nb, sym) {
      PlaceInOrder(sym);
    }
  }

  /** After `n` lengths of code lengths. */
  ghost function ThreesHeld(n: nat, total: int, held: int): int {
    if n == 0 then held else ThreesHeld(n - 1, total - 3, Taken(held, 3, total))
  }

  /** Lines 717-728. */
  method ReadLengthsOfLengths(inp: Input, ll: array<nat>, nb: nat)
    requires inp.Valid() && 4 <= nb <= 19 && ll.Length == 316 && |inp.stream| >= 3 * nb
    modifies inp, ll
    ensures inp.Valid() && inp.stream == old(inp.stream)[3 * nb..]
    ensures inp.bk == ThreesHeld(nb, |old(inp.stream)|, old(inp.bk))
    ensures ll[..19] == LengthsOfLengths(old(inp.stream), nb)
  {
    hide Taken, Holds;
    ghost var bits, held := inp.stream, ThreesHeld(nb, |inp.stream|, inp.bk);
    var j := 0;
    while j < nb
      invariant 0 <= j <= nb && inp.Valid() && inp.stream == bits[3 * j..]
      invariant held == ThreesHeld(nb - j, |inp.stream|, inp.bk)
      invariant Placed(ll[..], bits, nb, j)
    {
      var v := inp.Take(3);
      assert bits[3 * j..][3..] == bits[3 * (j + 1)..];
      PlaceNext(ll[..], bits, nb, j, v);
      ll[BORDER[j]] := v;
      j := j + 1;
    }
    while j < 19
      invariant nb <= j <= 19 && Placed(ll[..], bits, nb, j)
      modifies ll
    {
      PlaceNext(ll[..], bits, nb, j, 0);
      ll[BORDER[j]] := 0;
      j := j + 1;
    }
    PlacedAll(ll[..], bits, nb);
  }

  function LengthCoding(b: seq<nat>): Coding { Coding(b, 19, [], []) }

  ghost predicate LengthLike(r: Lookup) {
    r.Found? ==> r.e == LITERAL && r.n < 19 && 1 <= r.used <= 7
  }

  /** The code of the code lengths. */
  ghost predicate LengthAlphabet(cd: Coding) {
    && cd.Valid() && |cd.b| == 19 && cd.s == 19
    && forall i :: 0 <= i < 19 ==> cd.b[i] <= 7
  }

  lemma LengthBounds(cd: Coding, bits: Bits)
    requires LengthAlphabet(cd)
    ensures LengthLike(Reference(cd, bits))
  {
    if cd.Coded(bits) {
      var s: nat :| Matches(cd.b, s, bits);
      ReferenceFound(cd, s, bits);
    }
  }

  /** Extra bits and smallest count of the repeat codes 16, 17 and 18. */
  function RepeatBits(j: nat): nat { if j == 16 then 2 else if j == 17 then 3 else 7 }

  function RepeatBase(j: nat): nat { if j == 16 || j == 17 then 3 else 11 }

  /** The last length, which code 16 repeats; no length before the first. */
  function Last(ll: seq<nat>): nat { if ll == [] then 0 else ll[|ll| - 1] }

  const LENGTH_SYMBOL := 23

  /** What reading code lengths comes to: the lengths, or the end of decoding. */
  datatype Lengths = Lengths(rest: Bits, ll: seq<nat>) | NoLengths(end: Outcome)

  ghost predicate Gives(spec: Lengths, s: Status, stream: Bits, ll: seq<nat>) {
    if spec.Lengths? then s == Return(0) && stream == spec.rest && ll == spec.ll
    else !spec.end.Done? && Meets(spec.end, s, stream, [])
  }

  /** Section 3.2.7 of RFC 1951: `n` code lengths, of which `ll` have been read. */
  ghost function CodeLengths(cd: Coding, bits: Bits, n: nat, ll: seq<nat>): (o: Lengths)
    requires LengthAlphabet(cd) && |ll| <= n && AllBelow16(ll)
    ensures o.NoLengths? ==> !o.end.Done?
    ensures o.Lengths? ==> |o.rest| <= |bits| && |o.ll| == n && AllBelow16(o.ll)
    decreases n - |ll|
  {
    if |ll| == n then Lengths(bits, ll)
    else
      match NextLengths(cd, bits, n, ll)
      case Lengths(rest, ll') => CodeLengths(cd, rest, n, ll')
      case o => o
  }

  /** The bits in the buffer after one more length or run. */
  ghost function NextHeld(cd: Coding, bl: nat, bits: Bits, held: int): int
    requires cd.Valid()
  {
    var r := Reference(cd, bits);
    if !r.Found? || !(0 < r.used <= |bits|) then 0
    else
      var h := SymbolHeld(cd.b, bl, bits, 0, r.used, held);
      if r.n < 16 then h else Taken(h, RepeatBits(r.n), |bits| - r.used)
  }

  /** After all of them. */
  ghost function LengthsHeld(cd: Coding, bl: nat, bits: Bits, n: nat, ll: seq<nat>, held: int): int
    requires LengthAlphabet(cd) && |ll| <= n && AllBelow16(ll)
    decreases n - |ll|
  {
    if |ll| == n then held
    else
      match NextLengths(cd, bits, n, ll)
      case Lengths(rest, ll') => LengthsHeld(cd, bl, rest, n, ll', NextHeld(cd, bl, bits, held))
      case NoLengths(_) => 0
  }

  predicate AllBelow16(ll: seq<nat>) { forall i :: 0 <= i < |ll| ==> ll[i] <= 15 }

  lemma EmptyBelow16()
    ensures AllBelow16([])
  {
  }

  /** One more length, or a run of equal ones. */
  ghost function NextLengths(cd: Coding, bits: Bits, n: nat, ll: seq<nat>): (o: Lengths)
    requires LengthAlphabet(cd) && |ll| < n && AllBelow16(ll)
    ensures o.NoLengths? ==> !o.end.Done?
    ensures o.Lengths? ==> |o.rest| <= |bits| && |ll| < |o.ll| <= n && AllBelow16(o.ll)
  {
    if |bits| < LENGTH_SYMBOL then NoLengths(RanOut)
    else if !cd.Decodable(bits) || !Reference(cd, bits).Found? then NoLengths(Unspecified)
    else
      LengthBounds(cd, bits);
      var r := Reference(cd, bits);
      if r.n < 16 then Lengths(bits[r.used..], ll + [r.n]) else RunOfLengths(bits[r.used..], r.n, n, ll)
  }

  /** A run of lengths, which must not go past the last one. */
  ghost function RunOfLengths(bits: Bits, j: nat, n: nat, ll: seq<nat>): (o: Lengths)
    requires |ll| < n && AllBelow16(ll) && |bits| >= RepeatBits(j)
    ensures o.NoLengths? ==> !o.end.Done?
    ensures o.Lengths? ==> |o.rest| <= |bits| && |ll| < |o.ll| <= n && AllBelow16(o.ll)
  {
    var count := RepeatBase(j) + Lsb(bits[..RepeatBits(j)]);
    if |ll| + count > n then NoLengths(Bad(1))
    else Lengths(bits[RepeatBits(j)..], ll + Run(count, if j == 16 then Last(ll) else 0))
  }

  function Run(count: nat, v: nat): seq<nat> { seq(count, _ => v) }

  /** The entry for the next code length (lines 744-751), which is taken without looking at `e`. */
  method ReadLength(inp: Input, mem: seq<seq<Huft>>, bl: nat, ghost cd: Coding) returns (ok: bool, j: nat)
    requires inp.Valid() && |inp.stream| >= LENGTH_SYMBOL && LengthAlphabet(cd)
    requires Decodes(mem, bl, cd) && (OneLevel(mem, bl, cd) || mem == [])
    modifies inp
    ensures inp.Valid() && |inp.stream| <= |old(inp.stream)|
    ensures cd.Decodable(old(inp.stream)) && Reference(cd, old(inp.stream)).Found? ==>
              var r := Reference(cd, old(inp.stream));
              && ok && j == r.n && 0 < r.used <= 7 && inp.stream == old(inp.stream)[r.used..]
              && inp.bk == SymbolHeld(cd.b, bl, old(inp.stream), 0, r.used, old(inp.bk))
  {
    hide Decodes, OneLevel, LengthAlphabet, Reference, Coding.Decodable, Walk, Holds, Lsb, Fill, SymbolHeld;
    ghost var bits, held := inp.stream, inp.bk;
    LengthLeaf(cd, mem, bl, bits, held);
    var r;
    ok, r := ReadEntry(inp, mem, 0, bl);
    if !ok || r.b > bl || r.v.Table? {
      return false, 0;
    }
    inp.Drop(r.b);
    j := r.v.n;
  }

  /** Where a length is found, the entry looked up is that of its code. */
  lemma LengthLeaf(cd: Coding, mem: seq<seq<Huft>>, bl: nat, bits: Bits, held: int)
    requires |bits| >= LENGTH_SYMBOL && LengthAlphabet(cd)
    requires Decodes(mem, bl, cd) && (OneLevel(mem, bl, cd) || mem == [])
    ensures cd.Decodable(bits) && Reference(cd, bits).Found? ==>
              && bl <= BMAX && bl <= |bits| && mem != [] && Lsb(bits[..bl]) < |mem[0]|
              && Walk(mem, 0, bl, bits) != Stuck
              && var r, e := Reference(cd, bits), mem[0][Lsb(bits[..bl])];
              && e == Huft(r.e, r.used, Number(r.n)) && 0 < r.used <= 7 && r.used <= bl
              && SymbolHeld(cd.b, bl, bits, 0, r.used, held) == Fill(held, bl, |bits|) - r.used
  {
    if cd.Decodable(bits) && Reference(cd, bits).Found? {
      assert bits[..0] == [];
      LengthBounds(cd, bits);
      SymbolRead(cd, mem, bl, bits);
      assert IsLeaf(mem, bl, bits);
      assert bits[0..] == bits;
    }
  }

  method FillRun(ll: array<nat>, i: nat, count: nat, v: nat)
    requires i + count <= ll.Length
    modifies ll
    ensures ll[..i + count] == old(ll[..i]) + Run(count, v)
  {
    var j := 0;
    while j < count
      invariant 0 <= j <= count
      invariant forall m :: 0 <= m < i ==> ll[m] == old(ll[m])
      invariant forall m :: i <= m < i + j ==> ll[m] == v
    {
      ll[i + j] := v;
      j := j + 1;
    }
  }

  /** Read the count of a repeat code and do it (lines 755-799). */
  method Repeat(inp: Input, ll: array<nat>, i: nat, n: nat, j: nat, last: nat) returns (s: Status, i': nat)
    requires inp.Valid() && |inp.stream| >= RepeatBits(j) && i < n <= ll.Length
    requires AllBelow16(ll[..i]) && last == Last(ll[..i])
    modifies inp, ll
    ensures inp.Valid() && |inp.stream| <= |old(inp.stream)| && i < i' <= n
    ensures s.Return? && (s.code == 0 ==> AllBelow16(ll[..i']) && Last(ll[..i']) == if j == 16 then last else 0)
    ensures Gives(RunOfLengths(old(inp.stream), j, n, old(ll[..i])), s, inp.stream, ll[..i'])
    ensures inp.bk == Taken(old(inp.bk), RepeatBits(j), |old(inp.stream)|)
  {
    hide Holds, Lsb, Taken;
    ghost var before := ll[..i];
    var count := inp.Take(RepeatBits(j));
    count := RepeatBase(j) + count;
    if i + count > n {
      return Return(1), n;
    }
    FillRun(ll, i, count, if j == 16 then last else 0);
    RunAfter(before, count, if j == 16 then last else 0);
    return Return(0), i + count;
  }

  lemma RunAfter(ll: seq<nat>, count: nat, v: nat)
    requires AllBelow16(ll) && v <= 15 && count > 0
    ensures AllBelow16(ll + Run(count, v)) && Last(ll + Run(count, v)) == v
  {
  }

  /** Lines 744-799. */
  method ReadLengths(inp: Input, mem: seq<seq<Huft>>, bl: nat, ll: array<nat>, i: nat, n: nat, last: nat,
                     ghost cd: Coding)
    returns (s: Status, i': nat, last': nat)
    requires inp.Valid() && LengthAlphabet(cd) && i < n <= ll.Length
    requires AllBelow16(ll[..i]) && last == Last(ll[..i])
    requires Decodes(mem, bl, cd) && (OneLevel(mem, bl, cd) || mem == [])
    modifies inp, ll
    ensures inp.Valid() && |inp.stream| <= |old(inp.stream)| && i < i' <= n
    ensures s == Return(0) ==> AllBelow16(ll[..i']) && last' == Last(ll[..i'])
    ensures Gives(NextLengths(cd, old(inp.stream), n, old(ll[..i])), s, inp.stream, ll[..i'])
    ensures NextLengths(cd, old(inp.stream), n, old(ll[..i])).Lengths? ==>
              inp.bk == NextHeld(cd, bl, old(inp.stream), old(inp.bk))
  {
    hide Decodes, OneLevel, Reference, Holds, RunOfLengths, Coding.Decodable, LengthAlphabet, SymbolHeld, Taken;
    i', last' := n, 0;
    if !inp.Has(LENGTH_SYMBOL) {
      return OutOfInput, i', last';
    }
    var ok, j := ReadLength(inp, mem, bl, cd);
    if !ok {
      return Undetermined, i', last';
    }
    if j < 16 {
      ll[i] := j;
      assert ll[..i + 1] == old(ll[..i]) + [j];
      return Return(0), i + 1, j;
    }
    if !inp.Has(RepeatBits(j)) {
      return Undetermined, i', last';
    }
    s, i' := Repeat(inp, ll, i, n, j, last);
    last' := if j == 16 then last else 0;
  }

  /** Lines 740-800. */
  method ReadCodeLengths(inp: Input, mem: seq<seq<Huft>>, bl: nat, ll: array<nat>, n: nat, ghost cd: Coding)
    returns (s: Status)
    requires inp.Valid() && LengthAlphabet(cd) && n <= ll.Length
    requires Decodes(mem, bl, cd) && (OneLevel(mem, bl, cd) || mem == [])
    modifies inp, ll
    ensures inp.Valid() && |inp.stream| <= |old(inp.stream)| && (s == Return(0) ==> AllBelow16(ll[..n]))
    ensures Gives(CodeLengths(cd, old(inp.stream), n, []), s, inp.stream, ll[..n])
    ensures CodeLengths(cd, old(inp.stream), n, []).Lengths? ==>
              inp.bk == LengthsHeld(cd, bl, old(inp.stream), n, [], old(inp.bk))
  {
    hide Decodes, OneLevel, NextLengths, NextHeld, Holds, LengthAlphabet, AllBelow16;
    EmptyBelow16();
    ghost var spec := CodeLengths(cd, inp.stream, n, []);
    ghost var held := LengthsHeld(cd, bl, inp.stream, n, [], inp.bk);
    var i, l := 0, 0;
    assert ll[..0] == [];
    while i < n
      invariant 0 <= i <= n && inp.Valid() && |inp.stream| <= |old(inp.stream)|
      invariant l == Last(ll[..i]) && AllBelow16(ll[..i])
      invariant spec == NoLengths(Unspecified) || spec == CodeLengths(cd, inp.stream, n, ll[..i])
      invariant spec == NoLengths(Unspecified) || held == LengthsHeld(cd, bl, inp.stream, n, ll[..i], inp.bk)
      decreases n - i
    {
      s, i, l := ReadLengths(inp, mem, bl, ll, i, n, l, cd);
      if s != Return(0) {
        return;
      }
    }
    return Return(0);
  }

  // --------------------------------------------------------------------------- dynamic blocks

  /** Section 3.2.7 of RFC 1951, with the limits that the source sets. */
  ghost function DynamicBlock(bits: Bits, output: seq<Byte>): (o: Outcome)
    ensures o.Done? ==> |o.rest| <= |bits|
  {
    if |bits| < 14 then RanOut
    else SizedBlock(bits[14..], Sizes(bits).0, Sizes(bits).1, Sizes(bits).2, output)
  }

  ghost function SizedBlock(bits: Bits, nl: nat, nd: nat, nb: nat, output: seq<Byte>): (o: Outcome)
    requires 257 <= nl && 1 <= nd && 4 <= nb <= 19
    ensures o.Done? ==> |o.rest| <= |bits|
  {
    if nl > 286 || nd > 30 then Bad(1) else AfterLengths(AllLengths(bits, nl + nd, nb), nl, nd, output)
  }

  ghost predicate LengthsRead(lengths: Lengths, n: nat) {
    lengths.Lengths? ==> |lengths.ll| == n && AllBelow16(lengths.ll)
  }

  ghost function AfterLengths(lengths: Lengths, nl: nat, nd: nat, output: seq<Byte>): Outcome
    requires 257 <= nl <= 286 && 1 <= nd <= 30 && LengthsRead(lengths, nl + nd)
  {
    match lengths
    case Lengths(rest, ll) => TwoCodes(ll, nl, rest, output)
    case NoLengths(end) => end
  }

  /** The block when the first `nl` lengths are those of the literals, and the others of distances. */
  ghost function TwoCodes(ll: seq<nat>, nl: nat, bits: Bits, output: seq<Byte>): (o: Outcome)
    requires 257 <= nl <= 286 && nl < |ll| <= nl + 30 && AllBelow16(ll)
    ensures o.Done? ==> |o.rest| <= |bits|
  {
    CodedBlock(ll[..nl], ll[nl..], bits, output)
  }

  /** HLIT, HDIST and HCLEN. */
  ghost function Sizes(bits: Bits): (r: (nat, nat, nat))
    requires |bits| >= 14
    ensures 257 <= r.0 && 1 <= r.1 && 4 <= r.2 <= 19
  {
    LsbBound(bits[10..14]);
    assert Pow2(4) == 16;
    (257 + Lsb(bits[..5]), 1 + Lsb(bits[5..10]), 4 + Lsb(bits[10..14]))
  }

  /** The lengths that are read in the code with the lengths `b`. */
  ghost function LengthsIn(b: seq<nat>, bits: Bits, n: nat): (o: Lengths)
    requires |b| == 19 && forall i :: 0 <= i < 19 ==> b[i] <= 7
    ensures o.NoLengths? ==> !o.end.Done?
    ensures o.Lengths? ==> |o.rest| <= |bits| && |o.ll| == n && AllBelow16(o.ll)
  {
    if BuildStatus(b) != 0 then NoLengths(Bad(BuildStatus(b))) else CodeLengths(LengthCoding(b), bits, n, [])
  }

  /** All the code lengths of a block. */
  ghost function AllLengths(bits: Bits, n: nat, nb: nat): (o: Lengths)
    requires 4 <= nb <= 19
    ensures o.NoLengths? ==> !o.end.Done?
    ensures o.Lengths? ==> |o.rest| <= |bits| && |o.ll| == n && AllBelow16(o.ll)
  {
    if |bits| < 3 * nb then NoLengths(RanOut)
    else
      LengthsIn(LengthsOfLengths(bits, nb), bits[3 * nb..], n)
  }

  /** Symbols in the codes with the given lengths, of which each must be complete or a single bit. */
  ghost function CodedBlock(b: seq<nat>, d: seq<nat>, bits: Bits, output: seq<Byte>): (o: Outcome)
    requires 1 <= |b| <= 288 && AllBelow16(b) && 1 <= |d| <= 30 && AllBelow16(d)
    ensures o.Done? ==> |o.rest| <= |bits|
  {
    if BuildStatus(b) != 0 then Bad(BuildStatus(b))
    else if BuildStatus(d) != 0 then Bad(BuildStatus(d))
    else
      ValidCodings(b, d);
      Symbols(LiteralCoding(b), DistanceCoding(d), bits, output)
  }

  /** The bits in the buffer after a block with its own codes, in parts as above. */
  ghost function DynamicHeld(bits: Bits, held: int): int {
    if |bits| < 14 then 0
    else
      SizedHeld(bits[14..], Sizes(bits).0, Sizes(bits).1, Sizes(bits).2,
                Taken(Taken(Taken(held, 5, |bits|), 5, |bits| - 5), 4, |bits| - 10))
  }

  ghost function SizedHeld(bits: Bits, nl: nat, nd: nat, nb: nat, held: int): int
    requires 257 <= nl && 1 <= nd && 4 <= nb <= 19
  {
    if nl > 286 || nd > 30 then 0
    else AfterLengthsHeld(AllLengths(bits, nl + nd, nb), nl, nd, AllLengthsHeld(bits, nl + nd, nb, held))
  }

  ghost function AllLengthsHeld(bits: Bits, n: nat, nb: nat, held: int): int
    requires 4 <= nb <= 19
  {
    if |bits| < 3 * nb then 0
    else LengthsInHeld(LengthsOfLengths(bits, nb), bits[3 * nb..], n, ThreesHeld(nb, |bits|, held))
  }

  ghost function LengthsInHeld(b: seq<nat>, bits: Bits, n: nat, held: int): int
    requires |b| == 19 && forall i :: 0 <= i < 19 ==> b[i] <= 7
  {
    LengthsHeld(LengthCoding(b), RootWidth(b, 7), bits, n, [], held)
  }

  ghost function AfterLengthsHeld(lengths: Lengths, nl: nat, nd: nat, held: int): int
    requires 257 <= nl <= 286 && 1 <= nd <= 30 && LengthsRead(lengths, nl + nd)
  {
    match lengths
    case Lengths(rest, ll) => CodedHeld(ll[..nl], ll[nl..], rest, held)
    case NoLengths(_) => 0
  }

  ghost function CodedHeld(b: seq<nat>, d: seq<nat>, bits: Bits, held: int): int
    requires 1 <= |b| <= 288 && AllBelow16(b) && 1 <= |d| <= 30 && AllBelow16(d)
  {
    ValidCodings(b, d);
    SymbolsHeld(LiteralCoding(b), DistanceCoding(d), RootWidth(b, 9), RootWidth(d, 6), bits, held)
  }

  /** Lines 810-838. */
  method InflateCoded(inp: Input, out: Output, b: seq<nat>, d: seq<nat>) returns (s: Status)
    requires inp.Valid() && out.Valid()
    requires 1 <= |b| <= 286 && AllBelow16(b) && 1 <= |d| <= 30 && AllBelow16(d)
    modifies inp, out, out.window
    ensures inp.Valid() && out.Valid() && |inp.stream| <= |old(inp.stream)|
    ensures Meets(CodedBlock(b, d, old(inp.stream), old(out.output)), s, inp.stream, out.output)
    ensures CodedBlock(b, d, old(inp.stream), old(out.output)).Done? ==>
              inp.bk == CodedHeld(b, d, old(inp.stream), old(inp.bk))
  {
    hide Symbols, SymbolsHeld, Reads, FewCodes, BuildStatus, Alphabets, RootWidth, OneLevel, NoCodes, MaxLength;
    ValidCodings(b, d);
    LengthsUpTo(b, 15);
    ShortEnough(b, 9);
    ghost var lit, dist := LiteralCoding(b), DistanceCoding(d);
    var status, tl, bl := BuildTable(LiteralCoding(b), 9);
    if status != 0 {
      return Return(status);
    }
    var td, bd;
    status, td, bd := BuildTable(DistanceCoding(d), 6);
    if status != 0 {
      return Return(status);
    }
    FewDistances(d);
    s := InflateCodes.InflateCodes(inp, out, tl, td, bl, bd, lit, dist);
  }

  lemma SizesInTurn(bits: Bits)
    requires |bits| >= 14
    ensures Sizes(bits) == (257 + Lsb(bits[..5]), 1 + Lsb(bits[5..][..5]), 4 + Lsb(bits[5..][5..][..4]))
    ensures bits[5..][5..][4..] == bits[14..]
  {
    assert bits[5..][..5] == bits[5..10] && bits[5..][5..][..4] == bits[10..14];
  }

  /** Lines 691-711. */
  method ReadSizes(inp: Input) returns (nl: nat, nd: nat, nb: nat)
    requires inp.Valid() && |inp.stream| >= 14
    modifies inp
    ensures inp.Valid() && inp.stream == old(inp.stream)[14..]
    ensures (nl, nd, nb) == Sizes(old(inp.stream))
    ensures var total := |old(inp.stream)|;
            inp.bk == Taken(Taken(Taken(old(inp.bk), 5, total), 5, total - 5), 4, total - 10)
  {
    hide Taken, Holds;
    SizesInTurn(inp.stream);
    nl := inp.Take(5);
    nd := inp.Take(5);
    nb := inp.Take(4);
    nl, nd, nb := 257 + nl, 1 + nd, 4 + nb;
  }

  /** Lines 717-800. */
  method ReadAllLengths(inp: Input, n: nat, nb: nat)
    returns (s: Status, lengths: seq<nat>, ghost spec: Lengths)
    requires inp.Valid() && 4 <= nb <= 19 && n <= 316
    modifies inp
    ensures inp.Valid() && |inp.stream| <= |old(inp.stream)|
    ensures s == Return(0) ==> |lengths| == n && AllBelow16(lengths)
    ensures spec == AllLengths(old(inp.stream), n, nb) && Gives(spec, s, inp.stream, lengths)
    ensures spec.Lengths? ==> inp.bk == AllLengthsHeld(old(inp.stream), n, nb, old(inp.bk))
  {
    hide BuildStatus, CodeLengths, LengthsOfLengths, Decodes, OneLevel, Holds, LengthsInHeld, ThreesHeld;
    spec := AllLengths(inp.stream, n, nb);
    if !inp.Has(3 * nb) {
      return OutOfInput, [], spec;
    }
    var ll := new nat[316];
    ReadLengthsOfLengths(inp, ll, nb);
    s := ReadCoded(inp, ll, n);
    lengths := ll[..n];
  }

  /** Lines 731-800. */
  method ReadCoded(inp: Input, ll: array<nat>, n: nat) returns (s: Status)
    requires inp.Valid() && ll.Length == 316 && n <= 316 && forall i :: 0 <= i < 19 ==> ll[i] <= 7
    modifies inp, ll
    ensures inp.Valid() && |inp.stream| <= |old(inp.stream)| && (s == Return(0) ==> AllBelow16(ll[..n]))
    ensures Gives(LengthsIn(old(ll[..19]), old(inp.stream), n), s, inp.stream, ll[..n])
    ensures LengthsIn(old(ll[..19]), old(inp.stream), n).Lengths? ==>
              inp.bk == LengthsInHeld(old(ll[..19]), old(inp.stream), n, old(inp.bk))
  {
    hide CodeLengths, LengthsHeld, Decodes, Holding, OneLevel, Holds, FewCodes, RootWidth;
    var cd := LengthCoding(ll[..19]);
    LengthsUpTo(cd.b, 7);
    var status, tl, bl := BuildTable(cd, 7);
    if status != 0 {
      return Return(status);
    }
    ShortEnough(cd.b, 7);
    s := ReadCodeLengths(inp, tl, bl, ll, n, cd);
  }

  lemma ShortEnough(b: seq<nat>, m: nat)
    requires MaxLength(b) <= 2 * m
    ensures FewCodes(b, m)
  {
  }

  /** Lines 691-838. */
  method InflateDynamic(inp: Input, out: Output) returns (s: Status)
    requires inp.Valid() && out.Valid()
    modifies inp, out, out.window
    ensures inp.Valid() && out.Valid() && |inp.stream| <= |old(inp.stream)|
    ensures Meets(DynamicBlock(old(inp.stream), old(out.output)), s, inp.stream, out.output)
    ensures DynamicBlock(old(inp.stream), old(out.output)).Done? ==>
              inp.bk == DynamicHeld(old(inp.stream), old(inp.bk))
  {
    hide SizedBlock, SizedHeld, Taken, Holds;
    if !inp.Has(14) {
      return OutOfInput;
    }
    var nl, nd, nb := ReadSizes(inp);
    s := InflateSized(inp, out, nl, nd, nb);
  }

  lemma SizedIs(bits: Bits, nl: nat, nd: nat, nb: nat, output: seq<Byte>, lengths: Lengths, held: int)
    requires 257 <= nl <= 286 && 1 <= nd <= 30 && 4 <= nb <= 19 && lengths == AllLengths(bits, nl + nd, nb)
    ensures SizedBlock(bits, nl, nd, nb, output) == AfterLengths(lengths, nl, nd, output)
    ensures SizedHeld(bits, nl, nd, nb, held) ==
            AfterLengthsHeld(lengths, nl, nd, AllLengthsHeld(bits, nl + nd, nb, held))
  {
  }

  /** Lines 712-838. */
  method InflateSized(inp: Input, out: Output, nl: nat, nd: nat, nb: nat) returns (s: Status)
    requires inp.Valid() && out.Valid() && 257 <= nl && 1 <= nd && 4 <= nb <= 19
    modifies inp, out, out.window
    ensures inp.Valid() && out.Valid() && |inp.stream| <= |old(inp.stream)|
    ensures Meets(SizedBlock(old(inp.stream), nl, nd, nb, old(out.output)), s, inp.stream, out.output)
    ensures SizedBlock(old(inp.stream), nl, nd, nb, old(out.output)).Done? ==>
              inp.bk == SizedHeld(old(inp.stream), nl, nd, nb, old(inp.bk))
  {
    hide BuildStatus, AllLengths, AllLengthsHeld, TwoCodes, CodedHeld, AfterLengthsHeld;
    if nl > 286 || nd > 30 {
      return Return(1);
    }
    var ll;
    ghost var lengths;
    ghost var bits, before, held := inp.stream, out.output, inp.bk;
    s, ll, lengths := ReadAllLengths(inp, nl + nd, nb);
    SizedIs(bits, nl, nd, nb, before, lengths, held);
    s := InflateRest(inp, out, s, ll, nl, nd, lengths);
  }

  /** Lines 810-838, unless reading the lengths has failed. */
  method InflateRest(inp: Input, out: Output, s0: Status, ll: seq<nat>, nl: nat, nd: nat,
                     ghost lengths: Lengths) returns (s: Status)
    requires inp.Valid() && out.Valid() && 257 <= nl <= 286 && 1 <= nd <= 30
    requires s0 == Return(0) ==> |ll| == nl + nd && AllBelow16(ll)
    requires LengthsRead(lengths, nl + nd) && Gives(lengths, s0, inp.stream, ll)
    modifies inp, out, out.window
    ensures inp.Valid() && out.Valid() && |inp.stream| <= |old(inp.stream)|
    ensures Meets(AfterLengths(lengths, nl, nd, old(out.output)), s, inp.stream, out.output)
    ensures lengths.Lengths? && AfterLengths(lengths, nl, nd, old(out.output)).Done? ==>
              inp.bk == AfterLengthsHeld(lengths, nl, nd, old(inp.bk))
  {
    s := s0;
    if s == Return(0) {
      s := InflateTwoCodes(inp, out, ll, nl);
    }
  }

  method InflateTwoCodes(inp: Input, out: Output, ll: seq<nat>, nl: nat) returns (s: Status)
    requires inp.Valid() && out.Valid() && 257 <= nl <= 286 && nl < |ll| <= nl + 30 && AllBelow16(ll)
    modifies inp, out, out.window
    ensures inp.Valid() && out.Valid() && |inp.stream| <= |old(inp.stream)|
    ensures Meets(TwoCodes(ll, nl, old(inp.stream), old(out.output)), s, inp.stream, out.output)
    ensures TwoCodes(ll, nl, old(inp.stream), old(out.output)).Done? ==>
              inp.bk == CodedHeld(ll[..nl], ll[nl..], old(inp.stream), old(inp.bk))
  {
    s := InflateCoded(inp, out, ll[..nl], ll[nl..]);
  }

  // -------------------------------------------------------------------------- the whole stream

  /** A block of type `t` (section 3.2.3 of RFC 1951). */
  ghost function TypedBlock(t: nat, bits: Bits, output: seq<Byte>): (o: Outcome)
    ensures o.Done? ==> |o.rest| <= |bits|
  {
    if t == 0 then StoredBlock(bits, output)
    else if t == 1 then FixedBlock(bits, output)
    else if t == 2 then DynamicBlock(bits, output)
    else Bad(2)
  }

  /** All blocks up to the last. */
  ghost function Blocks(bits: Bits, output: seq<Byte>): (o: Outcome)
    decreases |bits|
  {
    if |bits| < 3 then RanOut
    else
      var o := TypedBlock(Lsb(bits[1..][..2]), bits[1..][2..], output);
      if o.Done? && !bits[0] then Blocks(o.rest, o.output) else o
  }

  ghost function TypedHeld(t: nat, bits: Bits, held: int): int {
    if t == 0 then StoredHeld(bits, held)
    else if t == 1 then FixedHeld(bits, held)
    else DynamicHeld(bits, held)
  }

  /** The bits read too many at the end of the last block: a function of the stream. */
  ghost function BlocksHeld(bits: Bits, output: seq<Byte>, held: int): int
    decreases |bits|
  {
    if |bits| < 3 then 0
    else
      var t, rest := Lsb(bits[1..][..2]), bits[1..][2..];
      var o, h := TypedBlock(t, rest, output), TypedHeld(t, rest, Taken(Taken(held, 1, |bits|), 2, |bits| - 1));
      if o.Done? && !bits[0] then BlocksHeld(o.rest, o.output, h) else h
  }

  /** inflate_block (lines 549-844), behind the bits read first. */
  method InflateBlock(inp: Input, out: Output, t: nat) returns (s: Status)
    requires inp.Valid() && out.Valid()
    modifies inp, out, out.window
    ensures inp.Valid() && out.Valid() && |inp.stream| <= |old(inp.stream)|
    ensures Meets(TypedBlock(t, old(inp.stream), old(out.output)), s, inp.stream, out.output)
    ensures TypedBlock(t, old(inp.stream), old(out.output)).Done? ==>
              inp.bk == TypedHeld(t, old(inp.stream), old(inp.bk))
  {
    hide StoredBlock, FixedBlock, DynamicBlock, StoredHeld, FixedHeld, DynamicHeld;
    match t
    case 0 => s := InflateStored(inp, out);
    case 1 => s := InflateFixed(inp, out);
    case 2 => s := InflateDynamic(inp, out);
    case _ => s := Return(2);
  }

  /** What unzip has got when it comes to the trailer behind the stream, of which `left` bits are in the
      buffer: the file is what DEFLATE gives and nothing else, with its CRC and length, and the reads that
      follow give the bytes behind the stream, unless a byte has been put back wrongly. */
  ghost predicate Unzipped(data: seq<Byte>, rest: Bits, output: seq<Byte>, out: Output, next: seq<Byte>, left: int)
    reads out
  {
    && out.file == output && out.crc == Crc(Ones(), output) && out.bytesOut == |output|
    && |rest| / 8 <= |data| && |next| == |rest| / 8 && 0 <= left <= |rest|
    && (next == Behind(data, rest) <==> LuckyBytes(data, rest, left))
  }

  /** inflate (lines 851-885), from the first block on. */
  method Inflate(file: seq<Byte>) returns (s: Status, out: Output, next: seq<Byte>)
    ensures var bits := BitsFrom(file + AT_END, 0);
            match Blocks(bits, [])
            case Done(rest, output) =>
              s == Return(0) && Unzipped(file + AT_END, rest, output, out, next, BlocksHeld(bits, [], 0))
            case Bad(code) => s == Return(code)
            case RanOut => s == OutOfInput
            case Unspecified => true
  {
    hide TypedBlock, BitsFrom, LuckyBytes, Behind, BlocksHeld;
    var inp := new Input(file);
    out := new Output();
    next := [];
    s := InflateAll(inp, out);
    if s == Return(0) {
      InBuffer(inp);
      next := inp.GiveBack();
      out.Flush();
    }
  }

  lemma InBuffer(inp: Input)
    requires inp.Valid()
    ensures inp.bk <= |inp.stream|
  {
  }

  /** The loop over the blocks (lines 863-871). */
  method InflateAll(inp: Input, out: Output) returns (s: Status)
    requires inp.Valid() && out.Valid()
    modifies inp, out, out.window
    ensures inp.Valid() && out.Valid()
    ensures Meets(Blocks(old(inp.stream), old(out.output)), s, inp.stream, out.output)
    ensures Blocks(old(inp.stream), old(out.output)).Done? ==>
              inp.bk == BlocksHeld(old(inp.stream), old(out.output), old(inp.bk))
  {
    hide TypedBlock, TypedHeld, Taken, Holds;
    ghost var spec, held := Blocks(inp.stream, out.output), BlocksHeld(inp.stream, out.output, inp.bk);
    while true
      invariant inp.Valid() && out.Valid()
      invariant spec == Unspecified || spec == Blocks(inp.stream, out.output)
      invariant spec == Unspecified || held == BlocksHeld(inp.stream, out.output, inp.bk)
      decreases |inp.stream|
    {
      if !inp.Has(3) {
        return OutOfInput;
      }
      LsbOfOne(inp.stream[..1]);
      var e := inp.Take(1);
      var t := inp.Take(2);
      s := InflateBlock(inp, out, t);
      if s != Return(0) {
        return;
      }
      if e == 1 {
        return;
      }
    }
  }

  lemma LsbOfOne(b: Bits)
    requires |b| == 1
    ensures Lsb(b) == Bit(b[0])
  {
    assert b[1..] == [];
  }
}
