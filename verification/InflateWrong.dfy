/** A file behind whose DEFLATE stream the wrong byte is read: one empty block with its own codes, and the
    byte 1. */
module InflateWrong {
  import opened BitStrings
  import opened CanonicalCode
  import opened HuftTables
  import opened HuftParts
  import opened LookAhead
  import opened HuftBuild
  import opened BitReader
  import opened Window
  import opened InflateCodes
  import opened Inflate

  /** The block: 4 distance lengths, 19 lengths of code lengths (1 for 0, 2 for 1, 3 for 18, 4 for 16 and 17),
      255 times the length 0, twice 1, four times 0, and the end of the block. */
  const BLOCK_BYTES: seq<Byte> := [0x05, 0xe3, 0xc9, 0x05, 0, 0, 0, 0, 0x20, 0xec, 0x3f, 0x75, 0x41]

  const FILE: seq<Byte> := BLOCK_BYTES + [1]

  /** The bits of the block that are one. */
  predicate One(i: nat) {
    || i == 0 || i == 2 || i == 8 || i == 9 || 13 <= i <= 16 || i == 19 || 22 <= i <= 24 || i == 26 || i == 69
    || i == 74 || i == 75 || 77 <= i <= 85 || i == 88 || i == 90 || 92 <= i <= 94 || i == 96 || i == 102
  }

  /** The stream from bit `k` of the block on; `tail` is what comes behind the block. */
  ghost predicate From(bits: Bits, k: nat, tail: Bits) {
    && k <= 104 && |tail| == 64 && |bits| == 168 - k && bits[104 - k..] == tail
    && forall j :: 0 <= j < 104 - k ==> (bits[j] <==> One(k + j))
  }

  lemma Onward(bits: Bits, k: nat, n: nat, tail: Bits)
    requires From(bits, k, tail) && k + n <= 104
    ensures From(bits[n..], k + n, tail)
  {
    hide One;
    assert bits[n..][104 - k - n..] == bits[104 - k..];
    forall j | 0 <= j < 104 - k - n ensures bits[n..][j] <==> One(k + n + j) {
      assert bits[n..][j] == bits[n + j];
    }
  }

  // ------------------------------------------------------------------------------ the bits

  lemma ByteBits(i: nat)
    requires i < 13
    ensures forall j :: 0 <= j < 8 ==> (ToBits(BLOCK_BYTES[i], 8)[j] <==> One(8 * i + j))
  {
    hide One, ToBits, BLOCK_BYTES;
    var b := seq(8, j requires 0 <= j < 8 => One(8 * i + j));
    ByteValue(i);
    SameBits(b, BLOCK_BYTES[i]);
  }

  lemma SameBits(b: Bits, n: Byte)
    requires |b| == 8 && n == Bit(b[0]) + 2 * Bit(b[1]) + 4 * Bit(b[2]) + 8 * Bit(b[3])
                              + 16 * Bit(b[4]) + 32 * Bit(b[5]) + 64 * Bit(b[6]) + 128 * Bit(b[7])
    ensures ToBits(n, 8) == b
  {
    LsbOfByte(b);
    ToBitsLsb(b);
  }

  /** The bytes have those bits. */
  lemma ByteValue(i: nat)
    requires i < 13
    ensures i < |BLOCK_BYTES|
    ensures BLOCK_BYTES[i] == Bit(One(8 * i)) + 2 * Bit(One(8 * i + 1)) + 4 * Bit(One(8 * i + 2))
                              + 8 * Bit(One(8 * i + 3)) + 16 * Bit(One(8 * i + 4)) + 32 * Bit(One(8 * i + 5))
                              + 64 * Bit(One(8 * i + 6)) + 128 * Bit(One(8 * i + 7))
  {
  }

  /** The stream from byte `i` of the block on. */
  lemma {:induction false} FromByte(data: seq<Byte>, i: nat)
    requires i <= 13 && data == FILE + AT_END
    ensures From(BitsFrom(data, i), 8 * i, BitsFrom(data, 13))
    decreases 13 - i
  {
    if i == 13 {
      assert BitsFrom(data, i)[0..] == BitsFrom(data, 13);
    } else {
      FromByte(data, i + 1);
      assert data[i] == BLOCK_BYTES[i];
      ByteBits(i);
      hide One, BitsFrom;
      Prepend(ToBits(data[i], 8), BitsFrom(data, i + 1), 8 * i, BitsFrom(data, 13));
      assert BitsFrom(data, i) == ToBits(data[i], 8) + BitsFrom(data, i + 1) by { FirstByte(data, i); }
    }
  }

  lemma FirstByte(data: seq<Byte>, i: nat)
    requires i < |data|
    ensures BitsFrom(data, i) == ToBits(data[i], 8) + BitsFrom(data, i + 1)
  {
  }

  lemma Prepend(byte: Bits, bits: Bits, k: nat, tail: Bits)
    requires |byte| == 8 && From(bits, k + 8, tail) && forall j :: 0 <= j < 8 ==> (byte[j] <==> One(k + j))
    ensures From(byte + bits, k, tail)
  {
    hide One;
    assert (byte + bits)[104 - k..] == bits[104 - (k + 8)..];
    forall j | 0 <= j < 104 - k ensures (byte + bits)[j] <==> One(k + j) {
      assert j >= 8 ==> (byte + bits)[j] == bits[j - 8];
      assert j >= 8 ==> (bits[j - 8] <==> One(k + 8 + (j - 8)));
    }
  }

  // ------------------------------------------------------------------------- the code lengths

  /** The lengths of the code lengths. */
  const LENGTHS: seq<nat> := [1, 2, 0, 0, 0, 0, 0, 0, 0, 0, 0, 0, 0, 0, 0, 0, 4, 4, 3]

  lemma SizesAre(bits: Bits, tail: Bits)
    requires From(bits, 3, tail)
    ensures Sizes(bits) == (257, 4, 19)
  {
    var a, b, c := bits[..5], bits[5..10], bits[10..14];
    assert a == [false, false, false, false, false] && b == [true, true, false, false, false];
    assert c == [true, true, true, true];
    LsbZeros(a);
    LsbOfFour(b[..4]);
    LsbOfFour(c);
    LsbConcat(b[..4], b[4..]);
    LsbZeros(b[4..]);
    assert b == b[..4] + b[4..];
    ScaleUnit(4);
  }

  lemma TripleIs(bits: Bits, tail: Bits, p: nat)
    requires From(bits, 17, tail) && p < 19
    ensures Lsb(bits[3 * p..][..3]) == if p <= 1 then 4 else if p == 2 then 3 else if p == 3 then 1
                                       else if p == 17 then 2 else 0
  {
    var b := bits[3 * p..][..3];
    assert b[0] == One(17 + 3 * p) && b[1] == One(18 + 3 * p) && b[2] == One(19 + 3 * p);
    LsbOfThree(b);
  }

  lemma LsbOfThree(b: Bits)
    requires |b| == 3
    ensures Lsb(b) == Bit(b[0]) + 2 * Bit(b[1]) + 4 * Bit(b[2])
  {
    assert b[1..][1..] == b[2..] && b[2..][1..] == [];
    assert Lsb(b[1..]) == Bit(b[1]) + 2 * Lsb(b[2..]);
  }

  lemma LengthsAre(bits: Bits, tail: Bits)
    requires From(bits, 17, tail)
    ensures LengthsOfLengths(bits, 19) == LENGTHS
  {
    hide One, Lsb;
    var b := LengthsOfLengths(bits, 19);
    forall sym | 0 <= sym < 19 ensures b[sym] == LENGTHS[sym] {
      TripleIs(bits, tail, PLACE[sym]);
    }
  }

  lemma LengthCounts(k: nat, i: nat)
    requires 0 < k && i <= 19
    ensures CountBelow(LENGTHS, k, i) ==
            if k == 1 then (if i > 0 then 1 else 0)
            else if k == 2 then (if i > 1 then 1 else 0)
            else if k == 3 then (if i > 18 then 1 else 0)
            else if k == 4 then (if i > 17 then 2 else if i > 16 then 1 else 0)
            else 0
  {
    hide CountBelow;
    assert CountBelow(LENGTHS, k, 0) == 0 by { NoneYet(LENGTHS, k); }
    if i <= 1 {
      CountRun(LENGTHS, k, 0, i, 1);
    } else {
      CountRun(LENGTHS, k, 0, 1, 1);
      if i <= 2 {
        CountRun(LENGTHS, k, 1, i, 2);
      } else {
        CountRun(LENGTHS, k, 1, 2, 2);
        if i <= 16 {
          CountRun(LENGTHS, k, 2, i, 0);
        } else {
          CountRun(LENGTHS, k, 2, 16, 0);
          if i <= 18 {
            CountRun(LENGTHS, k, 16, i, 4);
          } else {
            CountRun(LENGTHS, k, 16, 18, 4);
            CountRun(LENGTHS, k, 18, 19, 3);
          }
        }
      }
    }
  }

  lemma NoneYet(b: seq<nat>, k: nat)
    ensures CountBelow(b, k, 0) == 0
  {
  }

  lemma LengthCode()
    ensures BuildStatus(LENGTHS) == 0 && Complete(LENGTHS) && RootWidth(LENGTHS, 7) == 4
    ensures LengthAlphabet(LengthCoding(LENGTHS))
  {
    LengthsValid();
    AllCounts();
    hide LENGTHS, Counts, Longest, ShortestFrom, Space, Pow2, LengthAlphabet;
    var c := Counts(LENGTHS);
    LongestIs(c, 4, BMAX);
    ShortestIs(c, 1);
    CodeSpace(c);
    KraftAtLongest(LENGTHS, 4);
  }

  lemma LengthsValid()
    ensures |LENGTHS| == 19 && LengthsOk(LENGTHS) && LengthAlphabet(LengthCoding(LENGTHS)) && !NoCodes(LENGTHS)
  {
    NotNone(LENGTHS, 0);
  }

  lemma AllCounts()
    ensures var c := Counts(LENGTHS);
            |c| == BMAX + 1 && forall k :: 0 < k <= BMAX ==> c[k] == LengthCount(k)
  {
    hide LENGTHS, CountBelow;
    LengthsValid();
    forall k | 0 < k <= BMAX ensures Counts(LENGTHS)[k] == LengthCount(k) {
      LengthCounts(k, 19);
    }
  }

  function LengthCount(k: nat): nat { if 1 <= k <= 3 then 1 else if k == 4 then 2 else 0 }

  lemma LengthCodes()
    ensures CodeOf(LENGTHS, 0) == 0 && CodeOf(LENGTHS, 1) == 2 && CodeOf(LENGTHS, 18) == 6
  {
    hide CountBelow, FirstCode;
    LengthCounts(1, 19);
    LengthCounts(2, 19);
    LengthCounts(1, 0);
    LengthCounts(2, 1);
    LengthCounts(3, 18);
    FirstCodes(LENGTHS);
  }

  lemma CodeSpace(c: seq<nat>)
    requires |c| == BMAX + 1 && c[1] == 1 && c[2] == 1 && c[3] == 1 && c[4] == 2
    ensures Space(c, 4, 4) == Pow2(4)
  {
    assert Scale(1, 3) == 8 && Scale(1, 2) == 4 && Scale(1, 1) == 2 && Scale(2, 0) == 2;
    assert Space(c, 4, 1) == 8 && Space(c, 4, 2) == 12 && Space(c, 4, 3) == 14;
    assert Pow2(4) == 16;
  }

  lemma FirstCodes(b: seq<nat>)
    requires CountBelow(b, 1, |b|) == 1 && CountBelow(b, 2, |b|) == 1
    ensures FirstCode(b, 1) == 0 && FirstCode(b, 2) == 2 && FirstCode(b, 3) == 6
  {
    assert FirstCode(b, 2) == 2 * (FirstCode(b, 1) + 1);
  }

  // --------------------------------------------------------------------- the lengths of the codes

  /** One symbol of the code lengths, whose code is `code`. */
  lemma LengthSymbol(bits: Bits, s: nat, code: Bits, held: int)
    requires |bits| >= LENGTH_SYMBOL && s < 19 && 0 < LENGTHS[s] == |code| <= 4
    requires bits[..|code|] == code && Msb(code) == CodeOf(LENGTHS, s)
    ensures LengthAlphabet(LengthCoding(LENGTHS)) && LengthCoding(LENGTHS).Decodable(bits)
    ensures Reference(LengthCoding(LENGTHS), bits) == Found(LITERAL, s, |code|)
    ensures SymbolHeld(LENGTHS, 4, bits, 0, |code|, held) == Fill(held, 4, |bits|) - |code|
  {
    LengthCode();
    hide Msb, CodeOf, Complete, Fill;
    assert Matches(LENGTHS, s, bits);
    ReferenceFound(LengthCoding(LENGTHS), s, bits);
    assert bits[..0] == [];
    hide Matches, Reference;
  }

  lemma MsbOfThree(b: Bits)
    requires 1 <= |b| <= 3
    ensures |b| == 1 ==> Msb(b) == Bit(b[0])
    ensures |b| == 2 ==> Msb(b) == 2 * Bit(b[0]) + Bit(b[1])
    ensures |b| == 3 ==> Msb(b) == 4 * Bit(b[0]) + 2 * Bit(b[1]) + Bit(b[2])
  {
    assert Msb(b[..1]) == Bit(b[0]) by { assert b[..1][..0] == []; }
    if |b| == 1 {
      assert b[..1] == b;
    } else {
      assert b[..2][..1] == b[..1];
      assert Msb(b[..2]) == 2 * Msb(b[..1]) + Bit(b[1]);
      if |b| == 2 {
        assert b[..2] == b;
      }
    }
  }

  /** The length 0, and the length 1. */
  lemma StepShort(bits: Bits, n: nat, ll: seq<nat>, held: int, v: nat)
    requires |bits| >= LENGTH_SYMBOL && |ll| < n && AllBelow16(ll) && v <= 1
    requires if v == 0 then !bits[0] else bits[0] && !bits[1]
    ensures LengthAlphabet(LengthCoding(LENGTHS))
    ensures NextLengths(LengthCoding(LENGTHS), bits, n, ll) == Lengths(bits[v + 1..], ll + [v])
    ensures NextHeld(LengthCoding(LENGTHS), 4, bits, held) == Fill(held, 4, |bits|) - (v + 1)
  {
    hide Reference, SymbolHeld, Coding.Decodable, Msb, LengthAlphabet, CodeOf, Fill, AllBelow16, RunOfLengths;
    var code := bits[..v + 1];
    MsbOfThree(code);
    LengthCodes();
    LengthSymbol(bits, v, code, held);
  }

  /** A run of `11 + extra` zeros. */
  lemma StepRun(bits: Bits, n: nat, ll: seq<nat>, held: int, extra: nat)
    requires |bits| >= LENGTH_SYMBOL && |ll| + 11 + extra <= n && AllBelow16(ll)
    requires bits[0] && bits[1] && !bits[2] && Lsb(bits[3..][..7]) == extra
    ensures LengthAlphabet(LengthCoding(LENGTHS)) && |ll| < n
    ensures NextLengths(LengthCoding(LENGTHS), bits, n, ll) == Lengths(bits[10..], ll + Run(11 + extra, 0))
    ensures NextHeld(LengthCoding(LENGTHS), 4, bits, held) == Taken(Fill(held, 4, |bits|) - 3, 7, |bits| - 3)
  {
    hide Reference, SymbolHeld, Coding.Decodable, Msb, Lsb, LengthAlphabet, Taken, CodeOf, Fill, AllBelow16, Run;
    var code := bits[..3];
    MsbOfThree(code);
    LengthCodes();
    LengthSymbol(bits, 18, code, held);
    assert bits[3..][7..] == bits[10..];
  }

  lemma LsbOfSeven(b: Bits)
    requires |b| == 7
    ensures Lsb(b) == Bit(b[0]) + 2 * Bit(b[1]) + 4 * Bit(b[2]) + 8 * Bit(b[3]) + 16 * Bit(b[4]) + 32 * Bit(b[5])
                      + 64 * Bit(b[6])
  {
    LsbPad(b, 1);
    LsbOfByte(b + Zeros(1));
  }

  lemma RunsAre(bits: Bits, tail: Bits, k: nat)
    requires From(bits, k, tail) && (k == 74 || k == 84)
    ensures bits[0] && bits[1] && !bits[2] && Lsb(bits[3..][..7]) == if k == 74 then 127 else 106
  {
    var b := bits[3..][..7];
    LsbOfSeven(b);
    hide Lsb;
    assert bits[0] == One(k) && bits[1] == One(k + 1) && bits[2] == One(k + 2);
    assert b[0] == One(k + 3) && b[1] == One(k + 4) && b[2] == One(k + 5) && b[3] == One(k + 6);
    assert b[4] == One(k + 7) && b[5] == One(k + 8) && b[6] == One(k + 9);
  }

  lemma LengthsStep(bits: Bits, n: nat, ll: seq<nat>, held: int, rest: Bits, ll': seq<nat>, held': int)
    requires |ll| < n && AllBelow16(ll) && LengthAlphabet(LengthCoding(LENGTHS))
    requires NextLengths(LengthCoding(LENGTHS), bits, n, ll) == Lengths(rest, ll')
    requires NextHeld(LengthCoding(LENGTHS), 4, bits, held) == held'
    ensures |ll| < |ll'| <= n && AllBelow16(ll')
    ensures CodeLengths(LengthCoding(LENGTHS), bits, n, ll) == CodeLengths(LengthCoding(LENGTHS), rest, n, ll')
    ensures LengthsHeld(LengthCoding(LENGTHS), 4, bits, n, ll, held) ==
            LengthsHeld(LengthCoding(LENGTHS), 4, rest, n, ll', held')
  {
  }

  lemma OneRun(bits: Bits, tail: Bits, k: nat, n: nat, ll: seq<nat>, held: int)
    returns (rest: Bits, ll': seq<nat>, held': int)
    requires From(bits, k, tail) && (k == 74 || k == 84) && |ll| + (if k == 74 then 138 else 117) <= n && AllBelow16(ll)
    requires LengthAlphabet(LengthCoding(LENGTHS))
    ensures From(rest, k + 10, tail) && ll' == ll + Run(if k == 74 then 138 else 117, 0) && AllBelow16(ll')
    ensures held' == Taken(Fill(held, 4, 168 - k) - 3, 7, 165 - k)
    ensures |ll'| <= n
    ensures CodeLengths(LengthCoding(LENGTHS), bits, n, ll) == CodeLengths(LengthCoding(LENGTHS), rest, n, ll')
    ensures LengthsHeld(LengthCoding(LENGTHS), 4, bits, n, ll, held) ==
            LengthsHeld(LengthCoding(LENGTHS), 4, rest, n, ll', held')
  {
    hide NextLengths, NextHeld, CodeLengths, LengthsHeld, LengthAlphabet, One, Lsb, Taken, Fill;
    RunsAre(bits, tail, k);
    var extra := if k == 74 then 127 else 106;
    StepRun(bits, n, ll, held, extra);
    Onward(bits, k, 10, tail);
    rest, ll', held' := bits[10..], ll + Run(11 + extra, 0), Taken(Fill(held, 4, |bits|) - 3, 7, |bits| - 3);
    LengthsStep(bits, n, ll, held, rest, ll', held');
  }

  lemma OneLength(bits: Bits, tail: Bits, k: nat, n: nat, ll: seq<nat>, held: int, v: nat)
    returns (rest: Bits, ll': seq<nat>, held': int)
    requires From(bits, k, tail) && k < 102 && |ll| < n && AllBelow16(ll) && v <= 1
    requires if v == 0 then !One(k) else One(k) && !One(k + 1)
    requires LengthAlphabet(LengthCoding(LENGTHS))
    ensures From(rest, k + v + 1, tail) && ll' == ll + [v] && AllBelow16(ll')
    ensures held' == Fill(held, 4, 168 - k) - (v + 1)
    ensures CodeLengths(LengthCoding(LENGTHS), bits, n, ll) == CodeLengths(LengthCoding(LENGTHS), rest, n, ll')
    ensures LengthsHeld(LengthCoding(LENGTHS), 4, bits, n, ll, held) ==
            LengthsHeld(LengthCoding(LENGTHS), 4, rest, n, ll', held')
  {
    hide NextLengths, NextHeld, CodeLengths, LengthsHeld, LengthAlphabet, One, Lsb, Fill;
    assert bits[0] == One(k) && bits[1] == One(k + 1);
    StepShort(bits, n, ll, held, v);
    Onward(bits, k, v + 1, tail);
    rest, ll', held' := bits[v + 1..], ll + [v], Fill(held, 4, |bits|) - (v + 1);
    LengthsStep(bits, n, ll, held, rest, ll', held');
  }

  /** All lengths: 255 zeros and two ones for the literals, and four zeros for the distances. */
  ghost function AllOf(): seq<nat> { Run(138, 0) + Run(117, 0) + [1] + [1] + [0] + [0] + [0] + [0] }

  lemma TheLengths(bits: Bits, tail: Bits) returns (rest: Bits)
    requires From(bits, 74, tail)
    ensures LengthAlphabet(LengthCoding(LENGTHS)) && AllBelow16([]) && From(rest, 102, tail)
    ensures CodeLengths(LengthCoding(LENGTHS), bits, 261, []) == Lengths(rest, AllOf())
    ensures LengthsHeld(LengthCoding(LENGTHS), 4, bits, 261, [], 6) == 10
  {
    hide CodeLengths, LengthsHeld, LengthAlphabet, From, LENGTHS, AllBelow16;
    LengthsValid();
    EmptyBelow16();
    var ll, held;
    rest, ll, held := OneRun(bits, tail, 74, 261, [], 6);
    assert held == 4 && ll == Run(138, 0);
    rest, ll, held := OneRun(rest, tail, 84, 261, ll, held);
    assert held == 2;
    rest, ll, held := OneLength(rest, tail, 94, 261, ll, held, 1);
    assert held == 8;
    rest, ll, held := OneLength(rest, tail, 96, 261, ll, held, 1);
    assert held == 6;
    rest, ll, held := OneLength(rest, tail, 98, 261, ll, held, 0);
    rest, ll, held := OneLength(rest, tail, 99, 261, ll, held, 0);
    rest, ll, held := OneLength(rest, tail, 100, 261, ll, held, 0);
    assert held == 3;
    rest, ll, held := OneLength(rest, tail, 101, 261, ll, held, 0);
    LengthsEnd(rest, ll, held);
  }

  lemma LengthsEnd(bits: Bits, ll: seq<nat>, held: int)
    requires LengthAlphabet(LengthCoding(LENGTHS)) && AllBelow16(ll)
    ensures CodeLengths(LengthCoding(LENGTHS), bits, |ll|, ll) == Lengths(bits, ll)
    ensures LengthsHeld(LengthCoding(LENGTHS), 4, bits, |ll|, ll, held) == held
  {
  }

  // ------------------------------------------------------------------------ the block itself

  /** 255 zeros and two ones. */
  predicate TwoOnes(b: seq<nat>) {
    |b| == 257 && b[255] == 1 && b[256] == 1 && forall i :: 0 <= i < 255 ==> b[i] == 0
  }

  lemma TwoCounts(b: seq<nat>, k: nat)
    requires TwoOnes(b) && 0 < k
    ensures CountBelow(b, k, 257) == if k == 1 then 2 else 0
    ensures CountBelow(b, k, 256) == if k == 1 then 1 else 0
  {
    NoneYet(b, k);
    CountRun(b, k, 0, 255, 0);
    CountRun(b, k, 255, 256, 1);
    CountRun(b, k, 255, 257, 1);
  }

  lemma TwoCodesFit(b: seq<nat>)
    requires TwoOnes(b)
    ensures LengthsOk(b) && AllBelow16(b) && BuildStatus(b) == 0 && Complete(b) && RootWidth(b, 9) == 1
    ensures CodeOf(b, 256) == 1
  {
    assert LengthsOk(b) && AllBelow16(b) && b[256] == 1;
    hide CountBelow, Longest, ShortestFrom, LengthsOk;
    var c := Counts(b);
    forall k | 0 < k <= BMAX ensures c[k] == if k == 1 then 2 else 0 {
      TwoCounts(b, k);
    }
    TwoCounts(b, 1);
    NotNone(b, 256);
    LongestIs(c, 1, BMAX);
    ShortestIs(c, 1);
    assert Space(c, 1, 1) == Scale(2, 0) == 2 && Pow2(1) == 2;
    KraftAtLongest(b, 1);
  }

  /** The end of the block at once, by its code of one bit. */
  lemma EndAtOnce(b: seq<nat>, d: seq<nat>, bits: Bits, held: int)
    requires TwoOnes(b) && |d| == 4 && NoCodes(d) && |bits| >= SYMBOL && bits[0]
    ensures AllBelow16(b) && AllBelow16(d) && CodedBlock(b, d, bits, []) == Done(bits[1..], [])
    ensures CodedHeld(b, d, bits, held) == Fill(held, 1, |bits|) - 1
  {
    TwoCodesFit(b);
    ValidCodings(b, d);
    EndPiece(b, d, bits, held);
  }

  lemma EndPiece(b: seq<nat>, d: seq<nat>, bits: Bits, held: int)
    requires TwoOnes(b) && |bits| >= SYMBOL && bits[0] && Complete(b) && CodeOf(b, 256) == 1
    requires Alphabets(LiteralCoding(b), DistanceCoding(d)) && LiteralCoding(b).Valid()
    ensures NextPiece(LiteralCoding(b), DistanceCoding(d), bits) == InflateCodes.End(bits[1..])
    ensures PieceHeld(LiteralCoding(b), DistanceCoding(d), 1, RootWidth(d, 6), bits, held) == Fill(held, 1, |bits|) - 1
  {
    hide CodeOf, Complete, Fill;
    MsbOfThree(bits[..1]);
    assert Matches(b, 256, bits);
    ReferenceFound(LiteralCoding(b), 256, bits);
    assert SymbolsLike(LiteralCoding(b), DistanceCoding(d), bits);
    assert bits[..0] == [];
  }

  // ------------------------------------------------------------------------- the whole file

  lemma {:induction false} ThreesExact(n: nat, total: nat, held: nat)
    requires held < 8 && held == total % 8 && 3 * n <= total
    ensures ThreesHeld(n, total, held) == (total - 3 * n) % 8
  {
    if n > 0 {
      ThreesExact(n - 1, total - 3, Taken(held, 3, total));
    }
  }

  lemma AllOfIs()
    ensures |AllOf()| == 261 && TwoOnes(AllOf()[..257]) && |AllOf()[257..]| == 4 && NoCodes(AllOf()[257..])
  {
  }

  lemma BlockDone(bits: Bits, tail: Bits) returns (rest: Bits)
    requires From(bits, 3, tail)
    ensures DynamicBlock(bits, []) == Done(rest, []) && From(rest, 103, tail)
    ensures DynamicHeld(bits, 5) == 9
  {
    hide From, CodeLengths, LengthsHeld, LENGTHS, CodedBlock, CodedHeld, Sizes, LengthsOfLengths, ThreesHeld, AllOf;
    hide RootWidth, BuildStatus;
    FromLength(bits, 3, tail);
    SizesAre(bits, tail);
    Onward(bits, 3, 14, tail);
    var b := bits[14..];
    LengthsAre(b, tail);
    LengthCode();
    LengthsValid();
    ThreesExact(19, 151, 7);
    Onward(b, 17, 57, tail);
    var r := TheLengths(b[57..], tail);
    assert AllLengths(b, 261, 19) == Lengths(r, AllOf());
    assert AllLengthsHeld(b, 261, 19, 7) == 10;
    AllOfIs();
    FromLength(r, 102, tail);
    EndAtOnce(AllOf()[..257], AllOf()[257..], r, 10);
    Onward(r, 102, 1, tail);
    rest := r[1..];
  }

  lemma FromLength(bits: Bits, k: nat, tail: Bits)
    requires From(bits, k, tail)
    ensures k <= 104 && |bits| == 168 - k && (k < 104 ==> bits[0] == One(k))
  {
  }

  /** The file comes to nothing, with nine bits left, and the byte behind it would be put back as 4. */
  lemma NineLeft() returns (rest: Bits)
    ensures var data := FILE + AT_END;
            var bits := BitsFrom(data, 0);
            && Blocks(bits, []) == Done(rest, []) && BlocksHeld(bits, [], 0) == 9 && |rest| == 65
            && Behind(data, rest) == [1] + AT_END && Scale(Lsb(rest[..7]), 1) == 4 && !LuckyBytes(data, rest, 9)
  {
    hide From, DynamicBlock, DynamicHeld, BitsFrom, StoredBlock, StoredHeld, FixedBlock, FixedHeld, One;
    var data := FILE + AT_END;
    var bits, tail := BitsFrom(data, 0), BitsFrom(data, 13);
    FromByte(data, 0);
    FromLength(bits, 0, tail);
    Header(bits, tail);
    Onward(bits, 0, 3, tail);
    assert bits[1..][2..] == bits[3..];
    rest := BlockDone(bits[3..], tail);
    FromLength(rest, 103, tail);
    SevenBits(rest, data);
  }

  lemma Header(bits: Bits, tail: Bits)
    requires From(bits, 0, tail)
    ensures |bits| == 168 && bits[0] && Lsb(bits[1..][..2]) == 2
  {
    var t := bits[1..][..2];
    assert t[0] == One(1) && t[1] == One(2);
    assert t[1..][1..] == [];
    assert Lsb(t) == Bit(t[0]) + 2 * Lsb(t[1..]);
  }

  lemma SevenBits(rest: Bits, data: seq<Byte>)
    requires data == FILE + AT_END && From(rest, 103, BitsFrom(data, 13))
    ensures Lsb(rest[..7]) == 2
  {
    hide BitsFrom;
    FirstByte(data, 13);
    var tail, z := BitsFrom(data, 13), [false, true] + Zeros(5);
    assert rest[1..] == tail && !rest[0];
    assert ToBits(1, 8) == [true] + Zeros(7) by { ToBitsOne(); }
    assert rest[..7] == z;
    LsbPad([false, true], 5);
    assert [false, true][1..] == [true] && [true][1..] == [];
  }

  lemma ToBitsOne()
    ensures ToBits(1, 8) == [true] + Zeros(7)
  {
    assert Lsb([true]) == 1 by { assert [true][1..] == []; }
    hide Lsb, ToBits;
    LsbPad([true], 7);
    ToBitsLsb([true] + Zeros(7));
  }

  /** inflate on that file: it succeeds, and what is read next is not what is behind the block. */
  method WrongByte() returns (s: Status, out: Output, next: seq<Byte>)
    ensures s == Return(0) && out.file == [] && |next| == 8 && next != [1] + AT_END
  {
    ghost var rest := NineLeft();
    hide BitsFrom, Blocks, BlocksHeld, LuckyBytes, Behind;
    s, out, next := Inflate.Inflate(FILE);
  }
}
