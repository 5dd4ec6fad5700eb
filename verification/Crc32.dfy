/** The CRC of src/opkg/libbb/unzip.c: a table, made from the polynomial's exponents, that takes eight
    steps of the bit-at-a-time CRC of section 8 of RFC 1952 at once. */
module Crc32 {
  import opened BitStrings
  import opened Words

  /** The exponents of the polynomial, except that of x^32 (line 110). */
  const EXPONENTS: seq<nat> := [0, 1, 2, 4, 5, 7, 8, 10, 11, 12, 16, 22, 23, 26]

  /** 0xedb88320: the bit of x^e is bit 31 - e. */
  ghost function Polynomial(): Word { seq(32, i requires 0 <= i < 32 => 31 - i in EXPONENTS) }

  /** The polynomial as section 8 of RFC 1952 writes it. */
  lemma PolynomialIs()
    ensures Lsb(Polynomial()) == 0xedb88320
  {
    PolynomialBytes();
    hide Polynomial, Lsb;
    var p := Polynomial();
    assert p == p[..8] + (p[8..16] + (p[16..24] + p[24..]));
    LsbConcat(p[..8], p[8..16] + (p[16..24] + p[24..]));
    LsbConcat(p[8..16], p[16..24] + p[24..]);
    LsbConcat(p[16..24], p[24..]);
    assert Scale(0xed, 8) == 0xed00 && Scale(0xedb8, 8) == 0xedb800 && Scale(0xedb883, 8) == 0xedb88300;
  }

  lemma PolynomialBytes()
    ensures var p := Polynomial();
            Lsb(p[..8]) == 0x20 && Lsb(p[8..16]) == 0x83 && Lsb(p[16..24]) == 0xb8 && Lsb(p[24..]) == 0xed
  {
    var p := Polynomial();
    LowBits();
    HighBits();
    hide Lsb, Polynomial;
    LsbOfByte(p[..8]);
    LsbOfByte(p[8..16]);
    LsbOfByte(p[16..24]);
    LsbOfByte(p[24..]);
  }

  lemma LowBits()
    ensures var p := Polynomial();
            && p[..8] == [false, false, false, false, false, true, false, false]
            && p[8..16] == [true, true, false, false, false, false, false, true]
  {
  }

  lemma HighBits()
    ensures var p := Polynomial();
            && p[16..24] == [false, false, false, true, true, true, false, true]
            && p[24..] == [true, false, true, true, false, true, true, true]
  {
  }

  /** One step of the shift register. */
  ghost function Step(c: Word): Word {
    if c[0] then Xor(ShiftRight(c, 1), Polynomial()) else ShiftRight(c, 1)
  }

  ghost function Steps(c: Word, n: nat): Word {
    if n == 0 then c else Step(Steps(c, n - 1))
  }

  function WordOf(b: Byte): Word { ToBits(b, 32) }

  /** The register after the bytes of `s`, taken in one bit at a time. */
  ghost function Crc(c: Word, s: seq<Byte>): Word {
    if s == [] then c else Steps(Xor(Crc(c, s[..|s| - 1]), WordOf(s[|s| - 1])), 8)
  }

  lemma {:induction false} CrcConcat(c: Word, s: seq<Byte>, t: seq<Byte>)
    ensures Crc(c, s + t) == Crc(Crc(c, s), t)
    decreases |t|
  {
    if t == [] {
      assert s + t == s;
    } else {
      assert (s + t)[..|s + t| - 1] == s + t[..|t| - 1];
      CrcConcat(c, s, t[..|t| - 1]);
    }
  }

  lemma StepLinear(a: Word, b: Word)
    ensures Step(Xor(a, b)) == Xor(Step(a), Step(b))
  {
    var l, r := Step(Xor(a, b)), Xor(Step(a), Step(b));
    assert forall i :: 0 <= i < 32 ==> l[i] == r[i];
  }

  lemma {:induction false} StepsLinear(a: Word, b: Word, n: nat)
    ensures Steps(Xor(a, b), n) == Xor(Steps(a, n), Steps(b, n))
  {
    if n > 0 {
      StepsLinear(a, b, n - 1);
      StepLinear(Steps(a, n - 1), Steps(b, n - 1));
    }
  }

  /** With `n` zero bits at the bottom, `n` steps only shift. */
  lemma {:induction false} ZeroBits(c: Word, n: nat)
    requires n <= 32 && forall i :: 0 <= i < n ==> !c[i]
    ensures Steps(c, n) == ShiftRight(c, n)
  {
    if n > 0 {
      ZeroBits(c, n - 1);
      var d := Steps(c, n - 1);
      assert d[0] == c[n - 1];
      assert ShiftRight(d, 1) == ShiftRight(c, n);
    } else {
      assert ShiftRight(c, 0) == c;
    }
  }

  ghost predicate IsTable(t: seq<Word>) { |t| == 256 && TableUpTo(t, 256) }

  ghost predicate TableUpTo(t: seq<Word>, n: nat) {
    n <= |t| && forall i: Byte :: i < n ==> t[i] == Steps(WordOf(i), 8)
  }

  /** One look into the table is eight steps (line 145). */
  lemma TableStep(t: seq<Word>, c: Word, b: Byte)
    requires IsTable(t)
    ensures var x := Xor(c, WordOf(b));
            && Lsb(x[..8]) < 256
            && Xor(t[Lsb(x[..8])], ShiftRight(c, 8)) == Steps(x, 8)
  {
    var x := Xor(c, WordOf(b));
    var i := Lsb(x[..8]);
    LsbBound(x[..8]);
    assert Pow2(8) == 256;
    LowWord(x[..8]);
    var high := Zeros(8) + x[8..];
    assert x == Xor(WordOf(i), high);
    StepsLinear(WordOf(i), high, 8);
    ZeroBits(high, 8);
    HighOfByte(b);
    assert ShiftRight(high, 8) == ShiftRight(c, 8);
  }

  lemma LowWord(low: Bits)
    requires |low| == 8 && Lsb(low) < 256
    ensures WordOf(Lsb(low)) == low + Zeros(24)
  {
    LsbPad(low, 24);
    ToBitsLsb(low + Zeros(24));
  }

  lemma HighOfByte(b: Byte)
    ensures forall i :: 8 <= i < 32 ==> !WordOf(b)[i]
  {
    var low := ToBits(b, 8);
    assert Pow2(8) == 256;
    LsbToBits(b, 8);
    LowWord(low);
  }

  /** make_crc_table (lines 102-131). */
  method MakeTable() returns (t: array<Word>)
    ensures fresh(t) && t.Length == 256 && IsTable(t[..])
  {
    var poly := MakePolynomial();
    t := new Word[256](_ => Zeros(32));
    var i := 0;
    while i < 256
      invariant 0 <= i <= 256 && TableUpTo(t[..], i)
    {
      var entry := MakeEntry(i, poly);
      t[i] := entry;
      i := i + 1;
    }
  }

  method MakeEntry(i: Byte, poly: Word) returns (entry: Word)
    requires poly == Polynomial()
    ensures entry == Steps(WordOf(i), 8)
  {
    entry := WordOf(i);
    var k := 8;
    while k > 0
      invariant 0 <= k <= 8 && entry == Steps(WordOf(i), 8 - k)
    {
      entry := if entry[0] then Xor(ShiftRight(entry, 1), poly) else ShiftRight(entry, 1);
      k := k - 1;
    }
  }

  method MakePolynomial() returns (poly: Word)
    ensures poly == Polynomial()
  {
    poly := Zeros(32);
    var i := 0;
    while i < |EXPONENTS|
      invariant 0 <= i <= |EXPONENTS|
      invariant forall b :: 0 <= b < 32 ==> (poly[b] <==> 31 - b in EXPONENTS[..i])
    {
      poly := poly[31 - EXPONENTS[i] := true];
      i := i + 1;
    }
    assert EXPONENTS[..|EXPONENTS|] == EXPONENTS;
  }
}
