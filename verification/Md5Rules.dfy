/** What section 3 of RFC 1321 says of a digest in numbers and bytes: the order of the bytes of a word and of the
    words of a digest, the padding, what an operation does to four registers A, B, C and D. */
module Md5Rules {
  import opened BitStrings
  import opened LittleEndian
  import opened Words
  import opened Md5

  // -------------------------------------------------------------------------- words and bytes

  lemma ScaleByte(n: nat)
    ensures Scale(n, 8) == 0x100 * n
  {
    assert Scale(n, 1) == 2 * n;
    assert Scale(n, 3) == 2 * Scale(n, 2) == 4 * Scale(n, 1);
    assert Scale(n, 5) == 2 * Scale(n, 4) == 4 * Scale(n, 3);
    assert Scale(n, 7) == 2 * Scale(n, 6) == 4 * Scale(n, 5);
  }

  /** The number of a word whose low-order byte comes first. */
  function Value(b0: Byte, b1: Byte, b2: Byte, b3: Byte): nat { b0 + 0x100 * b1 + 0x1_0000 * b2 + 0x100_0000 * b3 }

  lemma WordValue(bytes: seq<Byte>, k: nat)
    requires 4 * k + 4 <= |bytes|
    ensures Lsb(WordAt(bytes, k)) == Value(bytes[4 * k], bytes[4 * k + 1], bytes[4 * k + 2], bytes[4 * k + 3])
  {
    var b0, b1 := ToBits(bytes[4 * k], 8), ToBits(bytes[4 * k + 1], 8);
    var b2, b3 := ToBits(bytes[4 * k + 2], 8), ToBits(bytes[4 * k + 3], 8);
    FourBytes(b0, b1, b2, b3);
    assert Pow2(8) == 256;
    LsbToBits(bytes[4 * k], 8);
    LsbToBits(bytes[4 * k + 1], 8);
    LsbToBits(bytes[4 * k + 2], 8);
    LsbToBits(bytes[4 * k + 3], 8);
  }

  lemma FourBytes(b0: Bits, b1: Bits, b2: Bits, b3: Bits)
    requires |b0| == 8 && |b1| == 8 && |b2| == 8 && |b3| == 8
    ensures Lsb(b0 + b1 + b2 + b3) == Lsb(b0) + 0x100 * (Lsb(b1) + 0x100 * (Lsb(b2) + 0x100 * Lsb(b3)))
  {
    hide Lsb;
    ByteConcat(b2, b3);
    ByteConcat(b1, b2 + b3);
    ByteConcat(b0, b1 + (b2 + b3));
    Regroup(b0, b1, b2, b3);
  }

  lemma Regroup(a: Bits, b: Bits, c: Bits, d: Bits)
    ensures a + b + c + d == a + (b + (c + d))
  {
    assert b + c + d == b + (c + d);
    assert a + b + c == a + (b + c);
  }

  lemma ByteConcat(a: Bits, b: Bits)
    requires |a| == 8
    ensures Lsb(a + b) == Lsb(a) + 0x100 * Lsb(b)
  {
    hide Lsb, Scale;
    LsbConcat(a, b);
    ScaleByte(Lsb(b));
  }

  lemma SameBytes(a: seq<Byte>, b: seq<Byte>)
    requires |a| == 4 && |b| == 4 && Value(a[0], a[1], a[2], a[3]) == Value(b[0], b[1], b[2], b[3])
    ensures a == b
  {
    var m: nat, n: nat := a[2] as nat + 0x100 * a[3] as nat, b[2] as nat + 0x100 * b[3] as nat;
    LowByte(a[0], a[1] as nat + 0x100 * m, b[0], b[1] as nat + 0x100 * n);
    LowByte(a[1], m, b[1], n);
    LowByte(a[2], a[3], b[2], b[3]);
  }

  lemma LowByte(a: Byte, m: nat, b: Byte, n: nat)
    requires a + 0x100 * m == b + 0x100 * n
    ensures a == b && m == n
  {
  }

  lemma BytesValue(w: Word)
    ensures var b := BytesOf(w);
            Value(b[0], b[1], b[2], b[3]) == Lsb(w)
  {
  }

  /** The bytes of a word, read as a word again. */
  lemma WordOfBytes(w: Word, t: seq<Byte>, k: nat)
    requires In(t, 4 * k, BytesOf(w))
    ensures WordAt(t, k) == w
  {
    hide Value, WordAt, BytesOf;
    var b := BytesOf(w);
    BytesValue(w);
    WordValue(t, k);
    InBytes(t, 4 * k, b);
    LsbInjective(WordAt(t, k), w);
  }

  lemma InBytes(t: seq<Byte>, at: nat, b: seq<Byte>)
    requires |b| == 4 && In(t, at, b)
    ensures t[at] == b[0] && t[at + 1] == b[1] && t[at + 2] == b[2] && t[at + 3] == b[3]
  {
    assert t[at..at + 4][0] == b[0] && t[at..at + 4][1] == b[1] && t[at..at + 4][2] == b[2];
    assert t[at..at + 4][3] == b[3];
  }

  /** The words of a block are its bytes, four by four. */
  lemma WordsAre(block: seq<Byte>, k: nat)
    requires |block| == 64 && k < 16
    ensures BytesOf(WordsOf(block)[k]) == block[4 * k..4 * k + 4]
  {
    hide Value, BytesOf, WordAt;
    WordValue(block, k);
    BytesValue(WordAt(block, k));
    SameBytes(BytesOf(WordAt(block, k)), block[4 * k..4 * k + 4]);
  }

  /** A digest has the registers in the order A, B, C, D. */
  lemma OutputIs(r: Registers)
    ensures |Output(r)| == 16 && WordAt(Output(r), 0) == r.a && WordAt(Output(r), 1) == r.b
    ensures WordAt(Output(r), 2) == r.c && WordAt(Output(r), 3) == r.d
  {
    hide BytesOf, WordAt;
    WordOfBytes(r.a, Output(r), 0);
    WordOfBytes(r.b, Output(r), 1);
    WordOfBytes(r.c, Output(r), 2);
    WordOfBytes(r.d, Output(r), 3);
  }

  lemma BytesOfNumber(n: nat, b: seq<Byte>)
    requires n < TWO32 && |b| == 4 && Value(b[0], b[1], b[2], b[3]) == n
    ensures BytesOf(W(n)) == b
  {
    hide BytesOf, Value, Pow2, Lsb, ToBits;
    WordBound(W(n));
    LsbToBits(n, 32);
    BytesValue(W(n));
    SameBytes(BytesOf(W(n)), b);
  }

  /** The registers begin, low-order bytes first, as section 3.3 has them. */
  lemma InitIs()
    ensures Output(Init()) == [0x01, 0x23, 0x45, 0x67, 0x89, 0xab, 0xcd, 0xef,
                               0xfe, 0xdc, 0xba, 0x98, 0x76, 0x54, 0x32, 0x10]
  {
    hide BytesOf, W;
    BytesOfNumber(0x67452301, [0x01, 0x23, 0x45, 0x67]);
    BytesOfNumber(0xefcdab89, [0x89, 0xab, 0xcd, 0xef]);
    BytesOfNumber(0x98badcfe, [0xfe, 0xdc, 0xba, 0x98]);
    BytesOfNumber(0x10325476, [0x76, 0x54, 0x32, 0x10]);
  }

  // ------------------------------------------------------------------------------ the padding

  /** Sections 3.1 and 3.2: a one bit and zeros, no more than needed, and the number of bits, low-order word first,
      which fill up the last block. */
  lemma PaddingIs(n: nat)
    ensures var p := Padding(n);
            && 9 <= |p| < 73 && (n + |p|) % 64 == 0 && p[0] == 0x80
            && (forall i :: 0 < i < |p| - 8 ==> p[i] == 0)
            && Lsb(WordAt(p[|p| - 8..], 0)) == 8 * n % TWO32
            && Lsb(WordAt(p[|p| - 8..], 1)) == 8 * n / TWO32 % TWO32
  {
    hide Lsb, WordAt, Le32;
    var zeros, low, high := PadZeros(n), 8 * n % TWO32, 8 * n / TWO32 % TWO32;
    FillsUp(n, zeros);
    PadBytesAre(zeros, low, high);
    hide PadBytes, PadZeros;
  }

  lemma FillsUp(n: nat, zeros: nat)
    requires (n + 1 + zeros) % 64 == 56
    ensures (n + zeros + 9) % 64 == 0
  {
  }

  lemma PadBytesAre(zeros: nat, low: nat, high: nat)
    requires low < TWO32 && high < TWO32
    ensures var p := PadBytes(zeros, low, high);
            && p[0] == 0x80 && (forall i :: 0 < i < |p| - 8 ==> p[i] == 0)
            && Lsb(WordAt(p[|p| - 8..], 0)) == low && Lsb(WordAt(p[|p| - 8..], 1)) == high
  {
    hide Lsb, WordAt, Le32;
    var p := PadBytes(zeros, low, high);
    var tail := p[|p| - 8..];
    assert tail == Le32(low) + Le32(high);
    WordValue(tail, 0);
    WordValue(tail, 1);
  }

  // --------------------------------------------------------------------------- the operations

  /** Section 3.4, round by round and bit by bit: F is `if x then y else z`, G is `if z then x else y`, H says
      whether an odd number of the three are set, and I differs from y where x is set or z is not. */
  lemma RoundBits(x: Word, y: Word, z: Word, i: nat)
    requires i < 32
    ensures RoundFunction(0, x, y, z)[i] == if x[i] then y[i] else z[i]
    ensures RoundFunction(1, x, y, z)[i] == if z[i] then x[i] else y[i]
    ensures RoundFunction(2, x, y, z)[i] == ((Bit(x[i]) + Bit(y[i]) + Bit(z[i])) % 2 == 1)
    ensures RoundFunction(3, x, y, z)[i] == (if x[i] || !z[i] then !y[i] else y[i])
  {
  }

  /** To rotate is to multiply by 2^n and to put what is carried out at the other end. */
  lemma RotateValue(w: Word, n: nat)
    requires n <= 32
    ensures Lsb(RotateLeft(w, n)) == Scale(Lsb(w), n) % TWO32 + Scale(Lsb(w), n) / TWO32
  {
    hide Lsb, Scale, Pow2;
    var low, high := w[..32 - n], w[32 - n..];
    assert w == low + high;
    LsbConcat(low, high);
    LsbConcat(high, low);
    ScaleAdd(Lsb(low), Scale(Lsb(high), 32 - n), n);
    ScaleTwice(Lsb(high), 32 - n, n);
    ShiftedBelow(low, n);
    ScaleWord(Lsb(high));
    DivIs(Scale(Lsb(w), n), Lsb(high), Scale(Lsb(low), n));
  }

  lemma ShiftedBelow(low: Bits, n: nat)
    requires |low| + n == 32
    ensures Scale(Lsb(low), n) < TWO32
  {
    hide Lsb, Scale, Pow2;
    LsbBound(low);
    ScaleLess(Lsb(low), Pow2(|low|), n);
    ScaleUnit(|low|);
    ScaleTwice(1, |low|, n);
    ScaleUnit(32);
    WordBound(Zeros(32));
  }

  lemma ScaleWord(n: nat)
    ensures Scale(n, 32) == n * TWO32
  {
    hide Scale;
    ScaleTwice(n, 8, 24);
    ScaleTwice(Scale(n, 8), 8, 16);
    ScaleTwice(Scale(Scale(n, 8), 8), 8, 8);
    ScaleByte(n);
    ScaleByte(0x100 * n);
    ScaleByte(0x1_0000 * n);
    ScaleByte(0x100_0000 * n);
  }

  /** `a = b + ((a + f(b,c,d) + X[k] + T[i]) <<< s)` */
  function Turn(i: nat, x: seq<Word>, a: Word, b: Word, c: Word, d: Word): Word
    requires |x| == 16 && i < 64
  {
    Add(b, RotateLeft(Add(Add(Add(a, RoundFunction(i / 16, b, c, d)), x[WordIndex(i)]), W(Sine(i))), Shift(i)))
  }

  /** Four operations take the registers in turn: [ABCD], [DABC], [CDAB], [BCDA]. */
  lemma FourOperations(r: Registers, x: seq<Word>, i: nat)
    requires |x| == 16 && i % 4 == 0 && i + 4 <= 64
    ensures var q := Operations(r, x, i);
            var a := Turn(i, x, q.a, q.b, q.c, q.d);
            var d := Turn(i + 1, x, q.d, a, q.b, q.c);
            var c := Turn(i + 2, x, q.c, d, a, q.b);
            var b := Turn(i + 3, x, q.b, c, d, a);
            Operations(r, x, i + 4) == Registers(a, b, c, d)
  {
    hide Add, RotateLeft, RoundFunction, WordIndex, Sine, W, Shift;
    var q := Operations(r, x, i);
    var q1 := Operations(r, x, i + 1);
    var q2 := Operations(r, x, i + 2);
    var q3 := Operations(r, x, i + 3);
  }

  /** Then each register is added to what it was, modulo 2^32. */
  lemma CompressIs(r: Registers, block: seq<Byte>)
    requires |block| == 64
    ensures var q, s := Operations(r, WordsOf(block), 64), Compress(r, block);
            && Lsb(s.a) == (Lsb(q.a) + Lsb(r.a)) % TWO32 && Lsb(s.b) == (Lsb(q.b) + Lsb(r.b)) % TWO32
            && Lsb(s.c) == (Lsb(q.c) + Lsb(r.c)) % TWO32 && Lsb(s.d) == (Lsb(q.d) + Lsb(r.d)) % TWO32
  {
    hide Operations, WordsOf, Add, Lsb;
    var q := Operations(r, WordsOf(block), 64);
    AddValue(q.a, r.a);
    AddValue(q.b, r.b);
    AddValue(q.c, r.c);
    AddValue(q.d, r.d);
  }
}
