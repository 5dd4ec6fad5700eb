/** The incremental MD5 of src/opkg/libopkg/md5.c against sections 3.1 to 3.5 of RFC 1321. */
module Md5 {
  import opened Basics
  import opened BitStrings
  import opened LittleEndian
  import opened Words

  datatype Registers = Registers(a: Word, b: Word, c: Word, d: Word)

  function W(n: nat): Word { ToBits(n, 32) }

  function Init(): Registers { Registers(W(0x67452301), W(0xefcdab89), W(0x98badcfe), W(0x10325476)) }

  // ----------------------------------------------------------------- one block, by the RFC

  /** The functions of section 3.4. */
  function RoundFunction(round: nat, x: Word, y: Word, z: Word): Word {
    if round == 0 then Or(And(x, y), And(Not(x), z))
    else if round == 1 then Or(And(x, z), And(y, Not(z)))
    else if round == 2 then Xor(Xor(x, y), z)
    else Xor(y, Or(x, Not(z)))
  }

  /** Which word operation `i` takes. */
  function WordIndex(i: nat): (k: nat)
    ensures k < 16
  {
    if i < 16 then i % 16
    else if i < 32 then (1 + 5 * i) % 16
    else if i < 48 then (5 + 3 * i) % 16
    else 7 * i % 16
  }

  /** By how much it shifts. */
  function Shift(i: nat): (s: nat)
    ensures s <= 32
  {
    var j := i % 4;
    if i < 16 then 7 + 5 * j
    else if i < 32 then if j == 0 then 5 else if j == 1 then 9 else if j == 2 then 14 else 20
    else if i < 48 then if j == 0 then 4 else if j == 1 then 11 else if j == 2 then 16 else 23
    else if j == 0 then 6 else if j == 1 then 10 else if j == 2 then 15 else 21
  }

  /** The table of sines of section 3.4. */
  const SINES1: seq<nat> := [
    0xd76aa478, 0xe8c7b756, 0x242070db, 0xc1bdceee, 0xf57c0faf, 0x4787c62a, 0xa8304613, 0xfd469501,
    0x698098d8, 0x8b44f7af, 0xffff5bb1, 0x895cd7be, 0x6b901122, 0xfd987193, 0xa679438e, 0x49b40821]
  const SINES2: seq<nat> := [
    0xf61e2562, 0xc040b340, 0x265e5a51, 0xe9b6c7aa, 0xd62f105d, 0x02441453, 0xd8a1e681, 0xe7d3fbc8,
    0x21e1cde6, 0xc33707d6, 0xf4d50d87, 0x455a14ed, 0xa9e3e905, 0xfcefa3f8, 0x676f02d9, 0x8d2a4c8a]
  const SINES3: seq<nat> := [
    0xfffa3942, 0x8771f681, 0x6d9d6122, 0xfde5380c, 0xa4beea44, 0x4bdecfa9, 0xf6bb4b60, 0xbebfbc70,
    0x289b7ec6, 0xeaa127fa, 0xd4ef3085, 0x04881d05, 0xd9d4d039, 0xe6db99e5, 0x1fa27cf8, 0xc4ac5665]
  const SINES4: seq<nat> := [
    0xf4292244, 0x432aff97, 0xab9423a7, 0xfc93a039, 0x655b59c3, 0x8f0ccc92, 0xffeff47d, 0x85845dd1,
    0x6fa87e4f, 0xfe2ce6e0, 0xa3014314, 0x4e0811a1, 0xf7537e82, 0xbd3af235, 0x2ad7d2bb, 0xeb86d391]

  function Sine(i: nat): nat
    requires i < 64
  {
    if i < 16 then SINES1[i] else if i < 32 then SINES2[i - 16] else if i < 48 then SINES3[i - 32] else SINES4[i - 48]
  }

  /** Operation `i`; the next one takes the registers in turn, D before A. */
  function Operation(r: Registers, x: seq<Word>, i: nat): Registers
    requires |x| == 16 && i < 64
  {
    var f := RoundFunction(i / 16, r.b, r.c, r.d);
    var sum := Add(Add(Add(r.a, f), x[WordIndex(i)]), W(Sine(i)));
    Registers(r.d, Add(r.b, RotateLeft(sum, Shift(i))), r.b, r.c)
  }

  function Operations(r: Registers, x: seq<Word>, n: nat): Registers
    requires |x| == 16 && n <= 64
  {
    if n == 0 then r else Operation(Operations(r, x, n - 1), x, n - 1)
  }

  /** Four bytes, low-order byte first. */
  function WordAt(bytes: seq<Byte>, k: nat): Word
    requires 4 * k + 4 <= |bytes|
  {
    ToBits(bytes[4 * k], 8) + ToBits(bytes[4 * k + 1], 8) + ToBits(bytes[4 * k + 2], 8) + ToBits(bytes[4 * k + 3], 8)
  }

  function WordsOf(block: seq<Byte>): (x: seq<Word>)
    requires |block| == 64
    ensures |x| == 16
  {
    seq(16, k requires 0 <= k < 16 => WordAt(block, k))
  }

  function Sum(r: Registers, s: Registers): Registers {
    Registers(Add(r.a, s.a), Add(r.b, s.b), Add(r.c, s.c), Add(r.d, s.d))
  }

  function Compress(r: Registers, block: seq<Byte>): Registers
    requires |block| == 64
  {
    Sum(Operations(r, WordsOf(block), 64), r)
  }

  // --------------------------------------------------------------------- the message, by the RFC

  /** Section 3.4, over the whole blocks of `bytes`. */
  function Blocks(r: Registers, bytes: seq<Byte>): Registers
    decreases |bytes|
  {
    if |bytes| < 64 then r else Blocks(Compress(r, bytes[..64]), bytes[64..])
  }

  /** Sections 3.1 and 3.2: a one bit, zeros, and the length in bits modulo 2^64, low-order word first. */
  function Padding(length: nat): (p: seq<Byte>)
    ensures |p| == PadZeros(length) + 9
  {
    PadBytes(PadZeros(length), 8 * length % TWO32, 8 * length / TWO32 % TWO32)
  }

  function PadBytes(zeros: nat, low: nat, high: nat): (p: seq<Byte>)
    requires low < TWO32 && high < TWO32
    ensures |p| == zeros + 9
  {
    [0x80] + seq(zeros, _ => 0) + Le32(low) + Le32(high)
  }

  /** How many zeros bring the length to 448 bits modulo 512. */
  function PadZeros(length: nat): (n: nat)
    ensures n < 64 && (length + 1 + n) % 64 == 56
  {
    (119 - length % 64) % 64
  }

  function BytesOf(w: Word): (b: seq<Byte>)
    ensures |b| == 4
  {
    WordBound(w);
    Le32(Lsb(w))
  }

  /** Section 3.5. */
  function Output(r: Registers): seq<Byte> { BytesOf(r.a) + BytesOf(r.b) + BytesOf(r.c) + BytesOf(r.d) }

  function Digest(message: seq<Byte>): seq<Byte> { Output(Blocks(Init(), message + Padding(|message|))) }

  lemma {:induction false} BlocksConcat(r: Registers, a: seq<Byte>, b: seq<Byte>)
    requires |a| % 64 == 0
    ensures Blocks(r, a + b) == Blocks(Blocks(r, a), b)
    decreases |a|
  {
    hide Compress;
    if |a| == 0 {
      assert a + b == b;
    } else {
      assert (a + b)[..64] == a[..64] && (a + b)[64..] == a[64..] + b;
      BlocksConcat(Compress(r, a[..64]), a[64..], b);
    }
  }

  // ------------------------------------------------------------------------ md5_process_block

  /** FF, FG, FH and FI (lines 290-293). */
  function Macro(round: nat, b: Word, c: Word, d: Word): Word {
    if round == 0 then Xor(d, And(b, Xor(c, d)))
    else if round == 1 then Xor(c, And(d, Xor(b, c)))
    else if round == 2 then Xor(Xor(b, c), d)
    else Xor(c, Or(b, Not(d)))
  }

  lemma MacroIsFunction(round: nat, b: Word, c: Word, d: Word)
    ensures Macro(round, b, c, d) == RoundFunction(round, b, c, d)
  {
    var l, r := Macro(round, b, c, d), RoundFunction(round, b, c, d);
    assert forall i :: 0 <= i < 32 ==> l[i] == r[i];
  }

  /** The operations in the order of the source: word, shift and constant (lines 358-441). */
  datatype Op = Op(k: nat, s: nat, t: nat)

  const ROUND1: seq<Op> := [
    Op(0, 7, 0xd76aa478), Op(1, 12, 0xe8c7b756), Op(2, 17, 0x242070db), Op(3, 22, 0xc1bdceee),
    Op(4, 7, 0xf57c0faf), Op(5, 12, 0x4787c62a), Op(6, 17, 0xa8304613), Op(7, 22, 0xfd469501),
    Op(8, 7, 0x698098d8), Op(9, 12, 0x8b44f7af), Op(10, 17, 0xffff5bb1), Op(11, 22, 0x895cd7be),
    Op(12, 7, 0x6b901122), Op(13, 12, 0xfd987193), Op(14, 17, 0xa679438e), Op(15, 22, 0x49b40821)]
  const ROUND2: seq<Op> := [
    Op(1, 5, 0xf61e2562), Op(6, 9, 0xc040b340), Op(11, 14, 0x265e5a51), Op(0, 20, 0xe9b6c7aa),
    Op(5, 5, 0xd62f105d), Op(10, 9, 0x02441453), Op(15, 14, 0xd8a1e681), Op(4, 20, 0xe7d3fbc8),
    Op(9, 5, 0x21e1cde6), Op(14, 9, 0xc33707d6), Op(3, 14, 0xf4d50d87), Op(8, 20, 0x455a14ed),
    Op(13, 5, 0xa9e3e905), Op(2, 9, 0xfcefa3f8), Op(7, 14, 0x676f02d9), Op(12, 20, 0x8d2a4c8a)]
  const ROUND3: seq<Op> := [
    Op(5, 4, 0xfffa3942), Op(8, 11, 0x8771f681), Op(11, 16, 0x6d9d6122), Op(14, 23, 0xfde5380c),
    Op(1, 4, 0xa4beea44), Op(4, 11, 0x4bdecfa9), Op(7, 16, 0xf6bb4b60), Op(10, 23, 0xbebfbc70),
    Op(13, 4, 0x289b7ec6), Op(0, 11, 0xeaa127fa), Op(3, 16, 0xd4ef3085), Op(6, 23, 0x04881d05),
    Op(9, 4, 0xd9d4d039), Op(12, 11, 0xe6db99e5), Op(15, 16, 0x1fa27cf8), Op(2, 23, 0xc4ac5665)]
  const ROUND4: seq<Op> := [
    Op(0, 6, 0xf4292244), Op(7, 10, 0x432aff97), Op(14, 15, 0xab9423a7), Op(5, 21, 0xfc93a039),
    Op(12, 6, 0x655b59c3), Op(3, 10, 0x8f0ccc92), Op(10, 15, 0xffeff47d), Op(1, 21, 0x85845dd1),
    Op(8, 6, 0x6fa87e4f), Op(15, 10, 0xfe2ce6e0), Op(6, 15, 0xa3014314), Op(13, 21, 0x4e0811a1),
    Op(4, 6, 0xf7537e82), Op(11, 10, 0xbd3af235), Op(2, 15, 0x2ad7d2bb), Op(9, 21, 0xeb86d391)]

  function OpAt(i: nat): Op
    requires i < 64
  {
    if i < 16 then ROUND1[i] else if i < 32 then ROUND2[i - 16] else if i < 48 then ROUND3[i - 32] else ROUND4[i - 48]
  }

  /** The operations are those of the RFC. */
  lemma OpIs(i: nat)
    requires i < 64
    ensures OpAt(i) == Op(WordIndex(i), Shift(i), Sine(i))
  {
    if i < 16 { FirstRound(i); } else if i < 32 { SecondRound(i - 16); }
    else if i < 48 { ThirdRound(i - 32); } else { FourthRound(i - 48); }
  }

  lemma FirstRound(i: nat)
    requires i < 16
    ensures ROUND1[i] == Op(WordIndex(i), Shift(i), Sine(i))
  {
  }

  lemma SecondRound(i: nat)
    requires i < 16
    ensures ROUND2[i] == Op(WordIndex(i + 16), Shift(i + 16), Sine(i + 16))
  {
  }

  lemma ThirdRound(i: nat)
    requires i < 16
    ensures ROUND3[i] == Op(WordIndex(i + 32), Shift(i + 32), Sine(i + 32))
  {
  }

  lemma FourthRound(i: nat)
    requires i < 16
    ensures ROUND4[i] == Op(WordIndex(i + 48), Shift(i + 48), Sine(i + 48))
  {
  }

  function MacroOperation(r: Registers, x: seq<Word>, i: nat): Registers
    requires |x| == 16 && i < 64
  {
    var op := OpAt(i);
    OpIs(i);
    var a := Add(r.a, Add(Add(Macro(i / 16, r.b, r.c, r.d), x[op.k]), W(op.t)));
    Registers(r.d, Add(Or(ShiftLeft(a, op.s), ShiftRight(a, 32 - op.s)), r.b), r.b, r.c)
  }

  lemma AddCommutes(a: Word, b: Word)
    ensures Add(a, b) == Add(b, a)
  {
  }

  lemma AddAssociates(a: Word, b: Word, c: Word)
    ensures Add(Add(a, b), c) == Add(a, Add(b, c))
  {
    AddValue(a, b);
    AddValue(b, c);
    SumMod(Lsb(a) + Lsb(b), Lsb(c));
    SumMod(Lsb(b) + Lsb(c), Lsb(a));
  }

  lemma AddValue(a: Word, b: Word)
    ensures Lsb(Add(a, b)) == (Lsb(a) + Lsb(b)) % TWO32
  {
    WordBound(a);
    LsbToBits((Lsb(a) + Lsb(b)) % TWO32, 32);
  }

  lemma SumMod(m: nat, n: nat)
    ensures (m % TWO32 + n) % TWO32 == (m + n) % TWO32
  {
    var q, x := m / TWO32, m % TWO32 + n;
    DivIs(m + n, q + x / TWO32, x % TWO32);
  }

  lemma MacroOperationIs(r: Registers, x: seq<Word>, i: nat)
    requires |x| == 16 && i < 64
    ensures MacroOperation(r, x, i) == Operation(r, x, i)
  {
    hide Add, W, Or, ShiftLeft, ShiftRight, RotateLeft, RoundFunction, Macro, OpAt, WordIndex, Shift;
    OpIs(i);
    MacroIsFunction(i / 16, r.b, r.c, r.d);
    var f, w, t := Macro(i / 16, r.b, r.c, r.d), x[OpAt(i).k], W(OpAt(i).t);
    AddAssociates(r.a, f, w);
    AddAssociates(r.a, Add(f, w), t);
    var a := Add(r.a, Add(Add(f, w), t));
    ShiftsRotate(a, Shift(i));
    AddCommutes(RotateLeft(a, Shift(i)), r.b);
  }

  /** The two words are the number of bytes modulo 2^64. */
  ghost predicate Counts(total: (nat, nat), n: nat) {
    total.0 < TWO32 && total.1 < TWO32 && total.0 == n % TWO32 && total.1 == n / TWO32 % TWO32
  }

  lemma DivIs(n: nat, q: nat, r: nat)
    requires n == q * TWO32 + r && r < TWO32
    ensures n / TWO32 == q && n % TWO32 == r
  {
  }

  /** `total[0] += len; if (total[0] < len) ++total[1]` */
  function CountOn(total: (nat, nat), len: nat): (nat, nat) {
    var t := (total.0 + len) % TWO32;
    (t, if t < len then (total.1 + 1) % TWO32 else total.1)
  }

  lemma CountMore(total: (nat, nat), n: nat, len: nat)
    requires Counts(total, n) && len < TWO32
    ensures Counts(CountOn(total, len), n + len)
  {
    var total0 := total.0;
    var q, p := n / TWO32, n / TWO32 / TWO32;
    if total0 + len < TWO32 {
      DivIs(n + len, q, total0 + len);
      DivIs(total0 + len, 0, total0 + len);
    } else {
      DivIs(n + len, q + 1, total0 + len - TWO32);
      DivIs(total0 + len, 1, total0 + len - TWO32);
      NextMod(q);
    }
  }

  lemma NextMod(q: nat)
    ensures (q + 1) % TWO32 == (q % TWO32 + 1) % TWO32
  {
    var p, r := q / TWO32, q % TWO32;
    if r + 1 < TWO32 {
      DivIs(q + 1, p, r + 1);
      DivIs(r + 1, 0, r + 1);
    } else {
      DivIs(q + 1, p + 1, 0);
      DivIs(r + 1, 1, 0);
    }
  }

  /** The length in bits, as md5_finish_ctx puts it together (lines 121-122). */
  lemma CountBits(total: (nat, nat), n: nat)
    requires Counts(total, n)
    ensures total.0 * 8 % TWO32 == 8 * n % TWO32
    ensures (total.1 * 8 + total.0 / 0x2000_0000) % TWO32 == 8 * n / TWO32 % TWO32
  {
    var q, top := n / TWO32, total.0 / 0x2000_0000;
    var low := 8 * total.0 - top * TWO32;
    assert 0 <= low < TWO32;
    DivIs(8 * total.0, top, low);
    DivIs(8 * n, 8 * q + top, low);
    EightTimes(q, top);
  }

  lemma EightTimes(q: nat, top: nat)
    ensures (q % TWO32 * 8 + top) % TWO32 == (8 * q + top) % TWO32
  {
    var p, r := q / TWO32, q % TWO32;
    var x := 8 * r + top;
    DivIs(8 * q + top, 8 * p + x / TWO32, x % TWO32);
  }

  lemma BlocksNext(r: Registers, bytes: seq<Byte>)
    requires |bytes| >= 64
    ensures Blocks(r, bytes) == Blocks(Compress(r, bytes[..64]), bytes[64..])
  {
  }

  lemma BlocksNone(r: Registers, bytes: seq<Byte>)
    requires |bytes| < 64
    ensures Blocks(r, bytes) == r
  {
  }

  /** The body of the loop over the blocks (lines 319-448). */
  method DoOperations(r: Registers, block: seq<Byte>) returns (s: Registers)
    requires |block| == 64
    ensures s == Compress(r, block)
  {
    hide Operation, MacroOperation, WordsOf;
    var x := WordsOf(block);
    s := r;
    var i := 0;
    while i < 64
      invariant 0 <= i <= 64 && s == Operations(r, x, i)
    {
      MacroOperationIs(s, x, i);
      s := MacroOperation(s, x, i);
      i := i + 1;
    }
    s := Sum(s, r);
  }

  /** What the context is when `done` has gone through md5_process_block. */
  ghost predicate Took(regs: Registers, total: (nat, nat), done: seq<Byte>) {
    |done| % 64 == 0 && regs == Blocks(Init(), done) && Counts(total, |done|)
  }

  lemma SplitFront(done: seq<Byte>, s: seq<Byte>, front: seq<Byte>, rest: seq<Byte>)
    requires |front| <= |s| && front == s[..|front|] && rest == s[|front|..]
    ensures done + front + rest == done + s
  {
  }

  lemma TookCounts(regs: Registers, total: (nat, nat), done: seq<Byte>)
    requires Took(regs, total, done)
    ensures |done| % 64 == 0 && Counts(total, |done|)
  {
  }

  lemma TookBlocks(regs: Registers, total: (nat, nat), done: seq<Byte>, data: seq<Byte>)
    requires Took(regs, total, done) && |data| % 64 == 0 && |data| < TWO32
    ensures Took(Blocks(regs, data), CountOn(total, |data|), done + data)
  {
    hide Blocks, Counts, CountOn;
    BlocksConcat(Init(), done, data);
    CountMore(total, |done|, |data|);
    Mod64(|done|, |data|);
  }

  lemma Mod64(m: nat, n: nat)
    requires m % 64 == 0 && n % 64 == 0
    ensures (m + n) % 64 == 0
  {
  }

  // --------------------------------------------------------------------------- the context

  /** struct md5_ctx; `done` is what has gone through md5_process_block. */
  class Context {
    var regs: Registers
    var total: (nat, nat)
    var buflen: nat
    const buffer: array<Byte>
    ghost var done: seq<Byte>

    ghost predicate Valid()
      reads this, buffer
    {
      buffer.Length == 128 && buflen <= 64 && Took(regs, total, done)
    }

    /** Everything put in so far. */
    ghost function Message(): seq<Byte>
      requires buflen <= buffer.Length
      reads this, buffer
    {
      done + buffer[..buflen]
    }

    /** md5_init_ctx */
    constructor ()
      ensures Valid() && Message() == [] && fresh(buffer)
    {
      regs, total, buflen, done := Init(), (0, 0), 0, [];
      buffer := new Byte[128];
    }

    /** md5_process_block (lines 299-455). */
    method ProcessBlock(data: seq<Byte>)
      requires |data| % 64 == 0
      modifies `regs, `total
      ensures regs == Blocks(old(regs), data) && total == CountOn(old(total), |data|)
    {
      hide Blocks, Compress, Operations;
      total := CountOn(total, |data|);
      var words := 0;
      assert data[0..] == data;
      while words < |data|
        invariant 0 <= words <= |data| && words % 64 == 0
        invariant Blocks(old(regs), data) == Blocks(regs, data[words..])
        modifies `regs
      {
        BlocksNext(regs, data[words..]);
        var r := DoOperations(regs, data[words..words + 64]);
        assert data[words..][..64] == data[words..words + 64] && data[words..][64..] == data[words + 64..];
        regs := r;
        words := words + 64;
      }
      BlocksNone(regs, data[words..]);
    }

    /** Process the first `n` bytes of the buffer. */
    method ProcessBuffer(n: nat)
      requires buffer.Length == 128 && Took(regs, total, done) && n % 64 == 0 && n <= 128
      modifies `regs, `total, `done
      ensures Took(regs, total, done) && done == old(done) + buffer[..n]
    {
      hide Took, Blocks, CountOn;
      TookBlocks(regs, total, done, buffer[..n]);
      ProcessBlock(buffer[..n]);
      done := done + buffer[..n];
    }

    /** Put bytes behind those in the buffer and process `n` bytes of it; move the others to its front
        (lines 225-240, 269-281). */
    method Fill(data: seq<Byte>, n: nat)
      requires Valid() && buflen + |data| <= 128 && n % 64 == 0
      requires n <= buflen + |data| <= n + 64
      modifies this, buffer
      ensures Valid() && Message() == old(Message()) + data && buflen == old(buflen) + |data| - n
    {
      hide Took;
      var left := buflen + |data|;
      Put(buffer, buflen, data);
      if n > 0 {
        ProcessFront(n, left);
      }
      buflen := left - n;
    }

    method ProcessFront(n: nat, left: nat)
      requires buffer.Length == 128 && Took(regs, total, done) && n % 64 == 0 && n <= left <= 128
      modifies `regs, `total, `done, buffer
      ensures Took(regs, total, done) && done + buffer[..left - n] == old(done) + old(buffer[..left])
    {
      hide Took, Blocks;
      ghost var front := buffer[..n];
      var rest := buffer[n..left];
      SplitFront(done, buffer[..left], front, rest);
      ProcessBuffer(n);
      Put(buffer, 0, rest);
      assert buffer[..0] + rest == rest;
    }

    /** Whole blocks that do not go through the buffer (line 262). */
    method TakeBlocks(data: seq<Byte>)
      requires Valid() && buflen == 0 && |data| % 64 == 0 && |data| < TWO32
      modifies `regs, `total, `done
      ensures Valid() && Message() == old(Message()) + data
    {
      hide Took, Blocks, CountOn;
      TookBlocks(regs, total, done, data);
      ProcessBlock(data);
      done := done + data;
    }

    /** A block that is put into the buffer to be aligned (line 255). */
    method TakeCopy(data: seq<Byte>)
      requires Valid() && buflen == 0 && |data| == 64
      modifies this, buffer
      ensures Valid() && Message() == old(Message()) + data && buflen == 0
    {
      hide Took;
      Put(buffer, 0, data);
      assert buffer[..64] == data;
      ProcessBuffer(64);
    }

    /** md5_process_bytes (lines 218-283); whether the bytes are aligned is for the machine to say. */
    method ProcessBytes(data: seq<Byte>, unaligned: bool)
      requires Valid() && |data| < TWO32
      modifies this, buffer
      ensures Valid() && Message() == old(Message()) + data
    {
      hide Took;
      var rest := data;
      if buflen != 0 {
        var add := if 128 - buflen > |rest| then |rest| else 128 - buflen;
        Fill(rest[..add], if buflen + add > 64 then buflen + add - (buflen + add) % 64 else 0);
        rest := rest[add..];
        assert data == data[..add] + rest;
      }
      assert Message() + rest == old(Message()) + data;
      assert rest != [] ==> buflen == 0;
      rest := WholeBlocks(rest, unaligned);
      if |rest| > 0 {
        Fill(rest, if |rest| >= 64 then 64 else 0);
      } else {
        assert Message() + rest == Message();
      }
    }

    /** Lines 247-266: what is left is at most a block. */
    method WholeBlocks(data: seq<Byte>, unaligned: bool) returns (rest: seq<Byte>)
      requires Valid() && |data| < TWO32 && (data != [] ==> buflen == 0)
      modifies this, buffer
      ensures Valid() && |rest| <= 64 && (rest != [] ==> buflen == 0)
      ensures Message() + rest == old(Message()) + data
    {
      hide Took;
      rest := data;
      if |rest| >= 64 {
        if unaligned {
          while |rest| > 64
            invariant Valid() && buflen == 0 && Message() + rest == old(Message()) + data
            decreases |rest|
          {
            assert rest == rest[..64] + rest[64..];
            TakeCopy(rest[..64]);
            rest := rest[64..];
          }
        } else {
          var n := |rest| - |rest| % 64;
          assert rest == rest[..n] + rest[n..];
          TakeBlocks(rest[..n]);
          rest := rest[n..];
        }
      }
    }

    /** md5_finish_ctx (lines 109-130), and md5_read_ctx. */
    method Finish() returns (digest: seq<Byte>)
      requires Valid()
      modifies this, buffer
      ensures digest == Digest(old(Message()))
    {
      hide Took, Blocks, PadBytes, Output, Padding, CountOn, Digest, Counts, PadZeros;
      ghost var message := Message();
      var bytes := buflen;
      var size := if bytes < 56 then 64 else 128;
      ghost var before := total;
      total := CountOn(total, bytes);
      Put(buffer, bytes, PadBytes(size - 8 - bytes - 1, total.0 * 8 % TWO32,
                                  (total.1 * 8 + total.0 / 0x2000_0000) % TWO32));
      TookCounts(regs, before, done);
      PadSize(|done|, bytes);
      Filled(before, |done|, bytes, total, |message|);
      assert done + buffer[..size] == message + Padding(|message|);
      FinalBlocks(regs, before, done, buffer[..size], message);
      ProcessBlock(buffer[..size]);
      digest := Output(regs);
    }
  }

  /** What is put behind the bytes in the buffer is the padding. */
  lemma Filled(before: (nat, nat), done: nat, bytes: nat, total: (nat, nat), n: nat)
    requires Counts(before, done) && bytes < TWO32 && total == CountOn(before, bytes) && n == done + bytes
    ensures PadBytes(PadZeros(n), total.0 * 8 % TWO32, (total.1 * 8 + total.0 / 0x2000_0000) % TWO32) == Padding(n)
  {
    hide PadBytes, CountOn, Counts, PadZeros;
    CountEnd(before, done, bytes, total, n);
  }

  lemma CountEnd(before: (nat, nat), m: nat, len: nat, total: (nat, nat), n: nat)
    requires Counts(before, m) && len < TWO32 && total == CountOn(before, len) && n == m + len
    ensures total.0 * 8 % TWO32 == 8 * n % TWO32
    ensures (total.1 * 8 + total.0 / 0x2000_0000) % TWO32 == 8 * n / TWO32 % TWO32
  {
    hide CountOn, Counts;
    CountMore(before, m, len);
    CountBits(total, n);
  }

  lemma FinalBlocks(regs: Registers, before: (nat, nat), done: seq<Byte>, last: seq<Byte>, message: seq<Byte>)
    requires Took(regs, before, done) && done + last == message + Padding(|message|)
    ensures Output(Blocks(regs, last)) == Digest(message)
  {
    hide Blocks, Padding, Output;
    BlocksConcat(Init(), done, last);
  }

  /** The buffer is filled up as far as the padding goes. */
  lemma PadSize(done: nat, bytes: nat)
    requires done % 64 == 0 && bytes <= 64
    ensures bytes + PadZeros(done + bytes) + 9 == if bytes < 56 then 64 else 128
  {
    assert (done + bytes) % 64 == bytes % 64;
  }

  /** md5_buffer (lines 203-215). */
  method Md5Buffer(data: seq<Byte>, unaligned: bool) returns (digest: seq<Byte>)
    requires |data| < TWO32
    ensures digest == Digest(data)
  {
    hide Digest, Took;
    var ctx := new Context();
    ctx.ProcessBytes(data, unaligned);
    assert [] + data == data;
    digest := ctx.Finish();
  }

  /** md5_stream (lines 136-196), reading from a file without errors. */
  method Md5Stream(file: seq<Byte>, unaligned: bool) returns (digest: seq<Byte>)
    ensures digest == Digest(file)
  {
    hide Digest, Took;
    var ctx := new Context();
    var rest := file;
    while |rest| >= 4096
      invariant ctx.Valid() && fresh(ctx) && fresh(ctx.buffer) && ctx.buflen == 0
      invariant ctx.Message() + rest == file
    {
      assert rest == rest[..4096] + rest[4096..];
      ctx.TakeBlocks(rest[..4096]);
      rest := rest[4096..];
    }
    if |rest| > 0 {
      ctx.ProcessBytes(rest, unaligned);
    }
    assert ctx.Message() == file;
    digest := ctx.Finish();
  }

  /** Any message in any chunks (md5_process_bytes again and again, then md5_finish_ctx). */
  method Md5Chunks(chunks: seq<seq<Byte>>, unaligned: seq<bool>) returns (digest: seq<Byte>)
    requires |unaligned| == |chunks| && forall i :: 0 <= i < |chunks| ==> |chunks[i]| < TWO32
    ensures digest == Digest(Flat(chunks))
  {
    hide Digest, Took;
    var ctx := new Context();
    var i := 0;
    assert chunks[..0] == [];
    while i < |chunks|
      invariant 0 <= i <= |chunks| && ctx.Valid() && fresh(ctx) && fresh(ctx.buffer)
      invariant ctx.Message() == Flat(chunks[..i])
    {
      ctx.ProcessBytes(chunks[i], unaligned[i]);
      assert chunks[..i + 1][..i] == chunks[..i];
      i := i + 1;
    }
    assert chunks[..|chunks|] == chunks;
    digest := ctx.Finish();
  }

  /** memcpy into the buffer. */
  method Put(buffer: array<Byte>, at: nat, data: seq<Byte>)
    requires at + |data| <= buffer.Length
    modifies buffer
    ensures buffer[..at + |data|] == old(buffer[..at]) + data
  {
    forall i | 0 <= i < |data| {
      buffer[at + i] := data[i];
    }
  }
}
