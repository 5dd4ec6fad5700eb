/** The bit buffer of src/opkg/libbb/unzip.c: bytes of the file enter at the top of `bb`, bits leave
    at the bottom. */
module BitReader {
  import opened BitStrings

  /** The bits of `data` from byte `pos` on (section 3.1.1 of RFC 1951). */
  ghost function BitsFrom(data: seq<Byte>, pos: nat): (b: Bits)
    requires pos <= |data|
    ensures |b| == 8 * (|data| - pos)
    decreases |data| - pos
  {
    if pos == |data| then [] else ToBits(data[pos], 8) + BitsFrom(data, pos + 1)
  }

  /** The buffer holds the first `bk` bits of the stream, and the file the rest. */
  ghost predicate Holds(data: seq<Byte>, pos: nat, bb: nat, bk: nat, stream: Bits) {
    && pos <= |data| && bk <= |stream| && bk <= MAX_BITS && bk <= 8 * pos
    && bb == Lsb(stream[..bk]) && stream[bk..] == BitsFrom(data, pos)
  }

  const MAX_BITS := 31

  lemma LoadByte(data: seq<Byte>, pos: nat, bb: nat, bk: nat, stream: Bits)
    requires Holds(data, pos, bb, bk, stream) && bk < |stream| && bk + 8 <= MAX_BITS
    ensures pos < |data| && Holds(data, pos + 1, bb + Scale(data[pos], bk), bk + 8, stream)
  {
    var low, byte := stream[..bk], ToBits(data[pos], 8);
    assert Pow2(8) == 256;
    LsbToBits(data[pos], 8);
    LsbConcat(low, byte);
    assert stream == low + stream[bk..];
    assert stream[..bk + 8] == low + byte;
    assert stream[bk + 8..] == stream[bk..][8..] == BitsFrom(data, pos + 1);
  }

  lemma DropBits(data: seq<Byte>, pos: nat, bb: nat, bk: nat, stream: Bits, n: nat)
    requires Holds(data, pos, bb, bk, stream) && n <= bk
    ensures Low(bb, n) == Lsb(stream[..n])
    ensures Holds(data, pos, Shr(bb, n), bk - n, stream[n..])
  {
    var low := stream[..bk];
    LsbSplit(low, n);
    assert low[..n] == stream[..n];
    assert low[n..] == stream[n..][..bk - n];
    assert stream[n..][bk - n..] == stream[bk..];
  }

  /** The bits in the buffer, of `total` bits not yet taken, when `n` are asked for: whole bytes come in. */
  function Fill(held: int, n: int, total: int): int { if held >= n then held else n + (total - n) % 8 }

  /** Those left when `n` have been taken. */
  function Taken(held: int, n: int, total: int): int { Fill(held, n, total) - n }

  /** The byte that `ungetc(bb << k)` puts back. */
  function PutBack(bb: nat, k: nat): (c: Byte)
  {
    LowBound(Scale(bb, k), 8);
    Low(Scale(bb, k), 8)
  }

  lemma {:induction false} LowBound(n: nat, m: nat)
    ensures Low(n, m) < Pow2(m)
  {
    if m > 0 {
      LowBound(n / 2, m - 1);
    }
  }

  /** What the reads that follow are given: the bytes put back, the last one first, and then the file. */
  function ReadOn(data: seq<Byte>, pos: nat, bb: nat, bk: nat): seq<Byte>
    requires pos <= |data|
  {
    seq(bk / 8, i requires 0 <= i => PutBack(bb, bk % 8 + 8 * i)) + data[pos..]
  }

  /** What they should be given: the bytes behind the one in which the stream has ended. */
  function Behind(data: seq<Byte>, stream: Bits): (b: seq<Byte>)
    requires |stream| / 8 <= |data|
    ensures |b| == |stream| / 8
  {
    data[|data| - |stream| / 8..]
  }

  /** They are given it when no whole byte is left in the buffer.  Otherwise the bits behind the end of the
      stream have been shifted the wrong way: the first byte must be what comes of it all the same, and the
      others, of which nothing is left, must be 0. */
  ghost predicate LuckyBytes(data: seq<Byte>, stream: Bits, bk: nat)
    requires bk <= |stream| && |stream| / 8 <= |data|
  {
    bk >= 8 ==>
      && Scale(Lsb(stream[..8 - bk % 8]), bk % 8) == Behind(data, stream)[0]
      && forall i :: 1 <= i < bk / 8 ==> Behind(data, stream)[i] == 0
  }

  lemma PutBackIs(stream: Bits, bk: nat, k: nat)
    requires bk <= |stream| && (k < 8 ==> bk + k >= 8)
    ensures PutBack(Lsb(stream[..bk]), k) == if k < 8 then Scale(Lsb(stream[..8 - k]), k) else 0
  {
    var z, low := Zeros(k), stream[..bk];
    LsbZeros(z);
    LsbConcat(z, low);
    LsbZeros(Zeros(8));
    LsbSplit(z + low, 8);
    if k < 8 {
      assert (z + low)[..8] == z + stream[..8 - k];
      LsbConcat(z, stream[..8 - k]);
    } else {
      assert (z + low)[..8] == Zeros(8);
    }
  }

  lemma LeftInBuffer(data: seq<Byte>, pos: nat, bb: nat, bk: nat, stream: Bits)
    requires Holds(data, pos, bb, bk, stream)
    ensures pos <= |data| && |stream| == bk + 8 * (|data| - pos) && bk % 8 == |stream| % 8
  {
    assert |stream| == bk + |stream[bk..]|;
  }

  lemma FillIs(held: nat, n: nat, total: nat)
    requires n <= held < n + 8 && held % 8 == total % 8
    ensures held == n + (total - n) % 8
  {
  }

  lemma ReadOnRight(data: seq<Byte>, pos: nat, bb: nat, bk: nat, stream: Bits)
    requires Holds(data, pos, bb, bk, stream)
    ensures pos <= |data| && |stream| / 8 <= |data| && |ReadOn(data, pos, bb, bk)| == |stream| / 8
    ensures ReadOn(data, pos, bb, bk) == Behind(data, stream) <==> LuckyBytes(data, stream, bk)
  {
    LeftInBuffer(data, pos, bb, bk, stream);
    hide Holds, BitsFrom, PutBack;
    var next, right, n := ReadOn(data, pos, bb, bk), Behind(data, stream), bk / 8;
    assert next[n..] == right[n..];
    forall i | 0 <= i < n
      ensures next[i] == if i == 0 then Scale(Lsb(stream[..8 - bk % 8]), bk % 8) else 0
    {
      PutBackIs(stream, bk, bk % 8 + 8 * i);
    }
    if LuckyBytes(data, stream, bk) {
      assert forall i :: 0 <= i < n ==> next[i] == right[i];
      assert next == next[..n] + next[n..] && right == right[..n] + right[n..];
      assert next[..n] == right[..n];
    }
  }

  /** What fgetc gives at the end of the file is -1, which puts ones above the bits that are there: seven
      bytes of it are more than the last symbol of a file can look at. */
  const AT_END: seq<Byte> := [255, 255, 255, 255, 255, 255, 255]

  /** The input file, the end of it included, and the globals bb and bk; `stream` is every bit not yet
      taken. */
  class Input {
    const data: seq<Byte>
    var pos: nat
    var bb: nat
    var bk: nat
    ghost var stream: Bits

    ghost predicate Valid()
      reads this
    {
      Holds(data, pos, bb, bk, stream)
    }

    constructor (file: seq<Byte>)
      ensures Valid() && data == file + AT_END && stream == BitsFrom(data, 0) && bk == 0
    {
      data, pos, bb, bk, stream := file + AT_END, 0, 0, 0, BitsFrom(file + AT_END, 0);
    }

    /** Whether there are `n` bits more: where there are not, the model stops; the source would go on
        taking ones for data. */
    predicate Has(n: nat)
      requires Valid()
      reads this
      ensures Has(n) <==> n <= |stream|
    {
      n <= bk + 8 * (|data| - pos)
    }

    /** `while (k < n) b |= fgetc << k, k += 8` */
    method Need(n: nat)
      requires Valid() && n <= |stream| && n <= MAX_BITS - 7
      modifies this
      ensures Valid() && stream == old(stream) && n <= bk == Fill(old(bk), n, |stream|)
    {
      hide Holds, Scale;
      LeftInBuffer(data, pos, bb, bk, stream);
      while bk < n
        invariant Valid() && stream == old(stream)
        invariant bk == old(bk) || bk < n + 8
        invariant old(bk) >= n ==> bk == old(bk)
        decreases n - bk
      {
        LoadByte(data, pos, bb, bk, stream);
        bb := bb + Scale(data[pos], bk);
        pos := pos + 1;
        bk := bk + 8;
      }
      LeftInBuffer(data, pos, bb, bk, stream);
      if old(bk) < n {
        FillIs(bk, n, |stream|);
      }
    }

    /** `b & mask_bits[n]` */
    function Peek(n: nat): (v: nat)
      requires Valid() && n <= bk
      reads this
      ensures v == Lsb(stream[..n])
    {
      DropBits(data, pos, bb, bk, stream, n);
      Low(bb, n)
    }

    /** `b >>= n, k -= n` */
    method Drop(n: nat)
      requires Valid() && n <= bk
      modifies this
      ensures Valid() && stream == old(stream)[n..] && bk == old(bk) - n
    {
      DropBits(data, pos, bb, bk, stream, n);
      bb := Shr(bb, n);
      bk := bk - n;
      stream := stream[n..];
    }

    /** The next `n` bits as a number. */
    method Take(n: nat) returns (v: nat)
      requires Valid() && n <= |stream| && n <= MAX_BITS - 7
      modifies this
      ensures Valid() && v == Lsb(old(stream)[..n]) && stream == old(stream)[n..]
      ensures bk == Taken(old(bk), n, |old(stream)|)
    {
      Need(n);
      v := Peek(n);
      Drop(n);
    }

    /** Put back the bytes that are whole in the buffer (lines 873-878); `next` is what is read then. */
    method GiveBack() returns (next: seq<Byte>)
      requires Valid()
      modifies `bk
      ensures |stream| / 8 <= |data| && |next| == |stream| / 8 && bk == old(bk) % 8
      ensures next == Behind(data, stream) <==> LuckyBytes(data, stream, old(bk))
    {
      hide Holds, PutBack, LuckyBytes, Behind;
      ReadOnRight(data, pos, bb, bk, stream);
      next := data[pos..];
      while bk >= 8
        invariant 0 <= bk <= old(bk) && bk % 8 == old(bk) % 8
        invariant next == ReadOn(data, pos, bb, old(bk))[bk / 8..]
      {
        bk := bk - 8;
        next := [PutBack(bb, bk)] + next;
      }
    }

    /** Go to a byte boundary (lines 563-565). */
    method Align()
      requires Valid()
      modifies this
      ensures Valid() && stream == old(stream)[|old(stream)| % 8..] && bk == old(bk) - old(bk) % 8
    {
      hide Holds;
      LeftInBuffer(data, pos, bb, bk, stream);
      Drop(bk % 8);
    }
  }
}
