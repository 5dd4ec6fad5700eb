/** The output window of src/opkg/libbb/unzip.c against byte-at-a-time LZ77 expansion. */
module Window {
  import opened BitStrings
  import opened Words
  import opened Crc32

  const WSIZE := 0x8000

  /** Section 3.2.3 of RFC 1951: `n` more bytes, each a copy of the one `distance` back. */
  function Expand(output: seq<Byte>, distance: nat, n: nat): (r: seq<Byte>)
    requires 1 <= distance <= |output|
    ensures |r| == |output| + n
    decreases n
  {
    if n == 0 then output
    else Expand(output + [output[|output| - distance]], distance, n - 1)
  }

  /** What was there stays, and every byte after it is the one `distance` before it. */
  lemma {:induction false} ExpandIs(output: seq<Byte>, distance: nat, n: nat)
    requires 1 <= distance <= |output|
    ensures output <= Expand(output, distance, n)
    ensures forall i :: |output| <= i < |output| + n ==>
              Expand(output, distance, n)[i] == Expand(output, distance, n)[i - distance]
    decreases n
  {
    if n > 0 {
      ExpandIs(output + [output[|output| - distance]], distance, n - 1);
    }
  }

  lemma {:induction false} ExpandTwice(o: seq<Byte>, distance: nat, m: nat, n: nat)
    requires 1 <= distance <= |o|
    ensures Expand(Expand(o, distance, m), distance, n) == Expand(o, distance, m + n)
    decreases m
  {
    if m > 0 {
      ExpandTwice(o + [o[|o| - distance]], distance, m - 1, n);
    }
  }

  /** A block copy is an expansion when the source is complete before the copy starts. */
  lemma {:induction false} ExpandBlock(o: seq<Byte>, distance: nat, n: nat)
    requires 1 <= distance <= |o| && n <= distance
    ensures Expand(o, distance, n) == o + o[|o| - distance..|o| - distance + n]
    decreases n
  {
    if n > 0 {
      var s := |o| - distance;
      ExpandBlock(o + [o[s]], distance, n - 1);
      OneMore(o, s, n);
    }
  }

  lemma OneMore(o: seq<Byte>, s: nat, n: nat)
    requires 0 < n && s + n <= |o|
    ensures (o + [o[s]]) + (o + [o[s]])[s + 1..s + n] == o + o[s..s + n]
  {
    assert (o + [o[s]])[s + 1..s + n] == o[s + 1..s + n];
    assert o[s..s + n] == [o[s]] + o[s + 1..s + n];
  }

  /** The window holds the bytes of `output` that are not in `file`, and behind them the last ones
      that are. */
  ghost predicate Ring(output: seq<Byte>, win: seq<Byte>, file: seq<Byte>, w: nat) {
    && w <= WSIZE <= |win| && output == file + win[..w]
    && (file == [] || (|file| >= WSIZE && win[w..WSIZE] == file[|file| - WSIZE + w..]))
  }

  /** The place in the window of the byte `distance` back. */
  function Source(w: nat, distance: nat): (d: nat)
    requires w < WSIZE && 1 <= distance <= WSIZE
    ensures d < WSIZE
  {
    if distance <= w then w - distance else w + WSIZE - distance
  }

  lemma RingRead(output: seq<Byte>, win: seq<Byte>, file: seq<Byte>, w: nat, distance: nat)
    requires Ring(output, win, file, w) && w < WSIZE && 1 <= distance <= WSIZE && distance <= |output|
    ensures win[Source(w, distance)] == output[|output| - distance]
  {
    if distance > w {
      assert win[w..WSIZE][WSIZE - distance] == win[w + WSIZE - distance];
    }
  }

  /** Writing a block that fits in what is left of the window. */
  lemma RingBlock(output: seq<Byte>, win: seq<Byte>, file: seq<Byte>, w: nat, block: seq<Byte>)
    requires Ring(output, win, file, w) && w + |block| <= WSIZE
    ensures Ring(output + block, win[..w] + block + win[w + |block|..], file, w + |block|)
  {
    var win' := win[..w] + block + win[w + |block|..];
    assert win'[..w + |block|] == win[..w] + block;
    assert win'[w + |block|..WSIZE] == win[w + |block|..WSIZE] == win[w..WSIZE][|block|..];
  }

  lemma RingWrite(output: seq<Byte>, win: seq<Byte>, file: seq<Byte>, w: nat, c: Byte)
    requires Ring(output, win, file, w) && w < WSIZE
    ensures Ring(output + [c], win[w := c], file, w + 1)
  {
    RingBlock(output, win, file, w, [c]);
    assert win[w := c] == win[..w] + [c] + win[w + 1..];
  }

  /** A full window goes to the file. */
  lemma RingFlush(output: seq<Byte>, win: seq<Byte>, file: seq<Byte>)
    requires Ring(output, win, file, WSIZE)
    ensures Ring(output, win, output, 0)
  {
    assert win[..WSIZE] == win[0..WSIZE];
  }

  /** A block read from the window, complete before the copy starts, is what expansion appends. */
  lemma BlockRead(output: seq<Byte>, win: seq<Byte>, file: seq<Byte>, w: nat, distance: nat, e: nat)
    requires Ring(output, win, file, w) && w < WSIZE && 1 <= distance <= WSIZE && distance <= |output|
    requires var d := Source(w, distance);
             d != w && d + e <= WSIZE && (d < w ==> d + e <= w)
    ensures var d := Source(w, distance); output + win[d..d + e] == Expand(output, distance, e)
  {
    var d, s := Source(w, distance), |output| - distance;
    ExpandBlock(output, distance, e);
    var source := win[d..d + e];
    forall i | 0 <= i < e
      ensures source[i] == output[s..s + e][i]
    {
      RingRead(output, win, file, w, distance - i);
    }
    assert source == output[s..s + e];
  }

  lemma TableSize(table: seq<Word>)
    requires IsTable(table)
    ensures |table| == 256
  {
  }

  /** The register after one more byte (line 145). */
  lemma FlushStep(table: seq<Word>, crc: Word, file: seq<Byte>, win: seq<Byte>, n: nat)
    requires IsTable(table) && n < |win| && crc == Crc(Ones(), file + win[..n])
    ensures var x := Xor(crc, WordOf(win[n]));
            && Lsb(x[..8]) < |table|
            && Xor(table[Lsb(x[..8])], ShiftRight(crc, 8)) == Crc(Ones(), file + win[..n + 1])
  {
    hide IsTable, Steps, Xor, ShiftRight, WordOf, Lsb;
    TableStep(table, crc, win[n]);
    TableSize(table);
    var s := file + win[..n + 1];
    assert s[..|s| - 1] == file + win[..n] && s[|s| - 1] == win[n];
  }

  /** What a copy of `e` bytes makes of the output, where the distance lies within it. */
  ghost predicate Copied(o: seq<Byte>, distance: nat, e: nat, output: seq<Byte>) {
    && |output| == |o| + e
    && (1 <= distance <= |o| ==> output == Expand(o, distance, e))
  }

  lemma CopiedNone(o: seq<Byte>, distance: nat)
    ensures Copied(o, distance, 0, o)
  {
  }

  lemma CopiedTwice(o: seq<Byte>, distance: nat, m: nat, o': seq<Byte>, n: nat, o'': seq<Byte>)
    requires Copied(o, distance, m, o') && Copied(o', distance, n, o'')
    ensures Copied(o, distance, m + n, o'')
  {
    if 1 <= distance <= |o| {
      ExpandTwice(o, distance, m, n);
    }
  }

  lemma CopiedByte(output: seq<Byte>, win: seq<Byte>, file: seq<Byte>, w: nat, distance: nat)
    requires Ring(output, win, file, w) && w < WSIZE && 1 <= distance <= WSIZE
    ensures Copied(output, distance, 1, output + [win[Source(w, distance)]])
  {
    if distance <= |output| {
      RingRead(output, win, file, w, distance);
      assert Expand(output, distance, 1) == output + [output[|output| - distance]];
    }
  }

  /** The array after memcpy of `n` bytes, when it reads its whole source first. */
  function Moved(win: seq<Byte>, to: nat, from: nat, n: nat): seq<Byte>
    requires to + n <= |win| && from + n <= |win|
  {
    win[..to] + win[from..from + n] + win[to + n..]
  }

  lemma CopiedBlock(output: seq<Byte>, win: seq<Byte>, file: seq<Byte>, w: nat, distance: nat, d: nat, e: nat)
    requires Ring(output, win, file, w) && w < WSIZE && 1 <= distance <= WSIZE && |win| >= WSIZE
    requires d == Source(w, distance) && d + e <= WSIZE && w + e <= WSIZE && (d > w || w - d >= e > 0)
    ensures Copied(output, distance, e, output + win[d..d + e])
    ensures Ring(output + win[d..d + e], Moved(win, w, d, e), file, w + e)
  {
    RingBlock(output, win, file, w, win[d..d + e]);
    if distance <= |output| {
      BlockRead(output, win, file, w, distance, e);
    }
  }

  /** The globals window, outcnt, crc, bytes_out and the output file; `output` is everything put out
      so far, whether it has reached the file or not. */
  class Output {
    const window: array<Byte>
    const table: seq<Word>
    var outcnt: nat
    var crc: Word
    var bytesOut: nat
    var file: seq<Byte>
    ghost var output: seq<Byte>

    ghost predicate Sound()
      reads this, window
    {
      && window.Length == 2 * WSIZE + 1 && IsTable(table)
      && bytesOut == |file| && crc == Crc(Ones(), file)
      && Ring(output, window[..], file, outcnt)
    }

    /** Between two writes: the window is not full. */
    ghost predicate Valid()
      reads this, window
    {
      Sound() && outcnt < WSIZE
    }

    /** unzip and inflate up to the first block (lines 113, 858-860, 928-930). */
    constructor ()
      ensures Valid() && fresh(window) && output == []
    {
      window := new Byte[2 * WSIZE + 1];
      outcnt, bytesOut, file, crc, output := 0, 0, [], Ones(), [];
      var t := MakeTable();
      table := t[..];
    }

    /** flush_window (lines 137-162), to a file that takes everything. */
    method Flush()
      requires Sound()
      modifies this
      ensures outcnt == 0 && bytesOut == |file| && crc == Crc(Ones(), file)
      ensures file == output == old(output)
    {
      assert outcnt <= WSIZE;
      if outcnt == 0 {
        return;
      }
      var n := 0;
      assert file + window[..0] == file;
      while n < outcnt
        invariant 0 <= n <= outcnt && crc == Crc(Ones(), file + window[..n])
        modifies `crc
      {
        FlushStep(table, crc, file, window[..], n);
        assert window[..][..n + 1] == window[..n + 1] && window[..][..n] == window[..n];
        crc := Xor(table[Lsb(Xor(crc, WordOf(window[n]))[..8])], ShiftRight(crc, 8));
        n := n + 1;
      }
      file := file + window[..outcnt];
      bytesOut := bytesOut + outcnt;
      outcnt := 0;
      assert file == output;
    }

    /** What follows every write to the window (lines 411-415, 473-477, 592-596). */
    method FlushIfFull()
      requires Sound()
      modifies this
      ensures Valid() && output == old(output)
      ensures outcnt == if old(outcnt) == WSIZE then 0 else old(outcnt)
    {
      if outcnt == WSIZE {
        RingFlush(output, window[..], file);
        Flush();
        outcnt := 0;
      }
    }

    /** Put out a literal or a stored byte (lines 410-415, 591-596). */
    method Put(c: Byte)
      requires Valid()
      modifies this, window
      ensures Valid() && output == old(output) + [c]
    {
      PutByte(c);
      FlushIfFull();
    }

    method PutByte(c: Byte)
      requires Valid()
      modifies `outcnt, `output, window
      ensures Sound() && outcnt == old(outcnt) + 1 && output == old(output) + [c]
    {
      RingWrite(output, window[..], file, outcnt, c);
      ghost var win := window[..];
      window[outcnt] := c;
      assert window[..] == win[outcnt := c];
      outcnt := outcnt + 1;
      output := output + [c];
    }

    /** Copy a match (lines 461-478).  memcpy is taken to read its whole source before it writes. */
    method Copy(distance: nat, length: nat)
      requires Valid() && 1 <= distance <= WSIZE && 1 <= length
      modifies this, window
      ensures Valid() && Copied(old(output), distance, length, output)
    {
      hide Ring, IsTable, Copied;
      CopiedNone(output, distance);
      ghost var o := output;
      var n, d: int := length, outcnt - distance;
      assert Mask(d) == Source(outcnt, distance);
      while n > 0
        invariant 0 <= n <= length && Valid()
        invariant Copied(o, distance, length - n, output)
        invariant Mask(d) == Source(outcnt, distance)
        decreases n
      {
        ghost var before := output;
        var e;
        d, e := CopyPart(distance, d, n);
        CopiedTwice(o, distance, length - n, before, e, output);
        n := n - e;
      }
    }

    /** What can be copied before the end of the window, for the source or for the destination. */
    method CopyPart(distance: nat, d0: int, n: nat) returns (d: int, e: nat)
      requires Valid() && 1 <= distance <= WSIZE && 1 <= n && Mask(d0) == Source(outcnt, distance)
      modifies this, window
      ensures Valid() && 1 <= e <= n && Copied(old(output), distance, e, output)
      ensures Mask(d) == Source(outcnt, distance)
    {
      hide Ring, IsTable, Copied;
      d := Mask(d0);
      e := WSIZE - if d > outcnt then d else outcnt;
      if e > n {
        e := n;
      }
      MaskStep(outcnt, distance, e);
      if d > outcnt || outcnt - d >= e {
        CopyBlock(distance, d, e);
      } else {
        CopyBytes(distance, d, e);
      }
      d := d + e;
      FlushIfFull();
    }

    /** The branch of memcpy (lines 464-467). */
    method CopyBlock(distance: nat, d: nat, e: nat)
      requires Valid() && 1 <= distance <= WSIZE && d == Source(outcnt, distance)
      requires 0 < e && outcnt + e <= WSIZE && d + e <= WSIZE && (d > outcnt || outcnt - d >= e)
      modifies `outcnt, `output, window
      ensures Sound() && outcnt == old(outcnt) + e && Copied(old(output), distance, e, output)
    {
      CopiedBlock(output, window[..], file, outcnt, distance, d, e);
      ghost var block := window[..][d..d + e];
      MemCopy(window, outcnt, d, e);
      outcnt := outcnt + e;
      output := output + block;
    }

    method CopyByte(distance: nat, d: nat)
      requires Valid() && 1 <= distance <= WSIZE && d == Source(outcnt, distance)
      modifies `outcnt, `output, window
      ensures Sound() && outcnt == old(outcnt) + 1 && Copied(old(output), distance, 1, output)
    {
      CopiedByte(output, window[..], file, outcnt, distance);
      PutByte(window[d]);
    }

    /** The slow loop (lines 470-472): the source may run into the copy. */
    method CopyBytes(distance: nat, d0: nat, e: nat)
      requires Valid() && 1 <= distance <= WSIZE && d0 == Source(outcnt, distance)
      requires 0 < e && outcnt + e <= WSIZE && d0 <= outcnt
      modifies `outcnt, `output, window
      ensures Sound() && outcnt == old(outcnt) + e && Copied(old(output), distance, e, output)
    {
      ghost var o := output;
      var d, m := d0, e;
      CopiedNone(o, distance);
      hide Copied, Expand;
      while m > 0
        invariant 0 <= m <= e && Sound() && outcnt + m == old(outcnt) + e && d + m == d0 + e
        invariant Copied(o, distance, e - m, output)
        decreases m
      {
        ghost var now := output;
        CopyByte(distance, d);
        CopiedTwice(o, distance, e - m, now, 1, output);
        d, m := d + 1, m - 1;
      }
    }
  }

  /** `d &= WSIZE - 1`, on an unsigned `d` */
  function Mask(d: int): (m: nat)
    ensures m < WSIZE
  {
    d % WSIZE
  }

  lemma MaskStep(w: nat, distance: nat, e: nat)
    requires w < WSIZE && 1 <= distance <= WSIZE && w + e <= WSIZE && Source(w, distance) + e <= WSIZE
    ensures Mask(Source(w, distance) + e) == Source(if w + e == WSIZE then 0 else w + e, distance)
  {
  }

  method MemCopy(a: array<Byte>, to: nat, from: nat, n: nat)
    requires to + n <= a.Length && from + n <= a.Length
    modifies a
    ensures a[..] == Moved(old(a[..]), to, from, n)
  {
    forall i | 0 <= i < n {
      a[to + i] := a[from + i];
    }
  }

  /** crc starts as 0xffffffff (line 113). */
  function Ones(): Word { seq(32, _ => true) }

  lemma OnesIs()
    ensures Lsb(Ones()) == 0xffff_ffff
  {
    AllSet(Ones());
    WordBound(Ones());
  }

  lemma {:induction false} AllSet(b: Bits)
    requires forall i :: 0 <= i < |b| ==> b[i]
    ensures Lsb(b) + 1 == Pow2(|b|)
  {
    if b != [] {
      AllSet(b[1..]);
    }
  }
}
