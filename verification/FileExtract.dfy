/** Extraction by unsquashfs: the pieces of a file, and the writer that leaves out its holes. */
module FileExtract {
  import opened BitStrings
  import opened Squashfs
  import opened FileStore

  /** A file_entry: a hole, or part of a block in the cache. */
  datatype Piece = Hole(size: nat) | Data(buffer: seq<Byte>, offset: nat, size: nat)

  predicate PieceOk(p: Piece) { p.Data? ==> p.offset + p.size <= |p.buffer| }

  function PieceBytes(p: Piece): (b: seq<Byte>)
    requires PieceOk(p)
    ensures |b| == p.size
  {
    match p
    case Hole(size) => ZeroBytes(size)
    case Data(buffer, offset, size) => buffer[offset..offset + size]
  }

  predicate PiecesOk(ps: seq<Piece>) { forall i :: 0 <= i < |ps| ==> PieceOk(ps[i]) }

  /** What the pieces come to. */
  function Contents(ps: seq<Piece>): seq<Byte>
    requires PiecesOk(ps)
  {
    if ps == [] then [] else Contents(ps[..|ps| - 1]) + PieceBytes(ps[|ps| - 1])
  }

  lemma ContentsAppend(ps: seq<Piece>, p: Piece)
    requires PiecesOk(ps) && PieceOk(p)
    ensures PiecesOk(ps + [p]) && Contents(ps + [p]) == Contents(ps) + PieceBytes(p)
  {
    assert (ps + [p])[..|ps|] == ps;
  }

  lemma NoContents(ps: seq<Piece>)
    ensures PiecesOk(ps[..0]) && Contents(ps[..0]) == [] && ps[..0] == []
  {
  }

  // -------------------------------------------------------------------------- the output file

  lemma ZerosAppend(s: seq<Byte>, m: nat, n: nat)
    ensures s + ZeroBytes(m) + ZeroBytes(n) == s + ZeroBytes(m + n)
    ensures s + ZeroBytes(0) == s
  {
  }

  /** A file open for writing: what is written past its end leaves zeros, and seeking past its end may
      not be possible. */
  class OutFile {
    const seekable: bool
    var content: seq<Byte>
    var pos: nat

    constructor (seekable: bool)
      ensures content == [] && pos == 0 && this.seekable == seekable
    {
      this.seekable, content, pos := seekable, [], 0;
    }

    method WriteBytes(b: seq<Byte>)
      requires pos >= |content|
      modifies this
      ensures content == old(content) + ZeroBytes(old(pos) - |old(content)|) + b && pos == |content|
    {
      content := content + ZeroBytes(pos - |content|) + b;
      pos := |content|;
    }

    method Seek(n: nat) returns (ok: bool)
      modifies `pos
      ensures ok == seekable && pos == if ok then old(pos) + n else old(pos)
    {
      ok := seekable;
      if ok {
        pos := pos + n;
      }
    }

    method Truncate(size: nat)
      requires |content| <= size
      modifies `content
      ensures content == old(content) + ZeroBytes(size - |old(content)|)
    {
      content := content + ZeroBytes(size - |content|);
    }
  }

  // ------------------------------------------------------------------------------ the writer

  /** write_block and writer (unsquashfs.c:748-787, 1648-1737) for one file; `lseekBroken` outlives it. */
  class FileWriter {
    const blockSize: nat
    var lseekBroken: bool

    constructor (blockSize: nat)
      requires blockSize > 0
      ensures this.blockSize == blockSize && fresh(this)
    {
      this.blockSize, lseekBroken := blockSize, false;
    }

    /** Lines 767-777. */
    method WriteZeros(out: OutFile, hole: nat)
      requires blockSize > 0 && out.pos == |out.content|
      modifies out
      ensures out.pos == |out.content| && out.content == old(out.content) + ZeroBytes(hole)
    {
      var left: nat := hole;
      var blocks := Ceiling(hole, blockSize);
      var i := 0;
      if hole == 0 {
        DivSmall(blockSize - 1, blockSize);
      }
      ZerosAppend(out.content, 0, 0);
      while i < blocks
        invariant 0 <= i <= blocks && left <= hole && blocks == i + Ceiling(left, blockSize)
        invariant out.pos == |out.content| && out.content == old(out.content) + ZeroBytes(hole - left)
      {
        if left == 0 {
          DivSmall(blockSize - 1, blockSize);
        } else {
          CeilingNext(left, blockSize);
        }
        var avail: nat := if left > blockSize then blockSize else left;
        ZerosAppend(old(out.content), hole - left, avail);
        ZerosAppend(out.content, 0, 0);
        out.WriteBytes(ZeroBytes(avail));
        left := left - avail;
        i := i + 1;
        if left == 0 {
          DivSmall(blockSize - 1, blockSize);
        }
      }
      CeilingZero(left, blockSize);
    }

    /** write_block */
    method WriteBlock(out: OutFile, buffer: seq<Byte>, hole: nat, sparse: bool)
      requires blockSize > 0 && out.pos == |out.content|
      modifies this, out
      ensures out.pos == |out.content| && out.content == old(out.content) + ZeroBytes(hole) + buffer
    {
      ZerosAppend(out.content, 0, 0);
      if hole > 0 {
        if sparse && !lseekBroken {
          var ok := out.Seek(hole);
          if !ok {
            lseekBroken := true;
          }
        }
        if !sparse || lseekBroken {
          WriteZeros(out, hole);
        }
      }
      ZerosAppend(out.content, 0, 0);
      out.WriteBytes(buffer);
    }

    /** writer */
    method WritePieces(out: OutFile, pieces: seq<Piece>, fileSize: nat, sparse: bool)
      requires blockSize > 0 && out.pos == 0 && out.content == []
      requires PiecesOk(pieces) && |Contents(pieces)| == fileSize
      modifies this, out
      ensures out.content == Contents(pieces)
    {
      hide Contents;
      var hole: nat, i := 0, 0;
      NoContents(pieces);
      while i < |pieces|
        invariant 0 <= i <= |pieces| && out.pos == |out.content|
        invariant Contents(pieces[..i]) == out.content + ZeroBytes(hole)
      {
        var p := pieces[i];
        assert pieces[..i + 1] == pieces[..i] + [p];
        ContentsAppend(pieces[..i], p);
        if p.Hole? {
          ZerosAppend(out.content, hole, p.size);
          hole := hole + p.size;
        } else {
          WriteBlock(out, p.buffer[p.offset..p.offset + p.size], hole, sparse);
          ZerosAppend(out.content, 0, 0);
          hole := 0;
        }
        i := i + 1;
      }
      assert pieces[..|pieces|] == pieces;
      ZerosAppend(out.content, 0, 0);
      if hole > 0 {
        WriteLastHole(out, hole, fileSize, sparse);
      }
    }

    /** The hole at the end of a file (lines 1699-1723). */
    method WriteLastHole(out: OutFile, hole: nat, fileSize: nat, sparse: bool)
      requires blockSize > 0 && hole > 0 && out.pos == |out.content| && fileSize == |out.content| + hole
      modifies this, out
      ensures out.content == old(out.content) + ZeroBytes(hole)
    {
      var sought := false;
      if sparse {
        sought := out.Seek(hole);
      }
      if !sought {
        WriteBlock(out, [0], hole - 1, sparse);
        assert [0] == ZeroBytes(1);
        ZerosAppend(old(out.content), hole - 1, 1);
      } else {
        out.Truncate(fileSize);
      }
    }
  }

  lemma CeilingZero(n: nat, b: nat)
    requires b > 0 && Ceiling(n, b) == 0
    ensures n == 0
  {
    if n > 0 {
      CeilingNext(n, b);
    }
  }

  // ----------------------------------------------------------------------- reading the inode

  /** How many bytes the fragment has (unsquash-4.c:146-147). */
  function FragmentBytes(i: Inode, bs: nat): nat
    requires bs > 0
  {
    if i.fragment.NoFragment? then 0 else i.size % bs
  }

  /** What is still to come of a file when block `i` is next: the blocks of `rest`, and a tail of `tail`
      bytes in a fragment. */
  ghost predicate Coming(c: Codec, bs: nat, image: seq<Byte>, pos: nat, words: seq<nat>, rest: seq<Byte>, tail: nat,
                         i: nat, size: nat) {
    && bs > 0 && Blocks(c, bs, image, pos, words, rest) && (tail == 0 || tail == size % bs)
    && (words != [] ==> i + (|rest| + tail) / bs == size / bs && (|rest| + tail) % bs == size % bs)
  }

  /** The size that write_file gives a block is that of its data (line 842). */
  lemma NextSize(c: Codec, bs: nat, image: seq<Byte>, pos: nat, words: seq<nat>, rest: seq<Byte>, tail: nat,
                 i: nat, size: nat)
    requires Coming(c, bs, image, pos, words, rest, tail, i, size) && words != []
    ensures var n := if i == size / bs then size % bs else bs;
            && n <= |rest| && BlockIs(c, image, pos, words[0], rest[..n])
            && Coming(c, bs, image, pos + SizeBlock(words[0]), words[1..], rest[n..], tail, i + 1, size)
  {
    var r := |rest| + tail;
    if r < bs {
      DivSmall(r, bs);
      assert tail == 0;
      assert rest[|rest|..] == [];
    } else {
      DivNext(r, bs);
      if |rest| < bs {
        DivSmall(tail, bs);
        RestWhole(r, bs, tail);
      }
    }
  }

  /** A rest shorter than a block cannot come before a tail. */
  lemma RestWhole(r: nat, bs: nat, tail: nat)
    requires 0 < bs <= r < bs + tail && tail < bs
    ensures r % bs < tail
  {
    DivNext(r, bs);
    DivSmall(r - bs, bs);
  }

  /** cache_get and what reading and uncompressing the block comes to: unsquashfs.c:629-663 and the
      threads that do it. */
  function ReadData(c: Codec, image: seq<Byte>, pos: nat, word: nat): (d: seq<Byte>) {
    if pos + SizeBlock(word) > |image| then []
    else Unmangle(c, Packed(word / COMPRESSED_BIT_BLOCK % 2 == 1, image[pos..pos + SizeBlock(word)]))
  }

  lemma HoleBytes(data: seq<Byte>)
    requires AllZero(data)
    ensures data == ZeroBytes(|data|)
  {
  }

  /** The table leads to the fragment blocks. */
  ghost predicate TableOf(c: Codec, image: seq<Byte>, entries: seq<FragEntry>, fragments: seq<seq<Byte>>) {
    |entries| == |fragments| &&
    forall k :: 0 <= k < |entries| ==> EntryIs(c, image, entries[k], fragments[k])
  }

  /** write_file (unsquashfs.c:790-870): what it queues for the writer is the file. */
  method WriteFile(c: Codec, bs: nat, image: seq<Byte>, entries: seq<FragEntry>, inode: Inode,
                   ghost fragments: seq<seq<Byte>>, ghost data: seq<Byte>)
    returns (pieces: seq<Piece>)
    requires bs > 0 && inode.size == |data| && Represents(c, bs, image, fragments, inode, data)
    requires TableOf(c, image, entries, fragments)
    ensures PiecesOk(pieces) && Contents(pieces) == data
  {
    hide Represents, Coming, Contents, BlockIs, TableOf, EntryIs, Unmangle, BlockCount, FragmentBytes, Whole, AsRead;
    CountAgrees(c, bs, image, fragments, inode, data);
    ghost var tail: nat, all := FragmentBytes(inode, bs), Whole(inode, bs, data);
    ghost var rest := all;
    StartComing(c, bs, image, fragments, inode, data);
    pieces := [];
    NoContents(pieces);
    var fileEnd, start: nat, i: nat := inode.size / bs, inode.start, 0;
    while i < BlockCount(inode, bs)
      invariant 0 <= i <= |inode.words| && PiecesOk(pieces) && all == Contents(pieces) + rest
      invariant Coming(c, bs, image, start, inode.words[i..], rest, tail, i, inode.size)
    {
      var word := inode.words[i];
      var size: nat := if i == fileEnd then inode.size % bs else bs;
      NextSize(c, bs, image, start, inode.words[i..], rest, tail, i, inode.size);
      assert inode.words[i..][1..] == inode.words[i + 1..];
      var p := NextPiece(c, image, start, word, size, rest[..size]);
      ContentsAppend(pieces, p);
      Move(Contents(pieces), rest, size);
      pieces := pieces + [p];
      rest := rest[size..];
      start := start + SizeBlock(word);
      i := i + 1;
    }
    NoneComing(c, bs, image, start, inode.words[i..], rest, tail, i, inode.size);
    if FragmentBytes(inode, bs) > 0 {
      TailPiece(c, bs, image, fragments, inode, data);
      TableReads(c, image, entries, fragments, inode.fragment.index);
      var e := entries[inode.fragment.index];
      var p := Data(ReadData(c, image, e.start, e.word), inode.fragment.offset, FragmentBytes(inode, bs));
      ContentsAppend(pieces, p);
      pieces := pieces + [p];
    }
  }

  /** The part of a file that is not in a fragment. */
  ghost function Whole(inode: Inode, bs: nat, data: seq<Byte>): (all: seq<Byte>)
    requires bs > 0 && inode.size == |data|
    ensures FragmentBytes(inode, bs) == 0 ==> all == data
  {
    data[..|data| - FragmentBytes(inode, bs)]
  }

  lemma WholeAndTail(i: Inode, bs: nat, data: seq<Byte>)
    requires bs > 0 && i.size == |data|
    ensures FragmentBytes(i, bs) <= |data| && |Whole(i, bs, data)| + FragmentBytes(i, bs) == i.size
    ensures Whole(i, bs, data) + data[|data| - FragmentBytes(i, bs)..] == data
  {
  }

  lemma StartComing(c: Codec, bs: nat, image: seq<Byte>, fragments: seq<seq<Byte>>, i: Inode, data: seq<Byte>)
    requires Represents(c, bs, image, fragments, i, data)
    ensures bs > 0 && i.size == |data|
    ensures Coming(c, bs, image, i.start, i.words[0..], Whole(i, bs, data), FragmentBytes(i, bs), 0, i.size)
  {
    hide Blocks, EndOf;
    WholeAndTail(i, bs, data);
    assert i.words[0..] == i.words;
  }

  lemma TailPiece(c: Codec, bs: nat, image: seq<Byte>, fragments: seq<seq<Byte>>, i: Inode, data: seq<Byte>)
    requires Represents(c, bs, image, fragments, i, data) && FragmentBytes(i, bs) > 0
    ensures i.fragment.At? && i.fragment.index < |fragments| && bs > 0 && i.size == |data|
    ensures var p := Data(fragments[i.fragment.index], i.fragment.offset, FragmentBytes(i, bs));
            PieceOk(p) && Whole(i, bs, data) + PieceBytes(p) == data
  {
    hide Blocks, EndOf;
    WholeAndTail(i, bs, data);
  }

  /** read_fragment and what the fragment cache gives for it (unsquashfs.c:859-863, unsquash-4.c:80-90). */
  lemma TableReads(c: Codec, image: seq<Byte>, entries: seq<FragEntry>, fragments: seq<seq<Byte>>, k: nat)
    requires TableOf(c, image, entries, fragments) && k < |fragments|
    ensures |entries| == |fragments| && ReadData(c, image, entries[k].start, entries[k].word) == fragments[k]
  {
    assert EntryIs(c, image, entries[k], fragments[k]);
  }

  lemma Move(a: seq<Byte>, rest: seq<Byte>, n: nat)
    requires n <= |rest|
    ensures a + rest == a + rest[..n] + rest[n..]
  {
  }

  lemma NoneComing(c: Codec, bs: nat, image: seq<Byte>, pos: nat, words: seq<nat>, rest: seq<Byte>, tail: nat,
                   i: nat, size: nat)
    requires Coming(c, bs, image, pos, words, rest, tail, i, size) && words == []
    ensures rest == [] && forall a: seq<Byte> :: a + rest == a
  {
  }

  /** Lines 842-850: a hole, or a block from the cache. */
  method NextPiece(c: Codec, image: seq<Byte>, start: nat, word: nat, size: nat, ghost block: seq<Byte>)
    returns (p: Piece)
    requires |block| == size && BlockIs(c, image, start, word, block)
    ensures PieceOk(p) && PieceBytes(p) == block
  {
    if word == 0 {
      HoleBytes(block);
      p := Hole(size);
    } else {
      p := Data(ReadData(c, image, start, word), 0, size);
    }
  }

  /** Reading the inode, then write_file and writer: the file comes out. */
  method Extract(c: Codec, bs: nat, image: seq<Byte>, entries: seq<FragEntry>, inode: Inode, sparse: bool,
                 seekable: bool, ghost fragments: seq<seq<Byte>>, ghost data: seq<Byte>)
    returns (extracted: seq<Byte>)
    requires bs > 0 && Represents(c, bs, image, fragments, AsRead(inode, bs), data)
    requires TableOf(c, image, entries, fragments)
    ensures extracted == data
  {
    hide TableOf;
    SizeOfFile(c, bs, image, fragments, AsRead(inode, bs), data);
    hide Represents;
    var i := AsRead(inode, bs);
    var pieces := WriteFile(c, bs, image, entries, i, fragments, data);
    var out := new OutFile(seekable);
    var writer := new FileWriter(bs);
    writer.WritePieces(out, pieces, i.size, sparse);
    extracted := out.content;
  }

  lemma SizeOfFile(c: Codec, bs: nat, image: seq<Byte>, fragments: seq<seq<Byte>>, i: Inode, data: seq<Byte>)
    requires Represents(c, bs, image, fragments, i, data)
    ensures i.size == |data|
  {
  }
}
