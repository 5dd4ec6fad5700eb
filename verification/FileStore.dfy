/** A file's way into a squashfs image and out again: mksquashfs cuts it into blocks, holes and a
    fragment; unsquashfs puts them together. */
module FileStore {
  import opened Basics
  import opened BitStrings
  import opened Squashfs

  // ---------------------------------------------------------------------- numbers of blocks

  lemma DivUnique(n: nat, b: nat, q: nat, r: nat)
    requires b > 0 && r < b && n == q * b + r
    ensures n / b == q && n % b == r
  {
    var d: int := n / b - q;
    assert b * d == r - n % b;
    AtLeastOnce(b, d);
  }

  lemma AtLeastOnce(b: int, d: int)
    requires b > 0
    ensures d > 0 ==> b * d >= b
    ensures d < 0 ==> b * d <= -b
  {
  }

  lemma DivNext(n: nat, b: nat)
    requires 0 < b <= n
    ensures n / b == (n - b) / b + 1 && n % b == (n - b) % b
  {
    var q, r := (n - b) / b, (n - b) % b;
    assert n == (q + 1) * b + r;
    DivUnique(n, b, q + 1, r);
  }

  lemma DivSmall(n: nat, b: nat)
    requires n < b
    ensures n / b == 0 && n % b == n
  {
    DivUnique(n, b, 0, n);
  }

  /** `(n + b - 1) >> log b` */
  function Ceiling(n: nat, b: nat): nat
    requires b > 0
  {
    (n + b - 1) / b
  }

  lemma CeilingNext(n: nat, b: nat)
    requires 0 < b && 0 < n
    ensures Ceiling(n, b) == Ceiling(if n < b then 0 else n - b, b) + 1
    ensures Ceiling(n, b) == n / b + if n % b == 0 then 0 else 1
  {
    DivNext(n + b - 1, b);
    if n < b {
      DivSmall(n - 1, b);
      DivSmall(b - 1, b);
      DivSmall(n, b);
    } else {
      CeilingParts(n, b);
    }
  }

  lemma CeilingParts(n: nat, b: nat)
    requires 0 < b
    ensures Ceiling(n, b) == n / b + if n % b == 0 then 0 else 1
  {
    var q, r := n / b, n % b;
    if r == 0 {
      DivUnique(n + b - 1, b, q, b - 1);
    } else {
      assert n + b - 1 == (q + 1) * b + (r - 1);
      DivUnique(n + b - 1, b, q + 1, r - 1);
    }
  }

  // --------------------------------------------------------------------------- stored blocks

  /** SQUASHFS_COMPRESSED_BIT_BLOCK and SQUASHFS_COMPRESSED_SIZE_BLOCK (squashfs_fs.h:146-151). */
  const COMPRESSED_BIT_BLOCK := 0x100_0000

  function WordOf(p: Packed): nat { |p.bytes| + if p.raw then COMPRESSED_BIT_BLOCK else 0 }

  function SizeBlock(word: nat): nat { word % COMPRESSED_BIT_BLOCK }

  predicate AllZero(data: seq<Byte>) { forall i :: 0 <= i < |data| ==> data[i] == 0 }

  function ZeroBytes(n: nat): seq<Byte> { seq(n, _ => 0) }

  /** The entry `word` of a block list stands for `data`, stored at `pos` unless it is a hole. */
  predicate BlockIs(c: Codec, image: seq<Byte>, pos: nat, word: nat, data: seq<Byte>) {
    if word == 0 then AllZero(data)
    else
      && pos + SizeBlock(word) <= |image|
      && Unmangle(c, Packed(word / COMPRESSED_BIT_BLOCK % 2 == 1, image[pos..pos + SizeBlock(word)])) == data
  }

  /** A block list stands for `data`, cut into blocks of `bs` bytes and a rest. */
  predicate Blocks(c: Codec, bs: nat, image: seq<Byte>, pos: nat, words: seq<nat>, data: seq<Byte>)
    decreases |words|
  {
    if words == [] then data == []
    else
      var n := if |data| < bs then |data| else bs;
      data != [] && BlockIs(c, image, pos, words[0], data[..n])
      && Blocks(c, bs, image, pos + SizeBlock(words[0]), words[1..], data[n..])
  }

  /** Where the data blocks of a list end. */
  function EndOf(pos: nat, words: seq<nat>): nat
    decreases |words|
  {
    if words == [] then pos else EndOf(pos + SizeBlock(words[0]), words[1..])
  }

  datatype Fragment = NoFragment | At(index: nat, offset: nat)

  datatype Inode = Inode(size: nat, start: nat, words: seq<nat>, fragment: Fragment)

  /** The inode stands for a file with these contents. */
  predicate Represents(c: Codec, bs: nat, image: seq<Byte>, fragments: seq<seq<Byte>>, i: Inode, data: seq<Byte>) {
    && i.size == |data| && bs > 0
    && match i.fragment
       case NoFragment => Blocks(c, bs, image, i.start, i.words, data)
       case At(index, offset) =>
         var tail := |data| % bs;
         && 0 < tail && index < |fragments| && offset + tail <= |fragments[index]|
         && Blocks(c, bs, image, i.start, i.words, data[..|data| - tail])
         && fragments[index][offset..offset + tail] == data[|data| - tail..]
  }

  lemma BlocksNone(c: Codec, bs: nat, image: seq<Byte>, pos: nat)
    ensures Blocks(c, bs, image, pos, [], []) && EndOf(pos, []) == pos
  {
  }

  lemma {:induction false} BlocksGrow(c: Codec, bs: nat, image: seq<Byte>, more: seq<Byte>, pos: nat,
                                      words: seq<nat>, data: seq<Byte>)
    requires Blocks(c, bs, image, pos, words, data)
    ensures Blocks(c, bs, image + more, pos, words, data)
    decreases |words|
  {
    if words != [] {
      var n := if |data| < bs then |data| else bs;
      if words[0] != 0 {
        var end := pos + SizeBlock(words[0]);
        assert (image + more)[pos..end] == image[pos..end];
      }
      BlocksGrow(c, bs, image, more, pos + SizeBlock(words[0]), words[1..], data[n..]);
    }
  }

  /** Fragment blocks are only added to. */
  predicate Grown(a: seq<seq<Byte>>, b: seq<seq<Byte>>) {
    |a| <= |b| && forall k :: 0 <= k < |a| ==> a[k] <= b[k]
  }

  /** What is stored later does not change what an inode stands for. */
  lemma RepresentsGrow(c: Codec, bs: nat, image: seq<Byte>, more: seq<Byte>, fragments: seq<seq<Byte>>,
                       fragments': seq<seq<Byte>>, i: Inode, data: seq<Byte>)
    requires Represents(c, bs, image, fragments, i, data)
    requires Grown(fragments, fragments')
    ensures Represents(c, bs, image + more, fragments', i, data)
  {
    hide Blocks;
    match i.fragment
    case NoFragment => BlocksGrow(c, bs, image, more, i.start, i.words, data);
    case At(index, offset) =>
      var tail := |data| % bs;
      BlocksGrow(c, bs, image, more, i.start, i.words, data[..|data| - tail]);
      assert fragments'[index][offset..offset + tail] == fragments[index][offset..offset + tail];
  }

  /** A block that is stored at the end of the image. */
  lemma StoredBlock(c: Codec, image: seq<Byte>, data: seq<Byte>, plain: bool)
    requires c.Valid() && 0 < |data| < COMPRESSED_BIT_BLOCK
    ensures var p := Mangle(c, data, plain);
            && WordOf(p) != 0 && SizeBlock(WordOf(p)) == |p.bytes|
            && BlockIs(c, image + p.bytes, |image|, WordOf(p), data)
  {
    var p := Mangle(c, data, plain);
    MangleRoundTrip(c, data, plain);
    assert (image + p.bytes)[|image|..|image| + |p.bytes|] == p.bytes;
  }

  /** The entry of a stored block: bit 24 says that it is stored as it is, and the 24 bits below how long it is. */
  lemma WordIs(c: Codec, data: seq<Byte>, plain: bool)
    requires 0 < |data| < COMPRESSED_BIT_BLOCK
    ensures var p := Mangle(c, data, plain);
            && (WordOf(p) / 0x100_0000 == if p.bytes == data && p.raw then 1 else 0)
            && WordOf(p) % 0x100_0000 == |p.bytes|
  {
  }

  lemma BlockGrows(c: Codec, image: seq<Byte>, image': seq<Byte>, pos: nat, word: nat, data: seq<Byte>)
    requires image <= image' && BlockIs(c, image, pos, word, data)
    ensures BlockIs(c, image', pos, word, data)
  {
    if word != 0 {
      assert image'[pos..pos + SizeBlock(word)] == image[pos..pos + SizeBlock(word)];
    }
  }

  // ----------------------------------------------------------------------- what becomes of data

  /** The options of mksquashfs that matter to the contents of files. */
  datatype Options = Options(codec: Codec, blockSize: nat, noD: bool, noF: bool, noFragments: bool,
                             alwaysUseFragments: bool, sparseFiles: bool) {
    ghost predicate Valid() { codec.Valid() && 0 < blockSize < COMPRESSED_BIT_BLOCK }

    /** A block that is left out. */
    predicate IsHole(block: seq<Byte>) { sparseFiles && AllZero(block) }

    /** What deflator makes of a block (mksquashfs.c:2596-2613): its entry in the block list and its bytes. */
    function Word(block: seq<Byte>): nat { if IsHole(block) then 0 else WordOf(Mangle(codec, block, noD)) }

    function Bytes(block: seq<Byte>): seq<Byte> { if IsHole(block) then [] else Mangle(codec, block, noD).bytes }

    /** The block list of data, and all bytes of its blocks. */
    function Words(data: seq<Byte>): seq<nat>
      requires blockSize > 0
      decreases |data|
    {
      if data == [] then [] else [Word(data[..Cut(data)])] + Words(data[Cut(data)..])
    }

    function StoredBytes(data: seq<Byte>): seq<Byte>
      requires blockSize > 0
      decreases |data|
    {
      if data == [] then [] else Bytes(data[..Cut(data)]) + StoredBytes(data[Cut(data)..])
    }

    function Cut(data: seq<Byte>): nat
      requires blockSize > 0
    {
      if |data| < blockSize then |data| else blockSize
    }

    /** How many bytes at the end of a file go into a fragment: what does not fill a block, if fragments
        are wanted for such a file and it is no hole (lines 2378-2379, 3003). */
    function TailSize(data: seq<Byte>): (n: nat)
      requires blockSize > 0
      ensures n <= |data| && n < blockSize && (n > 0 ==> n == |data| % blockSize)
    {
      var n := |data| % blockSize;
      if noFragments || !(alwaysUseFragments || |data| < blockSize) || IsHole(data[|data| - n..]) then 0 else n
    }

    /** What does not fill a block goes into a fragment: there is something, fragments are wanted for such a file, and
        it is no hole. */
    predicate InFragment(data: seq<Byte>)
      requires blockSize > 0
    {
      var n := |data| % blockSize;
      && 0 < n && !noFragments && (alwaysUseFragments || |data| < blockSize)
      && !(sparseFiles && forall i :: |data| - n <= i < |data| ==> data[i] == 0)
    }

    lemma TailWhen(data: seq<Byte>)
      requires blockSize > 0
      ensures InFragment(data) <==> Tail(data) != []
    {
      var n := |data| % blockSize;
      var tail := data[|data| - n..];
      assert forall i :: |data| - n <= i < |data| ==> data[i] == tail[i - (|data| - n)];
      assert forall i :: 0 <= i < n ==> tail[i] == data[|data| - n + i];
    }

    /** When a file that a process writes can be read back: its last block is not taken for a fragment,
        or is not a whole block.  reader_read_process looks at the size of the empty read that ends
        the file, not at that of the last block (line 2345). */
    predicate ProcessStored(data: seq<Byte>)
      requires blockSize > 0
    {
      || |data| % blockSize != 0 || data == []
      || noFragments || !(|data| == blockSize || alwaysUseFragments)
      || IsHole(data[|data| - blockSize..])
    }

    function ProcessTailSize(data: seq<Byte>): (n: nat)
      requires blockSize > 0
      ensures n <= |data| && n <= blockSize && (n == blockSize <==> !ProcessStored(data))
      ensures n > 0 ==> |data| % blockSize == if n < blockSize then n else 0
    {
      if ProcessStored(data) then TailSize(data)
      else
        assert |data| >= blockSize by { if |data| < blockSize { DivSmall(|data|, blockSize); } }
        blockSize
    }

    /** The two parts of a regular file. */
    function Body(data: seq<Byte>): seq<Byte>
      requires blockSize > 0
    {
      data[..|data| - TailSize(data)]
    }

    function Tail(data: seq<Byte>): seq<Byte>
      requires blockSize > 0
    {
      data[|data| - TailSize(data)..]
    }

    /** An entry is 0 exactly for a block of zeros in a file that may be sparse. */
    lemma HoleWhen(block: seq<Byte>)
      requires 0 < |block| < COMPRESSED_BIT_BLOCK
      ensures Word(block) == 0 <==> sparseFiles && forall i :: 0 <= i < |block| ==> block[i] == 0
    {
    }

    lemma {:induction false} PackedBlocks(image: seq<Byte>, data: seq<Byte>)
      requires Valid()
      ensures Blocks(codec, blockSize, image + StoredBytes(data), |image|, Words(data), data)
      ensures EndOf(|image|, Words(data)) == |image + StoredBytes(data)|
      decreases |data|
    {
      hide BlockIs, Mangle, Codec.Valid;
      if data == [] {
        assert image + [] == image;
      } else {
        var block, rest := data[..Cut(data)], data[Cut(data)..];
        var next := image + Bytes(block);
        BlockPacked(image, block);
        PackedBlocks(next, rest);
        assert next + StoredBytes(rest) == image + StoredBytes(data);
        BlockGrows(codec, next, image + StoredBytes(data), |image|, Word(block), block);
      }
    }

    lemma BlockPacked(image: seq<Byte>, block: seq<Byte>)
      requires Valid() && 0 < |block| <= blockSize
      ensures BlockIs(codec, image + Bytes(block), |image|, Word(block), block)
      ensures SizeBlock(Word(block)) == |Bytes(block)|
    {
      if !IsHole(block) {
        StoredBlock(codec, image, block, noD);
      }
    }

    /** The entry of a file that a process has written nothing to: 0 when it may be sparse, or its one buffer is taken
        for a fragment, and otherwise that of no bytes. */
    function EmptyWord(): nat {
      if sparseFiles || (!noFragments && alwaysUseFragments) then 0 else 0x100_0000
    }

    lemma EmptyIs()
      ensures SizeBlock(EmptyWord()) == 0
    {
    }

    /** One more block behind whole ones. */
    lemma {:induction false} PackedAppend(done: seq<Byte>, k: nat, block: seq<Byte>)
      requires blockSize > 0 && |done| == k * blockSize && 0 < |block| <= blockSize
      ensures Words(done + block) == Words(done) + [Word(block)] && |Words(done)| == k
      ensures StoredBytes(done + block) == StoredBytes(done) + Bytes(block)
      decreases k
    {
      hide Word, Bytes;
      if k == 0 {
        assert done + block == block && block[..|block|] == block && block[|block|..] == [];
      } else {
        WholeBlocks(k - 1, blockSize);
        AtLeastOnce(blockSize, k);
        assert (done + block)[..blockSize] == done[..blockSize];
        assert (done + block)[blockSize..] == done[blockSize..] + block;
        PackedAppend(done[blockSize..], k - 1, block);
      }
    }

    /** The last block that is looked at may be the tail. */
    lemma LastIsTail(data: seq<Byte>, done: seq<Byte>, rest: seq<Byte>, k: nat)
      requires blockSize > 0 && data == done + rest && |done| == k * blockSize && 0 < |rest| <= blockSize
      ensures k == |data| / blockSize <==> |rest| < blockSize
      ensures |data| == blockSize <==> k == 0 && |rest| == blockSize
      ensures |data| < blockSize <==> k == 0 && |rest| < blockSize
      ensures |data| % blockSize == if |rest| < blockSize then |rest| else 0
    {
      if |rest| < blockSize {
        DivUnique(|data|, blockSize, k, |rest|);
      } else {
        WholeBlocks(k, blockSize);
        DivUnique(|data|, blockSize, k + 1, 0);
      }
      if k > 0 {
        AtLeastOnce(blockSize, k);
      }
    }

    /** The tail, when the last block is looked at. */
    lemma TailAtLast(data: seq<Byte>, done: seq<Byte>, rest: seq<Byte>, k: nat)
      requires blockSize > 0 && data == done + rest && |done| == k * blockSize && 0 < |rest| <= blockSize
      ensures TailSize(data) ==
              if |rest| < blockSize && !noFragments && (alwaysUseFragments || |data| < blockSize) && !IsHole(rest)
              then |rest| else 0
      ensures ProcessTailSize(data) ==
              if !noFragments && (alwaysUseFragments || k == 0) && !IsHole(rest) then |rest| else 0
    {
      LastIsTail(data, done, rest, k);
      assert data[|data| - |rest|..] == rest;
    }

    lemma NoTail()
      requires blockSize > 0
      ensures TailSize([]) == 0
    {
      DivSmall(0, blockSize);
    }
  }

  /** The tail of a file is in a fragment block at the place given. */
  predicate TailAt(fragments: seq<seq<Byte>>, f: Fragment, tail: seq<Byte>) {
    match f
    case NoFragment => tail == []
    case At(index, offset) =>
      && tail != [] && index < |fragments| && offset + |tail| <= |fragments[index]|
      && fragments[index][offset..offset + |tail|] == tail
  }

  /** An inode that has the blocks of a file and leads to its tail stands for the file exactly when the
      tail is less than a block. */
  lemma FileStands(o: Options, image: seq<Byte>, start: nat, all: seq<seq<Byte>>, body: seq<Byte>,
                   tail: seq<Byte>, f: Fragment)
    requires o.Valid() && TailAt(all, f, tail) && (start == |image| || body == []) && |tail| <= o.blockSize
    requires tail != [] ==> |body| % o.blockSize == 0
    ensures |tail| < o.blockSize <==>
            Represents(o.codec, o.blockSize, image + o.StoredBytes(body), all,
                       Inode(|body + tail|, start, o.Words(body), f), body + tail)
    ensures |tail| == o.blockSize ==> |o.Words(body)| + 1 == |body + tail| / o.blockSize
  {
    hide Options.Words, Options.StoredBytes, BlockIs, Codec.Valid, Blocks, Represents, TailAt;
    BodyBlocks(o, image, start, body);
    Stands(o.codec, o.blockSize, image + o.StoredBytes(body), start, o.Words(body), all, body, tail, f);
    if |tail| == o.blockSize {
      TailOfAll(body, tail, o.blockSize);
      WordsCount(o, body, |body| / o.blockSize);
    }
  }

  lemma Stands(c: Codec, bs: nat, image: seq<Byte>, start: nat, words: seq<nat>, all: seq<seq<Byte>>,
               body: seq<Byte>, tail: seq<Byte>, f: Fragment)
    requires bs > 0 && Blocks(c, bs, image, start, words, body)
    requires TailAt(all, f, tail) && |tail| <= bs && (tail != [] ==> |body| % bs == 0)
    ensures |tail| < bs <==> Represents(c, bs, image, all, Inode(|body + tail|, start, words, f), body + tail)
  {
    hide Blocks;
    if tail == [] {
      assert body + tail == body;
    } else {
      TailOfAll(body, tail, bs);
    }
  }

  lemma BodyBlocks(o: Options, image: seq<Byte>, start: nat, body: seq<Byte>)
    requires o.Valid() && (start == |image| || body == [])
    ensures Blocks(o.codec, o.blockSize, image + o.StoredBytes(body), start, o.Words(body), body)
  {
    o.PackedBlocks(image, body);
  }

  lemma TailOfAll(body: seq<Byte>, tail: seq<Byte>, bs: nat)
    requires 0 < |tail| <= bs && |body| % bs == 0
    ensures var data := body + tail;
            && data[..|data| - |tail|] == body && data[|data| - |tail|..] == tail
            && (if |tail| < bs then |data| % bs == |tail| else |data| % bs == 0 && |data| / bs == |body| / bs + 1)
  {
    var k := |body| / bs;
    WholeBlocks(k, bs);
    if |tail| < bs {
      DivUnique(|body + tail|, bs, k, |tail|);
    } else {
      DivUnique(|body + tail|, bs, k + 1, 0);
    }
  }

  /** What comes before a tail is whole blocks. */
  lemma BodyWhole(o: Options, body: seq<Byte>, tail: seq<Byte>)
    requires o.blockSize > 0
    requires tail == [] || |body + tail| % o.blockSize == if |tail| < o.blockSize then |tail| else 0
    requires |tail| <= o.blockSize
    ensures tail != [] ==> |body| % o.blockSize == 0
    ensures o.Words(body) == [] <==> body == []
  {
    var bs, all := o.blockSize, |body + tail|;
    if 0 < |tail| < bs {
      DivUnique(|body|, bs, all / bs, 0);
    } else if |tail| == bs {
      DivNext(all, bs);
    }
  }

  /** The inode of a regular file stands for it. */
  lemma RegularStands(o: Options, image: seq<Byte>, start: nat, all: seq<seq<Byte>>, data: seq<Byte>, f: Fragment)
    requires o.Valid() && TailAt(all, f, o.Tail(data))
    requires start == if o.Words(o.Body(data)) == [] then 0 else |image|
    ensures Represents(o.codec, o.blockSize, image + o.StoredBytes(o.Body(data)), all,
                       Inode(|data|, start, o.Words(o.Body(data)), f), data)
  {
    hide Options.Words, Options.StoredBytes, Options.TailSize, Represents, TailAt, Codec.Valid;
    var body, tail := o.Body(data), o.Tail(data);
    assert body + tail == data;
    BodyWhole(o, body, tail);
    FileStands(o, image, start, all, body, tail, f);
  }

  /** The inode of a process stands for what it has written exactly when its last block is not lost. */
  lemma ProcessStands(o: Options, image: seq<Byte>, words: seq<nat>, all: seq<seq<Byte>>, data: seq<Byte>, f: Fragment)
    requires o.Valid()
    requires var n := |data| - o.ProcessTailSize(data);
             TailAt(all, f, data[n..]) && (data != [] ==> words == o.Words(data[..n]))
    ensures var i := Inode(|data|, |image|, words, f);
            var image' := image + o.StoredBytes(data[..|data| - o.ProcessTailSize(data)]);
            && (Represents(o.codec, o.blockSize, image', all, AsRead(i, o.blockSize), data) <==> o.ProcessStored(data))
            && (!o.ProcessStored(data) ==> f.At? && |words| + 1 == |data| / o.blockSize)
  {
    hide Options.Words, Options.StoredBytes, Options.ProcessStored, Codec.Valid;
    var n, bs := |data| - o.ProcessTailSize(data), o.blockSize;
    var i, image' := Inode(|data|, |image|, words, f), image + o.StoredBytes(data[..n]);
    if data == [] {
      DivSmall(bs - 1, bs);
    } else {
      hide Blocks, Represents, Options.ProcessTailSize;
      assert data[..n] + data[n..] == data;
      BodyWhole(o, data[..n], data[n..]);
      FileStands(o, image, |image|, all, data[..n], data[n..], f);
      if Represents(o.codec, bs, image', all, i, data) {
        CountAgrees(o.codec, bs, image', all, i, data);
      }
    }
  }

  /** Size and block list of the inode of a process: one entry without bytes when nothing is written. */
  predicate IsProcess(o: Options, i: Inode, data: seq<Byte>)
    requires o.blockSize > 0
  {
    i.size == |data| &&
    if data == [] then i.words == [o.EmptyWord()]
    else i.words == o.Words(data[..|data| - o.ProcessTailSize(data)])
  }

  lemma {:induction false} WordsCount(o: Options, body: seq<Byte>, k: nat)
    requires o.blockSize > 0 && |body| == k * o.blockSize
    ensures |o.Words(body)| == k
    decreases k
  {
    if k > 0 {
      WholeBlocks(k - 1, o.blockSize);
      AtLeastOnce(o.blockSize, k);
      WordsCount(o, body[o.blockSize..], k - 1);
    }
  }

  // -------------------------------------------------------------------------- reading the inode

  /** read_inode_4 takes the length of the block list from the size (unsquash-4.c:143-171). */
  function BlockCount(i: Inode, bs: nat): nat
    requires bs > 0
  {
    if i.fragment.NoFragment? then Ceiling(i.size, bs) else i.size / bs
  }

  /** The inode as it is read, with as many entries of the block list as that. */
  function AsRead(i: Inode, bs: nat): Inode
    requires bs > 0
  {
    if BlockCount(i, bs) < |i.words| then i.(words := i.words[..BlockCount(i, bs)]) else i
  }

  /** A block list has as many entries as its data has blocks. */
  lemma {:induction false} BlocksCount(c: Codec, bs: nat, image: seq<Byte>, pos: nat, words: seq<nat>, data: seq<Byte>)
    requires bs > 0 && Blocks(c, bs, image, pos, words, data)
    ensures |words| == Ceiling(|data|, bs)
    decreases |words|
  {
    if words == [] {
      DivSmall(bs - 1, bs);
    } else {
      var n := if |data| < bs then |data| else bs;
      BlocksCount(c, bs, image, pos + SizeBlock(words[0]), words[1..], data[n..]);
      CeilingNext(|data|, bs);
    }
  }

  lemma CountAgrees(c: Codec, bs: nat, image: seq<Byte>, fragments: seq<seq<Byte>>, i: Inode, data: seq<Byte>)
    requires Represents(c, bs, image, fragments, i, data)
    ensures BlockCount(i, bs) == |i.words| && AsRead(i, bs) == i
  {
    if i.fragment.At? {
      var tail := |data| % bs;
      BlocksCount(c, bs, image, i.start, i.words, data[..|data| - tail]);
      DivUnique(|data| - tail, bs, |data| / bs, 0);
      CeilingParts(|data| - tail, bs);
    } else {
      BlocksCount(c, bs, image, i.start, i.words, data);
    }
  }

  // ------------------------------------------------------------------------------ the writer

  /** An entry of the fragment table. */
  datatype FragEntry = FragEntry(start: nat, word: nat)

  /** Each fragment block that has a place is stored there. */
  ghost predicate Placed(c: Codec, image: seq<Byte>, table: seq<Option<FragEntry>>, fragments: seq<seq<Byte>>) {
    |table| == |fragments| &&
    forall k :: 0 <= k < |table| && table[k].Some? ==> EntryIs(c, image, table[k].value, fragments[k])
  }

  predicate EntryIs(c: Codec, image: seq<Byte>, e: FragEntry, block: seq<Byte>) {
    e.word != 0 && BlockIs(c, image, e.start, e.word, block)
  }

  lemma PlacedGrows(c: Codec, image: seq<Byte>, image': seq<Byte>, table: seq<Option<FragEntry>>,
                    fragments: seq<seq<Byte>>)
    requires Placed(c, image, table, fragments) && image <= image'
    ensures Placed(c, image', table, fragments)
  {
    hide BlockIs;
    forall k | 0 <= k < |table| && table[k].Some? ensures EntryIs(c, image', table[k].value, fragments[k]) {
      BlockGrows(c, image, image', table[k].value.start, table[k].value.word, fragments[k]);
    }
  }

  /** Where data blocks and fragments go: `fragment` is the fragment block that is being filled, and the
      table has a place for each of those before that a deflator is done with. */
  class Writer {
    const o: Options
    var image: seq<Byte>
    var fragments: seq<seq<Byte>>
    var fragment: seq<Byte>
    var table: seq<Option<FragEntry>>

    ghost predicate Valid()
      reads this
    {
      && o.Valid() && |fragment| <= o.blockSize && Placed(o.codec, image, table, fragments)
      && forall k :: 0 <= k < |fragments| ==> 0 < |fragments[k]| <= o.blockSize
    }

    /** All fragment blocks, as they stand. */
    function All(): seq<seq<Byte>>
      reads this
    {
      fragments + [fragment]
    }

    ghost predicate Stores(i: Inode, data: seq<Byte>)
      reads this
    {
      Represents(o.codec, o.blockSize, image, All(), i, data)
    }

    /** write_fragment (mksquashfs.c:1854-1877) */
    method WriteFragment()
      requires Valid()
      modifies `fragments, `fragment, `table
      ensures Valid() && fragment == []
      ensures fragments == old(fragments) + if old(fragment) == [] then [] else [old(fragment)]
      ensures old(table) <= table && Grown(old(All()), All())
    {
      if fragment != [] {
        fragments := fragments + [fragment];
        table := table + [None];
        fragment := [];
      }
    }

    /** get_and_fill_fragment (lines 1881-1907) */
    method FillFragment(tail: seq<Byte>) returns (f: Fragment)
      requires Valid() && |tail| <= o.blockSize
      modifies `fragments, `fragment, `table
      ensures Valid() && TailAt(All(), f, tail) && Grown(old(All()), All()) && old(table) <= table
      ensures tail == [] ==> All() == old(All())
      ensures tail != [] && |old(fragment)| + |tail| <= o.blockSize ==>
                f == At(|old(fragments)|, |old(fragment)|) && fragments == old(fragments)
      ensures tail != [] && |old(fragment)| + |tail| > o.blockSize ==>
                f == At(|old(fragments)| + 1, 0) && fragments == old(fragments) + [old(fragment)] && fragment == tail
    {
      hide Placed;
      if tail == [] {
        GrownSelf(All());
        return NoFragment;
      }
      if |fragment| + |tail| > o.blockSize {
        WriteFragment();
      }
      f := At(|fragments|, |fragment|);
      fragment := fragment + tail;
    }

    /** frag_deflator, when it is done with a fragment block (lines 2635-2653). */
    method PlaceFragment(k: nat)
      requires Valid() && k < |fragments| && table[k].None?
      modifies `image, `table
      ensures Valid() && |table| == |old(table)| && table[k].Some? && table[k].value.start == |old(image)|
      ensures old(image) <= image && |image| == |old(image)| + SizeBlock(table[k].value.word)
      ensures forall j :: 0 <= j < |table| && j != k ==> table[j] == old(table[j])
    {
      var p := Mangle(o.codec, fragments[k], o.noF);
      StoredBlock(o.codec, image, fragments[k], o.noF);
      table := table[k := Some(FragEntry(|image|, WordOf(p)))];
      PlacedGrows(o.codec, image, image + p.bytes, old(table), fragments);
      image := image + p.bytes;
    }

    /** The end of the run (lines 5325-5333): all fragment blocks are stored, and the table is complete. */
    method Finish() returns (entries: seq<FragEntry>)
      requires Valid()
      modifies `fragments, `fragment, `table, `image
      ensures Valid() && old(image) <= image && Grown(old(All()), All()) && fragment == []
      ensures |entries| == |fragments|
      ensures forall k :: 0 <= k < |entries| ==> EntryIs(o.codec, image, entries[k], fragments[k])
    {
      WriteFragment();
      entries := [];
      while |entries| < |fragments|
        invariant Valid() && old(image) <= image && |entries| <= |fragments|
        invariant Grown(old(All()), All()) && fragment == []
        invariant forall k :: 0 <= k < |entries| ==> table[k] == Some(entries[k])
      {
        var k := |entries|;
        if table[k].None? {
          PlaceFragment(k);
        }
        entries := entries + [table[k].value];
      }
    }

    /** Store one block, and give the entry for it (lines 2596-2613, 3007-3017). */
    method StoreBlock(block: seq<Byte>) returns (word: nat)
      requires Valid()
      modifies `image
      ensures Valid() && word == o.Word(block) && image == old(image) + o.Bytes(block)
    {
      PlacedGrows(o.codec, image, image + o.Bytes(block), table, fragments);
      if o.sparseFiles && AllZero(block) {
        assert image + [] == image;
        return 0;
      }
      var p := Mangle(o.codec, block, o.noD);
      image := image + p.bytes;
      word := WordOf(p);
    }

    /** What write_file_blocks, write_file_blocks_dup and write_file_frag have in common, for what
        reader_read_file reads (lines 2373-2446, 3003-3025): all blocks but the tail. */
    method PutBlocks(data: seq<Byte>) returns (words: seq<nat>, tail: seq<Byte>)
      requires Valid()
      modifies `image
      ensures Valid() && tail == o.Tail(data) && words == o.Words(o.Body(data))
      ensures image == old(image) + o.StoredBytes(o.Body(data))
    {
      hide Options.Words, Options.StoredBytes, Options.TailSize, Options.Word, Options.Bytes, Placed, AllZero;
      var bs, n := o.blockSize, |data|;
      var fragBlock: int := if !o.noFragments && (o.alwaysUseFragments || n < bs) then n / bs else -1;
      var rest := data;
      ghost var done := [];
      o.NoTail();
      Nothing(o, image);
      words, tail := [], [];
      while rest != []
        invariant Valid() && data == done + rest && (rest != [] ==> |done| == |words| * bs)
        invariant words == o.Words(done) && image == old(image) + o.StoredBytes(done)
        invariant rest == [] ==> o.TailSize(data) == 0
        decreases |rest|
      {
        var size := if |rest| < bs then |rest| else bs;
        var block, k := rest[..size], |words|;
        ghost var last := size == |rest|;
        if last {
          assert block == rest;
          o.LastIsTail(data, done, rest, k);
          o.TailAtLast(data, done, rest, k);
        } else {
          NotLast(data, done, rest, k, bs);
        }
        if k == fragBlock && !(o.sparseFiles && AllZero(block)) {
          assert data[..n - |rest|] == done && data[n - |rest|..] == rest;
          return words, block;
        }
        o.PackedAppend(done, k, block);
        WholeBlocks(k, bs);
        var word := StoreBlock(block);
        words, done, rest := words + [word], done + block, rest[size..];
      }
      assert done == data && data[..n] == data && data[n..] == [];
    }

    /** The blocks put since the image was `before` are dropped (lines 3153-3168). */
    method RollBack(end: nat, ghost before: seq<Byte>)
      requires Valid() && before <= image && |before| == end && Placed(o.codec, before, table, fragments)
      modifies `image
      ensures Valid() && image == before
    {
      assert image[..end] == before;
      image := image[..end];
    }

    /** What write_file_process does with what reader_read_process reads (lines 2287-2348, 2905-2940). */
    method PutProcess(data: seq<Byte>) returns (words: seq<nat>, tail: seq<Byte>)
      requires Valid()
      modifies `image
      ensures Valid() && |tail| == o.ProcessTailSize(data) && tail == data[|data| - |tail|..]
      ensures if data == [] then words == [o.EmptyWord()] else words == o.Words(data[..|data| - |tail|])
      ensures image == old(image) + o.StoredBytes(data[..|data| - |tail|])
    {
      hide Options.Words, Options.StoredBytes, Options.ProcessTailSize, Options.Word, Options.Bytes, Placed, AllZero;
      Nothing(o, image);
      if data == [] {
        var word := PutEmpty();
        return [word], [];
      }
      var bs := o.blockSize;
      var rest, count := data, 1;
      ghost var done := [];
      words, tail := [], [];
      while rest != []
        invariant Valid() && data == done + rest && (rest != [] ==> |done| == |words| * bs)
        invariant words == o.Words(done) && image == old(image) + o.StoredBytes(done) && count == |words| + 1
        invariant rest == [] ==> o.ProcessTailSize(data) == 0
        decreases |rest|
      {
        var size := if |rest| < bs then |rest| else bs;
        var block, k := rest[..size], |words|;
        count := count + 1;
        var fragment := size == |rest| && !o.noFragments && (count == 2 || o.alwaysUseFragments);
        if size == |rest| {
          assert block == rest;
          o.TailAtLast(data, done, rest, k);
        }
        if fragment && !(o.sparseFiles && AllZero(block)) {
          assert data[..|data| - |rest|] == done && data[|data| - |rest|..] == rest;
          return words, block;
        }
        o.PackedAppend(done, k, block);
        WholeBlocks(k, bs);
        var word := StoreBlock(block);
        words, done, rest := words + [word], done + block, rest[size..];
      }
      assert done == data && data[..|data|] == data && data[|data|..] == [];
    }

    /** The one buffer of a process that writes nothing: deflator gives it the word 0 when it is a hole or
        taken for a fragment, and mangle2 one without bytes otherwise. */
    method PutEmpty() returns (word: nat)
      requires Valid()
      modifies `image
      ensures Valid() && image == old(image) && word == o.EmptyWord()
    {
      assert image + [] == image;
      if !o.noFragments && o.alwaysUseFragments {
        return 0;
      }
      word := StoreBlock([]);
    }

    /** The inode of a regular file (write_file, lines 3220-3257), when duplicates are not looked for. */
    method WriteFile(data: seq<Byte>) returns (i: Inode)
      requires Valid()
      modifies this
      ensures Valid() && Stores(i, data) && old(image) <= image && Grown(old(All()), All())
      ensures old(table) <= table
      ensures i.fragment.At? <==> o.InFragment(data)
    {
      o.TailWhen(data);
      hide Options.Words, Options.StoredBytes, Options.TailSize, Represents, Placed, Grown, Options.InFragment;
      var at := |image|;
      var words, tail := PutBlocks(data);
      var f := FillFragment(tail);
      i := Inode(|data|, if words == [] then 0 else at, words, f);
      RegularStands(o, old(image), i.start, All(), data, f);
    }

    /** write_file_process (lines 2892-2956).  The block list of a file that cannot be read back is one
        entry shorter than the list that read_inode_4 takes. */
    method WriteProcess(data: seq<Byte>) returns (i: Inode, tailSize: nat)
      requires Valid()
      modifies this
      ensures Valid() && old(table) <= table && Grown(old(All()), All()) && tailSize == o.ProcessTailSize(data)
      ensures image == old(image) + o.StoredBytes(data[..|data| - tailSize])
      ensures IsProcess(o, i, data) && i.start == |old(image)| && TailAt(All(), i.fragment, data[|data| - tailSize..])
      ensures Stores(AsRead(i, o.blockSize), data) <==> o.ProcessStored(data)
      ensures !o.ProcessStored(data) ==> i.fragment.At? && |i.words| + 1 == i.size / o.blockSize
    {
      hide Options.Words, Options.StoredBytes, Options.TailSize, Represents, Placed, Grown, TailAt;
      var at := |image|;
      var words, tail := PutProcess(data);
      var f := FillFragment(tail);
      i := Inode(|data|, at, words, f);
      tailSize := |tail|;
      ProcessStands(o, old(image), words, All(), data, f);
    }
  }

  /** The process writes 4096 ones, the block size is 4096 and fragments are wanted. */
  method ProcessLost(w: Writer, data: seq<Byte>) returns (i: Inode, tailSize: nat)
    requires w.Valid() && w.o.blockSize == 4096 && !w.o.noFragments && data == seq(4096, _ => 1)
    modifies w
    ensures i.size == 4096 && i.words == [] && i.fragment.At? && !w.Stores(AsRead(i, 4096), data)
  {
    assert |data| % 4096 == 0 && data[|data| - 4096..][0] == 1;
    i, tailSize := w.WriteProcess(data);
  }

  lemma Nothing(o: Options, image: seq<Byte>)
    requires o.blockSize > 0
    ensures o.Words([]) == [] && o.StoredBytes([]) == [] && image + o.StoredBytes([]) == image
  {
  }

  lemma NotLast(data: seq<Byte>, done: seq<Byte>, rest: seq<Byte>, k: nat, bs: nat)
    requires bs > 0 && data == done + rest && |done| == k * bs && |rest| > bs
    ensures k < |data| / bs && |data| > bs
  {
    DivNext(|data| - k * bs, bs);
    DivShift(|data| - k * bs, bs, k);
  }

  lemma DivShift(n: nat, b: nat, k: nat)
    requires b > 0
    ensures (k * b + n) / b == k + n / b
  {
    assert k * b + n == (k + n / b) * b + n % b;
    DivUnique(k * b + n, b, k + n / b, n % b);
  }

  lemma GrownSelf(a: seq<seq<Byte>>)
    ensures Grown(a, a)
  {
  }

  lemma WholeBlocks(k: nat, bs: nat)
    ensures (k + 1) * bs == k * bs + bs
  {
  }
}
