/** Metadata blocks: the inode table that mksquashfs streams out, with references handed out before
    the blocks are, and the table that unsquashfs rebuilds to resolve them. */
module Metadata {
  import opened Basics
  import opened BitStrings
  import opened LittleEndian
  import opened Squashfs

  const BLOCK := 8192

  // ------------------------------------------------------------------------------ one block

  /** SQUASHFS_COMPRESSED_BIT, and the size and flag behind it (squashfs_fs.h:139-144). */
  const COMPRESSED_BIT := 0x8000

  function HeaderOf(p: Packed): nat { |p.bytes| + if p.raw then COMPRESSED_BIT else 0 }

  function SizeOf(header: nat): nat {
    if header % COMPRESSED_BIT != 0 then header % COMPRESSED_BIT else COMPRESSED_BIT
  }

  /** A block as it is stored: its header and its bytes. */
  function EncodeBlock(c: Codec, data: seq<Byte>, noI: bool): (b: seq<Byte>)
    requires |data| <= BLOCK
    ensures |b| >= 2 && (data != [] ==> |b| > 2)
  {
    var p := Mangle(c, data, noI);
    Le16(HeaderOf(p)) + p.bytes
  }

  datatype Block = Block(data: seq<Byte>, next: nat) | Failed

  /** read_block (unsquashfs.c:576-626): the block at `pos`, and where the next one is. */
  function ReadBlock(c: Codec, image: seq<Byte>, pos: nat): Block {
    if pos + 2 > |image| then Failed
    else
      var header := Get16(image, pos);
      var end := pos + 2 + SizeOf(header);
      if end > |image| then Failed
      else Block(Unmangle(c, Packed(header >= COMPRESSED_BIT, image[pos + 2..end])), end)
  }

  /** A stored block is read back. */
  lemma ReadEncoded(c: Codec, image: seq<Byte>, pos: nat, data: seq<Byte>, noI: bool)
    requires c.Valid() && 0 < |data| <= BLOCK && In(image, pos, EncodeBlock(c, data, noI))
    ensures ReadBlock(c, image, pos) == Block(data, pos + |EncodeBlock(c, data, noI)|)
  {
    MangleRoundTrip(c, data, noI);
    hide Le16, Get16, Mangle, Unmangle, Codec.Valid;
    var p := Mangle(c, data, noI);
    var h := HeaderOf(p);
    InParts(image, pos, Le16(h), p.bytes);
    In16(image, pos, h);
    assert image[pos + 2..pos + 2 + |p.bytes|] == p.bytes;
  }

  /** The header: how many bytes follow it, low-order byte first, and in the top bit of its second byte whether they
      are the data as it is. */
  lemma HeaderIs(c: Codec, data: seq<Byte>, noI: bool)
    requires 0 < |data| <= BLOCK
    ensures var b, z := EncodeBlock(c, data, noI), c.compress(data);
            && (b[1] >= 0x80 <==> noI || z == [] || |data| <= |z|)
            && b[2..] == (if b[1] >= 0x80 then data else z)
            && b[0] as nat + 0x100 * (b[1] as nat % 0x80) == |b| - 2
  {
    MangleIs(c, data, noI);
  }

  /** What is read at any place of a file: two bytes, of which the top bit says that the data is stored as it is, and
      the others how much there is, 32768 bytes when they are 0. */
  lemma ReadBlockIs(c: Codec, image: seq<Byte>, pos: nat)
    requires pos + 2 <= |image|
    ensures var n := image[pos] as nat + 0x100 * (image[pos + 1] as nat % 0x80);
            var end := pos + 2 + if n == 0 then 0x8000 else n;
            ReadBlock(c, image, pos) ==
              if |image| < end then Failed
              else if image[pos + 1] >= 0x80 then Block(image[pos + 2..end], end)
              else Block(c.expand(image[pos + 2..end]), end)
  {
  }

  // ----------------------------------------------------------------------------- many blocks

  /** The table that a stream of bytes makes. */
  function Encode(c: Codec, s: seq<Byte>, noI: bool): (t: seq<Byte>) {
    if s == [] then []
    else if |s| <= BLOCK then EncodeBlock(c, s, noI)
    else EncodeBlock(c, s[..BLOCK], noI) + Encode(c, s[BLOCK..], noI)
  }

  /** Whole blocks and what follows them are stored one after the other. */
  lemma {:induction false} EncodeConcat(c: Codec, a: seq<Byte>, b: seq<Byte>, noI: bool)
    requires |a| % BLOCK == 0
    ensures Encode(c, a + b, noI) == Encode(c, a, noI) + Encode(c, b, noI)
    decreases |a|
  {
    if a == [] {
      assert a + b == b;
    } else if b == [] {
      assert a + b == a;
    } else {
      assert (a + b)[..BLOCK] == a[..BLOCK] && (a + b)[BLOCK..] == a[BLOCK..] + b;
      EncodeConcat(c, a[BLOCK..], b, noI);
      assert |a| == BLOCK ==> a == a[..BLOCK] && a[BLOCK..] == [];
    }
  }

  /** Blocks hold 8192 bytes. */
  lemma FirstBlock(c: Codec, s: seq<Byte>, noI: bool)
    requires |s| >= 0x2000
    ensures Encode(c, s, noI) == EncodeBlock(c, s[..0x2000], noI) + Encode(c, s[0x2000..], noI)
  {
    assert |s| == 0x2000 ==> s[..0x2000] == s && s[0x2000..] == [];
  }

  /** Where the block that holds byte `p` of the stream starts in the table. */
  function StartOf(c: Codec, s: seq<Byte>, p: nat, noI: bool): nat
    requires p <= |s|
  {
    |Encode(c, s[..p - p % BLOCK], noI)|
  }

  /** Later blocks start later. */
  lemma StartsIncrease(c: Codec, s: seq<Byte>, p: nat, q: nat, noI: bool)
    requires p <= q <= |s| && p % BLOCK == 0 && q % BLOCK == 0
    ensures StartOf(c, s, p, noI) <= StartOf(c, s, q, noI)
    ensures p < q ==> StartOf(c, s, p, noI) < StartOf(c, s, q, noI)
  {
    assert s[..q] == s[..p] + s[p..q];
    EncodeConcat(c, s[..p], s[p..q], noI);
  }

  /** The block at a multiple of the block size, and what the table holds before and after. */
  lemma EncodeAt(c: Codec, s: seq<Byte>, p: nat, noI: bool) returns (block: seq<Byte>)
    requires p < |s| && p % BLOCK == 0
    ensures block == if p + BLOCK <= |s| then s[p..p + BLOCK] else s[p..]
    ensures Encode(c, s, noI)
         == Encode(c, s[..p], noI) + (EncodeBlock(c, block, noI) + Encode(c, s[p + |block|..], noI))
    ensures Encode(c, s[..p + |block|], noI) == Encode(c, s[..p], noI) + EncodeBlock(c, block, noI)
  {
    block := if p + BLOCK <= |s| then s[p..p + BLOCK] else s[p..];
    assert s == s[..p] + s[p..] && s[..p + |block|] == s[..p] + block;
    EncodeConcat(c, s[..p], s[p..], noI);
    EncodeConcat(c, s[..p], block, noI);
    var rest := s[p..];
    if |rest| > BLOCK {
      assert rest[..BLOCK] == block && rest[BLOCK..] == s[p + BLOCK..];
    } else {
      assert rest == block && s[p + |block|..] == [];
    }
  }

  // ------------------------------------------------------------------------------ the writer

  /** The front of what follows `p` is what comes next. */
  lemma Front(s: seq<Byte>, p: nat, cache: seq<Byte>, n: nat)
    requires p <= |s| && s[p..] == cache && n <= |cache|
    ensures s[p..p + n] == cache[..n] && s[p + n..] == cache[n..] && |s| - |cache[n..]| == p + n
  {
  }

  /** SQUASHFS_MKINODE, SQUASHFS_INODE_BLK and SQUASHFS_INODE_OFFSET (squashfs_fs.h:157-162). */
  function MkInode(block: nat, offset: nat): nat { block * 0x1_0000 + offset }

  function InodeBlk(r: nat): nat { r / 0x1_0000 % 0x1_0000_0000 }

  function InodeOffset(r: nat): nat { r % 0x1_0000 }

  /** A reference is 48 bits, of which the 32 above are the block and the 16 below the offset. */
  lemma ReferenceIs(r: nat)
    ensures InodeBlk(r) < 0x1_0000_0000 && InodeOffset(r) < 0x1_0000
    ensures MkInode(InodeBlk(r), InodeOffset(r)) == r % 0x1_0000_0000_0000
  {
  }

  /** data_cache up to cache_bytes, and inode_table up to inode_bytes; or directory_data_cache and
      directory_table.  `stream` is every record. */
  class MetadataWriter {
    const codec: Codec
    const noI: bool
    var cache: seq<Byte>
    var table: seq<Byte>
    ghost var stream: seq<Byte>

    ghost predicate Valid()
      reads this
    {
      && |cache| <= |stream| && (|stream| - |cache|) % BLOCK == 0
      && stream[|stream| - |cache|..] == cache
      && table == Encode(codec, stream[..|stream| - |cache|], noI)
    }

    constructor (codec: Codec, noI: bool)
      ensures Valid() && stream == [] && this.codec == codec && this.noI == noI
    {
      this.codec, this.noI, cache, table, stream := codec, noI, [], [], [];
    }

    /** Store a block from the front of the cache (lines 927-936, 1075-1082). */
    method Store(n: nat)
      requires Valid() && 0 < n <= |cache| && (n == BLOCK || n == |cache| < BLOCK)
      modifies this
      ensures stream == old(stream) && cache == old(cache)[n..]
      ensures table == Encode(codec, stream[..|stream| - |cache|], noI)
      ensures n == BLOCK ==> Valid()
    {
      hide Encode, Mangle;
      ghost var p := |stream| - |cache|;
      ghost var block := EncodeAt(codec, stream, p, noI);
      Front(stream, p, cache, n);
      assert block == cache[..n];
      var packed := Mangle(codec, cache[..n], noI);
      assert table + Le16(HeaderOf(packed)) + packed.bytes == table + EncodeBlock(codec, block, noI);
      table := table + Le16(HeaderOf(packed)) + packed.bytes;
      cache := cache[n..];
    }

    /** get_inode (lines 910-957), the record put into the room it makes, and MKINODE for it (line
        1496): a reference to a record whose block is not stored yet. */
    method PutInode(record: seq<Byte>) returns (r: nat)
      requires Valid()
      modifies this
      ensures Valid() && stream == old(stream) + record
      ensures r == MkInode(StartOf(codec, stream, |old(stream)|, noI), |old(stream)| % BLOCK)
    {
      while |cache| >= BLOCK
        invariant Valid() && stream == old(stream)
        decreases |cache|
      {
        Store(BLOCK);
      }
      r := MkInode(|table|, |cache|);
      assert |stream| % BLOCK == |cache|;
      Append(record);
    }

    /** Put bytes into the cache; the block that is next is that of the first byte there. */
    method Append(bytes: seq<Byte>)
      requires Valid()
      modifies `cache, `stream
      ensures Valid() && stream == old(stream) + bytes && cache == old(cache) + bytes
      ensures |table| == StartOf(codec, stream, |stream| - |cache|, noI)
    {
      ghost var before, n := stream, |stream| - |cache|;
      cache := cache + bytes;
      stream := stream + bytes;
      assert stream[..n] == before[..n] && stream[n..] == before[n..] + bytes;
    }

    /** write_inodes (lines 1054-1088), up to the write. */
    method Finish() returns (t: seq<Byte>)
      requires Valid()
      modifies this
      ensures stream == old(stream) && t == Encode(codec, stream, noI)
    {
      while |cache| >= BLOCK
        invariant Valid() && stream == old(stream)
        decreases |cache|
      {
        Store(BLOCK);
      }
      if |cache| > 0 {
        Store(|cache|);
      }
      assert stream[..|stream|] == stream;
      t := table;
    }
  }

  // ------------------------------------------------------------------------------ the reader

  datatype Entry = Entry(start: nat, bytes: nat)

  /** Hash chains from the positions of blocks to their places in the table (unsquashfs.c:511-540). */
  class HashTable {
    const chains: array<seq<Entry>>
    ghost var entries: map<nat, nat>

    ghost predicate Valid()
      reads this, chains
    {
      && chains.Length == 0x1_0000
      && forall start: nat :: Find(chains[start % 0x1_0000], start)
           == if start in entries then Some(entries[start]) else None
    }

    constructor ()
      ensures Valid() && fresh(chains) && entries == map[]
    {
      chains := new seq<Entry>[0x1_0000](_ => []);
      entries := map[];
    }

    /** add_entry */
    method Add(start: nat, bytes: nat)
      requires Valid()
      modifies this, chains
      ensures Valid() && entries == old(entries)[start := bytes]
    {
      var hash := start % 0x1_0000;
      chains[hash] := [Entry(start, bytes)] + chains[hash];
      entries := entries[start := bytes];
    }

    /** lookup_entry */
    method Lookup(start: nat) returns (r: Option<nat>)
      requires Valid()
      ensures r == if start in entries then Some(entries[start]) else None
    {
      var chain := chains[start % 0x1_0000];
      var i := 0;
      while i < |chain|
        invariant 0 <= i <= |chain| && Find(chain, start) == Find(chain[i..], start)
      {
        if chain[i].start == start {
          return Some(chain[i].bytes);
        }
        i := i + 1;
      }
      return None;
    }
  }

  ghost function Find(chain: seq<Entry>, start: nat): Option<nat> {
    if chain == [] then None
    else if chain[0].start == start then Some(chain[0].bytes)
    else Find(chain[1..], start)
  }

  /** Each block of the stream up to `m` can be found by its position. */
  ghost predicate Mapped(entries: map<nat, nat>, c: Codec, s: seq<Byte>, noI: bool, base: nat, m: nat) {
    forall p: nat :: p < m && p < |s| && p % BLOCK == 0 ==>
      base + StartOf(c, s, p, noI) in entries && entries[base + StartOf(c, s, p, noI)] == p
  }

  lemma MappedNext(entries: map<nat, nat>, c: Codec, s: seq<Byte>, noI: bool, base: nat, m: nat)
    requires m <= |s| && m % BLOCK == 0 && Mapped(entries, c, s, noI, base, m)
    ensures Mapped(entries[base + StartOf(c, s, m, noI) := m], c, s, noI, base, m + BLOCK)
  {
    forall p: nat | p < m && p % BLOCK == 0
      ensures StartOf(c, s, p, noI) < StartOf(c, s, m, noI)
    {
      StartsIncrease(c, s, p, m, noI);
    }
  }

  /** uncompress_inode_table (unsquashfs.c:666-689): `none` when a block cannot be read. */
  method UncompressInodeTable(c: Codec, image: seq<Byte>, base: nat, end: nat, ghost s: seq<Byte>, ghost noI: bool)
    returns (ok: bool, data: seq<Byte>, hash: HashTable)
    requires c.Valid() && end == base + |Encode(c, s, noI)| && In(image, base, Encode(c, s, noI))
    ensures ok && data == s && hash.Valid() && Mapped(hash.entries, c, s, noI, base, |s|)
    ensures forall start :: start in hash.entries ==> start < end
  {
    hide Encode, ReadBlock, In, Mapped, HashTable.Valid;
    hash := new HashTable();
    data := [];
    var start := base;
    NothingYet(hash.entries, c, s, noI, base);
    while start < end
      invariant |data| <= |s| && data == s[..|data|] && (|data| % BLOCK == 0 || |data| == |s|)
      invariant start == base + |Encode(c, data, noI)|
      invariant hash.Valid() && fresh(hash) && fresh(hash.chains)
      invariant Mapped(hash.entries, c, s, noI, base, |data|)
      invariant forall k :: k in hash.entries ==> k < start
      decreases end - start
    {
      ghost var p := |data|;
      assert p == |s| ==> data == s;
      InTheMiddle(c, s, noI, p);
      ghost var block := BlockAt(c, image, base, s, noI, p);
      MappedNext(hash.entries, c, s, noI, base, p);
      MappedLess(hash.entries[start := p], c, s, noI, base, p + BLOCK, p + |block|);
      hash.Add(start, |data|);
      var b := ReadBlock(c, image, start);
      if b.Failed? {
        return false, data, hash;
      }
      start := b.next;
      data := data + b.data;
      assert s[..p + |block|] == s[..p] + block;
    }
    AllThere(c, s, noI, |data|);
    return true, data, hash;
  }

  lemma NothingYet(entries: map<nat, nat>, c: Codec, s: seq<Byte>, noI: bool, base: nat)
    ensures Mapped(entries, c, s, noI, base, 0) && Encode(c, [], noI) == [] && s[..0] == []
  {
  }

  /** Before the end of the table the stream goes on. */
  lemma InTheMiddle(c: Codec, s: seq<Byte>, noI: bool, p: nat)
    requires p <= |s| && |Encode(c, s[..p], noI)| < |Encode(c, s, noI)|
    ensures p < |s|
  {
    assert s[..|s|] == s;
  }

  lemma AllThere(c: Codec, s: seq<Byte>, noI: bool, p: nat)
    requires p <= |s| && (p % BLOCK == 0 || p == |s|) && |Encode(c, s[..p], noI)| >= |Encode(c, s, noI)|
    ensures p == |s| && s[..p] == s
  {
    if p < |s| {
      var block := EncodeAt(c, s, p, noI);
    }
  }

  lemma MappedLess(entries: map<nat, nat>, c: Codec, s: seq<Byte>, noI: bool, base: nat, m: nat, n: nat)
    requires Mapped(entries, c, s, noI, base, m) && (n <= m || m >= |s|)
    ensures Mapped(entries, c, s, noI, base, n)
  {
  }

  /** What is read where the stream goes on at `p`. */
  lemma BlockAt(c: Codec, image: seq<Byte>, base: nat, s: seq<Byte>, noI: bool, p: nat)
    returns (block: seq<Byte>)
    requires c.Valid() && In(image, base, Encode(c, s, noI)) && p < |s| && p % BLOCK == 0
    ensures block == if p + BLOCK <= |s| then s[p..p + BLOCK] else s[p..]
    ensures ReadBlock(c, image, base + |Encode(c, s[..p], noI)|)
         == Block(block, base + |Encode(c, s[..p + |block|], noI)|)
    ensures |Encode(c, s[..p + |block|], noI)| > |Encode(c, s[..p], noI)|
  {
    hide Encode, EncodeBlock, In, ReadBlock;
    block := EncodeAt(c, s, p, noI);
    InParts(image, base, Encode(c, s[..p], noI), EncodeBlock(c, block, noI) + Encode(c, s[p + |block|..], noI));
    InParts(image, base + |Encode(c, s[..p], noI)|, EncodeBlock(c, block, noI), Encode(c, s[p + |block|..], noI));
    ReadEncoded(c, image, base + |Encode(c, s[..p], noI)|, block, noI);
  }

  /** read_inode_4 (unsquash-4.c:92-97): the bytes from where a reference leads. */
  method Resolve(hash: HashTable, data: seq<Byte>, base: nat, r: nat) returns (ok: bool, bytes: seq<Byte>)
    requires hash.Valid()
    ensures ok == (base + InodeBlk(r) in hash.entries
                   && hash.entries[base + InodeBlk(r)] + InodeOffset(r) <= |data|)
    ensures ok ==> bytes == data[hash.entries[base + InodeBlk(r)] + InodeOffset(r)..]
  {
    var at := hash.Lookup(base + InodeBlk(r));
    if at.None? || at.value + InodeOffset(r) > |data| {
      return false, [];
    }
    return true, data[at.value + InodeOffset(r)..];
  }

  /** References do not depend on what is put after them. */
  lemma StartStable(c: Codec, s: seq<Byte>, more: seq<Byte>, p: nat, noI: bool)
    requires p <= |s|
    ensures StartOf(c, s + more, p, noI) == StartOf(c, s, p, noI)
  {
    var n := p - p % BLOCK;
    assert (s + more)[..n] == s[..n];
  }

  lemma StartLess(c: Codec, s: seq<Byte>, n: nat, noI: bool)
    requires n < |s| && n % BLOCK == 0
    ensures StartOf(c, s, n, noI) <= |Encode(c, s, noI)|
  {
    var block := EncodeAt(c, s, n, noI);
  }

  lemma Unpack(block: nat, offset: nat)
    requires block < 0x1_0000_0000 && offset < 0x1_0000
    ensures InodeBlk(MkInode(block, offset)) == block && InodeOffset(MkInode(block, offset)) == offset
  {
  }

  /** A reference that PutInode gives to the record at `p` when the stream is `s` leads, once `more` has
      been put after it, through the table that Finish writes and the positions that
      UncompressInodeTable finds, back to `p`. */
  lemma ReferenceResolves(c: Codec, s: seq<Byte>, more: seq<Byte>, noI: bool, base: nat, entries: map<nat, nat>,
                          p: nat)
    requires p <= |s| && p < |s + more| && |Encode(c, s + more, noI)| < 0x1_0000_0000
    requires Mapped(entries, c, s + more, noI, base, |s + more|)
    ensures var r := MkInode(StartOf(c, s, p, noI), p % BLOCK);
            && base + InodeBlk(r) in entries
            && entries[base + InodeBlk(r)] + InodeOffset(r) == p
  {
    hide Encode;
    var n := p - p % BLOCK;
    assert n % BLOCK == 0;
    StartStable(c, s, more, p, noI);
    StartLess(c, s + more, n, noI);
    assert StartOf(c, s + more, n, noI) == StartOf(c, s + more, p, noI);
    Unpack(StartOf(c, s, p, noI), p % BLOCK);
  }

  // -------------------------------------------------------------------------- writer and reader

  /** `r` is the reference to position `p` of the stream `s`. */
  predicate RefTo(c: Codec, noI: bool, s: seq<Byte>, r: nat, p: nat) {
    p <= |s| && r == MkInode(StartOf(c, s, p, noI), p % BLOCK)
  }

  lemma RefStable(c: Codec, noI: bool, s: seq<Byte>, more: seq<Byte>, r: nat, p: nat)
    requires RefTo(c, noI, s, r, p)
    ensures RefTo(c, noI, s + more, r, p)
  {
    StartStable(c, s, more, p, noI);
  }

  /** The most room that a table for `n` bytes takes: each block has a header of two bytes. */
  function TableRoom(n: nat): nat { n + 2 * (n / BLOCK + 1) }

  lemma {:induction false} EncodeRoom(c: Codec, s: seq<Byte>, noI: bool)
    ensures |Encode(c, s, noI)| <= TableRoom(|s|)
    decreases |s|
  {
    if |s| > BLOCK {
      EncodeRoom(c, s[BLOCK..], noI);
      assert |s| / BLOCK == |s[BLOCK..]| / BLOCK + 1;
    }
  }

  /** Records put into the table one after the other, as inodes are, and the references to them. */
  method StoreRecords(codec: Codec, noI: bool, records: seq<seq<Byte>>) returns (table: seq<Byte>, refs: seq<nat>)
    ensures table == Encode(codec, Flat(records), noI) && |refs| == |records|
    ensures forall i :: 0 <= i < |refs| ==> RefTo(codec, noI, Flat(records), refs[i], |Flat(records[..i])|)
  {
    hide Encode, StartOf, Flat;
    var w := new MetadataWriter(codec, noI);
    refs := [];
    NothingFlat(records);
    var i := 0;
    while i < |records|
      invariant 0 <= i == |refs| <= |records| && fresh(w) && w.Valid() && w.codec == codec && w.noI == noI
      invariant w.stream == Flat(records[..i])
      invariant forall k :: 0 <= k < i ==> RefTo(codec, noI, w.stream, refs[k], |Flat(records[..k])|)
    {
      ghost var before := w.stream;
      var r := w.PutInode(records[i]);
      forall k | 0 <= k < i ensures RefTo(codec, noI, w.stream, refs[k], |Flat(records[..k])|) {
        RefStable(codec, noI, before, records[i], refs[k], |Flat(records[..k])|);
      }
      FlatAppend(records[..i], records[i]);
      assert records[..i + 1] == records[..i] + [records[i]];
      refs := refs + [r];
      i := i + 1;
    }
    assert records[..i] == records;
    table := w.Finish();
  }

  lemma NothingFlat(records: seq<seq<Byte>>)
    ensures Flat(records[..0]) == []
  {
  }

  /** Every reference handed out leads back to its record, and to what comes after it; references have room
      for tables of less than 2^32 bytes. */
  method StoreAndResolve(codec: Codec, noI: bool, records: seq<seq<Byte>>, front: seq<Byte>)
    returns (ok: bool, table: seq<Byte>, out: seq<seq<Byte>>)
    requires codec.Valid() && forall i :: 0 <= i < |records| ==> records[i] != []
    ensures |table| <= TableRoom(|Flat(records)|) && (ok <==> |table| < 0x1_0000_0000)
    ensures ok ==> |out| == |records| && forall i :: 0 <= i < |out| ==>
              out[i] == Flat(records[i..]) && records[i] <= out[i]
  {
    hide Encode, StartOf, Flat, Mapped, In, RefTo, TableRoom;
    ghost var s := Flat(records);
    EncodeRoom(codec, s, noI);
    var refs;
    table, refs := StoreRecords(codec, noI, records);
    out := [];
    if |table| >= 0x1_0000_0000 {
      return false, table, out;
    }
    Behind(front, table);
    var read, data, hash := UncompressInodeTable(codec, front + table, |front|, |front + table|, s, noI);
    var i := 0;
    while i < |records|
      invariant 0 <= i == |out| <= |records|
      invariant forall k :: 0 <= k < i ==> out[k] == Flat(records[k..]) && records[k] <= out[k]
      modifies {}
    {
      LeadsTo(codec, noI, records, |front|, hash.entries, refs[i], i);
      var found, bytes := Resolve(hash, data, |front|, refs[i]);
      out := out + [bytes];
      i := i + 1;
    }
    return true, table, out;
  }

  lemma Behind(front: seq<Byte>, table: seq<Byte>)
    ensures In(front + table, |front|, table)
  {
  }

  lemma FlatFirst(records: seq<seq<Byte>>)
    requires records != []
    ensures records[0] <= Flat(records)
  {
    FlatSplit(records, 1);
    assert records[..1] == [] + [records[0]];
    FlatAppend([], records[0]);
  }

  lemma LeadsTo(c: Codec, noI: bool, records: seq<seq<Byte>>, base: nat, entries: map<nat, nat>, r: nat, i: nat)
    requires i < |records| && records[i] != [] && RefTo(c, noI, Flat(records), r, |Flat(records[..i])|)
    requires Mapped(entries, c, Flat(records), noI, base, |Flat(records)|)
    requires |Encode(c, Flat(records), noI)| < 0x1_0000_0000
    ensures base + InodeBlk(r) in entries
    ensures var at := entries[base + InodeBlk(r)] + InodeOffset(r);
            at <= |Flat(records)| && Flat(records)[at..] == Flat(records[i..]) && records[i] <= Flat(records[i..])
  {
    hide Encode, StartOf, Mapped, Flat;
    var s := Flat(records);
    FlatSplit(records, i);
    FlatFirst(records[i..]);
    assert s + [] == s;
    ReferenceResolves(c, s, [], noI, base, entries, |Flat(records[..i])|);
  }
}
