/** The directory table: write_dir appends a directory and fills in where in the table its index
    entries are. */
module DirectoryTable {
  import opened Basics
  import opened BitStrings
  import opened LittleEndian
  import opened Squashfs
  import opened Metadata
  import D = Directory

  /** The marks are in order. */
  predicate Increasing(index: seq<nat>) { forall i :: 0 < i < |index| ==> index[i - 1] < index[i] }

  lemma {:induction false} IncreasingFar(index: seq<nat>, i: nat, j: nat)
    requires Increasing(index) && i <= j < |index|
    ensures index[i] <= index[j]
  {
    if i < j {
      IncreasingFar(index, i, j - 1);
    }
  }

  /** Each mark has the position of the block that holds its byte of the directory, which begins at
      `p` of the stream. */
  ghost predicate Filled(c: Codec, noI: bool, stream: seq<Byte>, p: nat, index: seq<nat>, starts: seq<nat>) {
    && |starts| <= |index|
    && forall i :: 0 <= i < |starts| ==>
         p + index[i] <= |stream| && starts[i] == StartOf(c, stream, p + index[i], noI)
  }

  /** write_dir (mksquashfs.c:1645-1692): `block` and `offset` say where the directory begins, `starts`
      are the start_block fields of its index.  Between calls less than a block is in the cache. */
  method WriteDir(w: MetadataWriter, bytes: seq<Byte>, index: seq<nat>)
    returns (block: nat, offset: nat, starts: seq<nat>)
    requires w.Valid() && |w.cache| < BLOCK
    requires Increasing(index) && (index != [] ==> index[|index| - 1] < |bytes|)
    modifies w
    ensures w.Valid() && |w.cache| < BLOCK && w.stream == old(w.stream) + bytes
    ensures block == StartOf(w.codec, w.stream, |old(w.stream)|, w.noI) && offset == |old(w.stream)| % BLOCK
    ensures |starts| == |index| && Filled(w.codec, w.noI, w.stream, |old(w.stream)|, index, starts)
  {
    hide Encode, StartOf, Filled;
    NothingFilled(w.codec, w.noI, w.stream + bytes, |w.stream|, index);
    ghost var p := |w.stream|;
    offset := |w.cache|;
    block := |w.table|;
    ghost var n := p - offset;
    TableEnd(w.codec, w.noI, w.stream, w.table, w.cache);
    InBlock(w.codec, w.noI, w.stream, n, p);
    StartStable(w.codec, w.stream, bytes, p, w.noI);
    w.Append(bytes);
    starts := [];
    var i, limit := 0, BLOCK - offset;
    while true
      invariant w.Valid() && w.stream == old(w.stream) + bytes
      invariant limit + p == |w.stream| - |w.cache| + BLOCK
      invariant i == |starts| <= |index| && Filled(w.codec, w.noI, w.stream, p, index, starts)
      invariant i < |index| ==> p + index[i] >= |w.stream| - |w.cache|
      invariant |w.table| == StartOf(w.codec, w.stream, |w.stream| - |w.cache|, w.noI)
      decreases |w.cache|
    {
      while i < |index| && index[i] < limit
        invariant i == |starts| <= |index| && Filled(w.codec, w.noI, w.stream, p, index, starts)
        invariant i < |index| ==> p + index[i] >= |w.stream| - |w.cache|
        decreases |index| - i
        modifies {}
      {
        IncreasingFar(index, i, |index| - 1);
        FilledNext(w.codec, w.noI, w.stream, p, index, starts, |w.stream| - |w.cache|);
        starts := starts + [|w.table|];
        i := i + 1;
      }
      limit := limit + BLOCK;
      if i < |index| {
        IncreasingFar(index, i, |index| - 1);
      }
      if |w.cache| < BLOCK {
        break;
      }
      w.Store(BLOCK);
      TableEnd(w.codec, w.noI, w.stream, w.table, w.cache);
    }
  }

  /** Every byte of a block starts where the block does. */
  lemma InBlock(c: Codec, noI: bool, s: seq<Byte>, n: nat, p: nat)
    requires n <= p < n + BLOCK && p <= |s| && n % BLOCK == 0
    ensures StartOf(c, s, p, noI) == StartOf(c, s, n, noI) && p % BLOCK == p - n
  {
    assert p - p % BLOCK == n;
  }

  lemma TableEnd(c: Codec, noI: bool, s: seq<Byte>, table: seq<Byte>, cache: seq<Byte>)
    requires |cache| <= |s| && (|s| - |cache|) % BLOCK == 0 && table == Encode(c, s[..|s| - |cache|], noI)
    ensures |table| == StartOf(c, s, |s| - |cache|, noI)
  {
  }

  lemma NothingFilled(c: Codec, noI: bool, s: seq<Byte>, p: nat, index: seq<nat>)
    ensures Filled(c, noI, s, p, index, [])
  {
  }

  lemma FilledNext(c: Codec, noI: bool, s: seq<Byte>, p: nat, index: seq<nat>, starts: seq<nat>, n: nat)
    requires Filled(c, noI, s, p, index, starts) && |starts| < |index|
    requires n <= p + index[|starts|] < n + BLOCK && p + index[|starts|] <= |s| && n % BLOCK == 0 && n <= |s|
    ensures Filled(c, noI, s, p, index, starts + [StartOf(c, s, n, noI)])
  {
    InBlock(c, noI, s, n, p + index[|starts|]);
  }

  function Positions(index: seq<D.Mark>): (p: seq<nat>)
    ensures |p| == |index| && forall i :: 0 <= i < |p| ==> p[i] == index[i].index
  {
    seq(|index|, i requires 0 <= i < |index| => index[i].index)
  }

  // -------------------------------------------------------------------------- whole directories

  /** The fields of a directory inode that lead to its entries; the size is given three too large. */
  datatype Inode = Inode(block: nat, offset: nat, size: nat)

  /** The inode is that of the directory with these runs, which is at `p` of the stream. */
  ghost predicate DirAt(c: Codec, noI: bool, s: seq<Byte>, i: Inode, p: nat, runs: seq<D.Run>) {
    && D.RunsOk(runs) && p <= |s| && i.block == StartOf(c, s, p, noI) && i.offset == p % BLOCK
    && i.size == |D.Encode(runs)| + 3 && In(s, p, D.Encode(runs))
  }

  lemma DirStable(c: Codec, noI: bool, s: seq<Byte>, more: seq<Byte>, i: Inode, p: nat, runs: seq<D.Run>)
    requires DirAt(c, noI, s, i, p, runs)
    ensures DirAt(c, noI, s + more, i, p, runs)
  {
    StartStable(c, s, more, p, noI);
    InLonger(s, more, p, D.Encode(runs));
  }

  /** All of write_dir: the runs that add_dir has made go to the table, and every mark of their index gets
      the block of the run that it names. */
  method WriteDirectory(d: D.Directory, w: MetadataWriter) returns (i: Inode, starts: seq<nat>)
    requires d.Valid() && w.Valid() && |w.cache| < BLOCK
    modifies d, w
    ensures w.Valid() && |w.cache| < BLOCK && D.RunsOk(d.runs) && w.stream == old(w.stream) + D.Encode(d.runs)
    ensures d.runs == old(d.Made()).runs && D.Flatten(d.runs) == old(d.Entries())
    ensures d.index == old(d.index) && |starts| == |d.index|
    ensures DirAt(w.codec, w.noI, w.stream, i, |old(w.stream)|, d.runs)
    ensures forall k :: 0 <= k < |starts| ==>
              && D.Marks(d.runs, d.index[k]) && |old(w.stream)| + d.index[k].index <= |w.stream|
              && starts[k] == StartOf(w.codec, w.stream, |old(w.stream)| + d.index[k].index, w.noI)
  {
    hide StartOf, D.Encode, D.Marks, D.Flatten, D.RunOk, D.Directory.Valid, D.Directory.AllRuns, D.Directory.Entries;
    ghost var before := w.stream;
    var bytes := d.Finish();
    var block, offset;
    block, offset, starts := WriteDir(w, bytes, Positions(d.index));
    i := Inode(block, offset, |bytes| + 3);
    Behind(before, bytes);
  }

  /** Entries added one by one, and the directory written. */
  method StoreDirectory(w: MetadataWriter, entries: seq<D.Entry>) returns (i: Inode)
    requires w.Valid() && |w.cache| < BLOCK && D.AllValid(entries)
    modifies w
    ensures w.Valid() && |w.cache| < BLOCK && w.stream == old(w.stream) + D.TableOf(entries)
    ensures DirAt(w.codec, w.noI, w.stream, i, |old(w.stream)|, D.LayoutOf(entries).runs)
  {
    hide DirAt, D.Cut, D.Encode, D.Flatten, D.Directory.Valid, D.Directory.Entries, D.Grow;
    var d := new D.Directory();
    var k := 0;
    while k < |entries|
      invariant 0 <= k <= |entries| && fresh(d) && d.Valid() && d.Made() == D.LayoutOf(entries[..k])
      modifies d
    {
      assert entries[..k + 1][..k] == entries[..k];
      d.AddDir(entries[k]);
      k := k + 1;
    }
    assert entries[..k] == entries;
    var starts;
    i, starts := WriteDirectory(d, w);
  }

  /** squashfs_opendir_4 (unsquash-4.c:245-320): none when there is no block where the inode says. */
  method OpenDirectory(hash: HashTable, t: seq<Byte>, base: nat, i: Inode, ghost p: nat, ghost runs: seq<D.Run>)
    returns (entries: Option<seq<D.Entry>>)
    requires hash.Valid() && D.RunsOk(runs) && In(t, p, D.Encode(runs)) && i.size == |D.Encode(runs)| + 3
    requires base + i.block in hash.entries ==> hash.entries[base + i.block] + i.offset == p
    ensures entries == if base + i.block in hash.entries then Some(D.Flatten(runs)) else None
  {
    hide D.Encode, D.Flatten, In;
    var at := hash.Lookup(base + i.block);
    if at.None? {
      return None;
    }
    var bytes := at.value + i.offset;
    var all := D.ReadDirectory(t, bytes, i.size + bytes - 3, runs);
    entries := Some(all);
  }

  /** A directory can be opened when the table has a block for it: that is, unless it is empty, would begin a
      block, and nothing comes after it. */
  lemma Opens(c: Codec, noI: bool, s: seq<Byte>, base: nat, entries: map<nat, nat>, i: Inode, p: nat,
              runs: seq<D.Run>)
    requires DirAt(c, noI, s, i, p, runs) && Mapped(entries, c, s, noI, base, |s|)
    requires forall start :: start in entries ==> start < base + |Encode(c, s, noI)|
    ensures base + i.block in entries <==> i.offset != 0 || p < |s|
    ensures base + i.block in entries ==> entries[base + i.block] + i.offset == p
  {
    hide Encode;
    var n := p - p % BLOCK;
    assert n % BLOCK == 0 && StartOf(c, s, p, noI) == StartOf(c, s, n, noI);
    if n == |s| {
      assert s[..n] == s;
    }
  }

  ghost predicate DirsValid(dirs: seq<seq<D.Entry>>) { forall k :: 0 <= k < |dirs| ==> D.AllValid(dirs[k]) }

  /** What directories take in the table, one after the other. */
  ghost function TableOf(dirs: seq<seq<D.Entry>>): seq<Byte>
    requires DirsValid(dirs)
  {
    Flat(seq(|dirs|, k requires 0 <= k < |dirs| => D.TableOf(dirs[k])))
  }

  lemma TableNext(dirs: seq<seq<D.Entry>>, n: nat)
    requires DirsValid(dirs) && n < |dirs|
    ensures TableOf(dirs[..n + 1]) == TableOf(dirs[..n]) + D.TableOf(dirs[n])
  {
    hide D.TableOf;
    var a := seq(n, k requires 0 <= k < n => D.TableOf(dirs[..n][k]));
    FlatAppend(a, D.TableOf(dirs[n]));
    assert seq(n + 1, k requires 0 <= k < n + 1 => D.TableOf(dirs[..n + 1][k])) == a + [D.TableOf(dirs[n])];
  }

  lemma DirectoryRoom(entries: seq<D.Entry>)
    requires D.AllValid(entries)
    ensures |D.TableOf(entries)| <= D.MOST * |entries| && (D.TableOf(entries) == [] <==> entries == [])
  {
    D.RunsRoom(D.LayoutOf(entries).runs);
  }

  lemma {:induction false} TableRoomOf(dirs: seq<seq<D.Entry>>, n: nat)
    requires DirsValid(dirs) && n <= |dirs|
    ensures |TableOf(dirs[..n])| <= D.MOST * |Flat(dirs[..n])|
  {
    hide D.TableOf, TableOf, Flat, D.AllValid;
    if n == 0 {
      NoTable(dirs);
    } else {
      TableRoomOf(dirs, n - 1);
      TableNext(dirs, n - 1);
      DirectoryRoom(dirs[n - 1]);
      FlatNext(dirs, n - 1);
      assert |TableOf(dirs[..n])| <= D.MOST * |Flat(dirs[..n - 1])| + D.MOST * |dirs[n - 1]|;
      MostOfBoth(|Flat(dirs[..n - 1])|, |dirs[n - 1]|);
    }
  }

  lemma MostOfBoth(m: nat, n: nat)
    ensures D.MOST * (m + n) == D.MOST * m + D.MOST * n
  {
  }

  lemma FlatNext(dirs: seq<seq<D.Entry>>, n: nat)
    requires n < |dirs|
    ensures |Flat(dirs[..n + 1])| == |Flat(dirs[..n])| + |dirs[n]|
  {
    assert dirs[..n + 1] == dirs[..n] + [dirs[n]];
    FlatAppend(dirs[..n], dirs[n]);
  }

  /** Some of the directories from `i` on has entries. */
  ghost predicate SomeEntries(dirs: seq<seq<D.Entry>>, i: nat) { exists j :: i <= j < |dirs| && dirs[j] != [] }

  /** So that there is something in the table behind where directory `i` begins. */
  lemma {:induction false} SomethingBehind(dirs: seq<seq<D.Entry>>, i: nat)
    requires DirsValid(dirs) && i <= |dirs|
    ensures |TableOf(dirs[..i])| <= |TableOf(dirs)|
    ensures |TableOf(dirs[..i])| < |TableOf(dirs)| <==> SomeEntries(dirs, i)
    decreases |dirs| - i
  {
    if i == |dirs| {
      assert dirs[..i] == dirs;
    } else {
      SomeOn(dirs, i);
      hide D.TableOf, TableOf, SomeEntries, D.AllValid;
      SomethingBehind(dirs, i + 1);
      TableNext(dirs, i);
      DirectoryRoom(dirs[i]);
    }
  }

  lemma SomeOn(dirs: seq<seq<D.Entry>>, i: nat)
    requires i < |dirs|
    ensures SomeEntries(dirs, i) <==> dirs[i] != [] || SomeEntries(dirs, i + 1)
  {
  }

  /** Directories stored one after the other. */
  method StoreDirectories(codec: Codec, noI: bool, dirs: seq<seq<D.Entry>>)
    returns (table: seq<Byte>, inodes: seq<Inode>)
    requires DirsValid(dirs)
    ensures table == Encode(codec, TableOf(dirs), noI) && |inodes| == |dirs|
    ensures forall k :: 0 <= k < |dirs| ==>
              DirAt(codec, noI, TableOf(dirs), inodes[k], |TableOf(dirs[..k])|, D.LayoutOf(dirs[k]).runs)
  {
    hide Encode, TableOf, DirAt, D.AllValid, D.TableOf, D.LayoutOf;
    var w := new MetadataWriter(codec, noI);
    NoTable(dirs);
    inodes := [];
    var n := 0;
    while n < |dirs|
      invariant 0 <= n == |inodes| <= |dirs| && fresh(w) && w.Valid() && |w.cache| < BLOCK
      invariant w.codec == codec && w.noI == noI && w.stream == TableOf(dirs[..n])
      invariant forall k :: 0 <= k < n ==>
                  DirAt(codec, noI, w.stream, inodes[k], |TableOf(dirs[..k])|, D.LayoutOf(dirs[k]).runs)
    {
      ghost var before := w.stream;
      var i := StoreDirectory(w, dirs[n]);
      TableNext(dirs, n);
      forall k | 0 <= k < n
        ensures DirAt(codec, noI, w.stream, inodes[k], |TableOf(dirs[..k])|, D.LayoutOf(dirs[k]).runs)
      {
        DirStable(codec, noI, before, D.TableOf(dirs[n]), inodes[k], |TableOf(dirs[..k])|, D.LayoutOf(dirs[k]).runs);
      }
      inodes := inodes + [i];
      n := n + 1;
    }
    assert dirs[..n] == dirs;
    table := w.Finish();
  }

  lemma NoTable(dirs: seq<seq<D.Entry>>)
    ensures TableOf(dirs[..0]) == []
  {
  }

  /** Directory `k` begins a block of the table and nothing comes after it. */
  ghost predicate Unfound(dirs: seq<seq<D.Entry>>, k: nat)
    requires DirsValid(dirs) && k < |dirs|
  {
    |TableOf(dirs[..k])| % BLOCK == 0 && !SomeEntries(dirs, k)
  }

  /** Directories stored, and opened by what their inodes say: each has its entries, names cut to what the
      format has room for, and can be opened unless it is empty, would begin a block, and no directory after
      it has entries.  Positions in the table have room for 32 bits. */
  method StoreAndOpen(codec: Codec, noI: bool, dirs: seq<seq<D.Entry>>, front: seq<Byte>)
    returns (table: seq<Byte>, out: seq<Option<seq<D.Entry>>>)
    requires codec.Valid() && DirsValid(dirs)
    ensures |table| <= TableRoom(D.MOST * |Flat(dirs)|)
    ensures |table| < 0x1_0000_0000 ==> |out| == |dirs| && forall k :: 0 <= k < |dirs| ==>
              out[k] == if Unfound(dirs, k) then None else Some(D.Cuts(dirs[k]))
  {
    hide Encode, Flat, D.AllValid, Mapped, In, SomeEntries, D.Encode, D.Flatten, TableOf, D.LayoutOf, Unfound;
    ghost var s := TableOf(dirs);
    var inodes;
    table, inodes := StoreDirectories(codec, noI, dirs);
    assert dirs[..|dirs|] == dirs;
    TableRoomOf(dirs, |dirs|);
    EncodeRoom(codec, s, noI);
    RoomGrows(|s|, D.MOST * |Flat(dirs)|);
    Behind(front, table);
    var read, data, hash := UncompressInodeTable(codec, front + table, |front|, |front + table|, s, noI);
    out := [];
    var k := 0;
    while k < |dirs|
      invariant 0 <= k == |out| <= |dirs|
      invariant forall j :: 0 <= j < k ==> out[j] == if Unfound(dirs, j) then None else Some(D.Cuts(dirs[j]))
      modifies {}
    {
      ghost var p, runs := |TableOf(dirs[..k])|, D.LayoutOf(dirs[k]).runs;
      Opens(codec, noI, s, |front|, hash.entries, inodes[k], p, runs);
      UnfoundIs(codec, noI, dirs, k, inodes[k], runs);
      var entries := OpenDirectory(hash, data, |front|, inodes[k], p, runs);
      out := out + [entries];
      k := k + 1;
    }
  }

  lemma UnfoundIs(c: Codec, noI: bool, dirs: seq<seq<D.Entry>>, k: nat, i: Inode, runs: seq<D.Run>)
    requires DirsValid(dirs) && k < |dirs| && DirAt(c, noI, TableOf(dirs), i, |TableOf(dirs[..k])|, runs)
    ensures Unfound(dirs, k) <==> i.offset == 0 && |TableOf(dirs[..k])| >= |TableOf(dirs)|
  {
    hide TableOf;
    SomethingBehind(dirs, k);
  }

  /** An image that has only an empty directory: the directory cannot be opened. */
  method EmptyRoot(codec: Codec, noI: bool, front: seq<Byte>) returns (root: Option<seq<D.Entry>>)
    requires codec.Valid()
    ensures root == None
  {
    var table, out := StoreAndOpen(codec, noI, [[]], front);
    NoTable([[]]);
    assert Flat<D.Entry>([[]]) == [] by { FlatAppend<D.Entry>([], []); }
    root := out[0];
  }

  lemma RoomGrows(m: nat, n: nat)
    requires m <= n
    ensures TableRoom(m) <= TableRoom(n)
  {
    assert m / BLOCK <= n / BLOCK;
  }
}
