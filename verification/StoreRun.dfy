/** Whole runs of mksquashfs over files, with what unsquashfs makes of them: files already stored are
    found, and every file comes out again. */
module StoreRun {
  import opened Basics
  import opened BitStrings
  import opened Squashfs
  import opened FileStore
  import opened FileExtract
  import opened Dedup

  // ------------------------------------------------------------------ what the table knows

  /** An entry of the dupl table that is a regular file's with these contents. */
  predicate Regular(o: Options, st: Store, f: Info, data: seq<Byte>)
    requires o.blockSize > 0
  {
    && st.InfoIn(f) && f.size == |data| && f.words == o.Words(o.Body(data)) && st.TailBytes(f) == o.Tail(data)
    && st.BlockBytes(f.start, f.words) == o.StoredBytes(o.Body(data))
  }

  /** One of a process that wrote nothing, or whose last block is lost: no regular file is the same. */
  predicate Odd(o: Options, f: Info) { f.size == 0 || f.fragSize == o.blockSize }

  /** The contents of the files of the table; those of an odd one are left empty. */
  ghost predicate Known(o: Options, st: Store, infos: seq<Info>, known: seq<seq<Byte>>) {
    && o.blockSize > 0 && |infos| == |known|
    && forall k :: 0 <= k < |infos| ==> KnownAs(o, st, infos[k], known[k])
  }

  predicate KnownAs(o: Options, st: Store, f: Info, data: seq<Byte>)
    requires o.blockSize > 0
  {
    if data == [] then Odd(o, f) else Regular(o, st, f, data)
  }

  /** The new file's blocks are in the image and its tail is at hand. */
  ghost predicate IsNew(o: Options, st: Store, c: Candidate, data: seq<Byte>)
    requires o.blockSize > 0
  {
    && c.start + Total(c.words) <= |st.image| && c.size == |data| && c.words == o.Words(o.Body(data))
    && c.tail == o.Tail(data) && st.BlockBytes(c.start, c.words) == o.StoredBytes(o.Body(data))
  }

  /** Blocks and list of a file, and its size, leave no doubt of it. */
  lemma {:induction false} WordsInjective(o: Options, a: seq<Byte>, b: seq<Byte>)
    requires o.Valid() && |a| == |b| && o.Words(a) == o.Words(b) && o.StoredBytes(a) == o.StoredBytes(b)
    ensures a == b
    decreases |a|
  {
    if a != [] {
      var x, y := a[..o.Cut(a)], b[..o.Cut(b)];
      o.BlockPacked([], x);
      o.BlockPacked([], y);
      hide Options.Bytes, Options.Word, Codec.Valid, SizeBlock, Unmangle, AllZero;
      assert o.Words(a)[0] == o.Word(x) && o.Words(b)[0] == o.Word(y);
      assert o.Words(a)[1..] == o.Words(a[o.Cut(a)..]) && o.Words(b)[1..] == o.Words(b[o.Cut(b)..]);
      assert o.StoredBytes(a)[..|o.Bytes(x)|] == o.Bytes(x) && o.StoredBytes(b)[..|o.Bytes(y)|] == o.Bytes(y);
      assert o.StoredBytes(a)[|o.Bytes(x)|..] == o.StoredBytes(a[o.Cut(a)..]);
      assert o.StoredBytes(b)[|o.Bytes(y)|..] == o.StoredBytes(b[o.Cut(b)..]);
      SameBlock(o.codec, o.Bytes(x), o.Word(x), x, y);
      WordsInjective(o, a[o.Cut(a)..], b[o.Cut(b)..]);
      assert a == x + a[o.Cut(a)..] && b == y + b[o.Cut(b)..];
    }
  }

  lemma SameBlock(c: Codec, bytes: seq<Byte>, word: nat, x: seq<Byte>, y: seq<Byte>)
    requires BlockIs(c, [] + bytes, 0, word, x) && BlockIs(c, [] + bytes, 0, word, y) && |x| == |y|
    ensures x == y
  {
    if word == 0 {
      assert forall i :: 0 <= i < |x| ==> x[i] == y[i];
    }
  }

  /** The same for a file in the table is: the same contents. */
  lemma SameExactly(o: Options, st: Store, f: Info, c: Candidate, known: seq<Byte>, data: seq<Byte>)
    requires o.Valid() && IsNew(o, st, c, data) && KnownAs(o, st, f, known) && data != [] && st.InfoIn(f)
    ensures st.Same(f, c) <==> known == data
  {
    hide Options.Words, Options.StoredBytes, Options.TailSize, Total, Codec.Valid;
    if known == [] {
      assert !st.Same(f, c);
    } else if st.Same(f, c) {
      WordsInjective(o, o.Body(known), o.Body(data));
      assert known == o.Body(known) + o.Tail(known) && data == o.Body(data) + o.Tail(data);
    }
  }

  /** What is stored later changes nothing of what the table says. */
  lemma KnownGrows(o: Options, st: Store, st': Store, a: seq<Info>, b: seq<Info>, known: seq<seq<Byte>>)
    requires Known(o, st, a, known) && AllUnchecked(a, b)
    requires st.image <= st'.image && Grown(st.fragments, st'.fragments)
    ensures Known(o, st', b, known)
  {
    hide KnownAs;
    forall k | 0 <= k < |b| ensures KnownAs(o, st', b[k], known[k]) {
      KnownStays(o, st, st', a[k], b[k], known[k]);
    }
  }

  lemma KnownStays(o: Options, st: Store, st': Store, f: Info, f': Info, data: seq<Byte>)
    requires o.blockSize > 0 && KnownAs(o, st, f, data) && Unchecked(f) == Unchecked(f')
    requires st.image <= st'.image && Grown(st.fragments, st'.fragments)
    ensures KnownAs(o, st', f', data)
  {
    hide Options.Words, Options.StoredBytes, Options.TailSize, Total;
    if data != [] {
      assert st'.BlockBytes(f.start, f.words) == st.BlockBytes(f.start, f.words);
      assert st'.TailBytes(f) == st.TailBytes(f);
    }
  }

  lemma KnownMore(o: Options, st: Store, infos: seq<Info>, known: seq<seq<Byte>>, f: Info, data: seq<Byte>)
    requires Known(o, st, infos, known) && KnownAs(o, st, f, data)
    ensures Known(o, st, infos + [f], known + [data])
  {
    hide KnownAs;
  }

  /** The table before, with the sums that have been computed since, when the new blocks are dropped. */
  lemma ValidDropped(t: Table, st: Store, st': Store, before: seq<Info>)
    requires t.Valid(st') && AllUnchecked(before, t.infos) && st.image <= st'.image && st.fragments == st'.fragments
    requires forall k :: 0 <= k < |before| ==> st.InfoIn(before[k])
    ensures t.Valid(st)
  {
    hide Checksum, Total;
    forall k | 0 <= k < |before| ensures st.InfoOk(t.infos[k]) {
      var f := t.infos[k];
      assert Unchecked(before[k]) == Unchecked(f);
      assert st'.BlockBytes(f.start, f.words) == st.BlockBytes(f.start, f.words);
      assert st'.TailBytes(f) == st.TailBytes(f);
    }
  }

  /** When its blocks have been put, the file is a candidate. */
  lemma NewCandidate(o: Options, t: Table, image: seq<Byte>, st: Store, c: Candidate, data: seq<Byte>)
    requires o.Valid() && t.blockSize == o.blockSize && data != []
    requires st.image == image + o.StoredBytes(o.Body(data))
    requires c == Candidate(|data|, o.Words(o.Body(data)), if o.Words(o.Body(data)) == [] then 0 else |image|,
                            o.Tail(data))
    ensures IsNew(o, st, c, data) && t.Candidate(st, c)
    ensures Blocks(o.codec, o.blockSize, st.image, c.start, c.words, o.Body(data))
  {
    hide Options.Words, Options.StoredBytes, Options.TailSize, Represents, Blocks, Codec.Valid, TailAt;
    var body := o.Body(data);
    BodyAt(o, image, body, c.start);
    assert st.image[|image|..|image| + |o.StoredBytes(body)|] == o.StoredBytes(body);
    CandidateLength(o, image, c, data);
  }

  lemma BodyAt(o: Options, image: seq<Byte>, body: seq<Byte>, start: nat)
    requires o.Valid() && start == if o.Words(body) == [] then 0 else |image|
    ensures Total(o.Words(body)) == |o.StoredBytes(body)|
    ensures o.Words(body) == [] ==> body == [] && o.StoredBytes(body) == []
    ensures Blocks(o.codec, o.blockSize, image + o.StoredBytes(body), start, o.Words(body), body)
  {
    o.PackedBlocks(image, body);
    TotalEnd(|image|, o.Words(body));
  }

  lemma CandidateLength(o: Options, image: seq<Byte>, c: Candidate, data: seq<Byte>)
    requires o.Valid() && c.words == o.Words(o.Body(data)) && c.tail == o.Tail(data) && c.size == |data|
    ensures |c.words| == if |c.tail| == 0 then Ceiling(c.size, o.blockSize) else c.size / o.blockSize
  {
    hide Options.Words, Options.StoredBytes, Options.TailSize, Represents, Codec.Valid;
    var f := if c.tail == [] then NoFragment else At(0, 0);
    var start := if c.words == [] then 0 else |image|;
    assert TailAt([c.tail], f, c.tail);
    RegularStands(o, image, start, [c.tail], data, f);
    CountAgrees(o.codec, o.blockSize, image + o.StoredBytes(o.Body(data)), [c.tail],
                Inode(|data|, start, c.words, f), data);
  }

  // ------------------------------------------------------------------------ storing a file

  /** What the writer has stored. */
  function StoreOf(w: Writer): Store
    reads w
  {
    Store(w.image, w.All())
  }

  ghost predicate Ready(w: Writer, t: Table, known: seq<seq<Byte>>)
    reads w, t
  {
    w.Valid() && t.blockSize == w.o.blockSize && t.Valid(StoreOf(w)) && Known(w.o, StoreOf(w), t.infos, known)
  }

  /** The search of write_file_frag, write_file_frag_dup and write_file_blocks_dup (lines 2826-2890,
      3142-3143, 3244-3250), which is left out when no file has the size. */
  method Search(t: Table, st: Store, c: Candidate, seen0: bool, ghost o: Options, ghost data: seq<Byte>,
                ghost known: seq<seq<Byte>>)
    returns (found: bool, k: nat, sums: Sums)
    requires o.Valid() && t.Valid(st) && t.Candidate(st, c) && IsNew(o, st, c, data) && data != []
    requires Known(o, st, t.infos, known)
    requires seen0 <==> exists j :: 0 <= j < |t.infos| && t.infos[j].size == c.size
    modifies t`infos
    ensures t.Valid(st) && AllUnchecked(old(t.infos), t.infos) && SumsOk(st, c, sums)
    ensures found ==> k < |t.infos| && st.Same(t.infos[k], c)
    ensures found <==> data in known
  {
    assert c.start + Total(c.words) <= |st.image|;
    hide Checksum, Known, IsNew, Table.Candidate, Store.Same, TailSum, WholeTail;
    var seen := seen0;
    sums, found, k := NoSums, false, 0;
    ghost var before := t.infos;
    if |c.tail| == c.size {
      var sum := GetChecksum(c.tail, 0);
      TailOnly(o, st, c, data, sum);
      seen := t.PreDuplicateFrag(st, c.size, sum);
      sums := Sums(0, sum);
      if !seen {
        NoSuchTail(t, st, c, sum);
      }
    } else if !seen {
      NoSuchSize(t, st, c);
    }
    ghost var between := t.infos;
    if seen {
      found, k, sums := t.Duplicate(st, c, sums);
    }
    Unchanged(before, between, t.infos);
    KnownGrows(o, st, st, before, t.infos, known);
    SameKnown(o, t, st, c, data, known);
  }

  lemma TailOnly(o: Options, st: Store, c: Candidate, data: seq<Byte>, sum: nat)
    requires o.blockSize > 0 && IsNew(o, st, c, data) && |c.tail| == c.size && sum == Checksum(c.tail, 0)
    ensures SumsOk(st, c, Sums(0, sum))
  {
    hide Options.TailSize;
    assert o.Body(data) == [];
    assert st.BlockBytes(c.start, c.words) == [];
  }

  lemma NoSuchTail(t: Table, st: Store, c: Candidate, sum: nat)
    requires t.Valid(st) && c.start + Total(c.words) <= |st.image| && |c.tail| == c.size && sum == Checksum(c.tail, 0)
    requires forall k :: 0 <= k < |t.infos| && WholeTail(t.infos[k], c.size) ==> TailSum(st, t.infos[k]) != sum
    ensures forall k :: 0 <= k < |t.infos| ==> !st.Same(t.infos[k], c)
  {
    hide Checksum, Total;
    forall k | 0 <= k < |t.infos| ensures !st.Same(t.infos[k], c) {
      var f := t.infos[k];
      assert st.InfoIn(f);
      assert st.Same(f, c) ==> WholeTail(f, c.size) && TailSum(st, f) == sum;
    }
  }

  lemma NoSuchSize(t: Table, st: Store, c: Candidate)
    requires t.Valid(st) && c.start + Total(c.words) <= |st.image|
    requires forall k :: 0 <= k < |t.infos| ==> t.infos[k].size != c.size
    ensures forall k :: 0 <= k < |t.infos| ==> !st.Same(t.infos[k], c)
  {
    hide Checksum, Total;
    forall k | 0 <= k < |t.infos| ensures !st.Same(t.infos[k], c) {
      assert st.InfoIn(t.infos[k]);
    }
  }

  lemma Unchanged(a: seq<Info>, b: seq<Info>, c: seq<Info>)
    requires AllUnchecked(a, b) && AllUnchecked(b, c)
    ensures AllUnchecked(a, c)
  {
    forall k | 0 <= k < |a| ensures Unchecked(a[k]) == Unchecked(c[k]) {
      assert Unchecked(a[k]) == Unchecked(b[k]) && Unchecked(b[k]) == Unchecked(c[k]);
    }
  }

  lemma SameKnown(o: Options, t: Table, st: Store, c: Candidate, data: seq<Byte>, known: seq<seq<Byte>>)
    requires o.Valid() && t.Valid(st) && Known(o, st, t.infos, known) && IsNew(o, st, c, data) && data != []
    ensures data in known <==> exists k :: 0 <= k < |t.infos| && st.Same(t.infos[k], c)
  {
    assert c.start + Total(c.words) <= |st.image|;
    assert forall k :: 0 <= k < |t.infos| ==> st.InfoIn(t.infos[k]);
    hide KnownAs, IsNew, Store.Same, Store.InfoIn;
    forall k | 0 <= k < |t.infos| ensures st.InfoIn(t.infos[k]) && (st.Same(t.infos[k], c) <==> known[k] == data) {
      assert KnownAs(o, st, t.infos[k], known[k]);
      SameExactly(o, st, t.infos[k], c, known[k], data);
    }
  }

  /** The inode for a file that is the same as one stored before. */
  function InodeOfSame(size: nat, words: seq<nat>, f: Info): Inode {
    Inode(size, if words == [] then 0 else f.start, f.words, if f.fragSize == 0 then NoFragment else f.frag)
  }

  lemma FoundStands(o: Options, image: seq<Byte>, st: Store, f: Info, c: Candidate, data: seq<Byte>)
    requires o.Valid() && data != [] && st.InfoIn(f) && c.start + Total(c.words) <= |st.image| && st.Same(f, c)
    requires image <= st.image && f.start + Total(f.words) <= |image|
    requires IsNew(o, st, c, data) && Blocks(o.codec, o.blockSize, st.image, c.start, c.words, o.Body(data))
    ensures Represents(o.codec, o.blockSize, image, st.fragments, InodeOfSame(|data|, c.words, f), data)
  {
    hide Options.Words, Options.StoredBytes, Blocks, Represents, Total;
    assert st.image[..|image|] == image;
    var start := if c.words == [] then 0 else f.start;
    DuplicateMeansSame(o.codec, o.blockSize, st, f, c, data, |image|, start);
  }

  /** A file's blocks have been put behind what was stored in `st`, and `before` was the table. */
  ghost predicate Put(w: Writer, t: Table, st: Store, before: seq<Info>, c: Candidate, data: seq<Byte>,
                      known: seq<seq<Byte>>)
    reads w, t
  {
    && w.Valid() && t.blockSize == w.o.blockSize && t.Valid(StoreOf(w)) && data != []
    && StoreOf(w) == Store(st.image + w.o.StoredBytes(w.o.Body(data)), st.fragments)
    && Placed(w.o.codec, st.image, w.table, w.fragments)
    && AllUnchecked(before, t.infos) && Known(w.o, st, before, known)
    && (forall k :: 0 <= k < |before| ==> st.InfoIn(before[k]))
    && c == Candidate(|data|, w.o.Words(w.o.Body(data)), if w.o.Words(w.o.Body(data)) == [] then 0 else |st.image|,
                      w.o.Tail(data))
  }

  /** Lines 3152-3168: the inode points at the file found, and the new blocks are dropped. */
  method Reuse(w: Writer, t: Table, k: nat, at: nat, ghost st: Store, ghost before: seq<Info>, ghost c: Candidate,
               data: seq<Byte>, words: seq<nat>, ghost known: seq<seq<Byte>>)
    returns (i: Inode)
    requires Put(w, t, st, before, c, data, known) && at == |st.image| && k < |t.infos| && words == c.words
    requires IsNew(w.o, StoreOf(w), c, data) && StoreOf(w).InfoIn(t.infos[k]) && StoreOf(w).Same(t.infos[k], c)
    modifies w`image
    ensures StoreOf(w) == st && Ready(w, t, known) && w.Stores(i, data)
  {
    hide Options.Words, Options.StoredBytes, Options.TailSize, Represents, Known, Placed, IsNew;
    hide Store.Same, TailAt, Checksum, Total, Table.Valid;
    ghost var full := StoreOf(w);
    i := InodeOfSame(|data|, words, t.infos[k]);
    w.RollBack(at, st.image);
    ValidDropped(t, st, full, before);
    KnownGrows(w.o, st, st, before, t.infos, known);
    assert Unchecked(before[k]) == Unchecked(t.infos[k]);
    NewCandidate(w.o, t, st.image, full, c, data);
    FoundStands(w.o, st.image, full, t.infos[k], c, data);
  }

  /** What add_non_dup keeps of the new file. */
  function InfoOf(c: Candidate, f: Fragment, sums: Sums): Info {
    Info(c.size, c.words, c.start, f, |c.tail|, sums.Sums?,
         if sums.Sums? then sums.sum else 0, if sums.Sums? then sums.tail else 0)
  }

  lemma NewInfo(o: Options, t: Table, st: Store, st': Store, c: Candidate, data: seq<Byte>, sums: Sums, f: Fragment)
    requires o.Valid() && IsNew(o, st, c, data) && t.blockSize == o.blockSize && t.Candidate(st, c)
    requires SumsOk(st, c, sums) && st'.image == st.image && TailAt(st'.fragments, f, c.tail) && data != []
    ensures st'.InfoOk(InfoOf(c, f, sums)) && t.Shape(InfoOf(c, f, sums))
    ensures KnownAs(o, st', InfoOf(c, f, sums), data)
  {
    hide Options.Words, Options.StoredBytes, Options.TailSize, Checksum, Total, Table.BlocksOf;
    var info := InfoOf(c, f, sums);
    assert st'.InfoIn(info) && st'.TailBytes(info) == c.tail;
  }

  /** Lines 3145-3151 and what duplicate ends with: the file gets its tail and an entry in the table. */
  method Enter(w: Writer, t: Table, ghost st: Store, ghost before: seq<Info>, c: Candidate, sums: Sums,
               data: seq<Byte>, ghost known: seq<seq<Byte>>)
    returns (i: Inode)
    requires Put(w, t, st, before, c, data, known) && IsNew(w.o, StoreOf(w), c, data) && t.Candidate(StoreOf(w), c)
    requires SumsOk(StoreOf(w), c, sums)
    modifies w, t
    ensures Ready(w, t, known + [data]) && w.Stores(i, data) && old(StoreOf(w).image) <= w.image
    ensures Grown(old(StoreOf(w).fragments), w.All())
  {
    hide Options.Words, Options.StoredBytes, Options.TailSize, Represents, Known, Placed, IsNew;
    hide Store.Same, TailAt, Checksum, Total, Table.Valid, SumsOk, Table.Candidate, KnownAs, InfoOf, Store.InfoOk;
    hide Table.Shape, Grown;
    ghost var full := StoreOf(w);
    var f := w.FillFragment(c.tail);
    NewInfo(w.o, t, full, StoreOf(w), c, data, sums, f);
    t.ValidGrows(full, StoreOf(w));
    KnownGrows(w.o, st, StoreOf(w), before, t.infos, known);
    KnownMore(w.o, StoreOf(w), t.infos, known, InfoOf(c, f, sums), data);
    t.AddNonDup(StoreOf(w), InfoOf(c, f, sums));
    i := Inode(c.size, c.start, c.words, f);
    RegularStands(w.o, st.image, c.start, w.All(), data, f);
  }

  /** write_file (lines 3220-3257) for a regular file, when duplicates are looked for: the file is stored
      unless one with the same contents is. */
  method StoreFile(w: Writer, t: Table, data: seq<Byte>, ghost known: seq<seq<Byte>>)
    returns (i: Inode, duplicate: bool)
    requires Ready(w, t, known)
    modifies w, t
    ensures w.Stores(i, data)
    ensures duplicate <==> data != [] && data in known
    ensures duplicate || data == [] ==> StoreOf(w) == old(StoreOf(w)) && Ready(w, t, known)
    ensures !duplicate && data != [] ==> Ready(w, t, known + [data])
    ensures old(w.image) <= w.image && Grown(old(w.All()), w.All())
  {
    hide Options.Words, Options.StoredBytes, Options.TailSize, Represents, Known, Placed, IsNew, Table.Candidate;
    hide Store.Same, SumsOk, TailAt, Checksum, Total;
    GrownSelf(w.All());
    if data == [] {
      i := Inode(0, 0, [], NoFragment);
      EmptyStands(w.o, w.image, w.All());
      return i, false;
    }
    ghost var st, before := StoreOf(w), t.infos;
    var at := |w.image|;
    var seen := t.PreDuplicate(StoreOf(w), |data|);
    var words, tail := w.PutBlocks(data);
    var c := Candidate(|data|, words, if words == [] then 0 else at, tail);
    t.ValidGrows(st, StoreOf(w));
    KnownGrows(w.o, st, StoreOf(w), before, before, known);
    NewCandidate(w.o, t, st.image, StoreOf(w), c, data);
    var found, k, sums := Search(t, StoreOf(w), c, seen, w.o, data, known);
    duplicate := found;
    if found {
      i := Reuse(w, t, k, at, st, before, c, data, words, known);
    } else {
      i := Enter(w, t, st, before, c, sums, data, known);
    }
  }

  lemma EmptyStands(o: Options, image: seq<Byte>, all: seq<seq<Byte>>)
    requires o.blockSize > 0
    ensures Represents(o.codec, o.blockSize, image, all, Inode(0, 0, [], NoFragment), [])
    ensures AsRead(Inode(0, 0, [], NoFragment), o.blockSize) == Inode(0, 0, [], NoFragment)
  {
  }

  /** write_file_process (lines 2892-2956), with its entry in the table. */
  method StoreProcess(w: Writer, t: Table, data: seq<Byte>, ghost known: seq<seq<Byte>>) returns (i: Inode)
    requires Ready(w, t, known)
    modifies w, t
    ensures Ready(w, t, known + [if w.o.ProcessStored(data) then data else []])
    ensures w.Stores(AsRead(i, w.o.blockSize), data) <==> w.o.ProcessStored(data)
    ensures old(w.image) <= w.image && Grown(old(w.All()), w.All())
  {
    hide Options.Words, Options.StoredBytes, Options.ProcessTailSize, Represents, Known, Placed, KnownAs, AsRead;
    hide TailAt, Checksum, Total, Table.Valid, Store.InfoOk, Table.Shape, Grown, Options.ProcessStored, IsProcess;
    ghost var st := StoreOf(w);
    var size: nat;
    i, size := w.WriteProcess(data);
    var info := Info(i.size, i.words, i.start, i.fragment, size, false, 0, 0);
    ProcessInfo(w.o, t, st.image, StoreOf(w), i, data);
    t.ValidGrows(st, StoreOf(w));
    KnownGrows(w.o, st, StoreOf(w), t.infos, t.infos, known);
    KnownMore(w.o, StoreOf(w), t.infos, known, info, if w.o.ProcessStored(data) then data else []);
    t.AddNonDup(StoreOf(w), info);
  }

  lemma ProcessInfo(o: Options, t: Table, image: seq<Byte>, st: Store, i: Inode, data: seq<Byte>)
    requires o.Valid() && t.blockSize == o.blockSize && IsProcess(o, i, data) && i.start == |image|
    requires var n := |data| - o.ProcessTailSize(data);
             TailAt(st.fragments, i.fragment, data[n..]) && st.image == image + o.StoredBytes(data[..n])
    ensures var info := Info(i.size, i.words, i.start, i.fragment, o.ProcessTailSize(data), false, 0, 0);
            && st.InfoOk(info) && t.Shape(info)
            && KnownAs(o, st, info, if o.ProcessStored(data) then data else [])
  {
    hide Options.Words, Options.StoredBytes, Options.TailSize, Checksum, Blocks, Represents, Options.ProcessStored;
    var size := o.ProcessTailSize(data);
    var info := Info(i.size, i.words, i.start, i.fragment, size, false, 0, 0);
    var body := data[..|data| - size];
    if data != [] {
      hide Total;
      o.PackedBlocks(image, body);
      TotalEnd(|image|, o.Words(body));
      assert st.BlockBytes(info.start, info.words) == o.StoredBytes(body);
      assert st.InfoIn(info) && st.TailBytes(info) == data[|data| - size..];
      if o.ProcessStored(data) {
        var c := Candidate(|data|, i.words, i.start, o.Tail(data));
        CandidateLength(o, image, c, data);
      }
    } else {
      EmptyInfo(o, st, info);
    }
  }

  /** One entry without bytes. */
  lemma EmptyInfo(o: Options, st: Store, info: Info)
    requires info.size == 0 && info.words == [o.EmptyWord()] && info.start <= |st.image| && info.fragSize == 0
    requires info.frag.NoFragment? && !info.checked
    ensures st.InfoOk(info)
  {
    hide Options.EmptyWord, SizeBlock, Checksum;
    o.EmptyIs();
    TotalParts(info.words);
    TotalParts([]);
  }

  // ----------------------------------------------------------------------------------- a run

  /** What happens in a run: a regular file, the output of a process, or a deflator that is done with a
      fragment block. */
  datatype Work = File(data: seq<Byte>) | Process(data: seq<Byte>) | Place(k: nat) {
    /** The contents can be read back. */
    predicate Kept(o: Options)
      requires o.blockSize > 0
    {
      File? || (Process? && o.ProcessStored(data))
    }
  }

  /** A file with these contents is stored before the run or by its first `n` works. */
  ghost predicate StoredBefore(o: Options, known: seq<seq<Byte>>, works: seq<Work>, n: nat, data: seq<Byte>)
    requires o.blockSize > 0 && n <= |works|
  {
    data in known || exists j :: 0 <= j < n && works[j].Kept(o) && works[j].data == data
  }

  /** The inodes of the works so far stand for what they store. */
  ghost predicate Stand(o: Options, st: Store, works: seq<Work>, inodes: seq<Option<Inode>>)
    requires o.blockSize > 0
  {
    |inodes| <= |works| &&
    forall k :: 0 <= k < |inodes| && works[k].Kept(o) ==> StandsFor(o, st, inodes[k], works[k].data)
  }

  predicate StandsFor(o: Options, st: Store, i: Option<Inode>, data: seq<Byte>)
    requires o.blockSize > 0
  {
    i.Some? && Represents(o.codec, o.blockSize, st.image, st.fragments, AsRead(i.value, o.blockSize), data)
  }

  lemma StandGrows(o: Options, st: Store, st': Store, works: seq<Work>, inodes: seq<Option<Inode>>)
    requires o.blockSize > 0 && Stand(o, st, works, inodes)
    requires st.image <= st'.image && Grown(st.fragments, st'.fragments)
    ensures Stand(o, st', works, inodes)
  {
    hide Options.ProcessStored, Grown, Represents;
    var more := st'.image[|st.image|..];
    assert st.image + more == st'.image;
    forall k | 0 <= k < |inodes| && works[k].Kept(o) ensures StandsFor(o, st', inodes[k], works[k].data) {
      assert StandsFor(o, st, inodes[k], works[k].data);
      RepresentsGrow(o.codec, o.blockSize, st.image, more, st.fragments, st'.fragments,
                     AsRead(inodes[k].value, o.blockSize), works[k].data);
    }
  }

  /** What the table knows when a work is done. */
  ghost function KnownAfter(o: Options, known: seq<seq<Byte>>, work: Work): seq<seq<Byte>>
    requires o.blockSize > 0
  {
    match work
    case File(data) => if data == [] || data in known then known else known + [data]
    case Process(data) => known + [if o.ProcessStored(data) then data else []]
    case Place(k) => known
  }

  ghost function KnownAfterAll(o: Options, known: seq<seq<Byte>>, works: seq<Work>): seq<seq<Byte>>
    requires o.blockSize > 0
  {
    if works == [] then known
    else KnownAfter(o, KnownAfterAll(o, known, works[..|works| - 1]), works[|works| - 1])
  }

  /** That is what has been stored. */
  lemma {:induction false} KnowsAll(o: Options, known: seq<seq<Byte>>, works: seq<Work>, n: nat, data: seq<Byte>)
    requires o.blockSize > 0 && n <= |works| && data != []
    ensures data in KnownAfterAll(o, known, works[..n]) <==> StoredBefore(o, known, works, n, data)
  {
    hide Options.ProcessStored;
    if n > 0 {
      assert works[..n][..n - 1] == works[..n - 1];
      KnowsAll(o, known, works, n - 1, data);
    }
  }

  /** One work of a run. */
  method Step(w: Writer, t: Table, checking: bool, work: Work, ghost known: seq<seq<Byte>>)
    returns (i: Option<Inode>, duplicate: bool)
    requires w.Valid() && (checking ==> Ready(w, t, known))
    modifies w, t
    ensures w.Valid() && (checking ==> Ready(w, t, KnownAfter(w.o, known, work)))
    ensures work.Kept(w.o) ==> StandsFor(w.o, StoreOf(w), i, work.data)
    ensures duplicate <==> checking && work.File? && work.data != [] && work.data in known
    ensures duplicate ==> StoreOf(w) == old(StoreOf(w))
    ensures old(w.image) <= w.image && Grown(old(w.All()), w.All())
    ensures work.Place? && work.k < |w.fragments| ==> w.fragments == old(w.fragments) && w.table[work.k].Some?
  {
    assert |w.table| == |w.fragments|;
    hide Represents, Placed, Known, Grown, Options.ProcessStored, Table.Valid;
    GrownSelf(w.All());
    i, duplicate := None, false;
    match work {
      case File(data) =>
        var inode: Inode;
        if checking {
          inode, duplicate := StoreFile(w, t, data, known);
        } else {
          inode := w.WriteFile(data);
        }
        CountAgrees(w.o.codec, w.o.blockSize, w.image, w.All(), inode, data);
        i := Some(inode);
      case Process(data) =>
        var inode: Inode;
        if checking {
          inode := StoreProcess(w, t, data, known);
        } else {
          var size: nat;
          inode, size := w.WriteProcess(data);
        }
        i := Some(inode);
      case Place(k) =>
        ghost var st := StoreOf(w);
        if k < |w.fragments| && w.table[k].None? {
          w.PlaceFragment(k);
          if checking {
            t.ValidGrows(st, StoreOf(w));
            KnownGrows(w.o, st, StoreOf(w), t.infos, t.infos, known);
          }
        }
    }
  }

  /** A run of mksquashfs: every file stored can be read back at its end, and a regular file is taken for a
      duplicate exactly when one with the same contents has been stored. */
  method StoreAll(w: Writer, t: Table, checking: bool, works: seq<Work>, ghost known: seq<seq<Byte>>)
    returns (inodes: seq<Option<Inode>>, duplicates: seq<bool>)
    requires w.Valid() && (checking ==> Ready(w, t, known))
    modifies w, t
    ensures w.Valid() && |inodes| == |duplicates| == |works| && Stand(w.o, StoreOf(w), works, inodes)
    ensures forall k :: 0 <= k < |works| ==>
              (duplicates[k] <==> checking && works[k].File? && works[k].data != []
                                  && StoredBefore(w.o, known, works, k, works[k].data))
  {
    hide Work.Kept, StandsFor, Known, Grown, Options.ProcessStored, StoredBefore, Table.Valid, Placed, KnownAfter;
    inodes, duplicates := [], [];
    var n := 0;
    assert works[..0] == [];
    while n < |works|
      invariant 0 <= n == |inodes| == |duplicates| <= |works| && w.Valid()
      invariant checking ==> Ready(w, t, KnownAfterAll(w.o, known, works[..n]))
      invariant Stand(w.o, StoreOf(w), works, inodes)
      invariant forall k :: 0 <= k < n ==>
                  (duplicates[k] <==> checking && works[k].File? && works[k].data != []
                                      && StoredBefore(w.o, known, works, k, works[k].data))
    {
      ghost var st := StoreOf(w);
      var i, duplicate := Step(w, t, checking, works[n], KnownAfterAll(w.o, known, works[..n]));
      assert works[..n + 1][..n] == works[..n];
      StandGrows(w.o, st, StoreOf(w), works, inodes);
      if works[n].File? && works[n].data != [] {
        KnowsAll(w.o, known, works, n, works[n].data);
      }
      inodes, duplicates := inodes + [i], duplicates + [duplicate];
      n := n + 1;
    }
  }

  /** A run, its end, and the extraction of one of its files: the file comes out, whatever is stored before
      and after it, whenever the fragment blocks get their places, with or without looking for duplicates. */
  method StoreAndExtract(w: Writer, t: Table, checking: bool, works: seq<Work>, k: nat, sparse: bool, seekable: bool,
                         ghost known: seq<seq<Byte>>)
    returns (extracted: seq<Byte>)
    requires w.Valid() && (checking ==> Ready(w, t, known)) && k < |works| && works[k].Kept(w.o)
    modifies w, t
    ensures extracted == works[k].data
  {
    hide Represents, Placed, Known, Grown, Options.ProcessStored, Table.Valid, AsRead;
    var inodes, duplicates := StoreAll(w, t, checking, works, known);
    ghost var st := StoreOf(w);
    var entries := w.Finish();
    StandGrows(w.o, st, StoreOf(w), works, inodes);
    assert StandsFor(w.o, StoreOf(w), inodes[k], works[k].data);
    WithoutEmpty(w.o.codec, w.o.blockSize, w.image, w.fragments, AsRead(inodes[k].value, w.o.blockSize), works[k].data);
    extracted := Extract(w.o.codec, w.o.blockSize, w.image, entries, inodes[k].value, sparse, seekable, w.fragments,
                         works[k].data);
  }

  /** Nothing is in a fragment block that is empty. */
  lemma WithoutEmpty(c: Codec, bs: nat, image: seq<Byte>, fragments: seq<seq<Byte>>, i: Inode, data: seq<Byte>)
    requires Represents(c, bs, image, fragments + [[]], i, data)
    ensures Represents(c, bs, image, fragments, i, data)
  {
    hide Blocks;
    assert i.fragment.At? ==> i.fragment.index < |fragments|;
  }
}
