/** Finding files that are already stored: `duplicate` of mksquashfs, and why a new inode may point at
    what it finds. */
module Dedup {
  import opened BitStrings
  import opened Squashfs
  import opened FileStore

  // ------------------------------------------------------------------------------- checksums

  /** One step of the 16-bit BSD checksum (mksquashfs.c:2010-2020). */
  function ChecksumStep(sum: nat, b: Byte): nat {
    ((if sum % 2 == 1 then sum / 2 + 0x8000 else sum / 2) + b) % 0x1_0000
  }

  /** The sum, below 2^16, is turned by one bit, which halves it modulo 2^16 - 1, and the byte is added. */
  lemma ChecksumStepIs(sum: nat, b: Byte)
    requires sum < 0x1_0000
    ensures ChecksumStep(sum, b) < 0x1_0000
    ensures 2 * ((ChecksumStep(sum, b) - b) % 0x1_0000) == sum + if sum % 2 == 1 then 0xffff else 0
  {
  }

  function Checksum(s: seq<Byte>, sum: nat): nat {
    if s == [] then sum else ChecksumStep(Checksum(s[..|s| - 1], sum), s[|s| - 1])
  }

  lemma {:induction false} ChecksumConcat(a: seq<Byte>, b: seq<Byte>, sum: nat)
    ensures Checksum(a + b, sum) == Checksum(b, Checksum(a, sum))
    decreases |b|
  {
    if b == [] {
      assert a + b == a;
    } else {
      assert (a + b)[..|a + b| - 1] == a + b[..|b| - 1];
      ChecksumConcat(a, b[..|b| - 1], sum);
    }
  }

  /** get_checksum */
  method GetChecksum(s: seq<Byte>, init: nat) returns (sum: nat)
    ensures sum == Checksum(s, init)
  {
    sum := init;
    var i := 0;
    while i < |s|
      invariant 0 <= i <= |s| && sum == Checksum(s[..i], init)
    {
      assert s[..i + 1][..i] == s[..i];
      sum := ChecksumStep(sum, s[i]);
      i := i + 1;
    }
    assert s[..i] == s;
  }

  // ----------------------------------------------------------------------------- stored files

  /** How many bytes the blocks of a list take. */
  function Total(words: seq<nat>): nat {
    if words == [] then 0 else SizeBlock(words[0]) + Total(words[1..])
  }

  lemma TotalParts(words: seq<nat>)
    ensures Total(words) == if words == [] then 0 else SizeBlock(words[0]) + Total(words[1..])
  {
  }

  lemma {:induction false} TotalEnd(pos: nat, words: seq<nat>)
    ensures EndOf(pos, words) == pos + Total(words)
    decreases |words|
  {
    if words != [] {
      TotalEnd(pos + SizeBlock(words[0]), words[1..]);
    }
  }

  /** struct file_info; `sums` are there when `checked` is set. */
  datatype Info = Info(size: nat, words: seq<nat>, start: nat, frag: Fragment, fragSize: nat,
                       checked: bool, sum: nat, fragSum: nat)

  /** A file that has just been put at the end of the image, with its tail not yet in a fragment. */
  datatype Candidate = Candidate(size: nat, words: seq<nat>, start: nat, tail: seq<Byte>)

  /** What is in the image and in the fragment blocks, on disk or in a cache. */
  datatype Store = Store(image: seq<Byte>, fragments: seq<seq<Byte>>) {
    predicate InfoIn(f: Info) {
      && f.start + Total(f.words) <= |image|
      && (f.fragSize > 0 ==>
            && f.frag.At? && f.frag.index < |fragments|
            && f.frag.offset + f.fragSize <= |fragments[f.frag.index]|)
    }

    function BlockBytes(start: nat, words: seq<nat>): seq<Byte>
      requires start + Total(words) <= |image|
    {
      image[start..start + Total(words)]
    }

    function TailBytes(f: Info): seq<Byte>
      requires InfoIn(f)
    {
      if f.fragSize > 0 then fragments[f.frag.index][f.frag.offset..f.frag.offset + f.fragSize] else []
    }

    predicate InfoOk(f: Info) {
      InfoIn(f) &&
      (f.checked ==> f.sum == Checksum(BlockBytes(f.start, f.words), 0) && f.fragSum == Checksum(TailBytes(f), 0))
    }

    /** The same size, block list, stored block bytes and fragment bytes. */
    predicate Same(f: Info, c: Candidate)
      requires InfoIn(f) && c.start + Total(c.words) <= |image|
    {
      && f.size == c.size && f.words == c.words && TailBytes(f) == c.tail
      && BlockBytes(f.start, f.words) == BlockBytes(c.start, c.words)
    }
  }

  lemma InfoGrows(st: Store, st': Store, f: Info)
    requires st.InfoOk(f) && st.image <= st'.image && Grown(st.fragments, st'.fragments)
    ensures st'.InfoOk(f)
  {
    assert st'.BlockBytes(f.start, f.words) == st.BlockBytes(f.start, f.words);
    assert st'.TailBytes(f) == st.TailBytes(f);
  }

  /** get_checksum_disk (lines 2023-2048), over the bytes of the blocks one after the other. */
  method ChecksumDisk(st: Store, start: nat, words: seq<nat>) returns (sum: nat)
    requires start + Total(words) <= |st.image|
    ensures sum == Checksum(st.BlockBytes(start, words), 0)
  {
    assert st.image[start..start] == [] && Checksum([], 0) == 0;
    hide SizeBlock, Total, Checksum;
    sum := 0;
    var rest, at := words, start;
    while rest != []
      invariant start <= at && at + Total(rest) == start + Total(words)
      invariant sum == Checksum(st.image[start..at], 0)
      decreases |rest|
    {
      TotalParts(rest);
      var n := SizeBlock(rest[0]);
      var next := GetChecksum(st.image[at..at + n], sum);
      ChecksumOn(st.image, start, at, n);
      sum, at, rest := next, at + n, rest[1..];
    }
    TotalParts([]);
  }

  /** The comparison block by block (lines 2214-2249). */
  method SameBlocks(st: Store, words: seq<nat>, a: nat, b: nat) returns (same: bool)
    requires a + Total(words) <= |st.image| && b + Total(words) <= |st.image|
    ensures same == (st.BlockBytes(a, words) == st.BlockBytes(b, words))
  {
    hide SizeBlock, Total;
    var rest, i: nat := words, 0;
    while rest != []
      invariant i + Total(rest) == Total(words)
      invariant st.image[a..a + i] == st.image[b..b + i]
      decreases |rest|
    {
      var n: nat := SizeBlock(rest[0]);
      TotalParts(rest);
      if st.image[a + i..a + i + n] != st.image[b + i..b + i + n] {
        Differ(st.image, a, b, i, n, Total(words));
        return false;
      }
      SameOn(st.image, a, b, i, n);
      i, rest := i + n, rest[1..];
    }
    TotalParts([]);
    return true;
  }

  lemma Cut(s: seq<Byte>, a: nat, m: nat, n: nat)
    requires a + m + n <= |s|
    ensures s[a..a + m + n] == s[a..a + m] + s[a + m..a + m + n]
  {
  }

  lemma ChecksumOn(s: seq<Byte>, a: nat, m: nat, n: nat)
    requires a <= m && m + n <= |s|
    ensures Checksum(s[a..m + n], 0) == Checksum(s[m..m + n], Checksum(s[a..m], 0))
  {
    ChecksumConcat(s[a..m], s[m..m + n], 0);
    Cut(s, a, m - a, n);
  }

  lemma Slice(s: seq<Byte>, a: nat, i: nat, n: nat, all: nat)
    requires i + n <= all && a + all <= |s|
    ensures s[a..a + all][i..i + n] == s[a + i..a + i + n]
  {
    var l, r := s[a..a + all][i..i + n], s[a + i..a + i + n];
    assert forall k :: 0 <= k < n ==> l[k] == r[k];
  }

  lemma SameOn(s: seq<Byte>, a: nat, b: nat, i: nat, n: nat)
    requires a + i + n <= |s| && b + i + n <= |s|
    requires s[a..a + i] == s[b..b + i] && s[a + i..a + i + n] == s[b + i..b + i + n]
    ensures s[a..a + (i + n)] == s[b..b + (i + n)]
  {
    Cut(s, a, i, n);
    Cut(s, b, i, n);
  }

  lemma Differ(s: seq<Byte>, a: nat, b: nat, i: nat, n: nat, all: nat)
    requires i + n <= all && a + all <= |s| && b + all <= |s| && s[a + i..a + i + n] != s[b + i..b + i + n]
    ensures s[a..a + all] != s[b..b + all]
  {
    Slice(s, a, i, n, all);
    Slice(s, b, i, n, all);
  }

  // ------------------------------------------------------------------------------ duplicate

  /** The dupl table: the files that add_non_dup has put in, and chains of them by file size. */
  class Table {
    var infos: seq<Info>
    var chains: map<nat, seq<nat>>
    const blockSize: nat

    /** How many blocks a file has, with or without a fragment. */
    function BlocksOf(size: nat, fragSize: nat): nat
      requires blockSize > 0
    {
      if fragSize == 0 then Ceiling(size, blockSize) else size / blockSize
    }

    /** Only what a process writes can have a whole block in a fragment, or a block list though it is empty. */
    predicate Shape(f: Info)
      requires blockSize > 0
    {
      0 < f.size && f.fragSize < blockSize ==> |f.words| == BlocksOf(f.size, f.fragSize)
    }

    ghost predicate Valid(st: Store)
      reads this
    {
      && blockSize > 0
      && (forall k :: 0 <= k < |infos| ==> st.InfoOk(infos[k]) && Shape(infos[k]))
      && (forall h, i :: h in chains && 0 <= i < |chains[h]| ==> chains[h][i] < |infos|)
      && forall k :: 0 <= k < |infos| ==> Chained(k)
    }

    /** Storing more does not change what is known of the files that are there. */
    lemma ValidGrows(st: Store, st': Store)
      requires Valid(st) && st.image <= st'.image && Grown(st.fragments, st'.fragments)
      ensures Valid(st')
    {
      hide Checksum;
      forall k | 0 <= k < |infos| ensures st'.InfoOk(infos[k]) {
        InfoGrows(st, st', infos[k]);
      }
    }

    ghost predicate Chained(k: int)
      requires 0 <= k < |infos|
      reads this
    {
      infos[k].size % 0x1_0000 in chains && k in chains[infos[k].size % 0x1_0000]
    }

    predicate Candidate(st: Store, c: Candidate)
      requires blockSize > 0
    {
      && c.start + Total(c.words) <= |st.image| && 0 < c.size && |c.tail| < blockSize
      && |c.words| == BlocksOf(c.size, |c.tail|)
    }

    /** pre_duplicate (lines 2104-2113) */
    method PreDuplicate(st: Store, size: nat) returns (seen: bool)
      requires Valid(st)
      ensures seen <==> exists k :: 0 <= k < |infos| && infos[k].size == size
    {
      var chain := if size % 0x1_0000 in chains then chains[size % 0x1_0000] else [];
      var i := 0;
      while i < |chain|
        invariant 0 <= i <= |chain|
        invariant forall j :: 0 <= j < i ==> infos[chain[j]].size != size
      {
        if infos[chain[i]].size == size {
          return true;
        }
        i := i + 1;
      }
      forall k | 0 <= k < |infos| ensures infos[k].size != size {
        assert Chained(k);
      }
      return false;
    }

    /** pre_duplicate_frag (lines 2116-2139) */
    method PreDuplicateFrag(st: Store, size: nat, sum: nat) returns (seen: bool)
      requires Valid(st)
      modifies `infos
      ensures Valid(st) && AllUnchecked(old(infos), infos)
      ensures !seen ==> forall k :: 0 <= k < |infos| && WholeTail(infos[k], size) ==> TailSum(st, infos[k]) != sum
      ensures seen ==> exists k :: 0 <= k < |infos| && WholeTail(infos[k], size) && TailSum(st, infos[k]) == sum
    {
      hide Checksum, Store.InfoOk, Total, BlocksOf;
      var chain := if size % 0x1_0000 in chains then chains[size % 0x1_0000] else [];
      var i := 0;
      while i < |chain|
        invariant 0 <= i <= |chain| && Valid(st) && AllUnchecked(old(infos), infos)
        invariant forall j :: 0 <= j < i && WholeTail(infos[chain[j]], size) ==> TailSum(st, infos[chain[j]]) != sum
      {
        var k := chain[i];
        if infos[k].size == size && size == infos[k].fragSize {
          ghost var before := infos;
          Check(st, k);
          SumsStay(st, before, infos);
          assert st.InfoOk(infos[k]);
          SumKnown(st, infos[k]);
          if infos[k].fragSum == sum {
            return true;
          }
        }
        i := i + 1;
      }
      forall k | 0 <= k < |infos| && WholeTail(infos[k], size) ensures TailSum(st, infos[k]) != sum {
        assert Chained(k);
      }
      return false;
    }

    /** duplicate (lines 2170-2283): a file that is the same, or none, and the sums that were computed. */
    method Duplicate(st: Store, c: Candidate, sums0: Sums) returns (found: bool, k: nat, sums: Sums)
      requires Valid(st) && Candidate(st, c) && SumsOk(st, c, sums0)
      modifies `infos
      ensures Valid(st) && |infos| == |old(infos)| && SumsOk(st, c, sums)
      ensures AllUnchecked(old(infos), infos)
      ensures found ==> k < |infos| && st.Same(infos[k], c)
      ensures !found ==> forall i :: 0 <= i < |infos| ==> !st.Same(infos[i], c)
    {
      hide SumsOk, Checksum, Total, Unchecked, SizeBlock, NoneSame;
      NoneYet(st, c, infos);
      var chain := if c.size % 0x1_0000 in chains then chains[c.size % 0x1_0000] else [];
      var i := 0;
      sums, k := sums0, 0;
      while i < |chain|
        invariant 0 <= i <= |chain| && Valid(st) && |infos| == |old(infos)| && SumsOk(st, c, sums)
        invariant AllUnchecked(old(infos), infos)
        invariant NoneSame(st, c, infos, chain[..i])
      {
        k := chain[i];
        ghost var before := infos;
        found, sums := Try(st, c, k, sums);
        if found {
          return;
        }
        NoneNext(st, c, before, infos, chain, i);
        i := i + 1;
      }
      assert chain[..i] == chain;
      forall j | 0 <= j < |infos| ensures !st.Same(infos[j], c) {
        NotChained(st, c, infos, chain, j);
        assert Chained(j);
      }
      found := false;
    }

    /** Whether file `k` is the same (lines 2178-2278). */
    method Try(st: Store, c: Candidate, k: nat, sums0: Sums) returns (same: bool, sums: Sums)
      requires Valid(st) && Candidate(st, c) && k < |infos| && SumsOk(st, c, sums0)
      modifies `infos
      ensures Valid(st) && |infos| == |old(infos)| && SumsOk(st, c, sums)
      ensures AllUnchecked(old(infos), infos)
      ensures same == st.Same(infos[k], c)
    {
      hide Checksum;
      sums := sums0;
      if !Alike(infos[k], c) {
        NotAlike(st, infos[k], c);
        return false, sums;
      }
      assert |infos[k].words| == |c.words|;
      if infos[k].words[..|c.words|] != c.words {
        return false, sums;
      }
      if sums.NoSums? {
        var sum := ChecksumDisk(st, c.start, c.words);
        var tail := GetChecksum(c.tail, 0);
        sums := Sums(sum, tail);
      }
      Check(st, k);
      same := Compare(st, infos[k], c, sums.sum, sums.tail);
    }

    /** Compute the sums of a file when they are asked for (lines 2196-2207). */
    method Check(st: Store, k: nat)
      requires Valid(st) && k < |infos|
      modifies `infos
      ensures Valid(st) && |infos| == |old(infos)| && infos[k].checked
      ensures AllUnchecked(old(infos), infos)
    {
      hide Checksum, Total, BlocksOf;
      if !infos[k].checked {
        var f := infos[k];
        var sum := ChecksumDisk(st, f.start, f.words);
        var fragSum := GetChecksum(st.TailBytes(f), 0);
        infos := infos[k := f.(checked := true, sum := sum, fragSum := fragSum)];
        assert forall i :: 0 <= i < |infos| ==> old(Chained(i)) ==> Chained(i);
      }
    }

    /** add_non_dup (lines 2143-2167), when the file has got its fragment. */
    method AddNonDup(st: Store, f: Info)
      requires Valid(st) && st.InfoOk(f) && Shape(f)
      modifies this
      ensures Valid(st) && infos == old(infos) + [f]
    {
      var h := f.size % 0x1_0000;
      chains := chains[h := [|infos|] + if h in chains then chains[h] else []];
      infos := infos + [f];
      forall k | 0 <= k < |infos| ensures Chained(k) {
        assert k < |old(infos)| ==> old(Chained(k));
      }
    }
  }

  /** The sums of the new file, which are computed at most once. */
  datatype Sums = NoSums | Sums(sum: nat, tail: nat)

  ghost predicate SumsOk(st: Store, c: Candidate, sums: Sums)
    requires c.start + Total(c.words) <= |st.image|
  {
    sums.Sums? ==> sums.sum == Checksum(st.BlockBytes(c.start, c.words), 0) && sums.tail == Checksum(c.tail, 0)
  }

  lemma NotAlike(st: Store, f: Info, c: Candidate)
    requires st.InfoIn(f) && c.start + Total(c.words) <= |st.image| && !Alike(f, c)
    ensures !st.Same(f, c)
  {
  }

  /** None of these files is the same. */
  ghost predicate NoneSame(st: Store, c: Candidate, infos: seq<Info>, ks: seq<nat>) {
    c.start + Total(c.words) <= |st.image| &&
    forall i :: 0 <= i < |ks| ==> ks[i] < |infos| && st.InfoIn(infos[ks[i]]) && !st.Same(infos[ks[i]], c)
  }

  lemma NoneYet(st: Store, c: Candidate, infos: seq<Info>)
    requires c.start + Total(c.words) <= |st.image|
    ensures NoneSame(st, c, infos, [])
  {
  }

  lemma NoneNext(st: Store, c: Candidate, a: seq<Info>, b: seq<Info>, ks: seq<nat>, i: nat)
    requires i < |ks| && NoneSame(st, c, a, ks[..i]) && AllUnchecked(a, b) && ks[i] < |b|
    requires st.InfoIn(b[ks[i]]) && c.start + Total(c.words) <= |st.image| && !st.Same(b[ks[i]], c)
    ensures NoneSame(st, c, b, ks[..i + 1])
  {
    forall j | 0 <= j < i
      ensures st.InfoIn(b[ks[j]]) && !st.Same(b[ks[j]], c)
    {
      assert ks[..i][j] == ks[j];
      assert Unchecked(a[ks[j]]) == Unchecked(b[ks[j]]);
    }
  }

  lemma NotChained(st: Store, c: Candidate, infos: seq<Info>, chain: seq<nat>, j: nat)
    requires NoneSame(st, c, infos, chain) && j < |infos| && st.InfoIn(infos[j])
    ensures c.start + Total(c.words) <= |st.image| && (st.Same(infos[j], c) ==> j !in chain)
  {
  }

  /** A file that is all in a fragment. */
  predicate WholeTail(f: Info, size: nat) { f.size == size == f.fragSize }

  /** The checksum of the fragment bytes. */
  function TailSum(st: Store, f: Info): nat {
    if st.InfoIn(f) then Checksum(st.TailBytes(f), 0) else 0
  }

  lemma SumKnown(st: Store, f: Info)
    requires st.InfoOk(f) && f.checked
    ensures f.fragSum == TailSum(st, f)
  {
  }

  lemma SumsStay(st: Store, a: seq<Info>, b: seq<Info>)
    requires AllUnchecked(a, b)
    ensures forall k :: 0 <= k < |a| ==> a[k].size == b[k].size && a[k].fragSize == b[k].fragSize
    ensures forall k :: 0 <= k < |a| ==> TailSum(st, a[k]) == TailSum(st, b[k])
  {
    hide Checksum;
    forall k | 0 <= k < |a| ensures TailSum(st, a[k]) == TailSum(st, b[k]) {
      assert Unchecked(a[k]) == Unchecked(b[k]);
    }
    forall k | 0 <= k < |a| ensures a[k].size == b[k].size && a[k].fragSize == b[k].fragSize {
      assert Unchecked(a[k]) == Unchecked(b[k]);
    }
  }

  /** The same files but for their sums. */
  predicate AllUnchecked(a: seq<Info>, b: seq<Info>) {
    |a| == |b| && forall k :: 0 <= k < |a| ==> Unchecked(a[k]) == Unchecked(b[k])
  }

  /** A file but for its sums. */
  function Unchecked(f: Info): Info { f.(checked := false, sum := 0, fragSum := 0) }

  /** What is compared first (lines 2179-2180). */
  predicate Alike(f: Info, c: Candidate) {
    f.size == c.size && Total(f.words) == Total(c.words) && f.fragSize == |c.tail|
  }

  /** The sums, then the blocks, then the fragment (lines 2209-2258). */
  method Compare(st: Store, f: Info, c: Candidate, sum: nat, tailSum: nat) returns (same: bool)
    requires st.InfoOk(f) && f.checked && Alike(f, c) && f.words == c.words && c.start + Total(c.words) <= |st.image|
    requires sum == Checksum(st.BlockBytes(c.start, c.words), 0) && tailSum == Checksum(c.tail, 0)
    ensures same == st.Same(f, c)
  {
    if sum != f.sum || tailSum != f.fragSum {
      return false;
    }
    var blocks := SameBlocks(st, c.words, c.start, f.start);
    same := blocks && (|c.tail| == 0 || c.tail == st.TailBytes(f));
  }

  // ------------------------------------------------------------- what a match may be used for

  /** A block list stands for the same data wherever the same bytes are. */
  lemma {:induction false} BlocksMoved(c: Codec, bs: nat, image: seq<Byte>, a: nat, b: nat, words: seq<nat>,
                                       data: seq<Byte>)
    requires a + Total(words) <= |image| && b + Total(words) <= |image|
    requires image[a..a + Total(words)] == image[b..b + Total(words)] && Blocks(c, bs, image, a, words, data)
    ensures Blocks(c, bs, image, b, words, data)
    decreases |words|
  {
    if words != [] {
      var n, all := SizeBlock(words[0]), Total(words);
      Slice(image, a, 0, n, all);
      Slice(image, b, 0, n, all);
      Slice(image, a, n, all - n, all);
      Slice(image, b, n, all - n, all);
      BlocksMoved(c, bs, image, a + n, b + n, words[1..], data[if |data| < bs then |data| else bs..]);
    }
  }

  /** A block list stands for the same data in any image that has its blocks. */
  lemma {:induction false} BlocksWithin(c: Codec, bs: nat, image: seq<Byte>, pos: nat, words: seq<nat>, data: seq<Byte>,
                                        end: nat)
    requires pos + Total(words) <= end <= |image| && Blocks(c, bs, image, pos, words, data)
    ensures Blocks(c, bs, image[..end], pos, words, data)
    decreases |words|
  {
    if words != [] {
      var n := SizeBlock(words[0]);
      assert image[..end][pos..pos + n] == image[pos..pos + n];
      BlocksWithin(c, bs, image, pos + n, words[1..], data[if |data| < bs then |data| else bs..], end);
    }
  }

  /** The blocks found stand for the new file's, in the image without those. */
  lemma BlocksFound(c: Codec, bs: nat, st: Store, f: Info, new': Candidate, body: seq<Byte>, end: nat, start: nat)
    requires st.InfoIn(f) && new'.start + Total(new'.words) <= |st.image| && st.Same(f, new')
    requires f.start + Total(f.words) <= end <= |st.image| && (start == f.start || f.words == [])
    requires Blocks(c, bs, st.image, new'.start, new'.words, body)
    ensures Blocks(c, bs, st.image[..end], start, f.words, body)
  {
    if f.words != [] {
      hide Blocks, Total;
      BlocksMoved(c, bs, st.image, new'.start, f.start, f.words, body);
      BlocksWithin(c, bs, st.image, f.start, f.words, body, end);
    }
  }

  /** An inode that points at the file found stands for what the new file is, in the image without the
      new file's blocks, or cut anywhere behind those of the file found. */
  lemma DuplicateMeansSame(c: Codec, bs: nat, st: Store, f: Info, new': Candidate, data: seq<Byte>, end: nat,
                           start: nat)
    requires bs > 0 && st.InfoIn(f) && new'.start + Total(new'.words) <= |st.image| && st.Same(f, new')
    requires f.start + Total(f.words) <= end <= |st.image| && (start == f.start || f.words == [])
    requires new'.size == |data| >= |new'.tail| && new'.tail == data[|data| - |new'.tail|..]
    requires new'.tail != [] ==> |new'.tail| == |data| % bs
    requires Blocks(c, bs, st.image, new'.start, new'.words, data[..|data| - |new'.tail|])
    ensures Represents(c, bs, st.image[..end], st.fragments,
                       Inode(f.size, start, f.words, if f.fragSize == 0 then NoFragment else f.frag), data)
  {
    hide Blocks, Total;
    BlocksFound(c, bs, st, f, new', data[..|data| - |new'.tail|], end, start);
    assert new'.tail == [] ==> data[..|data| - |new'.tail|] == data;
    assert st.TailBytes(f) == new'.tail;
  }
}
