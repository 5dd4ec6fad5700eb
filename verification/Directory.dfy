/** Directories: the runs of entries that add_dir encodes, and their way back. */
module Directory {
  import opened BitStrings
  import opened LittleEndian

  // -------------------------------------------------------------------------------- runs

  /** An entry: its name, the block and the offset of its inode, the number and the type of it. */
  datatype Entry = Entry(name: seq<Byte>, block: nat, offset: nat, number: nat, kind: nat) {
    predicate Valid() {
      && 1 <= |name| && block < 0x1_0000_0000 && offset < 0x1_0000 && number < 0x1_0000_0000 && kind < 0x1_0000
    }
  }

  /** SQUASHFS_NAME_LEN */
  const NAME_LEN := 256

  function Cut(e: Entry): Entry { if |e.name| > NAME_LEN then e.(name := e.name[..NAME_LEN]) else e }

  /** Names are at most 256 bytes, so that one less goes into a byte. */
  lemma CutIs(e: Entry)
    ensures |Cut(e).name| == (if |e.name| < 0x100 then |e.name| else 0x100) && Cut(e).name <= e.name
    ensures Cut(e).(name := e.name) == e
  {
  }

  /** Entries of one block, with the number that theirs are relative to. */
  datatype Run = Run(block: nat, number: nat, entries: seq<Entry>)

  /** An entry that can be in a run. */
  predicate Fits(block: nat, number: nat, e: Entry) {
    e.Valid() && |e.name| <= NAME_LEN && e.block == block && -0x8000 <= e.number - number < 0x8000
  }

  predicate RunOk(r: Run) {
    && 1 <= |r.entries| <= 256 && r.block < 0x1_0000_0000 && r.number < 0x1_0000_0000
    && forall i :: 0 <= i < |r.entries| ==> Fits(r.block, r.number, r.entries[i])
  }

  const HEADER := 12
  const ENTRY := 8

  function EncodeHeader(count: nat, block: nat, number: nat): (b: seq<Byte>)
    requires 1 <= count <= 256 && block < 0x1_0000_0000 && number < 0x1_0000_0000
    ensures |b| == HEADER
  {
    Le32(count - 1) + Le32(block) + Le32(number)
  }

  function EncodeEntry(block: nat, number: nat, e: Entry): (b: seq<Byte>)
    requires Fits(block, number, e)
    ensures |b| == ENTRY + |e.name|
  {
    Le16(e.offset) + Le16(Short(e.number - number)) + Le16(e.kind) + Le16(|e.name| - 1) + e.name
  }

  function EncodeEntries(block: nat, number: nat, s: seq<Entry>): seq<Byte>
    requires forall i :: 0 <= i < |s| ==> Fits(block, number, s[i])
  {
    if s == [] then [] else EncodeEntries(block, number, s[..|s| - 1]) + EncodeEntry(block, number, s[|s| - 1])
  }

  function EncodeRun(r: Run): seq<Byte>
    requires RunOk(r)
  {
    EncodeHeader(|r.entries|, r.block, r.number) + EncodeEntries(r.block, r.number, r.entries)
  }

  predicate RunsOk(runs: seq<Run>) { forall i :: 0 <= i < |runs| ==> RunOk(runs[i]) }

  function Encode(runs: seq<Run>): seq<Byte>
    requires RunsOk(runs)
  {
    if runs == [] then [] else Encode(runs[..|runs| - 1]) + EncodeRun(runs[|runs| - 1])
  }

  function Flatten(runs: seq<Run>): seq<Entry> {
    if runs == [] then [] else Flatten(runs[..|runs| - 1]) + runs[|runs| - 1].entries
  }

  lemma NoBytes(block: nat, number: nat)
    ensures Encode([]) == [] && EncodeEntries(block, number, []) == []
  {
  }

  lemma Room(a: seq<Byte>, b: seq<Byte>)
    ensures var all := a + seq(HEADER, _ => 0) + b;
            all[..|a|] == a && all[|a| + HEADER..] == b && |all| == |a| + HEADER + |b|
  {
  }

  lemma SomeEntry(r: Run)
    requires RunOk(r)
    ensures r.entries != []
  {
  }

  lemma OneEntry(block: nat, number: nat, e: Entry)
    requires Fits(block, number, e) && number < 0x1_0000_0000
    ensures RunOk(Run(block, number, [e]))
    ensures EncodeEntries(block, number, [e]) == EncodeEntry(block, number, e)
  {
    assert [e][..0] == [];
  }

  lemma EntriesAppend(block: nat, number: nat, s: seq<Entry>, e: Entry)
    requires (forall i :: 0 <= i < |s| ==> Fits(block, number, s[i])) && Fits(block, number, e)
    ensures EncodeEntries(block, number, s + [e]) == EncodeEntries(block, number, s) + EncodeEntry(block, number, e)
  {
    assert (s + [e])[..|s|] == s;
  }

  lemma RunsAppend(runs: seq<Run>, r: Run)
    requires RunsOk(runs) && RunOk(r)
    ensures RunsOk(runs + [r]) && Encode(runs + [r]) == Encode(runs) + EncodeRun(r)
    ensures Flatten(runs + [r]) == Flatten(runs) + r.entries
  {
    assert (runs + [r])[..|runs|] == runs;
  }

  lemma FlattenAll(runs: seq<Run>, run: seq<Entry>, block: nat, number: nat)
    ensures Flatten(runs + [Run(block, number, run)]) == Flatten(runs) + run
    ensures run == [] ==> Flatten(runs) == Flatten(runs) + run
  {
    assert (runs + [Run(block, number, run)])[..|runs|] == runs;
  }

  // ----------------------------------------------------------------------- what the runs are

  predicate AllValid(entries: seq<Entry>) { forall k :: 0 <= k < |entries| ==> entries[k].Valid() }

  function Cuts(entries: seq<Entry>): (r: seq<Entry>)
    ensures |r| == |entries|
  {
    seq(|entries|, k requires 0 <= k < |entries| => Cut(entries[k]))
  }

  /** The runs of a directory, and where in their encoding the index last has a mark. */
  datatype Layout = Layout(runs: seq<Run>, mark: nat)

  /** Add an entry: it begins a run when it cannot be in the last one, or would end more than a block behind
      the last mark. */
  ghost function Grow(l: Layout, e: Entry): (l': Layout)
    requires RunsOk(l.runs) && Fits(e.block, e.number, e)
    ensures RunsOk(l'.runs) && Flatten(l'.runs) == Flatten(l.runs) + [e]
  {
    var n, far := |l.runs|, |Encode(l.runs)| + ENTRY + |e.name| - l.mark > METADATA_SIZE;
    var new' := Layout(l.runs + [Run(e.block, e.number, [e])], if n > 0 && far then |Encode(l.runs)| else l.mark);
    GrowOk(l.runs, e);
    if n == 0 || far then new'
    else
      var r := l.runs[n - 1];
      if |r.entries| == 256 || !Fits(r.block, r.number, e) then new'
      else l.(runs := l.runs[..n - 1] + [r.(entries := r.entries + [e])])
  }

  /** The last run goes on as long as it has less than 256 entries, the entry is of the same block and its number not
      too far from that of the run, and ends not more than 8192 bytes behind the last mark; a mark is put where the
      new run begins exactly when the entry would end further on. */
  lemma GrowIs(l: Layout, e: Entry)
    requires RunsOk(l.runs) && Fits(e.block, e.number, e) && l.runs != []
    ensures var r, n, l' := l.runs[|l.runs| - 1], |Encode(l.runs)|, Grow(l, e);
            && (|l'.runs| == |l.runs| <==>
                  && |r.entries| < 256 && Fits(r.block, r.number, e)
                  && n + |EncodeEntry(r.block, r.number, e)| <= l.mark + 0x2000)
            && (|l'.runs| != |l.runs| ==> l'.runs == l.runs + [Run(e.block, e.number, [e])])
            && l'.mark == if n + |EncodeEntry(e.block, e.number, e)| > l.mark + 0x2000 then n else l.mark
  {
    hide Encode, EncodeEntry, Flatten;
  }

  lemma GrowOk(runs: seq<Run>, e: Entry)
    requires RunsOk(runs) && Fits(e.block, e.number, e)
    ensures RunsOk(runs + [Run(e.block, e.number, [e])])
    ensures Flatten(runs + [Run(e.block, e.number, [e])]) == Flatten(runs) + [e]
    ensures runs != [] ==>
              var r := runs[|runs| - 1];
              var more := runs[..|runs| - 1] + [r.(entries := r.entries + [e])];
              && (|r.entries| < 256 && Fits(r.block, r.number, e) ==> RunsOk(more))
              && Flatten(more) == Flatten(runs) + [e]
  {
    FlattenAll(runs, [e], e.block, e.number);
    if runs != [] {
      var r := runs[|runs| - 1];
      FlattenAll(runs[..|runs| - 1], r.entries + [e], r.block, r.number);
    }
  }

  ghost function LayoutOf(entries: seq<Entry>): (l: Layout)
    requires AllValid(entries)
    ensures RunsOk(l.runs) && Flatten(l.runs) == Cuts(entries)
  {
    if entries == [] then Layout([], 0)
    else
      var n := |entries| - 1;
      assert Cuts(entries) == Cuts(entries[..n]) + [Cut(entries[n])];
      Grow(LayoutOf(entries[..n]), Cut(entries[n]))
  }

  /** What a directory takes in the table. */
  ghost function TableOf(entries: seq<Entry>): seq<Byte>
    requires AllValid(entries)
  {
    Encode(LayoutOf(entries).runs)
  }

  // ------------------------------------------------------------------------------ the writer

  /** A mark in the index: where a run starts, and the name of its first entry. */
  datatype Mark = Mark(index: nat, name: seq<Byte>)

  datatype Place = Nowhere | At(pos: nat)

  const METADATA_SIZE := 8192

  /** The marks are in order and each is where a run starts, with the name of its first entry; from one
      mark to the next, and from the last to the end at `n`, it is not more than a block and a header. */
  ghost predicate IndexOk(index: seq<Mark>, last: nat, n: nat, runs: seq<Run>) {
    && last == (if index == [] then 0 else index[|index| - 1].index)
    && (index != [] ==> last < n) && last <= n <= last + METADATA_SIZE + HEADER
    && (forall i :: 0 <= i < |index| ==> Marks(runs, index[i]))
    && forall i :: 0 < i < |index| ==>
         index[i - 1].index < index[i].index <= index[i - 1].index + METADATA_SIZE + HEADER
  }

  lemma IndexReach(index: seq<Mark>, last: nat, n: nat, runs: seq<Run>)
    requires IndexOk(index, last, n, runs)
    ensures last <= n <= last + METADATA_SIZE + HEADER
  {
  }

  lemma IndexGrows(index: seq<Mark>, last: nat, n: nat, runs: seq<Run>, runs': seq<Run>, n': nat)
    requires IndexOk(index, last, n, runs) && Longer(runs, runs') && n <= n' <= last + METADATA_SIZE + HEADER
    ensures IndexOk(index, last, n', runs')
  {
    hide Marks, Longer;
    MarksGrow(runs, runs');
  }

  lemma IndexMarked(index: seq<Mark>, last: nat, n: nat, runs: seq<Run>, runs': seq<Run>, m: Mark, n': nat)
    requires IndexOk(index, last, n, runs) && Longer(runs, runs') && n < n' <= n + METADATA_SIZE + HEADER
    requires m.index == n && Marks(runs', m) && last < n
    ensures IndexOk(index + [m], n, n', runs')
  {
    hide Marks, Longer;
    MarksGrow(runs, runs');
  }

  /** struct directory: the buffer up to `p`, with room for `size` bytes; where the header of the run being
      made is to go; where the index last has a mark.  `runs` are the runs made, and `run` the
      current one. */
  class Directory {
    var buff: seq<Byte>
    var size: nat
    var entryCount: nat
    var entryCountP: Place
    var indexCountP: nat
    var block: nat
    var number: nat
    var index: seq<Mark>
    ghost var runs: seq<Run>
    ghost var run: seq<Entry>

    ghost predicate Valid()
      reads this
    {
      && |buff| < size && RunsOk(runs)
      && (entryCountP.Nowhere? ==> buff == [] && runs == [] && run == [] && entryCount == 256)
      && (entryCountP.At? ==>
            && RunOk(Run(block, number, run)) && entryCount == |run|
            && entryCountP.pos == |Encode(runs)| && entryCountP.pos + HEADER <= |buff|
            && buff[..entryCountP.pos] == Encode(runs)
            && buff[entryCountP.pos + HEADER..] == EncodeEntries(block, number, run))
      && Indexed()
    }

    ghost predicate Indexed()
      reads this
    {
      IndexOk(index, indexCountP, |buff|, AllRuns())
    }

    ghost function AllRuns(): seq<Run>
      reads this
    {
      if entryCountP.At? then runs + [Run(block, number, run)] else runs
    }

    ghost function Entries(): seq<Entry>
      reads this
    {
      Flatten(runs) + run
    }

    ghost function Made(): Layout
      reads this
    {
      Layout(AllRuns(), indexCountP)
    }

    /** scan3_init_dir (mksquashfs.c:1506-1519). */
    constructor ()
      ensures Valid() && Entries() == [] && Made() == Layout([], 0)
    {
      buff, size, entryCount, entryCountP, indexCountP, block, number := [], METADATA_SIZE, 256, Nowhere, 0, 0, 0;
      index, runs, run := [], [], [];
    }

    /** add_dir (lines 1522-1610). */
    method AddDir(e: Entry)
      requires Valid() && e.Valid()
      modifies this
      ensures Valid() && Entries() == old(Entries()) + [Cut(e)] && RunsOk(old(AllRuns()))
      ensures Made() == Grow(old(Made()), Cut(e))
    {
      hide Encode, EncodeEntries, EncodeEntry, IndexOk;
      var entry := Cut(e);
      BuffIs();
      if |buff| + ENTRY + |entry.name| + HEADER >= size {
        size := size + METADATA_SIZE;
      }
      var over := entryCountP.At? && |buff| + ENTRY + |entry.name| - indexCountP > METADATA_SIZE;
      if entryCount == 256 || entry.block != block || over
         || entry.number - number > 32767 || entry.number - number < -32768
      {
        NewRun(entry, over);
      } else {
        Continue(entry);
      }
    }

    /** The buffer has as many bytes as the runs take. */
    lemma BuffIs()
      requires Valid()
      ensures RunsOk(AllRuns()) && |buff| == |Encode(AllRuns())|
    {
      if entryCountP.At? {
        RunsAppend(runs, Run(block, number, run));
      }
    }

    /** Put the header of the current run where there is room for it (lines 1586-1590, 1638-1641). */
    method CloseRun()
      requires Valid() && entryCountP.At?
      modifies `buff, `runs, `run
      ensures runs == old(AllRuns()) && run == [] && RunsOk(runs)
      ensures buff == Encode(runs) && |buff| == |old(buff)|
    {
      hide Encode, EncodeEntries, EncodeEntry, EncodeHeader;
      var q := entryCountP.pos;
      RunsAppend(runs, Run(block, number, run));
      buff := buff[..q] + EncodeHeader(entryCount, block, number) + buff[q + HEADER..];
      runs, run := runs + [Run(block, number, run)], [];
    }

    /** Start a run with entry `e` (lines 1565-1609), which has a mark in the index when it is too far
        from the last one. */
    method NewRun(e: Entry, over: bool)
      requires Valid() && e.Valid() && Fits(e.block, e.number, e)
      requires |buff| + HEADER + ENTRY + |e.name| < size
      requires over == (entryCountP.At? && |buff| + ENTRY + |e.name| - indexCountP > METADATA_SIZE)
      modifies this
      ensures Valid() && Entries() == old(Entries()) + [e]
      ensures AllRuns() == old(AllRuns()) + [Run(e.block, e.number, [e])]
      ensures indexCountP == if over then |old(buff)| else old(indexCountP)
    {
      hide Encode, EncodeEntries, EncodeEntry, Marks, Flatten, RunOk, EncodeRun, EncodeHeader, IndexOk;
      ghost var before, marks, last := AllRuns(), index, indexCountP;
      IndexReach(index, indexCountP, |buff|, before);
      FlattenAll(runs, run, block, number);
      NoBytes(e.block, e.number);
      OneEntry(e.block, e.number, e);
      if entryCountP.At? {
        SomeEntry(Run(block, number, run));
        RunsAppend(runs, Run(block, number, run));
      }
      var mark := |buff|;
      if entryCountP.At? {
        CloseRun();
      }
      if over {
        index := index + [Mark(mark, e.name)];
        indexCountP := mark;
      }
      entryCountP, block, number, entryCount := At(mark), e.block, e.number, 1;
      // the room for the header is not set yet
      Room(buff, EncodeEntry(e.block, e.number, e));
      buff := buff + seq(HEADER, _ => 0) + EncodeEntry(e.block, e.number, e);
      run := [e];
      RunsAppend(runs, Run(block, number, run));
      MarkLast(runs, Run(block, number, run), Mark(mark, e.name));
      if over {
        IndexMarked(marks, last, mark, before, AllRuns(), Mark(mark, e.name), |buff|);
      } else {
        IndexGrows(marks, last, mark, before, AllRuns(), |buff|);
      }
    }

    /** Add an entry to the current run (lines 1602-1609). */
    method Continue(e: Entry)
      requires Valid() && entryCountP.At? && Fits(block, number, e) && entryCount < 256
      requires |buff| + ENTRY + |e.name| < size && |buff| + ENTRY + |e.name| - indexCountP <= METADATA_SIZE
      modifies this
      ensures Valid() && Entries() == old(Entries()) + [e]
      ensures Made() == Layout(old(runs) + [Run(old(block), old(number), old(run) + [e])], old(indexCountP))
    {
      hide Encode, EncodeEntries, EncodeEntry, Marks;
      ghost var before := AllRuns();
      EntriesAppend(block, number, run, e);
      buff := buff + EncodeEntry(block, number, e);
      entryCount := entryCount + 1;
      run := run + [e];
      MarksGrow(before, AllRuns());
    }

    /** The first part of write_dir (lines 1635-1644): what is copied to the directory table. */
    method Finish() returns (bytes: seq<Byte>)
      requires Valid()
      modifies this
      ensures RunsOk(runs) && bytes == Encode(runs) && runs == old(AllRuns()) && Flatten(runs) == old(Entries())
      ensures index == old(index) && forall i :: 0 <= i < |index| ==> Marks(runs, index[i])
      ensures forall i :: 0 < i < |index| ==> index[i - 1].index < index[i].index
      ensures index != [] ==> index[|index| - 1].index < |bytes|
    {
      hide Encode, EncodeEntries, EncodeEntry, Marks;
      NoBytes(0, 0);
      FlattenAll(runs, run, block, number);
      if entryCountP.At? {
        CloseRun();
      }
      bytes := buff;
    }
  }

  // ------------------------------------------------------------------------------- how much

  /** A header and the longest name. */
  const MOST := HEADER + ENTRY + NAME_LEN

  lemma {:induction false} EntriesRoom(block: nat, number: nat, s: seq<Entry>)
    requires forall i :: 0 <= i < |s| ==> Fits(block, number, s[i])
    ensures |EncodeEntries(block, number, s)| <= (ENTRY + NAME_LEN) * |s|
  {
    if s != [] {
      EntriesRoom(block, number, s[..|s| - 1]);
    }
  }

  lemma RoomMore(before: nat, n: nat, more: nat, m: nat)
    requires before <= MOST * n && more <= (ENTRY + NAME_LEN) * m && m > 0
    ensures before + HEADER + more <= MOST * (n + m)
  {
  }

  lemma {:induction false} RunsRoom(runs: seq<Run>)
    requires RunsOk(runs)
    ensures |Encode(runs)| <= MOST * |Flatten(runs)|
    ensures Encode(runs) == [] <==> Flatten(runs) == []
  {
    if runs != [] {
      var r, before := runs[|runs| - 1], runs[..|runs| - 1];
      RunsRoom(before);
      EntriesRoom(r.block, r.number, r.entries);
      var n, m := |Flatten(before)|, |r.entries|;
      assert |Flatten(runs)| == n + m;
      assert |Encode(runs)| == |Encode(before)| + HEADER + |EncodeEntries(r.block, r.number, r.entries)|;
      hide Encode, EncodeEntries, Flatten, Fits;
      RoomMore(|Encode(before)|, n, |EncodeEntries(r.block, r.number, r.entries)|, m);
    }
  }

  /** Run `k` starts at the mark. */
  ghost predicate MarksRun(runs: seq<Run>, m: Mark, k: nat) {
    k < |runs| && RunsOk(runs) && m.index == |Encode(runs[..k])| && m.name == runs[k].entries[0].name
  }

  ghost predicate Marks(runs: seq<Run>, m: Mark) { exists k: nat :: MarksRun(runs, m, k) }

  /** `all'` has the runs of `all`, the last one perhaps longer, and perhaps more. */
  ghost predicate Longer(all: seq<Run>, all': seq<Run>) {
    && |all| <= |all'| && RunsOk(all')
    && (forall k :: 0 <= k < |all| - 1 ==> all'[k] == all[k])
    && (all != [] ==> all[|all| - 1].entries != [] && all[|all| - 1].entries <= all'[|all| - 1].entries)
  }

  lemma MarksGrow(all: seq<Run>, all': seq<Run>)
    requires Longer(all, all')
    ensures forall m :: Marks(all, m) ==> Marks(all', m)
  {
    forall m | Marks(all, m) ensures Marks(all', m) {
      var k: nat :| MarksRun(all, m, k);
      assert all'[..k] == all[..k];
      assert MarksRun(all', m, k);
    }
  }

  lemma MarkLast(runs: seq<Run>, r: Run, m: Mark)
    requires RunsOk(runs) && RunOk(r) && m.index == |Encode(runs)| && m.name == r.entries[0].name
    ensures Marks(runs + [r], m)
  {
    assert (runs + [r])[..|runs|] == runs;
    assert MarksRun(runs + [r], m, |runs|);
  }

  // ------------------------------------------------------------------------------ the reader

  lemma {:induction false} EncodeEntriesAt(block: nat, number: nat, s: seq<Entry>, t: seq<Byte>, at: nat, j: nat)
    requires forall i :: 0 <= i < |s| ==> Fits(block, number, s[i])
    requires In(t, at, EncodeEntries(block, number, s)) && j < |s|
    ensures In(t, at + |EncodeEntries(block, number, s[..j])|, EncodeEntry(block, number, s[j]))
    ensures EncodeEntries(block, number, s[..j + 1])
         == EncodeEntries(block, number, s[..j]) + EncodeEntry(block, number, s[j])
    decreases |s|
  {
    hide EncodeEntry;
    var n := |s| - 1;
    InParts(t, at, EncodeEntries(block, number, s[..n]), EncodeEntry(block, number, s[n]));
    if j < n {
      assert s[..n][..j] == s[..j] && s[..n][..j + 1] == s[..j + 1];
      EncodeEntriesAt(block, number, s[..n], t, at, j);
    } else {
      assert s[..j + 1] == s;
    }
  }

  lemma {:induction false} EncodeAt(runs: seq<Run>, t: seq<Byte>, at: nat, k: nat)
    requires RunsOk(runs) && In(t, at, Encode(runs)) && k < |runs|
    ensures In(t, at + |Encode(runs[..k])|, EncodeRun(runs[k]))
    ensures Encode(runs[..k + 1]) == Encode(runs[..k]) + EncodeRun(runs[k])
    ensures Flatten(runs[..k + 1]) == Flatten(runs[..k]) + runs[k].entries
    decreases |runs|
  {
    hide EncodeRun;
    var n := |runs| - 1;
    InParts(t, at, Encode(runs[..n]), EncodeRun(runs[n]));
    assert runs[..k + 1][..k] == runs[..k];
    if k < n {
      assert runs[..n][..k] == runs[..k] && runs[..n][..k + 1] == runs[..k + 1];
      EncodeAt(runs[..n], t, at, k);
    } else {
      assert runs[..k + 1] == runs;
    }
  }

  lemma HeaderAt(t: seq<Byte>, at: nat, count: nat, block: nat, number: nat)
    requires 1 <= count <= 256 && block < 0x1_0000_0000 && number < 0x1_0000_0000
    requires In(t, at, EncodeHeader(count, block, number))
    ensures Get32(t, at) == count - 1 && Get32(t, at + 4) == block && Get32(t, at + 8) == number
  {
    InParts(t, at, Le32(count - 1) + Le32(block), Le32(number));
    InParts(t, at, Le32(count - 1), Le32(block));
    In32(t, at, count - 1);
    In32(t, at + 4, block);
    In32(t, at + 8, number);
  }

  lemma EntryAt(t: seq<Byte>, at: nat, block: nat, number: nat, e: Entry)
    requires Fits(block, number, e) && In(t, at, EncodeEntry(block, number, e))
    ensures Get16(t, at) == e.offset && GetShort(Get16(t, at + 2)) == e.number - number
    ensures Get16(t, at + 4) == e.kind && Get16(t, at + 6) == |e.name| - 1
    ensures at + ENTRY + |e.name| <= |t| && t[at + ENTRY..at + ENTRY + |e.name|] == e.name
  {
    var a, b, c, d := Le16(e.offset), Le16(Short(e.number - number)), Le16(e.kind), Le16(|e.name| - 1);
    InParts(t, at, a + b + c + d, e.name);
    InParts(t, at, a + b + c, d);
    InParts(t, at, a + b, c);
    InParts(t, at, a, b);
    In16(t, at, e.offset);
    In16(t, at + 2, Short(e.number - number));
    In16(t, at + 4, e.kind);
    In16(t, at + 6, |e.name| - 1);
  }

  /** squashfs_opendir_4 (unsquash-4.c:285-320) and squashfs_readdir (read_fs.c:525-550), which also
      recovers the inode numbers: the entries of a directory table from `start` to `end`. */
  method ReadDirectory(t: seq<Byte>, start: nat, end: nat, ghost runs: seq<Run>) returns (entries: seq<Entry>)
    requires RunsOk(runs) && In(t, start, Encode(runs)) && end == start + |Encode(runs)|
    ensures entries == Flatten(runs)
  {
    hide Encode, EncodeRun, Flatten;
    entries := [];
    var bytes := start;
    ghost var k := 0;
    NoRuns(runs);
    while bytes < end
      invariant 0 <= k <= |runs| && bytes == start + |Encode(runs[..k])| && entries == Flatten(runs[..k])
      decreases |runs| - k
    {
      Remaining(runs, k);
      EncodeAt(runs, t, start, k);
      ghost var r := runs[k];
      RunParts(t, bytes, r);
      HeaderAt(t, bytes, |r.entries|, r.block, r.number);
      var more, at := ReadRun(t, bytes, r);
      entries := entries + more;
      bytes := at;
      k := k + 1;
    }
    Complete(runs, k);
  }

  lemma NoRuns(runs: seq<Run>)
    requires RunsOk(runs)
    ensures Encode(runs[..0]) == [] && Flatten(runs[..0]) == []
  {
  }

  lemma Remaining(runs: seq<Run>, k: nat)
    requires RunsOk(runs) && k <= |runs| && |Encode(runs[..k])| < |Encode(runs)|
    ensures k < |runs|
  {
    assert runs[..|runs|] == runs;
  }

  lemma {:induction false} Complete(runs: seq<Run>, k: nat)
    requires RunsOk(runs) && k <= |runs|
    ensures |Encode(runs[..k])| <= |Encode(runs)|
    ensures |Encode(runs[..k])| == |Encode(runs)| ==> runs[..k] == runs
    decreases |runs| - k
  {
    if k == |runs| {
      assert runs[..k] == runs;
    } else {
      OneLonger(runs, k);
      hide Encode;
      Complete(runs, k + 1);
    }
  }

  lemma OneLonger(runs: seq<Run>, k: nat)
    requires RunsOk(runs) && k < |runs|
    ensures |Encode(runs[..k])| < |Encode(runs[..k + 1])|
  {
    RunHeader(runs[k]);
    assert runs[..k + 1][..k] == runs[..k];
    hide EncodeRun, RunOk;
  }

  lemma RunHeader(r: Run)
    requires RunOk(r)
    ensures |EncodeRun(r)| >= HEADER
  {
  }

  lemma RunParts(t: seq<Byte>, at: nat, r: Run)
    requires RunOk(r) && In(t, at, EncodeRun(r))
    ensures In(t, at, EncodeHeader(|r.entries|, r.block, r.number))
    ensures In(t, at + HEADER, EncodeEntries(r.block, r.number, r.entries))
    ensures |EncodeRun(r)| == HEADER + |EncodeEntries(r.block, r.number, r.entries)|
  {
    InParts(t, at, EncodeHeader(|r.entries|, r.block, r.number), EncodeEntries(r.block, r.number, r.entries));
  }

  /** One header and its entries. */
  method ReadRun(t: seq<Byte>, start: nat, ghost r: Run) returns (entries: seq<Entry>, bytes: nat)
    requires RunOk(r) && In(t, start, EncodeHeader(|r.entries|, r.block, r.number))
    requires In(t, start + HEADER, EncodeEntries(r.block, r.number, r.entries))
    ensures entries == r.entries && bytes == start + HEADER + |EncodeEntries(r.block, r.number, r.entries)|
  {
    hide EncodeEntries, EncodeEntry, EncodeHeader;
    HeaderAt(t, start, |r.entries|, r.block, r.number);
    var count, block, number := Get32(t, start) + 1, Get32(t, start + 4), Get32(t, start + 8);
    bytes := start + HEADER;
    entries := [];
    NoBytes(block, number);
    assert r.entries[..0] == [];
    var i := 0;
    while i < count
      invariant 0 <= i <= count && entries == r.entries[..i]
      invariant bytes == start + HEADER + |EncodeEntries(r.block, r.number, r.entries[..i])|
    {
      ghost var e := r.entries[i];
      EncodeEntriesAt(r.block, r.number, r.entries, t, start + HEADER, i);
      EntryAt(t, bytes, block, number, e);
      var size := Get16(t, bytes + 6) + 1;
      var name := t[bytes + ENTRY..bytes + ENTRY + size];
      var n := (number + GetShort(Get16(t, bytes + 2))) % 0x1_0000_0000;
      entries := entries + [Entry(name, block, Get16(t, bytes), n, Get16(t, bytes + 4))];
      bytes := bytes + ENTRY + size;
      i := i + 1;
    }
    assert r.entries[..|r.entries|] == r.entries;
  }
}
