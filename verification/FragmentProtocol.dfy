/** The protocol by which the main thread and the fragment deflators of mksquashfs share `bytes`, the
    end of the output file: its steps, one for each stretch of code that no other thread can see into,
    and what every run of them keeps. */
module FragmentProtocol {
  import opened BitStrings

  /** What a block of the output file is: a fragment, or a block of a file. */
  datatype Owner = Fragment(f: nat) | File(n: nat)

  datatype Extent = Extent(pos: nat, data: seq<Byte>, of: Owner) {
    function End(): nat { pos + |data| }
  }

  /** A fragment deflator (lines 2633-2662): it has nothing; it has compressed a fragment; or it found
      the fragments locked, has let go of the mutex and is about to put its fragment on the list. */
  datatype Deflator = Idle | Compressed(fragment: nat) | Refused(fragment: nat)

  /** The main thread: outside the lock; or writing the blocks of a file, of which the first `sent` are
      with the writer and the others are held back, and with `claim` the place of the next block. */
  datatype Main =
    | Outside
    | Writing(start: nat, blocks: seq<Extent>, sent: nat, claim: Claim)

  datatype Claim = NoClaim | At(pos: nat)

  /** `bytes`, fragments_locked, the fragments made so far, as they will be stored, the queues, the
      fragment table, the output file, and the blocks of every file kept.  `log` is every block
      that has a place now, in order, and `base` is what `bytes` was when the threads began. */
  datatype State = State(
    base: nat, bytes: nat, locked: bool, main: Main,
    fragments: seq<seq<Byte>>, toFrag: seq<nat>, deflators: seq<Deflator>, pending: seq<nat>,
    table: map<nat, Extent>, outstanding: int,
    toWriter: seq<Extent>, disk: seq<Byte>,
    files: seq<seq<Extent>>, log: seq<Extent>)

  /** What a thread does next. */
  datatype Step =
    | QueueFragment(stored: seq<Byte>)
    | Compress(d: nat)
    | Place(d: nat)
    | AddPending(d: nat)
    | Write
    | Lock
    | ClaimBlock
    | AppendBlock(data: seq<Byte>, hold: bool)
    | SendHeld
    | RollBack(truncate: bool)
    | Unlock(keep: bool)
    | LastUnlock

  /** Before the first step: `base` is the end of the superblock and of the options of the compressor, or of
      the file system that is appended to (lines 5126-5140, 5152); `disk` is what is in the file, which
      is nothing for a new one. */
  function Start(base: nat, deflators: nat, disk: seq<Byte>): State {
    State(base, base, false, Outside, [], [], seq(deflators, _ => Idle), [], map[], 0, [], disk, [], [])
  }

  // ------------------------------------------------------------------------------ the steps

  /** The writer (lines 2519-2557): blocks go to their places in the order of the queue. */
  function WriteAt(disk: seq<Byte>, e: Extent): seq<Byte> {
    if e.data == [] then disk else Overwritten(disk, e)
  }

  function Overwritten(disk: seq<Byte>, e: Extent): seq<Byte> {
    var d := if |disk| < e.pos then disk + seq(e.pos - |disk|, _ => 0) else disk;
    if |d| <= e.End() then d[..e.pos] + e.data else d[..e.pos] + e.data + d[e.End()..]
  }

  /** ftruncate, which also makes a file longer. */
  function Truncated(disk: seq<Byte>, n: nat): seq<Byte> {
    if n <= |disk| then disk[..n] else disk + seq(n - |disk|, _ => 0)
  }

  /** The output file once the writer has caught up. */
  function Image(disk: seq<Byte>, queue: seq<Extent>): seq<Byte> {
    if queue == [] then disk else WriteAt(Image(disk, queue[..|queue| - 1]), queue[|queue| - 1])
  }

  /** Give a fragment its place (lines 1822-1828, 2646-2651). */
  function PlaceFragment(s: State, f: nat): State
    requires f < |s.fragments|
  {
    var e := Extent(s.bytes, s.fragments[f], Fragment(f));
    s.(table := s.table[f := e], bytes := e.End(), outstanding := s.outstanding - 1,
       toWriter := s.toWriter + [e], log := s.log + [e])
  }

  predicate PendingOk(s: State) { forall i :: 0 <= i < |s.pending| ==> s.pending[i] < |s.fragments| }

  /** The loop of unlock_fragments (lines 1819-1832). */
  function Drain(s: State): State
    requires PendingOk(s)
    decreases |s.pending|
  {
    if s.pending == [] then s else Drain(PlaceFragment(s, s.pending[0]).(pending := s.pending[1..]))
  }

  /** The lock given up, and the file kept or not. */
  function Release(s: State, keep: bool): State
    requires s.main.Writing?
  {
    s.(locked := false, main := Outside, files := if keep then s.files + [s.main.blocks] else s.files)
  }

  predicate HasFragment(s: State, d: nat) {
    d < |s.deflators| && !s.deflators[d].Idle? && s.deflators[d].fragment < |s.fragments|
  }

  predicate Enabled(s: State, step: Step) {
    match step
    case QueueFragment(_) => true
    case Compress(d) => d < |s.deflators| && s.deflators[d].Idle? && s.toFrag != []
    case Place(d) => HasFragment(s, d) && s.deflators[d].Compressed?
    case AddPending(d) => HasFragment(s, d) && s.deflators[d].Refused?
    case Write => s.toWriter != []
    case Lock => s.main.Outside?
    case ClaimBlock => s.main.Writing? && s.main.claim.NoClaim?
    case AppendBlock(_, hold) =>
      s.main.Writing? && s.main.claim.At? && (hold || s.main.sent == |s.main.blocks|)
    case SendHeld => s.main.Writing? && s.main.claim.NoClaim? && s.main.sent <= |s.main.blocks|
    case RollBack(truncate) =>
      s.main.Writing? && s.main.claim.NoClaim? && (truncate ==> s.toWriter == [])
    case Unlock(keep) =>
      s.main.Writing? && s.main.claim.NoClaim? && PendingOk(s) && s.main.sent == |s.main.blocks|
      && (keep || s.main.blocks == [])
    case LastUnlock => s.main.Outside? && PendingOk(s)
  }

  function Next(s: State, step: Step): State
    requires Enabled(s, step)
  {
    match step
    case QueueFragment(stored) =>
      // write_fragment (lines 1869-1875)
      s.(fragments := s.fragments + [stored], toFrag := s.toFrag + [|s.fragments|],
         outstanding := s.outstanding + 1)
    case Compress(d) =>
      // lines 2635-2643
      s.(toFrag := s.toFrag[1..], deflators := s.deflators[d := Compressed(s.toFrag[0])])
    case Place(d) =>
      // lines 2644-2656: under the mutex, up to its release
      var f := s.deflators[d].fragment;
      if s.locked then s.(deflators := s.deflators[d := Refused(f)])
      else PlaceFragment(s, f).(deflators := s.deflators[d := Idle])
    case AddPending(d) =>
      // lines 1848-1850
      s.(pending := s.pending + [s.deflators[d].fragment], deflators := s.deflators[d := Idle])
    case Write =>
      s.(disk := WriteAt(s.disk, s.toWriter[0]), toWriter := s.toWriter[1..])
    case Lock =>
      // lock_fragments, and where the file starts (lines 2998-3001, 3103-3106)
      s.(locked := true, main := Writing(s.bytes, [], 0, NoClaim))
    case ClaimBlock =>
      // `read_buffer->block = bytes`
      s.(main := s.main.(claim := At(s.bytes)))
    case AppendBlock(data, hold) =>
      // `bytes += read_buffer->size`; the block goes to the writer, or waits (lines 3009-3013, 3118-3126)
      var e := Extent(s.main.claim.pos, data, File(|s.files|));
      s.(bytes := s.bytes + |data|, log := s.log + [e],
         toWriter := if hold then s.toWriter else s.toWriter + [e],
         main := Writing(s.main.start, s.main.blocks + [e],
                         if hold then s.main.sent else |s.main.blocks| + 1, NoClaim))
    case SendHeld =>
      // lines 3147-3149
      s.(toWriter := s.toWriter + s.main.blocks[s.main.sent..], main := s.main.(sent := |s.main.blocks|))
    case RollBack(truncate) =>
      // a duplicate or a read error (lines 3060-3071, 3154-3167, 3198-3209)
      s.(bytes := s.main.start,
         log := if |s.main.blocks| <= |s.log| then s.log[..|s.log| - |s.main.blocks|] else s.log,
         disk := if truncate then Truncated(s.disk, s.main.start) else s.disk,
         main := Writing(s.main.start, [], 0, NoClaim))
    case Unlock(keep) =>
      // unlock_fragments (lines 1813-1835), all of it under the mutex
      Drain(Release(s, keep))
    case LastUnlock =>
      // the same at the end of the run, when nothing is locked (line 5328)
      Drain(s)
  }

  // --------------------------------------------------------------------------- the invariant

  /** The extents follow one another from `base` to `end`. */
  predicate Tile(log: seq<Extent>, base: nat, end: nat) {
    if log == [] then base == end
    else log[|log| - 1].End() == end && Tile(log[..|log| - 1], base, log[|log| - 1].pos)
  }

  function Bytes(log: seq<Extent>): seq<Byte> {
    if log == [] then [] else Bytes(log[..|log| - 1]) + log[|log| - 1].data
  }

  /** How many copies of fragment `f` the deflators have. */
  function InHand(deflators: seq<Deflator>, f: nat): nat {
    if deflators == [] then 0
    else InHand(deflators[..|deflators| - 1], f)
         + if !deflators[|deflators| - 1].Idle? && deflators[|deflators| - 1].fragment == f then 1 else 0
  }

  function Busy(deflators: seq<Deflator>): nat {
    if deflators == [] then 0
    else Busy(deflators[..|deflators| - 1]) + if deflators[|deflators| - 1].Idle? then 0 else 1
  }

  /** Copies of fragment `f` on their way to a place. */
  function OnTheWay(s: State, f: nat): nat {
    multiset(s.toFrag)[f] + InHand(s.deflators, f) + multiset(s.pending)[f]
  }

  /** Every fragment made is on its way, once, or has its place; outstanding counts the former. */
  ghost predicate Accounted(s: State) {
    && s.outstanding == |s.toFrag| + Busy(s.deflators) + |s.pending|
    && forall f: nat :: OnTheWay(s, f) == if f < |s.fragments| && f !in s.table then 1 else 0
  }

  /** The blocks of file `n`, one after the other in the log. */
  ghost predicate Within(log: seq<Extent>, blocks: seq<Extent>, n: nat) {
    && (forall k :: 0 <= k < |blocks| ==> blocks[k].of == File(n))
    && exists i: nat :: PartAt(log, blocks, i)
  }

  predicate PartAt(log: seq<Extent>, blocks: seq<Extent>, i: nat) {
    i + |blocks| <= |log| && log[i..i + |blocks|] == blocks
  }

  /** The log without the blocks of the file that is being written. */
  function Settled(s: State): seq<Extent> {
    if s.main.Writing? && |s.main.blocks| <= |s.log| then s.log[..|s.log| - |s.main.blocks|] else s.log
  }

  /** The log without the blocks that are held back. */
  function Sent(s: State): seq<Extent> {
    if s.main.Writing? && s.main.sent <= |s.main.blocks| <= |s.log|
    then s.log[..|s.log| - (|s.main.blocks| - s.main.sent)] else s.log
  }

  ghost predicate MainOk(s: State) {
    s.locked == s.main.Writing? &&
    (s.main.Writing? ==>
      && s.main.sent <= |s.main.blocks| <= |s.log|
      && s.log == Settled(s) + s.main.blocks
      && (forall k :: 0 <= k < |s.main.blocks| ==> s.main.blocks[k].of == File(|s.files|))
      && Tile(Settled(s), s.base, s.main.start)
      && (s.main.claim.At? ==> s.main.claim.pos == s.bytes))
  }

  ghost predicate Kept(s: State) {
    && (forall f :: f in s.table ==>
          && f < |s.fragments| && s.table[f] in Settled(s)
          && s.table[f].data == s.fragments[f] && s.table[f].of == Fragment(f))
    && (forall i :: 0 <= i < |s.files| ==> Within(Settled(s), s.files[i], i))
  }

  /** The output file, once the writer has caught up, holds every block sent at its place. */
  ghost predicate OnDisk(s: State) {
    Holds(s.base, Image(s.disk, s.toWriter), Bytes(Sent(s)))
  }

  /** What concerns the output file. */
  ghost predicate Sound(s: State) {
    Tile(s.log, s.base, s.bytes) && MainOk(s) && Kept(s) && OnDisk(s)
  }

  ghost predicate Inv(s: State) { Sound(s) && Accounted(s) }

  // ----------------------------------------------------------------------- extents and images

  lemma {:induction false} TileBytes(log: seq<Extent>, base: nat, end: nat)
    requires Tile(log, base, end)
    ensures base + |Bytes(log)| == end
    decreases |log|
  {
    if log != [] {
      TileBytes(log[..|log| - 1], base, log[|log| - 1].pos);
    }
  }

  /** A longer run of extents is a shorter one and what follows it. */
  lemma {:induction false} TileSplit(a: seq<Extent>, b: seq<Extent>, base: nat, end: nat)
    returns (mid: nat)
    requires Tile(a + b, base, end)
    ensures Tile(a, base, mid) && Tile(b, mid, end)
    decreases |b|
  {
    if b == [] {
      assert a + b == a;
      mid := end;
    } else {
      var last := b[|b| - 1];
      assert (a + b)[..|a + b| - 1] == a + b[..|b| - 1];
      mid := TileSplit(a, b[..|b| - 1], base, last.pos);
    }
  }

  lemma TileAppend(log: seq<Extent>, base: nat, end: nat, e: Extent)
    requires Tile(log, base, end) && e.pos == end
    ensures Tile(log + [e], base, e.End())
  {
    assert (log + [e])[..|log|] == log;
  }

  /** Earlier extents end before later ones begin, and all lie between the two ends. */
  lemma {:induction false} TileApart(log: seq<Extent>, base: nat, end: nat, i: nat, j: nat)
    requires Tile(log, base, end) && i < |log| && j < |log|
    ensures base <= log[i].pos && log[i].End() <= end
    ensures i < j ==> log[i].End() <= log[j].pos
    decreases |log|
  {
    var n := |log| - 1;
    TileBytes(log, base, end);
    TileBytes(log[..n], base, log[n].pos);
    if i < n {
      TileApart(log[..n], base, log[n].pos, i, if j < n then j else i);
    }
  }

  lemma {:induction false} BytesConcat(a: seq<Extent>, b: seq<Extent>)
    ensures Bytes(a + b) == Bytes(a) + Bytes(b)
    decreases |b|
  {
    if b == [] {
      assert a + b == a;
    } else {
      assert (a + b)[..|a + b| - 1] == a + b[..|b| - 1];
      BytesConcat(a, b[..|b| - 1]);
    }
  }

  /** Where one of the extents is in their bytes. */
  lemma BytesAt(log: seq<Extent>, base: nat, end: nat, i: nat)
    requires Tile(log, base, end) && i < |log|
    ensures base <= log[i].pos && log[i].End() <= base + |Bytes(log)|
    ensures Bytes(log)[log[i].pos - base..log[i].End() - base] == log[i].data
  {
    var a, b := log[..i + 1], log[i + 1..];
    assert log == a + b && a[..i] == log[..i];
    BytesConcat(a, b);
    var mid := TileSplit(a, b, base, end);
    TileBytes(a[..i], base, log[i].pos);
    TileApart(log, base, end, i, i);
  }

  lemma {:induction false} ImageConcat(disk: seq<Byte>, q: seq<Extent>, r: seq<Extent>)
    ensures Image(disk, q + r) == Image(Image(disk, q), r)
    decreases |r|
  {
    if r == [] {
      assert q + r == q;
    } else {
      assert (q + r)[..|q + r| - 1] == q + r[..|r| - 1];
      ImageConcat(disk, q, r[..|r| - 1]);
    }
  }

  /** The image does not depend on how far the writer is. */
  lemma ImageAfterWrite(disk: seq<Byte>, queue: seq<Extent>)
    requires queue != []
    ensures Image(WriteAt(disk, queue[0]), queue[1..]) == Image(disk, queue)
  {
    ImageConcat(disk, queue[..1], queue[1..]);
    assert queue == queue[..1] + queue[1..];
    assert queue[..1][..0] == [];
  }

  /** `sent` is in the file from `base` on. */
  predicate Holds(base: nat, image: seq<Byte>, sent: seq<Byte>) {
    sent != [] ==> base + |sent| <= |image| && image[base..base + |sent|] == sent
  }

  lemma WriteHolds(base: nat, image: seq<Byte>, sent: seq<Byte>, e: Extent)
    requires Holds(base, image, sent) && e.pos == base + |sent|
    ensures Holds(base, WriteAt(image, e), sent + e.data)
  {
    if e.data == [] {
      assert sent + e.data == sent;
    } else {
      var w := WriteAt(image, e);
      Overwrites(image, e);
      assert sent == [] || image[..e.pos][base..] == sent;
      assert w[base..e.End()] == w[..e.pos][base..] + w[e.pos..e.End()];
    }
  }

  lemma Overwrites(image: seq<Byte>, e: Extent)
    ensures var w := Overwritten(image, e);
            && e.End() <= |w| && w[e.pos..e.End()] == e.data && (e.pos <= |image| ==> w[..e.pos] == image[..e.pos])
  {
  }

  /** Sending the blocks that come next in the file. */
  lemma {:induction false} SendHolds(base: nat, image: seq<Byte>, sent: seq<Byte>, blocks: seq<Extent>, end: nat)
    requires Holds(base, image, sent) && Tile(blocks, base + |sent|, end)
    ensures Holds(base, Image(image, blocks), sent + Bytes(blocks))
    decreases |blocks|
  {
    NothingQueued(image);
    hide Holds, WriteAt, Image;
    if blocks == [] {
      assert sent + Bytes(blocks) == sent;
    } else {
      var n := |blocks| - 1;
      var front, last := blocks[..n], blocks[n];
      SendHolds(base, image, sent, front, last.pos);
      TileBytes(front, base + |sent|, last.pos);
      assert blocks == front + [last];
      hide Bytes, Tile;
      ImageOneMore(image, front, last);
      BytesOneMore(front, last);
      WriteHolds(base, Image(image, front), sent + Bytes(front), last);
      assert sent + Bytes(front) + last.data == sent + (Bytes(front) + last.data);
    }
  }

  lemma HoldsPrefix(base: nat, image: seq<Byte>, a: seq<Byte>, b: seq<Byte>)
    requires Holds(base, image, a + b)
    ensures Holds(base, image, a)
  {
    if a != [] {
      assert image[base..base + |a|] == image[base..base + |a + b|][..|a|];
    }
  }

  lemma TruncateHolds(base: nat, disk: seq<Byte>, sent: seq<Byte>, n: nat)
    requires Holds(base, disk, sent) && n == base + |sent|
    ensures Holds(base, Truncated(disk, n), sent)
  {
    if sent != [] {
      assert disk[..n][base..n] == disk[base..n];
    }
  }

  // ---------------------------------------------------------------------- what the steps keep

  lemma WithinLonger(log: seq<Extent>, more: seq<Extent>, blocks: seq<Extent>, n: nat)
    requires Within(log, blocks, n)
    ensures Within(log + more, blocks, n)
  {
    var i: nat :| PartAt(log, blocks, i);
    assert (log + more)[i..i + |blocks|] == log[i..i + |blocks|];
    assert PartAt(log + more, blocks, i);
  }

  /** A fragment gets its place; no file is being written. */
  lemma PlaceKeeps(s: State, f: nat)
    requires Sound(s) && s.main.Outside? && f < |s.fragments| && f !in s.table
    ensures Sound(PlaceFragment(s, f))
  {
    hide Image, WriteAt, Bytes;
    var s' := PlaceFragment(s, f);
    var e := s'.table[f];
    TileAppend(s.log, s.base, s.bytes, e);
    TileBytes(s.log, s.base, s.bytes);
    BytesOneMore(s.log, e);
    ImageOneMore(s.disk, s.toWriter, e);
    WriteHolds(s.base, Image(s.disk, s.toWriter), Bytes(s.log), e);
    forall i | 0 <= i < |s.files| ensures Within(s'.log, s.files[i], i) {
      WithinLonger(s.log, [e], s.files[i], i);
    }
  }

  lemma BytesOneMore(log: seq<Extent>, e: Extent)
    ensures Bytes(log + [e]) == Bytes(log) + e.data
  {
    assert (log + [e])[..|log|] == log;
  }

  lemma ImageOneMore(disk: seq<Byte>, q: seq<Extent>, e: Extent)
    ensures Image(disk, q + [e]) == WriteAt(Image(disk, q), e)
  {
    assert (q + [e])[..|q|] == q;
  }

  lemma WriteKeeps(s: State)
    requires Sound(s) && s.toWriter != []
    ensures Sound(Next(s, Write))
  {
    hide Image, WriteAt, Bytes, Tile, Kept, Holds;
    KeptSame(s, Next(s, Write));
    ImageAfterWrite(s.disk, s.toWriter);
  }

  lemma AllSent(s: State)
    requires s.main.Writing? ==> s.main.sent == |s.main.blocks| <= |s.log|
    ensures Sent(s) == s.log
    ensures s.main.Writing? && s.main.blocks == [] ==> Settled(s) == s.log
  {
  }

  lemma LockKeeps(s: State)
    requires Sound(s) && s.main.Outside?
    ensures Sound(Next(s, Lock))
  {
    hide Image, WriteAt, Bytes;
    AllSent(Next(s, Lock));
  }

  lemma AppendKeeps(s: State, data: seq<Byte>, hold: bool)
    requires Sound(s) && Enabled(s, AppendBlock(data, hold))
    ensures Sound(Next(s, AppendBlock(data, hold)))
  {
    hide Kept, OnDisk, Tile;
    var s' := Next(s, AppendBlock(data, hold));
    var e := Extent(s.main.claim.pos, data, File(|s.files|));
    TileAppend(s.log, s.base, s.bytes, e);
    SettledSame(s, e, s');
    AppendMain(s, e, s');
    KeptSame(s, s');
    AppendOnDisk(s, e, s', hold);
  }

  lemma AppendMain(s: State, e: Extent, s': State)
    requires MainOk(s) && s.main.Writing? && e.of == File(|s.files|) && s'.files == s.files
    requires s'.log == s.log + [e] && s'.base == s.base && s'.locked == s.locked && Settled(s') == Settled(s)
    requires s'.main.Writing? && s'.main.blocks == s.main.blocks + [e] && s'.main.start == s.main.start
    requires s'.main.claim == NoClaim && s'.main.sent <= |s'.main.blocks|
    ensures MainOk(s')
  {
    hide Settled, Tile;
    assert s'.log == Settled(s') + s'.main.blocks;
  }

  /** What is kept depends on the settled log only. */
  lemma KeptSame(s: State, s': State)
    requires Kept(s) && Settled(s') == Settled(s) && s'.table == s.table && s'.files == s.files
    requires s'.fragments == s.fragments
    ensures Kept(s')
  {
    hide Settled, Within;
  }

  lemma AppendOnDisk(s: State, e: Extent, s': State, hold: bool)
    requires OnDisk(s) && Tile(s.log, s.base, s.bytes) && s.main.Writing? && s.main.sent <= |s.main.blocks| <= |s.log|
    requires s'.main.Writing? && s'.main.blocks == s.main.blocks + [e] && s'.log == s.log + [e] && s'.base == s.base
    requires s'.disk == s.disk && e.pos == s.bytes
    requires if hold then s'.main.sent == s.main.sent && s'.toWriter == s.toWriter
             else s.main.sent == |s.main.blocks| && s'.main.sent == |s'.main.blocks| && s'.toWriter == s.toWriter + [e]
    ensures OnDisk(s')
  {
    hide Image, WriteAt, Bytes, Holds, Tile;
    if hold {
      SentSame(s, e, s');
    } else {
      AllSent(s);
      AllSent(s');
      TileBytes(s.log, s.base, s.bytes);
      BytesOneMore(s.log, e);
      ImageOneMore(s.disk, s.toWriter, e);
      WriteHolds(s.base, Image(s.disk, s.toWriter), Bytes(s.log), e);
    }
  }

  lemma SettledSame(s: State, e: Extent, s': State)
    requires s.main.Writing? && |s.main.blocks| <= |s.log|
    requires s'.main.Writing? && s'.main.blocks == s.main.blocks + [e] && s'.log == s.log + [e]
    ensures Settled(s') == Settled(s)
  {
    var n := |s.log| - |s.main.blocks|;
    assert (s.log + [e])[..n] == s.log[..n];
  }

  lemma SentSame(s: State, e: Extent, s': State)
    requires s.main.Writing? && s.main.sent <= |s.main.blocks| <= |s.log|
    requires s'.main.Writing? && s'.main.blocks == s.main.blocks + [e] && s'.main.sent == s.main.sent
    requires s'.log == s.log + [e]
    ensures Sent(s') == Sent(s)
  {
    var n := |s.log| - (|s.main.blocks| - s.main.sent);
    assert (s.log + [e])[..n] == s.log[..n];
  }

  lemma SentAndHeld(s: State)
    requires s.main.Writing? && s.main.sent <= |s.main.blocks| <= |s.log| && s.log == Settled(s) + s.main.blocks
    ensures s.log == Sent(s) + s.main.blocks[s.main.sent..]
    ensures Sent(s) == Settled(s) + s.main.blocks[..s.main.sent]
  {
  }

  lemma SendKeeps(s: State)
    requires Sound(s) && Enabled(s, SendHeld)
    ensures Sound(Next(s, SendHeld))
  {
    hide Kept, OnDisk, Tile, Sent;
    KeptSame(s, Next(s, SendHeld));
    SendOnDisk(s, Next(s, SendHeld));
  }

  lemma SendOnDisk(s: State, s': State)
    requires OnDisk(s) && Tile(s.log, s.base, s.bytes) && s.main.Writing? && s.main.sent <= |s.main.blocks| <= |s.log|
    requires s.log == Settled(s) + s.main.blocks
    requires s'.main.Writing? && s'.main.blocks == s.main.blocks && s'.main.sent == |s.main.blocks|
    requires s'.log == s.log && s'.base == s.base && s'.disk == s.disk
    requires s'.toWriter == s.toWriter + s.main.blocks[s.main.sent..]
    ensures OnDisk(s')
  {
    hide Image, WriteAt, Bytes, Holds, Tile, Settled;
    var a, b := Sent(s), s.main.blocks[s.main.sent..];
    SentAndHeld(s);
    AllSent(s');
    hide Sent;
    var mid := TileSplit(a, b, s.base, s.bytes);
    TileBytes(a, s.base, mid);
    SendHolds(s.base, Image(s.disk, s.toWriter), Bytes(a), b, s.bytes);
    ImageConcat(s.disk, s.toWriter, b);
    BytesConcat(a, b);
  }

  lemma NothingQueued(disk: seq<Byte>)
    ensures Image(disk, []) == disk
  {
  }

  lemma RollBackKeeps(s: State, truncate: bool)
    requires Sound(s) && Enabled(s, RollBack(truncate))
    ensures Sound(Next(s, RollBack(truncate)))
  {
    hide Image, WriteAt, Bytes, Tile, Within, Holds, Truncated;
    var a, b := Settled(s), s.main.blocks[..s.main.sent];
    SentAndHeld(s);
    AllSent(Next(s, RollBack(truncate)));
    BytesConcat(a, b);
    HoldsPrefix(s.base, Image(s.disk, s.toWriter), Bytes(a), Bytes(b));
    if truncate {
      TileBytes(a, s.base, s.main.start);
      NothingQueued(s.disk);
      NothingQueued(Truncated(s.disk, s.main.start));
      TruncateHolds(s.base, s.disk, Bytes(a), s.main.start);
    }
  }

  lemma ReleaseKeeps(s: State, keep: bool)
    requires Sound(s) && Enabled(s, Unlock(keep))
    ensures Sound(Release(s, keep))
  {
    hide Image, WriteAt, Bytes, Tile, Holds, Within;
    var s' := Release(s, keep);
    AllSent(s);
    SettledIn(s, s.log, s.main.blocks);
    forall i | 0 <= i < |s'.files| ensures Within(s'.log, s'.files[i], i) {
      if i < |s.files| {
        WithinLonger(Settled(s), s.main.blocks, s.files[i], i);
      } else {
        WithinLast(Settled(s), s.main.blocks, i);
      }
    }
  }

  lemma SettledIn(s: State, log: seq<Extent>, blocks: seq<Extent>)
    requires log == Settled(s) + blocks
    ensures forall e :: e in Settled(s) ==> e in log
  {
  }

  lemma WithinLast(log: seq<Extent>, blocks: seq<Extent>, n: nat)
    requires forall k :: 0 <= k < |blocks| ==> blocks[k].of == File(n)
    ensures Within(log + blocks, blocks, n)
  {
    assert PartAt(log + blocks, blocks, |log|);
  }

  // ------------------------------------------------------------------ no fragment lost or doubled

  function Holding(d: Deflator, f: nat): nat { if !d.Idle? && d.fragment == f then 1 else 0 }

  lemma {:induction false} InHandSet(ds: seq<Deflator>, d: nat, x: Deflator, f: nat)
    requires d < |ds|
    ensures InHand(ds[d := x], f) + Holding(ds[d], f) == InHand(ds, f) + Holding(x, f)
  {
    var n := |ds| - 1;
    if d < n {
      assert ds[d := x][..n] == ds[..n][d := x];
      InHandSet(ds[..n], d, x, f);
    } else {
      assert ds[d := x][..n] == ds[..n];
    }
  }

  lemma {:induction false} BusySet(ds: seq<Deflator>, d: nat, x: Deflator)
    requires d < |ds|
    ensures Busy(ds[d := x]) + (if ds[d].Idle? then 0 else 1) == Busy(ds) + if x.Idle? then 0 else 1
  {
    var n := |ds| - 1;
    if d < n {
      assert ds[d := x][..n] == ds[..n][d := x];
      BusySet(ds[..n], d, x);
    } else {
      assert ds[d := x][..n] == ds[..n];
    }
  }

  lemma FirstOut(q: seq<nat>, f: nat)
    requires q != []
    ensures multiset(q)[f] == multiset(q[1..])[f] + if q[0] == f then 1 else 0
  {
    assert q == [q[0]] + q[1..];
  }

  /** A deflator's fragment, or the first on the list, has no place yet and is nowhere else. */
  lemma OnTheWayOnce(s: State, f: nat)
    requires Accounted(s)
    requires f in s.pending || exists d :: 0 <= d < |s.deflators| && Holding(s.deflators[d], f) == 1
    ensures f < |s.fragments| && f !in s.table && OnTheWay(s, f) == 1
  {
    assert OnTheWay(s, f) == if f < |s.fragments| && f !in s.table then 1 else 0;
    if f in s.pending {
      assert multiset(s.pending)[f] > 0;
    } else {
      var d :| 0 <= d < |s.deflators| && Holding(s.deflators[d], f) == 1;
      InHandSet(s.deflators, d, Idle, f);
    }
  }

  lemma QueueAccounted(s: State, stored: seq<Byte>)
    requires Accounted(s) && Kept(s)
    ensures Accounted(Next(s, QueueFragment(stored)))
  {
    var s' := Next(s, QueueFragment(stored));
    forall f: nat ensures OnTheWay(s', f) == if f < |s'.fragments| && f !in s'.table then 1 else 0 {
      assert OnTheWay(s, f) == if f < |s.fragments| && f !in s.table then 1 else 0;
    }
  }

  /** A deflator changes its state, and the queues make up for it. */
  lemma DeflatorAccounted(s: State, s': State, d: nat, x: Deflator)
    requires Accounted(s) && d < |s.deflators| && s'.deflators == s.deflators[d := x]
    requires s'.fragments == s.fragments && s'.table == s.table && s'.outstanding == s.outstanding
    requires |s'.toFrag| + |s'.pending| + (if x.Idle? then 0 else 1)
          == |s.toFrag| + |s.pending| + (if s.deflators[d].Idle? then 0 else 1)
    requires forall f: nat :: multiset(s'.toFrag)[f] + multiset(s'.pending)[f] + Holding(x, f)
                           == multiset(s.toFrag)[f] + multiset(s.pending)[f] + Holding(s.deflators[d], f)
    ensures Accounted(s')
  {
    BusySet(s.deflators, d, x);
    forall f: nat ensures OnTheWay(s', f) == OnTheWay(s, f) {
      InHandSet(s.deflators, d, x, f);
    }
  }

  lemma CompressAccounted(s: State, d: nat)
    requires Accounted(s) && Enabled(s, Compress(d))
    ensures Accounted(Next(s, Compress(d)))
  {
    var s', x := Next(s, Compress(d)), Compressed(s.toFrag[0]);
    forall f: nat
      ensures multiset(s'.toFrag)[f] + Holding(x, f) == multiset(s.toFrag)[f] + Holding(s.deflators[d], f)
    {
      FirstOut(s.toFrag, f);
    }
    DeflatorAccounted(s, s', d, x);
  }

  lemma AddPendingAccounted(s: State, d: nat)
    requires Accounted(s) && Enabled(s, AddPending(d))
    ensures Accounted(Next(s, AddPending(d)))
  {
    DeflatorAccounted(s, Next(s, AddPending(d)), d, Idle);
  }

  lemma PlaceAccounted(s: State, d: nat)
    requires Accounted(s) && Enabled(s, Place(d))
    ensures Accounted(Next(s, Place(d)))
  {
    var g := s.deflators[d].fragment;
    if s.locked {
      DeflatorAccounted(s, Next(s, Place(d)), d, Refused(g));
    } else {
      var s' := Next(s, Place(d));
      BusySet(s.deflators, d, Idle);
      OnTheWayOnce(s, g);
      forall f: nat ensures OnTheWay(s', f) == if f < |s'.fragments| && f !in s'.table then 1 else 0 {
        InHandSet(s.deflators, d, Idle, f);
        assert OnTheWay(s, f) == if f < |s.fragments| && f !in s.table then 1 else 0;
      }
    }
  }

  /** One turn of the loop of unlock_fragments. */
  function DrainOne(s: State): State
    requires PendingOk(s) && s.pending != []
  {
    PlaceFragment(s, s.pending[0]).(pending := s.pending[1..])
  }

  lemma DrainAccounted(s: State)
    requires Accounted(s) && PendingOk(s) && s.pending != []
    ensures Accounted(DrainOne(s))
  {
    var s', g := DrainOne(s), s.pending[0];
    OnTheWayOnce(s, g);
    forall f: nat ensures OnTheWay(s', f) == if f < |s'.fragments| && f !in s'.table then 1 else 0 {
      FirstOut(s.pending, f);
      assert OnTheWay(s, f) == if f < |s.fragments| && f !in s.table then 1 else 0;
    }
  }

  lemma {:induction false} DrainKeeps(s: State)
    requires Inv(s) && s.main.Outside? && PendingOk(s)
    ensures Inv(Drain(s)) && Drain(s).pending == [] && Drain(s).main.Outside?
    ensures Grows(s, Drain(s))
    decreases |s.pending|
  {
    hide Sound, Accounted;
    if s.pending != [] {
      var f := s.pending[0];
      OnTheWayOnce(s, f);
      PlaceKeeps(s, f);
      SameFile(PlaceFragment(s, f), DrainOne(s));
      DrainAccounted(s);
      DrainKeeps(DrainOne(s));
    }
  }

  /** Sound does not look at what fragments are on their way. */
  lemma SameFile(s: State, s': State)
    requires Sound(s) && s'.bytes == s.bytes && s'.locked == s.locked && s'.main == s.main
    requires s'.fragments == s.fragments && s'.table == s.table && s'.toWriter == s.toWriter
    requires s'.disk == s.disk && s'.files == s.files && s'.log == s.log && s'.base == s.base
    ensures Sound(s')
  {
    hide Image, Bytes, Tile;
  }

  // ------------------------------------------------------------------------------- every run

  /** What has a place keeps it. */
  ghost predicate Grows(s: State, s': State) {
    && s.fragments <= s'.fragments && s.files <= s'.files && s'.base == s.base
    && forall f :: f in s.table ==> f in s'.table && s'.table[f] == s.table[f]
  }

  lemma PlaceSound(s: State, d: nat)
    requires Inv(s) && Enabled(s, Place(d))
    ensures Sound(Next(s, Place(d)))
  {
    hide Sound, Accounted, InHand, Busy;
    if s.locked {
      SameFile(s, Next(s, Place(d)));
    } else {
      OnTheWayOnce(s, s.deflators[d].fragment);
      Unlocked(s);
      PlaceKeeps(s, s.deflators[d].fragment);
      SameFile(PlaceFragment(s, s.deflators[d].fragment), Next(s, Place(d)));
    }
  }

  lemma Unlocked(s: State)
    requires Sound(s) && !s.locked
    ensures s.main.Outside?
  {
  }

  lemma QueueKeeps(s: State, stored: seq<Byte>)
    requires Sound(s)
    ensures Sound(Next(s, QueueFragment(stored)))
  {
    hide Tile, Within, OnDisk;
    SameOnDisk(s, Next(s, QueueFragment(stored)));
  }

  lemma ClaimKeeps(s: State)
    requires Sound(s) && Enabled(s, ClaimBlock)
    ensures Sound(Next(s, ClaimBlock))
  {
    hide Tile, Kept, OnDisk;
    KeptSame(s, Next(s, ClaimBlock));
    SameOnDisk(s, Next(s, ClaimBlock));
  }

  lemma SameOnDisk(s: State, s': State)
    requires OnDisk(s) && s'.base == s.base && s'.disk == s.disk && s'.toWriter == s.toWriter && Sent(s') == Sent(s)
    ensures OnDisk(s')
  {
  }

  lemma NextSound(s: State, step: Step)
    requires Inv(s) && Enabled(s, step) && !step.Unlock? && !step.LastUnlock?
    ensures Sound(Next(s, step))
  {
    hide Sound, Accounted;
    match step
    case QueueFragment(stored) =>
      QueueKeeps(s, stored);
    case Place(d) =>
      PlaceSound(s, d);
    case Compress(d) =>
      SameFile(s, Next(s, step));
    case AddPending(d) =>
      SameFile(s, Next(s, step));
    case Write =>
      WriteKeeps(s);
    case Lock =>
      LockKeeps(s);
    case ClaimBlock =>
      ClaimKeeps(s);
    case AppendBlock(data, hold) =>
      AppendKeeps(s, data, hold);
    case SendHeld =>
      SendKeeps(s);
    case RollBack(truncate) =>
      RollBackKeeps(s, truncate);
    case _ =>
  }

  lemma NextAccounted(s: State, step: Step)
    requires Inv(s) && Enabled(s, step) && !step.Unlock? && !step.LastUnlock?
    ensures Accounted(Next(s, step))
  {
    hide Image, WriteAt, Bytes, Tile, InHand, Busy, OnDisk, MainOk;
    match step
    case QueueFragment(stored) =>
      QueueAccounted(s, stored);
    case Compress(d) =>
      CompressAccounted(s, d);
    case Place(d) =>
      PlaceAccounted(s, d);
    case AddPending(d) =>
      AddPendingAccounted(s, d);
    case Write | Lock | ClaimBlock | AppendBlock(_, _) | SendHeld | RollBack(_) =>
      SameWay(s, Next(s, step));
    case Unlock(_) =>
    case LastUnlock =>
  }

  lemma SameWay(s: State, s': State)
    requires Accounted(s) && s'.fragments == s.fragments && s'.table == s.table && s'.toFrag == s.toFrag
    requires s'.deflators == s.deflators && s'.pending == s.pending && s'.outstanding == s.outstanding
    ensures Accounted(s')
  {
    forall f: nat ensures OnTheWay(s', f) == OnTheWay(s, f) {
    }
  }

  lemma NextKeeps(s: State, step: Step)
    requires Inv(s) && Enabled(s, step)
    ensures Inv(Next(s, step)) && Grows(s, Next(s, step))
  {
    hide Sound, Accounted, Drain;
    if step.Unlock? {
      ReleaseKeeps(s, step.keep);
      SameWay(s, Release(s, step.keep));
      DrainKeeps(Release(s, step.keep));
    } else if step.LastUnlock? {
      DrainKeeps(s);
    } else {
      NextSound(s, step);
      NextAccounted(s, step);
      if step.Place? {
        OnTheWayOnce(s, s.deflators[step.d].fragment);
      }
    }
  }

  /** The states of a run, by any threads in any order. */
  ghost predicate Run(s: State, steps: seq<Step>, s': State)
    decreases |steps|
  {
    if steps == [] then s' == s
    else Enabled(s, steps[0]) && Run(Next(s, steps[0]), steps[1..], s')
  }

  lemma {:induction false} RunKeeps(s: State, steps: seq<Step>, s': State)
    requires Inv(s) && Run(s, steps, s')
    ensures Inv(s') && Grows(s, s')
    decreases |steps|
  {
    hide Inv, Next, Enabled;
    if steps != [] {
      NextKeeps(s, steps[0]);
      RunKeeps(Next(s, steps[0]), steps[1..], s');
    }
  }

  /** The main theorem's conclusion: blocks with a place do not overlap and fill all of the file up to
      `bytes`; kept files are contiguous; everything sent is, or will be, on disk where the fragment
      table and the files say; and outstanding is the number of fragments that have no place yet. */
  ghost predicate Consistent(s: State) {
    && (forall i, j :: 0 <= i < j < |s.log| ==> s.log[i].End() <= s.log[j].pos)
    && s.base + |Bytes(s.log)| == s.bytes
    && (forall f :: f in s.table ==>
          f < |s.fragments| && s.table[f] in s.log && OnFile(s, s.table[f])
          && s.table[f].data == s.fragments[f] && s.table[f].of == Fragment(f))
    && (forall n :: 0 <= n < |s.files| ==> Contiguous(s, s.files[n], n))
    && s.outstanding == |s.fragments| - |s.table|
  }

  /** Once the writer has caught up, extent `e` is in the file. */
  ghost predicate OnFile(s: State, e: Extent) {
    var image := Image(s.disk, s.toWriter);
    e.data != [] ==> e.End() <= |image| && image[e.pos..e.End()] == e.data
  }

  ghost predicate Contiguous(s: State, blocks: seq<Extent>, n: nat) {
    && (forall k :: 0 <= k < |blocks| ==>
          blocks[k] in s.log && OnFile(s, blocks[k]) && blocks[k].of == File(n))
    && forall k :: 0 < k < |blocks| ==> blocks[k - 1].End() == blocks[k].pos
  }

  lemma SentOnFile(s: State, e: Extent)
    requires Sound(s) && e in Sent(s)
    ensures e in s.log && OnFile(s, e)
  {
    hide Image, Bytes, Tile, Kept, MainOk, Holds;
    var log := Sent(s);
    var rest := s.log[|log|..];
    assert s.log == log + rest;
    var mid := TileSplit(log, rest, s.base, s.bytes);
    var i :| 0 <= i < |log| && log[i] == e;
    if e.data != [] {
      InImage(Image(s.disk, s.toWriter), log, s.base, mid, i);
    }
  }

  lemma InImage(image: seq<Byte>, log: seq<Extent>, base: nat, end: nat, i: nat)
    requires Tile(log, base, end) && Holds(base, image, Bytes(log)) && i < |log| && log[i].data != []
    ensures log[i].End() <= |image| && image[log[i].pos..log[i].End()] == log[i].data
  {
    hide Tile, Bytes;
    var e := log[i];
    BytesAt(log, base, end, i);
    Slice(image, base, base + |Bytes(log)|, e.pos - base, e.End() - base);
  }

  lemma Slice(s: seq<Byte>, a: nat, b: nat, c: nat, d: nat)
    requires a <= b <= |s| && c <= d <= b - a
    ensures s[a..b][c..d] == s[a + c..a + d]
  {
    forall k | 0 <= k < d - c ensures s[a..b][c..d][k] == s[a + c..a + d][k] {
      assert s[a..b][c + k] == s[a + c + k];
    }
  }

  lemma SettledSent(s: State, e: Extent)
    requires MainOk(s) && e in Settled(s)
    ensures e in Sent(s)
  {
    if s.main.Writing? {
      SentAndHeld(s);
    }
  }

  lemma {:induction false} TileNext(log: seq<Extent>, base: nat, end: nat, i: nat)
    requires Tile(log, base, end) && i + 1 < |log|
    ensures log[i].End() == log[i + 1].pos
    decreases |log|
  {
    var n := |log| - 1;
    if i + 1 < n {
      TileNext(log[..n], base, log[n].pos, i);
    } else {
      assert Tile(log[..n], base, log[n].pos) && log[..n][n - 1] == log[i];
    }
  }

  lemma FileContiguous(s: State, blocks: seq<Extent>, n: nat)
    requires Sound(s) && Within(Settled(s), blocks, n)
    ensures Contiguous(s, blocks, n)
  {
    hide Image, Bytes, OnFile;
    var log := Settled(s);
    var i: nat :| PartAt(log, blocks, i);
    forall k | 0 <= k < |blocks|
      ensures blocks[k] in s.log && OnFile(s, blocks[k])
    {
      assert blocks[k] == log[i..i + |blocks|][k] == log[i + k];
      SettledSent(s, blocks[k]);
      SentOnFile(s, blocks[k]);
    }
    forall k | 0 < k < |blocks| ensures blocks[k - 1].End() == blocks[k].pos {
      assert blocks[k] == log[i..i + |blocks|][k] == log[i + k] == s.log[i + k];
      assert blocks[k - 1] == log[i..i + |blocks|][k - 1] == s.log[i + k - 1];
      TileNext(s.log, s.base, s.bytes, i + k - 1);
    }
  }

  lemma InvConsistent(s: State)
    requires Inv(s)
    ensures Consistent(s)
  {
    hide Image, Bytes, OnFile, Contiguous, Tile;
    forall i, j | 0 <= i < j < |s.log| ensures s.log[i].End() <= s.log[j].pos {
      TileApart(s.log, s.base, s.bytes, i, j);
    }
    TileBytes(s.log, s.base, s.bytes);
    forall f | f in s.table ensures s.table[f] in s.log && OnFile(s, s.table[f]) {
      SettledSent(s, s.table[f]);
      SentOnFile(s, s.table[f]);
    }
    forall n | 0 <= n < |s.files| ensures Contiguous(s, s.files[n], n) {
      FileContiguous(s, s.files[n], n);
    }
    OutstandingIs(s);
  }

  // ------------------------------------------------------------------------- how many have no place

  /** How many of the numbers are below `n`. */
  function BelowIn(s: seq<nat>, n: nat): nat {
    if n == 0 then 0 else BelowIn(s, n - 1) + multiset(s)[n - 1]
  }

  function HandBelow(ds: seq<Deflator>, n: nat): nat {
    if n == 0 then 0 else HandBelow(ds, n - 1) + InHand(ds, n - 1)
  }

  function WayBelow(s: State, n: nat): nat {
    if n == 0 then 0 else WayBelow(s, n - 1) + OnTheWay(s, n - 1)
  }

  lemma {:induction false} BelowOneMore(s: seq<nat>, x: nat, n: nat)
    ensures BelowIn(s + [x], n) == BelowIn(s, n) + if x < n then 1 else 0
  {
    if n > 0 {
      BelowOneMore(s, x, n - 1);
      assert multiset(s + [x]) == multiset(s) + multiset{x};
    }
  }

  lemma {:induction false} BelowAll(s: seq<nat>, n: nat)
    requires forall i :: 0 <= i < |s| ==> s[i] < n
    ensures BelowIn(s, n) == |s|
    decreases |s|
  {
    if s == [] {
      BelowNone(n);
    } else {
      var k := |s| - 1;
      assert s == s[..k] + [s[k]];
      BelowOneMore(s[..k], s[k], n);
      BelowAll(s[..k], n);
    }
  }

  lemma {:induction false} BelowNone(n: nat)
    ensures BelowIn([], n) == 0 && HandBelow([], n) == 0
  {
    if n > 0 {
      BelowNone(n - 1);
    }
  }

  lemma {:induction false} HandOneMore(ds: seq<Deflator>, n: nat)
    requires ds != []
    ensures var d := ds[|ds| - 1];
            HandBelow(ds, n) == HandBelow(ds[..|ds| - 1], n) + if !d.Idle? && d.fragment < n then 1 else 0
  {
    if n > 0 {
      HandOneMore(ds, n - 1);
    }
  }

  lemma {:induction false} HandAll(ds: seq<Deflator>, n: nat)
    requires forall i :: 0 <= i < |ds| && !ds[i].Idle? ==> ds[i].fragment < n
    ensures HandBelow(ds, n) == Busy(ds)
    decreases |ds|
  {
    if ds == [] {
      BelowNone(n);
    } else {
      HandOneMore(ds, n);
      HandAll(ds[..|ds| - 1], n);
    }
  }

  lemma {:induction false} WayParts(s: State, n: nat)
    ensures WayBelow(s, n) == BelowIn(s.toFrag, n) + HandBelow(s.deflators, n) + BelowIn(s.pending, n)
  {
    if n > 0 {
      WayParts(s, n - 1);
    }
  }

  /** Each fragment below `n` is on its way or in the table. */
  lemma {:induction false} WayOrTable(s: State, n: nat)
    requires Accounted(s) && n <= |s.fragments|
    ensures WayBelow(s, n) + |set f | f in s.table && f < n| == n
  {
    var below := set f | f in s.table && f < n;
    if n == 0 {
      assert below == {};
    } else {
      var less := set f | f in s.table && f < n - 1;
      WayOrTable(s, n - 1);
      assert below == if n - 1 in s.table then less + {n - 1} else less;
    }
  }

  lemma {:induction false} InHandSome(ds: seq<Deflator>, i: nat)
    requires i < |ds| && !ds[i].Idle?
    ensures InHand(ds, ds[i].fragment) > 0
    decreases |ds|
  {
    if i < |ds| - 1 {
      InHandSome(ds[..|ds| - 1], i);
    }
  }

  lemma OutstandingIs(s: State)
    requires Accounted(s) && forall f :: f in s.table ==> f < |s.fragments|
    ensures s.outstanding == |s.fragments| - |s.table|
  {
    var n := |s.fragments|;
    forall i | 0 <= i < |s.toFrag| ensures s.toFrag[i] < n {
      assert s.toFrag[i] in multiset(s.toFrag) && OnTheWay(s, s.toFrag[i]) > 0;
    }
    forall i | 0 <= i < |s.pending| ensures s.pending[i] < n {
      assert s.pending[i] in multiset(s.pending) && OnTheWay(s, s.pending[i]) > 0;
    }
    forall i | 0 <= i < |s.deflators| && !s.deflators[i].Idle? ensures s.deflators[i].fragment < n {
      InHandSome(s.deflators, i);
      assert OnTheWay(s, s.deflators[i].fragment) > 0;
    }
    BelowAll(s.toFrag, n);
    BelowAll(s.pending, n);
    HandAll(s.deflators, n);
    WayParts(s, n);
    WayOrTable(s, n);
    assert (set f | f in s.table && f < n) == s.table.Keys;
  }

  lemma {:induction false} NoneBusy(n: nat, f: nat)
    ensures InHand(seq(n, _ => Idle), f) == 0 && Busy(seq(n, _ => Idle)) == 0
  {
    if n > 0 {
      assert seq(n, _ => Idle)[..n - 1] == seq(n - 1, _ => Idle);
      NoneBusy(n - 1, f);
    }
  }

  lemma StartInv(base: nat, deflators: nat, disk: seq<Byte>)
    ensures Inv(Start(base, deflators, disk))
  {
    var s := Start(base, deflators, disk);
    forall f: nat ensures OnTheWay(s, f) == 0 {
      NoneBusy(deflators, f);
    }
    NoneBusy(deflators, 0);
  }

  /** Whatever the threads do and in whatever order, from whatever end of the file. */
  lemma EveryRun(base: nat, deflators: nat, disk: seq<Byte>, steps: seq<Step>, s: State)
    requires Run(Start(base, deflators, disk), steps, s)
    ensures Consistent(s) && s.base == base
  {
    hide Inv, Consistent, Run, Start;
    StartInv(base, deflators, disk);
    StartBase(base, deflators, disk);
    RunKeeps(Start(base, deflators, disk), steps, s);
    InvConsistent(s);
  }

  lemma StartBase(base: nat, deflators: nat, disk: seq<Byte>)
    ensures Start(base, deflators, disk).base == base
  {
  }
}
