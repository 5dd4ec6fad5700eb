/** What the steps of FragmentProtocol leave behind, what every run has made and kept, and when the wait for
    outstanding fragments at the end of mksquashfs comes to an end. */
module FragmentEnd {
  import opened Basics
  import opened BitStrings
  import opened FragmentProtocol

  // ------------------------------------------------------------------------- writing and cutting

  /** The writer puts the data at its place, whether or not the file goes so far, and zeros before it if not; all
      other bytes stay. */
  lemma WriteIs(disk: seq<Byte>, e: Extent)
    requires e.data != []
    ensures var r := WriteAt(disk, e);
            && |r| == (if |disk| < e.End() then e.End() else |disk|)
            && forall i :: 0 <= i < |r| ==>
                 r[i] == if e.pos <= i < e.End() then e.data[i - e.pos] else if i < |disk| then disk[i] else 0
  {
  }

  /** ftruncate cuts off, or adds zeros. */
  lemma TruncatedIs(disk: seq<Byte>, n: nat)
    ensures |Truncated(disk, n)| == n
    ensures forall i :: 0 <= i < n ==> Truncated(disk, n)[i] == if i < |disk| then disk[i] else 0
  {
  }

  // ------------------------------------------------------------------- the fragments on the list

  /** Everything but what giving fragments their places changes. */
  predicate SameOtherwise(s: State, s': State) {
    && s'.base == s.base && s'.fragments == s.fragments && s'.toFrag == s.toFrag && s'.deflators == s.deflators
    && s'.disk == s.disk
  }

  /** `added` are the extents of the fragments `fs`, in this order, one after the other from `pos` on. */
  ghost predicate Row(fragments: seq<seq<Byte>>, fs: seq<nat>, pos: nat, added: seq<Extent>) {
    |added| == |fs| &&
    forall i :: 0 <= i < |fs| ==>
      && fs[i] < |fragments| && added[i].data == fragments[fs[i]] && added[i].of == Fragment(fs[i])
      && added[i].pos == pos + |Bytes(added[..i])|
  }

  lemma RowFirst(fragments: seq<seq<Byte>>, fs: seq<nat>, pos: nat, e: Extent, more: seq<Extent>)
    requires fs != [] && fs[0] < |fragments| && e == Extent(pos, fragments[fs[0]], Fragment(fs[0]))
    requires Row(fragments, fs[1..], e.End(), more)
    ensures Row(fragments, fs, pos, [e] + more)
    ensures |Bytes([e] + more)| == |e.data| + |Bytes(more)|
  {
    var all := [e] + more;
    BytesConcat([e], more);
    OneExtent(e);
    forall i | 0 <= i < |fs|
      ensures fs[i] < |fragments| && all[i].data == fragments[fs[i]] && all[i].of == Fragment(fs[i])
      ensures all[i].pos == pos + |Bytes(all[..i])|
    {
      if i > 0 {
        assert all[i] == more[i - 1] && fs[i] == fs[1..][i - 1];
        assert all[..i] == [e] + more[..i - 1];
        BytesConcat([e], more[..i - 1]);
      }
    }
  }

  lemma OneExtent(e: Extent)
    ensures Bytes([e]) == e.data
  {
    assert [e][..0] == [];
  }

  /** The fragments `fs` are in the table at the places of `added`; nothing else has come to the table. */
  ghost predicate Entered(table: map<nat, Extent>, fs: seq<nat>, added: seq<Extent>, table': map<nat, Extent>) {
    && |added| == |fs|
    && (forall i :: 0 <= i < |fs| ==> fs[i] in table' && table'[fs[i]] == added[i])
    && (forall f :: f !in fs ==> (f in table' <==> f in table))
    && forall f :: f in table && f !in fs ==> f in table' && table'[f] == table[f]
  }

  lemma EnteredFirst(table: map<nat, Extent>, fs: seq<nat>, e: Extent, more: seq<Extent>, table': map<nat, Extent>)
    requires fs != [] && Distinct(fs) && Entered(table[fs[0] := e], fs[1..], more, table')
    ensures Entered(table, fs, [e] + more, table')
  {
    var added := [e] + more;
    assert fs[0] !in fs[1..];
    forall i | 0 <= i < |fs| ensures fs[i] in table' && table'[fs[i]] == added[i] {
      if i > 0 {
        assert fs[i] == fs[1..][i - 1];
      }
    }
    forall f | f !in fs ensures f !in fs[1..] {
    }
  }

  /** What unlock_fragments leaves: the list is empty, and each fragment that was on it has its place, in the
      order of the list. */
  ghost predicate Drained(s: State, s': State, added: seq<Extent>) {
    && s'.pending == [] && s'.outstanding == s.outstanding - |s.pending|
    && Row(s.fragments, s.pending, s.bytes, added) && s'.bytes == s.bytes + |Bytes(added)|
    && s'.toWriter == s.toWriter + added && s'.log == s.log + added
    && Entered(s.table, s.pending, added, s'.table) && SameOtherwise(s, s')
  }

  /** `r` is what is left after the first of the list has its place `e`. */
  predicate FirstPlaced(s: State, e: Extent, r: State) {
    && s.pending != [] && s.pending[0] < |s.fragments|
    && e == Extent(s.bytes, s.fragments[s.pending[0]], Fragment(s.pending[0]))
    && r.pending == s.pending[1..] && r.table == s.table[s.pending[0] := e] && r.bytes == e.End()
    && r.outstanding == s.outstanding - 1 && r.toWriter == s.toWriter + [e] && r.log == s.log + [e]
    && SameOtherwise(s, r)
  }

  lemma DrainedFirst(s: State, e: Extent, r: State, s': State, more: seq<Extent>)
    requires FirstPlaced(s, e, r) && Distinct(s.pending) && Drained(r, s', more)
    ensures Drained(s, s', [e] + more)
  {
    hide Bytes, Row, Entered, Distinct;
    RowFirst(s.fragments, s.pending, s.bytes, e, more);
    EnteredFirst(s.table, s.pending, e, more, s'.table);
    Regroup(s.toWriter, e, more);
    Regroup(s.log, e, more);
  }

  lemma Regroup(before: seq<Extent>, e: Extent, more: seq<Extent>)
    ensures before + [e] + more == before + ([e] + more)
  {
  }

  lemma NothingDrained(s: State)
    requires s.pending == []
    ensures Drained(s, s, [])
  {
  }

  lemma {:induction false} DrainLeaves(s: State) returns (added: seq<Extent>)
    requires PendingOk(s) && Distinct(s.pending)
    ensures var s' := Drain(s);
            Drained(s, s', added) && s'.locked == s.locked && s'.main == s.main && s'.files == s.files
    decreases |s.pending|
  {
    hide Drained;
    if s.pending == [] {
      added := [];
      NothingDrained(s);
    } else {
      var f := s.pending[0];
      var e, r := Extent(s.bytes, s.fragments[f], Fragment(f)), PlaceFragment(s, f).(pending := s.pending[1..]);
      var more := DrainLeaves(r);
      added := [e] + more;
      DrainedFirst(s, e, r, Drain(s), more);
    }
  }

  lemma PendingDistinct(s: State)
    requires Accounted(s)
    ensures Distinct(s.pending)
    ensures forall f :: f in s.pending ==> f < |s.fragments| && f !in s.table
  {
    forall i, j | 0 <= i < j < |s.pending| ensures s.pending[i] != s.pending[j] {
      assert OnTheWay(s, s.pending[i]) <= 1;
      OnceIn(s.pending, i, j);
    }
    forall f | f in s.pending ensures f < |s.fragments| && f !in s.table {
      assert f in multiset(s.pending) && OnTheWay(s, f) >= 1;
    }
  }

  lemma OnceIn(s: seq<nat>, i: nat, j: nat)
    requires i < j < |s| && multiset(s)[s[i]] <= 1
    ensures s[i] != s[j]
  {
    assert s == s[..j] + [s[j]] + s[j + 1..];
    assert s[..j][i] == s[i];
    assert s[i] in multiset(s[..j]);
  }

  /** Nothing is locked any more, all that was on the list is in the table, and the file is kept or not. */
  ghost predicate UnlockedTo(s: State, keep: bool, s': State, added: seq<Extent>) {
    && Drained(s, s', added) && !s'.locked && s'.main.Outside? && s.main.Writing?
    && s'.files == if keep then s.files + [s.main.blocks] else s.files
  }

  lemma UnlockLeaves(s: State, keep: bool) returns (added: seq<Extent>)
    requires Accounted(s) && Enabled(s, Unlock(keep))
    ensures UnlockedTo(s, keep, Next(s, Unlock(keep)), added)
  {
    hide Drained;
    PendingDistinct(s);
    added := DrainLeaves(Release(s, keep));
    SameDrained(s, Release(s, keep), Next(s, Unlock(keep)), added);
  }

  lemma SameDrained(s: State, r: State, s': State, added: seq<Extent>)
    requires Drained(r, s', added) && r.pending == s.pending && r.outstanding == s.outstanding && r.bytes == s.bytes
    requires r.toWriter == s.toWriter && r.log == s.log && r.table == s.table && SameOtherwise(s, r)
    ensures Drained(s, s', added)
  {
  }

  /** A deflator that is done with a fragment: it gives it the place at the end of the file and is idle, or
      the fragment is refused. */
  lemma PlaceLeaves(s: State, d: nat)
    requires Accounted(s) && Enabled(s, Place(d))
    ensures var s', f := Next(s, Place(d)), s.deflators[d].fragment;
            && s'.fragments == s.fragments && s'.toFrag == s.toFrag && s'.pending == s.pending
            && (s.locked ==> s'.deflators == s.deflators[d := Refused(f)] && s'.table == s.table && s'.bytes == s.bytes)
            && (!s.locked ==>
                  && s'.deflators == s.deflators[d := Idle] && f !in s.table && f in s'.table
                  && s'.table[f].pos == s.bytes && s'.table[f].data == s.fragments[f]
                  && s'.table[f].of == Fragment(f) && s'.bytes == s.bytes + |s.fragments[f]|
                  && s'.outstanding == s.outstanding - 1 && s'.toWriter == s.toWriter + [s'.table[f]])
  {
    InHandSome(s.deflators, d);
    assert OnTheWay(s, s.deflators[d].fragment) > 0;
  }

  // -------------------------------------------------------------------------- the work that is left

  function WeightOf(d: Deflator): nat { if d.Idle? then 0 else if d.Compressed? then 4 else 3 }

  function Weight(ds: seq<Deflator>): nat { if ds == [] then 0 else Weight(ds[..|ds| - 1]) + WeightOf(ds[|ds| - 1]) }

  /** How many deflators have a fragment that was refused, and have not yet put it on the list. */
  function Refusals(ds: seq<Deflator>): nat {
    if ds == [] then 0 else Refusals(ds[..|ds| - 1]) + if ds[|ds| - 1].Refused? then 1 else 0
  }

  /** A bound for what deflators and writer have still to do. */
  function Left(s: State): nat { 5 * |s.toFrag| + Weight(s.deflators) + 2 * |s.pending| + |s.toWriter| }

  /** The steps of the deflators and of the writer. */
  predicate Work(step: Step) { step.Compress? || step.Place? || step.AddPending? || step.Write? }

  lemma {:induction false} WeightUpdate(ds: seq<Deflator>, d: nat, x: Deflator)
    requires d < |ds|
    ensures Weight(ds[d := x]) == Weight(ds) - WeightOf(ds[d]) + WeightOf(x)
    ensures Refusals(ds[d := x]) == Refusals(ds) - (if ds[d].Refused? then 1 else 0) + if x.Refused? then 1 else 0
    decreases |ds|
  {
    var n := |ds| - 1;
    if d < n {
      WeightUpdate(ds[..n], d, x);
      assert ds[d := x][..n] == ds[..n][d := x];
    } else {
      assert ds[d := x][..n] == ds[..n];
    }
  }

  /** Each of their steps leaves less to do. */
  lemma WorkEnds(s: State, step: Step)
    requires Enabled(s, step) && Work(step)
    ensures Left(Next(s, step)) < Left(s)
    ensures Next(s, step).locked == s.locked && |Next(s, step).deflators| == |s.deflators|
    ensures !s.locked ==>
              Refusals(Next(s, step).deflators) + |Next(s, step).pending| == Refusals(s.deflators) + |s.pending|
  {
    hide Weight, Refusals;
    match step
    case Compress(d) => WeightUpdate(s.deflators, d, Compressed(s.toFrag[0]));
    case Place(d) =>
      WeightUpdate(s.deflators, d, Refused(s.deflators[d].fragment));
      WeightUpdate(s.deflators, d, Idle);
    case AddPending(d) => WeightUpdate(s.deflators, d, Idle);
    case Write =>
    case _ =>
  }

  /** The deflators and the writer have nothing to do. */
  ghost predicate Still(s: State) { forall step :: Work(step) ==> !Enabled(s, step) }

  lemma {:induction false} NoneBusyOf(ds: seq<Deflator>)
    requires forall d :: 0 <= d < |ds| ==> ds[d].Idle?
    ensures Busy(ds) == 0
  {
    if ds != [] {
      NoneBusyOf(ds[..|ds| - 1]);
    }
  }

  lemma BusyGoesOn(s: State, d: nat)
    requires Accounted(s) && d < |s.deflators| && !s.deflators[d].Idle?
    ensures Enabled(s, Place(d)) || Enabled(s, AddPending(d))
  {
    InHandSome(s.deflators, d);
    assert OnTheWay(s, s.deflators[d].fragment) > 0;
  }

  /** Then what is outstanding is on the list, and everything else is on disk. */
  lemma StillLeaves(s: State)
    requires Accounted(s) && Still(s) && s.deflators != []
    ensures s.toFrag == [] && s.toWriter == [] && (forall d :: 0 <= d < |s.deflators| ==> s.deflators[d].Idle?)
    ensures s.outstanding == |s.pending|
  {
    assert !Enabled(s, Write);
    forall d | 0 <= d < |s.deflators| ensures s.deflators[d].Idle? {
      if !s.deflators[d].Idle? {
        BusyGoesOn(s, d);
      }
    }
    assert !Enabled(s, Compress(0));
    NoneBusyOf(s.deflators);
  }

  ghost predicate AllWork(steps: seq<Step>) { forall i :: 0 <= i < |steps| ==> Work(steps[i]) }

  /** While the main thread waits (lines 5330-5334), the others do what they have left and no more, and what was
      refused, or is on the list, stays outstanding. */
  lemma {:induction false} WaitKeeps(s: State, steps: seq<Step>, s': State)
    requires Run(s, steps, s') && AllWork(steps) && !s.locked
    ensures Left(s') + |steps| <= Left(s) && !s'.locked && |s'.deflators| == |s.deflators|
    ensures Refusals(s'.deflators) + |s'.pending| == Refusals(s.deflators) + |s.pending|
    decreases |steps|
  {
    hide Next, Enabled, Left, Refusals;
    if steps != [] {
      WorkEnds(s, steps[0]);
      WaitKeeps(Next(s, steps[0]), steps[1..], s');
    }
  }

  lemma {:induction false} NoneRefused(ds: seq<Deflator>)
    requires forall d :: 0 <= d < |ds| ==> ds[d].Idle?
    ensures Refusals(ds) == 0
  {
    if ds != [] {
      NoneRefused(ds[..|ds| - 1]);
    }
  }

  /** However they go on, when there is nothing left to do as many fragments are outstanding as deflators had one
      refused at the last unlock: the wait ends exactly when there was none. */
  lemma WaitEnds(s: State, steps: seq<Step>, s': State)
    requires Inv(s) && Enabled(s, LastUnlock) && s.deflators != []
    requires Run(Next(s, LastUnlock), steps, s') && AllWork(steps) && Still(s')
    ensures s'.outstanding == Refusals(s.deflators) && |s'.fragments| - |s'.table| == Refusals(s.deflators)
    ensures s'.toWriter == [] && |steps| <= Left(Next(s, LastUnlock))
  {
    hide Left, Refusals, Run, Still, AllWork;
    var r := Next(s, LastUnlock);
    LastUnlockLeaves(s);
    NextKeeps(s, LastUnlock);
    WaitKeeps(r, steps, s');
    RunKeeps(r, steps, s');
    StillLeaves(s');
    NoneRefused(s'.deflators);
    OutstandingOf(s');
  }

  lemma OutstandingOf(s: State)
    requires Inv(s)
    ensures s.outstanding == |s.fragments| - |s.table|
  {
    hide OnDisk, MainOk, Tile, Within;
    OutstandingIs(s);
  }

  lemma LastUnlockLeaves(s: State)
    requires Inv(s) && Enabled(s, LastUnlock)
    ensures var r := Next(s, LastUnlock);
            r.pending == [] && !r.locked && r.deflators == s.deflators && r.fragments == s.fragments
  {
    hide OnDisk, Tile, Within, Kept;
    PendingDistinct(s);
    var added := DrainLeaves(s);
    hide Row, Entered;
  }

  /** They can always go on to where there is nothing left to do. */
  lemma {:induction false} WaitGoesOn(s: State) returns (steps: seq<Step>, s': State)
    ensures Run(s, steps, s') && AllWork(steps) && Still(s')
    decreases Left(s)
  {
    if Still(s) {
      steps, s' := [], s;
    } else {
      var step :| Work(step) && Enabled(s, step);
      WorkEnds(s, step);
      var more;
      more, s' := WaitGoesOn(Next(s, step));
      steps := [step] + more;
      hide Next, Enabled;
      assert steps[1..] == more;
    }
  }

  /** One fragment, one deflator, and nothing in the file; where the fragment is. */
  function OneFragment(toFrag: seq<nat>, d: Deflator, pending: seq<nat>, main: Main, files: seq<seq<Extent>>): State {
    State(96, 96, main.Writing?, main, [[7]], toFrag, [d], pending, map[], 1, [], [], files, [])
  }

  const LOCKED: Main := Writing(96, [], 0, NoClaim)

  lemma FirstSteps(s: State)
    requires Run(OneFragment([], Compressed(0), [], Outside, []),
                 [Lock, Place(0), Unlock(true), LastUnlock, AddPending(0)], s)
    ensures Run(FragmentProtocol.Start(96, 1, []),
                [QueueFragment([7]), Compress(0), Lock, Place(0), Unlock(true), LastUnlock, AddPending(0)], s)
  {
    var s0, s1 := FragmentProtocol.Start(96, 1, []), OneFragment([0], Idle, [], Outside, []);
    assert s0.deflators == [Idle];
    assert Next(s0, QueueFragment([7])) == s1;
    assert Next(s1, Compress(0)) == OneFragment([], Compressed(0), [], Outside, []);
    hide Next;
    RunOne(s1, Compress(0), [Lock, Place(0), Unlock(true), LastUnlock, AddPending(0)], s);
    RunOne(s0, QueueFragment([7]), [Compress(0), Lock, Place(0), Unlock(true), LastUnlock, AddPending(0)], s);
  }

  lemma MiddleSteps(s: State)
    requires Run(OneFragment([], Refused(0), [], LOCKED, []), [Unlock(true), LastUnlock, AddPending(0)], s)
    ensures Run(OneFragment([], Compressed(0), [], Outside, []),
                [Lock, Place(0), Unlock(true), LastUnlock, AddPending(0)], s)
  {
    var s2, s3 := OneFragment([], Compressed(0), [], Outside, []), OneFragment([], Compressed(0), [], LOCKED, []);
    assert Next(s2, Lock) == s3;
    assert Next(s3, Place(0)) == OneFragment([], Refused(0), [], LOCKED, []);
    hide Next;
    RunOne(s3, Place(0), [Unlock(true), LastUnlock, AddPending(0)], s);
    RunOne(s2, Lock, [Place(0), Unlock(true), LastUnlock, AddPending(0)], s);
  }

  lemma LastSteps()
    ensures Run(OneFragment([], Refused(0), [], LOCKED, []), [Unlock(true), LastUnlock, AddPending(0)],
                OneFragment([], Idle, [0], Outside, [[]]))
  {
    var s4, s5 := OneFragment([], Refused(0), [], LOCKED, []), OneFragment([], Refused(0), [], Outside, [[]]);
    var s := OneFragment([], Idle, [0], Outside, [[]]);
    assert Next(s4, Unlock(true)) == s5;
    assert Next(s5, LastUnlock) == s5;
    assert Next(s5, AddPending(0)) == s;
    hide Next;
    RunOne(s5, AddPending(0), [], s);
    RunOne(s5, LastUnlock, [AddPending(0)], s);
    RunOne(s4, Unlock(true), [LastUnlock, AddPending(0)], s);
  }

  /** A run after which the main thread waits for ever: the deflator finds the list locked, the list is unlocked
      twice, at the end of the file and at the end of the run, and only then the fragment is put on it. */
  lemma WaitForever() returns (steps: seq<Step>, s: State)
    ensures Run(FragmentProtocol.Start(96, 1, []), steps, s) && s.main.Outside? && Still(s)
    ensures LastUnlock in steps && s.outstanding == 1 && s.pending == [0] && 0 !in s.table
  {
    hide Run;
    s := OneFragment([], Idle, [0], Outside, [[]]);
    steps := [QueueFragment([7]), Compress(0), Lock, Place(0), Unlock(true), LastUnlock, AddPending(0)];
    LastSteps();
    MiddleSteps(s);
    FirstSteps(s);
    assert steps[5] == LastUnlock;
  }

  lemma RunOne(s: State, step: Step, steps: seq<Step>, s': State)
    requires Enabled(s, step) && Run(Next(s, step), steps, s')
    ensures Run(s, [step] + steps, s')
  {
    assert ([step] + steps)[1..] == steps;
  }

  // ---------------------------------------------------------------------- what a run has stored

  /** The data of the fragments that the steps make, in order. */
  function Made(steps: seq<Step>): seq<seq<Byte>> {
    if steps == [] then []
    else
      var before, last := Made(steps[..|steps| - 1]), steps[|steps| - 1];
      if last.QueueFragment? then before + [last.stored] else before
  }

  /** The data of the blocks of the file that the main thread is writing, and of the files that it has kept. */
  datatype Written = Written(current: seq<seq<Byte>>, files: seq<seq<seq<Byte>>>)

  function Writes(steps: seq<Step>): Written {
    if steps == [] then Written([], [])
    else
      var k, last := Writes(steps[..|steps| - 1]), steps[|steps| - 1];
      match last
      case Lock => k.(current := [])
      case AppendBlock(data, _) => k.(current := k.current + [data])
      case RollBack(_) => k.(current := [])
      case Unlock(keep) => Written([], if keep then k.files + [k.current] else k.files)
      case _ => k
  }

  function DataOf(blocks: seq<Extent>): (d: seq<seq<Byte>>)
    ensures |d| == |blocks|
  {
    seq(|blocks|, i requires 0 <= i < |blocks| => blocks[i].data)
  }

  ghost predicate AsWritten(s: State, made: seq<seq<Byte>>, k: Written) {
    && s.fragments == made && (s.main.Writing? ==> DataOf(s.main.blocks) == k.current)
    && |s.files| == |k.files| && forall n :: 0 <= n < |s.files| ==> DataOf(s.files[n]) == k.files[n]
  }

  lemma DrainSame(s: State)
    requires PendingOk(s) && Distinct(s.pending)
    ensures Drain(s).fragments == s.fragments && Drain(s).main == s.main && Drain(s).files == s.files
  {
    var added := DrainLeaves(s);
  }

  lemma WritesNext(s: State, step: Step, steps: seq<Step>)
    requires Accounted(s) && Enabled(s, step) && AsWritten(s, Made(steps), Writes(steps))
    ensures AsWritten(Next(s, step), Made(steps + [step]), Writes(steps + [step]))
  {
    assert (steps + [step])[..|steps|] == steps;
    PendingDistinct(s);
    hide Drain, Accounted;
    match step
    case Unlock(keep) => DrainSame(Release(s, keep));
    case LastUnlock => DrainSame(s);
    case _ =>
  }

  lemma {:induction false} RunWrites(s: State, before: seq<Step>, steps: seq<Step>, s': State)
    requires Inv(s) && Run(s, steps, s') && AsWritten(s, Made(before), Writes(before))
    ensures AsWritten(s', Made(before + steps), Writes(before + steps))
    decreases |steps|
  {
    hide Sound, Accounted, AsWritten, Next, Enabled;
    if steps == [] {
      assert before + steps == before;
    } else {
      WritesNext(s, steps[0], before);
      NextKeeps(s, steps[0]);
      RunWrites(Next(s, steps[0]), before + [steps[0]], steps[1..], s');
      assert before + [steps[0]] + steps[1..] == before + steps;
    }
  }

  /** In every run the fragments are those that were made, and each file kept has, in order, the data of the blocks
      appended since the lock, or since the last roll-back. */
  lemma EveryRunWrites(base: nat, deflators: nat, disk: seq<Byte>, steps: seq<Step>, s: State)
    requires Run(FragmentProtocol.Start(base, deflators, disk), steps, s)
    ensures AsWritten(s, Made(steps), Writes(steps))
  {
    hide Run, Inv;
    StartInv(base, deflators, disk);
    RunWrites(FragmentProtocol.Start(base, deflators, disk), [], steps, s);
    assert [] + steps == steps;
  }

  /** The main thread can go on with a file: each of its steps makes the next one possible. */
  lemma MainGoesOn(s: State)
    ensures Enabled(s, Lock) ==> Next(s, Lock).locked && Enabled(Next(s, Lock), ClaimBlock)
    ensures Enabled(s, ClaimBlock) ==> forall data :: Enabled(Next(s, ClaimBlock), AppendBlock(data, true))
    ensures Enabled(s, SendHeld) ==>
              var s' := Next(s, SendHeld);
              && s'.main.Writing? && s'.main.sent == |s'.main.blocks| && s'.main.blocks == s.main.blocks
              && s'.toWriter == s.toWriter + s.main.blocks[s.main.sent..]
    ensures forall truncate :: Enabled(s, RollBack(truncate)) ==>
              var s' := Next(s, RollBack(truncate));
              s'.main == Writing(s.main.start, [], 0, NoClaim) && s'.bytes == s.main.start
  {
  }
}
