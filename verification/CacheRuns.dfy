/** What a run of the block cache has done with its entries: which have an error, which entry is given up for a
    new block, and that the threads make every entry ready. */
module CacheRuns {
  import opened Basics
  import opened BitStrings
  import opened Squashfs
  import opened BlockCache

  // ---------------------------------------------------------------------------------- the states

  predicate StepAt(c: Codec, image: seq<Byte>, states: seq<Cache>, steps: seq<Step>, i: nat)
    requires i < |steps| && i + 1 < |states|
  {
    Enabled(states[i], steps[i]) && states[i + 1] == Next(c, image, states[i], steps[i])
  }

  /** The states that the steps go through, from an empty cache on. */
  predicate Trace(c: Codec, image: seq<Byte>, max: nat, states: seq<Cache>, steps: seq<Step>) {
    && |states| == |steps| + 1 && states[0] == Init(max)
    && forall i :: 0 <= i < |steps| ==> StepAt(c, image, states, steps, i)
  }

  /** Every run goes through such states. */
  lemma {:induction false} RunStates(c: Codec, image: seq<Byte>, s: Cache, steps: seq<Step>, s': Cache)
    returns (states: seq<Cache>)
    requires Run(c, image, s, steps, s')
    ensures |states| == |steps| + 1 && states[0] == s && states[|steps|] == s'
    ensures forall i :: 0 <= i < |steps| ==> StepAt(c, image, states, steps, i)
    decreases |steps|
  {
    hide Next, Enabled;
    if steps == [] {
      states := [s];
    } else {
      var more := RunStates(c, image, Next(c, image, s, steps[0]), steps[1..], s');
      states := [s] + more;
      forall i | 0 <= i < |steps| ensures StepAt(c, image, states, steps, i) {
        if i > 0 {
          assert StepAt(c, image, more, steps[1..], i - 1);
          assert steps[1..][i - 1] == steps[i];
        }
      }
    }
  }

  lemma {:induction false} TraceInv(c: Codec, image: seq<Byte>, max: nat, states: seq<Cache>, steps: seq<Step>, n: nat)
    requires Trace(c, image, max, states, steps) && n <= |steps|
    ensures Inv(c, image, states[n])
  {
    hide Next, Enabled, EntryOk;
    if n > 0 {
      TraceInv(c, image, max, states, steps, n - 1);
      assert StepAt(c, image, states, steps, n - 1);
      hide Inv;
      NextKeeps(c, image, states[n - 1], steps[n - 1]);
    }
  }

  // ------------------------------------------------------------------------- which have an error

  /** Step `k` gives entry `e` a block: the entry is new, or its block is another one. */
  predicate Given(states: seq<Cache>, k: nat, e: nat)
    requires k + 1 < |states|
  {
    e < |states[k + 1].entries| && Renewed(states[k], states[k + 1], e)
  }

  predicate Renewed(s: Cache, s': Cache, e: nat)
    requires e < |s'.entries|
  {
    e >= |s.entries| || s'.entries[e].block != s.entries[e].block
  }

  /** Reading or decompressing the block of entry `e` fails. */
  predicate Fails(step: Step, e: nat) { step == Read(e, false) || step == Inflate(e, false) }

  /** It has failed since the entry was given its block. */
  predicate FailedSince(states: seq<Cache>, steps: seq<Step>, n: nat, e: nat)
    requires n <= |steps| && n < |states|
  {
    exists j :: 0 <= j < n && Fails(steps[j], e) && forall k :: j < k < n ==> !Given(states, k, e)
  }

  /** What an entry has come to, before it is ready and after. */
  predicate Erred(x: Entry) { if x.stage.Filled? then x.stage.error else x.stage.AtRest? && x.error }

  lemma StepErrs(c: Codec, image: seq<Byte>, s: Cache, step: Step, e: nat)
    requires Inv(c, image, s) && Enabled(s, step) && e < |Next(c, image, s, step).entries|
    ensures var s' := Next(c, image, s, step);
            if Renewed(s, s', e) then step.Get? && !Erred(s'.entries[e])
            else Erred(s'.entries[e]) == (Erred(s.entries[e]) || Fails(step, e))
  {
    hide Direct, Stored, IsRaw, FreeOk, Counted, EntriesOk;
    if step.Get? {
      hide Hashed, OnePerBlock, Search;
      var d := Search(s, Chain(s, step.block % HASHES), step.block);
      if d >= |s.entries| {
        AbsentEverywhere(s, step.block);
      }
    } else {
      hide Hashed, OnePerBlock, Search, Chain;
    }
  }

  lemma {:induction false} ErrorAt(c: Codec, image: seq<Byte>, max: nat, states: seq<Cache>, steps: seq<Step>,
                                   n: nat, e: nat)
    requires Trace(c, image, max, states, steps) && n <= |steps| && e < |states[n].entries|
    ensures Erred(states[n].entries[e]) <==> FailedSince(states, steps, n, e)
  {
    hide Next, Enabled, Inv, Fails, Erred;
    if n > 0 {
      var m := n - 1;
      TraceInv(c, image, max, states, steps, m);
      assert StepAt(c, image, states, steps, m);
      StepErrs(c, image, states[m], steps[m], e);
      if Renewed(states[m], states[n], e) {
        assert Given(states, m, e);
        NoFailure(steps[m], e);
      } else {
        ErrorAt(c, image, max, states, steps, m, e);
        FailedNext(states, steps, m, e);
      }
    }
  }

  lemma NoFailure(step: Step, e: nat)
    requires step.Get?
    ensures !Fails(step, e)
  {
  }

  lemma FailedNext(states: seq<Cache>, steps: seq<Step>, m: nat, e: nat)
    requires m < |steps| && m + 1 < |states| && !Given(states, m, e)
    ensures FailedSince(states, steps, m + 1, e) <==> FailedSince(states, steps, m, e) || Fails(steps[m], e)
  {
    hide Given, Fails;
    if FailedSince(states, steps, m, e) {
      var j :| 0 <= j < m && Fails(steps[j], e) && forall k :: j < k < m ==> !Given(states, k, e);
      assert FailedSince(states, steps, m + 1, e);
    }
  }

  /** An entry that is ready has an error exactly when the reading or the decompressing of its block has failed;
      otherwise it has what the block holds. */
  lemma ReadyIs(c: Codec, image: seq<Byte>, max: nat, states: seq<Cache>, steps: seq<Step>, e: nat)
    requires Trace(c, image, max, states, steps) && e < |states[|steps|].entries|
    requires !states[|steps|].entries[e].pending
    ensures var x := states[|steps|].entries[e];
            && (x.error <==> FailedSince(states, steps, |steps|, e))
            && (!x.error ==> x.data == Direct(c, image, x.block, x.size))
  {
    hide Next, Enabled, Direct, Stored, IsRaw, FailedSince, FreeOk, Counted, Hashed, OnePerBlock;
    TraceInv(c, image, max, states, steps, |steps|);
    ErrorAt(c, image, max, states, steps, |steps|, e);
    assert EntryOk(c, image, states[|steps|].entries[e]);
  }

  /** No step of the run fails. */
  predicate NoneFails(steps: seq<Step>) {
    forall i :: 0 <= i < |steps| ==> (steps[i].Read? ==> steps[i].ok) && (steps[i].Inflate? ==> steps[i].ok)
  }

  /** In a run in which nothing fails every entry that is ready has what its block holds. */
  lemma GoodRun(c: Codec, image: seq<Byte>, max: nat, steps: seq<Step>, s: Cache, e: nat)
    requires Run(c, image, Init(max), steps, s) && NoneFails(steps) && e < |s.entries| && !s.entries[e].pending
    ensures !s.entries[e].error && s.entries[e].data == Direct(c, image, s.entries[e].block, s.entries[e].size)
  {
    hide Next, Enabled, Direct, Init, Run, Given;
    var states := RunStates(c, image, Init(max), steps, s);
    ReadyIs(c, image, max, states, steps, e);
  }

  // ------------------------------------------------------------------------ what Get and Put do

  /** The caller gets the one entry of the block: the one that had it, as it was, or else a new or unused one, which
      is to be read.  No other entry changes. */
  lemma GetLeaves(c: Codec, image: seq<Byte>, s: Cache, block: nat, size: nat) returns (e: nat)
    requires Inv(c, image, s) && Enabled(s, Get(block, size))
    ensures var s' := Next(c, image, s, Get(block, size));
            && e < |s'.entries| && s'.refs == s.refs + multiset{e} && s'.entries[e].block == block
            && (forall d: nat :: d < |s.entries| && d != e ==> s'.entries[d] == s.entries[d])
            && if exists d :: 0 <= d < |s.entries| && s.entries[d].block == block
               then e < |s.entries| && s'.entries[e] == s.entries[e].(used := s.entries[e].used + 1)
               else s'.entries[e].size == size && s'.entries[e].pending && s'.entries[e].stage.ToReader?
                    && !s'.entries[e].error
                    && if |s.entries| < s.max then e == |s.entries| else e < |s.entries| && s.refs[e] == 0
  {
    hide Direct, Stored, IsRaw, EntriesOk;
    e := Search(s, Chain(s, block % HASHES), block);
    if e >= |s.entries| {
      AbsentEverywhere(s, block);
      e := if |s.entries| < s.max then |s.entries| else s.free[0];
    }
  }

  /** The caller lets go of an entry, which is unchanged but for the count. */
  lemma PutLeaves(c: Codec, image: seq<Byte>, s: Cache, e: nat)
    requires Inv(c, image, s) && Enabled(s, Put(e))
    ensures var s' := Next(c, image, s, Put(e));
            && s'.refs == s.refs - multiset{e} && |s'.entries| == |s.entries|
            && s'.entries[e] == s.entries[e].(used := s.refs[e] - 1)
            && (forall d: nat :: d < |s.entries| && d != e ==> s'.entries[d] == s.entries[d])
            && (e in s'.free <==> s.refs[e] == 1)
  {
    hide Direct, Stored, IsRaw, EntriesOk, Hashed, OnePerBlock;
  }

  // --------------------------------------------------------------------- which entry is given up

  /** Entry `d` has been put back after the last time that `e` was. */
  predicate PutLater(steps: seq<Step>, n: nat, e: nat, d: nat)
    requires n <= |steps|
  {
    exists k :: 0 <= k < n && steps[k] == Put(d) && forall m :: k < m < n ==> steps[m] != Put(e)
  }

  predicate InOrder(steps: seq<Step>, n: nat, free: seq<nat>)
    requires n <= |steps|
  {
    free != [] ==> (forall d :: d in free[1..] ==> PutLater(steps, n, free[0], d)) && InOrder(steps, n, free[1..])
  }

  lemma PutLaterNext(steps: seq<Step>, n: nat, e: nat, d: nat)
    requires n < |steps| && steps[n] != Put(e) && PutLater(steps, n, e, d)
    ensures PutLater(steps, n + 1, e, d)
  {
    var k :| 0 <= k < n && steps[k] == Put(d) && forall m :: k < m < n ==> steps[m] != Put(e);
    assert steps[k] == Put(d);
  }

  lemma {:induction false} InOrderNext(steps: seq<Step>, n: nat, free: seq<nat>)
    requires n < |steps| && InOrder(steps, n, free) && forall e :: e in free ==> steps[n] != Put(e)
    ensures InOrder(steps, n + 1, free)
    decreases |free|
  {
    if free != [] {
      hide PutLater;
      forall d | d in free[1..] ensures PutLater(steps, n + 1, free[0], d) {
        PutLaterNext(steps, n, free[0], d);
      }
      InOrderNext(steps, n, free[1..]);
    }
  }

  lemma {:induction false} InOrderWithout(steps: seq<Step>, n: nat, free: seq<nat>, e: nat)
    requires n <= |steps| && InOrder(steps, n, free)
    ensures InOrder(steps, n, Without(free, e))
    decreases |free|
  {
    if free != [] {
      hide PutLater;
      InOrderWithout(steps, n, free[1..], e);
      var rest := Without(free[1..], e);
      assert ([free[0]] + rest)[1..] == rest;
    }
  }

  lemma {:induction false} InOrderPut(steps: seq<Step>, n: nat, free: seq<nat>, e: nat)
    requires n < |steps| && InOrder(steps, n + 1, free) && steps[n] == Put(e)
    ensures InOrder(steps, n + 1, free + [e])
    decreases |free|
  {
    if free == [] {
      assert [] + [e] == [e] && [e][1..] == [];
    } else {
      assert PutLater(steps, n + 1, free[0], e);
      hide PutLater;
      InOrderPut(steps, n, free[1..], e);
      assert (free + [e])[1..] == free[1..] + [e];
    }
  }

  lemma {:induction false} FreeInOrder(c: Codec, image: seq<Byte>, max: nat, states: seq<Cache>, steps: seq<Step>,
                                       n: nat)
    requires Trace(c, image, max, states, steps) && n <= |steps|
    ensures InOrder(steps, n, states[n].free)
  {
    hide Direct, Stored, IsRaw, PutLater, InOrder;
    if n == 0 {
      NoneInOrder(steps, n);
    } else {
      var m := n - 1;
      TraceInv(c, image, max, states, steps, m);
      FreeInOrder(c, image, max, states, steps, m);
      assert StepAt(c, image, states, steps, m);
      StepInOrder(c, image, states[m], steps, m);
    }
  }

  lemma NoneInOrder(steps: seq<Step>, n: nat)
    requires n <= |steps|
    ensures InOrder(steps, n, [])
  {
  }

  lemma StepInOrder(c: Codec, image: seq<Byte>, s: Cache, steps: seq<Step>, n: nat)
    requires Inv(c, image, s) && n < |steps| && Enabled(s, steps[n]) && InOrder(steps, n, s.free)
    ensures InOrder(steps, n + 1, Next(c, image, s, steps[n]).free)
  {
    hide Direct, Stored, IsRaw, PutLater, InOrder, EntriesOk, Hashed, OnePerBlock, Without;
    InOrderNext(steps, n, s.free);
    match steps[n]
    case Put(e) => InOrderPut(steps, n, s.free, e);
    case Get(block, size) =>
      var e := Search(s, Chain(s, block % HASHES), block);
      if e < |s.entries| {
        InOrderWithout(steps, n + 1, s.free, e);
      } else if |s.entries| >= s.max {
        InOrderRest(steps, n + 1, s.free);
      }
    case _ =>
  }

  lemma InOrderRest(steps: seq<Step>, n: nat, free: seq<nat>)
    requires n <= |steps| && InOrder(steps, n, free) && free != []
    ensures InOrder(steps, n, free[1..])
  {
  }

  /** An entry loses its block only when nobody has it, and of all that nobody has it is the one put back first. */
  lemma GivenUp(c: Codec, image: seq<Byte>, max: nat, states: seq<Cache>, steps: seq<Step>, n: nat, e: nat, d: nat)
    requires Trace(c, image, max, states, steps) && n < |steps| && e < |states[n].entries| && Given(states, n, e)
    requires d < |states[n].entries| && d != e && states[n].refs[d] == 0
    ensures states[n].refs[e] == 0 && PutLater(steps, n, e, d)
  {
    hide PutLater, Next, Enabled, Inv, InOrder;
    TraceInv(c, image, max, states, steps, n);
    FreeInOrder(c, image, max, states, steps, n);
    assert StepAt(c, image, states, steps, n);
    FreeFirst(c, image, states[n], steps[n], e);
    FirstPut(c, image, states[n], steps, n, d);
  }

  lemma FirstPut(c: Codec, image: seq<Byte>, s: Cache, steps: seq<Step>, n: nat, d: nat)
    requires Inv(c, image, s) && n <= |steps| && InOrder(steps, n, s.free) && s.free != []
    requires d < |s.entries| && d != s.free[0] && s.refs[d] == 0
    ensures s.refs[s.free[0]] == 0 && PutLater(steps, n, s.free[0], d)
  {
    hide PutLater, Hashed, OnePerBlock, EntriesOk;
    FirstOff(s.free);
    assert d in s.free && s.free[0] in s.free;
  }

  lemma FreeFirst(c: Codec, image: seq<Byte>, s: Cache, step: Step, e: nat)
    requires Inv(c, image, s) && Enabled(s, step) && e < |s.entries| && e < |Next(c, image, s, step).entries|
    requires Next(c, image, s, step).entries[e].block != s.entries[e].block
    ensures s.free != [] && e == s.free[0]
  {
    hide Direct, Stored, IsRaw, EntriesOk, Hashed, OnePerBlock, Chain, Without;
  }

  // -------------------------------------------------------------------------- every entry is ready

  function WeightOf(x: Stage): nat {
    match x
    case ToReader => 3
    case ToDeflate => 2
    case Filled(_) => 1
    case AtRest => 0
  }

  /** A bound for what reader and deflators have still to do. */
  function Left(entries: seq<Entry>): nat {
    if entries == [] then 0 else Left(entries[..|entries| - 1]) + WeightOf(entries[|entries| - 1].stage)
  }

  /** The steps of the threads. */
  predicate Work(step: Step) { step.Read? || step.Inflate? || step.Ready? }

  lemma {:induction false} LeftUpdate(entries: seq<Entry>, e: nat, x: Entry)
    requires e < |entries|
    ensures Left(entries[e := x]) == Left(entries) - WeightOf(entries[e].stage) + WeightOf(x.stage)
    decreases |entries|
  {
    var n := |entries| - 1;
    if e < n {
      LeftUpdate(entries[..n], e, x);
      assert entries[e := x][..n] == entries[..n][e := x];
    } else {
      assert entries[e := x][..n] == entries[..n];
    }
  }

  /** Each of their steps leaves less to do, and takes nothing from anybody. */
  lemma WorkEnds(c: Codec, image: seq<Byte>, s: Cache, step: Step)
    requires Enabled(s, step) && Work(step)
    ensures Left(Next(c, image, s, step).entries) < Left(s.entries)
    ensures Next(c, image, s, step).refs == s.refs && |Next(c, image, s, step).entries| == |s.entries|
  {
    hide Left, Stored, IsRaw;
    LeftUpdate(s.entries, step.e, Next(c, image, s, step).entries[step.e]);
  }

  ghost predicate Still(s: Cache) { forall step :: Work(step) ==> !Enabled(s, step) }

  /** When the threads have nothing to do, every entry is ready. */
  lemma StillReady(c: Codec, image: seq<Byte>, s: Cache, e: nat)
    requires Inv(c, image, s) && Still(s) && e < |s.entries|
    ensures !s.entries[e].pending
  {
    assert EntryOk(c, image, s.entries[e]);
    assert !Enabled(s, Read(e, true)) && !Enabled(s, Inflate(e, true)) && !Enabled(s, Ready(e));
  }

  ghost predicate AllWork(steps: seq<Step>) { forall i :: 0 <= i < |steps| ==> Work(steps[i]) }

  /** However they go on, they come to an end. */
  lemma {:induction false} WorkBounded(c: Codec, image: seq<Byte>, s: Cache, steps: seq<Step>, s': Cache)
    requires Run(c, image, s, steps, s') && AllWork(steps)
    ensures Left(s'.entries) + |steps| <= Left(s.entries) && s'.refs == s.refs && |s'.entries| == |s.entries|
    decreases |steps|
  {
    hide Next, Enabled, Left;
    if steps != [] {
      WorkEnds(c, image, s, steps[0]);
      WorkBounded(c, image, Next(c, image, s, steps[0]), steps[1..], s');
    }
  }

  /** A caller that waits for a block (lines 385-400) need only wait until they are done. */
  lemma {:induction false} WaitGoesOn(c: Codec, image: seq<Byte>, s: Cache) returns (steps: seq<Step>, s': Cache)
    requires Inv(c, image, s)
    ensures Run(c, image, s, steps, s') && AllWork(steps) && Still(s') && Held(s, s')
    ensures forall e :: 0 <= e < |s'.entries| ==> !s'.entries[e].pending
    decreases Left(s.entries)
  {
    hide Left, Inv;
    if Still(s) {
      steps, s' := [], s;
      forall e | 0 <= e < |s.entries| ensures !s.entries[e].pending {
        StillReady(c, image, s, e);
      }
    } else {
      var step :| Work(step) && Enabled(s, step);
      WorkEnds(c, image, s, step);
      NextKeeps(c, image, s, step);
      var more;
      more, s' := WaitGoesOn(c, image, Next(c, image, s, step));
      steps := [step] + more;
      hide Next, Enabled, Still;
      assert steps[1..] == more;
    }
  }
}
