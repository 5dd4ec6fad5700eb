/** The cache of unsquashfs: entries with reference counts on hash chains and a free list, filled by a
    reader thread and decompressing threads; what every run of them keeps. */
module BlockCache {
  import opened Basics
  import opened BitStrings
  import opened Squashfs
  import opened FileStore

  /** struct cache_entry; `stage` is where a pending entry is on its way. */
  datatype Entry = Entry(block: nat, size: nat, used: nat, error: bool, pending: bool, data: seq<Byte>, stage: Stage)

  datatype Stage = ToReader | ToDeflate | Filled(error: bool) | AtRest

  /** struct cache with its entries, which are numbered as they are allocated; the chains and the list are
      those of their numbers, first to last.  `refs` are the references that callers hold. */
  datatype Cache = Cache(max: nat, entries: seq<Entry>, chains: map<nat, seq<nat>>, free: seq<nat>, refs: multiset<nat>)

  datatype Step =
    | Get(block: nat, size: nat)
    | Read(e: nat, ok: bool)
    | Inflate(e: nat, ok: bool)
    | Ready(e: nat)
    | Put(e: nat)

  function Init(max: nat): Cache { Cache(max, [], map[], [], multiset{}) }

  const HASHES := 0x1_0000

  function Chain(s: Cache, h: nat): seq<nat> { if h in s.chains then s.chains[h] else [] }

  function Without(l: seq<nat>, e: nat): (r: seq<nat>)
    ensures forall x :: x in r <==> x in l && x != e
  {
    if l == [] then [] else if l[0] == e then Without(l[1..], e) else [l[0]] + Without(l[1..], e)
  }

  lemma {:induction false} WithoutDistinct(l: seq<nat>, e: nat)
    requires Distinct(l)
    ensures Distinct(Without(l, e))
  {
    if l != [] {
      WithoutDistinct(l[1..], e);
      assert l[0] !in l[1..];
    }
  }

  /** The first entry of a chain that has the block; the number of entries when there is none. */
  function Search(s: Cache, chain: seq<nat>, block: nat): (e: nat)
    requires forall i :: 0 <= i < |chain| ==> chain[i] < |s.entries|
    ensures e < |s.entries| ==> e in chain && s.entries[e].block == block
    ensures e >= |s.entries| ==> forall x :: x in chain ==> s.entries[x].block != block
  {
    if chain == [] then |s.entries|
    else if s.entries[chain[0]].block == block then chain[0]
    else Search(s, chain[1..], block)
  }

  // ------------------------------------------------------------------------------- the steps

  /** An entry that has just been given a block (lines 341-345). */
  function Fresh(block: nat, size: nat): Entry { Entry(block, size, 1, false, true, [], ToReader) }

  /** cache_get, when the block is there (lines 300-307). */
  function Hit(s: Cache, e: nat): Cache
    requires e < |s.entries|
  {
    s.(entries := s.entries[e := s.entries[e].(used := s.entries[e].used + 1)], free := Without(s.free, e),
       refs := s.refs + multiset{e})
  }

  /** A new entry (lines 314-323, 346). */
  function Grow(s: Cache, block: nat, size: nat): Cache {
    var e := |s.entries|;
    s.(entries := s.entries + [Fresh(block, size)],
       chains := s.chains[block % HASHES := [e] + Chain(s, block % HASHES)], refs := s.refs + multiset{e})
  }

  /** The entry longest on the free list gets a new block (lines 333-346). */
  function Recycle(s: Cache, block: nat, size: nat): Cache
    requires s.free != [] && s.free[0] < |s.entries|
  {
    var e := s.free[0];
    var h := s.entries[e].block % HASHES;
    var chains := s.chains[h := Without(Chain(s, h), e)];
    var chain := if block % HASHES in chains then chains[block % HASHES] else [];
    s.(entries := s.entries[e := Fresh(block, size)], free := s.free[1..],
       chains := chains[block % HASHES := [e] + chain], refs := s.refs + multiset{e})
  }

  predicate ChainsOk(s: Cache) {
    forall h, i :: h in s.chains && 0 <= i < |s.chains[h]| ==> s.chains[h][i] < |s.entries|
  }

  predicate Enabled(s: Cache, step: Step) {
    match step
    case Get(block, size) =>
      ChainsOk(s) &&
      (Search(s, Chain(s, block % HASHES), block) < |s.entries| || |s.entries| < s.max
       || (s.free != [] && s.free[0] < |s.entries|))
    case Read(e, _) => e < |s.entries| && s.entries[e].stage.ToReader?
    case Inflate(e, _) => e < |s.entries| && s.entries[e].stage.ToDeflate?
    case Ready(e) => e < |s.entries| && s.entries[e].stage.Filled?
    // a caller puts back what it has got, and has waited for (lines 1677-1695)
    case Put(e) => e < |s.entries| && s.refs[e] > 0 && !s.entries[e].pending && s.entries[e].used > 0
  }

  /** The bytes that the image has for a block; SQUASHFS_COMPRESSED_SIZE_BLOCK and the flag. */
  function Stored(image: seq<Byte>, block: nat, size: nat): seq<Byte> {
    if block + SizeBlock(size) <= |image| then image[block..block + SizeBlock(size)] else []
  }

  function IsRaw(size: nat): bool { size / COMPRESSED_BIT_BLOCK % 2 == 1 }

  /** Reading and decompressing the block without the cache (unsquashfs.c:629-663). */
  function Direct(c: Codec, image: seq<Byte>, block: nat, size: nat): seq<Byte> {
    Unmangle(c, Packed(IsRaw(size), Stored(image, block, size)))
  }

  function Next(c: Codec, image: seq<Byte>, s: Cache, step: Step): Cache
    requires Enabled(s, step)
  {
    match step
    case Get(block, size) =>
      var e := Search(s, Chain(s, block % HASHES), block);
      if e < |s.entries| then Hit(s, e)
      else if |s.entries| < s.max then Grow(s, block, size)
      else Recycle(s, block, size)
    case Read(e, ok) =>
      // reader (lines 1618-1641)
      var x := s.entries[e];
      s.(entries := s.entries[e := x.(data := if ok then Stored(image, x.block, x.size) else x.data,
                                      stage := if ok && !IsRaw(x.size) then ToDeflate else Filled(!ok))])
    case Inflate(e, ok) =>
      // deflator (lines 1743-1768)
      var x := s.entries[e];
      s.(entries := s.entries[e := x.(data := if ok then c.expand(x.data) else x.data, stage := Filled(!ok))])
    case Ready(e) =>
      // cache_block_ready (lines 360-382)
      var x := s.entries[e];
      s.(entries := s.entries[e := x.(pending := false, error := x.stage.error, stage := AtRest)])
    case Put(e) =>
      // cache_block_put (lines 403-425)
      var x := s.entries[e];
      s.(entries := s.entries[e := x.(used := x.used - 1)], refs := s.refs - multiset{e},
         free := if x.used == 1 then s.free + [e] else s.free)
  }

  // ---------------------------------------------------------------------------- the invariant

  /** Every entry is on the chain of its block, once, and on no other. */
  predicate Hashed(s: Cache) {
    && (forall h :: h in s.chains ==>
          && Distinct(s.chains[h])
          && forall e :: e in s.chains[h] ==> e < |s.entries| && s.entries[e].block % HASHES == h)
    && forall e: nat :: e < |s.entries| ==> e in Chain(s, s.entries[e].block % HASHES)
  }

  predicate OnePerBlock(s: Cache) {
    forall d, e :: 0 <= d < e < |s.entries| ==> s.entries[d].block != s.entries[e].block
  }

  predicate FreeOk(s: Cache) {
    && Distinct(s.free)
    && (forall e :: e in s.free ==> e < |s.entries|)
    && forall e: nat :: e < |s.entries| ==> (e in s.free <==> s.entries[e].used == 0)
  }

  predicate Counted(s: Cache) {
    && |s.entries| <= s.max && (forall e :: e in s.refs ==> e < |s.entries|)
    && forall e: nat :: e < |s.entries| ==> s.entries[e].used == s.refs[e]
  }

  /** What an entry has at each stage. */
  predicate EntryOk(c: Codec, image: seq<Byte>, x: Entry) {
    && (x.pending <==> !x.stage.AtRest?) && (x.used == 0 ==> !x.pending)
    && (x.stage.ToDeflate? ==> !IsRaw(x.size) && x.data == Stored(image, x.block, x.size))
    && (x.stage.Filled? && !x.stage.error ==> x.data == Direct(c, image, x.block, x.size))
    && (!x.pending && !x.error ==> x.data == Direct(c, image, x.block, x.size))
  }

  predicate EntriesOk(c: Codec, image: seq<Byte>, s: Cache) {
    forall e :: 0 <= e < |s.entries| ==> EntryOk(c, image, s.entries[e])
  }

  predicate Inv(c: Codec, image: seq<Byte>, s: Cache) {
    Hashed(s) && OnePerBlock(s) && FreeOk(s) && Counted(s) && EntriesOk(c, image, s)
  }

  /** An entry that a caller holds keeps its block, and its data once it is ready. */
  predicate Held(s: Cache, s': Cache) {
    && |s.entries| <= |s'.entries|
    && forall e: nat :: e < |s.entries| && s.refs[e] > 0 ==>
         && s'.entries[e].block == s.entries[e].block && s'.entries[e].size == s.entries[e].size
         && (!s.entries[e].pending ==>
               !s'.entries[e].pending && s'.entries[e].data == s.entries[e].data
               && s'.entries[e].error == s.entries[e].error)
  }

  // ------------------------------------------------------------------------ what the steps keep

  lemma HitKeeps(c: Codec, image: seq<Byte>, s: Cache, e: nat)
    requires Inv(c, image, s) && e < |s.entries|
    ensures Inv(c, image, Hit(s, e)) && Held(s, Hit(s, e))
  {
    hide Direct, Stored, IsRaw, Without, Hashed, OnePerBlock;
    WithoutDistinct(s.free, e);
    SameChains(s, Hit(s, e));
  }

  /** Entries that keep their blocks stay on their chains. */
  lemma SameChains(s: Cache, s': Cache)
    requires Hashed(s) && OnePerBlock(s) && s'.chains == s.chains && |s'.entries| == |s.entries|
    requires forall e :: 0 <= e < |s.entries| ==> s'.entries[e].block == s.entries[e].block
    ensures Hashed(s') && OnePerBlock(s')
  {
  }

  ghost predicate Absent(s: Cache, block: nat) {
    forall e :: e in Chain(s, block % HASHES) ==> e < |s.entries| && s.entries[e].block != block
  }

  lemma AbsentEverywhere(s: Cache, block: nat)
    requires Hashed(s) && Absent(s, block)
    ensures forall e :: 0 <= e < |s.entries| ==> s.entries[e].block != block
  {
    forall e | 0 <= e < |s.entries| ensures s.entries[e].block != block {
      assert e in Chain(s, s.entries[e].block % HASHES);
    }
  }

  lemma GrowHashed(s: Cache, block: nat, size: nat)
    requires Hashed(s) && OnePerBlock(s) && Absent(s, block)
    ensures Hashed(Grow(s, block, size)) && OnePerBlock(Grow(s, block, size))
  {
    var s', h := Grow(s, block, size), block % HASHES;
    AbsentEverywhere(s, block);
    assert |s.entries| !in Chain(s, h);
    forall e: nat | e < |s'.entries| ensures e in Chain(s', s'.entries[e].block % HASHES) {
      if e < |s.entries| {
        assert e in Chain(s, s.entries[e].block % HASHES);
      }
    }
  }

  lemma GrowKeeps(c: Codec, image: seq<Byte>, s: Cache, block: nat, size: nat)
    requires Inv(c, image, s) && |s.entries| < s.max && Absent(s, block)
    ensures Inv(c, image, Grow(s, block, size)) && Held(s, Grow(s, block, size))
  {
    hide Hashed, OnePerBlock, Direct, Stored, IsRaw;
    GrowHashed(s, block, size);
  }

  lemma RecycleHashed(s: Cache, block: nat, size: nat)
    requires Hashed(s) && OnePerBlock(s) && Absent(s, block) && s.free != [] && s.free[0] < |s.entries|
    ensures Hashed(Recycle(s, block, size)) && OnePerBlock(Recycle(s, block, size))
  {
    var s', e := Recycle(s, block, size), s.free[0];
    var old', h := s.entries[e].block % HASHES, block % HASHES;
    AbsentEverywhere(s, block);
    assert e in Chain(s, old');
    WithoutDistinct(Chain(s, old'), e);
    forall d: nat | d < |s'.entries| ensures d in Chain(s', s'.entries[d].block % HASHES) {
      assert d in Chain(s, s.entries[d].block % HASHES);
    }
  }

  lemma FirstOff(l: seq<nat>)
    requires Distinct(l) && l != []
    ensures forall x :: x in l[1..] <==> x in l && x != l[0]
  {
    forall x | x in l && x != l[0] ensures x in l[1..] {
      var i :| 0 <= i < |l| && l[i] == x;
      assert l[1..][i - 1] == x;
    }
  }

  lemma RecycleKeeps(c: Codec, image: seq<Byte>, s: Cache, block: nat, size: nat)
    requires Inv(c, image, s) && s.free != [] && s.free[0] < |s.entries| && Absent(s, block)
    ensures Inv(c, image, Recycle(s, block, size)) && Held(s, Recycle(s, block, size))
  {
    hide Hashed, OnePerBlock, Direct, Stored, IsRaw, Without;
    RecycleHashed(s, block, size);
    var s', e := Recycle(s, block, size), s.free[0];
    FirstOff(s.free);
    assert s.refs[e] == 0;
  }

  /** A reader or a decompressing thread, or a caller, changes one entry. */
  lemma NextKeeps(c: Codec, image: seq<Byte>, s: Cache, step: Step)
    requires Inv(c, image, s) && Enabled(s, step)
    ensures Inv(c, image, Next(c, image, s, step)) && Held(s, Next(c, image, s, step))
  {
    hide Hashed, OnePerBlock, FreeOk, EntriesOk, Counted, Held;
    if step.Get? {
      GetKeeps(c, image, s, step.block, step.size);
    } else {
      SameChains(s, Next(c, image, s, step));
      StepEntries(c, image, s, step);
      StepCounts(c, image, s, step);
    }
  }

  lemma StepEntries(c: Codec, image: seq<Byte>, s: Cache, step: Step)
    requires EntriesOk(c, image, s) && Counted(s) && Enabled(s, step) && !step.Get?
    ensures EntriesOk(c, image, Next(c, image, s, step)) && Held(s, Next(c, image, s, step))
  {
    hide Stored, IsRaw, FreeOk, Search, Held;
    StepHeld(c, image, s, step);
  }

  lemma StepHeld(c: Codec, image: seq<Byte>, s: Cache, step: Step)
    requires EntriesOk(c, image, s) && Counted(s) && Enabled(s, step) && !step.Get?
    ensures Held(s, Next(c, image, s, step))
  {
    hide Stored, IsRaw, Direct, Search;
  }

  lemma StepCounts(c: Codec, image: seq<Byte>, s: Cache, step: Step)
    requires FreeOk(s) && Counted(s) && Enabled(s, step) && !step.Get?
    ensures FreeOk(Next(c, image, s, step)) && Counted(Next(c, image, s, step))
  {
    hide Stored, IsRaw, Search, Direct, Chain;
    var s' := Next(c, image, s, step);
    if step.Put? {
      PutCounts(s, s', step.e);
    } else {
      hide FreeOk, Counted;
      SameCounts(s, s');
    }
  }

  lemma SameCounts(s: Cache, s': Cache)
    requires FreeOk(s) && Counted(s) && |s'.entries| == |s.entries| && s'.max == s.max
    requires s'.free == s.free && s'.refs == s.refs
    requires forall e :: 0 <= e < |s.entries| ==> s'.entries[e].used == s.entries[e].used
    ensures FreeOk(s') && Counted(s')
  {
  }

  lemma PutCounts(s: Cache, s': Cache, e: nat)
    requires FreeOk(s) && Counted(s) && e < |s.entries| && s.entries[e].used > 0
    requires |s'.entries| == |s.entries| && s'.max == s.max && s'.refs == s.refs - multiset{e}
    requires s'.free == if s.entries[e].used == 1 then s.free + [e] else s.free
    requires s'.entries == s.entries[e := s.entries[e].(used := s.entries[e].used - 1)]
    ensures FreeOk(s') && Counted(s')
  {
    assert e !in s.free;
  }

  lemma GetKeeps(c: Codec, image: seq<Byte>, s: Cache, block: nat, size: nat)
    requires Inv(c, image, s) && Enabled(s, Get(block, size))
    ensures Inv(c, image, Next(c, image, s, Get(block, size))) && Held(s, Next(c, image, s, Get(block, size)))
  {
    hide Hit, Grow, Recycle, OnePerBlock, FreeOk, EntriesOk, Counted, Held, Hashed;
    var e := Search(s, Chain(s, block % HASHES), block);
    if e < |s.entries| {
      HitKeeps(c, image, s, e);
    } else {
      assert Absent(s, block);
      if |s.entries| < s.max {
        GrowKeeps(c, image, s, block, size);
      } else {
        RecycleKeeps(c, image, s, block, size);
      }
    }
  }

  // ------------------------------------------------------------------------------- every run

  ghost predicate Run(c: Codec, image: seq<Byte>, s: Cache, steps: seq<Step>, s': Cache)
    decreases |steps|
  {
    if steps == [] then s' == s
    else Enabled(s, steps[0]) && Run(c, image, Next(c, image, s, steps[0]), steps[1..], s')
  }

  lemma {:induction false} RunKeeps(c: Codec, image: seq<Byte>, s: Cache, steps: seq<Step>, s': Cache)
    requires Inv(c, image, s) && Run(c, image, s, steps, s')
    ensures Inv(c, image, s')
    decreases |steps|
  {
    hide Inv, Next, Enabled;
    if steps != [] {
      NextKeeps(c, image, s, steps[0]);
      RunKeeps(c, image, Next(c, image, s, steps[0]), steps[1..], s');
    }
  }

  /** Whatever the threads do and in whatever order: there is one entry to a block and at most `max` of
      them; an entry is on the free list exactly when nobody has it, and never while it is
      pending; and one that is ready without error holds what reading and decompressing its block
      directly gives. */
  lemma EveryRun(c: Codec, image: seq<Byte>, max: nat, steps: seq<Step>, s: Cache)
    requires Run(c, image, Init(max), steps, s)
    ensures OnePerBlock(s) && |s.entries| <= max
    ensures forall e: nat :: e < |s.entries| ==>
              && (e in s.free <==> s.refs[e] == 0)
              && (e in s.free ==> !s.entries[e].pending)
              && (!s.entries[e].pending && !s.entries[e].error ==>
                    s.entries[e].data == Direct(c, image, s.entries[e].block, s.entries[e].size))
  {
    hide Direct, Next, Enabled;
    RunKeeps(c, image, Init(max), steps, s);
    SameMax(c, image, Init(max), steps, s);
  }

  lemma {:induction false} SameMax(c: Codec, image: seq<Byte>, s: Cache, steps: seq<Step>, s': Cache)
    requires Run(c, image, s, steps, s')
    ensures s'.max == s.max
    decreases |steps|
  {
    if steps != [] {
      SameMax(c, image, Next(c, image, s, steps[0]), steps[1..], s');
    }
  }
}
