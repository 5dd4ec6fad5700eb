/** The cache of unsquashfs as it is in memory: hash chains that end in NULL and a circular free list, both
    doubly linked, which cache_get and cache_block_put change in place.  Each does the step of BlockCache. */
module CacheMemory {
  import opened Basics
  import opened BitStrings
  import opened Squashfs
  import opened BlockCache

  // -------------------------------------------------------------------------------- the links

  function First(xs: seq<nat>): Option<nat> { if xs == [] then None else Some(xs[0]) }

  /** What comes after place `i`, and what before it. */
  function After(xs: seq<nat>, i: int): Option<nat>
    requires -1 <= i < |xs|
  {
    if i + 1 < |xs| then Some(xs[i + 1]) else None
  }

  function Before(xs: seq<nat>, i: nat): Option<nat>
    requires i < |xs|
  {
    if i > 0 then Some(xs[i - 1]) else None
  }

  /** A list that ends in NULL. */
  predicate Chained(next: seq<Option<nat>>, prev: seq<Option<nat>>, head: Option<nat>, xs: seq<nat>) {
    && |next| == |prev| && head == First(xs)
    && forall i :: 0 <= i < |xs| ==> xs[i] < |next| && next[xs[i]] == After(xs, i) && prev[xs[i]] == Before(xs, i)
  }

  /** The place after `i` of `n` places in a circle, and the one before it. */
  function Up(i: nat, n: nat): nat { if i + 1 == n then 0 else i + 1 }

  function Down(i: nat, n: nat): nat { if i > 0 then i - 1 else if n > 0 then n - 1 else 0 }

  /** A list whose last member leads to its first; what is not on it has no links. */
  predicate Circular(next: seq<Option<nat>>, prev: seq<Option<nat>>, head: Option<nat>, xs: seq<nat>) {
    && |next| == |prev| && head == First(xs) && LeadsUp(next, xs) && LeadsDown(prev, xs)
    && Unlinked(next, xs) && Unlinked(prev, xs)
  }

  predicate Unlinked(next: seq<Option<nat>>, xs: seq<nat>) {
    forall e :: 0 <= e < |next| && e !in xs ==> next[e] == None
  }

  predicate LeadsUp(next: seq<Option<nat>>, xs: seq<nat>) {
    forall i :: 0 <= i < |xs| ==> xs[i] < |next| && next[xs[i]] == Some(xs[Up(i, |xs|)])
  }

  predicate LeadsDown(prev: seq<Option<nat>>, xs: seq<nat>) {
    forall i :: 0 <= i < |xs| ==> xs[i] < |prev| && prev[xs[i]] == Some(xs[Down(i, |xs|)])
  }

  function ChainOf(chains: map<nat, seq<nat>>, h: nat): seq<nat> { if h in chains then chains[h] else [] }

  /** No entry is on two chains, or on one twice. */
  predicate Apart(chains: map<nat, seq<nat>>) {
    && (forall h :: h in chains ==> Distinct(chains[h]))
    && forall h, k, e :: h in chains && k in chains && e in chains[h] && e in chains[k] ==> h == k
  }

  lemma {:induction false} WithoutAt(l: seq<nat>, e: nat, i: nat)
    requires Distinct(l) && i < |l| && l[i] == e
    ensures Without(l, e) == Less(l, i)
  {
    if i > 0 {
      WithoutAt(l[1..], e, i - 1);
      assert l[..i] == [l[0]] + l[1..][..i - 1] && l[1..][i..] == l[i + 1..];
    } else {
      WithoutNone(l[1..], e);
    }
  }

  lemma {:induction false} WithoutNone(l: seq<nat>, e: nat)
    requires e !in l
    ensures Without(l, e) == l
  {
    if l != [] {
      WithoutNone(l[1..], e);
    }
  }

  /** Links of others may change. */
  lemma ChainKept(next: seq<Option<nat>>, prev: seq<Option<nat>>, next': seq<Option<nat>>, prev': seq<Option<nat>>,
                  head: Option<nat>, xs: seq<nat>)
    requires Chained(next, prev, head, xs) && |next'| == |prev'| == |next|
    requires forall x :: x in xs && x < |next| ==> next'[x] == next[x] && prev'[x] == prev[x]
    ensures Chained(next', prev', head, xs)
  {
  }

  /** The links when `e` is put before the head. */
  lemma ChainPushed(next: seq<Option<nat>>, prev: seq<Option<nat>>, head: Option<nat>, xs: seq<nat>, e: nat)
    requires Chained(next, prev, head, xs) && Distinct(xs) && e !in xs && e < |next|
    ensures head.Some? ==> head.value < |prev| && head.value in xs
    ensures var prev' := prev[e := None];
            Chained(next[e := head], if head.Some? then prev'[head.value := Some(e)] else prev', Some(e), [e] + xs)
  {
    var ys := [e] + xs;
    forall i | 0 < i < |ys| ensures ys[i] == xs[i - 1] && ys[i] != e {
    }
  }

  /** The links when member `i` is taken out. */
  function NextCut(next: seq<Option<nat>>, before: Option<nat>, after: Option<nat>, e: nat): (n: seq<Option<nat>>)
    requires e < |next| && (before.Some? ==> before.value < |next|)
    ensures |n| == |next|
  {
    (if before.Some? then next[before.value := after] else next)[e := None]
  }

  /** Without member `i`. */
  function Less(xs: seq<nat>, i: nat): (ys: seq<nat>)
    requires i < |xs|
    ensures |ys| == |xs| - 1
  {
    xs[..i] + xs[i + 1..]
  }

  lemma CutAt(xs: seq<nat>, i: nat, j: nat)
    requires i < |xs| && j < |xs| - 1
    ensures Less(xs, i)[j] == xs[if j < i then j else j + 1]
  {
  }

  lemma Differ(xs: seq<nat>, i: nat, j: nat)
    requires Distinct(xs) && i < |xs| && j < |xs|
    ensures xs[i] == xs[j] <==> i == j
  {
  }

  lemma CutNext(next: seq<Option<nat>>, xs: seq<nat>, i: nat, j: nat)
    requires Distinct(xs) && i < |xs| && j < |xs| - 1
    requires forall k :: 0 <= k < |xs| ==> xs[k] < |next| && next[xs[k]] == After(xs, k)
    ensures var ys := Less(xs, i);
            NextCut(next, Before(xs, i), After(xs, i), xs[i])[ys[j]] == After(ys, j)
  {
    var k := if j < i then j else j + 1;
    CutAt(xs, i, j);
    if j + 1 < |xs| - 1 {
      CutAt(xs, i, j + 1);
    }
    Differ(xs, k, i);
    if i > 0 {
      Differ(xs, k, i - 1);
    }
    hide Distinct, Less;
  }

  lemma CutPrev(prev: seq<Option<nat>>, xs: seq<nat>, i: nat, j: nat)
    requires Distinct(xs) && i < |xs| && j < |xs| - 1
    requires forall k :: 0 <= k < |xs| ==> xs[k] < |prev| && prev[xs[k]] == Before(xs, k)
    ensures var ys := Less(xs, i);
            NextCut(prev, After(xs, i), Before(xs, i), xs[i])[ys[j]] == Before(ys, j)
  {
    var k := if j < i then j else j + 1;
    CutAt(xs, i, j);
    if j > 0 {
      CutAt(xs, i, j - 1);
    }
    Differ(xs, k, i);
    if i + 1 < |xs| {
      Differ(xs, k, i + 1);
    }
    hide Distinct, Less;
  }

  lemma ChainCut(next: seq<Option<nat>>, prev: seq<Option<nat>>, head: Option<nat>, xs: seq<nat>, i: nat)
    requires Chained(next, prev, head, xs) && Distinct(xs) && i < |xs|
    ensures var e := xs[i];
            && e < |next| && next[e] == After(xs, i) && prev[e] == Before(xs, i)
            && (next[e].Some? ==> next[e].value < |next| && next[e].value in xs)
            && (prev[e].Some? ==> prev[e].value < |next| && prev[e].value in xs)
            && Chained(NextCut(next, prev[e], next[e], e), NextCut(prev, next[e], prev[e], e),
                       if prev[e].Some? then head else next[e], Less(xs, i))
  {
    var e, ys := xs[i], Less(xs, i);
    assert i > 0 ==> prev[e] == Some(xs[i - 1]);
    assert i + 1 < |xs| ==> next[e] == Some(xs[i + 1]);
    var next', prev' := NextCut(next, prev[e], next[e], e), NextCut(prev, next[e], prev[e], e);
    hide NextCut, After, Before, Less;
    forall j | 0 <= j < |ys|
      ensures ys[j] < |next'| && next'[ys[j]] == After(ys, j) && prev'[ys[j]] == Before(ys, j)
    {
      CutAt(xs, i, j);
      CutNext(next, xs, i, j);
      CutPrev(prev, xs, i, j);
    }
    CutFirst(xs, i);
  }

  lemma CutFirst(xs: seq<nat>, i: nat)
    requires i < |xs|
    ensures First(Less(xs, i)) == if i > 0 then First(xs) else After(xs, i)
    ensures i > 0 <==> Before(xs, i).Some?
  {
  }

  /** A chain that has none of these entries stays. */
  lemma CutElsewhere(next: seq<Option<nat>>, prev: seq<Option<nat>>, head: Option<nat>, xs: seq<nat>,
                     before: Option<nat>, after: Option<nat>, e: nat)
    requires Chained(next, prev, head, xs) && e < |next| && e !in xs
    requires before.Some? ==> before.value < |next| && before.value !in xs
    requires after.Some? ==> after.value < |next| && after.value !in xs
    ensures Chained(NextCut(next, before, after, e), NextCut(prev, after, before, e), head, xs)
  {
  }

  // ----------------------------------------------------------------------------- the free list

  lemma PushedUp(next: seq<Option<nat>>, xs: seq<nat>, e: nat)
    requires LeadsUp(next, xs) && Distinct(xs) && e !in xs && e < |next| && xs != []
    ensures xs[|xs| - 1] < |next| && LeadsUp(next[e := Some(xs[0])][xs[|xs| - 1] := Some(e)], xs + [e])
  {
    var ys, last := xs + [e], xs[|xs| - 1];
    var next' := next[e := Some(xs[0])][last := Some(e)];
    forall i | 0 <= i < |ys| ensures ys[i] < |next'| && next'[ys[i]] == Some(ys[Up(i, |ys|)]) {
      if i < |xs| {
        Differ(xs, i, |xs| - 1);
        assert ys[i] == xs[i];
      }
    }
  }

  lemma PushedDown(prev: seq<Option<nat>>, xs: seq<nat>, e: nat)
    requires LeadsDown(prev, xs) && Distinct(xs) && e !in xs && e < |prev| && xs != []
    ensures xs[0] < |prev| && LeadsDown(prev[e := Some(xs[|xs| - 1])][xs[0] := Some(e)], xs + [e])
  {
    var ys := xs + [e];
    var prev' := prev[e := Some(xs[|xs| - 1])][xs[0] := Some(e)];
    forall i | 0 <= i < |ys| ensures ys[i] < |prev'| && prev'[ys[i]] == Some(ys[Down(i, |ys|)]) {
      if i < |xs| {
        Differ(xs, i, 0);
        assert ys[i] == xs[i];
      }
    }
  }

  /** The links when `e` is put before the head, which is at the end. */
  lemma FreePushed(next: seq<Option<nat>>, prev: seq<Option<nat>>, head: Option<nat>, xs: seq<nat>, e: nat)
    requires Circular(next, prev, head, xs) && Distinct(xs) && e !in xs && e < |next|
    ensures xs == [] ==> Circular(next[e := Some(e)], prev[e := Some(e)], Some(e), [e])
    ensures xs != [] ==>
              var h, last := xs[0], xs[|xs| - 1];
              && h < |next| && last < |next| && prev[h] == Some(last) && head == Some(h)
              && Circular(next[e := Some(h)][last := Some(e)], prev[e := Some(last)][h := Some(e)], head, xs + [e])
  {
    if xs != [] {
      PushedUp(next, xs, e);
      PushedDown(prev, xs, e);
      assert xs[0] in xs && xs[|xs| - 1] in xs;
      hide LeadsUp, LeadsDown, Distinct;
    }
  }

  /** Places when place `i` of `n` is left out. */
  function Kept(i: nat, j: nat): nat { if j < i then j else j + 1 }

  lemma UpCut(n: nat, i: nat, j: nat)
    requires i < n && j < n - 1
    ensures Kept(i, Up(j, n - 1)) == if Up(Kept(i, j), n) == i then Up(i, n) else Up(Kept(i, j), n)
    ensures Kept(i, Down(j, n - 1)) == if Down(Kept(i, j), n) == i then Down(i, n) else Down(Kept(i, j), n)
    ensures Up(Kept(i, j), n) == i <==> Kept(i, j) == Down(i, n)
    ensures Down(Kept(i, j), n) == i <==> Kept(i, j) == Up(i, n)
    ensures Kept(i, j) != i && Kept(i, j) < n && Up(j, n - 1) < n - 1 && Down(j, n - 1) < n - 1
    ensures Up(i, n) < n && Up(i, n) != i && Down(i, n) < n && Down(i, n) != i
  {
  }

  lemma CutUp(next: seq<Option<nat>>, xs: seq<nat>, i: nat)
    requires LeadsUp(next, xs) && Distinct(xs) && i < |xs| && |xs| > 1
    ensures var p := xs[Down(i, |xs|)];
            p < |next| && xs[i] < |next| && LeadsUp(next[p := next[xs[i]]][xs[i] := None], Less(xs, i))
  {
    var n, ys := |xs|, Less(xs, i);
    var next' := next[xs[Down(i, n)] := next[xs[i]]][xs[i] := None];
    forall j | 0 <= j < |ys| ensures ys[j] < |next'| && next'[ys[j]] == Some(ys[Up(j, |ys|)]) {
      UpCut(n, i, j);
      CutAt(xs, i, j);
      CutAt(xs, i, Up(j, n - 1));
      Differ(xs, Kept(i, j), i);
      Differ(xs, Kept(i, j), Down(i, n));
      hide Up, Down, Distinct, Less;
    }
  }

  lemma CutDown(prev: seq<Option<nat>>, xs: seq<nat>, i: nat)
    requires LeadsDown(prev, xs) && Distinct(xs) && i < |xs| && |xs| > 1
    ensures var p := xs[Up(i, |xs|)];
            p < |prev| && xs[i] < |prev| && LeadsDown(prev[p := prev[xs[i]]][xs[i] := None], Less(xs, i))
  {
    var n, ys := |xs|, Less(xs, i);
    var prev' := prev[xs[Up(i, n)] := prev[xs[i]]][xs[i] := None];
    forall j | 0 <= j < |ys| ensures ys[j] < |prev'| && prev'[ys[j]] == Some(ys[Down(j, |ys|)]) {
      UpCut(n, i, j);
      CutAt(xs, i, j);
      CutAt(xs, i, Down(j, n - 1));
      Differ(xs, Kept(i, j), i);
      Differ(xs, Kept(i, j), Up(i, n));
      hide Up, Down, Distinct, Less;
    }
  }

  lemma OutOfCut(xs: seq<nat>, i: nat)
    requires Distinct(xs) && i < |xs|
    ensures forall x :: x in Less(xs, i) <==> x in xs && x != xs[i]
  {
    forall x | x in xs && x != xs[i] ensures x in Less(xs, i) {
      var k :| 0 <= k < |xs| && xs[k] == x;
      CutAt(xs, i, if k < i then k else k - 1);
    }
    forall x | x in Less(xs, i) ensures x in xs && x != xs[i] {
      var j :| 0 <= j < |xs| - 1 && Less(xs, i)[j] == x;
      CutAt(xs, i, j);
    }
  }

  /** The links when member `i` of several is taken out. */
  lemma FreeCut(next: seq<Option<nat>>, prev: seq<Option<nat>>, head: Option<nat>, xs: seq<nat>, i: nat)
    requires Circular(next, prev, head, xs) && Distinct(xs) && i < |xs| && |xs| > 1
    ensures var e, n, p := xs[i], xs[Up(i, |xs|)], xs[Down(i, |xs|)];
            && e < |next| && next[e] == Some(n) && prev[e] == Some(p)
            && n < |next| && p < |next| && n != e && p != e
            && Circular(next[p := Some(n)][e := None], prev[n := Some(p)][e := None],
                        if head == Some(e) then Some(n) else head, Less(xs, i))
  {
    UpCut(|xs|, i, 0);
    CutUp(next, xs, i);
    CutDown(prev, xs, i);
    Differ(xs, i, Up(i, |xs|));
    Differ(xs, i, Down(i, |xs|));
    FirstOfCut(xs, i);
    var n, p := xs[Up(i, |xs|)], xs[Down(i, |xs|)];
    assert n in xs && p in xs && xs[i] in xs;
    assert next[xs[i]] == Some(n) && prev[xs[i]] == Some(p);
    UnlinkedCut(next, xs, i, p);
    UnlinkedCut(prev, xs, i, n);
    hide LeadsUp, LeadsDown, Distinct, Down, Up, First, Unlinked;
  }

  lemma FirstOfCut(xs: seq<nat>, i: nat)
    requires Distinct(xs) && i < |xs| && |xs| > 1
    ensures First(Less(xs, i)) == if First(xs) == Some(xs[i]) then Some(xs[Up(i, |xs|)]) else First(xs)
  {
    Differ(xs, i, 0);
    CutAt(xs, i, 0);
  }

  lemma UnlinkedCut(next: seq<Option<nat>>, xs: seq<nat>, i: nat, p: nat)
    requires Unlinked(next, xs) && Distinct(xs) && i < |xs| && xs[i] < |next|
    requires p < |next| && p in xs && p != xs[i]
    ensures Unlinked(next[p := next[xs[i]]][xs[i] := None], Less(xs, i))
  {
    OutOfCut(xs, i);
    hide Distinct;
  }

  // ---------------------------------------------------------------------------- the hash chains

  /** The table leads to the chains. */
  predicate Heads(next: seq<Option<nat>>, prev: seq<Option<nat>>, table: seq<Option<nat>>, chains: map<nat, seq<nat>>) {
    |table| == HASHES && |next| == |prev|
    && forall h :: 0 <= h < HASHES ==> Chained(next, prev, table[h], ChainOf(chains, h))
  }

  lemma HeadsPushed(next: seq<Option<nat>>, prev: seq<Option<nat>>, table: seq<Option<nat>>,
                    chains: map<nat, seq<nat>>, h: nat, e: nat)
    requires Heads(next, prev, table, chains) && Apart(chains) && h < HASHES && e < |next|
    requires forall k :: k in chains ==> e !in chains[k]
    ensures table[h].Some? ==> table[h].value < |prev|
    ensures var prev' := prev[e := None];
            Heads(next[e := table[h]], if table[h].Some? then prev'[table[h].value := Some(e)] else prev',
                  table[h := Some(e)], chains[h := [e] + ChainOf(chains, h)])
    ensures Apart(chains[h := [e] + ChainOf(chains, h)])
  {
    ChainPushed(next, prev, table[h], ChainOf(chains, h), e);
    var next', prev0 := next[e := table[h]], prev[e := None];
    var prev' := if table[h].Some? then prev0[table[h].value := Some(e)] else prev0;
    forall k | 0 <= k < HASHES && k != h ensures Chained(next', prev', table[k], ChainOf(chains, k)) {
      ChainKept(next, prev, next', prev', table[k], ChainOf(chains, k));
    }
  }

  lemma HeadsCut(next: seq<Option<nat>>, prev: seq<Option<nat>>, table: seq<Option<nat>>,
                 chains: map<nat, seq<nat>>, h: nat, e: nat, i: nat)
    requires Heads(next, prev, table, chains) && Apart(chains) && h < HASHES
    requires i < |ChainOf(chains, h)| && ChainOf(chains, h)[i] == e
    ensures e < |next| && (prev[e].Some? ==> prev[e].value < |next| && prev[e].value != e)
    ensures next[e].Some? ==> next[e].value < |prev| && next[e].value != e
    ensures Heads(NextCut(next, prev[e], next[e], e), NextCut(prev, next[e], prev[e], e),
                  if prev[e].Some? then table else table[h := next[e]],
                  chains[h := Without(ChainOf(chains, h), e)])
    ensures Apart(chains[h := Without(ChainOf(chains, h), e)])
  {
    var chain := ChainOf(chains, h);
    ChainCut(next, prev, table[h], chain, i);
    WithoutAt(chain, e, i);
    WithoutDistinct(chain, e);
    ApartStill(chains, h, e);
    hide Without;
    forall k | 0 <= k < HASHES && k != h
      ensures Chained(NextCut(next, prev[e], next[e], e), NextCut(prev, next[e], prev[e], e), table[k],
                      ChainOf(chains, k))
    {
      CutElsewhere(next, prev, table[k], ChainOf(chains, k), prev[e], next[e], e);
    }
  }

  lemma ApartStill(chains: map<nat, seq<nat>>, h: nat, e: nat)
    requires Apart(chains) && Distinct(Without(ChainOf(chains, h), e))
    ensures Apart(chains[h := Without(ChainOf(chains, h), e)])
  {
    hide Distinct;
  }

  class Memory {
    const max: nat
    var entries: seq<Entry>
    var hashTable: seq<Option<nat>>
    var hashNext: seq<Option<nat>>
    var hashPrev: seq<Option<nat>>
    var freeList: Option<nat>
    var freeNext: seq<Option<nat>>
    var freePrev: seq<Option<nat>>

    predicate Hashing(chains: map<nat, seq<nat>>)
      reads this
    {
      |hashNext| == |entries| && Heads(hashNext, hashPrev, hashTable, chains) && Apart(chains)
    }

    /** insert_hash_table (lines 197-206) */
    method InsertHashTable(e: nat, ghost chains: map<nat, seq<nat>>)
      requires Hashing(chains) && e < |entries| && forall h :: h in chains ==> e !in chains[h]
      modifies `hashTable, `hashNext, `hashPrev
      ensures var h := entries[e].block % HASHES; Hashing(chains[h := [e] + ChainOf(chains, h)])
    {
      var h := entries[e].block % HASHES;
      HeadsPushed(hashNext, hashPrev, hashTable, chains, h, e);
      hide Heads, Apart;
      var head := hashTable[h];
      hashNext := hashNext[e := head];
      hashTable := hashTable[h := Some(e)];
      hashPrev := hashPrev[e := None];
      if head.Some? {
        hashPrev := hashPrev[head.value := Some(e)];
      }
    }

    /** remove_hash_table (lines 210-221): what becomes of the links. */
    method Unhook(e: nat)
      requires e < |hashNext| == |hashPrev| && |hashTable| == HASHES && e < |entries|
      requires hashPrev[e].Some? ==> hashPrev[e].value < |hashNext| && hashPrev[e].value != e
      requires hashNext[e].Some? ==> hashNext[e].value < |hashPrev| && hashNext[e].value != e
      modifies `hashTable, `hashNext, `hashPrev
      ensures hashNext == NextCut(old(hashNext), old(hashPrev[e]), old(hashNext[e]), e)
      ensures hashPrev == NextCut(old(hashPrev), old(hashNext[e]), old(hashPrev[e]), e)
      ensures hashTable == if old(hashPrev[e]).Some? then old(hashTable)
                           else old(hashTable)[entries[e].block % HASHES := old(hashNext[e])]
    {
      if hashPrev[e].Some? {
        hashNext := hashNext[hashPrev[e].value := hashNext[e]];
      } else {
        hashTable := hashTable[entries[e].block % HASHES := hashNext[e]];
      }
      if hashNext[e].Some? {
        hashPrev := hashPrev[hashNext[e].value := hashPrev[e]];
      }
      hashPrev, hashNext := hashPrev[e := None], hashNext[e := None];
    }

    /** The chains that are left; `i` is the place of the entry on its chain. */
    method RemoveHashTable(e: nat, ghost chains: map<nat, seq<nat>>, ghost i: nat)
      requires Hashing(chains) && e < |entries|
      requires var chain := ChainOf(chains, entries[e].block % HASHES); i < |chain| && chain[i] == e
      modifies `hashTable, `hashNext, `hashPrev
      ensures var h := entries[e].block % HASHES; Hashing(chains[h := Without(ChainOf(chains, h), e)])
    {
      assert |hashTable| == HASHES && |hashPrev| == |hashNext|;
      hide Without, Apart, NextCut, ChainOf, Chained, Heads;
      HeadsCut(hashNext, hashPrev, hashTable, chains, entries[e].block % HASHES, e, i);
      Unhook(e);
    }

    /** The memory is that of the cache `s`. */
    predicate Mirrors(s: Cache)
      reads this
    {
      && max == s.max && entries == s.entries && Hashing(s.chains) && Freeing(s.free)
    }

    predicate Freeing(free: seq<nat>)
      reads this
    {
      |freeNext| == |entries| && Circular(freeNext, freePrev, freeList, free) && Distinct(free)
    }

    constructor (max: nat)
      ensures Mirrors(Init(max))
    {
      this.max, entries, hashNext, hashPrev, freeNext, freePrev := max, [], [], [], [], [];
      hashTable, freeList := seq(HASHES, _ => None), None;
    }

    /** insert_free_list (lines 225-236) */
    method InsertFreeList(e: nat, ghost free: seq<nat>)
      requires Freeing(free) && e < |entries| && e !in free
      modifies `freeList, `freeNext, `freePrev
      ensures Freeing(free + [e])
    {
      FreePushed(freeNext, freePrev, freeList, free, e);
      assert free == [] ==> free + [e] == [e];
      if freeList.Some? {
        var head := freeList.value;
        var last := freePrev[head].value;
        hide Circular;
        freeNext, freePrev := freeNext[e := Some(head)], freePrev[e := Some(last)];
        freeNext := freeNext[last := Some(e)];
        freePrev := freePrev[head := Some(e)];
      } else {
        freeList := Some(e);
        freeNext, freePrev := freeNext[e := Some(e)], freePrev[e := Some(e)];
      }
    }

    /** remove_free_list (lines 240-257) */
    method RemoveFreeList(e: nat, ghost free: seq<nat>)
      requires Freeing(free) && e < |entries|
      modifies `freeList, `freeNext, `freePrev
      ensures Freeing(Without(free, e))
    {
      FreeWithout(freeNext, freePrev, freeList, free, e);
      hide Circular, Without, Distinct;
      if freePrev[e].None? && freeNext[e].None? {
        return;
      }
      if freePrev[e] == Some(e) && freeNext[e] == Some(e) {
        freeList := None;
      } else {
        var n, p := freeNext[e].value, freePrev[e].value;
        freePrev := freePrev[n := Some(p)];
        freeNext := freeNext[p := Some(n)];
        if freeList == Some(e) {
          freeList := freeNext[e];
        }
      }
      freePrev, freeNext := freePrev[e := None], freeNext[e := None];
    }

    /** The walk along a chain (lines 296-298). */
    method Lookup(block: nat, ghost s: Cache) returns (p: Option<nat>)
      requires Mirrors(s) && ChainsOk(s)
      ensures var e := Search(s, Chain(s, block % HASHES), block);
              p == if e < |s.entries| then Some(e) else None
    {
      ghost var chain, i := Chain(s, block % HASHES), 0;
      assert Chained(hashNext, hashPrev, hashTable[block % HASHES], chain);
      assert forall k :: 0 <= k < |chain| ==> chain[k] < |s.entries|;
      p := hashTable[block % HASHES];
      assert chain[0..] == chain;
      hide Search, Heads, Circular, Apart, Distinct, Chained, Chain, First, StillSearched;
      SearchStarts(s, chain, block);
      StepOn(hashNext, hashPrev, hashTable[block % HASHES], chain, i);
      while p.Some? && entries[p.value].block != block
        invariant i <= |chain| && p == First(chain[i..]) && (p.Some? ==> i < |chain| && p.value == chain[i])
        invariant StillSearched(s, chain, block, i)
        decreases |chain| - i
      {
        SearchStep(s, chain, block, i);
        StepOn(hashNext, hashPrev, hashTable[block % HASHES], chain, i);
        p := hashNext[p.value];
        i := i + 1;
        StepOn(hashNext, hashPrev, hashTable[block % HASHES], chain, i);
      }
      SearchEnds(s, chain, block, i);
    }

    /** The entry is in the cache (lines 300-307). */
    method UseAgain(e: nat, ghost s: Cache)
      requires Mirrors(s) && e < |entries|
      modifies this
      ensures Mirrors(Hit(s, e))
    {
      hide Heads, Apart, Circular, Without, Distinct;
      entries := entries[e := entries[e].(used := entries[e].used + 1)];
      RemoveFreeList(e, s.free);
    }

    /** A new entry (lines 314-323). */
    method Allocate(block: nat, size: nat, ghost s: Cache) returns (e: nat)
      requires Mirrors(s) && Hashed(s) && FreeOk(s)
      modifies this
      ensures e == |s.entries| && Mirrors(Grow(s, block, size))
    {
      e := |entries|;
      Longer(hashNext, hashPrev, hashTable, s.chains, freeNext, freePrev, freeList, s.free);
      NotYet(s);
      hide Heads, Apart, Circular, Distinct, Hashed, FreeOk;
      entries := entries + [Fresh(block, size)];
      hashNext, hashPrev := hashNext + [None], hashPrev + [None];
      freeNext, freePrev := freeNext + [None], freePrev + [None];
      InsertHashTable(e, s.chains);
    }

    /** The entry longest on the free list (lines 333-335). */
    method Reuse(block: nat, size: nat, ghost s: Cache) returns (e: nat)
      requires Mirrors(s) && Hashed(s) && FreeOk(s) && s.free != []
      modifies this
      ensures s.free[0] < |s.entries| && e == s.free[0] && Mirrors(Recycle(s, block, size))
    {
      assert freeList == Some(s.free[0]);
      hide Heads, Distinct, Without, Hashed, FreeOk, Apart, Circular, ChainOf, Recycle, Chain;
      e := freeList.value;
      ghost var i := FirstFree(s);
      SameChain(s, s.entries[e].block % HASHES);
      RemoveFreeList(e, s.free);
      RemoveHashTable(e, s.chains, i);
      entries := entries[e := Fresh(block, size)];
      ghost var h := s.entries[e].block % HASHES;
      InsertHashTable(e, s.chains[h := Without(Chain(s, h), e)]);
      RecycleIs(s, block, size, s.chains[h := Without(Chain(s, h), e)]);
    }
  }

  lemma SameChain(s: Cache, h: nat)
    ensures Chain(s, h) == ChainOf(s.chains, h)
  {
  }

  lemma RecycleIs(s: Cache, block: nat, size: nat, chains: map<nat, seq<nat>>)
    requires s.free != [] && s.free[0] < |s.entries|
    requires var h := s.entries[s.free[0]].block % HASHES; chains == s.chains[h := Without(Chain(s, h), s.free[0])]
    ensures var e := s.free[0];
            Recycle(s, block, size) ==
            s.(entries := s.entries[e := Fresh(block, size)], free := s.free[1..], refs := s.refs + multiset{e},
               chains := chains[block % HASHES := [e] + ChainOf(chains, block % HASHES)])
  {
  }

  lemma StepOn(next: seq<Option<nat>>, prev: seq<Option<nat>>, head: Option<nat>, xs: seq<nat>, i: nat)
    requires Chained(next, prev, head, xs) && i <= |xs|
    ensures First(xs[i..]) == if i < |xs| then Some(xs[i]) else None
    ensures i < |xs| ==> xs[i] < |next| && next[xs[i]] == First(xs[i + 1..])
  {
  }

  /** The search goes on from place `i`. */
  ghost predicate StillSearched(s: Cache, xs: seq<nat>, block: nat, i: nat) {
    && i <= |xs| && (forall k :: 0 <= k < |xs| ==> xs[k] < |s.entries|)
    && Search(s, xs, block) == Search(s, xs[i..], block)
  }

  lemma SearchStarts(s: Cache, xs: seq<nat>, block: nat)
    requires forall k :: 0 <= k < |xs| ==> xs[k] < |s.entries|
    ensures StillSearched(s, xs, block, 0)
  {
    assert xs[0..] == xs;
  }

  lemma SearchStep(s: Cache, xs: seq<nat>, block: nat, i: nat)
    requires StillSearched(s, xs, block, i) && i < |xs|
    ensures xs[i] < |s.entries| && (s.entries[xs[i]].block != block ==> StillSearched(s, xs, block, i + 1))
  {
    assert xs[i..][0] == xs[i] && xs[i..][1..] == xs[i + 1..];
  }

  lemma SearchEnds(s: Cache, xs: seq<nat>, block: nat, i: nat)
    requires StillSearched(s, xs, block, i)
    ensures i == |xs| ==> Search(s, xs, block) == |s.entries|
    ensures i < |xs| && s.entries[xs[i]].block == block ==> Search(s, xs, block) == xs[i]
  {
    assert i < |xs| ==> xs[i..][0] == xs[i];
  }

  lemma Longer(next: seq<Option<nat>>, prev: seq<Option<nat>>, table: seq<Option<nat>>, chains: map<nat, seq<nat>>,
               fnext: seq<Option<nat>>, fprev: seq<Option<nat>>, head: Option<nat>, free: seq<nat>)
    requires Heads(next, prev, table, chains) && Circular(fnext, fprev, head, free)
    ensures Heads(next + [None], prev + [None], table, chains)
    ensures Circular(fnext + [None], fprev + [None], head, free)
  {
    forall h | 0 <= h < HASHES ensures Chained(next + [None], prev + [None], table[h], ChainOf(chains, h)) {
      ChainLonger(next, prev, table[h], ChainOf(chains, h));
    }
  }

  lemma ChainLonger(next: seq<Option<nat>>, prev: seq<Option<nat>>, head: Option<nat>, xs: seq<nat>)
    requires Chained(next, prev, head, xs)
    ensures Chained(next + [None], prev + [None], head, xs)
  {
  }

  /** A number that has not been given out is on no chain. */
  lemma NotYet(s: Cache)
    requires Hashed(s)
    ensures forall h :: h in s.chains ==> |s.entries| !in s.chains[h]
  {
  }

  /** The first free entry is on the chain of its block, and then on no other. */
  lemma FirstFree(s: Cache) returns (i: nat)
    requires Hashed(s) && FreeOk(s) && s.free != []
    ensures var e := s.free[0];
            && e < |s.entries| && Without(s.free, e) == s.free[1..]
            && var h := s.entries[e].block % HASHES;
            && i < |ChainOf(s.chains, h)| && ChainOf(s.chains, h)[i] == e
            && var chains := s.chains[h := Without(Chain(s, h), e)];
            && Apart(chains) && forall k :: k in chains ==> e !in chains[k]
  {
    var e := s.free[0];
    assert e in s.free;
    var h := s.entries[e].block % HASHES;
    assert e in Chain(s, h);
    i :| 0 <= i < |Chain(s, h)| && Chain(s, h)[i] == e;
    WithoutAt(s.free, e, 0);
    WithoutDistinct(Chain(s, h), e);
  }

  /** cache_get (lines 282-357) is the step Get, and cache_block_put (lines 403-428) the step Put; what the
      threads do between is to entries alone. */
  method CacheGet(m: Memory, block: nat, size: nat, ghost c: Codec, ghost image: seq<Byte>, ghost s: Cache)
    returns (e: nat)
    requires m.Mirrors(s) && Inv(c, image, s) && Enabled(s, Get(block, size))
    modifies m
    ensures m.Mirrors(Next(c, image, s, Get(block, size))) && Inv(c, image, Next(c, image, s, Get(block, size)))
    ensures e < |m.entries| && m.entries[e].block == block
    ensures Next(c, image, s, Get(block, size)).refs == s.refs + multiset{e}
  {
    hide Heads, Apart, Circular, Distinct, Inv, Enabled, Next, Hashed, FreeOk, ChainsOk;
    NextKeeps(c, image, s, Get(block, size));
    NextGet(c, image, s, block, size);
    var p := m.Lookup(block, s);
    if p.Some? {
      e := p.value;
      m.UseAgain(e, s);
    } else if |m.entries| < m.max {
      e := m.Allocate(block, size, s);
    } else {
      e := m.Reuse(block, size, s);
    }
  }

  method CachePut(m: Memory, e: nat, ghost c: Codec, ghost image: seq<Byte>, ghost s: Cache)
    requires m.Mirrors(s) && Inv(c, image, s) && Enabled(s, Put(e))
    modifies m
    ensures m.Mirrors(Next(c, image, s, Put(e))) && Inv(c, image, Next(c, image, s, Put(e)))
  {
    hide Heads, Apart, Circular, Distinct, Inv, Enabled, Next;
    NextKeeps(c, image, s, Put(e));
    NextPut(c, image, s, e);
    m.entries := m.entries[e := m.entries[e].(used := m.entries[e].used - 1)];
    if m.entries[e].used == 0 {
      m.InsertFreeList(e, s.free);
    }
  }

  lemma NextPut(c: Codec, image: seq<Byte>, s: Cache, e: nat)
    requires Inv(c, image, s) && Enabled(s, Put(e))
    ensures e < |s.entries| && e !in s.free && s.entries[e].used > 0
    ensures var x := s.entries[e];
            Next(c, image, s, Put(e)) ==
            s.(entries := s.entries[e := x.(used := x.used - 1)], refs := s.refs - multiset{e},
               free := if x.used == 1 then s.free + [e] else s.free)
  {
  }

  lemma NextGet(c: Codec, image: seq<Byte>, s: Cache, block: nat, size: nat)
    requires Inv(c, image, s) && Enabled(s, Get(block, size))
    ensures ChainsOk(s) && Hashed(s) && FreeOk(s)
    ensures var e, s' := Search(s, Chain(s, block % HASHES), block), Next(c, image, s, Get(block, size));
            if e < |s.entries| then s' == Hit(s, e) && s.entries[e].block == block
            else if |s.entries| < s.max then s' == Grow(s, block, size)
            else s.free != [] && s.free[0] < |s.entries| && s' == Recycle(s, block, size)
  {
  }

  /** The three cases of remove_free_list. */
  lemma FreeWithout(next: seq<Option<nat>>, prev: seq<Option<nat>>, head: Option<nat>, xs: seq<nat>, e: nat)
    requires Circular(next, prev, head, xs) && Distinct(xs) && e < |next|
    ensures Distinct(Without(xs, e)) && (next[e].None? <==> prev[e].None?)
    ensures next[e].None? ==> Without(xs, e) == xs
    ensures next[e] == Some(e) && prev[e] == Some(e) ==>
              Circular(next[e := None], prev[e := None], None, Without(xs, e))
    ensures next[e].Some? && !(next[e] == Some(e) && prev[e] == Some(e)) ==>
              var n, p := next[e].value, prev[e].value;
              && n < |next| && p < |next| && n != e && p != e
              && Circular(next[p := Some(n)][e := None], prev[n := Some(p)][e := None],
                          if head == Some(e) then Some(n) else head, Without(xs, e))
  {
    WithoutDistinct(xs, e);
    if e !in xs {
      WithoutNone(xs, e);
    } else {
      var i :| 0 <= i < |xs| && xs[i] == e;
      WithoutAt(xs, e, i);
      if |xs| == 1 {
        assert xs == [e] && Less(xs, i) == [];
      } else {
        assert next[e] == Some(xs[Up(i, |xs|)]) && prev[e] == Some(xs[Down(i, |xs|)]);
        hide Circular, Without, Less, Up, Down, Distinct;
        FreeCut(next, prev, head, xs, i);
      }
    }
  }
}
