/** huft_build of src/opkg/libbb/unzip.c: from code lengths to lookup tables that decode exactly as
    the canonical code does. */
module HuftBuild {
  import opened BitStrings
  import opened CanonicalCode
  import opened HuftTables
  import opened HuftSteps
  import opened HuftParts
  import opened LookAhead

  /** Where code number `done` of length `k` begins. */
  ghost function PosAt(x: Ctx, k: nat, done: nat): nat
    requires x.Shape() && 1 <= k <= x.g
  {
    Space(x.cs, x.g, k - 1) + Scale(done, x.g - k)
  }

  /** The state of huft_build when its next code is `p`, which begins at `pos`; at the very end
      `pos` is the size of the code space and `p` has wrapped around. */
  ghost predicate Building(x: Ctx, mem: seq<seq<Huft>>, tabs: seq<Tab>, stack: seq<nat>, p: Bits, pos: nat) {
    && x.Valid() && 1 <= |p| <= x.g
    && TabsOk(x, mem, tabs) && StackOk(x, tabs, stack, p)
    && Finished(x, tabs, stack, pos) && Covered(x, mem, tabs, pos)
    && (pos == Start(x.g, p) || pos == Pow2(x.g))
    && (stack == [] ==> tabs == [] && pos == 0 && Start(x.g, p) == 0)
    && (stack != [] ==> stack[0] == 0 && 0 < |tabs| && tabs[0].prefix == [] && tabs[0].width == x.l)
    && (InScope(x.cs, x.g, x.l) ==> forall t :: 0 <= t < |tabs| ==> tabs[t].width <= x.l)
    && AllSized(x, tabs) && NextIsZero(x, tabs, stack, p)
  }

  /** A code too long for the last table is the first with its prefix. */
  ghost predicate NextIsZero(x: Ctx, tabs: seq<Tab>, stack: seq<nat>, p: Bits) {
    stack != [] && stack[|stack| - 1] < |tabs| ==>
      forall j :: |tabs[stack[|stack| - 1]].prefix| + x.l <= j < |p| ==> !p[j]
  }

  /** Bits decoded before the last table; `-l` while there is none. */
  ghost function Depth(x: Ctx, tabs: seq<Tab>, stack: seq<nat>): int {
    if stack != [] && stack[|stack| - 1] < |tabs| then |tabs[stack[|stack| - 1]].prefix| else 0 - x.l as int
  }

  /** The arrays of the C code: `u` the table stack, `xs` the pattern of each table on it. */
  ghost predicate Arrays(tabs: seq<Tab>, stack: seq<nat>, u: seq<nat>, xs: seq<nat>) {
    && |u| == BMAX && |xs| == BMAX + 1 && |stack| <= BMAX && xs[0] == 0
    && forall q :: 0 <= q < |stack| ==>
         && stack[q] < |tabs| && q <= |tabs[stack[q]].prefix|
         && u[q] == stack[q] && xs[q] == Lsb(tabs[stack[q]].prefix)
  }

  // -------------------------------------------------------------------------- one table

  /** What TableBits promises of the size `j` of a table whose prefix has `w` bits. */
  ghost predicate GoodBits(x: Ctx, p: Bits, w: nat, j: nat)
    requires x.Shape() && w <= |p| && w <= x.g
  {
    && 0 < j <= BMAX + 1
    && (j <= x.l ==> w + j <= x.g && Space(x.cs, x.g, w + j - 1) < End(x.g, p[..w]))
    && (j >= x.l || End(x.g, p[..w]) <= Space(x.cs, x.g, w + j))
    && (w >= x.l && InScope(x.cs, x.g, x.l) ==> j <= x.l)
  }

  lemma WholeSpace(g: nat)
    ensures End(g, []) == Pow2(g)
  {
    ScaleUnit(g);
  }

  lemma RootBits(x: Ctx, p: Bits, j: nat)
    requires x.Valid() && GoodBits(x, p, 0, j)
    ensures j >= x.l
  {
    assert p[..0] == [];
    WholeSpace(x.g);
    hide Pow2, End;
    if j < x.l {
      SpaceMonotone(x.cs, x.g, j, x.g - 1);
    }
  }

  lemma FirstLevel(x: Ctx, p: Bits, j: nat, table: seq<Huft>)
    returns (mem': seq<seq<Huft>>, tabs': seq<Tab>)
    requires x.Valid() && 1 <= |p| <= x.g && Start(x.g, p) == 0
    requires GoodBits(x, p, 0, j) && |table| == Pow2(j)
    ensures Building(x, mem', tabs', [0], p, 0)
    ensures mem' == [table] && |tabs'| == 1 && tabs'[0].prefix == []
  {
    RootBits(x, p, j);
    Pow2Monotone(x.l, j);
    ZeroCode(x.g, p);
    tabs' := RootTable(x, p, table);
    mem' := [table];
  }

  /** Adding a table, with a link to it from the level above if there is one. */
  lemma NewLevel(x: Ctx, mem: seq<seq<Huft>>, tabs: seq<Tab>, stack: seq<nat>, p: Bits,
                 j: nat, table: seq<Huft>, d: nat)
    returns (mem': seq<seq<Huft>>, tabs': seq<Tab>)
    requires |p| <= x.g && Building(x, mem, tabs, stack, p, Start(x.g, p))
    requires 0 <= Depth(x, tabs, stack) + x.l < |p| && GoodBits(x, p, Depth(x, tabs, stack) + x.l, j)
    requires |table| == Pow2(j)
    requires stack != [] ==> LinkAt(x, mem, tabs, stack[|stack| - 1], p, d)
    ensures Building(x, mem', tabs', stack + [|tabs|], p, Start(x.g, p)) && |tabs'| == |tabs| + 1
    ensures Extends(tabs, tabs') && tabs'[|tabs|].prefix == p[..Depth(x, tabs, stack) + x.l]
    ensures stack == [] ==> mem' == mem + [table]
    ensures stack != [] ==> mem' == Linked(mem, table, stack[|stack| - 1], d, 16 + j, x.l)
  {
    if stack == [] {
      NoTables(x, mem, tabs, p);
      hide Building, GoodBits, Extends, Start;
      mem', tabs' := FirstLevel(x, p, j, table);
      assert stack + [|tabs|] == [0] && mem + [table] == [table] && p[..0] == [];
      FromNothing(tabs');
    } else {
      hide GoodBits;
      mem', tabs' := DeeperLevel(x, mem, tabs, stack, p, j, table, d);
    }
  }

  lemma NoTables(x: Ctx, mem: seq<seq<Huft>>, tabs: seq<Tab>, p: Bits)
    requires |p| <= x.g && Building(x, mem, tabs, [], p, Start(x.g, p))
    ensures x.Valid() && 1 <= |p| && Start(x.g, p) == 0 && tabs == [] && mem == []
    ensures Depth(x, tabs, []) == -(x.l as int)
  {
  }

  lemma FromNothing(tabs: seq<Tab>)
    ensures Extends([], tabs)
  {
  }

  lemma DeeperLevel(x: Ctx, mem: seq<seq<Huft>>, tabs: seq<Tab>, stack: seq<nat>, p: Bits,
                    j: nat, table: seq<Huft>, d: nat)
    returns (mem': seq<seq<Huft>>, tabs': seq<Tab>)
    requires |p| <= x.g && Building(x, mem, tabs, stack, p, Start(x.g, p)) && stack != []
    requires 0 <= Depth(x, tabs, stack) + x.l < |p| && GoodBits(x, p, Depth(x, tabs, stack) + x.l, j)
    requires |table| == Pow2(j) && LinkAt(x, mem, tabs, stack[|stack| - 1], p, d)
    ensures Building(x, mem', tabs', stack + [|tabs|], p, Start(x.g, p)) && |tabs'| == |tabs| + 1
    ensures Extends(tabs, tabs') && tabs'[|tabs|].prefix == p[..Depth(x, tabs, stack) + x.l]
    ensures mem' == Linked(mem, table, stack[|stack| - 1], d, 16 + j, x.l)
  {
    hide TabsOk, StackOk, Finished, Covered, InScope, Space, Start, End, Pow2, Linked, NextIsZero;
    var w := |tabs[stack[|stack| - 1]].prefix| + x.l;
    mem', tabs' := LinkTable(x, mem, tabs, stack, p, j, table, w, d);
    AlreadyZero(x, tabs, tabs', stack, p, w, mem, d);
  }

  /** The bits of the code after a link are zero. */
  lemma AlreadyZero(x: Ctx, tabs: seq<Tab>, tabs': seq<Tab>, stack: seq<nat>, p: Bits, w: nat,
                    mem: seq<seq<Huft>>, d: nat)
    requires stack != [] && LinkAt(x, mem, tabs, stack[|stack| - 1], p, d) && w <= |p|
    requires w == |tabs[stack[|stack| - 1]].prefix| + x.l
    requires |tabs'| == |tabs| + 1 && tabs'[|tabs|].prefix == p[..w]
    ensures NextIsZero(x, tabs', stack + [|tabs|], p)
  {
  }

  /** A code too long for the last table begins where the streams with the next prefix begin. */
  lemma NextPrefix(x: Ctx, tabs: seq<Tab>, stack: seq<nat>, p: Bits)
    requires x.Shape() && |p| <= x.g && NextIsZero(x, tabs, stack, p)
    requires stack == [] ==> Start(x.g, p) == 0
    requires stack != [] ==> stack[|stack| - 1] < |tabs|
    requires 0 <= Depth(x, tabs, stack) + x.l < |p|
    ensures var w := Depth(x, tabs, stack) + x.l;
            Start(x.g, p[..w]) == Start(x.g, p) && Lsb(p[..w]) == Lsb(p)
  {
    if stack == [] {
      ZeroCode(x.g, p);
    }
    ZeroTail(x.g, p, Depth(x, tabs, stack) + x.l);
  }

  lemma ZeroTail(g: nat, p: Bits, w: nat)
    requires w <= |p| <= g && forall j :: w <= j < |p| ==> !p[j]
    ensures Start(g, p[..w]) == Start(g, p) && Lsb(p[..w]) == Lsb(p)
  {
    var z := p[w..];
    Nested(g, p[..w], p);
    assert p == p[..w] + z;
    assert forall j :: 0 <= j < |z| ==> z[j] == p[w + j];
    LsbZeros(z);
    LsbConcat(p[..w], z);
    ScaleUnit(w);
  }

  lemma ZeroCode(g: nat, p: Bits)
    requires |p| <= g && Start(g, p) == 0
    ensures forall j :: 0 <= j < |p| ==> !p[j]
  {
    ScaleLess(0, Msb(p), g - |p|);
    ScaleUnit(g - |p|);
    MsbZero(p);
  }

  lemma {:induction false} MsbZero(p: Bits)
    requires Msb(p) == 0
    ensures forall j :: 0 <= j < |p| ==> !p[j]
  {
    if p != [] {
      MsbZero(p[..|p| - 1]);
      assert forall j :: 0 <= j < |p| - 1 ==> p[j] == p[..|p| - 1][j];
    }
  }

  lemma LinkPlace(x: Ctx, mem: seq<seq<Huft>>, tabs: seq<Tab>, stack: seq<nat>, p: Bits)
    requires x.Valid() && |p| <= x.g && TabsOk(x, mem, tabs) && stack != []
    requires LevelOk(x, tabs, stack, p, |stack| - 1) && NextIsZero(x, tabs, stack, p)
    requires Depth(x, tabs, stack) + x.l < |p| && Space(x.cs, x.g, |p| - 1) <= Start(x.g, p)
    ensures 0 <= Depth(x, tabs, stack)
    ensures LinkAt(x, mem, tabs, stack[|stack| - 1], p, Shr(Lsb(p), Depth(x, tabs, stack)))
  {
    var t := stack[|stack| - 1];
    var v := |tabs[t].prefix|;
    assert Depth(x, tabs, stack) == v;
    LongEnough(x, tabs, stack, p, |stack| - 1);
    TabSize(x, mem, tabs, t);
    LinkIndex(p, v, x.l, tabs[t].width);
  }

  lemma TabSize(x: Ctx, mem: seq<seq<Huft>>, tabs: seq<Tab>, t: nat)
    requires x.Valid() && TabsOk(x, mem, tabs) && t < |tabs|
    ensures |mem| == |tabs| && |mem[t]| == |tabs[t].info| >= Pow2(tabs[t].width)
    ensures 0 < tabs[t].width <= BMAX + 1
  {
    assert TabOk(x, mem, tabs, t);
  }

  /** What the body of the loop needs: where the new table starts, and where its link goes. */
  ghost predicate Ready(x: Ctx, mem: seq<seq<Huft>>, tabs: seq<Tab>, stack: seq<nat>, p: Bits)
    requires |p| <= x.g
  {
    var l := x.l;
    && 0 <= Depth(x, tabs, stack) + l < |p|
    && Start(x.g, p[..Depth(x, tabs, stack) + l]) == Start(x.g, p)
    && Lsb(p[..Depth(x, tabs, stack) + l]) == Lsb(p)
    && (stack != [] ==>
          && stack[|stack| - 1] < |tabs| && Depth(x, tabs, stack) >= 0
          && LinkAt(x, mem, tabs, stack[|stack| - 1], p, Shr(Lsb(p), Depth(x, tabs, stack))))
  }

  lemma Before(x: Ctx, mem: seq<seq<Huft>>, tabs: seq<Tab>, stack: seq<nat>, p: Bits)
    requires |p| <= x.g && Building(x, mem, tabs, stack, p, Start(x.g, p))
    requires Depth(x, tabs, stack) + x.l < |p| && Space(x.cs, x.g, |p| - 1) <= Start(x.g, p)
    ensures Ready(x, mem, tabs, stack, p)
  {
    if stack != [] {
      assert LevelOk(x, tabs, stack, p, |stack| - 1);
      LinkPlace(x, mem, tabs, stack, p);
    }
    NextPrefix(x, tabs, stack, p);
  }

  /** What the body of the loop makes of the state. */
  lemma After(x: Ctx, mem: seq<seq<Huft>>, tabs: seq<Tab>, stack: seq<nat>, p: Bits,
              j: nat, table: seq<Huft>, u: seq<nat>, xs: seq<nat>) returns (tabs': seq<Tab>)
    requires |p| <= x.g && Building(x, mem, tabs, stack, p, Start(x.g, p)) && Ready(x, mem, tabs, stack, p)
    requires x.Shape() && GoodBits(x, p, Depth(x, tabs, stack) + x.l, j)
    requires |table| == Pow2(j) && Arrays(tabs, stack, u, xs)
    ensures |tabs'| == |tabs| + 1
    ensures var mem' := if stack == [] then mem + [table]
                        else Linked(mem, table, stack[|stack| - 1],
                                    Shr(Lsb(p), Depth(x, tabs, stack)), 16 + j, x.l);
            Building(x, mem', tabs', stack + [|tabs|], p, Start(x.g, p))
    ensures Arrays(tabs', stack + [|tabs|], u[|stack| := |tabs|],
                   if stack != [] then xs[|stack| := Lsb(p)] else xs)
    ensures Depth(x, tabs', stack + [|tabs|]) == Depth(x, tabs, stack) + x.l
  {
    ghost var mem';
    var d := if stack != [] then Shr(Lsb(p), Depth(x, tabs, stack)) else 0;
    mem', tabs' := NewLevel(x, mem, tabs, stack, p, j, table, d);
    Pushed(tabs, tabs', stack, u, xs, u[|stack| := |tabs|],
           if stack != [] then xs[|stack| := Lsb(p)] else xs);
  }

  lemma Pushed(tabs: seq<Tab>, tabs': seq<Tab>, stack: seq<nat>, u: seq<nat>, xs: seq<nat>,
               u': seq<nat>, xs': seq<nat>)
    requires Arrays(tabs, stack, u, xs) && |stack| < BMAX
    requires Extends(tabs, tabs') && |tabs'| == |tabs| + 1 && |stack| <= |tabs'[|tabs|].prefix|
    requires u' == u[|stack| := |tabs|]
    requires xs' == if stack != [] then xs[|stack| := Lsb(tabs'[|tabs|].prefix)] else xs
    requires stack == [] ==> Lsb(tabs'[|tabs|].prefix) == 0
    ensures Arrays(tabs', stack + [|tabs|], u', xs')
  {
  }

  // ------------------------------------------------------------------------- one code

  /** Code number `done` of length `k` belongs to a symbol when there are that many. */
  lemma SymbolMatches(x: Ctx, s: nat, k: nat, done: nat, p: Bits)
    requires x.Valid() && 1 <= k == |p| <= x.g && Start(x.g, p) == PosAt(x, k, done)
    requires s < |x.c.b| && x.c.b[s] == k && CountBelow(x.c.b, k, s) == done
    ensures Matches(x.c.b, s, p)
  {
    var b := x.c.b;
    SpaceLocal(x.cs, Counts(b), x.g, k - 1);
    FirstCodeSpace(b, x.g, k);
    ScaleAdd(FirstCode(b, k), done, x.g - k);
    SameScale(Msb(p), FirstCode(b, k) + done, x.g - k);
    assert p[..k] == p;
  }

  lemma SameScale(m: nat, n: nat, e: nat)
    requires Scale(m, e) == Scale(n, e)
    ensures m == n
  {
    ScaleLess(m, n, e);
    ScaleLess(n, m, e);
  }

  /** A code past those of the longest symbols is a dummy; where it is made from unset memory the
      set is incomplete and some symbol has no code. */
  lemma DummyCode(x: Ctx, k: nat, done: nat, p: Bits)
    requires x.Valid() && 1 <= k == |p| <= x.g && Start(x.g, p) == PosAt(x, k, done)
    requires CountBelow(x.c.b, k, |x.c.b|) <= done < x.cs[k]
    ensures k == x.g && x.Real() <= Start(x.g, p)
    ensures Offset(x.c.b, k) + done < |x.c.b| ==> !x.c.Usable()
  {
    var b := x.c.b;
    assert k == x.g;
    SpaceLocal(x.cs, Counts(b), x.g, k - 1);
    KraftAtLongest(b, x.g);
    if Offset(b, k) + done < |b| {
      OffsetSum(b, k);
      SumBelowBound(b, k, |b|);
      LengthsBounded(b, x.g);
    }
  }

  lemma LengthsBounded(b: seq<nat>, g: nat)
    requires LengthsOk(b) && g == Longest(Counts(b), BMAX)
    ensures forall s :: 0 <= s < |b| ==> b[s] <= g
  {
    forall s | 0 <= s < |b| ensures b[s] <= g {
      CountsSplit(b, b[s], s, |b|);
      assert Counts(b)[b[s]] > 0;
    }
  }

  /** The value pointer: it stops at the end of the symbols. */
  function Pointer(b: seq<nat>, n: nat): nat { if n < |b| then n else |b| }

  /** Set up the table entry of the code (lines 331-341). */
  method EntryFor(ghost x: Ctx, c: Coding, v: seq<nat>, k: nat, w: nat, ptr: nat, ghost done: nat, ghost p: Bits)
    returns (r: Huft, ptr': nat, ghost info: Info)
    requires x.Valid() && x.c == c && |v| == 288 && Sorted(c.b, v, x.g)
    requires 1 <= k == |p| <= x.g && Start(x.g, p) == PosAt(x, k, done) && done < x.cs[k] && w < k
    requires ptr == Pointer(c.b, Offset(c.b, k) + done)
    ensures CodeEntry(x, p, w, r, info)
    ensures ptr' == Pointer(c.b, Offset(c.b, k) + done + 1)
  {
    ptr' := ptr;
    ghost var used := done < CountBelow(c.b, k, |c.b|);
    if used {
      OffsetSum(c.b, k);
      assert SortedAt(c.b, v, k, done);
      SymbolMatches(x, v[ptr], k, done, p);
      info := Code(v[ptr]);
    } else {
      DummyCode(x, k, done, p);
      info := if ptr >= |c.b| then Dummy else Junk;
    }
    var e: nat, val: nat;
    if ptr >= |c.b| {
      e, val := INVALID, *;
    } else if v[ptr] < c.s {
      e, val := if v[ptr] < 256 then LITERAL else END_OF_BLOCK, v[ptr];
      ptr' := ptr + 1;
    } else {
      // beyond the lists only for a dummy code made from unset memory
      if v[ptr] - c.s < |c.e| && v[ptr] - c.s < |c.d| {
        e, val := c.e[v[ptr] - c.s], c.d[v[ptr] - c.s];
      } else {
        e, val := *, *;
      }
      ptr' := ptr + 1;
    }
    r := Huft(e, k - w, Number(val));
  }

  /** The last table can take code `p`. */
  lemma TopTable(x: Ctx, mem: seq<seq<Huft>>, tabs: seq<Tab>, stack: seq<nat>, p: Bits)
    requires |p| <= x.g && Building(x, mem, tabs, stack, p, Start(x.g, p)) && stack != []
    requires 0 <= Depth(x, tabs, stack) < |p| <= Depth(x, tabs, stack) + x.l
    requires Space(x.cs, x.g, |p| - 1) <= Start(x.g, p)
    ensures x.Valid() && TabsOk(x, mem, tabs) && StackOk(x, tabs, stack, p)
    ensures Finished(x, tabs, stack, Start(x.g, p)) && Covered(x, mem, tabs, Start(x.g, p))
    ensures var t := stack[|stack| - 1];
            && t < |mem| == |tabs| && |mem[t]| == |tabs[t].info|
            && Depth(x, tabs, stack) == |tabs[t].prefix|
            && tabs[t].prefix < p && |p| <= |tabs[t].prefix| + tabs[t].width
  {
    hide Covered, Finished, InScope, NextIsZero, Space, Start, End, Pow2;
    assert LevelOk(x, tabs, stack, p, |stack| - 1);
    hide TabsOk, StackOk;
    LongEnough(x, tabs, stack, p, |stack| - 1);
    TabSize(x, mem, tabs, stack[|stack| - 1]);
  }

  /** The tables once code `p` has been entered in the last of them. */
  lemma Enter(x: Ctx, mem: seq<seq<Huft>>, tabs: seq<Tab>, stack: seq<nat>, p: Bits,
              table: seq<Huft>, r: Huft, info: Info) returns (tabs': seq<Tab>)
    requires |p| <= x.g && Building(x, mem, tabs, stack, p, Start(x.g, p)) && stack != []
    requires 0 <= Depth(x, tabs, stack) < |p| <= Depth(x, tabs, stack) + x.l
    requires Space(x.cs, x.g, |p| - 1) <= Start(x.g, p)
    requires CodeEntry(x, p, Depth(x, tabs, stack), r, info) && stack[|stack| - 1] < |mem|
    requires Filled(mem[stack[|stack| - 1]], table, Lsb(p[Depth(x, tabs, stack)..]),
                    |p| - Depth(x, tabs, stack), r)
    ensures Extends(tabs, tabs') && |tabs'| == |tabs|
    ensures forall u :: 0 <= u < |tabs| && u != stack[|stack| - 1] ==> tabs'[u] == tabs[u]
    ensures var mem' := mem[stack[|stack| - 1] := table];
            TabsOk(x, mem', tabs') && Covered(x, mem', tabs', End(x.g, p))
  {
    assert info != Unset;
    hide Building, TabsOk, StackOk, Finished, Covered, CodeEntry, Depth, Space, Start, End, Filled, Lsb, Sized;
    TopTable(x, mem, tabs, stack, p);
    tabs' := EnterTop(x, mem, tabs, stack, p, table, r, info, stack[|stack| - 1], |tabs[stack[|stack| - 1]].prefix|);
  }

  /** Code `p` is entered in table `t`, whose prefix has `w` bits. */
  lemma EnterTop(x: Ctx, mem: seq<seq<Huft>>, tabs: seq<Tab>, stack: seq<nat>, p: Bits,
                 table: seq<Huft>, r: Huft, info: Info, t: nat, w: nat) returns (tabs': seq<Tab>)
    requires x.Valid() && TabsOk(x, mem, tabs) && StackOk(x, tabs, stack, p) && |p| <= x.g && info != Unset
    requires Finished(x, tabs, stack, Start(x.g, p)) && Covered(x, mem, tabs, Start(x.g, p))
    requires stack != [] && t == stack[|stack| - 1] && t < |mem| == |tabs| && |mem[t]| == |tabs[t].info|
    requires w == |tabs[t].prefix| && tabs[t].prefix < p && |p| <= w + tabs[t].width
    requires CodeEntry(x, p, w, r, info) && Filled(mem[t], table, Lsb(p[w..]), |p| - w, r)
    ensures Extends(tabs, tabs') && |tabs'| == |tabs|
    ensures forall u :: 0 <= u < |tabs| && u != t ==> tabs'[u] == tabs[u]
    ensures TabsOk(x, mem[t := table], tabs') && Covered(x, mem[t := table], tabs', End(x.g, p))
  {
    hide TabsOk, StackOk, Finished, Covered, CodeEntry, Space, Start, End, Lsb;
    var info' := InfoFilled(tabs[t].info, Lsb(p[w..]), |p| - w, info);
    tabs' := tabs[t := tabs[t].(info := info')];
    hide Filled;
    FillTabs(x, mem, tabs, mem[t := table], tabs', t, p, r, info);
    FillCovers(x, mem, tabs, mem[t := table], tabs', stack, p, r, info);
  }

  lemma InfoFilled(old': seq<Info>, first: nat, m: nat, info: Info) returns (new': seq<Info>)
    ensures Filled(old', new', first, m, info) && |new'| == |old'|
  {
    new' := seq(|old'|, j requires 0 <= j < |old'| => if Low(j, m) == first then info else old'[j]);
  }

  // ---------------------------------------------------------------------------- back up

  /** Comparing patterns tells whether a table serves the next code; the root always does. */
  lemma SamePattern(x: Ctx, tabs: seq<Tab>, stack: seq<nat>, p: Bits, next: Bits, h: nat)
    requires x.Shape() && h < |stack| && LevelOk(x, tabs, stack, p, h) && |next| == |p|
    ensures var T := tabs[stack[h]]; Low(Lsb(next), |T.prefix|) == Lsb(T.prefix) <==> T.prefix <= next
    ensures h == 0 ==> tabs[stack[h]].prefix <= next
  {
    SameBits(tabs[stack[h]].prefix, next);
  }

  lemma SameBits(n: Bits, next: Bits)
    requires |n| <= |next|
    ensures Low(Lsb(next), |n|) == Lsb(n) <==> n <= next
  {
    LsbSplit(next, |n|);
    if Lsb(next[..|n|]) == Lsb(n) {
      LsbInjective(next[..|n|], n);
    }
    if n <= next {
      assert next[..|n|] == n;
    }
  }

  /** Levels above `h` do not serve the code after `p`, so their tables are finished, and the bits of
      that code after the first such prefix are zero. */
  ghost predicate Done(x: Ctx, tabs: seq<Tab>, stack: seq<nat>, p: Bits, next: Bits, h: nat)
    requires x.Shape() && |p| == |next| <= x.g
  {
    && (forall q :: h < q < |stack| ==>
          && stack[q] < |tabs| && |tabs[stack[q]].prefix| <= x.g
          && End(x.g, tabs[stack[q]].prefix) <= End(x.g, p))
    && (h + 1 < |stack| ==> forall j :: |tabs[stack[h + 1]].prefix| <= j < |p| ==> !next[j])
  }

  lemma LevelsDone(x: Ctx, tabs: seq<Tab>, stack: seq<nat>, p: Bits, h: nat)
    requires x.Shape() && |p| <= x.g && StackOk(x, tabs, stack, p)
    requires forall q :: h < q < |stack| ==> stack[q] < |tabs| && !(tabs[stack[q]].prefix <= Succ(p))
    ensures Done(x, tabs, stack, p, Succ(p), h)
  {
    forall q | h < q < |stack| ensures |tabs[stack[q]].prefix| <= x.g
      && End(x.g, tabs[stack[q]].prefix) <= End(x.g, p)
    {
      assert LevelOk(x, tabs, stack, p, q);
      LeftBehind(x.g, tabs[stack[q]].prefix, p);
    }
    if h + 1 < |stack| {
      assert LevelOk(x, tabs, stack, p, h + 1);
      TailAfter(tabs[stack[h + 1]].prefix, p);
    }
  }

  lemma TailAfter(n: Bits, p: Bits)
    requires n <= p && !(n <= Succ(p))
    ensures forall j :: |n| <= j < |p| ==> !Succ(p)[j]
  {
    assert p[..|n|] == n;
    assert Succ(p)[..|n|] != n;
    forall j | |n| <= j < |p| ensures !Succ(p)[j] {
      SuccTail(p, |n|, j);
    }
  }

  /** The state for the next code, once the tables that do not serve it are off the stack. */
  lemma Advance(x: Ctx, mem: seq<seq<Huft>>, tabs: seq<Tab>, stack: seq<nat>, p: Bits, next: Bits, h: nat)
    requires Entered(x, mem, tabs, stack, p) && |next| == |p| <= x.g && h < |stack|
    requires End(x.g, p) == Start(x.g, next) || End(x.g, p) == Pow2(x.g)
    requires stack[h] < |tabs| && tabs[stack[h]].prefix <= next && Done(x, tabs, stack, p, next, h)
    ensures Building(x, mem, tabs, stack[..h + 1], next, End(x.g, p))
  {
    AdvanceStack(x, tabs, stack, p, next, h);
    AdvanceFinished(x, tabs, stack, p, next, h);
    TopDepth(x, tabs, stack, p);
    AdvanceTail(x, tabs, stack, p, next, h);
  }

  lemma TopDepth(x: Ctx, tabs: seq<Tab>, stack: seq<nat>, p: Bits)
    requires x.Shape() && StackOk(x, tabs, stack, p) && stack != []
    ensures stack[|stack| - 1] < |tabs|
    ensures Depth(x, tabs, stack) == |tabs[stack[|stack| - 1]].prefix| < |p|
  {
    assert LevelOk(x, tabs, stack, p, |stack| - 1);
  }

  lemma AdvanceStack(x: Ctx, tabs: seq<Tab>, stack: seq<nat>, p: Bits, next: Bits, h: nat)
    requires x.Shape() && h < |stack| && StackOk(x, tabs, stack, p) && stack[h] < |tabs|
    requires |next| == |p| && tabs[stack[h]].prefix <= next
    ensures StackOk(x, tabs, stack[..h + 1], next)
  {
    var kept := stack[..h + 1];
    forall q | 0 <= q < |kept| ensures LevelOk(x, tabs, kept, next, q) {
      LevelsGrow(x, tabs, stack, p, q, h);
      assert LevelOk(x, tabs, stack, p, q);
      if q < h {
        LevelsGrow(x, tabs, stack, p, q + 1, h);
        AdvanceLevel(x, tabs, stack, p, next, q);
      }
      KeptLevel(x, tabs, stack, p, next, h, q);
    }
  }

  /** What the last level kept leads to no longer matters. */
  lemma KeptLevel(x: Ctx, tabs: seq<Tab>, stack: seq<nat>, p: Bits, next: Bits, h: nat, q: nat)
    requires x.Shape() && q <= h < |stack|
    requires q < h ==> LevelOk(x, tabs, stack, next, q)
    requires q == h ==> LevelOk(x, tabs, stack, p, q) && |p| == |next| && tabs[stack[q]].prefix <= next
    ensures LevelOk(x, tabs, stack[..h + 1], next, q)
  {
    var kept := stack[..h + 1];
    assert kept[q] == stack[q];
    if q < h {
      assert kept[q + 1] == stack[q + 1];
    }
  }

  lemma {:induction false} LevelsGrow(x: Ctx, tabs: seq<Tab>, stack: seq<nat>, p: Bits, q: nat, h: nat)
    requires x.Shape() && q <= h < |stack| && StackOk(x, tabs, stack, p)
    ensures LevelOk(x, tabs, stack, p, q) && stack[q] < |tabs| && stack[h] < |tabs|
    ensures tabs[stack[q]].prefix <= tabs[stack[h]].prefix
    decreases h
  {
    assert LevelOk(x, tabs, stack, p, h);
    if q < h {
      LevelsGrow(x, tabs, stack, p, q, h - 1);
      assert LevelOk(x, tabs, stack, p, h - 1);
    }
  }

  lemma AdvanceFinished(x: Ctx, tabs: seq<Tab>, stack: seq<nat>, p: Bits, next: Bits, h: nat)
    requires x.Shape() && |p| == |next| <= x.g && h < |stack|
    requires Finished(x, tabs, stack, Start(x.g, p)) && Done(x, tabs, stack, p, next, h)
    ensures Finished(x, tabs, stack[..h + 1], End(x.g, p))
  {
    EndBound(x.g, p);
    var kept := stack[..h + 1];
    forall t | 0 <= t < |tabs| ensures t in kept || End(x.g, tabs[t].prefix) <= End(x.g, p) {
      if t in stack {
        var q :| 0 <= q < |stack| && stack[q] == t;
        if q <= h {
          assert kept[q] == t;
        }
      }
    }
  }

  lemma AdvanceTail(x: Ctx, tabs: seq<Tab>, stack: seq<nat>, p: Bits, next: Bits, h: nat)
    requires x.Shape() && |p| == |next| <= x.g && h < |stack| && StackOk(x, tabs, stack, p)
    requires h == |stack| - 1 ==> stack[h] < |tabs| && |p| <= |tabs[stack[h]].prefix| + x.l
    requires Done(x, tabs, stack, p, next, h)
    ensures NextIsZero(x, tabs, stack[..h + 1], next)
  {
    var kept := stack[..h + 1];
    assert kept[|kept| - 1] == stack[h];
    assert LevelOk(x, tabs, stack, p, h);
  }

  /** The state when the codes of one length are done. */
  lemma Lengthen(x: Ctx, mem: seq<seq<Huft>>, tabs: seq<Tab>, stack: seq<nat>, p: Bits, pos: nat)
    requires Building(x, mem, tabs, stack, p, pos) && |p| < x.g
    ensures Building(x, mem, tabs, stack, p + [false], pos)
  {
    var p' := p + [false];
    Nested(x.g, p, p');
    forall q | 0 <= q < |stack| ensures LevelOk(x, tabs, stack, p', q) {
      assert LevelOk(x, tabs, stack, p, q);
      if q + 1 < |stack| {
        assert LevelOk(x, tabs, stack, p, q + 1);
      }
      AdvanceLevel(x, tabs, stack, p, p', q);
    }
  }

  // --------------------------------------------------------------------- the whole build

  /** Set up the entry of a code and fill it in (lines 331-346). */
  method EntryTable(ghost x: Ctx, c: Coding, v: seq<nat>, k: nat, w: nat, i: nat, ptr: nat, tab: seq<Huft>,
                    ghost done: nat, ghost p: Bits)
    returns (table: seq<Huft>, ptr': nat, ghost r: Huft, ghost info: Info)
    requires x.Valid() && x.c == c && |v| == 288 && Sorted(c.b, v, x.g)
    requires 1 <= k == |p| <= x.g && Start(x.g, p) == PosAt(x, k, done) && done < x.cs[k] && w < k
    requires ptr == Pointer(c.b, Offset(c.b, k) + done) && i == Lsb(p)
    ensures CodeEntry(x, p, w, r, info) && Filled(tab, table, Lsb(p[w..]), k - w, r)
    ensures ptr' == Pointer(c.b, Offset(c.b, k) + done + 1)
  {
    var e;
    e, ptr', info := EntryFor(x, c, v, k, w, ptr, done, p);
    r := e;
    LsbSplit(p, w);
    LsbBound(p[w..]);
    table := FillEntries(tab, Shr(i, w), k - w, e);
  }

  /** The state once code `p` is in the tables, before the next code is known. */
  ghost predicate Entered(x: Ctx, mem: seq<seq<Huft>>, tabs: seq<Tab>, stack: seq<nat>, p: Bits) {
    && x.Valid() && 1 <= |p| <= x.g
    && TabsOk(x, mem, tabs) && Covered(x, mem, tabs, End(x.g, p))
    && StackOk(x, tabs, stack, p) && Finished(x, tabs, stack, Start(x.g, p))
    && stack != [] && stack[0] == 0 && 0 < |tabs| && tabs[0].prefix == [] && tabs[0].width == x.l
    && (InScope(x.cs, x.g, x.l) ==> forall t :: 0 <= t < |tabs| ==> tabs[t].width <= x.l)
    && AllSized(x, tabs) && |p| <= Depth(x, tabs, stack) + x.l
  }

  lemma AfterFill(x: Ctx, mem: seq<seq<Huft>>, tabs: seq<Tab>, stack: seq<nat>, p: Bits,
                  table: seq<Huft>, r: Huft, info: Info, u: seq<nat>, xs: seq<nat>) returns (tabs': seq<Tab>)
    requires |p| <= x.g && Building(x, mem, tabs, stack, p, Start(x.g, p)) && stack != []
    requires 0 <= Depth(x, tabs, stack) < |p| <= Depth(x, tabs, stack) + x.l
    requires Space(x.cs, x.g, |p| - 1) <= Start(x.g, p)
    requires CodeEntry(x, p, Depth(x, tabs, stack), r, info) && stack[|stack| - 1] < |mem|
    requires Filled(mem[stack[|stack| - 1]], table, Lsb(p[Depth(x, tabs, stack)..]),
                    |p| - Depth(x, tabs, stack), r)
    requires Arrays(tabs, stack, u, xs)
    ensures Entered(x, mem[stack[|stack| - 1] := table], tabs', stack, p)
    ensures Arrays(tabs', stack, u, xs) && Depth(x, tabs', stack) == Depth(x, tabs, stack)
  {
    hide TabsOk, Covered, StackOk, NextIsZero, Filled, CodeEntry, InScope, Sized, Start, End, Space;
    tabs' := Enter(x, mem, tabs, stack, p, table, r, info);
    SizedStill(x, tabs, tabs');
    hide AllSized;
    EnterKeeps(x, tabs, tabs', stack, p, u, xs);
  }

  lemma ArraysKept(tabs: seq<Tab>, stack: seq<nat>, u: seq<nat>, xs: seq<nat>, h: nat)
    requires Arrays(tabs, stack, u, xs) && h < |stack|
    ensures Arrays(tabs, stack[..h + 1], u, xs)
  {
  }

  lemma TopFacts(x: Ctx, mem: seq<seq<Huft>>, tabs: seq<Tab>, stack: seq<nat>, p: Bits)
    requires |p| <= x.g && Building(x, mem, tabs, stack, p, Start(x.g, p))
    requires 0 < |p| <= Depth(x, tabs, stack) + x.l
    ensures stack != [] && stack[|stack| - 1] < |mem| == |tabs| && 0 <= Depth(x, tabs, stack) < |p|
  {
    assert LevelOk(x, tabs, stack, p, |stack| - 1);
  }

  /** Filling the last table changes nothing that the levels below it depend on. */
  lemma EnterKeeps(x: Ctx, tabs: seq<Tab>, tabs': seq<Tab>, stack: seq<nat>, p: Bits, u: seq<nat>, xs: seq<nat>)
    requires x.Shape() && StackOk(x, tabs, stack, p) && Arrays(tabs, stack, u, xs) && stack != []
    requires Extends(tabs, tabs') && |tabs'| == |tabs|
    requires forall m :: 0 <= m < |tabs| && m != stack[|stack| - 1] ==> tabs'[m] == tabs[m]
    ensures StackOk(x, tabs', stack, p) && Arrays(tabs', stack, u, xs)
    ensures Depth(x, tabs', stack) == Depth(x, tabs, stack)
  {
    hide Space, Start, End, Lsb;
    forall q | 0 <= q < |stack| ensures LevelOk(x, tabs', stack, p, q) {
      assert LevelOk(x, tabs, stack, p, q);
      if q + 1 < |stack| {
        assert LevelOk(x, tabs, stack, p, q + 1);
        LevelsGrow(x, tabs, stack, p, q + 1, |stack| - 1);
      }
    }
  }

  lemma NextPos(x: Ctx, k: nat, a: nat, p: Bits)
    requires x.Shape() && 1 <= k == |p| <= x.g && a < x.cs[k]
    requires Start(x.g, p) == PosAt(x, k, x.cs[k] - (a + 1))
    ensures End(x.g, p) == PosAt(x, k, x.cs[k] - a)
  {
    EndBound(x.g, p);
    ScaleAdd(x.cs[k] - (a + 1), 1, x.g - k);
    ScaleUnit(x.g - k);
  }

  /** The state between codes: `a` codes of length `k` are still to come. */
  ghost predicate Between(x: Ctx, mem: seq<seq<Huft>>, tabs: seq<Tab>, stack: seq<nat>, p: Bits, k: nat, a: nat) {
    && x.Valid() && 1 <= k == |p| <= x.g && a <= x.cs[k]
    && Building(x, mem, tabs, stack, p, PosAt(x, k, x.cs[k] - a))
  }

  /** While codes are to come the code space is not used up, so the position is that of the code. */
  lemma MoreToCome(x: Ctx, mem: seq<seq<Huft>>, tabs: seq<Tab>, stack: seq<nat>, p: Bits, k: nat, a: nat)
    requires Between(x, mem, tabs, stack, p, k, a) && a > 0
    ensures Start(x.g, p) == PosAt(x, k, x.cs[k] - a)
  {
    SpaceMonotone(x.cs, x.g, k, x.g);
    ScaleLess(x.cs[k] - a, x.cs[k], x.g - k);
  }

  lemma NextLength(x: Ctx, mem: seq<seq<Huft>>, tabs: seq<Tab>, stack: seq<nat>, p: Bits, k: nat)
    requires Between(x, mem, tabs, stack, p, k, 0) && k < x.g
    ensures Between(x, mem, tabs, stack, p + [false], k + 1, x.cs[k + 1])
    ensures Lsb(p + [false]) == Lsb(p)
    ensures Offset(x.c.b, k + 1) == Offset(x.c.b, k) + x.cs[k]
  {
    SamePos(x, k);
    Lengthen(x, mem, tabs, stack, p, PosAt(x, k, x.cs[k]));
    LsbOneMore(p);
    assert x.cs[k] == Counts(x.c.b)[k];
  }

  lemma SamePos(x: Ctx, k: nat)
    requires x.Shape() && 1 <= k < x.g
    ensures PosAt(x, k, x.cs[k]) == PosAt(x, k + 1, 0)
  {
    ScaleUnit(x.g - (k + 1));
  }

  lemma LsbOneMore(p: Bits)
    ensures Lsb(p + [false]) == Lsb(p)
  {
    LsbConcat(p, [false]);
    ScaleUnit(|p|);
    assert Lsb([false]) == 0 by { assert [false][1..] == []; }
  }

  lemma Initial(x: Ctx, first: nat)
    requires x.Valid() && 1 <= first <= x.g && forall k :: 0 < k < first ==> x.cs[k] == 0
    ensures Between(x, [], [], [], Zeros(first), first, x.cs[first])
    ensures Lsb(Zeros(first)) == 0
  {
    LsbZeros(Zeros(first));
    InitialPos(x, first);
    hide Space, Lsb, InScope, Pow2, Counts, Longest;
  }

  lemma InitialOffset(x: Ctx, first: nat)
    requires x.Valid() && 1 <= first <= x.g && forall k :: 0 < k < first ==> x.cs[k] == 0
    ensures Offset(x.c.b, first) == 0
  {
    forall m | 0 < m < first ensures CountBelow(x.c.b, m, |x.c.b|) == 0 {
      assert x.cs[m] == Counts(x.c.b)[m];
    }
    OffsetZero(x.c.b, first);
  }

  lemma InitialPos(x: Ctx, first: nat)
    requires x.Shape() && 1 <= first <= x.g && forall k :: 0 < k < first ==> x.cs[k] == 0
    ensures PosAt(x, first, 0) == 0 && Scale(0, x.g - first) == 0
  {
    ScaleUnit(x.g - first);
    SpaceZero(x.cs, x.g, first - 1);
  }

  lemma {:induction false} OffsetZero(b: seq<nat>, k: nat)
    requires forall m :: 0 < m < k ==> CountBelow(b, m, |b|) == 0
    ensures Offset(b, k) == 0
  {
    if k > 1 {
      OffsetZero(b, k - 1);
    }
  }

  /** Every entry of every table is set. */
  ghost predicate Built(x: Ctx, mem: seq<seq<Huft>>, tabs: seq<Tab>) {
    && x.Valid() && TabsOk(x, mem, tabs) && Covered(x, mem, tabs, Pow2(x.g))
    && 0 < |tabs| && tabs[0].prefix == [] && tabs[0].width == x.l && AllSized(x, tabs)
    && (InScope(x.cs, x.g, x.l) ==> forall t :: 0 <= t < |tabs| ==> tabs[t].width <= x.l)
  }

  lemma AllUsed(x: Ctx, mem: seq<seq<Huft>>, tabs: seq<Tab>, stack: seq<nat>, p: Bits)
    requires x.Valid() && Between(x, mem, tabs, stack, p, x.g, 0)
    ensures Built(x, mem, tabs)
  {
    assert PosAt(x, x.g, x.cs[x.g]) == Pow2(x.g);
  }

  // ------------------------------------------------------------------------- huft_build

  predicate NoCodes(b: seq<nat>) { forall s :: 0 <= s < |b| ==> b[s] == 0 }

  /** Table sizes for which the tables decode every stream: fewer codes, dummies included, than a
      table of `m` bits has entries, or no code longer than two tables. */
  ghost predicate FewCodes(b: seq<nat>, m: nat) {
    var g := MaxLength(b);
    Total(Counts(b), g) + Pow2(g) - Space(Counts(b), g, g) < Pow2(m) || g <= 2 * m
  }

  lemma {:induction false} AllZero(b: seq<nat>, i: nat)
    requires i <= |b|
    ensures CountBelow(b, 0, i) <= i
    ensures CountBelow(b, 0, i) == i <==> forall s :: 0 <= s < i ==> b[s] == 0
  {
    if i > 0 {
      AllZero(b, i - 1);
    }
  }

  lemma SomeCode(b: seq<nat>)
    requires LengthsOk(b) && !NoCodes(b)
    ensures MaxLength(b) > 0
  {
    var s :| 0 <= s < |b| && b[s] != 0;
    LengthsBounded(b, MaxLength(b));
  }

  /** The bits per table: `m`, brought between the shortest and the longest length (lines 235-249). */
  method TableWidth(c: array<nat>, m: nat) returns (first: nat, g: nat, l: nat)
    requires c.Length == BMAX + 1 && exists k :: 0 < k <= BMAX && c[k] > 0
    ensures g == Longest(c[..], BMAX) && 1 <= first <= g && c[first] > 0
    ensures forall k :: 0 < k < first ==> c[k] == 0
    ensures l == if m < first then first else if m > g then g else m
  {
    l := m;
    first := 1;
    while first <= BMAX && c[first] == 0
      invariant 1 <= first <= BMAX + 1 && forall k :: 0 < k < first ==> c[k] == 0
    {
      first := first + 1;
    }
    if l < first {
      l := first;
    }
    g := BMAX;
    while g > 0 && c[g] == 0
      invariant first <= g <= BMAX && Longest(c[..], BMAX) == Longest(c[..], g)
    {
      g := g - 1;
    }
    if l > g {
      l := g;
    }
  }

  lemma NoneLongest(b: seq<nat>)
    requires NoCodes(b)
    ensures MaxLength(b) == 0
  {
    if MaxLength(b) > 0 {
      var s := SomeSymbol(b, MaxLength(b), |b|);
    }
  }

  lemma {:induction false} SomeSymbol(b: seq<nat>, k: nat, i: nat) returns (s: nat)
    requires i <= |b| && CountBelow(b, k, i) > 0
    ensures s < i && b[s] == k
  {
    if b[i - 1] == k {
      s := i - 1;
    } else {
      s := SomeSymbol(b, k, i - 1);
    }
  }

  lemma ShortestIs(c: seq<nat>, first: nat)
    requires |c| == BMAX + 1 && 1 <= first <= BMAX && c[first] > 0 && forall k :: 0 < k < first ==> c[k] == 0
    ensures ShortestFrom(c, 1) == first
  {
  }

  /** The tables decode like the canonical code. */
  ghost predicate Decodes(mem: seq<seq<Huft>>, width: nat, cd: Coding)
    requires cd.Valid()
  {
    forall bits: Bits :: DecodesAt(mem, width, cd, bits)
  }

  ghost predicate DecodesAt(mem: seq<seq<Huft>>, width: nat, cd: Coding, bits: Bits)
    requires cd.Valid()
  {
    |bits| >= BMAX && cd.Decodable(bits) ==> Walk(mem, 0, width, bits) == Reference(cd, bits)
  }

  /** Only the first table is used. */
  ghost predicate OneLevel(mem: seq<seq<Huft>>, width: nat, cd: Coding)
    requires cd.Valid()
  {
    forall bits: Bits :: |bits| >= BMAX && cd.Decodable(bits) ==> IsLeaf(mem, width, bits)
  }

  ghost predicate IsLeaf(mem: seq<seq<Huft>>, width: nat, bits: Bits) {
    && width <= |bits| && mem != [] && Lsb(bits[..width]) < |mem[0]|
    && (mem[0][Lsb(bits[..width])].e <= 16 || mem[0][Lsb(bits[..width])].e == INVALID)
  }

  lemma AllStreams(x: Ctx, mem: seq<seq<Huft>>, tabs: seq<Tab>)
    requires Built(x, mem, tabs) && x.c.Valid() && x.g < |x.cs| && InScope(x.cs, x.g, x.l)
    ensures Decodes(mem, x.l, x.c) && Holding(mem, x.l, x.c)
    ensures x.l == x.g ==> OneLevel(mem, x.l, x.c)
  {
    forall bits: Bits ensures DecodesAt(mem, x.l, x.c, bits) {
      if |bits| >= BMAX && x.c.Decodable(bits) {
        WalkCorrect(x, mem, tabs, 0, bits);
        assert bits[0..] == bits;
      }
    }
    HoldingFrom(x, mem, tabs);
    if x.l == x.g {
      forall bits: Bits | |bits| >= BMAX && x.c.Decodable(bits)
        ensures IsLeaf(mem, x.l, bits)
      {
        RootLeaf(x, mem, tabs, bits);
      }
    }
  }

  /** When the first table takes the longest code, it has no links. */
  lemma RootLeaf(x: Ctx, mem: seq<seq<Huft>>, tabs: seq<Tab>, bits: Bits)
    requires Built(x, mem, tabs) && x.g < |x.cs| && InScope(x.cs, x.g, x.l) && x.l == x.g
    requires |bits| >= BMAX && x.c.Decodable(bits)
    ensures IsLeaf(mem, x.l, bits)
  {
    hide Covered, Start, End, Space, Pow2, InScope;
    var j := EntryReached(x, mem, tabs, 0, bits);
    assert bits[0..] == bits;
    match tabs[0].info[j]
    case Sub(_) =>
      var u := SubReached(x, mem, tabs, 0, bits, j);
    case Junk =>
      Uncoded(x, tabs[0].Path(j), bits);
      assert false;
    case Code(s) =>
    case _ =>
  }

  lemma {:induction false} TotalLocal(c: seq<nat>, c': seq<nat>, k: nat)
    requires k < |c| == |c'| && forall m :: 0 < m <= k ==> c[m] == c'[m]
    ensures Total(c, k) == Total(c', k)
  {
    if k > 0 {
      TotalLocal(c, c', k - 1);
    }
  }

  lemma ScopeOfFewCodes(x: Ctx, m: nat, y: nat)
    requires x.Shape() && x.g == MaxLength(x.c.b) && FewCodes(x.c.b, m)
    requires x.cs == Counts(x.c.b)[x.g := Counts(x.c.b)[x.g] + y]
    requires Space(Counts(x.c.b), x.g, x.g) + y == Pow2(x.g)
    requires x.l >= m || x.l == x.g
    ensures InScope(x.cs, x.g, x.l)
  {
    TotalLocal(x.cs, Counts(x.c.b), x.g - 1);
    if x.l >= m {
      Pow2Monotone(m, x.l);
    }
  }

  /** What huft_build returns: 2 for too many codes, 1 for too few unless there is just one bit. */
  ghost function BuildStatus(b: seq<nat>): nat {
    if NoCodes(b) then 0
    else if Oversubscribed(b) then 2
    else if !Complete(b) && MaxLength(b) != 1 then 1
    else 0
  }

  method HuftBuild(cd: Coding, m: nat) returns (status: nat, mem: seq<seq<Huft>>, bits: nat)
    requires cd.Valid()
    ensures status == BuildStatus(cd.b)
    ensures NoCodes(cd.b) ==> mem == [] && bits == 0
    ensures !NoCodes(cd.b) && status != 2 ==> 0 < bits <= BMAX
    ensures status != 2 ==> bits == RootWidth(cd.b, m)
    ensures !NoCodes(cd.b) && status != 2 && FewCodes(cd.b, m) ==> Decodes(mem, bits, cd) && Holding(mem, bits, cd)
    ensures !NoCodes(cd.b) && status != 2 && MaxLength(cd.b) <= m ==> OneLevel(mem, bits, cd)
  {
    hide Decodes, OneLevel, FewCodes, Sorted, Space, CountBelow, Longest, Holding, ShortestFrom, Pow2, Scale;
    var c := CountLengths(cd.b);
    AllZero(cd.b, |cd.b|);
    if c[0] == |cd.b| {
      NoneLongest(cd.b);
      return 0, [], 0;
    }
    SomeCode(cd.b);
    var first, g, l := TableWidth(c, m);
    ShortestIs(c[..], first);
    assert l == RootWidth(cd.b, m);
    KraftAtLongest(cd.b, g);
    LengthsBounded(cd.b, g);
    var y := FillOut(c, first, g);
    if y < 0 {
      return 2, [], 0;
    }
    assert forall k :: 1 <= k < g ==> c[k] == CountBelow(cd.b, k, |cd.b|);
    var xs := new nat[BMAX + 1];
    var v := SortSymbols(cd.b, c, xs, g);
    mem := TablesFor(cd, c[..], v[..], m, first, g, l, y);
    bits := l;
    status := if y != 0 && g != 1 then 1 else 0;
  }

  /** The tables, once the counts are filled out by `y` dummy codes (lines 275-359). */
  method TablesFor(cd: Coding, c: seq<nat>, v: seq<nat>, m: nat, first: nat, g: nat, l: nat, ghost y: nat)
    returns (mem: seq<seq<Huft>>)
    requires cd.Valid() && g == MaxLength(cd.b) && 1 <= first <= g && 0 < l <= g && (l >= m || l == g)
    requires c == Counts(cd.b)[g := Counts(cd.b)[g] + y] && Space(c, g, g) == Pow2(g)
    requires Space(Counts(cd.b), g, g) + y == Pow2(g)
    requires forall k :: 0 < k < first ==> c[k] == 0
    requires |v| == 288 && Sorted(cd.b, v, g)
    ensures FewCodes(cd.b, m) ==> Decodes(mem, l, cd) && Holding(mem, l, cd)
    ensures g <= m ==> OneLevel(mem, l, cd)
  {
    hide Built, Decodes, OneLevel, Sorted, Holding;
    ghost var x := Ctx(cd, g, l, c);
    ghost var tabs;
    mem, tabs := MakeTables(Given(cd, c, v, g, l), x, first);
    if FewCodes(cd.b, m) {
      ScopeOfFewCodes(x, m, y);
      AllStreams(x, mem, tabs);
    }
  }

  // --------------------------------------------------------------------- the table loops

  /** What the table loops read: the parameters and the results of the loops before. */
  datatype Given = Given(cd: Coding, c: seq<nat>, v: seq<nat>, g: nat, l: nat) {
    ghost predicate For(x: Ctx) {
      x.Valid() && x == Ctx(cd, g, l, c) && |v| == 288 && Sorted(cd.b, v, g)
    }
  }

  /** The variables of the table loops. */
  datatype Locals = Locals(mem: seq<seq<Huft>>, i: nat, p: nat, h: int, w: int, u: seq<nat>, x: seq<nat>)

  /** What the variables stand for: the tables, those on the stack, and the code. */
  datatype Shadow = Shadow(tabs: seq<Tab>, stack: seq<nat>, code: Bits)

  ghost predicate Mirrors(x: Ctx, s: Locals, t: Shadow) {
    && Arrays(t.tabs, t.stack, s.u, s.x) && s.h == |t.stack| - 1
    && s.w == Depth(x, t.tabs, t.stack) && s.i == Lsb(t.code)
  }

  ghost predicate Makes(x: Ctx, s: Locals, t: Shadow) {
    |t.code| <= x.g && Building(x, s.mem, t.tabs, t.stack, t.code, Start(x.g, t.code)) && Mirrors(x, s, t)
  }

  /** `a` codes of length `k` are still to come. */
  ghost predicate At(x: Ctx, s: Locals, t: Shadow, k: nat, a: nat) {
    && Between(x, s.mem, t.tabs, t.stack, t.code, k, a) && Mirrors(x, s, t)
    && s.p == Pointer(x.c.b, Offset(x.c.b, k) + (x.cs[k] - a))
  }

  /** `code` is code number `done` of length `k`. */
  ghost predicate IsCode(x: Ctx, code: Bits, k: nat, done: nat) {
    x.Shape() && 1 <= k == |code| <= x.g && done < x.cs[k] && Start(x.g, code) == PosAt(x, k, done)
  }

  /** `s` one level deeper. */
  ghost function WithTable(s: Locals, l: nat, j: nat, table: seq<Huft>): Locals
    requires |s.u| == BMAX && |s.x| == BMAX + 1 && -1 <= s.h < BMAX - 1
    requires s.h >= 0 ==> s.w >= 0 && s.u[s.h] < |s.mem| && Shr(s.i, s.w) < |s.mem[s.u[s.h]]|
  {
    s.(h := s.h + 1, w := s.w + l,
       u := s.u[s.h + 1 := |s.mem|],
       x := if s.h >= 0 then s.x[s.h + 1 := s.i] else s.x,
       mem := if s.h >= 0 then Linked(s.mem, table, s.u[s.h], Shr(s.i, s.w), 16 + j, l)
              else s.mem + [table])
  }

  /** The body of the loop at lines 291-327. */
  method AddTable(n: Given, ghost x: Ctx, k: nat, a: nat, s: Locals, ghost code: Bits)
    returns (s': Locals, ghost j: nat, ghost table: seq<Huft>)
    requires x.Shape() && x.g == n.g && x.l == n.l && x.cs == n.c && Space(x.cs, x.g, x.g) == Pow2(x.g)
    requires 0 <= s.w + n.l < k == |code| <= n.g && a < n.c[k]
    requires Start(n.g, code[..s.w + n.l]) == PosAt(x, k, n.c[k] - (a + 1))
    requires |s.u| == BMAX && |s.x| == BMAX + 1 && -1 <= s.h < BMAX - 1
    requires s.h >= 0 ==> s.w >= 0 && s.u[s.h] < |s.mem| && Shr(s.i, s.w) < |s.mem[s.u[s.h]]|
    ensures GoodBits(x, code, s.w + n.l, j) && |table| == Pow2(j)
    ensures s' == WithTable(s, n.l, j, table) && s'.p == s.p && s'.w == s.w + n.l
  {
    var h, w := s.h + 1, s.w + n.l;
    var bits := TableBits(x, n.c, n.g, n.l, k, w, a, code[..w]);
    j := bits;
    var z := Pow2(bits);
    var memory := new Huft[z];
    var q := |s.mem|;
    table := memory[..];
    var mem, u, xs := s.mem + [memory[..]], s.u[h := q], s.x;
    if h > 0 {
      xs := xs[h := s.i];
      var d := Shr(s.i, w - n.l);
      mem := mem[u[h - 1] := mem[u[h - 1]][d := Huft(16 + bits, n.l, Table(q))]];
    }
    s' := s.(mem := mem, h := h, w := w, u := u, x := xs);
  }

  method MakeTable(n: Given, ghost x: Ctx, k: nat, a: nat, s: Locals, ghost t: Shadow)
    returns (s': Locals, ghost t': Shadow)
    requires n.For(x) && 1 <= k <= x.g && a < x.cs[k] && IsCode(x, t.code, k, x.cs[k] - (a + 1)) && Makes(x, s, t)
    requires k > s.w + n.l
    ensures Makes(x, s', t') && t'.code == t.code && s'.p == s.p && s'.w == s.w + n.l
  {
    hide Makes, GoodBits, Ready, WithTable, Sorted, LengthsOk, Longest, Counts;
    CanAdd(x, s, t);
    ghost var j, table;
    s', j, table := AddTable(n, x, k, a, s, t.code);
    t' := Added(x, s, t, j, table);
  }

  lemma CanAdd(x: Ctx, s: Locals, t: Shadow)
    requires Makes(x, s, t) && s.w + x.l < |t.code| <= x.g
    requires x.Shape() && Space(x.cs, x.g, |t.code| - 1) <= Start(x.g, t.code)
    ensures |s.u| == BMAX && |s.x| == BMAX + 1 && -1 <= s.h < BMAX - 1 && 0 <= s.w + x.l
    ensures s.h >= 0 ==> s.w >= 0 && s.u[s.h] < |s.mem| && Shr(s.i, s.w) < |s.mem[s.u[s.h]]|
    ensures Start(x.g, t.code[..s.w + x.l]) == Start(x.g, t.code)
    ensures Ready(x, s.mem, t.tabs, t.stack, t.code)
  {
    hide TabsOk, Covered, EntryOk, Finished, StackOk, Start, End, InScope, NextIsZero, Linked;
    Before(x, s.mem, t.tabs, t.stack, t.code);
  }

  lemma SameTables(x: Ctx, mem: seq<seq<Huft>>, tabs: seq<Tab>, stack: seq<nat>, p: Bits)
    requires |p| <= x.g && Building(x, mem, tabs, stack, p, Start(x.g, p))
    ensures |mem| == |tabs| && (stack != [] ==> stack[|stack| - 1] < |tabs|)
  {
    if stack != [] {
      assert LevelOk(x, tabs, stack, p, |stack| - 1);
    }
  }

  /** WithTable in terms of what the variables stand for. */
  lemma WithTableIs(x: Ctx, s: Locals, t: Shadow, j: nat, table: seq<Huft>)
    requires Mirrors(x, s, t) && |s.mem| == |t.tabs| && (t.stack != [] ==> t.stack[|t.stack| - 1] < |t.tabs|)
    requires |s.u| == BMAX && |s.x| == BMAX + 1 && -1 <= s.h < BMAX - 1
    requires s.h >= 0 ==> s.w >= 0 && s.u[s.h] < |s.mem| && Shr(s.i, s.w) < |s.mem[s.u[s.h]]|
    ensures var s' := WithTable(s, x.l, j, table);
            && s'.h == |t.stack| && s'.w == Depth(x, t.tabs, t.stack) + x.l && s'.i == Lsb(t.code)
            && s'.u == s.u[|t.stack| := |t.tabs|]
            && s'.x == (if t.stack != [] then s.x[|t.stack| := Lsb(t.code)] else s.x)
            && s'.mem == if t.stack == [] then s.mem + [table]
                         else Linked(s.mem, table, t.stack[|t.stack| - 1],
                                     Shr(Lsb(t.code), Depth(x, t.tabs, t.stack)), 16 + j, x.l)
  {
    hide Linked, Shr, Lsb;
  }

  lemma Added(x: Ctx, s: Locals, t: Shadow, j: nat, table: seq<Huft>) returns (t': Shadow)
    requires Makes(x, s, t) && |t.code| <= x.g && Ready(x, s.mem, t.tabs, t.stack, t.code)
    requires |s.u| == BMAX && |s.x| == BMAX + 1 && -1 <= s.h < BMAX - 1
    requires s.h >= 0 ==> s.w >= 0 && s.u[s.h] < |s.mem| && Shr(s.i, s.w) < |s.mem[s.u[s.h]]|
    requires x.Shape() && 0 <= s.w + x.l <= |t.code| && GoodBits(x, t.code, s.w + x.l, j) && |table| == Pow2(j)
    ensures Makes(x, WithTable(s, x.l, j, table), t') && t'.code == t.code
  {
    hide Building, GoodBits, Arrays, WithTable, Linked, Ready, Depth, Start;
    SameTables(x, s.mem, t.tabs, t.stack, t.code);
    WithTableIs(x, s, t, j, table);
    var tabs' := After(x, s.mem, t.tabs, t.stack, t.code, j, table, s.u, s.x);
    t' := Shadow(tabs', t.stack + [|t.tabs|], t.code);
  }

  /** Make the tables that a code needs and enter it (lines 290-346). */
  method EnterCode(n: Given, ghost x: Ctx, k: nat, a: nat, s0: Locals, ghost t0: Shadow)
    returns (s: Locals, ghost t: Shadow)
    requires n.For(x) && 1 <= k <= x.g && a < x.cs[k] && IsCode(x, t0.code, k, x.cs[k] - (a + 1)) && Makes(x, s0, t0)
    requires s0.p == Pointer(x.c.b, Offset(x.c.b, k) + (x.cs[k] - (a + 1)))
    ensures Entered(x, s.mem, t.tabs, t.stack, t.code) && Mirrors(x, s, t) && t.code == t0.code
    ensures s.p == Pointer(x.c.b, Offset(x.c.b, k) + (x.cs[k] - a))
  {
    s, t := s0, t0;
    while k > s.w + n.l
      invariant Makes(x, s, t) && t.code == t0.code && s.p == s0.p
      decreases k - s.w
    {
      s, t := MakeTable(n, x, k, a, s, t);
    }
    s, t := FillTable(n, x, k, a, s, t);
  }

  method FillTable(n: Given, ghost x: Ctx, k: nat, a: nat, s: Locals, ghost t: Shadow)
    returns (s': Locals, ghost t': Shadow)
    requires n.For(x) && 1 <= k <= x.g && a < x.cs[k] && IsCode(x, t.code, k, x.cs[k] - (a + 1)) && Makes(x, s, t)
    requires s.p == Pointer(x.c.b, Offset(x.c.b, k) + (x.cs[k] - (a + 1))) && k <= s.w + n.l
    ensures Entered(x, s'.mem, t'.tabs, t'.stack, t'.code) && Mirrors(x, s', t') && t'.code == t.code
    ensures s'.p == Pointer(x.c.b, Offset(x.c.b, k) + (x.cs[k] - a))
  {
    hide Makes, Entered, Mirrors, CodeEntry, Filled, Sorted, Depth;
    CanFill(x, s, t);
    var q := s.u[s.h];
    var table, ptr;
    ghost var r, info;
    table, ptr, r, info := EntryTable(x, n.cd, n.v, k, s.w, s.i, s.p, s.mem[q], x.cs[k] - (a + 1), t.code);
    s' := s.(mem := s.mem[q := table], p := ptr);
    t' := FilledIn(x, s, t, table, ptr, r, info);
  }

  lemma CanFill(x: Ctx, s: Locals, t: Shadow)
    requires Makes(x, s, t) && 0 < |t.code| <= s.w + x.l
    ensures 0 <= s.h < |s.u| && s.u[s.h] < |s.mem| && 0 <= s.w < |t.code| && s.i == Lsb(t.code)
    ensures t.stack != [] && s.u[s.h] == t.stack[|t.stack| - 1] && s.w == Depth(x, t.tabs, t.stack)
  {
    TopFacts(x, s.mem, t.tabs, t.stack, t.code);
  }

  lemma FilledIn(x: Ctx, s: Locals, t: Shadow, table: seq<Huft>, ptr: nat, r: Huft, info: Info)
    returns (t': Shadow)
    requires x.Shape() && Makes(x, s, t) && 0 < |t.code| <= s.w + x.l && |t.code| <= x.g
    requires Space(x.cs, x.g, |t.code| - 1) <= Start(x.g, t.code)
    requires 0 <= s.h < |s.u| && s.u[s.h] < |s.mem| && 0 <= s.w < |t.code|
    requires t.stack != [] && s.u[s.h] == t.stack[|t.stack| - 1] && s.w == Depth(x, t.tabs, t.stack)
    requires x.Valid() && CodeEntry(x, t.code, s.w, r, info)
    requires Filled(s.mem[s.u[s.h]], table, Lsb(t.code[s.w..]), |t.code| - s.w, r)
    ensures var s' := s.(mem := s.mem[s.u[s.h] := table], p := ptr);
            Entered(x, s'.mem, t'.tabs, t'.stack, t'.code) && Mirrors(x, s', t')
    ensures t'.code == t.code
  {
    var tabs' := AfterFill(x, s.mem, t.tabs, t.stack, t.code, table, r, info, s.u, s.x);
    t' := t.(tabs := tabs');
  }

  /** Back up over finished tables (lines 354-357). */
  method BackUp(ghost x: Ctx, i: nat, l: nat, xs: seq<nat>, h0: int, w0: int,
                ghost u: seq<nat>, ghost t: Shadow, ghost next: Bits)
    returns (h: int, w: int)
    requires x.Shape() && x.l == l && t.stack != [] && StackOk(x, t.tabs, t.stack, t.code)
    requires i == Lsb(next) && |next| == |t.code|
    requires Arrays(t.tabs, t.stack, u, xs) && h0 == |t.stack| - 1 && w0 == Depth(x, t.tabs, t.stack)
    ensures 0 <= h < |t.stack| && t.stack[h] < |t.tabs| && t.tabs[t.stack[h]].prefix <= next
    ensures w == |t.tabs[t.stack[h]].prefix|
    ensures forall q :: h < q < |t.stack| ==>
              t.stack[q] < |t.tabs| && !(t.tabs[t.stack[q]].prefix <= next)
  {
    hide Lsb, Low, Space, End;
    h, w := h0, w0;
    while Low(i, w) != xs[h]
      invariant 0 <= h < |t.stack| && w == |t.tabs[t.stack[h]].prefix|
      invariant forall q :: h < q < |t.stack| ==> !(t.tabs[t.stack[q]].prefix <= next)
      decreases h
    {
      SamePattern(x, t.tabs, t.stack, t.code, next, h);
      assert LevelOk(x, t.tabs, t.stack, t.code, h - 1);
      h, w := h - 1, w - l;
    }
    SamePattern(x, t.tabs, t.stack, t.code, next, h);
  }

  /** Step to the next code and back up (lines 348-357). */
  method StepOn(n: Given, ghost x: Ctx, k: nat, s: Locals, ghost t: Shadow) returns (s': Locals, ghost t': Shadow)
    requires n.For(x) && Entered(x, s.mem, t.tabs, t.stack, t.code) && Mirrors(x, s, t) && |t.code| == k <= x.g
    ensures t'.code == Succ(t.code) && Mirrors(x, s', t') && s'.p == s.p
    ensures Building(x, s'.mem, t'.tabs, t'.stack, t'.code, End(x.g, t.code))
  {
    var i := NextCode(s.i, k, t.code);
    ghost var next := Succ(t.code);
    var h, w := BackUp(x, i, n.l, s.x, s.h, s.w, s.u, t, next);
    LevelsDone(x, t.tabs, t.stack, t.code, h);
    SuccStart(x.g, t.code);
    s' := s.(i := i, h := h, w := w);
    t' := t.(stack := t.stack[..h + 1], code := next);
    Stepped(x, s, t, next, i, h, w);
  }

  lemma Stepped(x: Ctx, s: Locals, t: Shadow, next: Bits, i: nat, h: nat, w: int)
    requires Entered(x, s.mem, t.tabs, t.stack, t.code) && Mirrors(x, s, t)
    requires |next| == |t.code| <= x.g && i == Lsb(next) && h < |t.stack|
    requires End(x.g, t.code) == Start(x.g, next) || End(x.g, t.code) == Pow2(x.g)
    requires t.stack[h] < |t.tabs| && t.tabs[t.stack[h]].prefix <= next && w == |t.tabs[t.stack[h]].prefix|
    requires x.Shape() && Done(x, t.tabs, t.stack, t.code, next, h)
    ensures var t' := t.(stack := t.stack[..h + 1], code := next);
            && Building(x, s.mem, t'.tabs, t'.stack, next, End(x.g, t.code))
            && Mirrors(x, s.(i := i, h := h, w := w), t')
  {
    hide Building, Entered, Done, Start, End;
    Advance(x, s.mem, t.tabs, t.stack, t.code, next, h);
    ArraysKept(t.tabs, t.stack, s.u, s.x, h);
    assert t.stack[..h + 1][h] == t.stack[h];
  }

  /** Everything from one code to the next (lines 290-357). */
  method OneCode(n: Given, ghost x: Ctx, k: nat, a: nat, s: Locals, ghost t: Shadow)
    returns (s': Locals, ghost t': Shadow)
    requires n.For(x) && 1 <= k <= x.g && a < x.cs[k] && At(x, s, t, k, a + 1)
    ensures At(x, s', t', k, a)
  {
    hide Building, Entered, Arrays, Sorted, Depth, Pow2;
    MoreToCome(x, s.mem, t.tabs, t.stack, t.code, k, a + 1);
    s', t' := EnterCode(n, x, k, a, s, t);
    NextPos(x, k, a, t.code);
    s', t' := StepOn(n, x, k, s', t');
  }

  /** The loop over the code lengths (lines 275-359); `first` is the shortest. */
  method MakeTables(n: Given, ghost x: Ctx, first: nat) returns (mem: seq<seq<Huft>>, ghost tabs: seq<Tab>)
    requires n.For(x) && 1 <= first <= n.g && forall k :: 0 < k < first ==> n.c[k] == 0
    ensures Built(x, mem, tabs)
  {
    hide Building, Arrays, TabsOk, Covered, Between, Built;
    var s := Locals([], 0, 0, -1, -(n.l as int), seq(BMAX, _ => 0), seq(BMAX + 1, _ => 0));
    ghost var t := Shadow([], [], Zeros(first));
    Begin(x, s, t, first);
    var k := first;
    while true
      invariant 1 <= k <= n.g && At(x, s, t, k, x.cs[k])
      decreases n.g - k
    {
      s, t := CodesOfLength(n, x, k, s, t);
      if k == n.g {
        break;
      }
      NextLengthAt(x, s, t, k);
      t := t.(code := t.code + [false]);
      k := k + 1;
    }
    AllUsed(x, s.mem, t.tabs, t.stack, t.code);
    mem, tabs := s.mem, t.tabs;
  }

  lemma Begin(x: Ctx, s: Locals, t: Shadow, first: nat)
    requires x.Valid() && 1 <= first <= x.g && forall k :: 0 < k < first ==> x.cs[k] == 0
    requires s == Locals([], 0, 0, -1, -(x.l as int), s.u, s.x) && t == Shadow([], [], Zeros(first))
    requires |s.u| == BMAX && |s.x| == BMAX + 1 && s.x[0] == 0
    ensures At(x, s, t, first, x.cs[first])
  {
    Initial(x, first);
    InitialOffset(x, first);
  }

  lemma NextLengthAt(x: Ctx, s: Locals, t: Shadow, k: nat)
    requires x.Shape() && 1 <= k < x.g && At(x, s, t, k, 0)
    ensures At(x, s, t.(code := t.code + [false]), k + 1, x.cs[k + 1])
  {
    NextLength(x, s.mem, t.tabs, t.stack, t.code, k);
  }

  method CodesOfLength(n: Given, ghost x: Ctx, k: nat, s0: Locals, ghost t0: Shadow)
    returns (s: Locals, ghost t: Shadow)
    requires n.For(x) && 1 <= k <= n.g && At(x, s0, t0, k, x.cs[k])
    ensures At(x, s, t, k, 0)
  {
    hide At, Sorted;
    s, t := s0, t0;
    var a := n.c[k];
    while a > 0
      invariant 0 <= a <= x.cs[k] && At(x, s, t, k, a)
    {
      a := a - 1;
      s, t := OneCode(n, x, k, a, s, t);
    }
  }
}
