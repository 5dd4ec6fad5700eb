/** Each step of huft_build (src/opkg/libbb/unzip.c:294-359) keeps the invariant of its tables. */
module HuftSteps {
  import opened BitStrings
  import opened CanonicalCode
  import opened HuftTables

  // ------------------------------------------------------------------------- fill a code

  /** `old` with every entry whose low `m` bits are `first` replaced by `r`. */
  ghost predicate Filled<T>(old': seq<T>, new': seq<T>, first: nat, m: nat, r: T)
  {
    && |new'| == |old'|
    && forall j :: 0 <= j < |old'| ==> new'[j] == if Low(j, m) == first then r else old'[j]
  }

  /** `r` and `i` are what the entries of code `p` must say, in a table with prefix length `w`. */
  ghost predicate CodeEntry(x: Ctx, p: Bits, w: nat, r: Huft, i: Info)
    requires x.Valid() && |p| <= x.g
  {
    match i
    case Code(s) =>
      && s < |x.c.b| && w < x.c.b[s] == |p| && Matches(x.c.b, s, p)
      && r == Huft(x.c.Op(s), x.c.b[s] - w, Number(x.c.Base(s)))
    case Dummy => r.e == INVALID && |p| == x.g && x.Real() <= Start(x.g, p)
    case Junk => !x.c.Usable() && |p| == x.g && x.Real() <= Start(x.g, p)
    case _ => false
  }

  lemma FilledEntry(x: Ctx, mem: seq<seq<Huft>>, tabs: seq<Tab>, t: nat, j: nat, p: Bits, r: Huft, i: Info)
    requires x.Valid() && |mem| == |tabs| && t < |tabs| && j < |mem[t]| == |tabs[t].info|
    requires |p| <= x.g && p <= tabs[t].Path(j)
    requires CodeEntry(x, p, |tabs[t].prefix|, r, i) && mem[t][j] == r && tabs[t].info[j] == i
    ensures EntryOk(x, mem, tabs, t, j)
  {
    if i.Code? {
      MatchesExtend(x.c.b, i.sym, p, tabs[t].Path(j));
    } else {
      assert tabs[t].Path(j)[..x.g] == p;
    }
  }

  lemma FillTabs(x: Ctx, mem: seq<seq<Huft>>, tabs: seq<Tab>, mem': seq<seq<Huft>>, tabs': seq<Tab>,
                 t: nat, p: Bits, r: Huft, i: Info)
    requires x.Valid() && TabsOk(x, mem, tabs) && t < |tabs|
    requires tabs[t].prefix < p && |p| <= |tabs[t].prefix| + tabs[t].width && |p| <= x.g
    requires CodeEntry(x, p, |tabs[t].prefix|, r, i)
    requires |mem'| == |mem| && (forall u :: 0 <= u < |mem| && u != t ==> mem'[u] == mem[u])
    requires |tabs'| == |tabs| && (forall u :: 0 <= u < |tabs| && u != t ==> tabs'[u] == tabs[u])
    requires tabs'[t] == tabs[t].(info := tabs'[t].info)
    requires var f, first := |p| - |tabs[t].prefix|, Lsb(p[|tabs[t].prefix|..]);
             Filled(mem[t], mem'[t], first, f, r) && Filled(tabs[t].info, tabs'[t].info, first, f, i)
    ensures TabsOk(x, mem', tabs')
  {
    hide EntryOk, CodeEntry, Pow2, Lsb, Low, Space, Counts, Longest;
    forall u | 0 <= u < |tabs'| ensures TabOk(x, mem', tabs', u) {
      assert TabOk(x, mem, tabs, u);
      forall j | 0 <= j < Pow2(tabs'[u].width) ensures EntryOk(x, mem', tabs', u, j) {
        assert EntryOk(x, mem, tabs, u, j);
        if u == t && Low(j, |p| - |tabs[t].prefix|) == Lsb(p[|tabs[t].prefix|..]) {
          IndexMatches(tabs[t], j, p);
          assert tabs'[t].Path(j) == tabs[t].Path(j);
          FilledEntry(x, mem', tabs', t, j, p, r, i);
        } else {
          EntryFrame(x, mem, tabs, mem', tabs', u, j);
        }
      }
    }
  }

  /** After code `p` is entered, every entry that begins before the next code is set. */
  lemma FillCovers(x: Ctx, mem: seq<seq<Huft>>, tabs: seq<Tab>, mem': seq<seq<Huft>>, tabs': seq<Tab>,
                   stack: seq<nat>, p: Bits, r: Huft, i: Info)
    requires x.Valid() && TabsOk(x, mem, tabs) && TabsOk(x, mem', tabs') && |tabs| == |tabs'|
    requires stack != [] && StackOk(x, tabs, stack, p) && |p| <= x.g && i != Unset
    requires Finished(x, tabs, stack, Start(x.g, p)) && Covered(x, mem, tabs, Start(x.g, p))
    requires forall u :: 0 <= u < |tabs| && u != stack[|stack| - 1] ==> tabs'[u] == tabs[u]
    requires var t := stack[|stack| - 1];
             && t < |tabs| && tabs'[t] == tabs[t].(info := tabs'[t].info)
             && tabs[t].prefix < p && |p| <= |tabs[t].prefix| + tabs[t].width
             && Filled(tabs[t].info, tabs'[t].info,
                       Lsb(p[|tabs[t].prefix|..]), |p| - |tabs[t].prefix|, i)
    ensures Covered(x, mem', tabs', End(x.g, p))
  {
    forall u | 0 <= u < |tabs'| ensures CoveredTab(x, mem', tabs', End(x.g, p), u) {
      assert TabOk(x, mem, tabs, u) && CoveredTab(x, mem, tabs, Start(x.g, p), u);
      assert tabs'[u].width == tabs[u].width && tabs'[u].prefix == tabs[u].prefix;
      if tabs[u].width <= x.l {
        forall j | 0 <= j < Pow2(tabs[u].width) && Start(x.g, tabs'[u].Path(j)) < End(x.g, p)
          ensures tabs'[u].info[j] != Unset
        {
          assert tabs'[u].Path(j) == tabs[u].Path(j);
          FillCoversEntry(x, tabs, tabs'[u].info, stack, p, i, u, j);
        }
      }
    }
  }

  lemma FillCoversEntry(x: Ctx, tabs: seq<Tab>, info': seq<Info>, stack: seq<nat>, p: Bits, i: Info,
                        u: nat, j: nat)
    requires x.Shape() && stack != [] && StackOk(x, tabs, stack, p) && |p| <= x.g && i != Unset
    requires Finished(x, tabs, stack, Start(x.g, p)) && u < |tabs|
    requires tabs[u].width <= x.l && |tabs[u].prefix| + tabs[u].width <= x.g
    requires j < Pow2(tabs[u].width) <= |tabs[u].info| == |info'|
    requires Start(x.g, tabs[u].Path(j)) < Start(x.g, p) ==> tabs[u].info[j] != Unset
    requires Start(x.g, tabs[u].Path(j)) < End(x.g, p)
    requires u != stack[|stack| - 1] ==> info' == tabs[u].info
    requires u == stack[|stack| - 1] ==>
      && tabs[u].prefix < p && |p| <= |tabs[u].prefix| + tabs[u].width
      && Filled(tabs[u].info, info', Lsb(p[|tabs[u].prefix|..]), |p| - |tabs[u].prefix|, i)
    ensures info'[j] != Unset
  {
    hide LevelOk, Space;
    var path := tabs[u].Path(j);
    if Start(x.g, path) >= Start(x.g, p) {
      EndBound(x.g, path);
      Nested(x.g, tabs[u].prefix, path);
      assert u in stack;
      var q :| 0 <= q < |stack| && stack[q] == u;
      assert LevelOk(x, tabs, stack, p, q);
      hide StackOk, Finished, Start, End;
      EntryOnStack(x, tabs, info', stack, p, i, q, j);
    }
  }

  /** The same when the table is on the stack and the entry does not begin before code `p`. */
  lemma EntryOnStack(x: Ctx, tabs: seq<Tab>, info': seq<Info>, stack: seq<nat>, p: Bits, i: Info, q: nat, j: nat)
    requires x.Shape() && q < |stack| && LevelOk(x, tabs, stack, p, q) && |p| <= x.g && i != Unset
    requires var T := tabs[stack[q]];
             && T.width <= x.l && |T.prefix| + T.width <= x.g && j < Pow2(T.width) <= |T.info| == |info'|
             && Start(x.g, p) <= Start(x.g, T.Path(j)) < End(x.g, p)
             && (stack[q] != stack[|stack| - 1] ==> info' == T.info)
             && (stack[q] == stack[|stack| - 1] ==>
                   && T.prefix < p && |p| <= |T.prefix| + T.width
                   && Filled(T.info, info', Lsb(p[|T.prefix|..]), |p| - |T.prefix|, i))
    ensures info'[j] != Unset
  {
    var T := tabs[stack[q]];
    if q + 1 == |stack| {
      EntryOfCode(x.g, T, p, j);
      IndexMatches(T, j, p);
    } else {
      EntryOfLink(x.g, T, p, j);
    }
  }

  /** An entry that begins within code `p`, of a table wide enough for `p`, is one of its entries. */
  lemma EntryOfCode(g: nat, T: Tab, p: Bits, j: nat)
    requires |p| <= |T.prefix| + T.width <= g && Start(g, p) <= Start(g, T.Path(j)) < End(g, p)
    ensures p <= T.Path(j)
  {
    EndBound(g, T.Path(j));
    if !(p <= T.Path(j)) {
      Disjoint(g, p, T.Path(j));
    }
  }

  /** An entry that begins within code `p`, of a table with a next level for `p`, is the one that
      leads to the next level. */
  lemma EntryOfLink(g: nat, T: Tab, p: Bits, j: nat)
    requires j < Pow2(T.width) && |T.prefix| + T.width <= |p| <= g
    requires Start(g, p) <= Start(g, T.Path(j)) < End(g, p)
    ensures j == Lsb(p[|T.prefix|..|T.prefix| + T.width])
  {
    var n := p[..|T.prefix| + T.width];
    var path := T.Path(j);
    Nested(g, n, p);
    EndBound(g, path);
    if path != n {
      Disjoint(g, path, n);
    }
    assert ToBits(j, T.width) == path[|T.prefix|..] == p[|T.prefix|..|T.prefix| + T.width];
    LsbToBits(j, T.width);
  }

  // ------------------------------------------------------------------------- make a table

  /** The entry of table `t` that leads on for code `p`. */
  ghost predicate LinkAt(x: Ctx, mem: seq<seq<Huft>>, tabs: seq<Tab>, t: nat, p: Bits, j: nat) {
    && t < |tabs| && t < |mem| && tabs[t].width >= x.l && tabs[t].prefix <= p
    && j < Pow2(tabs[t].width) && j < |mem[t]| && j < |tabs[t].info|
    && LinkBits(p, |tabs[t].prefix|, x.l, tabs[t].width, j)
  }

  /** `j` is what the `l` bits of `p` from `v` on are in an index of `width` bits, and only zeros
      follow them in `p`. */
  ghost predicate LinkBits(p: Bits, v: nat, l: nat, width: nat, j: nat) {
    && v + l < |p| && l <= width
    && j == Lsb(p[v..v + l]) && ToBits(j, width)[..l] == p[v..v + l]
    && forall m :: v + l <= m < |p| ==> !p[m]
  }

  /** A table below the root: the level above gets a link to it. */
  lemma LinkTable(x: Ctx, mem: seq<seq<Huft>>, tabs: seq<Tab>, stack: seq<nat>, p: Bits,
                  width: nat, fresh': seq<Huft>, w: nat, j: nat)
    returns (mem': seq<seq<Huft>>, tabs': seq<Tab>)
    requires x.Valid() && TabsOk(x, mem, tabs) && |p| <= x.g
    requires stack != [] && StackOk(x, tabs, stack, p)
    requires Finished(x, tabs, stack, Start(x.g, p)) && Covered(x, mem, tabs, Start(x.g, p))
    requires LinkAt(x, mem, tabs, stack[|stack| - 1], p, j)
    requires w == |tabs[stack[|stack| - 1]].prefix| + x.l
    requires 0 < width <= BMAX + 1 && |fresh'| >= Pow2(width)
    requires width <= x.l ==> w + width <= x.g
    requires width >= x.l || (w + width <= x.g && End(x.g, p[..w]) <= Space(x.cs, x.g, w + width))
    ensures Extends(tabs, tabs') && |tabs'| == |tabs| + 1 && tabs'[|tabs|].width == width
    ensures tabs'[|tabs|].prefix == p[..w]
    ensures mem' == Linked(mem, fresh', stack[|stack| - 1], j, 16 + width, x.l)
    ensures TabsOk(x, mem', tabs') && StackOk(x, tabs', stack + [|tabs|], p)
    ensures Finished(x, tabs', stack + [|tabs|], Start(x.g, p)) && Covered(x, mem', tabs', Start(x.g, p))
  {
    var t := stack[|stack| - 1];
    mem' := Linked(mem, fresh', t, j, 16 + width, x.l);
    tabs' := tabs[t := tabs[t].(info := tabs[t].info[j := Sub(|tabs|)])]
             + [Tab(p[..w], width, seq(|fresh'|, _ => Unset))];
    LinkTabsOk(x, mem, tabs, mem', tabs', t, j, p, w);
    LinkCovered(x, mem, tabs, mem', tabs', t, j, p, w);
    LinkStack(x, tabs, tabs', stack, j, p, w);
  }

  /** `mem` with a new table, and a link to it in table `t` at `d`. */
  ghost function Linked(mem: seq<seq<Huft>>, table: seq<Huft>, t: nat, d: nat, e: nat, l: nat): seq<seq<Huft>>
    requires t < |mem| && d < |mem[t]|
  {
    mem[t := mem[t][d := Huft(e, l, Table(|mem|))]] + [table]
  }

  /** The pattern `i >> (w - l)` is the index of the streams that begin with the new prefix. */
  lemma LinkIndex(p: Bits, v: nat, l: nat, width: nat)
    requires v + l < |p| && l <= width && (forall j :: v + l <= j < |p| ==> !p[j])
    ensures LinkBits(p, v, l, width, Shr(Lsb(p), v)) && Shr(Lsb(p), v) < Pow2(width)
  {
    LsbSplit(p, v);
    var a, z := p[v..v + l], p[v + l..];
    assert p[v..] == a + z;
    LsbConcat(a, z);
    ScaleUnit(l);
    assert forall j :: 0 <= j < |z| ==> z[j] == p[v + l + j];
    LsbZeros(z);
    LsbBound(a);
    Pow2Monotone(l, width);
    LowOfSmall(a, width);
  }

  lemma LowOfSmall(a: Bits, width: nat)
    requires |a| <= width && Lsb(a) < Pow2(width)
    ensures ToBits(Lsb(a), width)[..|a|] == a
  {
    var b := ToBits(Lsb(a), width);
    LsbToBits(Lsb(a), width);
    LsbSplit(b, |a|);
    LsbBound(a);
    ScaleUnit(|a|);
    LowShr(Lsb(a), |a|, 0, Lsb(a));
    LsbInjective(b[..|a|], a);
  }

  lemma LinkTabsOk(x: Ctx, mem: seq<seq<Huft>>, tabs: seq<Tab>, mem': seq<seq<Huft>>, tabs': seq<Tab>,
                   t: nat, j: nat, p: Bits, w: nat)
    requires x.Valid() && TabsOk(x, mem, tabs) && t < |tabs| && |p| <= x.g
    requires Extends(tabs, tabs') && |tabs'| == |mem'| == |tabs| + 1
    requires w == |tabs[t].prefix| + x.l < |p| && tabs[t].width >= x.l && tabs[t].prefix <= p
    requires j < Pow2(tabs[t].width) && ToBits(j, tabs[t].width)[..x.l] == p[w - x.l..w]
    requires var N := tabs'[|tabs|];
             && N.prefix == p[..w] && 0 < N.width <= BMAX + 1 && (N.width <= x.l ==> w + N.width <= x.g)
             && |mem'[|tabs|]| == |N.info| >= Pow2(N.width)
             && (forall m :: 0 <= m < |N.info| ==> N.info[m] == Unset)
    requires forall u :: 0 <= u < |tabs| && u != t ==> mem'[u] == mem[u] && tabs'[u] == tabs[u]
    requires j < |mem[t]| && mem'[t] == mem[t][j := Huft(16 + tabs'[|tabs|].width, x.l, Table(|tabs|))]
    requires j < |tabs[t].info| && tabs'[t].info == tabs[t].info[j := Sub(|tabs|)]
    ensures TabsOk(x, mem', tabs')
  {
    hide Space, Start, Pow2, ToBits;
    forall u | 0 <= u < |tabs'| ensures TabOk(x, mem', tabs', u) {
      if u < |tabs| {
        hide EntryOk;
        assert TabOk(x, mem, tabs, u);
        forall m | 0 <= m < Pow2(tabs'[u].width) ensures EntryOk(x, mem', tabs', u, m) {
          assert EntryOk(x, mem, tabs, u, m);
          if u == t && m == j {
            LinkEntry(x, mem', tabs', t, j, p);
          } else {
            EntryFrame(x, mem, tabs, mem', tabs', u, m);
          }
        }
      }
    }
  }

  lemma LinkEntry(x: Ctx, mem: seq<seq<Huft>>, tabs: seq<Tab>, t: nat, j: nat, p: Bits)
    requires x.Valid() && |mem| == |tabs| && t + 1 < |tabs| && j < |mem[t]| == |tabs[t].info|
    requires |tabs[t].prefix| + x.l < |p| && tabs[t].width >= x.l && tabs[t].prefix <= p
    requires ToBits(j, tabs[t].width)[..x.l] == p[|tabs[t].prefix|..|tabs[t].prefix| + x.l]
    requires tabs[|tabs| - 1].prefix == p[..|tabs[t].prefix| + x.l]
    requires tabs[t].info[j] == Sub(|tabs| - 1)
    requires mem[t][j] == Huft(16 + tabs[|tabs| - 1].width, x.l, Table(|tabs| - 1))
    ensures EntryOk(x, mem, tabs, t, j)
  {
    assert tabs[t].Path(j)[..|tabs[t].prefix| + x.l] == p[..|tabs[t].prefix| + x.l];
  }

  lemma LinkCovered(x: Ctx, mem: seq<seq<Huft>>, tabs: seq<Tab>, mem': seq<seq<Huft>>, tabs': seq<Tab>,
                    t: nat, j: nat, p: Bits, w: nat)
    requires x.Valid() && TabsOk(x, mem, tabs) && TabsOk(x, mem', tabs') && t < |tabs| && w < |p| <= x.g
    requires Covered(x, mem, tabs, Start(x.g, p)) && (forall m :: w <= m < |p| ==> !p[m])
    requires Extends(tabs, tabs') && |tabs'| == |tabs| + 1 && tabs'[|tabs|].prefix == p[..w]
    requires forall u :: 0 <= u < |tabs| && u != t ==> tabs'[u] == tabs[u]
    requires j < |tabs[t].info| && tabs'[t].info == tabs[t].info[j := Sub(|tabs|)]
    ensures Covered(x, mem', tabs', Start(x.g, p))
  {
    forall u | 0 <= u < |tabs'| ensures CoveredTab(x, mem', tabs', Start(x.g, p), u) {
      assert TabOk(x, mem', tabs', u);
      if u < |tabs| {
        assert CoveredTab(x, mem, tabs, Start(x.g, p), u);
        assert forall m :: 0 <= m < Pow2(tabs[u].width) ==> tabs'[u].Path(m) == tabs[u].Path(m);
      } else if tabs'[u].width <= x.l {
        Nested(x.g, p[..w], p);
        forall m | 0 <= m < Pow2(tabs'[u].width) ensures Start(x.g, tabs'[u].Path(m)) >= Start(x.g, p) {
          Nested(x.g, p[..w], tabs'[u].Path(m));
        }
      }
    }
  }

  lemma LinkStack(x: Ctx, tabs: seq<Tab>, tabs': seq<Tab>, stack: seq<nat>, j: nat, p: Bits, w: nat)
    requires x.Shape() && stack != [] && StackOk(x, tabs, stack, p) && |p| <= x.g
    requires Finished(x, tabs, stack, Start(x.g, p))
    requires Extends(tabs, tabs') && |tabs'| == |tabs| + 1 && w < |p| && tabs'[|tabs|].prefix == p[..w]
    requires var N := tabs'[|tabs|];
             N.width >= x.l || (w + N.width <= x.g && End(x.g, p[..w]) <= Space(x.cs, x.g, w + N.width))
    requires var t := stack[|stack| - 1];
             && t < |tabs| && w == |tabs[t].prefix| + x.l && tabs[t].width >= x.l
             && j == Lsb(p[w - x.l..w]) && j < |tabs[t].info|
             && tabs'[t].info == tabs[t].info[j := Sub(|tabs|)]
             && forall u :: 0 <= u < |tabs| && u != t ==> tabs'[u] == tabs[u]
    ensures StackOk(x, tabs', stack + [|tabs|], p)
    ensures Finished(x, tabs', stack + [|tabs|], Start(x.g, p))
  {
    forall q | 0 <= q <= |stack| ensures LevelOk(x, tabs', stack + [|tabs|], p, q) {
      if q < |stack| {
        assert LevelOk(x, tabs, stack, p, q);
        if q + 1 < |stack| {
          assert LevelOk(x, tabs, stack, p, q + 1);
        }
        LinkLevel(x, tabs, tabs', stack, j, p, q);
      }
    }
    LinkFinished(x, tabs, tabs', stack, Start(x.g, p));
  }

  lemma LinkLevel(x: Ctx, tabs: seq<Tab>, tabs': seq<Tab>, stack: seq<nat>, j: nat, p: Bits, q: nat)
    requires x.Shape() && q < |stack| && LevelOk(x, tabs, stack, p, q)
    requires q + 1 < |stack| ==> LevelOk(x, tabs, stack, p, q + 1)
    requires stack[|stack| - 1] < |tabs| && |tabs'| == |tabs| + 1 && Extends(tabs, tabs')
    requires var T := tabs[stack[|stack| - 1]];
             && |T.prefix| + x.l < |p| && tabs'[|tabs|].prefix == p[..|T.prefix| + x.l]
             && T.width >= x.l && j == Lsb(p[|T.prefix|..|T.prefix| + x.l]) && j < |T.info|
             && tabs'[stack[|stack| - 1]].info == T.info[j := Sub(|tabs|)]
    requires forall u :: 0 <= u < |tabs| && u != stack[|stack| - 1] ==> tabs'[u] == tabs[u]
    ensures LevelOk(x, tabs', stack + [|tabs|], p, q)
  {
    var stack' := stack + [|tabs|];
    assert stack'[q] == stack[q];
    if q + 1 < |stack| {
      assert stack'[q + 1] == stack[q + 1];
    }
  }

  lemma LinkFinished(x: Ctx, tabs: seq<Tab>, tabs': seq<Tab>, stack: seq<nat>, pos: nat)
    requires x.Shape() && Finished(x, tabs, stack, pos)
    requires Extends(tabs, tabs') && |tabs'| == |tabs| + 1 && |tabs'[|tabs|].prefix| <= x.g
    ensures Finished(x, tabs', stack + [|tabs|], pos)
  {
    var stack' := stack + [|tabs|];
    forall u | 0 <= u < |tabs'|
      ensures |tabs'[u].prefix| <= x.g && (u in stack' || End(x.g, tabs'[u].prefix) <= pos)
    {
      if u < |tabs| {
        assert u in stack ==> u in stack';
      } else {
        assert stack'[|stack|] == u;
      }
    }
  }

  /** The first table of all. */
  lemma RootTable(x: Ctx, p: Bits, fresh': seq<Huft>) returns (tabs': seq<Tab>)
    requires x.Valid() && 0 < |p| <= x.g && Start(x.g, p) == 0 && |fresh'| >= Pow2(x.l)
    ensures tabs' == [Tab([], x.l, seq(|fresh'|, _ => Unset))]
    ensures TabsOk(x, [fresh'], tabs') && StackOk(x, tabs', [0], p)
    ensures Finished(x, tabs', [0], 0) && Covered(x, [fresh'], tabs', 0)
  {
    tabs' := [Tab([], x.l, seq(|fresh'|, _ => Unset))];
    assert TabOk(x, [fresh'], tabs', 0);
    assert LevelOk(x, tabs', [0], p, 0);
  }

  // --------------------------------------------------------------------- go to the next code

  /** Going on from code `p` to `p'` keeps every level whose table still serves `p'`. */
  lemma AdvanceLevel(x: Ctx, tabs: seq<Tab>, stack: seq<nat>, p: Bits, p': Bits, q: nat)
    requires x.Shape() && q < |stack| && LevelOk(x, tabs, stack, p, q) && |p| <= |p'|
    requires tabs[stack[q]].prefix <= p'
    requires q + 1 < |stack| ==> tabs[stack[q + 1]].prefix <= p && tabs[stack[q + 1]].prefix <= p'
    ensures LevelOk(x, tabs, stack, p', q)
  {
    if q + 1 < |stack| {
      var v, n := |tabs[stack[q]].prefix|, tabs[stack[q + 1]].prefix;
      SameSlice(n, p, p', v);
    }
  }

  lemma SameSlice(n: Bits, p: Bits, p': Bits, v: nat)
    requires v <= |n| && n <= p && n <= p'
    ensures p[v..|n|] == p'[v..|n|]
  {
    assert p[v..|n|] == n[v..] == p'[v..|n|];
  }

  /** A table that does not serve the code after `p` is finished. */
  lemma LeftBehind(g: nat, prefix: Bits, p: Bits)
    requires prefix <= p && |p| <= g && !(prefix <= Succ(p))
    ensures End(g, prefix) <= End(g, p)
  {
    SuccStart(g, p);
    EndBound(g, prefix);
    if !AllOnes(p) {
      LeftOfNext(g, prefix, p, Succ(p));
    }
  }

  lemma LeftOfNext(g: nat, prefix: Bits, p: Bits, next: Bits)
    requires prefix <= p && |p| == |next| <= g && !(prefix <= next) && Start(g, next) == End(g, p)
    ensures End(g, prefix) <= End(g, p)
  {
    Nested(g, prefix, p);
    EndBound(g, p);
    EndBound(g, next);
    Disjoint(g, prefix, next);
  }
}
