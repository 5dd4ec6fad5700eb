/** The multi-level lookup tables of src/opkg/libbb/unzip.c, what walking them means, and the
    invariant that huft_build keeps while it makes them. */
module HuftTables {
  import opened BitStrings
  import opened CanonicalCode

  /** The union in huft_t: a number, or the table at the next level. */
  datatype Val = Number(n: nat) | Table(t: nat)

  /** huft_t; a table is addressed by its place in the order of allocation. */
  datatype Huft = Huft(e: nat, b: nat, v: Val)

  const LITERAL := 16
  const END_OF_BLOCK := 15
  const INVALID := 99

  /** The parameters of huft_build: code lengths, number of simple values, bases, extra bits. */
  datatype Coding = Coding(b: seq<nat>, s: nat, d: seq<nat>, e: seq<nat>) {
    predicate Valid() {
      && 1 <= |b| <= 288 && LengthsOk(b)
      && (s < |b| ==> |b| - s <= |d| && |b| - s <= |e|)
      && forall i :: 0 <= i < |e| ==> e[i] < END_OF_BLOCK || e[i] == INVALID
    }

    /** Operation or extra bits of symbol `sym`. */
    function Op(sym: nat): nat
      requires Valid() && sym < |b|
    {
      if sym < s then if sym < 256 then LITERAL else END_OF_BLOCK else e[sym - s]
    }

    /** The value of `sym`: itself, or its base. */
    function Base(sym: nat): nat
      requires Valid() && sym < |b|
    {
      if sym < s then sym else d[sym - s]
    }

    /** No dummy code is added, or every symbol has a code and the dummy codes come after all of
        them: the code sets for which the tables are used. */
    predicate Usable() { Complete(b) || forall i :: 0 <= i < |b| ==> b[i] > 0 }

    ghost predicate Coded(bits: Bits) { exists s: nat :: Matches(b, s, bits) }

    /** The streams for which the tables say what the code says: any, unless a dummy code was made
        from unset memory, and then those that begin with the code of a symbol. */
    ghost predicate Decodable(bits: Bits) { Usable() || Coded(bits) }
  }

  datatype Lookup = Found(e: nat, n: nat, used: nat) | Invalid | Stuck

  /** What the decoder of RFC 1951 finds at the front of `bits`. */
  ghost function Reference(c: Coding, bits: Bits): Lookup
    requires c.Valid()
  {
    if s: nat :| Matches(c.b, s, bits) then
      if c.Op(s) == INVALID then Invalid else Found(c.Op(s), c.Base(s), c.b[s])
    else Invalid
  }

  function Consumed(u: nat, r: Lookup): Lookup {
    if r.Found? then r.(used := u + r.used) else r
  }

  /** Follow the tables from table `t`, which is indexed by the next `width` bits. */
  function Walk(mem: seq<seq<Huft>>, t: nat, width: nat, bits: Bits): Lookup
    decreases |bits|
  {
    if width > |bits| || width > BMAX || t >= |mem| || |mem[t]| < Pow2(width) then Stuck
    else
      LsbBound(bits[..width]);
      var r := mem[t][Lsb(bits[..width])];
      if r.e == INVALID then Invalid
      else if r.e > 16 then
        if r.v.Table? && 0 < r.b <= width
        then Consumed(r.b, Walk(mem, r.v.t, r.e - 16, bits[r.b..]))
        else Stuck
      else if r.v.Number? && 0 < r.b <= width then Found(r.e, r.v.n, r.b)
      else Stuck
  }

  // ------------------------------------------------------------------------------ invariant

  /** What an entry stands for: nothing yet, a symbol, a dummy code, or a deeper table.  `Junk` is
      a dummy code made from unset memory. */
  datatype Info = Unset | Code(sym: nat) | Dummy | Junk | Sub(t: nat)

  /** A table serves the streams that begin with `prefix`, and is indexed by `width` more bits. */
  datatype Tab = Tab(prefix: Bits, width: nat, info: seq<Info>) {
    function Path(j: nat): (p: Bits)
      ensures |p| == |prefix| + width
    {
      prefix + ToBits(j, width)
    }
  }

  /** `g` is the longest length, `l` the bits per table, `cs` the counts with the dummy codes. */
  datatype Ctx = Ctx(c: Coding, g: nat, l: nat, cs: seq<nat>) {
    ghost predicate Shape() { 0 < l <= g <= BMAX && |cs| == BMAX + 1 }

    ghost predicate Valid() {
      && Shape() && c.Valid()
      && g == Longest(Counts(c.b), BMAX)
      && (forall k :: 0 <= k < g ==> cs[k] == Counts(c.b)[k])
      && cs[g] >= Counts(c.b)[g]
      && Space(cs, g, g) == Pow2(g)
    }

    ghost function Real(): nat
      requires Valid()
    {
      Space(Counts(c.b), g, g)
    }
  }

  ghost predicate EntryOk(x: Ctx, mem: seq<seq<Huft>>, tabs: seq<Tab>, t: nat, j: nat)
    requires x.Valid() && |mem| == |tabs| && t < |tabs| && j < |mem[t]| == |tabs[t].info|
  {
    var path, w, r := tabs[t].Path(j), |tabs[t].prefix|, mem[t][j];
    match tabs[t].info[j]
    case Unset => true
    case Junk => !x.c.Usable() && x.g <= |path| && x.Real() <= Start(x.g, path[..x.g])
    case Dummy => r.e == INVALID && x.g <= |path| && x.Real() <= Start(x.g, path[..x.g])
    case Code(s) =>
      s < |x.c.b| && w < x.c.b[s] <= |path| && Matches(x.c.b, s, path)
      && r == Huft(x.c.Op(s), x.c.b[s] - w, Number(x.c.Base(s)))
    case Sub(u) =>
      t < u < |tabs| && w + x.l <= |path| && tabs[u].prefix == path[..w + x.l]
      && r == Huft(16 + tabs[u].width, x.l, Table(u))
  }

  ghost predicate TabOk(x: Ctx, mem: seq<seq<Huft>>, tabs: seq<Tab>, t: nat)
    requires x.Valid() && |mem| == |tabs| && t < |tabs|
  {
    && |mem[t]| == |tabs[t].info| >= Pow2(tabs[t].width)
    && 0 < tabs[t].width <= BMAX + 1
    && |tabs[t].prefix| <= x.g
    && (tabs[t].width <= x.l ==> |tabs[t].prefix| + tabs[t].width <= x.g)
    && forall j :: 0 <= j < Pow2(tabs[t].width) ==> EntryOk(x, mem, tabs, t, j)
  }

  ghost predicate TabsOk(x: Ctx, mem: seq<seq<Huft>>, tabs: seq<Tab>)
    requires x.Valid()
  {
    |mem| == |tabs| && forall t :: 0 <= t < |tabs| ==> TabOk(x, mem, tabs, t)
  }

  /** A table below the root that has up to `l` bits has as many as the longest code with its prefix needs,
      or `l` when that is longer. */
  ghost predicate Sized(x: Ctx, T: Tab)
    requires x.Shape()
  {
    var w := |T.prefix|;
    0 < w && T.width <= x.l ==>
      && 0 < T.width && w + T.width <= x.g && Space(x.cs, x.g, w + T.width - 1) < End(x.g, T.prefix)
      && (T.width == x.l || End(x.g, T.prefix) <= Space(x.cs, x.g, w + T.width))
  }

  ghost predicate AllSized(x: Ctx, tabs: seq<Tab>)
    requires x.Shape()
  {
    forall t :: 0 <= t < |tabs| ==> Sized(x, tabs[t])
  }

  /** Every entry of table `t` whose streams begin below `pos` has been set. */
  ghost predicate CoveredTab(x: Ctx, mem: seq<seq<Huft>>, tabs: seq<Tab>, pos: nat, t: nat)
    requires x.Valid() && |mem| == |tabs| && t < |tabs| && TabOk(x, mem, tabs, t)
  {
    tabs[t].width <= x.l ==>
      forall j :: 0 <= j < Pow2(tabs[t].width) && Start(x.g, tabs[t].Path(j)) < pos ==>
        tabs[t].info[j] != Unset
  }

  ghost predicate Covered(x: Ctx, mem: seq<seq<Huft>>, tabs: seq<Tab>, pos: nat)
    requires x.Valid() && TabsOk(x, mem, tabs)
  {
    forall t :: 0 <= t < |tabs| ==> CoveredTab(x, mem, tabs, pos, t)
  }

  // -------------------------------------------------------------------- what the tables mean

  lemma PathOfIndex(T: Tab, bits: Bits)
    requires T.prefix <= bits && |T.prefix| + T.width <= |bits|
    ensures var j := Lsb(bits[|T.prefix|..|T.prefix| + T.width]);
            j < Pow2(T.width) && T.Path(j) == bits[..|T.prefix| + T.width]
  {
    var q := bits[|T.prefix|..|T.prefix| + T.width];
    LsbBound(q);
    ToBitsLsb(q);
    assert bits[..|T.prefix| + T.width] == T.prefix + q;
  }

  lemma MatchesExtend(b: seq<nat>, s: nat, path: Bits, bits: Bits)
    requires Matches(b, s, path) && path <= bits
    ensures Matches(b, s, bits)
  {
    assert bits[..b[s]] == path[..b[s]];
  }

  lemma BeyondReal(x: Ctx, bits: Bits, s: nat)
    requires x.Valid() && |bits| >= x.g && x.Real() <= Start(x.g, bits[..x.g])
    ensures !Matches(x.c.b, s, bits)
  {
    if Matches(x.c.b, s, bits) {
      var k := x.c.b[s];
      CountsSplit(x.c.b, k, s, |x.c.b|);
      assert Counts(x.c.b)[k] > 0;
      MatchInterval(x.c.b, x.g, s, bits);
      SpaceMonotone(Counts(x.c.b), x.g, k, x.g);
      Nested(x.g, bits[..k], bits[..x.g]);
    }
  }

  lemma Uncoded(x: Ctx, path: Bits, bits: Bits)
    requires x.Valid() && path <= bits && x.g <= |path| && x.Real() <= Start(x.g, path[..x.g])
    ensures !x.c.Coded(bits)
  {
    assert bits[..x.g] == path[..x.g];
    forall s: nat ensures !Matches(x.c.b, s, bits) { BeyondReal(x, bits, s); }
  }

  lemma ReferenceFound(c: Coding, s: nat, bits: Bits)
    requires c.Valid() && Matches(c.b, s, bits)
    ensures Reference(c, bits)
         == if c.Op(s) == INVALID then Invalid else Found(c.Op(s), c.Base(s), c.b[s])
  {
    var t: nat :| Matches(c.b, t, bits) && Reference(c, bits)
         == if c.Op(t) == INVALID then Invalid else Found(c.Op(t), c.Base(t), c.b[t]);
    MatchUnique(c.b, s, t, bits);
  }

  /** Tables with every entry set decode any stream that reaches them as the canonical code does. */
  lemma {:induction false} WalkCorrect(x: Ctx, mem: seq<seq<Huft>>, tabs: seq<Tab>, t: nat, bits: Bits)
    requires x.Valid() && x.c.Decodable(bits) && TabsOk(x, mem, tabs) && Covered(x, mem, tabs, Pow2(x.g))
    requires forall u :: 0 <= u < |tabs| ==> tabs[u].width <= x.l
    requires t < |tabs| && tabs[t].prefix <= bits && |bits| >= x.g
    ensures Reference(x.c, bits) ==
            Consumed(|tabs[t].prefix|, Walk(mem, t, tabs[t].width, bits[|tabs[t].prefix|..]))
    decreases |tabs| - t
  {
    hide Walk, Reference, EntryOk, Lsb, Covered;
    var j := EntryReached(x, mem, tabs, t, bits);
    assert TabOk(x, mem, tabs, t);
    if tabs[t].info[j].Sub? {
      var u := SubReached(x, mem, tabs, t, bits, j);
      WalkCorrect(x, mem, tabs, u, bits);
      LinkStep(mem, t, tabs[t].width, u, tabs[u].width, x.l, |tabs[t].prefix|, bits);
    } else {
      LeafCorrect(x, mem, tabs, t, j, bits);
    }
  }

  lemma SubReached(x: Ctx, mem: seq<seq<Huft>>, tabs: seq<Tab>, t: nat, bits: Bits, j: nat) returns (u: nat)
    requires x.Valid() && TabsOk(x, mem, tabs) && t < |tabs| && j < |mem[t]| == |tabs[t].info|
    requires EntryOk(x, mem, tabs, t, j) && tabs[t].info[j].Sub? && tabs[t].Path(j) <= bits
    ensures u == tabs[t].info[j].t && t < u < |tabs| && tabs[u].prefix <= bits && TabOk(x, mem, tabs, u)
    ensures |tabs[u].prefix| == |tabs[t].prefix| + x.l && x.l <= tabs[t].width
    ensures mem[t][j] == Huft(16 + tabs[u].width, x.l, Table(u))
  {
    u := tabs[t].info[j].t;
    assert TabOk(x, mem, tabs, u);
    assert tabs[t].Path(j)[..|tabs[t].prefix| + x.l] == bits[..|tabs[t].prefix| + x.l];
  }

  lemma EntryReached(x: Ctx, mem: seq<seq<Huft>>, tabs: seq<Tab>, t: nat, bits: Bits) returns (j: nat)
    requires x.Valid() && TabsOk(x, mem, tabs) && Covered(x, mem, tabs, Pow2(x.g))
    requires t < |tabs| && tabs[t].width <= x.l && tabs[t].prefix <= bits && |bits| >= x.g
    ensures TabOk(x, mem, tabs, t) && j < Pow2(tabs[t].width) && tabs[t].Path(j) <= bits
    ensures EntryOk(x, mem, tabs, t, j) && tabs[t].info[j] != Unset
    ensures j == Lsb(bits[|tabs[t].prefix|..][..tabs[t].width])
  {
    hide Space, Counts, Longest, Coding.Op, Coding.Base;
    var T := tabs[t];
    var w := |T.prefix|;
    assert TabOk(x, mem, tabs, t);
    assert bits[w..][..T.width] == bits[w..w + T.width];
    PathOfIndex(T, bits);
    j := Lsb(bits[w..w + T.width]);
    assert CoveredTab(x, mem, tabs, Pow2(x.g), t);
    EndBound(x.g, T.Path(j));
    assert EntryOk(x, mem, tabs, t, j);
  }

  lemma LinkStep(mem: seq<seq<Huft>>, t: nat, width: nat, u: nat, width': nat, l: nat, w: nat, bits: Bits)
    requires t < |mem| && w + width <= |bits| && width <= BMAX && |mem[t]| >= Pow2(width)
    requires 0 < l <= width && width' <= BMAX && 0 < width'
    requires Lsb(bits[w..][..width]) < Pow2(width)
    requires mem[t][Lsb(bits[w..][..width])] == Huft(16 + width', l, Table(u))
    ensures Consumed(w, Walk(mem, t, width, bits[w..])) == Consumed(w + l, Walk(mem, u, width', bits[w + l..]))
  {
    assert bits[w..][l..] == bits[w + l..];
    WalkStep(mem, t, width, bits[w..], l);
  }

  lemma WalkStep(mem: seq<seq<Huft>>, t: nat, width: nat, bits: Bits, l: nat)
    requires t < |mem| && width <= |bits| && width <= BMAX && |mem[t]| >= Pow2(width) && 0 < l <= width
    requires Lsb(bits[..width]) < Pow2(width)
    requires var r := mem[t][Lsb(bits[..width])]; r.e > 16 && r.e != INVALID && r.v.Table? && r.b == l
    ensures var r := mem[t][Lsb(bits[..width])];
            Walk(mem, t, width, bits) == Consumed(l, Walk(mem, r.v.t, r.e - 16, bits[l..]))
  {
  }

  lemma LeafCorrect(x: Ctx, mem: seq<seq<Huft>>, tabs: seq<Tab>, t: nat, j: nat, bits: Bits)
    requires x.Valid() && x.c.Decodable(bits) && |mem| == |tabs| && t < |tabs| && TabOk(x, mem, tabs, t)
    requires |bits| >= x.g && |tabs[t].prefix| + tabs[t].width <= x.g
    requires j < Pow2(tabs[t].width) && tabs[t].Path(j) <= bits
    requires EntryOk(x, mem, tabs, t, j) && !tabs[t].info[j].Sub? && !tabs[t].info[j].Unset?
    requires var w := |tabs[t].prefix|; j == Lsb(bits[w..][..tabs[t].width])
    ensures var w := |tabs[t].prefix|;
            Reference(x.c, bits) == Consumed(w, Walk(mem, t, tabs[t].width, bits[w..]))
  {
    var path := tabs[t].Path(j);
    match tabs[t].info[j]
    case Dummy =>
      Uncoded(x, path, bits);
    case Junk =>
      Uncoded(x, path, bits);
    case Code(s) =>
      MatchesExtend(x.c.b, s, path, bits);
      ReferenceFound(x.c, s, bits);
  }

  // ------------------------------------------------------------------- steps of huft_build

  /** What holds of level `q` of the table stack while code `p` is handled: the table serves codes
      that begin like `p`, a table that is not the last leads on to the next, and a table narrower
      than `l` bits is wide enough for every code that it will meet. */
  ghost predicate LevelOk(x: Ctx, tabs: seq<Tab>, stack: seq<nat>, p: Bits, q: nat)
    requires x.Shape() && q < |stack|
  {
    && stack[q] < |tabs|
    && var T := tabs[stack[q]];
    && T.prefix < p && |T.prefix| <= x.g && (q == 0 ==> T.prefix == [])
    && (T.width >= x.l ||
        (|T.prefix| + T.width <= x.g && End(x.g, T.prefix) <= Space(x.cs, x.g, |T.prefix| + T.width)))
    && (q + 1 < |stack| ==>
        && stack[q + 1] < |tabs|
        && |tabs[stack[q + 1]].prefix| == |T.prefix| + x.l
        && T.width >= x.l
        && (T.width == x.l ==>
            && |T.prefix| + x.l <= |p|
            && var j := Lsb(p[|T.prefix|..|T.prefix| + x.l]);
            j < |T.info| && T.info[j] != Unset))
  }

  ghost predicate StackOk(x: Ctx, tabs: seq<Tab>, stack: seq<nat>, p: Bits)
    requires x.Shape()
  {
    forall q :: 0 <= q < |stack| ==> LevelOk(x, tabs, stack, p, q)
  }

  /** Tables off the stack serve only streams below `pos`. */
  ghost predicate Finished(x: Ctx, tabs: seq<Tab>, stack: seq<nat>, pos: nat)
    requires x.Shape()
  {
    forall t :: 0 <= t < |tabs| ==>
      |tabs[t].prefix| <= x.g && (t in stack || End(x.g, tabs[t].prefix) <= pos)
  }

  /** Index `j` is filled with the entry of code `p` exactly when its streams begin with `p`. */
  lemma IndexMatches(T: Tab, j: nat, p: Bits)
    requires T.prefix <= p && |p| <= |T.prefix| + T.width && j < Pow2(T.width)
    ensures Low(j, |p| - |T.prefix|) == Lsb(p[|T.prefix|..]) <==> p <= T.Path(j)
  {
    var b, m := ToBits(j, T.width), |p| - |T.prefix|;
    LsbToBits(j, T.width);
    LsbSplit(b, m);
    assert p == T.prefix + p[|T.prefix|..];
    assert T.Path(j)[..|p|] == T.prefix + b[..m];
    if Lsb(b[..m]) == Lsb(p[|T.prefix|..]) {
      LsbInjective(b[..m], p[|T.prefix|..]);
    }
    if p <= T.Path(j) {
      assert b[..m] == p[|T.prefix|..];
    }
  }

  /** A code that a table on the stack serves is at most as long as the table is wide, unless the
      table has `l` bits or more. */
  lemma LongEnough(x: Ctx, tabs: seq<Tab>, stack: seq<nat>, p: Bits, q: nat)
    requires x.Shape() && q < |stack| && LevelOk(x, tabs, stack, p, q)
    requires 0 < |p| <= x.g && Space(x.cs, x.g, |p| - 1) <= Start(x.g, p)
    ensures var T := tabs[stack[q]]; T.width >= x.l || |p| <= |T.prefix| + T.width
  {
    var T := tabs[stack[q]];
    Nested(x.g, T.prefix, p);
    EndBound(x.g, p);
    if T.width < x.l && |p| > |T.prefix| + T.width {
      SpaceMonotone(x.cs, x.g, |T.prefix| + T.width, |p| - 1);
    }
  }

  /** The shape of a table does not change once it is made. */
  ghost predicate Extends(tabs: seq<Tab>, tabs': seq<Tab>) {
    && |tabs| <= |tabs'|
    && forall t :: 0 <= t < |tabs| ==>
         && tabs'[t].prefix == tabs[t].prefix && tabs'[t].width == tabs[t].width
         && |tabs'[t].info| == |tabs[t].info|
  }

  lemma SizedStill(x: Ctx, tabs: seq<Tab>, tabs': seq<Tab>)
    requires x.Shape() && AllSized(x, tabs) && Extends(tabs, tabs') && |tabs'| == |tabs|
    ensures AllSized(x, tabs')
  {
    hide Space, End;
    forall t | 0 <= t < |tabs'| ensures Sized(x, tabs'[t]) {
      assert Sized(x, tabs[t]);
    }
  }

  lemma EntryFrame(x: Ctx, mem: seq<seq<Huft>>, tabs: seq<Tab>, mem': seq<seq<Huft>>, tabs': seq<Tab>,
                   t: nat, j: nat)
    requires x.Valid() && |mem| == |tabs| && |mem'| == |tabs'| && t < |tabs| && Extends(tabs, tabs')
    requires j < |mem[t]| == |tabs[t].info| == |mem'[t]|
    requires mem'[t][j] == mem[t][j] && tabs'[t].info[j] == tabs[t].info[j]
    requires EntryOk(x, mem, tabs, t, j)
    ensures EntryOk(x, mem', tabs', t, j)
  {
    assert tabs'[t].Path(j) == tabs[t].Path(j);
  }
}
