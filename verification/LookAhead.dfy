/** How far the decoder of src/opkg/libbb/unzip.c reads ahead: the bits in its buffer after a symbol, as a
    function of the code and of the stream. */
module LookAhead {
  import opened BitStrings
  import opened CanonicalCode
  import opened HuftTables
  import opened HuftParts
  import opened BitReader

  /** The longest code that `b` gives, and the shortest. */
  function MaxLength(b: seq<nat>): nat { Longest(Counts(b), BMAX) }

  function ShortestFrom(c: seq<nat>, k: nat): (s: nat)
    requires k <= BMAX + 1 == |c|
    ensures k <= s <= BMAX + 1 && (forall m :: k <= m < s ==> c[m] == 0) && (s <= BMAX ==> c[s] > 0)
    decreases BMAX + 1 - k
  {
    if k > BMAX || c[k] > 0 then k else ShortestFrom(c, k + 1)
  }

  /** How many bits index the first table: `m`, brought between the shortest and the longest length; none when
      there are no codes. */
  function RootWidth(b: seq<nat>, m: nat): nat {
    var first := ShortestFrom(Counts(b), 1);
    var l := if m < first then first else m;
    if l > MaxLength(b) then MaxLength(b) else l
  }

  /** It is `m`, unless all codes are longer, or shorter, and then that of the shortest, or the longest. */
  lemma RootWidthIs(b: seq<nat>, m: nat)
    requires MaxLength(b) > 0
    ensures var r := RootWidth(b, m);
            && (forall k :: 0 < k < r && m < r ==> Counts(b)[k] == 0) && (m < r ==> Counts(b)[r] > 0)
            && (r < m ==> r == MaxLength(b))
  {
    assert Counts(b)[MaxLength(b)] > 0;
  }

  /** How many index the table for the streams that begin with `prefix`, when it is not the first: as many as
      the longest code among them needs, or `l` when that is longer. */
  ghost function SubWidth(b: seq<nat>, l: nat, prefix: Bits, j: nat): nat
    decreases l - j
  {
    var g, k := MaxLength(b), |prefix| + j;
    if j >= l || k >= g || End(g, prefix) <= Space(Counts(b), g, k) then j else SubWidth(b, l, prefix, j + 1)
  }

  ghost function WidthAt(b: seq<nat>, l: nat, prefix: Bits): nat {
    if prefix == [] then l else SubWidth(b, l, prefix, 1)
  }

  /** The bits in the buffer after a symbol of `len` bits at the front of `bits`, of which `at` have been
      taken, when there are `held` of the others: every table on the way asks for as many as index it. */
  ghost function SymbolHeld(b: seq<nat>, l: nat, bits: Bits, at: nat, len: nat, held: int): int
    requires at < len <= |bits|
    decreases len - at
  {
    var h := Fill(held, WidthAt(b, l, bits[..at]), |bits| - at);
    if l == 0 || len <= at + l then h - (len - at) else SymbolHeld(b, l, bits, at + l, len, h - l)
  }

  /** The same for the tables themselves. */
  ghost function WalkHeld(mem: seq<seq<Huft>>, t: nat, width: nat, bits: Bits, held: int): int
    decreases |bits|
  {
    if width > |bits| || width > BMAX || t >= |mem| || |mem[t]| < Pow2(width) then held
    else
      LsbBound(bits[..width]);
      var r, h := mem[t][Lsb(bits[..width])], Fill(held, width, |bits|);
      if r.e > 16 && r.e != INVALID && r.v.Table? && 0 < r.b <= width
      then WalkHeld(mem, r.v.t, r.e - 16, bits[r.b..], h - r.b)
      else h - r.b
  }

  /** Reading a symbol through the tables leaves as many bits in the buffer as the code says. */
  ghost predicate Holding(mem: seq<seq<Huft>>, width: nat, cd: Coding)
    requires cd.Valid()
  {
    forall bits: Bits, held: int :: HoldingAt(mem, width, cd, bits, held)
  }

  ghost predicate HoldingAt(mem: seq<seq<Huft>>, width: nat, cd: Coding, bits: Bits, held: int)
    requires cd.Valid()
  {
    var r := Reference(cd, bits);
    |bits| >= BMAX && cd.Decodable(bits) && r.Found? && 0 < r.used <= |bits| ==>
      WalkHeld(mem, 0, width, bits, held) == SymbolHeld(cd.b, width, bits, 0, r.used, held)
  }

  // --------------------------------------------------------------------- the widths of tables

  /** The first width from `j` on for which the codes with the prefix fit is that of the table. */
  lemma {:induction false} SubWidthIs(x: Ctx, T: Tab, j: nat)
    requires x.Valid() && Sized(x, T) && 0 < |T.prefix| && 0 < j <= T.width <= x.l
    ensures SubWidth(x.c.b, x.l, T.prefix, j) == T.width
    decreases T.width - j
  {
    var k := |T.prefix| + j;
    if k < x.g {
      SpaceLocal(x.cs, Counts(x.c.b), x.g, k);
    }
    if j < T.width {
      SpaceMonotone(x.cs, x.g, k, |T.prefix| + T.width - 1);
      SubWidthIs(x, T, j + 1);
    }
  }

  lemma {:induction false} SubWidthAtMost(b: seq<nat>, l: nat, prefix: Bits, j: nat)
    ensures SubWidth(b, l, prefix, j) <= if l > j then l else j
    decreases l - j
  {
    var g, k := MaxLength(b), |prefix| + j;
    if !(j >= l || k >= g || End(g, prefix) <= Space(Counts(b), g, k)) {
      SubWidthAtMost(b, l, prefix, j + 1);
    }
  }

  lemma SizedWidth(x: Ctx, tabs: seq<Tab>, t: nat)
    requires x.Valid() && AllSized(x, tabs) && t < |tabs| && 0 < tabs[t].width <= x.l
    requires tabs[t].prefix == [] ==> tabs[t].width == x.l
    ensures WidthAt(x.c.b, x.l, tabs[t].prefix) == tabs[t].width
  {
    assert Sized(x, tabs[t]);
    if tabs[t].prefix != [] {
      SubWidthIs(x, tabs[t], 1);
    }
  }

  // ------------------------------------------------------------------------------ the walk

  lemma WalkUses(mem: seq<seq<Huft>>, t: nat, width: nat, bits: Bits)
    requires Walk(mem, t, width, bits).Found?
    ensures 0 < Walk(mem, t, width, bits).used <= |bits|
    decreases |bits|
  {
    LsbBound(bits[..width]);
    var r := mem[t][Lsb(bits[..width])];
    if r.e > 16 {
      WalkUses(mem, r.v.t, r.e - 16, bits[r.b..]);
    }
  }

  /** One table on the way. */
  lemma HeldStep(mem: seq<seq<Huft>>, t: nat, width: nat, bits: Bits, held: int)
    requires t < |mem| && width <= |bits| && width <= BMAX && |mem[t]| >= Pow2(width)
    requires Lsb(bits[..width]) < Pow2(width)
    ensures var r, h := mem[t][Lsb(bits[..width])], Fill(held, width, |bits|);
            WalkHeld(mem, t, width, bits, held) ==
            if r.e > 16 && r.e != INVALID && r.v.Table? && 0 < r.b <= width
            then WalkHeld(mem, r.v.t, r.e - 16, bits[r.b..], h - r.b)
            else h - r.b
  {
  }

  lemma SymbolStep(b: seq<nat>, l: nat, bits: Bits, at: nat, len: nat, held: int)
    requires at < len <= |bits| && l > 0
    ensures var h := Fill(held, WidthAt(b, l, bits[..at]), |bits| - at);
            SymbolHeld(b, l, bits, at, len, held) ==
            if len <= at + l then h - (len - at) else SymbolHeld(b, l, bits, at + l, len, h - l)
  {
  }

  lemma {:induction false} WalkHeldIs(x: Ctx, mem: seq<seq<Huft>>, tabs: seq<Tab>, t: nat, bits: Bits, held: int)
    requires x.Valid() && x.c.Decodable(bits) && TabsOk(x, mem, tabs) && Covered(x, mem, tabs, Pow2(x.g))
    requires AllSized(x, tabs) && forall u :: 0 <= u < |tabs| ==> tabs[u].width <= x.l
    requires t < |tabs| && tabs[t].prefix <= bits && |bits| >= x.g
    requires tabs[t].prefix == [] ==> tabs[t].width == x.l
    requires Reference(x.c, bits).Found?
    ensures var used, at := Reference(x.c, bits).used, |tabs[t].prefix|;
            && at < used <= |bits|
            && WalkHeld(mem, t, tabs[t].width, bits[at..], held) == SymbolHeld(x.c.b, x.l, bits, at, used, held)
    decreases |tabs| - t
  {
    hide Walk, Reference, EntryOk, Lsb, Covered, WalkHeld, SymbolHeld, WidthAt, AllSized, Fill, Coding.Decodable;
    hide Space, Pow2, Counts, Longest, Coding.Valid;
    var at, used, width := |tabs[t].prefix|, Reference(x.c, bits).used, tabs[t].width;
    WalkCorrect(x, mem, tabs, t, bits);
    WalkUses(mem, t, width, bits[at..]);
    var j := EntryReached(x, mem, tabs, t, bits);
    SizedWidth(x, tabs, t);
    assert bits[..at] == tabs[t].prefix;
    SymbolStep(x.c.b, x.l, bits, at, used, held);
    HeldStep(mem, t, width, bits[at..], held);
    var h := Fill(held, width, |bits| - at);
    if tabs[t].info[j].Sub? {
      var u := SubReached(x, mem, tabs, t, bits, j);
      WalkHeldIs(x, mem, tabs, u, bits, h - x.l);
      assert bits[at..][x.l..] == bits[at + x.l..];
    } else {
      LeafUses(x, mem, tabs, t, j, bits);
    }
  }

  lemma LeafUses(x: Ctx, mem: seq<seq<Huft>>, tabs: seq<Tab>, t: nat, j: nat, bits: Bits)
    requires x.Valid() && |mem| == |tabs| && t < |tabs| && TabOk(x, mem, tabs, t)
    requires |bits| >= x.g && |tabs[t].prefix| + tabs[t].width <= x.g
    requires j < Pow2(tabs[t].width) && tabs[t].Path(j) <= bits && Reference(x.c, bits).Found?
    requires EntryOk(x, mem, tabs, t, j) && !tabs[t].info[j].Sub? && !tabs[t].info[j].Unset?
    ensures mem[t][j].e <= 16 && Reference(x.c, bits).used == |tabs[t].prefix| + mem[t][j].b
    ensures mem[t][j].b <= tabs[t].width
  {
    var path := tabs[t].Path(j);
    match tabs[t].info[j]
    case Dummy =>
      Uncoded(x, path, bits);
    case Junk =>
      Uncoded(x, path, bits);
    case Code(s) =>
      MatchesExtend(x.c.b, s, path, bits);
      ReferenceFound(x.c, s, bits);
  }

  /** The whole walk, from the first table on. */
  lemma HoldingFrom(x: Ctx, mem: seq<seq<Huft>>, tabs: seq<Tab>)
    requires x.Valid() && TabsOk(x, mem, tabs) && Covered(x, mem, tabs, Pow2(x.g)) && AllSized(x, tabs)
    requires 0 < |tabs| && tabs[0].prefix == [] && tabs[0].width == x.l
    requires forall u :: 0 <= u < |tabs| ==> tabs[u].width <= x.l
    ensures Holding(mem, x.l, x.c)
  {
    hide TabsOk, Covered, AllSized, WalkHeld, SymbolHeld, Reference;
    forall bits: Bits, held: int ensures HoldingAt(mem, x.l, x.c, bits, held) {
      if |bits| >= BMAX && x.c.Decodable(bits) && Reference(x.c, bits).Found? {
        WalkHeldIs(x, mem, tabs, 0, bits, held);
        assert bits[0..] == bits;
      }
    }
  }
}
