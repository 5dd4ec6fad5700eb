/** Extended attributes: the lists that mksquashfs stores, values in line or out of line and each long
    value once, and how they are found again. */
module Xattr {
  import opened Basics
  import opened BitStrings
  import opened LittleEndian
  import opened Squashfs
  import opened Metadata

  // ---------------------------------------------------------------------------------- names

  /** prefix_table (read_xattrs.c:79-84): "user.", "trusted.", "security." */
  const PREFIXES: seq<seq<Byte>> := [
    [117, 115, 101, 114, 46],
    [116, 114, 117, 115, 116, 101, 100, 46],
    [115, 101, 99, 117, 114, 105, 116, 121, 46]]

  lemma PrefixesAre()
    ensures |PREFIXES| == 3 && Spelled(PREFIXES[0], "user.") && Spelled(PREFIXES[1], "trusted.")
    ensures Spelled(PREFIXES[2], "security.")
  {
  }

  predicate Spelled(b: seq<Byte>, s: string) { |b| == |s| && forall i :: 0 <= i < |s| ==> b[i] == s[i] as nat }

  /** An attribute by its full name; and with the prefix taken off. */
  datatype Full = Full(name: seq<Byte>, value: seq<Byte>)

  datatype Attr = Attr(kind: nat, name: seq<Byte>, value: seq<Byte>) {
    predicate Valid() { kind < 3 && |name| < 0x1_0000 && |value| < 0x1_0000_0000 }
  }

  function Joined(a: Attr): Full
    requires a.kind < 3
  {
    Full(PREFIXES[a.kind] + a.name, a.value)
  }

  /** get_prefix (xattr.c:104-122): the first prefix that the name has; 3 when it has none. */
  function KindOf(name: seq<Byte>): nat {
    if PREFIXES[0] <= name then 0 else if PREFIXES[1] <= name then 1 else if PREFIXES[2] <= name then 2 else 3
  }

  /** A name has one prefix at most. */
  lemma KindIs(name: seq<Byte>, k: nat)
    requires k < 3
    ensures KindOf(name) == k <==> PREFIXES[k] <= name
    ensures KindOf(name) <= 3
  {
    assert forall j :: 0 <= j < 3 && PREFIXES[j] <= name ==> name[0] == PREFIXES[j][0];
  }

  function Split(f: Full): Attr {
    var k := KindOf(f.name);
    Attr(k, if k < 3 then f.name[|PREFIXES[k]|..] else f.name, f.value)
  }

  lemma SplitJoined(f: Full)
    requires KindOf(f.name) < 3
    ensures Joined(Split(f)) == f
  {
  }

  // ---------------------------------------------------------------------------- what is stored

  function EncodeValue(v: seq<Byte>): (b: seq<Byte>)
    requires |v| < 0x1_0000_0000
    ensures |b| == 4 + |v|
  {
    Le32(|v|) + v
  }

  const OOL := 256

  /** An attribute as stored, its value in line or out of line behind a reference. */
  function EncodeAttr(a: Attr, ool: Option<nat>): (b: seq<Byte>)
    requires a.Valid()
    ensures |b| == 4 + |a.name| + if ool.Some? then 12 else 4 + |a.value|
  {
    EncodeName(a, ool.Some?) + EncodeBody(a, ool)
  }

  function EncodeName(a: Attr, ool: bool): (b: seq<Byte>)
    requires a.Valid()
    ensures |b| == 4 + |a.name|
  {
    Le16(a.kind + if ool then OOL else 0) + Le16(|a.name|) + a.name
  }

  function EncodeBody(a: Attr, ool: Option<nat>): (b: seq<Byte>)
    requires a.Valid()
    ensures |b| == if ool.Some? then 12 else 4 + |a.value|
  {
    if ool.Some? then Le32(8) + Le64(ool.value) else EncodeValue(a.value)
  }

  /** The bytes of an attribute: its type, with bit 8 set when the value is out of line, the length of its name and
      the name; then the length of the value and the value, or the length of a reference and the reference. */
  lemma AttrIs(a: Attr, ool: Option<nat>)
    requires a.Valid() && (ool.Some? ==> ool.value / 0x1_0000_0000 < 0x1_0000_0000)
    ensures var b, n := EncodeAttr(a, ool), 4 + |a.name|;
            && Get16(b, 0) == a.kind + (if ool.Some? then 0x100 else 0) && Get16(b, 2) == |a.name|
            && b[4..n] == a.name
            && (if ool.Some? then Get32(b, n) == 8 && Get64(b, n + 4) == ool.value
                else Get32(b, n) == |a.value| && b[n + 4..] == a.value)
  {
    var b, n := EncodeAttr(a, ool), 4 + |a.name|;
    hide Get16, Get32, Get64, Le16, Le32, Le64, EncodeBody;
    HeadIs(b, a.kind + if ool.Some? then 0x100 else 0, a.name, EncodeBody(a, ool));
    BodyIs(b, n, a, ool);
  }

  lemma HeadIs(b: seq<Byte>, kind: nat, name: seq<Byte>, body: seq<Byte>)
    requires kind < 0x1_0000 && |name| < 0x1_0000 && b == Le16(kind) + Le16(|name|) + name + body
    ensures Get16(b, 0) == kind && Get16(b, 2) == |name| && b[4..4 + |name|] == name && In(b, 4 + |name|, body)
  {
    hide Get16, Le16;
    assert b == Le16(kind) + (Le16(|name|) + (name + body));
    assert In(b, 0, Le16(kind) + (Le16(|name|) + (name + body)));
    InParts(b, 0, Le16(kind), Le16(|name|) + (name + body));
    InParts(b, 2, Le16(|name|), name + body);
    InParts(b, 4, name, body);
    In16(b, 0, kind);
    In16(b, 2, |name|);
  }

  lemma BodyIs(b: seq<Byte>, n: nat, a: Attr, ool: Option<nat>)
    requires a.Valid() && (ool.Some? ==> ool.value / 0x1_0000_0000 < 0x1_0000_0000)
    requires In(b, n, EncodeBody(a, ool)) && |b| == n + |EncodeBody(a, ool)|
    ensures if ool.Some? then Get32(b, n) == 8 && Get64(b, n + 4) == ool.value
            else Get32(b, n) == |a.value| && b[n + 4..] == a.value
  {
    hide Get32, Get64, Le32, Le64;
    if ool.Some? {
      InParts(b, n, Le32(8), Le64(ool.value));
      In32(b, n, 8);
      In64(b, n + 4, ool.value);
    } else {
      InParts(b, n, Le32(|a.value|), a.value);
      In32(b, n, |a.value|);
      assert b[n + 4..n + 4 + |a.value|] == a.value;
    }
  }

  predicate AllValid(list: seq<Attr>) { forall i :: 0 <= i < |list| ==> list[i].Valid() }

  function EncodeList(list: seq<Attr>, ools: seq<Option<nat>>): seq<Byte>
    requires AllValid(list) && |ools| == |list|
  {
    if list == [] then []
    else EncodeList(list[..|list| - 1], ools[..|list| - 1]) + EncodeAttr(list[|list| - 1], ools[|list| - 1])
  }

  /** The stream of xattr data, with what it is compressed by. */
  datatype Store = Store(c: Codec, noX: bool, s: seq<Byte>) {
    /** `r` is the reference to position `p`. */
    predicate Ref(r: nat, p: nat) { RefTo(c, noX, s, r, p) }

    ghost predicate ValueAt(r: nat, p: nat, v: seq<Byte>) {
      |v| < 0x1_0000_0000 && Ref(r, p) && In(s, p, EncodeValue(v))
    }

    /** `r` leads to the value `v`. */
    ghost predicate Leads(r: nat, v: seq<Byte>) { exists p: nat :: ValueAt(r, p, v) }

    /** The list is at `p`, and every reference in it leads to the value that it stands for. */
    ghost predicate ListAt(p: nat, list: seq<Attr>, ools: seq<Option<nat>>) {
      && AllValid(list) && |ools| == |list| && In(s, p, EncodeList(list, ools))
      && forall i :: 0 <= i < |list| && ools[i].Some? ==> Leads(ools[i].value, list[i].value)
    }

    ghost predicate Holds(r: nat, list: seq<Attr>) { exists p: nat, ools :: Ref(r, p) && ListAt(p, list, ools) }

    function Plus(more: seq<Byte>): Store { Store(c, noX, s + more) }

    lemma PlusTwice(a: seq<Byte>, b: seq<Byte>)
      ensures Plus(a).Plus(b) == Plus(a + b)
    {
      assert s + a + b == s + (a + b);
    }

    lemma RefPlus(more: seq<Byte>, r: nat, p: nat)
      requires Ref(r, p)
      ensures Plus(more).Ref(r, p)
    {
      StartStable(c, s, more, p, noX);
    }

    lemma LeadsPlus(more: seq<Byte>, r: nat, v: seq<Byte>)
      requires Leads(r, v)
      ensures Plus(more).Leads(r, v)
    {
      hide EncodeValue;
      var p: nat :| ValueAt(r, p, v);
      RefPlus(more, r, p);
      InLonger(s, more, p, EncodeValue(v));
      assert Plus(more).ValueAt(r, p, v);
    }

    lemma ListPlus(more: seq<Byte>, p: nat, list: seq<Attr>, ools: seq<Option<nat>>)
      requires ListAt(p, list, ools)
      ensures Plus(more).ListAt(p, list, ools)
    {
      hide EncodeList;
      InLonger(s, more, p, EncodeList(list, ools));
      forall i | 0 <= i < |list| && ools[i].Some?
        ensures Plus(more).Leads(ools[i].value, list[i].value)
      {
        LeadsPlus(more, ools[i].value, list[i].value);
      }
    }

    lemma HoldsPlus(more: seq<Byte>, r: nat, list: seq<Attr>)
      requires Holds(r, list)
      ensures Plus(more).Holds(r, list)
    {
      hide ListAt, Ref;
      var p: nat, ools :| Ref(r, p) && ListAt(p, list, ools);
      RefPlus(more, r, p);
      ListPlus(more, p, list, ools);
    }
  }

  // --------------------------------------------------------------------------------- how much

  /** Room for each value out of line, and for each attribute. */
  function ValueRoom(list: seq<Attr>): nat {
    if list == [] then 0 else ValueRoom(list[..|list| - 1]) + 4 + |list[|list| - 1].value|
  }

  function EntryRoom(list: seq<Attr>): nat {
    if list == [] then 0
    else EntryRoom(list[..|list| - 1]) + 16 + |list[|list| - 1].name| + |list[|list| - 1].value|
  }

  /** The most that a list can take. */
  function Room(list: seq<Attr>): nat { ValueRoom(list) + EntryRoom(list) }

  function RoomFor(lists: seq<seq<Full>>): nat {
    if lists == [] then 0 else RoomFor(lists[..|lists| - 1]) + Room(Splits(lists[|lists| - 1]))
  }

  lemma {:induction false} ListRoom(list: seq<Attr>, ools: seq<Option<nat>>)
    requires AllValid(list) && |ools| == |list|
    ensures |EncodeList(list, ools)| <= EntryRoom(list)
    decreases |list|
  {
    if list != [] {
      ListRoom(list[..|list| - 1], ools[..|list| - 1]);
    }
  }

  lemma ValueRoomNext(list: seq<Attr>, k: nat)
    requires k < |list|
    ensures ValueRoom(list[..0]) == 0 && ValueRoom(list[..k + 1]) == ValueRoom(list[..k]) + 4 + |list[k].value|
  {
    assert list[..k + 1][..k] == list[..k];
  }

  lemma NoValues(list: seq<Attr>)
    ensures ValueRoom(list[..0]) == 0 && list[..|list|] == list
  {
  }

  lemma RoomNext(lists: seq<seq<Full>>, i: nat)
    requires i < |lists|
    ensures RoomFor(lists[..i + 1]) == RoomFor(lists[..i]) + Room(Splits(lists[i]))
  {
    assert lists[..i + 1][..i] == lists[..i];
  }

  // ------------------------------------------------------------------------------ the writer

  const INLINE_MAX := 128
  const TARGET_MAX := 65536
  const OOL_SIZE := 8

  /** get_xattr_size, for all of a list, when values above `max` are out of line. */
  function TotalSize(list: seq<Attr>, max: nat): nat {
    if list == [] then 0
    else TotalSize(list[..|list| - 1], max) + 8 + |list[|list| - 1].name|
         + if |list[|list| - 1].value| > max then OOL_SIZE else |list[|list| - 1].value|
  }

  /** The inline thresholds that are tried. */
  predicate Threshold(max: nat) { max == 128 || max == 64 || max == 32 || max == 16 || max == 8 }

  /** It is the length of the list as it is stored then. */
  lemma {:induction false} TotalSizeIs(list: seq<Attr>, max: nat)
    requires AllValid(list)
    ensures TotalSize(list, max) == |EncodeList(list, Outside(list, max))|
  {
    if list != [] {
      var n := |list| - 1;
      TotalSizeIs(list[..n], max);
      assert Outside(list, max)[..n] == Outside(list[..n], max);
    }
  }

  function Outside(list: seq<Attr>, max: nat): (r: seq<Option<nat>>)
    ensures |r| == |list|
  {
    seq(|list|, i requires 0 <= i < |list| => if |list[i].value| > max then Some(0) else None)
  }

  /** The threshold: the largest with which the list comes to 65536 bytes at most, or the smallest. */
  ghost predicate Fitting(list: seq<Attr>, max: nat) {
    && Threshold(max) && (TotalSize(list, max) <= 0x1_0000 || max == 8)
    && forall m: nat :: Threshold(m) && m > max ==> TotalSize(list, m) > 0x1_0000
  }

  /** The cells of a list up to cell `k`: a value is out of line when it is above the threshold, or has 8 bytes or
      more and has come up before; others are in line. */
  predicate Spread(cells: seq<Cell>, base: nat, list: seq<Attr>, max: nat, k: nat) {
    && |cells| == base + |list| && (forall i :: 0 <= i < |list| ==> cells[base + i].attr == list[i])
    && forall i :: 0 <= i < |list| ==>
         (cells[base + i].ool <==>
            |list[i].value| > max || (base + i < k && 8 <= |list[i].value| && Earlier(cells, base + i)))
  }

  /** Each value of 8 bytes or more that the first `n` cells have is on the chain of its checksum. */
  ghost predicate Listed(sum: seq<Byte> -> nat, chains: map<nat, seq<nat>>, cells: seq<Cell>, n: nat) {
    forall k :: 0 <= k < n && k < |cells| && 8 <= |cells[k].attr.value| ==>
      OnChain(sum, chains, cells, cells[k].attr.value)
  }

  ghost predicate OnChain(sum: seq<Byte> -> nat, chains: map<nat, seq<nat>>, cells: seq<Cell>, v: seq<Byte>) {
    sum(v) in chains && exists e :: e in chains[sum(v)] && e < |cells| && cells[e].attr.value == v
  }

  /** A cell before has the same value. */
  predicate Earlier(cells: seq<Cell>, k: nat)
    requires k < |cells|
  {
    exists e :: 0 <= e < k && cells[e].attr.value == cells[k].attr.value
  }

  /** An element of a list: what it is, whether its value is out of line, and where the value is. */
  datatype Cell = Cell(attr: Attr, ool: bool, ref: Option<nat>)

  /** An entry of the id table. */
  datatype Id = Id(ref: nat, count: nat)

  /** data_cache and xattr_table, in `w`; the lists of every file, one after the other, as xattr_list
      entries that chains and references share; dupl, the chains of values by checksum; and
      xattr_id_table.  `lists` are the lists that the ids stand for. */
  class XattrWriter {
    const w: MetadataWriter
    const sum: seq<Byte> -> nat
    var cells: seq<Cell>
    var chains: map<nat, seq<nat>>
    var ids: seq<Id>
    ghost var lists: seq<seq<Attr>>

    ghost function S(): Store
      reads w
    {
      Store(w.codec, w.noI, w.stream)
    }

    ghost predicate Valid()
      reads this, w
    {
      Sound() && Settled(|cells|) && Listed(sum, chains, cells, |cells|)
    }

    /** Also while a list is being stored. */
    ghost predicate Sound()
      reads this, w
    {
      w.Valid() && CellsOk(S(), cells) && ChainsOk(chains, |cells|) && IdsOk(S(), ids, lists)
    }

    /** Values on the chains from lists before `base` have their places. */
    ghost predicate Settled(base: nat)
      reads this
    {
      forall h, k :: h in chains && k in chains[h] && k < base && k < |cells| ==> cells[k].ref.Some?
    }

    constructor (codec: Codec, noX: bool, sum: seq<Byte> -> nat)
      ensures Valid() && fresh(w) && lists == [] && ids == [] && w.codec == codec && w.noI == noX
      ensures w.stream == []
    {
      w := new MetadataWriter(codec, noX);
      this.sum, cells, chains, ids, lists := sum, [], map[], [], [];
    }

    /** get_xattr_space (lines 255-307), and what is put there. */
    method Put(record: seq<Byte>) returns (r: nat)
      requires Sound()
      modifies w
      ensures Sound() && S() == old(S()).Plus(record) && S().Ref(r, |old(w.stream)|)
    {
      hide CellsOk, IdsOk, ChainsOk;
      ghost var before := S();
      r := w.PutInode(record);
      CellsPlus(before, record, cells);
      IdsPlus(before, record, ids, lists);
    }

    /** The first loop of generate_xattrs (lines 541-571): the largest threshold with which the list is not
        too long, or the smallest. */
    method ChooseMax(list: seq<Attr>) returns (max: nat)
      ensures Fitting(list, max)
    {
      max := INLINE_MAX;
      while true
        invariant Threshold(max)
        invariant forall m: nat :: Threshold(m) && m > max ==> TotalSize(list, m) > TARGET_MAX
        decreases max
      {
        var total, i := 0, 0;
        while i < |list|
          invariant 0 <= i <= |list| && total == TotalSize(list[..i], max)
        {
          assert list[..i + 1][..i] == list[..i];
          total := total + 8 + |list[i].name| + if |list[i].value| > max then OOL_SIZE else |list[i].value|;
          i := i + 1;
        }
        assert list[..i] == list;
        if total <= TARGET_MAX || max == OOL_SIZE {
          return;
        }
        // halving 128 comes to 8 without going below it
        max := max / 2;
      }
    }

    /** The search of check_value_dupl (lines 372-378). */
    method FindValue(chain: seq<nat>, value: seq<Byte>) returns (k: nat)
      requires forall i :: 0 <= i < |chain| ==> chain[i] < |cells|
      ensures k <= |cells|
      ensures k < |cells| ==> k in chain && cells[k].attr.value == value
      ensures k >= |cells| ==> forall i :: 0 <= i < |chain| ==> cells[chain[i]].attr.value != value
    {
      var i := 0;
      while i < |chain|
        invariant 0 <= i <= |chain|
        invariant forall j :: 0 <= j < i ==> cells[chain[j]].attr.value != value
      {
        if cells[chain[i]].attr.value == value {
          return chain[i];
        }
        i := i + 1;
      }
      k := |cells|;
    }

    /** check_value_dupl (lines 363-402) */
    method CheckDuplicate(k: nat, ghost base: nat)
      requires Sound() && Settled(base) && base <= k < |cells| && cells[k].ref.None? && ChainsOk(chains, k)
      requires Listed(sum, chains, cells, k)
      modifies this
      ensures Sound() && Settled(base) && |cells| == |old(cells)| && ids == old(ids) && lists == old(lists)
      ensures ChainsOk(chains, k + 1) && Listed(sum, chains, cells, k + 1)
      ensures cells[k].ool <==> old(cells)[k].ool || (8 <= |cells[k].attr.value| && Earlier(cells, k))
      ensures forall i :: 0 <= i < |cells| && i != k ==> cells[i] == old(cells)[i]
      ensures cells[k].attr == old(cells)[k].attr && (old(cells)[k].ool ==> cells[k].ool)
      ensures cells[k].ref.Some? ==> cells[k].ool
    {
      hide IdsOk, Earlier, ChainsOk, CellsOk, Listed, OnChain;
      ChainsNext(chains, k, cells[k].attr.value, sum, |cells|);
      var v := cells[k].attr.value;
      if |v| < OOL_SIZE {
        ShortListed(sum, chains, cells, k);
        return;
      }
      var chain := if sum(v) in chains then chains[sum(v)] else [];
      var e := FindValue(chain, v);
      UpBefore(sum, chains, cells, k);
      if e == |cells| {
        NotFound(sum, chains, cells, k);
        chains := chains[sum(v) := [k] + chain];
      } else {
        Found(cells, k, e);
        FoundListed(sum, chains, cells, k, e);
        FoundLeads(S(), cells, k, e);
        cells := cells[k := cells[k].(ool := true, ref := cells[e].ref)];
      }
    }

    /** A value put out of line (lines 587-595). */
    method PutValue(k: nat)
      requires Sound() && k < |cells| && cells[k].ref.None?
      modifies this, w
      ensures Sound() && |cells| == |old(cells)| && ids == old(ids) && lists == old(lists) && chains == old(chains)
      ensures cells == old(cells)[k := old(cells)[k].(ref := cells[k].ref)] && cells[k].ref.Some?
      ensures S() == old(S()).Plus(EncodeValue(cells[k].attr.value))
    {
      hide IdsOk, EncodeValue;
      var v := cells[k].attr.value;
      var r := PutWhole(v);
      cells := cells[k := cells[k].(ref := Some(r))];
    }

    /** An entry of the list, its value in line or a reference to it (lines 607-626). */
    method PutEntry(k: nat)
      requires Sound() && k < |cells| && (cells[k].ool ==> cells[k].ref.Some?)
      modifies this, w
      ensures Sound() && |cells| == |old(cells)| && ids == old(ids) && lists == old(lists) && chains == old(chains)
      ensures cells == old(cells)[k := old(cells)[k].(ref := cells[k].ref)] && cells[k].ref.Some?
      ensures cells[k].ool ==> cells[k] == old(cells)[k]
      ensures S() == old(S()).Plus(EncodeAttr(cells[k].attr, OolOf(cells[k])))
    {
      hide CellsOk, ChainsOk, IdsOk, EncodeBody, EncodeName;
      ghost var s := S();
      var c := cells[k];
      AttrsValid(s, cells);
      var _ := Put(EncodeName(c.attr, c.ool));
      PutBody(k);
      s.PlusTwice(EncodeName(c.attr, c.ool), EncodeBody(c.attr, OolOf(cells[k])));
    }

    method PutBody(k: nat)
      requires Sound() && k < |cells| && (cells[k].ool ==> cells[k].ref.Some?)
      modifies this, w
      ensures Sound() && |cells| == |old(cells)| && ids == old(ids) && lists == old(lists) && chains == old(chains)
      ensures cells == old(cells)[k := old(cells)[k].(ref := cells[k].ref)] && cells[k].ref.Some?
      ensures cells[k].ool ==> cells[k] == old(cells)[k]
      ensures cells[k].attr.Valid() && S() == old(S()).Plus(EncodeBody(cells[k].attr, OolOf(cells[k])))
    {
      hide ChainsOk, IdsOk, EncodeValue, Le64, Le32;
      if cells[k].ool {
        var _ := Put(Le32(8) + Le64(cells[k].ref.value));
      } else {
        var v := cells[k].attr.value;
        var r := PutWhole(v);
        cells := cells[k := cells[k].(ref := Some(r))];
      }
    }

    /** A value, and the reference that leads to it. */
    method PutWhole(v: seq<Byte>) returns (r: nat)
      requires Sound() && |v| < 0x1_0000_0000
      modifies w
      ensures Sound() && S() == old(S()).Plus(EncodeValue(v)) && S().Leads(r, v)
    {
      hide IdsOk, CellsOk, ChainsOk, EncodeValue;
      ghost var p := |w.stream|;
      r := Put(EncodeValue(v));
      AtEnd(S(), p, EncodeValue(v));
      assert S().ValueAt(r, p, v);
    }

    /** The values of the list from `base` on that are out of line and are not stored yet (lines 584-596). */
    method PutValues(base: nat)
      requires Sound() && Settled(base) && base <= |cells|
      modifies this, w
      ensures Sound() && Settled(base) && SameList(old(cells), cells, base) && ids == old(ids) && lists == old(lists)
      ensures chains == old(chains)
      ensures forall k :: base <= k < |cells| && cells[k].ool ==> cells[k].ref.Some?
      ensures |w.stream| <= |old(w.stream)| + ValueRoom(old(AttrsOf(cells[base..])))
    {
      hide CellsOk, IdsOk, ChainsOk, ValueRoom, EncodeValue;
      ghost var attrs := AttrsOf(cells[base..]);
      NoValues(attrs);
      var k := base;
      while k < |cells|
        invariant base <= k <= |cells| && Sound() && Settled(base) && SameList(old(cells), cells, base)
        invariant ids == old(ids) && lists == old(lists) && chains == old(chains)
        invariant forall i :: base <= i < k && cells[i].ool ==> cells[i].ref.Some?
        invariant |w.stream| <= |old(w.stream)| + ValueRoom(attrs[..k - base])
        decreases |cells| - k
      {
        ValueRoomNext(attrs, k - base);
        assert cells[k].attr == attrs[k - base];
        if cells[k].ool && cells[k].ref.None? {
          PutValue(k);
        }
        k := k + 1;
      }
    }

    /** The list itself (lines 601-627). */
    method PutList(base: nat, ghost p: nat)
      requires Sound() && Settled(base) && base <= |cells| && p == |w.stream|
      requires forall k :: base <= k < |cells| && cells[k].ool ==> cells[k].ref.Some?
      modifies this, w
      ensures Sound() && Settled(|cells|) && SameList(old(cells), cells, base) && ids == old(ids) && lists == old(lists)
      ensures chains == old(chains) && old(w.stream) <= w.stream
      ensures |w.stream| <= |old(w.stream)| + EntryRoom(AttrsOf(cells[base..]))
      ensures AllValid(AttrsOf(cells[base..])) && S().ListAt(p, AttrsOf(cells[base..]), OolsOf(cells[base..]))
    {
      hide CellsOk, IdsOk, ChainsOk, EncodeAttr, EncodeList, EntryRoom, MetadataWriter.Valid;
      ghost var before := w.stream;
      var k := base;
      NothingStored(cells, base);
      AttrsValid(S(), cells);
      while k < |cells|
        invariant base <= k <= |cells| && Sound() && Settled(base) && SameList(old(cells), cells, base)
        invariant ids == old(ids) && lists == old(lists) && chains == old(chains)
        invariant forall i :: base <= i < |cells| && (i < k || cells[i].ool) ==> cells[i].ref.Some?
        invariant AllValid(AttrsOf(cells[base..k]))
        invariant w.stream == before + EncodeList(AttrsOf(cells[base..k]), OolsOf(cells[base..k]))
        decreases |cells| - k
      {
        ghost var now := cells;
        PutEntry(k);
        OneStored(now, cells, base, k);
        k := k + 1;
      }
      assert cells[base..k] == cells[base..];
      ListRoom(AttrsOf(cells[base..]), OolsOf(cells[base..]));
      AtEnd(S(), p, EncodeList(AttrsOf(cells[base..]), OolsOf(cells[base..])));
      AllLead(S(), cells, base);
    }

    /** The list gets its entries, each in line or out of line, and those with a value that is there already
        its place (lines 541-578). */
    method Prepare(list: seq<Attr>)
      requires Valid() && AllValid(list)
      modifies this
      ensures Sound() && Settled(|old(cells)|) && |cells| == |old(cells)| + |list|
      ensures AttrsOf(cells[|old(cells)|..]) == list && ids == old(ids) && lists == old(lists)
      ensures exists max :: Fitting(list, max) && Spread(cells, |old(cells)|, list, max, |cells|)
      ensures Listed(sum, chains, cells, |cells|)
    {
      hide CellsOk, IdsOk, ChainsOk, Fitting, Earlier, Listed;
      var max := ChooseMax(list);
      var base := |cells|;
      MoreCells(S(), cells, chains, list, max);
      cells := cells + seq(|list|, i requires 0 <= i < |list| => Cell(list[i], |list[i].value| > max, None));
      ListedOn(sum, chains, old(cells), cells, base);
      CheckDuplicates(base, list, max);
      assert AttrsOf(cells[base..]) == list;
    }

    /** The values that are there already get their places (lines 576-578). */
    method CheckDuplicates(base: nat, ghost list: seq<Attr>, ghost max: nat)
      requires Sound() && Settled(base) && |cells| == base + |list| && ChainsOk(chains, base)
      requires Listed(sum, chains, cells, base) && Spread(cells, base, list, max, base)
      requires forall i :: base <= i < |cells| ==> cells[i].ref.None?
      modifies this
      ensures Sound() && Settled(base) && |cells| == |old(cells)| && ids == old(ids) && lists == old(lists)
      ensures Listed(sum, chains, cells, |cells|) && Spread(cells, base, list, max, |cells|)
    {
      hide CellsOk, IdsOk, ChainsOk, Earlier, Listed, Spread;
      var k := base;
      while k < |cells|
        invariant base <= k <= |cells| && Sound() && Settled(base) && |cells| == base + |list|
        invariant ids == old(ids) && lists == old(lists)
        invariant forall i :: k <= i < |cells| ==> cells[i].ref.None?
        invariant ChainsOk(chains, k) && Spread(cells, base, list, max, k) && Listed(sum, chains, cells, k)
        decreases |cells| - k
      {
        ghost var now := cells;
        CheckDuplicate(k, base);
        SpreadOn(now, cells, base, list, max, k);
        k := k + 1;
      }
    }

    /** The values that are out of line, and behind them the list (lines 584-627). */
    method PutAll(base: nat, ghost list: seq<Attr>) returns (disk: nat)
      requires Sound() && Settled(base) && base <= |cells| && AttrsOf(cells[base..]) == list
      modifies this, w
      ensures Sound() && Settled(|cells|) && SameList(old(cells), cells, base) && ids == old(ids) && lists == old(lists)
      ensures chains == old(chains) && |w.stream| <= |old(w.stream)| + Room(list)
      ensures IdsOk(S(), ids + [Id(disk, |list|)], lists + [list])
    {
      hide CellsOk, IdsOk, ChainsOk, ValueRoom, EntryRoom;
      PutValues(base);
      ghost var p := |w.stream|;
      disk := Put([]);
      ghost var s := S();
      PutList(base, p);
      assert AttrsOf(cells[base..]) == list;
      OneId(s, S(), disk, p, list, OolsOf(cells[base..]), ids, lists);
    }

    /** generate_xattrs (lines 500-633), for a list that is not a duplicate of one before. */
    method Generate(list: seq<Attr>) returns (id: nat)
      requires Valid() && AllValid(list)
      modifies this, w
      ensures Valid() && id == |old(ids)| == |ids| - 1 && old(ids) <= ids && lists == old(lists) + [list]
      ensures |w.stream| <= |old(w.stream)| + Room(list)
      ensures exists max :: Fitting(list, max) && Spread(cells, |old(cells)|, list, max, |cells|)
    {
      hide CellsOk, IdsOk, ChainsOk, ValueRoom, EntryRoom, Fitting, Spread, Listed;
      var base := |cells|;
      Prepare(list);
      ghost var prepared := cells;
      ghost var max :| Fitting(list, max) && Spread(cells, base, list, max, |cells|);
      var disk := PutAll(base, list);
      SpreadSame(prepared, cells, base, list, max, |cells|);
      ListedOn(sum, chains, prepared, cells, |cells|);
      id := |ids|;
      ids := ids + [Id(disk, |list|)];
      lists := lists + [list];
    }
  }

  lemma ChainsNext(chains: map<nat, seq<nat>>, k: nat, v: seq<Byte>, sum: seq<Byte> -> nat, n: nat)
    requires ChainsOk(chains, k) && k < n
    ensures var chain := if sum(v) in chains then chains[sum(v)] else [];
            && (forall i :: 0 <= i < |chain| ==> chain[i] < k)
            && ChainsOk(chains, k + 1) && ChainsOk(chains, n)
            && ChainsOk(chains[sum(v) := [k] + chain], k + 1) && ChainsOk(chains[sum(v) := [k] + chain], n)
  {
  }

  lemma Found(cells: seq<Cell>, k: nat, e: nat)
    requires e < k < |cells| && cells[e].attr.value == cells[k].attr.value
    ensures forall c: Cell :: c.attr == cells[k].attr ==> Earlier(cells[k := c], k)
  {
    forall c: Cell | c.attr == cells[k].attr ensures Earlier(cells[k := c], k) {
      assert cells[k := c][e].attr.value == cells[k := c][k].attr.value;
    }
  }

  lemma FoundLeads(s: Store, cells: seq<Cell>, k: nat, e: nat)
    requires CellsOk(s, cells) && e < |cells| && k < |cells| && cells[e].attr.value == cells[k].attr.value
    ensures CellsOk(s, cells[k := cells[k].(ool := true, ref := cells[e].ref)])
  {
  }

  /** Values stay on their chains while cells keep their values. */
  lemma ListedOn(sum: seq<Byte> -> nat, chains: map<nat, seq<nat>>, before: seq<Cell>, cells: seq<Cell>, n: nat)
    requires |before| <= |cells| && forall i :: 0 <= i < |before| ==> cells[i].attr == before[i].attr
    requires n <= |before| && Listed(sum, chains, before, n)
    ensures Listed(sum, chains, cells, n)
  {
    forall k | 0 <= k < n && 8 <= |cells[k].attr.value|
      ensures OnChain(sum, chains, cells, cells[k].attr.value)
    {
      assert OnChain(sum, chains, before, before[k].attr.value);
      var v := cells[k].attr.value;
      var e :| e in chains[sum(v)] && e < |before| && before[e].attr.value == v;
      assert e in chains[sum(v)] && e < |cells| && cells[e].attr.value == v;
    }
  }

  lemma FoundListed(sum: seq<Byte> -> nat, chains: map<nat, seq<nat>>, cells: seq<Cell>, k: nat, e: nat)
    requires Listed(sum, chains, cells, k) && e < k < |cells| && cells[e].attr.value == cells[k].attr.value
    requires sum(cells[k].attr.value) in chains && e in chains[sum(cells[k].attr.value)]
    ensures forall c: Cell :: c.attr == cells[k].attr ==> Listed(sum, chains, cells[k := c], k + 1)
  {
    assert OnChain(sum, chains, cells, cells[k].attr.value);
    assert Listed(sum, chains, cells, k + 1);
    forall c: Cell | c.attr == cells[k].attr ensures Listed(sum, chains, cells[k := c], k + 1) {
      ListedOn(sum, chains, cells, cells[k := c], k + 1);
    }
  }

  lemma ShortListed(sum: seq<Byte> -> nat, chains: map<nat, seq<nat>>, cells: seq<Cell>, k: nat)
    requires Listed(sum, chains, cells, k) && k < |cells| && |cells[k].attr.value| < 8
    ensures Listed(sum, chains, cells, k + 1)
  {
  }

  /** A value that has come up before is on its chain. */
  lemma UpBefore(sum: seq<Byte> -> nat, chains: map<nat, seq<nat>>, cells: seq<Cell>, k: nat)
    requires Listed(sum, chains, cells, k) && k < |cells| && 8 <= |cells[k].attr.value|
    ensures Earlier(cells, k) ==> OnChain(sum, chains, cells, cells[k].attr.value)
  {
    if Earlier(cells, k) {
      var e :| 0 <= e < k && cells[e].attr.value == cells[k].attr.value;
      assert OnChain(sum, chains, cells, cells[e].attr.value);
    }
  }

  /** The cell whose value is not on the chain goes to its front. */
  lemma NotFound(sum: seq<Byte> -> nat, chains: map<nat, seq<nat>>, cells: seq<Cell>, k: nat)
    requires Listed(sum, chains, cells, k) && k < |cells| && 8 <= |cells[k].attr.value|
    requires var v := cells[k].attr.value;
             sum(v) in chains ==> forall i :: 0 <= i < |chains[sum(v)]| ==>
               chains[sum(v)][i] < |cells| && cells[chains[sum(v)][i]].attr.value != v
    ensures var v := cells[k].attr.value;
            var chain := if sum(v) in chains then chains[sum(v)] else [];
            Listed(sum, chains[sum(v) := [k] + chain], cells, k + 1)
  {
    var v := cells[k].attr.value;
    var chain := if sum(v) in chains then chains[sum(v)] else [];
    var chains' := chains[sum(v) := [k] + chain];
    forall j | 0 <= j < k + 1 && 8 <= |cells[j].attr.value|
      ensures OnChain(sum, chains', cells, cells[j].attr.value)
    {
      var u := cells[j].attr.value;
      if j < k {
        assert OnChain(sum, chains, cells, u);
        var e :| e in chains[sum(u)] && e < |cells| && cells[e].attr.value == u;
        assert e in chains'[sum(u)];
      } else {
        assert k in chains'[sum(u)];
      }
    }
  }

  /** Only cell `k` changes, and only in that it is found to have come up before. */
  lemma SpreadOn(before: seq<Cell>, cells: seq<Cell>, base: nat, list: seq<Attr>, max: nat, k: nat)
    requires Spread(before, base, list, max, k) && |cells| == |before| && base <= k < |cells|
    requires forall i :: 0 <= i < |cells| && i != k ==> cells[i] == before[i]
    requires cells[k].attr == before[k].attr
    requires cells[k].ool <==> before[k].ool || (8 <= |cells[k].attr.value| && Earlier(cells, k))
    ensures Spread(cells, base, list, max, k + 1)
  {
    forall j | 0 <= j < |cells| ensures Earlier(cells, j) <==> Earlier(before, j) {
      SameEarlier(before, cells, j);
    }
    hide Earlier;
  }

  lemma SameEarlier(before: seq<Cell>, cells: seq<Cell>, k: nat)
    requires k < |cells| == |before| && forall i :: 0 <= i < |cells| ==> cells[i].attr == before[i].attr
    ensures Earlier(cells, k) <==> Earlier(before, k)
  {
    if Earlier(cells, k) {
      var e :| 0 <= e < k && cells[e].attr.value == cells[k].attr.value;
      assert before[e].attr.value == before[k].attr.value;
    }
    if Earlier(before, k) {
      var e :| 0 <= e < k && before[e].attr.value == before[k].attr.value;
      assert cells[e].attr.value == cells[k].attr.value;
    }
  }

  lemma SpreadSame(before: seq<Cell>, cells: seq<Cell>, base: nat, list: seq<Attr>, max: nat, k: nat)
    requires |cells| == |before| && forall i :: 0 <= i < |cells| ==>
               cells[i].attr == before[i].attr && cells[i].ool == before[i].ool
    requires Spread(before, base, list, max, k)
    ensures Spread(cells, base, list, max, k)
  {
    forall k | 0 <= k < |cells| ensures Earlier(cells, k) <==> Earlier(before, k) {
      SameEarlier(before, cells, k);
    }
    hide Earlier;
  }

  function OolOf(c: Cell): Option<nat> { if c.ool then c.ref else None }

  function AttrsOf(cells: seq<Cell>): (r: seq<Attr>)
    ensures |r| == |cells|
  {
    seq(|cells|, i requires 0 <= i < |cells| => cells[i].attr)
  }

  function OolsOf(cells: seq<Cell>): (r: seq<Option<nat>>)
    ensures |r| == |cells|
  {
    seq(|cells|, i requires 0 <= i < |cells| => OolOf(cells[i]))
  }

  /** From `base` on, only references are filled in. */
  predicate SameList(before: seq<Cell>, after: seq<Cell>, base: nat) {
    && |after| == |before|
    && forall i :: 0 <= i < |before| ==>
         && after[i].attr == before[i].attr && after[i].ool == before[i].ool
         && (before[i].ref.Some? ==> after[i].ref.Some?) && (i < base ==> after[i] == before[i])
  }

  lemma OneId(s: Store, s': Store, r: nat, p: nat, list: seq<Attr>, ools: seq<Option<nat>>, ids: seq<Id>,
              lists: seq<seq<Attr>>)
    requires s.Ref(r, p) && s'.c == s.c && s'.noX == s.noX && s.s <= s'.s && s'.ListAt(p, list, ools)
    requires IdsOk(s', ids, lists)
    ensures IdsOk(s', ids + [Id(r, |list|)], lists + [list])
  {
    var more := s'.s[|s.s|..];
    assert s' == s.Plus(more);
    s.RefPlus(more, r, p);
    assert s'.Holds(r, list);
  }

  lemma NothingStored(cells: seq<Cell>, base: nat)
    requires base <= |cells|
    ensures AllValid(AttrsOf(cells[base..base]))
    ensures EncodeList(AttrsOf(cells[base..base]), OolsOf(cells[base..base])) == []
  {
  }

  lemma AttrsValid(s: Store, cells: seq<Cell>)
    requires CellsOk(s, cells)
    ensures forall k :: 0 <= k < |cells| ==> cells[k].attr.Valid()
  {
  }

  lemma OneStored(now: seq<Cell>, cells: seq<Cell>, base: nat, k: nat)
    requires base <= k < |now| && |cells| == |now| && AllValid(AttrsOf(now[base..k])) && cells[k].attr.Valid()
    requires forall i :: 0 <= i < |now| && i != k ==> cells[i] == now[i]
    ensures AllValid(AttrsOf(cells[base..k + 1]))
    ensures EncodeList(AttrsOf(cells[base..k + 1]), OolsOf(cells[base..k + 1]))
         == EncodeList(AttrsOf(now[base..k]), OolsOf(now[base..k])) + EncodeAttr(cells[k].attr, OolOf(cells[k]))
  {
    hide EncodeAttr;
    var n := k - base;
    var a, o := AttrsOf(cells[base..k + 1]), OolsOf(cells[base..k + 1]);
    assert forall i :: 0 <= i < n ==> cells[base..k + 1][i] == now[base..k][i];
    assert a[..n] == AttrsOf(now[base..k]);
    assert o[..n] == OolsOf(now[base..k]);
    assert a[n] == cells[k].attr && o[n] == OolOf(cells[k]);
  }

  lemma AllLead(s: Store, cells: seq<Cell>, base: nat)
    requires CellsOk(s, cells) && base <= |cells|
    ensures forall i :: 0 <= i < |cells[base..]| && OolsOf(cells[base..])[i].Some? ==>
              s.Leads(OolsOf(cells[base..])[i].value, AttrsOf(cells[base..])[i].value)
  {
  }

  lemma MoreCells(s: Store, cells: seq<Cell>, chains: map<nat, seq<nat>>, list: seq<Attr>, max: nat)
    requires CellsOk(s, cells) && ChainsOk(chains, |cells|) && AllValid(list)
    ensures var more := seq(|list|, i requires 0 <= i < |list| => Cell(list[i], |list[i].value| > max, None));
            CellsOk(s, cells + more) && ChainsOk(chains, |cells + more|)
  {
  }

  ghost predicate CellsOk(s: Store, cells: seq<Cell>) {
    forall k :: 0 <= k < |cells| ==>
      cells[k].attr.Valid() && (cells[k].ref.Some? ==> s.Leads(cells[k].ref.value, cells[k].attr.value))
  }

  ghost predicate ChainsOk(chains: map<nat, seq<nat>>, n: nat) {
    forall h, i :: h in chains && 0 <= i < |chains[h]| ==> chains[h][i] < n
  }

  ghost predicate IdsOk(s: Store, ids: seq<Id>, lists: seq<seq<Attr>>) {
    |ids| == |lists| && forall i :: 0 <= i < |ids| ==> s.Holds(ids[i].ref, lists[i]) && ids[i].count == |lists[i]|
  }

  lemma CellsPlus(s: Store, more: seq<Byte>, cells: seq<Cell>)
    requires CellsOk(s, cells)
    ensures CellsOk(s.Plus(more), cells)
  {
    forall k | 0 <= k < |cells| && cells[k].ref.Some?
      ensures s.Plus(more).Leads(cells[k].ref.value, cells[k].attr.value)
    {
      s.LeadsPlus(more, cells[k].ref.value, cells[k].attr.value);
    }
  }

  lemma IdsPlus(s: Store, more: seq<Byte>, ids: seq<Id>, lists: seq<seq<Attr>>)
    requires IdsOk(s, ids, lists)
    ensures IdsOk(s.Plus(more), ids, lists)
  {
    forall i | 0 <= i < |ids| ensures s.Plus(more).Holds(ids[i].ref, lists[i]) {
      s.HoldsPlus(more, ids[i].ref, lists[i]);
    }
  }

  lemma AtEnd(s: Store, p: nat, part: seq<Byte>)
    requires p <= |s.s| && s.s == s.s[..p] + part
    ensures In(s.s, p, part)
  {
  }

  // ------------------------------------------------------------------------------ the reader

  /** Where a reference leads in the table that read_xattrs_from_disk makes. */
  ghost predicate Readable(st: Store, entries: map<nat, nat>, base: nat) {
    Mapped(entries, st.c, st.s, st.noX, base, |st.s|) && |Metadata.Encode(st.c, st.s, st.noX)| < 0x1_0000_0000
  }

  lemma RefResolves(st: Store, entries: map<nat, nat>, base: nat, r: nat, p: nat)
    requires Readable(st, entries, base) && st.Ref(r, p) && p < |st.s|
    ensures base + InodeBlk(r) in entries && entries[base + InodeBlk(r)] + InodeOffset(r) == p
    ensures r / 0x1_0000_0000 < 0x1_0000_0000
  {
    hide Metadata.Encode, StartOf, Mapped;
    assert st.s + [] == st.s;
    ReferenceResolves(st.c, st.s, [], st.noX, base, entries, p);
    StartLess(st.c, st.s, p - p % BLOCK, st.noX);
    StartOfBlock(st, p);
  }

  lemma StartOfBlock(st: Store, p: nat)
    requires p <= |st.s|
    ensures StartOf(st.c, st.s, p - p % BLOCK, st.noX) == StartOf(st.c, st.s, p, st.noX)
  {
    var n := p - p % BLOCK;
    assert n - n % BLOCK == n;
  }

  /** The entry at place `j` of a list. */
  lemma {:induction false} EncodeListAt(list: seq<Attr>, ools: seq<Option<nat>>, t: seq<Byte>, at: nat, j: nat)
    requires AllValid(list) && |ools| == |list| && In(t, at, EncodeList(list, ools)) && j < |list|
    ensures In(t, at + |EncodeList(list[..j], ools[..j])|, EncodeAttr(list[j], ools[j]))
    ensures EncodeList(list[..j + 1], ools[..j + 1]) == EncodeList(list[..j], ools[..j]) + EncodeAttr(list[j], ools[j])
    decreases |list|
  {
    hide EncodeAttr, In;
    var n := |list| - 1;
    InParts(t, at, EncodeList(list[..n], ools[..n]), EncodeAttr(list[n], ools[n]));
    assert list[..j + 1][..j] == list[..j] && ools[..j + 1][..j] == ools[..j];
    if j < n {
      assert list[..n][..j] == list[..j] && list[..n][..j + 1] == list[..j + 1];
      assert ools[..n][..j] == ools[..j] && ools[..n][..j + 1] == ools[..j + 1];
      EncodeListAt(list[..n], ools[..n], t, at, j);
    }
  }

  lemma NameAt(t: seq<Byte>, at: nat, a: Attr, ool: Option<nat>)
    requires a.Valid() && In(t, at, EncodeAttr(a, ool))
    ensures at + 4 + |a.name| <= |t| && t[at + 4..at + 4 + |a.name|] == a.name
    ensures Get16(t, at) == a.kind + (if ool.Some? then OOL else 0) && Get16(t, at + 2) == |a.name|
    ensures In(t, at + 4 + |a.name|, EncodeBody(a, ool))
  {
    hide EncodeBody;
    var kind := a.kind + if ool.Some? then OOL else 0;
    InParts(t, at, EncodeName(a, ool.Some?), EncodeBody(a, ool));
    InParts(t, at, Le16(kind) + Le16(|a.name|), a.name);
    InParts(t, at, Le16(kind), Le16(|a.name|));
    In16(t, at, kind);
    In16(t, at + 2, |a.name|);
  }

  lemma KindAndFlag(a: Attr, ool: Option<nat>)
    requires a.Valid()
    ensures var k := a.kind + (if ool.Some? then OOL else 0);
            k % 256 == a.kind && k / OOL % 2 == if ool.Some? then 1 else 0
  {
  }

  lemma WholeAt(t: seq<Byte>, at: nat, v: seq<Byte>)
    requires |v| < 0x1_0000_0000 && In(t, at, EncodeValue(v))
    ensures Get32(t, at) == |v| && at + 4 + |v| <= |t| && t[at + 4..at + 4 + |v|] == v
  {
    InParts(t, at, Le32(|v|), v);
    In32(t, at, |v|);
  }

  lemma ReferenceAt(t: seq<Byte>, at: nat, r: nat)
    requires In(t, at, Le32(8) + Le64(r)) && r / 0x1_0000_0000 < 0x1_0000_0000
    ensures Get64(t, at + 4) == r
  {
    InParts(t, at, Le32(8), Le64(r));
    In64(t, at + 4, r);
  }

  function Fulls(list: seq<Attr>): (r: seq<Full>)
    requires AllValid(list)
    ensures |r| == |list|
  {
    seq(|list|, i requires 0 <= i < |list| => Joined(list[i]))
  }

  /** Where a reference leads (read_xattrs.c:306-308, 342-344). */
  method Position(hash: HashTable, base: nat, r: nat, ghost st: Store, ghost p: nat) returns (at: nat)
    requires hash.Valid() && Readable(st, hash.entries, base) && st.Ref(r, p) && p < |st.s|
    ensures at == p
  {
    RefResolves(st, hash.entries, base, r, p);
    var b := hash.Lookup(base + InodeBlk(r));
    at := b.value + InodeOffset(r);
  }

  /** A value behind a reference (lines 335-346). */
  method ReadOutOfLine(hash: HashTable, t: seq<Byte>, base: nat, at: nat, ghost st: Store, ghost r: nat,
                       ghost v: seq<Byte>)
    returns (value: seq<Byte>)
    requires hash.Valid() && Readable(st, hash.entries, base) && t == st.s && st.Leads(r, v)
    requires In(t, at, Le32(8) + Le64(r))
    ensures value == v
  {
    ghost var p: nat :| st.ValueAt(r, p, v);
    RefResolves(st, hash.entries, base, r, p);
    ReferenceAt(t, at, r);
    var x := Position(hash, base, Get64(t, at + 4), st, p);
    WholeAt(t, x, v);
    value := t[x + 4..x + 4 + Get32(t, x)];
  }

  /** One attribute, and where the next one is (lines 325-355). */
  method ReadAttr(hash: HashTable, t: seq<Byte>, base: nat, at: nat, ghost st: Store, ghost a: Attr,
                  ghost ool: Option<nat>)
    returns (ok: bool, f: Full, next: nat)
    requires hash.Valid() && Readable(st, hash.entries, base) && t == st.s
    requires a.Valid() && In(t, at, EncodeAttr(a, ool)) && (ool.Some? ==> st.Leads(ool.value, a.value))
    ensures ok && f == Joined(a) && next == at + |EncodeAttr(a, ool)|
  {
    hide Le32, Le64, EncodeName, EncodeValue, EncodeAttr, Readable, Get64, Store.Leads;
    NameAt(t, at, a, ool);
    var kind, size := Get16(t, at), Get16(t, at + 2);
    KindAndFlag(a, ool);
    // read_xattr_entry (lines 135-163)
    if kind % 256 >= 3 {
      return false, Full([], []), at;
    }
    var name := PREFIXES[kind % 256] + t[at + 4..at + 4 + size];
    var body := at + 4 + size;
    if kind / OOL % 2 == 1 {
      var v := ReadOutOfLine(hash, t, base, body, st, ool.value, a.value);
      return true, Full(name, v), body + 12;
    }
    WholeAt(t, body, a.value);
    var n := Get32(t, body);
    return true, Full(name, t[body + 4..body + 4 + n]), body + 4 + n;
  }

  /** get_xattr (lines 295-358), from the tables that read_xattrs_from_disk makes of what write_xattrs
      wrote: the attributes of the list, by their full names. */
  method GetXattr(hash: HashTable, t: seq<Byte>, base: nat, id: Id, ghost st: Store, ghost list: seq<Attr>)
    returns (ok: bool, out: seq<Full>)
    requires hash.Valid() && Readable(st, hash.entries, base) && t == st.s
    requires list != [] && st.Holds(id.ref, list) && id.count == |list|
    ensures ok && AllValid(list) && out == Fulls(list)
  {
    hide EncodeAttr, EncodeList;
    ghost var p: nat, ools :| st.Ref(id.ref, p) && st.ListAt(p, list, ools);
    EncodeListAt(list, ools, t, p, 0);
    NoList(list, ools);
    var at := Position(hash, base, id.ref, st, p);
    out := [];
    var j := 0;
    while j < id.count
      invariant 0 <= j <= |list| && out == Fulls(list[..j])
      invariant at == p + |EncodeList(list[..j], ools[..j])|
    {
      EncodeListAt(list, ools, t, p, j);
      var f;
      ok, f, at := ReadAttr(hash, t, base, at, st, list[j], ools[j]);
      if !ok {
        return;
      }
      out := out + [f];
      assert Fulls(list[..j + 1]) == Fulls(list[..j]) + [f];
      j := j + 1;
    }
    assert list[..j] == list;
    return true, out;
  }

  lemma NoList(list: seq<Attr>, ools: seq<Option<nat>>)
    ensures AllValid(list[..0]) && Fulls(list[..0]) == [] && |ools| >= 0 && EncodeList([], []) == []
    ensures |ools| == |list| ==> EncodeList(list[..0], ools[..0]) == []
  {
  }

  /** Lists that can be stored: names with a prefix that the tools know. */
  predicate Storable(list: seq<Full>) {
    list != [] && forall i :: 0 <= i < |list| ==> KindOf(list[i].name) < 3 && Split(list[i]).Valid()
  }

  function Splits(list: seq<Full>): (r: seq<Attr>)
    ensures |r| == |list|
  {
    seq(|list|, i requires 0 <= i < |list| => Split(list[i]))
  }

  lemma SplitsBack(list: seq<Full>)
    requires Storable(list)
    ensures AllValid(Splits(list)) && Fulls(Splits(list)) == list
  {
    forall i | 0 <= i < |list| ensures Joined(Splits(list)[i]) == list[i] {
      SplitJoined(list[i]);
    }
  }

  /** Lists stored one after the other and written out: the table and the ids. */
  method StoreLists(codec: Codec, noX: bool, sum: seq<Byte> -> nat, lists: seq<seq<Full>>)
    returns (table: seq<Byte>, ids: seq<Id>, ghost st: Store)
    requires codec.Valid() && forall i :: 0 <= i < |lists| ==> Storable(lists[i])
    ensures st.c == codec && st.noX == noX && table == Metadata.Encode(codec, st.s, noX)
    ensures |ids| == |lists| && forall i :: 0 <= i < |lists| ==> IdFor(st, ids[i], lists[i])
    ensures |st.s| <= RoomFor(lists)
  {
    hide Storable, StartOf, Room, MetadataWriter.Valid, CellsOk, ChainsOk, IdsOk, Metadata.Encode, Splits;
    var x := new XattrWriter(codec, noX, sum);
    var i := 0;
    while i < |lists|
      invariant 0 <= i <= |lists| && fresh(x) && fresh(x.w) && x.Valid() && |x.ids| == i
      invariant x.w.codec == codec && x.w.noI == noX
      invariant |x.lists| == i && forall k :: 0 <= k < i ==> x.lists[k] == Splits(lists[k])
      invariant |x.w.stream| <= RoomFor(lists[..i])
    {
      RoomNext(lists, i);
      SplitsBack(lists[i]);
      ghost var before := x.lists;
      var _ := x.Generate(Splits(lists[i]));
      assert x.lists == before + [Splits(lists[i])];
      i := i + 1;
    }
    assert lists[..i] == lists;
    st := x.S();
    ids := x.ids;
    IdsFor(st, ids, x.lists, lists);
    table := x.w.Finish();
  }

  lemma IdsFor(st: Store, ids: seq<Id>, stored: seq<seq<Attr>>, lists: seq<seq<Full>>)
    requires IdsOk(st, ids, stored) && |stored| == |lists|
    requires forall k :: 0 <= k < |lists| ==> stored[k] == Splits(lists[k])
    ensures forall i :: 0 <= i < |lists| ==> IdFor(st, ids[i], lists[i])
  {
  }

  ghost predicate IdFor(st: Store, id: Id, list: seq<Full>) {
    st.Holds(id.ref, Splits(list)) && id.count == |list|
  }

  /** Lists stored, written out behind `front`, read back and looked up: each is as it was.  References have
      room for 2^32 bytes of table. */
  method StoreAndFind(codec: Codec, noX: bool, sum: seq<Byte> -> nat, lists: seq<seq<Full>>, front: seq<Byte>)
    returns (ok: bool, table: seq<Byte>, out: seq<seq<Full>>)
    requires codec.Valid() && forall i :: 0 <= i < |lists| ==> Storable(lists[i])
    ensures |table| <= TableRoom(RoomFor(lists)) && (ok <==> |table| < 0x1_0000_0000)
    ensures ok ==> out == lists
  {
    hide Storable, StartOf, In, Metadata.Encode, Mapped, Splits, Fulls, Store.Holds, AllValid;
    var ids;
    ghost var st;
    table, ids, st := StoreLists(codec, noX, sum, lists);
    EncodeRoom(codec, st.s, noX);
    out := [];
    if |table| >= 0x1_0000_0000 {
      return false, table, out;
    }
    Behind(front, table);
    var read, data, hash := UncompressInodeTable(codec, front + table, |front|, |front + table|, st.s, noX);
    var i := 0;
    while i < |lists|
      invariant 0 <= i <= |lists| && out == lists[..i]
      modifies {}
    {
      SplitsBack(lists[i]);
      NotEmpty(lists[i]);
      var found, list := GetXattr(hash, data, |front|, ids[i], st, Splits(lists[i]));
      out := out + [list];
      i := i + 1;
    }
    return true, table, out;
  }

  lemma NotEmpty(list: seq<Full>)
    requires Storable(list)
    ensures Splits(list) != []
  {
  }
}
