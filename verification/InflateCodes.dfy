/** inflate_codes of src/opkg/libbb/unzip.c: compressed symbols to output bytes. */
module InflateCodes {
  import opened BitStrings
  import opened CanonicalCode
  import opened HuftTables
  import opened HuftBuild
  import opened LookAhead
  import opened BitReader
  import opened Window

  /** Lines 502-520: bases and extra bits of the codes of section 3.2.5 of RFC 1951. */
  const CPLENS: seq<nat> :=
    [3, 4, 5, 6, 7, 8, 9, 10, 11, 13, 15, 17, 19, 23, 27, 31,
     35, 43, 51, 59, 67, 83, 99, 115, 131, 163, 195, 227, 258, 0, 0]
  const CPLEXT: seq<nat> :=
    [0, 0, 0, 0, 0, 0, 0, 0, 1, 1, 1, 1, 2, 2, 2, 2,
     3, 3, 3, 3, 4, 4, 4, 4, 5, 5, 5, 5, 0, 99, 99]
  const CPDIST: seq<nat> :=
    [1, 2, 3, 4, 5, 7, 9, 13, 17, 25, 33, 49, 65, 97, 129, 193,
     257, 385, 513, 769, 1025, 1537, 2049, 3073, 4097, 6145,
     8193, 12289, 16385, 24577]
  const CPDEXT: seq<nat> :=
    [0, 0, 0, 0, 1, 1, 2, 2, 3, 3, 4, 4, 5, 5, 6, 6,
     7, 7, 8, 8, 9, 9, 10, 10, 11, 11,
     12, 12, 13, 13]

  /** The extra bits that section 3.2.5 of RFC 1951 gives the length codes from 257 on: none for the first
      eight, then one more every four; none for the last code, which is that of 258 alone. */
  function LengthExtra(i: nat): nat { if i < 8 || i == 28 then 0 else (i - 4) / 4 }

  /** And the distance codes: none for the first four, then one more every two. */
  function DistanceExtra(i: nat): nat { if i < 4 then 0 else (i - 2) / 2 }

  lemma ExtraBits(i: nat)
    ensures i < 28 ==> CPLEXT[i] == LengthExtra(i)
    ensures i < 30 ==> CPDEXT[i] == DistanceExtra(i)
  {
  }

  /** The lengths go from 3 on without gap or overlap up to the code before the last. */
  lemma LengthsFollow(i: nat)
    requires i < 28
    ensures i == 0 ==> CPLENS[i] == 3
    ensures i > 0 ==> CPLENS[i] == CPLENS[i - 1] + Pow2(LengthExtra(i - 1))
    ensures i == 27 ==> CPLENS[i] + Pow2(LengthExtra(i)) == 259
  {
    hide Pow2;
    SmallPowers();
  }

  /** The last code is the length 258, and the two after it are not used. */
  lemma LastLength()
    ensures CPLENS[28] == 258 && CPLEXT[28] == 0 && LengthExtra(28) == 0
    ensures |CPLENS| == |CPLEXT| == 31 && CPLEXT[29] == CPLEXT[30] == INVALID
  {
  }

  /** The distances go from 1 to 32768 without gap or overlap. */
  lemma DistancesFollow(i: nat)
    requires i < 30
    ensures i == 0 ==> CPDIST[i] == 1
    ensures i > 0 ==> CPDIST[i] == CPDIST[i - 1] + Pow2(DistanceExtra(i - 1))
    ensures i == 29 ==> CPDIST[i] + Pow2(DistanceExtra(i)) == 32769
  {
    hide Pow2;
    SmallPowers();
  }

  lemma SmallPowers()
    ensures Pow2(0) == 1 && Pow2(1) == 2 && Pow2(2) == 4 && Pow2(3) == 8 && Pow2(4) == 16 && Pow2(5) == 32
    ensures Pow2(6) == 64 && Pow2(7) == 128 && Pow2(8) == 256 && Pow2(9) == 512 && Pow2(10) == 1024
    ensures Pow2(11) == 2048 && Pow2(12) == 4096 && Pow2(13) == 8192
  {
  }

  /** Each base is the one before it and all that its extra bits can add. */
  ghost predicate Follow(base: seq<nat>, extra: seq<nat>, n: nat) {
    n <= |base| && n <= |extra| && forall i :: 0 < i < n ==> base[i] == base[i - 1] + Pow2(extra[i - 1])
  }

  /** Every value from the first base on is a base and extra bits of one code. */
  lemma {:induction false} SomeCode(base: seq<nat>, extra: seq<nat>, n: nat, v: nat) returns (i: nat)
    requires Follow(base, extra, n) && n > 0 && base[0] <= v < base[n - 1] + Pow2(extra[n - 1])
    ensures i < n && base[i] <= v < base[i] + Pow2(extra[i])
    ensures forall j :: 0 <= j < n && base[j] <= v < base[j] + Pow2(extra[j]) ==> j == i
    decreases n
  {
    hide Pow2;
    if v >= base[n - 1] {
      i := n - 1;
      forall j | 0 <= j < n - 1 ensures base[j] + Pow2(extra[j]) <= v {
        LaterBase(base, extra, n, j, n - 1);
      }
    } else {
      i := SomeCode(base, extra, n - 1, v);
    }
  }

  lemma {:induction false} LaterBase(base: seq<nat>, extra: seq<nat>, n: nat, i: nat, j: nat)
    requires Follow(base, extra, n) && i < j < n
    ensures base[i] + Pow2(extra[i]) <= base[j]
    decreases j
  {
    hide Pow2;
    if i < j - 1 {
      LaterBase(base, extra, n, i, j - 1);
    }
  }

  /** Every length that a match can have is one code's, with extra bits of one value. */
  lemma EachLength(length: nat) returns (i: nat)
    requires 3 <= length <= 257
    ensures i < 28 && CPLENS[i] <= length < CPLENS[i] + Pow2(CPLEXT[i])
    ensures forall j :: 0 <= j < 28 && CPLENS[j] <= length < CPLENS[j] + Pow2(CPLEXT[j]) ==> j == i
  {
    hide CPLENS, CPLEXT, LengthExtra, Pow2;
    LastLength();
    forall j | 0 <= j < 28
      ensures CPLEXT[j] == LengthExtra(j) && (j > 0 ==> CPLENS[j] == CPLENS[j - 1] + Pow2(LengthExtra(j - 1)))
    {
      ExtraBits(j);
      LengthsFollow(j);
    }
    LengthsFollow(0);
    LengthsFollow(27);
    i := SomeCode(CPLENS, CPLEXT, 28, length);
  }

  /** And so is every distance. */
  lemma EachDistance(distance: nat) returns (i: nat)
    requires 1 <= distance <= 32768
    ensures i < 30 && CPDIST[i] <= distance < CPDIST[i] + Pow2(CPDEXT[i])
    ensures forall j :: 0 <= j < 30 && CPDIST[j] <= distance < CPDIST[j] + Pow2(CPDEXT[j]) ==> j == i
  {
    ThirtyDistances();
    hide CPDIST, CPDEXT, DistanceExtra, Pow2;
    forall j | 0 <= j < 30
      ensures CPDEXT[j] == DistanceExtra(j) && (j > 0 ==> CPDIST[j] == CPDIST[j - 1] + Pow2(DistanceExtra(j - 1)))
    {
      ExtraBits(j);
      DistancesFollow(j);
    }
    DistancesFollow(0);
    DistancesFollow(29);
    i := SomeCode(CPDIST, CPDEXT, 30, distance);
  }

  lemma ThirtyDistances()
    ensures |CPDIST| == |CPDEXT| == 30
  {
  }

  /** What the symbols of the two alphabets stand for (section 3.2.5 of RFC 1951). */
  lemma SymbolMeans(b: seq<nat>, s: nat, bits: Bits)
    requires LiteralCoding(b).Valid() && Matches(b, s, bits) && s <= 285
    ensures Reference(LiteralCoding(b), bits) ==
            if s < 256 then Found(LITERAL, s, b[s])
            else if s == 256 then Found(END_OF_BLOCK, s, b[s])
            else Found(LengthExtra(s - 257), CPLENS[s - 257], b[s])
  {
    ReferenceFound(LiteralCoding(b), s, bits);
    LastLength();
    if s > 256 {
      ExtraBits(s - 257);
    }
  }

  lemma DistanceMeans(d: seq<nat>, s: nat, bits: Bits)
    requires DistanceCoding(d).Valid() && Matches(d, s, bits)
    ensures s < 30 && Reference(DistanceCoding(d), bits) == Found(DistanceExtra(s), CPDIST[s], d[s])
  {
    ReferenceFound(DistanceCoding(d), s, bits);
    ThirtyDistances();
    ExtraBits(s);
  }

  function LiteralCoding(b: seq<nat>): Coding { Coding(b, 257, CPLENS, CPLEXT) }

  function DistanceCoding(b: seq<nat>): Coding { Coding(b, 0, CPDIST, CPDEXT) }

  /** What every symbol of the literal and length alphabet is like. */
  ghost predicate LiteralLike(r: Lookup) {
    r.Found? ==>
      && 1 <= r.used <= BMAX
      && (r.e == LITERAL ==> r.n < 256)
      && (r.e != LITERAL && r.e != END_OF_BLOCK ==> r.e <= 5 && 3 <= r.n)
  }

  ghost predicate DistanceLike(r: Lookup) {
    r.Found? ==> 1 <= r.used <= BMAX && r.e <= 13 && 1 <= r.n && r.n + Pow2(r.e) <= WSIZE + 1
  }

  /** The literal and length alphabet, and that of distances. */
  ghost predicate Alphabets(lit: Coding, dist: Coding) {
    && lit.Valid() && dist.Valid() && forall bits: Bits :: SymbolsLike(lit, dist, bits)
  }

  ghost predicate SymbolsLike(lit: Coding, dist: Coding, bits: Bits)
    requires lit.Valid() && dist.Valid()
  {
    LiteralLike(Reference(lit, bits)) && DistanceLike(Reference(dist, bits))
  }

  /** What a block says next, and the bits after it. */
  datatype Piece =
    | Literal(c: Byte, rest: Bits)
    | Match(distance: nat, length: nat, rest: Bits)
    | End(rest: Bits)
    | Wrong
    | Undefined

  /** More bits than any symbol with its extra bits and its distance takes. */
  const SYMBOL := 50

  lemma LengthBase(i: nat)
    requires i < 31
    ensures CPLEXT[i] != INVALID ==> CPLEXT[i] <= 5 && 3 <= CPLENS[i]
  {
  }

  lemma LongestDistance(i: nat)
    requires i < 30
    ensures CPDEXT[i] <= 13 && 1 <= CPDIST[i] && CPDIST[i] + Pow2(CPDEXT[i]) <= WSIZE + 1
  {
  }

  lemma TheAlphabets(b: seq<nat>, d: seq<nat>)
    requires LiteralCoding(b).Valid() && DistanceCoding(d).Valid()
    ensures Alphabets(LiteralCoding(b), DistanceCoding(d))
  {
    forall bits: Bits ensures SymbolsLike(LiteralCoding(b), DistanceCoding(d), bits) {
      LiteralBounds(b, bits);
      DistanceBounds(d, bits);
    }
  }

  lemma LiteralBounds(b: seq<nat>, bits: Bits)
    requires LiteralCoding(b).Valid()
    ensures LiteralLike(Reference(LiteralCoding(b), bits))
  {
    hide CPLENS, CPLEXT;
    LastLength();
    var lit := LiteralCoding(b);
    if lit.Coded(bits) {
      var s: nat :| Matches(lit.b, s, bits);
      ReferenceFound(lit, s, bits);
      if s >= 257 {
        LengthBase(s - 257);
      }
    }
  }

  lemma DistanceBounds(b: seq<nat>, bits: Bits)
    requires DistanceCoding(b).Valid()
    ensures DistanceLike(Reference(DistanceCoding(b), bits))
  {
    ThirtyDistances();
    hide CPDIST, CPDEXT, Pow2;
    var dist := DistanceCoding(b);
    if dist.Coded(bits) {
      var s: nat :| Matches(dist.b, s, bits);
      ReferenceFound(dist, s, bits);
      LongestDistance(s);
    }
  }

  /** The next piece of a block by section 3.2.5 of RFC 1951. */
  ghost function NextPiece(lit: Coding, dist: Coding, bits: Bits): (p: Piece)
    requires Alphabets(lit, dist) && |bits| >= SYMBOL
    ensures p.Literal? || p.Match? || p.End? ==> |p.rest| < |bits|
    ensures p.Match? ==> 1 <= p.distance <= WSIZE && 3 <= p.length
  {
    assert SymbolsLike(lit, dist, bits);
    var r := Reference(lit, bits);
    if !lit.Decodable(bits) then Undefined
    else if !r.Found? then Wrong
    else PieceAfter(r, lit, dist, bits[r.used..])
  }

  /** The piece that begins with symbol `r`, when `rest` follows it. */
  ghost function PieceAfter(r: Lookup, lit: Coding, dist: Coding, rest: Bits): (p: Piece)
    requires Alphabets(lit, dist) && r.Found? && LiteralLike(r) && |rest| >= SYMBOL - BMAX
    ensures p.Literal? || p.Match? || p.End? ==> |p.rest| <= |rest|
    ensures p.Match? ==> 1 <= p.distance <= WSIZE && 3 <= p.length
  {
    if r.e == LITERAL then Literal(r.n, rest)
    else if r.e == END_OF_BLOCK then End(rest)
    else MatchFrom(lit, dist, r.n + Lsb(rest[..r.e]), rest[r.e..])
  }

  ghost function MatchFrom(lit: Coding, dist: Coding, length: nat, bits: Bits): (p: Piece)
    requires Alphabets(lit, dist) && |bits| >= BMAX + 13
    ensures p.Match? ==> 1 <= p.distance <= WSIZE && p.length == length && |p.rest| < |bits|
    ensures p.Match? || p.Wrong? || p.Undefined?
  {
    assert SymbolsLike(lit, dist, bits);
    if !dist.Decodable(bits) then Undefined else MatchAfter(Reference(dist, bits), length, bits)
  }

  /** The match of the given length whose distance begins with symbol `r`. */
  ghost function MatchAfter(r: Lookup, length: nat, bits: Bits): (p: Piece)
    requires |bits| >= BMAX + 13 && DistanceLike(r)
    ensures p.Match? ==> 1 <= p.distance <= WSIZE && p.length == length && |p.rest| < |bits|
    ensures p.Match? || p.Wrong?
  {
    if !r.Found? then Wrong
    else
      LsbBound(bits[r.used..][..r.e]);
      Match(r.n + Lsb(bits[r.used..][..r.e]), length, bits[r.used..][r.e..])
  }

  /** A return code that means failure. */
  type Failure = n: nat | n != 0 witness 1

  /** How decoding ends: the code that the source returns and what is left of the input; where the
      source reads unset memory or before the output, nothing is said. */
  datatype Outcome = Done(rest: Bits, output: seq<Byte>) | Bad(code: Failure) | RanOut | Unspecified

  /** The symbols of a block by RFC 1951, put after `output`. */
  ghost function Symbols(lit: Coding, dist: Coding, bits: Bits, output: seq<Byte>): (o: Outcome)
    requires Alphabets(lit, dist)
    ensures o.Done? ==> |o.rest| <= |bits|
    decreases |bits|
  {
    if |bits| < SYMBOL then RanOut
    else
      match NextPiece(lit, dist, bits)
      case Literal(c, rest) => Symbols(lit, dist, rest, output + [c])
      case Match(distance, length, rest) =>
        if distance > |output| then Unspecified
        else Symbols(lit, dist, rest, Expand(output, distance, length))
      case End(rest) => Done(rest, output)
      case Wrong => Bad(1)
      case Undefined => Unspecified
  }

  // --------------------------------------------------------------------------- bits read ahead

  /** The bits in the buffer after the next piece, when the tables are indexed by `bl` and `bd` bits. */
  ghost function PieceHeld(lit: Coding, dist: Coding, bl: nat, bd: nat, bits: Bits, held: int): int
    requires Alphabets(lit, dist) && |bits| >= SYMBOL
  {
    var r := Reference(lit, bits);
    assert SymbolsLike(lit, dist, bits);
    if !r.Found? then 0
    else AfterHeld(r, dist, bd, bits[r.used..], SymbolHeld(lit.b, bl, bits, 0, r.used, held))
  }

  /** After what follows symbol `r`. */
  ghost function AfterHeld(r: Lookup, dist: Coding, bd: nat, rest: Bits, held: int): int
    requires dist.Valid() && r.Found? && |rest| >= SYMBOL - BMAX && LiteralLike(r)
  {
    if r.e == LITERAL || r.e == END_OF_BLOCK then held
    else MatchHeld(dist, bd, rest[r.e..], Taken(held, r.e, |rest|))
  }

  ghost function MatchHeld(dist: Coding, bd: nat, bits: Bits, held: int): int
    requires dist.Valid()
  {
    var r := Reference(dist, bits);
    if !r.Found? || !(0 < r.used <= |bits|) then 0
    else Taken(SymbolHeld(dist.b, bd, bits, 0, r.used, held), r.e, |bits| - r.used)
  }

  /** After the whole block. */
  ghost function SymbolsHeld(lit: Coding, dist: Coding, bl: nat, bd: nat, bits: Bits, held: int): int
    requires Alphabets(lit, dist)
    decreases |bits|
  {
    if |bits| < SYMBOL then 0
    else
      var h := PieceHeld(lit, dist, bl, bd, bits, held);
      match NextPiece(lit, dist, bits)
      case Literal(_, rest) => SymbolsHeld(lit, dist, bl, bd, rest, h)
      case Match(_, _, rest) => SymbolsHeld(lit, dist, bl, bd, rest, h)
      case End(_) => h
      case Wrong => 0
      case Undefined => 0
  }

  // ------------------------------------------------------------------------ the table reader

  /** What one entry adds to what has been found so far. */
  lemma WalkEntry(goal: Lookup, used: nat, mem: seq<seq<Huft>>, t: nat, w: nat, bits: Bits, r: Huft)
    requires goal == Consumed(used, Walk(mem, t, w, bits))
    requires w <= BMAX && w <= |bits| && t < |mem| && Lsb(bits[..w]) < |mem[t]| && r == mem[t][Lsb(bits[..w])]
    ensures r.e == INVALID ==> goal == Invalid || goal == Stuck
    ensures r.e != INVALID && (!(0 < r.b <= w) || r.v.Table? != (r.e > 16)) ==> goal == Stuck
    ensures r.e <= 16 && 0 < r.b <= w && r.v.Number? ==> goal == Stuck || goal == Found(r.e, r.v.n, used + r.b)
    ensures r.e != INVALID && r.e > 16 && 0 < r.b <= w && r.v.Table? ==>
              goal == Stuck || goal == Consumed(used + r.b, Walk(mem, r.v.t, r.e - 16, bits[r.b..]))
  {
  }

  lemma HeldEntry(mem: seq<seq<Huft>>, t: nat, w: nat, bits: Bits, r: Huft, held: int)
    requires Walk(mem, t, w, bits) != Stuck
    requires w <= BMAX && w <= |bits| && t < |mem| && Lsb(bits[..w]) < |mem[t]| && r == mem[t][Lsb(bits[..w])]
    ensures r.e <= 16 ==> WalkHeld(mem, t, w, bits, held) == Fill(held, w, |bits|) - r.b
    ensures r.e != INVALID && r.e > 16 && 0 < r.b <= w && r.v.Table? ==>
              WalkHeld(mem, t, w, bits, held) ==
              WalkHeld(mem, r.v.t, r.e - 16, bits[r.b..], Fill(held, w, |bits|) - r.b)
  {
  }

  lemma WalkStuck(mem: seq<seq<Huft>>, t: nat, w: nat, bits: Bits)
    requires w > BMAX || w > |bits| || t >= |mem| || (|mem[t]| <= Lsb(bits[..w]))
    ensures Walk(mem, t, w, bits) == Stuck
  {
    if w <= |bits| {
      LsbBound(bits[..w]);
    }
  }

  /** Follow the tables to the next symbol (lines 390-408, 433-451).  `Stuck` stands for what the
      source does when it reads outside the tables. */
  method ReadSymbol(inp: Input, mem: seq<seq<Huft>>, width: nat) returns (r: Lookup)
    requires inp.Valid()
    modifies inp
    ensures inp.Valid() && |inp.stream| <= |old(inp.stream)|
    ensures Walk(mem, 0, width, old(inp.stream)) != Stuck ==> r == Walk(mem, 0, width, old(inp.stream))
    ensures r.Found? ==>
              0 < r.used <= |old(inp.stream)| && inp.stream == old(inp.stream)[r.used..]
    ensures r.Found? && Walk(mem, 0, width, old(inp.stream)) != Stuck ==>
              inp.bk == WalkHeld(mem, 0, width, old(inp.stream), old(inp.bk))
  {
    hide Walk, WalkHeld, Holds, Fill;
    ghost var whole := inp.stream;
    ghost var goal, held := Walk(mem, 0, width, whole), WalkHeld(mem, 0, width, whole, inp.bk);
    var t: nat, w: nat, used: nat := 0, width, 0;
    while true
      invariant inp.Valid() && used <= |whole| && inp.stream == whole[used..]
      invariant goal == Stuck || goal == Consumed(used, Walk(mem, t, w, inp.stream))
      invariant goal == Stuck || held == WalkHeld(mem, t, w, inp.stream, inp.bk)
      decreases |inp.stream|
    {
      var e: Huft;
      var ok;
      ghost var before := inp.bk;
      ok, e := ReadEntry(inp, mem, t, w);
      if !ok {
        return Stuck;
      }
      if goal != Stuck {
        WalkEntry(goal, used, mem, t, w, inp.stream, e);
        HeldEntry(mem, t, w, inp.stream, e, before);
      }
      if e.e == INVALID {
        return Invalid;
      }
      if !(0 < e.b <= w) || e.v.Table? != (e.e > 16) {
        return Stuck;
      }
      inp.Drop(e.b);
      assert inp.stream == whole[used + e.b..];
      used := used + e.b;
      if e.e <= 16 {
        return Found(e.e, e.v.n, used);
      }
      t, w := e.v.t, e.e - 16;
    }
  }

  /** The entry at the next `w` bits, which stay in the buffer. */
  method ReadEntry(inp: Input, mem: seq<seq<Huft>>, t: nat, w: nat) returns (ok: bool, r: Huft)
    requires inp.Valid()
    modifies inp
    ensures inp.Valid() && inp.stream == old(inp.stream)
    ensures ok ==>
      && inp.bk == Fill(old(inp.bk), w, |inp.stream|)
      && w <= BMAX && w <= inp.bk && w <= |inp.stream| && t < |mem| && Lsb(inp.stream[..w]) < |mem[t]|
      && r == mem[t][Lsb(inp.stream[..w])]
    ensures !ok ==> Walk(mem, t, w, inp.stream) == Stuck
  {
    r := Huft(INVALID, 0, Number(0));
    if w > BMAX || !inp.Has(w) || t >= |mem| {
      WalkStuck(mem, t, w, inp.stream);
      return false, r;
    }
    inp.Need(w);
    var j := inp.Peek(w);
    if j >= |mem[t]| {
      WalkStuck(mem, t, w, inp.stream);
      return false, r;
    }
    return true, mem[t][j];
  }

  // ---------------------------------------------------------------------------- inflate_codes

  /** What a function of the source comes to: it returns, the input ends, or it does something that
      its language leaves undefined. */
  datatype Status = Return(code: nat) | OutOfInput | Undetermined

  /** The status and the new state are those that RFC 1951 gives. */
  ghost predicate Meets(spec: Outcome, s: Status, stream: Bits, output: seq<Byte>) {
    match spec
    case Done(rest, o) => s == Return(0) && stream == rest && output == o
    case Bad(c) => s == Return(c)
    case RanOut => s == OutOfInput
    case Unspecified => true
  }

  /** The tables say what the code says, and are as wide as it takes. */
  ghost predicate Reads(mem: seq<seq<Huft>>, width: nat, cd: Coding)
    requires cd.Valid()
  {
    Decodes(mem, width, cd) && Holding(mem, width, cd)
  }

  datatype Token = Byte(c: Byte) | Copy(distance: nat, length: nat) | Stop | Error | Unknown

  ghost predicate Says(piece: Piece, t: Token, stream: Bits) {
    match piece
    case Literal(c, rest) => t == Byte(c) && stream == rest
    case Match(distance, length, rest) => t == Copy(distance, length) && stream == rest
    case End(rest) => t == Stop && stream == rest
    case Wrong => t == Error
    case Undefined => true
  }

  /** Read the next piece through the tables (lines 390-458). */
  method ReadPiece(inp: Input, tl: seq<seq<Huft>>, td: seq<seq<Huft>>, bl: nat, bd: nat,
                   ghost lit: Coding, ghost dist: Coding) returns (p: Token)
    requires inp.Valid() && |inp.stream| >= SYMBOL
    requires Alphabets(lit, dist) && Reads(tl, bl, lit) && Reads(td, bd, dist)
    modifies inp
    ensures inp.Valid() && |inp.stream| <= |old(inp.stream)|
    ensures p.Byte? || p.Copy? || p.Stop? ==> |inp.stream| < |old(inp.stream)|
    ensures p.Copy? ==> 1 <= p.distance <= WSIZE && 1 <= p.length
    ensures Says(NextPiece(lit, dist, old(inp.stream)), p, inp.stream)
    ensures !NextPiece(lit, dist, old(inp.stream)).Undefined? && !p.Error? ==>
              inp.bk == PieceHeld(lit, dist, bl, bd, old(inp.stream), old(inp.bk))
  {
    hide Alphabets, Walk, WalkHeld, SymbolHeld, Reads, Holds, AfterHeld, PieceAfter;
    ghost var whole, held := inp.stream, inp.bk;
    var r := ReadSymbol(inp, tl, bl);
    PieceRead(lit, dist, tl, bl, bd, whole, held);
    if !r.Found? {
      return if r.Invalid? then Error else Unknown;
    }
    p := Continue(inp, r, td, bd, lit, dist);
  }

  /** Where the tables decode, the symbol read is the one that the code gives. */
  lemma SymbolRead(cd: Coding, mem: seq<seq<Huft>>, width: nat, bits: Bits)
    requires cd.Valid() && Decodes(mem, width, cd) && |bits| >= BMAX && cd.Decodable(bits)
    ensures Walk(mem, 0, width, bits) == Reference(cd, bits) != Stuck
  {
    assert DecodesAt(mem, width, cd, bits);
  }

  lemma SymbolLeaves(cd: Coding, mem: seq<seq<Huft>>, width: nat, bits: Bits, held: int)
    requires cd.Valid() && Holding(mem, width, cd) && |bits| >= BMAX && cd.Decodable(bits)
    requires Reference(cd, bits).Found? && 0 < Reference(cd, bits).used <= BMAX
    ensures WalkHeld(mem, 0, width, bits, held) == SymbolHeld(cd.b, width, bits, 0, Reference(cd, bits).used, held)
  {
    assert HoldingAt(mem, width, cd, bits, held);
  }

  lemma PieceRead(lit: Coding, dist: Coding, mem: seq<seq<Huft>>, width: nat, bd: nat, bits: Bits, held: int)
    requires Alphabets(lit, dist) && Reads(mem, width, lit) && |bits| >= SYMBOL
    ensures var r := Walk(mem, 0, width, bits);
            NextPiece(lit, dist, bits) == Undefined ||
            (r == Invalid && NextPiece(lit, dist, bits) == Wrong) ||
            (r.Found? && LiteralLike(r) && NextPiece(lit, dist, bits) == PieceAfter(r, lit, dist, bits[r.used..])
             && PieceHeld(lit, dist, width, bd, bits, held) ==
                AfterHeld(r, dist, bd, bits[r.used..], WalkHeld(mem, 0, width, bits, held)))
  {
    hide Walk, WalkHeld, SymbolHeld, AfterHeld, Decodes, Holding, Coding.Decodable, PieceAfter;
    if lit.Decodable(bits) {
      SymbolRead(lit, mem, width, bits);
      assert SymbolsLike(lit, dist, bits);
      if Reference(lit, bits).Found? {
        SymbolLeaves(lit, mem, width, bits, held);
      }
    }
  }

  lemma MatchRead(lit: Coding, dist: Coding, mem: seq<seq<Huft>>, width: nat, length: nat, bits: Bits, held: int)
    requires Alphabets(lit, dist) && Reads(mem, width, dist) && |bits| >= BMAX + 13
    ensures var r := Walk(mem, 0, width, bits);
            MatchFrom(lit, dist, length, bits) == Undefined ||
            (r != Stuck && DistanceLike(r) && MatchFrom(lit, dist, length, bits) == MatchAfter(r, length, bits)
             && (r.Found? ==> MatchHeld(dist, width, bits, held) ==
                              Taken(WalkHeld(mem, 0, width, bits, held), r.e, |bits| - r.used)))
  {
    hide Walk, WalkHeld, SymbolHeld, Decodes, Holding, Coding.Decodable, MatchAfter, Taken;
    if dist.Decodable(bits) {
      SymbolRead(dist, mem, width, bits);
      assert SymbolsLike(lit, dist, bits);
      if Reference(dist, bits).Found? {
        SymbolLeaves(dist, mem, width, bits, held);
      }
    }
  }

  /** What follows symbol `r` (lines 409-458). */
  method Continue(inp: Input, r: Lookup, td: seq<seq<Huft>>, bd: nat, ghost lit: Coding, ghost dist: Coding)
    returns (p: Token)
    requires inp.Valid() && r.Found?
    requires Alphabets(lit, dist) && Reads(td, bd, dist)
    modifies inp
    ensures inp.Valid() && |inp.stream| <= |old(inp.stream)|
    ensures p.Copy? ==> 1 <= p.distance <= WSIZE && 1 <= p.length
    ensures LiteralLike(r) && |old(inp.stream)| >= SYMBOL - BMAX ==>
              && Says(PieceAfter(r, lit, dist, old(inp.stream)), p, inp.stream)
              && (!PieceAfter(r, lit, dist, old(inp.stream)).Undefined? && !p.Error? ==>
                    inp.bk == AfterHeld(r, dist, bd, old(inp.stream), old(inp.bk)))
  {
    hide Reads, Alphabets, Holds, MatchFrom, MatchHeld;
    if r.e == LITERAL {
      return Byte(r.n % 256);
    }
    if r.e == END_OF_BLOCK {
      return Stop;
    }
    if r.e > 5 || !inp.Has(r.e + BMAX) {
      return Unknown;
    }
    p := ReadMatch(inp, r.n, r.e, td, bd, lit, dist);
  }

  /** Lines 424-458. */
  method ReadMatch(inp: Input, n: nat, e: nat, td: seq<seq<Huft>>, bd: nat, ghost lit: Coding, ghost dist: Coding)
    returns (p: Token)
    requires inp.Valid() && |inp.stream| >= e + BMAX && e <= 5
    requires Alphabets(lit, dist) && Reads(td, bd, dist)
    modifies inp
    ensures inp.Valid() && |inp.stream| <= |old(inp.stream)| && !p.Byte? && !p.Stop?
    ensures p.Copy? ==> 1 <= p.distance <= WSIZE && 1 <= p.length && |inp.stream| < |old(inp.stream)|
    ensures |old(inp.stream)| >= BMAX + 18 && n > 0 ==>
              && Says(MatchFrom(lit, dist, n + Lsb(old(inp.stream)[..e]), old(inp.stream)[e..]), p, inp.stream)
              && (!MatchFrom(lit, dist, n + Lsb(old(inp.stream)[..e]), old(inp.stream)[e..]).Undefined? && !p.Error? ==>
                    inp.bk == MatchHeld(dist, bd, old(inp.stream)[e..], Taken(old(inp.bk), e, |old(inp.stream)|)))
  {
    hide Reads, Alphabets, Holds, MatchFrom, MatchHeld, Taken;
    var extra := inp.Take(e);
    p := ReadDistance(inp, td, bd, n + extra, lit, dist);
  }

  /** Lines 433-458. */
  method ReadDistance(inp: Input, td: seq<seq<Huft>>, bd: nat, length: nat, ghost lit: Coding, ghost dist: Coding)
    returns (p: Token)
    requires inp.Valid() && |inp.stream| >= BMAX
    requires Alphabets(lit, dist) && Reads(td, bd, dist)
    modifies inp
    ensures inp.Valid() && |inp.stream| <= |old(inp.stream)| && !p.Byte? && !p.Stop?
    ensures p.Copy? ==> 1 <= p.distance <= WSIZE && 1 <= p.length && |inp.stream| < |old(inp.stream)|
    ensures |old(inp.stream)| >= BMAX + 13 && length > 0 ==>
              && Says(MatchFrom(lit, dist, length, old(inp.stream)), p, inp.stream)
              && (!MatchFrom(lit, dist, length, old(inp.stream)).Undefined? && !p.Error? ==>
                    inp.bk == MatchHeld(dist, bd, old(inp.stream), old(inp.bk)))
  {
    hide Reads, Alphabets, Holds, MatchFrom, MatchHeld, MatchAfter, Walk, WalkHeld, Taken;
    ghost var rest, held := inp.stream, inp.bk;
    var d := ReadSymbol(inp, td, bd);
    if |rest| >= BMAX + 13 {
      MatchRead(lit, dist, td, bd, length, rest, held);
    }
    p := Distance(inp, d, length, rest);
  }

  /** The distance that begins with symbol `r`, which has been taken from `whole` (lines 450-458). */
  method Distance(inp: Input, r: Lookup, length: nat, ghost whole: Bits) returns (p: Token)
    requires inp.Valid() && |whole| >= BMAX && |inp.stream| <= |whole|
    requires r.Found? ==> 0 < r.used <= |whole| && inp.stream == whole[r.used..]
    modifies inp
    ensures inp.Valid() && |inp.stream| <= |whole| && !p.Byte? && !p.Stop?
    ensures p.Copy? ==> 1 <= p.distance <= WSIZE && 1 <= p.length && |inp.stream| < |whole|
    ensures |whole| >= BMAX + 13 && DistanceLike(r) && r != Stuck && length > 0 ==>
              Says(MatchAfter(r, length, whole), p, inp.stream) && !p.Unknown?
    ensures p.Copy? ==> r.Found? && inp.bk == Taken(old(inp.bk), r.e, |old(inp.stream)|)
  {
    if !r.Found? {
      return if r.Invalid? then Error else Unknown;
    }
    if r.e > 13 || !inp.Has(r.e) {
      return Unknown;
    }
    LsbBound(inp.stream[..r.e]);
    var extra := inp.Take(r.e);
    // a distance is 1 to 32768 and a length at least 1, whatever the codes, unless memory is unset
    if !(1 <= r.n + extra <= WSIZE && length > 0) {
      return Unknown;
    }
    p := Copy(r.n + extra, length);
  }

  /** inflate_codes (lines 371-489).  Its copies of bb, bk and outcnt are the globals here. */
  method InflateCodes(inp: Input, out: Output, tl: seq<seq<Huft>>, td: seq<seq<Huft>>, bl: nat, bd: nat,
                      ghost lit: Coding, ghost dist: Coding) returns (s: Status)
    requires inp.Valid() && out.Valid()
    requires Alphabets(lit, dist) && Reads(tl, bl, lit) && Reads(td, bd, dist)
    modifies inp, out, out.window
    ensures inp.Valid() && out.Valid() && |inp.stream| <= |old(inp.stream)|
    ensures Meets(Symbols(lit, dist, old(inp.stream), old(out.output)), s, inp.stream, out.output)
    ensures Symbols(lit, dist, old(inp.stream), old(out.output)).Done? ==>
              inp.bk == SymbolsHeld(lit, dist, bl, bd, old(inp.stream), old(inp.bk))
  {
    hide Alphabets, Reads, Holds, NextPiece, PieceHeld;
    ghost var spec := Symbols(lit, dist, inp.stream, out.output);
    ghost var held := SymbolsHeld(lit, dist, bl, bd, inp.stream, inp.bk);
    while true
      invariant inp.Valid() && out.Valid() && |inp.stream| <= |old(inp.stream)|
      invariant spec == Unspecified || spec == Symbols(lit, dist, inp.stream, out.output)
      invariant spec == Unspecified || held == SymbolsHeld(lit, dist, bl, bd, inp.stream, inp.bk)
      decreases |inp.stream|
    {
      if !inp.Has(SYMBOL) {
        return OutOfInput;
      }
      var p := ReadPiece(inp, tl, td, bl, bd, lit, dist);
      match p
      case Byte(c) => out.Put(c);
      case Copy(distance, length) => out.Copy(distance, length);
      case Stop => return Return(0);
      case Error => return Return(1);
      case Unknown => return Undetermined;
    }
  }
}
