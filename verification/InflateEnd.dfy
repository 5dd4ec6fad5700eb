/** What is read behind a DEFLATE stream: the right bytes when its last block is stored or has the fixed codes,
    and not always otherwise. */
module InflateEnd {
  import opened BitStrings
  import opened CanonicalCode
  import opened HuftTables
  import opened HuftParts
  import opened LookAhead
  import opened HuftBuild
  import opened BitReader
  import opened Window
  import opened InflateCodes
  import opened Inflate

  // -------------------------------------------------------------------- how much is read ahead

  lemma TakenAtMost(held: int, n: int, total: int)
    ensures Fill(held, n, total) <= if held > n + 7 then held else n + 7
    ensures Taken(held, n, total) <= if held - n > 7 then held - n else 7
  {
  }

  /** With tables of `l` bits a symbol leaves at most `l + 6` bits more than are needed. */
  lemma {:induction false} SymbolAtMost(b: seq<nat>, l: nat, bits: Bits, at: nat, len: nat, held: int, most: int)
    requires at < len <= |bits| && held <= most && l + 6 <= most && 7 <= most
    ensures SymbolHeld(b, l, bits, at, len, held) <= most
    decreases len - at
  {
    hide SubWidth, Fill;
    var w := WidthAt(b, l, bits[..at]);
    SubWidthAtMost(b, l, bits[..at], 1);
    TakenAtMost(held, w, |bits| - at);
    if l != 0 && len > at + l {
      SymbolAtMost(b, l, bits, at + l, len, Fill(held, w, |bits| - at) - l, most);
    }
  }

  lemma PieceAtMost(lit: Coding, dist: Coding, bl: nat, bd: nat, bits: Bits, held: int, most: int)
    requires Alphabets(lit, dist) && |bits| >= SYMBOL
    requires held <= most && bl + 6 <= most && bd + 6 <= most && 7 <= most
    ensures PieceHeld(lit, dist, bl, bd, bits, held) <= most
  {
    hide SymbolHeld, Taken, Reference;
    var r := Reference(lit, bits);
    assert SymbolsLike(lit, dist, bits);
    if r.Found? {
      var rest, h := bits[r.used..], SymbolHeld(lit.b, bl, bits, 0, r.used, held);
      SymbolAtMost(lit.b, bl, bits, 0, r.used, held, most);
      if r.e != LITERAL && r.e != END_OF_BLOCK {
        TakenAtMost(h, r.e, |rest|);
        MatchAtMost(dist, bd, rest[r.e..], Taken(h, r.e, |rest|), most);
      }
    }
  }

  lemma MatchAtMost(dist: Coding, bd: nat, bits: Bits, held: int, most: int)
    requires dist.Valid() && held <= most && bd + 6 <= most && 7 <= most
    ensures MatchHeld(dist, bd, bits, held) <= most
  {
    hide SymbolHeld, Taken, Reference;
    var r := Reference(dist, bits);
    if r.Found? && 0 < r.used <= |bits| {
      SymbolAtMost(dist.b, bd, bits, 0, r.used, held, most);
      TakenAtMost(SymbolHeld(dist.b, bd, bits, 0, r.used, held), r.e, |bits| - r.used);
    }
  }

  lemma {:induction false} SymbolsAtMost(lit: Coding, dist: Coding, bl: nat, bd: nat, bits: Bits, held: int, most: int)
    requires Alphabets(lit, dist) && held <= most && bl + 6 <= most && bd + 6 <= most && 7 <= most
    ensures SymbolsHeld(lit, dist, bl, bd, bits, held) <= most
    decreases |bits|
  {
    hide Alphabets, PieceHeld, NextPiece;
    if |bits| >= SYMBOL {
      var h := PieceHeld(lit, dist, bl, bd, bits, held);
      PieceAtMost(lit, dist, bl, bd, bits, held, most);
      match NextPiece(lit, dist, bits)
      case Literal(_, rest) => SymbolsAtMost(lit, dist, bl, bd, rest, h, most);
      case Match(_, _, rest) => SymbolsAtMost(lit, dist, bl, bd, rest, h, most);
      case End(_) =>
      case Wrong =>
      case Undefined =>
    }
  }

  // --------------------------------------------------------------------------- stored blocks

  lemma {:induction false} BytesAtMost(n: nat, total: int, held: int)
    requires held <= 7
    ensures BytesHeld(n, total, held) <= 7
  {
    if n > 0 {
      TakenAtMost(held, 8, total);
      BytesAtMost(n - 1, total - 8, Taken(held, 8, total));
    }
  }

  lemma StoredAtMost(bits: Bits, held: int)
    requires held <= 15
    ensures StoredHeld(bits, held) <= 7
  {
    hide Lsb, Taken;
    var b := bits[|bits| % 8..];
    if |b| >= 32 {
      var h := Taken(held - held % 8, 16, |b|);
      TakenAtMost(held - held % 8, 16, |b|);
      TakenAtMost(h, 16, |b| - 16);
      BytesAtMost(Lsb(b[..16]), |b| - 32, Taken(h, 16, |b| - 16));
    }
  }

  // ---------------------------------------------------------------------------- fixed blocks

  lemma FixedWidths()
    ensures RootWidth(FixedLiterals(), 7) == 7 && RootWidth(FixedDistances(), 5) <= 5
  {
    hide FixedLiterals, FixedDistances, Counts, Longest;
    FixedLiteralsComplete();
    FixedDistancesIncomplete();
    FixedCounts();
  }

  /** The end of a fixed block has seven bits, so that less than a byte is left. */
  lemma FixedEnd(bits: Bits, held: int)
    requires held <= 13 && |bits| >= SYMBOL
    requires Alphabets(LiteralCoding(FixedLiterals()), DistanceCoding(FixedDistances()))
    requires NextPiece(LiteralCoding(FixedLiterals()), DistanceCoding(FixedDistances()), bits).End?
    ensures PieceHeld(LiteralCoding(FixedLiterals()), DistanceCoding(FixedDistances()), 7,
                      RootWidth(FixedDistances(), 5), bits, held) <= 7
  {
    var lit := LiteralCoding(FixedLiterals());
    assert SymbolsLike(lit, DistanceCoding(FixedDistances()), bits);
    var s: nat :| Matches(lit.b, s, bits);
    ReferenceFound(lit, s, bits);
    OnlyEnd(lit.b, s);
    assert bits[..0] == [];
    TakenAtMost(held, 7, |bits|);
  }

  /** Only symbol 256 ends a block. */
  lemma OnlyEnd(b: seq<nat>, s: nat)
    requires LiteralCoding(b).Valid() && s < |b|
    ensures LiteralCoding(b).Op(s) == END_OF_BLOCK <==> s == 256
  {
    if s > 256 {
      LengthBase(s - 257);
    }
  }

  lemma {:induction false} FixedAtMost(bits: Bits, output: seq<Byte>, held: int)
    requires held <= 13 && Alphabets(LiteralCoding(FixedLiterals()), DistanceCoding(FixedDistances()))
    requires Symbols(LiteralCoding(FixedLiterals()), DistanceCoding(FixedDistances()), bits, output).Done?
    ensures SymbolsHeld(LiteralCoding(FixedLiterals()), DistanceCoding(FixedDistances()), 7,
                        RootWidth(FixedDistances(), 5), bits, held) <= 7
    decreases |bits|
  {
    hide Alphabets, PieceHeld, NextPiece, RootWidth, FixedLiterals, FixedDistances;
    var lit, dist := LiteralCoding(FixedLiterals()), DistanceCoding(FixedDistances());
    var bd := RootWidth(FixedDistances(), 5);
    FixedWidths();
    var h := PieceHeld(lit, dist, 7, bd, bits, held);
    PieceAtMost(lit, dist, 7, bd, bits, held, 13);
    match NextPiece(lit, dist, bits)
    case Literal(c, rest) => FixedAtMost(rest, output + [c], h);
    case Match(distance, length, rest) => FixedAtMost(rest, Expand(output, distance, length), h);
    case End(_) => FixedEnd(bits, held);
    case Wrong =>
    case Undefined =>
  }

  // -------------------------------------------------------------------------- dynamic blocks

  /** The first table of a set that huft_build accepts has nine bits at most. */
  lemma RootAtMost(b: seq<nat>, m: nat)
    requires LengthsOk(b) && |b| <= 288 && BuildStatus(b) == 0 && m <= 9
    ensures RootWidth(b, m) <= 9
  {
    var c, g := Counts(b), MaxLength(b);
    var first := ShortestFrom(c, 1);
    if g > 9 && first > m {
      assert !NoCodes(b) by {
        var s := SomeSymbol(b, g, |b|);
      }
      KraftAtLongest(b, g);
      hide ShortestFrom, Longest, Counts;
      assert first <= g;
      SpaceZero(c, g, first - 1);
      SpaceCrowded(c, g, first, g);
      ShortestBound(c, g, first, b);
    }
  }

  /** That many codes of `first` bits and more do not fill the code space when `first` is above eight. */
  lemma ShortestBound(c: seq<nat>, g: nat, first: nat, b: seq<nat>)
    requires 1 <= first <= g <= BMAX && c == Counts(b) && |b| <= 288
    requires Space(c, g, g) == Pow2(g) && Space(c, g, first - 1) == 0 && Total(c, first) <= Total(c, g)
    requires Space(c, g, g) - Space(c, g, first) <= Scale(Total(c, g) - Total(c, first), g - first)
    ensures first <= 8
  {
    TotalSum(b, g);
    SumBelowBound(b, g, |b|);
    assert c[first] <= Total(c, first) && Space(c, g, first) == Scale(c[first], g - first);
    hide Counts, Total, Space, Scale, Pow2, SumBelow;
    ScaleAdd(Total(c, g) - Total(c, first), c[first], g - first);
    FewFill(Total(c, g) - Total(c, first) + c[first], first, g);
  }

  lemma FewFill(n: nat, first: nat, g: nat)
    requires first <= g && n <= 288 && Pow2(g) <= Scale(n, g - first)
    ensures first <= 8
  {
    hide Scale, Pow2;
    ScaleUnit(first);
    ScaleTwice(1, first, g - first);
    ScaleUnit(g);
    ScaleLess(n, Pow2(first), g - first);
    NinePow();
    if first > 8 {
      Pow2Monotone(9, first);
    }
  }

  lemma NinePow()
    ensures Pow2(9) == 512
  {
  }

  lemma {:induction false} ThreesAtMost(n: nat, total: int, held: int)
    requires held <= 15
    ensures ThreesHeld(n, total, held) <= 15
  {
    if n > 0 {
      TakenAtMost(held, 3, total);
      ThreesAtMost(n - 1, total - 3, Taken(held, 3, total));
    }
  }

  lemma NextAtMost(cd: Coding, bl: nat, bits: Bits, held: int)
    requires cd.Valid() && held <= 15 && bl <= 9
    ensures NextHeld(cd, bl, bits, held) <= 15
  {
    hide SymbolHeld, Taken, Reference;
    var r := Reference(cd, bits);
    if r.Found? && 0 < r.used <= |bits| {
      SymbolAtMost(cd.b, bl, bits, 0, r.used, held, 15);
      TakenAtMost(SymbolHeld(cd.b, bl, bits, 0, r.used, held), RepeatBits(r.n), |bits| - r.used);
    }
  }

  lemma {:induction false} LengthsAtMost(cd: Coding, bl: nat, bits: Bits, n: nat, ll: seq<nat>, held: int)
    requires LengthAlphabet(cd) && |ll| <= n && AllBelow16(ll) && held <= 15 && bl <= 9
    ensures LengthsHeld(cd, bl, bits, n, ll, held) <= 15
    decreases n - |ll|
  {
    hide NextHeld, NextLengths;
    if |ll| < n {
      NextAtMost(cd, bl, bits, held);
      match NextLengths(cd, bits, n, ll)
      case Lengths(rest, ll') => LengthsAtMost(cd, bl, rest, n, ll', NextHeld(cd, bl, bits, held));
      case NoLengths(_) =>
    }
  }

  lemma AllLengthsAtMost(bits: Bits, n: nat, nb: nat, held: int)
    requires 4 <= nb <= 19 && held <= 15
    ensures AllLengthsHeld(bits, n, nb, held) <= 15
  {
    hide ThreesHeld, LengthsOfLengths, LengthsHeld, RootWidth;
    if |bits| >= 3 * nb {
      var b := LengthsOfLengths(bits, nb);
      ThreesAtMost(nb, |bits|, held);
      SevenAtMost(b);
      EmptyBelow16();
      LengthsAtMost(LengthCoding(b), RootWidth(b, 7), bits[3 * nb..], n, [], ThreesHeld(nb, |bits|, held));
    }
  }

  lemma SevenAtMost(b: seq<nat>)
    requires |b| == 19 && forall i :: 0 <= i < 19 ==> b[i] <= 7
    ensures RootWidth(b, 7) <= 7 && LengthAlphabet(LengthCoding(b))
  {
    LengthsUpTo(b, 7);
  }

  lemma CodedAtMost(b: seq<nat>, d: seq<nat>, bits: Bits, output: seq<Byte>, held: int)
    requires 1 <= |b| <= 288 && AllBelow16(b) && 1 <= |d| <= 30 && AllBelow16(d) && held <= 15
    requires CodedBlock(b, d, bits, output).Done?
    ensures CodedHeld(b, d, bits, held) <= 15
  {
    hide SymbolsHeld, Symbols, RootWidth, Alphabets, BuildStatus;
    ValidCodings(b, d);
    RootAtMost(b, 9);
    RootAtMost(d, 6);
    SymbolsAtMost(LiteralCoding(b), DistanceCoding(d), RootWidth(b, 9), RootWidth(d, 6), bits, held, 15);
  }

  lemma DynamicAtMost(bits: Bits, output: seq<Byte>, held: int)
    requires held <= 15 && DynamicBlock(bits, output).Done?
    ensures DynamicHeld(bits, held) <= 15
  {
    hide AllLengths, AllLengthsHeld, Sizes, CodedBlock, CodedHeld, Taken;
    var h, r := Taken(Taken(held, 5, |bits|), 5, |bits| - 5), Sizes(bits);
    TakenAtMost(held, 5, |bits|);
    TakenAtMost(Taken(held, 5, |bits|), 5, |bits| - 5);
    TakenAtMost(h, 4, |bits| - 10);
    AllLengthsAtMost(bits[14..], r.0 + r.1, r.2, Taken(h, 4, |bits| - 10));
    var lengths := AllLengths(bits[14..], r.0 + r.1, r.2);
    var after := AllLengthsHeld(bits[14..], r.0 + r.1, r.2, Taken(h, 4, |bits| - 10));
    if lengths.Lengths? {
      CodedAtMost(lengths.ll[..r.0], lengths.ll[r.0..], lengths.rest, output, after);
    }
  }

  // ------------------------------------------------------------------------ the whole stream

  /** The type of the last block. */
  ghost function LastType(bits: Bits, output: seq<Byte>): nat
    decreases |bits|
  {
    if |bits| < 3 then 3
    else
      var t, rest := Lsb(bits[1..][..2]), bits[1..][2..];
      var o := TypedBlock(t, rest, output);
      if o.Done? && !bits[0] then LastType(o.rest, o.output) else t
  }

  lemma TypedAtMost(t: nat, bits: Bits, output: seq<Byte>, held: int)
    requires held <= 12 && TypedBlock(t, bits, output).Done?
    ensures TypedHeld(t, bits, held) <= if t <= 1 then 7 else 15
  {
    hide StoredBlock, StoredHeld, DynamicBlock, DynamicHeld, Symbols, SymbolsHeld, RootWidth, Alphabets;
    if t == 0 {
      StoredAtMost(bits, held);
    } else if t == 1 {
      hide FixedLiterals, FixedDistances;
      FixedOk();
      ValidCodings(FixedLiterals(), FixedDistances());
      FixedWidths();
      FixedAtMost(bits, output, held);
    } else {
      DynamicAtMost(bits, output, held);
    }
  }

  /** Less than a byte has been read too much when the last block is stored or has the fixed codes. */
  lemma {:induction false} LeftOver(bits: Bits, output: seq<Byte>, held: int)
    requires held <= 15 && Blocks(bits, output).Done?
    ensures BlocksHeld(bits, output, held) <= if LastType(bits, output) <= 1 then 7 else 15
    decreases |bits|
  {
    hide TypedBlock, TypedHeld, Taken, Lsb;
    var t, rest := Lsb(bits[1..][..2]), bits[1..][2..];
    var h := Taken(held, 1, |bits|);
    TakenAtMost(held, 1, |bits|);
    TakenAtMost(h, 2, |bits| - 1);
    TypedAtMost(t, rest, output, Taken(h, 2, |bits| - 1));
    var o := TypedBlock(t, rest, output);
    if !bits[0] {
      LeftOver(o.rest, o.output, TypedHeld(t, rest, Taken(h, 2, |bits| - 1)));
    }
  }

  /** What is read next is right after a stored block or one with the fixed codes.  After one with its own codes
      at most a byte is put back, of which the bits that are shifted out must be zero. */
  lemma ReadsOn(file: seq<Byte>, rest: Bits, output: seq<Byte>, out: Output, next: seq<Byte>)
    requires var bits := BitsFrom(file + AT_END, 0);
             Blocks(bits, []) == Done(rest, output) &&
             Unzipped(file + AT_END, rest, output, out, next, BlocksHeld(bits, [], 0))
    ensures |rest| / 8 <= |file + AT_END| && |next| == |rest| / 8
    ensures LastType(BitsFrom(file + AT_END, 0), []) <= 1 ==> next == Behind(file + AT_END, rest)
    ensures var left := BlocksHeld(BitsFrom(file + AT_END, 0), [], 0);
            && 0 <= left <= 15 && left <= |rest|
            && (next == Behind(file + AT_END, rest) <==>
                  left < 8 || Scale(Lsb(rest[..16 - left]), left - 8) == Behind(file + AT_END, rest)[0])
  {
    hide BitsFrom, Blocks, BlocksHeld, LastType, Behind, Lsb;
    LeftOver(BitsFrom(file + AT_END, 0), [], 0);
  }
}
