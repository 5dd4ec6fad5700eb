/** What DEFLATE streams decode to, seen from the side of the one who writes them: blocks spelled out from
    literals and matches, stored files and fixed codes come back. */
module Deflated {
  import opened BitStrings
  import opened CanonicalCode
  import opened HuftTables
  import opened HuftParts
  import opened LookAhead
  import opened HuftBuild
  import opened BitReader
  import opened LittleEndian
  import opened Window
  import opened InflateCodes
  import opened Inflate
  import opened InflateEnd

  // ----------------------------------------------------------------------- literals and matches

  /** What a block is written from. */
  datatype Unit = Lit(c: Byte) | Copied(distance: nat, length: nat)

  /** Exactly the code of symbol `s`. */
  ghost predicate CodeIs(b: seq<nat>, s: nat, code: Bits) { Matches(b, s, code) && |code| == b[s] }

  /** Number `i` of the length codes, or of the distance codes, with its extra bits. */
  ghost predicate SpellsLength(b: seq<nat>, length: nat, i: nat, bits: Bits) {
    && i <= 28 && CPLENS[i] <= length < CPLENS[i] + Pow2(LengthExtra(i))
    && |bits| >= LengthExtra(i) && CodeIs(b, 257 + i, bits[..|bits| - LengthExtra(i)])
    && bits[|bits| - LengthExtra(i)..] == ToBits(length - CPLENS[i], LengthExtra(i))
  }

  ghost predicate SpellsDistance(d: seq<nat>, distance: nat, t: nat, bits: Bits) {
    && t < 30 && CPDIST[t] <= distance < CPDIST[t] + Pow2(DistanceExtra(t))
    && |bits| >= DistanceExtra(t) && CodeIs(d, t, bits[..|bits| - DistanceExtra(t)])
    && bits[|bits| - DistanceExtra(t)..] == ToBits(distance - CPDIST[t], DistanceExtra(t))
  }

  ghost predicate SpellsMatch(b: seq<nat>, d: seq<nat>, u: Unit, bits: Bits, i: nat, t: nat, m: nat) {
    && u.Copied? && m <= |bits|
    && SpellsLength(b, u.length, i, bits[..m]) && SpellsDistance(d, u.distance, t, bits[m..])
  }

  ghost predicate Spells(b: seq<nat>, d: seq<nat>, u: Unit, bits: Bits) {
    match u
    case Lit(c) => CodeIs(b, c, bits)
    case Copied(_, _) => exists i: nat, t: nat, m: nat :: SpellsMatch(b, d, u, bits, i, t, m)
  }

  /** The parts spell the units, one each. */
  ghost predicate SpellsAll(b: seq<nat>, d: seq<nat>, units: seq<Unit>, parts: seq<Bits>) {
    |parts| == |units| && forall k :: 0 <= k < |units| ==> Spells(b, d, units[k], parts[k])
  }

  function Joined(parts: seq<Bits>): Bits { if parts == [] then [] else parts[0] + Joined(parts[1..]) }

  /** Matches reach back no further than the output goes. */
  predicate Playable(units: seq<Unit>, output: seq<Byte>)
    decreases |units|
  {
    units == [] ||
    match units[0]
    case Lit(c) => Playable(units[1..], output + [c])
    case Copied(distance, length) =>
      1 <= distance <= |output| && Playable(units[1..], Expand(output, distance, length))
  }

  /** The output that they stand for. */
  function Play(units: seq<Unit>, output: seq<Byte>): seq<Byte>
    requires Playable(units, output)
    decreases |units|
  {
    if units == [] then output
    else
      match units[0]
      case Lit(c) => Play(units[1..], output + [c])
      case Copied(distance, length) => Play(units[1..], Expand(output, distance, length))
  }

  lemma CodeInFront(b: seq<nat>, s: nat, code: Bits, more: Bits)
    requires CodeIs(b, s, code)
    ensures Matches(b, s, code + more) && (code + more)[b[s]..] == more
  {
    assert (code + more)[..b[s]] == code[..b[s]];
  }

  lemma Undone(n: nat, m: nat, more: Bits)
    requires n < Pow2(m)
    ensures Lsb((ToBits(n, m) + more)[..m]) == n && (ToBits(n, m) + more)[m..] == more
  {
    LsbToBits(n, m);
    assert (ToBits(n, m) + more)[..m] == ToBits(n, m);
  }

  lemma LiteralMeans(b: seq<nat>, d: seq<nat>, c: Byte, code: Bits, more: Bits)
    requires Alphabets(LiteralCoding(b), DistanceCoding(d)) && CodeIs(b, c, code) && |code + more| >= SYMBOL
    ensures NextPiece(LiteralCoding(b), DistanceCoding(d), code + more) == Literal(c, more)
  {
    hide Matches, Reference;
    CodeInFront(b, c, code, more);
    SymbolMeans(b, c, code + more);
    assert SymbolsLike(LiteralCoding(b), DistanceCoding(d), code + more);
    assert LiteralCoding(b).Coded(code + more);
  }

  lemma EndMeans(b: seq<nat>, d: seq<nat>, code: Bits, more: Bits)
    requires Alphabets(LiteralCoding(b), DistanceCoding(d)) && CodeIs(b, 256, code) && |code + more| >= SYMBOL
    ensures NextPiece(LiteralCoding(b), DistanceCoding(d), code + more) == InflateCodes.End(more)
  {
    hide Matches, Reference;
    CodeInFront(b, 256, code, more);
    SymbolMeans(b, 256, code + more);
    assert SymbolsLike(LiteralCoding(b), DistanceCoding(d), code + more);
    assert LiteralCoding(b).Coded(code + more);
  }

  lemma DistanceSpelled(b: seq<nat>, d: seq<nat>, distance: nat, t: nat, bits: Bits, more: Bits, length: nat)
    requires Alphabets(LiteralCoding(b), DistanceCoding(d)) && SpellsDistance(d, distance, t, bits)
    requires |bits + more| >= BMAX + 13
    ensures MatchFrom(LiteralCoding(b), DistanceCoding(d), length, bits + more) == Match(distance, length, more)
  {
    hide Matches, Reference, CPDIST, Pow2;
    var n := |bits| - DistanceExtra(t);
    var code, extra := bits[..n], bits[n..];
    assert bits + more == code + (extra + more);
    CodeInFront(d, t, code, extra + more);
    DistanceMeans(d, t, bits + more);
    Undone(distance - CPDIST[t], DistanceExtra(t), more);
    assert SymbolsLike(LiteralCoding(b), DistanceCoding(d), bits + more);
    assert DistanceCoding(d).Coded(bits + more);
  }

  lemma LengthSpelled(b: seq<nat>, d: seq<nat>, length: nat, i: nat, bits: Bits, more: Bits)
    requires Alphabets(LiteralCoding(b), DistanceCoding(d)) && SpellsLength(b, length, i, bits)
    requires |bits + more| >= SYMBOL
    ensures |more| >= BMAX + 13
    ensures NextPiece(LiteralCoding(b), DistanceCoding(d), bits + more) ==
            MatchFrom(LiteralCoding(b), DistanceCoding(d), length, more)
  {
    hide Matches, Reference, CPLENS, Pow2, MatchFrom;
    var n := |bits| - LengthExtra(i);
    var code, extra := bits[..n], bits[n..];
    assert bits + more == code + (extra + more);
    CodeInFront(b, 257 + i, code, extra + more);
    SymbolMeans(b, 257 + i, bits + more);
    Undone(length - CPLENS[i], LengthExtra(i), more);
    assert SymbolsLike(LiteralCoding(b), DistanceCoding(d), bits + more);
    assert LiteralCoding(b).Coded(bits + more);
  }

  lemma UnitMeans(b: seq<nat>, d: seq<nat>, u: Unit, bits: Bits, more: Bits)
    requires Alphabets(LiteralCoding(b), DistanceCoding(d)) && Spells(b, d, u, bits) && |bits + more| >= SYMBOL
    ensures NextPiece(LiteralCoding(b), DistanceCoding(d), bits + more) ==
            match u case Lit(c) => Literal(c, more) case Copied(distance, length) => Match(distance, length, more)
  {
    hide Alphabets, NextPiece, CodeIs, SpellsLength, SpellsDistance;
    match u
    case Lit(c) => LiteralMeans(b, d, c, bits, more);
    case Copied(distance, length) =>
      var i: nat, t: nat, m: nat :| SpellsMatch(b, d, u, bits, i, t, m);
      assert bits + more == bits[..m] + (bits[m..] + more);
      LengthSpelled(b, d, length, i, bits[..m], bits[m..] + more);
      DistanceSpelled(b, d, distance, t, bits[m..], more, length);
  }

  /** A block that spells units, in any pair of codes, decodes to what they stand for. */
  lemma {:induction false} BlockMeans(b: seq<nat>, d: seq<nat>, units: seq<Unit>, parts: seq<Bits>, end: Bits,
                                      rest: Bits, output: seq<Byte>)
    requires Alphabets(LiteralCoding(b), DistanceCoding(d)) && SpellsAll(b, d, units, parts)
    requires CodeIs(b, 256, end) && |rest| >= SYMBOL && Playable(units, output)
    ensures Symbols(LiteralCoding(b), DistanceCoding(d), Joined(parts) + end + rest, output) ==
            Done(rest, Play(units, output))
    decreases |units|
  {
    hide Alphabets, NextPiece, CodeIs, Spells;
    var bits := Joined(parts) + end + rest;
    if units == [] {
      assert bits == end + rest;
      EndMeans(b, d, end, rest);
    } else {
      var more := Joined(parts[1..]) + end + rest;
      assert bits == parts[0] + more;
      assert Spells(b, d, units[0], parts[0]);
      UnitMeans(b, d, units[0], parts[0], more);
      match units[0]
      case Lit(c) => BlockMeans(b, d, units[1..], parts[1..], end, rest, output + [c]);
      case Copied(distance, length) =>
        BlockMeans(b, d, units[1..], parts[1..], end, rest, Expand(output, distance, length));
    }
  }

  // ----------------------------------------------------------------------------- the fixed codes

  /** The `m` bits of `n`, most significant first, as codes are packed. */
  function HighFirst(n: nat, m: nat): (b: Bits)
    ensures |b| == m
  {
    if m == 0 then [] else HighFirst(n / 2, m - 1) + [n % 2 == 1]
  }

  lemma {:induction false} MsbHighFirst(n: nat, m: nat)
    requires n < Pow2(m)
    ensures Msb(HighFirst(n, m)) == n
    decreases m
  {
    if m > 0 {
      MsbHighFirst(n / 2, m - 1);
      assert HighFirst(n, m)[..m - 1] == HighFirst(n / 2, m - 1);
    }
  }

  /** The codes of section 3.2.6 of RFC 1951: eight bits from 00110000 and from 11000000 on, nine from
      110010000 and seven from 0000000. */
  function FixedCode(s: nat): Bits {
    if s < 144 then HighFirst(0x30 + s, 8)
    else if s < 256 then HighFirst(0x190 + (s - 144), 9)
    else if s < 280 then HighFirst(s - 256, 7)
    else HighFirst(0xc0 + (s - 280), 8)
  }

  lemma FixedFirstCodes()
    ensures FirstCode(FixedLiterals(), 7) == 0 && FirstCode(FixedLiterals(), 8) == 0x30
    ensures FirstCode(FixedLiterals(), 9) == 0x190
  {
    hide CountBelow, FixedLiterals;
    var b := FixedLiterals();
    FixedOk();
    forall k | 1 <= k <= 6 ensures CountBelow(b, k, |b|) == 0 { FixedLiteralCount(k); }
    FixedLiteralCount(7);
    FixedLiteralCount(8);
    assert FirstCode(b, 1) == 0 && FirstCode(b, 2) == 0 && FirstCode(b, 3) == 0 && FirstCode(b, 4) == 0;
    assert FirstCode(b, 5) == 0 && FirstCode(b, 6) == 0 && FirstCode(b, 7) == 0;
    assert FirstCode(b, 8) == 2 * (FirstCode(b, 7) + 24);
    assert FirstCode(b, 9) == 2 * (FirstCode(b, 8) + 152);
  }

  lemma FixedBefore(s: nat)
    requires s < 288
    ensures CountBelow(FixedLiterals(), FixedLiteral(s), s) ==
            if s < 144 then s else if s < 256 then s - 144 else if s < 280 then s - 256 else 144 + (s - 280)
  {
    var b, k := FixedLiterals(), FixedLiteral(s);
    assert CountBelow(b, k, 0) == 0;
    hide CountBelow;
    if s <= 144 {
      CountRun(b, k, 0, s, 8);
    } else {
      CountRun(b, k, 0, 144, 8);
      if s <= 256 {
        CountRun(b, k, 144, s, 9);
      } else {
        CountRun(b, k, 144, 256, 9);
        if s <= 280 {
          CountRun(b, k, 256, s, 7);
        } else {
          CountRun(b, k, 256, 280, 7);
          CountRun(b, k, 280, s, 8);
        }
      }
    }
  }

  lemma FixedCodeFits(s: nat)
    requires s < 288
    ensures CodeIs(FixedLiterals(), s, FixedCode(s))
  {
    hide CountBelow, FirstCode;
    FixedFirstCodes();
    FixedBefore(s);
    SmallPowers();
    var code := FixedCode(s);
    assert FixedLiterals()[s] == FixedLiteral(s) == |code|;
    hide HighFirst, Pow2;
    MsbHighFirst(if s < 144 then 0x30 + s else if s < 256 then 0x190 + (s - 144) else if s < 280 then s - 256
                 else 0xc0 + (s - 280), |code|);
    assert code[..|code|] == code;
  }

  function FixedCodes(data: seq<Byte>): (parts: seq<Bits>)
    ensures |parts| == |data|
  {
    seq(|data|, k requires 0 <= k < |data| => FixedCode(data[k]))
  }

  function Literals(data: seq<Byte>): (units: seq<Unit>)
    ensures |units| == |data|
  {
    seq(|data|, k requires 0 <= k < |data| => Lit(data[k]))
  }

  lemma {:induction false} LiteralsPlay(data: seq<Byte>, output: seq<Byte>)
    ensures Playable(Literals(data), output) && Play(Literals(data), output) == output + data
    decreases |data|
  {
    if data == [] {
      assert output + data == output;
    } else {
      assert Literals(data)[1..] == Literals(data[1..]);
      LiteralsPlay(data[1..], output + [data[0]]);
      assert output + [data[0]] + data[1..] == output + data;
    }
  }

  /** Data in the fixed codes, byte by byte, comes back. */
  lemma FixedMeans(data: seq<Byte>, rest: Bits, output: seq<Byte>)
    requires |rest| >= SYMBOL
    ensures FixedBlock(Joined(FixedCodes(data)) + Zeros(7) + rest, output) == Done(rest, output + data)
  {
    hide FixedLiterals, FixedDistances, FixedCode, Alphabets, Symbols, CodeIs;
    FixedOk();
    ValidCodings(FixedLiterals(), FixedDistances());
    LiteralsPlay(data, output);
    forall k | 0 <= k < |data| ensures Spells(FixedLiterals(), FixedDistances(), Lit(data[k]), FixedCode(data[k])) {
      FixedCodeFits(data[k]);
    }
    FixedCodeFits(256);
    EndCode();
    BlockMeans(FixedLiterals(), FixedDistances(), Literals(data), FixedCodes(data), Zeros(7), rest, output);
  }

  lemma EndCode()
    ensures FixedCode(256) == Zeros(7)
  {
    ZerosHighFirst(7);
  }

  lemma {:induction false} ZerosHighFirst(m: nat)
    ensures HighFirst(0, m) == Zeros(m)
    decreases m
  {
    if m > 0 {
      ZerosHighFirst(m - 1);
    }
  }

  // ------------------------------------------------------------------- the lengths of own codes

  /** What the code lengths of a block are written from: one length, the last again, or zeros. */
  datatype LengthRun = One(v: nat) | Again(n: nat) | Nulls(n: nat)

  predicate RunOk(u: LengthRun) {
    match u
    case One(v) => v < 16
    case Again(n) => 3 <= n <= 6
    case Nulls(n) => 3 <= n <= 138
  }

  /** Section 3.2.7 of RFC 1951: 16 repeats the last length 3 to 6 times, 17 a zero 3 to 10 times, and 18 a
      zero 11 to 138 times. */
  function RunSymbol(u: LengthRun): nat {
    match u
    case One(v) => v
    case Again(_) => 16
    case Nulls(n) => if n <= 10 then 17 else 18
  }

  function RunExtra(u: LengthRun): Bits {
    match u
    case One(_) => []
    case Again(n) => if n >= 3 then ToBits(n - 3, 2) else []
    case Nulls(n) => if n > 10 then ToBits(n - 11, 7) else if n >= 3 then ToBits(n - 3, 3) else []
  }

  function Unrolled(u: LengthRun, ll: seq<nat>): seq<nat> {
    match u
    case One(v) => ll + [v]
    case Again(n) => ll + seq(n, _ => if ll == [] then 0 else ll[|ll| - 1])
    case Nulls(n) => ll + seq(n, _ => 0)
  }

  function UnrolledAll(us: seq<LengthRun>, ll: seq<nat>): seq<nat>
    decreases |us|
  {
    if us == [] then ll else UnrolledAll(us[1..], Unrolled(us[0], ll))
  }

  ghost predicate SpellsRun(b: seq<nat>, u: LengthRun, bits: Bits) {
    RunOk(u) && RunSymbol(u) < |b| && |bits| >= |RunExtra(u)|
    && CodeIs(b, RunSymbol(u), bits[..|bits| - |RunExtra(u)|]) && bits[|bits| - |RunExtra(u)|..] == RunExtra(u)
  }

  ghost predicate SpellsRuns(b: seq<nat>, us: seq<LengthRun>, parts: seq<Bits>) {
    |parts| == |us| && forall k :: 0 <= k < |us| ==> SpellsRun(b, us[k], parts[k])
  }

  lemma {:induction false} UnrolledLonger(us: seq<LengthRun>, ll: seq<nat>)
    requires forall k :: 0 <= k < |us| ==> RunOk(us[k])
    ensures |ll| + |us| <= |UnrolledAll(us, ll)|
    decreases |us|
  {
    if us != [] {
      UnrolledLonger(us[1..], Unrolled(us[0], ll));
    }
  }

  lemma RunFound(b: seq<nat>, u: LengthRun, bits: Bits, more: Bits)
    requires LengthAlphabet(LengthCoding(b)) && SpellsRun(b, u, bits)
    ensures var cd, r := LengthCoding(b), Reference(LengthCoding(b), bits + more);
            && cd.Decodable(bits + more) && r.Found? && r == Found(LITERAL, RunSymbol(u), r.used)
            && r.used <= |bits + more|
            && (bits + more)[r.used..] == RunExtra(u) + more
  {
    hide Matches, Reference, RunExtra;
    var extra := RunExtra(u);
    var code := bits[..|bits| - |extra|];
    assert bits + more == code + (extra + more);
    CodeInFront(b, RunSymbol(u), code, extra + more);
    ReferenceFound(LengthCoding(b), RunSymbol(u), bits + more);
    assert LengthCoding(b).Coded(bits + more);
  }

  lemma RunCounted(u: LengthRun, more: Bits, n: nat, ll: seq<nat>)
    requires RunOk(u) && !u.One? && AllBelow16(ll) && |Unrolled(u, ll)| <= n
    ensures |ll| < n && |RunExtra(u) + more| >= RepeatBits(RunSymbol(u))
    ensures RunOfLengths(RunExtra(u) + more, RunSymbol(u), n, ll) == Lengths(more, Unrolled(u, ll))
  {
    SmallPowers();
    hide Lsb, ToBits, Pow2;
    match u
    case Again(k) => Undone(k - 3, 2, more);
    case Nulls(k) => if k <= 10 { Undone(k - 3, 3, more); } else { Undone(k - 11, 7, more); }
  }

  lemma RunMeans(b: seq<nat>, u: LengthRun, bits: Bits, more: Bits, n: nat, ll: seq<nat>)
    requires LengthAlphabet(LengthCoding(b)) && SpellsRun(b, u, bits) && |more| >= LENGTH_SYMBOL
    requires AllBelow16(ll) && |Unrolled(u, ll)| <= n
    ensures |ll| < n
    ensures NextLengths(LengthCoding(b), bits + more, n, ll) == Lengths(more, Unrolled(u, ll))
  {
    RunIsOk(b, u, bits);
    RunFound(b, u, bits, more);
    if !u.One? {
      RunCounted(u, more, n, ll);
    } else {
      assert RunExtra(u) + more == more;
    }
    hide Reference, SpellsRun, LengthAlphabet, RunExtra, RunOfLengths, Coding.Decodable;
  }

  lemma {:induction false} RunsMean(b: seq<nat>, us: seq<LengthRun>, parts: seq<Bits>, more: Bits, n: nat, ll: seq<nat>)
    requires LengthAlphabet(LengthCoding(b)) && SpellsRuns(b, us, parts) && |more| >= LENGTH_SYMBOL
    requires AllBelow16(ll) && |UnrolledAll(us, ll)| == n
    ensures |ll| <= n
    ensures CodeLengths(LengthCoding(b), Joined(parts) + more, n, ll) == Lengths(more, UnrolledAll(us, ll))
    decreases |us|
  {
    hide LengthAlphabet, SpellsRun, NextLengths, Unrolled;
    if us == [] {
      assert Joined(parts) + more == more;
    } else {
      assert SpellsRun(b, us[0], parts[0]);
      forall k | 0 <= k < |us| ensures RunOk(us[k]) {
        RunIsOk(b, us[k], parts[k]);
      }
      UnrolledLonger(us[1..], Unrolled(us[0], ll));
      var rest := Joined(parts[1..]) + more;
      assert Joined(parts) + more == parts[0] + rest;
      RunMeans(b, us[0], parts[0], rest, n, ll);
      RunsMean(b, us[1..], parts[1..], more, n, Unrolled(us[0], ll));
    }
  }

  lemma RunIsOk(b: seq<nat>, u: LengthRun, bits: Bits)
    requires SpellsRun(b, u, bits)
    ensures RunOk(u)
  {
  }

  /** The order in which the lengths of code lengths are given: those of the repeat codes, 0, and then from 8
      on outwards, the greater of two first (section 3.2.7 of RFC 1951). */
  lemma OrderIs(j: nat)
    requires j < 19
    ensures BORDER[j] == if j < 3 then 16 + j else if j == 3 then 0 else if j % 2 == 0 then 8 + (j - 4) / 2
                         else 8 - (j - 3) / 2
  {
  }

  function Triples(cl: seq<nat>, nb: nat, j: nat): Bits
    requires |cl| == 19 && nb <= 19
    decreases nb - j
  {
    if j >= nb then [] else ToBits(cl[BORDER[j]], 3) + Triples(cl, nb, j + 1)
  }

  lemma {:induction false} TripleAt(cl: seq<nat>, nb: nat, j: nat, k: nat, more: Bits)
    requires |cl| == 19 && nb <= 19 && j <= k && forall i :: 0 <= i < 19 ==> cl[i] <= 7
    ensures j <= nb ==> |Triples(cl, nb, j)| == 3 * (nb - j)
    ensures k < nb ==> (Triples(cl, nb, j) + more)[3 * (k - j)..][..3] == ToBits(cl[BORDER[k]], 3)
    decreases nb - j
  {
    if j < nb {
      var rest := Triples(cl, nb, j + 1) + more;
      assert Triples(cl, nb, j) + more == ToBits(cl[BORDER[j]], 3) + rest;
      TripleAt(cl, nb, j + 1, if k > j then k else j + 1, more);
      BehindThree(ToBits(cl[BORDER[j]], 3), rest, if j < k < nb then k - j - 1 else 0);
    }
  }

  lemma BehindThree(a: Bits, rest: Bits, n: nat)
    requires |a| == 3 && 3 * n <= |rest|
    ensures (a + rest)[0..][..3] == a && (a + rest)[3 * (n + 1)..] == rest[3 * n..]
  {
  }

  lemma TriplesMean(cl: seq<nat>, nb: nat, more: Bits)
    requires |cl| == 19 && nb <= 19 && forall i :: 0 <= i < 19 ==> cl[i] <= 7
    requires forall j :: nb <= j < 19 ==> cl[BORDER[j]] == 0
    ensures |Triples(cl, nb, 0)| == 3 * nb && LengthsOfLengths(Triples(cl, nb, 0) + more, nb) == cl
  {
    TripleAt(cl, nb, 0, 0, more);
    var bits := Triples(cl, nb, 0) + more;
    SmallPowers();
    forall sym | 0 <= sym < 19 ensures LengthOfLength(bits, nb, sym) == cl[sym] {
      hide Triples, Pow2;
      PlaceInOrder(sym);
      var p := PLACE[sym];
      if p < nb {
        TripleAt(cl, nb, 0, p, more);
        LsbToBits(cl[sym], 3);
      } else {
        PlaceInOrder(p);
        assert BORDER[p] == sym;
      }
    }
  }

  lemma SizesMean(nl: nat, nd: nat, nb: nat, more: Bits)
    requires 257 <= nl < 289 && 1 <= nd < 33 && 4 <= nb < 20
    ensures var bits := ToBits(nl - 257, 5) + (ToBits(nd - 1, 5) + (ToBits(nb - 4, 4) + more));
            Sizes(bits) == (nl, nd, nb) && bits[14..] == more
  {
    SmallPowers();
    var c := ToBits(nb - 4, 4) + more;
    var b := ToBits(nd - 1, 5) + c;
    var bits := ToBits(nl - 257, 5) + b;
    Undone(nl - 257, 5, b);
    Undone(nd - 1, 5, c);
    Undone(nb - 4, 4, more);
    hide Sizes, ToBits, Lsb;
    SizesInTurn(bits);
  }

  /** What a block with its own codes is written from. */
  datatype Own = Own(cl: seq<nat>, nb: nat, nl: nat, nd: nat, runs: seq<LengthRun>, runParts: seq<Bits>,
                     units: seq<Unit>, parts: seq<Bits>, end: Bits) {
    function Lengths(): seq<nat> { UnrolledAll(runs, []) }

    function Bits(): Bits
      requires |cl| == 19 && 257 <= nl && 1 <= nd && 4 <= nb <= 19
    {
      ToBits(nl - 257, 5) + (ToBits(nd - 1, 5) + (ToBits(nb - 4, 4)
      + (Triples(cl, nb, 0) + (Joined(runParts) + (Joined(parts) + end)))))
    }

    /** The sizes and lengths are in range, the three codes are accepted, and everything is spelled in them. */
    ghost predicate Ok() {
      && 257 <= nl <= 286 && 1 <= nd <= 30 && 4 <= nb <= 19
      && |cl| == 19 && (forall i :: 0 <= i < 19 ==> cl[i] <= 7) && (forall j :: nb <= j < 19 ==> cl[BORDER[j]] == 0)
      && BuildStatus(cl) == 0 && SpellsRuns(cl, runs, runParts)
      && |Lengths()| == nl + nd && AllBelow16(Lengths())
      && BuildStatus(Lengths()[..nl]) == 0 && BuildStatus(Lengths()[nl..]) == 0
      && SpellsAll(Lengths()[..nl], Lengths()[nl..], units, parts) && CodeIs(Lengths()[..nl], 256, end)
    }
  }

  lemma LengthsMean(o: Own, more: Bits)
    requires o.Ok() && |more| >= LENGTH_SYMBOL
    ensures AllLengths(Triples(o.cl, o.nb, 0) + (Joined(o.runParts) + more), o.nl + o.nd, o.nb) ==
            Inflate.Lengths(more, o.Lengths())
  {
    hide Triples, Joined, SpellsRuns, SpellsAll, CodeIs, BuildStatus, LengthsOfLengths, CodeLengths;
    var runs := Joined(o.runParts) + more;
    TriplesMean(o.cl, o.nb, runs);
    assert (Triples(o.cl, o.nb, 0) + runs)[3 * o.nb..] == runs;
    SevenBitLengths(o.cl);
    EmptyBelow16();
    RunsMean(o.cl, o.runs, o.runParts, more, o.nl + o.nd, []);
  }

  lemma UnitsMean(o: Own, rest: Bits, output: seq<Byte>)
    requires o.Ok() && |rest| >= SYMBOL && Playable(o.units, output)
    ensures CodedBlock(o.Lengths()[..o.nl], o.Lengths()[o.nl..], Joined(o.parts) + o.end + rest, output) ==
            Done(rest, Play(o.units, output))
  {
    hide Joined, SpellsRuns, SpellsAll, CodeIs, BuildStatus, Symbols, UnrolledAll, Own.Lengths;
    var ll := o.Lengths();
    ValidCodings(ll[..o.nl], ll[o.nl..]);
    BlockMeans(ll[..o.nl], ll[o.nl..], o.units, o.parts, o.end, rest, output);
  }

  /** A block with its own codes decodes to what its units stand for. */
  lemma OwnMeans(o: Own, rest: Bits, output: seq<Byte>)
    requires o.Ok() && |rest| >= SYMBOL && Playable(o.units, output)
    ensures DynamicBlock(o.Bits() + rest, output) == Done(rest, Play(o.units, output))
  {
    LengthsMean(o, Joined(o.parts) + o.end + rest);
    UnitsMean(o, rest, output);
    hide Triples, Joined, SpellsRuns, SpellsAll, CodeIs, BuildStatus, Sizes, AllLengths, CodedBlock, Own.Lengths, Play;
    var runs := Joined(o.runParts) + (Joined(o.parts) + o.end + rest);
    var triples := Triples(o.cl, o.nb, 0) + runs;
    OwnParts(o, rest);
    SizesMean(o.nl, o.nd, o.nb, triples);
  }

  lemma OwnParts(o: Own, rest: Bits)
    requires |o.cl| == 19 && 257 <= o.nl && 1 <= o.nd && 4 <= o.nb <= 19
    ensures o.Bits() + rest ==
            ToBits(o.nl - 257, 5) + (ToBits(o.nd - 1, 5) + (ToBits(o.nb - 4, 4)
            + (Triples(o.cl, o.nb, 0) + (Joined(o.runParts) + (Joined(o.parts) + o.end + rest)))))
  {
    hide Triples, Joined, ToBits;
  }

  lemma SevenBitLengths(b: seq<nat>)
    requires |b| == 19 && forall i :: 0 <= i < 19 ==> b[i] <= 7
    ensures LengthAlphabet(LengthCoding(b))
  {
  }

  // ---------------------------------------------------------------------------- what is refused

  /** A count and what shall be its complement, and is not. */
  lemma WrongComplement(bits: Bits, output: seq<Byte>)
    requires |bits| % 8 + 32 <= |bits|
    ensures var b := bits[|bits| % 8..];
            Lsb(b[..16]) + Lsb(b[16..][..16]) != 0xffff <==> StoredBlock(bits, output) == Bad(1)
  {
    var b := bits[|bits| % 8..];
    StoredNotBad(b[16..][16..], Lsb(b[..16]), output);
  }

  lemma {:induction false} StoredNotBad(bits: Bits, n: nat, output: seq<Byte>)
    ensures !StoredBytes(bits, n, output).Bad?
    decreases n
  {
    if n > 0 && |bits| >= 8 {
      StoredNotBad(bits[8..], n - 1, output + [NextByte(bits)]);
    }
  }

  /** A block of the type that there is not. */
  lemma WrongType(bits: Bits, output: seq<Byte>)
    requires |bits| >= 3 && bits[1] && bits[2]
    ensures Blocks(bits, output) == Bad(2)
  {
    assert bits[1..][..2] == [true, true] && [true, true][1..] == [true];
    OneBit();
  }

  /** More codes than there may be. */
  lemma WrongSizes(bits: Bits, output: seq<Byte>)
    requires |bits| >= 14 && (Lsb(bits[..5]) > 29 || Lsb(bits[5..10]) > 29)
    ensures DynamicBlock(bits, output) == Bad(1)
  {
  }

  /** Symbols 286 and 287, which have codes in the fixed code and no meaning. */
  lemma WrongSymbol(b: seq<nat>, d: seq<nat>, s: nat, bits: Bits, output: seq<Byte>)
    requires Alphabets(LiteralCoding(b), DistanceCoding(d)) && Matches(b, s, bits) && 286 <= s && |bits| >= SYMBOL
    ensures Symbols(LiteralCoding(b), DistanceCoding(d), bits, output) == Bad(1)
  {
    UnusedSymbol(b, s, bits);
    hide Matches, Reference, CPLENS, CPLEXT;
    assert SymbolsLike(LiteralCoding(b), DistanceCoding(d), bits);
    assert LiteralCoding(b).Coded(bits);
  }

  lemma UnusedSymbol(b: seq<nat>, s: nat, bits: Bits)
    requires LiteralCoding(b).Valid() && Matches(b, s, bits) && 286 <= s
    ensures Reference(LiteralCoding(b), bits) == Invalid
  {
    hide CPLENS, CPLEXT;
    LastLength();
    ReferenceFound(LiteralCoding(b), s, bits);
  }

  /** What is made of lengths: 2 when they use up more than the code space, 1 when less, but for a single bit. */
  lemma StatusIs(b: seq<nat>)
    requires !NoCodes(b)
    ensures BuildStatus(b) == 2 <==> Oversubscribed(b)
    ensures BuildStatus(b) == 0 <==> Complete(b) || (MaxLength(b) == 1 && !Oversubscribed(b))
    ensures BuildStatus(b) in {0, 1, 2}
  {
  }

  // -------------------------------------------------------------------------------- whole files

  /** Data in stored blocks of up to 65535 bytes: a byte with the mark of the last block, the count, and the
      count's complement (section 3.2.4 of RFC 1951). */
  function StoredFile(data: seq<Byte>): (file: seq<Byte>)
    decreases |data|
  {
    if |data| <= 0xffff then [1] + Le16(|data|) + Le16(0xffff - |data|) + data
    else [0, 0xff, 0xff, 0, 0] + data[..0xffff] + StoredFile(data[0xffff..])
  }

  lemma ByteFirst(data: seq<Byte>, pos: nat)
    requires pos < |data|
    ensures BitsFrom(data, pos) == ToBits(data[pos], 8) + BitsFrom(data, pos + 1)
  {
  }

  lemma BitsOfSmall(n: Byte)
    requires n <= 1
    ensures ToBits(n, 8) == [n == 1] + Zeros(7)
  {
    LsbPad([n == 1], 7);
    assert [n == 1][1..] == [];
    ToBitsLsb([n == 1] + Zeros(7));
  }

  lemma TwoBytes(data: seq<Byte>, pos: nat)
    requires pos + 2 <= |data|
    ensures var bits := BitsFrom(data, pos);
            && |bits| >= 16 && Lsb(bits[..16]) == data[pos] as nat + 0x100 * data[pos + 1] as nat
            && bits[16..] == BitsFrom(data, pos + 2)
  {
    hide BitsFrom, ToBits;
    ByteFirst(data, pos);
    ByteFirst(data, pos + 1);
    var a, b := ToBits(data[pos], 8), ToBits(data[pos + 1], 8);
    assert BitsFrom(data, pos)[..16] == a + b;
    assert BitsFrom(data, pos)[16..] == BitsFrom(data, pos + 2);
    LsbConcat(a, b);
    SmallPowers();
    LsbToBits(data[pos], 8);
    LsbToBits(data[pos + 1], 8);
    EightScale(data[pos + 1]);
  }

  lemma EightScale(n: nat)
    ensures Scale(n, 8) == 0x100 * n
  {
    assert Scale(n, 8) == 2 * Scale(n, 7) && Scale(n, 6) == 2 * Scale(n, 5) && Scale(n, 4) == 2 * Scale(n, 3);
    assert Scale(n, 7) == 2 * Scale(n, 6) && Scale(n, 5) == 2 * Scale(n, 4) && Scale(n, 2) == 2 * Scale(n, 1);
  }

  lemma StoredHeader(file: seq<Byte>, pos: nat)
    requires pos < |file| && file[pos] <= 1
    ensures var bits, rest := BitsFrom(file, pos), BitsFrom(file, pos + 1);
            && |bits| >= 8 && bits[0] == (file[pos] == 1) && Lsb(bits[1..][..2]) == 0
            && |bits[1..][2..]| % 8 == 5 && bits[1..][2..][5..] == rest
  {
    hide BitsFrom, ToBits;
    var bits := BitsFrom(file, pos);
    ByteFirst(file, pos);
    BitsOfSmall(file[pos]);
    var rest := BitsFrom(file, pos + 1);
    assert bits == [file[pos] == 1] + Zeros(7) + rest;
    LsbZeros(bits[1..][..2]);
    assert bits[1..][2..] == Zeros(5) + rest;
  }

  /** A stored block that begins with a byte. */
  lemma StoredMeans(file: seq<Byte>, pos: nat, n: nat, output: seq<Byte>)
    requires pos + 5 + n <= |file| && file[pos] <= 1 && n <= 0xffff
    requires file[pos + 1] as nat + 0x100 * file[pos + 2] as nat == n
    requires file[pos + 3] as nat + 0x100 * file[pos + 4] as nat == 0xffff - n
    ensures var more := output + file[pos + 5..pos + 5 + n];
            && Blocks(BitsFrom(file, pos), output) ==
               (if file[pos] == 1 then Done(BitsFrom(file, pos + 5 + n), more)
                else Blocks(BitsFrom(file, pos + 5 + n), more))
            && LastType(BitsFrom(file, pos), output) ==
               if file[pos] == 1 then 0 else LastType(BitsFrom(file, pos + 5 + n), more)
  {
    hide BitsFrom, StoredBytes, FixedBlock, DynamicBlock, ToBits, Lsb;
    StoredHeader(file, pos);
    var rest := BitsFrom(file, pos + 1);
    TwoBytes(file, pos + 1);
    TwoBytes(file, pos + 3);
    assert rest[16..][..16] == BitsFrom(file, pos + 3)[..16];
    StoredBytesCopied(file, pos + 5, n, output);
  }

  /** Any data stored so comes back, whatever follows it. */
  lemma {:induction false} StoredFileMeans(before: seq<Byte>, data: seq<Byte>, more: seq<Byte>, output: seq<Byte>)
    ensures var file := before + StoredFile(data) + more;
            Blocks(BitsFrom(file, |before|), output) ==
            Done(BitsFrom(file, |before + StoredFile(data)|), output + data)
            && LastType(BitsFrom(file, |before|), output) == 0
    decreases |data|
  {
    hide BitsFrom, Blocks, LastType, Le16;
    var file, pos := before + StoredFile(data) + more, |before|;
    if |data| <= 0xffff {
      assert file[pos + 5..pos + 5 + |data|] == data;
      StoredMeans(file, pos, |data|, output);
    } else {
      var block, rest := [0, 0xff, 0xff, 0, 0] + data[..0xffff], data[0xffff..];
      assert file == before + block + StoredFile(rest) + more;
      assert file[pos + 5..pos + 5 + 0xffff] == data[..0xffff];
      StoredMeans(file, pos, 0xffff, output);
      StoredFileMeans(before + block, rest, more, output + data[..0xffff]);
      assert output + data[..0xffff] + rest == output + data;
      assert before + block + StoredFile(rest) == before + StoredFile(data);
    }
  }

  /** The bytes that have these bits. */
  function BytesOf(bits: Bits): (data: seq<Byte>)
    requires |bits| % 8 == 0
    ensures |data| == |bits| / 8
    decreases |bits|
  {
    if bits == [] then []
    else
      LsbBound(bits[..8]);
      SmallPowers();
      [Lsb(bits[..8])] + BytesOf(bits[8..])
  }

  lemma {:induction false} BitsBack(before: seq<Byte>, bits: Bits, more: seq<Byte>)
    requires |bits| % 8 == 0
    ensures var file := before + BytesOf(bits) + more;
            BitsFrom(file, |before|) == bits + BitsFrom(file, |before + BytesOf(bits)|)
    decreases |bits|
  {
    var file := before + BytesOf(bits) + more;
    if bits != [] {
      var b, rest := BytesOf(bits)[..1], BytesOf(bits[8..]);
      assert BytesOf(bits) == b + rest && b == [Lsb(bits[..8])];
      hide BitsFrom, Lsb, BytesOf;
      RegroupBytes(before, b, rest, more);
      BitsBack(before + b, bits[8..], more);
      ByteFirst(file, |before|);
      ToBitsLsb(bits[..8]);
      assert bits == bits[..8] + bits[8..];
    }
  }

  lemma RegroupBytes(a: seq<Byte>, b: seq<Byte>, c: seq<Byte>, d: seq<Byte>)
    ensures a + (b + c) + d == a + b + c + d && a + (b + c) == a + b + c
    ensures b != [] ==> (a + b + c + d)[|a|] == b[0]
  {
  }

  /** Data as one block in the fixed codes, filled up to whole bytes. */
  function FixedBits(data: seq<Byte>): Bits { [true, true, false] + Joined(FixedCodes(data)) + Zeros(7) }

  function FixedFile(data: seq<Byte>): seq<Byte> {
    var bits := FixedBits(data);
    BytesOf(bits + Zeros((8 - |bits| % 8) % 8))
  }

  lemma FixedFileMeans(data: seq<Byte>, more: seq<Byte>)
    requires |more| >= 7
    ensures var bits := BitsFrom(FixedFile(data) + more, 0);
            && Blocks(bits, []).Done? && Blocks(bits, []).output == data && |Blocks(bits, []).rest| / 8 == |more|
            && LastType(bits, []) == 1
  {
    hide BitsFrom, BytesOf, Joined, FixedBlock, StoredBlock, DynamicBlock;
    var file, pad := FixedFile(data) + more, Zeros((8 - |FixedBits(data)| % 8) % 8);
    assert [] + BytesOf(FixedBits(data) + pad) + more == file;
    BitsBack([], FixedBits(data) + pad, more);
    var tail := BitsFrom(file, |FixedFile(data)|);
    assert [] + FixedFile(data) == FixedFile(data);
    var bits, body := BitsFrom(file, 0), Joined(FixedCodes(data)) + Zeros(7) + (pad + tail);
    assert bits == [true, true, false] + body;
    assert bits[1..][..2] == [true, false] && bits[1..][2..] == body;
    assert Lsb([true, false]) == 1 by { LsbPad([true], 1); assert [true] + Zeros(1) == [true, false]; OneBit(); }
    FixedMeans(data, pad + tail, []);
    assert [] + data == data;
  }

  lemma OneBit()
    ensures Lsb([true]) == 1
  {
    assert [true][1..] == [];
  }

  /** inflate on a file so made, with whatever behind it: the data come back, and what is read next is what is
      behind. */
  method InflateStoredFile(data: seq<Byte>, trailer: seq<Byte>) returns (s: Status, out: Output, next: seq<Byte>)
    ensures s == Return(0) && out.file == data && out.bytesOut == |data| && next == trailer + AT_END
  {
    var file := StoredFile(data) + trailer;
    ghost var whole := file + AT_END;
    assert whole == [] + StoredFile(data) + (trailer + AT_END) && [] + StoredFile(data) == StoredFile(data);
    StoredFileMeans([], data, trailer + AT_END, []);
    assert [] + data == data;
    hide BitsFrom, Blocks, BlocksHeld, LastType, StoredFile;
    s, out, next := Inflate.Inflate(file);
    ghost var rest := BitsFrom(whole, |StoredFile(data)|);
    ReadsOn(file, rest, data, out, next);
    assert whole[|whole| - |trailer + AT_END|..] == trailer + AT_END;
  }

  method InflateFixedFile(data: seq<Byte>, trailer: seq<Byte>) returns (s: Status, out: Output, next: seq<Byte>)
    ensures s == Return(0) && out.file == data && out.bytesOut == |data| && next == trailer + AT_END
  {
    var file := FixedFile(data) + trailer;
    ghost var whole := file + AT_END;
    assert whole == FixedFile(data) + (trailer + AT_END);
    FixedFileMeans(data, trailer + AT_END);
    hide BitsFrom, Blocks, BlocksHeld, LastType, FixedFile;
    s, out, next := Inflate.Inflate(file);
    ReadsOn(file, Blocks(BitsFrom(whole, 0), []).rest, data, out, next);
    assert whole[|whole| - |trailer + AT_END|..] == trailer + AT_END;
  }
}
