/** Blocks that deflators finish in any order, back in the order of the files: push_buffer and
    get_file_buffer of mksquashfs. */
module Resequence {

  import opened Basics

  /** A file_buffer: its number in the order of reading, what it holds, and its field `error`. */
  datatype Buffer = Buffer(sequence: nat, content: int, error: nat)

  // ---------------------------------------------------------------------------------- the reader

  /** What the read buffers of a file are to be, apart from their numbers. */
  datatype Piece = Piece(content: int, error: nat)

  /** An attempt to read a file: its blocks, of which the last has an error when the attempt fails: 2 when
      the size of the file has changed and it is read again. */
  datatype Attempt = Attempt(blocks: seq<int>, error: nat)

  function WithError(blocks: seq<int>, error: nat): (p: seq<Piece>)
    ensures |p| == |blocks|
  {
    seq(|blocks|, i requires 0 <= i < |blocks| => Piece(blocks[i], if i == |blocks| - 1 then error else 0))
  }

  lemma WithErrorIs(blocks: seq<int>, error: nat)
    ensures var all := WithError(if blocks == [] then [0] else blocks, error);
            && |all| == (if blocks == [] then 1 else |blocks|) && all[|all| - 1].error == error
            && (blocks == [] ==> all[0].content == 0)
            && forall i :: 0 <= i < |blocks| ==> all[i].content == blocks[i] && (i < |blocks| - 1 ==> all[i].error == 0)
  {
  }

  /** Pieces with the numbers from `n` on. */
  function Number(n: nat, pieces: seq<Piece>): (bs: seq<Buffer>)
    ensures |bs| == |pieces|
  {
    seq(|pieces|, i requires 0 <= i < |pieces| => Buffer(n + i, pieces[i].content, pieces[i].error))
  }

  function AllPieces(attempts: seq<Attempt>): seq<Piece> {
    if attempts == [] then []
    else AllPieces(attempts[..|attempts| - 1])
         + WithError(attempts[|attempts| - 1].blocks, attempts[|attempts| - 1].error)
  }

  predicate InTurn(bs: seq<Buffer>) { forall i :: 0 <= i < |bs| ==> bs[i].sequence == i }

  lemma StaysInTurn(bs: seq<Buffer>, pieces: seq<Piece>)
    requires InTurn(bs)
    ensures InTurn(bs + Number(|bs|, pieces))
  {
  }

  lemma NumberAppend(n: nat, a: seq<Piece>, b: seq<Piece>)
    ensures Number(n, a + b) == Number(n, a) + Number(n + |a|, b)
  {
  }

  lemma NumberNext(n: nat, pieces: seq<Piece>, i: nat)
    requires i < |pieces|
    ensures Number(n, pieces[..0]) == [] && pieces[..|pieces|] == pieces
    ensures Number(n, pieces[..i + 1])
         == Number(n, pieces[..i]) + [Buffer(n + i, pieces[i].content, pieces[i].error)]
  {
  }

  /** The reader's static `seq`, and the buffers that it has put on a queue, to the deflators or, with an
      error, past them. */
  class Reader {
    var seqNo: nat
    var made: seq<Buffer>

    ghost predicate Valid()
      reads this
    {
      seqNo == |made| && InTurn(made)
    }

    constructor ()
      ensures Valid() && made == []
    {
      seqNo, made := 0, [];
    }

    /** One attempt of reader_read_file (lines 2383-2444): a buffer is queued when the next one is read. */
    method ReadAttempt(a: Attempt)
      requires Valid() && a.blocks != []
      modifies this
      ensures Valid() && made == old(made) + Number(|old(made)|, WithError(a.blocks, a.error))
    {
      hide InTurn, Number;
      ghost var n, all := |made|, WithError(a.blocks, a.error);
      StaysInTurn(made, all);
      NumberNext(n, all, |all| - 1);
      var b := Buffer(seqNo, a.blocks[0], 0);
      seqNo := seqNo + 1;
      var i := 1;
      while i < |a.blocks|
        invariant 1 <= i <= |a.blocks| && seqNo == |old(made)| + i && b == Buffer(seqNo - 1, a.blocks[i - 1], 0)
        invariant made == old(made) + Number(n, all[..i - 1])
      {
        NumberNext(n, all, i - 1);
        made := made + [b];
        b := Buffer(seqNo, a.blocks[i], 0);
        seqNo := seqNo + 1;
        i := i + 1;
      }
      NumberNext(n, all, i - 1);
      made := made + [b.(error := a.error)];
      assert all[..i] == all;
      assert made == old(made) + Number(n, all);
    }

    /** reader_read_file (lines 2359-2456): again, until an attempt does not find another size. */
    method ReadFile(attempts: seq<Attempt>)
      requires Valid() && forall i :: 0 <= i < |attempts| ==> attempts[i].blocks != []
      modifies this
      ensures Valid() && made == old(made) + Number(|old(made)|, AllPieces(attempts))
    {
      var i := 0;
      while i < |attempts|
        invariant 0 <= i <= |attempts| && Valid()
        invariant made == old(made) + Number(|old(made)|, AllPieces(attempts[..i]))
      {
        assert attempts[..i + 1][..i] == attempts[..i];
        NumberAppend(|old(made)|, AllPieces(attempts[..i]), WithError(attempts[i].blocks, attempts[i].error));
        ReadAttempt(attempts[i]);
        i := i + 1;
      }
      assert attempts[..i] == attempts;
    }

    /** reader_read_process (lines 2287-2356): what a process writes, until a read is empty or, with
        `failed`, something goes wrong; the number of the last read is given back, unless it is the only
        one. */
    method ReadProcess(blocks: seq<int>, failed: bool)
      requires Valid()
      modifies this
      ensures Valid()
      ensures var all := if blocks == [] then [0] else blocks;
              made == old(made) + Number(|old(made)|, WithError(all, if failed then 1 else 0))
    {
      var error := if failed then 1 else 0;
      ghost var all := WithError(if blocks == [] then [0] else blocks, error);
      ghost var n := |made|;
      hide Number, WithError, InTurn;
      StaysInTurn(made, all);
      NumberNext(n, all, |all| - 1);
      WithErrorIs(blocks, error);
      var prev: Option<Buffer> := None;
      var i := 0;
      while i < |blocks|
        invariant 0 <= i <= |blocks| && seqNo == |old(made)| + i
        invariant prev == if i == 0 then None else Some(Buffer(seqNo - 1, blocks[i - 1], 0))
        invariant made == old(made) + Number(n, all[..if i == 0 then 0 else i - 1])
      {
        var b := Buffer(seqNo, blocks[i], 0);
        seqNo := seqNo + 1;
        NumberNext(n, all, i);
        if prev.Some? {
          NumberNext(n, all, i - 1);
          made := made + [prev.value];
        }
        prev := Some(b);
        i := i + 1;
      }
      var b := Buffer(seqNo, 0, 0);
      seqNo := seqNo + 1;
      if prev.Some? {
        seqNo := seqNo - 1;
        b := prev.value;
      }
      NumberNext(n, all, |all| - 1);
      made := made + [b.(error := error)];
    }
  }

  // ------------------------------------------------------------------------------- back in order

  /** BLOCK_HASH (line 2667) */
  function Hash(n: nat): (h: nat)
    ensures h < 256
  {
    n % 256
  }

  /** Chain `h` holds exactly the parked buffers whose numbers lead to it. */
  ghost predicate ChainIs(chain: seq<Buffer>, h: nat, parked: multiset<Buffer>) {
    forall b :: multiset(chain)[b] == if Hash(b.sequence) == h then parked[b] else 0
  }

  lemma ChainPush(chain: seq<Buffer>, h: nat, parked: multiset<Buffer>, b: Buffer)
    requires ChainIs(chain, h, parked)
    ensures ChainIs(if Hash(b.sequence) == h then [b] + chain else chain, h, parked + multiset{b})
  {
  }

  lemma ChainTake(chain: seq<Buffer>, h: nat, parked: multiset<Buffer>, i: nat)
    requires ChainIs(chain, h, parked) && i < |chain|
    ensures Hash(chain[i].sequence) == h && chain[i] in parked
    ensures ChainIs(chain[..i] + chain[i + 1..], h, parked - multiset{chain[i]})
  {
    assert chain == chain[..i] + [chain[i]] + chain[i + 1..];
    assert multiset(chain)[chain[i]] > 0;
  }

  lemma ChainOther(chain: seq<Buffer>, h: nat, parked: multiset<Buffer>, b: Buffer)
    requires ChainIs(chain, h, parked) && Hash(b.sequence) != h
    ensures ChainIs(chain, h, parked - multiset{b})
  {
  }

  lemma NotOnChain(chain: seq<Buffer>, h: nat, parked: multiset<Buffer>, n: nat)
    requires ChainIs(chain, h, parked) && Hash(n) == h
    requires forall j :: 0 <= j < |chain| ==> chain[j].sequence != n
    ensures forall x :: x in parked ==> x.sequence != n
  {
    forall x | x in parked ensures x.sequence != n {
      assert x.sequence == n ==> multiset(chain)[x] > 0;
      assert x in multiset(chain) ==> x in chain;
    }
  }

  /** block_hash and the static `sequence`; `parked` are the buffers on the chains. */
  class Sequencer {
    const chains: array<seq<Buffer>>
    var sequence: nat
    ghost var parked: multiset<Buffer>

    ghost predicate Valid()
      reads this, chains
    {
      chains.Length == 256 && forall h: nat :: h < 256 ==> ChainIs(chains[h], h, parked)
    }

    constructor ()
      ensures Valid() && fresh(chains) && sequence == 0 && parked == multiset{}
    {
      chains := new seq<Buffer>[256](_ => []);
      sequence, parked := 0, multiset{};
    }

    /** push_buffer (lines 2670-2676) */
    method Push(b: Buffer)
      requires Valid()
      modifies `parked, chains
      ensures Valid() && parked == old(parked) + multiset{b}
    {
      hide ChainIs;
      forall h: nat | h < 256
        ensures ChainIs(if Hash(b.sequence) == h then [b] + chains[h] else chains[h], h, parked + multiset{b})
      {
        ChainPush(chains[h], h, parked, b);
      }
      var h := Hash(b.sequence);
      chains[h] := [b] + chains[h];
      parked := parked + multiset{b};
    }

    /** The search of a chain, and the buffer taken out of it (lines 2685-2693). */
    method Take() returns (found: bool, b: Buffer)
      requires Valid()
      modifies `parked, chains
      ensures Valid() && sequence == old(sequence)
      ensures found ==> b.sequence == sequence && b in old(parked) && parked == old(parked) - multiset{b}
      ensures !found ==> parked == old(parked) && forall x :: x in parked ==> x.sequence != sequence
    {
      hide ChainIs;
      var h := Hash(sequence);
      var chain := chains[h];
      b := Buffer(0, 0, 0);
      var i := 0;
      while i < |chain| && chain[i].sequence != sequence
        invariant 0 <= i <= |chain| && forall j :: 0 <= j < i ==> chain[j].sequence != sequence
      {
        i := i + 1;
      }
      if i == |chain| {
        NotOnChain(chain, h, parked, sequence);
        return false, b;
      }
      b := chain[i];
      ChainTake(chain, h, parked, i);
      forall k: nat | k < 256 && k != h ensures ChainIs(chains[k], k, parked - multiset{b}) {
        ChainOther(chains[k], k, parked, b);
      }
      chains[h] := chain[..i] + chain[i + 1..];
      parked := parked - multiset{b};
      return true, b;
    }

    /** get_file_buffer (lines 2679-2706), when the buffers in the queue are what the deflators will have
        put there, in the order in which they finish. */
    method GetFileBuffer(queue: seq<Buffer>) returns (b: Buffer, rest: seq<Buffer>)
      requires Valid()
      requires exists x :: (x in parked || x in queue) && x.sequence == sequence
      modifies this, chains
      ensures Valid() && b.sequence == old(sequence) && sequence == old(sequence) + 1
      ensures parked + multiset(rest) + multiset{b} == old(parked) + multiset(queue)
    {
      var found;
      rest := queue;
      found, b := Take();
      while !found
        invariant Valid() && sequence == old(sequence) && (found ==> b.sequence == sequence)
        invariant parked + multiset(rest) + (if found then multiset{b} else multiset{}) == old(parked) + multiset(queue)
        invariant !found ==> exists x :: x in rest && x.sequence == sequence
        decreases !found, |rest|
      {
        b := rest[0];
        assert rest == [b] + rest[1..];
        if b.sequence == sequence {
          found := true;
        } else {
          Push(b);
        }
        rest := rest[1..];
      }
      sequence := sequence + 1;
    }
  }

  /** Each number from `n` to the end is that of exactly one buffer. */
  ghost predicate Numbered(bs: multiset<Buffer>, n: nat, end: nat) {
    && (forall b :: b in bs ==> n <= b.sequence < end && bs[b] == 1)
    && (forall i: nat :: n <= i < end ==> HasNumber(bs, i))
    && forall b, c :: b in bs && c in bs && b.sequence == c.sequence ==> b == c
  }

  ghost predicate HasNumber(bs: multiset<Buffer>, i: nat) { exists b :: b in bs && b.sequence == i }

  lemma NumberedNext(bs: multiset<Buffer>, n: nat, end: nat, b: Buffer)
    requires Numbered(bs, n, end) && b in bs && b.sequence == n
    ensures Numbered(bs - multiset{b}, n + 1, end)
  {
    forall i: nat | n + 1 <= i < end ensures HasNumber(bs - multiset{b}, i) {
      assert HasNumber(bs, i);
      var c :| c in bs && c.sequence == i;
      assert c in bs - multiset{b};
    }
  }

  lemma FirstOf(parked: multiset<Buffer>, rest: seq<Buffer>, n: nat, end: nat)
    requires Numbered(parked + multiset(rest), n, end) && n < end
    ensures exists x :: (x in parked || x in rest) && x.sequence == n
  {
    assert HasNumber(parked + multiset(rest), n);
    var x :| x in parked + multiset(rest) && x.sequence == n;
    assert x in parked || x in rest;
  }

  lemma Moved(before: multiset<Buffer>, now: multiset<Buffer>, out: seq<Buffer>, b: Buffer, all: multiset<Buffer>)
    requires now + multiset{b} == before && before + multiset(out) == all
    ensures now == before - multiset{b} && b in before && now + multiset(out + [b]) == all
  {
    assert (before - multiset{b})[b] == now[b];
  }

  /** The main thread takes buffer after buffer: whatever the order in which they come, it gets all of them,
      once each, in the order of their numbers. */
  method Deliver(queue: seq<Buffer>) returns (out: seq<Buffer>)
    requires Numbered(multiset(queue), 0, |queue|)
    ensures |out| == |queue| && multiset(out) == multiset(queue)
    ensures forall i :: 0 <= i < |out| ==> out[i].sequence == i
  {
    hide Numbered;
    var s := new Sequencer();
    var rest := queue;
    out := [];
    assert s.parked + multiset(rest) == multiset(queue);
    while |out| < |queue|
      invariant |out| <= |queue| && s.Valid() && fresh(s) && fresh(s.chains) && s.sequence == |out|
      invariant s.parked + multiset(rest) + multiset(out) == multiset(queue)
      invariant Numbered(s.parked + multiset(rest), |out|, |queue|)
      invariant forall i :: 0 <= i < |out| ==> out[i].sequence == i
    {
      ghost var left := s.parked + multiset(rest);
      FirstOf(s.parked, rest, |out|, |queue|);
      var b;
      b, rest := s.GetFileBuffer(rest);
      Moved(left, s.parked + multiset(rest), out, b, multiset(queue));
      NumberedNext(left, |out|, |queue|, b);
      out := out + [b];
    }
  }

  /** A deflator puts something else into a buffer, but keeps its number (line 2607). */
  function Deflated(made: seq<Buffer>, deflate: Buffer -> int): (bs: seq<Buffer>)
    ensures |bs| == |made|
    ensures forall i :: 0 <= i < |made| ==> bs[i].content == deflate(made[i]) && bs[i].sequence == made[i].sequence
  {
    seq(|made|, i requires 0 <= i < |made| => made[i].(content := deflate(made[i])))
  }

  lemma InTurnNumbered(bs: seq<Buffer>, queue: seq<Buffer>)
    requires InTurn(bs) && multiset(queue) == multiset(bs)
    ensures |queue| == |bs| && Numbered(multiset(queue), 0, |queue|)
  {
    assert |multiset(queue)| == |multiset(bs)|;
    forall b | b in multiset(bs) ensures b in bs && b.sequence < |bs| && multiset(bs)[b] == 1 {
      OnlyOnce(bs, b);
    }
    forall i: nat | i < |bs| ensures HasNumber(multiset(queue), i) {
      assert bs[i] in multiset(bs);
    }
  }

  lemma OnlyOnce(bs: seq<Buffer>, b: Buffer)
    requires InTurn(bs) && b in bs
    ensures b.sequence < |bs| && bs[b.sequence] == b && multiset(bs)[b] == 1
  {
    var i := b.sequence;
    assert bs == bs[..i] + [b] + bs[i + 1..];
    assert b !in bs[..i] && b !in bs[i + 1..];
  }

  lemma SameInTurn(a: seq<Buffer>, b: seq<Buffer>)
    requires InTurn(a) && InTurn(b) && multiset(a) == multiset(b) && |a| == |b|
    ensures a == b
  {
    forall i | 0 <= i < |a| ensures a[i] == b[i] {
      assert a[i] in multiset(a);
      assert a[i] in b;
      OnlyOnce(b, a[i]);
    }
  }

  /** From the reader through the deflators, which may finish in any order, to the main thread: it gets the
      buffers as they were read. */
  method ReadToWrite(r: Reader, deflate: Buffer -> int, queue: seq<Buffer>) returns (out: seq<Buffer>)
    requires r.Valid() && multiset(queue) == multiset(Deflated(r.made, deflate))
    ensures out == Deflated(r.made, deflate)
  {
    InTurnNumbered(Deflated(r.made, deflate), queue);
    out := Deliver(queue);
    SameInTurn(out, Deflated(r.made, deflate));
  }
}
