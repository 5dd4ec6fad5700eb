/** Numbers on disk, low-order byte first. */
module LittleEndian {
  import opened BitStrings

  function Le16(n: nat): (b: seq<Byte>)
    requires n < 0x1_0000
    ensures |b| == 2 && (b[0] as nat) + 0x100 * (b[1] as nat) == n
  {
    [n % 256, n / 256]
  }

  function Le32(n: nat): (b: seq<Byte>)
    requires n < 0x1_0000_0000
    ensures |b| == 4
    ensures (b[0] as nat) + 0x100 * (b[1] as nat) + 0x1_0000 * (b[2] as nat) + 0x100_0000 * (b[3] as nat) == n
  {
    Le16(n % 0x1_0000) + Le16(n / 0x1_0000)
  }

  function Get16(t: seq<Byte>, at: nat): (n: nat)
    requires at + 2 <= |t|
    ensures n < 0x1_0000
  {
    t[at] as nat + 256 * t[at + 1] as nat
  }

  function Get32(t: seq<Byte>, at: nat): (n: nat)
    requires at + 4 <= |t|
    ensures n < 0x1_0000_0000
  {
    Get16(t, at) + 0x1_0000 * Get16(t, at + 2)
  }

  /** A signed number in 16 bits. */
  function Short(d: int): (n: nat)
    requires -0x8000 <= d < 0x8000
    ensures n < 0x1_0000 && n % 0x1_0000 == d % 0x1_0000
  {
    if d < 0 then d + 0x1_0000 else d
  }

  function GetShort(n: nat): (d: int)
    requires n < 0x1_0000
    ensures -0x8000 <= d < 0x8000 && d % 0x1_0000 == n
  {
    if n >= 0x8000 then n - 0x1_0000 else n
  }

  /** `part` is in `t` at `at`. */
  ghost predicate In(t: seq<Byte>, at: nat, part: seq<Byte>) {
    at + |part| <= |t| && t[at..at + |part|] == part
  }

  lemma InParts(t: seq<Byte>, at: nat, a: seq<Byte>, b: seq<Byte>)
    requires In(t, at, a + b)
    ensures In(t, at, a) && In(t, at + |a|, b)
  {
    var all := t[at..at + |a + b|];
    assert t[at..at + |a|] == all[..|a|] && t[at + |a|..at + |a| + |b|] == all[|a|..];
  }

  lemma In16(t: seq<Byte>, at: nat, n: nat)
    requires n < 0x1_0000 && In(t, at, Le16(n))
    ensures Get16(t, at) == n
  {
    assert t[at] == t[at..at + 2][0] && t[at + 1] == t[at..at + 2][1];
  }

  lemma In32(t: seq<Byte>, at: nat, n: nat)
    requires n < 0x1_0000_0000 && In(t, at, Le32(n))
    ensures Get32(t, at) == n
  {
    InParts(t, at, Le16(n % 0x1_0000), Le16(n / 0x1_0000));
    In16(t, at, n % 0x1_0000);
    In16(t, at + 2, n / 0x1_0000);
  }

  /** A number in 64 bits; more are cut off. */
  function Le64(n: nat): (b: seq<Byte>)
    ensures |b| == 8
    ensures (b[0] as nat) + 0x100 * (b[1] as nat) + 0x1_0000 * (b[2] as nat) + 0x100_0000 * (b[3] as nat)
            == n % 0x1_0000_0000
    ensures (b[4] as nat) + 0x100 * (b[5] as nat) + 0x1_0000 * (b[6] as nat) + 0x100_0000 * (b[7] as nat)
            == n / 0x1_0000_0000 % 0x1_0000_0000
  {
    Le32(n % 0x1_0000_0000) + Le32(n / 0x1_0000_0000 % 0x1_0000_0000)
  }

  function Get64(t: seq<Byte>, at: nat): nat
    requires at + 8 <= |t|
  {
    Get32(t, at) + 0x1_0000_0000 * Get32(t, at + 4)
  }

  lemma In64(t: seq<Byte>, at: nat, n: nat)
    requires n / 0x1_0000_0000 < 0x1_0000_0000 && In(t, at, Le64(n))
    ensures Get64(t, at) == n
  {
    hide Le32, Get32;
    InParts(t, at, Le32(n % 0x1_0000_0000), Le32(n / 0x1_0000_0000 % 0x1_0000_0000));
    In32(t, at, n % 0x1_0000_0000);
    In32(t, at + 4, n / 0x1_0000_0000 % 0x1_0000_0000);
  }

  /** What is there stays there when more comes after it. */
  lemma InLonger(t: seq<Byte>, more: seq<Byte>, at: nat, part: seq<Byte>)
    requires In(t, at, part)
    ensures In(t + more, at, part)
  {
    assert (t + more)[at..at + |part|] == t[at..at + |part|];
  }
}
