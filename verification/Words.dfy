/** Registers of 32 bits, least significant first. */
module Words {
  import opened BitStrings

  const TWO32: nat := 0x1_0000_0000

  type Word = w: Bits | |w| == 32 witness ToBits(0, 32)

  lemma WordBound(w: Word)
    ensures Pow2(32) == TWO32 && Lsb(w) < TWO32
  {
    assert Pow2(10) == 1024 && Pow2(20) == 0x10_0000 && Pow2(30) == 0x4000_0000;
    LsbBound(w);
  }

  function Xor(a: Word, b: Word): Word { seq(32, i requires 0 <= i < 32 => a[i] != b[i]) }

  function And(a: Word, b: Word): Word { seq(32, i requires 0 <= i < 32 => a[i] && b[i]) }

  function Or(a: Word, b: Word): Word { seq(32, i requires 0 <= i < 32 => a[i] || b[i]) }

  function Not(a: Word): Word { seq(32, i requires 0 <= i < 32 => !a[i]) }

  /** `w >> n` */
  function ShiftRight(w: Word, n: nat): Word
    requires n <= 32
  {
    w[n..] + Zeros(n)
  }

  /** `w << n` */
  function ShiftLeft(w: Word, n: nat): Word
    requires n <= 32
  {
    Zeros(n) + w[..32 - n]
  }

  /** `w` shifted circularly left by `n` places. */
  function RotateLeft(w: Word, n: nat): Word
    requires n <= 32
  {
    w[32 - n..] + w[..32 - n]
  }

  lemma ShiftsRotate(w: Word, n: nat)
    requires n <= 32
    ensures Or(ShiftLeft(w, n), ShiftRight(w, 32 - n)) == RotateLeft(w, n)
  {
    var l, r := Or(ShiftLeft(w, n), ShiftRight(w, 32 - n)), RotateLeft(w, n);
    assert forall i :: 0 <= i < 32 ==> l[i] == r[i];
  }

  /** Sum modulo 2^32. */
  function Add(a: Word, b: Word): Word { ToBits((Lsb(a) + Lsb(b)) % TWO32, 32) }
}
