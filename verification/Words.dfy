/**
  Unsigned 64-bit words: bit fields, and the numbers that words denote.  The conversions go bit by
  bit, which keeps words and numbers apart in proofs.
 */
module Words {

  type Word = bv64

  /** Replaces the field at `offset` by the low bits of `v`. */
  function SetBits(b: Word, v: Word, offset: Word, mask: Word): Word
    requires offset < 64
  {
    (b & !(mask << offset)) | ((v & mask) << offset)
  }

  function GetBits(b: Word, offset: Word, mask: Word): Word
    requires offset < 64
  {
    (b >> offset) & mask
  }

  // ----- words and numbers -----

  function Shift(x: Word, one: bool): Word {
    (x << 1) | if one then 1 else 0
  }

  /** The low 64 bits of a number. */
  function FromNat(n: nat): Word {
    if n == 0 then 0 else Shift(FromNat(n / 2), n % 2 == 1)
  }

  function ToNat(b: Word): nat {
    if b == 0 then 0 else 2 * ToNat(b >> 1) + if b & 1 == 1 then 1 else 0
  }

  lemma ShiftBack(b: Word)
    ensures Shift(b >> 1, b & 1 == 1) == b
  {}

  lemma FromNatTwice(half: nat, one: bool)
    ensures FromNat(2 * half + if one then 1 else 0) == Shift(FromNat(half), one)
  {}

  lemma {:induction false} FromToNat(b: Word)
    ensures FromNat(ToNat(b)) == b
  {
    if b == 0 {
    } else {
      FromToNat(b >> 1);
      FromNatTwice(ToNat(b >> 1), b & 1 == 1);
      ShiftBack(b);
    }
  }

  function Power(w: Word): (p: nat)
    ensures p > 0
  {
    if w == 0 then 1 else 2 * Power(w - 1)
  }

  lemma PowerFour(w: Word)
    requires w <= 60
    ensures Power(w + 4) == 16 * Power(w)
  {
    assert Power(w + 1) == 2 * Power(w);
    assert Power(w + 2) == 2 * Power(w + 1);
    assert Power(w + 3) == 2 * Power(w + 2);
  }

  lemma PowerOfHalfWord()
    ensures Power(32) == 0x1_0000_0000
  {
    PowerFour(0);
    PowerFour(4);
    PowerFour(8);
    PowerFour(12);
    PowerFour(16);
    PowerFour(20);
    PowerFour(24);
    PowerFour(28);
  }

  /** A word of `w` bits denotes a number below 2 to the `w`. */
  lemma {:induction false} ToNatBound(b: Word, w: Word)
    requires w < 64 && b >> w == 0
    ensures ToNat(b) < Power(w)
    decreases w
  {
    if b == 0 || w == 0 {
    } else {
      assert (b >> 1) >> (w - 1) == 0;
      ToNatBound(b >> 1, w - 1);
    }
  }
}
