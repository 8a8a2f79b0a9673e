/** Fixed-width little-endian numbers, as Go's encoding/binary writes and reads them. */
module LittleEndian {
  import opened Prelude

  function Range(width: nat): (n: nat)
    ensures n > 0
  {
    if width == 0 then 1 else 0x100 * Range(width - 1)
  }

  function Put(n: nat, width: nat): (b: bytes)
    ensures |b| == width
  {
    if width == 0 then [] else [n % 0x100] + Put(n / 0x100, width - 1)
  }

  function Get(b: bytes): (n: nat)
    ensures n < Range(|b|)
  {
    if b == [] then 0 else b[0] + 0x100 * Get(b[1..])
  }

  /** Reading back what was written gives the number modulo the width, hence itself if it fits. */
  lemma {:induction false} GetPut(n: nat, width: nat)
    ensures Get(Put(n, width)) == n % Range(width)
    ensures n < Range(width) ==> Get(Put(n, width)) == n
  {
    if width == 0 {
    } else {
      GetPut(n / 0x100, width - 1);
      assert Put(n, width)[1..] == Put(n / 0x100, width - 1);
      DivModSplit(n, Range(width - 1));
    }
  }

  lemma DivModSplit(n: nat, r: nat)
    requires r > 0
    ensures n % 0x100 + 0x100 * (n / 0x100 % r) == n % (0x100 * r)
  {
    var q, m := n / 0x100 / r, n / 0x100 % r;
    assert n == 0x100 * (q * r + m) + n % 0x100;
    assert n == q * (0x100 * r) + (0x100 * m + n % 0x100);
    assert m <= r - 1;
    ModUnique(n, 0x100 * r, q, 0x100 * m + n % 0x100);
  }

  lemma ModUnique(n: nat, d: nat, q: nat, m: nat)
    requires d > 0 && m < d && n == q * d + m
    ensures n % d == m
  {
    var k := n / d - q;
    assert k * d == m - n % d by {
      assert n == n / d * d + n % d;
      assert k * d == n / d * d - q * d;
    }
    MulAtLeast(k, d);
  }

  lemma MulAtLeast(k: int, d: int)
    requires d >= 0
    ensures k >= 1 ==> k * d >= d
    ensures k <= -1 ==> k * d <= -d
  {}

  lemma {:induction false} PutGet(b: bytes)
    ensures Put(Get(b), |b|) == b
  {
    if b == [] {
    } else {
      PutGet(b[1..]);
      assert Get(b) % 0x100 == b[0] && Get(b) / 0x100 == Get(b[1..]);
    }
  }

  lemma DivTwice(n: nat, r: nat)
    requires r > 0
    ensures n / 0x100 / r == n / (0x100 * r)
  {
    var q, m := n / 0x100 / r, n / 0x100 % r;
    assert n == 0x100 * (q * r + m) + n % 0x100;
    assert n == q * (0x100 * r) + (0x100 * m + n % 0x100);
    assert m <= r - 1;
    ModUnique(n, 0x100 * r, q, 0x100 * m + n % 0x100);
    var k := n / (0x100 * r) - q;
    assert k * (0x100 * r) == 0 by {
      assert n == n / (0x100 * r) * (0x100 * r) + n % (0x100 * r);
    }
    MulAtLeast(k, 0x100 * r);
  }

  /** The lowest byte stands first: the i-th is the number divided by 256 to the i, modulo 256. */
  lemma {:induction false} PutIs(n: nat, width: nat, i: nat)
    requires i < width
    ensures Put(n, width)[i] == n / Range(i) % 0x100
  {
    if i == 0 {
    } else {
      PutIs(n / 0x100, width - 1, i - 1);
      DivTwice(n, Range(i - 1));
    }
  }

  lemma Widths()
    ensures Range(2) == 0x1_0000 && Range(4) == 0x1_0000_0000 && Range(8) == 0x1_0000_0000_0000_0000
  {}
}
