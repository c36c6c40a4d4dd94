/** Unsigned words as numbers, with the bit operations of Go that need more than arithmetic. */
module Words {
  newtype byte = x: int | 0 <= x < 0x100
  newtype uint32 = x: int | 0 <= x < 0x1_0000_0000

  function Pow2(n: nat): (p: nat)
    ensures p > 0
  {
    if n == 0 then 1 else 2 * Pow2(n - 1)
  }

  /** x | y, bit by bit. */
  function BitOr(x: nat, y: nat): nat {
    if x == 0 && y == 0 then 0
    else (if x % 2 == 1 || y % 2 == 1 then 1 else 0) + 2 * BitOr(x / 2, y / 2)
  }

  /** uint32(x) << s; bits that leave the word are lost. */
  function Shl(x: nat, s: nat): (r: nat)
    ensures r < 0x1_0000_0000
  {
    (x * Pow2(s)) % 0x1_0000_0000
  }

  lemma {:induction false} OrZero(x: nat)
    ensures BitOr(x, 0) == x && BitOr(0, x) == x
    decreases x
  {
    if x > 0 {
      OrZero(x / 2);
    }
  }

  lemma {:induction false} Halves(a: nat, c: nat, s: nat)
    requires s > 0 && a < Pow2(s)
    ensures (a + c * Pow2(s)) % 2 == a % 2
    ensures (a + c * Pow2(s)) / 2 == a / 2 + c * Pow2(s - 1)
    ensures a / 2 < Pow2(s - 1)
  {
    assert c * Pow2(s) == 2 * (c * Pow2(s - 1));
  }

  /** The low `s` bits and the bits above them are combined separately. */
  lemma {:induction false} OrSplit(a: nat, c: nat, b: nat, d: nat, s: nat)
    requires a < Pow2(s) && b < Pow2(s)
    ensures BitOr(a + c * Pow2(s), b + d * Pow2(s)) == BitOr(a, b) + BitOr(c, d) * Pow2(s)
    decreases s
  {
    hide BitOr;
    if s == 0 {
      OrZero(0);
    } else {
      Halves(a, c, s);
      Halves(b, d, s);
      OrSplit(a / 2, c, b / 2, d, s - 1);
      OrHalves(a, b);
      OrHalves(a + c * Pow2(s), b + d * Pow2(s));
      assert 2 * (BitOr(c, d) * Pow2(s - 1)) == BitOr(c, d) * Pow2(s);
    }
  }

  lemma OrHalves(x: nat, y: nat)
    ensures BitOr(x, y) == (if x % 2 == 1 || y % 2 == 1 then 1 else 0) + 2 * BitOr(x / 2, y / 2)
  {
  }

  /** Putting bits above a number adds them. */
  lemma OrAbove(x: nat, y: nat, s: nat)
    requires x < Pow2(s)
    ensures BitOr(x, y * Pow2(s)) == x + y * Pow2(s)
  {
    hide BitOr, Pow2;
    OrSplit(x, 0, 0, y, s);
    OrZero(x);
    OrZero(y);
  }

  lemma OrBelow(x: nat, y: nat, s: nat)
    requires x < Pow2(s)
    ensures BitOr(y * Pow2(s), x) == y * Pow2(s) + x
  {
    hide BitOr, Pow2;
    OrSplit(0, y, x, 0, s);
    OrZero(x);
    OrZero(y);
  }

  lemma ShlFits(x: nat, s: nat)
    requires x * Pow2(s) < 0x1_0000_0000
    ensures Shl(x, s) == x * Pow2(s)
  {
  }

  /** byte(x) | 0x80 */
  function HighBit(x: byte): (r: byte)
    ensures r as int == x as int % 128 + 128
  {
    OrHigh(x as int);
    BitOr(x as int, 0x80) as byte
  }

  lemma OrHigh(x: nat)
    requires x < 256
    ensures BitOr(x, 0x80) == x % 128 + 128
  {
    assert Pow2(3) == 8 && Pow2(5) == 4 * Pow2(3) && Pow2(7) == 4 * Pow2(5);
    assert x == x % 128 + x / 128 * Pow2(7);
    OrSplit(x % 128, x / 128, 0, 1, 7);
    OrZero(x % 128);
    assert BitOr(0, 1) == 1 && BitOr(1, 1) == 1;
  }

  lemma Powers()
    ensures Pow2(0) == 1 && Pow2(7) == 128 && Pow2(8) == 256 && Pow2(14) == 0x4000 && Pow2(16) == 0x1_0000
    ensures Pow2(21) == 0x20_0000 && Pow2(24) == 0x100_0000 && Pow2(28) == 0x1000_0000
  {
    PowStep(0);
    PowStep(7);
    PowStep(14);
    PowStep(21);
    assert Pow2(8) == 2 * Pow2(7);
    assert Pow2(16) == 4 * Pow2(14);
    assert Pow2(24) == 2 * Pow2(23) && Pow2(23) == 2 * Pow2(22) && Pow2(22) == 2 * Pow2(21);
  }

  lemma PowStep(n: nat)
    ensures Pow2(n + 7) == 128 * Pow2(n)
  {
    assert Pow2(n + 2) == 4 * Pow2(n);
    assert Pow2(n + 4) == 4 * Pow2(n + 2);
    assert Pow2(n + 6) == 4 * Pow2(n + 4);
  }
}
