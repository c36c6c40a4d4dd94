/** Single bits of machine words, and the facts about them that the other modules need. */
module Bits {

  // ---- 8-bit words ----

  function Mask8(k: nat): (m: bv8)
    requires k < 8
  {
    1 << k
  }

  predicate Has8(w: bv8, k: nat)
    requires k < 8
  {
    w & Mask8(k) != 0
  }

  /** The word whose bits are the given ones, lowest first. */
  function Word8(b0: bool, b1: bool, b2: bool, b3: bool, b4: bool, b5: bool, b6: bool, b7: bool): (w: bv8)
  {
    (if b0 then 1 else 0) | (if b1 then 2 else 0) | (if b2 then 4 else 0) | (if b3 then 8 else 0) |
    (if b4 then 16 else 0) | (if b5 then 32 else 0) | (if b6 then 64 else 0) | (if b7 then 128 else 0)
  }

  lemma Masks8()
    ensures Mask8(0) == 1 && Mask8(1) == 2 && Mask8(2) == 4 && Mask8(3) == 8
    ensures Mask8(4) == 16 && Mask8(5) == 32 && Mask8(6) == 64 && Mask8(7) == 128
  {
  }

  lemma Word8Has(w: bv8)
    ensures w == Word8(Has8(w, 0), Has8(w, 1), Has8(w, 2), Has8(w, 3), Has8(w, 4), Has8(w, 5), Has8(w, 6), Has8(w, 7))
  {
    Masks8();
  }

  lemma HasWord8(b0: bool, b1: bool, b2: bool, b3: bool, b4: bool, b5: bool, b6: bool, b7: bool)
    ensures var w := Word8(b0, b1, b2, b3, b4, b5, b6, b7);
            && Has8(w, 0) == b0 && Has8(w, 1) == b1 && Has8(w, 2) == b2 && Has8(w, 3) == b3
            && Has8(w, 4) == b4 && Has8(w, 5) == b5 && Has8(w, 6) == b6 && Has8(w, 7) == b7
  {
    Masks8();
  }

  // ---- 64-bit words ----

  /** A shift count below 64. */
  function Index(k: nat): bv6
    requires k < 64
  {
    k as bv6
  }

  function Mask64(k: nat): (m: bv64)
    requires k < 64
  {
    1 << Index(k)
  }

  /** The bits of `w` under a mask. */
  function Under(w: bv64, m: bv64): bv64 { w & m }

  predicate NonZero(w: bv64) { w != 0 }

  predicate Has64(w: bv64, k: nat)
    requires k < 64
  {
    NonZero(Under(w, Mask64(k)))
  }

  predicate ZeroOr(w: bv64, m: bv64) { w == 0 || w == m }

  lemma UnderShift(w: bv64, k: bv6)
    ensures 1 as bv64 << k != 0
    ensures w & (1 << k) == 0 || w & (1 << k) == 1 << k
  {
  }

  lemma UnderOneBit(w: bv64, k: nat)
    requires k < 64
    ensures NonZero(Mask64(k)) && ZeroOr(Under(w, Mask64(k)), Mask64(k))
  {
    hide Index;
    UnderShift(w, Index(k));
  }

  lemma ShiftsDisjoint(k: bv6, j: bv6)
    requires k != j
    ensures (1 as bv64 << k) & (1 as bv64 << j) == 0
  {
  }

  lemma IndexBack(k: nat)
    requires k < 64
    ensures Index(k) as int == k
  {
  }

  lemma IndexInjective(k: nat, j: nat)
    requires k < 64 && j < 64 && k != j
    ensures Index(k) != Index(j)
  {
    hide Index;
    IndexBack(k);
    IndexBack(j);
  }

  lemma MasksDisjoint(k: nat, j: nat)
    requires k < 64 && j < 64 && k != j
    ensures !NonZero(Under(Mask64(k), Mask64(j)))
  {
    hide Index;
    IndexInjective(k, j);
    ShiftsDisjoint(Index(k), Index(j));
  }

  // The three ways in which words are combined.
  function And64(a: bv64, b: bv64): bv64 { a & b }

  function Or64(a: bv64, b: bv64): bv64 { a | b }

  function AndNot64(a: bv64, b: bv64): bv64 { a & !b }

  lemma UnderAnd(a: bv64, b: bv64, m: bv64)
    ensures Under(And64(a, b), m) == And64(Under(a, m), Under(b, m))
  {
  }

  lemma OrDistributes(a: bv64, b: bv64, m: bv64, both: bv64, x: bv64, y: bv64)
    requires both == a | b && x == a & m && y == b & m
    ensures both & m == x | y
  {
  }

  lemma OrIs(a: bv64, b: bv64)
    ensures Or64(a, b) == a | b
  {
  }

  lemma UnderIs(w: bv64, m: bv64)
    ensures Under(w, m) == w & m
  {
  }

  lemma UnderIsOr(both: bv64, m: bv64, x: bv64, y: bv64)
    requires both & m == x | y
    ensures Under(both, m) == Or64(x, y)
  {
  }

  lemma UnderOr(a: bv64, b: bv64, m: bv64)
    ensures Under(Or64(a, b), m) == Or64(Under(a, m), Under(b, m))
  {
    hide Under, Or64;
    OrIs(a, b);
    UnderIs(a, m);
    UnderIs(b, m);
    OrDistributes(a, b, m, Or64(a, b), Under(a, m), Under(b, m));
    UnderIsOr(Or64(a, b), m, Under(a, m), Under(b, m));
  }

  lemma UnderSelf(m: bv64)
    ensures Under(m, m) == m
  {
  }

  lemma UnderCleared(a: bv64, s: bv64, m: bv64)
    requires !NonZero(Under(s, m))
    ensures Under(AndNot64(a, s), m) == Under(a, m)
  {
  }

  lemma UnderClearedSelf(a: bv64, m: bv64)
    ensures !NonZero(Under(AndNot64(a, m), m))
  {
  }

  lemma NonZeroAnd(x: bv64, y: bv64, m: bv64)
    requires ZeroOr(x, m) && ZeroOr(y, m)
    ensures NonZero(And64(x, y)) == (NonZero(x) && NonZero(y))
  {
  }

  lemma NonZeroOr(x: bv64, y: bv64)
    ensures NonZero(Or64(x, y)) == (NonZero(x) || NonZero(y))
  {
    assert x == 0 ==> Or64(x, y) == y;
  }

  lemma Has64And(a: bv64, b: bv64, k: nat)
    requires k < 64
    ensures Has64(And64(a, b), k) == (Has64(a, k) && Has64(b, k))
  {
    hide Mask64, Under, And64, Or64, NonZero, ZeroOr;
    UnderAnd(a, b, Mask64(k));
    UnderOneBit(a, k);
    UnderOneBit(b, k);
    NonZeroAnd(Under(a, Mask64(k)), Under(b, Mask64(k)), Mask64(k));
  }

  lemma Has64Or(a: bv64, b: bv64, k: nat)
    requires k < 64
    ensures Has64(Or64(a, b), k) == (Has64(a, k) || Has64(b, k))
  {
    hide Mask64, Under, And64, Or64, NonZero, ZeroOr;
    UnderOr(a, b, Mask64(k));
    NonZeroOr(Under(a, Mask64(k)), Under(b, Mask64(k)));
  }

  lemma Has64Mask(s: nat, k: nat)
    requires s < 64 && k < 64
    ensures Has64(Mask64(s), k) == (k == s)
  {
    hide Mask64, Under, NonZero, ZeroOr;
    UnderOneBit(0, k);
    if k == s {
      UnderSelf(Mask64(k));
    } else {
      MasksDisjoint(s, k);
    }
  }

  lemma Has64Set(a: bv64, s: nat, k: nat)
    requires s < 64 && k < 64
    ensures Has64(Or64(a, Mask64(s)), k) == (k == s || Has64(a, k))
  {
    hide Mask64, Has64, Or64;
    Has64Or(a, Mask64(s), k);
    Has64Mask(s, k);
  }

  lemma Has64Clear(a: bv64, s: nat, k: nat)
    requires s < 64 && k < 64
    ensures Has64(AndNot64(a, Mask64(s)), k) == (k != s && Has64(a, k))
  {
    hide Mask64, Under, AndNot64, NonZero;
    if k == s {
      UnderClearedSelf(a, Mask64(s));
    } else {
      MasksDisjoint(s, k);
      UnderCleared(a, Mask64(s), Mask64(k));
    }
  }

  lemma Has64Zero(k: nat)
    requires k < 64
    ensures !Has64(0, k)
  {
    hide Mask64;
  }
}
