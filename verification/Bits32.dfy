/** Single bits of 32-bit words. */
module Bits32 {
  import opened Bits
  import opened PopCount
  import IntSetIO
  import Codec

  /** Bit `k` of a 32-bit word. */
  predicate Has32(w: bv32, k: nat)
    requires k < 32
  {
    Has64(Wide(w), k)
  }

  lemma WideBoth(a: bv32, b: bv32)
    ensures Wide(a & b) == And64(Wide(a), Wide(b))
    ensures Wide(a | b) == Or64(Wide(a), Wide(b))
  {
  }

  lemma Has32Both(a: bv32, b: bv32, k: nat)
    requires k < 32
    ensures Has32(a & b, k) <==> Has32(a, k) && Has32(b, k)
    ensures Has32(a | b, k) <==> Has32(a, k) || Has32(b, k)
  {
    hide Wide, Has64;
    WideBoth(a, b);
    Has64And(Wide(a), Wide(b), k);
    Has64Or(Wide(a), Wide(b), k);
  }

  lemma WideInjective(a: bv32, b: bv32)
    requires Wide(a) == Wide(b)
    ensures a == b
  {
  }

  lemma SameBits(a: bv32, b: bv32)
    requires forall k: nat :: k < 32 ==> Has32(a, k) == Has32(b, k)
    ensures a == b
  {
    hide Has64, Wide;
    forall k: nat | k < 64
      ensures Has64(Wide(a), k) == Has64(Wide(b), k)
    {
      if k < 32 {
        assert Has32(a, k) == Has32(b, k);
      } else {
        HighBitClear(a, k);
        HighBitClear(b, k);
      }
    }
    IntSetIO.SameWord(Wide(a), Wide(b));
    WideInjective(a, b);
  }

  // ---- Shift counts ----

  lemma Order6(a: bv6, b: bv6)
    ensures a < b <==> a as nat < b as nat
  {
  }

  lemma Parity6(a: bv6)
    ensures a & 1 == 1 <==> a as nat % 2 == 1
  {
  }

  // ---- Where two words differ ----

  lemma WideXor(a: bv32, b: bv32)
    ensures Wide(Codec.Xor(a, b)) == Xor64(Wide(a), Wide(b))
  {
  }

  lemma XorDistributes(a: bv64, b: bv64, m: bv64, both: bv64, x: bv64, y: bv64)
    requires both == a ^ b && x == a & m && y == b & m
    ensures both & m == x ^ y
  {
  }

  lemma XorOfOne(x: bv64, y: bv64, m: bv64)
    requires ZeroOr(x, m) && ZeroOr(y, m) && NonZero(m)
    ensures NonZero(Xor64(x, y)) <==> NonZero(x) != NonZero(y)
  {
    hide Xor64;
    XorOfZero(x);
    XorOfZero(y);
  }

  lemma XorOfZero(x: bv64)
    ensures Xor64(x, x) == 0 && Xor64(x, 0) == x && Xor64(0, x) == x
  {
  }

  function Xor64(a: bv64, b: bv64): bv64 { a ^ b }

  lemma XorIs(a: bv64, b: bv64)
    ensures Xor64(a, b) == a ^ b
  {
  }

  lemma UnderIsXor(both: bv64, m: bv64, x: bv64, y: bv64)
    requires both & m == x ^ y
    ensures Under(both, m) == Xor64(x, y)
  {
  }

  lemma UnderXor(a: bv64, b: bv64, m: bv64)
    ensures Under(Xor64(a, b), m) == Xor64(Under(a, m), Under(b, m))
  {
    hide Under, Xor64;
    XorIs(a, b);
    UnderIs(a, m);
    UnderIs(b, m);
    XorDistributes(a, b, m, Xor64(a, b), Under(a, m), Under(b, m));
    UnderIsXor(Xor64(a, b), m, Under(a, m), Under(b, m));
  }

  lemma Has64Xor(a: bv64, b: bv64, k: nat)
    requires k < 64
    ensures Has64(Xor64(a, b), k) <==> Has64(a, k) != Has64(b, k)
  {
    hide Mask64, Under, Xor64, NonZero, ZeroOr;
    UnderXor(a, b, Mask64(k));
    UnderOneBit(a, k);
    UnderOneBit(b, k);
    XorOfOne(Under(a, Mask64(k)), Under(b, Mask64(k)), Mask64(k));
  }

  lemma XorHas(a: bv32, b: bv32, k: nat)
    requires k < 32
    ensures Has32(Codec.Xor(a, b), k) <==> Has32(a, k) != Has32(b, k)
  {
    hide Has64, Wide, Xor64, Codec.Xor;
    WideXor(a, b);
    Has64Xor(Wide(a), Wide(b), k);
  }
}
