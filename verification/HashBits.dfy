/** Which bits of a hash are compared: hashBitMask of pkg/chromaprint/match.go, bit by bit. */
module HashBits {
  import opened Bits
  import PopCount
  import opened Histogram
  import opened Bits32

  // ---- Shifts and the two constants ----

  lemma LowBitsShift(s: bv6, t: bv6)
    requires s < 32 && t < 32
    ensures ((1 as bv32 << s) - 1) as bv64 & (1 as bv64 << t) != 0 <==> t < s
  {
  }

  lemma ConstantsShift(t: bv6)
    requires t < 32
    ensures 0xffff_ffff as bv64 & (1 as bv64 << t) != 0
    ensures 0xaaaa_aaaa as bv64 & (1 as bv64 << t) != 0 <==> t & 1 == 1
    ensures 0x5555_5555 as bv64 & (1 as bv64 << t) != 0 <==> t & 1 == 0
  {
  }

  lemma LowBitsHave(m: nat, k: nat)
    requires k < 32
    ensures Has32(LowBits(m), k) <==> k < m
  {
    hide Index;
    IndexSmall(k);
    if m < 32 {
      IndexSmall(m);
      IndexBack(k);
      IndexBack(m);
      Order6(Index(k), Index(m));
      LowBitsShift(Small(m), Index(k));
    } else {
      ConstantsShift(Index(k));
    }
  }

  lemma IndexSmall(k: nat)
    requires k < 32
    ensures Index(k) == Small(k) < 32
  {
  }

  lemma ConstantsHave(k: nat)
    requires k < 32
    ensures Has32(0xaaaa_aaaa, k) <==> k % 2 == 1
    ensures Has32(0x5555_5555, k) <==> k % 2 == 0
    ensures Has32(0xffff_ffff, k)
  {
    hide Index;
    IndexSmall(k);
    IndexBack(k);
    Parity6(Index(k));
    ConstantsShift(Index(k));
  }

  function And32(a: bv32, b: bv32): bv32 { a & b }

  function Or32(a: bv32, b: bv32): bv32 { a | b }

  lemma BothAre(a: bv32, b: bv32)
    ensures And32(a, b) == a & b && Or32(a, b) == a | b
  {
  }

  lemma HasBoth(a: bv32, b: bv32, k: nat)
    requires k < 32
    ensures Has32(And32(a, b), k) <==> Has32(a, k) && Has32(b, k)
    ensures Has32(Or32(a, b), k) <==> Has32(a, k) || Has32(b, k)
  {
    hide Has32, And32, Or32;
    Has32Both(a, b, k);
    BothAre(a, b);
  }

  // ---- The mask ----

  const ODD: bv32 := 0xaaaa_aaaa
  const EVEN: bv32 := 0x5555_5555

  lemma MaskIs(n: int)
    ensures n <= 16 ==> HashBitMask(n) == And32(ODD, LowBits(Doubled(n)))
    ensures n > 16 ==> HashBitMask(n) == Or32(ODD, And32(EVEN, LowBits(Doubled(n - 16))))
  {
    hide LowBits, Doubled;
  }

  lemma DoubledIs(n: nat)
    requires n < 0x8000_0000_0000_0000
    ensures Doubled(n) == 2 * n
  {
  }

  /** For up to 16 bits the mask takes the odd bits from the lowest up; beyond, all odd bits and the even ones from the
      lowest up. */
  lemma MaskBits(n: nat, k: nat)
    requires n <= 32 && k < 32
    ensures Has32(HashBitMask(n), k) <==> (k % 2 == 1 && (n > 16 || k < 2 * n)) || (k % 2 == 0 && k < 2 * (n - 16))
  {
    hide Has32, LowBits, HashBitMask, And32, Or32, Doubled;
    ConstantsHave(k);
    MaskIs(n);
    if n <= 16 {
      DoubledIs(n);
      LowBitsHave(2 * n, k);
      HasBoth(ODD, LowBits(2 * n), k);
    } else {
      DoubledIs(n - 16);
      var low := LowBits(2 * (n - 16));
      LowBitsHave(2 * (n - 16), k);
      HasBoth(EVEN, low, k);
      HasBoth(ODD, And32(EVEN, low), k);
    }
  }

  /** How many bits of the mask are below bit `k`. */
  lemma {:induction false} MaskBelow(n: nat, k: nat)
    requires n <= 32 && k <= 32
    ensures PopCount.Ones(PopCount.Wide(HashBitMask(n)), k) ==
            (if k / 2 <= n then k / 2 else n) +
            (if n <= 16 then 0 else if (k + 1) / 2 <= n - 16 then (k + 1) / 2 else n - 16)
    decreases k
  {
    hide HashBitMask, Has64, PopCount.Wide;
    if k > 0 {
      MaskBelow(n, k - 1);
      MaskBits(n, k - 1);
    }
  }

  /** A mask for n bits has n bits. */
  lemma MaskSize(n: nat)
    requires n <= 32
    ensures PopCount.Ones(PopCount.Wide(HashBitMask(n)), 32) == n
  {
    hide HashBitMask, PopCount.Ones;
    MaskBelow(n, 32);
  }

  /** On the other 64-bit integers: above 32 all bits are compared, below zero all odd bits, except that the sixteen
      lowest integers act as if the highest bit of the 64 were not there. */
  lemma MaskOutside(n: int)
    requires -0x8000_0000_0000_0000 <= n < 0x8000_0000_0000_0000
    ensures n > 32 ==> HashBitMask(n) == 0xffff_ffff
    ensures -0x8000_0000_0000_0000 + 16 <= n < 0 ==> HashBitMask(n) == 0xaaaa_aaaa
    ensures n < -0x8000_0000_0000_0000 + 16 ==> HashBitMask(n) == HashBitMask(n + 0x8000_0000_0000_0000)
  {
    hide HashBitMask, LowBits, And32, Or32;
    MaskIs(n);
    MaskIs(n + 0x8000_0000_0000_0000);
    if n >= 0 {
      LowBitsAll(Doubled(n - 16));
    } else {
      LowBitsAll(Doubled(n));
    }
    AllOdd();
  }

  lemma LowBitsAll(m: nat)
    ensures m >= 32 ==> LowBits(m) == 0xffff_ffff
  {
  }

  lemma AllOdd()
    ensures And32(ODD, 0xffff_ffff) == ODD
    ensures Or32(ODD, And32(EVEN, 0xffff_ffff)) == 0xffff_ffff
  {
  }

  // ---- What is compared ----

  lemma MaskedHas(a: bv32, mask: bv32, k: nat)
    requires k < 32
    ensures Has32(Masked(a, mask), k) <==> Has32(a, k) && Has32(mask, k)
  {
    hide Has32;
    Has32Both(a, mask, k);
  }

  /** Two hashes count as equal under a mask exactly if they agree in every bit of the mask. */
  lemma SameMasked(a: bv32, b: bv32, mask: bv32)
    ensures Masked(a, mask) == Masked(b, mask) <==>
            forall k: nat :: k < 32 && Has32(mask, k) ==> Has32(a, k) == Has32(b, k)
  {
    hide Has32, Masked;
    forall k: nat | k < 32
      ensures Has32(Masked(a, mask), k) <==> Has32(a, k) && Has32(mask, k)
      ensures Has32(Masked(b, mask), k) <==> Has32(b, k) && Has32(mask, k)
    {
      MaskedHas(a, mask, k);
      MaskedHas(b, mask, k);
    }
    if forall k: nat :: k < 32 && Has32(mask, k) ==> Has32(a, k) == Has32(b, k) {
      SameBits(Masked(a, mask), Masked(b, mask));
    }
  }

  /** Two hashes agree in the bits that a comparison of `n` bits looks at. */
  ghost predicate Agree(a: bv32, b: bv32, n: nat) {
    forall k: nat :: k < 32 && ((k % 2 == 1 && (n > 16 || k < 2 * n)) || (k % 2 == 0 && k < 2 * (n - 16))) ==>
      Has32(a, k) == Has32(b, k)
  }

  lemma AgreeMasked(a: bv32, b: bv32, n: nat)
    requires n <= 32
    ensures Agree(a, b, n) <==> Masked(a, HashBitMask(n)) == Masked(b, HashBitMask(n))
  {
    hide Has32, HashBitMask, Masked;
    SameMasked(a, b, HashBitMask(n));
    forall k: nat | k < 32
      ensures Has32(HashBitMask(n), k) <==> (k % 2 == 1 && (n > 16 || k < 2 * n)) || (k % 2 == 0 && k < 2 * (n - 16))
    {
      MaskBits(n, k);
    }
  }

  /** The histogram at each distance within the limit is the number of pairs of positions that far apart whose hashes agree
      in the compared bits; a limit of zero is none. */
  lemma CountsMeaning(master: seq<bv32>, query: seq<bv32>, n: nat, maxOffset: int, d: int)
    requires n <= 32 && -|query| <= d <= |master|
    ensures var pairs := set i | 0 <= i < |master| && 0 <= i - d < |query| && Agree(master[i], query[i - d], n) :: (i, i - d);
            Counts(master, query, HashBitMask(n), maxOffset)[d + |query|] ==
            if maxOffset == 0 || -maxOffset <= d <= maxOffset then |pairs| as real else 0.0
  {
    hide HashBitMask, Masked, Agree, Counts, PairsAt;
    var pairs := set i | 0 <= i < |master| && 0 <= i - d < |query| && Agree(master[i], query[i - d], n) :: (i, i - d);
    CountsAt(master, query, HashBitMask(n), maxOffset, d);
    forall p: (int, int)
      ensures p in pairs <==> p in PairsAt(master, query, HashBitMask(n), d)
    {
      PairsAtHas(master, query, HashBitMask(n), d, p);
      if 0 <= p.0 < |master| && 0 <= p.1 < |query| {
        AgreeMasked(master[p.0], query[p.1], n);
        assert p == (p.0, p.1);
      }
    }
    assert pairs == PairsAt(master, query, HashBitMask(n), d);
  }
}
