/** The similarity score of two aligned fingerprints: countUniqueHashes and CompareAlignedFingerprints of
    pkg/chromaprint/match.go, over the reals. */
module Similarity {
  import opened Bits
  import opened PopCount
  import IntSetIO
  import Sorting
  import opened Histogram
  import opened Alignment
  import Codec

  // ---- Counting different hashes ----

  function ToSet(hashes: seq<bv32>): set<bv32> { set h | h in hashes }

  function MaskedHashes(hashes: seq<bv32>, mask: bv32): (masked: seq<bv32>)
    ensures |masked| == |hashes|
  {
    seq(|hashes|, i requires 0 <= i < |hashes| => Histogram.Masked(hashes[i], mask))
  }

  /** How many different hashes are left when only the bits of the mask are kept. */
  function UniqueHashes(hashes: seq<bv32>, numBits: int): nat {
    |ToSet(MaskedHashes(hashes, HashBitMask(numBits)))|
  }

  ghost predicate Ascending(hashes: seq<bv32>) {
    forall k, l :: 0 <= k < l < |hashes| ==> Below(hashes[k], hashes[l])
  }

  lemma {:induction false} AscendingSize(hashes: seq<bv32>)
    requires Ascending(hashes)
    ensures |ToSet(hashes)| == |hashes|
    decreases |hashes|
  {
    hide Value;
    if hashes == [] {
      assert ToSet(hashes) == {};
    } else {
      var n := |hashes| - 1;
      AscendingSize(hashes[..n]);
      assert hashes == hashes[..n] + [hashes[n]];
      assert ToSet(hashes) == ToSet(hashes[..n]) + {hashes[n]};
      assert hashes[n] !in hashes[..n];
    }
  }

  /** `kept` holds each of the first `i` sorted hashes once. */
  ghost predicate Kept(kept: seq<bv32>, sorted: seq<bv32>, i: nat)
    requires i <= |sorted|
  {
    && |kept| <= i
    && Ascending(kept)
    && ToSet(kept) == ToSet(sorted[..i])
    && (i > 0 ==> |kept| > 0 && kept[|kept| - 1] == sorted[i - 1])
  }

  lemma KeptStep(kept: seq<bv32>, sorted: seq<bv32>, i: nat)
    requires i < |sorted| && Kept(kept, sorted, i) && Sorting.Ordered(sorted, Below)
    ensures if kept == [] || sorted[i] != kept[|kept| - 1] then Kept(kept + [sorted[i]], sorted, i + 1) else Kept(kept, sorted, i + 1)
  {
    hide Value;
    var h := sorted[i];
    assert sorted[..i + 1] == sorted[..i] + [h];
    assert ToSet(sorted[..i + 1]) == ToSet(sorted[..i]) + {h};
    if i > 0 {
      var last := kept[|kept| - 1];
      assert !Below(h, last);
      if h == last {
        assert h in sorted[..i];
      } else {
        BelowOrEqual(last, h);
        forall k | 0 <= k < |kept|
          ensures Below(kept[k], h)
        {
        }
        assert ToSet(kept + [h]) == ToSet(kept) + {h};
      }
    } else {
      assert sorted[..0] == [];
      assert h !in kept ==> kept == [] by {
        assert forall x :: x in kept ==> x in ToSet(kept);
      }
      assert ToSet(kept + [h]) == ToSet(kept) + {h};
    }
  }

  lemma BelowOrEqual(a: bv32, b: bv32)
    requires !Below(b, a) && a != b
    ensures Below(a, b)
  {
    if Value(a) == Value(b) {
      ValueInjective(a, b);
    }
  }

  lemma BelowOrder()
    ensures Sorting.StrictWeakOrder(Below)
  {
    hide Value;
  }

  /** Sorts the masked hashes and moves each different one to the front, in place. */
  method CountUniqueHashes(hashes: seq<bv32>, numBits: int) returns (uniqueCount: nat)
    ensures uniqueCount == UniqueHashes(hashes, numBits)
  {
    hide Below, Histogram.Masked, HashBitMask, Ascending, Kept, ToSet;
    var mask := HashBitMask(numBits);
    var maskedHashes := new bv32[|hashes|];
    for i := 0 to |hashes|
      invariant forall k :: 0 <= k < i ==> maskedHashes[k] == Histogram.Masked(hashes[k], mask)
    {
      maskedHashes[i] := Histogram.Masked(hashes[i], mask);
    }
    assert maskedHashes[..] == MaskedHashes(hashes, mask);
    BelowOrder();
    Sorting.InPlace(maskedHashes, Below);
    ghost var sorted := maskedHashes[..];
    uniqueCount := 0;
    NothingKept(sorted);
    for i := 0 to |hashes|
      invariant uniqueCount <= i
      invariant Kept(maskedHashes[..uniqueCount], sorted, i)
      invariant forall k :: i <= k < |hashes| ==> maskedHashes[k] == sorted[k]
    {
      var hash := maskedHashes[i];
      KeptStep(maskedHashes[..uniqueCount], sorted, i);
      if uniqueCount == 0 || hash != maskedHashes[uniqueCount - 1] {
        ghost var kept := maskedHashes[..uniqueCount];
        maskedHashes[uniqueCount] := hash;
        uniqueCount := uniqueCount + 1;
        assert maskedHashes[..uniqueCount] == kept + [hash];
      }
    }
    KeptSize(maskedHashes[..uniqueCount], sorted, MaskedHashes(hashes, mask));
  }

  /** In the end there are as many kept hashes as different ones. */
  lemma KeptSize(kept: seq<bv32>, sorted: seq<bv32>, hashes: seq<bv32>)
    requires Kept(kept, sorted, |sorted|) && multiset(sorted) == multiset(hashes)
    ensures |kept| == |ToSet(hashes)|
  {
    hide Ascending;
    AscendingSize(kept);
    assert sorted[..|sorted|] == sorted;
    SameSet(sorted, hashes);
  }

  lemma NothingKept(sorted: seq<bv32>)
    ensures Kept([], sorted, 0)
  {
  }

  lemma SameSet(a: seq<bv32>, b: seq<bv32>)
    requires multiset(a) == multiset(b)
    ensures ToSet(a) == ToSet(b)
  {
    forall x
      ensures x in a <==> x in b
    {
      assert x in a <==> x in multiset(a);
      assert x in b <==> x in multiset(b);
    }
  }

  lemma {:induction false} SetAtMost(s: seq<bv32>)
    ensures |ToSet(s)| <= |s|
    ensures s != [] ==> |ToSet(s)| > 0
    decreases |s|
  {
    if s == [] {
      assert ToSet(s) == {};
    } else {
      var n := |s| - 1;
      SetAtMost(s[..n]);
      assert s == s[..n] + [s[n]];
      assert ToSet(s) == ToSet(s[..n]) + {s[n]};
    }
  }

  // ---- Differing bits ----

  /** How many bits two hashes differ in. */
  function Differing(a: bv32, b: bv32): nat {
    Ones(Wide(Codec.Xor(a, b)), 32)
  }

  lemma {:induction false} OnesBound(x: bv64, n: nat)
    requires n <= 64
    ensures Ones(x, n) <= n
    ensures Ones(x, n) == 0 <==> forall k :: 0 <= k < n ==> !Has64(x, k)
    decreases n
  {
    hide Has64;
    if n > 0 {
      OnesBound(x, n - 1);
    }
  }

  lemma WideZero(x: bv32)
    ensures Wide(x) == 0 <==> x == 0
  {
  }

  lemma XorZero(a: bv32, b: bv32)
    ensures Codec.Xor(a, b) == 0 <==> a == b
  {
  }

  /** Two hashes differ in at most 32 bits, and in none only if they are equal. */
  lemma DifferingBound(a: bv32, b: bv32)
    ensures Differing(a, b) <= 32
    ensures Differing(a, b) == 0 <==> a == b
  {
    hide Ones, Has64, Codec.Xor, Wide;
    var x := Wide(Codec.Xor(a, b));
    OnesBound(x, 32);
    OnesBound(x, 64);
    OnesWide(Codec.Xor(a, b), 64);
    forall k | 0 <= k < 64
      ensures !Has64(0, k)
    {
      Has64Zero(k);
    }
    WideZero(Codec.Xor(a, b));
    XorZero(a, b);
    if forall k :: 0 <= k < 64 ==> !Has64(x, k) {
      IntSetIO.SameWord(x, 0);
    }
  }

  function Smaller(a: int, b: int): int { if a <= b then a else b }

  /** The differing bits at the first `n` positions. */
  function BitError(a: seq<bv32>, b: seq<bv32>, n: nat): nat
    requires n <= |a| && n <= |b|
  {
    if n == 0 then 0 else BitError(a, b, n - 1) + Differing(a[n - 1], b[n - 1])
  }

  lemma {:induction false} BitErrorBound(a: seq<bv32>, b: seq<bv32>, n: nat)
    requires n <= |a| && n <= |b|
    ensures BitError(a, b, n) <= 32 * n
    ensures BitError(a, b, n) == 0 <==> a[..n] == b[..n]
    decreases n
  {
    hide Differing;
    if n > 0 {
      BitErrorBound(a, b, n - 1);
      DifferingBound(a[n - 1], b[n - 1]);
      assert a[..n] == a[..n - 1] + [a[n - 1]] && b[..n] == b[..n - 1] + [b[n - 1]];
    }
  }

  lemma {:induction false} BitErrorSymmetric(a: seq<bv32>, b: seq<bv32>, n: nat)
    requires n <= |a| && n <= |b|
    ensures BitError(a, b, n) == BitError(b, a, n)
    decreases n
  {
    hide Wide, Ones;
    if n > 0 {
      BitErrorSymmetric(a, b, n - 1);
      XorSymmetric(a[n - 1], b[n - 1]);
    }
  }

  lemma XorSymmetric(a: bv32, b: bv32)
    ensures Codec.Xor(a, b) == Codec.Xor(b, a)
  {
  }

  // ---- The score ----

  /** The part of a fingerprint that a positive shift leaves over. */
  function Shifted(hashes: seq<bv32>, shift: int): seq<bv32>
    requires shift <= |hashes|
  {
    if shift > 0 then hashes[shift..] else hashes
  }

  /** The overlap's share of the shorter fingerprint times the share of equal bits in the overlap. */
  function Likeness(a: seq<bv32>, b: seq<bv32>, minSize: nat): real
    requires |a| > 0 && |b| > 0 && minSize > 0
  {
    var size := Smaller(|a|, |b|);
    (size as real / minSize as real) * (1.0 - BitError(a, b, size) as real / (size * 32) as real)
  }

  function AtMostOne(x: real): real { if x < 1.0 then x else 1.0 }

  function Diversity(hashes: seq<bv32>): real
    requires |hashes| > 0
  {
    AtMostOne((UniqueHashes(hashes, 16) + 10) as real / |hashes| as real + 0.5)
  }

  function Lower(x: real, y: real): real { if x < y then x else y }

  /** The share of equal bits is between none and all; the likeness is one exactly when the overlap is all of the shorter
      fingerprint and the two agree on it. */
  lemma LikenessRange(a: seq<bv32>, b: seq<bv32>, minSize: nat)
    requires |a| > 0 && |b| > 0 && minSize >= Smaller(|a|, |b|)
    ensures 0.0 <= Likeness(a, b, minSize) <= 1.0
    ensures Likeness(a, b, minSize) == 1.0 <==>
            Smaller(|a|, |b|) == minSize && a[..Smaller(|a|, |b|)] == b[..Smaller(|a|, |b|)]
  {
    hide BitError;
    var size := Smaller(|a|, |b|);
    BitErrorBound(a, b, size);
    var share, bits := size as real / minSize as real, BitError(a, b, size) as real / (size * 32) as real;
    Ratio(size, minSize);
    Ratio(BitError(a, b, size), size * 32);
    ProductOfShares(share, 1.0 - bits);
  }

  lemma Ratio(p: nat, q: nat)
    requires p <= q && q > 0
    ensures 0.0 <= p as real / q as real <= 1.0
    ensures p as real / q as real == 1.0 <==> p == q
    ensures p as real / q as real == 0.0 <==> p == 0
  {
    var r := p as real / q as real;
    assert r * q as real == p as real;
    assert r > 1.0 ==> r * q as real > q as real;
  }

  lemma ProductOfShares(x: real, y: real)
    requires 0.0 <= x <= 1.0 && 0.0 <= y <= 1.0
    ensures 0.0 <= x * y <= 1.0
    ensures x * y == 1.0 <==> x == 1.0 && y == 1.0
  {
    assert x * y <= x * 1.0;
    assert x * y <= 1.0 * y;
  }

  lemma DiversityRange(hashes: seq<bv32>)
    requires |hashes| > 0
    ensures 0.5 < Diversity(hashes) <= 1.0
  {
    hide UniqueHashes;
    var p, q := (UniqueHashes(hashes, 16) + 10) as real, |hashes| as real;
    assert p / q > 0.0;
  }

  /** The score of two overlapping parts: zero when the hit is too weak for the number of different hashes, else the
      likeness, lowered when the hashes repeat. */
  function OverlapScore(x: seq<bv32>, y: seq<bv32>, minSize: nat, count: real, pow: (real, real) -> real): real
    requires x != [] && y != [] && minSize > 0
  {
    if count < Larger(UniqueHashes(x, 16), UniqueHashes(y, 16)) as real * 0.02 then 0.0
    else
      var diversity := Lower(Diversity(x), Diversity(y));
      if diversity < 1.0 then pow(Likeness(x, y, minSize), 8.0 - 7.0 * diversity) else Likeness(x, y, minSize)
  }

  function Larger(a: int, b: int): int { if a >= b then a else b }

  function Score(a: seq<bv32>, b: seq<bv32>, hit: OffsetHit, pow: (real, real) -> real): real
    requires -|b| <= hit.offset <= |a|
  {
    var x, y := Shifted(a, hit.offset), Shifted(b, -hit.offset);
    if a == [] || b == [] || x == [] || y == [] then 0.0
    else OverlapScore(x, y, Smaller(|a|, |b|), hit.count, pow)
  }

  method CompareAlignedFingerprints(a: seq<bv32>, b: seq<bv32>, hit: OffsetHit, pow: (real, real) -> real) returns (score: real)
    requires -|b| <= hit.offset <= |a|
    ensures score == Score(a, b, hit, pow)
  {
    hide OverlapScore;
    var minSize := |a|;
    if |b| < minSize {
      minSize := |b|;
    }
    if minSize == 0 {
      return 0.0;
    }
    var ahashes, bhashes := a, b;
    if hit.offset < 0 {
      bhashes := bhashes[-hit.offset..];
    } else {
      ahashes := ahashes[hit.offset..];
    }
    assert ahashes == Shifted(a, hit.offset) && bhashes == Shifted(b, -hit.offset);
    if |ahashes| == 0 || |bhashes| == 0 {
      return 0.0;
    }
    score := CompareOverlap(ahashes, bhashes, minSize, hit.count, pow);
  }

  method CompareOverlap(ahashes: seq<bv32>, bhashes: seq<bv32>, minSize: nat, count: real, pow: (real, real) -> real) returns (score: real)
    requires ahashes != [] && bhashes != [] && minSize >= Smaller(|ahashes|, |bhashes|)
    ensures score == OverlapScore(ahashes, bhashes, minSize, count, pow)
  {
    hide UniqueHashes, Likeness, Diversity;
    var auniq := CountUniqueHashes(ahashes, 16);
    var buniq := CountUniqueHashes(bhashes, 16);
    if count < Larger(auniq, buniq) as real * 0.02 {
      return 0.0;
    }
    var adiversity, bdiversity := DiversityOf(ahashes, auniq), DiversityOf(bhashes, buniq);
    var diversity := Lower(adiversity, bdiversity);
    score := CompareBits(ahashes, bhashes, minSize);
    if diversity < 1.0 {
      score := pow(score, 8.0 - 7.0 * diversity);
    }
  }

  function DiversityOf(hashes: seq<bv32>, uniqueCount: nat): real
    requires hashes != [] && uniqueCount == UniqueHashes(hashes, 16)
    ensures DiversityOf(hashes, uniqueCount) == Diversity(hashes)
  {
    AtMostOne((uniqueCount + 10) as real / |hashes| as real + 0.5)
  }

  method CompareBits(ahashes: seq<bv32>, bhashes: seq<bv32>, minSize: nat) returns (score: real)
    requires ahashes != [] && bhashes != [] && minSize >= Smaller(|ahashes|, |bhashes|)
    ensures score == Likeness(ahashes, bhashes, minSize)
  {
    hide Differing;
    var size := Smaller(|ahashes|, |bhashes|);
    var bitError := 0;
    for i := 0 to size
      invariant bitError == BitError(ahashes, bhashes, i)
    {
      bitError := bitError + CountDiffering(ahashes[i], bhashes[i]);
    }
    score := (size as real / minSize as real) * (1.0 - bitError as real / (size * 32) as real);
    LikenessRange(ahashes, bhashes, minSize);
    if score < 0.0 {
      score := 0.0;
    }
  }

  function CountDiffering(a: bv32, b: bv32): int
    ensures CountDiffering(a, b) == Differing(a, b)
  {
    PopCount32Correct(Codec.Xor(a, b));
    PopCount32(Codec.Xor(a, b))
  }

  /** Powers of at least one keep shares shares. */
  ghost predicate KeepsShares(pow: (real, real) -> real) {
    forall x, e :: 0.0 <= x <= 1.0 && e >= 1.0 ==> 0.0 <= pow(x, e) <= 1.0
  }

  /** The score is a share. */
  lemma ScoreRange(a: seq<bv32>, b: seq<bv32>, hit: OffsetHit, pow: (real, real) -> real)
    requires -|b| <= hit.offset <= |a| && KeepsShares(pow)
    ensures 0.0 <= Score(a, b, hit, pow) <= 1.0
  {
    hide Diversity, Likeness, UniqueHashes;
    var x, y := Shifted(a, hit.offset), Shifted(b, -hit.offset);
    if x != [] && y != [] {
      DiversityRange(x);
      DiversityRange(y);
      LikenessRange(x, y, Smaller(|a|, |b|));
    }
  }

  lemma LikenessSymmetric(a: seq<bv32>, b: seq<bv32>, minSize: nat)
    requires |a| > 0 && |b| > 0 && minSize > 0
    ensures Likeness(a, b, minSize) == Likeness(b, a, minSize)
  {
    hide BitError;
    BitErrorSymmetric(a, b, Smaller(|a|, |b|));
  }

  /** The score does not depend on which fingerprint is the first. */
  lemma ScoreSymmetric(a: seq<bv32>, b: seq<bv32>, hit: OffsetHit, pow: (real, real) -> real)
    requires -|b| <= hit.offset <= |a|
    ensures Score(a, b, hit, pow) == Score(b, a, OffsetHit(-hit.offset, hit.count), pow)
  {
    hide Diversity, Likeness, UniqueHashes;
    var x, y := Shifted(a, hit.offset), Shifted(b, -hit.offset);
    if x != [] && y != [] {
      LikenessSymmetric(x, y, Smaller(|a|, |b|));
    }
  }
}
