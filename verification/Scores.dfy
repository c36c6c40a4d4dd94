/** What the similarity score means, bit by bit and in numbers: pkg/chromaprint/match.go. */
module Scores {
  import opened Bits
  import opened PopCount
  import opened Histogram
  import opened Alignment
  import opened Bits32
  import opened HashBits
  import opened Similarity
  import Codec

  // ---- Different hashes ----

  /** Hashes that agree in the compared bits with none before them. */
  ghost predicate New(hashes: seq<bv32>, n: nat, i: int) {
    0 <= i < |hashes| && forall j :: 0 <= j < i ==> !Agree(hashes[j], hashes[i], n)
  }

  ghost function NewUpto(hashes: seq<bv32>, n: nat, m: nat): set<int> {
    set i | 0 <= i < m && New(hashes, n, i)
  }

  lemma NewIs(hashes: seq<bv32>, n: nat, i: nat)
    requires n <= 32 && i < |hashes|
    ensures New(hashes, n, i) <==> MaskedHashes(hashes, HashBitMask(n))[i] !in ToSet(MaskedHashes(hashes, HashBitMask(n))[..i])
  {
    hide HashBitMask, Histogram.Masked, Agree;
    var masked := MaskedHashes(hashes, HashBitMask(n));
    forall j | 0 <= j < i
      ensures Agree(hashes[j], hashes[i], n) <==> masked[j] == masked[i]
    {
      AgreeMasked(hashes[j], hashes[i], n);
    }
    if masked[i] in masked[..i] {
      var j :| 0 <= j < i && masked[..i][j] == masked[i];
      assert Agree(hashes[j], hashes[i], n);
    }
    if j :| 0 <= j < i && Agree(hashes[j], hashes[i], n) {
      assert masked[..i][j] == masked[i];
    }
  }

  lemma OneMore(s: set<bv32>, x: bv32, t: set<int>, i: int)
    requires |s| == |t| && i !in t
    ensures |s + {x}| == |t + if x !in s then {i} else {}|
  {
    assert x in s ==> s + {x} == s;
    assert t + {} == t;
  }

  lemma NewUptoNext(hashes: seq<bv32>, n: nat, m: nat)
    ensures NewUpto(hashes, n, 0) == {}
    ensures NewUpto(hashes, n, m + 1) == NewUpto(hashes, n, m) + if New(hashes, n, m) then {m} else {}
    ensures m !in NewUpto(hashes, n, m)
  {
    hide New;
  }

  lemma ToSetNext(hashes: seq<bv32>, m: nat)
    requires m < |hashes|
    ensures ToSet(hashes[..m + 1]) == ToSet(hashes[..m]) + {hashes[m]}
  {
    assert hashes[..m + 1] == hashes[..m] + [hashes[m]];
  }

  lemma {:induction false} NewBelow(hashes: seq<bv32>, n: nat, m: nat)
    requires n <= 32 && m <= |hashes|
    ensures |ToSet(MaskedHashes(hashes, HashBitMask(n))[..m])| == |NewUpto(hashes, n, m)|
    decreases m
  {
    hide HashBitMask, MaskedHashes, New, NewUpto, ToSet;
    var masked := MaskedHashes(hashes, HashBitMask(n));
    if m == 0 {
      NewUptoNext(hashes, n, 0);
      assert masked[..0] == [];
      EmptySet();
    } else {
      NewBelow(hashes, n, m - 1);
      NewIs(hashes, n, m - 1);
      NewUptoNext(hashes, n, m - 1);
      ToSetNext(masked, m - 1);
      OneMore(ToSet(masked[..m - 1]), masked[m - 1], NewUpto(hashes, n, m - 1), m - 1);
    }
  }

  lemma EmptySet()
    ensures ToSet([]) == {}
  {
  }

  /** The number of different hashes is the number of positions whose hash agrees with none before. */
  lemma UniqueMeaning(hashes: seq<bv32>, n: nat)
    requires n <= 32
    ensures UniqueHashes(hashes, n) == |set i | 0 <= i < |hashes| && New(hashes, n, i)|
  {
    hide HashBitMask, Histogram.Masked, New;
    NewBelow(hashes, n, |hashes|);
    var masked := MaskedHashes(hashes, HashBitMask(n));
    assert masked[..|hashes|] == masked;
  }

  // ---- Differing bits, one by one ----

  /** The positions below `n` at which two hashes differ. */
  ghost function DifferingBelow(a: bv32, b: bv32, n: nat): set<int>
    requires n <= 32
  {
    set k | 0 <= k < n && Has32(a, k) != Has32(b, k)
  }

  lemma {:induction false} OnesDiffering(a: bv32, b: bv32, n: nat)
    requires n <= 32
    ensures Ones(Wide(Codec.Xor(a, b)), n) == |DifferingBelow(a, b, n)|
    decreases n
  {
    hide Has64, Wide, Codec.Xor;
    if n == 0 {
      assert DifferingBelow(a, b, 0) == {};
    } else {
      OnesDiffering(a, b, n - 1);
      XorHas(a, b, n - 1);
      assert DifferingBelow(a, b, n) == DifferingBelow(a, b, n - 1) + if Has32(a, n - 1) != Has32(b, n - 1) then {n - 1} else {};
    }
  }

  /** What is counted are the bits in which two hashes differ. */
  lemma DifferingMeaning(a: bv32, b: bv32)
    ensures Differing(a, b) == |set k | 0 <= k < 32 && Has32(a, k) != Has32(b, k)|
  {
    hide Has32, Wide, Codec.Xor;
    OnesDiffering(a, b, 32);
  }

  lemma {:induction false} AllOnes(a: bv32, b: bv32, n: nat)
    requires n <= 32
    ensures Ones(Wide(Codec.Xor(a, b)), n) <= n
    ensures Ones(Wide(Codec.Xor(a, b)), n) == n <==> forall k: nat :: k < n ==> Has32(a, k) != Has32(b, k)
    decreases n
  {
    hide Has64, Wide, Codec.Xor;
    if n > 0 {
      AllOnes(a, b, n - 1);
      XorHas(a, b, n - 1);
    }
  }

  /** All bits differ exactly if 32 do. */
  lemma AllDiffer(a: bv32, b: bv32)
    ensures Differing(a, b) == 32 <==> forall k: nat :: k < 32 ==> Has32(a, k) != Has32(b, k)
  {
    hide Has32, Wide, Codec.Xor, Ones;
    AllOnes(a, b, 32);
  }

  /** Whether two fingerprints differ in bit `k` of their hashes at `i`. */
  predicate DifferAt(a: seq<bv32>, b: seq<bv32>, i: int, k: int) {
    0 <= i < |a| && i < |b| && 0 <= k < 32 && Has32(a[i], k) != Has32(b[i], k)
  }

  ghost function ErrorsBelow(a: seq<bv32>, b: seq<bv32>, n: nat): set<(int, int)> {
    set i, k | 0 <= i < n && 0 <= k < 32 && DifferAt(a, b, i, k) :: (i, k)
  }

  ghost function ErrorsAt(a: seq<bv32>, b: seq<bv32>, i: int, m: nat): set<(int, int)> {
    set k | 0 <= k < m && DifferAt(a, b, i, k) :: (i, k)
  }

  lemma ErrorsAtStep(a: seq<bv32>, b: seq<bv32>, i: int, m: nat)
    ensures ErrorsAt(a, b, i, 0) == {}
    ensures ErrorsAt(a, b, i, m + 1) == ErrorsAt(a, b, i, m) + if DifferAt(a, b, i, m) then {(i, m)} else {}
    ensures (i, m) !in ErrorsAt(a, b, i, m)
  {
    hide DifferAt;
  }

  lemma {:induction false} ErrorsInOne(a: seq<bv32>, b: seq<bv32>, i: nat, m: nat)
    requires i < |a| && i < |b| && m <= 32
    ensures |ErrorsAt(a, b, i, m)| == Ones(Wide(Codec.Xor(a[i], b[i])), m)
    decreases m
  {
    hide ErrorsAt, Has64, Wide, Codec.Xor;
    if m == 0 {
      ErrorsAtStep(a, b, i, 0);
    } else {
      ErrorsInOne(a, b, i, m - 1);
      ErrorsAtStep(a, b, i, m - 1);
      XorHas(a[i], b[i], m - 1);
    }
  }

  lemma {:induction false} BitErrorCounted(a: seq<bv32>, b: seq<bv32>, n: nat)
    requires n <= |a| && n <= |b|
    ensures BitError(a, b, n) == |ErrorsBelow(a, b, n)|
    decreases n
  {
    hide DifferAt, Wide, Ones, Codec.Xor;
    if n == 0 {
      assert ErrorsBelow(a, b, 0) == {};
    } else {
      BitErrorCounted(a, b, n - 1);
      ErrorsInOne(a, b, n - 1, 32);
      assert ErrorsBelow(a, b, n) == ErrorsBelow(a, b, n - 1) + ErrorsAt(a, b, n - 1, 32);
      assert ErrorsBelow(a, b, n - 1) !! ErrorsAt(a, b, n - 1, 32);
    }
  }

  /** What is added up are the bits in which the hashes at the same positions differ. */
  lemma BitErrorMeaning(a: seq<bv32>, b: seq<bv32>, n: nat)
    requires n <= |a| && n <= |b|
    ensures BitError(a, b, n) == |set i, k | 0 <= i < n && 0 <= k < 32 && DifferAt(a, b, i, k) :: (i, k)|
  {
    hide BitError, DifferAt;
    BitErrorCounted(a, b, n);
  }

  lemma {:induction false} AllErrors(a: seq<bv32>, b: seq<bv32>, n: nat)
    requires n <= |a| && n <= |b|
    ensures BitError(a, b, n) <= 32 * n
    ensures BitError(a, b, n) == 32 * n <==> forall i :: 0 <= i < n ==> Differing(a[i], b[i]) == 32
    decreases n
  {
    hide Differing;
    if n > 0 {
      AllErrors(a, b, n - 1);
      DifferingBound(a[n - 1], b[n - 1]);
    }
  }

  // ---- The score ----

  /** Powers of positive numbers are positive, and powers of zero are zero. */
  ghost predicate KeepsPositive(pow: (real, real) -> real) {
    forall x, e :: x >= 0.0 && e > 0.0 ==> (pow(x, e) == 0.0 <==> x == 0.0)
  }

  /** The likeness in numbers: the bits that agree, of those in the shorter fingerprint. */
  lemma LikenessMeaning(a: seq<bv32>, b: seq<bv32>, minSize: nat)
    requires |a| > 0 && |b| > 0 && minSize > 0
    ensures var size := Smaller(|a|, |b|);
            Likeness(a, b, minSize) * (32 * minSize) as real == (32 * size - BitError(a, b, size)) as real
  {
    hide BitError;
    var size := Smaller(|a|, |b|);
    LikenessScaled(size as real, minSize as real, BitError(a, b, size) as real);
    assert (size * 32) as real == 32.0 * size as real && (32 * minSize) as real == 32.0 * minSize as real;
  }

  lemma LikenessScaled(size: real, minSize: real, errors: real)
    requires size > 0.0 && minSize > 0.0
    ensures (size / minSize) * (1.0 - errors / (32.0 * size)) * (32.0 * minSize) == 32.0 * size - errors
  {
    var share, e := size / minSize, errors / (32.0 * size);
    assert share * minSize == size && e * (32.0 * size) == errors;
    Expand(share, e, minSize);
    assert share * minSize * e * 32.0 == size * e * 32.0;
  }

  lemma Expand(share: real, e: real, m: real)
    ensures share * (1.0 - e) * (32.0 * m) == 32.0 * (share * m) - share * m * e * 32.0
  {
  }

  lemma LikenessZero(a: seq<bv32>, b: seq<bv32>, minSize: nat)
    requires |a| > 0 && |b| > 0 && minSize > 0
    ensures Likeness(a, b, minSize) >= 0.0
    ensures Likeness(a, b, minSize) == 0.0 <==> forall i, k: nat :: 0 <= i < Smaller(|a|, |b|) && k < 32 ==> Has32(a[i], k) != Has32(b[i], k)
  {
    hide BitError, Has32, Likeness, Differing;
    var size := Smaller(|a|, |b|);
    LikenessMeaning(a, b, minSize);
    AllErrors(a, b, size);
    Sign(Likeness(a, b, minSize), (32 * minSize) as real);
    forall i | 0 <= i < size
      ensures Differing(a[i], b[i]) == 32 <==> forall k: nat :: k < 32 ==> Has32(a[i], k) != Has32(b[i], k)
    {
      AllDiffer(a[i], b[i]);
    }
  }

  lemma Sign(x: real, y: real)
    requires y > 0.0
    ensures x * y == 0.0 <==> x == 0.0
    ensures x * y >= 0.0 <==> x >= 0.0
  {
  }

  lemma ScoreIs(a: seq<bv32>, b: seq<bv32>, hit: OffsetHit, pow: (real, real) -> real)
    requires -|b| <= hit.offset <= |a|
    ensures var x, y := if hit.offset > 0 then a[hit.offset..] else a, if hit.offset < 0 then b[-hit.offset..] else b;
            x != [] && y != [] ==>
              Smaller(|a|, |b|) > 0 && Score(a, b, hit, pow) == OverlapScore(x, y, Smaller(|a|, |b|), hit.count, pow)
  {
    hide OverlapScore;
  }

  lemma OverlapZero(x: seq<bv32>, y: seq<bv32>, minSize: nat, count: real, pow: (real, real) -> real)
    requires x != [] && y != [] && minSize > 0 && KeepsPositive(pow)
    ensures OverlapScore(x, y, minSize, count, pow) == 0.0 <==>
            50.0 * count < UniqueHashes(x, 16) as real || 50.0 * count < UniqueHashes(y, 16) as real || Likeness(x, y, minSize) == 0.0
  {
    hide UniqueHashes, Likeness, Diversity, Has32;
    DiversityRange(x);
    DiversityRange(y);
    LikenessZero(x, y, minSize);
  }

  /** When two fingerprints score nothing: without an overlap, if the hit has less than a fiftieth of the different hashes
      of either part, or if all bits of the overlap differ. */
  lemma ScoreZero(a: seq<bv32>, b: seq<bv32>, hit: OffsetHit, pow: (real, real) -> real)
    requires -|b| <= hit.offset <= |a| && KeepsPositive(pow)
    ensures var x, y := if hit.offset > 0 then a[hit.offset..] else a, if hit.offset < 0 then b[-hit.offset..] else b;
            Score(a, b, hit, pow) == 0.0 <==>
            || x == [] || y == []
            || 50.0 * hit.count < UniqueHashes(x, 16) as real || 50.0 * hit.count < UniqueHashes(y, 16) as real
            || forall i, k: nat :: 0 <= i < Smaller(|x|, |y|) && k < 32 ==> Has32(x[i], k) != Has32(y[i], k)
  {
    hide UniqueHashes, Likeness, OverlapScore, Has32, KeepsPositive;
    var x, y := if hit.offset > 0 then a[hit.offset..] else a, if hit.offset < 0 then b[-hit.offset..] else b;
    if x != [] && y != [] {
      ScoreIs(a, b, hit, pow);
      OverlapZero(x, y, Smaller(|a|, |b|), hit.count, pow);
      LikenessZero(x, y, Smaller(|a|, |b|));
    }
  }

  lemma Half(p: nat, n: nat)
    requires n > 0
    ensures p as real / n as real < 0.5 <==> 2 * p < n
  {
    var r := p as real / n as real;
    assert r * n as real == p as real;
    assert r < 0.5 ==> r * n as real < 0.5 * n as real;
    assert r >= 0.5 ==> r * n as real >= 0.5 * n as real;
  }

  /** The share of the different hashes, and ten more. */
  ghost predicate Share(hashes: seq<bv32>, p: real) {
    |hashes| > 0 && p == (UniqueHashes(hashes, 16) + 10) as real / |hashes| as real
  }

  lemma DiversityIs(hashes: seq<bv32>, p: real)
    requires Share(hashes, p)
    ensures Diversity(hashes) == if p < 0.5 then p + 0.5 else 1.0
    ensures p < 0.5 <==> 2 * UniqueHashes(hashes, 16) + 20 < |hashes|
  {
    hide UniqueHashes;
    Half(UniqueHashes(hashes, 16) + 10, |hashes|);
  }

  lemma OverlapIs(x: seq<bv32>, y: seq<bv32>, minSize: nat, count: real, pow: (real, real) -> real, p: real, q: real)
    requires Share(x, p) && Share(y, q) && minSize > 0
    requires 50.0 * count >= UniqueHashes(x, 16) as real && 50.0 * count >= UniqueHashes(y, 16) as real
    ensures OverlapScore(x, y, minSize, count, pow) ==
            if p < 0.5 || q < 0.5 then pow(Likeness(x, y, minSize), 8.0 - 7.0 * ((if p < q then p else q) + 0.5))
            else Likeness(x, y, minSize)
  {
    hide UniqueHashes, Likeness, Diversity, Share;
    DiversityIs(x, p);
    DiversityIs(y, q);
  }

  /** What they score otherwise: the share of agreeing bits, if both parts have at least half as many different hashes as
      hashes, less ten; else a power of it that grows with the repetition in the more repetitive part. */
  lemma ScoreMeaning(a: seq<bv32>, b: seq<bv32>, hit: OffsetHit, pow: (real, real) -> real) returns (likeness: real)
    requires -|b| <= hit.offset <= |a|
    ensures var x, y := if hit.offset > 0 then a[hit.offset..] else a, if hit.offset < 0 then b[-hit.offset..] else b;
            var u, v, size := UniqueHashes(x, 16), UniqueHashes(y, 16), Smaller(|x|, |y|);
            x != [] && y != [] && 50.0 * hit.count >= u as real && 50.0 * hit.count >= v as real ==>
              && likeness * (32 * Smaller(|a|, |b|)) as real == (32 * size - BitError(x, y, size)) as real
              && (2 * u + 20 >= |x| && 2 * v + 20 >= |y| ==> Score(a, b, hit, pow) == likeness)
              && (2 * u + 20 < |x| || 2 * v + 20 < |y| ==>
                    var p, q := (u + 10) as real / |x| as real, (v + 10) as real / |y| as real;
                    Score(a, b, hit, pow) == pow(likeness, 8.0 - 7.0 * ((if p < q then p else q) + 0.5)))
  {
    hide UniqueHashes, BitError, Score, Likeness, OverlapScore, Diversity;
    var x, y := if hit.offset > 0 then a[hit.offset..] else a, if hit.offset < 0 then b[-hit.offset..] else b;
    likeness := 0.0;
    if x != [] && y != [] && 50.0 * hit.count >= UniqueHashes(x, 16) as real && 50.0 * hit.count >= UniqueHashes(y, 16) as real {
      ScoreIs(a, b, hit, pow);
      var minSize := Smaller(|a|, |b|);
      likeness := Likeness(x, y, minSize);
      LikenessMeaning(x, y, minSize);
      var p, q := (UniqueHashes(x, 16) + 10) as real / |x| as real, (UniqueHashes(y, 16) + 10) as real / |y| as real;
      DiversityIs(x, p);
      DiversityIs(y, q);
      OverlapIs(x, y, minSize, hit.count, pow, p, q);
    }
  }
}
