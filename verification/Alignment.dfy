/** Candidate offsets between two fingerprints: AlignFingerprints of pkg/chromaprint/match.go. */
module Alignment {
  import Sorting
  import opened Filter
  import opened Histogram

  datatype OffsetHit = OffsetHit(offset: int, count: real)

  const MAX_OFFSET_THRESHOLD_DIV := 10.0

  ghost predicate Positive(exp: real -> real) {
    forall x :: exp(x) > 0.0
  }

  // ---- Specification ----

  /** The offset histogram after smoothing with a width of three. */
  function SmoothedCounts(master: seq<bv32>, query: seq<bv32>, numBits: int, maxOffset: int, exp: real -> real): (counts: seq<real>)
    requires Positive(exp)
    ensures |counts| == |master| + |query| + 1
  {
    Smoothed(Counts(master, query, HashBitMask(numBits), maxOffset), KernelOf(exp, 1.3, 3))
  }

  /** The largest sample, or zero if all are negative. */
  function Top(xs: seq<real>): (top: real)
    ensures top >= 0.0 && (top == 0.0 || top in xs)
    ensures forall i :: 0 <= i < |xs| ==> xs[i] <= top
  {
    if xs == [] then 0.0
    else
      var rest := Top(xs[..|xs| - 1]);
      if xs[|xs| - 1] > rest then xs[|xs| - 1] else rest
  }

  function Threshold(xs: seq<real>): real {
    if Top(xs) / MAX_OFFSET_THRESHOLD_DIV < 2.0 then 2.0 else Top(xs) / MAX_OFFSET_THRESHOLD_DIV
  }

  /** A sample, or zero outside the signal. */
  function At(xs: seq<real>, x: int): real {
    if 0 <= x < |xs| then xs[x] else 0.0
  }

  predicate Peak(xs: seq<real>, threshold: real, x: int) {
    At(xs, x) >= threshold && At(xs, x - 1) <= At(xs, x) && At(xs, x + 1) < At(xs, x)
  }

  /** The peaks among the first `n` samples, as offsets from sample `zero`. */
  function Peaks(xs: seq<real>, threshold: real, zero: int, n: nat): (hits: seq<OffsetHit>)
    requires n <= |xs|
  {
    if n == 0 then []
    else
      Peaks(xs, threshold, zero, n - 1) +
      if Peak(xs, threshold, n - 1) then [OffsetHit(n - 1 - zero, xs[n - 1])] else []
  }

  predicate MoreFrequent(a: OffsetHit, b: OffsetHit) { a.count > b.count }

  /** `hits` starts some arrangement of `peaks` by falling count. */
  ghost predicate Best(hits: seq<OffsetHit>, peaks: seq<OffsetHit>, limit: nat) {
    && |hits| == (if |peaks| <= limit then |peaks| else limit)
    && exists rest: seq<OffsetHit> ::
         multiset(hits + rest) == multiset(peaks) && Sorting.Ordered(hits + rest, MoreFrequent)
  }

  function AllPeaks(master: seq<bv32>, query: seq<bv32>, numBits: int, maxOffset: int, exp: real -> real): seq<OffsetHit>
    requires Positive(exp)
  {
    var counts := SmoothedCounts(master, query, numBits, maxOffset, exp);
    Peaks(counts, Threshold(counts), |query|, |counts|)
  }

  // ---- The program ----

  method FindTop(counts: seq<real>) returns (top: real)
    ensures top == Top(counts)
  {
    top := 0.0;
    for i := 0 to |counts|
      invariant top == Top(counts[..i])
    {
      assert counts[..i + 1][..i] == counts[..i];
      if counts[i] > top {
        top := counts[i];
      }
    }
    assert counts[..|counts|] == counts;
  }

  method PickPeaks(counts: seq<real>, countThreshold: real, zero: int) returns (hits: seq<OffsetHit>)
    requires countThreshold >= 2.0
    ensures hits == Peaks(counts, countThreshold, zero, |counts|)
  {
    hits := [];
    for offset := 0 to |counts|
      invariant hits == Peaks(counts, countThreshold, zero, offset)
    {
      var count := counts[offset];
      if count >= countThreshold {
        var previousCount, nextCount := 0.0, 0.0;
        if offset > 0 {
          previousCount := counts[offset - 1];
        }
        if offset < |counts| - 1 {
          nextCount := counts[offset + 1];
        }
        if previousCount <= count && nextCount < count {
          hits := hits + [OffsetHit(offset - zero, count)];
        }
      }
    }
  }

  method AlignFingerprints(master: seq<bv32>, query: seq<bv32>, numBits: int, limit: nat, maxOffset: int, exp: real -> real)
    returns (hits: seq<OffsetHit>)
    requires Positive(exp)
    ensures Best(hits, AllPeaks(master, query, numBits, maxOffset, exp), limit)
  {
    hide Counts, Peaks, KernelOf, Convolved, HashBitMask, Top;
    var mask := HashBitMask(numBits);
    var counts := CountOffsets(master, query, mask, maxOffset);
    var smoothedCounts := new real[counts.Length];
    GaussianFilter(counts[..], smoothedCounts, 3, 1.3, REFLECT, exp);
    assert smoothedCounts[..] == SmoothedCounts(master, query, numBits, maxOffset, exp);
    var topCount := FindTop(smoothedCounts[..]);
    var countThreshold := topCount / MAX_OFFSET_THRESHOLD_DIV;
    if countThreshold < 2.0 {
      countThreshold := 2.0;
    }
    var offsetHits := PickPeaks(smoothedCounts[..], countThreshold, |query|);
    MoreFrequentOrder();
    var sorted := Sorting.Slice(offsetHits, MoreFrequent);
    hits := sorted;
    if |hits| > limit {
      hits := hits[..limit];
    }
    assert hits + sorted[|hits|..] == sorted;
  }

  lemma MoreFrequentOrder()
    ensures Sorting.StrictWeakOrder(MoreFrequent)
  {
  }

  // ---- What a hit means ----

  lemma {:induction false} PeaksHave(xs: seq<real>, threshold: real, zero: int, n: nat, hit: OffsetHit)
    requires n <= |xs|
    ensures hit in Peaks(xs, threshold, zero, n) <==>
            0 <= hit.offset + zero < n && Peak(xs, threshold, hit.offset + zero) && hit.count == xs[hit.offset + zero]
    decreases n
  {
    if n > 0 {
      PeaksHave(xs, threshold, zero, n - 1, hit);
    }
  }

  lemma PeakIs(xs: seq<real>, x: int)
    requires 0 <= x < |xs|
    ensures Peak(xs, Threshold(xs), x) <==>
            && xs[x] >= 2.0 && (forall i :: 0 <= i < |xs| ==> xs[i] <= 10.0 * xs[x])
            && (x > 0 ==> xs[x - 1] <= xs[x]) && (x + 1 < |xs| ==> xs[x + 1] < xs[x])
  {
    hide Top;
    if xs[x] >= 2.0 && Top(xs) > 0.0 {
      assert Top(xs) in xs;
    }
  }

  /** Before any are cut off, the hits are the positions of the smoothed histogram that hold at least two and a tenth of
      every other, no less than the position before and more than the one after; outside, the histogram counts as zero. */
  lemma AllPeaksAre(master: seq<bv32>, query: seq<bv32>, numBits: int, maxOffset: int, exp: real -> real, hit: OffsetHit)
    requires Positive(exp)
    ensures var counts, x := SmoothedCounts(master, query, numBits, maxOffset, exp), hit.offset + |query|;
            hit in AllPeaks(master, query, numBits, maxOffset, exp) <==>
            && 0 <= x < |counts| && hit.count == counts[x]
            && counts[x] >= 2.0 && (forall i :: 0 <= i < |counts| ==> counts[i] <= 10.0 * counts[x])
            && (x > 0 ==> counts[x - 1] <= counts[x]) && (x + 1 < |counts| ==> counts[x + 1] < counts[x])
  {
    hide SmoothedCounts, Peaks, Peak, Threshold;
    var counts, x := SmoothedCounts(master, query, numBits, maxOffset, exp), hit.offset + |query|;
    PeaksHave(counts, Threshold(counts), |query|, |counts|, hit);
    if 0 <= x < |counts| {
      PeakIs(counts, x);
    }
  }

  lemma ScaledBack(w: real, sum: real)
    requires sum > 0.0
    ensures w * (1.0 / sum) * sum == w
  {
    assert 1.0 / sum * sum == 1.0;
  }

  lemma KernelOfThree(exp: real -> real)
    requires Positive(exp)
    ensures var ks, side, total := KernelOf(exp, 1.3, 3), exp(-1.0 / 3.38), exp(-1.0 / 3.38) + exp(0.0) + exp(-1.0 / 3.38);
            |ks| == 3 && ks[0] * total == side && ks[1] * total == exp(0.0) && ks[2] * total == side
  {
    var ws := Weights(exp, 1.3, 3);
    assert Exponent(1.3, 1) == -1.0 / 3.38 && Exponent(1.3, -1) == -1.0 / 3.38 && Exponent(1.3, 0) == 0.0;
    assert ws == [exp(-1.0 / 3.38), exp(0.0), exp(-1.0 / 3.38)];
    SumOfThree(ws);
    ScaledBack(ws[0], Sum(ws));
    ScaledBack(ws[1], Sum(ws));
  }

  /** The smoothed histogram at one position: the average of three neighbours, with the weights of the normal distribution
      of deviation 1.3 at distances zero and one; the ends count twice. */
  lemma SmoothedCountsAre(master: seq<bv32>, query: seq<bv32>, numBits: int, maxOffset: int, exp: real -> real, x: nat)
    requires Positive(exp) && x <= |master| + |query|
    ensures var raw, side := Counts(master, query, HashBitMask(numBits), maxOffset), exp(-1.0 / 3.38);
            SmoothedCounts(master, query, numBits, maxOffset, exp)[x] * (side + exp(0.0) + side) ==
            raw[if x > 0 then x - 1 else 0] * side + raw[x] * exp(0.0) + raw[if x + 1 < |raw| then x + 1 else x] * side
  {
    hide Counts, HashBitMask, KernelOf, Smoothed, Extended;
    var raw, ks := Counts(master, query, HashBitMask(numBits), maxOffset), KernelOf(exp, 1.3, 3);
    SmoothedAt(raw, ks, x);
    KernelOfThree(exp);
    ReflectEnds(raw);
    ExtendedInside(REFLECT, raw, x);
    if x > 0 {
      ExtendedInside(REFLECT, raw, x - 1);
    }
    if x + 1 < |raw| {
      ExtendedInside(REFLECT, raw, x + 1);
    }
    var side := exp(-1.0 / 3.38);
    Average(Extended(REFLECT, raw, x - 1), ks[0], Extended(REFLECT, raw, x), ks[1], Extended(REFLECT, raw, x + 1), ks[2],
            side + exp(0.0) + side);
  }

  lemma Average(a: real, k: real, b: real, l: real, c: real, m: real, total: real)
    ensures (a * k + b * l + c * m) * total == a * (k * total) + b * (l * total) + c * (m * total)
  {
  }

  /** The peaks come in ascending order of offset, so no offset occurs twice. */
  lemma {:induction false} PeaksAscend(xs: seq<real>, threshold: real, zero: int, n: nat)
    requires n <= |xs|
    ensures forall k, l :: 0 <= k < l < |Peaks(xs, threshold, zero, n)| ==>
              Peaks(xs, threshold, zero, n)[k].offset < Peaks(xs, threshold, zero, n)[l].offset
    decreases n
  {
    if n > 0 {
      PeaksAscend(xs, threshold, zero, n - 1);
      var before := Peaks(xs, threshold, zero, n - 1);
      forall k | 0 <= k < |before|
        ensures before[k].offset < n - 1 - zero
      {
        PeaksHave(xs, threshold, zero, n - 1, before[k]);
      }
    }
  }

  /** The hits fall in count, are peaks, and beat every peak that was cut off; some were only if the limit is reached. */
  lemma BestHits(hits: seq<OffsetHit>, peaks: seq<OffsetHit>, limit: nat)
    requires Best(hits, peaks, limit)
    ensures |hits| <= limit && (|hits| < limit ==> multiset(hits) == multiset(peaks))
    ensures forall k, l :: 0 <= k < l < |hits| ==> hits[k].count >= hits[l].count
    ensures forall k :: 0 <= k < |hits| ==> hits[k] in peaks
    ensures forall p :: p in peaks && p !in hits ==> forall k :: 0 <= k < |hits| ==> hits[k].count >= p.count
  {
    var rest :| multiset(hits + rest) == multiset(peaks) && Sorting.Ordered(hits + rest, MoreFrequent);
    var all := hits + rest;
    assert |multiset(all)| == |all| && |multiset(peaks)| == |peaks|;
    if |hits| < limit {
      assert rest == [];
      assert all == hits;
    }
    forall k | 0 <= k < |hits|
      ensures hits[k] in peaks
    {
      assert all[k] in multiset(all);
    }
    forall k, l | 0 <= k < l < |hits|
      ensures hits[k].count >= hits[l].count
    {
      assert !MoreFrequent(all[l], all[k]);
    }
    forall p, k | p in peaks && p !in hits && 0 <= k < |hits|
      ensures hits[k].count >= p.count
    {
      assert p in multiset(peaks);
      assert p in all;
      var l :| 0 <= l < |all| && all[l] == p;
      assert !MoreFrequent(all[l], all[k]);
    }
  }

  /** Every hit lies between the two lengths and is a local maximum of at least two. */
  lemma HitsInRange(master: seq<bv32>, query: seq<bv32>, numBits: int, limit: nat, maxOffset: int, exp: real -> real, hits: seq<OffsetHit>)
    requires Positive(exp)
    requires Best(hits, AllPeaks(master, query, numBits, maxOffset, exp), limit)
    ensures forall k :: 0 <= k < |hits| ==> -|query| <= hits[k].offset <= |master| && hits[k].count >= 2.0
  {
    hide Peaks, SmoothedCounts, Top;
    var counts := SmoothedCounts(master, query, numBits, maxOffset, exp);
    BestHits(hits, AllPeaks(master, query, numBits, maxOffset, exp), limit);
    forall k | 0 <= k < |hits|
      ensures -|query| <= hits[k].offset <= |master| && hits[k].count >= 2.0
    {
      PeaksHave(counts, Threshold(counts), |query|, |counts|, hits[k]);
    }
  }

  lemma ScaledBelow(x: real, t: real, a: real)
    requires a >= 0.0
    ensures x < t ==> x * a <= t * a
    ensures x < t && a > 0.0 ==> x * a < t * a
  {
  }

  /** An average is reached by one of the samples. */
  lemma ThreeReached(x: real, y: real, z: real, a: real, b: real, t: real)
    requires a >= 0.0 && b >= 0.0 && a + b + a == 1.0
    requires x * a + y * b + z * a >= t
    ensures x >= t || y >= t || z >= t
  {
    ScaledBelow(x, t, a);
    ScaledBelow(y, t, b);
    ScaledBelow(z, t, a);
    Whole(t, a, b);
    SumBelow(x * a, y * b, z * a, t * a, t * b, t);
  }

  lemma SumBelow(p: real, q: real, r: real, u: real, v: real, t: real)
    requires p + q + r >= t && u + v + u == t
    ensures p <= u && q <= v && r <= u ==> p == u && q == v
  {
  }

  lemma Whole(t: real, a: real, b: real)
    requires a + b + a == 1.0
    ensures t * a + t * b + t * a == t
  {
    assert b == 1.0 - a - a;
    assert t * b == t * 1.0 - t * a - t * a;
  }

  /** A hit is backed by hash pairs: next to it the histogram itself reaches two, so at least two pairs of equal
      masked hashes are that far apart, and within the offset limit. */
  lemma HitBacked(master: seq<bv32>, query: seq<bv32>, numBits: int, limit: nat, maxOffset: int, exp: real -> real,
                  hits: seq<OffsetHit>, k: nat) returns (d: int)
    requires Positive(exp) && k < |hits|
    requires Best(hits, AllPeaks(master, query, numBits, maxOffset, exp), limit)
    ensures hits[k].offset - 1 <= d <= hits[k].offset + 1 && Allowed(d, maxOffset)
    ensures |PairsAt(master, query, HashBitMask(numBits), d)| >= 2
  {
    hide Peaks, Top, Smoothed, KernelOf, PairsAt, HashBitMask, Counts, Extended;
    var raw, kernel := Counts(master, query, HashBitMask(numBits), maxOffset), KernelOf(exp, 1.3, 3);
    var counts := SmoothedCounts(master, query, numBits, maxOffset, exp);
    BestHits(hits, AllPeaks(master, query, numBits, maxOffset, exp), limit);
    PeaksHave(counts, Threshold(counts), |query|, |counts|, hits[k]);
    var x := hits[k].offset + |query|;
    SmoothedAt(raw, kernel, x);
    KernelOfOdd(exp, 1.3, 3);
    KernelThree(kernel);
    var y := ThreeIs(raw, kernel, x, 2.0);
    d := y - |query|;
    CountsAt(master, query, HashBitMask(numBits), maxOffset, d);
  }

  lemma ThreeIs(raw: seq<real>, kernel: seq<real>, x: nat, t: real) returns (y: int)
    requires x < |raw| && |kernel| == 3 && Kernel(kernel) && Three(raw, kernel, x) >= t
    ensures 0 <= y < |raw| && x - 1 <= y <= x + 1 && raw[y] >= t
  {
    hide Extended, Index;
    KernelThree(kernel);
    ThreeReached(Extended(REFLECT, raw, x - 1), Extended(REFLECT, raw, x), Extended(REFLECT, raw, x + 1), kernel[0], kernel[1], t);
    ReflectEnds(raw);
    ExtendedInside(REFLECT, raw, x);
    if Extended(REFLECT, raw, x) >= t {
      y := x;
    } else if Extended(REFLECT, raw, x - 1) >= t {
      y := if x > 0 then x - 1 else 0;
      if x > 0 {
        ExtendedInside(REFLECT, raw, x - 1);
      }
    } else {
      y := if x < |raw| - 1 then x + 1 else x;
      if x < |raw| - 1 {
        ExtendedInside(REFLECT, raw, x + 1);
      }
    }
  }

  // ---- The smoothed histogram as a whole ----

  /** Smoothing keeps the number of matching pairs at an allowed distance. */
  lemma SmoothedPairs(master: seq<bv32>, query: seq<bv32>, numBits: int, maxOffset: int, exp: real -> real)
    requires Positive(exp)
    ensures Sum(SmoothedCounts(master, query, numBits, maxOffset, exp)) == |AllowedPairs(master, query, HashBitMask(numBits), maxOffset)| as real
  {
    hide Smoothed, KernelOf, Counts, HashBitMask, AllowedPairs, Sum;
    KernelOfOdd(exp, 1.3, 3);
    SmoothedTotal(Counts(master, query, HashBitMask(numBits), maxOffset), KernelOf(exp, 1.3, 3));
    CountsTotal(master, query, HashBitMask(numBits), maxOffset);
  }

  /** Swapping the fingerprints reverses the smoothed histogram. */
  lemma SmoothedSwapped(master: seq<bv32>, query: seq<bv32>, numBits: int, maxOffset: int, exp: real -> real)
    requires Positive(exp)
    ensures SmoothedCounts(query, master, numBits, maxOffset, exp) == Reversed(SmoothedCounts(master, query, numBits, maxOffset, exp))
  {
    hide Smoothed, KernelOf, Counts, HashBitMask, Reversed;
    KernelOfOdd(exp, 1.3, 3);
    CountsSwapped(master, query, HashBitMask(numBits), maxOffset);
    SmoothedReversed(Counts(master, query, HashBitMask(numBits), maxOffset), KernelOf(exp, 1.3, 3));
  }
}
