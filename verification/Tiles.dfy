/** Where matchAlignedFingerprints of pkg/chromaprint/match.go cuts the overlap, in numbers. */
module Tiles {
  import opened Filter
  import opened Alignment
  import opened Bits32
  import opened HashBits
  import opened Similarity
  import opened Matching
  import Scores

  // ---- The difference and its smoothed form ----

  /** The difference at each position of the overlap is the number of bits in which the two hashes there differ. */
  lemma DiffMeaning(master: seq<bv32>, query: seq<bv32>, offset: int, i: nat)
    requires -|query| <= offset <= |master|
    ensures var diff, m, q := OverlapDiff(master, query, offset), if offset > 0 then i + offset else i, if offset < 0 then i - offset else i;
            && (i < |diff| <==> m < |master| && q < |query|)
            && (i < |diff| ==> diff[i] == |set k | 0 <= k < 32 && Has32(master[m], k) != Has32(query[q], k)| as real)
  {
    hide Differing, Has32;
    if i < |OverlapDiff(master, query, offset)| {
      Scores.DifferingMeaning(Shifted(master, offset)[i], Shifted(query, -offset)[i]);
    }
  }

  /** The exponential at minus the square of a distance over twice the variance of 1.3 squared. */
  function Bell(exp: real -> real, d: int): real {
    exp(-(d * d) as real / 3.38)
  }

  /** The bell-weighted sum of the first `m` of the samples at distances from -4 on, read from the reflected signal. */
  function BellSum(exp: real -> real, xs: seq<real>, i: int, m: nat): real
    requires |xs| > 0
  {
    if m == 0 then 0.0 else BellSum(exp, xs, i, m - 1) + Extended(REFLECT, xs, i + m - 5) * Bell(exp, m - 5)
  }

  /** The bell weights of the first `m` distances from -4 on. */
  function BellTotal(exp: real -> real, m: nat): real {
    if m == 0 then 0.0 else BellTotal(exp, m - 1) + Bell(exp, m - 5)
  }

  lemma BellIs(exp: real -> real, d: int)
    ensures exp(Exponent(1.3, d)) == Bell(exp, d)
  {
    assert (d * d) as real == d as real * d as real;
    assert 2.0 * 1.3 * 1.3 == 3.38;
    Minus(d as real * d as real);
  }

  lemma Minus(x: real)
    ensures x * (-1.0 / 3.38) == -x / 3.38
  {
  }

  lemma {:induction false} WeightsTotal(exp: real -> real, m: nat)
    requires m <= 9
    ensures Sum(Weights(exp, 1.3, 9)[..m]) == BellTotal(exp, m)
    decreases m
  {
    hide Exponent, Bell;
    var ws := Weights(exp, 1.3, 9);
    if m > 0 {
      WeightsTotal(exp, m - 1);
      BellIs(exp, m - 5);
      assert ws[..m][..m - 1] == ws[..m - 1];
    }
  }

  lemma {:induction false} SmoothScaled(exp: real -> real, xs: seq<real>, i: int, m: nat)
    requires Positive(exp) && |xs| > 0 && m <= 9
    ensures Weighted(REFLECT, xs, KernelOf(exp, 1.3, 9), i - 4, m) * BellTotal(exp, 9) == BellSum(exp, xs, i, m)
    decreases m
  {
    hide Exponent, Bell, Extended, Sum, BellTotal;
    if m > 0 {
      SmoothScaled(exp, xs, i, m - 1);
      var ws, ks := Weights(exp, 1.3, 9), KernelOf(exp, 1.3, 9);
      WeightsTotal(exp, 9);
      WeightsPositive(exp, 1.3, 9);
      assert ws[..9] == ws;
      ScaledBack(ws[m - 1], Sum(ws));
      BellIs(exp, m - 5);
      ScaledMore(Weighted(REFLECT, xs, ks, i - 4, m - 1), Extended(REFLECT, xs, i + m - 5), ks[m - 1], Sum(ws));
    }
  }

  lemma ScaledMore(sum: real, x: real, k: real, total: real)
    ensures (sum + x * k) * total == sum * total + x * (k * total)
  {
  }

  /** The smoothed difference: at each position the average of nine, weighted by the bell. */
  lemma SmoothMeaning(diff: seq<real>, exp: real -> real, i: nat)
    requires Positive(exp) && i < |diff|
    ensures Smooth(diff, exp)[i] * BellTotal(exp, 9) == BellSum(exp, diff, i, 9)
  {
    hide KernelOf, Weighted, BellTotal, BellSum;
    SmoothScaled(exp, diff, i, 9);
  }

  // ---- Cuts ----

  /** How steep a signal is: the absolute change from the position before to the one after, halved, and at the ends the
      change to the only neighbour. */
  function Steepness(s: seq<real>, i: int): real
    requires |s| > 1 && 0 <= i < |s|
  {
    var change := if i == 0 then s[1] - s[0] else if i == |s| - 1 then s[i] - s[i - 1] else (s[i + 1] - s[i - 1]) / 2.0;
    if change >= 0.0 then change else -change
  }

  /** A point that is as steep as the one before, steeper than the one after, and steep enough for its height. */
  predicate Sharp(s: seq<real>, i: int) {
    && 0 < i < |s| - 1
    && Steepness(s, i) >= Steepness(s, i - 1) && Steepness(s, i) > Steepness(s, i + 1)
    && Steepness(s, i) > 0.5 * (1.0 + s[i] / 4.0)
  }

  lemma SteepnessIs(s: seq<real>, i: int)
    requires |s| > 1 && 0 <= i < |s|
    ensures Abs(Gradients(s)[i]) == Steepness(s, i)
  {
  }

  lemma OverHalf(g: real, h: real)
    requires h > 0.0
    ensures g / h > 0.5 <==> g > 0.5 * h
  {
    var r := g / h;
    assert r * h == g;
    assert r > 0.5 ==> r * h > 0.5 * h;
    assert r <= 0.5 ==> r * h <= 0.5 * h;
  }

  lemma SharpIs(s: seq<real>, i: int)
    requires Nonnegative(s)
    ensures EdgeAt(s, Gradients(s), i) <==> Sharp(s, i)
  {
    hide Gradients, Abs, Steepness;
    if 0 < i < |s| - 1 {
      SteepnessIs(s, i - 1);
      SteepnessIs(s, i);
      SteepnessIs(s, i + 1);
      assert 1.0 + s[i] / 4.0 > 0.0;
      OverHalf(Steepness(s, i), 1.0 + s[i] / 4.0);
    }
  }

  lemma {:induction false} EdgesHave(s: seq<real>, gradient: seq<real>, m: nat, i: int)
    requires Nonnegative(s) && |gradient| == |s|
    ensures i in EdgesBelow(s, gradient, m) <==> i == 0 || (i < m && EdgeAt(s, gradient, i))
    decreases m
  {
    if m > 0 {
      EdgesHave(s, gradient, m - 1, i);
    }
  }

  lemma EdgesSharp(s: seq<real>, k: nat)
    requires Nonnegative(s) && Tiling(Edges(s), |s|) && |s| > 0 && k < |Edges(s)| - 1
    ensures var edges := Edges(s);
            && (edges[k] == 0 || Sharp(s, edges[k])) && (edges[k + 1] == |s| || Sharp(s, edges[k + 1]))
            && forall i :: edges[k] < i < edges[k + 1] ==> !Sharp(s, i)
  {
    hide EdgeAt, Sharp, Gradients, EdgesBelow;
    var below, edges := EdgesBelow(s, Gradients(s), |s|), Edges(s);
    EdgesHave(s, Gradients(s), |s|, edges[k]);
    SharpIs(s, edges[k]);
    assert edges[k] == below[k];
    if k + 1 < |below| {
      EdgesHave(s, Gradients(s), |s|, edges[k + 1]);
      SharpIs(s, edges[k + 1]);
      assert edges[k + 1] == below[k + 1];
    }
    forall i | edges[k] < i < edges[k + 1]
      ensures !Sharp(s, i)
    {
      EdgesHave(s, Gradients(s), |s|, i);
      SharpIs(s, i);
      forall j | 0 <= j < |below|
        ensures below[j] != i
      {
        assert below[j] == edges[j] && (j <= k ==> edges[j] <= edges[k]) && (j > k ==> edges[k + 1] <= edges[j]);
      }
    }
  }

  /** Every position lies in a tile that is cut at sharp points of the smoothed difference and has none inside, and the
      tile is a section exactly if fewer than 13 bits differ on average. */
  lemma TilesMeaning(master: seq<bv32>, query: seq<bv32>, offset: int, exp: real -> real, p: nat) returns (start: int, end: int)
    requires -|query| <= offset <= |master| && Positive(exp)
    requires p < |OverlapDiff(master, query, offset)|
    ensures var diff := OverlapDiff(master, query, offset);
            var s := Smooth(diff, exp);
            && 0 <= start <= p < end <= |diff|
            && (start == 0 || Sharp(s, start)) && (end == |diff| || Sharp(s, end))
            && (forall i :: start < i < end ==> !Sharp(s, i))
            && (Sum(diff[start..end]) < 13.0 * (end - start) as real <==> HasSection(Matches(master, query, offset, exp), start, end))
  {
    hide Edges, Sections, Mean, OverlapDiff, HasSection, Sharp, Smooth;
    var diff := OverlapDiff(master, query, offset);
    var edges := Cuts(diff, exp);
    var k := TileAround(edges, |diff|, p, |edges| - 1);
    SectionsHave(diff, edges, offset, |edges| - 1, k);
    start, end := edges[k], edges[k + 1];
    SmoothNonnegative(diff, exp);
    EdgesSharp(Smooth(diff, exp), k);
    MeanBelow(diff, start, end);
  }

  /** Each section is scored by the number of bits that differ in it, divided by its length. */
  lemma SectionScores(master: seq<bv32>, query: seq<bv32>, offset: int, exp: real -> real, s: MatchingSection)
    requires -|query| <= offset <= |master| && Positive(exp) && s in Matches(master, query, offset, exp)
    ensures var diff := OverlapDiff(master, query, offset);
            && s.offset == offset && 0 <= s.start < s.end <= |diff|
            && s.score * (s.end - s.start) as real == Sum(diff[s.start..s.end])
  {
    hide Matches, OverlapDiff, Sum;
    MatchesAre(master, query, offset, exp);
    var diff := OverlapDiff(master, query, offset);
    assert SectionOf(s, diff, offset);
    Quotient(Sum(diff[s.start..s.end]), (s.end - s.start) as real);
  }

  lemma Quotient(sum: real, n: real)
    requires n > 0.0
    ensures sum / n * n == sum
  {
  }

  lemma MeanBelow(diff: seq<real>, start: int, end: int)
    requires 0 <= start < end <= |diff|
    ensures Mean(diff, start, end) < MAX_MEAN_DIFFERENCE <==> Sum(diff[start..end]) < 13.0 * (end - start) as real
  {
    hide Sum;
    var sum, n := Sum(diff[start..end]), (end - start) as real;
    var r := sum / n;
    assert r * n == sum;
    assert r < 13.0 ==> r * n < 13.0 * n;
    assert r >= 13.0 ==> r * n >= 13.0 * n;
  }
}
