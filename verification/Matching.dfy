/** The sections in which two aligned fingerprints agree: matchAlignedFingerprints of pkg/chromaprint/match.go,
    over the reals. */
module Matching {
  import opened Filter
  import opened Alignment
  import opened Similarity

  datatype MatchingSection = MatchingSection(offset: int, start: int, end: int, score: real)

  // ---- Specification ----

  /** The number of differing bits at each position of the overlap. */
  function Diff(a: seq<bv32>, b: seq<bv32>): (diff: seq<real>)
    ensures |diff| == Smaller(|a|, |b|)
  {
    seq(Smaller(|a|, |b|), i requires 0 <= i < Smaller(|a|, |b|) => Differing(a[i], b[i]) as real)
  }

  function Abs(x: real): real { if x < 0.0 then -x else x }

  /** How sharply the smoothed difference changes at `i`, less where it is large. */
  function Sharpness(smoothed: seq<real>, gradient: seq<real>, i: int): real
    requires Nonnegative(smoothed) && |gradient| == |smoothed| && 0 <= i < |smoothed|
  {
    Abs(gradient[i]) / (1.0 + smoothed[i] / 4.0)
  }

  /** A section edge: a sharp local maximum of the absolute gradient. */
  predicate EdgeAt(smoothed: seq<real>, gradient: seq<real>, i: int)
    requires Nonnegative(smoothed) && |gradient| == |smoothed|
  {
    1 <= i < |smoothed| - 1 &&
    Abs(gradient[i - 1]) <= Abs(gradient[i]) && Abs(gradient[i + 1]) < Abs(gradient[i]) &&
    Sharpness(smoothed, gradient, i) > 0.5
  }

  /** The edges below `m`, after the edge at zero. */
  function EdgesBelow(smoothed: seq<real>, gradient: seq<real>, m: nat): (edges: seq<int>)
    requires Nonnegative(smoothed) && |gradient| == |smoothed|
    ensures |edges| > 0 && edges[0] == 0
    ensures forall k :: 0 < k < |edges| ==> 0 < edges[k] < m && edges[k] < |smoothed|
    ensures forall k, l :: 0 <= k < l < |edges| ==> edges[k] < edges[l]
  {
    if m == 0 then [0]
    else
      EdgesBelow(smoothed, gradient, m - 1) + if EdgeAt(smoothed, gradient, m - 1) then [m - 1] else []
  }

  function Edges(smoothed: seq<real>): seq<int>
    requires Nonnegative(smoothed)
  {
    EdgesBelow(smoothed, Gradients(smoothed), |smoothed|) + [|smoothed|]
  }

  function Smooth(diff: seq<real>, exp: real -> real): (smoothed: seq<real>)
    requires Positive(exp)
    ensures |smoothed| == |diff|
  {
    Convolved(REFLECT, diff, KernelOf(exp, 1.3, 9), |diff|)
  }

  function Mean(xs: seq<real>, start: int, end: int): real
    requires 0 <= start < end <= |xs|
  {
    Sum(xs[start..end]) / (end - start) as real
  }

  /** Ascending cuts of the range from 0 to `n`. */
  predicate Tiling(edges: seq<int>, n: nat) {
    && |edges| >= 2 && edges[0] == 0 && edges[|edges| - 1] == n
    && (forall k :: 0 <= k < |edges| ==> 0 <= edges[k] <= n)
    && (n > 0 ==> forall k, l :: 0 <= k < l < |edges| ==> edges[k] < edges[l])
  }

  const MAX_MEAN_DIFFERENCE := 13.0

  /** A tile matches if its mean is small enough; the mean of an empty tile is not a number, which never is. */
  predicate TileMatches(diff: seq<real>, edges: seq<int>, k: int)
    requires Tiling(edges, |diff|)
  {
    0 <= k < |edges| - 1 && edges[k] < edges[k + 1] && Mean(diff, edges[k], edges[k + 1]) < MAX_MEAN_DIFFERENCE
  }

  /** The matching tiles among the first `m`. */
  function Sections(diff: seq<real>, edges: seq<int>, offset: int, m: nat): seq<MatchingSection>
    requires Tiling(edges, |diff|) && m < |edges|
  {
    if m == 0 then []
    else
      Sections(diff, edges, offset, m - 1) +
      if TileMatches(diff, edges, m - 1)
      then [MatchingSection(offset, edges[m - 1], edges[m], Mean(diff, edges[m - 1], edges[m]))] else []
  }

  /** The difference over the overlap of the two fingerprints. */
  function OverlapDiff(master: seq<bv32>, query: seq<bv32>, offset: int): (diff: seq<real>)
    requires -|query| <= offset <= |master|
    ensures Nonnegative(diff)
  {
    DiffBound(Shifted(master, offset), Shifted(query, -offset));
    Diff(Shifted(master, offset), Shifted(query, -offset))
  }

  /** Where the overlap is cut. */
  function Cuts(diff: seq<real>, exp: real -> real): (edges: seq<int>)
    requires Nonnegative(diff) && Positive(exp)
    ensures Tiling(edges, |diff|) && |edges| >= 2
  {
    SmoothNonnegative(diff, exp);
    EdgesTile(Smooth(diff, exp));
    Edges(Smooth(diff, exp))
  }

  function Matches(master: seq<bv32>, query: seq<bv32>, offset: int, exp: real -> real): seq<MatchingSection>
    requires -|query| <= offset <= |master| && Positive(exp)
  {
    var diff := OverlapDiff(master, query, offset);
    var edges := Cuts(diff, exp);
    Sections(diff, edges, offset, |edges| - 1)
  }

  // ---- Edges ----

  /** Smoothing a nonnegative signal with the Gaussian kernel keeps it nonnegative. */
  lemma SmoothNonnegative(diff: seq<real>, exp: real -> real)
    requires Nonnegative(diff) && Positive(exp)
    ensures Nonnegative(Smooth(diff, exp))
  {
    hide KernelOf, Weighted;
    var kernel := KernelOf(exp, 1.3, 9);
    KernelOfOdd(exp, 1.3, 9);
    forall i | 0 <= i < |diff|
      ensures Smooth(diff, exp)[i] >= 0.0
    {
      WeightedNonnegative(REFLECT, diff, kernel, i - |kernel| / 2, |kernel|);
    }
  }

  /** Smoothing the difference conserves the total number of differing bits. */
  lemma SmoothTotal(diff: seq<real>, exp: real -> real)
    requires Positive(exp)
    ensures Sum(Smooth(diff, exp)) == Sum(diff)
  {
    hide KernelOf, Sum, Convolved;
    if |diff| > 0 {
      KernelOfOdd(exp, 1.3, 9);
      SmoothedTotal(diff, KernelOf(exp, 1.3, 9));
    } else {
      assert Smooth(diff, exp) == diff;
    }
  }

  /** The edges cut the overlap into tiles. */
  lemma EdgesTile(smoothed: seq<real>)
    requires Nonnegative(smoothed)
    ensures Tiling(Edges(smoothed), |smoothed|)
  {
  }

  method FindEdges(smoothed: seq<real>, gradient: seq<real>) returns (edges: seq<int>)
    requires Nonnegative(smoothed) && gradient == Gradients(smoothed)
    ensures edges == Edges(smoothed)
  {
    hide Gradients, Sharpness;
    var n := |smoothed|;
    edges := [0];
    var i := 1;
    FirstEdge(smoothed, gradient);
    while i < n - 1
      invariant 1 <= i && (n > 2 ==> i <= n - 1) && (n <= 2 ==> i == 1)
      invariant edges == EdgesBelow(smoothed, gradient, i)
    {
      var x0, x1, x2 := Abs(gradient[i - 1]), Abs(gradient[i]), Abs(gradient[i + 1]);
      if x0 <= x1 && x2 < x1 {
        var g := SharpnessOf(x1, smoothed, gradient, i);
        if g > 0.5 {
          edges := edges + [i];
        }
      }
      i := i + 1;
    }
    LastEdge(smoothed, gradient, i);
    edges := edges + [n];
  }

  function SharpnessOf(x1: real, smoothed: seq<real>, gradient: seq<real>, i: int): real
    requires Nonnegative(smoothed) && |gradient| == |smoothed| && 0 <= i < |smoothed| && x1 == Abs(gradient[i])
    ensures SharpnessOf(x1, smoothed, gradient, i) == Sharpness(smoothed, gradient, i)
  {
    x1 / (1.0 + smoothed[i] / 4.0)
  }

  lemma FirstEdge(smoothed: seq<real>, gradient: seq<real>)
    requires Nonnegative(smoothed) && |gradient| == |smoothed|
    ensures EdgesBelow(smoothed, gradient, 1) == [0]
  {
    assert EdgesBelow(smoothed, gradient, 0) == [0];
  }

  /** Neither the last position nor one past it is an edge between tiles. */
  lemma LastEdge(smoothed: seq<real>, gradient: seq<real>, i: nat)
    requires Nonnegative(smoothed) && |gradient| == |smoothed|
    requires 1 <= i && |smoothed| - 1 <= i && (|smoothed| > 2 ==> i == |smoothed| - 1) && (|smoothed| <= 2 ==> i == 1)
    ensures EdgesBelow(smoothed, gradient, i) == EdgesBelow(smoothed, gradient, |smoothed|)
  {
    if |smoothed| == 0 {
      FirstEdge(smoothed, gradient);
    }
  }

  // ---- The program ----

  method FillDiff(masterHashes: seq<bv32>, queryHashes: seq<bv32>) returns (diff: array<real>)
    ensures fresh(diff) && diff[..] == Diff(masterHashes, queryHashes)
  {
    hide Differing;
    var n := |masterHashes|;
    if n > |queryHashes| {
      n := |queryHashes|;
    }
    diff := new real[n];
    for i := 0 to n
      invariant forall k :: 0 <= k < i ==> diff[k] == Differing(masterHashes[k], queryHashes[k]) as real
    {
      diff[i] := CountDiffering(masterHashes[i], queryHashes[i]) as real;
    }
  }

  method SumRange(diff: seq<real>, start: int, end: int) returns (sum: real)
    requires 0 <= start <= end <= |diff|
    ensures sum == Sum(diff[start..end])
  {
    sum := 0.0;
    for j := start to end
      invariant sum == Sum(diff[start..j])
    {
      assert diff[start..j + 1][..j - start] == diff[start..j];
      sum := sum + diff[j];
    }
  }

  method CollectSections(diff: seq<real>, edges: seq<int>, offset: int) returns (matches: seq<MatchingSection>)
    requires Tiling(edges, |diff|)
    ensures matches == Sections(diff, edges, offset, |edges| - 1)
  {
    hide Sum;
    matches := [];
    for i := 0 to |edges| - 1
      invariant matches == Sections(diff, edges, offset, i)
    {
      if edges[i] < edges[i + 1] {
        var score := SumRange(diff, edges[i], edges[i + 1]);
        score := score / (edges[i + 1] - edges[i]) as real;
        if score < MAX_MEAN_DIFFERENCE {
          matches := matches + [MatchingSection(offset, edges[i], edges[i + 1], score)];
        }
      }
    }
  }

  method MatchAlignedFingerprints(master: seq<bv32>, query: seq<bv32>, offset: int, exp: real -> real)
    returns (matches: seq<MatchingSection>)
    requires -|query| <= offset <= |master| && Positive(exp)
    ensures matches == Matches(master, query, offset, exp)
  {
    hide KernelOf, Convolved, Gradients, Edges, Sections, Diff, Tiling;
    var masterHashes, queryHashes := master, query;
    if offset >= 0 {
      masterHashes := masterHashes[offset..];
    } else {
      queryHashes := queryHashes[-offset..];
    }
    assert masterHashes == Shifted(master, offset) && queryHashes == Shifted(query, -offset);
    var diff := FillDiff(masterHashes, queryHashes);
    assert diff[..] == OverlapDiff(master, query, offset);
    var smoothedDiff := new real[diff.Length];
    GaussianFilter(diff[..], smoothedDiff, 9, 1.3, REFLECT, exp);
    assert smoothedDiff[..] == Smooth(diff[..], exp);
    SmoothNonnegative(diff[..], exp);
    var smoothedDiffGradient := new real[diff.Length];
    Gradient(smoothedDiff[..], smoothedDiffGradient);
    var edges := FindEdges(smoothedDiff[..], smoothedDiffGradient[..]);
    assert edges == Cuts(diff[..], exp);
    matches := CollectSections(diff[..], edges, offset);
  }

  lemma DiffBound(a: seq<bv32>, b: seq<bv32>)
    ensures Nonnegative(Diff(a, b))
    ensures forall i :: 0 <= i < |Diff(a, b)| ==> Diff(a, b)[i] <= 32.0
    ensures forall i :: 0 <= i < |Diff(a, b)| ==> (Diff(a, b)[i] == 0.0 <==> a[i] == b[i])
  {
    hide Differing;
    forall i | 0 <= i < |Diff(a, b)|
      ensures 0.0 <= Diff(a, b)[i] <= 32.0 && (Diff(a, b)[i] == 0.0 <==> a[i] == b[i])
    {
      DifferingBound(a[i], b[i]);
    }
  }

  // ---- What the sections are ----

  predicate SectionOf(s: MatchingSection, diff: seq<real>, offset: int) {
    && s.offset == offset
    && 0 <= s.start < s.end <= |diff|
    && s.score == Mean(diff, s.start, s.end) < MAX_MEAN_DIFFERENCE
  }

  ghost predicate SectionsIn(ss: seq<MatchingSection>, diff: seq<real>, offset: int, end: int) {
    && (forall k :: 0 <= k < |ss| ==> SectionOf(ss[k], diff, offset) && ss[k].end <= end)
    && (forall k, l :: 0 <= k < l < |ss| ==> ss[k].end <= ss[l].start)
  }

  lemma {:induction false} SectionsAscend(diff: seq<real>, edges: seq<int>, offset: int, m: nat)
    requires Tiling(edges, |diff|) && m < |edges|
    ensures SectionsIn(Sections(diff, edges, offset, m), diff, offset, edges[m])
    decreases m
  {
    hide Mean;
    if m > 0 {
      SectionsAscend(diff, edges, offset, m - 1);
      assert edges[m - 1] <= edges[m];
      var before := Sections(diff, edges, offset, m - 1);
      assert SectionsIn(before, diff, offset, edges[m]);
      if TileMatches(diff, edges, m - 1) {
        var s := MatchingSection(offset, edges[m - 1], edges[m], Mean(diff, edges[m - 1], edges[m]));
        assert SectionOf(s, diff, offset);
        assert Sections(diff, edges, offset, m) == before + [s];
      }
    }
  }

  ghost predicate HasSection(ss: seq<MatchingSection>, start: int, end: int) {
    exists s :: s in ss && s.start == start && s.end == end
  }

  lemma {:induction false} SectionsHave(diff: seq<real>, edges: seq<int>, offset: int, m: nat, k: nat)
    requires Tiling(edges, |diff|) && k < m < |edges|
    ensures TileMatches(diff, edges, k) <==> HasSection(Sections(diff, edges, offset, m), edges[k], edges[k + 1])
    decreases m
  {
    hide Mean;
    var before := Sections(diff, edges, offset, m - 1);
    if k < m - 1 {
      SectionsHave(diff, edges, offset, m - 1, k);
      assert TileMatches(diff, edges, m - 1) ==> edges[k] < edges[m - 1];
      forall s | s in before
        ensures s in Sections(diff, edges, offset, m)
      {
      }
    } else {
      SectionsAscend(diff, edges, offset, m - 1);
      forall s | s in before
        ensures s.start < s.end <= edges[m - 1]
      {
      }
      if TileMatches(diff, edges, k) {
        var s := MatchingSection(offset, edges[k], edges[k + 1], Mean(diff, edges[k], edges[k + 1]));
        assert s in Sections(diff, edges, offset, m);
      }
    }
  }

  /** Sections are non-empty, inside the overlap, in ascending order and disjoint; each is scored by its mean number of
      differing bits, which is below 13; without an overlap there are none. */
  lemma MatchesAre(master: seq<bv32>, query: seq<bv32>, offset: int, exp: real -> real)
    requires -|query| <= offset <= |master| && Positive(exp)
    ensures var diff := OverlapDiff(master, query, offset);
            && SectionsIn(Matches(master, query, offset, exp), diff, offset, |diff|)
            && (diff == [] ==> Matches(master, query, offset, exp) == [])
  {
    hide Cuts, Sections, Mean, OverlapDiff;
    var diff := OverlapDiff(master, query, offset);
    var edges := Cuts(diff, exp);
    SectionsAscend(diff, edges, offset, |edges| - 1);
    NoRoom(Sections(diff, edges, offset, |edges| - 1), diff, offset);
  }

  lemma NoRoom(ss: seq<MatchingSection>, diff: seq<real>, offset: int)
    requires SectionsIn(ss, diff, offset, |diff|)
    ensures diff == [] ==> ss == []
  {
    if ss != [] {
      assert SectionOf(ss[0], diff, offset);
    }
  }

  lemma {:induction false} TileAround(edges: seq<int>, n: nat, p: nat, m: nat) returns (k: nat)
    requires Tiling(edges, n) && m < |edges| && p < edges[m]
    ensures k < m && edges[k] <= p < edges[k + 1]
    decreases m
  {
    if edges[m - 1] <= p {
      k := m - 1;
    } else {
      k := TileAround(edges, n, p, m - 1);
    }
  }

  /** Every position of the overlap lies between two neighbouring edges, and what lies between them is a section exactly
      if it differs in fewer than 13 bits on average: no matching tile is left out. */
  lemma MatchesCover(master: seq<bv32>, query: seq<bv32>, offset: int, exp: real -> real, p: nat) returns (start: int, end: int)
    requires -|query| <= offset <= |master| && Positive(exp)
    requires p < |OverlapDiff(master, query, offset)|
    ensures var diff := OverlapDiff(master, query, offset);
            && 0 <= start <= p < end <= |diff|
            && (Mean(diff, start, end) < MAX_MEAN_DIFFERENCE <==> HasSection(Matches(master, query, offset, exp), start, end))
  {
    hide Cuts, Sections, Mean, OverlapDiff, HasSection;
    var diff := OverlapDiff(master, query, offset);
    var edges := Cuts(diff, exp);
    var k := TileAround(edges, |diff|, p, |edges| - 1);
    SectionsHave(diff, edges, offset, |edges| - 1, k);
    start, end := edges[k], edges[k + 1];
  }

  // ---- Equal fingerprints ----

  lemma {:induction false} WeightedZero(src: seq<real>, kernel: seq<real>, k: int, m: nat)
    requires |src| > 0 && m <= |kernel| && forall i :: 0 <= i < |src| ==> src[i] == 0.0
    ensures Weighted(REFLECT, src, kernel, k, m) == 0.0
    decreases m
  {
    if m > 0 {
      WeightedZero(src, kernel, k, m - 1);
    }
  }

  lemma {:induction false} NoEdges(smoothed: seq<real>, gradient: seq<real>, m: nat)
    requires Nonnegative(smoothed) && |gradient| == |smoothed| && forall i :: 0 <= i < |gradient| ==> gradient[i] == 0.0
    ensures EdgesBelow(smoothed, gradient, m) == [0]
    decreases m
  {
    if m > 0 {
      NoEdges(smoothed, gradient, m - 1);
    }
  }

  lemma ZeroSections(diff: seq<real>, offset: int)
    requires |diff| > 0 && forall i :: 0 <= i < |diff| ==> diff[i] == 0.0
    ensures Sections(diff, [0, |diff|], offset, 1) == [MatchingSection(offset, 0, |diff|, 0.0)]
  {
    hide Sum;
    SumOfZeros(diff);
    assert diff[0..|diff|] == diff;
    assert Mean(diff, 0, |diff|) == 0.0;
    assert Sections(diff, [0, |diff|], offset, 0) == [];
  }

  /** Where two fingerprints agree on the whole overlap there is one section: all of it, with no differing bits. */
  lemma MatchesEqual(master: seq<bv32>, query: seq<bv32>, offset: int, exp: real -> real)
    requires -|query| <= offset <= |master| && Positive(exp)
    requires var a, b := Shifted(master, offset), Shifted(query, -offset);
             var n := Smaller(|a|, |b|);
             n > 0 && a[..n] == b[..n]
    ensures var n := Smaller(|Shifted(master, offset)|, |Shifted(query, -offset)|);
            Matches(master, query, offset, exp) == [MatchingSection(offset, 0, n, 0.0)]
  {
    hide Sections, KernelOf, Weighted, EdgesBelow, Diff, Tiling;
    var a, b := Shifted(master, offset), Shifted(query, -offset);
    var diff := OverlapDiff(master, query, offset);
    DiffBound(a, b);
    forall i | 0 <= i < |diff|
      ensures diff[i] == 0.0
    {
      assert a[i] == a[..|diff|][i] && b[i] == b[..|diff|][i];
    }
    SmoothNonnegative(diff, exp);
    var smoothed := Smooth(diff, exp);
    forall i | 0 <= i < |diff|
      ensures smoothed[i] == 0.0
    {
      WeightedZero(diff, KernelOf(exp, 1.3, 9), i - 9 / 2, 9);
    }
    NoEdges(smoothed, Gradients(smoothed), |smoothed|);
    assert Edges(smoothed) == [0, |diff|];
    ZeroSections(diff, offset);
  }
}
