/** Cutting off weak search results: filterIndexSearchResults of pkg/fpstore/index.go. */
module SearchResults {
  import opened Words
  import Sorting

  datatype Found = Found(id: uint32, hits: uint32)

  /** More hits first, and among equal hits the smaller id. */
  predicate Better(a: Found, b: Found) {
    a.hits > b.hits || (a.hits == b.hits && a.id < b.id)
  }

  lemma BetterOrder()
    ensures Sorting.StrictWeakOrder(Better)
  {
  }

  const WORD := 0x1_0000_0000

  /** A tenth of the most hits, rounded, in 32-bit arithmetic. */
  function Threshold(hits: uint32): nat {
    ((hits as nat * 10) % WORD + 50) % WORD / 100
  }

  /** Whatever overflows, the threshold is never above the most hits. */
  lemma ThresholdReached(hits: uint32)
    ensures Threshold(hits) <= hits as nat
  {
    var h := hits as nat;
    if h * 10 < WORD {
      assert (h * 10) % WORD == h * 10;
    }
  }

  /** The threshold is a hundredth of ten times the most hits and fifty, rounded down, less the multiples of 2^32 that
      the sum loses; below 2^32 it loses none. */
  lemma ThresholdMeaning(hits: uint32) returns (lost: nat)
    ensures var sum := 10 * hits as nat + 50 - lost * 0x1_0000_0000;
            0 <= sum < 0x1_0000_0000 && 100 * Threshold(hits) <= sum < 100 * Threshold(hits) + 100
    ensures 10 * hits as nat + 50 < 0x1_0000_0000 ==> lost == 0
  {
    var product := hits as nat * 10;
    var low := product % WORD;
    lost := product / WORD + (low + 50) / WORD;
    assert product == product / WORD * WORD + low;
    assert low + 50 == (low + 50) / WORD * WORD + (low + 50) % WORD;
  }

  /** How many of the sorted results reach the threshold; they come first. */
  function Above(sorted: seq<Found>, threshold: nat): (n: nat)
    ensures n <= |sorted|
  {
    if sorted == [] || sorted[|sorted| - 1].hits as nat >= threshold then |sorted|
    else Above(sorted[..|sorted| - 1], threshold)
  }

  /** How many results are kept. */
  function Keep(sorted: seq<Found>, limit: int): (n: nat)
    ensures n <= |sorted|
  {
    if limit < 0 || 0 < |sorted| <= limit || sorted == [] then |sorted|
    else
      var above := Above(sorted, Threshold(sorted[0].hits));
      if limit == 0 || limit > above then above else limit
  }

  ghost predicate Arranged(sorted: seq<Found>, results: seq<Found>) {
    multiset(sorted) == multiset(results) && Sorting.Ordered(sorted, Better)
  }

  // ---- The program ----

  /** sort.Search for the first result below the threshold. */
  method Search(sorted: seq<Found>, threshold: nat) returns (i: nat)
    requires Sorting.Ordered(sorted, Better)
    ensures i == Above(sorted, threshold)
  {
    i := 0;
    var j := |sorted|;
    while i < j
      invariant 0 <= i <= j <= |sorted|
      invariant forall k :: 0 <= k < i ==> sorted[k].hits as nat >= threshold
      invariant forall k :: j <= k < |sorted| ==> sorted[k].hits as nat < threshold
    {
      var h := (i + j) / 2;
      if sorted[h].hits as nat < threshold {
        forall k | h <= k < |sorted|
          ensures sorted[k].hits as nat < threshold
        {
          assert k > h ==> !Better(sorted[k], sorted[h]);
        }
        j := h;
      } else {
        forall k | 0 <= k <= h
          ensures sorted[k].hits as nat >= threshold
        {
          assert k < h ==> !Better(sorted[h], sorted[k]);
        }
        i := h + 1;
      }
    }
    AboveIs(sorted, threshold, i);
  }

  lemma {:induction false} AboveIs(sorted: seq<Found>, threshold: nat, i: nat)
    requires i <= |sorted|
    requires forall k :: 0 <= k < i ==> sorted[k].hits as nat >= threshold
    requires forall k :: i <= k < |sorted| ==> sorted[k].hits as nat < threshold
    ensures Above(sorted, threshold) == i
    decreases |sorted|
  {
    if i < |sorted| {
      AboveIs(sorted[..|sorted| - 1], threshold, i);
    }
  }

  /** The first result is looked at whenever the limit is not positive, even if there is none. */
  method FilterIndexSearchResults(results: seq<Found>, limit0: int) returns (kept: seq<Found>, ghost sorted: seq<Found>)
    requires limit0 <= 0 ==> results != []
    ensures Arranged(sorted, results) && kept == sorted[..Keep(sorted, limit0)]
  {
    hide Threshold, Better;
    BetterOrder();
    var arranged := Sorting.Slice(results, Better);
    sorted := arranged;
    kept := arranged;
    var limit := limit0;
    if limit == 0 || |kept| > limit {
      var threshold := Threshold(kept[0].hits);
      var thresholdIndex := Search(kept, threshold);
      if limit == 0 || limit > thresholdIndex {
        limit := thresholdIndex;
      }
    }
    if results != [] {
      BestAbove(sorted);
    }
    if limit > 0 && |kept| > limit {
      kept := kept[..limit];
    }
  }

  // ---- What is kept ----

  lemma {:induction false} AboveMeans(sorted: seq<Found>, threshold: nat, k: nat)
    requires Sorting.Ordered(sorted, Better) && k < |sorted|
    ensures k < Above(sorted, threshold) <==> sorted[k].hits as nat >= threshold
    decreases |sorted|
  {
    var n := |sorted| - 1;
    assert k < n ==> !Better(sorted[n], sorted[k]);
    if k < n && sorted[n].hits as nat < threshold {
      AboveMeans(sorted[..n], threshold, k);
    }
  }

  lemma BestAbove(sorted: seq<Found>)
    requires sorted != [] && Sorting.Ordered(sorted, Better)
    ensures Above(sorted, Threshold(sorted[0].hits)) > 0
  {
    hide Threshold, Better;
    ThresholdReached(sorted[0].hits);
    AboveMeans(sorted, Threshold(sorted[0].hits), 0);
  }

  /** `a` has more hits than `b`, or as many and no larger id. */
  predicate NotBehind(a: Found, b: Found) { a.hits > b.hits || (a.hits == b.hits && a.id <= b.id) }

  /** Results are never filtered down to nothing: a best one is kept, first; and in the sorted order, of which a beginning
      is kept, hits fall and ids ascend among equal hits. */
  lemma KeptAreBest(sorted: seq<Found>, results: seq<Found>, limit: int)
    requires Arranged(sorted, results) && results != []
    ensures sorted != [] && Keep(sorted, limit) > 0
    ensures forall x :: x in results ==> NotBehind(sorted[0], x)
    ensures forall i, j :: 0 <= i < j < |sorted| ==> NotBehind(sorted[i], sorted[j])
  {
    hide Threshold;
    assert results[0] in multiset(results);
    BestAbove(sorted);
    forall x | x in results
      ensures NotBehind(sorted[0], x)
    {
      assert x in multiset(sorted);
      var k :| 0 <= k < |sorted| && sorted[k] == x;
      assert k > 0 ==> !Better(sorted[k], sorted[0]);
    }
  }

  /** Without a limit, exactly the results that reach the threshold are kept. */
  lemma KeptWithoutLimit(sorted: seq<Found>, results: seq<Found>, x: Found)
    requires Arranged(sorted, results) && sorted != [] && x in results
    ensures x in sorted[..Keep(sorted, 0)] <==> x.hits as nat >= Threshold(sorted[0].hits)
  {
    hide Threshold, Better;
    var t := Threshold(sorted[0].hits);
    assert x in multiset(sorted);
    var k :| 0 <= k < |sorted| && sorted[k] == x;
    AboveMeans(sorted, t, k);
    if x in sorted[..Keep(sorted, 0)] {
      var l :| 0 <= l < Keep(sorted, 0) && sorted[l] == x;
      AboveMeans(sorted, t, l);
    }
  }

  /** A positive limit below the number of results keeps those that are within it and reach the threshold; any other
      limit but zero keeps them all. */
  lemma KeptWithLimit(sorted: seq<Found>, limit: int, k: nat)
    requires Sorting.Ordered(sorted, Better) && limit != 0 && k < |sorted|
    ensures k < Keep(sorted, limit) <==>
            limit < 0 || limit >= |sorted| || (k < limit && sorted[k].hits as nat >= Threshold(sorted[0].hits))
  {
    hide Threshold, Better;
    AboveMeans(sorted, Threshold(sorted[0].hits), k);
  }

  /** Results that the order does not tell apart are equal, so what is kept does not depend on the sorting method. */
  lemma {:induction false} ArrangedOnce(a: seq<Found>, b: seq<Found>)
    requires multiset(a) == multiset(b) && Sorting.Ordered(a, Better) && Sorting.Ordered(b, Better)
    ensures a == b
    decreases |a|
  {
    if a == [] {
      assert b == [] by {
        assert |multiset(b)| == |b|;
      }
    } else {
      assert |multiset(a)| == |a| && |multiset(b)| == |b|;
      FirstSame(a, b);
      FirstSame(b, a);
      assert a == [a[0]] + a[1..] && b == [b[0]] + b[1..];
      assert multiset(a[1..]) == multiset(a) - multiset{a[0]} && multiset(b[1..]) == multiset(b) - multiset{b[0]};
      ArrangedOnce(a[1..], b[1..]);
    }
  }

  lemma FirstSame(a: seq<Found>, b: seq<Found>)
    requires a != [] && b != [] && multiset(a) == multiset(b) && Sorting.Ordered(b, Better)
    ensures !Better(a[0], b[0])
  {
    assert a[0] in multiset(b);
    var k :| 0 <= k < |b| && b[k] == a[0];
    assert k > 0 ==> !Better(b[k], b[0]);
  }
}
