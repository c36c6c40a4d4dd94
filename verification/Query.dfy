/** Extracting an index query from a fingerprint, written twice in the program: ExtractLegacyQuery of
    pkg/fpstore/index.go and ExtractIndexQuery of server/services/legacy/fingerprint_searcher.go. */
module Query {
  import opened Bits
  import Histogram
  import opened Bits32
  import opened HashBits

  const QUERY_SIZE := 120
  const QUERY_START := 80
  const SILENCE_HASH: bv32 := 627964279
  const QUERY_BIT_MASK: bv32 := ((1 << 28) - 1) << (32 - 28)

  /** The bits of a hash that the index knows. */
  function QueryHash(hash: bv32): bv32 { hash & QUERY_BIT_MASK }

  predicate Clean(hash: bv32) { hash != SILENCE_HASH }

  // ---- Specification ----

  /** The query hashes of the clean hashes that are not yet in `seen`, each at its first occurrence. */
  function Distinct(hashes: seq<bv32>, seen: set<bv32>): seq<bv32> {
    if hashes == [] then []
    else if Clean(hashes[0]) && QueryHash(hashes[0]) !in seen
    then [QueryHash(hashes[0])] + Distinct(hashes[1..], seen + {QueryHash(hashes[0])})
    else Distinct(hashes[1..], seen)
  }

  function CleanSize(hashes: seq<bv32>): nat {
    if hashes == [] then 0 else (if Clean(hashes[0]) then 1 else 0) + CleanSize(hashes[1..])
  }

  /** Where the query starts: at 80, or earlier so that 120 clean hashes could follow. */
  function Start(hashes: seq<bv32>): (start: nat)
    ensures start <= QUERY_START && (start > 0 ==> start <= CleanSize(hashes) - QUERY_SIZE)
  {
    var spare := CleanSize(hashes) - QUERY_SIZE;
    if spare > QUERY_START then QUERY_START else if spare < 0 then 0 else spare
  }

  function Upto(s: seq<bv32>, n: nat): seq<bv32> {
    if |s| <= n then s else s[..n]
  }

  lemma {:induction false} CleanAtMost(hashes: seq<bv32>)
    ensures CleanSize(hashes) <= |hashes|
    decreases |hashes|
  {
    if hashes != [] {
      CleanAtMost(hashes[1..]);
    }
  }

  lemma StartInside(hashes: seq<bv32>)
    ensures Start(hashes) <= |hashes|
  {
    CleanAtMost(hashes);
  }

  function LegacyQuery(hashes: seq<bv32>): seq<bv32> {
    StartInside(hashes);
    Upto(Distinct(hashes[Start(hashes)..], {}), QUERY_SIZE)
  }

  function IndexQuery(hashes: seq<bv32>): seq<bv32> {
    StartInside(hashes);
    Upto(Distinct(hashes[Start(hashes)..], {}), QUERY_SIZE + 1)
  }

  // ---- The two programs ----

  lemma {:induction false} CleanSizeNext(hashes: seq<bv32>, i: nat)
    requires i < |hashes|
    ensures CleanSize(hashes[..i + 1]) == CleanSize(hashes[..i]) + if Clean(hashes[i]) then 1 else 0
    decreases i
  {
    if i == 0 {
      assert hashes[..1][1..] == [];
    } else {
      CleanSizeNext(hashes[1..], i - 1);
      assert hashes[..i + 1][1..] == hashes[1..][..i] && hashes[..i][1..] == hashes[1..][..i - 1];
    }
  }

  lemma DistinctNext(hashes: seq<bv32>, i: nat, seen: set<bv32>)
    requires i < |hashes|
    ensures Distinct(hashes[i..], seen) ==
            if Clean(hashes[i]) && QueryHash(hashes[i]) !in seen
            then [QueryHash(hashes[i])] + Distinct(hashes[i + 1..], seen + {QueryHash(hashes[i])})
            else Distinct(hashes[i + 1..], seen)
  {
    hide QueryHash, Clean;
    assert hashes[i..][1..] == hashes[i + 1..];
  }

  /** One step through the hashes, with `taken` what was taken before. */
  lemma TakeNext(all: seq<bv32>, taken: seq<bv32>, hashes: seq<bv32>, i: nat, seen: set<bv32>)
    requires i < |hashes| && all == taken + Distinct(hashes[i..], seen)
    ensures if Clean(hashes[i]) && QueryHash(hashes[i]) !in seen
            then all == taken + [QueryHash(hashes[i])] + Distinct(hashes[i + 1..], seen + {QueryHash(hashes[i])})
            else all == taken + Distinct(hashes[i + 1..], seen)
  {
    hide QueryHash, Clean, Distinct;
    DistinctNext(hashes, i, seen);
    if Clean(hashes[i]) && QueryHash(hashes[i]) !in seen {
      var h, rest := QueryHash(hashes[i]), Distinct(hashes[i + 1..], seen + {QueryHash(hashes[i])});
      assert taken + ([h] + rest) == taken + [h] + rest;
    }
  }

  function Min(a: int, b: int): int { if a < b then a else b }
  function Max(a: int, b: int): int { if a > b then a else b }

  method ExtractLegacyQuery(hashes: seq<bv32>) returns (query: seq<bv32>)
    ensures query == LegacyQuery(hashes)
  {
    hide Distinct, Clean, QueryHash;
    var cleanSize := 0;
    for i := 0 to |hashes|
      invariant cleanSize == CleanSize(hashes[..i])
    {
      CleanSizeNext(hashes, i);
      if Clean(hashes[i]) {
        cleanSize := cleanSize + 1;
      }
    }
    assert hashes[..|hashes|] == hashes;
    if cleanSize <= 0 {
      NoQuery(hashes);
      return [];
    }
    StartInside(hashes);
    query := FillQuery(hashes, Max(0, Min(cleanSize - QUERY_SIZE, QUERY_START)));
  }

  method FillQuery(hashes: seq<bv32>, start: nat) returns (query: seq<bv32>)
    requires start <= |hashes|
    ensures query == Upto(Distinct(hashes[start..], {}), QUERY_SIZE)
  {
    hide Distinct, Clean, QueryHash, Upto;
    var buffer := new bv32[QUERY_SIZE](_ => 0);
    var queryHashes: set<bv32> := {};
    var querySize := 0;
    var i := start;
    ghost var all := Distinct(hashes[i..], {});
    while i < |hashes| && querySize < QUERY_SIZE
      invariant 0 <= i <= |hashes| && 0 <= querySize <= QUERY_SIZE
      invariant all == buffer[..querySize] + Distinct(hashes[i..], queryHashes)
    {
      TakeNext(all, buffer[..querySize], hashes, i, queryHashes);
      var hash := hashes[i];
      i := i + 1;
      if !Clean(hash) {
        continue;
      }
      hash := QueryHash(hash);
      if hash in queryHashes {
        continue;
      }
      ghost var before := buffer[..querySize];
      queryHashes := queryHashes + {hash};
      buffer[querySize] := hash;
      querySize := querySize + 1;
      assert buffer[..querySize] == before + [hash];
    }
    DistinctNothing(hashes, queryHashes);
    query := buffer[..querySize];
    Taken(all, query, Distinct(hashes[i..], queryHashes), QUERY_SIZE);
  }

  lemma DistinctNothing(hashes: seq<bv32>, seen: set<bv32>)
    ensures Distinct(hashes[|hashes|..], seen) == []
  {
  }

  lemma Taken(all: seq<bv32>, query: seq<bv32>, rest: seq<bv32>, n: nat)
    requires all == query + rest && |query| <= n && (|query| < n ==> rest == [])
    ensures Upto(all, n) == query
  {
  }

  lemma NoQuery(hashes: seq<bv32>)
    requires CleanSize(hashes) == 0
    ensures LegacyQuery(hashes) == [] && IndexQuery(hashes) == []
  {
    hide Distinct;
    assert hashes[0..] == hashes;
    NothingClean(hashes, {});
  }

  lemma {:induction false} NothingClean(hashes: seq<bv32>, seen: set<bv32>)
    requires CleanSize(hashes) == 0
    ensures Distinct(hashes, seen) == []
    decreases |hashes|
  {
    if hashes != [] {
      NothingClean(hashes[1..], seen);
    }
  }

  method ExtractIndexQuery(hashes: seq<bv32>) returns (query: seq<bv32>)
    ensures query == IndexQuery(hashes)
  {
    hide Distinct, Clean, QueryHash;
    var size := |hashes|;
    var silentSize := 0;
    for i := 0 to size
      invariant silentSize == i - CleanSize(hashes[..i])
    {
      CleanSizeNext(hashes, i);
      if !Clean(hashes[i]) {
        silentSize := silentSize + 1;
      }
    }
    assert hashes[..size] == hashes;
    if silentSize == size {
      NoQuery(hashes);
      return [];
    }
    StartInside(hashes);
    var start := size - silentSize - QUERY_SIZE;
    if start > QUERY_START {
      start := QUERY_START;
    } else if start < 0 {
      start := 0;
    }
    query := [];
    var queryMap: set<bv32> := {};
    ghost var all := Distinct(hashes[start..], {});
    var i := start;
    while i < size
      invariant start <= i <= size && |query| <= QUERY_SIZE
      invariant all == query + Distinct(hashes[i..], queryMap)
    {
      TakeNext(all, query, hashes, i, queryMap);
      var hash := hashes[i];
      i := i + 1;
      if Clean(hash) {
        hash := QueryHash(hash);
        if hash !in queryMap {
          query := query + [hash];
          queryMap := queryMap + {hash};
        }
        if |query| > QUERY_SIZE {
          Taken(all, query, Distinct(hashes[i..], queryMap), QUERY_SIZE + 1);
          return;
        }
      }
    }
    DistinctNothing(hashes, queryMap);
    Taken(all, query, [], QUERY_SIZE + 1);
  }

  // ---- How they are related ----

  /** The legacy query is the first 120 hashes of the index query, on every input. */
  lemma QueriesAgree(hashes: seq<bv32>)
    ensures LegacyQuery(hashes) == Upto(IndexQuery(hashes), QUERY_SIZE)
  {
    hide Distinct, Start;
  }

  lemma {:induction false} CleanSplit(a: seq<bv32>, b: seq<bv32>)
    ensures CleanSize(a + b) == CleanSize(a) + CleanSize(b)
    decreases |a|
  {
    if a == [] {
      assert a + b == b;
    } else {
      CleanSplit(a[1..], b);
      assert (a + b)[1..] == a[1..] + b;
    }
  }

  /** Both queries are empty exactly if every hash is silence: enough clean hashes are left after the start. */
  lemma EmptyQuery(hashes: seq<bv32>)
    ensures LegacyQuery(hashes) == [] <==> forall i :: 0 <= i < |hashes| ==> hashes[i] == SILENCE_HASH
    ensures IndexQuery(hashes) == [] <==> LegacyQuery(hashes) == []
  {
    hide Distinct;
    StartInside(hashes);
    var k := Start(hashes);
    AllSilence(hashes);
    assert hashes == hashes[..k] + hashes[k..];
    CleanSplit(hashes[..k], hashes[k..]);
    CleanAtMost(hashes[..k]);
    DistinctEmpty(hashes[k..]);
  }

  lemma {:induction false} AllSilence(hashes: seq<bv32>)
    ensures CleanSize(hashes) == 0 <==> forall i :: 0 <= i < |hashes| ==> hashes[i] == SILENCE_HASH
    decreases |hashes|
  {
    if hashes != [] {
      AllSilence(hashes[1..]);
      assert forall i :: 0 < i < |hashes| ==> hashes[i] == hashes[1..][i - 1];
    }
  }

  lemma {:induction false} DistinctEmpty(hashes: seq<bv32>)
    ensures Distinct(hashes, {}) == [] <==> CleanSize(hashes) == 0
    decreases |hashes|
  {
    hide QueryHash;
    if hashes != [] {
      DistinctEmpty(hashes[1..]);
    }
  }

  // ---- What a query holds ----

  /** `q` is the first position of a clean hash with its query hash. */
  ghost predicate First(hashes: seq<bv32>, q: int) {
    0 <= q < |hashes| && Clean(hashes[q]) &&
    forall r :: 0 <= r < q && Clean(hashes[r]) ==> QueryHash(hashes[r]) != QueryHash(hashes[q])
  }

  /** The query lists the first positions of the different clean query hashes, in order, and misses none. */
  lemma {:induction false} DistinctMeaning(hashes: seq<bv32>, i: nat, seen: set<bv32>) returns (positions: seq<int>)
    requires i <= |hashes|
    requires forall h :: h in seen <==> exists r :: 0 <= r < i && Clean(hashes[r]) && QueryHash(hashes[r]) == h
    ensures var query := Distinct(hashes[i..], seen);
            && |positions| == |query|
            && (forall k :: 0 <= k < |query| ==> i <= positions[k] && First(hashes, positions[k]) && query[k] == QueryHash(hashes[positions[k]]))
            && (forall k, l :: 0 <= k < l < |query| ==> positions[k] < positions[l])
            && (forall q :: i <= q && First(hashes, q) ==> q in positions)
    decreases |hashes| - i
  {
    hide Clean, QueryHash;
    if i == |hashes| {
      positions := [];
    } else {
      DistinctNext(hashes, i, seen);
      var h := QueryHash(hashes[i]);
      if Clean(hashes[i]) && h !in seen {
        positions := DistinctMeaning(hashes, i + 1, seen + {h});
        positions := [i] + positions;
      } else {
        positions := DistinctMeaning(hashes, i + 1, seen);
      }
    }
  }

  /** What the index is asked for: the first positions, from the start on, of the different clean query hashes, in order;
      all of them unless there are more than 120. */
  lemma LegacyMeaning(hashes: seq<bv32>) returns (positions: seq<int>)
    ensures Start(hashes) <= |hashes|
    ensures var query, tail := LegacyQuery(hashes), hashes[Start(hashes)..];
            && |positions| == |query| <= 120
            && (forall k :: 0 <= k < |query| ==> First(tail, positions[k]) && query[k] == QueryHash(tail[positions[k]]))
            && (forall k, l :: 0 <= k < l < |query| ==> positions[k] < positions[l])
            && (|query| < 120 ==> forall q :: First(tail, q) ==> q in positions)
  {
    hide Distinct, Clean, QueryHash, Start, First;
    StartInside(hashes);
    var tail := hashes[Start(hashes)..];
    assert tail[0..] == tail;
    positions := DistinctMeaning(tail, 0, {});
    if |positions| > QUERY_SIZE {
      positions := positions[..QUERY_SIZE];
    }
    FirstInside(tail);
  }

  /** The index query is as the legacy query, but for the 121st position. */
  lemma IndexMeaning(hashes: seq<bv32>) returns (positions: seq<int>)
    ensures Start(hashes) <= |hashes|
    ensures var query, tail := IndexQuery(hashes), hashes[Start(hashes)..];
            && |positions| == |query| <= 121
            && (forall k :: 0 <= k < |query| ==> First(tail, positions[k]) && query[k] == QueryHash(tail[positions[k]]))
            && (forall k, l :: 0 <= k < l < |query| ==> positions[k] < positions[l])
            && (|query| < 121 ==> forall q :: First(tail, q) ==> q in positions)
  {
    hide Distinct, Clean, QueryHash, Start, First;
    StartInside(hashes);
    var tail := hashes[Start(hashes)..];
    assert tail[0..] == tail;
    positions := DistinctMeaning(tail, 0, {});
    if |positions| > 121 {
      positions := positions[..121];
    }
    FirstInside(tail);
  }

  // ---- The constants ----

  lemma QueryShift(t: bv6)
    requires t < 32
    ensures QUERY_BIT_MASK as bv64 & (1 as bv64 << t) != 0 <==> 4 <= t
  {
  }

  lemma MaskHas(k: nat)
    requires k < 32
    ensures Has32(QUERY_BIT_MASK, k) <==> k >= 4
  {
    hide Index;
    IndexSmall(k);
    IndexBack(k);
    Order6(3, Index(k));
    QueryShift(Index(k));
  }

  /** The index knows the 28 highest bits of a hash. */
  lemma QueryHashBits(hash: bv32, k: nat)
    requires k < 32
    ensures Has32(QueryHash(hash), k) <==> Has32(hash, k) && k >= 4
  {
    hide Has32, QueryHash, Histogram.Masked;
    MaskHas(k);
    QueryMasked(hash);
    MaskedHas(hash, QUERY_BIT_MASK, k);
  }

  lemma QueryMasked(hash: bv32)
    ensures QueryHash(hash) == Histogram.Masked(hash, QUERY_BIT_MASK)
  {
  }

  /** So two hashes ask the same if and only if they differ in the four lowest bits at most. */
  lemma SameQueryHash(a: bv32, b: bv32)
    ensures QueryHash(a) == QueryHash(b) <==> forall k: nat :: 4 <= k < 32 ==> Has32(a, k) == Has32(b, k)
  {
    hide Has32, QueryHash;
    forall k: nat | k < 32
      ensures Has32(QueryHash(a), k) <==> Has32(a, k) && k >= 4
      ensures Has32(QueryHash(b), k) <==> Has32(b, k) && k >= 4
    {
      QueryHashBits(a, k);
      QueryHashBits(b, k);
    }
    if forall k: nat :: 4 <= k < 32 ==> Has32(a, k) == Has32(b, k) {
      SameBits(QueryHash(a), QueryHash(b));
    }
  }

  /** The positions below `n` that are not the hash of silence. */
  function CleanBelow(hashes: seq<bv32>, n: nat): set<int>
    requires n <= |hashes|
  {
    set i | 0 <= i < n && hashes[i] != 627964279
  }

  lemma {:induction false} CleanCounted(hashes: seq<bv32>, n: nat)
    requires n <= |hashes|
    ensures CleanSize(hashes[..n]) == |CleanBelow(hashes, n)|
    decreases n
  {
    if n > 0 {
      CleanCounted(hashes, n - 1);
      CleanSizeNext(hashes, n - 1);
      var one := if hashes[n - 1] != 627964279 then {n - 1} else {};
      assert CleanBelow(hashes, n) == CleanBelow(hashes, n - 1) + one;
    } else {
      assert CleanBelow(hashes, 0) == {};
    }
  }

  /** Where the query starts, by the number of hashes that are not silence: at the beginning up to 120 of them, then one
      further for each more, and at 80 from 200 on. */
  lemma StartMeaning(hashes: seq<bv32>)
    ensures var clean := |CleanBelow(hashes, |hashes|)|;
            Start(hashes) == if clean <= 120 then 0 else if clean <= 200 then clean - 120 else 80
  {
    hide CleanSize;
    assert hashes[..|hashes|] == hashes;
    CleanCounted(hashes, |hashes|);
  }

  lemma FirstInside(hashes: seq<bv32>)
    ensures forall q :: First(hashes, q) ==> 0 <= q < |hashes|
  {
  }
}
