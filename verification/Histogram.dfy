/** The offset histogram of pkg/chromaprint/match.go: a sort-merge join that counts equal hash pairs. */
module Histogram {
  import Sorting
  import opened Filter

  // ---- Masks ----

  /** The word with the low `k` bits set; shifting out of the word leaves all of them. */
  function LowBits(k: nat): bv32 {
    if k < 32 then (1 << Small(k)) - 1 else 0xffff_ffff
  }

  function Small(k: nat): bv6
    requires k < 32
  {
    k as bv6
  }

  /** Go's `uint(n) * 2` on 64 bits. */
  function Doubled(n: int): nat { (2 * n) % 0x1_0000_0000_0000_0000 }

  function HashBitMask(nbits: int): bv32 {
    if nbits <= 16 then 0xaaaa_aaaa & LowBits(Doubled(nbits)) else 0xaaaa_aaaa | (0x5555_5555 & LowBits(Doubled(nbits - 16)))
  }

  function Masked(hash: bv32, mask: bv32): bv32 { hash & mask }

  /** The number that a hash stands for; Go orders unsigned words by it. */
  function Value(h: bv32): nat { h as nat }

  lemma BackFromValue(h: bv32)
    ensures (h as nat) as bv32 == h
  {
  }

  lemma ValueInjective(a: bv32, b: bv32)
    requires Value(a) == Value(b)
    ensures a == b
  {
    BackFromValue(a);
    BackFromValue(b);
  }

  predicate Below(a: bv32, b: bv32) { Value(a) < Value(b) }

  // ---- Specification: pairs of positions with equal masked hashes ----

  predicate Match(master: seq<bv32>, query: seq<bv32>, mask: bv32, i: int, j: int) {
    0 <= i < |master| && 0 <= j < |query| && Masked(master[i], mask) == Masked(query[j], mask)
  }

  /** The matching pairs at distance `d` whose master position is in `seen`. */
  function PairsAmong(master: seq<bv32>, query: seq<bv32>, mask: bv32, seen: set<int>, d: int): set<(int, int)> {
    set i | i in seen && Match(master, query, mask, i, i - d) :: (i, i - d)
  }

  predicate Within(n: nat, i: int) { 0 <= i < n }

  function Positions(n: nat): set<int> { set i: int | 0 <= i < n && Within(n, i) }

  function PairsAt(master: seq<bv32>, query: seq<bv32>, mask: bv32, d: int): set<(int, int)> {
    PairsAmong(master, query, mask, Positions(|master|), d)
  }

  predicate Allowed(d: int, maxOffset: int) {
    maxOffset == 0 || -maxOffset <= d <= maxOffset
  }

  /** The histogram, indexed by the distance plus the length of the query. */
  function Counts(master: seq<bv32>, query: seq<bv32>, mask: bv32, maxOffset: int): (counts: seq<real>)
    ensures |counts| == |master| + |query| + 1
  {
    seq(|master| + |query| + 1, x =>
      if Allowed(x - |query|, maxOffset) then |PairsAt(master, query, mask, x - |query|)| as real else 0.0)
  }

  // ---- Hashes sorted with their offsets ----

  datatype HashOffset = HashOffset(hash: bv32, offset: int)

  predicate LessHash(a: HashOffset, b: HashOffset) { Below(a.hash, b.hash) }

  function Entries(hashes: seq<bv32>, mask: bv32): (es: seq<HashOffset>)
    ensures |es| == |hashes|
  {
    seq(|hashes|, i requires 0 <= i < |hashes| => HashOffset(Masked(hashes[i], mask), i))
  }

  ghost predicate Occurs(es: seq<HashOffset>, offset: int) {
    exists k :: 0 <= k < |es| && es[k].offset == offset
  }

  /** The entries of `hashes`, each exactly once, in ascending order of hash. */
  ghost predicate Sorted(es: seq<HashOffset>, hashes: seq<bv32>, mask: bv32) {
    && |es| == |hashes|
    && (forall k :: 0 <= k < |es| ==> 0 <= es[k].offset < |hashes| && es[k].hash == Masked(hashes[es[k].offset], mask))
    && (forall i :: Within(|hashes|, i) ==> Occurs(es, i))
    && (forall k, l :: 0 <= k < l < |es| ==> es[k].offset != es[l].offset)
    && (forall k, l :: 0 <= k < l < |es| ==> !Below(es[l].hash, es[k].hash))
  }

  lemma LessHashOrder()
    ensures Sorting.StrictWeakOrder(LessHash)
  {
    hide Value;
  }

  method SortedEntries(hashes: seq<bv32>, mask: bv32) returns (es: seq<HashOffset>)
    ensures Sorted(es, hashes, mask)
  {
    hide Below, Masked;
    var entries: seq<HashOffset> := [];
    for offset := 0 to |hashes|
      invariant entries == Entries(hashes, mask)[..offset]
    {
      entries := entries + [HashOffset(Masked(hashes[offset], mask), offset)];
    }
    LessHashOrder();
    es := Sorting.Slice(entries, LessHash);
    assert entries == Entries(hashes, mask);
    PermutedEntries(es, hashes, mask);
  }

  lemma PermutedEntries(es: seq<HashOffset>, hashes: seq<bv32>, mask: bv32)
    requires multiset(es) == multiset(Entries(hashes, mask)) && |es| == |hashes|
    requires Sorting.Ordered(es, LessHash)
    ensures Sorted(es, hashes, mask)
  {
    hide Below, Masked;
    var all := Entries(hashes, mask);
    forall k | 0 <= k < |es|
      ensures 0 <= es[k].offset < |hashes| && es[k].hash == Masked(hashes[es[k].offset], mask)
    {
      assert es[k] in multiset(es);
      assert es[k] in all;
    }
    forall i | Within(|hashes|, i)
      ensures Occurs(es, i)
    {
      assert all[i] in multiset(all);
      assert all[i] in es;
    }
    forall k, l | 0 <= k < l < |es|
      ensures es[k].offset != es[l].offset
      ensures !Below(es[l].hash, es[k].hash)
    {
      assert !LessHash(es[l], es[k]);
      Twice(es, k, l);
      Once(all, es[k]);
    }
  }

  lemma Twice<T>(s: seq<T>, k: nat, l: nat)
    requires k < l < |s|
    ensures s[k] == s[l] ==> multiset(s)[s[k]] >= 2
  {
    assert s == s[..l] + [s[l]] + s[l + 1..];
    assert s[k] in s[..l];
  }

  lemma {:induction false} Once(s: seq<HashOffset>, x: HashOffset)
    requires forall i :: 0 <= i < |s| ==> s[i].offset == i
    ensures multiset(s)[x] <= 1
    decreases |s|
  {
    if s != [] {
      var n := |s| - 1;
      assert s == s[..n] + [s[n]];
      Once(s[..n], x);
      if x == s[n] {
        assert x !in s[..n];
      }
    }
  }

  // ---- The join ----

  /** The histogram of the pairs whose master position is in `seen`. */
  function CountsAmong(master: seq<bv32>, query: seq<bv32>, mask: bv32, maxOffset: int, seen: set<int>, x: int): real {
    if Allowed(x - |query|, maxOffset) then |PairsAmong(master, query, mask, seen, x - |query|)| as real else 0.0
  }

  /** One more master position adds at most one pair at each distance. */
  lemma SeeOne(master: seq<bv32>, query: seq<bv32>, mask: bv32, maxOffset: int, seen: set<int>, i: int, x: int)
    requires i !in seen
    ensures CountsAmong(master, query, mask, maxOffset, seen + {i}, x) ==
            CountsAmong(master, query, mask, maxOffset, seen, x) +
            (if Allowed(x - |query|, maxOffset) && Match(master, query, mask, i, i - (x - |query|)) then 1.0 else 0.0)
  {
    hide Match;
    var d := x - |query|;
    var before, after := PairsAmong(master, query, mask, seen, d), PairsAmong(master, query, mask, seen + {i}, d);
    assert after == before + if Match(master, query, mask, i, i - d) then {(i, i - d)} else {};
    assert (i, i - d) !in before;
  }

  /** The query offsets of the entries from `i` up to `j`. */
  ghost predicate Visited(qs: seq<HashOffset>, i: nat, j: nat, offset: int) {
    exists t :: i <= t < j && t < |qs| && qs[t].offset == offset
  }

  /** `counts` after the entries from `i` up to `j` were paired with a master entry at `o`. */
  ghost predicate Added(before: seq<real>, after: seq<real>, qs: seq<HashOffset>, i: nat, j: nat, o: int, maxOffset: int) {
    |after| == |before| &&
    forall x :: 0 <= x < |after| ==>
      after[x] == before[x] +
        (if Allowed(x - |qs|, maxOffset) && Visited(qs, i, j, o - (x - |qs|)) then 1.0 else 0.0)
  }

  lemma AddedStep(before: seq<real>, mid: seq<real>, after: seq<real>, qs: seq<HashOffset>, i: nat, j: nat, o: int, maxOffset: int)
    requires i <= j < |qs| && Added(before, mid, qs, i, j, o, maxOffset)
    requires forall k, l :: 0 <= k < l < |qs| ==> qs[k].offset != qs[l].offset
    requires 0 <= o - qs[j].offset + |qs| < |mid|
    requires after == if Allowed(o - qs[j].offset, maxOffset)
                      then mid[o - qs[j].offset + |qs| := mid[o - qs[j].offset + |qs|] + 1.0] else mid
    ensures Added(before, after, qs, i, j + 1, o, maxOffset)
  {
    hide Allowed;
    var x0 := o - qs[j].offset + |qs|;
    assert !Visited(qs, i, j, qs[j].offset);
    forall x | 0 <= x < |after|
      ensures after[x] == before[x] +
        (if Allowed(x - |qs|, maxOffset) && Visited(qs, i, j + 1, o - (x - |qs|)) then 1.0 else 0.0)
    {
      var off := o - (x - |qs|);
      assert Visited(qs, i, j + 1, off) <==> Visited(qs, i, j, off) || off == qs[j].offset by {
        if off == qs[j].offset {
          assert qs[j].offset == off;
        }
      }
      assert off == qs[j].offset <==> x == x0;
    }
  }

  /** The inner loop: every query entry from `i` on with the hash of `mo`. */
  method PairWith(counts: array<real>, qs: seq<HashOffset>, i: nat, mo: HashOffset, maxOffset: int, n: nat) returns (j: nat)
    requires counts.Length == n + |qs| + 1 && 0 <= mo.offset < n && i <= |qs|
    requires forall k :: 0 <= k < |qs| ==> 0 <= qs[k].offset < |qs|
    requires forall k, l :: 0 <= k < l < |qs| ==> qs[k].offset != qs[l].offset
    modifies counts
    ensures i <= j <= |qs| && (j < |qs| ==> qs[j].hash != mo.hash)
    ensures forall k :: i <= k < j ==> qs[k].hash == mo.hash
    ensures Added(old(counts[..]), counts[..], qs, i, j, mo.offset, maxOffset)
  {
    hide Added;
    j := i;
    AddedNone(counts[..], qs, i, mo.offset, maxOffset);
    while j < |qs| && qs[j].hash == mo.hash
      invariant i <= j <= |qs|
      invariant forall k :: i <= k < j ==> qs[k].hash == mo.hash
      invariant Added(old(counts[..]), counts[..], qs, i, j, mo.offset, maxOffset)
    {
      ghost var mid := counts[..];
      var offset := mo.offset - qs[j].offset;
      if maxOffset == 0 || (-maxOffset <= offset && offset <= maxOffset) {
        offset := offset + |qs|;
        counts[offset] := counts[offset] + 1.0;
      }
      AddedStep(old(counts[..]), mid, counts[..], qs, i, j, mo.offset, maxOffset);
      j := j + 1;
    }
  }

  lemma AddedNone(counts: seq<real>, qs: seq<HashOffset>, i: nat, o: int, maxOffset: int)
    ensures Added(counts, counts, qs, i, i, o, maxOffset)
  {
    forall offset
      ensures !Visited(qs, i, i, offset)
    {
    }
  }

  /** In sorted entries, the run of one hash covers every position with that hash. */
  lemma RunIsAll(qs: seq<HashOffset>, query: seq<bv32>, mask: bv32, i: nat, j: nat, hash: bv32, offset: int)
    requires Sorted(qs, query, mask) && i <= j <= |qs|
    requires forall k :: 0 <= k < i ==> Below(qs[k].hash, hash)
    requires forall k :: i <= k < j ==> qs[k].hash == hash
    requires j < |qs| ==> qs[j].hash != hash && (i == j ==> !Below(qs[j].hash, hash))
    ensures Visited(qs, i, j, offset) <==> 0 <= offset < |query| && Masked(query[offset], mask) == hash
  {
    hide Masked, Value;
    if 0 <= offset < |query| && Masked(query[offset], mask) == hash {
      assert Within(|query|, offset);
      var k :| 0 <= k < |qs| && qs[k].offset == offset;
      assert qs[k].hash == hash;
      if k >= j {
        RunEnds(qs, query, mask, i, j, hash, k);
        assert false;
      }
      assert k >= i;
      assert qs[k].offset == offset;
    }
  }

  lemma RunEnds(qs: seq<HashOffset>, query: seq<bv32>, mask: bv32, i: nat, j: nat, hash: bv32, k: nat)
    requires Sorted(qs, query, mask) && i <= j <= k < |qs|
    requires forall l :: i <= l < j ==> qs[l].hash == hash
    requires qs[j].hash != hash && (i == j ==> !Below(qs[j].hash, hash))
    ensures qs[k].hash != hash
  {
    hide Masked, Value;
    if i < j {
      assert !Below(qs[j].hash, qs[i].hash);
    }
    assert !Below(qs[j].hash, hash);
    if Value(qs[j].hash) == Value(hash) {
      ValueInjective(qs[j].hash, hash);
    }
    if j < k {
      assert !Below(qs[k].hash, qs[j].hash);
    }
  }

  /** The master positions of the first `k` sorted entries. */
  ghost function Seen(ms: seq<HashOffset>, k: nat): set<int>
    requires k <= |ms|
  {
    set t | 0 <= t < k :: ms[t].offset
  }

  ghost predicate CountsAre(counts: seq<real>, master: seq<bv32>, query: seq<bv32>, mask: bv32, maxOffset: int, seen: set<int>) {
    |counts| == |master| + |query| + 1 &&
    forall x :: 0 <= x < |counts| ==> counts[x] == CountsAmong(master, query, mask, maxOffset, seen, x)
  }

  lemma PairedOne(before: seq<real>, after: seq<real>, master: seq<bv32>, query: seq<bv32>, mask: bv32, maxOffset: int,
                  ms: seq<HashOffset>, qs: seq<HashOffset>, k: nat, i: nat, j: nat)
    requires Sorted(ms, master, mask) && Sorted(qs, query, mask) && k < |ms| && i <= j <= |qs|
    requires CountsAre(before, master, query, mask, maxOffset, Seen(ms, k))
    requires Added(before, after, qs, i, j, ms[k].offset, maxOffset)
    requires forall t :: 0 <= t < i ==> Below(qs[t].hash, ms[k].hash)
    requires forall t :: i <= t < j ==> qs[t].hash == ms[k].hash
    requires j < |qs| ==> qs[j].hash != ms[k].hash && (i == j ==> !Below(qs[j].hash, ms[k].hash))
    ensures CountsAre(after, master, query, mask, maxOffset, Seen(ms, k + 1))
  {
    hide Allowed, CountsAmong, Visited, Below, Masked;
    var o := ms[k].offset;
    assert Seen(ms, k + 1) == Seen(ms, k) + {o};
    assert o !in Seen(ms, k);
    forall x | 0 <= x < |after|
      ensures after[x] == CountsAmong(master, query, mask, maxOffset, Seen(ms, k + 1), x)
    {
      SeeOne(master, query, mask, maxOffset, Seen(ms, k), o, x);
      RunIsAll(qs, query, mask, i, j, ms[k].hash, o - (x - |query|));
    }
  }

  lemma NothingSeen(master: seq<bv32>, query: seq<bv32>, mask: bv32, maxOffset: int, x: int)
    ensures CountsAmong(master, query, mask, maxOffset, {}, x) == 0.0
  {
  }

  /** Once every query entry is below the current hash, later master entries pair with nothing. */
  lemma NoMorePairs(counts: seq<real>, master: seq<bv32>, query: seq<bv32>, mask: bv32, maxOffset: int,
                    ms: seq<HashOffset>, qs: seq<HashOffset>, k: nat)
    requires Sorted(ms, master, mask) && Sorted(qs, query, mask) && k <= |ms|
    requires k < |ms| ==> forall t :: 0 <= t < |qs| ==> Below(qs[t].hash, ms[k].hash)
    requires CountsAre(counts, master, query, mask, maxOffset, Seen(ms, k))
    ensures CountsAre(counts, master, query, mask, maxOffset, Seen(ms, |ms|))
    decreases |ms| - k
  {
    hide Allowed, CountsAmong, Masked, Value;
    if k < |ms| {
      forall t | 0 <= t < |qs|
        ensures Below(qs[t].hash, ms[k].hash)
        ensures k + 1 < |ms| ==> Below(qs[t].hash, ms[k + 1].hash)
      {
        if k + 1 < |ms| {
          assert !Below(ms[k + 1].hash, ms[k].hash);
        }
      }
      AddedNone(counts, qs, |qs|, ms[k].offset, maxOffset);
      PairedOne(counts, counts, master, query, mask, maxOffset, ms, qs, k, |qs|, |qs|);
      NoMorePairs(counts, master, query, mask, maxOffset, ms, qs, k + 1);
    }
  }

  lemma AllSeen(ms: seq<HashOffset>, master: seq<bv32>, mask: bv32)
    requires Sorted(ms, master, mask)
    ensures Seen(ms, |ms|) == Positions(|master|)
  {
    hide Below, Masked;
    forall i
      ensures i in Seen(ms, |ms|) <==> i in Positions(|master|)
    {
      if Within(|master|, i) {
        var k :| 0 <= k < |ms| && ms[k].offset == i;
        assert ms[k].offset in Seen(ms, |ms|);
      }
    }
  }

  /** The sort-merge join computes the histogram of all pairs, as a double loop over both fingerprints would. */
  method CountOffsets(master: seq<bv32>, query: seq<bv32>, mask: bv32, maxOffset: int) returns (counts: array<real>)
    ensures fresh(counts) && counts[..] == Counts(master, query, mask, maxOffset)
  {
    hide Sorted, CountsAre, CountsAmong, Added, Masked, Value;
    var queryHashes := SortedEntries(query, mask);
    var masterHashes := SortedEntries(master, mask);
    SortedSizes(queryHashes, query, mask);
    SortedSizes(masterHashes, master, mask);
    counts := new real[|masterHashes| + |queryHashes| + 1](_ => 0.0);
    NoneSeen(counts[..], master, query, mask, maxOffset, masterHashes);
    var i := 0;
    var k := 0;
    while k < |masterHashes|
      invariant 0 <= i <= |queryHashes| && 0 <= k <= |masterHashes|
      invariant k < |masterHashes| ==> forall t :: 0 <= t < i ==> Below(queryHashes[t].hash, masterHashes[k].hash)
      invariant CountsAre(counts[..], master, query, mask, maxOffset, Seen(masterHashes, k))
    {
      var mo := masterHashes[k];
      i := SkipBelow(queryHashes, i, mo.hash);
      if i >= |queryHashes| {
        break;
      }
      ghost var before := counts[..];
      var j := PairWith(counts, queryHashes, i, mo, maxOffset, |master|);
      PairedOne(before, counts[..], master, query, mask, maxOffset, masterHashes, queryHashes, k, i, j);
      StillBelow(masterHashes, master, mask, queryHashes, k, i);
      k := k + 1;
    }
    NoMorePairs(counts[..], master, query, mask, maxOffset, masterHashes, queryHashes, k);
    AllSeen(masterHashes, master, mask);
    CountsComplete(counts[..], master, query, mask, maxOffset);
  }

  /** Moves past the query entries below `hash`. */
  method SkipBelow(qs: seq<HashOffset>, i0: nat, hash: bv32) returns (i: nat)
    requires i0 <= |qs| && forall t :: 0 <= t < i0 ==> Below(qs[t].hash, hash)
    ensures i0 <= i <= |qs| && forall t :: 0 <= t < i ==> Below(qs[t].hash, hash)
    ensures i < |qs| ==> !Below(qs[i].hash, hash)
  {
    hide Value;
    i := i0;
    while i < |qs| && Below(qs[i].hash, hash)
      invariant i <= |qs| && forall t :: 0 <= t < i ==> Below(qs[t].hash, hash)
    {
      i := i + 1;
    }
  }

  lemma SortedSizes(es: seq<HashOffset>, hashes: seq<bv32>, mask: bv32)
    requires Sorted(es, hashes, mask)
    ensures |es| == |hashes|
    ensures forall k :: 0 <= k < |es| ==> 0 <= es[k].offset < |es|
    ensures forall k, l :: 0 <= k < l < |es| ==> es[k].offset != es[l].offset
  {
    hide Masked, Below;
  }

  lemma StillBelow(ms: seq<HashOffset>, master: seq<bv32>, mask: bv32, qs: seq<HashOffset>, k: nat, i: nat)
    requires Sorted(ms, master, mask) && k < |ms| && i <= |qs|
    requires forall t :: 0 <= t < i ==> Below(qs[t].hash, ms[k].hash)
    ensures k + 1 < |ms| ==> forall t :: 0 <= t < i ==> Below(qs[t].hash, ms[k + 1].hash)
  {
    hide Masked, Value;
    if k + 1 < |ms| {
      assert !Below(ms[k + 1].hash, ms[k].hash);
    }
  }

  lemma NoneSeen(counts: seq<real>, master: seq<bv32>, query: seq<bv32>, mask: bv32, maxOffset: int, ms: seq<HashOffset>)
    requires |counts| == |master| + |query| + 1 && forall x :: 0 <= x < |counts| ==> counts[x] == 0.0
    ensures CountsAre(counts, master, query, mask, maxOffset, Seen(ms, 0))
  {
    hide CountsAmong;
    assert Seen(ms, 0) == {};
    forall x | 0 <= x < |counts|
      ensures CountsAmong(master, query, mask, maxOffset, {}, x) == 0.0
    {
      NothingSeen(master, query, mask, maxOffset, x);
    }
  }

  lemma CountsComplete(counts: seq<real>, master: seq<bv32>, query: seq<bv32>, mask: bv32, maxOffset: int)
    requires CountsAre(counts, master, query, mask, maxOffset, Positions(|master|))
    ensures counts == Counts(master, query, mask, maxOffset)
  {
    hide Positions, PairsAmong, Allowed;
    forall x | 0 <= x < |counts|
      ensures counts[x] == Counts(master, query, mask, maxOffset)[x]
    {
      assert counts[x] == CountsAmong(master, query, mask, maxOffset, Positions(|master|), x);
    }
  }

  // ---- Swapping the fingerprints ----

  function Flip(pairs: set<(int, int)>): set<(int, int)> {
    set p | p in pairs :: (p.1, p.0)
  }

  lemma {:induction false} FlipSize(pairs: set<(int, int)>)
    ensures |Flip(pairs)| == |pairs|
    decreases |pairs|
  {
    if pairs == {} {
      assert Flip(pairs) == {};
    } else {
      var p :| p in pairs;
      FlipSize(pairs - {p});
      assert Flip(pairs) == Flip(pairs - {p}) + {(p.1, p.0)};
      assert (p.1, p.0) !in Flip(pairs - {p});
    }
  }

  lemma PairsFlipped(master: seq<bv32>, query: seq<bv32>, mask: bv32, d: int)
    ensures PairsAt(query, master, mask, -d) == Flip(PairsAt(master, query, mask, d))
  {
    hide Masked;
    forall p: (int, int)
      ensures p in PairsAt(query, master, mask, -d) <==> p in Flip(PairsAt(master, query, mask, d))
    {
      PairsAtHas(query, master, mask, -d, p);
      PairsAtHas(master, query, mask, d, (p.1, p.0));
      if p in Flip(PairsAt(master, query, mask, d)) {
        assert (p.1, p.0) in PairsAt(master, query, mask, d);
      }
    }
  }

  lemma PairsAtHas(master: seq<bv32>, query: seq<bv32>, mask: bv32, d: int, p: (int, int))
    ensures p in PairsAt(master, query, mask, d) <==> Match(master, query, mask, p.0, p.1) && p.0 - p.1 == d
  {
    hide Masked;
    if Match(master, query, mask, p.0, p.1) && p.0 - p.1 == d {
      assert Within(|master|, p.0) && p.0 in Positions(|master|);
      assert p == (p.0, p.0 - d);
    }
  }

  lemma PairsFlippedSize(master: seq<bv32>, query: seq<bv32>, mask: bv32, d: int)
    ensures |PairsAt(query, master, mask, -d)| == |PairsAt(master, query, mask, d)|
  {
    hide PairsAt;
    PairsFlipped(master, query, mask, d);
    FlipSize(PairsAt(master, query, mask, d));
  }

  lemma CountsAt(master: seq<bv32>, query: seq<bv32>, mask: bv32, maxOffset: int, d: int)
    requires -|query| <= d <= |master|
    ensures Counts(master, query, mask, maxOffset)[d + |query|] ==
            if Allowed(d, maxOffset) then |PairsAt(master, query, mask, d)| as real else 0.0
  {
    hide PairsAt, Allowed;
    assert d + |query| - |query| == d;
  }

  /** Swapping master and query reverses the histogram. */
  lemma CountsSwapped(master: seq<bv32>, query: seq<bv32>, mask: bv32, maxOffset: int)
    ensures Counts(query, master, mask, maxOffset) == Reversed(Counts(master, query, mask, maxOffset))
  {
    hide PairsAt, Counts;
    var a, b := Counts(query, master, mask, maxOffset), Counts(master, query, mask, maxOffset);
    forall x | 0 <= x < |a|
      ensures a[x] == Reversed(b)[x]
    {
      var d := |master| - x;
      CountsAt(master, query, mask, maxOffset, d);
      CountsAt(query, master, mask, maxOffset, -d);
      PairsFlippedSize(master, query, mask, d);
      assert -d + |master| == x && |b| - 1 - x == d + |query|;
    }
  }

  // ---- The total of the histogram ----

  /** All matching pairs at an allowed distance. */
  function AllowedPairs(master: seq<bv32>, query: seq<bv32>, mask: bv32, maxOffset: int): set<(int, int)> {
    set i, j | i in Positions(|master|) && j in Positions(|query|) && Match(master, query, mask, i, j) && Allowed(i - j, maxOffset) :: (i, j)
  }

  /** Those at a distance below `d`. */
  function PairsBelow(master: seq<bv32>, query: seq<bv32>, mask: bv32, maxOffset: int, d: int): set<(int, int)> {
    set p | p in AllowedPairs(master, query, mask, maxOffset) && p.0 - p.1 < d
  }

  lemma PairsBelowHas(master: seq<bv32>, query: seq<bv32>, mask: bv32, maxOffset: int, d: int, p: (int, int))
    ensures p in PairsBelow(master, query, mask, maxOffset, d) <==>
            Match(master, query, mask, p.0, p.1) && Allowed(p.0 - p.1, maxOffset) && p.0 - p.1 < d
  {
    hide Masked, Allowed;
    assert Within(|master|, p.0) ==> p.0 in Positions(|master|);
    assert Within(|query|, p.1) ==> p.1 in Positions(|query|);
  }

  lemma PairsBelowStep(master: seq<bv32>, query: seq<bv32>, mask: bv32, maxOffset: int, d: int)
    ensures |PairsBelow(master, query, mask, maxOffset, d + 1)| ==
            |PairsBelow(master, query, mask, maxOffset, d)| + if Allowed(d, maxOffset) then |PairsAt(master, query, mask, d)| else 0
  {
    hide PairsBelow, PairsAt, Match, Allowed;
    var below, after := PairsBelow(master, query, mask, maxOffset, d), PairsBelow(master, query, mask, maxOffset, d + 1);
    var here := if Allowed(d, maxOffset) then PairsAt(master, query, mask, d) else {};
    forall p: (int, int)
      ensures p in after <==> p in below || p in here
      ensures !(p in below && p in here)
    {
      PairsBelowHas(master, query, mask, maxOffset, d, p);
      PairsBelowHas(master, query, mask, maxOffset, d + 1, p);
      PairsAtHas(master, query, mask, d, p);
    }
    assert after == below + here;
    assert below !! here;
  }

  /** No distance is below minus the length of the query, and all are at most the length of the master. */
  lemma PairsBelowEnds(master: seq<bv32>, query: seq<bv32>, mask: bv32, maxOffset: int)
    ensures PairsBelow(master, query, mask, maxOffset, -|query|) == {}
    ensures PairsBelow(master, query, mask, maxOffset, |master| + 1) == AllowedPairs(master, query, mask, maxOffset)
  {
    hide Masked, Allowed;
  }

  lemma {:induction false} PartialCounts(master: seq<bv32>, query: seq<bv32>, mask: bv32, maxOffset: int, n: nat)
    requires n <= |master| + |query| + 1
    ensures Sum(Counts(master, query, mask, maxOffset)[..n]) == |PairsBelow(master, query, mask, maxOffset, n - |query|)| as real
    decreases n
  {
    hide PairsAt, PairsBelow, Counts, Allowed;
    var counts := Counts(master, query, mask, maxOffset);
    if n == 0 {
      PairsBelowEnds(master, query, mask, maxOffset);
      assert counts[..0] == [];
    } else {
      var d := n - 1 - |query|;
      PartialCounts(master, query, mask, maxOffset, n - 1);
      PairsBelowStep(master, query, mask, maxOffset, d);
      CountsAt(master, query, mask, maxOffset, d);
      assert counts[..n][..n - 1] == counts[..n - 1];
      assert d + 1 == n - |query|;
    }
  }

  /** The histogram counts every matching pair at an allowed distance once, for every offset limit. */
  lemma CountsTotal(master: seq<bv32>, query: seq<bv32>, mask: bv32, maxOffset: int)
    ensures Sum(Counts(master, query, mask, maxOffset)) == |AllowedPairs(master, query, mask, maxOffset)| as real
  {
    hide PairsBelow, AllowedPairs, Counts;
    var counts := Counts(master, query, mask, maxOffset);
    PartialCounts(master, query, mask, maxOffset, |counts|);
    assert counts[..|counts|] == counts;
    PairsBelowEnds(master, query, mask, maxOffset);
  }
}
