/** The matcher on top: FingerprintMatcher.Match and Compare of pkg/chromaprint/match.go. */
module Matcher {
  import opened Codec
  import opened Results
  import opened Histogram
  import opened Alignment
  import opened Similarity
  import opened Matching

  datatype FingerprintMatcher = FingerprintMatcher(numAlignBits: int, maxOffset: int, maxOffsetCandidates: nat)

  datatype MatchError = InvalidFingerprintVersion | MasterTooLong | QueryTooLong

  datatype MatchResult = MatchResult(version: int, masterLength: nat, queryLength: nat, sections: seq<MatchingSection>)

  /** Only version 1 has a configuration. */
  predicate Configured(version: int) { version == 1 }

  const MAX_LENGTH := 0x1_0000

  function Refusal(master: Fingerprint, query: Fingerprint): Option<MatchError> {
    if master.version != query.version || !Configured(master.version) then Some(InvalidFingerprintVersion)
    else if |master.hashes| >= MAX_LENGTH then Some(MasterTooLong)
    else if |query.hashes| >= MAX_LENGTH then Some(QueryTooLong)
    else None
  }

  /** Two fingerprints are compared only if both are of version 1 and have fewer than 65536 hashes; the version is looked at
      first, then the master, then the query. */
  lemma RefusalMeaning(master: Fingerprint, query: Fingerprint)
    ensures Refusal(master, query).None? <==> master.version == query.version == 1 && |master.hashes| < 65536 && |query.hashes| < 65536
    ensures Refusal(master, query) == Some(InvalidFingerprintVersion) <==> master.version != 1 || query.version != 1
    ensures Refusal(master, query) == Some(MasterTooLong) <==> master.version == query.version == 1 && |master.hashes| >= 65536
  {
  }

  predicate InRange(hits: seq<OffsetHit>, master: seq<bv32>, query: seq<bv32>) {
    forall k :: 0 <= k < |hits| ==> -|query| <= hits[k].offset <= |master|
  }

  /** The sections at the first hit that has any. */
  function FirstSections(hits: seq<OffsetHit>, master: seq<bv32>, query: seq<bv32>, exp: real -> real): seq<MatchingSection>
    requires InRange(hits, master, query) && Positive(exp)
  {
    if hits == [] then []
    else if Matches(master, query, hits[0].offset, exp) != [] then Matches(master, query, hits[0].offset, exp)
    else FirstSections(hits[1..], master, query, exp)
  }

  ghost predicate Aligned(hits: seq<OffsetHit>, fm: FingerprintMatcher, master: seq<bv32>, query: seq<bv32>, exp: real -> real)
    requires Positive(exp)
  {
    Best(hits, AllPeaks(master, query, fm.numAlignBits, fm.maxOffset, exp), fm.maxOffsetCandidates) && InRange(hits, master, query)
  }

  method Align(fm: FingerprintMatcher, master: seq<bv32>, query: seq<bv32>, exp: real -> real) returns (hits: seq<OffsetHit>)
    requires Positive(exp)
    ensures Aligned(hits, fm, master, query, exp)
  {
    hide Best, AllPeaks;
    hits := AlignFingerprints(master, query, fm.numAlignBits, fm.maxOffsetCandidates, fm.maxOffset, exp);
    HitsInRange(master, query, fm.numAlignBits, fm.maxOffsetCandidates, fm.maxOffset, exp, hits);
  }

  method Match(fm: FingerprintMatcher, master: Fingerprint, query: Fingerprint, exp: real -> real)
    returns (r: Result<MatchResult, MatchError>, ghost hits: seq<OffsetHit>)
    requires Positive(exp)
    ensures Refusal(master, query).Some? ==> r == Failure(Refusal(master, query).value)
    ensures Refusal(master, query).None? ==>
              && Aligned(hits, fm, master.hashes, query.hashes, exp)
              && r == Success(MatchResult(master.version, |master.hashes|, |query.hashes|,
                                          FirstSections(hits, master.hashes, query.hashes, exp)))
  {
    hits := [];
    if master.version != query.version {
      return Failure(InvalidFingerprintVersion), hits;
    }
    if !Configured(master.version) {
      return Failure(InvalidFingerprintVersion), hits;
    }
    if |master.hashes| >= MAX_LENGTH {
      return Failure(MasterTooLong), hits;
    }
    if |query.hashes| >= MAX_LENGTH {
      return Failure(QueryTooLong), hits;
    }
    hide Best, AllPeaks, FirstSections;
    var offsetHits := Align(fm, master.hashes, query.hashes, exp);
    hits := offsetHits;
    var sections := FindSections(offsetHits, master.hashes, query.hashes, exp);
    r := Success(MatchResult(master.version, |master.hashes|, |query.hashes|, sections));
  }

  /** Tries the hits in order. */
  method FindSections(hits: seq<OffsetHit>, master: seq<bv32>, query: seq<bv32>, exp: real -> real) returns (sections: seq<MatchingSection>)
    requires InRange(hits, master, query) && Positive(exp)
    ensures sections == FirstSections(hits, master, query, exp)
  {
    hide Matches;
    assert hits[0..] == hits;
    for i := 0 to |hits|
      invariant FirstSections(hits, master, query, exp) == FirstSections(hits[i..], master, query, exp)
    {
      sections := MatchAlignedFingerprints(master, query, hits[i].offset, exp);
      assert hits[i..][0] == hits[i] && hits[i..][1..] == hits[i + 1..];
      if |sections| > 0 {
        return;
      }
    }
    sections := [];
  }

  method Compare(fm: FingerprintMatcher, master: Fingerprint, query: Fingerprint, exp: real -> real, pow: (real, real) -> real)
    returns (r: Result<real, MatchError>, ghost hits: seq<OffsetHit>)
    requires Positive(exp)
    ensures Refusal(master, query).Some? ==> r == Failure(Refusal(master, query).value)
    ensures Refusal(master, query).None? ==>
              && Aligned(hits, fm, master.hashes, query.hashes, exp)
              && r == Success(if hits == [] then 0.0 else Score(master.hashes, query.hashes, hits[0], pow))
    ensures r.Success? && KeepsShares(pow) ==> 0.0 <= r.value <= 1.0
  {
    hits := [];
    if master.version != query.version {
      return Failure(InvalidFingerprintVersion), hits;
    }
    if !Configured(master.version) {
      return Failure(InvalidFingerprintVersion), hits;
    }
    if |master.hashes| >= MAX_LENGTH {
      return Failure(MasterTooLong), hits;
    }
    if |query.hashes| >= MAX_LENGTH {
      return Failure(QueryTooLong), hits;
    }
    hide Best, AllPeaks, Score, KeepsShares;
    var offsetHits := Align(fm, master.hashes, query.hashes, exp);
    hits := offsetHits;
    if |offsetHits| == 0 {
      return Success(0.0), hits;
    }
    var score := CompareAlignedFingerprints(master.hashes, query.hashes, offsetHits[0], pow);
    if KeepsShares(pow) {
      ScoreRange(master.hashes, query.hashes, offsetHits[0], pow);
    }
    r := Success(score);
  }

  /** Nothing is reported exactly if no hit has sections. */
  lemma {:induction false} NoSections(hits: seq<OffsetHit>, master: seq<bv32>, query: seq<bv32>, exp: real -> real)
    requires InRange(hits, master, query) && Positive(exp)
    ensures FirstSections(hits, master, query, exp) == [] <==>
            forall k :: 0 <= k < |hits| ==> Matches(master, query, hits[k].offset, exp) == []
    decreases |hits|
  {
    hide Matches;
    if hits != [] {
      NoSections(hits[1..], master, query, exp);
      assert forall k :: 0 < k < |hits| ==> hits[k] == hits[1..][k - 1];
    }
  }

  lemma {:induction false} FirstSectionsFrom(hits: seq<OffsetHit>, master: seq<bv32>, query: seq<bv32>, exp: real -> real) returns (k: int)
    requires InRange(hits, master, query) && Positive(exp)
    requires FirstSections(hits, master, query, exp) != []
    ensures 0 <= k < |hits| && FirstSections(hits, master, query, exp) == Matches(master, query, hits[k].offset, exp)
    ensures forall l :: 0 <= l < k ==> Matches(master, query, hits[l].offset, exp) == []
  {
    hide Matches;
    if Matches(master, query, hits[0].offset, exp) != [] {
      k := 0;
    } else {
      k := FirstSectionsFrom(hits[1..], master, query, exp);
      k := k + 1;
      forall l | 0 <= l < k
        ensures Matches(master, query, hits[l].offset, exp) == []
      {
        if l > 0 {
          assert hits[l] == hits[1..][l - 1];
        }
      }
    }
  }

  /** A match is never reported out of nothing: all its sections have one offset, lie in the overlap at that offset,
      and at that offset, or one next to it, at least two pairs of masked hashes are equal. */
  lemma MatchBacked(fm: FingerprintMatcher, master: seq<bv32>, query: seq<bv32>, exp: real -> real, hits: seq<OffsetHit>)
    returns (offset: int, d: int)
    requires Positive(exp) && Aligned(hits, fm, master, query, exp)
    requires FirstSections(hits, master, query, exp) != []
    ensures -|query| <= offset <= |master|
    ensures SectionsIn(FirstSections(hits, master, query, exp), OverlapDiff(master, query, offset), offset, |OverlapDiff(master, query, offset)|)
    ensures offset - 1 <= d <= offset + 1 && Allowed(d, fm.maxOffset)
    ensures |PairsAt(master, query, HashBitMask(fm.numAlignBits), d)| >= 2
  {
    hide Best, AllPeaks, Matches, SectionsIn, PairsAt, OverlapDiff;
    var k := FirstSectionsFrom(hits, master, query, exp);
    offset := hits[k].offset;
    MatchesAre(master, query, offset, exp);
    d := HitBacked(master, query, fm.numAlignBits, fm.maxOffsetCandidates, fm.maxOffset, exp, hits, k);
  }
}
