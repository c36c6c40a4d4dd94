/** The loops of pkg/chromaprint/encoding.go, proved against the functions of module Codec. */
module Encoding {
  import opened Bytes
  import opened Pack
  import opened PackLoops
  import opened Codec
  import opened Results
  import opened CodecTheorems

  /** The protobuf message that the decoder fills in. */
  class FingerprintMessage {
    var version: int
    var hashes: seq<bv32>
  }

  // ---- Appending to the two symbol streams ----

  lemma NormalConcat(a: seq<bv8>, b: seq<bv8>)
    ensures Normal(a + b) == Normal(a) + Normal(b)
  {
    hide Large;
  }

  lemma {:induction false} ExceptionalConcat(a: seq<bv8>, b: seq<bv8>)
    ensures Exceptional(a + b) == Exceptional(a) + Exceptional(b)
    decreases |a|
  {
    hide Large, Excess;
    if a == [] {
      assert a + b == b;
    } else {
      var head := if Large(a[0]) then [Excess(a[0])] else [];
      assert (a + b)[1..] == a[1..] + b;
      ExceptionalConcat(a[1..], b);
      assert head + (Exceptional(a[1..]) + Exceptional(b)) == head + Exceptional(a[1..]) + Exceptional(b);
    }
  }

  lemma OneSymbol(s: bv8)
    ensures Normal([s]) == [if Large(s) then 7 else s]
    ensures Exceptional([s]) == if Large(s) then [Excess(s)] else []
  {
    hide Large, Excess;
    assert [s][1..] == [];
  }

  lemma {:induction false} SevensSnoc(bits: seq<bv8>, b: bv8)
    ensures Sevens(bits + [b]) == Sevens(bits) + (if b == 7 then 1 else 0)
    decreases |bits|
  {
    if bits != [] {
      assert (bits + [b])[1..] == bits[1..] + [b];
      SevensSnoc(bits[1..], b);
    }
  }

  // ---- Encoding ----

  /** The two streams of the symbols emitted so far. */
  predicate Streams(normalBits: seq<bv8>, exceptionBits: seq<bv8>, symbols: seq<bv8>) {
    normalBits == Normal(symbols) && exceptionBits == Exceptional(symbols)
  }

  method EmitSymbol(normalBits: seq<bv8>, exceptionBits: seq<bv8>, b: bv8, ghost symbols: seq<bv8>)
    returns (normal: seq<bv8>, exceptional: seq<bv8>)
    requires Streams(normalBits, exceptionBits, symbols)
    ensures Streams(normal, exceptional, symbols + [b])
  {
    hide Normal, Exceptional, Large, Excess;
    NormalConcat(symbols, [b]);
    ExceptionalConcat(symbols, [b]);
    OneSymbol(b);
    if Large(b) {
      return normalBits + [7], exceptionBits + [Excess(b)];
    } else {
      return normalBits + [b], exceptionBits;
    }
  }

  /** The inner loop: one XORed word, bit by bit. */
  method EmitGaps(normalBits: seq<bv8>, exceptionBits: seq<bv8>, delta: bv32, ghost symbols: seq<bv8>)
    returns (normal: seq<bv8>, exceptional: seq<bv8>)
    requires Streams(normalBits, exceptionBits, symbols)
    ensures Streams(normal, exceptional, symbols + Gaps(delta, 1, 0))
  {
    hide Gaps, Streams;
    normal, exceptional := normalBits, exceptionBits;
    var value, bit: bv8, lastBit: bv8 := delta, 1, 0;
    ghost var done := [];
    assert symbols + done == symbols;
    while value != 0
      invariant Streams(normal, exceptional, symbols + done)
      invariant done + Gaps(value, bit, lastBit) == Gaps(delta, 1, 0)
      decreases value
    {
      GapsStep(value, bit, lastBit);
      if value & 1 != 0 {
        var b := bit - lastBit;
        normal, exceptional := EmitSymbol(normal, exceptional, b, symbols + done);
        assert symbols + done + [b] == symbols + (done + [b]);
        done := done + [b];
        lastBit := bit;
      }
      HalfSmaller(value);
      value, bit := value >> 1, bit + 1;
    }
    GapsEnd(bit, lastBit);
    assert done + [] == done;
  }

  /** The outer loop: all hashes, each closed by a zero. */
  method EmitSymbols(hashes: seq<bv32>) returns (normal: seq<bv8>, exceptional: seq<bv8>)
    ensures normal == Normal(Symbols(hashes, 0)) && exceptional == Exceptional(Symbols(hashes, 0))
  {
    hide Gaps, Xor, Normal, Exceptional;
    normal, exceptional := [], [];
    var lastValue: bv32 := 0;
    ghost var done := [];
    EmptyStreams();
    for i := 0 to |hashes|
      invariant Streams(normal, exceptional, done)
      invariant done + Symbols(hashes[i..], lastValue) == Symbols(hashes, 0)
    {
      var h := hashes[i];
      var delta := Xor(h, lastValue);
      ghost var rest := Symbols(hashes[i + 1..], h);
      assert hashes[i..][1..] == hashes[i + 1..];
      normal, exceptional := EmitGaps(normal, exceptional, delta, done);
      normal, exceptional := EmitSymbol(normal, exceptional, 0, done + Gaps(delta, 1, 0));
      assert done + (Gaps(delta, 1, 0) + [0] + rest) == done + Gaps(delta, 1, 0) + [0] + rest;
      done := done + Gaps(delta, 1, 0) + [0];
      lastValue := h;
    }
    assert done + Symbols([], lastValue) == done;
  }

  method CompressFingerprint(fp: Fingerprint) returns (data: array<bv8>)
    ensures fresh(data) && data[..] == Encode(fp)
  {
    hide Normal, Exceptional, Packed, PackedSize, Header, Symbols, Fits, Groups3, Groups5;
    var normalBits, exceptionBits := EmitSymbols(fp.hashes);
    var normalBitsSize := PackedSize(|normalBits|, 3);
    var exceptionBitsSize := PackedSize(|exceptionBits|, 5);
    data := new bv8[4 + normalBitsSize + exceptionBitsSize];
    PutHeader(data, fp.version, |fp.hashes|);
    ghost var header := data[..4];
    SymbolsShape(fp.hashes, 0);
    NormalFits(Symbols(fp.hashes, 0));
    ExceptionalFits(Symbols(fp.hashes, 0));
    var n3 := PackUint3Slice(data, 4, normalBits);
    assert data[..4] == header;
    ghost var front := data[..4 + n3];
    assert front == header + data[4..4 + n3];
    var n5 := PackUint5Slice(data, 4 + n3, exceptionBits);
    assert data[..4 + n3] == front;
    assert data[..] == data[..4 + n3] + data[4 + n3..4 + n3 + n5];
  }

  method PutHeader(data: array<bv8>, version: int, n: nat)
    requires data.Length >= 4
    modifies data
    ensures data[..4] == Header(version, n)
  {
    data[0], data[1], data[2], data[3] := Byte(version), Byte(n / 0x10000), Byte(n / 0x100), Byte(n);
  }

  lemma EmptyStreams()
    ensures Normal([]) == [] && Exceptional([]) == []
  {
  }

  lemma GapsStep(value: bv32, bit: bv8, lastBit: bv8)
    requires value != 0
    ensures Gaps(value, bit, lastBit) ==
            if value & 1 != 0 then [bit - lastBit] + Gaps(value >> 1, bit + 1, bit)
            else Gaps(value >> 1, bit + 1, lastBit)
  {
  }

  lemma GapsEnd(bit: bv8, lastBit: bv8)
    ensures Gaps(0, bit, lastBit) == []
  {
  }

  lemma HalfSmaller(value: bv32)
    requires value != 0
    ensures value >> 1 < value
  {
  }

  // ---- Decoding ----

  function Plus(r: Option<nat>, k: nat): Option<nat> {
    match r
    case None => None
    case Some(n) => Some(n + k)
  }

  /** Counts zeros and sevens up to the zero that closes the last value. */
  method ScanNormalBits(bits: array<bv8>, totalValues: nat) returns (found: bool, size: nat, sevens: nat)
    requires 0 < totalValues
    ensures found == Cut(bits[..], totalValues).Some?
    ensures found ==> Cut(bits[..], totalValues) == Some(size) && size <= bits.Length
    ensures found ==> sevens == Sevens(bits[..size])
  {
    var numValues := 0;
    var bi := 0;
    size, sevens := bits.Length, 0;
    while bi < bits.Length
      invariant bi <= bits.Length && numValues < totalValues
      invariant Cut(bits[..], totalValues) == Plus(Cut(bits[bi..], totalValues - numValues), bi)
      invariant sevens == Sevens(bits[..bi])
    {
      assert bits[bi..][1..] == bits[bi + 1..];
      assert bits[..bi + 1] == bits[..bi] + [bits[bi]];
      SevensSnoc(bits[..bi], bits[bi]);
      if bits[bi] == 0 {
        numValues := numValues + 1;
        if numValues == totalValues {
          return true, bi + 1, sevens;
        }
      } else if bits[bi] == 7 {
        sevens := sevens + 1;
      }
      bi := bi + 1;
    }
    found := false;
  }

  lemma {:induction false} MergeNothing(normal: seq<bv8>, exceptional: seq<bv8>)
    requires Sevens(normal) == 0
    ensures Merge(normal, exceptional) == normal
    decreases |normal|
  {
    hide Restored;
    if normal != [] {
      MergeNothing(normal[1..], exceptional);
    }
  }

  lemma MergeStep(normal: seq<bv8>, k: nat, exceptional: seq<bv8>, ei: nat)
    requires k < |normal| && ei <= |exceptional| && Sevens(normal[k..]) <= |exceptional| - ei
    ensures normal[k] == 7 ==> ei < |exceptional|
    ensures var next := if normal[k] == 7 then ei + 1 else ei;
            && Sevens(normal[k + 1..]) <= |exceptional| - next
            && Merge(normal[k..], exceptional[ei..]) ==
               [if normal[k] == 7 then Restored(exceptional[ei]) else normal[k]] + Merge(normal[k + 1..], exceptional[next..])
  {
    hide Restored;
    assert normal[k..][1..] == normal[k + 1..];
    if normal[k] == 7 {
      assert exceptional[ei..][1..] == exceptional[ei + 1..];
    }
  }

  lemma MergeEnd(normal: seq<bv8>, exceptional: seq<bv8>)
    requires normal == []
    ensures Sevens(normal) == 0 && Merge(normal, exceptional) == []
  {
  }

  /** Adds the exceptions to the sevens, in place. */
  method AddExceptions(bits: array<bv8>, size: nat, exceptional: seq<bv8>)
    requires size <= bits.Length && Sevens(bits[..size]) <= |exceptional|
    modifies bits
    ensures bits[..size] == Merge(old(bits[..size]), exceptional)
  {
    hide Restored, Merge, Sevens;
    var ei := 0;
    ghost var normal, done: seq<bv8> := bits[..size], [];
    assert normal[0..] == normal && exceptional[0..] == exceptional;
    for bi := 0 to size
      invariant ei <= |exceptional| && Sevens(normal[bi..]) <= |exceptional| - ei
      invariant bits[..bi] == done
      invariant forall k :: bi <= k < size ==> bits[k] == normal[k]
      invariant done + Merge(normal[bi..], exceptional[ei..]) == Merge(normal, exceptional)
    {
      MergeStep(normal, bi, exceptional, ei);
      if bits[bi] == 7 {
        bits[bi] := Restored(exceptional[ei]);
        ei := ei + 1;
      }
      done := done + [bits[bi]];
    }
    MergeEnd(normal[size..], exceptional[ei..]);
  }

  lemma WordsStep(bits: seq<bv8>, k: nat, lastBit: bv8, word: bv32, last: bv32)
    requires k < |bits|
    ensures Words(bits[k..], lastBit, word, last) ==
            if bits[k] == 0 then [Xor(word, last)] + Words(bits[k + 1..], 0, 0, Xor(word, last))
            else var p := Advance(lastBit, bits[k]); Words(bits[k + 1..], p, SetBit(word, p), last)
    ensures Zeros(bits[k..]) == (if bits[k] == 0 then 1 else 0) + Zeros(bits[k + 1..])
    ensures bits[|bits| - 1] == 0 && k + 1 < |bits| ==> Zeros(bits[k + 1..]) > 0
  {
    hide Advance, SetBit, Xor;
    assert bits[k..][1..] == bits[k + 1..];
    if bits[|bits| - 1] == 0 && k + 1 < |bits| {
      LastZeroCounts(bits[k + 1..]);
    }
  }

  /** One symbol: a gap sets a bit, a zero closes the hash. */
  method PutSymbol(hashes: array<bv32>, hi: nat, lastBit: bv8, bit: bv8) returns (hi': nat, lastBit': bv8)
    requires hi < hashes.Length
    modifies hashes
    ensures forall j :: 0 <= j < hashes.Length && j != hi ==> hashes[j] == old(hashes[j])
    ensures bit == 0 ==> hi' == hi + 1 && lastBit' == 0
    ensures bit == 0 ==> hashes[hi] == Xor(old(hashes[hi]), if hi == 0 then 0 else hashes[hi - 1])
    ensures bit != 0 ==> hi' == hi && lastBit' == Advance(lastBit, bit) && hashes[hi] == SetBit(old(hashes[hi]), lastBit')
  {
    hide Advance, SetBit, Xor;
    if bit == 0 {
      XorZero(hashes[hi]);
      if hi > 0 {
        hashes[hi] := Xor(hashes[hi], hashes[hi - 1]);
      }
      return hi + 1, 0;
    } else {
      lastBit' := Advance(lastBit, bit);
      hashes[hi] := SetBit(hashes[hi], lastBit');
      hi' := hi;
    }
  }

  /** The hashes before `hi` are done, the one at `hi` is in the making, and the symbols from `k` on give the rest. */
  ghost predicate Building(hashes: seq<bv32>, bits: seq<bv8>, k: nat, hi: nat, lastBit: bv8) {
    && k <= |bits| && hi <= |hashes| && hi + Zeros(bits[k..]) == |hashes| && (hi < |hashes| || k == |bits|)
    && (forall j :: hi < j < |hashes| ==> hashes[j] == 0)
    && hashes[..hi] + Words(bits[k..], lastBit, Current(hashes, hi), Previous(hashes, hi)) == Words(bits, 0, 0, 0)
  }

  function Current(hashes: seq<bv32>, hi: nat): bv32 { if hi < |hashes| then hashes[hi] else 0 }

  function Previous(hashes: seq<bv32>, hi: nat): bv32 { if 0 < hi <= |hashes| then hashes[hi - 1] else 0 }

  lemma BuildingGap(before: seq<bv32>, after: seq<bv32>, bits: seq<bv8>, k: nat, hi: nat, lastBit: bv8)
    requires Building(before, bits, k, hi, lastBit) && k < |bits| && bits[k] != 0 && bits[|bits| - 1] == 0
    requires |after| == |before| && forall j :: 0 <= j < |before| && j != hi ==> after[j] == before[j]
    requires hi < |before| && after[hi] == SetBit(before[hi], Advance(lastBit, bits[k]))
    ensures Building(after, bits, k + 1, hi, Advance(lastBit, bits[k]))
  {
    hide Advance, SetBit, Xor, Words, Zeros;
    WordsStep(bits, k, lastBit, Current(before, hi), Previous(before, hi));
    assert after[..hi] == before[..hi];
  }

  lemma BuildingZero(before: seq<bv32>, after: seq<bv32>, bits: seq<bv8>, k: nat, hi: nat, lastBit: bv8)
    requires Building(before, bits, k, hi, lastBit) && k < |bits| && bits[k] == 0 && bits[|bits| - 1] == 0
    requires |after| == |before| && forall j :: 0 <= j < |before| && j != hi ==> after[j] == before[j]
    requires hi < |before| && after[hi] == Xor(before[hi], Previous(before, hi))
    ensures Building(after, bits, k + 1, hi + 1, 0)
  {
    hide Advance, SetBit, Xor, Words, Zeros;
    WordsStep(bits, k, lastBit, Current(before, hi), Previous(before, hi));
    var next := Words(bits[k + 1..], 0, 0, after[hi]);
    assert after[..hi + 1] == before[..hi] + [after[hi]];
    assert before[..hi] + ([after[hi]] + next) == after[..hi + 1] + next;
    ZerosEnd(bits, k + 1);
  }

  lemma ZerosEnd(bits: seq<bv8>, k: nat)
    requires k <= |bits|
    ensures k == |bits| ==> Zeros(bits[k..]) == 0
  {
  }

  /** Rebuilds the hashes from the symbols, in place. */
  method BuildHashes(bits: seq<bv8>, totalValues: nat) returns (hashes: array<bv32>)
    requires bits != [] && bits[|bits| - 1] == 0 && Zeros(bits) == totalValues
    ensures fresh(hashes) && hashes[..] == Words(bits, 0, 0, 0)
  {
    hide Advance, SetBit, Xor, Words, Zeros, Building;
    hashes := new bv32[totalValues](_ => 0);
    var hi: nat := 0;
    var lastBit: bv8 := 0;
    BuildingStarts(hashes[..], bits);
    for k := 0 to |bits|
      invariant Building(hashes[..], bits, k, hi, lastBit)
    {
      ghost var before, at, last := hashes[..], hi, lastBit;
      BuildingInside(before, bits, k, hi, lastBit);
      hi, lastBit := PutSymbol(hashes, hi, lastBit, bits[k]);
      if bits[k] == 0 {
        BuildingZero(before, hashes[..], bits, k, at, last);
      } else {
        BuildingGap(before, hashes[..], bits, k, at, last);
      }
    }
    BuildingEnds(hashes[..], bits, hi, lastBit);
  }

  lemma BuildingStarts(hashes: seq<bv32>, bits: seq<bv8>)
    requires bits != [] && bits[|bits| - 1] == 0 && Zeros(bits) == |hashes|
    requires forall j :: 0 <= j < |hashes| ==> hashes[j] == 0
    ensures Building(hashes, bits, 0, 0, 0)
  {
    hide Words, Zeros;
    LastZeroCounts(bits);
    assert bits[0..] == bits;
    assert hashes[..0] + Words(bits, 0, 0, 0) == Words(bits, 0, 0, 0);
  }

  lemma BuildingInside(hashes: seq<bv32>, bits: seq<bv8>, k: nat, hi: nat, lastBit: bv8)
    requires Building(hashes, bits, k, hi, lastBit) && k < |bits|
    ensures hi < |hashes|
  {
    hide Words, Zeros;
  }

  lemma BuildingEnds(hashes: seq<bv32>, bits: seq<bv8>, hi: nat, lastBit: bv8)
    requires Building(hashes, bits, |bits|, hi, lastBit)
    ensures hashes == Words(bits, 0, 0, 0)
  {
    hide Words, Zeros;
    assert bits[|bits|..] == [];
    WordsNone(lastBit, Current(hashes, hi), Previous(hashes, hi));
    assert hashes[..hi] + [] == hashes;
  }

  lemma WordsNone(lastBit: bv8, word: bv32, last: bv32)
    ensures Words([], lastBit, word, last) == [] && Zeros([]) == 0
  {
  }

  lemma XorZero(h: bv32)
    ensures Xor(h, 0) == h
  {
  }

  method UnpackFingerprint(data: seq<bv8>, fp: FingerprintMessage?) returns (err: Option<DecodeError>)
    modifies fp
    ensures match Decode(data)
            case Success(r) => err == None && (fp != null ==> fp.version == r.version && fp.hashes == r.hashes)
            case Failure(e) => err == Some(e) && (fp != null ==> unchanged(fp))
  {
    hide Unpacked, Merge, Sevens, Cut, Words, Zeros, PackedSize, UnpackedSize, ByteValue, TotalValues;
    if |data| < 4 {
      return Some(TooShort);
    }
    var header := ByteValue(data[0]) * 0x1000000 + ByteValue(data[1]) * 0x10000 + ByteValue(data[2]) * 0x100 + ByteValue(data[3]);
    HeaderFields(data, header);
    var version := header / 0x1000000 % 256;
    var totalValues := header % 0x1000000;
    if totalValues == 0 {
      return Some(Empty);
    }

    var bits := UnpackUint3Slice(data[4..]);
    ghost var all := bits[..];
    var found, size, numExceptionalBits := ScanNormalBits(bits, totalValues);
    if !found {
      return Some(NormalBitsMissing);
    }
    CutFitsData(size, |data| - 4);
    var offset := 4 + PackedSize(size, 3);
    ghost var exceptional := Unpacked(data[offset..], 5);
    if numExceptionalBits > 0 {
      var exceptionalBits := UnpackUint5Slice(data[offset..]);
      if exceptionalBits.Length < numExceptionalBits {
        return Some(ExceptionalBitsMissing);
      }
      AddExceptions(bits, size, exceptionalBits[..]);
    } else {
      MergeNothing(all[..size], exceptional);
    }
    assert bits[..size] == Merge(all[..size], exceptional);

    if fp != null {
      CutLast(all, totalValues);
      CutZeros(all, totalValues);
      MergeLast(all[..size], exceptional);
      Unpacked5Small(data[offset..]);
      MergeZeros(all[..size], exceptional);
      var hashes := BuildHashes(bits[..size], totalValues);
      fp.version, fp.hashes := version, hashes[..];
    }
    err := None;
  }

  lemma HeaderFields(data: seq<bv8>, header: nat)
    requires |data| >= 4
    requires header == ByteValue(data[0]) * 0x1000000 + ByteValue(data[1]) * 0x10000 + ByteValue(data[2]) * 0x100 + ByteValue(data[3])
    ensures header / 0x1000000 % 256 == ByteValue(data[0]) && header % 0x1000000 == TotalValues(data)
  {
    hide ByteValue;
    HeaderDigits(ByteValue(data[0]), ByteValue(data[1]), ByteValue(data[2]), ByteValue(data[3]));
  }

  lemma HeaderDigits(a: nat, b: nat, c: nat, d: nat)
    requires a < 256 && b < 256 && c < 256 && d < 256
    ensures var header := a * 0x1000000 + b * 0x10000 + c * 0x100 + d;
            header / 0x1000000 % 256 == a && header % 0x1000000 == b * 0x10000 + c * 0x100 + d
  {
  }

  method ParseFingerprint(data: seq<bv8>) returns (fp: FingerprintMessage, err: Option<DecodeError>)
    ensures fresh(fp)
    ensures match Decode(data)
            case Success(r) => err == None && fp.version == r.version && fp.hashes == r.hashes
            case Failure(e) => err == Some(e)
  {
    fp := new FingerprintMessage;
    err := UnpackFingerprint(data, fp);
  }

  /** Validation accepts exactly what parsing accepts, although it skips rebuilding the hashes. */
  method ValidateFingerprint(data: seq<bv8>) returns (ok: bool)
    ensures ok == Decode(data).Success?
  {
    var err := UnpackFingerprint(data, null);
    ok := err == None;
  }
}
