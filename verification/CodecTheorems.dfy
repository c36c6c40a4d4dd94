/** Round trip and meaning of the compressed fingerprint format. */
module CodecTheorems {
  import opened Bits
  import opened Bytes
  import opened Pack
  import opened Codec
  import opened Results

  // ---- Layer 1: filling in the gaps rebuilds the word ----

  /** Bits `bit - 1` and up are those of `value`. */
  predicate Fitting(value: bv32, bit: bv8) {
    1 <= bit <= 33 && value >> (33 - bit) == 0
  }

  /** `word` with the bits of `value` above the first `shift` positions. */
  function Placed(value: bv32, shift: bv8, word: bv32): bv32
    requires shift <= 32
  {
    word | (value << shift)
  }

  lemma PlacedZero(shift: bv8, word: bv32)
    requires shift <= 32
    ensures Placed(0, shift, word) == word
  {
  }

  lemma FittingStep(value: bv32, bit: bv8)
    requires Fitting(value, bit) && value != 0
    ensures 1 <= bit <= 32 && Fitting(value >> 1, bit + 1)
  {
  }

  lemma SkipBit(value: bv32, bit: bv8, word: bv32)
    requires 1 <= bit <= 32 && value & 1 == 0
    ensures word | (value << (bit - 1)) == word | ((value >> 1) << bit)
  {
  }

  lemma TakeBit(value: bv32, bit: bv8, word: bv32)
    requires 1 <= bit <= 32 && value & 1 != 0
    ensures word | (value << (bit - 1)) == (word | (1 << (bit - 1))) | ((value >> 1) << bit)
  {
  }

  lemma SetBitInside(word: bv32, p: bv8)
    requires 1 <= p <= 32
    ensures SetBit(word, p) == word | (1 << (p - 1))
  {
  }

  lemma PlacedSkip(value: bv32, bit: bv8, word: bv32)
    requires 1 <= bit <= 32 && value & 1 == 0
    ensures Placed(value, bit - 1, word) == Placed(value >> 1, bit, word)
  {
    SkipBit(value, bit, word);
  }

  lemma PlacedTake(value: bv32, bit: bv8, word: bv32)
    requires 1 <= bit <= 32 && value & 1 != 0
    ensures Placed(value, bit - 1, word) == Placed(value >> 1, bit, word | (1 << (bit - 1)))
  {
    TakeBit(value, bit, word);
  }

  lemma GapSum(bit: bv8, lastBit: bv8)
    requires lastBit < bit <= 32
    ensures Advance(lastBit, bit - lastBit) == bit && 1 <= bit - lastBit <= 32
    ensures bit < bit + 1 && lastBit < bit + 1
  {
  }

  lemma FillCons(g: bv8, lastBit: bv8, rest: seq<bv8>, word: bv32)
    ensures var p := Advance(lastBit, g);
            Fill([g] + rest, lastBit, word) == Fill(rest, p, SetBit(word, p))
  {
    hide Advance, SetBit;
    assert ([g] + rest)[1..] == rest;
  }

  lemma {:induction false} FillGaps(value: bv32, bit: bv8, lastBit: bv8, word: bv32)
    requires Fitting(value, bit) && lastBit < bit
    ensures Fill(Gaps(value, bit, lastBit), lastBit, word) == Placed(value, bit - 1, word)
    decreases value
  {
    hide Advance, SetBit, Placed;
    if value == 0 {
      PlacedZero(bit - 1, word);
    } else {
      FittingStep(value, bit);
      GapSum(bit, lastBit);
      if value & 1 != 0 {
        PlacedTake(value, bit, word);
        SetBitInside(word, bit);
        FillCons(bit - lastBit, lastBit, Gaps(value >> 1, bit + 1, bit), word);
        FillGaps(value >> 1, bit + 1, bit, SetBit(word, bit));
      } else {
        PlacedSkip(value, bit, word);
        FillGaps(value >> 1, bit + 1, lastBit, word);
      }
    }
  }

  /** Every gap is between 1 and 32, so none can be mistaken for the closing zero. */
  predicate IsGap(g: bv8) { 1 <= g <= 32 }

  lemma {:induction false} GapsInRange(value: bv32, bit: bv8, lastBit: bv8)
    requires Fitting(value, bit) && lastBit < bit
    ensures forall i :: 0 <= i < |Gaps(value, bit, lastBit)| ==> IsGap(Gaps(value, bit, lastBit)[i])
    decreases value
  {
    hide Fitting;
    if value != 0 {
      FittingStep(value, bit);
      GapSum(bit, lastBit);
      GapsInRange(value >> 1, bit + 1, if value & 1 != 0 then bit else lastBit);
    }
  }

  // ---- Layer 2: the symbols of all words ----

  /** A run of nonzero symbols and its closing zero make one word. */
  lemma {:induction false} WordsOfGroup(gaps: seq<bv8>, rest: seq<bv8>, lastBit: bv8, word: bv32, last: bv32)
    requires forall i :: 0 <= i < |gaps| ==> gaps[i] != 0
    ensures var h := Xor(Fill(gaps, lastBit, word), last);
            Words(gaps + [0] + rest, lastBit, word, last) == [h] + Words(rest, 0, 0, h)
    decreases |gaps|
  {
    hide Advance, SetBit, Xor;
    var symbols := gaps + [0] + rest;
    if gaps == [] {
      assert symbols[1..] == rest;
    } else {
      var p := Advance(lastBit, gaps[0]);
      assert symbols[1..] == gaps[1..] + [0] + rest;
      WordsOfGroup(gaps[1..], rest, p, SetBit(word, p), last);
    }
  }

  lemma XorBack(h: bv32, last: bv32)
    ensures Xor(Xor(h, last), last) == h
  {
  }

  lemma WholeWord(value: bv32)
    ensures Fitting(value, 1) && Placed(value, 0, 0) == value
  {
  }

  lemma {:induction false} WordsOfSymbols(hashes: seq<bv32>, last: bv32)
    ensures Words(Symbols(hashes, last), 0, 0, last) == hashes
    decreases |hashes|
  {
    hide Advance, SetBit, Placed, Fitting, Xor;
    if hashes != [] {
      var delta := Xor(hashes[0], last);
      XorBack(hashes[0], last);
      WholeWord(delta);
      FillGaps(delta, 1, 0, 0);
      GapsInRange(delta, 1, 0);
      WordsOfGroup(Gaps(delta, 1, 0), Symbols(hashes[1..], hashes[0]), 0, 0, last);
      WordsOfSymbols(hashes[1..], hashes[0]);
    }
  }

  /** What the encoder emits: gaps and exactly one closing zero a hash, the last symbol being a zero. */
  predicate IsSymbol(s: bv8) { s <= 32 }

  function Zeros(symbols: seq<bv8>): nat {
    if symbols == [] then 0 else (if symbols[0] == 0 then 1 else 0) + Zeros(symbols[1..])
  }

  lemma {:induction false} ZerosConcat(a: seq<bv8>, b: seq<bv8>)
    ensures Zeros(a + b) == Zeros(a) + Zeros(b)
    decreases |a|
  {
    if a == [] {
      assert a + b == b;
    } else {
      assert (a + b)[1..] == a[1..] + b;
      ZerosConcat(a[1..], b);
    }
  }

  lemma {:induction false} NoZeros(gaps: seq<bv8>)
    requires forall i :: 0 <= i < |gaps| ==> gaps[i] != 0
    ensures Zeros(gaps) == 0
    decreases |gaps|
  {
    if gaps != [] {
      NoZeros(gaps[1..]);
    }
  }

  lemma {:induction false} SymbolsShape(hashes: seq<bv32>, last: bv32)
    ensures Zeros(Symbols(hashes, last)) == |hashes|
    ensures forall i :: 0 <= i < |Symbols(hashes, last)| ==> IsSymbol(Symbols(hashes, last)[i])
    ensures hashes != [] ==> var s := Symbols(hashes, last); s != [] && s[|s| - 1] == 0
    decreases |hashes|
  {
    hide Fitting, Xor, Gaps;
    if hashes != [] {
      var delta := Xor(hashes[0], last);
      var gaps, rest := Gaps(delta, 1, 0), Symbols(hashes[1..], hashes[0]);
      WholeWord(delta);
      GapsInRange(delta, 1, 0);
      NoZeros(gaps);
      SymbolsShape(hashes[1..], hashes[0]);
      ZerosConcat(gaps, [0]);
      ZerosConcat(gaps + [0], rest);
    }
  }

  // ---- Layer 3: escaping ----

  lemma Escape(s: bv8)
    ensures Restored(Excess(s)) == s
    ensures s == 7 ==> Large(s)
    ensures IsSymbol(s) && Large(s) ==> Excess(s) < 32
    ensures !Large(s) ==> s < 8
  {
  }

  lemma {:induction false} SevensOfNormal(symbols: seq<bv8>)
    ensures Sevens(Normal(symbols)) == |Exceptional(symbols)|
    decreases |symbols|
  {
    hide Excess, Large;
    if symbols != [] {
      assert Normal(symbols)[1..] == Normal(symbols[1..]);
      SevensOfNormal(symbols[1..]);
      Escape(symbols[0]);
    }
  }

  lemma {:induction false} MergeBack(symbols: seq<bv8>, rest: seq<bv8>)
    ensures Sevens(Normal(symbols)) == |Exceptional(symbols)|
    ensures Merge(Normal(symbols), Exceptional(symbols) + rest) == symbols
    decreases |symbols|
  {
    hide Restored, Excess, Large, Sevens;
    SevensOfNormal(symbols);
    if symbols != [] {
      var tail := symbols[1..];
      MergeBack(tail, rest);
      Escape(symbols[0]);
      var normal, all := Normal(symbols), Exceptional(symbols) + rest;
      assert normal[1..] == Normal(tail);
      if Large(symbols[0]) {
        assert all[0] == Excess(symbols[0]) && all[1..] == Exceptional(tail) + rest;
      } else {
        assert all == Exceptional(tail) + rest;
      }
    }
  }

  lemma {:induction false} ExceptionalFits(symbols: seq<bv8>)
    requires forall i :: 0 <= i < |symbols| ==> IsSymbol(symbols[i])
    ensures Fits(Exceptional(symbols), 5)
    decreases |symbols|
  {
    hide Excess, Large, Mask8, IsSymbol;
    Masks8();
    if symbols != [] {
      Escape(symbols[0]);
      ExceptionalFits(symbols[1..]);
    }
  }

  lemma {:induction false} NormalFits(symbols: seq<bv8>)
    ensures Fits(Normal(symbols), 3)
    ensures Zeros(Normal(symbols)) == Zeros(symbols)
    decreases |symbols|
  {
    hide Large, Mask8;
    Masks8();
    if symbols != [] {
      Escape(symbols[0]);
      assert Normal(symbols)[1..] == Normal(symbols[1..]);
      NormalFits(symbols[1..]);
    }
  }

  // ---- Layer 4: finding the end of the normal bits ----

  lemma {:induction false} CutAtEnd(bits: seq<bv8>, rest: seq<bv8>, n: nat)
    requires 0 < n == Zeros(bits) && bits[|bits| - 1] == 0
    ensures Cut(bits + rest, n) == Some(|bits|)
    decreases |bits|
  {
    assert (bits + rest)[1..] == bits[1..] + rest;
    if |bits| == 1 {
    } else {
      assert bits[1..][|bits| - 2] == 0;
      LastZeroCounts(bits[1..]);
      CutAtEnd(bits[1..], rest, if bits[0] == 0 then n - 1 else n);
    }
  }

  lemma {:induction false} LastZeroCounts(bits: seq<bv8>)
    requires bits != [] && bits[|bits| - 1] == 0
    ensures Zeros(bits) > 0
  {
    var k := |bits| - 1;
    assert bits == bits[..k] + [0];
    ZerosConcat(bits[..k], [0]);
  }

  lemma {:induction false} CutZeros(bits: seq<bv8>, n: nat)
    requires 0 < n && Cut(bits, n).Some?
    ensures Zeros(bits[..Cut(bits, n).value]) == n
    decreases |bits|
  {
    var k := Cut(bits, n).value;
    if k > 1 {
      CutZeros(bits[1..], if bits[0] == 0 then n - 1 else n);
      assert bits[..k][1..] == bits[1..][..k - 1];
    } else if bits[0] != 0 || n != 1 {
      assert false;
    }
  }

  // ---- The theorems ----

  /** There is nothing to cut exactly if there are too few zeros. */
  lemma {:induction false} CutNone(bits: seq<bv8>, n: nat)
    requires 0 < n
    ensures Cut(bits, n).None? <==> Zeros(bits) < n
    decreases |bits|
  {
    if bits != [] && !(bits[0] == 0 && n == 1) {
      CutNone(bits[1..], if bits[0] == 0 then n - 1 else n);
    }
  }

  lemma HeaderBack(version: int, n: nat, rest: seq<bv8>)
    ensures var data := Header(version, n) + rest;
            ByteValue(data[0]) == version % 256 && TotalValues(data) == n % 0x1000000
  {
    hide Byte, ByteValue;
    var data := Header(version, n) + rest;
    assert data[0] == Byte(version) && data[1] == Byte(n / 0x10000) && data[2] == Byte(n / 0x100) && data[3] == Byte(n);
    ByteBack(version);
    ByteBack(n / 0x10000);
    ByteBack(n / 0x100);
    ByteBack(n);
    Digits(n);
  }

  lemma Digits(n: nat)
    ensures n / 0x10000 % 256 * 0x10000 + n / 0x100 % 256 * 0x100 + n % 256 == n % 0x1000000
  {
    var a := n / 256;
    var b := a / 256;
    assert b == n / 0x10000 && b / 256 == n / 0x1000000;
  }

  /** Decoding what was encoded, whatever bytes follow: the version comes back modulo 256, the hashes unchanged. */
  lemma RoundTrip(fp: Fingerprint, rest: seq<bv8>)
    requires 0 < |fp.hashes| < 0x1000000
    ensures Decode(Encode(fp) + rest) == Success(Fingerprint(fp.version % 256, fp.hashes))
  {
    hide Header, Packed, Unpacked, Normal, Exceptional, Symbols, Merge, Words, Sevens, Cut, PackedSize, TotalValues, Fits;
    var n := |fp.hashes|;
    var symbols := Symbols(fp.hashes, 0);
    var normal, exceptional := Normal(symbols), Exceptional(symbols);
    var header, p3, p5 := Header(fp.version, n), Packed(normal, 3), Packed(exceptional, 5);
    var data := Encode(fp) + rest;

    assert |header| == 4 by { HeaderLength(fp.version, n); }
    assert data == header + (p3 + (p5 + rest));
    HeaderBack(fp.version, n, p3 + (p5 + rest));
    assert TotalValues(data) == n;

    SymbolsShape(fp.hashes, 0);
    NormalFits(symbols);
    ExceptionalFits(symbols);

    assert data[4..] == p3 + (p5 + rest);
    UnpackPack(normal, 3, p5 + rest);
    var bits := Unpacked(data[4..], 3);
    assert bits == normal + bits[|normal|..];
    NormalEndsWithZero(symbols);
    CutAtEnd(normal, bits[|normal|..], n);
    assert bits[..|normal|] == normal;

    assert data[4 + PackedSize(|normal|, 3)..] == p5 + rest;
    UnpackPack(exceptional, 5, rest);
    var es := Unpacked(p5 + rest, 5);
    assert es == exceptional + es[|exceptional|..];
    MergeBack(symbols, es[|exceptional|..]);
    WordsOfSymbols(fp.hashes, 0);
  }

  lemma HeaderLength(version: int, n: nat)
    ensures |Header(version, n)| == 4
  {
  }

  lemma CutFitsData(n: nat, size: nat)
    requires n <= UnpackedSize(size, 3)
    ensures PackedSize(n, 3) <= size
  {
  }

  lemma NormalEndsWithZero(symbols: seq<bv8>)
    requires symbols != [] && symbols[|symbols| - 1] == 0
    ensures Normal(symbols)[|symbols| - 1] == 0
  {
  }

  lemma {:induction false} WordsCount(symbols: seq<bv8>, lastBit: bv8, word: bv32, last: bv32)
    ensures |Words(symbols, lastBit, word, last)| == Zeros(symbols)
    decreases |symbols|
  {
    hide Advance, SetBit, Xor;
    if symbols != [] {
      if symbols[0] == 0 {
        WordsCount(symbols[1..], 0, 0, Xor(word, last));
      } else {
        var p := Advance(lastBit, symbols[0]);
        WordsCount(symbols[1..], p, SetBit(word, p), last);
      }
    }
  }

  /** Filling in exceptions keeps the zeros where they are: a restored gap is never zero. */
  lemma {:induction false} MergeZeros(normal: seq<bv8>, exceptional: seq<bv8>)
    requires Sevens(normal) <= |exceptional|
    requires forall i :: 0 <= i < |exceptional| ==> exceptional[i] < 32
    ensures Zeros(Merge(normal, exceptional)) == Zeros(normal)
    decreases |normal|
  {
    hide Restored;
    if normal != [] {
      if normal[0] == 7 {
        RestoredNonzero(exceptional[0]);
        MergeZeros(normal[1..], exceptional[1..]);
      } else {
        MergeZeros(normal[1..], exceptional);
      }
    }
  }

  lemma RestoredNonzero(e: bv8)
    requires e < 32
    ensures Restored(e) != 0
  {
  }

  /** On arbitrary bytes: an accepted input yields exactly as many hashes as its header announces. */
  lemma DecodeCount(data: seq<bv8>)
    requires Decode(data).Success?
    ensures |data| >= 4 && Decode(data).value.version == ByteValue(data[0])
    ensures |Decode(data).value.hashes| == TotalValues(data) > 0
  {
    hide Unpacked, Merge, Words, Cut, Sevens, PackedSize, TotalValues;
    var bits := Unpacked(data[4..], 3);
    var n := Cut(bits, TotalValues(data)).value;
    assert PackedSize(n, 3) <= |data| - 4 by { CutFitsData(n, |data| - 4); }
    var normal, exceptional := bits[..n], Unpacked(data[4 + PackedSize(n, 3)..], 5);
    CutZeros(bits, TotalValues(data));
    Unpacked5Small(data[4 + PackedSize(n, 3)..]);
    MergeZeros(normal, exceptional);
    WordsCount(Merge(normal, exceptional), 0, 0, 0);
  }

  lemma Unpacked5Small(data: seq<bv8>)
    ensures forall i :: 0 <= i < |Unpacked(data, 5)| ==> Unpacked(data, 5)[i] < 32
  {
    hide Unpacked;
    UnpackedFits(data, 5);
    Masks8();
  }

  lemma TotalBound(data: seq<bv8>)
    requires |data| >= 4
    ensures TotalValues(data) < 0x1000000
  {
    hide ByteValue;
  }

  /** The decoder undoes the encoder exactly on the fingerprints whose version and length fit the header. */
  lemma RoundTripIff(fp: Fingerprint)
    ensures Decode(Encode(fp)) == Success(fp) <==> 0 <= fp.version < 256 && 0 < |fp.hashes| < 0x1000000
  {
    hide Decode, Encode, TotalValues;
    if 0 < |fp.hashes| < 0x1000000 {
      RoundTrip(fp, []);
      assert Encode(fp) + [] == Encode(fp);
    }
    if Decode(Encode(fp)) == Success(fp) {
      DecodeCount(Encode(fp));
      TotalBound(Encode(fp));
    }
  }

  /** When the decoder fails, and how: the data are shorter than the header; it announces no hashes; there are fewer zeros
      among the 3-bit values than announced; or there are fewer 5-bit values than sevens up to the last of these zeros. */
  lemma DecodeErrors(data: seq<bv8>)
    ensures Decode(data) == Failure(TooShort) <==> |data| < 4
    ensures Decode(data) == Failure(Empty) <==> |data| >= 4 && TotalValues(data) == 0
    ensures Decode(data) == Failure(NormalBitsMissing) <==>
            |data| >= 4 && TotalValues(data) > 0 && Zeros(Unpacked(data[4..], 3)) < TotalValues(data)
    ensures Decode(data) == Failure(ExceptionalBitsMissing) <==>
            |data| >= 4 && 0 < TotalValues(data) <= Zeros(Unpacked(data[4..], 3)) && exists n: nat ::
              LastNeeded(Unpacked(data[4..], 3), TotalValues(data), n) && PackedSize(n, 3) <= |data| - 4 &&
              |Unpacked(data[4 + PackedSize(n, 3)..], 5)| < Sevens(Unpacked(data[4..], 3)[..n])
  {
    hide Unpacked, Cut, Zeros, Sevens, TotalValues, PackedSize, Words, Merge;
    if |data| >= 4 && TotalValues(data) > 0 {
      var bits := Unpacked(data[4..], 3);
      CutNone(bits, TotalValues(data));
      if Cut(bits, TotalValues(data)).Some? {
        var n := Cut(bits, TotalValues(data)).value;
        CutFitsData(n, |data| - 4);
        CutZeros(bits, TotalValues(data));
        CutLast(bits, TotalValues(data));
        forall m: nat | LastNeeded(bits, TotalValues(data), m)
          ensures m == n
        {
          LastNeededOnce(bits, TotalValues(data), m, n);
        }
        assert LastNeeded(bits, TotalValues(data), n);
      }
    }
  }

  /** The first `n` values hold `zeros` zeros and end with one. */
  predicate LastNeeded(bits: seq<bv8>, zeros: nat, n: nat) {
    0 < n <= |bits| && bits[n - 1] == 0 && Zeros(bits[..n]) == zeros
  }

  lemma LastNeededOnce(bits: seq<bv8>, zeros: nat, m: nat, n: nat)
    requires LastNeeded(bits, zeros, m) && LastNeeded(bits, zeros, n)
    ensures m == n
  {
    if m < n {
      ZerosUpTo(bits, m, n);
    } else if n < m {
      ZerosUpTo(bits, n, m);
    }
  }

  lemma ZerosUpTo(bits: seq<bv8>, m: nat, n: nat)
    requires m < n <= |bits| && bits[n - 1] == 0
    ensures Zeros(bits[..n]) > Zeros(bits[..m])
  {
    hide Zeros;
    assert bits[..n] == bits[..m] + bits[m..n];
    ZerosConcat(bits[..m], bits[m..n]);
    LastZeroCounts(bits[m..n]);
  }

  /** Re-encoding anything the decoder accepts, and decoding again, gives the same fingerprint. */
  lemma Reencode(data: seq<bv8>, fp: Fingerprint)
    requires Decode(data) == Success(fp)
    ensures Decode(Encode(fp)) == Success(fp)
  {
    hide Decode, Encode, TotalValues, ByteValue;
    DecodeCount(data);
    TotalBound(data);
    RoundTripIff(fp);
  }

  // ---- What the decoder's output means, on any accepted input ----

  /** Position of the last of `gaps`, counted in uint8 from `lastBit`. */
  function Position(lastBit: bv8, gaps: seq<bv8>): bv8
    decreases gaps
  {
    if gaps == [] then lastBit else Position(Advance(lastBit, gaps[0]), gaps[1..])
  }

  predicate HasPosition(word: bv32, p: bv8)
    requires 1 <= p <= 32
  {
    word & (1 << (p - 1)) != 0
  }

  lemma OrHas(word: bv32, q: bv8, p: bv8)
    requires 1 <= p <= 32 && 1 <= q <= 32
    ensures ((word | (1 << (q - 1))) & (1 << (p - 1)) != 0) == (word & (1 << (p - 1)) != 0 || q == p)
  {
  }

  lemma SetBitOutside(word: bv32, q: bv8)
    requires !(1 <= q <= 32)
    ensures SetBit(word, q) == word
  {
  }

  lemma SetBitHas(word: bv32, q: bv8, p: bv8)
    requires 1 <= p <= 32
    ensures HasPosition(SetBit(word, q), p) == (HasPosition(word, p) || q == p)
  {
    hide SetBit;
    if 1 <= q <= 32 {
      SetBitInside(word, q);
      OrHas(word, q, p);
    } else {
      SetBitOutside(word, q);
    }
  }

  ghost predicate Reaches(lastBit: bv8, gaps: seq<bv8>, p: bv8) {
    exists k :: 0 < k <= |gaps| && Position(lastBit, gaps[..k]) == p
  }

  lemma {:induction false} ReachesStep(lastBit: bv8, gaps: seq<bv8>, p: bv8)
    requires gaps != []
    ensures Reaches(lastBit, gaps, p) ==
            (Advance(lastBit, gaps[0]) == p || Reaches(Advance(lastBit, gaps[0]), gaps[1..], p))
  {
    hide Advance;
    var q := Advance(lastBit, gaps[0]);
    forall k | 0 < k <= |gaps|
      ensures Position(lastBit, gaps[..k]) == Position(q, gaps[1..][..k - 1])
    {
      assert gaps[..k][1..] == gaps[1..][..k - 1];
    }
    assert Position(q, gaps[1..][..0]) == q;
    if Advance(lastBit, gaps[0]) == p {
      assert Position(lastBit, gaps[..1]) == p;
    }
    if Reaches(q, gaps[1..], p) {
      var k :| 0 < k <= |gaps[1..]| && Position(q, gaps[1..][..k]) == p;
      assert Position(lastBit, gaps[..k + 1]) == p;
    }
  }

  /** A position is set in the filled word exactly when some running sum of the gaps reaches it. */
  lemma {:induction false} FillMeaning(gaps: seq<bv8>, lastBit: bv8, word: bv32, p: bv8)
    requires 1 <= p <= 32
    ensures HasPosition(Fill(gaps, lastBit, word), p) == (HasPosition(word, p) || Reaches(lastBit, gaps, p))
    decreases |gaps|
  {
    hide Advance, SetBit, HasPosition;
    if gaps != [] {
      var q := Advance(lastBit, gaps[0]);
      ReachesStep(lastBit, gaps, p);
      SetBitHas(word, q, p);
      FillMeaning(gaps[1..], q, SetBit(word, q), p);
    }
  }

  function Closed(groups: seq<seq<bv8>>): seq<bv8> {
    if groups == [] then [] else groups[0] + [0] + Closed(groups[1..])
  }

  predicate NoZero(group: seq<bv8>) {
    forall i :: 0 <= i < |group| ==> group[i] != 0
  }

  predicate Grouped(groups: seq<seq<bv8>>) {
    forall i :: 0 <= i < |groups| ==> NoZero(groups[i])
  }

  /** The XOR of two neighbouring hashes is the word filled in from their group of gaps. */
  ghost predicate DeltasAre(hashes: seq<bv32>, last: bv32, groups: seq<seq<bv8>>) {
    |hashes| == |groups| &&
    forall i :: 0 <= i < |hashes| ==>
      Xor(hashes[i], if i == 0 then last else hashes[i - 1]) == Fill(groups[i], 0, 0)
  }

  lemma {:induction false} WordsOfGroups(groups: seq<seq<bv8>>, last: bv32)
    requires Grouped(groups)
    ensures DeltasAre(Words(Closed(groups), 0, 0, last), last, groups)
    decreases |groups|
  {
    hide Fill, Xor;
    if groups != [] {
      var rest := Closed(groups[1..]);
      assert NoZero(groups[0]);
      WordsOfGroup(groups[0], rest, 0, 0, last);
      var h := Xor(Fill(groups[0], 0, 0), last);
      XorBack(Fill(groups[0], 0, 0), last);
      WordsOfGroups(groups[1..], h);
      var hashes, tail := Words(Closed(groups), 0, 0, last), Words(rest, 0, 0, h);
      assert hashes == [h] + tail;
      forall i | 0 < i < |hashes|
        ensures Xor(hashes[i], hashes[i - 1]) == Fill(groups[i], 0, 0)
      {
        var j := i - 1;
        assert Xor(tail[j], if j == 0 then h else tail[j - 1]) == Fill(groups[1..][j], 0, 0);
        assert groups[i] == groups[1..][j] && hashes[i] == tail[j];
        assert hashes[i - 1] == if i == 1 then h else tail[i - 2];
      }
    }
  }

  /** Symbols that end with a zero are a sequence of closed groups. */
  lemma {:induction false} SplitGroups(symbols: seq<bv8>, group: seq<bv8>) returns (groups: seq<seq<bv8>>)
    requires symbols != [] && symbols[|symbols| - 1] == 0 && NoZero(group)
    ensures Grouped(groups) && Closed(groups) == group + symbols
    decreases |symbols|
  {
    var rest := symbols[1..];
    if symbols[0] == 0 {
      if rest == [] {
        groups := [group];
        assert Closed(groups[1..]) == [];
        assert group + symbols == group + [0] + [];
      } else {
        groups := SplitGroups(rest, []);
        assert ([group] + groups)[1..] == groups;
        assert group + symbols == group + [0] + ([] + rest);
        groups := [group] + groups;
      }
    } else {
      groups := SplitGroups(rest, group + [symbols[0]]);
      assert group + [symbols[0]] + rest == group + symbols;
    }
  }

  lemma {:induction false} CutLast(bits: seq<bv8>, n: nat)
    requires 0 < n && Cut(bits, n).Some?
    ensures bits[Cut(bits, n).value - 1] == 0
    decreases |bits|
  {
    if !(bits[0] == 0 && n == 1) {
      CutLast(bits[1..], if bits[0] == 0 then n - 1 else n);
    }
  }

  lemma {:induction false} MergeLast(normal: seq<bv8>, exceptional: seq<bv8>)
    requires normal != [] && normal[|normal| - 1] == 0 && Sevens(normal) <= |exceptional|
    ensures Merge(normal, exceptional)[|normal| - 1] == 0
    decreases |normal|
  {
    hide Restored;
    if |normal| > 1 {
      MergeLast(normal[1..], if normal[0] == 7 then exceptional[1..] else exceptional);
    }
  }

  /** The symbols an accepted input carries: its 3-bit values with the 5-bit exceptions put back. */
  function SymbolsIn(data: seq<bv8>): seq<bv8>
    requires Decode(data).Success?
  {
    var bits := Unpacked(data[4..], 3);
    var n := Cut(bits, TotalValues(data)).value;
    assert PackedSize(n, 3) <= |data| - 4 by { CutFitsData(n, |data| - 4); }
    Merge(bits[..n], Unpacked(data[4 + PackedSize(n, 3)..], 5))
  }

  /** On arbitrary accepted bytes: the symbols fall into closed groups, one a hash, and bit `p - 1` of the XOR
      of a hash with its predecessor is set exactly when a running sum of its group, modulo 256, is `p`. */
  lemma DecodeMeaning(data: seq<bv8>) returns (groups: seq<seq<bv8>>)
    requires Decode(data).Success?
    ensures Grouped(groups) && Closed(groups) == SymbolsIn(data)
    ensures var hashes := Decode(data).value.hashes;
            && |hashes| == |groups|
            && forall i, p: bv8 | 0 <= i < |hashes| && 1 <= p <= 32 ::
                 HasPosition(Xor(hashes[i], if i == 0 then 0 else hashes[i - 1]), p) == Reaches(0, groups[i], p)
  {
    hide Merge, Unpacked, Sevens, Cut, TotalValues, Fill, Xor, HasPosition, Words, PackedSize, Reaches;
    var bits := Unpacked(data[4..], 3);
    var n := Cut(bits, TotalValues(data)).value;
    CutFitsData(n, |data| - 4);
    CutLast(bits, TotalValues(data));
    MergeLast(bits[..n], Unpacked(data[4 + PackedSize(n, 3)..], 5));
    groups := SplitGroups(SymbolsIn(data), []);
    assert [] + SymbolsIn(data) == SymbolsIn(data);
    WordsOfGroups(groups, 0);
    forall i, p: bv8 | 0 <= i < |groups| && 1 <= p <= 32
      ensures HasPosition(Fill(groups[i], 0, 0), p) == Reaches(0, groups[i], p)
    {
      FillMeaning(groups[i], 0, 0, p);
      NoPosition(p);
    }
  }

  lemma NoPosition(p: bv8)
    requires 1 <= p <= 32
    ensures !HasPosition(0, p)
  {
  }
}
