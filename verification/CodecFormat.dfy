/** The fingerprint format in numbers: which bytes the encoder writes, that none of them is superfluous, and what each
    symbol of accepted bytes is worth. */
module CodecFormat {
  import opened Arithmetic
  import opened Bits
  import opened Bytes
  import opened Pack
  import opened PackNumbers
  import opened PopCount
  import opened Results
  import opened Codec
  import opened CodecTheorems

  // ---- No byte is superfluous ----

  /** The values unpacked from a part of the bytes are the first of those unpacked from all of them. */
  lemma UnpackPart(data: seq<bv8>, p: nat, w: nat)
    requires 0 < w < 8 && p <= |data|
    ensures UnpackedSize(p, w) <= UnpackedSize(|data|, w)
    ensures Unpacked(data[..p], w) == Unpacked(data, w)[..UnpackedSize(p, w)]
  {
    hide Field;
    var n := UnpackedSize(p, w);
    SizeGrows(p, |data|, w);
    forall i | 0 <= i < n
      ensures Unpacked(data[..p], w)[i] == Unpacked(data, w)[i]
    {
      FieldPart(data, p, w, i);
    }
  }

  lemma SizeGrows(p: nat, q: nat, w: nat)
    requires 0 < w && p <= q
    ensures UnpackedSize(p, w) <= UnpackedSize(q, w)
  {
    var a, b := p * 8 / w, q * 8 / w;
    assert a * w <= p * 8 <= q * 8 < b * w + w;
    MulSign(a - b, w);
  }

  lemma FieldBitPart(data: seq<bv8>, p: nat, w: nat, i: nat, t: nat)
    requires 0 < w < 8 && p <= |data| && i < UnpackedSize(p, w)
    ensures FieldBit(data[..p], 8, w * i, w, t) == FieldBit(data, 8, w * i, w, t)
  {
    hide StreamBit;
    if t < w {
      MulSign(UnpackedSize(p, w) - i, w);
      assert data[..p] + data[p..] == data;
      StreamBitPrefix(data[..p], data[p..], 8, w * i + t);
    }
  }

  lemma FieldPart(data: seq<bv8>, p: nat, w: nat, i: nat)
    requires 0 < w < 8 && p <= |data| && i < UnpackedSize(p, w)
    ensures Field(data[..p], 8, w * i, w) == Field(data, 8, w * i, w)
  {
    hide Word8, FieldBit;
    forall t: nat
      ensures FieldBit(data[..p], 8, w * i, w, t) == FieldBit(data, 8, w * i, w, t)
    {
      FieldBitPart(data, p, w, i, t);
    }
  }

  lemma FewerFields(n: nat, w: nat, size: nat)
    requires 0 < w < 8 && size < PackedSize(n, w)
    ensures UnpackedSize(size, w) < n
  {
    var q := size * 8 / w;
    assert q * w <= size * 8 < n * w;
    MulSign(q - n, w);
  }

  /** Cut short anywhere, what the encoder writes is not accepted at all. */
  lemma PrefixFails(fp: Fingerprint, p: nat)
    requires 0 < |fp.hashes| < 0x1000000 && p < |Encode(fp)|
    ensures Decode(Encode(fp)[..p]).Failure?
  {
    hide Header, Packed, Unpacked, Normal, Exceptional, Symbols, Merge, Codec.Words, Sevens, Cut, PackedSize, UnpackedSize, TotalValues, Fits, Zeros;
    var n := |fp.hashes|;
    var symbols := Symbols(fp.hashes, 0);
    var normal, exceptional := Normal(symbols), Exceptional(symbols);
    var header, p3, p5 := Header(fp.version, n), Packed(normal, 3), Packed(exceptional, 5);
    var data, cut := Encode(fp), Encode(fp)[..p];
    if p < 4 {
      return;
    }
    HeaderLength(fp.version, n);
    assert data == header + (p3 + p5) && cut == header + (p3 + p5)[..p - 4];
    HeaderBack(fp.version, n, (p3 + p5)[..p - 4]);
    SymbolsShape(fp.hashes, 0);
    NormalFits(symbols);
    ExceptionalFits(symbols);
    NormalEndsWithZero(symbols);
    UnpackPack(normal, 3, p5);
    UnpackPart(p3 + p5, p - 4, 3);
    var all, bits := Unpacked(p3 + p5, 3), Unpacked(cut[4..], 3);
    assert cut[4..] == (p3 + p5)[..p - 4];
    if p - 4 < PackedSize(|normal|, 3) {
      FewerFields(|normal|, 3, p - 4);
      assert bits == normal[..|bits|];
      assert normal[..|normal|] == normal;
      ZerosUpTo(normal, |bits|, |normal|);
      CutNone(bits, n);
    } else {
      EnoughFields(|normal|, 3, p - 4);
      assert bits == normal + bits[|normal|..];
      CutAtEnd(normal, bits[|normal|..], n);
      assert bits[..|normal|] == normal;
      assert cut[4 + PackedSize(|normal|, 3)..] == p5[..p - 4 - PackedSize(|normal|, 3)];
      FewerFields(|exceptional|, 5, p - 4 - PackedSize(|normal|, 3));
      SevensOfNormal(symbols);
    }
  }

  lemma EnoughFields(n: nat, w: nat, size: nat)
    requires 0 < w < 8 && size >= PackedSize(n, w)
    ensures UnpackedSize(size, w) >= n
  {
    SizeLaws(n, size - PackedSize(n, w), w);
  }

  // ---- What a symbol is worth ----

  /** The positions below `i` at which there is a seven. */
  function SevenPositions(values: seq<bv8>, i: nat): set<nat>
    requires i <= |values|
  {
    set j: nat | j < i && ByteValue(values[j]) == 7
  }

  lemma SevenPositionsNext(values: seq<bv8>, i: nat)
    requires i <= |values|
    ensures i == 0 ==> SevenPositions(values, i) == {}
    ensures i > 0 ==> SevenPositions(values, i) == SevenPositions(values, i - 1) + if ByteValue(values[i - 1]) == 7 then {i - 1} else {}
    ensures i > 0 ==> i - 1 !in SevenPositions(values, i - 1)
  {
    hide ByteValue;
  }

  lemma {:induction false} SevensCount(values: seq<bv8>, i: nat)
    requires i <= |values|
    ensures Sevens(values[..i]) == |SevenPositions(values, i)|
    decreases i
  {
    hide ByteValue, SevenPositions;
    SevenPositionsNext(values, i);
    if i == 0 {
      assert values[..0] == [];
    } else {
      SevensCount(values, i - 1);
      assert values[..i] == values[..i - 1] + [values[i - 1]];
      SevensNext(values[..i - 1], values[i - 1]);
      SevenIs(values[i - 1]);
    }
  }

  lemma {:induction false} SevensNext(values: seq<bv8>, b: bv8)
    ensures Sevens(values + [b]) == Sevens(values) + if b == 7 then 1 else 0
    decreases |values|
  {
    if values != [] {
      assert (values + [b])[1..] == values[1..] + [b];
      SevensNext(values[1..], b);
    } else {
      assert [b][1..] == [];
    }
  }

  lemma SevenIs(b: bv8)
    ensures ByteValue(b) == 7 <==> b == 7
  {
  }

  lemma RestoredNumber(e: bv8)
    requires e < 32
    ensures ByteValue(Restored(e)) == 7 + ByteValue(e)
  {
  }

  lemma {:induction false} MergeAt(normal: seq<bv8>, exceptional: seq<bv8>, i: nat)
    requires Sevens(normal) <= |exceptional| && i < |normal|
    ensures normal[i] == 7 ==> Sevens(normal[..i]) < |exceptional| && Merge(normal, exceptional)[i] == Restored(exceptional[Sevens(normal[..i])])
    ensures normal[i] != 7 ==> Merge(normal, exceptional)[i] == normal[i]
    decreases i
  {
    hide Restored;
    if i > 0 {
      assert normal[..i][1..] == normal[1..][..i - 1];
      MergeAt(normal[1..], if normal[0] == 7 then exceptional[1..] else exceptional, i - 1);
    }
  }

  /** Each symbol of accepted bytes, as a number: the 3-bit value at its place and, where that is seven, plus the 5-bit value
      whose index is the number of sevens before it. The 5-bit values start at the next full byte. */
  lemma SymbolsAre(data: seq<bv8>, i: nat)
    requires Decode(data).Success? && i < |SymbolsIn(data)|
    ensures var n := |SymbolsIn(data)|;
            var low, high := Unpacked(data[4..], 3), if 4 + (3 * n + 7) / 8 <= |data| then Unpacked(data[4 + (3 * n + 7) / 8..], 5) else [];
            && n <= |low| && 4 + (3 * n + 7) / 8 <= |data|
            && (ByteValue(low[i]) != 7 ==> ByteValue(SymbolsIn(data)[i]) == ByteValue(low[i]))
            && (ByteValue(low[i]) == 7 ==>
                  && |SevenPositions(low, i)| < |high|
                  && ByteValue(SymbolsIn(data)[i]) == 7 + ByteValue(high[|SevenPositions(low, i)|]))
  {
    hide Unpacked, Cut, Sevens, Merge, Codec.Words, TotalValues, ByteValue, Restored;
    var bits := Unpacked(data[4..], 3);
    var n := Cut(bits, TotalValues(data)).value;
    CutFitsData(n, |data| - 4);
    var high := Unpacked(data[4 + PackedSize(n, 3)..], 5);
    SevenIs(bits[i]);
    SevensCount(bits, i);
    assert bits[..n][..i] == bits[..i];
    MergeAt(bits[..n], high, i);
    Unpacked5Small(data[4 + PackedSize(n, 3)..]);
    if bits[i] == 7 {
      RestoredNumber(high[Sevens(bits[..i])]);
    }
  }

  /** How many symbols there are: the last one is at the zero that completes the number of hashes in the header, whose four
      bytes are the version and that number, highest byte first. */
  lemma SymbolsEnd(data: seq<bv8>)
    requires Decode(data).Success?
    ensures |data| >= 4 && Decode(data).value.version == ByteValue(data[0])
    ensures var n, low := |SymbolsIn(data)|, Unpacked(data[4..], 3);
            && 0 < n <= |low| && ByteValue(low[n - 1]) == 0
            && |ZeroPositions(low, n)| == ByteValue(data[1]) * 65536 + ByteValue(data[2]) * 256 + ByteValue(data[3])
            && |ZeroPositions(low, n)| == |Decode(data).value.hashes|
  {
    hide Unpacked, Cut, Sevens, Merge, Codec.Words, ByteValue, Zeros;
    var bits := Unpacked(data[4..], 3);
    var n := Cut(bits, TotalValues(data)).value;
    CutFitsData(n, |data| - 4);
    CutZeros(bits, TotalValues(data));
    CutLast(bits, TotalValues(data));
    ZerosCount(bits, n);
    ZeroIs(bits[n - 1]);
    DecodeCount(data);
  }

  function ZeroPositions(values: seq<bv8>, i: nat): set<nat>
    requires i <= |values|
  {
    set j: nat | j < i && ByteValue(values[j]) == 0
  }

  lemma ZeroIs(b: bv8)
    ensures ByteValue(b) == 0 <==> b == 0
  {
  }

  lemma {:induction false} ZerosCount(values: seq<bv8>, i: nat)
    requires i <= |values|
    ensures Zeros(values[..i]) == |ZeroPositions(values, i)|
    decreases i
  {
    hide ByteValue;
    if i == 0 {
      assert ZeroPositions(values, 0) == {};
    } else {
      ZerosCount(values, i - 1);
      assert values[..i] == values[..i - 1] + [values[i - 1]];
      ZerosConcat(values[..i - 1], [values[i - 1]]);
      assert [values[i - 1]][1..] == [];
      ZeroIs(values[i - 1]);
      assert ZeroPositions(values, i) == ZeroPositions(values, i - 1) + if ByteValue(values[i - 1]) == 0 then {i - 1} else {};
    }
  }

  // ---- Which bytes the encoder writes ----

  /** The symbols of a fingerprint are gaps between set bits: as many as there are set bits in the XORs of neighbouring
      hashes, and one zero a hash. */
  function SetBits(hashes: seq<bv32>, last: bv32): nat {
    if hashes == [] then 0 else Ones(Wide(Xor(hashes[0], last)), 32) + SetBits(hashes[1..], hashes[0])
  }

  lemma IndexIncrement(b: bv6)
    requires b < 63
    ensures (b + 1) as nat == b as nat + 1
  {
  }

  lemma IndexThereAndBack(b: bv6)
    ensures (b as nat) as bv6 == b
  {
  }

  lemma IndexLast()
    ensures Index(63) == 63
  {
  }

  lemma IndexNext(n: nat)
    requires 0 < n < 64
    ensures Index(n) == Index(n - 1) + 1 && Index(n) > 0
  {
    var b := Index(n - 1);
    IndexBack(n - 1);
    IndexBack(n);
    IndexBack(0);
    IndexInjective(n, 0);
    IndexInjective(n - 1, 63);
    IndexLast();
    IndexIncrement(b);
    IndexThereAndBack(b + 1);
    IndexThereAndBack(Index(n));
  }

  lemma ShiftedBit(v: bv32, k: bv6)
    requires k > 0
    ensures NonZero(Under(Wide(v), 1 << k)) <==> NonZero(Under(Wide(v >> 1), 1 << (k - 1)))
  {
  }

  lemma ShiftedOneBit(v: bv32, n: nat)
    requires 0 < n < 64
    ensures One(Wide(v), n) == One(Wide(v >> 1), n - 1)
  {
    hide Index, NonZero, Under, Wide;
    IndexNext(n);
    ShiftedBit(v, Index(n));
  }

  lemma {:induction false} OnesShifted(v: bv32, n: nat)
    requires 0 < n <= 64
    ensures Ones(Wide(v), n) == One(Wide(v), 0) + Ones(Wide(v >> 1), n - 1)
    decreases n
  {
    hide Wide, One;
    if n > 1 {
      OnesShifted(v, n - 1);
      ShiftedOneBit(v, n - 1);
    } else {
      assert Ones(Wide(v), 0) == 0;
    }
  }

  lemma LowBit(v: bv32)
    ensures One(Wide(v), 0) == if v & 1 != 0 then 1 else 0
    ensures One(Wide(v >> 1), 31) == 0
  {
  }

  lemma OnesOfHalf(v: bv32)
    ensures Ones(Wide(v), 32) == (if v & 1 != 0 then 1 else 0) + Ones(Wide(v >> 1), 32)
  {
    hide Wide, One;
    OnesShifted(v, 32);
    LowBit(v);
  }

  lemma {:induction false} NoOnes(n: nat)
    requires n <= 64
    ensures Ones(Wide(0), n) == 0
    decreases n
  {
    hide Has64;
    if n > 0 {
      NoOnes(n - 1);
      Has64Zero(n - 1);
    }
  }

  lemma {:induction false} GapsCount(value: bv32, bit: bv8, lastBit: bv8)
    ensures |Gaps(value, bit, lastBit)| == Ones(Wide(value), 32)
    decreases value
  {
    hide Wide, Ones;
    if value == 0 {
      NoOnes(32);
    } else {
      OnesOfHalf(value);
      GapsCount(value >> 1, bit + 1, if value & 1 != 0 then bit else lastBit);
    }
  }

  lemma {:induction false} SymbolsCount(hashes: seq<bv32>, last: bv32)
    ensures |Symbols(hashes, last)| == |hashes| + SetBits(hashes, last)
    decreases |hashes|
  {
    hide Wide, Ones, Gaps, Xor;
    if hashes != [] {
      GapsCount(Xor(hashes[0], last), 1, 0);
      SymbolsCount(hashes[1..], hashes[0]);
    }
  }

  /** The positions of the symbols above six. */
  function LargePositions(symbols: seq<bv8>, i: nat): set<nat>
    requires i <= |symbols|
  {
    set j: nat | j < i && ByteValue(symbols[j]) >= 7
  }

  lemma LargeIs(b: bv8)
    ensures Large(b) <==> ByteValue(b) >= 7
    ensures Large(b) ==> ByteValue(Excess(b)) == ByteValue(b) - 7
  {
  }

  lemma LargePositionsNext(symbols: seq<bv8>, i: nat)
    requires i <= |symbols|
    ensures i == 0 ==> LargePositions(symbols, i) == {}
    ensures i > 0 ==>
              LargePositions(symbols, i) == LargePositions(symbols, i - 1) + if ByteValue(symbols[i - 1]) >= 7 then {i - 1} else {}
    ensures i > 0 ==> i - 1 !in LargePositions(symbols, i - 1)
  {
    hide ByteValue;
  }

  lemma {:induction false} ExceptionalCount(symbols: seq<bv8>, i: nat)
    requires i <= |symbols|
    ensures |Exceptional(symbols[..i])| == |LargePositions(symbols, i)|
    decreases i
  {
    hide ByteValue, Large, Excess, LargePositions;
    LargePositionsNext(symbols, i);
    if i == 0 {
      assert symbols[..0] == [];
    } else {
      ExceptionalCount(symbols, i - 1);
      assert symbols[..i] == symbols[..i - 1] + [symbols[i - 1]];
      ExceptionalJoin(symbols[..i - 1], [symbols[i - 1]]);
      assert [symbols[i - 1]][1..] == [];
      LargeIs(symbols[i - 1]);
    }
  }

  lemma ExceptionalAt(symbols: seq<bv8>, i: nat)
    requires i < |symbols| && ByteValue(symbols[i]) >= 7
    ensures |LargePositions(symbols, i)| < |Exceptional(symbols)|
    ensures ByteValue(Exceptional(symbols)[|LargePositions(symbols, i)|]) == ByteValue(symbols[i]) - 7
  {
    hide ByteValue, Large, Excess, LargePositions;
    ExceptionalCount(symbols, i);
    LargeIs(symbols[i]);
    assert symbols == symbols[..i] + symbols[i..];
    ExceptionalJoin(symbols[..i], symbols[i..]);
  }

  lemma {:induction false} ExceptionalJoin(a: seq<bv8>, b: seq<bv8>)
    ensures Exceptional(a + b) == Exceptional(a) + Exceptional(b)
    decreases |a|
  {
    hide Large, Excess;
    if a == [] {
      assert a + b == b;
    } else {
      var head := if Large(a[0]) then [Excess(a[0])] else [];
      assert (a + b)[1..] == a[1..] + b;
      ExceptionalJoin(a[1..], b);
      assert head + (Exceptional(a[1..]) + Exceptional(b)) == head + Exceptional(a[1..]) + Exceptional(b);
    }
  }

  /** All the bytes the encoder writes, in numbers: the version; the number of hashes, highest byte first; the symbols cut
      off at seven as base-8 digits; and the excess over seven, of the symbols above six, as base-32 digits. The symbols are
      one a set bit and one a hash. */
  lemma EncodedBytes(fp: Fingerprint) returns (low: seq<bv8>, high: seq<bv8>)
    ensures var e, s := Encode(fp), Symbols(fp.hashes, 0);
            var n3 := (3 * |s| + 7) / 8;
            && |s| == |fp.hashes| + SetBits(fp.hashes, 0)
            && |low| == |s| && |high| == |LargePositions(s, |s|)|
            && |e| == 4 + n3 + (5 * |high| + 7) / 8
            && ByteValue(e[0]) == fp.version % 256
            && ByteValue(e[1]) * 65536 + ByteValue(e[2]) * 256 + ByteValue(e[3]) == |fp.hashes| % 0x1000000
            && (forall i :: 0 <= i < |s| ==> ByteValue(low[i]) == if ByteValue(s[i]) < 7 then ByteValue(s[i]) else 7)
            && (forall i: nat :: i < |s| && ByteValue(s[i]) >= 7 ==>
                  |LargePositions(s, i)| < |high| && ByteValue(high[|LargePositions(s, i)|]) == ByteValue(s[i]) - 7)
            && Number(e[4..4 + n3], 8) == Number(low, 3) && Number(e[4 + n3..], 8) == Number(high, 5)
  {
    hide Header, Packed, Normal, Exceptional, Symbols, ByteValue, Number, Fits, SetBits, LargePositions;
    var s := Symbols(fp.hashes, 0);
    var header := Header(fp.version, |fp.hashes|);
    low, high := Normal(s), Exceptional(s);
    SymbolsCount(fp.hashes, 0);
    SymbolsShape(fp.hashes, 0);
    NormalFits(s);
    ExceptionalFits(s);
    PackedNumber(low, 3);
    PackedNumber(high, 5);
    HeaderLength(fp.version, |fp.hashes|);
    HeaderNumbers(fp.version, |fp.hashes|);
    var e := Encode(fp);
    assert e[4..4 + PackedSize(|low|, 3)] == Packed(low, 3);
    assert e[4 + PackedSize(|low|, 3)..] == Packed(high, 5);
    assert e[..4] == header;
    assert s[..|s|] == s;
    ExceptionalCount(s, |s|);
    forall i | 0 <= i < |s|
      ensures ByteValue(low[i]) == if ByteValue(s[i]) < 7 then ByteValue(s[i]) else 7
      ensures ByteValue(s[i]) >= 7 ==> |LargePositions(s, i)| < |high| && ByteValue(high[|LargePositions(s, i)|]) == ByteValue(s[i]) - 7
    {
      NormalNumber(s, i);
      if ByteValue(s[i]) >= 7 {
        ExceptionalAt(s, i);
      }
    }
  }

  lemma NormalNumber(s: seq<bv8>, i: nat)
    requires i < |s|
    ensures ByteValue(Normal(s)[i]) == if ByteValue(s[i]) < 7 then ByteValue(s[i]) else 7
  {
    hide ByteValue, Large;
    LargeIs(s[i]);
    SevenIs(7);
  }

  lemma HeaderNumbers(version: int, n: nat)
    ensures var h := Header(version, n);
            && |h| == 4 && ByteValue(h[0]) == version % 256
            && ByteValue(h[1]) * 65536 + ByteValue(h[2]) * 256 + ByteValue(h[3]) == n % 0x1000000
  {
    hide ByteValue, Byte;
    ByteBack(version);
    ByteBack(n / 0x10000);
    ByteBack(n / 0x100);
    ByteBack(n);
    Digits(n);
  }
}
