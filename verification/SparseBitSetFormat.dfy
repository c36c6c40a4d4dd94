/** The serialised sparse bit set of util/intset/sparse.go, byte by byte: where each number of the set is a bit. */
module IntSetFormat {
  import opened Bits
  import opened Bytes
  import opened PopCount
  import opened IntSet
  import opened IntSetIO

  // ---- The bits of a word, byte by byte ----

  lemma ByteBits(w: bv64, m: bv8)
    ensures (w & 0xff) as bv8 & m != 0 <==> w & (m as bv64 << 0) != 0
    ensures ((w >> 8) & 0xff) as bv8 & m != 0 <==> w & (m as bv64 << 8) != 0
    ensures ((w >> 16) & 0xff) as bv8 & m != 0 <==> w & (m as bv64 << 16) != 0
    ensures ((w >> 24) & 0xff) as bv8 & m != 0 <==> w & (m as bv64 << 24) != 0
    ensures ((w >> 32) & 0xff) as bv8 & m != 0 <==> w & (m as bv64 << 32) != 0
    ensures ((w >> 40) & 0xff) as bv8 & m != 0 <==> w & (m as bv64 << 40) != 0
    ensures ((w >> 48) & 0xff) as bv8 & m != 0 <==> w & (m as bv64 << 48) != 0
    ensures ((w >> 56) & 0xff) as bv8 & m != 0 <==> w & (m as bv64 << 56) != 0
  {
  }

  /** A byte holds the bits of a word from `base` on, as far as the mask `m` tells. */
  predicate Carries(w: bv64, byte: bv8, base: bv64, m: bv8)
    requires base <= 56
  {
    byte & m != 0 <==> w & (m as bv64 << base) != 0
  }

  lemma PutCarries(w: bv64, m: bv8)
    ensures var bs := PutUint64(w);
            && |bs| == 8
            && Carries(w, bs[0], 0, m) && Carries(w, bs[1], 8, m) && Carries(w, bs[2], 16, m) && Carries(w, bs[3], 24, m)
            && Carries(w, bs[4], 32, m) && Carries(w, bs[5], 40, m) && Carries(w, bs[6], 48, m) && Carries(w, bs[7], 56, m)
  {
    ByteBits(w, m);
  }

  lemma CarriesIs(w: bv64, byte: bv8, base: bv64, m: bv8)
    requires base <= 56 && Carries(w, byte, base, m)
    ensures byte & m != 0 <==> NonZero(Under(w, Shift(m as bv64, base)))
  {
  }

  lemma Powers8()
    ensures Mask8(0) as bv64 == 1 && Mask8(1) as bv64 == 2 && Mask8(2) as bv64 == 4 && Mask8(3) as bv64 == 8
    ensures Mask8(4) as bv64 == 16 && Mask8(5) as bv64 == 32 && Mask8(6) as bv64 == 64 && Mask8(7) as bv64 == 128
  {
    Masks8();
  }

  lemma CarriedBit(w: bv64, byte: bv8, k: nat, base: bv64, t: nat)
    requires MaskRun(k, base) && t < 8 && Carries(w, byte, base, Mask8(t))
    ensures Has8(byte, t) <==> Has64(w, k + t)
  {
    hide Mask64, Mask8, Shift, Under, NonZero, Carries;
    CarriesIs(w, byte, base, Mask8(t));
    Powers8();
    if t == 0 {
    } else if t == 1 {
    } else if t == 2 {
    } else if t == 3 {
    } else if t == 4 {
    } else if t == 5 {
    } else if t == 6 {
    }
  }

  /** The byte at `b` holds the bits from `8 * b` on. */
  predicate Holds8(w: bv64, byte: bv8, k: nat) {
    k <= 56 && forall t: nat :: t < 8 ==> (Has8(byte, t) <==> Has64(w, k + t))
  }

  lemma CarriedByte(w: bv64, byte: bv8, k: nat, base: bv64)
    requires MaskRun(k, base) && forall t: nat :: t < 8 ==> Carries(w, byte, base, Mask8(t))
    ensures Holds8(w, byte, k)
  {
    hide Mask64, Mask8, Shift, Under, NonZero, Carries, Has8, Has64;
    forall t: nat | t < 8
      ensures Has8(byte, t) <==> Has64(w, k + t)
    {
      CarriedBit(w, byte, k, base, t);
    }
  }

  lemma PutHolds(w: bv64)
    ensures var bs := PutUint64(w);
            && |bs| == 8
            && Holds8(w, bs[0], 0) && Holds8(w, bs[1], 8) && Holds8(w, bs[2], 16) && Holds8(w, bs[3], 24)
            && Holds8(w, bs[4], 32) && Holds8(w, bs[5], 40) && Holds8(w, bs[6], 48) && Holds8(w, bs[7], 56)
  {
    hide MaskRun, PutUint64, Carries, Mask8, Holds8;
    MaskRuns();
    var bs := PutUint64(w);
    forall m: bv8
      ensures |bs| == 8
      ensures Carries(w, bs[0], 0, m) && Carries(w, bs[1], 8, m) && Carries(w, bs[2], 16, m) && Carries(w, bs[3], 24, m)
      ensures Carries(w, bs[4], 32, m) && Carries(w, bs[5], 40, m) && Carries(w, bs[6], 48, m) && Carries(w, bs[7], 56, m)
    {
      PutCarries(w, m);
    }
    CarriedByte(w, bs[0], 0, 0);
    CarriedByte(w, bs[1], 8, 8);
    CarriedByte(w, bs[2], 16, 16);
    CarriedByte(w, bs[3], 24, 24);
    CarriedByte(w, bs[4], 32, 32);
    CarriedByte(w, bs[5], 40, 40);
    CarriedByte(w, bs[6], 48, 48);
    CarriedByte(w, bs[7], 56, 56);
  }

  /** Bit `8 * b + t` of a word is bit `t` of the byte at `b`. */
  lemma WordBit(w: bv64, b: nat, t: nat)
    requires b < 8 && t < 8
    ensures |PutUint64(w)| == 8 && (Has8(PutUint64(w)[b], t) <==> Has64(w, 8 * b + t))
  {
    hide Has8, Has64, PutUint64;
    PutHolds(w);
    var bs := PutUint64(w);
    assert Holds8(w, bs[b], 8 * b);
  }

  // ---- Where words and blocks are ----

  lemma {:induction false} PutWordsAt(words: seq<bv64>, i: nat)
    requires i < |words|
    ensures |PutWords(words)| == 8 * |words| && PutWords(words)[8 * i..8 * i + 8] == PutUint64(words[i])
    decreases i
  {
    hide PutUint64;
    PutWordsLength(words);
    PutUint64Length(words[0]);
    if i > 0 {
      PutWordsAt(words[1..], i - 1);
      assert PutWords(words)[8..] == PutWords(words[1..]);
      assert PutWords(words)[8 * i..8 * i + 8] == PutWords(words)[8..][8 * (i - 1)..8 * (i - 1) + 8];
    }
  }

  lemma {:induction false} PutBlocksLength(keys: seq<nat>, c: map<nat, Block>)
    requires forall i :: i in keys ==> i in c
    ensures |PutBlocks(keys, c)| == 1028 * |keys|
    decreases |keys|
  {
    hide PutUint32, PutWords;
    if keys != [] {
      PutBlocksLength(keys[1..], c);
      PutUint32Length(keys[0]);
      PutWordsLength(c[keys[0]]);
    }
  }

  lemma {:induction false} PutBlocksAt(keys: seq<nat>, c: map<nat, Block>, j: nat)
    requires j < |keys| && forall i :: i in keys ==> i in c
    ensures |PutBlocks(keys, c)| == 1028 * |keys|
    ensures PutBlocks(keys, c)[1028 * j..1028 * j + 1028] == PutUint32(keys[j]) + PutWords(c[keys[j]])
    decreases j
  {
    hide PutUint32, PutWords;
    PutBlocksLength(keys, c);
    PutUint32Length(keys[0]);
    PutWordsLength(c[keys[0]]);
    if j > 0 {
      PutBlocksAt(keys[1..], c, j - 1);
      assert PutBlocks(keys, c)[1028..] == PutBlocks(keys[1..], c);
      assert PutBlocks(keys, c)[1028 * j..1028 * j + 1028] == PutBlocks(keys, c)[1028..][1028 * (j - 1)..1028 * (j - 1) + 1028];
    }
  }

  // ---- The format ----

  /** A number in four bytes, the lowest first. */
  ghost predicate NumberAt(out: seq<bv8>, at: nat, n: nat) {
    && at + 4 <= |out|
    && n == ByteValue(out[at]) + 256 * ByteValue(out[at + 1]) + 65536 * ByteValue(out[at + 2]) + 16777216 * ByteValue(out[at + 3])
  }

  lemma PutUint32Number(n: nat, out: seq<bv8>, at: nat)
    requires n < 0x1_0000_0000 && at + 4 <= |out| && out[at..at + 4] == PutUint32(n)
    ensures NumberAt(out, at, n)
  {
    hide Byte, ByteValue;
    var bytes := out[at..at + 4];
    GetUint32Back(n, []);
    assert PutUint32(n) + [] == bytes;
    assert out[at] == bytes[0] && out[at + 1] == bytes[1] && out[at + 2] == bytes[2] && out[at + 3] == bytes[3];
  }

  /** Bit `y` of a block whose bytes start at `at`. */
  ghost predicate BitSet(out: seq<bv8>, at: nat, y: nat) {
    at + y / 8 < |out| && Has8(out[at + y / 8], y % 8)
  }

  lemma BlockBit(b: Block, out: seq<bv8>, at: nat, y: nat)
    requires y < 8192 && at + 1024 <= |out| && out[at..at + 1024] == PutWords(b)
    ensures BitSet(out, at, y) <==> InBlock(b, y)
  {
    hide PutWords, PutUint64, Has8, Has64;
    var i, r := y / 64, y % 64;
    PutWordsAt(b, i);
    WordBit(b[i], r / 8, r % 8);
    assert 8 * (r / 8) + r % 8 == r;
    assert y / 8 == 8 * i + r / 8 && y % 8 == r % 8;
    var bytes := out[at..at + 1024];
    assert out[at + y / 8] == bytes[y / 8];
    assert bytes[8 * i..8 * i + 8][r / 8] == bytes[8 * i + r / 8];
  }

  /** The bytes that a set is written as: the number of blocks in four bytes; then for each block its number in four bytes
      and 1024 bytes of bits. The blocks come in ascending order, and a number is in the set exactly if the bit is set that
      is its remainder by 8192 in the block that is its quotient. Numbers and bits go from the lowest byte to the highest. */
  lemma SerialisedFormat(out: seq<bv8>, c: map<nat, Block>) returns (keys: seq<nat>)
    requires InRange(c) && Serialises(out, c)
    ensures Lists(keys, c.Keys) && |out| == 4 + 1028 * |keys| && NumberAt(out, 0, |keys|)
    ensures forall j :: 0 <= j < |keys| ==> NumberAt(out, 4 + 1028 * j, keys[j])
    ensures forall x: nat :: x < 0x1_0000_0000 ==>
              (x in Elements(c) <==> exists j: nat :: j < |keys| && keys[j] == x / 8192 && BitSet(out, 8 + 1028 * j, x % 8192))
  {
    hide PutUint32, PutBlocks, PutWords, InBlock, BitSet, NumberAt;
    keys :| Lists(keys, c.Keys) && out == PutUint32(|c|) + PutBlocks(keys, c);
    hide Lists;
    ListsSize(keys, c.Keys);
    assert |c| == |c.Keys| == |keys|;
    KeysIn(keys, c);
    PutBlocksLength(keys, c);
    PutUint32Length(|c|);
    assert out[0..4] == PutUint32(|c|) && out[4..] == PutBlocks(keys, c);
    PutUint32Number(|c|, out, 0);
    forall j | 0 <= j < |keys|
      ensures NumberAt(out, 4 + 1028 * j, keys[j])
      ensures forall y: nat :: y < 8192 ==> (BitSet(out, 8 + 1028 * j, y) <==> InBlock(c[keys[j]], y))
    {
      BlockAt(keys, c, out, j);
    }
    forall x: nat | x < 0x1_0000_0000
      ensures x in Elements(c) <==> exists j: nat :: j < |keys| && keys[j] == x / 8192 && BitSet(out, 8 + 1028 * j, x % 8192)
    {
      if x / 8192 in c {
        var j :| 0 <= j < |keys| && keys[j] == x / 8192;
        assert BitSet(out, 8 + 1028 * j, x % 8192) <==> InBlock(c[keys[j]], x % 8192);
      }
    }
  }

  lemma KeysIn(keys: seq<nat>, c: map<nat, Block>)
    requires InRange(c) && Lists(keys, c.Keys)
    ensures forall i :: i in keys <==> i in c
    ensures forall j :: 0 <= j < |keys| ==> keys[j] < 0x80000
    ensures |keys| <= 0x80000
  {
    if keys != [] {
      AscendingBound(keys, |keys| - 1);
      assert keys[|keys| - 1] in c;
    }
    forall j | 0 <= j < |keys|
      ensures keys[j] < 0x80000
    {
      assert keys[j] in c;
    }
  }

  lemma BlockAt(keys: seq<nat>, c: map<nat, Block>, out: seq<bv8>, j: nat)
    requires j < |keys| && (forall i :: i in keys ==> i in c) && keys[j] < 0x80000
    requires |out| == 4 + 1028 * |keys| && out[4..] == PutBlocks(keys, c)
    ensures NumberAt(out, 4 + 1028 * j, keys[j])
    ensures forall y: nat :: y < 8192 ==> (BitSet(out, 8 + 1028 * j, y) <==> InBlock(c[keys[j]], y))
  {
    hide PutUint32, PutBlocks, PutWords, InBlock, BitSet, NumberAt;
    PutBlocksAt(keys, c, j);
    PutUint32Length(keys[j]);
    PutWordsLength(c[keys[j]]);
    var at := 4 + 1028 * j;
    assert out[at..at + 1028] == out[4..][1028 * j..1028 * j + 1028];
    assert out[at..at + 4] == out[at..at + 1028][..4];
    assert out[at + 4..at + 4 + 1024] == out[at..at + 1028][4..];
    PutUint32Number(keys[j], out, at);
    forall y: nat | y < 8192
      ensures BitSet(out, 8 + 1028 * j, y) <==> InBlock(c[keys[j]], y)
    {
      BlockBit(c[keys[j]], out, at + 4, y);
    }
  }

  // ---- What is read ----

  function OrBytes(a: bv8, b: bv8, c: bv8, d: bv8, e: bv8, f: bv8, g: bv8, h: bv8): bv64 {
    a as bv64 | (b as bv64 << 8) | (c as bv64 << 16) | (d as bv64 << 24) |
    (e as bv64 << 32) | (f as bv64 << 40) | (g as bv64 << 48) | (h as bv64 << 56)
  }

  lemma OrBytesBack(a: bv8, b: bv8, c: bv8, d: bv8, e: bv8, f: bv8, g: bv8, h: bv8)
    ensures PutUint64(OrBytes(a, b, c, d, e, f, g, h)) == [a, b, c, d, e, f, g, h]
  {
  }

  lemma GetUint64Is(data: seq<bv8>)
    requires |data| >= 8
    ensures GetUint64(data) == OrBytes(data[0], data[1], data[2], data[3], data[4], data[5], data[6], data[7])
  {
  }

  lemma PutGetUint64(data: seq<bv8>)
    requires |data| >= 8
    ensures PutUint64(GetUint64(data)) == data[..8]
  {
    hide PutUint64, GetUint64, OrBytes;
    GetUint64Is(data);
    OrBytesBack(data[0], data[1], data[2], data[3], data[4], data[5], data[6], data[7]);
  }

  lemma {:induction false} PutGetWords(data: seq<bv8>, n: nat)
    requires |data| >= 8 * n
    ensures PutWords(GetWords(data, n)) == data[..8 * n]
    decreases n
  {
    hide PutUint64, GetUint64;
    if n > 0 {
      PutGetUint64(data);
      PutGetWords(data[8..], n - 1);
      assert data[..8 * n] == data[..8] + data[8..][..8 * (n - 1)];
    }
  }

  lemma ReadBit(data: seq<bv8>, y: nat)
    requires |data| >= 1024 && y < 8192
    ensures BitSet(data, 0, y) <==> InBlock(GetBlock(data), y)
  {
    hide GetWords, PutWords, BitSet, InBlock;
    PutGetWords(data, 128);
    assert data[0..0 + 1024] == data[..1024];
    BlockBit(GetBlock(data), data, 0, y);
  }

  /** A number read from four bytes is the number there. */
  lemma GetUint32Number(data: seq<bv8>, i: nat)
    requires |data| >= 4
    ensures NumberAt(data, 0, i) <==> i == GetUint32(data)
  {
    hide ByteValue;
  }

  lemma NumberShifted(data: seq<bv8>, at: nat, i: nat)
    ensures |data| >= 1028 ==> (NumberAt(data[1028..], at, i) <==> NumberAt(data, at + 1028, i))
  {
    hide ByteValue;
  }

  lemma BitShifted(data: seq<bv8>, at: nat, y: nat)
    ensures |data| >= 1028 ==> (BitSet(data[1028..], at, y) <==> BitSet(data, at + 1028, y))
  {
    hide Has8;
  }

  /** Block `j` of the bytes is the last of the first `n` with the number `i`. */
  ghost predicate LastWith(data: seq<bv8>, n: nat, i: nat, j: nat) {
    j < n && NumberAt(data, 1028 * j, i) && forall k: nat :: j < k < n ==> !NumberAt(data, 1028 * k, i)
  }

  /** Bit `y` of block `j`, which is none if the block breaks off. */
  ghost predicate BitOf(data: seq<bv8>, j: nat, y: nat) {
    1028 * j + 1028 <= |data| && BitSet(data, 1028 * j + 4, y)
  }

  /** No number that starts where the bytes are too short. */
  lemma NoNumber(data: seq<bv8>, j: nat, i: nat)
    requires |data| < 1028 * j + 4
    ensures !NumberAt(data, 1028 * j, i)
  {
  }

  lemma LastShifted(data: seq<bv8>, n: nat, i: nat, j: nat)
    requires n > 0 && |data| >= 1028
    ensures LastWith(data, n, i, j + 1) <==> LastWith(data[1028..], n - 1, i, j)
    ensures LastWith(data, n, i, 0) <==> NumberAt(data, 0, i) && forall k: nat :: k < n - 1 ==> !NumberAt(data[1028..], 1028 * k, i)
  {
    hide NumberAt;
    forall k: nat
      ensures NumberAt(data[1028..], 1028 * k, i) <==> NumberAt(data, 1028 * (k + 1), i)
    {
      NumberShifted(data, 1028 * k, i);
      assert 1028 * k + 1028 == 1028 * (k + 1);
    }
    forall k: nat | 0 < k
      ensures NumberAt(data, 1028 * k, i) <==> NumberAt(data[1028..], 1028 * (k - 1), i)
    {
    }
  }

  /** Some block of the first `n` has the number `i`. */
  ghost predicate Has(data: seq<bv8>, n: nat, i: nat) {
    exists j: nat :: j < n && NumberAt(data, 1028 * j, i)
  }

  lemma HasNext(data: seq<bv8>, n: nat, i: nat)
    requires n > 0
    ensures |data| >= 1028 ==> (Has(data, n, i) <==> NumberAt(data, 0, i) || Has(data[1028..], n - 1, i))
    ensures |data| < 1028 ==> (Has(data, n, i) <==> NumberAt(data, 0, i))
  {
    hide NumberAt;
    if |data| >= 1028 {
      forall k: nat
        ensures NumberAt(data[1028..], 1028 * k, i) <==> NumberAt(data, 1028 * (k + 1), i)
      {
        NumberShifted(data, 1028 * k, i);
        assert 1028 * k + 1028 == 1028 * (k + 1);
      }
      if Has(data, n, i) {
        var j: nat :| j < n && NumberAt(data, 1028 * j, i);
        if j > 0 {
          assert NumberAt(data[1028..], 1028 * (j - 1), i);
        }
      }
      if Has(data[1028..], n - 1, i) {
        var j: nat :| j < n - 1 && NumberAt(data[1028..], 1028 * j, i);
        assert NumberAt(data, 1028 * (j + 1), i);
      }
      assert NumberAt(data, 1028 * 0, i) == NumberAt(data, 0, i);
    } else {
      forall j: nat | 0 < j
        ensures !NumberAt(data, 1028 * j, i)
      {
        NoNumber(data, j, i);
      }
      assert NumberAt(data, 1028 * 0, i) == NumberAt(data, 0, i);
    }
  }

  /** Which blocks reading leaves: the numbers found at the start of each block, and all that were there before. */
  lemma {:induction false} ReadKeys(data: seq<bv8>, n: nat, c: map<nat, Block>, i: nat)
    ensures GetBlocks(data, n, c).complete <==> |data| >= 1028 * n
    ensures i in GetBlocks(data, n, c).blocks <==> i in c || Has(data, n, i)
    decreases n
  {
    hide GetUint32, GetBlock, NumberAt, Has;
    if n == 0 {
      assert !Has(data, 0, i) by {
        HasNone(data, i);
      }
    } else {
      HasNext(data, n, i);
      if |data| < 4 {
        NoNumber(data, 0, i);
      } else {
        GetUint32Number(data, i);
        if |data| >= 1028 {
          assert data[4..][1024..] == data[1028..];
          ReadKeys(data[1028..], n - 1, c[GetUint32(data) := GetBlock(data[4..])], i);
        }
      }
    }
  }

  lemma HasNone(data: seq<bv8>, i: nat)
    ensures !Has(data, 0, i)
  {
  }

  /** What a block holds that was read: the bits of the last block with its number. */
  lemma {:induction false} ReadBits(data: seq<bv8>, n: nat, c: map<nat, Block>, i: nat, j: nat, y: nat)
    requires LastWith(data, n, i, j) && y < 8192
    ensures i in GetBlocks(data, n, c).blocks
    ensures InBlock(GetBlocks(data, n, c).blocks[i], y) <==> BitOf(data, j, y)
    decreases n
  {
    hide GetUint32, GetBlock, NumberAt, LastWith, InBlock, BitOf;
    ReadKeys(data, n, c, i);
    LastIs(data, n, i, j);
    if |data| < 1028 {
      OnlyFirst(data, n, i, j);
      GetUint32Number(data, i);
      EmptyBlockHas(y);
      BitOfNone(data, j, y);
    } else {
      assert data[4..][1024..] == data[1028..];
      var first := GetBlock(data[4..]);
      if j > 0 {
        LastShifted(data, n, i, j - 1);
        ReadBits(data[1028..], n - 1, c[GetUint32(data) := first], i, j - 1, y);
        BitOfShifted(data, j - 1, y);
      } else {
        LastShifted(data, n, i, 0);
        GetUint32Number(data, i);
        NotAgain(data[1028..], n - 1, i);
        Untouched(data[1028..], n - 1, c[GetUint32(data) := first], i);
        FirstBit(data, y);
      }
    }
  }

  lemma LastIs(data: seq<bv8>, n: nat, i: nat, j: nat)
    requires LastWith(data, n, i, j)
    ensures j < n && NumberAt(data, 1028 * j, i) && Has(data, n, i) && (j == 0 ==> NumberAt(data, 0, i))
    ensures 1028 * j + 4 <= |data|
  {
  }

  lemma OnlyFirst(data: seq<bv8>, n: nat, i: nat, j: nat)
    requires LastWith(data, n, i, j) && |data| < 1028
    ensures j == 0 && |data| >= 4
  {
  }

  lemma BitOfNone(data: seq<bv8>, j: nat, y: nat)
    requires |data| < 1028
    ensures !BitOf(data, j, y)
  {
  }

  lemma BitOfShifted(data: seq<bv8>, j: nat, y: nat)
    requires |data| >= 1028
    ensures BitOf(data[1028..], j, y) <==> BitOf(data, j + 1, y)
  {
    hide BitSet;
    BitShifted(data, 1028 * j + 4, y);
    assert 1028 * j + 4 + 1028 == 1028 * (j + 1) + 4;
  }

  lemma FirstBit(data: seq<bv8>, y: nat)
    requires |data| >= 1028 && y < 8192
    ensures InBlock(GetBlock(data[4..]), y) <==> BitOf(data, 0, y)
  {
    hide GetBlock, InBlock;
    ReadBit(data[4..], y);
    assert data[4..][y / 8] == data[4 + y / 8];
  }

  lemma NotAgain(data: seq<bv8>, n: nat, i: nat)
    requires forall k: nat :: k < n ==> !NumberAt(data, 1028 * k, i)
    ensures !Has(data, n, i)
  {
  }

  /** A block whose number does not come again stays as it is. */
  lemma {:induction false} Untouched(data: seq<bv8>, n: nat, c: map<nat, Block>, i: nat)
    requires i in c && !Has(data, n, i)
    ensures i in GetBlocks(data, n, c).blocks && GetBlocks(data, n, c).blocks[i] == c[i]
    decreases n
  {
    hide GetUint32, GetBlock, NumberAt, Has;
    if n > 0 {
      HasNext(data, n, i);
      if |data| >= 4 {
        GetUint32Number(data, i);
        if |data| >= 1028 {
          assert data[4..][1024..] == data[1028..];
          Untouched(data[1028..], n - 1, c[GetUint32(data) := GetBlock(data[4..])], i);
        }
      }
    }
  }

  /** Block `i` holds the bits of the bytes at place `j`. */
  ghost predicate BlockIs(blocks: map<nat, Block>, data: seq<bv8>, i: nat, j: nat) {
    i in blocks && forall y: nat :: y < 8192 ==> (InBlock(blocks[i], y) <==> BitOf(data, j, y))
  }

  /** What reading makes of any bytes that are long enough for the number of blocks: blocks start at the fifth byte and take
      1028 bytes each; reading is complete if all of them are there; a block is in the set if the four bytes of its number
      are; and it holds the bits of the last block with that number, or none if that one breaks off. */
  lemma LoadedFormat(data: seq<bv8>)
    requires |data| >= 4
    ensures var n, rest := GetUint32(data), data[4..];
            && NumberAt(data, 0, n)
            && (Loaded(data).complete <==> |data| >= 4 + 1028 * n)
            && (forall i: nat :: i in Loaded(data).blocks <==> Has(rest, n, i))
            && (forall i: nat, j: nat :: LastWith(rest, n, i, j) ==> BlockIs(Loaded(data).blocks, rest, i, j))
  {
    hide GetUint32, GetBlocks, NumberAt, Has, LastWith, BitOf, InBlock;
    var n, rest := GetUint32(data), data[4..];
    GetUint32Number(data, n);
    forall i: nat
      ensures Loaded(data).complete <==> |data| >= 4 + 1028 * n
      ensures i in Loaded(data).blocks <==> Has(rest, n, i)
    {
      ReadKeys(rest, n, map[], i);
    }
    ReadKeys(rest, n, map[], 0);
    forall i: nat, j: nat | LastWith(rest, n, i, j)
      ensures BlockIs(Loaded(data).blocks, rest, i, j)
    {
      ReadKeys(rest, n, map[], i);
      LastIs(rest, n, i, j);
      forall y: nat | y < 8192
        ensures InBlock(Loaded(data).blocks[i], y) <==> BitOf(rest, j, y)
      {
        ReadBits(rest, n, map[], i, j, y);
      }
    }
  }
}
