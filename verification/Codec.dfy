/** The compressed fingerprint format: what pkg/chromaprint/encoding.go reads and writes, as functions. */
module Codec {
  import opened Bytes
  import opened Pack
  import opened Results

  datatype Fingerprint = Fingerprint(version: int, hashes: seq<bv32>)

  datatype DecodeError = TooShort | Empty | NormalBitsMissing | ExceptionalBitsMissing

  // ---- Layer 1: the set bits of one word, as gaps ----

  /** Go's `1 << n` on uint32: zero once the bit is shifted out. */
  function ShiftedOne(n: bv8): bv32 {
    if n < 32 then 1 << n else 0
  }

  /** The decoder's running position, in uint8 arithmetic. */
  function Advance(lastBit: bv8, gap: bv8): bv8 { lastBit + gap }

  /** Sets bit `p - 1`; positions outside 1..32 (0 wraps to 255) set nothing. */
  function SetBit(word: bv32, p: bv8): bv32 { word | ShiftedOne(p - 1) }

  /** How two neighbouring hashes are combined and told apart. */
  function Xor(a: bv32, b: bv32): bv32 { a ^ b }

  /** The distances between the set bits of `value`, whose lowest bit has position `bit`. */
  function Gaps(value: bv32, bit: bv8, lastBit: bv8): seq<bv8>
    decreases value
  {
    if value == 0 then []
    else if value & 1 != 0 then [bit - lastBit] + Gaps(value >> 1, bit + 1, bit)
    else Gaps(value >> 1, bit + 1, lastBit)
  }

  /** Sets in `word` the bit of every running sum of `gaps`. */
  function Fill(gaps: seq<bv8>, lastBit: bv8, word: bv32): bv32 {
    if gaps == [] then word
    else
      var p := Advance(lastBit, gaps[0]);
      Fill(gaps[1..], p, SetBit(word, p))
  }

  // ---- Layer 2: all words, XORed with their predecessors and closed by a zero ----

  function Symbols(hashes: seq<bv32>, last: bv32): seq<bv8> {
    if hashes == [] then []
    else Gaps(Xor(hashes[0], last), 1, 0) + [0] + Symbols(hashes[1..], hashes[0])
  }

  function Words(symbols: seq<bv8>, lastBit: bv8, word: bv32, last: bv32): seq<bv32> {
    if symbols == [] then []
    else if symbols[0] == 0 then [Xor(word, last)] + Words(symbols[1..], 0, 0, Xor(word, last))
    else
      var p := Advance(lastBit, symbols[0]);
      Words(symbols[1..], p, SetBit(word, p), last)
  }

  // ---- Layer 3: large gaps escape into a second stream ----

  predicate Large(gap: bv8) { gap >= 7 }

  function Excess(gap: bv8): bv8 { gap - 7 }

  function Restored(excess: bv8): bv8 { 7 + excess }

  function Normal(symbols: seq<bv8>): (normal: seq<bv8>)
    ensures |normal| == |symbols|
  {
    seq(|symbols|, i requires 0 <= i < |symbols| => if Large(symbols[i]) then 7 else symbols[i])
  }

  function Exceptional(symbols: seq<bv8>): seq<bv8> {
    if symbols == [] then []
    else (if Large(symbols[0]) then [Excess(symbols[0])] else []) + Exceptional(symbols[1..])
  }

  function Sevens(normal: seq<bv8>): nat {
    if normal == [] then 0 else (if normal[0] == 7 then 1 else 0) + Sevens(normal[1..])
  }

  function Merge(normal: seq<bv8>, exceptional: seq<bv8>): (symbols: seq<bv8>)
    requires Sevens(normal) <= |exceptional|
    ensures |symbols| == |normal|
  {
    if normal == [] then []
    else if normal[0] == 7 then [Restored(exceptional[0])] + Merge(normal[1..], exceptional[1..])
    else [normal[0]] + Merge(normal[1..], exceptional)
  }

  // ---- Layer 4: the bytes ----

  /** The length of the shortest prefix that holds `n` zeros. */
  function Cut(bits: seq<bv8>, n: nat): (r: Option<nat>)
    requires 0 < n
    ensures r.Some? ==> 0 < r.value <= |bits|
  {
    if bits == [] then None
    else if bits[0] == 0 && n == 1 then Some(1)
    else match Cut(bits[1..], if bits[0] == 0 then n - 1 else n)
      case None => None
      case Some(k) => Some(k + 1)
  }

  function Header(version: int, n: nat): seq<bv8> {
    [Byte(version), Byte(n / 0x10000), Byte(n / 0x100), Byte(n)]
  }

  function Encode(fp: Fingerprint): seq<bv8> {
    var symbols := Symbols(fp.hashes, 0);
    Header(fp.version, |fp.hashes|) + Packed(Normal(symbols), 3) + Packed(Exceptional(symbols), 5)
  }

  function TotalValues(data: seq<bv8>): nat
    requires |data| >= 4
  {
    ByteValue(data[1]) * 0x10000 + ByteValue(data[2]) * 0x100 + ByteValue(data[3])
  }

  function Decode(data: seq<bv8>): Result<Fingerprint, DecodeError> {
    if |data| < 4 then Failure(TooShort)
    else if TotalValues(data) == 0 then Failure(Empty)
    else
      var bits := Unpacked(data[4..], 3);
      match Cut(bits, TotalValues(data))
      case None => Failure(NormalBitsMissing)
      case Some(n) =>
        var exceptional := Unpacked(data[4 + PackedSize(n, 3)..], 5);
        if |exceptional| < Sevens(bits[..n]) then Failure(ExceptionalBitsMissing)
        else Success(Fingerprint(ByteValue(data[0]), Words(Merge(bits[..n], exceptional), 0, 0, 0)))
  }
}
