/** What the symbols of a compressed fingerprint say about the bits of its hashes, in numbers. */
module CodecBits {
  import opened Bits
  import opened Bits32
  import opened Bytes
  import opened PopCount
  import opened Codec
  import opened CodecTheorems

  // ---- Positions as numbers ----

  function Next(x: bv8): bv8 { x + 1 }

  lemma {:induction false} AdvanceBy(a: bv8, b: bv8, n: nat)
    requires ByteValue(b) == n
    ensures ByteValue(Advance(a, b)) == (ByteValue(a) + n) % 256
    decreases n
  {
    hide Advance, Next, ByteValue;
    if n == 0 {
      NothingAdded(a, b);
      Sum256(ByteValue(a), 0);
    } else {
      var c := ByteWith(n - 1);
      ByteIs(c);
      AdvanceBy(a, c, n - 1);
      Wraps(c);
      SameValue(Next(c), b);
      OneMore(a, c);
      Wraps(Advance(a, c));
      Sum256(ByteValue(a) + n - 1, 1);
    }
  }

  lemma AdvanceNumber(a: bv8, b: bv8)
    ensures ByteValue(Advance(a, b)) == (ByteValue(a) + ByteValue(b)) % 256
  {
    hide Advance, ByteValue;
    AdvanceBy(a, b, ByteValue(b));
  }

  lemma NothingAdded(a: bv8, b: bv8)
    ensures ByteValue(b) == 0 ==> Advance(a, b) == a
  {
  }

  lemma ByteIs(b: bv8)
    ensures ByteValue(b) == b as nat
  {
  }

  lemma SameValue(a: bv8, b: bv8)
    ensures ByteValue(a) == ByteValue(b) ==> a == b
  {
    ThereAndBack(a);
    ThereAndBack(b);
  }

  lemma OneMore(a: bv8, c: bv8)
    ensures Advance(a, Next(c)) == Next(Advance(a, c))
  {
  }

  lemma Wraps(x: bv8)
    ensures ByteValue(Next(x)) == (ByteValue(x) + 1) % 256
  {
    NextByte(x);
    Highest(x);
  }

  lemma Highest(x: bv8)
    ensures x as nat == 255 ==> x == 255
  {
  }

  /** The sum of some symbols. */
  function SumOf(symbols: seq<bv8>): nat {
    if symbols == [] then 0 else ByteValue(symbols[0]) + SumOf(symbols[1..])
  }

  lemma {:induction false} PositionNumber(lastBit: bv8, gaps: seq<bv8>)
    ensures ByteValue(Position(lastBit, gaps)) == (ByteValue(lastBit) + SumOf(gaps)) % 256
    decreases |gaps|
  {
    hide Advance, ByteValue;
    if gaps != [] {
      AdvanceNumber(lastBit, gaps[0]);
      PositionNumber(Advance(lastBit, gaps[0]), gaps[1..]);
      Sum256(ByteValue(lastBit) + ByteValue(gaps[0]), SumOf(gaps[1..]));
    } else {
      Sum256(ByteValue(lastBit), 0);
    }
  }

  lemma Sum256(a: nat, b: nat)
    ensures (a % 256 + b) % 256 == (a + b) % 256
    ensures a < 256 ==> a % 256 == a
  {
  }

  lemma PlaceShift(word: bv32, p: bv8, t: bv6)
    requires 1 <= p <= 32 && t as bv8 == p - 1
    ensures word & (1 << (p - 1)) != 0 <==> word as bv64 & (1 as bv64 << t) != 0
  {
  }

  lemma WideIndex(t: bv6)
    ensures (t as bv8) as nat == t as nat
  {
  }

  lemma Predecessor(p: bv8)
    requires p >= 1
    ensures p as nat >= 1 && (p - 1) as nat == p as nat - 1
  {
  }

  lemma SameByte(a: bv8, b: bv8)
    requires a as nat == b as nat
    ensures a == b
  {
    ThereAndBack(a);
    ThereAndBack(b);
  }

  lemma Order8(p: bv8)
    ensures 1 <= p <= 32 <==> 1 <= p as nat <= 32
  {
  }

  /** Position `p` is bit `p - 1`. */
  lemma PositionBit(word: bv32, p: bv8, k: nat)
    requires 1 <= p <= 32 && ByteValue(p) == k + 1 && k < 32
    ensures HasPosition(word, p) <==> Has32(word, k)
  {
    hide Index;
    IndexBack(k);
    WideIndex(Index(k));
    Predecessor(p);
    SameByte(Index(k) as bv8, p - 1);
    PlaceShift(word, p, Index(k));
  }

  /** Some first symbols of the group sum up to `k + 1`, modulo 256. */
  ghost predicate SumsTo(group: seq<bv8>, k: nat) {
    exists j :: 0 < j <= |group| && SumOf(group[..j]) % 256 == k + 1
  }

  lemma ReachesSums(group: seq<bv8>, p: bv8, k: nat)
    requires ByteValue(p) == k + 1
    ensures Reaches(0, group, p) <==> SumsTo(group, k)
  {
    hide Position, SumOf;
    forall j | 0 < j <= |group|
      ensures Position(0, group[..j]) == p <==> SumOf(group[..j]) % 256 == k + 1
    {
      PositionNumber(0, group[..j]);
      if SumOf(group[..j]) % 256 == k + 1 {
        SameByte(Position(0, group[..j]), p);
      }
    }
    if Reaches(0, group, p) {
      var j :| 0 < j <= |group| && Position(0, group[..j]) == p;
      assert SumOf(group[..j]) % 256 == k + 1;
    }
    if SumsTo(group, k) {
      var j :| 0 < j <= |group| && SumOf(group[..j]) % 256 == k + 1;
      assert Position(0, group[..j]) == p;
    }
  }

  /** On arbitrary accepted bytes: bit `k` of a hash differs from that bit of the hash before it, or of zero for the first,
      exactly if some first symbols of its group sum up to `k + 1`, modulo 256. */
  lemma HashesMeaning(data: seq<bv8>) returns (groups: seq<seq<bv8>>)
    requires Decode(data).Success?
    ensures Grouped(groups) && Closed(groups) == SymbolsIn(data) && |groups| == |Decode(data).value.hashes|
    ensures var hashes := Decode(data).value.hashes;
            && (forall k: nat :: |hashes| > 0 && k < 32 ==> (Has32(hashes[0], k) <==> SumsTo(groups[0], k)))
            && (forall i, k: nat :: 0 < i < |hashes| && k < 32 ==>
                  (Has32(hashes[i], k) != Has32(hashes[i - 1], k) <==> SumsTo(groups[i], k)))
  {
    hide Has32, HasPosition, Reaches, SumsTo, Codec.Xor, Decode, SymbolsIn, Closed;
    groups := DecodeMeaning(data);
    var hashes := Decode(data).value.hashes;
    forall i: nat, k: nat | i < |hashes| && k < 32
      ensures Has32(hashes[i], k) != (i > 0 && Has32(hashes[i - 1], k)) <==> SumsTo(groups[i], k)
    {
      HashBit(hashes[i], if i == 0 then 0 else hashes[i - 1], groups[i], k);
      ZeroHas(k);
    }
  }

  lemma ZeroHas(k: nat)
    requires k < 32
    ensures !Has32(0, k)
  {
    hide Has64;
    Has64Zero(k);
    assert Wide(0) == 0;
  }

  lemma HashBit(h: bv32, before: bv32, group: seq<bv8>, k: nat)
    requires k < 32
    requires forall p: bv8 :: 1 <= p <= 32 ==> HasPosition(Codec.Xor(h, before), p) == Reaches(0, group, p)
    ensures Has32(h, k) != Has32(before, k) <==> SumsTo(group, k)
  {
    hide Has32, HasPosition, Reaches, SumsTo, Codec.Xor;
    var p := ByteWith(k + 1);
    Order8(p);
    PositionBit(Codec.Xor(h, before), p, k);
    ReachesSums(group, p, k);
    XorHas(h, before, k);
  }
}
