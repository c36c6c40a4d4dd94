/** Counting set bits: util/popcount.go. */
module PopCount {
  import opened Bits

  // ---- The code's arithmetic, stage by stage ----

  function Pairs(x: bv64): bv64 { x - ((x >> 1) & 0x5555555555555555) }

  function Nibbles(x: bv64): bv64 { (x & 0x3333333333333333) + ((x >> 2) & 0x3333333333333333) }

  function Bytes(x: bv64): bv64 { (x + (x >> 4)) & 0x0f0f0f0f0f0f0f0f }

  function Gather(x: bv64): bv64 { (x * 0x0101010101010101) >> 56 }

  /** Go's `int(...)` of an unsigned word. */
  function Int64(x: bv64): int { x as int }

  function PopCount64(x: bv64): int { Int64(Gather(Bytes(Nibbles(Pairs(x))))) }

  function Bytes32(x: bv32): bv32 {
    var p := x - ((x >> 1) & 0x55555555);
    var n := (p & 0x33333333) + ((p >> 2) & 0x33333333);
    (n + (n >> 4)) & 0x0f0f0f0f
  }

  function Gather32(x: bv32): bv32 { (x * 0x01010101) >> 24 }

  function Int32(x: bv32): int { x as int }

  function PopCount32(x: bv32): int { Int32(Gather32(Bytes32(x))) }

  // ---- Each byte of the third stage counts the bits of the same byte of the input ----

  function ByteAt(x: bv64, k: bv64): bv64
    requires k <= 56
  {
    (x >> k) & 0xff
  }

  function Add(a: bv64, b: bv64): bv64 { a + b }

  /** Bit `i` of a byte. */
  function BitAt(b: bv64, i: bv64): bv64
    requires i < 8
  {
    (b >> i) & 1
  }

  function Count8(b: bv64): bv64 {
    Add(Add(Add(Add(Add(Add(Add(BitAt(b, 0), BitAt(b, 1)), BitAt(b, 2)), BitAt(b, 3)),
                BitAt(b, 4)), BitAt(b, 5)), BitAt(b, 6)), BitAt(b, 7))
  }

  // The same stages on one byte.
  function Pairs8(b: bv64): bv64 { b - ((b >> 1) & 0x55) }

  function Nibbles8(b: bv64): bv64 { (b & 0x33) + ((b >> 2) & 0x33) }

  function Bytes8(b: bv64): bv64 { (b + (b >> 4)) & 0x0f }

  lemma PairsByte(x: bv64, k: bv64)
    requires k <= 56 && k & 7 == 0
    ensures ((x - ((x >> 1) & 0x5555555555555555)) >> k) & 0xff == ((x >> k) & 0xff) - ((((x >> k) & 0xff) >> 1) & 0x55)
  {
  }

  lemma NibblesByte(x: bv64, k: bv64)
    requires k <= 56 && k & 7 == 0
    ensures (((x & 0x3333333333333333) + ((x >> 2) & 0x3333333333333333)) >> k) & 0xff ==
            (((x >> k) & 0xff) & 0x33) + ((((x >> k) & 0xff) >> 2) & 0x33)
  {
  }

  lemma BytesByte(x: bv64, k: bv64)
    requires k <= 56 && k & 7 == 0 && x & 0x8888888888888888 == 0
    ensures (((x + (x >> 4)) & 0x0f0f0f0f0f0f0f0f) >> k) & 0xff == (((x >> k) & 0xff) + (((x >> k) & 0xff) >> 4)) & 0x0f
  {
  }

  lemma NibblesSmall(x: bv64)
    ensures Nibbles(Pairs(x)) & 0x8888888888888888 == 0
  {
  }

  lemma PairsAt(x: bv64, k: bv64)
    requires k <= 56 && k & 7 == 0
    ensures ByteAt(Pairs(x), k) == Pairs8(ByteAt(x, k))
  {
    PairsByte(x, k);
  }

  lemma NibblesAt(x: bv64, k: bv64)
    requires k <= 56 && k & 7 == 0
    ensures ByteAt(Nibbles(x), k) == Nibbles8(ByteAt(x, k))
  {
    NibblesByte(x, k);
  }

  lemma BytesAt(x: bv64, k: bv64)
    requires k <= 56 && k & 7 == 0 && x & 0x8888888888888888 == 0
    ensures ByteAt(Bytes(x), k) == Bytes8(ByteAt(x, k))
  {
    BytesByte(x, k);
  }

  lemma StagesCount(b: bv64)
    requires b <= 0xff
    ensures Bytes8(Nibbles8(Pairs8(b))) == Count8(b)
  {
  }

  lemma ByteAtSmall(x: bv64, k: bv64)
    requires k <= 56
    ensures ByteAt(x, k) <= 0xff
  {
  }

  lemma ByteCount(x: bv64, k: bv64)
    requires k <= 56 && k & 7 == 0
    ensures ByteAt(Bytes(Nibbles(Pairs(x))), k) == Count8(ByteAt(x, k))
  {
    hide Pairs, Nibbles, Bytes, Pairs8, Nibbles8, Bytes8, ByteAt, Count8;
    PairsAt(x, k);
    NibblesAt(Pairs(x), k);
    NibblesSmall(x);
    BytesAt(Nibbles(Pairs(x)), k);
    ByteAtSmall(x, k);
    StagesCount(ByteAt(x, k));
  }

  // ---- The multiplication adds up the eight bytes ----

  predicate Nibbly(y: bv64) { y & 0xf0f0f0f0f0f0f0f0 == 0 }

  lemma BytesNibbly(x: bv64)
    ensures Nibbly(Bytes(x))
  {
  }

  // The sum of the low bytes only. Adding one byte at a time leaves no carry to argue about.
  function Low2(y: bv64): bv64 { ((y & 0xffff) * 0x0101010101010101) >> 56 }

  function Low3(y: bv64): bv64 { ((y & 0xffffff) * 0x0101010101010101) >> 56 }

  function Low4(y: bv64): bv64 { ((y & 0xffffffff) * 0x0101010101010101) >> 56 }

  function Low5(y: bv64): bv64 { ((y & 0xffffffffff) * 0x0101010101010101) >> 56 }

  function Low6(y: bv64): bv64 { ((y & 0xffffffffffff) * 0x0101010101010101) >> 56 }

  function Low7(y: bv64): bv64 { ((y & 0xffffffffffffff) * 0x0101010101010101) >> 56 }

  lemma Lane1(y: bv64)
    requires Nibbly(y)
    ensures Low2(y) == Add(ByteAt(y, 0), ByteAt(y, 8))
  {
  }

  lemma Lane2(y: bv64)
    requires Nibbly(y)
    ensures Low3(y) == Add(Low2(y), ByteAt(y, 16))
  {
  }

  lemma Lane3(y: bv64)
    requires Nibbly(y)
    ensures Low4(y) == Add(Low3(y), ByteAt(y, 24))
  {
  }

  lemma Lane4(y: bv64)
    requires Nibbly(y)
    ensures Low5(y) == Add(Low4(y), ByteAt(y, 32))
  {
  }

  lemma Lane5(y: bv64)
    requires Nibbly(y)
    ensures Low6(y) == Add(Low5(y), ByteAt(y, 40))
  {
  }

  lemma Lane6(y: bv64)
    requires Nibbly(y)
    ensures Low7(y) == Add(Low6(y), ByteAt(y, 48))
  {
  }

  lemma Lane7(y: bv64)
    requires Nibbly(y)
    ensures Gather(y) == Add(Low7(y), ByteAt(y, 56))
  {
  }

  lemma NibblyByte(y: bv64, k: bv64)
    requires Nibbly(y) && k <= 56 && k & 7 == 0
    ensures ByteAt(y, k) <= 15
  {
  }

  lemma Plus(a: bv64, b: bv64, sum: bv64, max: bv64)
    requires a <= max <= 105 && b <= 15 && sum == Add(a, b)
    ensures Int64(sum) == Int64(a) + Int64(b) && sum <= max + 15
  {
  }

  lemma LaneSum(y: bv64, k: bv64, below: bv64, upTo: bv64, max: bv64)
    requires Nibbly(y) && k <= 56 && k & 7 == 0
    requires below <= max <= 105 && upTo == Add(below, ByteAt(y, k))
    ensures Int64(upTo) == Int64(below) + Int64(ByteAt(y, k)) && upTo <= max + 15
  {
    hide ByteAt, Nibbly, Int64, Add;
    NibblyByte(y, k);
    Plus(below, ByteAt(y, k), upTo, max);
  }

  lemma GatherSums(y: bv64)
    requires Nibbly(y)
    ensures Int64(Gather(y)) ==
            Int64(ByteAt(y, 0)) + Int64(ByteAt(y, 8)) + Int64(ByteAt(y, 16)) + Int64(ByteAt(y, 24)) +
            Int64(ByteAt(y, 32)) + Int64(ByteAt(y, 40)) + Int64(ByteAt(y, 48)) + Int64(ByteAt(y, 56))
  {
    hide Gather, Low2, Low3, Low4, Low5, Low6, Low7, ByteAt, Nibbly, Int64, Add;
    NibblyByte(y, 0);
    Lane1(y);
    LaneSum(y, 8, ByteAt(y, 0), Low2(y), 15);
    Lane2(y);
    LaneSum(y, 16, Low2(y), Low3(y), 30);
    Lane3(y);
    LaneSum(y, 24, Low3(y), Low4(y), 45);
    Lane4(y);
    LaneSum(y, 32, Low4(y), Low5(y), 60);
    Lane5(y);
    LaneSum(y, 40, Low5(y), Low6(y), 75);
    Lane6(y);
    LaneSum(y, 48, Low6(y), Low7(y), 90);
    Lane7(y);
    LaneSum(y, 56, Low7(y), Gather(y), 105);
  }

  // ---- The bits of a byte ----

  /** One bit of a word, as a number. */
  function One(x: bv64, k: nat): nat
    requires k < 64
  {
    if Has64(x, k) then 1 else 0
  }

  function Ones8(x: bv64, k: nat): nat
    requires k <= 56
  {
    One(x, k) + One(x, k + 1) + One(x, k + 2) + One(x, k + 3) +
    One(x, k + 4) + One(x, k + 5) + One(x, k + 6) + One(x, k + 7)
  }

  lemma BitSum(b: bv64, i: bv64, below: bv64, upTo: bv64, max: bv64)
    requires i < 8 && below <= max <= 7 && upTo == Add(below, BitAt(b, i))
    ensures Int64(upTo) == Int64(below) + Int64(BitAt(b, i)) && upTo <= max + 1
  {
    hide Int64, Add;
    BitAtSmall(b, i);
    Plus(below, BitAt(b, i), upTo, max);
    PlusOne(below, BitAt(b, i), max);
  }

  lemma BitAtSmall(b: bv64, i: bv64)
    requires i < 8
    ensures BitAt(b, i) <= 1
    ensures Int64(BitAt(b, i)) == if BitAt(b, i) == 1 then 1 else 0
  {
  }

  lemma PlusOne(a: bv64, b: bv64, max: bv64)
    requires a <= max <= 7 && b <= 1
    ensures Add(a, b) <= max + 1
  {
  }

  lemma Count8Sums(b: bv64)
    ensures Int64(Count8(b)) ==
            Int64(BitAt(b, 0)) + Int64(BitAt(b, 1)) + Int64(BitAt(b, 2)) + Int64(BitAt(b, 3)) +
            Int64(BitAt(b, 4)) + Int64(BitAt(b, 5)) + Int64(BitAt(b, 6)) + Int64(BitAt(b, 7))
  {
    hide Int64, Add, BitAt;
    BitAtSmall(b, 0);
    var s1 := Add(BitAt(b, 0), BitAt(b, 1));
    var s2 := Add(s1, BitAt(b, 2));
    var s3 := Add(s2, BitAt(b, 3));
    var s4 := Add(s3, BitAt(b, 4));
    var s5 := Add(s4, BitAt(b, 5));
    var s6 := Add(s5, BitAt(b, 6));
    BitSum(b, 1, BitAt(b, 0), s1, 1);
    BitSum(b, 2, s1, s2, 2);
    BitSum(b, 3, s2, s3, 3);
    BitSum(b, 4, s3, s4, 4);
    BitSum(b, 5, s4, s5, 5);
    BitSum(b, 6, s5, s6, 6);
    BitSum(b, 7, s6, Add(s6, BitAt(b, 7)), 7);
  }

  predicate Hits(x: bv64, m: bv64) { NonZero(Under(x, m)) }

  function Shift(m: bv64, base: bv64): bv64
    requires base <= 56
  {
    m << base
  }

  /** The masks of bits `k` to `k + 7` are the masks of one byte, shifted. */
  predicate MaskRun(k: nat, base: bv64) {
    && k <= 56 && base <= 56 && base & 7 == 0
    && Mask64(k) == Shift(1, base) && Mask64(k + 1) == Shift(2, base) && Mask64(k + 2) == Shift(4, base)
    && Mask64(k + 3) == Shift(8, base) && Mask64(k + 4) == Shift(16, base) && Mask64(k + 5) == Shift(32, base)
    && Mask64(k + 6) == Shift(64, base) && Mask64(k + 7) == Shift(128, base)
  }

  lemma MaskRuns()
    ensures MaskRun(0, 0) && MaskRun(8, 8) && MaskRun(16, 16) && MaskRun(24, 24)
    ensures MaskRun(32, 32) && MaskRun(40, 40) && MaskRun(48, 48) && MaskRun(56, 56)
  {
  }

  lemma Masked(x: bv64, base: bv64, i: bv64, m: bv64)
    requires base <= 56 && base & 7 == 0 && i < 8 && m == 1 << i
    ensures Hits(x, Shift(m, base)) == (BitAt(ByteAt(x, base), i) == 1)
  {
  }

  lemma OneIs(x: bv64, k: nat, base: bv64, m: bv64, i: bv64)
    requires k < 64 && base <= 56 && base & 7 == 0 && i < 8 && m == 1 << i && Mask64(k) == Shift(m, base)
    ensures One(x, k) == Int64(BitAt(ByteAt(x, base), i))
  {
    hide NonZero, Under, Mask64, Int64, BitAt, Shift, ByteAt;
    Masked(x, base, i, m);
    BitAtSmall(ByteAt(x, base), i);
  }

  lemma OnesOfByte(x: bv64, k: nat, base: bv64)
    requires MaskRun(k, base)
    ensures Ones8(x, k) == Int64(Count8(ByteAt(x, base)))
  {
    hide Int64, BitAt, ByteAt, Count8, Mask64, Shift, One;
    OneIs(x, k, base, 1, 0);
    OneIs(x, k + 1, base, 2, 1);
    OneIs(x, k + 2, base, 4, 2);
    OneIs(x, k + 3, base, 8, 3);
    OneIs(x, k + 4, base, 16, 4);
    OneIs(x, k + 5, base, 32, 5);
    OneIs(x, k + 6, base, 64, 6);
    OneIs(x, k + 7, base, 128, 7);
    Count8Sums(ByteAt(x, base));
  }

  // ---- The theorems ----

  /** How many of the bits below `n` are set. */
  function Ones(x: bv64, n: nat): nat
    requires n <= 64
  {
    if n == 0 then 0 else Ones(x, n - 1) + One(x, n - 1)
  }

  lemma OnesStep(x: bv64, k: nat)
    requires k <= 56
    ensures Ones(x, k + 8) == Ones(x, k) + Ones8(x, k)
  {
    hide One;
    assert Ones(x, k + 2) == Ones(x, k) + One(x, k) + One(x, k + 1);
    assert Ones(x, k + 4) == Ones(x, k + 2) + One(x, k + 2) + One(x, k + 3);
    assert Ones(x, k + 6) == Ones(x, k + 4) + One(x, k + 4) + One(x, k + 5);
  }

  lemma PopCount64Correct(x: bv64)
    ensures PopCount64(x) == Ones(x, 64)
  {
    hide Int64, Gather, Pairs, Nibbles, Bytes, ByteAt, Count8, Nibbly, Ones8, Ones, MaskRun;
    var y := Bytes(Nibbles(Pairs(x)));
    BytesNibbly(Nibbles(Pairs(x)));
    GatherSums(y);
    MaskRuns();
    ByteCount(x, 0);
    ByteCount(x, 8);
    ByteCount(x, 16);
    ByteCount(x, 24);
    ByteCount(x, 32);
    ByteCount(x, 40);
    ByteCount(x, 48);
    ByteCount(x, 56);
    OnesOfByte(x, 0, 0);
    OnesOfByte(x, 8, 8);
    OnesOfByte(x, 16, 16);
    OnesOfByte(x, 24, 24);
    OnesOfByte(x, 32, 32);
    OnesOfByte(x, 40, 40);
    OnesOfByte(x, 48, 48);
    OnesOfByte(x, 56, 56);
    OnesAll(x);
  }

  lemma OnesAll(x: bv64)
    ensures Ones(x, 64) == Ones8(x, 0) + Ones8(x, 8) + Ones8(x, 16) + Ones8(x, 24) +
                           Ones8(x, 32) + Ones8(x, 40) + Ones8(x, 48) + Ones8(x, 56)
  {
    hide Ones8;
    assert Ones(x, 0) == 0;
    OnesStep(x, 0);
    OnesStep(x, 8);
    OnesStep(x, 16);
    OnesStep(x, 24);
    OnesStep(x, 32);
    OnesStep(x, 40);
    OnesStep(x, 48);
    OnesStep(x, 56);
  }

  // ---- 32 bits: the same computation on the widened word ----

  function Wide(x: bv32): bv64 { x as bv64 }

  lemma StagesWidened(x: bv32)
    ensures Wide(Bytes32(x)) == Bytes(Nibbles(Pairs(Wide(x))))
  {
  }

  function SumOfFour(y: bv64): bv64 { (y & 255) + ((y >> 8) & 255) + ((y >> 16) & 255) + ((y >> 24) & 255) }

  lemma Gather32Sum(x: bv32)
    requires x & 0xf0f0f0f0 == 0
    ensures Wide(Gather32(x)) == SumOfFour(Wide(x))
  {
  }

  lemma GatherLowSum(y: bv64)
    requires Nibbly(y) && y >> 32 == 0
    ensures Gather(y) == SumOfFour(y)
  {
  }

  lemma Bytes32Nibbly(x: bv32)
    ensures Bytes32(x) & 0xf0f0f0f0 == 0
    ensures Gather32(Bytes32(x)) <= 255
  {
  }

  lemma WideNibbly(x: bv32)
    requires x & 0xf0f0f0f0 == 0
    ensures Nibbly(Wide(x)) && Wide(x) >> 32 == 0
  {
  }

  lemma IntWide(x: bv32)
    requires x <= 255
    ensures Int32(x) == Int64(Wide(x))
  {
  }

  lemma PopCount32Correct(x: bv32)
    ensures PopCount32(x) == Ones(Wide(x), 32)
  {
    hide Bytes32, Gather32, Gather, Wide, Int32, Int64, Nibbly, SumOfFour, Pairs, Nibbles, Bytes, Ones;
    var b := Bytes32(x);
    Bytes32Nibbly(x);
    WideNibbly(b);
    Gather32Sum(b);
    GatherLowSum(Wide(b));
    StagesWidened(x);
    IntWide(Gather32(b));
    PopCount64Correct(Wide(x));
    OnesWide(x, 64);
  }

  lemma {:induction false} OnesWide(x: bv32, n: nat)
    requires 32 <= n <= 64
    ensures Ones(Wide(x), n) == Ones(Wide(x), 32)
  {
    hide Wide, One;
    if n > 32 {
      HighBitClear(x, n - 1);
      OnesWide(x, n - 1);
    }
  }

  lemma HighBitClear(x: bv32, k: nat)
    requires 32 <= k < 64
    ensures One(Wide(x), k) == 0
  {
  }
}
