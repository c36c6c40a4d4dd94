/** Bit packing as arithmetic: the packed bytes are the base-256 digits of the number whose base-2^w digits are the
    values. */
module PackNumbers {
  import opened Arithmetic
  import opened Bits
  import opened Bytes
  import opened Pack
  import opened Words

  /** The number with the given digits of `w` bits, lowest first. */
  function Number(xs: seq<bv8>, w: nat): nat {
    if xs == [] then 0 else Number(xs[..|xs| - 1], w) + ByteValue(xs[|xs| - 1]) * Pow2(w * (|xs| - 1))
  }

  function BitValue(b: bool): nat { if b then 1 else 0 }

  /** The number whose bits are the first `n` bits of the stream. */
  function StreamNumber(xs: seq<bv8>, w: nat, n: nat): nat
    requires 0 < w <= 8
  {
    if n == 0 then 0 else StreamNumber(xs, w, n - 1) + BitValue(StreamBit(xs, w, n - 1)) * Pow2(n - 1)
  }

  /** A byte is the sum of its bits. */
  lemma ByteBits(x: bv8)
    ensures ByteValue(x) == BitValue(Has8(x, 0)) + 2 * BitValue(Has8(x, 1)) + 4 * BitValue(Has8(x, 2)) + 8 * BitValue(Has8(x, 3)) +
                            16 * BitValue(Has8(x, 4)) + 32 * BitValue(Has8(x, 5)) + 64 * BitValue(Has8(x, 6)) + 128 * BitValue(Has8(x, 7))
  {
    Masks8();
  }

  /** The number of the low `t` bits of a byte. */
  function LowValue(x: bv8, t: nat): nat
    requires t <= 8
  {
    if t == 0 then 0 else LowValue(x, t - 1) + BitValue(Has8(x, t - 1)) * Pow2(t - 1)
  }

  lemma LowValueAll(x: bv8)
    ensures LowValue(x, 8) == ByteValue(x)
  {
    hide Has8, ByteValue;
    ByteBits(x);
    SmallPowers();
    assert LowValue(x, 0) == 0;
    assert LowValue(x, 2) == LowValue(x, 0) + BitValue(Has8(x, 0)) + 2 * BitValue(Has8(x, 1));
    assert LowValue(x, 4) == LowValue(x, 2) + 4 * BitValue(Has8(x, 2)) + 8 * BitValue(Has8(x, 3));
    assert LowValue(x, 6) == LowValue(x, 4) + 16 * BitValue(Has8(x, 4)) + 32 * BitValue(Has8(x, 5));
    assert LowValue(x, 8) == LowValue(x, 6) + 64 * BitValue(Has8(x, 6)) + 128 * BitValue(Has8(x, 7));
  }

  lemma SmallPowers()
    ensures Pow2(0) == 1 && Pow2(1) == 2 && Pow2(2) == 4 && Pow2(3) == 8 && Pow2(4) == 16
    ensures Pow2(5) == 32 && Pow2(6) == 64 && Pow2(7) == 128 && Pow2(8) == 256
  {
    assert Pow2(2) == 2 * Pow2(1);
    assert Pow2(4) == 2 * Pow2(3) && Pow2(3) == 2 * Pow2(2);
    assert Pow2(6) == 2 * Pow2(5) && Pow2(5) == 2 * Pow2(4);
    assert Pow2(8) == 2 * Pow2(7) && Pow2(7) == 2 * Pow2(6);
  }

  lemma {:induction false} LowValueSmall(x: bv8, w: nat, t: nat)
    requires w < 8 && w <= t <= 8 && x < Mask8(w)
    ensures LowValue(x, t) == LowValue(x, w)
    decreases t
  {
    hide Has8, Mask8;
    if t > w {
      HighBitClear(x, w, t - 1);
      LowValueSmall(x, w, t - 1);
    }
  }

  lemma {:induction false} PowSum(a: nat, b: nat)
    ensures Pow2(a + b) == Pow2(a) * Pow2(b)
    decreases a
  {
    if a > 0 {
      PowSum(a - 1, b);
      assert Pow2(a + b) == 2 * Pow2(a - 1 + b);
      assert 2 * (Pow2(a - 1) * Pow2(b)) == (2 * Pow2(a - 1)) * Pow2(b);
    }
  }

  lemma TimesPow(x: nat, a: nat, b: nat)
    ensures x * Pow2(a) * Pow2(b) == x * Pow2(a + b)
  {
    PowSum(a, b);
    assert x * Pow2(a) * Pow2(b) == x * (Pow2(a) * Pow2(b));
  }

  lemma LastStreamBit(xs: seq<bv8>, w: nat, t: nat, base: nat)
    requires 0 < w <= 8 && t < w && xs != [] && base == w * (|xs| - 1)
    ensures StreamBit(xs, w, base + t) == Has8(xs[|xs| - 1], t)
  {
    hide Has8;
    DivUnique(base + t, w, |xs| - 1, t);
  }

  /** The stream up to bit `t` of the last element. */
  lemma {:induction false} LastElement(xs: seq<bv8>, w: nat, t: nat, base: nat)
    requires 0 < w <= 8 && t <= w && xs != [] && base == w * (|xs| - 1)
    ensures StreamNumber(xs, w, base + t) == StreamNumber(xs, w, base) + LowValue(xs[|xs| - 1], t) * Pow2(base)
    decreases t
  {
    hide Has8, Pow2, StreamBit;
    if t > 0 {
      var x := xs[|xs| - 1];
      LastElement(xs, w, t - 1, base);
      LastStreamBit(xs, w, t - 1, base);
      LastBit(LowValue(x, t - 1), BitValue(Has8(x, t - 1)), t - 1, base);
      assert StreamNumber(xs, w, base + t) == StreamNumber(xs, w, base + (t - 1)) + BitValue(StreamBit(xs, w, base + t - 1)) * Pow2(base + t - 1);
    }
  }

  lemma LastBit(low: nat, bit: nat, t: nat, base: nat)
    ensures (low + bit * Pow2(t)) * Pow2(base) == low * Pow2(base) + bit * Pow2(base + t)
  {
    TimesPow(bit, t, base);
  }

  lemma {:induction false} StreamFront(xs: seq<bv8>, w: nat, n: nat)
    requires 0 < w <= 8 && xs != [] && n <= w * (|xs| - 1)
    ensures StreamNumber(xs, w, n) == StreamNumber(xs[..|xs| - 1], w, n)
    decreases n
  {
    hide StreamBit, Pow2;
    if n > 0 {
      StreamFront(xs, w, n - 1);
      StreamTake(xs, w, |xs| - 1, n - 1);
    }
  }

  /** Digits that fit make the number of the stream. */
  lemma {:induction false} NumberIsStream(xs: seq<bv8>, w: nat)
    requires 0 < w <= 8 && (w < 8 ==> Fits(xs, w))
    ensures Number(xs, w) == StreamNumber(xs, w, w * |xs|)
    decreases |xs|
  {
    hide Has8, Mask8, Pow2, StreamBit;
    if xs != [] {
      var x := xs[|xs| - 1];
      NumberIsStream(xs[..|xs| - 1], w);
      StreamFront(xs, w, w * (|xs| - 1));
      LastElement(xs, w, w, w * (|xs| - 1));
      assert w * (|xs| - 1) + w == w * |xs|;
      LowValueAll(x);
      if w < 8 {
        LowValueSmall(x, w, 8);
      }
    }
  }

  lemma {:induction false} SameStream(xs: seq<bv8>, w: nat, ys: seq<bv8>, v: nat, n: nat)
    requires 0 < w <= 8 && 0 < v <= 8
    requires forall k: nat :: k < n ==> StreamBit(xs, w, k) == StreamBit(ys, v, k)
    ensures StreamNumber(xs, w, n) == StreamNumber(ys, v, n)
    decreases n
  {
    hide StreamBit, Pow2;
    if n > 0 {
      SameStream(xs, w, ys, v, n - 1);
    }
  }

  /** The stream is zero past its end. */
  lemma {:induction false} StreamEnds(xs: seq<bv8>, w: nat, n: nat)
    requires 0 < w <= 8 && n >= w * |xs|
    ensures StreamNumber(xs, w, n) == StreamNumber(xs, w, w * |xs|)
    decreases n
  {
    hide Pow2;
    if n > w * |xs| {
      StreamEnds(xs, w, n - 1);
      MulSign(|xs| - (n - 1) / w, w);
    }
  }

  /** The packed bytes are the base-256 digits of the number whose base-2^w digits are the values. */
  lemma PackedNumber(src: seq<bv8>, w: nat)
    requires 0 < w < 8 && Fits(src, w)
    ensures Number(Packed(src, w), 8) == Number(src, w)
  {
    hide Has8, Mask8, StreamBit, Number, PackedSize;
    var p := Packed(src, w);
    NumberIsStream(src, w);
    NumberIsStream(p, 8);
    forall k: nat | k < 8 * |p|
      ensures StreamBit(p, 8, k) == StreamBit(src, w, k)
    {
      RecutStream(src, w, 8, |p|, k);
    }
    SameStream(p, 8, src, w, 8 * |p|);
    SizeLaws(|src|, 0, w);
    StreamEnds(src, w, 8 * |p|);
  }

  lemma {:induction false} StreamBelow(xs: seq<bv8>, w: nat, n: nat)
    requires 0 < w <= 8
    ensures StreamNumber(xs, w, n) < Pow2(n)
    decreases n
  {
    hide StreamBit;
    if n > 0 {
      StreamBelow(xs, w, n - 1);
    }
  }

  lemma {:induction false} StreamLow(xs: seq<bv8>, w: nat, m: nat, n: nat) returns (q: nat)
    requires 0 < w <= 8 && m <= n
    ensures StreamNumber(xs, w, n) == q * Pow2(m) + StreamNumber(xs, w, m)
    decreases n
  {
    hide StreamBit, Pow2;
    if n == m {
      q := 0;
    } else {
      var p := StreamLow(xs, w, m, n - 1);
      var bit := BitValue(StreamBit(xs, w, n - 1));
      TimesPow(bit, n - 1 - m, m);
      q := p + bit * Pow2(n - 1 - m);
      assert q * Pow2(m) == p * Pow2(m) + bit * Pow2(n - 1 - m) * Pow2(m);
    }
  }

  /** On any bytes: the values are the base-2^w digits of the number whose base-256 digits are the bytes, as many as are
      complete. */
  lemma UnpackedNumber(data: seq<bv8>, w: nat)
    requires w == 3 || w == 5
    ensures Number(Unpacked(data, w), w) == Number(data, 8) % Pow2(w * (8 * |data| / w))
    ensures Fits(Unpacked(data, w), w)
  {
    hide Has8, Mask8, StreamBit, Number;
    var v := Unpacked(data, w);
    var m := w * |v|;
    UnpackedFits(data, w);
    NumberIsStream(v, w);
    NumberIsStream(data, 8);
    forall k: nat | k < m
      ensures StreamBit(v, w, k) == StreamBit(data, 8, k)
    {
      RecutStream(data, 8, w, |v|, k);
    }
    SameStream(v, w, data, 8, m);
    var q := StreamLow(data, 8, m, 8 * |data|);
    StreamBelow(data, 8, m);
    DivUnique(Number(data, 8), Pow2(m), q, StreamNumber(data, 8, m));
  }
}
