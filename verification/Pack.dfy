/** Bit packing of small integers: util/pack.go, widths 3 and 5. */
module Pack {
  import opened Arithmetic
  import opened Bits

  // ---- Specification: one bit stream, read with two different field widths ----

  /** Bit `k` of the stream obtained by laying the low `w` bits of each element end to end. */
  predicate StreamBit(xs: seq<bv8>, w: nat, k: nat)
    requires 0 < w <= 8
  {
    k / w < |xs| && Has8(xs[k / w], k % w)
  }

  /** Bit `t` of the `v`-bit field that starts at stream bit `from`. */
  predicate FieldBit(xs: seq<bv8>, w: nat, from: nat, v: nat, t: nat)
    requires 0 < w <= 8
  {
    t < v && StreamBit(xs, w, from + t)
  }

  function Field(xs: seq<bv8>, w: nat, from: nat, v: nat): bv8
    requires 0 < w <= 8
  {
    Word8(FieldBit(xs, w, from, v, 0), FieldBit(xs, w, from, v, 1), FieldBit(xs, w, from, v, 2),
          FieldBit(xs, w, from, v, 3), FieldBit(xs, w, from, v, 4), FieldBit(xs, w, from, v, 5),
          FieldBit(xs, w, from, v, 6), FieldBit(xs, w, from, v, 7))
  }

  /** The stream of `w`-bit fields `xs`, cut into `n` fields of `v` bits. */
  function Recut(xs: seq<bv8>, w: nat, v: nat, n: nat): (ys: seq<bv8>)
    requires 0 < w <= 8
    ensures |ys| == n
  {
    seq(n, i requires 0 <= i => Field(xs, w, v * i, v))
  }

  function PackedSize(n: nat, w: nat): nat { (n * w + 7) / 8 }

  function UnpackedSize(n: nat, w: nat): nat
    requires 0 < w
  {
    n * 8 / w
  }

  function Packed(src: seq<bv8>, w: nat): (bytes: seq<bv8>)
    requires 0 < w <= 8
    ensures |bytes| == PackedSize(|src|, w)
  {
    Recut(src, w, 8, PackedSize(|src|, w))
  }

  function Unpacked(src: seq<bv8>, w: nat): (values: seq<bv8>)
    requires 0 < w <= 8
    ensures |values| == UnpackedSize(|src|, w)
  {
    Recut(src, 8, w, UnpackedSize(|src|, w))
  }

  /** Every element is below 2^w. */
  predicate Fits(src: seq<bv8>, w: nat)
    requires w < 8
  {
    forall i :: 0 <= i < |src| ==> src[i] < Mask8(w)
  }

  // ---- Cutting the stream at a block boundary ----

  lemma DivShift(q: nat, w: nat, k: nat)
    requires 0 < w
    ensures (q * w + k) / w == q + k / w
    ensures (q * w + k) % w == k % w
  {
    var d, m := k / w, k % w;
    assert q * w + k == (q + d) * w + m;
    DivUnique(q * w + k, w, q + d, m);
  }

  lemma StreamDrop(xs: seq<bv8>, w: nat, q: nat, k: nat)
    requires 0 < w <= 8 && q <= |xs|
    ensures StreamBit(xs, w, q * w + k) == StreamBit(xs[q..], w, k)
  {
    DivShift(q, w, k);
  }

  lemma StreamTake(xs: seq<bv8>, w: nat, q: nat, k: nat)
    requires 0 < w <= 8 && q <= |xs| && k < q * w
    ensures StreamBit(xs, w, k) == StreamBit(xs[..q], w, k)
  {
    MulSign(k / w - q, w);
  }

  lemma StreamSplit(xs: seq<bv8>, w: nat, q: nat, k: nat)
    requires 0 < w <= 8 && q <= |xs|
    ensures StreamBit(xs, w, k) ==
            if k < q * w then StreamBit(xs[..q], w, k) else StreamBit(xs[q..], w, k - q * w)
  {
    if k < q * w {
      StreamTake(xs, w, q, k);
    } else {
      StreamDrop(xs, w, q, k - q * w);
    }
  }

  lemma FieldBitSplit(xs: seq<bv8>, w: nat, v: nat, i: nat, q: nat, m: nat, t: nat)
    requires 0 < w <= 8 && 0 < v <= 8 && q <= |xs| && q * w == m * v
    ensures FieldBit(xs, w, v * i, v, t) ==
            if i < m then FieldBit(xs[..q], w, v * i, v, t) else FieldBit(xs[q..], w, v * (i - m), v, t)
  {
    hide StreamBit;
    if t < v {
      MulSign(m - i, v);
      MulSign(i - m + 1, v);
      StreamSplit(xs, w, q, v * i + t);
      assert v * i + t - q * w == v * (i - m) + t;
    }
  }

  lemma FieldSplit(xs: seq<bv8>, w: nat, v: nat, i: nat, q: nat, m: nat)
    requires 0 < w <= 8 && 0 < v <= 8 && q <= |xs| && q * w == m * v
    ensures Field(xs, w, v * i, v) ==
            if i < m then Field(xs[..q], w, v * i, v) else Field(xs[q..], w, v * (i - m), v)
  {
    hide FieldBit, StreamBit, Word8, Has8;
    forall t: nat
      ensures FieldBit(xs, w, v * i, v, t) ==
              if i < m then FieldBit(xs[..q], w, v * i, v, t) else FieldBit(xs[q..], w, v * (i - m), v, t)
    {
      FieldBitSplit(xs, w, v, i, q, m, t);
    }
  }

  /** Cutting both sides at the same bit: `q` fields of `w` bits are `m` fields of `v` bits. */
  lemma RecutSplit(xs: seq<bv8>, w: nat, v: nat, n: nat, q: nat, m: nat)
    requires 0 < w <= 8 && 0 < v <= 8 && q <= |xs| && m <= n && q * w == m * v
    ensures Recut(xs, w, v, n) == Recut(xs[..q], w, v, m) + Recut(xs[q..], w, v, n - m)
  {
    forall i | 0 <= i < n
      ensures Recut(xs, w, v, n)[i] == (Recut(xs[..q], w, v, m) + Recut(xs[q..], w, v, n - m))[i]
    {
      FieldSplit(xs, w, v, i, q, m);
    }
  }

  // ---- Reading back what was written ----

  lemma FieldHas(xs: seq<bv8>, w: nat, from: nat, v: nat, t: nat)
    requires 0 < w <= 8 && t < 8
    ensures Has8(Field(xs, w, from, v), t) == FieldBit(xs, w, from, v, t)
  {
    hide FieldBit, StreamBit, Word8, Has8;
    HasWord8(FieldBit(xs, w, from, v, 0), FieldBit(xs, w, from, v, 1), FieldBit(xs, w, from, v, 2),
             FieldBit(xs, w, from, v, 3), FieldBit(xs, w, from, v, 4), FieldBit(xs, w, from, v, 5),
             FieldBit(xs, w, from, v, 6), FieldBit(xs, w, from, v, 7));
  }

  /** Recutting changes neither the order nor the value of any bit; beyond its end there are none. */
  lemma RecutStream(xs: seq<bv8>, w: nat, v: nat, n: nat, k: nat)
    requires 0 < w <= 8 && 0 < v <= 8
    ensures StreamBit(Recut(xs, w, v, n), v, k) == (k < n * v && StreamBit(xs, w, k))
  {
    hide Field, Word8, Has8, StreamBit;
    var i, t := k / v, k % v;
    MulSign(i - n, v);
    MulSign(n - i, v);
    RecutStreamAt(xs, w, v, n, i, t);
  }

  lemma RecutStreamAt(xs: seq<bv8>, w: nat, v: nat, n: nat, i: nat, t: nat)
    requires 0 < w <= 8 && 0 < v <= 8 && t < v
    ensures StreamBit(Recut(xs, w, v, n), v, v * i + t) == (i < n && StreamBit(xs, w, v * i + t))
  {
    hide Field, Word8, Has8;
    DivUnique(v * i + t, v, i, t);
    if i < n {
      FieldHas(xs, w, v * i, v, t);
    }
  }

  /** A field of the stream that lies in the first part is a field of that part. */
  lemma StreamBitPrefix(xs: seq<bv8>, rest: seq<bv8>, w: nat, k: nat)
    requires 0 < w <= 8 && k < |xs| * w
    ensures StreamBit(xs + rest, w, k) == StreamBit(xs, w, k)
  {
    MulSign(k / w - |xs|, w);
  }

  lemma OwnField(src: seq<bv8>, w: nat, i: nat, t: nat)
    requires 0 < w < 8 && t < 8 && i < |src| && Fits(src, w)
    ensures FieldBit(src, w, w * i, w, t) == Has8(src[i], t)
  {
    if t < w {
      DivUnique(w * i + t, w, i, t);
    } else {
      assert src[i] < Mask8(w);
      HighBitClear(src[i], w, t);
    }
  }

  lemma HighBitClear(b: bv8, w: nat, t: nat)
    requires w <= t < 8 && b < Mask8(w)
    ensures !Has8(b, t)
  {
    Masks8();
  }

  /** Unpacking what was packed, whatever bytes follow, starts with the packed elements. */
  lemma UnpackPack(src: seq<bv8>, w: nat, rest: seq<bv8>)
    requires 0 < w < 8 && Fits(src, w)
    ensures |src| <= UnpackedSize(|Packed(src, w) + rest|, w)
    ensures Unpacked(Packed(src, w) + rest, w)[..|src|] == src
  {
    hide FieldBit, Word8, Has8, Mask8, StreamBit;
    var p := Packed(src, w);
    SizeLaws(|src|, |rest|, w);
    forall i | 0 <= i < |src|
      ensures Unpacked(p + rest, w)[i] == src[i]
    {
      forall t: nat | t < 8
        ensures FieldBit(p + rest, 8, w * i, w, t) == Has8(src[i], t)
      {
        OwnFieldPacked(src, w, rest, i, t);
      }
      Word8Has(src[i]);
    }
  }

  lemma OwnFieldPacked(src: seq<bv8>, w: nat, rest: seq<bv8>, i: nat, t: nat)
    requires 0 < w < 8 && Fits(src, w) && i < |src| && t < 8
    ensures FieldBit(Packed(src, w) + rest, 8, w * i, w, t) == Has8(src[i], t)
  {
    hide Field, Word8, Has8, Mask8, StreamBit, PackedSize;
    var p := Packed(src, w);
    OwnField(src, w, i, t);
    if t < w {
      SizeLaws(|src|, 0, w);
      MulSign(|src| - i, w);
      StreamBitPrefix(p, rest, 8, w * i + t);
      RecutStream(src, w, 8, |p|, w * i + t);
    }
  }

  lemma SizeLaws(n: nat, r: nat, w: nat)
    requires 0 < w < 8
    ensures n <= UnpackedSize(PackedSize(n, w) + r, w)
    ensures n * w <= PackedSize(n, w) * 8 < n * w + 8
  {
    var q := UnpackedSize(PackedSize(n, w) + r, w);
    assert (PackedSize(n, w) + r) * 8 < (q + 1) * w;
    MulSign(n - q, w);
  }

  /** With nothing after it, a packed slice unpacks to its elements and then zeros only. */
  lemma UnpackPackPadding(src: seq<bv8>, w: nat, i: nat)
    requires 0 < w < 8 && |src| <= i < UnpackedSize(PackedSize(|src|, w), w)
    ensures Unpacked(Packed(src, w), w)[i] == 0
  {
    hide Field, FieldBit, StreamBit, Has8, Mask8;
    var p := Packed(src, w);
    forall t: nat | t < 8
      ensures !FieldBit(p, 8, w * i, w, t)
    {
      NoFieldBeyond(src, w, i, t);
    }
    assert Unpacked(p, w)[i] == Field(p, 8, w * i, w);
    FieldZero(p, 8, w * i, w);
  }

  lemma FieldZero(xs: seq<bv8>, w: nat, from: nat, v: nat)
    requires 0 < w <= 8
    requires forall t: nat | t < 8 :: !FieldBit(xs, w, from, v, t)
    ensures Field(xs, w, from, v) == 0
  {
    hide FieldBit;
  }

  lemma NoFieldBeyond(src: seq<bv8>, w: nat, i: nat, t: nat)
    requires 0 < w < 8 && |src| <= i
    ensures !FieldBit(Packed(src, w), 8, w * i, w, t)
  {
    hide Field, Has8, Mask8, PackedSize;
    if t < w {
      RecutStream(src, w, 8, PackedSize(|src|, w), w * i + t);
      DivUnique(w * i + t, w, i, t);
    }
  }

  lemma UnpackedFits(data: seq<bv8>, w: nat)
    requires w == 3 || w == 5
    ensures Fits(Unpacked(data, w), w)
  {
    forall i | 0 <= i < |Unpacked(data, w)|
      ensures Unpacked(data, w)[i] < Mask8(w)
    {
      FieldBound(data, w * i, w);
    }
  }

  lemma FieldBound(xs: seq<bv8>, from: nat, w: nat)
    requires w == 3 || w == 5
    ensures Field(xs, 8, from, w) < Mask8(w)
  {
    hide StreamBit;
    Masks8();
  }
}
