/** The loops of util/pack.go for widths 3 and 5, proved against the bit stream of module Pack. */
module PackLoops {
  import opened Arithmetic
  import opened Bits
  import opened Pack

  /** Element `i`, or zero beyond the end. */
  function At(s: seq<bv8>, i: nat): bv8 { if i < |s| then s[i] else 0 }

  // ---- The bytes of up to eight 3-bit values ----

  lemma Pack3Block0(s: seq<bv8>)
    requires Fits(s, 3)
    ensures Field(s, 3, 0, 8) == At(s, 0) | (At(s, 1) << 3) | (At(s, 2) << 6)
  {
    Masks8();
  }

  lemma Pack3Block1(s: seq<bv8>)
    requires Fits(s, 3)
    ensures Field(s, 3, 8, 8) == (At(s, 2) >> 2) | (At(s, 3) << 1) | (At(s, 4) << 4) | (At(s, 5) << 7)
  {
    Masks8();
  }

  lemma Pack3Block2(s: seq<bv8>)
    requires Fits(s, 3)
    ensures Field(s, 3, 16, 8) == (At(s, 5) >> 1) | (At(s, 6) << 2) | (At(s, 7) << 5)
  {
    Masks8();
  }

  lemma Pack3Block(s: seq<bv8>)
    requires |s| <= 8 && Fits(s, 3)
    ensures Packed(s, 3) == [
              At(s, 0) | (At(s, 1) << 3) | (At(s, 2) << 6),
              (At(s, 2) >> 2) | (At(s, 3) << 1) | (At(s, 4) << 4) | (At(s, 5) << 7),
              (At(s, 5) >> 1) | (At(s, 6) << 2) | (At(s, 7) << 5)
            ][..PackedSize(|s|, 3)]
  {
    hide Field, At, Has8, Mask8;
    Pack3Block0(s); Pack3Block1(s); Pack3Block2(s);
  }

  // ---- The bytes of up to eight 5-bit values ----

  lemma Pack5Block0(s: seq<bv8>)
    requires Fits(s, 5)
    ensures Field(s, 5, 0, 8) == At(s, 0) | (At(s, 1) << 5)
  {
    Masks8();
  }

  lemma Pack5Block1(s: seq<bv8>)
    requires Fits(s, 5)
    ensures Field(s, 5, 8, 8) == (At(s, 1) >> 3) | (At(s, 2) << 2) | (At(s, 3) << 7)
  {
    Masks8();
  }

  lemma Pack5Block2(s: seq<bv8>)
    requires Fits(s, 5)
    ensures Field(s, 5, 16, 8) == (At(s, 3) >> 1) | (At(s, 4) << 4)
  {
    Masks8();
  }

  lemma Pack5Block3(s: seq<bv8>)
    requires Fits(s, 5)
    ensures Field(s, 5, 24, 8) == (At(s, 4) >> 4) | (At(s, 5) << 1) | (At(s, 6) << 6)
  {
    Masks8();
  }

  lemma Pack5Block4(s: seq<bv8>)
    requires Fits(s, 5)
    ensures Field(s, 5, 32, 8) == (At(s, 6) >> 2) | (At(s, 7) << 3)
  {
    Masks8();
  }

  lemma Pack5Block(s: seq<bv8>)
    requires |s| <= 8 && Fits(s, 5)
    ensures Packed(s, 5) == [
              At(s, 0) | (At(s, 1) << 5),
              (At(s, 1) >> 3) | (At(s, 2) << 2) | (At(s, 3) << 7),
              (At(s, 3) >> 1) | (At(s, 4) << 4),
              (At(s, 4) >> 4) | (At(s, 5) << 1) | (At(s, 6) << 6),
              (At(s, 6) >> 2) | (At(s, 7) << 3)
            ][..PackedSize(|s|, 5)]
  {
    hide Field, At, Has8, Mask8;
    Pack5Block0(s); Pack5Block1(s); Pack5Block2(s); Pack5Block3(s); Pack5Block4(s);
  }

  // ---- The 3-bit values in up to three bytes ----

  lemma Unpack3Block0(s: seq<bv8>)
    ensures Field(s, 8, 0, 3) == At(s, 0) & 7
  {
    Masks8();
  }

  lemma Unpack3Block1(s: seq<bv8>)
    ensures Field(s, 8, 3, 3) == (At(s, 0) >> 3) & 7
  {
    Masks8();
  }

  lemma Unpack3Block2(s: seq<bv8>)
    ensures Field(s, 8, 6, 3) == ((At(s, 0) >> 6) | (At(s, 1) << 2)) & 7
  {
    Masks8();
  }

  lemma Unpack3Block3(s: seq<bv8>)
    ensures Field(s, 8, 9, 3) == (At(s, 1) >> 1) & 7
  {
    Masks8();
  }

  lemma Unpack3Block4(s: seq<bv8>)
    ensures Field(s, 8, 12, 3) == (At(s, 1) >> 4) & 7
  {
    Masks8();
  }

  lemma Unpack3Block5(s: seq<bv8>)
    ensures Field(s, 8, 15, 3) == ((At(s, 1) >> 7) | (At(s, 2) << 1)) & 7
  {
    Masks8();
  }

  lemma Unpack3Block6(s: seq<bv8>)
    ensures Field(s, 8, 18, 3) == (At(s, 2) >> 2) & 7
  {
    Masks8();
  }

  lemma Unpack3Block7(s: seq<bv8>)
    ensures Field(s, 8, 21, 3) == (At(s, 2) >> 5) & 7
  {
    Masks8();
  }

  lemma Unpack3Block(s: seq<bv8>)
    requires |s| <= 3
    ensures Unpacked(s, 3) == [
              At(s, 0) & 7,
              (At(s, 0) >> 3) & 7,
              ((At(s, 0) >> 6) | (At(s, 1) << 2)) & 7,
              (At(s, 1) >> 1) & 7,
              (At(s, 1) >> 4) & 7,
              ((At(s, 1) >> 7) | (At(s, 2) << 1)) & 7,
              (At(s, 2) >> 2) & 7,
              (At(s, 2) >> 5) & 7
            ][..UnpackedSize(|s|, 3)]
  {
    hide Field, At, Has8, Mask8;
    Unpack3Block0(s); Unpack3Block1(s); Unpack3Block2(s); Unpack3Block3(s); Unpack3Block4(s); Unpack3Block5(s); Unpack3Block6(s); Unpack3Block7(s);
  }

  // ---- The 5-bit values in up to five bytes ----

  lemma Unpack5Block0(s: seq<bv8>)
    ensures Field(s, 8, 0, 5) == At(s, 0) & 31
  {
    Masks8();
  }

  lemma Unpack5Block1(s: seq<bv8>)
    ensures Field(s, 8, 5, 5) == ((At(s, 0) >> 5) | (At(s, 1) << 3)) & 31
  {
    Masks8();
  }

  lemma Unpack5Block2(s: seq<bv8>)
    ensures Field(s, 8, 10, 5) == (At(s, 1) >> 2) & 31
  {
    Masks8();
  }

  lemma Unpack5Block3(s: seq<bv8>)
    ensures Field(s, 8, 15, 5) == ((At(s, 1) >> 7) | (At(s, 2) << 1)) & 31
  {
    Masks8();
  }

  lemma Unpack5Block4(s: seq<bv8>)
    ensures Field(s, 8, 20, 5) == ((At(s, 2) >> 4) | (At(s, 3) << 4)) & 31
  {
    Masks8();
  }

  lemma Unpack5Block5(s: seq<bv8>)
    ensures Field(s, 8, 25, 5) == (At(s, 3) >> 1) & 31
  {
    Masks8();
  }

  lemma Unpack5Block6(s: seq<bv8>)
    ensures Field(s, 8, 30, 5) == ((At(s, 3) >> 6) | (At(s, 4) << 2)) & 31
  {
    Masks8();
  }

  lemma Unpack5Block7(s: seq<bv8>)
    ensures Field(s, 8, 35, 5) == (At(s, 4) >> 3) & 31
  {
    Masks8();
  }

  lemma Unpack5Block(s: seq<bv8>)
    requires |s| <= 5
    ensures Unpacked(s, 5) == [
              At(s, 0) & 31,
              ((At(s, 0) >> 5) | (At(s, 1) << 3)) & 31,
              (At(s, 1) >> 2) & 31,
              ((At(s, 1) >> 7) | (At(s, 2) << 1)) & 31,
              ((At(s, 2) >> 4) | (At(s, 3) << 4)) & 31,
              (At(s, 3) >> 1) & 31,
              ((At(s, 3) >> 6) | (At(s, 4) << 2)) & 31,
              (At(s, 4) >> 3) & 31
            ][..UnpackedSize(|s|, 5)]
  {
    hide Field, At, Has8, Mask8;
    Unpack5Block0(s); Unpack5Block1(s); Unpack5Block2(s); Unpack5Block3(s); Unpack5Block4(s); Unpack5Block5(s); Unpack5Block6(s); Unpack5Block7(s);
  }

  lemma PackedSplit(src: seq<bv8>, w: nat)
    requires 0 < w < 8 && |src| >= 8
    ensures Packed(src, w) == Packed(src[..8], w) + Packed(src[8..], w)
  {
    hide Recut;
    var n := PackedSize(|src|, w);
    assert PackedSize(|src[8..]|, w) == n - w;
    RecutSplit(src, w, 8, n, 8, w);
  }

  /** Writes the bytes of one group after the `n` bytes that are already there. */
  method WriteGroup(dst: array<bv8>, off: nat, n: nat, d: seq<bv8>) returns (m: nat)
    requires off + n + |d| <= dst.Length
    modifies dst
    ensures m == n + |d|
    ensures forall i | 0 <= i < off || off + m <= i < dst.Length :: dst[i] == old(dst[i])
    ensures dst[off..off + m] == old(dst[off..off + n]) + d
  {
    forall i | 0 <= i < |d| {
      dst[off + n + i] := d[i];
    }
    m := n + |d|;
  }

  /** The bytes written for one group: the full-block case and the seven tails, each gathered in the
      word type that the code uses for it. */
  function Group3(s: seq<bv8>): (d: seq<bv8>)
    requires |s| <= 8
    ensures |d| == PackedSize(|s|, 3)
  {
    match |s|
    case 8 =>
      var val: bv32 := s[0] as bv32 | (s[1] as bv32 << 3) | (s[2] as bv32 << 6) | (s[3] as bv32 << 9) |
        (s[4] as bv32 << 12) | (s[5] as bv32 << 15) | (s[6] as bv32 << 18) | (s[7] as bv32 << 21);
      [(val & 255) as bv8, ((val >> 8) & 255) as bv8, ((val >> 16) & 255) as bv8]
    case 7 =>
      var val: bv32 := s[0] as bv32 | (s[1] as bv32 << 3) | (s[2] as bv32 << 6) | (s[3] as bv32 << 9) |
        (s[4] as bv32 << 12) | (s[5] as bv32 << 15) | (s[6] as bv32 << 18);
      [(val & 255) as bv8, ((val >> 8) & 255) as bv8, ((val >> 16) & 255) as bv8]
    case 6 =>
      var val: bv32 := s[0] as bv32 | (s[1] as bv32 << 3) | (s[2] as bv32 << 6) | (s[3] as bv32 << 9) |
        (s[4] as bv32 << 12) | (s[5] as bv32 << 15);
      [(val & 255) as bv8, ((val >> 8) & 255) as bv8, ((val >> 16) & 255) as bv8]
    case 5 =>
      var val: bv16 := s[0] as bv16 | (s[1] as bv16 << 3) | (s[2] as bv16 << 6) | (s[3] as bv16 << 9) |
        (s[4] as bv16 << 12);
      [(val & 255) as bv8, ((val >> 8) & 255) as bv8]
    case 4 =>
      var val: bv16 := s[0] as bv16 | (s[1] as bv16 << 3) | (s[2] as bv16 << 6) | (s[3] as bv16 << 9);
      [(val & 255) as bv8, ((val >> 8) & 255) as bv8]
    case 3 =>
      var val: bv16 := s[0] as bv16 | (s[1] as bv16 << 3) | (s[2] as bv16 << 6);
      [(val & 255) as bv8, ((val >> 8) & 255) as bv8]
    case 2 =>
      var val: bv8 := s[0] | (s[1] << 3);
      [val & 255]
    case 1 =>
      var val: bv8 := s[0];
      [val & 255]
    case _ => []
  }

  lemma Group3Of8(s: seq<bv8>)
    requires |s| == 8 && Fits(s, 3)
    ensures Group3(s) == Packed(s, 3)
  {
    hide Packed, Has8;
    Pack3Block(s);
  }

  lemma Group3Of7(s: seq<bv8>)
    requires |s| == 7 && Fits(s, 3)
    ensures Group3(s) == Packed(s, 3)
  {
    hide Packed, Has8;
    Pack3Block(s);
  }

  lemma Group3Of6(s: seq<bv8>)
    requires |s| == 6 && Fits(s, 3)
    ensures Group3(s) == Packed(s, 3)
  {
    hide Packed, Has8;
    Pack3Block(s);
  }

  lemma Group3Of5(s: seq<bv8>)
    requires |s| == 5 && Fits(s, 3)
    ensures Group3(s) == Packed(s, 3)
  {
    hide Packed, Has8;
    Pack3Block(s);
  }

  lemma Group3Of4(s: seq<bv8>)
    requires |s| == 4 && Fits(s, 3)
    ensures Group3(s) == Packed(s, 3)
  {
    hide Packed, Has8;
    Pack3Block(s);
  }

  lemma Group3Of3(s: seq<bv8>)
    requires |s| == 3 && Fits(s, 3)
    ensures Group3(s) == Packed(s, 3)
  {
    hide Packed, Has8;
    Pack3Block(s);
  }

  lemma Group3Of2(s: seq<bv8>)
    requires |s| == 2 && Fits(s, 3)
    ensures Group3(s) == Packed(s, 3)
  {
    hide Packed, Has8;
    Pack3Block(s);
  }

  lemma Group3Of1(s: seq<bv8>)
    requires |s| == 1 && Fits(s, 3)
    ensures Group3(s) == Packed(s, 3)
  {
    hide Packed, Has8;
    Pack3Block(s);
  }

  lemma Group3Packed(s: seq<bv8>)
    requires |s| <= 8 && Fits(s, 3)
    ensures Group3(s) == Packed(s, 3)
  {
    match |s|
    case 8 => Group3Of8(s);
    case 7 => Group3Of7(s);
    case 6 => Group3Of6(s);
    case 5 => Group3Of5(s);
    case 4 => Group3Of4(s);
    case 3 => Group3Of3(s);
    case 2 => Group3Of2(s);
    case 1 => Group3Of1(s);
    case _ =>
  }

  /** The bytes of all groups, for values of any size: what does not fit in 3 bits is ORed into the next values of its
      group, and what does not fit in the group is lost. */
  function Groups3(s: seq<bv8>): (d: seq<bv8>)
    ensures |d| == PackedSize(|s|, 3)
  {
    if |s| >= 8 then Group3(s[..8]) + Groups3(s[8..]) else Group3(s)
  }

  /** If every value fits, that is the packed stream. */
  lemma {:induction false} Groups3Packed(s: seq<bv8>)
    requires Fits(s, 3)
    ensures Groups3(s) == Packed(s, 3)
    decreases |s|
  {
    hide Packed, Group3, Mask8;
    if |s| >= 8 {
      Group3Packed(s[..8]);
      Groups3Packed(s[8..]);
      PackedSplit(s, 3);
    } else {
      Group3Packed(s);
    }
  }

  method PackUint3Slice(dst: array<bv8>, off: nat, values: seq<bv8>) returns (n: nat)
    requires off + PackedSize(|values|, 3) <= dst.Length
    modifies dst
    ensures n == PackedSize(|values|, 3)
    ensures forall i | 0 <= i < off || off + n <= i < dst.Length :: dst[i] == old(dst[i])
    ensures dst[off..off + n] == Groups3(values) && (Fits(values, 3) ==> dst[off..off + n] == Packed(values, 3))
  {
    hide Packed, Group3, Mask8;
    var src := values;
    n := 0;
    ghost var blocks := 0;
    while |src| >= 8
      invariant |values| == 8 * blocks + |src| && n == 3 * blocks
      invariant forall i | 0 <= i < off || off + n <= i < dst.Length :: dst[i] == old(dst[i])
      invariant dst[off..off + n] + Groups3(src) == Groups3(values)
    {
      n := WriteGroup(dst, off, n, Group3(src[..8]));
      src, blocks := src[8..], blocks + 1;
    }
    n := WriteGroup(dst, off, n, Group3(src));
    if Fits(values, 3) {
      Groups3Packed(values);
    }
  }

  /** The bytes written for one group: the full-block case and the seven tails, each gathered in the
      word type that the code uses for it. */
  function Group5(s: seq<bv8>): (d: seq<bv8>)
    requires |s| <= 8
    ensures |d| == PackedSize(|s|, 5)
  {
    match |s|
    case 8 =>
      var val: bv64 := s[0] as bv64 | (s[1] as bv64 << 5) | (s[2] as bv64 << 10) | (s[3] as bv64 << 15) |
        (s[4] as bv64 << 20) | (s[5] as bv64 << 25) | (s[6] as bv64 << 30) | (s[7] as bv64 << 35);
      [(val & 255) as bv8, ((val >> 8) & 255) as bv8, ((val >> 16) & 255) as bv8, ((val >> 24) & 255) as bv8, ((val >> 32) & 255) as bv8]
    case 7 =>
      var val: bv64 := s[0] as bv64 | (s[1] as bv64 << 5) | (s[2] as bv64 << 10) | (s[3] as bv64 << 15) |
        (s[4] as bv64 << 20) | (s[5] as bv64 << 25) | (s[6] as bv64 << 30);
      [(val & 255) as bv8, ((val >> 8) & 255) as bv8, ((val >> 16) & 255) as bv8, ((val >> 24) & 255) as bv8, ((val >> 32) & 255) as bv8]
    case 6 =>
      var val: bv32 := s[0] as bv32 | (s[1] as bv32 << 5) | (s[2] as bv32 << 10) | (s[3] as bv32 << 15) |
        (s[4] as bv32 << 20) | (s[5] as bv32 << 25);
      [(val & 255) as bv8, ((val >> 8) & 255) as bv8, ((val >> 16) & 255) as bv8, ((val >> 24) & 255) as bv8]
    case 5 =>
      var val: bv32 := s[0] as bv32 | (s[1] as bv32 << 5) | (s[2] as bv32 << 10) | (s[3] as bv32 << 15) |
        (s[4] as bv32 << 20);
      [(val & 255) as bv8, ((val >> 8) & 255) as bv8, ((val >> 16) & 255) as bv8, ((val >> 24) & 255) as bv8]
    case 4 =>
      var val: bv32 := s[0] as bv32 | (s[1] as bv32 << 5) | (s[2] as bv32 << 10) | (s[3] as bv32 << 15);
      [(val & 255) as bv8, ((val >> 8) & 255) as bv8, ((val >> 16) & 255) as bv8]
    case 3 =>
      var val: bv16 := s[0] as bv16 | (s[1] as bv16 << 5) | (s[2] as bv16 << 10);
      [(val & 255) as bv8, ((val >> 8) & 255) as bv8]
    case 2 =>
      var val: bv16 := s[0] as bv16 | (s[1] as bv16 << 5);
      [(val & 255) as bv8, ((val >> 8) & 255) as bv8]
    case 1 =>
      var val: bv8 := s[0];
      [val & 255]
    case _ => []
  }

  lemma Group5Of8(s: seq<bv8>)
    requires |s| == 8 && Fits(s, 5)
    ensures Group5(s) == Packed(s, 5)
  {
    hide Packed, Has8;
    Pack5Block(s);
  }

  lemma Group5Of7(s: seq<bv8>)
    requires |s| == 7 && Fits(s, 5)
    ensures Group5(s) == Packed(s, 5)
  {
    hide Packed, Has8;
    Pack5Block(s);
  }

  lemma Group5Of6(s: seq<bv8>)
    requires |s| == 6 && Fits(s, 5)
    ensures Group5(s) == Packed(s, 5)
  {
    hide Packed, Has8;
    Pack5Block(s);
  }

  lemma Group5Of5(s: seq<bv8>)
    requires |s| == 5 && Fits(s, 5)
    ensures Group5(s) == Packed(s, 5)
  {
    hide Packed, Has8;
    Pack5Block(s);
  }

  lemma Group5Of4(s: seq<bv8>)
    requires |s| == 4 && Fits(s, 5)
    ensures Group5(s) == Packed(s, 5)
  {
    hide Packed, Has8;
    Pack5Block(s);
  }

  lemma Group5Of3(s: seq<bv8>)
    requires |s| == 3 && Fits(s, 5)
    ensures Group5(s) == Packed(s, 5)
  {
    hide Packed, Has8;
    Pack5Block(s);
    Masks8();
    assert s[0] < 32 && s[1] < 32 && s[2] < 32;
    assert Group5(s)[1] == (s[1] >> 3) | (s[2] << 2);
  }

  lemma Group5Of2(s: seq<bv8>)
    requires |s| == 2 && Fits(s, 5)
    ensures Group5(s) == Packed(s, 5)
  {
    hide Packed, Has8;
    Pack5Block(s);
  }

  lemma Group5Of1(s: seq<bv8>)
    requires |s| == 1 && Fits(s, 5)
    ensures Group5(s) == Packed(s, 5)
  {
    hide Packed, Has8;
    Pack5Block(s);
  }

  lemma Group5Packed(s: seq<bv8>)
    requires |s| <= 8 && Fits(s, 5)
    ensures Group5(s) == Packed(s, 5)
  {
    match |s|
    case 8 => Group5Of8(s);
    case 7 => Group5Of7(s);
    case 6 => Group5Of6(s);
    case 5 => Group5Of5(s);
    case 4 => Group5Of4(s);
    case 3 => Group5Of3(s);
    case 2 => Group5Of2(s);
    case 1 => Group5Of1(s);
    case _ =>
  }

  /** The bytes of all groups, for values of any size: what does not fit in 5 bits is ORed into the next values of its
      group, and what does not fit in the group is lost. */
  function Groups5(s: seq<bv8>): (d: seq<bv8>)
    ensures |d| == PackedSize(|s|, 5)
  {
    if |s| >= 8 then Group5(s[..8]) + Groups5(s[8..]) else Group5(s)
  }

  /** If every value fits, that is the packed stream. */
  lemma {:induction false} Groups5Packed(s: seq<bv8>)
    requires Fits(s, 5)
    ensures Groups5(s) == Packed(s, 5)
    decreases |s|
  {
    hide Packed, Group5, Mask8;
    if |s| >= 8 {
      Group5Packed(s[..8]);
      Groups5Packed(s[8..]);
      PackedSplit(s, 5);
    } else {
      Group5Packed(s);
    }
  }

  method PackUint5Slice(dst: array<bv8>, off: nat, values: seq<bv8>) returns (n: nat)
    requires off + PackedSize(|values|, 5) <= dst.Length
    modifies dst
    ensures n == PackedSize(|values|, 5)
    ensures forall i | 0 <= i < off || off + n <= i < dst.Length :: dst[i] == old(dst[i])
    ensures dst[off..off + n] == Groups5(values) && (Fits(values, 5) ==> dst[off..off + n] == Packed(values, 5))
  {
    hide Packed, Group5, Mask8;
    var src := values;
    n := 0;
    ghost var blocks := 0;
    while |src| >= 8
      invariant |values| == 8 * blocks + |src| && n == 5 * blocks
      invariant forall i | 0 <= i < off || off + n <= i < dst.Length :: dst[i] == old(dst[i])
      invariant dst[off..off + n] + Groups5(src) == Groups5(values)
    {
      n := WriteGroup(dst, off, n, Group5(src[..8]));
      src, blocks := src[8..], blocks + 1;
    }
    n := WriteGroup(dst, off, n, Group5(src));
    if Fits(values, 5) {
      Groups5Packed(values);
    }
  }

  lemma UnpackedSplit(src: seq<bv8>, w: nat)
    requires 0 < w < 8 && |src| >= w
    ensures Unpacked(src, w) == Unpacked(src[..w], w) + Unpacked(src[w..], w)
  {
    hide Recut;
    var n := UnpackedSize(|src|, w);
    DivShift(8, w, (|src| - w) * 8);
    DivUnique(w * 8, w, 8, 0);
    RecutSplit(src, 8, w, n, w, 8);
  }

  /** The values read from one group: a full block of 3 bytes, or one of the tails. */
  function Spread3(s: seq<bv8>): (d: seq<bv8>)
    requires |s| <= 3
    ensures |d| == UnpackedSize(|s|, 3)
  {
    match |s|
    case 3 =>
      var val: bv32 := s[0] as bv32 | (s[1] as bv32 << 8) | (s[2] as bv32 << 16);
      [(val & 7) as bv8, ((val >> 3) & 7) as bv8, ((val >> 6) & 7) as bv8, ((val >> 9) & 7) as bv8,
       ((val >> 12) & 7) as bv8, ((val >> 15) & 7) as bv8, ((val >> 18) & 7) as bv8, ((val >> 21) & 7) as bv8]
    case 2 =>
      var val: bv16 := s[0] as bv16 | (s[1] as bv16 << 8);
      [(val & 7) as bv8, ((val >> 3) & 7) as bv8, ((val >> 6) & 7) as bv8, ((val >> 9) & 7) as bv8,
       ((val >> 12) & 7) as bv8]
    case 1 =>
      var val: bv8 := s[0];
      [(val & 7), ((val >> 3) & 7)]
    case _ => []
  }

  lemma Spread3Of3(s: seq<bv8>)
    requires |s| == 3
    ensures Spread3(s) == Unpacked(s, 3)
  {
    hide Unpacked;
    Unpack3Block(s);
  }

  lemma Spread3Of2(s: seq<bv8>)
    requires |s| == 2
    ensures Spread3(s) == Unpacked(s, 3)
  {
    hide Unpacked;
    Unpack3Block(s);
  }

  lemma Spread3Of1(s: seq<bv8>)
    requires |s| == 1
    ensures Spread3(s) == Unpacked(s, 3)
  {
    hide Unpacked;
    Unpack3Block(s);
  }

  lemma Spread3Unpacked(s: seq<bv8>)
    requires |s| <= 3
    ensures Spread3(s) == Unpacked(s, 3)
  {
    match |s|
    case 3 => Spread3Of3(s);
    case 2 => Spread3Of2(s);
    case 1 => Spread3Of1(s);
    case _ =>
  }

  method UnpackUint3Slice(data: seq<bv8>) returns (dst: array<bv8>)
    ensures fresh(dst) && dst[..] == Unpacked(data, 3)
  {
    hide Unpacked, Spread3;
    dst := new bv8[UnpackedSize(|data|, 3)];
    var src := data;
    var n := 0;
    ghost var blocks := 0;
    while |src| >= 3
      invariant |data| == 3 * blocks + |src| && n == 8 * blocks
      invariant dst[..n] + Unpacked(src, 3) == Unpacked(data, 3)
    {
      Spread3Unpacked(src[..3]);
      UnpackedSplit(src, 3);
      n := WriteGroup(dst, 0, n, Spread3(src[..3]));
      src, blocks := src[3..], blocks + 1;
    }
    Spread3Unpacked(src);
    n := WriteGroup(dst, 0, n, Spread3(src));
  }

  /** The values read from one group: a full block of 5 bytes, or one of the tails. */
  function Spread5(s: seq<bv8>): (d: seq<bv8>)
    requires |s| <= 5
    ensures |d| == UnpackedSize(|s|, 5)
  {
    match |s|
    case 5 =>
      var val: bv64 := s[0] as bv64 | (s[1] as bv64 << 8) | (s[2] as bv64 << 16) | (s[3] as bv64 << 24) | (s[4] as bv64 << 32);
      [(val & 31) as bv8, ((val >> 5) & 31) as bv8, ((val >> 10) & 31) as bv8, ((val >> 15) & 31) as bv8,
       ((val >> 20) & 31) as bv8, ((val >> 25) & 31) as bv8, ((val >> 30) & 31) as bv8, ((val >> 35) & 31) as bv8]
    case 4 =>
      var val: bv32 := s[0] as bv32 | (s[1] as bv32 << 8) | (s[2] as bv32 << 16) | (s[3] as bv32 << 24);
      [(val & 31) as bv8, ((val >> 5) & 31) as bv8, ((val >> 10) & 31) as bv8, ((val >> 15) & 31) as bv8,
       ((val >> 20) & 31) as bv8, ((val >> 25) & 31) as bv8]
    case 3 =>
      var val: bv32 := s[0] as bv32 | (s[1] as bv32 << 8) | (s[2] as bv32 << 16);
      [(val & 31) as bv8, ((val >> 5) & 31) as bv8, ((val >> 10) & 31) as bv8, ((val >> 15) & 31) as bv8]
    case 2 =>
      var val: bv16 := s[0] as bv16 | (s[1] as bv16 << 8);
      [(val & 31) as bv8, ((val >> 5) & 31) as bv8, ((val >> 10) & 31) as bv8]
    case 1 =>
      var val: bv8 := s[0];
      [(val & 31)]
    case _ => []
  }

  lemma Spread5Of5(s: seq<bv8>)
    requires |s| == 5
    ensures Spread5(s) == Unpacked(s, 5)
  {
    hide Unpacked;
    Unpack5Block(s);
  }

  lemma Spread5Of4(s: seq<bv8>)
    requires |s| == 4
    ensures Spread5(s) == Unpacked(s, 5)
  {
    hide Unpacked;
    Unpack5Block(s);
  }

  lemma Spread5Of3(s: seq<bv8>)
    requires |s| == 3
    ensures Spread5(s) == Unpacked(s, 5)
  {
    hide Unpacked;
    Unpack5Block(s);
  }

  lemma Spread5Of2(s: seq<bv8>)
    requires |s| == 2
    ensures Spread5(s) == Unpacked(s, 5)
  {
    hide Unpacked;
    Unpack5Block(s);
  }

  lemma Spread5Of1(s: seq<bv8>)
    requires |s| == 1
    ensures Spread5(s) == Unpacked(s, 5)
  {
    hide Unpacked;
    Unpack5Block(s);
  }

  lemma Spread5Unpacked(s: seq<bv8>)
    requires |s| <= 5
    ensures Spread5(s) == Unpacked(s, 5)
  {
    match |s|
    case 5 => Spread5Of5(s);
    case 4 => Spread5Of4(s);
    case 3 => Spread5Of3(s);
    case 2 => Spread5Of2(s);
    case 1 => Spread5Of1(s);
    case _ =>
  }

  method UnpackUint5Slice(data: seq<bv8>) returns (dst: array<bv8>)
    ensures fresh(dst) && dst[..] == Unpacked(data, 5)
  {
    hide Unpacked, Spread5;
    dst := new bv8[UnpackedSize(|data|, 5)];
    var src := data;
    var n := 0;
    ghost var blocks := 0;
    while |src| >= 5
      invariant |data| == 5 * blocks + |src| && n == 8 * blocks
      invariant dst[..n] + Unpacked(src, 5) == Unpacked(data, 5)
    {
      Spread5Unpacked(src[..5]);
      UnpackedSplit(src, 5);
      n := WriteGroup(dst, 0, n, Spread5(src[..5]));
      src, blocks := src[5..], blocks + 1;
    }
    Spread5Unpacked(src);
    n := WriteGroup(dst, 0, n, Spread5(src));
  }
}
