/** The two variable-length integer formats of util/varint.go. */
module Varint {
  import opened Words

  // ---- Seven bits a byte, the lowest first ----

  /** The encoding: every byte but the last has its high bit set. */
  function Encoded(x: nat): (s: seq<byte>)
    ensures s != []
  {
    if x < 0x80 then [x as byte] else [(x % 0x80 + 0x80) as byte] + Encoded(x / 0x80)
  }

  /** The sum of the seven-bit groups. */
  function GroupSum(s: seq<byte>): nat {
    if s == [] then 0 else s[0] as int % 0x80 + 0x80 * GroupSum(s[1..])
  }

  /** The index of the first byte without the high bit, or the length. */
  function Last(s: seq<byte>): (k: nat)
    ensures k <= |s| && (k < |s| ==> s[k] < 0x80) && forall i :: 0 <= i < k ==> s[i] >= 0x80
  {
    if s == [] || s[0] < 0x80 then 0 else 1 + Last(s[1..])
  }

  /** The meaning of a buffer: nothing without a last byte; an overflow if the groups may not fit in 32 bits; else their
      sum, and how many bytes it took. */
  function Decoded(buf: seq<byte>): (r: (nat, int)) {
    var k := Last(buf);
    if k == |buf| then (0, 0)
    else if k > 4 || (k == 4 && buf[4] > 15) then (0, -(k + 1))
    else (GroupSum(buf[..k + 1]), k + 1)
  }

  lemma EncodedMore(x: nat)
    ensures x >= 0x80 ==> x % 0x100 % 0x80 == x % 0x80 && Encoded(x) == [(x % 0x100 % 0x80 + 0x80) as byte] + Encoded(x / 0x80)
    ensures x < 0x80 ==> Encoded(x) == [x as byte]
  {
  }

  method PutUvarint32(buf: array<byte>, x0: uint32) returns (n: nat)
    requires buf.Length >= |Encoded(x0 as nat)|
    modifies buf
    ensures n == |Encoded(x0 as nat)| && buf[..n] == Encoded(x0 as nat) && buf[n..] == old(buf[n..])
  {
    hide BitOr, Encoded;
    var i, x := 0, x0 as nat;
    while x >= 0x80
      invariant i + |Encoded(x)| == |Encoded(x0 as nat)| && Encoded(x0 as nat) == buf[..i] + Encoded(x)
      invariant forall k :: i <= k < buf.Length ==> buf[k] == old(buf[k])
    {
      ghost var before := buf[..i];
      EncodedMore(x);
      buf[i] := HighBit((x % 0x100) as byte);
      assert buf[..i + 1] == before + [buf[i]];
      assert before + ([buf[i]] + Encoded(x / 0x80)) == before + [buf[i]] + Encoded(x / 0x80);
      x := x / 0x80;
      i := i + 1;
    }
    ghost var before := buf[..i];
    EncodedMore(x);
    buf[i] := x as byte;
    assert buf[..i + 1] == before + [buf[i]];
    n := i + 1;
  }

  lemma {:induction false} GroupSumNext(s: seq<byte>, b: byte)
    ensures GroupSum(s + [b]) == GroupSum(s) + b as int % 0x80 * Pow2(7 * |s|)
    decreases |s|
  {
    if s == [] {
      assert [b][1..] == [];
    } else {
      GroupSumNext(s[1..], b);
      assert (s + [b])[1..] == s[1..] + [b];
      PowStep(7 * (|s| - 1));
      assert 0x80 * (b as int % 0x80 * Pow2(7 * |s| - 7)) == b as int % 0x80 * Pow2(7 * |s|);
    }
  }

  lemma {:induction false} GroupSumBelow(s: seq<byte>)
    ensures GroupSum(s) < Pow2(7 * |s|)
    decreases |s|
  {
    if s != [] {
      GroupSumBelow(s[1..]);
      PowStep(7 * (|s| - 1));
    }
  }

  /** While no bits leave the word, OR adds the next group. */
  lemma NextGroup(s: seq<byte>, b: byte)
    requires |s| < 4 || (|s| == 4 && b <= 15)
    ensures BitOr(GroupSum(s), Shl(b as int % 0x80, 7 * |s|)) == GroupSum(s + [b]) < 0x1_0000_0000
  {
    hide BitOr, Shl, GroupSum, Pow2;
    var g, i := b as int % 0x80, 7 * |s|;
    GroupSumBelow(s);
    GroupSumNext(s, b);
    Fits(g, |s|);
    ShlFits(g, i);
    OrAbove(GroupSum(s), g, i);
  }

  lemma Fits(g: nat, n: nat)
    requires g < 128 && n <= 4 && (n == 4 ==> g <= 15)
    ensures g * Pow2(7 * n) + Pow2(7 * n) <= 0x1_0000_0000
  {
    hide Pow2;
    Powers();
    if n == 0 {
    } else if n == 1 {
    } else if n == 2 {
    } else if n == 3 {
    }
  }

  lemma {:induction false} LastIs(s: seq<byte>, k: nat)
    requires k <= |s| && (k < |s| ==> s[k] < 0x80) && forall i :: 0 <= i < k ==> s[i] >= 0x80
    ensures Last(s) == k
    decreases k
  {
    if k > 0 {
      assert s[0] >= 0x80;
      LastIs(s[1..], k - 1);
    }
  }

  method Uvarint32(buf: seq<byte>) returns (value: uint32, n: int)
    ensures (value as nat, n) == Decoded(buf)
  {
    hide BitOr, GroupSum, Shl;
    var x, s := 0, 0;
    assert buf[..0] == [];
    EmptySum();
    for i := 0 to |buf|
      invariant s == 7 * i && forall k :: 0 <= k < i ==> buf[k] >= 0x80
      invariant i <= 4 ==> x == GroupSum(buf[..i])
    {
      var b := buf[i];
      assert buf[..i + 1] == buf[..i] + [b];
      if i < 4 || (i == 4 && b <= 15) {
        NextGroup(buf[..i], b);
      }
      if b < 0x80 {
        LastIs(buf, i);
        if i > 4 || (i == 4 && b > 15) {
          return 0, -(i + 1);
        }
        return BitOr(x, Shl(b as int, s)) as uint32, i + 1;
      }
      x := BitOr(x, Shl(b as int % 0x80, s));
      s := s + 7;
    }
    LastIs(buf, |buf|);
    return 0, 0;
  }

  lemma EmptySum()
    ensures GroupSum([]) == 0
  {
  }

  // ---- Its round trip ----

  lemma {:induction false} EncodedShape(x: nat, rest: seq<byte>)
    ensures Last(Encoded(x) + rest) == |Encoded(x)| - 1
    ensures GroupSum(Encoded(x)) == x
    decreases x
  {
    if x >= 0x80 {
      EncodedShape(x / 0x80, rest);
      assert (Encoded(x) + rest)[1..] == Encoded(x / 0x80) + rest;
      assert Encoded(x)[1..] == Encoded(x / 0x80);
    } else {
      assert Encoded(x)[1..] == [];
    }
  }

  lemma {:induction false} EncodedLength(x: nat, n: nat)
    requires n > 0 && x < Pow2(7 * n)
    ensures |Encoded(x)| <= n
    decreases n
  {
    if n == 1 {
      Powers();
    } else if x >= 0x80 {
      PowStep(7 * (n - 1));
      EncodedLength(x / 0x80, n - 1);
    }
  }

  lemma {:induction false} EncodedFifth(x: nat)
    requires x < 0x1_0000_0000 && |Encoded(x)| == 5
    ensures Encoded(x)[4] <= 15
  {
    var x1 := x / 0x80;
    var x2 := x1 / 0x80;
    var x3 := x2 / 0x80;
    var x4 := x3 / 0x80;
    assert Encoded(x) == [(x % 0x80 + 0x80) as byte] + Encoded(x1);
    assert Encoded(x1) == [(x1 % 0x80 + 0x80) as byte] + Encoded(x2);
    assert Encoded(x2) == [(x2 % 0x80 + 0x80) as byte] + Encoded(x3);
    assert Encoded(x3) == [(x3 % 0x80 + 0x80) as byte] + Encoded(x4);
    assert Encoded(x)[4] == Encoded(x4)[0] && x4 <= 15;
  }

  /** What was written is read back, whatever follows it. */
  lemma RoundTrip(x: uint32, rest: seq<byte>)
    ensures Decoded(Encoded(x as nat) + rest) == (x as nat, |Encoded(x as nat)|)
  {
    hide Last, GroupSum, Encoded;
    var s := Encoded(x as nat);
    EncodedShape(x as nat, rest);
    Powers();
    PowStep(28);
    EncodedLength(x as nat, 5);
    if |s| == 5 {
      EncodedFifth(x as nat);
    }
    assert (s + rest)[..|s|] == s;
    if |s| == 5 {
      assert (s + rest)[4] == s[4];
    }
  }

  /** No other accepted buffer for the same number is shorter. */
  lemma {:induction false} EncodedShortest(s: seq<byte>)
    requires s != [] && Last(s) == |s| - 1
    ensures |Encoded(GroupSum(s))| <= |s|
    decreases |s|
  {
    if |s| > 1 {
      EncodedShortest(s[1..]);
      var x := GroupSum(s);
      assert x / 0x80 == GroupSum(s[1..]);
    } else {
      assert s[1..] == [];
    }
  }

  lemma GroupSumFifth(s: seq<byte>, b: byte)
    requires |s| == 4
    ensures GroupSum(s + [b]) < 0x1_0000_0000 <==> b as int % 0x80 <= 15
  {
    hide GroupSum, Pow2;
    var g := b as int % 0x80;
    GroupSumNext(s, b);
    GroupSumBelow(s);
    Powers();
    assert g >= 16 ==> g * 0x1000_0000 >= 0x1_0000_0000;
  }

  /** A positive length comes with the exact sum of at most five groups. A negative one means that there are more than
      five groups or that their sum does not fit in 32 bits; zero, that the last byte is missing. */
  lemma DecodedExact(buf: seq<byte>)
    ensures var k, (value, n) := Last(buf), Decoded(buf);
            && (n == 0 <==> k == |buf|)
            && (n > 0 ==> n == k + 1 <= 5 && value == GroupSum(buf[..n]) < 0x1_0000_0000)
            && (n < 0 <==> k < |buf| && (k > 4 || GroupSum(buf[..k + 1]) >= 0x1_0000_0000))
  {
    hide Last, GroupSum;
    var k := Last(buf);
    if k < |buf| && k <= 4 {
      assert buf[..k + 1] == buf[..k] + [buf[k]];
      if k == 4 {
        GroupSumFifth(buf[..4], buf[4]);
      } else {
        NextGroup(buf[..k], buf[k]);
      }
    }
  }

  /** So a negative length does not always mean a large value: here it is zero, in six groups. */
  lemma PaddedOverflow()
    ensures var buf: seq<byte> := [0x80, 0x80, 0x80, 0x80, 0x80, 0];
            Decoded(buf) == (0, -6) && GroupSum(buf) == 0
  {
    var buf: seq<byte> := [0x80, 0x80, 0x80, 0x80, 0x80, 0];
    LastIs(buf, 5);
    assert buf[1..][1..][1..][1..][1..][1..] == [];
    assert GroupSum(buf[1..][1..][1..]) == 0;
  }

  // ---- The format that keeps the order ----

  function EncodedSQLite(x: nat): (s: seq<byte>)
    requires x < 0x1_0000_0000
    ensures 1 <= |s| <= 5
  {
    if x < 245 then [x as byte]
    else if x < 2292 then [((x - 244) / 256 + 245) as byte, ((x - 244) % 256) as byte]
    else if x < 67828 then [253, ((x - 2292) / 256) as byte, ((x - 2292) % 256) as byte]
    else if x < 0x100_0000 then [254, (x / 0x1_0000) as byte, (x / 0x100 % 0x100) as byte, (x % 0x100) as byte]
    else [255, (x / 0x100_0000) as byte, (x / 0x1_0000 % 0x100) as byte, (x / 0x100 % 0x100) as byte, (x % 0x100) as byte]
  }

  /** The number of bytes that the first byte announces. */
  function Announced(b: byte): nat {
    if b <= 244 then 1 else if b <= 252 then 2 else if b == 253 then 3 else if b == 254 then 4 else 5
  }

  method PutSQLiteUvarint32(buf: array<byte>, x: uint32) returns (n: nat)
    requires buf.Length >= |EncodedSQLite(x as nat)|
    modifies buf
    ensures n == |EncodedSQLite(x as nat)| && buf[..n] == EncodedSQLite(x as nat) && buf[n..] == old(buf[n..])
  {
    if x < 245 {
      buf[0] := x as byte;
      return 1;
    }
    if x < 2292 {
      buf[0] := ((x - 244) / 256 + 245) as byte;
      buf[1] := ((x - 244) % 256) as byte;
      return 2;
    }
    if x < 67828 {
      buf[0] := 253;
      buf[1] := ((x - 2292) / 256) as byte;
      buf[2] := ((x - 2292) % 256) as byte;
      return 3;
    }
    if x < 0x100_0000 {
      buf[0] := 254;
      buf[1] := (x / 0x1_0000 % 0x100) as byte;
      buf[2] := (x / 0x100 % 0x100) as byte;
      buf[3] := (x % 0x100) as byte;
      return 4;
    }
    buf[0] := 255;
    buf[1] := (x / 0x100_0000 % 0x100) as byte;
    buf[2] := (x / 0x1_0000 % 0x100) as byte;
    buf[3] := (x / 0x100 % 0x100) as byte;
    buf[4] := (x % 0x100) as byte;
    n := 5;
  }

  /** Reading fewer bytes than announced is out of bounds. */
  function DecodedSQLite(buf: seq<byte>): (nat, int)
    requires buf != [] && |buf| >= Announced(buf[0])
  {
    var b0 := buf[0] as nat;
    if b0 <= 244 then (b0, 1)
    else if b0 <= 252 then (244 + 256 * (b0 - 245) + buf[1] as nat, 2)
    else if b0 == 253 then (2292 + 256 * buf[1] as nat + buf[2] as nat, 3)
    else if b0 == 254 then (BigEndian(buf[1..4]), 4)
    else (BigEndian(buf[1..5]), 5)
  }

  function BigEndian(s: seq<byte>): nat {
    if s == [] then 0 else 0x100 * BigEndian(s[..|s| - 1]) + s[|s| - 1] as nat
  }

  lemma BigEndian3(s: seq<byte>)
    requires |s| == 3
    ensures BigEndian(s) == s[0] as nat * 0x1_0000 + s[1] as nat * 0x100 + s[2] as nat
  {
    assert s[..2][..1] == s[..1] && s[..1][..0] == [];
    assert BigEndian(s[..1]) == s[0] as nat;
    assert BigEndian(s[..2]) == 0x100 * s[0] as nat + s[1] as nat;
  }

  lemma BigEndian4(s: seq<byte>)
    requires |s| == 4
    ensures BigEndian(s) == s[0] as nat * 0x100_0000 + s[1] as nat * 0x1_0000 + s[2] as nat * 0x100 + s[3] as nat
  {
    BigEndian3(s[..3]);
  }

  lemma OrBytes3(b: nat, c: nat, d: nat)
    requires b < 0x100 && c < 0x100 && d < 0x100
    ensures BitOr(BitOr(Shl(b, 16), Shl(c, 8)), d) == b * 0x1_0000 + c * 0x100 + d
  {
    hide BitOr, Shl, Pow2;
    Powers();
    ShlFits(b, 16);
    ShlFits(c, 8);
    OrBelow(c * 0x100, b, 16);
    OrBelow(d, b * 0x100 + c, 8);
  }

  lemma OrBytes4(a: nat, b: nat, c: nat, d: nat)
    requires a < 0x100 && b < 0x100 && c < 0x100 && d < 0x100
    ensures BitOr(BitOr(BitOr(Shl(a, 24), Shl(b, 16)), Shl(c, 8)), d) == a * 0x100_0000 + b * 0x1_0000 + c * 0x100 + d
  {
    hide BitOr, Shl, Pow2;
    Powers();
    ShlFits(a, 24);
    ShlFits(b, 16);
    ShlFits(c, 8);
    OrBelow(b * 0x1_0000, a, 24);
    OrBelow(c * 0x100, a * 0x100 + b, 16);
    OrBelow(d, a * 0x1_0000 + b * 0x100 + c, 8);
  }

  method SQLiteUvarint32(buf: seq<byte>) returns (value: uint32, n: int)
    requires buf != [] && |buf| >= Announced(buf[0])
    ensures (value as nat, n) == DecodedSQLite(buf)
  {
    hide BitOr, Shl, BigEndian;
    if buf[0] <= 244 {
      return buf[0] as uint32, 1;
    }
    if buf[0] <= 252 {
      return 244 + 256 * (buf[0] as uint32 - 245) + buf[1] as uint32, 2;
    }
    if buf[0] == 253 {
      return 2292 + 256 * buf[1] as uint32 + buf[2] as uint32, 3;
    }
    if buf[0] == 254 {
      OrBytes3(buf[1] as nat, buf[2] as nat, buf[3] as nat);
      BigEndian3(buf[1..4]);
      return BitOr(BitOr(Shl(buf[1] as nat, 16), Shl(buf[2] as nat, 8)), buf[3] as nat) as uint32, 4;
    }
    OrBytes4(buf[1] as nat, buf[2] as nat, buf[3] as nat, buf[4] as nat);
    BigEndian4(buf[1..5]);
    return BitOr(BitOr(BitOr(Shl(buf[1] as nat, 24), Shl(buf[2] as nat, 16)), Shl(buf[3] as nat, 8)), buf[4] as nat) as uint32, 5;
  }

  /** The part of an encoding after its first byte, as a number. */
  lemma EncodedTail(x: nat)
    requires x < 0x1_0000_0000
    ensures var s := EncodedSQLite(x);
            BigEndian(s[1..]) == if x < 245 then 0 else if x < 2292 then (x - 244) % 256 else if x < 67828 then x - 2292 else x
  {
    hide BigEndian;
    var t := EncodedSQLite(x)[1..];
    BigEndianSmall(t);
    Recompose(x);
    if |t| == 3 {
      BigEndian3(t);
    } else if |t| == 4 {
      BigEndian4(t);
    }
  }

  lemma BigEndianSmall(s: seq<byte>)
    ensures |s| == 0 ==> BigEndian(s) == 0
    ensures |s| == 1 ==> BigEndian(s) == s[0] as nat
    ensures |s| == 2 ==> BigEndian(s) == 0x100 * s[0] as nat + s[1] as nat
  {
    if |s| == 2 {
      assert BigEndian(s[..1]) == s[0] as nat;
    }
  }

  lemma Recompose(x: nat)
    ensures x == x / 0x1_0000 * 0x1_0000 + x / 0x100 % 0x100 * 0x100 + x % 0x100
    ensures x == x / 0x100_0000 * 0x100_0000 + x / 0x1_0000 % 0x100 * 0x1_0000 + x / 0x100 % 0x100 * 0x100 + x % 0x100
  {
    assert x / 0x1_0000 == x / 0x100 / 0x100;
    assert x / 0x100_0000 == x / 0x1_0000 / 0x100;
  }

  /** What was written is read back, whatever follows it, and the first byte announces the length. */
  lemma RoundTripSQLite(x: nat, rest: seq<byte>)
    requires x < 0x1_0000_0000
    ensures |EncodedSQLite(x)| == Announced(EncodedSQLite(x)[0])
    ensures DecodedSQLite(EncodedSQLite(x) + rest) == (x, |EncodedSQLite(x)|)
  {
    hide BigEndian;
    var s := EncodedSQLite(x);
    var buf := s + rest;
    EncodedTail(x);
    assert buf[0] == s[0] && buf[1..|s|] == s[1..];
  }

  /** The format in numbers: how long an encoding is, and what any bytes are worth that are long enough. */
  lemma SQLiteNumbers(x: nat, buf: seq<byte>)
    requires x < 0x1_0000_0000 && buf != [] && |buf| >= Announced(buf[0])
    ensures |EncodedSQLite(x)| == if x <= 244 then 1 else if x <= 2291 then 2 else if x <= 67827 then 3 else if x <= 16777215 then 4 else 5
    ensures var b := seq(|buf|, i requires 0 <= i < |buf| => buf[i] as nat);
            && (b[0] <= 244 ==> DecodedSQLite(buf) == (b[0], 1))
            && (245 <= b[0] <= 252 ==> |b| >= 2 && DecodedSQLite(buf) == (244 + 256 * (b[0] - 245) + b[1], 2))
            && (b[0] == 253 ==> |b| >= 3 && DecodedSQLite(buf) == (2292 + 256 * b[1] + b[2], 3))
            && (b[0] == 254 ==> |b| >= 4 && DecodedSQLite(buf) == (65536 * b[1] + 256 * b[2] + b[3], 4))
            && (b[0] == 255 ==> |b| >= 5 && DecodedSQLite(buf) == (16777216 * b[1] + 65536 * b[2] + 256 * b[3] + b[4], 5))
  {
    hide BigEndian;
    if buf[0] == 254 {
      BigEndian3(buf[1..4]);
    } else if buf[0] == 255 {
      BigEndian4(buf[1..5]);
    }
  }

  /** Byte-wise lexicographic order. */
  predicate Before(a: seq<byte>, b: seq<byte>) {
    b != [] && (a == [] || a[0] < b[0] || (a[0] == b[0] && Before(a[1..], b[1..])))
  }

  lemma {:induction false} BeforeBigEndian(a: seq<byte>, b: seq<byte>)
    requires |a| == |b|
    ensures Before(a, b) <==> BigEndian(a) < BigEndian(b)
    decreases |a|
  {
    if a != [] {
      var n := |a| - 1;
      BeforeBigEndian(a[..n], b[..n]);
      BeforeLast(a, b);
      BigEndianSame(a[..n], b[..n]);
    }
  }

  lemma {:induction false} BeforeLast(a: seq<byte>, b: seq<byte>)
    requires |a| == |b| > 0
    ensures Before(a, b) <==> Before(a[..|a| - 1], b[..|b| - 1]) || (a[..|a| - 1] == b[..|b| - 1] && a[|a| - 1] < b[|b| - 1])
    decreases |a|
  {
    var n := |a| - 1;
    if n > 0 {
      BeforeLast(a[1..], b[1..]);
      assert a[1..][..n - 1] == a[..n][1..] && b[1..][..n - 1] == b[..n][1..];
      assert a[..n] == [a[0]] + a[..n][1..] && b[..n] == [b[0]] + b[..n][1..];
    } else {
      assert a[..0] == [] && b[..0] == [] && a[1..] == [] && b[1..] == [];
    }
  }

  lemma {:induction false} BigEndianSame(a: seq<byte>, b: seq<byte>)
    requires |a| == |b|
    ensures BigEndian(a) == BigEndian(b) <==> a == b
    decreases |a|
  {
    if a != [] {
      var n := |a| - 1;
      BigEndianSame(a[..n], b[..n]);
      assert a == a[..n] + [a[n]] && b == b[..n] + [b[n]];
    }
  }

  /** Encodings are ordered byte by byte exactly as the numbers are. */
  lemma OrderSQLite(x: nat, y: nat)
    requires x < 0x1_0000_0000 && y < 0x1_0000_0000
    ensures Before(EncodedSQLite(x), EncodedSQLite(y)) <==> x < y
  {
    hide BigEndian;
    var a, b := EncodedSQLite(x), EncodedSQLite(y);
    EncodedTail(x);
    EncodedTail(y);
    if a[0] == b[0] {
      BeforeBigEndian(a[1..], b[1..]);
    }
  }
}
