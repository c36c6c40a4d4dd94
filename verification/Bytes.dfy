/** Numbers and words as bytes, as encoding/binary lays them out. */
module Bytes {

  function ByteValue(b: bv8): (n: nat)
    ensures n < 256
  {
    b as nat
  }

  /** The low byte of a number. */
  function Byte(n: int): bv8 { (n % 256) as bv8 }

  lemma ByteBack(n: int)
    ensures ByteValue(Byte(n)) == n % 256
  {
    SmallByteBack(n % 256);
  }

  lemma NextByte(b: bv8)
    ensures b as nat < 255 ==> (b + 1) as nat == b as nat + 1
  {
    if b < 255 {
      NextSmall(b);
    }
  }

  lemma NextSmall(b: bv8)
    requires b < 255
    ensures (b + 1) as nat == b as nat + 1
  {
  }

  lemma {:induction false} ByteWith(n: nat) returns (b: bv8)
    requires n < 256
    ensures b as nat == n
  {
    if n == 0 {
      b := 0;
    } else {
      b := ByteWith(n - 1);
      NextByte(b);
      b := b + 1;
    }
  }

  lemma ThereAndBack(b: bv8)
    ensures (b as nat) as bv8 == b
  {
  }

  lemma SmallByteBack(n: nat)
    requires n < 256
    ensures (n as bv8) as nat == n
  {
    var b := ByteWith(n);
    ThereAndBack(b);
  }

  // ---- Little endian ----

  function PutUint32(n: nat): seq<bv8> {
    [Byte(n), Byte(n / 0x100), Byte(n / 0x10000), Byte(n / 0x1000000)]
  }

  function GetUint32(data: seq<bv8>): (n: nat)
    requires |data| >= 4
  {
    ByteValue(data[0]) + ByteValue(data[1]) * 0x100 + ByteValue(data[2]) * 0x10000 + ByteValue(data[3]) * 0x1000000
  }

  lemma GetUint32Back(n: nat, rest: seq<bv8>)
    requires n < 0x1_0000_0000
    ensures GetUint32(PutUint32(n) + rest) == n
  {
    hide Byte, ByteValue;
    var data := PutUint32(n) + rest;
    assert data[0] == Byte(n) && data[1] == Byte(n / 0x100) && data[2] == Byte(n / 0x10000) && data[3] == Byte(n / 0x1000000);
    ByteBack(n);
    ByteBack(n / 0x100);
    ByteBack(n / 0x10000);
    ByteBack(n / 0x1000000);
    FourDigits(n);
  }

  lemma FourDigits(n: nat)
    requires n < 0x1_0000_0000
    ensures n % 256 + n / 0x100 % 256 * 0x100 + n / 0x10000 % 256 * 0x10000 + n / 0x1000000 % 256 * 0x1000000 == n
  {
    var a := n / 256;
    var b := a / 256;
    assert b == n / 0x10000 && b / 256 == n / 0x1000000;
  }

  function PutUint64(w: bv64): seq<bv8> {
    [(w & 0xff) as bv8, ((w >> 8) & 0xff) as bv8, ((w >> 16) & 0xff) as bv8, ((w >> 24) & 0xff) as bv8,
     ((w >> 32) & 0xff) as bv8, ((w >> 40) & 0xff) as bv8, ((w >> 48) & 0xff) as bv8, ((w >> 56) & 0xff) as bv8]
  }

  function GetUint64(data: seq<bv8>): bv64
    requires |data| >= 8
  {
    data[0] as bv64 | (data[1] as bv64 << 8) | (data[2] as bv64 << 16) | (data[3] as bv64 << 24) |
    (data[4] as bv64 << 32) | (data[5] as bv64 << 40) | (data[6] as bv64 << 48) | (data[7] as bv64 << 56)
  }

  lemma GetUint64Back(w: bv64, rest: seq<bv8>)
    ensures GetUint64(PutUint64(w) + rest) == w
  {
  }
}
