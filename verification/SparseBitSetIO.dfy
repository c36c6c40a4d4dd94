/** The serialised form of the sparse bit set: Read and Write of util/intset/sparse.go. */
module IntSetIO {
  import opened Bits
  import opened Bytes
  import opened PopCount
  import opened IntSet
  import opened Results
  import Sorting

  // ---- Words are told apart by their bits ----

  lemma ByteOfBits(a: bv64, b: bv64)
    requires a <= 0xff && b <= 0xff
    requires BitAt(a, 0) == BitAt(b, 0) && BitAt(a, 1) == BitAt(b, 1) && BitAt(a, 2) == BitAt(b, 2) && BitAt(a, 3) == BitAt(b, 3)
    requires BitAt(a, 4) == BitAt(b, 4) && BitAt(a, 5) == BitAt(b, 5) && BitAt(a, 6) == BitAt(b, 6) && BitAt(a, 7) == BitAt(b, 7)
    ensures a == b
  {
  }

  lemma WordOfBytes(a: bv64, b: bv64)
    requires ByteAt(a, 0) == ByteAt(b, 0) && ByteAt(a, 8) == ByteAt(b, 8) && ByteAt(a, 16) == ByteAt(b, 16) && ByteAt(a, 24) == ByteAt(b, 24)
    requires ByteAt(a, 32) == ByteAt(b, 32) && ByteAt(a, 40) == ByteAt(b, 40) && ByteAt(a, 48) == ByteAt(b, 48) && ByteAt(a, 56) == ByteAt(b, 56)
    ensures a == b
  {
  }

  lemma SameBit(a: bv64, b: bv64, k: nat, base: bv64, m: bv64, i: bv64)
    requires k < 64 && base <= 56 && base & 7 == 0 && i < 8 && m == 1 << i && Mask64(k) == Shift(m, base)
    requires Has64(a, k) == Has64(b, k)
    ensures BitAt(ByteAt(a, base), i) == BitAt(ByteAt(b, base), i)
  {
    hide Mask64, BitAt, Shift, ByteAt, NonZero, Under;
    Masked(a, base, i, m);
    Masked(b, base, i, m);
    BitAtSmall(ByteAt(a, base), i);
    BitAtSmall(ByteAt(b, base), i);
    ZeroOrOne(BitAt(ByteAt(a, base), i));
    ZeroOrOne(BitAt(ByteAt(b, base), i));
  }

  lemma ZeroOrOne(x: bv64)
    requires x <= 1
    ensures x == 0 || x == 1
  {
  }

  lemma SameByte(a: bv64, b: bv64, k: nat, base: bv64)
    requires MaskRun(k, base)
    requires forall j :: 0 <= j < 64 ==> Has64(a, j) == Has64(b, j)
    ensures ByteAt(a, base) == ByteAt(b, base)
  {
    hide Has64, BitAt, ByteAt, Mask64, Shift;
    SameBit(a, b, k, base, 1, 0);
    SameBit(a, b, k + 1, base, 2, 1);
    SameBit(a, b, k + 2, base, 4, 2);
    SameBit(a, b, k + 3, base, 8, 3);
    SameBit(a, b, k + 4, base, 16, 4);
    SameBit(a, b, k + 5, base, 32, 5);
    SameBit(a, b, k + 6, base, 64, 6);
    SameBit(a, b, k + 7, base, 128, 7);
    ByteAtSmall(a, base);
    ByteAtSmall(b, base);
    ByteOfBits(ByteAt(a, base), ByteAt(b, base));
  }

  lemma SameWord(a: bv64, b: bv64)
    requires forall j :: 0 <= j < 64 ==> Has64(a, j) == Has64(b, j)
    ensures a == b
  {
    hide Has64, ByteAt, MaskRun;
    MaskRuns();
    SameByte(a, b, 0, 0);
    SameByte(a, b, 8, 8);
    SameByte(a, b, 16, 16);
    SameByte(a, b, 24, 24);
    SameByte(a, b, 32, 32);
    SameByte(a, b, 40, 40);
    SameByte(a, b, 48, 48);
    SameByte(a, b, 56, 56);
    WordOfBytes(a, b);
  }

  lemma SameBlock(a: Block, b: Block)
    requires forall y :: 0 <= y < BLOCK_BITS ==> InBlock(a, y) == InBlock(b, y)
    ensures a == b
  {
    hide Has64;
    forall j | 0 <= j < BLOCK_WORDS
      ensures a[j] == b[j]
    {
      forall k | 0 <= k < 64
        ensures Has64(a[j], k) == Has64(b[j], k)
      {
        var y := j * WORD_BITS + k;
        assert y / WORD_BITS == j && y % WORD_BITS == k;
        assert InBlock(a, y) == InBlock(b, y);
      }
      SameWord(a[j], b[j]);
    }
  }

  // ---- The set determines the compacted blocks ----

  predicate InRange(c: map<nat, Block>) {
    forall i :: i in c ==> i < KEY_LIMIT
  }

  lemma CountNonzero(b: Block) returns (y: nat)
    requires Count(b) != 0
    ensures y < BLOCK_BITS && InBlock(b, y)
  {
    hide Count, InBlock;
    BlockMembersSize(0, b, BLOCK_WORDS);
    assert b[..BLOCK_WORDS] == b;
    assert BlockMembers(0, b, BLOCK_WORDS) != {};
    y :| y in BlockMembers(0, b, BLOCK_WORDS);
  }

  lemma ElementOf(c: map<nat, Block>, i: nat, y: nat)
    requires i < KEY_LIMIT && y < BLOCK_BITS
    ensures i * BLOCK_BITS + y in Elements(c) <==> i in c && InBlock(c[i], y)
  {
    hide InBlock;
    var x := i * BLOCK_BITS + y;
    assert x / BLOCK_BITS == i && x % BLOCK_BITS == y;
  }

  lemma KeyStays(a: map<nat, Block>, b: map<nat, Block>, i: nat)
    requires InRange(a) && Elements(a) == Elements(b) && i in Compacted(a)
    ensures i in Compacted(b) && a[i] == b[i]
  {
    hide InBlock, Count, Elements;
    var y := CountNonzero(a[i]);
    ElementOf(a, i, y);
    ElementOf(b, i, y);
    forall z | 0 <= z < BLOCK_BITS
      ensures InBlock(a[i], z) == InBlock(b[i], z)
    {
      ElementOf(a, i, z);
      ElementOf(b, i, z);
    }
    SameBlock(a[i], b[i]);
  }

  lemma CompactedUnique(a: map<nat, Block>, b: map<nat, Block>)
    requires InRange(a) && InRange(b) && Elements(a) == Elements(b)
    ensures Compacted(a) == Compacted(b)
  {
    hide Count, Elements;
    forall i | i in Compacted(a)
      ensures i in Compacted(b) && a[i] == b[i]
    {
      KeyStays(a, b, i);
    }
    forall i | i in Compacted(b)
      ensures i in Compacted(a)
    {
      KeyStays(b, a, i);
    }
  }

  // ---- Keys in ascending order ----

  ghost predicate Ascending(keys: seq<nat>) {
    forall i, j :: 0 <= i < j < |keys| ==> keys[i] < keys[j]
  }

  /** `keys` lists the set `s`. */
  ghost predicate Lists(keys: seq<nat>, s: set<nat>) {
    Ascending(keys) && forall i :: i in s <==> i in keys
  }

  lemma {:induction false} ListsUnique(a: seq<nat>, b: seq<nat>, s: set<nat>)
    requires Lists(a, s) && Lists(b, s)
    ensures a == b
    decreases |a|
  {
    assert a != [] ==> a[0] in s;
    assert b != [] ==> b[0] in s;
    if a != [] && b != [] {
      assert a[0] == b[0];
      DropFirst(a, s);
      DropFirst(b, s);
      ListsUnique(a[1..], b[1..], s - {a[0]});
      assert a == [a[0]] + a[1..] && b == [b[0]] + b[1..];
    }
  }

  lemma DropFirst(keys: seq<nat>, s: set<nat>)
    requires keys != [] && Lists(keys, s)
    ensures Lists(keys[1..], s - {keys[0]})
  {
    forall i
      ensures i in s - {keys[0]} <==> i in keys[1..]
    {
      if i in keys && i != keys[0] {
        var k :| 0 <= k < |keys| && keys[k] == i;
        assert keys[1..][k - 1] == i;
      }
    }
  }

  lemma {:induction false} ListsSize(keys: seq<nat>, s: set<nat>)
    requires Lists(keys, s)
    ensures |keys| == |s|
    decreases |keys|
  {
    if keys == [] {
      assert s == {};
    } else {
      assert keys[0] in s;
      DropFirst(keys, s);
      ListsSize(keys[1..], s - {keys[0]});
    }
  }

  /** Ascending keys below a bound: there are no more of them than the bound. */
  lemma AscendingBound(keys: seq<nat>, k: nat)
    requires Ascending(keys) && k < |keys|
    ensures k <= keys[k]
  {
    if k > 0 {
      AscendingBound(keys, k - 1);
    }
  }

  predicate Before(a: nat, b: nat) { a < b }

  /** The keys of the map, collected in any order and sorted. */
  method SortedKeys(s: set<nat>) returns (keys: seq<nat>)
    ensures Lists(keys, s)
  {
    var collected: seq<nat> := [];
    var todo := s;
    while todo != {}
      invariant todo <= s
      invariant multiset(collected) == multiset(s - todo)
    {
      var i :| i in todo;
      assert s - (todo - {i}) == (s - todo) + {i};
      collected := collected + [i];
      todo := todo - {i};
    }
    assert s - todo == s;
    keys := Sorting.Slice(collected, Before);
    assert multiset(keys) == multiset(s);
    SortedSet(keys, s);
  }

  lemma SortedSet(keys: seq<nat>, s: set<nat>)
    requires multiset(keys) == multiset(s) && Sorting.Ordered(keys, Before)
    ensures Lists(keys, s)
  {
    forall i
      ensures i in s <==> i in keys
    {
      assert i in multiset(keys) <==> i in multiset(s);
    }
    forall i, j | 0 <= i < j < |keys|
      ensures keys[i] < keys[j]
    {
      assert !Before(keys[j], keys[i]);
      OnceIn(s, keys[i]);
      TwiceIn(keys, i, j);
    }
  }

  lemma OnceIn(s: set<nat>, x: nat)
    ensures multiset(s)[x] <= 1
  {
  }

  lemma TwiceIn(keys: seq<nat>, i: nat, j: nat)
    requires i < j < |keys|
    ensures keys[i] == keys[j] ==> multiset(keys)[keys[i]] >= 2
  {
    assert keys == keys[..j] + [keys[j]] + keys[j + 1..];
    assert keys[i] in keys[..j];
  }

  // ---- The bytes ----

  function PutWords(words: seq<bv64>): seq<bv8> {
    if words == [] then [] else PutUint64(words[0]) + PutWords(words[1..])
  }

  function PutBlocks(keys: seq<nat>, c: map<nat, Block>): seq<bv8>
    requires forall i :: i in keys ==> i in c
  {
    if keys == [] then [] else PutUint32(keys[0]) + PutWords(c[keys[0]]) + PutBlocks(keys[1..], c)
  }

  /** `out` is the number of blocks and then the blocks in the order of their keys. */
  ghost predicate Serialises(out: seq<bv8>, c: map<nat, Block>) {
    exists keys: seq<nat> :: Lists(keys, c.Keys) && out == PutUint32(|c|) + PutBlocks(keys, c)
  }

  lemma SerialisesUnique(out: seq<bv8>, out2: seq<bv8>, c: map<nat, Block>)
    requires Serialises(out, c) && Serialises(out2, c)
    ensures out == out2
  {
    var keys: seq<nat> :| Lists(keys, c.Keys) && out == PutUint32(|c|) + PutBlocks(keys, c);
    var keys2: seq<nat> :| Lists(keys2, c.Keys) && out2 == PutUint32(|c|) + PutBlocks(keys2, c);
    ListsUnique(keys, keys2, c.Keys);
  }

  /** Two sets with equal elements are written as the same bytes, whatever their block histories. */
  lemma WriteCanonical(a: map<nat, Block>, b: map<nat, Block>, out: seq<bv8>, out2: seq<bv8>)
    requires InRange(a) && InRange(b) && Elements(a) == Elements(b)
    requires Serialises(out, Compacted(a)) && Serialises(out2, Compacted(b))
    ensures out == out2
  {
    hide Elements, Serialises;
    CompactedUnique(a, b);
    SerialisesUnique(out, out2, Compacted(a));
  }

  lemma {:induction false} PutWordsSnoc(words: seq<bv64>, w: bv64)
    ensures PutWords(words + [w]) == PutWords(words) + PutUint64(w)
    decreases |words|
  {
    hide PutUint64;
    if words == [] {
      assert words + [w] == [w] && [w][1..] == [];
    } else {
      assert (words + [w])[1..] == words[1..] + [w];
      PutWordsSnoc(words[1..], w);
    }
  }

  method WriteWords(block: array<bv64>) returns (out: seq<bv8>)
    ensures out == PutWords(block[..])
  {
    hide PutUint64;
    out := [];
    for j := 0 to block.Length
      invariant out == PutWords(block[..j])
    {
      PutWordsSnoc(block[..j], block[j]);
      assert block[..j + 1] == block[..j] + [block[j]];
      out := out + PutUint64(block[j]);
    }
    assert block[..block.Length] == block[..];
  }

  /** A writer accepts all the bytes, or reports an error after any number of them. */
  method Emit(out: seq<bv8>, bytes: seq<bv8>) returns (ok: bool, out': seq<bv8>)
    ensures ok ==> out' == out + bytes
    ensures out <= out' <= out + bytes
  {
    ok := *;
    var n: int := *;
    if ok || !(0 <= n <= |bytes|) {
      n := |bytes|;
    }
    out' := out + bytes[..n];
  }

  method WriteBlocks(s: SparseBitSet, keys: seq<nat>, out0: seq<bv8>) returns (ok: bool, out: seq<bv8>)
    requires s.Valid() && forall i :: i in keys ==> i in s.Contents()
    ensures ok ==> out == out0 + PutBlocks(keys, s.Contents())
    ensures out0 <= out <= out0 + PutBlocks(keys, s.Contents())
  {
    hide PutUint32, PutWords, PutBlocks, SparseBitSet.Valid, SparseBitSet.Contents;
    ghost var c := s.Contents();
    out := out0;
    NoBlocks(c);
    for k := 0 to |keys|
      invariant forall i :: i in keys[..k] ==> i in c
      invariant out == out0 + PutBlocks(keys[..k], c)
    {
      var block := s.Get(keys[k]);
      var words := WriteWords(block);
      PutBlocksSnoc(keys[..k], keys[k], c);
      assert keys[..k + 1] == keys[..k] + [keys[k]];
      PutBlocksPrefix(keys, c, k + 1);
      ghost var before, done := out, PutBlocks(keys[..k], c);
      assert out0 + (done + (PutUint32(keys[k]) + words)) == before + PutUint32(keys[k]) + words;
      ok, out := Emit(out, PutUint32(keys[k]));
      if !ok {
        return;
      }
      ok, out := Emit(out, words);
      if !ok {
        return;
      }
    }
    assert keys[..|keys|] == keys;
    ok := true;
  }

  lemma NoBlocks(c: map<nat, Block>)
    ensures PutBlocks([], c) == []
  {
  }

  lemma {:induction false} PutBlocksPrefix(keys: seq<nat>, c: map<nat, Block>, k: nat)
    requires k <= |keys| && forall i :: i in keys ==> i in c
    ensures PutBlocks(keys[..k], c) <= PutBlocks(keys, c)
    decreases |keys| - k
  {
    hide PutUint32, PutWords, PutBlocks;
    if k == |keys| {
      assert keys[..k] == keys;
    } else {
      PutBlocksPrefix(keys, c, k + 1);
      PutBlocksSnoc(keys[..k], keys[k], c);
      assert keys[..k + 1] == keys[..k] + [keys[k]];
    }
  }

  lemma {:induction false} PutBlocksSnoc(keys: seq<nat>, k: nat, c: map<nat, Block>)
    requires k in c && forall i :: i in keys ==> i in c
    ensures PutBlocks(keys + [k], c) == PutBlocks(keys, c) + (PutUint32(k) + PutWords(c[k]))
    decreases |keys|
  {
    hide PutUint32, PutWords;
    if keys == [] {
      assert keys + [k] == [k] && [k][1..] == [];
    } else {
      assert (keys + [k])[1..] == keys[1..] + [k];
      PutBlocksSnoc(keys[1..], k, c);
      var head := PutUint32(keys[0]) + PutWords(c[keys[0]]);
      assert head + (PutBlocks(keys[1..], c) + (PutUint32(k) + PutWords(c[k])))
          == head + PutBlocks(keys[1..], c) + (PutUint32(k) + PutWords(c[k]));
    }
  }

  /** Without an error the output is the serialised form; after an error it is a beginning of it. */
  ghost predicate Written(ok: bool, out: seq<bv8>, c: map<nat, Block>) {
    exists all: seq<bv8> :: Serialises(all, c) && out <= all && (ok ==> out == all)
  }

  method Write(s: SparseBitSet) returns (ok: bool, out: seq<bv8>)
    requires s.Valid()
    modifies s
    ensures s.Valid() && s.Set() == old(s.Set()) && s.blocks.Values <= old(s.blocks.Values)
    ensures s.Contents() == Compacted(old(s.Contents())) && Written(ok, out, s.Contents())
  {
    hide Elements, Count, PutUint32, PutBlocks, SparseBitSet.Valid, SparseBitSet.Contents;
    s.Compact();
    ghost var c := s.Contents();
    var unsorted := s.Keys();
    ok, out := Emit([], PutUint32(|unsorted|));
    var keys := SortedKeys(unsorted);
    ghost var all := PutUint32(|c|) + PutBlocks(keys, c);
    assert |c| == |unsorted| && [] + PutUint32(|unsorted|) == PutUint32(|unsorted|);
    assert Serialises(all, c);
    if !ok {
      return;
    }
    ok, out := WriteBlocks(s, keys, out);
  }

  // ---- Reading ----

  function GetWords(data: seq<bv8>, n: nat): (words: seq<bv64>)
    requires |data| >= 8 * n
    ensures |words| == n
  {
    if n == 0 then [] else [GetUint64(data)] + GetWords(data[8..], n - 1)
  }

  function GetBlock(data: seq<bv8>): Block
    requires |data| >= 1024
  {
    GetWords(data, 128)
  }

  /** What was read, and whether all of it was there. */
  datatype Load = Load(complete: bool, blocks: map<nat, Block>)

  /** Reads `n` keys and blocks, and tells whether all were there. A key that comes twice keeps its last block; a block
      that breaks off stays empty. */
  function GetBlocks(data: seq<bv8>, n: nat, c: map<nat, Block>): Load {
    if n == 0 then Load(true, c)
    else if |data| < 4 then Load(false, c)
    else if |data[4..]| < 1024 then Load(false, c[GetUint32(data) := EmptyBlock()])
    else GetBlocks(data[4..][1024..], n - 1, c[GetUint32(data) := GetBlock(data[4..])])
  }

  /** What reading `data` leaves in the set, after the number of blocks has been read. */
  function Loaded(data: seq<bv8>): Load
    requires |data| >= 4
  {
    GetBlocks(data[4..], GetUint32(data), map[])
  }

  function Parse(data: seq<bv8>): Option<map<nat, Block>> {
    if |data| < 4 || !Loaded(data).complete then None else Some(Loaded(data).blocks)
  }

  lemma {:induction false} PutWordsLength(words: seq<bv64>)
    ensures |PutWords(words)| == 8 * |words|
    decreases |words|
  {
    hide PutUint64;
    if words != [] {
      PutUint64Length(words[0]);
      PutWordsLength(words[1..]);
    }
  }

  lemma PutUint64Length(w: bv64)
    ensures |PutUint64(w)| == 8
  {
  }

  lemma {:induction false} GetPutWords(words: seq<bv64>, rest: seq<bv8>)
    ensures |PutWords(words) + rest| >= 8 * |words|
    ensures GetWords(PutWords(words) + rest, |words|) == words
    decreases |words|
  {
    hide PutUint64, GetUint64;
    PutWordsLength(words);
    if words != [] {
      var data, tail := PutWords(words) + rest, PutWords(words[1..]) + rest;
      PutUint64Length(words[0]);
      assert data == PutUint64(words[0]) + tail && data[8..] == tail;
      GetUint64Back(words[0], tail);
      GetPutWords(words[1..], rest);
    }
  }

  lemma GetOneBlock(k: nat, b: Block, tail: seq<bv8>, n: nat, done: map<nat, Block>)
    requires k < 0x1_0000_0000
    ensures GetBlocks(PutUint32(k) + PutWords(b) + tail, n + 1, done) == GetBlocks(tail, n, done[k := b])
  {
    hide PutUint32, GetUint32, PutWords, GetWords;
    var data := PutUint32(k) + PutWords(b) + tail;
    assert data == PutUint32(k) + (PutWords(b) + tail);
    PutUint32Length(k);
    GetUint32Back(k, PutWords(b) + tail);
    assert data[4..] == PutWords(b) + tail;
    PutWordsLength(b);
    GetPutWords(b, tail);
    assert data[4..][1024..] == tail;
  }

  lemma {:induction false} GetPutBlocks(keys: seq<nat>, c: map<nat, Block>, done: map<nat, Block>, rest: seq<bv8>)
    requires forall i :: i in keys ==> i in c && i < 0x1_0000_0000
    requires forall i :: i in done ==> i in c && done[i] == c[i]
    requires forall i :: i in c ==> i in done || i in keys
    ensures GetBlocks(PutBlocks(keys, c) + rest, |keys|, done) == Load(true, c)
    decreases |keys|
  {
    hide PutUint32, GetUint32, PutWords, GetWords, GetBlock;
    if keys == [] {
      assert done == c;
    } else {
      var k, tail := keys[0], PutBlocks(keys[1..], c) + rest;
      assert PutBlocks(keys, c) + rest == PutUint32(k) + PutWords(c[k]) + tail;
      GetOneBlock(k, c[k], tail, |keys| - 1, done);
      assert keys == [k] + keys[1..];
      GetPutBlocks(keys[1..], c, done[k := c[k]], rest);
    }
  }

  lemma PutUint32Length(n: nat)
    ensures |PutUint32(n)| == 4
  {
  }

  /** Reading what was written, whatever bytes follow, gives back exactly the written blocks. */
  lemma ReadBack(c: map<nat, Block>, out: seq<bv8>, rest: seq<bv8>)
    requires InRange(c) && Serialises(out, c)
    ensures Parse(out + rest) == Some(c)
  {
    hide PutUint32, GetUint32, PutBlocks, GetBlocks;
    var keys: seq<nat> :| Lists(keys, c.Keys) && out == PutUint32(|c|) + PutBlocks(keys, c);
    ListsSize(keys, c.Keys);
    if keys != [] {
      AscendingBound(keys, |keys| - 1);
      assert keys[|keys| - 1] in c;
    }
    assert |c| == |c.Keys| == |keys|;
    PutUint32Length(|c|);
    GetUint32Back(|c|, PutBlocks(keys, c) + rest);
    assert out + rest == PutUint32(|c|) + (PutBlocks(keys, c) + rest);
    assert (out + rest)[4..] == PutBlocks(keys, c) + rest;
    GetPutBlocks(keys, c, map[], rest);
  }

  /** Write and then Read, into any object: the same set of numbers. */
  lemma WriteReadSet(before: map<nat, Block>, out: seq<bv8>, rest: seq<bv8>)
    requires InRange(before) && Serialises(out, Compacted(before))
    ensures Parse(out + rest).Some? && Elements(Parse(out + rest).value) == Elements(before)
  {
    hide Serialises, Parse, Elements, Count;
    ReadBack(Compacted(before), out, rest);
    CompactedElements(before);
  }

  lemma CompactedElements(c: map<nat, Block>)
    ensures Elements(Compacted(c)) == Elements(c)
  {
    hide InBlock, Count;
    forall x: nat
      ensures Member(Compacted(c), x) == Member(c, x)
    {
      if x / BLOCK_BITS in c && Count(c[x / BLOCK_BITS]) == 0 {
        CountZero(c[x / BLOCK_BITS]);
      }
    }
  }

  /** The object's blocks are those of `c`, each in an array of its own. */
  ghost predicate Holds(s: SparseBitSet, c: map<nat, Block>)
    reads s, s.blocks.Values
  {
    && s.blocks.Keys == c.Keys
    && (forall i :: i in c ==> s.blocks[i][..] == c[i])
    && (forall i, j :: i in c && j in c && i != j ==> s.blocks[i] != s.blocks[j])
  }

  method ReadWords(block: array<bv64>, data: seq<bv8>)
    requires block.Length == BLOCK_WORDS && |data| >= 1024
    modifies block
    ensures block[..] == GetBlock(data)
  {
    hide GetUint64;
    ghost var words := GetWords(data, 128);
    for j := 0 to BLOCK_WORDS
      invariant block[..j] == words[..j]
      invariant words[j..] == GetWords(data[8 * j..], 128 - j)
    {
      block[j] := GetUint64(data[8 * j..]);
      assert data[8 * j..][8..] == data[8 * (j + 1)..];
      assert words[j] == words[j..][0] && words[j + 1..] == words[j..][1..];
    }
    assert block[..] == block[..128] && words == words[..128];
  }

  /** Fills in block `i`, which is in the set already. */
  method Fill(s: SparseBitSet, i: nat, data: seq<bv8>, ghost c: map<nat, Block>)
    requires Holds(s, c) && i in c && |data| >= 1024
    modifies s.blocks[i]
    ensures s.blocks == old(s.blocks) && Holds(s, c[i := GetBlock(data)])
  {
    hide GetBlock;
    ReadWords(s.blocks[i], data);
  }

  /** Stores one block that has just been read. */
  method Store(s: SparseBitSet, i: nat, block: array<bv64>, ghost c: map<nat, Block>)
    requires Holds(s, c) && block.Length == BLOCK_WORDS && block !in s.blocks.Values
    modifies s
    ensures s.blocks.Values <= old(s.blocks.Values) + {block} && i in s.blocks && s.blocks[i] == block
    ensures Holds(s, c[i := block[..]])
  {
    s.blocks := s.blocks[i := block];
  }

  /** Reads until the data end, which is also how a failing reader shows. Without the number of blocks nothing changes;
      else the set holds what was read, and is valid exactly if no key is too large. */
  method Read(s: SparseBitSet, data: seq<bv8>) returns (ok: bool)
    modifies s
    ensures ok == Parse(data).Some?
    ensures |data| < 4 ==> s.blocks == old(s.blocks)
    ensures |data| >= 4 ==>
              && Holds(s, Loaded(data).blocks) && fresh(s.blocks.Values)
              && (s.Valid() <==> InRange(Loaded(data).blocks)) && (s.Valid() ==> s.Contents() == Loaded(data).blocks)
  {
    hide GetBlock, GetUint32, Holds, InRange, SparseBitSet.Valid, SparseBitSet.Contents;
    if |data| < 4 {
      return false;
    }
    var n := GetUint32(data);
    var r := data[4..];
    Reset(s);
    ghost var c: map<nat, Block> := map[];
    for j := 0 to n
      invariant Holds(s, c) && fresh(s.blocks.Values)
      invariant GetBlocks(r, n - j, c) == Loaded(data)
    {
      if |r| < 4 {
        HoldsValid(s, c);
        return false;
      }
      var i := GetUint32(r);
      var block := new bv64[BLOCK_WORDS](_ => 0);
      assert block[..] == EmptyBlock();
      Store(s, i, block, c);
      ghost var left := r;
      r := r[4..];
      if |r| < 1024 {
        HoldsValid(s, c[i := EmptyBlock()]);
        return false;
      }
      Fill(s, i, r, c[i := EmptyBlock()]);
      assert c[i := EmptyBlock()][i := GetBlock(r)] == c[i := GetBlock(r)];
      c := c[i := GetBlock(r)];
      r := r[1024..];
    }
    ok := true;
    HoldsValid(s, c);
  }

  method Reset(s: SparseBitSet)
    modifies s
    ensures s.blocks == map[] && Holds(s, map[])
  {
    s.blocks := map[];
  }

  lemma HoldsValid(s: SparseBitSet, c: map<nat, Block>)
    requires Holds(s, c)
    ensures s.Valid() <==> InRange(c)
    ensures s.Valid() ==> s.Contents() == c
  {
    forall i | i in c
      ensures s.blocks[i].Length == BLOCK_WORDS
    {
      assert s.blocks[i][..] == c[i];
      assert |s.blocks[i][..]| == BLOCK_WORDS;
    }
  }
}
