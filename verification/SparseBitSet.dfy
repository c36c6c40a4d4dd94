/** The sparse bit set of util/intset/sparse.go: a map from block numbers to 128-word blocks. */
module IntSet {
  import opened Bits
  import opened PopCount

  const WORD_BITS: nat := 64
  const BLOCK_WORDS: nat := 128
  const BLOCK_BITS: nat := 8192
  const KEY_LIMIT: nat := 0x80000
  const VALUE_LIMIT: nat := 0x1_0000_0000

  type Uint32 = x: nat | x < 0x1_0000_0000

  type Block = b: seq<bv64> | |b| == 128 witness seq(128, _ => 0)

  // ---- The set that a map of blocks stands for ----

  /** Bit `y` of a block. */
  predicate InBlock(b: seq<bv64>, y: nat)
    requires |b| == BLOCK_WORDS && y < BLOCK_BITS
  {
    Has64(b[y / WORD_BITS], y % WORD_BITS)
  }

  predicate Member(blocks: map<nat, Block>, x: nat) {
    x / BLOCK_BITS in blocks && InBlock(blocks[x / BLOCK_BITS], x % BLOCK_BITS)
  }

  function Elements(blocks: map<nat, Block>): set<nat> {
    set x: nat | x < VALUE_LIMIT && Member(blocks, x)
  }

  // ---- What one word update does to the set ----

  lemma InBlockUpdate(b: Block, y: nat, w: bv64, z: nat)
    requires y < BLOCK_BITS && z < BLOCK_BITS
    ensures InBlock(b[y / WORD_BITS := w], z) ==
            if z / WORD_BITS == y / WORD_BITS then Has64(w, z % WORD_BITS) else InBlock(b, z)
  {
  }

  function WithBit(b: Block, y: nat): Block
    requires y < BLOCK_BITS
  {
    b[y / WORD_BITS := Or64(b[y / WORD_BITS], Mask64(y % WORD_BITS))]
  }

  function WithoutBit(b: Block, y: nat): Block
    requires y < BLOCK_BITS
  {
    b[y / WORD_BITS := AndNot64(b[y / WORD_BITS], Mask64(y % WORD_BITS))]
  }

  lemma WithBitHas(b: Block, y: nat, z: nat)
    requires y < BLOCK_BITS && z < BLOCK_BITS
    ensures InBlock(WithBit(b, y), z) == (z == y || InBlock(b, z))
  {
    hide Has64, Mask64, Or64;
    InBlockUpdate(b, y, Or64(b[y / WORD_BITS], Mask64(y % WORD_BITS)), z);
    if z / WORD_BITS == y / WORD_BITS {
      Has64Set(b[y / WORD_BITS], y % WORD_BITS, z % WORD_BITS);
    }
  }

  lemma WithoutBitHas(b: Block, y: nat, z: nat)
    requires y < BLOCK_BITS && z < BLOCK_BITS
    ensures InBlock(WithoutBit(b, y), z) == (z != y && InBlock(b, z))
  {
    hide Has64, Mask64, AndNot64;
    InBlockUpdate(b, y, AndNot64(b[y / WORD_BITS], Mask64(y % WORD_BITS)), z);
    if z / WORD_BITS == y / WORD_BITS {
      Has64Clear(b[y / WORD_BITS], y % WORD_BITS, z % WORD_BITS);
    }
  }

  function ZeroWords(n: nat): (words: seq<bv64>)
    ensures |words| == n && forall j :: 0 <= j < n ==> words[j] == 0
  {
    if n == 0 then [] else ZeroWords(n - 1) + [0]
  }

  function EmptyBlock(): Block { ZeroWords(128) }

  lemma EmptyBlockHas(z: nat)
    requires z < BLOCK_BITS
    ensures !InBlock(EmptyBlock(), z)
  {
    hide Has64;
    Has64Zero(z % WORD_BITS);
  }

  lemma ElementsAdd(blocks: map<nat, Block>, x: Uint32, b: Block)
    requires b == if x / BLOCK_BITS in blocks then blocks[x / BLOCK_BITS] else EmptyBlock()
    ensures Elements(blocks[x / BLOCK_BITS := WithBit(b, x % BLOCK_BITS)]) == Elements(blocks) + {x}
  {
    hide InBlock, WithBit;
    var after := blocks[x / BLOCK_BITS := WithBit(b, x % BLOCK_BITS)];
    forall z: nat
      ensures Member(after, z) == (z == x || Member(blocks, z))
    {
      if z / BLOCK_BITS == x / BLOCK_BITS {
        WithBitHas(b, x % BLOCK_BITS, z % BLOCK_BITS);
        EmptyBlockHas(z % BLOCK_BITS);
      }
    }
  }

  lemma ElementsRemove(blocks: map<nat, Block>, x: Uint32)
    requires x / BLOCK_BITS in blocks
    ensures Elements(blocks[x / BLOCK_BITS := WithoutBit(blocks[x / BLOCK_BITS], x % BLOCK_BITS)]) == Elements(blocks) - {x}
  {
    hide InBlock, WithoutBit;
    var after := blocks[x / BLOCK_BITS := WithoutBit(blocks[x / BLOCK_BITS], x % BLOCK_BITS)];
    forall z: nat
      ensures Member(after, z) == (z != x && Member(blocks, z))
    {
      if z / BLOCK_BITS == x / BLOCK_BITS {
        WithoutBitHas(blocks[x / BLOCK_BITS], x % BLOCK_BITS, z % BLOCK_BITS);
      }
    }
  }

  // ---- Whole blocks ----

  function OrBlocks(a: Block, b: Block): Block {
    seq(128, j requires 0 <= j < 128 => Or64(a[j], b[j]))
  }

  function AndBlocks(a: Block, b: Block): Block {
    seq(128, j requires 0 <= j < 128 => And64(a[j], b[j]))
  }

  lemma OrBlocksHas(a: Block, b: Block, y: nat)
    requires y < BLOCK_BITS
    ensures InBlock(OrBlocks(a, b), y) == (InBlock(a, y) || InBlock(b, y))
  {
    hide Has64, Or64;
    Has64Or(a[y / WORD_BITS], b[y / WORD_BITS], y % WORD_BITS);
  }

  lemma AndBlocksHas(a: Block, b: Block, y: nat)
    requires y < BLOCK_BITS
    ensures InBlock(AndBlocks(a, b), y) == (InBlock(a, y) && InBlock(b, y))
  {
    hide Has64, And64;
    Has64And(a[y / WORD_BITS], b[y / WORD_BITS], y % WORD_BITS);
  }

  // ---- Cardinalities ----

  /** The number of bits set in a slice of words. */
  function Count(words: seq<bv64>): nat {
    if words == [] then 0 else Count(words[..|words| - 1]) + Ones(words[|words| - 1], 64)
  }

  /** `x` is among the first `n` bits of the word that starts at `base`, and set. */
  predicate WordHas(base: nat, w: bv64, n: nat, x: nat)
    requires n <= 64
  {
    base <= x < base + n && Has64(w, x - base)
  }

  function WordMembers(base: nat, w: bv64, n: nat): set<nat>
    requires n <= 64
  {
    set x: nat | x < base + n && WordHas(base, w, n, x)
  }

  lemma {:induction false} WordMembersSize(base: nat, w: bv64, n: nat)
    requires n <= 64
    ensures |WordMembers(base, w, n)| == Ones(w, n)
  {
    hide Has64;
    if n == 0 {
      assert WordMembers(base, w, 0) == {};
    } else {
      WordMembersSize(base, w, n - 1);
      var before := WordMembers(base, w, n - 1);
      assert WordMembers(base, w, n) == before + if Has64(w, n - 1) then {base + n - 1} else {};
    }
  }

  /** `x` is among the first `m` words of block `i`, and set. */
  predicate BlockHas(i: nat, b: Block, m: nat, x: nat)
    requires m <= BLOCK_WORDS
  {
    i * BLOCK_BITS <= x < i * BLOCK_BITS + m * WORD_BITS && InBlock(b, x - i * BLOCK_BITS)
  }

  function BlockMembers(i: nat, b: Block, m: nat): set<nat>
    requires m <= BLOCK_WORDS
  {
    set x: nat | x < i * BLOCK_BITS + m * WORD_BITS && BlockHas(i, b, m, x)
  }

  lemma {:induction false} BlockMembersSize(i: nat, b: Block, m: nat)
    requires m <= BLOCK_WORDS
    ensures |BlockMembers(i, b, m)| == Count(b[..m])
  {
    hide Has64, Ones;
    if m == 0 {
      assert BlockMembers(i, b, 0) == {};
    } else {
      BlockMembersSize(i, b, m - 1);
      var base := i * BLOCK_BITS + (m - 1) * WORD_BITS;
      var before, here := BlockMembers(i, b, m - 1), WordMembers(base, b[m - 1], 64);
      WordMembersSize(base, b[m - 1], 64);
      assert BlockMembers(i, b, m) == before + here by {
        BlockMembersStep(i, b, m);
      }
      assert before !! here;
      assert b[..m][..m - 1] == b[..m - 1];
    }
  }

  lemma BlockMembersStep(i: nat, b: Block, m: nat)
    requires 0 < m <= BLOCK_WORDS
    ensures BlockMembers(i, b, m) ==
            BlockMembers(i, b, m - 1) + WordMembers(i * BLOCK_BITS + (m - 1) * WORD_BITS, b[m - 1], 64)
  {
    hide Has64;
    var base := i * BLOCK_BITS + (m - 1) * WORD_BITS;
    forall x: nat
      ensures BlockHas(i, b, m, x) == (BlockHas(i, b, m - 1, x) || WordHas(base, b[m - 1], 64, x))
    {
      if base <= x < base + 64 {
        assert (x - i * BLOCK_BITS) / WORD_BITS == m - 1;
      }
    }
  }

  /** A new block adds as many elements as it has bits. */
  lemma ElementsSize(blocks: map<nat, Block>, i: nat, b: Block)
    requires i !in blocks && i < KEY_LIMIT
    ensures |Elements(blocks[i := b])| == |Elements(blocks)| + Count(b)
  {
    hide InBlock, Count;
    var here := BlockMembers(i, b, BLOCK_WORDS);
    BlockMembersSize(i, b, BLOCK_WORDS);
    assert b[..BLOCK_WORDS] == b;
    forall x: nat | x < VALUE_LIMIT
      ensures Member(blocks[i := b], x) <==> x in Elements(blocks) || x in here
      ensures !(x in Elements(blocks) && x in here)
    {
      assert x / BLOCK_BITS == i <==> i * BLOCK_BITS <= x < i * BLOCK_BITS + BLOCK_WORDS * WORD_BITS;
    }
    assert Elements(blocks[i := b]) == Elements(blocks) + here;
    assert Elements(blocks) !! here;
  }

  lemma CountZero(b: Block)
    requires Count(b) == 0
    ensures forall y :: 0 <= y < BLOCK_BITS ==> !InBlock(b, y)
  {
    hide Count, InBlock;
    BlockMembersSize(0, b, BLOCK_WORDS);
    assert b[..BLOCK_WORDS] == b;
    forall y | 0 <= y < BLOCK_BITS
      ensures !InBlock(b, y)
    {
      assert y !in BlockMembers(0, b, BLOCK_WORDS);
    }
  }

  method PopCount64Slice(xs: array<bv64>) returns (n: int)
    ensures n == Count(xs[..])
  {
    hide PopCount64, Ones;
    n := 0;
    for k := 0 to xs.Length
      invariant n == Count(xs[..k])
    {
      PopCount64Correct(xs[k]);
      assert xs[..k + 1][..k] == xs[..k];
      n := n + PopCount64(xs[k]);
    }
    assert xs[..xs.Length] == xs[..];
  }

  // ---- The class ----

  lemma Fewer(c: map<nat, Block>, i: nat)
    ensures i in c ==> |c - {i}| < |c|
  {
    if i in c {
      assert (c - {i}).Keys == c.Keys - {i};
      assert |(c - {i}).Keys| == |c - {i}| && |c.Keys| == |c|;
    }
  }

  class SparseBitSet {
    var blocks: map<nat, array<bv64>>

    /** Every block has its 128 words and belongs to one key only; keys are those of 32-bit values. */
    ghost predicate Valid()
      reads this, blocks.Values
    {
      && (forall i :: i in blocks ==> i < KEY_LIMIT && blocks[i].Length == BLOCK_WORDS)
      && (forall i, j :: i in blocks && j in blocks && i != j ==> blocks[i] != blocks[j])
    }

    ghost function Contents(): map<nat, Block>
      requires Valid()
      reads this, blocks.Values
    {
      map i | i in blocks :: blocks[i][..]
    }

    /** The mathematical set that this object is. */
    ghost function Set(): set<nat>
      requires Valid()
      reads this, blocks.Values
    {
      Elements(Contents())
    }

    constructor ()
      ensures Valid() && blocks == map[] && Contents() == map[] && Set() == {}
    {
      blocks := map[];
    }

    method Keys() returns (keys: set<nat>)
      requires Valid()
      ensures keys == Contents().Keys == blocks.Keys
      ensures forall i :: i in keys ==> i < KEY_LIMIT
    {
      keys := blocks.Keys;
    }

    method Get(i: nat) returns (block: array<bv64>)
      requires Valid() && i in Contents()
      ensures i in blocks && block == blocks[i] && i < KEY_LIMIT
      ensures block.Length == BLOCK_WORDS && block[..] == Contents()[i]
    {
      block := blocks[i];
    }

    /** Stores a block that no key refers to yet. */
    method Put(i: nat, block: array<bv64>)
      requires Valid() && i < KEY_LIMIT && block.Length == BLOCK_WORDS && block !in blocks.Values
      modifies this
      ensures Valid() && blocks == old(blocks)[i := block]
      ensures blocks.Values <= old(blocks.Values) + {block}
      ensures Contents() == old(Contents())[i := block[..]]
    {
      blocks := blocks[i := block];
    }

    /** Stores one word of a block, in place. */
    method SetWord(i: nat, j: nat, w: bv64)
      requires Valid() && i in blocks && j < BLOCK_WORDS
      modifies blocks[i]
      ensures Valid() && Contents() == old(Contents())[i := old(Contents())[i][j := w]]
    {
      var block := blocks[i];
      block[j] := w;
    }

    /** Merges another block into block `i`, in place. */
    method OrBlock(i: nat, block2: array<bv64>)
      requires Valid() && i in blocks && block2.Length == BLOCK_WORDS
      modifies blocks[i]
      ensures Valid() && Contents() == old(Contents())[i := OrBlocks(old(Contents())[i], old(block2[..]))]
    {
      hide OrBlocks;
      OrInto(blocks[i], block2);
    }

    /** Makes sure that there is a block `i`. */
    method Grow(i: nat)
      requires Valid() && i < KEY_LIMIT
      modifies this
      ensures Valid() && Contents() == if i in old(Contents()) then old(Contents()) else old(Contents())[i := EmptyBlock()]
      ensures i in blocks && fresh(blocks.Values - old(blocks.Values))
    {
      hide Valid, Contents;
      var keys := Keys();
      if i !in keys {
        var block := new bv64[BLOCK_WORDS](_ => 0);
        assert block[..] == EmptyBlock();
        Put(i, block);
      }
    }

    method Add(x: Uint32)
      requires Valid()
      modifies this, blocks.Values
      ensures Valid() && Set() == old(Set()) + {x}
      ensures fresh(blocks.Values - old(blocks.Values))
    {
      hide Elements, WithBit, Or64, Mask64;
      var i := x / BLOCK_BITS;
      ghost var before := Contents();
      ghost var b: Block := if i in before then before[i] else EmptyBlock();
      Grow(i);
      var j := (x % BLOCK_BITS) / WORD_BITS;
      var mask := Mask64(x % WORD_BITS);
      SetWord(i, j, Or64(blocks[i][j], mask));
      WithBitIs(b, x, Contents()[i]);
      ElementsAdd(before, x, b);
      assert Contents() == before[i := WithBit(b, x % BLOCK_BITS)];
    }

    method Remove(x: Uint32)
      requires Valid()
      modifies blocks.Values
      ensures Valid() && Set() == old(Set()) - {x}
    {
      hide Elements, WithoutBit, AndNot64, Mask64;
      var i := x / BLOCK_BITS;
      ghost var before := Contents();
      if i !in blocks {
        NotMember(before, x);
        return;
      }
      var j := (x % BLOCK_BITS) / WORD_BITS;
      var mask := Mask64(x % WORD_BITS);
      SetWord(i, j, AndNot64(blocks[i][j], mask));
      WithoutBitIs(before[i], x, Contents()[i]);
      ElementsRemove(before, x);
      assert Contents() == before[i := WithoutBit(before[i], x % BLOCK_BITS)];
    }

    method Contains(x: Uint32) returns (found: bool)
      requires Valid()
      ensures found == (x in Set())
    {
      hide Has64, Under, Mask64;
      var i := x / BLOCK_BITS;
      if i !in blocks {
        return false;
      }
      var block := blocks[i];
      var j := (x % BLOCK_BITS) / WORD_BITS;
      var mask := Mask64(x % WORD_BITS);
      HasIs(block[j], x % WORD_BITS);
      WordIndex(x);
      found := Under(block[j], mask) != 0;
    }

    method Clone() returns (s2: SparseBitSet)
      requires Valid()
      ensures fresh(s2) && fresh(s2.blocks.Values)
      ensures s2.Valid() && s2.Contents() == Contents()
    {
      hide Valid, Contents, Only;
      s2 := new SparseBitSet();
      ghost var c := Contents();
      var todo := Keys();
      OnlyNone(c, c.Keys - todo);
      while todo != {}
        invariant todo <= c.Keys
        invariant s2.Valid() && fresh(s2) && fresh(s2.blocks.Values)
        invariant s2.Contents() == Only(c, c.Keys - todo)
      {
        var i :| i in todo;
        var block := Get(i);
        var copy := CopyOf(block);
        s2.Put(i, copy);
        OnlyStep(c, todo, i);
        todo := todo - {i};
      }
      OnlyAll(c, c.Keys - todo);
    }

    /** One block of a union: merged in place, or copied. */
    method UnionBlock(i: nat, block2: array<bv64>)
      requires Valid() && i < KEY_LIMIT && block2.Length == BLOCK_WORDS
      modifies this, blocks.Values
      ensures Valid() && fresh(blocks.Values - old(blocks.Values))
      ensures Contents() == old(Contents())[i :=
                if i in old(Contents()) then OrBlocks(old(Contents())[i], old(block2[..])) else old(block2[..])]
    {
      hide OrBlocks, Valid, Contents;
      var keys := Keys();
      if i !in keys {
        var copy := CopyOf(block2);
        Put(i, copy);
      } else {
        OrBlock(i, block2);
      }
    }

    /** Blocks are copied, never shared; the argument may be the receiver itself. */
    method Union(s2: SparseBitSet)
      requires Valid() && s2.Valid()
      requires s2 == this || blocks.Values !! s2.blocks.Values
      modifies this, blocks.Values
      ensures Valid() && Set() == old(Set()) + old(s2.Set())
      ensures fresh(blocks.Values - old(blocks.Values))
    {
      hide OrBlocks, Elements, Merged, Valid, Contents;
      ghost var a, b := Contents(), s2.Contents();
      var todo := s2.Keys();
      MergedNone(a, b, b.Keys - todo);
      while todo != {}
        invariant todo <= b.Keys && Valid() && s2.Valid()
        invariant fresh(blocks.Values - old(blocks.Values))
        invariant s2 == this || (blocks.Values !! s2.blocks.Values && s2.Contents() == b)
        invariant s2 == this ==> Contents() == b == a
        invariant Contents() == Merged(a, b, b.Keys - todo)
      {
        var i :| i in todo;
        MergedStep(a, b, todo, i);
        var block2 := s2.Get(i);
        OrBlocksSelf(b[i]);
        UnionBlock(i, block2);
        todo := todo - {i};
      }
      assert b.Keys - todo == b.Keys;
      MergedElements(a, b);
    }

    /** One block of an intersection: stored unless it has no bits. */
    method AddCommon(i: nat, block: array<bv64>, block2: array<bv64>) returns (nn: int)
      requires Valid() && i < KEY_LIMIT && i !in Contents()
      requires block.Length == BLOCK_WORDS && block2.Length == BLOCK_WORDS
      modifies this
      ensures Valid() && fresh(blocks.Values - old(blocks.Values))
      ensures var both := AndBlocks(block[..], block2[..]);
              Contents() == if Count(both) != 0 then old(Contents())[i := both] else old(Contents())
      ensures |Set()| == old(|Set()|) + nn
    {
      hide AndBlocks, Elements, Count, Valid, Contents;
      var block3 := AndOf(block, block2);
      nn := PopCount64Slice(block3);
      if nn != 0 {
        ElementsSize(Contents(), i, block3[..]);
        Put(i, block3);
      }
    }

    /** One key of the argument of an intersection. */
    method IntersectKey(i: nat, s2: SparseBitSet, s3: SparseBitSet) returns (nn: int)
      requires Valid() && s2.Valid() && s3.Valid() && i in s2.Contents() && i !in s3.Contents()
      requires s3 != this && s3 != s2
      modifies s3
      ensures s3.Valid() && fresh(s3.blocks.Values - old(s3.blocks.Values))
      ensures s3.Contents() == PlusCommon(Contents(), s2.Contents(), old(s3.Contents()), i)
      ensures |s3.Set()| == old(|s3.Set()|) + nn
    {
      hide AndBlocks, Elements, Count, Valid, Contents;
      var keys := Keys();
      if i in keys {
        var block := Get(i);
        var block2 := s2.Get(i);
        nn := s3.AddCommon(i, block, block2);
      } else {
        nn := 0;
      }
    }

    method Intersection(s2: SparseBitSet) returns (s3: SparseBitSet, n: int)
      requires Valid() && s2.Valid()
      ensures fresh(s3) && fresh(s3.blocks.Values)
      ensures s3.Valid() && s3.Set() == Set() * s2.Set()
      ensures n == |Set() * s2.Set()|
    {
      hide AndBlocks, Elements, Count, Valid, Contents, Common, PlusCommon;
      s3 := new SparseBitSet();
      n := 0;
      ghost var a, b := Contents(), s2.Contents();
      var todo := s2.Keys();
      CommonNone(a, b, b.Keys - todo);
      while todo != {}
        invariant todo <= b.Keys
        invariant s3.Valid() && fresh(s3) && fresh(s3.blocks.Values)
        invariant Valid() && s2.Valid() && Contents() == a && s2.Contents() == b
        invariant s3.Contents() == Common(a, b, b.Keys - todo)
        invariant n == |s3.Set()|
      {
        var i :| i in todo;
        CommonStep(a, b, todo, i);
        var nn := IntersectKey(i, s2, s3);
        n := n + nn;
        todo := todo - {i};
      }
      CommonElements(a, b, b.Keys - todo);
    }

    method Len() returns (n: int)
      requires Valid()
      ensures n == |Set()|
    {
      hide Elements, Count, Only, Valid, Contents;
      n := 0;
      ghost var c := Contents();
      var todo := Keys();
      OnlyNone(c, c.Keys - todo);
      NoElements();
      while todo != {}
        invariant todo <= c.Keys
        invariant n == |Elements(Only(c, c.Keys - todo))|
      {
        var i :| i in todo;
        var block := Get(i);
        var nn := PopCount64Slice(block);
        OnlyStep(c, todo, i);
        ElementsSize(Only(c, c.Keys - todo), i, c[i]);
        n := n + nn;
        todo := todo - {i};
      }
      OnlyAll(c, c.Keys - todo);
    }

    method Drop(i: nat)
      requires Valid()
      modifies this
      ensures Valid() && Contents() == old(Contents()) - {i}
      ensures i in old(Contents()) ==> |Contents()| < |old(Contents())|
      ensures blocks == old(blocks) - {i} && blocks.Values <= old(blocks.Values)
    {
      hide Elements;
      Fewer(Contents(), i);
      blocks := blocks - {i};
      assert Contents() == old(Contents()) - {i};
    }

    /** Drops blocks without bits; the set stays what it was. */
    method Compact()
      requires Valid()
      modifies this
      ensures Valid() && Set() == old(Set())
      ensures Contents() == Compacted(old(Contents()))
      ensures blocks.Values <= old(blocks.Values)
    {
      hide Elements, Count, Valid, Contents, Without;
      ghost var c := Contents();
      var todo := Keys();
      WithoutNone(c, todo);
      while todo != {}
        invariant todo <= c.Keys
        invariant Valid() && blocks.Values <= old(blocks.Values)
        invariant Contents() == Without(c, todo) && Elements(Contents()) == Elements(c)
      {
        var i :| i in todo;
        WithoutStep(c, todo, i);
        var block := Get(i);
        var n := PopCount64Slice(block);
        if n == 0 {
          DropEmpty(Contents(), i);
          Drop(i);
        }
        todo := todo - {i};
      }
      WithoutAll(c);
    }

    /** The smallest element, or 0; empty blocks found on the way are dropped. */
    method Min() returns (m: nat)
      requires Valid()
      modifies this
      ensures Valid() && Set() == old(Set()) && blocks.Values <= old(blocks.Values)
      ensures Set() == {} ==> m == 0
      ensures Set() != {} ==> m in Set() && forall x :: x in Set() ==> m <= x
    {
      hide Elements, InBlock, Valid, Contents;
      while true
        invariant Valid() && Set() == old(Set()) && blocks.Values <= old(blocks.Values)
        decreases |Contents()|
      {
        var keys := Keys();
        if |keys| == 0 {
          NoElements();
          assert Contents() == map[];
          return 0;
        }
        var mi := LeastKey(keys);
        var block := Get(mi);
        var found, y := LowestBit(block);
        if found {
          LowestElement(Contents(), mi, y);
          return mi * BLOCK_BITS + y;
        }
        ghost var b: Block := Contents()[mi];
        assert block[..] == b;
        DropUnset(Contents(), mi);
        Drop(mi);
      }
    }

    /** The largest element, or 0; empty blocks found on the way are dropped. */
    method Max() returns (m: nat)
      requires Valid()
      modifies this
      ensures Valid() && Set() == old(Set()) && blocks.Values <= old(blocks.Values)
      ensures Set() == {} ==> m == 0
      ensures Set() != {} ==> m in Set() && forall x :: x in Set() ==> x <= m
    {
      hide Elements, InBlock, Valid, Contents;
      while true
        invariant Valid() && Set() == old(Set()) && blocks.Values <= old(blocks.Values)
        decreases |Contents()|
      {
        var keys := Keys();
        if |keys| == 0 {
          NoElements();
          assert Contents() == map[];
          return 0;
        }
        var mi := GreatestKey(keys);
        var block := Get(mi);
        var found, y := HighestBit(block);
        if found {
          HighestElement(Contents(), mi, y);
          return mi * BLOCK_BITS + y;
        }
        ghost var b: Block := Contents()[mi];
        assert block[..] == b;
        DropUnset(Contents(), mi);
        Drop(mi);
      }
    }
  }

  // ---- Partly visited maps ----

  /** The blocks whose keys are in `keys`. */
  function Only(c: map<nat, Block>, keys: set<nat>): map<nat, Block> {
    map i | i in c && i in keys :: c[i]
  }

  lemma OnlyNone(c: map<nat, Block>, keys: set<nat>)
    requires keys == {}
    ensures Only(c, keys) == map[]
  {
  }

  lemma OnlyStep(c: map<nat, Block>, todo: set<nat>, i: nat)
    requires i in todo && todo <= c.Keys
    ensures i !in Only(c, c.Keys - todo)
    ensures Only(c, c.Keys - (todo - {i})) == Only(c, c.Keys - todo)[i := c[i]]
  {
  }

  lemma OnlyAll(c: map<nat, Block>, keys: set<nat>)
    requires keys == c.Keys
    ensures Only(c, keys) == c
  {
  }

  /** The blocks that have bits. */
  function Compacted(c: map<nat, Block>): map<nat, Block> {
    map i | i in c && Count(c[i]) != 0 :: c[i]
  }

  /** The blocks that have bits or are still to be visited. */
  function Without(c: map<nat, Block>, todo: set<nat>): map<nat, Block> {
    map i | i in c && (i in todo || Count(c[i]) != 0) :: c[i]
  }

  lemma WithoutNone(c: map<nat, Block>, todo: set<nat>)
    requires todo == c.Keys
    ensures Without(c, todo) == c
  {
    hide Count;
  }

  lemma WithoutStep(c: map<nat, Block>, todo: set<nat>, i: nat)
    requires i in todo && todo <= c.Keys
    ensures i in Without(c, todo) && Without(c, todo)[i] == c[i]
    ensures Without(c, todo - {i}) == if Count(c[i]) == 0 then Without(c, todo) - {i} else Without(c, todo)
  {
    hide Count;
  }

  lemma WithoutAll(c: map<nat, Block>)
    ensures Without(c, {}) == Compacted(c)
  {
    hide Count;
  }

  method CopyOf(block: array<bv64>) returns (copy: array<bv64>)
    ensures fresh(copy) && copy[..] == block[..]
  {
    copy := new bv64[block.Length](j requires 0 <= j < block.Length reads block => block[j]);
  }

  lemma WordIndex(x: nat)
    ensures x % BLOCK_BITS % WORD_BITS == x % WORD_BITS
  {
  }

  lemma HasIs(w: bv64, k: nat)
    requires k < 64
    ensures Has64(w, k) == (Under(w, Mask64(k)) != 0)
  {
  }

  lemma WithBitIs(b: Block, x: nat, after: seq<bv64>)
    requires var j := (x % BLOCK_BITS) / WORD_BITS; after == b[j := Or64(b[j], Mask64(x % WORD_BITS))]
    ensures after == WithBit(b, x % BLOCK_BITS)
  {
    WordIndex(x);
  }

  lemma WithoutBitIs(b: Block, x: nat, after: seq<bv64>)
    requires var j := (x % BLOCK_BITS) / WORD_BITS; after == b[j := AndNot64(b[j], Mask64(x % WORD_BITS))]
    ensures after == WithoutBit(b, x % BLOCK_BITS)
  {
    WordIndex(x);
  }

  lemma NotMember(blocks: map<nat, Block>, x: nat)
    requires x / BLOCK_BITS !in blocks
    ensures x !in Elements(blocks)
  {
  }

  // ---- Union ----

  method OrInto(block: array<bv64>, block2: array<bv64>)
    requires block.Length == BLOCK_WORDS && block2.Length == BLOCK_WORDS
    modifies block
    ensures block[..] == OrBlocks(old(block[..]), old(block2[..]))
  {
    hide Or64;
    for j := 0 to BLOCK_WORDS
      invariant forall k :: 0 <= k < j ==> block[k] == Or64(old(block[k]), old(block2[k]))
      invariant forall k :: j <= k < BLOCK_WORDS ==> block[k] == old(block[k])
      invariant block2 != block ==> block2[..] == old(block2[..])
    {
      block[j] := Or64(block[j], block2[j]);
    }
  }

  lemma OrBlocksSelf(b: Block)
    ensures OrBlocks(b, b) == b
  {
    forall j | 0 <= j < 128
      ensures Or64(b[j], b[j]) == b[j]
    {
    }
  }

  /** The blocks of `a`, with those of `b` whose keys are in `keys` merged in. */
  function Merged(a: map<nat, Block>, b: map<nat, Block>, keys: set<nat>): map<nat, Block> {
    map i | i in a.Keys + b.Keys * keys ::
      if i !in a then b[i] else if i in b && i in keys then OrBlocks(a[i], b[i]) else a[i]
  }

  lemma MergedNone(a: map<nat, Block>, b: map<nat, Block>, keys: set<nat>)
    requires keys == {}
    ensures Merged(a, b, keys) == a
  {
    hide OrBlocks;
  }

  lemma MergedStep(a: map<nat, Block>, b: map<nat, Block>, todo: set<nat>, i: nat)
    requires i in todo && todo <= b.Keys
    ensures var m := Merged(a, b, b.Keys - todo);
            && Merged(a, b, b.Keys - (todo - {i})) == m[i := if i in a then OrBlocks(a[i], b[i]) else b[i]]
            && (i in m <==> i in a) && (i in a ==> m[i] == a[i])
  {
    hide OrBlocks;
  }

  lemma MergedElements(a: map<nat, Block>, b: map<nat, Block>)
    ensures Elements(Merged(a, b, b.Keys)) == Elements(a) + Elements(b)
  {
    hide OrBlocks, InBlock;
    forall x: nat
      ensures Member(Merged(a, b, b.Keys), x) == (Member(a, x) || Member(b, x))
    {
      var i := x / BLOCK_BITS;
      if i in a && i in b {
        OrBlocksHas(a[i], b[i], x % BLOCK_BITS);
      }
    }
  }

  // ---- Intersection ----

  method AndOf(block: array<bv64>, block2: array<bv64>) returns (block3: array<bv64>)
    requires block.Length == BLOCK_WORDS && block2.Length == BLOCK_WORDS
    ensures fresh(block3) && block3.Length == BLOCK_WORDS
    ensures block3[..] == AndBlocks(block[..], block2[..])
  {
    hide And64;
    block3 := new bv64[BLOCK_WORDS];
    for j := 0 to BLOCK_WORDS
      invariant forall k :: 0 <= k < j ==> block3[k] == And64(block[k], block2[k])
    {
      block3[j] := And64(block[j], block2[j]);
    }
  }

  lemma NoElements()
    ensures Elements(map[]) == {}
  {
  }

  /** The common blocks that have bits, for the keys in `keys`. */
  function Common(a: map<nat, Block>, b: map<nat, Block>, keys: set<nat>): map<nat, Block> {
    map i | i in a && i in b && i in keys && Count(AndBlocks(a[i], b[i])) != 0 :: AndBlocks(a[i], b[i])
  }

  lemma CommonNone(a: map<nat, Block>, b: map<nat, Block>, keys: set<nat>)
    requires keys == {}
    ensures Common(a, b, keys) == map[] && |Elements(Common(a, b, keys))| == 0
  {
    hide AndBlocks, Count, Elements;
    NoElements();
  }

  function PlusCommon(a: map<nat, Block>, b: map<nat, Block>, c: map<nat, Block>, i: nat): map<nat, Block>
    requires i in b
  {
    if i in a && Count(AndBlocks(a[i], b[i])) != 0 then c[i := AndBlocks(a[i], b[i])] else c
  }

  lemma CommonStep(a: map<nat, Block>, b: map<nat, Block>, todo: set<nat>, i: nat)
    requires i in todo && todo <= b.Keys
    ensures var c := Common(a, b, b.Keys - todo);
            i !in c && Common(a, b, b.Keys - (todo - {i})) == PlusCommon(a, b, c, i)
  {
    hide AndBlocks, Count;
  }

  lemma CommonElements(a: map<nat, Block>, b: map<nat, Block>, keys: set<nat>)
    requires keys == b.Keys
    ensures Elements(Common(a, b, keys)) == Elements(a) * Elements(b)
  {
    hide AndBlocks, InBlock, Count;
    forall x: nat
      ensures Member(Common(a, b, keys), x) == (Member(a, x) && Member(b, x))
    {
      var i := x / BLOCK_BITS;
      if i in a.Keys * b.Keys {
        AndBlocksHas(a[i], b[i], x % BLOCK_BITS);
        if Count(AndBlocks(a[i], b[i])) == 0 {
          CountZero(AndBlocks(a[i], b[i]));
        }
      }
    }
  }

  // ---- Minimum and maximum ----

  const MAX_UINT32: nat := 0xffff_ffff

  method LeastKey(keys: set<nat>) returns (mi: nat)
    requires keys != {} && forall i :: i in keys ==> i < KEY_LIMIT
    ensures mi in keys && forall i :: i in keys ==> mi <= i
  {
    mi := MAX_UINT32;
    var todo := keys;
    while todo != {}
      invariant todo <= keys
      invariant mi == MAX_UINT32 || mi in keys
      invariant mi == MAX_UINT32 ==> todo == keys
      invariant forall i :: i in keys && i !in todo ==> mi <= i
    {
      var i :| i in todo;
      if i < mi {
        mi := i;
      }
      todo := todo - {i};
    }
  }

  method GreatestKey(keys: set<nat>) returns (mi: nat)
    requires keys != {}
    ensures mi in keys && forall i :: i in keys ==> i <= mi
  {
    mi := 0;
    var todo := keys;
    while todo != {}
      invariant todo <= keys
      invariant mi == 0 || mi in keys
      invariant forall i :: i in keys && i !in todo ==> i <= mi
    {
      var i :| i in todo;
      if i > mi {
        mi := i;
      }
      todo := todo - {i};
    }
    var i :| i in keys;
    assert i <= mi;
  }

  method LowestBit(block: array<bv64>) returns (found: bool, y: nat)
    requires block.Length == BLOCK_WORDS
    ensures found ==> y < BLOCK_BITS && InBlock(block[..], y) && forall z :: 0 <= z < y ==> !InBlock(block[..], z)
    ensures !found ==> forall z :: 0 <= z < BLOCK_BITS ==> !InBlock(block[..], z)
  {
    hide Has64;
    for j := 0 to BLOCK_WORDS
      invariant forall z :: 0 <= z < j * WORD_BITS ==> !InBlock(block[..], z)
    {
      ZeroHasNone(block[j]);
      if block[j] == 0 {
        continue;
      }
      for k := 0 to WORD_BITS
        invariant forall z :: 0 <= z < j * WORD_BITS + k ==> !InBlock(block[..], z)
      {
        HasIs(block[j], k);
        if Under(block[j], Mask64(k)) != 0 {
          return true, j * WORD_BITS + k;
        }
      }
    }
    found, y := false, 0;
  }

  method HighestBit(block: array<bv64>) returns (found: bool, y: nat)
    requires block.Length == BLOCK_WORDS
    ensures found ==> y < BLOCK_BITS && InBlock(block[..], y) && forall z :: y < z < BLOCK_BITS ==> !InBlock(block[..], z)
    ensures !found ==> forall z :: 0 <= z < BLOCK_BITS ==> !InBlock(block[..], z)
  {
    hide Has64;
    for j := BLOCK_WORDS downto 0
      invariant forall z :: j * WORD_BITS <= z < BLOCK_BITS ==> !InBlock(block[..], z)
    {
      ZeroHasNone(block[j]);
      if block[j] == 0 {
        continue;
      }
      for k := WORD_BITS downto 0
        invariant forall z :: j * WORD_BITS + k <= z < BLOCK_BITS ==> !InBlock(block[..], z)
      {
        HasIs(block[j], k);
        if Under(block[j], Mask64(k)) != 0 {
          return true, j * WORD_BITS + k;
        }
      }
    }
    found, y := false, 0;
  }

  lemma ZeroHasNone(w: bv64)
    ensures w == 0 ==> forall k :: 0 <= k < 64 ==> !Has64(w, k)
  {
    hide Has64;
    forall k | 0 <= k < 64
      ensures !Has64(0, k)
    {
      Has64Zero(k);
    }
  }

  lemma LowestElement(blocks: map<nat, Block>, mi: nat, y: nat)
    requires mi in blocks && mi < KEY_LIMIT && y < BLOCK_BITS && InBlock(blocks[mi], y)
    requires forall i :: i in blocks ==> mi <= i
    requires forall z :: 0 <= z < y ==> !InBlock(blocks[mi], z)
    ensures mi * BLOCK_BITS + y in Elements(blocks)
    ensures forall x :: x in Elements(blocks) ==> mi * BLOCK_BITS + y <= x
  {
    hide InBlock;
    var m := mi * BLOCK_BITS + y;
    assert m / BLOCK_BITS == mi && m % BLOCK_BITS == y;
  }

  lemma HighestElement(blocks: map<nat, Block>, mi: nat, y: nat)
    requires mi in blocks && mi < KEY_LIMIT && y < BLOCK_BITS && InBlock(blocks[mi], y)
    requires forall i :: i in blocks ==> i <= mi
    requires forall z :: y < z < BLOCK_BITS ==> !InBlock(blocks[mi], z)
    ensures mi * BLOCK_BITS + y in Elements(blocks)
    ensures forall x :: x in Elements(blocks) ==> x <= mi * BLOCK_BITS + y
  {
    hide InBlock;
    var m := mi * BLOCK_BITS + y;
    assert m / BLOCK_BITS == mi && m % BLOCK_BITS == y;
  }

  lemma DropUnset(blocks: map<nat, Block>, i: nat)
    requires i in blocks && forall y :: 0 <= y < BLOCK_BITS ==> !InBlock(blocks[i], y)
    ensures Elements(blocks - {i}) == Elements(blocks)
  {
    hide InBlock;
    forall x: nat
      ensures Member(blocks - {i}, x) == Member(blocks, x)
    {
    }
  }

  lemma DropEmpty(blocks: map<nat, Block>, i: nat)
    requires i in blocks && Count(blocks[i]) == 0
    ensures Elements(blocks - {i}) == Elements(blocks)
  {
    CountZero(blocks[i]);
    DropUnset(blocks, i);
  }
}
