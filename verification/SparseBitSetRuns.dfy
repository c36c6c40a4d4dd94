/** Whole runs over any number of sparse bit sets: each stays the mathematical set it stands for,
    and no two ever share a block. */
module IntSetRuns {
  import opened IntSet

  datatype Op =
    | New
    | Clone(a: nat)
    | Add(a: nat, x: Uint32)
    | Remove(a: nat, x: Uint32)
    | Union(a: nat, b: nat)
    | Intersection(a: nat, b: nat)
    | Compact(a: nat)
    | Min(a: nat)
    | Max(a: nat)

  predicate Applicable(op: Op, n: nat) {
    match op
    case New => true
    case Union(a, b) => a < n && b < n
    case Intersection(a, b) => a < n && b < n
    case _ => op.a < n
  }

  /** The operation on mathematical sets. */
  function Step(sets: seq<set<nat>>, op: Op): seq<set<nat>>
    requires Applicable(op, |sets|)
  {
    match op
    case New => sets + [{}]
    case Clone(a) => sets + [sets[a]]
    case Add(a, x) => sets[a := sets[a] + {x}]
    case Remove(a, x) => sets[a := sets[a] - {x}]
    case Union(a, b) => sets[a := sets[a] + sets[b]]
    case Intersection(a, b) => sets + [sets[a] * sets[b]]
    case Compact(a) => sets
    case Min(a) => sets
    case Max(a) => sets
  }

  /** Operations on sets that do not exist yet are skipped. */
  function Outcome(sets: seq<set<nat>>, ops: seq<Op>): seq<set<nat>>
    decreases ops
  {
    if ops == [] then sets
    else Outcome(if Applicable(ops[0], |sets|) then Step(sets, ops[0]) else sets, ops[1..])
  }

  ghost predicate Apart(s: SparseBitSet, t: SparseBitSet)
    reads s, t
  {
    s != t && s.blocks.Values !! t.blocks.Values
  }

  ghost predicate Are(pool: seq<SparseBitSet>, sets: seq<set<nat>>)
    reads pool, set i, b | 0 <= i < |pool| && b in pool[i].blocks.Values :: b
  {
    && |pool| == |sets|
    && (forall i :: 0 <= i < |pool| ==> pool[i].Valid() && pool[i].Set() == sets[i])
    && (forall i, j :: 0 <= i < j < |pool| ==> Apart(pool[i], pool[j]))
  }

  /** The objects and blocks of a pool. */
  ghost function Repr(pool: seq<SparseBitSet>): set<object>
    reads pool
  {
    (set s | s in pool) + (set i, b | 0 <= i < |pool| && b in pool[i].blocks.Values :: b)
  }

  predicate Creates(op: Op) { op.New? || op.Clone? || op.Intersection? }

  /** The operations that return a new set. */
  method Create(pool: seq<SparseBitSet>, op: Op, ghost sets: seq<set<nat>>) returns (s: SparseBitSet)
    requires Are(pool, sets) && Applicable(op, |pool|) && Creates(op)
    ensures fresh(s) && fresh(s.blocks.Values) && s.Valid()
    ensures Step(sets, op) == sets + [s.Set()]
  {
    hide SparseBitSet.Valid, SparseBitSet.Contents, Elements;
    if op.New? {
      s := new SparseBitSet();
    } else if op.Clone? {
      s := pool[op.a].Clone();
    } else {
      var n;
      s, n := pool[op.a].Intersection(pool[op.b]);
    }
  }

  /** The operations that work in place. */
  method Change(pool: seq<SparseBitSet>, op: Op, ghost sets: seq<set<nat>>)
    requires Are(pool, sets) && Applicable(op, |pool|) && !Creates(op)
    modifies pool[op.a], pool[op.a].blocks.Values
    ensures pool[op.a].Valid() && fresh(pool[op.a].blocks.Values - old(pool[op.a].blocks.Values))
    ensures Step(sets, op) == sets[op.a := pool[op.a].Set()]
  {
    match op {
      case Add(a, x) =>
        pool[a].Add(x);
      case Remove(a, x) =>
        pool[a].Remove(x);
      case Union(a, b) =>
        assert a < b ==> Apart(pool[a], pool[b]);
        assert b < a ==> Apart(pool[b], pool[a]);
        pool[a].Union(pool[b]);
      case Compact(a) =>
        pool[a].Compact();
      case Min(a) =>
        var m := pool[a].Min();
      case Max(a) =>
        var m := pool[a].Max();
    }
  }

  method Join(pool: seq<SparseBitSet>, op: Op, ghost sets: seq<set<nat>>) returns (after: seq<SparseBitSet>)
    requires Are(pool, sets) && Applicable(op, |pool|) && Creates(op)
    ensures Are(after, Step(sets, op)) && fresh(Repr(after) - old(Repr(pool)))
  {
    var s := Create(pool, op, sets);
    after := pool + [s];
  }

  lemma Others(pool: seq<SparseBitSet>, sets: seq<set<nat>>, a: nat)
    requires Are(pool, sets) && a < |pool|
    ensures forall i :: 0 <= i < |pool| && i != a ==> Apart(pool[i], pool[a])
  {
    forall i | 0 <= i < |pool| && i != a
      ensures Apart(pool[i], pool[a])
    {
      assert i < a ==> Apart(pool[i], pool[a]);
      assert a < i ==> Apart(pool[a], pool[i]);
    }
  }

  method Update(pool: seq<SparseBitSet>, op: Op, ghost sets: seq<set<nat>>)
    requires Are(pool, sets) && Applicable(op, |pool|) && !Creates(op)
    modifies Repr(pool)
    ensures Are(pool, Step(sets, op)) && fresh(Repr(pool) - old(Repr(pool)))
  {
    hide Step, SparseBitSet.Valid, SparseBitSet.Set, SparseBitSet.Contents;
    Others(pool, sets, op.a);
    Change(pool, op, sets);
  }

  method Run(ops: seq<Op>) returns (pool: seq<SparseBitSet>)
    ensures Are(pool, Outcome([], ops))
  {
    pool := [];
    ghost var sets: seq<set<nat>> := [];
    assert ops[0..] == ops;
    for k := 0 to |ops|
      invariant Are(pool, sets) && fresh(Repr(pool))
      invariant Outcome(sets, ops[k..]) == Outcome([], ops)
    {
      assert ops[k..][1..] == ops[k + 1..];
      if Applicable(ops[k], |pool|) {
        if Creates(ops[k]) {
          pool := Join(pool, ops[k], sets);
        } else {
          Update(pool, ops[k], sets);
        }
        sets := Step(sets, ops[k]);
      }
    }
  }
}
