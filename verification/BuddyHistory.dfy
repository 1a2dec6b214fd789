/**
  Runs of the buddy allocator.  A step is what the contracts of `alloc` and `free` allow; how they
  choose and merge blocks does not matter for what is free in the end.
 */
module BuddyHistory {
  import opened Dyadic
  import opened BuddySpec

  datatype Books = Books(free: set<Block>, used: set<Block>)

  datatype Op = Alloc(block: Block) | Free(block: Block)

  ghost predicate Sound(s: Books, sizes: nat) {
    Tiling(s.free + s.used, sizes) && s.free !! s.used && Coalesced(s.free, sizes)
  }

  ghost predicate Step(s: Books, op: Op, s': Books, sizes: nat) {
    && Sound(s, sizes) && Sound(s', sizes)
    && match op
       case Alloc(b) =>
         && WhollyFree(s.free, b) && b !in s.used && s'.used == s.used + {b}
         && (forall x: int :: Covers(s'.free, x) <==> Covers(s.free, x) && !b.Has(x))
       case Free(b) =>
         && b in s.used && s'.used == s.used - {b}
         && (forall x: int :: Covers(s'.free, x) <==> Covers(s.free, x) || b.Has(x))
  }

  /** `s'` is reached from `s` by the operations. */
  ghost predicate Run(s: Books, ops: seq<Op>, s': Books, sizes: nat)
    decreases |ops|
  {
    if ops == [] then s == s' && Sound(s, sizes)
    else exists m :: Step(s, ops[0], m, sizes) && Run(m, ops[1..], s', sizes)
  }

  ghost predicate Managed(s: Books, x: int) {
    Covers(s.free, x) || Covers(s.used, x)
  }

  lemma StepKeepsMemory(s: Books, op: Op, s': Books, sizes: nat, x: int)
    requires Step(s, op, s', sizes)
    ensures Managed(s', x) <==> Managed(s, x)
  {
    var b := op.block;
    var rest := if op.Alloc? then s.used else s'.used;
    if Covers(s.used, x) {
      var c :| c in s.used && c.Has(x);
      assert c == b || c in s'.used;
    }
    if Covers(s'.used, x) {
      var c :| c in s'.used && c.Has(x);
      assert c == b || c in s.used;
    }
    if b.Has(x) {
      assert b in s.used || b in s'.used;
    }
  }

  lemma {:induction false} RunKeepsMemory(s: Books, ops: seq<Op>, s': Books, sizes: nat, x: int)
    requires Run(s, ops, s', sizes)
    ensures Sound(s', sizes) && (Managed(s', x) <==> Managed(s, x))
    decreases |ops|
  {
    if ops != [] {
      var m :| Step(s, ops[0], m, sizes) && Run(m, ops[1..], s', sizes);
      StepKeepsMemory(s, ops[0], m, sizes, x);
      RunKeepsMemory(m, ops[1..], s', sizes, x);
    }
  }

  /** Free memory is the managed memory that is not outstanding. */
  lemma FreeIsNotUsed(s: Books, sizes: nat, x: int)
    requires Sound(s, sizes)
    ensures Covers(s.free, x) <==> Managed(s, x) && !Covers(s.used, x)
  {
    if Covers(s.free, x) && Covers(s.used, x) {
      var b :| b in s.free && b.Has(x);
      var c :| c in s.used && c.Has(x);
      assert Apart(b, c) by { assert b in s.free + s.used && c in s.free + s.used; }
    }
  }

  /**
    Whatever two runs from the same state did, and in whatever order: if the same blocks are outstanding
    in the end, the same blocks are free.
   */
  lemma FreeBlocksForgetHistory(s: Books, ops: seq<Op>, t: Books, ops': seq<Op>, t': Books, sizes: nat)
    requires Run(s, ops, t, sizes) && Run(s, ops', t', sizes) && t.used == t'.used
    ensures t.free == t'.free
  {
    RunKeepsMemory(s, ops, t, sizes, 0);
    RunKeepsMemory(s, ops', t', sizes, 0);
    forall x: int ensures Covers(t.free, x) <==> Covers(t'.free, x) {
      RunKeepsMemory(s, ops, t, sizes, x);
      RunKeepsMemory(s, ops', t', sizes, x);
      FreeIsNotUsed(t, sizes, x);
      FreeIsNotUsed(t', sizes, x);
    }
    TilingSubset(t.free, t.free + t.used, sizes);
    TilingSubset(t'.free, t'.free + t'.used, sizes);
    FreeBlocksDependOnMemoryOnly(t.free, t'.free, sizes);
  }

  /** Freeing everything that was allocated, in any order, restores the free blocks. */
  lemma FreeingAllRestores(s: Books, ops: seq<Op>, t: Books, sizes: nat)
    requires Sound(s, sizes) && s.used == {} && Run(s, ops, t, sizes) && t.used == {}
    ensures t == s
  {
    FreeBlocksForgetHistory(s, ops, t, [], s, sizes);
  }
}
