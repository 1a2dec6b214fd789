/**
  The buddy allocator's bookkeeping as sets of blocks, and what full coalescing is good for: a
  wholly free region lies inside one free block, and the free blocks are determined by the free memory.
 */
module BuddySpec {
  import opened Dyadic

  /** Aligned blocks below the maximal order that do not overlap. */
  ghost predicate Tiling(blocks: set<Block>, sizes: nat) {
    && (forall b :: b in blocks ==> b.Aligned() && b.order < sizes)
    && (forall b, c {:trigger Apart(b, c)} :: b in blocks && c in blocks && b != c ==> Apart(b, c))
  }

  /** No two free buddies below the maximal order. */
  ghost predicate Coalesced(free: set<Block>, sizes: nat) {
    forall b {:trigger b.Buddy()} :: b in free && b.order + 1 < sizes ==> b.Buddy() !in free
  }

  ghost predicate Covers(blocks: set<Block>, u: int) {
    exists b :: b in blocks && b.Has(u)
  }

  /** Every unit of the region is free. */
  ghost predicate WhollyFree(free: set<Block>, r: Block) {
    forall u :: r.Has(u) ==> Covers(free, u)
  }

  ghost predicate SameMemory(a: set<Block>, b: set<Block>) {
    forall u: int :: Covers(a, u) <==> Covers(b, u)
  }

  /** An aligned block that shares a unit with a region and is at least as large contains it. */
  lemma LargerContains(b: Block, r: Block, u: int)
    requires b.Aligned() && r.Aligned() && r.order <= b.order && b.Has(u) && r.Has(u)
    ensures Inside(r, b)
  {
    NestedOrApart(r, b);
  }

  /** Completeness of coalescing: a wholly free aligned region lies inside one free block. */
  lemma {:induction false} FreeRegionIsInOneBlock(free: set<Block>, sizes: nat, r: Block) returns (b: Block)
    requires Tiling(free, sizes) && Coalesced(free, sizes)
    requires r.Aligned() && r.order < sizes && WhollyFree(free, r)
    ensures b in free && Inside(r, b)
    decreases r.order
  {
    assert r.Has(r.start);
    b :| b in free && b.Has(r.start);
    if r.order <= b.order {
      LargerContains(b, r, r.start);
    } else {
      var lo := Block(r.start, r.order - 1);
      LowerHalf(r);
      Halves(lo);
      var hi := lo.Buddy();
      assert WhollyFree(free, lo) by {
        forall u | lo.Has(u) ensures Covers(free, u) { assert r.Has(u); }
      }
      assert WhollyFree(free, hi) by {
        forall u | hi.Has(u) ensures Covers(free, u) { assert r.Has(u); }
      }
      b := FreeRegionIsInOneBlock(free, sizes, lo);
      var c := FreeRegionIsInOneBlock(free, sizes, hi);
      InsideOrder(lo, b);
      InsideOrder(hi, c);
      if r.order <= b.order {
        LargerContains(b, r, lo.start);
      } else if r.order <= c.order {
        LargerContains(c, r, hi.start);
        b := c;
      } else {
        SameSizeInside(lo, b);
        SameSizeInside(hi, c);
        assert false;
      }
    }
  }

  lemma InsideOrder(b: Block, c: Block)
    requires Inside(b, c)
    ensures b.order <= c.order
  {
    if c.order < b.order {
      Pow2Monotone(c.order + 1, b.order);
    }
  }

  lemma SameSizeInside(b: Block, c: Block)
    requires Inside(b, c) && c.order == b.order
    ensures b == c
  {}

  /** A block that lies inside a block of the same tiling is that block. */
  lemma InsideSameTiling(free: set<Block>, sizes: nat, b: Block, c: Block)
    requires Tiling(free, sizes) && b in free && c in free && Inside(b, c)
    ensures b == c
  {
    assert !Apart(b, c);
  }

  lemma TilingSubset(a: set<Block>, b: set<Block>, sizes: nat)
    requires Tiling(b, sizes) && a <= b
    ensures Tiling(a, sizes)
  {}

  /** Free lists do not depend on history: the same free memory gives the same free blocks. */
  lemma FreeBlocksDependOnMemoryOnly(a: set<Block>, b: set<Block>, sizes: nat)
    requires Tiling(a, sizes) && Coalesced(a, sizes)
    requires Tiling(b, sizes) && Coalesced(b, sizes)
    requires SameMemory(a, b)
    ensures a == b
  {
    forall x | x in a ensures x in b { FreeBlockIsShared(a, b, sizes, x); }
    forall x | x in b ensures x in a { FreeBlockIsShared(b, a, sizes, x); }
  }

  lemma FreeBlockIsShared(a: set<Block>, b: set<Block>, sizes: nat, x: Block)
    requires Tiling(a, sizes) && Coalesced(a, sizes)
    requires Tiling(b, sizes) && Coalesced(b, sizes)
    requires SameMemory(a, b) && x in a
    ensures x in b
  {
    assert WhollyFree(b, x) by {
      forall u | x.Has(u) ensures Covers(b, u) { assert Covers(a, u); }
    }
    var y := FreeRegionIsInOneBlock(b, sizes, x);
    assert WhollyFree(a, y) by {
      forall u | y.Has(u) ensures Covers(a, u) { assert Covers(b, u); }
    }
    var z := FreeRegionIsInOneBlock(a, sizes, y);
    InsideSameTiling(a, sizes, x, z);
    InsideOrder(x, y);
    InsideOrder(y, z);
    SameSizeInside(x, y);
  }

  // ----- taking a block out and splitting it

  /** The upper halves left over when the block at `start` of order `hi` is cut down to order `lo`. */
  ghost function Uppers(start: nat, lo: nat, hi: nat): (s: set<Block>)
    ensures forall b :: b in s <==> lo <= b.order < hi && b.start == start + Pow2(b.order)
    decreases hi
  {
    if lo < hi then Uppers(start, lo, hi - 1) + {Block(start + Pow2(hi - 1), hi - 1)} else {}
  }

  /** The pieces of a cut block lie apart, inside the block. */
  lemma PiecesApart(f: Block, lo: nat)
    requires lo <= f.order
    ensures Inside(Block(f.start, lo), f)
    ensures forall b :: b in Uppers(f.start, lo, f.order) ==> Inside(b, f) && Apart(b, Block(f.start, lo))
    ensures forall b, c :: b in Uppers(f.start, lo, f.order) && c in Uppers(f.start, lo, f.order) && b != c ==>
              Apart(b, c)
  {
    Pow2Monotone(lo, f.order);
    var ups := Uppers(f.start, lo, f.order);
    forall b | b in ups ensures Inside(b, f) && Apart(b, Block(f.start, lo)) {
      UpperPlace(f, lo, b);
    }
    forall b, c | b in ups && c in ups && b != c ensures Apart(b, c) {
      UppersApart(f.start, b, c);
    }
  }

  lemma UpperPlace(f: Block, lo: nat, b: Block)
    requires lo <= b.order < f.order && b.start == f.start + Pow2(b.order)
    ensures Inside(b, f) && Apart(b, Block(f.start, lo))
  {
    UpperEnd(f.start, b);
    Pow2Monotone(b.order + 1, f.order);
    Pow2Monotone(lo, b.order);
  }

  lemma UppersApart(start: nat, b: Block, c: Block)
    requires b.start == start + Pow2(b.order) && c.start == start + Pow2(c.order) && b != c
    ensures Apart(b, c)
  {
    UpperEnd(start, b);
    UpperEnd(start, c);
    if b.order < c.order { Pow2Monotone(b.order + 1, c.order); } else { Pow2Monotone(c.order + 1, b.order); }
  }

  lemma UpperEnd(start: nat, b: Block)
    requires b.start == start + Pow2(b.order)
    ensures b.End() == start + Pow2(b.order + 1)
  {}

  /** Together the pieces are the block. */
  lemma {:induction false} PiecesCover(f: Block, lo: nat, u: int)
    requires lo <= f.order
    ensures f.Has(u) <==> Block(f.start, lo).Has(u) || Covers(Uppers(f.start, lo, f.order), u)
    decreases f.order
  {
    if lo < f.order {
      var g := Block(f.start, f.order - 1);
      var top := Block(f.start + Pow2(f.order - 1), f.order - 1);
      PiecesCover(g, lo, u);
      assert top in Uppers(f.start, lo, f.order);
      if Covers(Uppers(f.start, lo, f.order), u) {
        var b :| b in Uppers(f.start, lo, f.order) && b.Has(u);
        assert b == top || b in Uppers(f.start, lo, g.order);
      }
      if Covers(Uppers(f.start, lo, g.order), u) {
        var b :| b in Uppers(f.start, lo, g.order) && b.Has(u);
        assert b in Uppers(f.start, lo, f.order);
      }
    }
  }

  lemma PiecesAligned(f: Block, lo: nat)
    requires f.Aligned() && lo <= f.order
    ensures Block(f.start, lo).Aligned()
    ensures forall b :: b in Uppers(f.start, lo, f.order) ==> b.Aligned()
  {
    AlignedDown(lo, f.order, f.start);
    forall b | b in Uppers(f.start, lo, f.order) ensures b.Aligned() { BuddyOfUpper(f, b); }
  }

  /** The buddy of an upper half is the lower part, which is not free; so cutting keeps coalescing. */
  lemma CutCoalesced(free: set<Block>, sizes: nat, f: Block, lo: nat)
    requires Tiling(free, sizes) && Coalesced(free, sizes) && f in free && lo <= f.order
    ensures Coalesced(free - {f} + Uppers(f.start, lo, f.order), sizes)
  {
    var ups := Uppers(f.start, lo, f.order);
    forall b | b in free - {f} + ups && b.order + 1 < sizes ensures b.Buddy() !in free - {f} + ups {
      CutCoalescedAt(free, sizes, f, lo, b);
    }
  }

  lemma CutCoalescedAt(free: set<Block>, sizes: nat, f: Block, lo: nat, b: Block)
    requires Tiling(free, sizes) && Coalesced(free, sizes) && f in free && lo <= f.order
    requires b in free - {f} + Uppers(f.start, lo, f.order) && b.order + 1 < sizes
    ensures b.Buddy() !in free - {f} + Uppers(f.start, lo, f.order)
  {
    var ups := Uppers(f.start, lo, f.order);
    var c := b.Buddy();
    if b in ups {
      BuddyOfUpper(f, b);
      if c in free - {f} { StartShared(c, f); }
    } else if c in ups {
      BuddyOfUpper(f, c);
      Halves(b);
      StartShared(b, f);
    }
  }

  lemma StartShared(b: Block, c: Block)
    requires b.start == c.start
    ensures !Apart(b, c)
  {}

  lemma BuddyOfUpper(f: Block, b: Block)
    requires f.Aligned() && b.order < f.order && b.start == f.start + Pow2(b.order)
    ensures b.Aligned() && b.Buddy() == Block(f.start, b.order)
  {
    AlignedDown(b.order, f.order, f.start);
    AlignedDown(b.order + 1, f.order, f.start);
    LowerHalf(Block(f.start, b.order + 1));
    Halves(Block(f.start, b.order));
  }

  lemma CutTiling(blocks: set<Block>, sizes: nat, f: Block, lo: nat)
    requires Tiling(blocks, sizes) && f in blocks && lo <= f.order
    ensures Tiling(blocks - {f} + {Block(f.start, lo)} + Uppers(f.start, lo, f.order), sizes)
  {
    var ups := Uppers(f.start, lo, f.order);
    var blocks' := blocks - {f} + {Block(f.start, lo)} + ups;
    PiecesAligned(f, lo);
    forall b, c | b in blocks' && c in blocks' && b != c ensures Apart(b, c) {
      PiecesApart(f, lo);
      if b in blocks - {f} && c !in blocks - {f} {
        ApartFromPart(b, f, c);
      } else if c in blocks - {f} && b !in blocks - {f} {
        ApartFromPart(c, f, b);
      }
    }
  }

  lemma ApartFromPart(b: Block, f: Block, c: Block)
    requires Apart(b, f) && Inside(c, f)
    ensures Apart(b, c) && Apart(c, b)
  {}

  /** Exactly the lower part stops being free. */
  lemma CutMemory(free: set<Block>, sizes: nat, f: Block, lo: nat, u: int)
    requires Tiling(free, sizes) && f in free && lo <= f.order
    ensures Covers(free - {f} + Uppers(f.start, lo, f.order), u) <==> Covers(free, u) && !Block(f.start, lo).Has(u)
  {
    PiecesApart(f, lo);
    PiecesCover(f, lo, u);
    var ups := Uppers(f.start, lo, f.order);
    var free' := free - {f} + ups;
    if Covers(free', u) {
      var b :| b in free' && b.Has(u);
      if b in ups {
        assert f.Has(u) && Apart(b, Block(f.start, lo));
      } else {
        ApartFromPart(b, f, Block(f.start, lo));
      }
    }
    if Covers(free, u) && !Block(f.start, lo).Has(u) {
      var b :| b in free && b.Has(u);
      if b == f {
        var c :| c in ups && c.Has(u);
        assert c in free';
      } else {
        assert b in free';
      }
    }
  }

  // ----- putting a block back

  /** Merging a free buddy: the block grows to the parent and the tiling stays one. */
  lemma MergeTiling(rest: set<Block>, sizes: nat, b: Block)
    requires Tiling(rest + {b}, sizes) && b !in rest && b.Buddy() in rest && b.order + 1 < sizes
    ensures Tiling(rest - {b.Buddy()} + {b.Parent()}, sizes) && b.Parent() !in rest - {b.Buddy()}
    ensures forall u: int :: b.Parent().Has(u) <==> b.Has(u) || b.Buddy().Has(u)
  {
    Halves(b);
    var p, c := b.Parent(), b.Buddy();
    assert b in rest + {b} && c in rest + {b};
    forall x | x in rest - {c} ensures Apart(x, p) && x != p {
      assert x in rest + {b};
      assert Apart(x, b) && Apart(x, c);
      BlockNotBetween(x, b, c);
    }
  }

  lemma BlockNotBetween(x: Block, b: Block, c: Block)
    requires Apart(x, b) && Apart(x, c) && (b.End() == c.start || c.End() == b.start)
    ensures (x.End() <= b.start && x.End() <= c.start) || (b.End() <= x.start && c.End() <= x.start)
  {}

  /**
    What a set bit at the buddy's start proves.  `b` is a block in hand, apart from all others; a bit
    may be stale inside a block, but the buddy's start is never strictly inside one.
   */
  lemma BuddyStartIsNoInterior(blocks: set<Block>, sizes: nat, b: Block, c: Block)
    requires Tiling(blocks, sizes) && b.Aligned() && (forall x :: x in blocks ==> Apart(x, b))
    requires c in blocks && c.Has(b.Buddy().start)
    ensures c.start == b.Buddy().start
  {
    Halves(b);
    var y := b.Buddy();
    if c.order <= y.order {
      NestedOrApart(c, y);
    } else {
      assert y.Has(y.start) && b.Parent().Has(y.start) && Inside(b, b.Parent());
      LargerContains(c, b.Parent(), y.start);
    }
  }
}
