/**
  Blocks as the bytes they stand for: with units of `k` bytes from the base address on, unit `x` is the
  bytes from `base + x * k` up to `base + (x + 1) * k`.
 */
module BuddyBytes {
  import opened Dyadic
  import opened Multiples
  import opened BuddySpec
  import opened BuddyBitmap

  predicate InUnit(k: nat, base: nat, a: nat, x: int) {
    base + x * k <= a < base + (x + 1) * k
  }

  /** The byte lies in a unit that one of the blocks covers. */
  ghost predicate ByteIn(blocks: set<Block>, k: nat, base: nat, a: nat) {
    exists x: int :: Covers(blocks, x) && InUnit(k, base, a, x)
  }

  /** The byte lies in the region of `size` bytes at `addr`. */
  predicate InRegion(addr: int, size: int, a: nat) {
    addr <= a < addr + size
  }

  /** A byte lies in one unit only. */
  lemma UnitUnique(k: nat, base: nat, a: nat, x: int, y: int)
    requires InUnit(k, base, a, x) && InUnit(k, base, a, y)
    ensures x == y
  {
    MulMonotone(x + 1, y, k);
    MulMonotone(y + 1, x, k);
  }

  lemma Scale(b: Block, k: nat)
    ensures b.End() * k == b.start * k + k * Pow2(b.order)
  {}

  /** A byte of a block's region lies in a unit of the block. */
  lemma RegionHasUnit(k: nat, base: nat, b: Block, a: nat) returns (x: nat)
    requires k >= 1 && InRegion(base + b.start * k, k * Pow2(b.order), a)
    ensures b.Has(x) && InUnit(k, base, a, x)
  {
    x := Quotient(a - base, k);
    QuotientIs(k, a - base, x);
    QuotientIs(k, a - base, x + 1);
    QuotientIs(k, a - base, b.start);
    QuotientIs(k, a - base, b.End());
    Scale(b, k);
  }

  /** And the bytes of a block's units lie in its region. */
  lemma UnitInRegion(k: nat, base: nat, b: Block, a: nat, x: int)
    requires b.Has(x) && InUnit(k, base, a, x)
    ensures InRegion(base + b.start * k, k * Pow2(b.order), a)
  {
    MulMonotone(b.start, x, k);
    MulMonotone(x + 1, b.End(), k);
    Scale(b, k);
  }

  /** Blocks that are apart have regions that are apart. */
  lemma RegionsApart(k: nat, base: nat, b: Block, c: Block, a: nat)
    requires Apart(b, c)
    ensures !(InRegion(base + b.start * k, k * Pow2(b.order), a) && InRegion(base + c.start * k, k * Pow2(c.order), a))
  {
    Scale(b, k);
    Scale(c, k);
    MulMonotone(b.End(), c.start, k);
    MulMonotone(c.End(), b.start, k);
  }

  /** Every byte of a wholly free block's region is free. */
  lemma RegionIsFree(free: set<Block>, k: nat, base: nat, b: Block, a: nat)
    requires k >= 1 && WhollyFree(free, b) && InRegion(base + b.start * k, k * Pow2(b.order), a)
    ensures ByteIn(free, k, base, a)
  {
    var x := RegionHasUnit(k, base, b, a);
  }

  /** Blocks that lose the units of `b` lose the bytes of its region. */
  lemma BytesShrink(free: set<Block>, free': set<Block>, k: nat, base: nat, b: Block, a: nat)
    requires k >= 1 && forall x: int :: Covers(free', x) <==> Covers(free, x) && !b.Has(x)
    ensures ByteIn(free', k, base, a) <==>
              ByteIn(free, k, base, a) && !InRegion(base + b.start * k, k * Pow2(b.order), a)
  {
    if ByteIn(free', k, base, a) {
      var x: int :| Covers(free', x) && InUnit(k, base, a, x);
      if InRegion(base + b.start * k, k * Pow2(b.order), a) {
        var y := RegionHasUnit(k, base, b, a);
        UnitUnique(k, base, a, x, y);
        assert false;
      }
    }
    if ByteIn(free, k, base, a) && !InRegion(base + b.start * k, k * Pow2(b.order), a) {
      var x: int :| Covers(free, x) && InUnit(k, base, a, x);
      if b.Has(x) {
        UnitInRegion(k, base, b, a, x);
        assert false;
      }
    }
  }

  /** The bytes of the region were free, and they alone have stopped being free. */
  ghost predicate BytesTaken(free: set<Block>, free': set<Block>, k: nat, base: nat, addr: int, size: int) {
    && (forall a: nat :: InRegion(addr, size, a) ==> ByteIn(free, k, base, a))
    && (forall a: nat :: ByteIn(free', k, base, a) <==> ByteIn(free, k, base, a) && !InRegion(addr, size, a))
  }

  lemma BlockTaken(free: set<Block>, free': set<Block>, k: nat, base: nat, b: Block)
    requires k >= 1 && WhollyFree(free, b)
    requires forall x: int :: Covers(free', x) <==> Covers(free, x) && !b.Has(x)
    ensures BytesTaken(free, free', k, base, base + b.start * k, k * Pow2(b.order))
  {
    var addr, size := base + b.start * k, k * Pow2(b.order);
    forall a: nat | InRegion(addr, size, a) ensures ByteIn(free, k, base, a) {
      RegionIsFree(free, k, base, b, a);
    }
    forall a: nat
      ensures ByteIn(free', k, base, a) <==> ByteIn(free, k, base, a) && !InRegion(addr, size, a)
    {
      BytesShrink(free, free', k, base, b, a);
    }
  }

  /** Blocks that gain the units of `b` gain the bytes of its region. */
  lemma BytesGrow(free: set<Block>, free': set<Block>, k: nat, base: nat, b: Block, a: nat)
    requires k >= 1 && forall x: int :: Covers(free', x) <==> Covers(free, x) || b.Has(x)
    ensures ByteIn(free', k, base, a) <==>
              ByteIn(free, k, base, a) || InRegion(base + b.start * k, k * Pow2(b.order), a)
  {
    if ByteIn(free', k, base, a) {
      var x: int :| Covers(free', x) && InUnit(k, base, a, x);
      if b.Has(x) {
        UnitInRegion(k, base, b, a, x);
      }
    }
    if InRegion(base + b.start * k, k * Pow2(b.order), a) {
      var x := RegionHasUnit(k, base, b, a);
    }
  }

  /** The bytes of the region have become free, and no others. */
  ghost predicate BytesGiven(free: set<Block>, free': set<Block>, k: nat, base: nat, addr: int, size: int) {
    forall a: nat :: ByteIn(free', k, base, a) <==> ByteIn(free, k, base, a) || InRegion(addr, size, a)
  }

  lemma BlockGiven(free: set<Block>, free': set<Block>, k: nat, base: nat, b: Block)
    requires k >= 1 && forall x: int :: Covers(free', x) <==> Covers(free, x) || b.Has(x)
    ensures BytesGiven(free, free', k, base, base + b.start * k, k * Pow2(b.order))
  {
    forall a: nat
      ensures ByteIn(free', k, base, a) <==>
                ByteIn(free, k, base, a) || InRegion(base + b.start * k, k * Pow2(b.order), a)
    {
      BytesGrow(free, free', k, base, b, a);
    }
  }

  lemma {:induction false} ScaledMultiple(x: nat, p: nat, k: nat)
    requires k >= 1 && p >= 1 && Multiple(x, p)
    ensures k * p >= 1 && Multiple(x * k, k * p)
    decreases x
  {
    MulAtLeast(k, p);
    if x != 0 {
      ScaledMultiple(x - p, p, k);
      assert x * k == (x - p) * k + k * p;
      MultipleSum(k * p, (x - p) * k, k * p);
    }
  }

  lemma SumOfMultiples(base: nat, m: nat, y: nat, n: nat)
    requires n >= 1 && m >= 1 && Multiple(base, m) && Multiple(m, n) && Multiple(y, n)
    ensures Multiple(base + y, n)
  {
    MultipleTransitive(base, m, n);
    MultipleSum(base, y, n);
  }

  /** With a base that is a multiple of the largest block, a block's address is a multiple of its size. */
  lemma AddressIsMultiple(k: nat, base: nat, sizes: nat, b: Block)
    requires k >= 1 && b.order < sizes && b.Aligned() && Multiple(base, MaxSize(k, sizes))
    ensures k * Pow2(b.order) >= 1 && Multiple(base + b.start * k, k * Pow2(b.order))
  {
    var p, q := Pow2(b.order), Pow2(sizes - 1);
    Pow2Multiple(b.order, sizes - 1);
    ScaledMultiple(b.start, p, k);
    ScaledSize(q, p, k);
    SumOfMultiples(base, k * q, b.start * k, k * p);
  }

  lemma ScaledSize(q: nat, p: nat, k: nat)
    requires k >= 1 && p >= 1 && Multiple(q, p)
    ensures k * p >= 1 && Multiple(k * q, k * p)
  {
    ScaledMultiple(q, p, k);
    assert q * k == k * q;
  }
}
