/**
  The address arithmetic of the buddy allocator: its base address, the unit a block address stands
  for, and the size of its bitmap.  Addresses are unbounded here; masking with `~(size - 1)` is
  rounding down to a multiple of the power of two `size`.
 */
module BuddyBitmap {
  import opened Dyadic
  import opened Multiples

  // ----- multiples by subtraction and the source's division agree

  lemma {:induction false} MultipleIsMod(x: nat, k: nat)
    requires k >= 1
    ensures Multiple(x, k) <==> x % k == 0
    decreases x
  {
    if x >= k {
      MultipleIsMod(x - k, k);
      SubtractOnce(x, k);
    } else {
      RemainderOfMultiple(0, k, x);
    }
  }

  /** For a power of two `k`, `x - x % k` is what the source writes as `x & ~(k - 1)`. */
  lemma {:induction false} AlignDownIsMod(x: nat, k: nat)
    requires k >= 1
    ensures AlignDown(x, k) == x - x % k
    decreases x
  {
    if x >= k {
      AlignDownIsMod(x - k, k);
      SubtractOnce(x, k);
    } else {
      RemainderOfMultiple(0, k, x);
    }
  }

  lemma AlignedMultiple(x: nat, k: nat) returns (q: nat)
    requires k >= 1 && x % k == 0
    ensures x == q * k
  {
    q := x / k;
    assert x == k * (x / k) + x % k;
  }

  lemma MulAtLeast(m: nat, k: nat)
    requires m >= 1
    ensures m * k >= k
  {}

  function MaxSize(minSize: nat, sizes: nat): (s: nat)
    requires minSize >= 1 && sizes >= 1
    ensures s >= 1
  {
    MulAtLeast(minSize, Pow2(sizes - 1));
    minSize * Pow2(sizes - 1)
  }

  function BaseAddr(minSize: nat, sizes: nat, minAddr: nat): (b: nat)
    requires minSize >= 1 && sizes >= 1
    ensures b <= minAddr
  {
    minAddr - minAddr % MaxSize(minSize, sizes)
  }

  function MemSize(minSize: nat, sizes: nat, minAddr: nat, maxAddr: nat): (m: nat)
    requires minSize >= 1 && sizes >= 1 && minAddr <= maxAddr
  {
    maxAddr - BaseAddr(minSize, sizes, minAddr) + 1
  }

  /** One bit for each unit, and an extra one if the memory does not consist of maximal blocks. */
  function BitCount(mem: nat, minSize: nat, maxSize: nat): (n: nat)
    requires minSize >= 1 && maxSize >= 1
  {
    (mem + minSize - 1) / minSize + if mem % maxSize != 0 then 1 else 0
  }

  function BuddyBits(minSize: nat, sizes: nat, minAddr: nat, maxAddr: nat): (n: nat)
    requires minSize >= 1 && sizes >= 1 && minAddr <= maxAddr
  {
    BitCount(MemSize(minSize, sizes, minAddr, maxAddr), minSize, MaxSize(minSize, sizes))
  }

  /** The bitmap has one bit more than there are whole units, or just as many if these fill maximal blocks. */
  predicate MapFits(bits: nat, cap: nat, sizes: nat)
    requires sizes >= 1
  {
    cap < bits || (cap == bits && Multiple(cap, Pow2(sizes - 1)))
  }

  lemma RoundUp(x: nat, k: nat)
    requires k >= 1
    ensures x / k <= (x + k - 1) / k
    ensures x % k == 0 ==> (x + k - 1) / k == x / k
  {
    var q, r := x / k, x % k;
    assert x == k * q + r == q * k + r;
    if r == 0 {
      RemainderOfMultiple(q, k, k - 1);
    } else {
      assert x + k - 1 == (q + 1) * k + (r - 1);
      RemainderOfMultiple(q + 1, k, r - 1);
    }
  }

  /** The size the source computes fits, for all address bounds. */
  lemma BuddyBitsFit(minSize: nat, sizes: nat, minAddr: nat, maxAddr: nat)
    requires minSize >= 1 && sizes >= 1 && minAddr <= maxAddr
    ensures MapFits(BuddyBits(minSize, sizes, minAddr, maxAddr),
                    MemSize(minSize, sizes, minAddr, maxAddr) / minSize, sizes)
  {
    BitsFit(MemSize(minSize, sizes, minAddr, maxAddr), minSize, Pow2(sizes - 1));
  }

  lemma BitsFit(mem: nat, k: nat, m: nat)
    requires k >= 1 && m >= 1 && k * m >= 1
    ensures var bits := BitCount(mem, k, k * m);
            mem / k < bits || (mem / k == bits && Multiple(mem / k, m))
  {
    RoundUp(mem, k);
    if mem % (k * m) == 0 {
      var q := AlignedMultiple(mem, k * m);
      assert mem == (q * m) * k + 0;
      RemainderOfMultiple(q * m, k, 0);
      RemainderOfMultiple(q, m, 0);
      MultipleIsMod(q * m, m);
    }
  }

  /**
    Every bit index that `free`, `alloc`, `split` and `buddy` use for a block inside the managed range
    is inside the bitmap: the block's own start and, below the maximal order, its buddy's.
   */
  lemma IndicesInBitmap(bits: nat, cap: nat, sizes: nat, b: Block)
    requires sizes >= 1 && MapFits(bits, cap, sizes)
    requires b.Aligned() && b.order < sizes && b.End() <= cap
    ensures b.start < bits
    ensures b.order + 1 < sizes ==> b.Buddy().start < bits
  {
    if b.order + 1 < sizes {
      Halves(b);
      if cap == bits {
        AlignedDown(b.order + 1, sizes - 1, cap);
        ParentBelow(b.Parent(), cap);
      }
    }
  }

  lemma ParentBelow(p: Block, cap: nat)
    requires p.Aligned() && Multiple(cap, Pow2(p.order)) && p.start < cap
    ensures p.End() <= cap
  {
    MultiplesStep(p.start, cap, Pow2(p.order));
  }

  /** The extra bit is needed: with a single unit of memory, `buddy` looks at the bit behind it. */
  lemma ExtraBitIsUsed(minSize: nat, sizes: nat)
    requires minSize >= 1 && sizes >= 2
    ensures MemSize(minSize, sizes, 0, minSize - 1) == minSize
    ensures Block(0, 0).Aligned() && Block(0, 0).End() == 1 == minSize / minSize
    ensures Block(0, 0).Buddy().start == 1 == (minSize + minSize - 1) / minSize
    ensures BuddyBits(minSize, sizes, 0, minSize - 1) == 2
  {
    Pow2Monotone(1, sizes - 1);
    OneUnit(minSize, Pow2(sizes - 1));
    Halves(Block(0, 0));
  }

  lemma OneUnit(k: nat, m: nat)
    requires k >= 1 && m >= 2
    ensures k * m >= 1 && 0 % (k * m) == 0
    ensures k / k == 1 && (k + k - 1) / k == 1 && BitCount(k, k, k * m) == 2
  {
    MulMonotone(2, m, k);
    SmallRemainder(0, k * m);
    SmallRemainder(k, k * m);
    RemainderOfMultiple(1, k, 0);
    RemainderOfMultiple(1, k, k - 1);
  }

  lemma SmallRemainder(r: nat, k: nat)
    requires r < k
    ensures r % k == r
  {}

  lemma QuotientTimes(x: nat, n: nat)
    requires n >= 1
    ensures x - x % n == n * (x / n) && x % n <= x
  {}

  lemma ProductIsMultiple(q: nat, m: nat, k: nat)
    requires k >= 1
    ensures ((m * k) * q) % k == 0
  {
    assert (m * k) * q == (m * q) * k;
    RemainderOfMultiple(m * q, k, 0);
  }

  lemma RoundedIsMultiple(x: nat, k: nat, m: nat)
    requires k >= 1 && m >= 1 && m * k >= 1
    ensures x - x % (m * k) >= 0 && (x - x % (m * k)) % k == 0
  {
    QuotientTimes(x, m * k);
    ProductIsMultiple(x / (m * k), m, k);
  }

  lemma Reassociate(a: nat, m: nat, p: nat)
    ensures a * (m * p) == m * (a * p)
  {}

  /** The base address is a multiple of every block size. */
  lemma BaseIsMultiple(minSize: nat, sizes: nat, minAddr: nat, order: nat)
    requires minSize >= 1 && order < sizes
    ensures minSize * Pow2(order) >= 1
    ensures BaseAddr(minSize, sizes, minAddr) % (minSize * Pow2(order)) == 0
  {
    var p, q := Pow2(order), Pow2(sizes - 1);
    Pow2Multiple(order, sizes - 1);
    MultipleIsMod(q, p);
    var m := AlignedMultiple(q, p);
    if m == 0 { assert false; }
    MulAtLeast(minSize, p);
    Reassociate(minSize, m, p);
    MulAtLeast(m, minSize * p);
    assert MaxSize(minSize, sizes) == m * (minSize * p);
    RoundedIsMultiple(minAddr, minSize * p, m);
  }

  /** And the nearest multiple of the largest block size below the first address. */
  lemma BaseIsNearest(minSize: nat, sizes: nat, minAddr: nat)
    requires minSize >= 1 && sizes >= 1
    ensures var max := minSize * Pow2(sizes - 1);
            var base := BaseAddr(minSize, sizes, minAddr);
            max >= 1 && Multiple(base, max) && base <= minAddr < base + max
  {
    BaseIsMultiple(minSize, sizes, minAddr, sizes - 1);
    MultipleIsMod(BaseAddr(minSize, sizes, minAddr), minSize * Pow2(sizes - 1));
  }

  lemma WholeUnitsBelow(mem: nat, k: nat)
    requires k >= 1
    ensures (mem / k) * k <= mem < (mem / k + 1) * k
  {
    assert mem == k * (mem / k) + mem % k;
    OneLess(mem / k + 1, k);
  }

  /**
    There are as many bits as it takes units to cover the memory, and one more exactly if the memory is
    not a multiple of the largest block.
   */
  lemma BitCountIs(minSize: nat, sizes: nat, minAddr: nat, maxAddr: nat)
    requires minSize >= 1 && sizes >= 1 && minAddr <= maxAddr
    ensures var max := minSize * Pow2(sizes - 1);
            var mem := maxAddr + 1 - BaseAddr(minSize, sizes, minAddr);
            var units := BuddyBits(minSize, sizes, minAddr, maxAddr) - if Multiple(mem, max) then 0 else 1;
            mem <= units * minSize < mem + minSize
  {
    var max, mem := minSize * Pow2(sizes - 1), maxAddr + 1 - BaseAddr(minSize, sizes, minAddr);
    MultipleIsMod(mem, max);
    WholeUnitsBelow(mem + minSize - 1, minSize);
    OneLess((mem + minSize - 1) / minSize + 1, minSize);
  }

  lemma Spread(q: nat, r: nat, k: nat, m: nat)
    ensures (q * k + r) * m == q * (m * k) + r * m
  {
    assert (q * k + r) * m == (q * k) * m + r * m;
    assert (q * k) * m == q * (m * k);
  }

  lemma BelowProduct(r: nat, k: nat, m: nat)
    requires r < k && m >= 1
    ensures r * m < m * k
  {
    MulMonotone(r + 1, k, m);
    assert (r + 1) * m == r * m + m;
  }

  lemma ScaledRemainder(z: nat, q: nat, r: nat, k: nat, m: nat)
    requires r < k && m >= 1 && m * k >= 1
    ensures (z * (m * k) + (q * k + r) * m) % (m * k) == r * m
  {
    Spread(q, r, k, m);
    BelowProduct(r, k, m);
    var n := m * k;
    assert z * n + q * n == (z + q) * n;
    RemainderOfMultiple(z + q, n, r * m);
  }

  lemma SplitRemainder(x: nat, k: nat, m: nat)
    requires k >= 1
    ensures (x - x % k) * m == x * m - (x % k) * m
  {}

  /**
    Masking a block's address gives the address of its parent: the unit arithmetic of blocks is the
    address arithmetic of the source.
   */
  lemma MaskedAddress(minSize: nat, base: nat, b: Block)
    requires minSize >= 1 && minSize * Pow2(b.order + 1) >= 1
    requires base % (minSize * Pow2(b.order + 1)) == 0
    ensures var addr := base + b.start * minSize;
            var size := minSize * Pow2(b.order + 1);
            && addr - addr % size == base + b.Parent().start * minSize
            && (addr - base) / minSize == b.start
  {
    var k := Pow2(b.order + 1);
    UnitsOfAddress(minSize, base, b.start, k);
    AlignDownIsMod(b.start, k);
    SplitRemainder(b.start, k, minSize);
    RemainderOfMultiple(b.start, minSize, 0);
  }

  lemma UnitsOfAddress(minSize: nat, base: nat, start: nat, k: nat)
    requires minSize >= 1 && k >= 1 && minSize * k >= 1 && base % (minSize * k) == 0
    ensures (base + start * minSize) % (minSize * k) == (start % k) * minSize
  {
    var z := AlignedMultiple(base, minSize * k);
    var q := start / k;
    assert start == k * q + start % k == q * k + start % k;
    ScaledRemainder(z, q, start % k, k, minSize);
  }

  // ----- the whole units of a piece of memory, by offset from the base address

  /** The first unit at or behind an offset, by repeated subtraction. */
  function FirstWhole(minSize: nat, offset: nat): (u: nat)
    requires minSize >= 1
    decreases offset
  {
    if offset == 0 then 0 else if offset <= minSize then 1 else 1 + FirstWhole(minSize, offset - minSize)
  }

  /** The quotient is the source's division. */
  lemma {:induction false} QuotientDivides(k: nat, d: nat)
    requires k >= 1
    ensures Quotient(d, k) == d / k
    decreases d
  {
    if d < k {
      RemainderOfMultiple(0, k, d);
    } else {
      QuotientDivides(k, d - k);
      DivideOnce(d, k);
    }
  }

  lemma DivideOnce(x: nat, k: nat)
    requires 1 <= k <= x
    ensures x / k == (x - k) / k + 1
  {
    var y := x - k;
    var q, r := y / k, y % k;
    assert y == k * q + r == q * k + r;
    assert x == (q + 1) * k + r;
    RemainderOfMultiple(q + 1, k, r);
  }

  /** The units between them are exactly those whose bytes all lie in the given memory. */
  lemma {:induction false} WholeUnits(minSize: nat, offset: nat, size: nat, x: nat)
    requires minSize >= 1
    ensures FirstWhole(minSize, offset) <= x < Quotient(offset + size, minSize) <==>
              offset <= x * minSize && (x + 1) * minSize <= offset + size
  {
    FirstWholeIs(minSize, offset, x);
    QuotientIs(minSize, offset + size, x + 1);
  }

  lemma {:induction false} FirstWholeIs(k: nat, d: nat, x: nat)
    requires k >= 1
    ensures x * k >= d <==> x >= FirstWhole(k, d)
    decreases d
  {
    if d > 0 && x > 0 {
      OneLess(x, k);
      FirstWholeIs(k, if d <= k then 0 else d - k, x - 1);
    }
  }

  // ----- rounding and dividing, by repeated subtraction

  lemma {:induction false} AlignDownFrom(base: nat, x: nat, k: nat)
    requires k >= 1 && Multiple(base, k)
    ensures AlignDown(base + x, k) == base + AlignDown(x, k)
    decreases base
  {
    if base != 0 { AlignDownFrom(base - k, x, k); }
  }

  /** Rounding up an offset gives the start of the first whole unit. */
  lemma {:induction false} RoundedUp(k: nat, d: nat)
    requires k >= 1
    ensures var y := AlignDown(d + k - 1, k);
            y >= d && Multiple(y, k) && Quotient(y, k) == FirstWhole(k, d)
    decreases d
  {
    if d > k { RoundedUp(k, d - k); }
  }

  /** The first unit that `add_mem` frees and how many it frees, computed as in the source. */
  function UnitRange(k: nat, base: nat, start: nat, size: nat): (r: (nat, nat))
    requires k >= 1 && Multiple(base, k) && start >= base
    ensures r.0 == FirstWhole(k, start - base)
    ensures r.1 == 0 ==> Quotient(start - base + size, k) <= r.0
    ensures r.1 > 0 ==> Quotient(start - base + size, k) == r.0 + r.1
  {
    var alStart := AlignDown(start + k - 1, k);
    var d := start - base;
    AlignDownFrom(base, d + k - 1, k);
    RoundedUp(k, d);
    if size <= alStart - start then
      QuotientMonotone(d + size, alStart - base, k);
      (Quotient(alStart - base, k), 0)
    else
      QuotientSum(alStart - base, size - (alStart - start), k);
      (Quotient(alStart - base, k), Quotient(size - (alStart - start), k))
  }

  /** All bytes of unit `x` lie in the given memory. */
  predicate UnitWithin(k: nat, base: nat, start: nat, size: nat, x: nat) {
    start <= base + x * k && base + (x + 1) * k <= start + size
  }

  /** They are exactly the units whose bytes all lie in the given memory. */
  lemma AddedUnits(k: nat, base: nat, start: nat, size: nat, x: nat)
    requires k >= 1 && Multiple(base, k) && start >= base
    ensures var (u, n) := UnitRange(k, base, start, size);
            u <= x < u + n <==> UnitWithin(k, base, start, size, x)
  {
    WholeUnits(k, start - base, size, x);
  }

  /** The unit of an address. */
  function UnitOf(k: nat, base: nat, addr: nat): nat
    requires k >= 1 && addr >= base
  {
    Quotient(addr - base, k)
  }

  lemma {:induction false} UnitOfAddress(k: nat, base: nat, u: nat)
    requires k >= 1
    ensures base + u * k >= base && UnitOf(k, base, base + u * k) == u
  {
    QuotientIs(k, u * k, u);
    QuotientIs(k, u * k, u + 1);
    OneLess(u + 1, k);
  }
}
