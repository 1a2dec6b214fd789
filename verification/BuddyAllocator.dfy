/**
  The buddy allocator as the object it is in the source: free lists per order, a bitmap, and an index
  word at the start of each block's memory.  Blocks are named by their unit, the offset from the base
  address in smallest blocks.
 */
module BuddyAllocator {
  import opened Dyadic
  import opened Multiples
  import opened Wrappers
  import opened BuddySpec
  import opened BuddyBitmap
  import opened BuddyBytes
  import History = BuddyHistory

  predicate NoDuplicates(s: seq<nat>) {
    forall i, j :: 0 <= i < j < |s| ==> s[i] != s[j]
  }

  /** The list without `u`, the rest in order. */
  function Without(s: seq<nat>, u: nat): (r: seq<nat>)
    requires u in s
  {
    if s[0] == u then s[1..] else [s[0]] + Without(s[1..], u)
  }

  lemma {:induction false} WithoutRemoves(s: seq<nat>, u: nat)
    requires u in s && NoDuplicates(s)
    ensures var r := Without(s, u);
            && NoDuplicates(r) && (forall x :: x in r <==> x in s && x != u)
  {
    assert s == [s[0]] + s[1..];
    if s[0] != u {
      WithoutRemoves(s[1..], u);
      assert s[0] !in Without(s[1..], u);
    }
  }

  lemma {:induction false} WithoutWeighs(s: seq<nat>, u: nat, w: nat)
    requires u in s
    ensures Weight(Without(s, u), w) == Weight(s, w) - w
  {
    if s[0] != u {
      WithoutWeighs(s[1..], u, w);
      assert ([s[0]] + Without(s[1..], u))[1..] == Without(s[1..], u);
    }
  }

  /** All blocks, with those in hand, tile managed memory; no two free buddies. */
  ghost predicate Partition(free: set<Block>, used: set<Block>, hand: set<Block>, sizes: nat, cap: nat) {
    && Tiling(free + used + hand, sizes)
    && free !! used && free !! hand && used !! hand
    && Coalesced(free, sizes)
    && (forall b :: b in free + used + hand ==> b.End() <= cap)
  }

  lemma PartitionUnlink(free: set<Block>, used: set<Block>, hand: set<Block>, sizes: nat, cap: nat, b: Block)
    requires Partition(free, used, hand, sizes, cap) && b in free
    ensures Partition(free - {b}, used, hand + {b}, sizes, cap)
    ensures free - {b} + used + (hand + {b}) == free + used + hand
  {
    assert free - {b} + used + (hand + {b}) == free + used + hand;
  }

  /** `w` for every element of a list. */
  function Weight(l: seq<nat>, w: nat): (t: nat) {
    if l == [] then 0 else w + Weight(l[1..], w)
  }

  /** Free units according to the lists from order `i` on. */
  function Total(lists: seq<seq<nat>>, i: nat): (t: nat)
    decreases |lists| - i
  {
    if i >= |lists| then 0 else Weight(lists[i], Pow2(i)) + Total(lists, i + 1)
  }

  lemma {:induction false} EmptyTotal(lists: seq<seq<nat>>, i: nat)
    requires forall k :: 0 <= k < |lists| ==> lists[k] == []
    ensures Total(lists, i) == 0
    decreases |lists| - i
  {
    if i < |lists| { EmptyTotal(lists, i + 1); }
  }

  lemma {:induction false} TotalUpdate(lists: seq<seq<nat>>, i: nat, k: nat, l: seq<nat>)
    requires k < |lists|
    ensures Total(lists[k := l], i) ==
              Total(lists, i) + if i <= k then Weight(l, Pow2(k)) - Weight(lists[k], Pow2(k)) else 0
    decreases |lists| - i
  {
    if i < |lists| {
      TotalUpdate(lists, i + 1, k, l);
    }
  }

  lemma PartitionRelease(free: set<Block>, used: set<Block>, sizes: nat, cap: nat, b: Block)
    requires Partition(free, used, {}, sizes, cap)
    requires b in used || (b.Aligned() && b.order < sizes && b.End() <= cap &&
                           forall c :: c in free + used ==> Apart(c, b))
    ensures Partition(free, used - {b}, {b}, sizes, cap)
    ensures free + used <= free + (used - {b}) + {b}
  {
    var all := free + (used - {b}) + {b};
    if b in used {
      assert all == free + used + {};
    } else {
      assert !Apart(b, b);
      assert free + used + {} == free + used;
      assert all == free + used + {b};
    }
  }

  /** The buddy, taken off its list, and the block make up the parent. */
  lemma PartitionMerge(free: set<Block>, used: set<Block>, sizes: nat, cap: nat, b: Block)
    requires Partition(free, used, {b, b.Buddy()}, sizes, cap) && b.order + 1 < sizes && b.Aligned()
    ensures Partition(free, used, {b.Parent()}, sizes, cap)
    ensures forall u :: Covers(free + used + {b, b.Buddy()}, u) <==> Covers(free + used + {b.Parent()}, u)
  {
    Halves(b);
    var y, p := b.Buddy(), b.Parent();
    var rest := free + used + {y};
    assert rest + {b} == free + used + {b, y};
    MergeTiling(rest, sizes, b);
    assert rest - {y} + {p} == free + used + {p};
    assert b in free + used + {b, y} && y in free + used + {b, y};
    forall u ensures Covers(free + used + {b, y}, u) <==> Covers(free + used + {p}, u) {
      CoversUnion(free + used, {b, y}, u);
      CoversUnion(free + used, {p}, u);
      CoversTwo(b, y, u);
      CoversOne(p, u);
    }
  }

  lemma CoversUnion(s: set<Block>, t: set<Block>, u: int)
    ensures Covers(s + t, u) <==> Covers(s, u) || Covers(t, u)
  {
    if Covers(s, u) { var b :| b in s && b.Has(u); assert b in s + t; }
    if Covers(t, u) { var b :| b in t && b.Has(u); assert b in s + t; }
  }

  lemma CoversOne(b: Block, u: int)
    ensures Covers({b}, u) <==> b.Has(u)
  {
    assert b in {b};
  }

  lemma CoversTwo(b: Block, c: Block, u: int)
    ensures Covers({b, c}, u) <==> b.Has(u) || c.Has(u)
  {
    assert b in {b, c} && c in {b, c};
  }

  /** The free blocks and one block in hand cover the same memory as another such pair. */
  ghost predicate SameSum(free: set<Block>, b: Block, free': set<Block>, b': Block) {
    forall x: int :: Covers(free', x) || b'.Has(x) <==> Covers(free, x) || b.Has(x)
  }

  /** The free memory has grown by a block. */
  ghost predicate Gains(free: set<Block>, free': set<Block>, b: Block) {
    forall x: int :: Covers(free', x) <==> Covers(free, x) || b.Has(x)
  }

  lemma MergeMemory(free: set<Block>, b: Block)
    requires b.Aligned() && b.Buddy() in free
    ensures SameSum(free, b, free - {b.Buddy()}, b.Parent())
  {
    Halves(b);
    var y := b.Buddy();
    forall x: int ensures Covers(free - {y}, x) || b.Parent().Has(x) <==> Covers(free, x) || b.Has(x) {
      CoversUnion(free - {y}, {y}, x);
      assert free - {y} + {y} == free;
      CoversOne(y, x);
    }
  }

  lemma SameSumTransitive(f: set<Block>, b: Block, f': set<Block>, b': Block, f'': set<Block>, b'': Block)
    requires SameSum(f, b, f', b') && SameSum(f', b', f'', b'')
    ensures SameSum(f, b, f'', b'')
  {}

  lemma SumLinked(free: set<Block>, b: Block, free': set<Block>, b': Block)
    requires SameSum(free, b, free', b')
    ensures Gains(free, free' + {b'}, b)
  {
    forall x: int ensures Covers(free' + {b'}, x) <==> Covers(free, x) || b.Has(x) {
      CoversUnion(free', {b'}, x);
      CoversOne(b', x);
    }
  }

  lemma PartitionLink(free: set<Block>, used: set<Block>, sizes: nat, cap: nat, b: Block)
    requires Partition(free, used, {b}, sizes, cap) && (b.order + 1 < sizes ==> b.Buddy() !in free)
    ensures Partition(free + {b}, used, {}, sizes, cap)
    ensures free + {b} + used + {} == free + used + {b}
  {
    assert free + {b} + used + {} == free + used + {b};
    forall c | c in free + {b} && c.order + 1 < sizes ensures c.Buddy() !in free + {b} {
      assert c in free + used + {b};
      Halves(c);
    }
  }

  /** Taking the front block apart leaves the requested part used and the rest free. */
  lemma PartitionCut(free: set<Block>, used: set<Block>, sizes: nat, cap: nat, f: Block, lo: nat)
    requires Partition(free, used, {}, sizes, cap) && f in free && lo <= f.order
    ensures Partition(free - {f} + Uppers(f.start, lo, f.order), used + {Block(f.start, lo)}, {}, sizes, cap)
  {
    var ups, low := Uppers(f.start, lo, f.order), Block(f.start, lo);
    var all := free + used + {};
    var all' := free - {f} + ups + (used + {low}) + {};
    CutTiling(all, sizes, f, lo);
    assert all' == all - {f} + {low} + ups;
    TilingSubset(free, all, sizes);
    CutCoalesced(free, sizes, f, lo);
    CutDisjoint(free, used, sizes, f, lo);
    CutEnds(all, cap, f, lo);
  }

  lemma CutEnds(all: set<Block>, cap: nat, f: Block, lo: nat)
    requires f in all && lo <= f.order && forall b :: b in all ==> b.End() <= cap
    ensures forall b :: b in all - {f} + {Block(f.start, lo)} + Uppers(f.start, lo, f.order) ==> b.End() <= cap
  {
    PiecesApart(f, lo);
    assert forall b :: b in Uppers(f.start, lo, f.order) ==> Inside(b, f);
  }

  lemma CutKeepsManaged(free: set<Block>, used: set<Block>, f: Block, lo: nat, u: int)
    requires f in free && lo <= f.order && Covers(free + used + {}, u)
    ensures Covers(free - {f} + Uppers(f.start, lo, f.order) + (used + {Block(f.start, lo)}) + {}, u)
  {
    var all' := free - {f} + Uppers(f.start, lo, f.order) + (used + {Block(f.start, lo)}) + {};
    PiecesCover(f, lo, u);
    var b :| b in free + used + {} && b.Has(u);
    if b != f {
      assert b in all';
    } else if Block(f.start, lo).Has(u) {
      assert Block(f.start, lo) in all';
    } else {
      var c :| c in Uppers(f.start, lo, f.order) && c.Has(u);
      assert c in all';
    }
  }

  lemma CutDisjoint(free: set<Block>, used: set<Block>, sizes: nat, f: Block, lo: nat)
    requires Tiling(free + used + {}, sizes) && free !! used && f in free && lo <= f.order
    ensures free - {f} + Uppers(f.start, lo, f.order) !! used + {Block(f.start, lo)}
  {
    PiecesApart(f, lo);
    var ups, low := Uppers(f.start, lo, f.order), Block(f.start, lo);
    forall b | b in free - {f} + ups ensures b !in used + {low} {
      if b in ups {
        assert !Apart(b, f);
        assert f in free + used + {};
      } else {
        assert b in free + used + {} && f in free + used + {};
        StartShared(low, f);
      }
    }
  }

  lemma CoversMore(free: set<Block>, used: set<Block>, used': set<Block>, b: Block)
    requires used <= used' + {b}
    ensures forall u: int :: Covers(free + used + {}, u) ==> Covers(free + used' + {b}, u)
  {
    forall u: int | Covers(free + used + {}, u) ensures Covers(free + used' + {b}, u) {
      var c :| c in free + used + {} && c.Has(u);
      assert c in free + used' + {b};
    }
  }

  lemma NotFreeYet(free: set<Block>, used: set<Block>, sizes: nat, cap: nat, b: Block)
    requires Partition(free, used, {b}, sizes, cap)
    ensures b.End() <= cap && forall x: int :: b.Has(x) ==> !Covers(free, x)
  {
    assert b in free + used + {b};
    forall x: int, c | b.Has(x) && c in free ensures !c.Has(x) {
      assert c in free + used + {b} && Apart(b, c);
    }
  }

  lemma PartitionSound(free: set<Block>, used: set<Block>, sizes: nat, cap: nat)
    requires Partition(free, used, {}, sizes, cap)
    ensures History.Sound(History.Books(free, used), sizes)
  {
    assert free + used + {} == free + used;
  }

  lemma CutFacts(free: set<Block>, used: set<Block>, sizes: nat, cap: nat, f: Block, lo: nat)
    requires Partition(free, used, {}, sizes, cap) && f in free && lo <= f.order
    ensures free - {f} !! Uppers(f.start, lo, f.order)
    ensures Block(f.start, lo).Aligned() && Block(f.start, lo) !in used && Block(f.start, lo).End() <= cap
    ensures WhollyFree(free, Block(f.start, lo))
    ensures forall x: int :: Covers(free - {f} + Uppers(f.start, lo, f.order), x) <==>
              Covers(free, x) && !Block(f.start, lo).Has(x)
  {
    var low := Block(f.start, lo);
    PiecesApart(f, lo);
    PiecesAligned(f, lo);
    assert f in free + used + {};
    assert forall x: int :: low.Has(x) ==> f.Has(x);
    TilingSubset(free, free + used + {}, sizes);
    forall x: int ensures Covers(free - {f} + Uppers(f.start, lo, f.order), x) <==> Covers(free, x) && !low.Has(x) {
      CutMemory(free, sizes, f, lo, x);
    }
    CutDisjoint(free, used, sizes, f, lo);
    LowNotUsed(free, used, sizes, f, lo);
    UppersNotFree(free, sizes, f, lo);
  }

  lemma LowNotUsed(free: set<Block>, used: set<Block>, sizes: nat, f: Block, lo: nat)
    requires Tiling(free + used + {}, sizes) && free !! used && f in free
    ensures Block(f.start, lo) !in used
  {
    var low := Block(f.start, lo);
    assert f in free + used + {};
    StartShared(low, f);
  }

  lemma UppersNotFree(free: set<Block>, sizes: nat, f: Block, lo: nat)
    requires Tiling(free, sizes) && f in free && lo <= f.order
    ensures free - {f} !! Uppers(f.start, lo, f.order)
  {
    PiecesApart(f, lo);
    forall b | b in Uppers(f.start, lo, f.order) ensures b !in free - {f} {
      assert Inside(b, f) && !Apart(b, f);
    }
  }

  /** List `i` holds the starts of the free blocks of order `i`, once each. */
  ghost predicate ListsMatch(lists: seq<seq<nat>>, free: set<Block>) {
    && (forall i :: 0 <= i < |lists| ==> NoDuplicates(lists[i]))
    && (forall i: nat, u: nat {:trigger u in lists[i]} :: i < |lists| ==> (u in lists[i] <==> Block(u, i) in free))
    && (forall b :: b in free ==> b.order < |lists|)
  }

  lemma FreeIsListed(lists: seq<seq<nat>>, free: set<Block>, b: Block)
    requires ListsMatch(lists, free) && b in free
    ensures b.order < |lists| && b.start in lists[b.order]
  {
    assert b.start in lists[b.order] <==> Block(b.start, b.order) in free;
  }

  lemma ListsUnlink(lists: seq<seq<nat>>, free: set<Block>, u: nat, i: nat)
    requires ListsMatch(lists, free) && Block(u, i) in free
    ensures u in lists[i] && ListsMatch(lists[i := Without(lists[i], u)], free - {Block(u, i)})
  {
    assert u in lists[i];
    WithoutRemoves(lists[i], u);
  }

  lemma UnlinkTotal(lists: seq<seq<nat>>, u: nat, i: nat)
    requires i < |lists| && u in lists[i]
    ensures Total(lists[i := Without(lists[i], u)], 0) == Total(lists, 0) - Pow2(i)
  {
    WithoutWeighs(lists[i], u, Pow2(i));
    TotalUpdate(lists, 0, i, Without(lists[i], u));
  }

  lemma ListsLink(lists: seq<seq<nat>>, free: set<Block>, u: nat, i: nat)
    requires ListsMatch(lists, free) && i < |lists| && Block(u, i) !in free
    ensures ListsMatch(lists[i := [u] + lists[i]], free + {Block(u, i)})
  {
    var lists' := lists[i := [u] + lists[i]];
    assert u !in lists[i];
    forall k: nat, v: nat | k < |lists'| ensures v in lists'[k] <==> Block(v, k) in free + {Block(u, i)} {
      assert v in lists[k] <==> Block(v, k) in free;
    }
  }

  lemma LinkTotal(lists: seq<seq<nat>>, u: nat, i: nat)
    requires i < |lists|
    ensures Total(lists[i := [u] + lists[i]], 0) == Total(lists, 0) + Pow2(i)
  {
    TotalUpdate(lists, 0, i, [u] + lists[i]);
    assert ([u] + lists[i])[1..] == lists[i];
  }

  /**
    At a block's start the bit says whether the block is free, and then the header has its order.
    A bit may be set elsewhere too, but only in managed memory.
   */
  ghost predicate BitsMatch(bits: seq<bool>, header: seq<nat>, free: set<Block>, used: set<Block>, hand: set<Block>) {
    && |header| == |bits|
    && (forall b :: b in free ==> b.start < |bits| && bits[b.start] && header[b.start] == b.order)
    && (forall b :: b in used ==> b.start < |bits| && !bits[b.start])
    && (forall u :: 0 <= u < |bits| && bits[u] ==> Covers(free + used + hand, u))
  }

  /** The units of managed memory that are free. */
  ghost function FreeUnits(free: set<Block>, cap: nat): set<int> {
    set u | 0 <= u < cap && Covers(free, u)
  }

  ghost function Range(lo: int, hi: int): (s: set<int>)
    ensures forall x :: x in s <==> lo <= x < hi
    ensures lo <= hi ==> |s| == hi - lo
    decreases hi - lo
  {
    if lo < hi then Range(lo, hi - 1) + {hi - 1} else {}
  }

  /** Memory grows by a block that was not free. */
  lemma UnitsGrow(free: set<Block>, free': set<Block>, cap: nat, b: Block)
    requires b.End() <= cap && Gains(free, free', b)
    requires forall x: int :: b.Has(x) ==> !Covers(free, x)
    ensures |FreeUnits(free', cap)| == |FreeUnits(free, cap)| + Pow2(b.order)
  {
    var before, new_ := FreeUnits(free, cap), Range(b.start, b.End());
    assert forall x :: x in new_ ==> b.Has(x);
    assert before !! new_;
    assert FreeUnits(free', cap) == before + new_;
  }

  /** Memory shrinks by a block that was free. */
  lemma UnitsShrink(free: set<Block>, free': set<Block>, cap: nat, b: Block)
    requires b.End() <= cap && forall x: int :: Covers(free', x) <==> Covers(free, x) && !b.Has(x)
    requires WhollyFree(free, b)
    ensures |FreeUnits(free', cap)| == |FreeUnits(free, cap)| - Pow2(b.order)
  {
    UnitsGrow(free', free, cap, b);
  }

  /** The least order whose blocks are at least `size` bytes. */
  predicate OneListChanged(lists: seq<seq<nat>>, lists': seq<seq<nat>>, i: nat) {
    |lists'| == |lists| && forall j :: 0 <= j < |lists| && j != i ==> lists'[j] == lists[j]
  }

  predicate SameFrom(lists: seq<seq<nat>>, lists': seq<seq<nat>>, lo: nat, hi: nat) {
    |lists'| == |lists| && forall j :: 0 <= j < |lists| && !(lo <= j < hi) ==> lists'[j] == lists[j]
  }

  /** Block `c`, which has grown from `b`, is new in front of its list, and larger and smaller ones stay listed. */
  predicate PutInFront(lists: seq<seq<nat>>, lists': seq<seq<nat>>, b: Block, c: Block) {
    && Inside(b, c) && b.order <= c.order < |lists| == |lists'|
    && lists'[c.order] == [c.start] + lists[c.order]
    && forall j :: 0 <= j < |lists| && !(b.order <= j <= c.order) ==> lists'[j] == lists[j]
  }

  /** `b` is the front of the list of order `i`, the first that is not empty, and its upper halves are listed. */
  predicate TakenFrom(lists: seq<seq<nat>>, lists': seq<seq<nat>>, b: Block, i: nat) {
    && b.order <= i < |lists| == |lists'|
    && (forall j :: b.order <= j < i ==> lists[j] == [])
    && lists[i] != [] && lists[i][0] == b.start
    && forall j :: 0 <= j < |lists| ==>
                     lists'[j] == if j == i then lists[i][1..]
                                  else if b.order <= j < i then [b.start + Pow2(j)] else lists[j]
  }

  predicate IsOrderFor(minSize: nat, size: nat, k: nat) {
    minSize * Pow2(k) >= size && (k > 0 ==> minSize * Pow2(k - 1) < size)
  }

  lemma Doubles(minSize: nat, k: nat)
    requires minSize >= 1
    ensures minSize * Pow2(k + 1) == 2 * (minSize * Pow2(k)) && minSize * Pow2(k) >= 1
  {
    MulAtLeast(minSize, Pow2(k));
  }

  lemma {:induction false} WeightScales(l: seq<nat>, m: nat, w: nat)
    ensures Weight(l, m * w) == m * Weight(l, w)
  {
    if l != [] {
      WeightScales(l[1..], m, w);
      Distribute(m, w, Weight(l[1..], w));
    }
  }

  /** Free bytes according to the lists from order `i` on. */
  function Bytes(lists: seq<seq<nat>>, m: nat, i: nat): nat
    decreases |lists| - i
  {
    if i >= |lists| then 0 else Weight(lists[i], m * Pow2(i)) + Bytes(lists, m, i + 1)
  }

  lemma {:induction false} BytesScale(lists: seq<seq<nat>>, m: nat, i: nat)
    ensures Bytes(lists, m, i) == m * Total(lists, i)
    decreases |lists| - i
  {
    if i < |lists| {
      BytesScale(lists, m, i + 1);
      WeightScales(lists[i], m, Pow2(i));
      Distribute(m, Weight(lists[i], Pow2(i)), Total(lists, i + 1));
    }
  }

  lemma Distribute(m: nat, a: nat, b: nat)
    ensures m * (a + b) == m * a + m * b
  {}

  lemma OrderIsLeast(minSize: nat, size: nat, j: nat, k: nat)
    requires IsOrderFor(minSize, size, k) && minSize * Pow2(j) >= size
    ensures k <= j
  {
    if j < k {
      Pow2Monotone(j, k - 1);
      MulMonotone(Pow2(j), Pow2(k - 1), minSize);
      assert false;
    }
  }

  lemma OrderUnique(minSize: nat, size: nat, j: nat, k: nat)
    requires IsOrderFor(minSize, size, j) && IsOrderFor(minSize, size, k)
    ensures j == k
  {
    OrderIsLeast(minSize, size, j, k);
    OrderIsLeast(minSize, size, k, j);
  }

  /** The upper halves from order `lo` up to `j` are marked with their order. */
  ghost predicate Marked(bits: seq<bool>, header: seq<nat>, start: nat, lo: nat, j: nat) {
    && |bits| == |header|
    && forall b :: b in Uppers(start, lo, j) ==> b.start < |bits| && bits[b.start] && header[b.start] == b.order
  }

  /** Nothing changed but inside the block, behind its start. */
  ghost predicate SameOutside<T>(s: seq<T>, s0: seq<T>, f: Block) {
    |s| == |s0| && forall u :: 0 <= u < |s| && !(f.start < u < f.End()) ==> s[u] == s0[u]
  }

  lemma SameOutsideStep<T>(s: seq<T>, s0: seq<T>, f: Block, u: nat, v: T)
    requires SameOutside(s, s0, f) && f.start < u < f.End() && u < |s|
    ensures SameOutside(s[u := v], s0, f)
  {}

  lemma MarkOneMore(bits: seq<bool>, header: seq<nat>, start: nat, lo: nat, b: Block)
    requires Marked(bits, header, start, lo, b.order) && lo <= b.order
    requires b.start == start + Pow2(b.order) && b.start < |bits|
    ensures Marked(bits[b.start := true], header[b.start := b.order], start, lo, b.order + 1)
  {
    forall c | c in Uppers(start, lo, b.order + 1)
      ensures c.start < |bits| && bits[b.start := true][c.start] && header[b.start := b.order][c.start] == c.order
    {
      if c.order < b.order {
        assert c in Uppers(start, lo, b.order);
        Pow2Monotone(c.order + 1, b.order);
      }
    }
  }

  /** The free lists after `split` has linked the upper halves of orders `lo` to below `j`. */
  function SplitLists(lists: seq<seq<nat>>, f: nat, lo: nat, j: nat): (r: seq<seq<nat>>)
    requires j <= |lists|
    ensures |r| == |lists|
  {
    if j <= lo then lists else
      var r := SplitLists(lists, f, lo, j - 1);
      r[j - 1 := [f + Pow2(j - 1)] + r[j - 1]]
  }

  /** The bitmap then. */
  function SplitBits(bits: seq<bool>, f: nat, lo: nat, j: nat): (r: seq<bool>)
    requires f + Pow2(j) <= |bits|
    ensures |r| == |bits|
  {
    if j <= lo then bits else SplitBits(bits, f, lo, j - 1)[f + Pow2(j - 1) := true]
  }

  /** The header words then. */
  function SplitHeader(header: seq<nat>, f: nat, lo: nat, j: nat): (r: seq<nat>)
    requires f + Pow2(j) <= |header|
    ensures |r| == |header|
  {
    if j <= lo then header else SplitHeader(header, f, lo, j - 1)[f + Pow2(j - 1) := j - 1]
  }

  lemma {:induction false} SplitListsAt(lists: seq<seq<nat>>, f: nat, lo: nat, i: nat, j: nat)
    requires i <= |lists| && j < |lists|
    ensures SplitLists(lists, f, lo, i)[j] == if lo <= j < i then [f + Pow2(j)] + lists[j] else lists[j]
    decreases i
  {
    if lo < i { SplitListsAt(lists, f, lo, i - 1, j); }
  }

  lemma SplitFirst(lists: seq<seq<nat>>, lo: nat, i: nat)
    requires lo <= i < |lists| && lists[i] != [] && forall j :: lo <= j < i ==> lists[j] == []
    ensures TakenFrom(lists, SplitLists(lists[i := lists[i][1..]], lists[i][0], lo, i), Block(lists[i][0], lo), i)
  {
    var rest, f := lists[i := lists[i][1..]], lists[i][0];
    forall j | 0 <= j < |lists|
      ensures SplitLists(rest, f, lo, i)[j] == if lo <= j < i then [f + Pow2(j)] + rest[j] else rest[j]
    {
      SplitListsAt(rest, f, lo, i, j);
    }
  }

  lemma {:induction false} SplitListsMatch(lists: seq<seq<nat>>, free: set<Block>, f: nat, lo: nat, j: nat)
    requires lo <= j <= |lists| && ListsMatch(lists, free) && free !! Uppers(f, lo, j)
    ensures ListsMatch(SplitLists(lists, f, lo, j), free + Uppers(f, lo, j))
    decreases j
  {
    if j == lo {
      NoUppers(free, f, lo);
    } else {
      SplitListsMatch(lists, free, f, lo, j - 1);
      SplitListsStep(SplitLists(lists, f, lo, j - 1), free, f, lo, j);
    }
  }

  lemma NoUppers(free: set<Block>, f: nat, lo: nat)
    ensures free + Uppers(f, lo, lo) == free
  {}

  lemma SplitListsStep(lists: seq<seq<nat>>, free: set<Block>, f: nat, lo: nat, j: nat)
    requires lo < j <= |lists| && free !! Uppers(f, lo, j) && ListsMatch(lists, free + Uppers(f, lo, j - 1))
    ensures ListsMatch(lists[j - 1 := [f + Pow2(j - 1)] + lists[j - 1]], free + Uppers(f, lo, j))
  {
    var b := Block(f + Pow2(j - 1), j - 1);
    ListsLink(lists, free + Uppers(f, lo, j - 1), b.start, j - 1);
    assert free + Uppers(f, lo, j - 1) + {b} == free + Uppers(f, lo, j);
  }

  lemma {:induction false} SplitTotal(lists: seq<seq<nat>>, f: nat, lo: nat, j: nat)
    requires lo <= j <= |lists|
    ensures Total(SplitLists(lists, f, lo, j), 0) + Pow2(lo) == Total(lists, 0) + Pow2(j)
    decreases j
  {
    if lo < j {
      SplitTotal(lists, f, lo, j - 1);
      LinkTotal(SplitLists(lists, f, lo, j - 1), f + Pow2(j - 1), j - 1);
    }
  }

  lemma {:induction false} SplitMarks(bits: seq<bool>, header: seq<nat>, f: Block, lo: nat, j: nat)
    requires lo <= j <= f.order && f.End() <= |bits| == |header|
    ensures f.start + Pow2(j) <= |bits|
    ensures Marked(SplitBits(bits, f.start, lo, j), SplitHeader(header, f.start, lo, j), f.start, lo, j)
    ensures SameOutside(SplitBits(bits, f.start, lo, j), bits, f)
    ensures SameOutside(SplitHeader(header, f.start, lo, j), header, f)
    decreases j
  {
    Pow2Monotone(j, f.order);
    if lo < j {
      SplitMarks(bits, header, f, lo, j - 1);
      var (bits1, header1) := (SplitBits(bits, f.start, lo, j - 1), SplitHeader(header, f.start, lo, j - 1));
      SplitMarksStep(bits1, header1, bits, header, f, lo, j);
      assert SplitBits(bits, f.start, lo, j) == bits1[f.start + Pow2(j - 1) := true];
      assert SplitHeader(header, f.start, lo, j) == header1[f.start + Pow2(j - 1) := j - 1];
    }
  }

  lemma SplitMarksStep(bits: seq<bool>, header: seq<nat>, bits0: seq<bool>, header0: seq<nat>,
                       f: Block, lo: nat, j: nat)
    requires lo < j <= f.order && f.End() <= |bits| == |header|
    requires Marked(bits, header, f.start, lo, j - 1)
    requires SameOutside(bits, bits0, f) && SameOutside(header, header0, f)
    ensures f.start + Pow2(j - 1) < |bits|
    ensures Marked(bits[f.start + Pow2(j - 1) := true], header[f.start + Pow2(j - 1) := j - 1], f.start, lo, j)
    ensures SameOutside(bits[f.start + Pow2(j - 1) := true], bits0, f)
    ensures SameOutside(header[f.start + Pow2(j - 1) := j - 1], header0, f)
  {
    Pow2Monotone(j, f.order);
    var b := Block(f.start + Pow2(j - 1), j - 1);
    MarkOneMore(bits, header, f.start, lo, b);
    SameOutsideStep(bits, bits0, f, b.start, true);
    SameOutsideStep(header, header0, f, b.start, j - 1);
  }

  lemma OthersOutside(free: set<Block>, used: set<Block>, sizes: nat, cap: nat, f: Block, b: Block)
    requires Partition(free, used, {}, sizes, cap) && f in free && b in (free - {f}) + used
    ensures b.start != f.start && !(f.start < b.start < f.End())
  {
    assert b in free + used + {} && f in free + used + {} && Apart(b, f);
  }

  /** After the split, with the bit of the lower part cleared, bits and headers match the new blocks. */
  lemma SplitBitsMatch(bits: seq<bool>, header: seq<nat>, bits0: seq<bool>, header0: seq<nat>,
                       free: set<Block>, used: set<Block>, sizes: nat, cap: nat, f: Block, lo: nat)
    requires Partition(free, used, {}, sizes, cap) && f in free && lo <= f.order
    requires BitsMatch(bits0, header0, free, used, {})
    requires Marked(bits, header, f.start, lo, f.order) && |bits| == |header|
    requires SameOutside(bits, bits0, f) && SameOutside(header, header0, f)
    ensures f.start < |bits|
    ensures BitsMatch(bits[f.start := false], header,
                      free - {f} + Uppers(f.start, lo, f.order), used + {Block(f.start, lo)}, {})
  {
    var ups, low := Uppers(f.start, lo, f.order), Block(f.start, lo);
    var bits' := bits[f.start := false];
    forall b | b in free - {f} + ups ensures b.start < |bits'| && bits'[b.start] && header[b.start] == b.order {
      if b in ups {
        assert bits[b.start];
      } else {
        OthersOutside(free, used, sizes, cap, f, b);
      }
    }
    forall b | b in used + {low} ensures b.start < |bits'| && !bits'[b.start] {
      if b in used { OthersOutside(free, used, sizes, cap, f, b); }
    }
    forall u | 0 <= u < |bits| && bits'[u] ensures Covers(free - {f} + ups + (used + {low}) + {}, u) {
      if f.Has(u) { assert f in free + used + {}; }
      CutKeepsManaged(free, used, f, lo, u);
    }
  }

  lemma BitsHandOver(bits: seq<bool>, header: seq<nat>, free: set<Block>, used: set<Block>,
                     hand: set<Block>, hand': set<Block>)
    requires BitsMatch(bits, header, free, used, hand)
    requires forall u :: Covers(free + used + hand, u) ==> Covers(free + used + hand', u)
    ensures BitsMatch(bits, header, free, used, hand')
  {}

  /** The lists after the front block of list `i` has been taken and split. */
  lemma TakenLists(lists: seq<seq<nat>>, free: set<Block>, f: nat, lo: nat, i: nat)
    requires ListsMatch(lists, free) && Block(f, i) in free && lo <= i
    requires free - {Block(f, i)} !! Uppers(f, lo, i)
    ensures f in lists[i]
    ensures var lists' := SplitLists(lists[i := Without(lists[i], f)], f, lo, i);
            && ListsMatch(lists', free - {Block(f, i)} + Uppers(f, lo, i))
            && Total(lists', 0) == Total(lists, 0) - Pow2(lo)
  {
    ListsUnlink(lists, free, f, i);
    UnlinkTotal(lists, f, i);
    var lists1 := lists[i := Without(lists[i], f)];
    SplitListsMatch(lists1, free - {Block(f, i)}, f, lo, i);
    SplitTotal(lists1, f, lo, i);
  }

  /** The blocks, bits and headers then. */
  lemma TakenBlocks(bits: seq<bool>, header: seq<nat>, free: set<Block>, used: set<Block>, sizes: nat, cap: nat,
                    f: Block, lo: nat)
    requires sizes >= 1 && MapFits(|bits|, cap, sizes)
    requires Partition(free, used, {}, sizes, cap) && f in free && lo <= f.order
    requires BitsMatch(bits, header, free, used, {})
    ensures f.start < f.End() <= |bits|
    ensures var free', used' := free - {f} + Uppers(f.start, lo, f.order), used + {Block(f.start, lo)};
            && Partition(free', used', {}, sizes, cap)
            && BitsMatch(SplitBits(bits, f.start, lo, f.order)[f.start := false],
                         SplitHeader(header, f.start, lo, f.order), free', used', {})
  {
    assert f in free + used + {};
    PartitionCut(free, used, sizes, cap, f, lo);
    SplitMarks(bits, header, f, lo, f.order);
    SplitBitsMatch(SplitBits(bits, f.start, lo, f.order), SplitHeader(header, f.start, lo, f.order), bits, header,
                   free, used, sizes, cap, f, lo);
  }

  /** A unit outside all blocks makes a block of order zero apart from them. */
  lemma NewUnitIsApart(free: set<Block>, used: set<Block>, free0: set<Block>, v: nat)
    requires !Covers(free0 + used, v) && (Covers(free, v) ==> Covers(free0, v))
    ensures forall c :: c in free + used ==> Apart(c, Block(v, 0))
    ensures Block(v, 0).Aligned() && Block(v, 0).End() == v + 1
  {
    CoversUnion(free0, used, v);
    CoversUnion(free, used, v);
    UnitAligned(v);
    forall c | c in free + used ensures Apart(c, Block(v, 0)) {
      assert !c.Has(v);
    }
  }

  lemma NotInUsed(free0: set<Block>, used: set<Block>, v: nat)
    requires !Covers(free0 + used, v)
    ensures Block(v, 0) !in used
  {
    assert Block(v, 0).Has(v);
  }

  lemma {:induction false} UnitAligned(v: nat)
    ensures Multiple(v, 1)
  {
    if v > 0 { UnitAligned(v - 1); }
  }

  class BuddyAllocator {
    const minSize: nat
    const sizes: nat
    const base: nat
    const cap: nat
    const lists: array<seq<nat>>
    const freeMap: array<bool>
    const header: array<nat>
    ghost var free: set<Block>
    ghost var used: set<Block>

    /** The address of a unit. */
    function AddressOf(u: nat): nat {
      base + u * minSize
    }

    ghost predicate Shape() {
      && minSize >= 1 && sizes >= 1 && Multiple(base, minSize)
      && lists.Length == sizes && header.Length == freeMap.Length
      && MapFits(freeMap.Length, cap, sizes)
    }

    /** The base address is a multiple of the largest block. */
    ghost predicate BaseFits() {
      minSize >= 1 && sizes >= 1 && Multiple(base, MaxSize(minSize, sizes))
    }

    /** The data structure is consistent, apart from the blocks in hand, which are on no list. */
    ghost predicate Core(hand: set<Block>)
      reads this, lists, freeMap, header
    {
      && Shape()
      && Partition(free, used, hand, sizes, cap)
      && ListsMatch(lists[..], free)
      && BitsMatch(freeMap[..], header[..], free, used, hand)
    }

    /** Consistent, and the lists account for exactly the free memory. */
    ghost predicate Valid()
      reads this, lists, freeMap, header
    {
      Core({}) && BaseFits() && Total(lists[..], 0) == |FreeUnits(free, cap)|
    }

    ghost function Books(): History.Books
      reads this
    {
      History.Books(free, used)
    }

    constructor (minSize: nat, sizes: nat, minAddr: nat, maxAddr: nat)
      requires minSize >= 1 && sizes >= 1 && minAddr <= maxAddr
      ensures Valid() && free == {} && used == {}
      ensures this.minSize == minSize && this.sizes == sizes && base == BaseAddr(minSize, sizes, minAddr)
      ensures base + cap * minSize <= maxAddr + 1 < base + (cap + 1) * minSize
      ensures fresh(lists) && fresh(freeMap) && fresh(header)
    {
      this.minSize, this.sizes := minSize, sizes;
      base := BaseAddr(minSize, sizes, minAddr);
      cap := MemSize(minSize, sizes, minAddr, maxAddr) / minSize;
      lists := new seq<nat>[sizes](_ => []);
      var bits := BuddyBits(minSize, sizes, minAddr, maxAddr);
      freeMap := new bool[bits](_ => false);
      header := new nat[bits](_ => 0);
      free, used := {}, {};
      BuddyBitsFit(minSize, sizes, minAddr, maxAddr);
      BaseIsMultiple(minSize, sizes, minAddr, 0);
      MultipleIsMod(BaseAddr(minSize, sizes, minAddr), minSize);
      BaseIsNearest(minSize, sizes, minAddr);
      WholeUnitsBelow(MemSize(minSize, sizes, minAddr, maxAddr), minSize);
      new;
      EmptyTotal(lists[..], 0);
      assert FreeUnits(free, cap) == {};
    }

    /** Whoever holds a block may write its memory, and so the words where headers would be. */
    method UserWrite(u: nat, word: nat)
      requires Valid() && Covers(used, u) && u < header.Length
      modifies header
      ensures Valid() && header[..] == old(header[..])[u := word]
    {
      ghost var b :| b in used && b.Has(u);
      header[u] := word;
      forall c | c in free ensures c.start != u {
        assert b in free + used + {} && c in free + used + {};
        assert Apart(b, c);
      }
    }

    /** The bit and the header at the buddy's start say whether the buddy is free, whatever bits are stale. */
    lemma BuddyTest(b: Block)
      requires Core({b}) && b.order + 1 < sizes
      ensures b.start < freeMap.Length && b.Buddy().start < freeMap.Length
      ensures b.Buddy() in free <==> freeMap[b.Buddy().start] && header[b.Buddy().start] == b.order
    {
      assert b in free + used + {b};
      IndicesInBitmap(freeMap.Length, cap, sizes, b);
      Halves(b);
      var y := b.Buddy();
      if freeMap[y.start] && header[y.start] == b.order {
        assert freeMap[..][y.start];
        var c :| c in free + used + {b} && c.Has(y.start);
        assert c != b;
        assert forall x :: x in free + used ==> Apart(x, b);
        assert Tiling(free + used, sizes);
        BuddyStartIsNoInterior(free + used, sizes, b, c);
        assert c !in used;
        assert c == y;
      }
    }

    /** `buddy`: the buddy's unit if it is free, and the unit of the block that both make up. */
    method FindBuddy(block: nat, index: nat) returns (buddy: Option<nat>, newBlock: nat)
      requires Core({Block(block, index)}) && index + 1 < sizes
      ensures var b := Block(block, index);
              && newBlock == b.Parent().start
              && buddy == if b.Buddy() in free then Some(b.Buddy().start) else None
    {
      ghost var b := Block(block, index);
      BuddyTest(b);
      AlignDownIsMod(block, Pow2(index + 1));
      newBlock := block - block % Pow2(index + 1);
      var other := if newBlock == block then block + Pow2(index) else newBlock;
      if freeMap[other] && header[other] == index {
        buddy := Some(other);
      } else {
        buddy := None;
      }
    }

    /** Take a block off its list, into the hand, without touching its bit. */
    method Unlink(u: nat, i: nat, ghost hand: set<Block>)
      requires Core(hand) && Block(u, i) in free
      modifies this`free, lists
      ensures free == old(free) - {Block(u, i)} && Core(hand + {Block(u, i)})
      ensures OneListChanged(old(lists[..]), lists[..], i)
      ensures Total(lists[..], 0) == old(Total(lists[..], 0)) - Pow2(i)
    {
      ghost var before := lists[..];
      PartitionUnlink(free, used, hand, sizes, cap, Block(u, i));
      ListsUnlink(before, free, u, i);
      UnlinkTotal(before, u, i);
      lists[i] := Without(lists[i], u);
      assert lists[..] == before[i := Without(before[i], u)];
      free := free - {Block(u, i)};
    }

    /** Put the block in hand on its list and set its bit. */
    method Link(u: nat, i: nat)
      requires Core({Block(u, i)}) && (i + 1 < sizes ==> Block(u, i).Buddy() !in free)
      modifies this`free, lists, freeMap, header
      ensures free == old(free) + {Block(u, i)} && Core({})
      ensures lists[..] == old(lists[..])[i := [u] + old(lists[i])]
      ensures Total(lists[..], 0) == old(Total(lists[..], 0)) + Pow2(i)
    {
      ghost var b := Block(u, i);
      ghost var before := lists[..];
      assert b in free + used + {b};
      IndicesInBitmap(freeMap.Length, cap, sizes, b);
      PartitionLink(free, used, sizes, cap, b);
      ListsLink(before, free, u, i);
      LinkTotal(before, u, i);
      forall c | c in free + used ensures c.start != u {
        assert c in free + used + {b} && Apart(c, b);
      }
      header[u] := i;
      lists[i] := [u] + lists[i];
      freeMap[u] := true;
      assert lists[..] == before[i := [u] + before[i]];
      free := free + {b};
      assert Covers(free + used + {}, u) by { assert b in free + used + {} && b.Has(u); }
    }

    /** One round of the loop in `free`: the block in hand absorbs its free buddy. */
    method Absorb(u: nat, i: nat, newBlock: nat)
      requires Core({Block(u, i)}) && i + 1 < sizes && Block(u, i).Buddy() in free
      requires newBlock == Block(u, i).Parent().start
      modifies this`free, lists
      ensures Core({Block(newBlock, i + 1)})
      ensures free == old(free) - {Block(u, i).Buddy()} && OneListChanged(old(lists[..]), lists[..], i)
      ensures Total(lists[..], 0) + Pow2(i + 1) == old(Total(lists[..], 0)) + Pow2(i)
    {
      ghost var b := Block(u, i);
      assert b in free + used + {b};
      Unlink(if newBlock == u then u + Pow2(i) else newBlock, i, {b});
      assert {b} + {b.Buddy()} == {b, b.Buddy()};
      PartitionMerge(free, used, sizes, cap, b);
      BitsHandOver(freeMap[..], header[..], free, used, {b, b.Buddy()}, {b.Parent()});
      assert Block(newBlock, i + 1) == b.Parent();
    }

    /** One round of the loop in `free`: look for a free buddy, and merge with it if there is one. */
    method Round(u: nat, i: nat, ghost free0: set<Block>, ghost b0: Block) returns (merged: bool, newBlock: nat)
      requires Core({Block(u, i)}) && i + 1 < sizes && SameSum(free0, b0, free, Block(u, i))
      modifies this`free, lists
      ensures newBlock == Block(u, i).Parent().start && OneListChanged(old(lists[..]), lists[..], i)
      ensures merged ==>
                && Core({Block(newBlock, i + 1)})
                && SameSum(free0, b0, free, Block(newBlock, i + 1))
                && Total(lists[..], 0) + Pow2(i + 1) == old(Total(lists[..], 0)) + Pow2(i)
      ensures !merged ==>
                && Core({Block(u, i)}) && Block(u, i).Buddy() !in free
                && free == old(free) && lists[..] == old(lists[..])
    {
      ghost var b := Block(u, i);
      assert b in free + used + {b};
      var buddy;
      buddy, newBlock := FindBuddy(u, i);
      merged := buddy.Some?;
      if merged {
        MergeMemory(free, b);
        SameSumTransitive(free0, b0, free, b, free - {b.Buddy()}, b.Parent());
        Absorb(u, i, newBlock);
      }
    }

    /** The merged block becomes free. */
    method LinkMerged(u: nat, i: nat, ghost free0: set<Block>, ghost b: Block)
      requires Core({Block(u, i)}) && (i + 1 < sizes ==> Block(u, i).Buddy() !in free)
      requires SameSum(free0, b, free, Block(u, i))
      modifies this`free, lists, freeMap, header
      ensures Core({}) && Gains(free0, free, b)
      ensures lists[..] == old(lists[..])[i := [u] + old(lists[i])]
      ensures Total(lists[..], 0) == old(Total(lists[..], 0)) + Pow2(i)
    {
      SumLinked(free0, b, free, Block(u, i));
      Link(u, i);
    }

    /** A round of the loop, with what the loop keeps: the memory, and the listed units with those in hand. */
    method NextRound(u: nat, i: nat, ghost free0: set<Block>, ghost b0: Block, ghost total: nat)
      returns (block: nat, index: nat, more: bool)
      requires Core({Block(u, i)}) && i + 1 < sizes && SameSum(free0, b0, free, Block(u, i))
      requires Total(lists[..], 0) + Pow2(i) == total
      modifies this`free, lists
      ensures Core({Block(block, index)}) && SameSum(free0, b0, free, Block(block, index))
      ensures Total(lists[..], 0) + Pow2(index) == total
      ensures index == (if more then i + 1 else i) && (!more ==> Block(block, index).Buddy() !in free)
      ensures OneListChanged(old(lists[..]), lists[..], i) && (!more ==> lists[..] == old(lists[..]))
      ensures Inside(Block(u, i), Block(block, index))
    {
      assert Block(u, i) in free + used + {Block(u, i)};
      Halves(Block(u, i));
      var newBlock;
      more, newBlock := Round(u, i, free0, b0);
      block, index := if more then newBlock else u, if more then i + 1 else i;
    }

    /** The loop of `free`: the block in hand is merged as far as possible and becomes free. */
    method Coalesce(u: nat, i: nat)
      requires Core({Block(u, i)})
      modifies this`free, lists, freeMap, header
      ensures Core({}) && Gains(old(free), free, Block(u, i))
      ensures exists c :: PutInFront(old(lists[..]), lists[..], Block(u, i), c)
      ensures Total(lists[..], 0) == old(Total(lists[..], 0)) + Pow2(i)
    {
      ghost var lists0 := lists[..];
      ghost var f0, total, b := free, Total(lists[..], 0) + Pow2(i), Block(u, i);
      assert b in free + used + {b};
      var block, index, more := u, i, true;
      while more && index + 1 < sizes
        invariant index < sizes && Core({Block(block, index)})
        invariant SameSum(f0, b, free, Block(block, index))
        invariant Total(lists[..], 0) + Pow2(index) == total
        invariant !more ==> Block(block, index).Buddy() !in free
        invariant Inside(b, Block(block, index)) && SameFrom(lists0, lists[..], i, index)
        decreases sizes - index, more
      {
        block, index, more := NextRound(block, index, f0, b, total);
      }
      LinkMerged(block, index, f0, b);
      assert PutInFront(lists0, lists[..], b, Block(block, index));
    }

    /** An outstanding or new block comes into the hand. */
    ghost method Surrender(b: Block)
      requires Valid() && Freeable(b)
      modifies this`used
      ensures Core({b}) && used == old(used) - {b}
      ensures b.End() <= cap && forall x: int :: b.Has(x) ==> !Covers(free, x)
    {
      PartitionRelease(free, used, sizes, cap, b);
      CoversMore(free, used, used - {b}, b);
      used := used - {b};
      NotFreeYet(free, used, sizes, cap, b);
    }

    /**
      `free` for the block of order `i` at unit `u`, which is either outstanding or new memory: the block
      becomes free, and is merged as far as possible.
     */
    method FreeBlock(u: nat, i: nat)
      requires Valid() && Freeable(Block(u, i))
      modifies this, lists, freeMap, header
      ensures Valid() && used == old(used) - {Block(u, i)} && Gains(old(free), free, Block(u, i))
      ensures Total(lists[..], 0) == old(Total(lists[..], 0)) + Pow2(i)
      ensures exists c :: PutInFront(old(lists[..]), lists[..], Block(u, i), c)
    {
      NotMarked(Block(u, i));
      assert !freeMap[u];
      Surrender(Block(u, i));
      Coalesce(u, i);
      UnitsGrow(old(free), free, cap, Block(u, i));
    }

    /** `free` as a step of the histories. */
    method FreeUsed(u: nat, i: nat)
      requires Valid() && Block(u, i) in used
      modifies this, lists, freeMap, header
      ensures Valid() && used == old(used) - {Block(u, i)} && Gains(old(free), free, Block(u, i))
      ensures Total(lists[..], 0) == old(Total(lists[..], 0)) + Pow2(i)
      ensures History.Step(old(Books()), History.Free(Block(u, i)), Books(), sizes)
      ensures exists c :: PutInFront(old(lists[..]), lists[..], Block(u, i), c)
    {
      PartitionSound(free, used, sizes, cap);
      FreeBlock(u, i);
      PartitionSound(free, used, sizes, cap);
    }

    ghost predicate Freeable(b: Block)
      reads this
    {
      b in used || (b.Aligned() && b.order < sizes && b.End() <= cap && forall c :: c in free + used ==> Apart(c, b))
    }

    /** The bit of a block that may be freed is clear, as the source asserts. */
    lemma NotMarked(b: Block)
      requires Core({}) && Freeable(b)
      ensures b.start < freeMap.Length && !freeMap[b.start]
    {
      if b !in used {
        IndicesInBitmap(freeMap.Length, cap, sizes, b);
        assert forall c :: c in free + used + {} ==> !c.Has(b.start);
        assert freeMap[..][b.start] == freeMap[b.start];
      }
    }

    /** `split`: mark and list the upper halves of the block at `f`, from order `lo` to below `hi`. */
    method Split(f: nat, lo: nat, hi: nat)
      requires Shape() && lo <= hi < sizes && f + Pow2(hi) <= freeMap.Length
      modifies lists, freeMap, header
      ensures lists[..] == SplitLists(old(lists[..]), f, lo, hi)
      ensures freeMap[..] == SplitBits(old(freeMap[..]), f, lo, hi)
      ensures header[..] == SplitHeader(old(header[..]), f, lo, hi)
    {
      ghost var lists0, bits0, header0 := lists[..], freeMap[..], header[..];
      var j := lo;
      Pow2Monotone(lo, hi);
      while j < hi
        invariant lo <= j <= hi && f + Pow2(j) <= freeMap.Length
        invariant lists[..] == SplitLists(lists0, f, lo, j)
        invariant freeMap[..] == SplitBits(bits0, f, lo, j)
        invariant header[..] == SplitHeader(header0, f, lo, j)
      {
        Pow2Monotone(j + 1, hi);
        SplitLink(f + Pow2(j), j);
        j := j + 1;
      }
      assert j == hi;
    }

    /** `Head::link` and the bit that goes with it. */
    method SplitLink(buddy: nat, j: nat)
      requires Shape() && j < sizes && buddy < freeMap.Length
      modifies lists, freeMap, header
      ensures lists[..] == old(lists[..])[j := [buddy] + old(lists[..])[j]]
      ensures freeMap[..] == old(freeMap[..])[buddy := true] && header[..] == old(header[..])[buddy := j]
    {
      header[buddy] := j;
      lists[j] := [buddy] + lists[j];
      freeMap[buddy] := true;
    }

    /** Take the front block of list `i` and cut it down to order `lo`. */
    method TakeFront(lo: nat, i: nat) returns (f: nat)
      requires Valid() && lo <= i < sizes && lists[i] != []
      modifies this, lists, freeMap, header
      ensures Valid()
      ensures Block(f, lo).Aligned() && WhollyFree(old(free), Block(f, lo))
      ensures Block(f, lo) !in old(used) && used == old(used) + {Block(f, lo)}
      ensures forall x: int :: Covers(free, x) <==> old(Covers(free, x)) && !Block(f, lo).Has(x)
      ensures Total(lists[..], 0) == old(Total(lists[..], 0)) - Pow2(lo)
      ensures f == old(lists[i])[0]
      ensures lists[..] == SplitLists(old(lists[..])[i := old(lists[i])[1..]], f, lo, i)
    {
      f := lists[i][0];
      ghost var b, free0, lists0 := Block(f, i), free, lists[..];
      assert lists0[i] == lists[i] && f in lists[i] && b in free;
      CutFacts(free, used, sizes, cap, b, lo);
      TakenLists(lists0, free, f, lo, i);
      TakenBlocks(freeMap[..], header[..], free, used, sizes, cap, b, lo);
      lists[i] := lists[i][1..];
      assert lists[..] == lists0[i := Without(lists0[i], f)];
      Split(f, lo, i);
      freeMap[f] := false;
      free, used := free - {b} + Uppers(f, lo, i), used + {Block(f, lo)};
      UnitsShrink(free0, free, cap, Block(f, lo));
    }

    /** The order for a size: the least one whose blocks are large enough. */
    method OrderFor(size: nat) returns (k: nat)
      requires minSize >= 1
      ensures IsOrderFor(minSize, size, k)
    {
      k := 0;
      while minSize * Pow2(k) < size
        invariant k > 0 ==> minSize * Pow2(k - 1) < size
        decreases size - minSize * Pow2(k)
      {
        Doubles(minSize, k);
        k := k + 1;
      }
    }

    /** A block of order `lo` from the list of order `i`, the first from there on that is not empty. */
    method TakeFirst(lo: nat, i: nat) returns (addr: nat, ghost b: Block)
      requires Valid() && lo <= i < sizes && lists[i] != [] && forall j :: lo <= j < i ==> lists[j] == []
      modifies this, lists, freeMap, header
      ensures Valid() && b.order == lo && addr == base + b.start * minSize
      ensures b.Aligned() && WhollyFree(old(free), b) && b !in old(used) && used == old(used) + {b}
      ensures forall x: int :: Covers(free, x) <==> old(Covers(free, x)) && !b.Has(x)
      ensures Total(lists[..], 0) == old(Total(lists[..], 0)) - Pow2(b.order)
      ensures History.Step(old(Books()), History.Alloc(b), Books(), sizes)
      ensures minSize * Pow2(b.order) >= 1 && Multiple(addr, minSize * Pow2(b.order))
      ensures BytesTaken(old(free), free, minSize, base, addr, minSize * Pow2(b.order))
      ensures TakenFrom(old(lists[..]), lists[..], b, i)
    {
      PartitionSound(free, used, sizes, cap);
      SplitFirst(lists[..], lo, i);
      var f := TakeFront(lo, i);
      PartitionSound(free, used, sizes, cap);
      addr, b := AddressOf(f), Block(f, lo);
      RegionTaken(old(free), free, b);
    }

    /**
      `alloc`: null exactly if no aligned region of the size class is wholly free; otherwise such a region,
      which stops being free and is outstanding from now on, and nothing else changes.
     */
    method Alloc(size: nat) returns (r: Option<nat>, ghost b: Block)
      requires Valid()
      modifies this, lists, freeMap, header
      ensures Valid() && IsOrderFor(minSize, size, b.order)
      ensures r.None? <==>
                (b.order >= sizes || forall x: Block :: x.Aligned() && x.order == b.order ==> !WhollyFree(old(free), x))
      ensures r.None? ==> free == old(free) && used == old(used) && lists[..] == old(lists[..])
      ensures r.Some? ==>
                && r.value == base + b.start * minSize
                && b.Aligned() && WhollyFree(old(free), b) && b !in old(used) && used == old(used) + {b}
                && (forall x: int :: Covers(free, x) <==> old(Covers(free, x)) && !b.Has(x))
                && Total(lists[..], 0) == old(Total(lists[..], 0)) - Pow2(b.order)
                && History.Step(old(Books()), History.Alloc(b), Books(), sizes)
      ensures r.Some? ==> minSize * Pow2(b.order) >= 1 && Multiple(r.value, minSize * Pow2(b.order))
      ensures r.Some? ==> BytesTaken(old(free), free, minSize, base, r.value, minSize * Pow2(b.order))
      ensures r.Some? ==> exists i | b.order <= i < sizes :: TakenFrom(old(lists[..]), lists[..], b, i)
    {
      var k := OrderFor(size);
      var i := k;
      while i < sizes && lists[i] == []
        invariant k <= i && (i <= sizes || i == k)
        invariant forall j :: k <= j < i ==> j < sizes && lists[j] == []
      {
        i := i + 1;
      }
      if i < sizes {
        var addr;
        addr, b := TakeFirst(k, i);
        return Some(addr), b;
      }
      if k < sizes {
        forall x: Block | x.Aligned() && x.order == k ensures !WhollyFree(free, x) {
          NothingLeft(x);
        }
      }
      return None, Block(0, k);
    }

    /** The region of a block that is taken out of the free memory. */
    lemma RegionTaken(free0: set<Block>, free1: set<Block>, b: Block)
      requires BaseFits() && b.Aligned() && b.order < sizes && WhollyFree(free0, b)
      requires forall x: int :: Covers(free1, x) <==> Covers(free0, x) && !b.Has(x)
      ensures minSize * Pow2(b.order) >= 1 && Multiple(AddressOf(b.start), minSize * Pow2(b.order))
      ensures BytesTaken(free0, free1, minSize, base, AddressOf(b.start), minSize * Pow2(b.order))
    {
      AddressIsMultiple(minSize, base, sizes, b);
      BlockTaken(free0, free1, minSize, base, b);
    }

    /** No byte belongs to the regions of two outstanding blocks. */
    lemma OutstandingApart(b: Block, c: Block, a: nat)
      requires Valid() && b in used && c in used && b != c
      ensures !(InRegion(base + b.start * minSize, minSize * Pow2(b.order), a)
                && InRegion(base + c.start * minSize, minSize * Pow2(c.order), a))
    {
      assert b in free + used + {} && c in free + used + {};
      RegionsApart(minSize, base, b, c, a);
    }

    /** A byte of an outstanding block's region is not free. */
    lemma OutstandingNotFree(b: Block, a: nat)
      requires Valid() && b in used && InRegion(base + b.start * minSize, minSize * Pow2(b.order), a)
      ensures !ByteIn(free, minSize, base, a)
    {
      var x := RegionHasUnit(minSize, base, b, a);
      forall c | c in free ensures !c.Has(x) {
        assert b in free + used + {} && c in free + used + {};
        assert Apart(b, c);
      }
      if ByteIn(free, minSize, base, a) {
        var y: int :| Covers(free, y) && InUnit(minSize, base, a, y);
        UnitUnique(minSize, base, a, x, y);
        assert false;
      }
    }

    /** With the lists from some order on empty, no region of that order is wholly free. */
    lemma NothingLeft(x: Block)
      requires Valid() && x.Aligned() && x.order < sizes
      requires forall j :: x.order <= j < sizes ==> lists[j] == []
      ensures !WhollyFree(free, x)
    {
      if WhollyFree(free, x) {
        TilingSubset(free, free + used + {}, sizes);
        var b := FreeRegionIsInOneBlock(free, sizes, x);
        InsideOrder(x, b);
        FreeIsListed(lists[..], free, b);
        assert false;
      }
    }

    /** `free` for an outstanding block, given with the size it was allocated for. */
    method Free(addr: nat, size: nat, ghost b: Block)
      requires Valid() && b in used && addr == base + b.start * minSize && IsOrderFor(minSize, size, b.order)
      modifies this, lists, freeMap, header
      ensures Valid() && used == old(used) - {b} && Gains(old(free), free, b)
      ensures Total(lists[..], 0) == old(Total(lists[..], 0)) + Pow2(b.order)
      ensures History.Step(old(Books()), History.Free(b), Books(), sizes)
      ensures BytesGiven(old(free), free, minSize, base, addr, minSize * Pow2(b.order))
      ensures exists c :: PutInFront(old(lists[..]), lists[..], b, c)
    {
      var u, k := BlockAt(addr, size, b);
      FreeUsed(u, k);
      BlockGiven(old(free), free, minSize, base, b);
    }

    /** The unit and the order that `free` computes. */
    method BlockAt(addr: nat, size: nat, ghost b: Block) returns (u: nat, k: nat)
      requires minSize >= 1 && addr == base + b.start * minSize && IsOrderFor(minSize, size, b.order)
      ensures u == b.start && k == b.order
    {
      k := OrderFor(size);
      OrderUnique(minSize, size, k, b.order);
      UnitOfAddress(minSize, base, b.start);
      u := UnitOf(minSize, base, addr);
    }

    /**
      `add_mem`: the whole units of the given memory become free.  They have to lie in the range that the
      allocator was set up for and must not be managed yet.
     */
    method AddMem(start: nat, size: nat)
      requires Valid() && start >= base
      requires var (u, n) := UnitRange(minSize, base, start, size);
               (n > 0 ==> u + n <= cap) && forall x: int :: u <= x < u + n ==> !Covers(free + used, x)
      modifies this, lists, freeMap, header
      ensures Valid() && used == old(used)
      ensures forall x: nat :: Covers(free, x) <==>
                                 old(Covers(free, x)) || UnitWithin(minSize, base, start, size, x)
    {
      var units := UnitRange(minSize, base, start, size);
      AddUnits(units.0, units.1);
      forall x: nat
        ensures units.0 <= x < units.0 + units.1 <==> UnitWithin(minSize, base, start, size, x)
      {
        AddedUnits(minSize, base, start, size, x);
      }
    }

    /** The loop of `add_mem`, counting in units. */
    method AddUnits(u: nat, n: nat)
      requires Valid()
      requires n > 0 ==> u + n <= cap
      requires forall x: int :: u <= x < u + n ==> !Covers(free + used, x)
      modifies this, lists, freeMap, header
      ensures Valid() && used == old(used)
      ensures forall x: int :: Covers(free, x) <==> old(Covers(free, x)) || u <= x < u + n
    {
      ghost var free0 := free;
      var v := u;
      while v < u + n
        invariant u <= v <= u + n
        invariant Valid() && used == old(used)
        invariant forall x: int :: Covers(free, x) <==> Covers(free0, x) || u <= x < v
      {
        NewUnitIsApart(free, used, free0, v);
        NotInUsed(free0, used, v);
        FreeBlock(v, 0);
        v := v + 1;
      }
    }

    /** `avail`: the bytes of free memory. */
    method Avail() returns (a: nat)
      requires Valid()
      ensures a == minSize * |FreeUnits(free, cap)|
    {
      a := CountBytes();
      BytesScale(lists[..], minSize, 0);
    }

    /** The loops of `avail`. */
    method CountBytes() returns (a: nat)
      requires lists.Length == sizes
      ensures a == Bytes(lists[..], minSize, 0)
    {
      a := 0;
      var i := 0;
      while i < sizes
        invariant 0 <= i <= sizes
        invariant a + Bytes(lists[..], minSize, i) == Bytes(lists[..], minSize, 0)
      {
        var h, size := lists[i], minSize * Pow2(i);
        ghost var a0 := a;
        while h != []
          invariant a + Weight(h, size) == a0 + Weight(lists[i], size)
        {
          a := a + size;
          h := h[1..];
        }
        i := i + 1;
      }
    }
  }
}
