/**
  The boot-time allocator: best fit over a list of free blocks, refilled with chunks from the kernel
  memory allocator.  Memory is never given back.  Sizes and addresses are unbounded.
 */
module BootAlloc {
  import Dyadic
  import opened Multiples
  import opened Wrappers

  /** A free block, or memory that was handed out. */
  datatype Block = Block(addr: nat, size: nat) {
    function End(): nat { addr + size }
  }

  predicate Apart(a: Block, b: Block) {
    a.End() <= b.addr || b.End() <= a.addr
  }

  predicate Inside(a: Block, b: Block) {
    b.addr <= a.addr && a.End() <= b.End()
  }

  /** Memory handed out: the size asked for, its rounded size, and the bytes behind it that were given up. */
  datatype Use = Use(addr: nat, asked: nat, rounded: nat, tail: nat) {
    function Extent(): Block { Block(addr, rounded + tail) }
  }

  predicate AllApart(s: seq<Block>) {
    forall i, j :: 0 <= i < j < |s| ==> Apart(s[i], s[j])
  }

  predicate UsesApart(u: seq<Use>) {
    forall i, j :: 0 <= i < j < |u| ==> Apart(u[i].Extent(), u[j].Extent())
  }

  predicate FreeApart(s: seq<Block>, u: seq<Use>) {
    forall i, j :: 0 <= i < |s| && 0 <= j < |u| ==> Apart(s[i], u[j].Extent())
  }

  predicate InSome(b: Block, chunks: seq<Block>) {
    exists i :: 0 <= i < |chunks| && Inside(b, chunks[i])
  }

  // ----- sizes

  /** The least multiple of `k` that is not below `x`. */
  function RoundUp(x: nat, k: nat): (r: nat)
    requires k > 0
    ensures x <= r < x + k
    decreases x
  {
    if x == 0 then 0 else if x <= k then k else k + RoundUp(x - k, k)
  }

  lemma {:induction false} RoundUpLeast(x: nat, k: nat, m: nat)
    requires k > 0 && Multiple(m, k) && x <= m
    ensures RoundUp(x, k) <= m && Multiple(RoundUp(x, k), k)
    decreases x
  {
    if x > k { RoundUpLeast(x - k, k, m - k); }
  }

  lemma {:induction false} RoundUpFrom(a: nat, x: nat, k: nat)
    requires k > 0 && Multiple(a, k)
    ensures RoundUp(a + x, k) == a + RoundUp(x, k)
    decreases a
  {
    if a != 0 { RoundUpFrom(a - k, x, k); }
  }

  /** What rounding, cutting off and dropping the rest do to one block. */
  lemma {:induction false} Cut(b: Block, size: nat, k: nat)
    requires k > 0 && Multiple(b.addr, k) && Multiple(b.size, k) && size <= b.size
    ensures var rest := b.addr + RoundUp(size, k);
            && rest == RoundUp(b.addr + size, k) && size <= RoundUp(size, k) <= b.size
            && Multiple(rest, k) && Multiple(b.End() - rest, k)
  {
    RoundUpFrom(b.addr, size, k);
    RoundUpLeast(size, k, b.size);
    MultipleSum(b.addr, RoundUp(size, k), k);
    MultipleSum(RoundUp(size, k), b.size - RoundUp(size, k), k);
  }

  function Total(s: seq<Block>): nat {
    if s == [] then 0 else s[0].size + Total(s[1..])
  }

  lemma {:induction false} TotalUpdate(s: seq<Block>, i: nat, b: Block)
    requires i < |s|
    ensures Total(s[i := b]) == Total(s) - s[i].size + b.size
  {
    if i > 0 {
      assert s[i := b][1..] == s[1..][i - 1 := b];
      TotalUpdate(s[1..], i - 1, b);
    } else {
      assert s[i := b][1..] == s[1..];
    }
  }

  lemma {:induction false} TotalErase(s: seq<Block>, i: nat)
    requires i < |s|
    ensures Total(s[..i] + s[i + 1..]) == Total(s) - s[i].size
  {
    var e := s[..i] + s[i + 1..];
    if i > 0 {
      assert e[1..] == s[1..][..i - 1] + s[1..][i..];
      TotalErase(s[1..], i - 1);
    } else {
      assert e == s[1..];
    }
  }

  function Rounded(u: seq<Use>): nat {
    if u == [] then 0 else Rounded(u[..|u| - 1]) + u[|u| - 1].rounded
  }

  function Tails(u: seq<Use>): nat {
    if u == [] then 0 else Tails(u[..|u| - 1]) + u[|u| - 1].tail
  }

  /** The size of the chunk that is asked for: doubled until it is enough. */
  function ChunkSize(size: nat, least: nat): (r: nat)
    requires least > 0
    ensures r >= size && r >= least
    decreases size - least
  {
    if least >= size then least else ChunkSize(size, 2 * least)
  }

  /** It is a multiple of the header, and less than twice what is needed. */
  lemma DoubledFirst(least: nat, j: nat)
    ensures least * Dyadic.Pow2(j + 1) == 2 * least * Dyadic.Pow2(j)
  {}

  /** The chunk is the first of `least`, `2 * least`, `4 * least`, ... that is large enough. */
  lemma {:induction false} ChunkIsDoubled(size: nat, least: nat) returns (k: nat)
    requires least > 0
    ensures ChunkSize(size, least) == least * Dyadic.Pow2(k)
    ensures k > 0 ==> least * Dyadic.Pow2(k - 1) < size
    decreases size - least
  {
    if least >= size {
      k := 0;
    } else {
      var h := ChunkIsDoubled(size, 2 * least);
      DoubledFirst(least, h);
      if h > 0 { DoubledFirst(least, h - 1); }
      k := h + 1;
    }
  }

  lemma {:induction false} ChunkFits(size: nat, least: nat, k: nat)
    requires least > 0 && k > 0 && Multiple(least, k)
    ensures Multiple(ChunkSize(size, least), k)
    ensures ChunkSize(size, least) == least || ChunkSize(size, least) < 2 * size
    decreases size - least
  {
    if least < size {
      MultipleSum(least, least, k);
      ChunkFits(size, 2 * least, k);
    }
  }

  // ----- the invariant, on values

  predicate Sized(b: Block, header: nat)
    requires header > 0
  {
    Multiple(b.addr, header) && Multiple(b.size, header) && b.size > header
  }

  ghost predicate Sound(header: nat, free: seq<Block>, uses: seq<Use>, chunks: seq<Block>) {
    && header > 0 && Multiple(1024, header) && header < 1024
    && FreeOk(free, header, chunks) && UsesOk(uses, header, chunks) && FreeApart(free, uses) && AllApart(chunks)
    && Total(chunks) == Rounded(uses) + Tails(uses) + Total(free)
  }

  lemma {:induction false} UsesSnoc(u: seq<Use>, x: Use)
    ensures Rounded(u + [x]) == Rounded(u) + x.rounded && Tails(u + [x]) == Tails(u) + x.tail
  {
    assert (u + [x])[..|u|] == u;
  }

  lemma {:induction false} TotalSnoc(s: seq<Block>, b: Block)
    ensures Total(s + [b]) == Total(s) + b.size
  {
    if s != [] {
      assert (s + [b])[1..] == s[1..] + [b];
      TotalSnoc(s[1..], b);
    } else {
      assert s + [b] == [b];
    }
  }

  /** What a use leaves of its block. */
  function Rest(b: Block, size: nat, header: nat): Block
    requires header > 0 && RoundUp(size, header) <= b.size
  {
    Block(b.addr + RoundUp(size, header), b.size - RoundUp(size, header))
  }

  lemma InsideApart(a: Block, b: Block, c: Block)
    requires Inside(a, b) && Apart(b, c)
    ensures Apart(a, c) && Apart(c, a)
  {}

  lemma InsideSome(a: Block, b: Block, chunks: seq<Block>)
    requires Inside(a, b) && InSome(b, chunks)
    ensures InSome(a, chunks)
  {
    var k :| 0 <= k < |chunks| && Inside(b, chunks[k]);
    assert Inside(a, chunks[k]);
  }

  predicate FreeOk(free: seq<Block>, header: nat, chunks: seq<Block>)
    requires header > 0
  {
    && (forall i :: 0 <= i < |free| ==> Sized(free[i], header) && InSome(free[i], chunks))
    && AllApart(free)
  }

  predicate UsesOk(uses: seq<Use>, header: nat, chunks: seq<Block>) {
    && (forall i :: 0 <= i < |uses| ==>
          uses[i].asked <= uses[i].rounded && uses[i].tail <= header && InSome(uses[i].Extent(), chunks))
    && UsesApart(uses)
  }

  lemma WiderSome(x: Block, chunks: seq<Block>, b: Block)
    requires InSome(x, chunks) && forall i :: 0 <= i < |chunks| ==> Apart(chunks[i], b)
    ensures InSome(x, chunks + [b]) && Apart(b, x)
  {
    var i :| 0 <= i < |chunks| && Inside(x, chunks[i]);
    assert (chunks + [b])[i] == chunks[i];
  }

  lemma {:induction false} ChunkFree(free: seq<Block>, header: nat, chunks: seq<Block>, b: Block)
    requires header > 0 && FreeOk(free, header, chunks) && Sized(b, header)
    requires forall i :: 0 <= i < |chunks| ==> Apart(chunks[i], b)
    ensures FreeOk([b] + free, header, chunks + [b])
  {
    assert (chunks + [b])[|chunks|] == b && Inside(b, b);
    forall i | 0 <= i < |free| ensures InSome(free[i], chunks + [b]) && Apart(b, free[i]) {
      WiderSome(free[i], chunks, b);
    }
  }

  lemma {:induction false} ChunkUses(uses: seq<Use>, header: nat, chunks: seq<Block>, b: Block)
    requires UsesOk(uses, header, chunks) && forall i :: 0 <= i < |chunks| ==> Apart(chunks[i], b)
    ensures UsesOk(uses, header, chunks + [b])
    ensures forall i :: 0 <= i < |uses| ==> Apart(b, uses[i].Extent())
  {
    forall i | 0 <= i < |uses| ensures InSome(uses[i].Extent(), chunks + [b]) && Apart(b, uses[i].Extent()) {
      WiderSome(uses[i].Extent(), chunks, b);
    }
  }

  /** A new chunk, apart from the others, is apart from everything. */
  lemma {:induction false} AddChunk(header: nat, free: seq<Block>, uses: seq<Use>, chunks: seq<Block>, b: Block)
    requires Sound(header, free, uses, chunks) && Sized(b, header)
    requires forall i :: 0 <= i < |chunks| ==> Apart(chunks[i], b)
    ensures Sound(header, [b] + free, uses, chunks + [b])
  {
    TotalSnoc(chunks, b);
    assert ([b] + free)[1..] == free;
    ChunkFree(free, header, chunks, b);
    ChunkUses(uses, header, chunks, b);
  }

  /** Shrinking one free block. */
  lemma {:induction false} Shrink(free: seq<Block>, header: nat, chunks: seq<Block>, i: nat, rest: Block)
    requires header > 0 && FreeOk(free, header, chunks) && i < |free| && Inside(rest, free[i]) && Sized(rest, header)
    ensures FreeOk(free[i := rest], header, chunks)
  {
    InsideSome(rest, free[i], chunks);
    var free' := free[i := rest];
    forall j, k | 0 <= j < k < |free'| ensures Apart(free'[j], free'[k]) {
      assert Apart(free[j], free[k]);
    }
  }

  function Erase(free: seq<Block>, i: nat): (r: seq<Block>)
    requires i < |free|
    ensures |r| == |free| - 1 && forall j :: 0 <= j < |r| ==> r[j] == free[if j < i then j else j + 1]
  {
    free[..i] + free[i + 1..]
  }

  lemma {:induction false} Removed(free: seq<Block>, header: nat, chunks: seq<Block>, i: nat)
    requires header > 0 && FreeOk(free, header, chunks) && i < |free|
    ensures FreeOk(Erase(free, i), header, chunks)
  {
    var free' := Erase(free, i);
    forall j, k | 0 <= j < k < |free'| ensures Apart(free'[j], free'[k]) {
      assert Apart(free[if j < i then j else j + 1], free[if k < i then k else k + 1]);
    }
  }

  /** A use of memory in a free block. */
  lemma {:induction false} Used(free: seq<Block>, uses: seq<Use>, header: nat, chunks: seq<Block>, i: nat, u: Use)
    requires header > 0 && FreeOk(free, header, chunks) && UsesOk(uses, header, chunks) && FreeApart(free, uses)
    requires i < |free| && Inside(u.Extent(), free[i]) && u.asked <= u.rounded && u.tail <= header
    ensures UsesOk(uses + [u], header, chunks)
  {
    InsideSome(u.Extent(), free[i], chunks);
    var uses' := uses + [u];
    forall j, k | 0 <= j < k < |uses'| ensures Apart(uses'[j].Extent(), uses'[k].Extent()) {
      if k == |uses| {
        InsideApart(u.Extent(), free[i], uses[j].Extent());
      } else {
        assert Apart(uses[j].Extent(), uses[k].Extent());
      }
    }
  }

  /** The free blocks stay apart from the uses, old and new. */
  lemma {:induction false} ApartAfter(free: seq<Block>, uses: seq<Use>, i: nat, u: Use, free': seq<Block>)
    requires AllApart(free) && FreeApart(free, uses) && i < |free| && Inside(u.Extent(), free[i])
    requires forall j :: 0 <= j < |free'| ==> Remains(free'[j], free, i, u.Extent())
    ensures FreeApart(free', uses + [u])
  {
    var uses' := uses + [u];
    forall j, k | 0 <= j < |free'| && 0 <= k < |uses'| ensures Apart(free'[j], uses'[k].Extent()) {
      assert Remains(free'[j], free, i, u.Extent());
      var l :| 0 <= l < |free| && Inside(free'[j], free[l]) && (l == i ==> Apart(free'[j], u.Extent()));
      if k < |uses| {
        InsideApart(free'[j], free[l], uses[k].Extent());
      } else if l != i {
        assert Apart(free[l], free[i]) by {
          if l < i { assert Apart(free[l], free[i]); } else { assert Apart(free[i], free[l]); }
        }
        InsideApart(u.Extent(), free[i], free[l]);
        InsideApart(free'[j], free[l], u.Extent());
      }
    }
  }

  /** A block is what remains of some free block when an extent of block `i` is used. */
  predicate Remains(b: Block, free: seq<Block>, i: nat, extent: Block) {
    exists l :: 0 <= l < |free| && Inside(b, free[l]) && (l == i ==> Apart(b, extent))
  }

  lemma {:induction false} TakeFront(header: nat, free: seq<Block>, uses: seq<Use>, chunks: seq<Block>,
                                     i: nat, size: nat)
    requires Sound(header, free, uses, chunks) && i < |free| && size <= free[i].size
    ensures RoundUp(size, header) <= free[i].size
    ensures var rest := Rest(free[i], size, header);
            rest.size > header ==>
              Sound(header, free[i := rest], uses + [Use(free[i].addr, size, RoundUp(size, header), 0)], chunks)
  {
    var b := free[i];
    Cut(b, size, header);
    var (rest, use) := (Rest(b, size, header), Use(b.addr, size, RoundUp(size, header), 0));
    if rest.size > header {
      UsesSnoc(uses, use);
      TotalUpdate(free, i, rest);
      Shrink(free, header, chunks, i, rest);
      Used(free, uses, header, chunks, i, use);
      var free' := free[i := rest];
      forall j | 0 <= j < |free'| ensures Remains(free'[j], free, i, use.Extent()) {
        assert Inside(free'[j], free[j]);
      }
      ApartAfter(free, uses, i, use, free');
    }
  }

  lemma {:induction false} TakeAll(header: nat, free: seq<Block>, uses: seq<Use>, chunks: seq<Block>, i: nat, size: nat)
    requires Sound(header, free, uses, chunks) && i < |free| && size <= free[i].size
    ensures RoundUp(size, header) <= free[i].size
    ensures var rest := Rest(free[i], size, header);
            rest.size <= header ==>
              Sound(header, Erase(free, i), uses + [Use(free[i].addr, size, RoundUp(size, header), rest.size)], chunks)
  {
    var b := free[i];
    Cut(b, size, header);
    var rest := Rest(b, size, header);
    if rest.size <= header {
      var (use, free') := (Use(b.addr, size, RoundUp(size, header), rest.size), Erase(free, i));
      UsesSnoc(uses, use);
      TotalErase(free, i);
      Removed(free, header, chunks, i);
      Used(free, uses, header, chunks, i, use);
      forall j | 0 <= j < |free'| ensures Remains(free'[j], free, i, use.Extent()) {
        assert Inside(free'[j], free[if j < i then j else j + 1]);
      }
      ApartAfter(free, uses, i, use, free');
    }
  }

  ghost function TakenFree(header: nat, free: seq<Block>, i: nat, size: nat): seq<Block>
    requires header > 0 && i < |free| && RoundUp(size, header) <= free[i].size
  {
    var rest := Rest(free[i], size, header);
    if rest.size > header then free[i := rest] else Erase(free, i)
  }

  ghost function TakenUse(header: nat, free: seq<Block>, i: nat, size: nat): Use
    requires header > 0 && i < |free| && RoundUp(size, header) <= free[i].size
  {
    var rest := Rest(free[i], size, header);
    Use(free[i].addr, size, RoundUp(size, header), if rest.size > header then 0 else rest.size)
  }

  lemma {:induction false} Taken(header: nat, free: seq<Block>, uses: seq<Use>, chunks: seq<Block>, i: nat, size: nat)
    requires Sound(header, free, uses, chunks) && i < |free| && size <= free[i].size
    ensures RoundUp(size, header) <= free[i].size
    ensures RoundUp(free[i].addr + size, header) == free[i].addr + RoundUp(size, header)
    ensures Sound(header, TakenFree(header, free, i, size), uses + [TakenUse(header, free, i, size)], chunks)
  {
    Cut(free[i], size, header);
    if Rest(free[i], size, header).size > header {
      TakeFront(header, free, uses, chunks, i, size);
    } else {
      TakeAll(header, free, uses, chunks, i, size);
    }
  }

  // ----- the allocator

  class BootAlloc {
    /** `sizeof(Block)`. */
    const header: nat
    var free: seq<Block>

    /** The chunks taken from the kernel allocator, and the memory handed out, in order. */
    ghost var chunks: seq<Block>
    ghost var uses: seq<Use>

    ghost predicate Valid()
      reads this
    {
      Sound(header, free, uses, chunks)
    }

    constructor (h: nat)
      requires 0 < h < 1024 && Multiple(1024, h)
      ensures Valid() && header == h && free == [] && uses == [] && chunks == []
    {
      header := h;
      free, chunks, uses := [], [], [];
    }

    /** The first of the smallest blocks that are large enough. */
    method BestFit(size: nat) returns (best: Option<nat>)
      ensures best == None <==> forall i :: 0 <= i < |free| ==> free[i].size < size
      ensures best.Some? ==> IsBest(free, best.value, size)
    {
      best := None;
      for i := 0 to |free|
        invariant best == None <==> forall j :: 0 <= j < i ==> free[j].size < size
        invariant best.Some? ==>
                    && best.value < i && free[best.value].size >= size
                    && (forall j :: 0 <= j < i && free[j].size >= size ==> free[best.value].size <= free[j].size)
                    && (forall j :: 0 <= j < best.value && free[j].size >= size ==>
                          free[best.value].size < free[j].size)
      {
        if (best == None || free[i].size < free[best.value].size) && free[i].size >= size {
          best := Some(i);
        }
      }
    }

    method NewChunkSize(size: nat) returns (n: nat)
      ensures n == ChunkSize(size, 1024) && IsChunkSize(n, size)
    {
      n := 1024;
      while n < size
        invariant n > 0 && ChunkSize(size, 1024) == ChunkSize(size, n)
        decreases size - n
      {
        n := 2 * n;
      }
      ghost var k := ChunkIsDoubled(size, 1024);
    }

    /** Cuts the region off the front of a block; what is left stays free if it can hold more than a header. */
    method CutOff(best: nat, size: nat) returns (addr: nat)
      requires header > 0 && best < |free| && RoundUp(size, header) <= free[best].size
      requires RoundUp(free[best].addr + size, header) == free[best].addr + RoundUp(size, header)
      modifies this`free, this`uses
      ensures addr == old(free)[best].addr && free == TakenFree(header, old(free), best, size)
      ensures CutBy(old(free), free, best, RoundUp(size, header), header)
      ensures uses == old(uses) + [TakenUse(header, old(free), best, size)]
    {
      var b := free[best];
      var rest := RoundUp(b.addr + size, header);
      var left := b.End() - rest;
      assert Block(rest, left) == Rest(b, size, header);
      TakenIsCut(header, free, best, size);
      uses := uses + [TakenUse(header, free, best, size)];
      if left > header {
        free := free[best := Block(rest, left)];
      } else {
        free := Erase(free, best);
      }
      return b.addr;
    }

    method Take(best: nat, size: nat) returns (addr: nat)
      requires Valid() && best < |free| && size <= free[best].size
      modifies this`free, this`uses
      ensures Valid() && addr == old(free)[best].addr
      ensures CutBy(old(free), free, best, RoundUp(size, header), header)
      ensures exists tail :: uses == old(uses) + [Use(addr, size, RoundUp(size, header), tail)]
    {
      Taken(header, free, uses, chunks, best, size);
      ghost var use := TakenUse(header, free, best, size);
      addr := CutOff(best, size);
      assert use == Use(addr, size, RoundUp(size, header), use.tail);
    }

    /**
      `kmem` is what the kernel allocator returns if asked for the chunk: no memory, or memory that is
      aligned and apart from all earlier chunks.
     */
    method Alloc(size: nat, kmem: Option<nat>) returns (r: Option<nat>)
      requires Valid()
      requires kmem.Some? ==> Multiple(kmem.value, header)
      requires kmem.Some? ==>
                 forall i :: 0 <= i < |chunks| ==> Apart(chunks[i], Block(kmem.value, ChunkSize(size, 1024)))
      modifies this
      ensures Valid()
      ensures r == None <==> kmem == None && forall i :: 0 <= i < |old(free)| ==> old(free)[i].size < size
      ensures r == None ==> free == old(free) && uses == old(uses) && chunks == old(chunks)
      ensures r.Some? ==> exists tail :: uses == old(uses) + [Use(r.value, size, RoundUp(size, header), tail)]
      ensures r.Some? && chunks == old(chunks) ==>
                exists i :: && 0 <= i < |old(free)| && old(free)[i].addr == r.value && IsBest(old(free), i, size)
                            && CutBy(old(free), free, i, RoundUp(size, header), header)
      ensures chunks != old(chunks) ==>
                && r.Some? && r == kmem && IsChunkSize(ChunkSize(size, 1024), size)
                && chunks == old(chunks) + [Block(kmem.value, ChunkSize(size, 1024))]
                && CutBy([Block(kmem.value, ChunkSize(size, 1024))] + old(free), free, 0, RoundUp(size, header), header)
                && forall i :: 0 <= i < |old(free)| ==> old(free)[i].size < size
    {
      var fit := BestFit(size);
      var addr: nat;
      if fit.Some? {
        addr := Take(fit.value, size);
        assert IsBest(old(free), fit.value, size);
      } else {
        var n := NewChunkSize(size);
        if kmem == None {
          return None;
        }
        ghost var chunk := Block(kmem.value, n);
        ChunkFits(size, 1024, header);
        AddChunk(header, free, uses, chunks, chunk);
        free, chunks := [Block(kmem.value, n)] + free, chunks + [chunk];
        addr := Take(0, size);
      }
      return Some(addr);
    }
  }

  /** The block is one of the smallest that are large enough. */
  /** The least power of two times 1024 that is at least `size`. */
  ghost predicate IsChunkSize(n: nat, size: nat) {
    exists k: nat :: n == 1024 * Dyadic.Pow2(k) >= size && (k > 0 ==> 1024 * Dyadic.Pow2(k - 1) < size)
  }

  lemma TakenIsCut(header: nat, free: seq<Block>, i: nat, size: nat)
    requires header > 0 && i < |free| && RoundUp(size, header) <= free[i].size
    ensures CutBy(free, TakenFree(header, free, i, size), i, RoundUp(size, header), header)
  {}

  /** The block at `i` loses its first `n` bytes, and goes away if no more than a header is left. */
  predicate CutBy(free: seq<Block>, free': seq<Block>, i: nat, n: nat, header: nat) {
    && i < |free| && n <= free[i].size
    && free' == if free[i].size - n > header then free[i := Block(free[i].addr + n, free[i].size - n)]
                else free[..i] + free[i + 1..]
  }

  /** The first of the smallest blocks that are large enough. */
  predicate IsBest(free: seq<Block>, i: nat, size: nat) {
    && i < |free| && free[i].size >= size
    && (forall j :: 0 <= j < |free| && free[j].size >= size ==> free[i].size <= free[j].size)
    && (forall j :: 0 <= j < i && free[j].size >= size ==> free[i].size < free[j].size)
  }

  /** Regions handed out are pairwise apart, in every state the allocator gets to. */
  lemma HandedOutApart(header: nat, free: seq<Block>, uses: seq<Use>, chunks: seq<Block>, i: nat, j: nat)
    requires Sound(header, free, uses, chunks) && i < |uses| && j < |uses| && i != j
    ensures Apart(Block(uses[i].addr, uses[i].asked), Block(uses[j].addr, uses[j].asked))
  {
    if i < j {
      assert Apart(uses[i].Extent(), uses[j].Extent());
    } else {
      assert Apart(uses[j].Extent(), uses[i].Extent());
    }
  }

  /** They are apart from all free blocks. */
  lemma HandedOutNotFree(header: nat, free: seq<Block>, uses: seq<Use>, chunks: seq<Block>, i: nat, k: nat)
    requires Sound(header, free, uses, chunks) && i < |uses| && k < |free|
    ensures Apart(Block(uses[i].addr, uses[i].asked), free[k])
  {
    assert Apart(free[k], uses[i].Extent());
  }
}
