/**
  How many CPUs the allocator can serve: after a roll-over the search for a clear number cannot fail
  if there are more usable numbers than CPUs, and it can fail if there are not.
 */
module AsidRoom {
  import opened AsidSpec
  import opened AsidSafety

  lemma {:induction false} RolledBitmap(al: Alloc, k: nat)
    requires Shaped(al, |al.active|) && k <= |al.active|
    ensures var r := RollFrom(al, k);
            && |r.bitmap| <= |al.bitmap| + |al.active| - k
            && al.bitmap <= r.bitmap
            && r.gen == al.gen && r.idx == al.idx
            && (forall j :: k <= j < |al.active| && r.reserved[j].Tuple? ==> r.reserved[j].num in r.bitmap)
            && (forall j :: 0 <= j < k ==> r.reserved[j] == al.reserved[j] && r.active[j] == al.active[j])
            && (forall j :: k <= j < |al.active| ==>
                  r.active[j] == Invalid &&
                  r.reserved[j] == if al.active[j].Tuple? then al.active[j] else al.reserved[j])
    decreases |al.active| - k
  {
    if k < |al.active| { RolledBitmap(RollOne(al, k), k + 1); }
  }

  /**
    `new_asid` always answers with an in-range number of the current generation: the space's own number
    if that was running at the roll-over, and otherwise one that no CPU has reserved and that lies behind
    all numbers the search has handed out in this generation.
   */
  lemma NewAsidSucceeds(cfg: Config, al: Alloc, a: Asid)
    requires Shaped(al, |al.active|) && Roomy(cfg, |al.active|) && cfg.base <= al.idx
    requires a.Tuple? ==> cfg.base <= a.num < cfg.limit
    requires forall k :: 0 <= k < |al.reserved| && al.reserved[k].Tuple? ==> al.reserved[k].num in al.bitmap
    ensures var (al', r) := NewAsid(cfg, al, a);
            && r.gen == al'.gen && cfg.base <= r.num < cfg.limit
            && (a.Tuple? && a in al.reserved ==> r.num == a.num && al'.gen == al.gen && al'.idx == al.idx)
            && (!(a.Tuple? && a in al.reserved) ==>
                  && (forall k :: 0 <= k < |al'.reserved| && al'.reserved[k].Tuple? ==> al'.reserved[k].num != r.num)
                  && (al'.gen == al.gen ==> al.idx <= r.num) && al'.idx == r.num + 1)
  {
    if NeedsRollOver(cfg, al, a) {
      var start := RollStart(cfg, al);
      RolledBitmap(start, 0);
      SomeClearBit(RollFrom(start, 0).bitmap, cfg.base, cfg.limit);
    }
  }

  /** The number that `new_asid` returns has its bit set exactly if the space got its own number back. */
  lemma NewAsidMarkedExactlyIfReclaimed(cfg: Config, al: Alloc, a: Asid)
    requires Shaped(al, |al.active|) && NewAsid(cfg, al, a).1.num < cfg.limit
    ensures var (al', r) := NewAsid(cfg, al, a);
            r.num in al'.bitmap <==> Reclaimable(al, a)
  {
    if NeedsRollOver(cfg, al, a) {
      RolledBitmap(RollStart(cfg, al), 0);
    }
  }
}
