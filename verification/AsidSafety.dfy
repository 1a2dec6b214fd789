/**
  What every step of the ASID protocol keeps, and what follows for whole runs: numbers are unique,
  a running space keeps its number across roll-overs, and no CPU runs two spaces under one number
  without a TLB flush in between.
 */
module AsidSafety {
  import opened AsidSpec
  import opened AsidProtocol

  /** More usable numbers than CPUs. */
  predicate Roomy(cfg: Config, cpus: nat) {
    cfg.base + cpus < cfg.limit
  }

  /** The generation whose tuples are in use: the current one or, while rolling over, the one being retired. */
  function Era(st: State): int {
    if st.lock.Free? then st.al.gen else st.al.gen - 1
  }

  predicate Fits(cfg: Config, st: State, a: Asid) {
    a.Tuple? ==> 1 <= a.gen <= Era(st) && cfg.base <= a.num < cfg.limit
  }

  predicate Bounds(cfg: Config, st: State)
    requires WellFormed(st)
  {
    && Era(st) >= 1
    && (forall s :: 0 <= s < |st.stored| ==> Fits(cfg, st, st.stored[s]))
    && (forall k :: 0 <= k < |st.pc| ==> Fits(cfg, st, st.al.active[k]))
    && (forall k :: 0 <= k < |st.pc| ==> Fits(cfg, st, st.al.reserved[k]))
  }

  /** A roll-over runs for a space whose tuple is out of use. */
  predicate LockInv(st: State)
    requires WellFormed(st)
  {
    st.lock.Rolling? && st.stored[st.lock.space].Tuple? ==> st.stored[st.lock.space].gen < Era(st)
  }

  /** No two spaces ever hold the same tuple. */
  predicate Distinct(st: State) {
    forall s, t :: 0 <= s < |st.stored| && 0 <= t < |st.stored| && s != t && st.stored[s].Tuple? ==>
      st.stored[s] != st.stored[t]
  }

  /** The space's tuple is in use: of the era's generation, or reserved by the last roll-over. */
  predicate Live(st: State, s: nat)
    requires s < |st.stored|
  {
    && st.stored[s].Tuple?
    && (st.stored[s].gen == Era(st) || (st.lock.Free? && st.stored[s] in st.al.reserved))
  }

  predicate LiveDistinctBut(st: State, but: int) {
    forall s, t :: 0 <= s < |st.stored| && 0 <= t < |st.stored| && s != t && s != but && t != but &&
                   Live(st, s) && Live(st, t) ==>
      st.stored[s].num != st.stored[t].num
  }

  /** The central invariant: live spaces have different numbers. */
  predicate LiveDistinct(st: State) {
    LiveDistinctBut(st, -1)
  }

  /** The bit of every reserved number is set; every number handed out is below the index or has its bit set. */
  predicate Bits(cfg: Config, st: State)
    requires WellFormed(st)
  {
    && (forall k :: 0 <= k < |st.pc| && st.al.reserved[k].Tuple? && (st.lock.Free? || k < st.lock.next) ==>
          st.al.reserved[k].num in st.al.bitmap)
    && (st.lock.Free? ==> forall t :: 0 <= t < |st.stored| && Current(st.al, st.stored[t]) ==>
          st.stored[t].num < st.al.idx || st.stored[t].num in st.al.bitmap)
    && cfg.base <= st.al.idx <= cfg.limit
    && (st.lock.Rolling? ==> st.al.idx == cfg.base && |st.al.bitmap| <= st.lock.next)
  }

  /** A tuple that a CPU carries was, and may still be, its space's; it never belongs to another space. */
  predicate Carried(cfg: Config, st: State, s: nat, a: Asid)
    requires s < |st.stored|
  {
    a.Tuple? ==>
      && Fits(cfg, st, a)
      && (st.stored[s] == a || (st.stored[s].Tuple? && st.stored[s].gen > a.gen))
      && (forall t :: 0 <= t < |st.stored| && t != s ==> st.stored[t] != a)
  }

  /** What CPU `k` carries through `get_or_alloc_asid` agrees with the spaces and with its active tuple. */
  predicate PcOk(cfg: Config, st: State, k: nat)
    requires WellFormed(st) && k < |st.pc|
  {
    match st.pc[k]
    case Loaded(s, a) => Carried(cfg, st, s, a)
    case Checked(s, a) => a.Tuple? && Carried(cfg, st, s, a) && (st.al.active[k].Tuple? ==> a.gen == Era(st))
    case Planted(s, a) => a.Tuple? && Carried(cfg, st, s, a) && (st.al.active[k] == a || st.al.active[k] == Invalid)
    case _ => true
  }

  /** CPU `k` is not in the middle of switching to another space. */
  predicate Steady(st: State, k: nat)
    requires k < |st.pc|
  {
    !st.pc[k].Planted? && !st.pc[k].Locked?
  }

  /** The active tuple of `k` is the era's tuple of the space that `k` runs. */
  predicate ActiveIsRun(st: State, k: nat)
    requires WellFormed(st) && k < |st.pc|
  {
    && st.run[k].Runs? && st.run[k].space < |st.stored|
    && st.al.active[k] == st.stored[st.run[k].space]
    && st.al.active[k].Tuple? && st.al.active[k].gen == Era(st)
  }

  /** The active tuple of the rolling CPU is nobody's but that of the space it allocates for. */
  predicate OwnPlant(st: State, k: nat)
    requires WellFormed(st) && k < |st.pc|
  {
    st.lock.Rolling? && forall t :: 0 <= t < |st.stored| && st.stored[t] == st.al.active[k] ==> t == st.lock.space
  }

  predicate ActiveOk(st: State, k: nat)
    requires WellFormed(st) && k < |st.pc|
  {
    st.al.active[k].Tuple? ==>
      && (Steady(st, k) ==> ActiveIsRun(st, k))
      && (st.pc[k].Locked? ==> ActiveIsRun(st, k) || OwnPlant(st, k))
      && (st.lock.Rolling? && k < st.lock.next ==> st.pc[k].Planted?)
  }

  /** The space run by `k` has the number it runs under, and its tuple is active there or reserved for it. */
  predicate Protected(st: State, k: nat)
    requires WellFormed(st) && k < |st.pc|
  {
    st.run[k].Runs? ==>
      var p := st.run[k].space;
      && p < |st.stored|
      && st.stored[p].Tuple? && st.stored[p].num == st.run[k].num
      && (st.al.active[k] == st.stored[p] || (st.al.active[k] == Invalid && st.al.reserved[k] == st.stored[p]))
      && (st.lock.Rolling? ==> p != st.lock.space)
  }

  /** No other live space has the number that `k` runs under. */
  predicate RunApart(st: State, k: nat)
    requires WellFormed(st) && k < |st.pc|
  {
    st.run[k].Runs? ==>
      forall t :: 0 <= t < |st.stored| && t != st.run[k].space && Live(st, t) ==> st.stored[t].num != st.run[k].num
  }

  /** Number and space determine each other in what a CPU ran since its last flush. */
  predicate OneToOne(pairs: set<(nat, nat)>) {
    forall p, q :: p in pairs && q in pairs ==> (p.0 == q.0 <==> p.1 == q.1)
  }

  /** What CPU `k` ran since its last flush is still numbered the same, in the era's generation. */
  predicate LogCurrent(st: State, k: nat)
    requires WellFormed(st) && k < |st.pc|
  {
    forall p :: p in st.log[k] ==>
      p.1 < |st.stored| && st.stored[p.1].Tuple? && st.stored[p.1].gen == Era(st) && st.stored[p.1].num == p.0
  }

  predicate LogOk(st: State, k: nat)
    requires WellFormed(st) && k < |st.pc|
  {
    && OneToOne(st.log[k])
    && (!st.al.pending[k] ==> LogCurrent(st, k))
    && (st.al.pending[k] && Steady(st, k) ==> st.al.active[k] == Invalid)
  }

  predicate CpuInv(cfg: Config, st: State, k: nat)
    requires WellFormed(st) && k < |st.pc|
  {
    && (st.pc[k].Locked? <==> st.lock.Rolling? && st.lock.cpu == k)
    && PcOk(cfg, st, k)
    && ActiveOk(st, k)
    && (Steady(st, k) ==> Protected(st, k))
    && (st.lock.Rolling? && Steady(st, k) ==> RunApart(st, k))
    && LogOk(st, k)
  }

  predicate GlobalInv(cfg: Config, st: State)
    requires WellFormed(st)
  {
    && Bounds(cfg, st)
    && LockInv(st)
    && Distinct(st)
    && LiveDistinct(st)
    && Bits(cfg, st)
  }

  predicate Inv(cfg: Config, st: State) {
    && WellFormed(st)
    && GlobalInv(cfg, st)
    && (forall k :: 0 <= k < |st.pc| ==> CpuInv(cfg, st, k))
  }

  lemma InitInv(cfg: Config, cpus: nat, spaces: nat)
    requires Roomy(cfg, cpus)
    ensures Inv(cfg, Init(cfg, cpus, spaces))
  {}

  /** Only CPU `c`'s own entries differ. */
  predicate OnlyCpuChanged(st: State, st': State, c: nat)
    requires WellFormed(st) && WellFormed(st')
  {
    && st'.stored == st.stored && st'.lock == st.lock && |st'.pc| == |st.pc|
    && st'.al == st.al.(active := st'.al.active, pending := st'.al.pending)
    && (forall k :: 0 <= k < |st.pc| && k != c ==>
          && st'.al.active[k] == st.al.active[k] && st'.al.pending[k] == st.al.pending[k]
          && st'.pc[k] == st.pc[k] && st'.run[k] == st.run[k] && st'.log[k] == st.log[k])
  }

  lemma OtherCpuKeeps(cfg: Config, st: State, st': State, c: nat, k: nat)
    requires WellFormed(st) && WellFormed(st') && OnlyCpuChanged(st, st', c)
    requires k < |st.pc| && k != c && CpuInv(cfg, st, k)
    ensures CpuInv(cfg, st', k)
  {}

  predicate OthersInv(cfg: Config, st: State, c: nat)
    requires WellFormed(st)
  {
    forall k :: 0 <= k < |st.pc| && k != c ==> CpuInv(cfg, st, k)
  }

  /** A step that changes only CPU `c`'s entries keeps the invariant if it establishes it for that CPU. */
  lemma LocalStep(cfg: Config, st: State, st': State, c: nat)
    requires WellFormed(st) && GlobalInv(cfg, st) && OthersInv(cfg, st, c)
    requires WellFormed(st') && c < |st.pc| && OnlyCpuChanged(st, st', c)
    requires Fits(cfg, st', st'.al.active[c])
    requires CpuInv(cfg, st', c)
    ensures Inv(cfg, st')
  {
    assert forall t :: 0 <= t < |st.stored| ==> Live(st', t) == Live(st, t);
    forall k | 0 <= k < |st.pc| ensures CpuInv(cfg, st', k) {
      if k != c { OtherCpuKeeps(cfg, st, st', c, k); }
    }
  }

  lemma LoadInv(cfg: Config, st: State, c: nat, s: nat)
    requires Inv(cfg, st) && Enabled(st, Load(c, s))
    ensures Inv(cfg, Apply(cfg, st, Load(c, s)))
  {
    assert CpuInv(cfg, st, c);
    LocalStep(cfg, st, Apply(cfg, st, Load(c, s)), c);
  }

  lemma CheckInv(cfg: Config, st: State, c: nat)
    requires Inv(cfg, st) && Enabled(st, Check(c))
    ensures Inv(cfg, Apply(cfg, st, Check(c)))
  {
    assert CpuInv(cfg, st, c);
    LocalStep(cfg, st, Apply(cfg, st, Check(c)), c);
  }

  lemma ExchangeInv(cfg: Config, st: State, c: nat)
    requires Inv(cfg, st) && Enabled(st, Exchange(c))
    ensures Inv(cfg, Apply(cfg, st, Exchange(c)))
  {
    assert CpuInv(cfg, st, c);
    ExchangeCpu(cfg, st, c);
    LocalStep(cfg, st, Apply(cfg, st, Exchange(c)), c);
  }

  /** The exchanging CPU either keeps running spaces of the era, or it has planted a tuple. */
  lemma ExchangeCpu(cfg: Config, st: State, c: nat)
    requires Inv(cfg, st) && Enabled(st, Exchange(c))
    ensures CpuInv(cfg, Apply(cfg, st, Exchange(c)), c)
  {
    var st' := Apply(cfg, st, Exchange(c));
    assert CpuInv(cfg, st, c);
    var Checked(s, a) := st.pc[c];
    if st.al.active[c].Tuple? {
      assert st.stored[s] == a && Live(st, s);
      assert OneToOne(st'.log[c]) by { LogStaysOneToOne(st, st.log[c], s); }
    }
  }

  /** Spaces numbered in the era's generation have one number each, and different ones. */
  lemma LogStaysOneToOne(st: State, pairs: set<(nat, nat)>, s: nat)
    requires WellFormed(st) && LockInv(st) && LiveDistinct(st)
    requires s < |st.stored| && st.stored[s].Tuple? && st.stored[s].gen == Era(st)
    requires forall p :: p in pairs ==>
      p.1 < |st.stored| && st.stored[p.1].Tuple? && st.stored[p.1].gen == Era(st) && st.stored[p.1].num == p.0
    ensures OneToOne(pairs + {(st.stored[s].num, s)})
  {
    forall p, q | p in pairs + {(st.stored[s].num, s)} && q in pairs + {(st.stored[s].num, s)}
      ensures p.0 == q.0 <==> p.1 == q.1
    {
      assert Live(st, p.1) && Live(st, q.1);
    }
  }

  // ----- the roll-over's exchange of one CPU's active tuple

  lemma RollBits(cfg: Config, st: State)
    requires WellFormed(st) && Bits(cfg, st) && Enabled(st, Roll)
    ensures Bits(cfg, Apply(cfg, st, Roll))
  {}

  lemma RollGlobal(cfg: Config, st: State)
    requires Inv(cfg, st) && Enabled(st, Roll)
    ensures GlobalInv(cfg, Apply(cfg, st, Roll))
  {
    var st' := Apply(cfg, st, Roll);
    RollBits(cfg, st);
    assert forall t :: 0 <= t < |st.stored| ==> Live(st', t) == Live(st, t);
  }

  lemma RollCpu(cfg: Config, st: State, k: nat)
    requires Inv(cfg, st) && Enabled(st, Roll) && k < |st.pc|
    ensures CpuInv(cfg, Apply(cfg, st, Roll), k)
  {
    assert CpuInv(cfg, st, k);
  }

  lemma RollInv(cfg: Config, st: State)
    requires Inv(cfg, st) && Enabled(st, Roll)
    ensures Inv(cfg, Apply(cfg, st, Roll))
  {
    RollGlobal(cfg, st);
    forall k | 0 <= k < |st.pc| ensures CpuInv(cfg, Apply(cfg, st, Roll), k) {
      RollCpu(cfg, st, k);
    }
  }

  // ----- entering the lock

  /** With the lock free, what a CPU runs is live, and so its number is nobody else's. */
  lemma FreeRunApart(cfg: Config, st: State, k: nat)
    requires Inv(cfg, st) && st.lock.Free? && k < |st.pc| && Steady(st, k) && st.run[k].Runs?
    ensures st.run[k].space < |st.stored| && Live(st, st.run[k].space) && RunApart(st, k)
  {
    assert CpuInv(cfg, st, k);
    assert Live(st, st.run[k].space);
  }

  lemma RollStartInv(cfg: Config, st: State, c: nat)
    requires Inv(cfg, st) && Enabled(st, Enter(c))
    requires var a := st.stored[st.pc[c].space]; !Current(st.al, a) && NeedsRollOver(cfg, st.al, a)
    ensures Inv(cfg, Apply(cfg, st, Enter(c)))
  {
    var st' := Apply(cfg, st, Enter(c));
    var s := st.pc[c].space;
    assert forall t :: 0 <= t < |st.stored| && Live(st', t) ==> Live(st, t);
    assert !(st.stored[s].Tuple? && st.stored[s] in st.al.reserved);
    forall k | 0 <= k < |st.pc| ensures CpuInv(cfg, st', k) {
      RollStartCpu(cfg, st, c, k);
    }
  }

  lemma RollStartApart(cfg: Config, st: State, c: nat, k: nat)
    requires Inv(cfg, st) && Enabled(st, Enter(c)) && k < |st.pc| && Steady(st, k)
    requires var a := st.stored[st.pc[c].space]; !Current(st.al, a) && NeedsRollOver(cfg, st.al, a)
    ensures RunApart(Apply(cfg, st, Enter(c)), k)
  {
    var st' := Apply(cfg, st, Enter(c));
    if st.run[k].Runs? {
      FreeRunApart(cfg, st, k);
      assert forall t :: 0 <= t < |st.stored| && Live(st', t) ==> Live(st, t);
    }
  }

  lemma RollStartCpu(cfg: Config, st: State, c: nat, k: nat)
    requires Inv(cfg, st) && Enabled(st, Enter(c)) && k < |st.pc|
    requires var a := st.stored[st.pc[c].space]; !Current(st.al, a) && NeedsRollOver(cfg, st.al, a)
    ensures CpuInv(cfg, Apply(cfg, st, Enter(c)), k)
  {
    assert CpuInv(cfg, st, k) && CpuInv(cfg, st, c);
    var s := st.pc[c].space;
    assert !(st.stored[s].Tuple? && st.stored[s] in st.al.reserved);
    if Steady(st, k) {
      RollStartApart(cfg, st, c, k);
    }
  }

  // ----- leaving the lock

  /** The last part of `alloc_asid`, for a space that now has a current tuple, restores the whole invariant. */
  lemma PublishInv(cfg: Config, mid: State, c: nat, s: nat)
    requires WellFormed(mid) && GlobalInv(cfg, mid) && c < |mid.pc| && OthersInv(cfg, mid, c)
    requires mid.lock.Free? && mid.pc[c] == Waiting(s) && Current(mid.al, mid.stored[s])
    requires OneToOne(mid.log[c]) && (!mid.al.pending[c] ==> LogCurrent(mid, c))
    ensures Inv(cfg, Settle(mid, c, s, mid.al, mid.stored[s]))
  {
    var st' := Settle(mid, c, s, mid.al, mid.stored[s]);
    assert st'.stored == mid.stored;
    LogStaysOneToOne(mid, if mid.al.pending[c] then {} else mid.log[c], s);
    LocalStep(cfg, mid, st', c);
  }

  /** The state between the store of the space's new tuple and the store of the active one. */
  function Stored(st: State, c: nat, s: nat, al: Alloc, a: Asid): (mid: State)
    requires WellFormed(st) && c < |st.pc| && s < |st.stored| && Shaped(al, |st.pc|)
    ensures WellFormed(mid)
  {
    State(al, st.stored[s := a], Free, st.pc[c := Waiting(s)], st.run, st.log)
  }

  lemma SettleIsStoreThenPublish(st: State, c: nat, s: nat, al: Alloc, a: Asid)
    requires WellFormed(st) && c < |st.pc| && s < |st.stored| && Shaped(al, |st.pc|) && a.Tuple?
    ensures Settle(st, c, s, al, a) == Settle(Stored(st, c, s, al, a), c, s, al, a)
  {
    assert st.pc[c := Waiting(s)][c := Idle] == st.pc[c := Idle];
    assert st.stored[s := a][s := a] == st.stored[s := a];
  }

  lemma EnterCurrentInv(cfg: Config, st: State, c: nat)
    requires Inv(cfg, st) && Enabled(st, Enter(c)) && Current(st.al, st.stored[st.pc[c].space])
    ensures Inv(cfg, Apply(cfg, st, Enter(c)))
  {
    var s := st.pc[c].space;
    var mid := Stored(st, c, s, st.al, st.stored[s]);
    assert mid.stored == st.stored;
    assert CpuInv(cfg, st, c);
    assert forall t :: 0 <= t < |st.stored| ==> Live(mid, t) == Live(st, t);
    forall k | 0 <= k < |st.pc| && k != c ensures CpuInv(cfg, mid, k) {
      OtherCpuKeeps(cfg, st, mid, c, k);
    }
    SettleIsStoreThenPublish(st, c, s, st.al, st.stored[s]);
    PublishInv(cfg, mid, c, s);
  }

  /** A space that was running at the roll-over gets its own number back. */
  lemma ReclaimGlobal(cfg: Config, st: State, c: nat)
    requires Inv(cfg, st) && Enabled(st, Enter(c))
    requires var a := st.stored[st.pc[c].space]; !Current(st.al, a) && Reclaimable(st.al, a)
    ensures var s := st.pc[c].space;
            var (al, a) := Renumber(cfg, st.al, st.stored[s]);
            GlobalInv(cfg, Stored(st, c, s, al, a))
  {
    var s := st.pc[c].space;
    var (al, a) := Renumber(cfg, st.al, st.stored[s]);
    var mid := Stored(st, c, s, al, a);
    assert Live(st, s);
    forall t | 0 <= t < |st.stored| && t != s && Live(mid, t) ensures Live(st, t) {
      if st.stored[t] in al.reserved {
        var k :| 0 <= k < |st.pc| && al.reserved[k] == st.stored[t];
        assert st.al.reserved[k] in st.al.reserved;
      }
    }
  }

  lemma ReclaimCpu(cfg: Config, st: State, c: nat, k: nat)
    requires Inv(cfg, st) && Enabled(st, Enter(c)) && k < |st.pc| && k != c
    requires var a := st.stored[st.pc[c].space]; !Current(st.al, a) && Reclaimable(st.al, a)
    ensures var s := st.pc[c].space;
            var (al, a) := Renumber(cfg, st.al, st.stored[s]);
            CpuInv(cfg, Stored(st, c, s, al, a), k)
  {
    var s := st.pc[c].space;
    var (al, a) := Renumber(cfg, st.al, st.stored[s]);
    assert CpuInv(cfg, st, k);
    ReclaimedIsNew(cfg, st, c);
  }

  lemma ReclaimedIsNew(cfg: Config, st: State, c: nat)
    requires Inv(cfg, st) && Enabled(st, Enter(c))
    requires var a := st.stored[st.pc[c].space]; !Current(st.al, a) && Reclaimable(st.al, a)
    ensures var s := st.pc[c].space;
            forall t :: 0 <= t < |st.stored| ==> st.stored[t] != Tuple(st.al.gen, st.stored[s].num)
  {
    var s := st.pc[c].space;
    assert Live(st, s);
    forall t | 0 <= t < |st.stored| ensures st.stored[t] != Tuple(st.al.gen, st.stored[s].num) {
      if st.stored[t] == Tuple(st.al.gen, st.stored[s].num) { assert Live(st, t); }
    }
  }

  lemma ReclaimInv(cfg: Config, st: State, c: nat)
    requires Inv(cfg, st) && Enabled(st, Enter(c))
    requires var a := st.stored[st.pc[c].space]; !Current(st.al, a) && Reclaimable(st.al, a)
    ensures Inv(cfg, Apply(cfg, st, Enter(c)))
  {
    var s := st.pc[c].space;
    var (al, a) := Renumber(cfg, st.al, st.stored[s]);
    var mid := Stored(st, c, s, al, a);
    assert CpuInv(cfg, st, c);
    ReclaimGlobal(cfg, st, c);
    forall k | 0 <= k < |st.pc| && k != c ensures CpuInv(cfg, mid, k) {
      ReclaimCpu(cfg, st, c, k);
    }
    SettleIsStoreThenPublish(st, c, s, al, a);
    PublishInv(cfg, mid, c, s);
  }

  // ----- taking a fresh number

  /** A number found by the search belongs to no live space. */
  lemma FoundIsUnused(cfg: Config, st: State, t: nat)
    requires WellFormed(st) && Bits(cfg, st) && st.lock.Free? && t < |st.stored| && Live(st, t)
    requires FindNext(st.al.bitmap, st.al.idx, cfg.limit) < cfg.limit
    ensures st.stored[t].num != FindNext(st.al.bitmap, st.al.idx, cfg.limit)
  {}

  /** The lock is free, and space `s`, which may hold a reserved number of another space, is to be renumbered. */
  predicate Renumbering(cfg: Config, st: State, s: nat) {
    && WellFormed(st) && st.lock.Free? && s < |st.stored|
    && Bounds(cfg, st) && Distinct(st) && LiveDistinctBut(st, s) && Bits(cfg, st)
    && !Current(st.al, st.stored[s])
    && FindNext(st.al.bitmap, st.al.idx, cfg.limit) < cfg.limit
  }

  lemma FoundIsNew(cfg: Config, st: State, s: nat)
    requires Renumbering(cfg, st, s)
    ensures TakeNext(cfg, st.al).1 !in st.stored
  {
    var a := TakeNext(cfg, st.al).1;
    forall t | 0 <= t < |st.stored| && st.stored[t].Tuple? && st.stored[t].gen == a.gen
      ensures st.stored[t] != a
    {
      FoundIsUnused(cfg, st, t);
    }
  }

  lemma TakeGlobal(cfg: Config, st: State, c: nat, s: nat)
    requires Renumbering(cfg, st, s) && c < |st.pc|
    ensures var (al, a) := TakeNext(cfg, st.al);
            GlobalInv(cfg, Stored(st, c, s, al, a))
  {
    var (al, a) := TakeNext(cfg, st.al);
    var mid := Stored(st, c, s, al, a);
    forall t | 0 <= t < |st.stored| && t != s && Live(mid, t) ensures Live(st, t) && st.stored[t].num != a.num {
      FoundIsUnused(cfg, st, t);
    }
    FoundIsNew(cfg, st, s);
  }

  lemma TakeCpu(cfg: Config, st: State, c: nat, s: nat, k: nat)
    requires Renumbering(cfg, st, s) && c < |st.pc|
    requires k < |st.pc| && k != c && CpuInv(cfg, st, k)
    requires Steady(st, k) && st.run[k].Runs? ==> st.run[k].space != s
    ensures var (al, a) := TakeNext(cfg, st.al);
            CpuInv(cfg, Stored(st, c, s, al, a), k)
  {
    FoundIsNew(cfg, st, s);
  }

  lemma TakeInv(cfg: Config, st: State, c: nat, s: nat)
    requires Renumbering(cfg, st, s) && c < |st.pc| && OthersInv(cfg, st, c)
    requires forall k :: 0 <= k < |st.pc| && k != c && Steady(st, k) && st.run[k].Runs? ==> st.run[k].space != s
    requires OneToOne(st.log[c]) && (!st.al.pending[c] ==> LogCurrent(st, c))
    ensures var (al, a) := TakeNext(cfg, st.al);
            Inv(cfg, Settle(st, c, s, al, a))
  {
    var (al, a) := TakeNext(cfg, st.al);
    var mid := Stored(st, c, s, al, a);
    TakeGlobal(cfg, st, c, s);
    forall k | 0 <= k < |st.pc| && k != c ensures CpuInv(cfg, mid, k) {
      TakeCpu(cfg, st, c, s, k);
    }
    SettleIsStoreThenPublish(st, c, s, al, a);
    PublishInv(cfg, mid, c, s);
  }

  lemma EnterTakeInv(cfg: Config, st: State, c: nat)
    requires Inv(cfg, st) && Enabled(st, Enter(c))
    requires var a := st.stored[st.pc[c].space];
             !Current(st.al, a) && !Reclaimable(st.al, a) && !NeedsRollOver(cfg, st.al, a)
    ensures Inv(cfg, Apply(cfg, st, Enter(c)))
  {
    var s := st.pc[c].space;
    assert CpuInv(cfg, st, c);
    forall k | 0 <= k < |st.pc| && Steady(st, k) && st.run[k].Runs? ensures st.run[k].space != s {
      assert CpuInv(cfg, st, k);
    }
    TakeInv(cfg, st, c, s);
  }

  lemma EnterInv(cfg: Config, st: State, c: nat)
    requires Inv(cfg, st) && Enabled(st, Enter(c))
    ensures Inv(cfg, Apply(cfg, st, Enter(c)))
  {
    var a := st.stored[st.pc[c].space];
    if Current(st.al, a) {
      EnterCurrentInv(cfg, st, c);
    } else if Reclaimable(st.al, a) {
      ReclaimInv(cfg, st, c);
    } else if NeedsRollOver(cfg, st.al, a) {
      RollStartInv(cfg, st, c);
    } else {
      EnterTakeInv(cfg, st, c);
    }
  }

  // ----- the end of a roll-over

  /** A set of numbers smaller than a range misses some number of that range. */
  lemma {:induction false} SomeClearBit(bitmap: set<nat>, i: nat, limit: nat)
    requires i + |bitmap| < limit
    ensures FindNext(bitmap, i, limit) < limit
    decreases limit - i
  {
    if i in bitmap {
      SomeClearBit(bitmap - {i}, i + 1, limit);
      SearchSkips(bitmap, i, i + 1, limit);
    }
  }

  lemma {:induction false} SearchSkips(bitmap: set<nat>, i: nat, j: nat, limit: nat)
    requires i < j <= limit
    ensures FindNext(bitmap - {i}, j, limit) == FindNext(bitmap, j, limit)
    decreases limit - j
  {
    if j < limit && j in bitmap { SearchSkips(bitmap, i, j + 1, limit); }
  }

  /** The state after the last exchange, with the lock considered free and every flush pending. */
  function RolledOver(st: State): (r: State)
    requires WellFormed(st) && st.lock.Rolling?
    ensures WellFormed(r)
  {
    st.(al := RollEnd(st.al), lock := Free)
  }

  lemma RolledOverCpu(cfg: Config, st: State, k: nat)
    requires Inv(cfg, st) && Enabled(st, Finish) && k < |st.pc| && k != st.lock.cpu
    ensures CpuInv(cfg, RolledOver(st), k)
    ensures Steady(st, k) && st.run[k].Runs? ==> st.run[k].space != st.lock.space
  {
    assert CpuInv(cfg, st, k);
  }

  lemma RolledOverRenumbering(cfg: Config, st: State)
    requires Inv(cfg, st) && Enabled(st, Finish) && Roomy(cfg, |st.pc|) && !Clash(st)
    ensures Renumbering(cfg, RolledOver(st), st.lock.space)
  {
    var pre := RolledOver(st);
    forall s, t | 0 <= s < |st.stored| && 0 <= t < |st.stored| && s != t && s != st.lock.space &&
                  t != st.lock.space && Live(pre, s) && Live(pre, t)
      ensures st.stored[s].num != st.stored[t].num
    {
      assert !Clashing(st.stored, st.al.reserved, st.lock.space, s, t);
    }
    SomeClearBit(st.al.bitmap, st.al.idx, cfg.limit);
  }

  lemma FinishInv(cfg: Config, st: State)
    requires Inv(cfg, st) && Enabled(st, Finish) && Roomy(cfg, |st.pc|) && !Clash(st)
    ensures Inv(cfg, Apply(cfg, st, Finish))
  {
    var pre := RolledOver(st);
    var c, s := st.lock.cpu, st.lock.space;
    assert CpuInv(cfg, st, c);
    RolledOverRenumbering(cfg, st);
    forall k | 0 <= k < |st.pc| && k != c
      ensures CpuInv(cfg, pre, k)
      ensures Steady(pre, k) && pre.run[k].Runs? ==> pre.run[k].space != s
    {
      RolledOverCpu(cfg, st, k);
    }
    TakeInv(cfg, pre, c, s);
    var (al, a) := TakeNext(cfg, RollEnd(st.al));
    assert Settle(st, c, s, al, a) == Settle(pre, c, s, al, a);
  }

  lemma StepInv(cfg: Config, st: State, step: Step)
    requires Inv(cfg, st) && Enabled(st, step) && (step.Finish? ==> !Clash(st)) && Roomy(cfg, |st.pc|)
    ensures Inv(cfg, Apply(cfg, st, step))
    ensures |Apply(cfg, st, step).pc| == |st.pc| && |Apply(cfg, st, step).stored| == |st.stored|
  {
    match step
    case Load(c, s) => LoadInv(cfg, st, c, s);
    case Check(c) => CheckInv(cfg, st, c);
    case Exchange(c) => ExchangeInv(cfg, st, c);
    case Enter(c) => EnterInv(cfg, st, c);
    case Roll => RollInv(cfg, st);
    case Finish => FinishInv(cfg, st);
  }

  // ----- whole runs

  lemma {:induction false} RunInv(cfg: Config, st: State, steps: seq<Step>, st': State)
    requires Inv(cfg, st) && Roomy(cfg, |st.pc|)
    requires Reaches(cfg, st, steps, st') && AvoidsClashes(cfg, st, steps)
    ensures Inv(cfg, st') && |st'.pc| == |st.pc| && |st'.stored| == |st.stored|
    decreases |steps|
  {
    if steps != [] {
      StepInv(cfg, st, steps[0]);
      RunInv(cfg, Apply(cfg, st, steps[0]), steps[1..], st');
    }
  }

  /** Two spaces whose tuples both carry the current generation never have the same number. */
  predicate UniqueNumbers(st: State) {
    forall s, t :: 0 <= s < |st.stored| && 0 <= t < |st.stored| && s != t &&
                   Current(st.al, st.stored[s]) && Current(st.al, st.stored[t]) ==>
      st.stored[s].num != st.stored[t].num
  }

  /**
    In every run from the start in which no roll-over ends in a clash: current numbers are unique and in
    range; every reserved number has its bit set whenever the lock is free; each CPU has run a one-to-one
    numbering since its last flush; the number a steady CPU runs under is its space's number and no other
    space's current number; and after a roll-over its reserved tuple is that space's tuple.
   */
  lemma RunsAreSafe(cfg: Config, cpus: nat, spaces: nat, steps: seq<Step>, st: State)
    requires Roomy(cfg, cpus)
    requires Reaches(cfg, Init(cfg, cpus, spaces), steps, st)
    requires AvoidsClashes(cfg, Init(cfg, cpus, spaces), steps)
    ensures WellFormed(st) && |st.pc| == cpus && |st.stored| == spaces
    ensures UniqueNumbers(st)
    ensures forall s :: 0 <= s < spaces && st.stored[s].Tuple? ==> cfg.base <= st.stored[s].num < cfg.limit
    ensures st.lock.Free? ==> forall k :: 0 <= k < cpus && st.al.reserved[k].Tuple? ==>
              st.al.reserved[k].num in st.al.bitmap
    ensures forall k :: 0 <= k < cpus ==> OneToOne(st.log[k])
    ensures forall k, s :: 0 <= k < cpus && 0 <= s < spaces && Steady(st, k) && st.run[k].Runs? ==>
              (st.run[k].space == s ==> st.stored[s].Tuple? && st.stored[s].num == st.run[k].num) &&
              (st.run[k].space != s && Current(st.al, st.stored[s]) ==> st.stored[s].num != st.run[k].num)
    ensures forall k :: 0 <= k < cpus && Steady(st, k) && st.run[k].Runs? && st.al.active[k] == Invalid ==>
              st.run[k].space < spaces && st.al.reserved[k] == st.stored[st.run[k].space]
  {
    InitInv(cfg, cpus, spaces);
    RunInv(cfg, Init(cfg, cpus, spaces), steps, st);
    CurrentIsLive(cfg, st);
    forall k, s | 0 <= k < cpus && 0 <= s < spaces && Steady(st, k) && st.run[k].Runs?
      ensures st.run[k].space == s ==> st.stored[s].Tuple? && st.stored[s].num == st.run[k].num
      ensures st.run[k].space != s && Current(st.al, st.stored[s]) ==> st.stored[s].num != st.run[k].num
    {
      assert CpuInv(cfg, st, k);
      RunNumberApart(cfg, st, k);
    }
    forall k | 0 <= k < cpus
      ensures OneToOne(st.log[k])
      ensures Steady(st, k) && st.run[k].Runs? && st.al.active[k] == Invalid ==>
                st.run[k].space < spaces && st.al.reserved[k] == st.stored[st.run[k].space]
    {
      assert CpuInv(cfg, st, k);
    }
  }

  /** While a roll-over is on its way no tuple carries the new generation yet. */
  lemma CurrentIsLive(cfg: Config, st: State)
    requires Inv(cfg, st)
    ensures forall s :: 0 <= s < |st.stored| && Current(st.al, st.stored[s]) ==> Live(st, s)
  {}

  lemma RunNumberApart(cfg: Config, st: State, k: nat)
    requires Inv(cfg, st) && k < |st.pc| && Steady(st, k) && st.run[k].Runs?
    ensures RunApart(st, k)
  {
    assert CpuInv(cfg, st, k);
    if st.lock.Free? { FreeRunApart(cfg, st, k); }
  }

  /** A step of another CPU, or of the roll-over, that is not the given CPU's own. */
  predicate OthersStep(st: State, step: Step, k: nat) {
    match step
    case Load(c, _) => c != k
    case Check(c) => c != k
    case Exchange(c) => c != k
    case Enter(c) => c != k
    case Roll => true
    case Finish => st.lock.Rolling? ==> st.lock.cpu != k
  }

  predicate OthersRun(cfg: Config, st: State, steps: seq<Step>, k: nat)
    requires WellFormed(st)
    decreases |steps|
  {
    steps == [] || (
      && Enabled(st, steps[0])
      && OthersStep(st, steps[0], k)
      && OthersRun(cfg, Apply(cfg, st, steps[0]), steps[1..], k))
  }

  /**
    However many roll-overs the other CPUs go through while CPU `k` stays where it is, the space it runs
    keeps the number it runs under, and no other space gets that number.
   */
  lemma {:induction false} NumberSurvivesRollOvers(cfg: Config, st: State, steps: seq<Step>, st': State, k: nat)
    requires Inv(cfg, st) && Roomy(cfg, |st.pc|)
    requires Reaches(cfg, st, steps, st') && AvoidsClashes(cfg, st, steps) && OthersRun(cfg, st, steps, k)
    requires k < |st.pc| && Steady(st, k) && st.run[k].Runs?
    ensures Inv(cfg, st') && |st'.pc| == |st.pc| && |st'.stored| == |st.stored|
    ensures Steady(st', k) && st'.run[k] == st.run[k] && st.run[k].space < |st'.stored|
    ensures st'.stored[st.run[k].space].Tuple? && st'.stored[st.run[k].space].num == st.run[k].num
    ensures forall s :: 0 <= s < |st'.stored| && s != st.run[k].space && Live(st', s) ==>
              st'.stored[s].num != st.run[k].num
    decreases |steps|
  {
    if steps == [] {
      assert CpuInv(cfg, st, k);
      RunNumberApart(cfg, st, k);
    } else {
      StepInv(cfg, st, steps[0]);
      assert CpuInv(cfg, st, k);
      NumberSurvivesRollOvers(cfg, Apply(cfg, st, steps[0]), steps[1..], st', k);
    }
  }

  /**
    When a CPU allocates again for the space it runs, however many roll-overs have gone by, that space gets
    the number it runs under, and without a further roll-over.
   */
  lemma RegainsNumber(cfg: Config, st: State, k: nat)
    requires Inv(cfg, st) && Enabled(st, Enter(k)) && st.run[k].Runs? && st.pc[k] == Waiting(st.run[k].space)
    ensures var st' := Apply(cfg, st, Enter(k));
            && st'.lock.Free? && st'.run[k] == st.run[k]
            && st'.stored[st.run[k].space] == Tuple(st.al.gen, st.run[k].num)
  {
    assert CpuInv(cfg, st, k);
  }
}
