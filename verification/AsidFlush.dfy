/**
  What one call of the ASID allocator does, said without its own functions, and when a TLB is flushed:
  exactly if a roll-over has ended since the CPU last took a number under the lock.
 */
module AsidFlush {
  import opened AsidSpec
  import opened AsidProtocol

  // ----- one roll-over

  /** The tuple that CPU `k` keeps reserved in a roll-over: its active one, else the one it had reserved. */
  function Kept(al: Alloc, k: nat): Asid
    requires Shaped(al, |al.active|) && k < |al.active|
  {
    if al.active[k].Tuple? then al.active[k] else al.reserved[k]
  }

  /** The numbers of these tuples are exactly the marked ones. */
  ghost predicate MarksExactly(bitmap: set<nat>, reserved: seq<Asid>) {
    forall n: nat :: n in bitmap <==> exists k :: 0 <= k < |reserved| && reserved[k].Tuple? && reserved[k].num == n
  }

  /** A number is marked in `r` if it was in `al` or a CPU from `k` on keeps it. */
  ghost predicate MarksMore(al: Alloc, r: Alloc, k: nat)
    requires Shaped(r, |al.active|)
  {
    forall n: nat ::
      n in r.bitmap <==>
        || n in al.bitmap
        || exists j :: k <= j < |r.reserved| && r.reserved[j].Tuple? && r.reserved[j].num == n
  }

  lemma {:induction false} RollFromIs(al: Alloc, k: nat)
    requires Shaped(al, |al.active|) && k <= |al.active|
    ensures var r := RollFrom(al, k);
            && r.gen == al.gen && r.idx == al.idx && r.pending == al.pending && MarksMore(al, r, k)
            && (forall j :: 0 <= j < k ==> r.active[j] == al.active[j] && r.reserved[j] == al.reserved[j])
            && (forall j :: k <= j < |al.active| ==> r.active[j] == Invalid && r.reserved[j] == Kept(al, j))
    decreases |al.active| - k
  {
    if k < |al.active| {
      var one := RollOne(al, k);
      var r := RollFrom(one, k + 1);
      RollFromIs(one, k + 1);
      assert r.reserved[k] == one.reserved[k] == Kept(al, k);
      assert forall j :: k < j < |al.active| ==> Kept(one, j) == Kept(al, j);
      RollMarks(al, k, r);
    }
  }

  lemma RollMarks(al: Alloc, k: nat, r: Alloc)
    requires Shaped(al, |al.active|) && k < |al.active| && Shaped(r, |al.active|)
    requires MarksMore(RollOne(al, k), r, k + 1) && r.reserved[k] == Kept(al, k)
    ensures MarksMore(al, r, k)
  {
    forall n: nat
      ensures n in r.bitmap <==>
                || n in al.bitmap
                || exists j :: k <= j < |r.reserved| && r.reserved[j].Tuple? && r.reserved[j].num == n
    {
      if n in RollOne(al, k).bitmap && n !in al.bitmap {
        assert r.reserved[k].Tuple? && r.reserved[k].num == n;
      }
    }
  }

  // ----- one allocation

  /** `n` is the least number from `i` on that is not marked, or the limit if there is none. */
  predicate LeastClear(bitmap: set<nat>, i: nat, limit: nat, n: nat) {
    && (n < limit ==> i <= n && n !in bitmap) && n <= limit
    && forall m :: i <= m < n ==> m in bitmap
  }

  /** Nothing is left to hand out, and the outdated tuple was not kept reserved. */
  predicate MustRollOver(cfg: Config, al: Alloc, a: Asid) {
    && !(a.Tuple? && a.num in al.bitmap && a in al.reserved)
    && forall n :: al.idx <= n < cfg.limit ==> n in al.bitmap
  }

  /** The number taken and the search index behind it. */
  predicate Took(cfg: Config, bitmap: set<nat>, idx: nat, idx': nat, n: nat) {
    && LeastClear(bitmap, idx, cfg.limit, n)
    && idx' == if n < cfg.limit then n + 1 else idx
  }

  /** A roll-over ran: the next generation, what was running is reserved and marked, all must flush. */
  ghost predicate RolledOver(cfg: Config, al: Alloc, r: Alloc, c: nat, n: nat)
    requires Shaped(al, |al.active|) && Shaped(r, |al.active|) && c < |al.active|
  {
    && r.gen == al.gen + 1 && MarksExactly(r.bitmap, r.reserved) && Took(cfg, r.bitmap, cfg.base, r.idx, n)
    && (forall k :: 0 <= k < |al.active| ==> r.reserved[k] == Kept(al, k))
    && (forall k :: 0 <= k < |al.active| && k != c ==> r.active[k] == Invalid && r.pending[k])
  }

  /** None ran: the other CPUs' tuples and flushes stay. */
  predicate NoRollOver(al: Alloc, r: Alloc, c: nat)
    requires Shaped(al, |al.active|) && Shaped(r, |al.active|) && c < |al.active|
  {
    && r.gen == al.gen && r.bitmap == al.bitmap
    && forall k :: 0 <= k < |al.active| && k != c ==> r.active[k] == al.active[k] && r.pending[k] == al.pending[k]
  }

  /**
    `alloc_asid` case by case: a current tuple stays; an outdated one that was kept reserved keeps its
    number; otherwise it is the least clear number, after a roll-over exactly if there is none left.
   */
  lemma AllocMeans(cfg: Config, al: Alloc, c: nat, a: Asid)
    requires Shaped(al, |al.active|) && c < |al.active|
    ensures var (r, b, flush) := AllocAsid(cfg, al, c, a);
            && Shaped(r, |al.active|) && b.Tuple? && b.gen == r.gen && r.active[c] == b && !r.pending[c]
            && (flush <==> al.pending[c] || r.gen != al.gen)
            && if a.Tuple? && a.gen == al.gen then
                 b == a && NoRollOver(al, r, c) && r.idx == al.idx && r.reserved == al.reserved
               else if MustRollOver(cfg, al, a) then
                 RolledOver(cfg, al, r, c, b.num)
               else if a.Tuple? && a.num in al.bitmap && a in al.reserved then
                 && b.num == a.num && NoRollOver(al, r, c) && r.idx == al.idx
                 && forall k :: 0 <= k < |al.active| ==>
                                  r.reserved[k] == if al.reserved[k] == a then b else al.reserved[k]
               else
                 && NoRollOver(al, r, c) && r.reserved == al.reserved
                 && b.num < cfg.limit && Took(cfg, al.bitmap, al.idx, r.idx, b.num)
  {
    if !Current(al, a) && NeedsRollOver(cfg, al, a) {
      RollFromIs(RollStart(cfg, al), 0);
    }
  }

  // ----- flushes in runs

  /** The step ends a locked allocation of CPU `k`. */
  predicate Settles(cfg: Config, st: State, step: Step, k: nat)
    requires WellFormed(st) && Enabled(st, step)
  {
    || (step == Enter(k) && Apply(cfg, st, step).lock.Free?)
    || (step == Finish && st.lock.cpu == k)
  }

  predicate Unsettled(cfg: Config, st: State, steps: seq<Step>, k: nat)
    requires WellFormed(st)
    decreases |steps|
  {
    steps == [] || (
      && Enabled(st, steps[0]) && !Settles(cfg, st, steps[0], k)
      && Unsettled(cfg, Apply(cfg, st, steps[0]), steps[1..], k))
  }

  /** As long as the CPU does not settle, it has a flush pending exactly if one was or a roll-over has ended. */
  lemma {:induction false} PendingExactlyAfterRollOver(cfg: Config, st: State, steps: seq<Step>, st': State, k: nat)
    requires WellFormed(st) && k < |st.pc| && Reaches(cfg, st, steps, st') && Unsettled(cfg, st, steps, k)
    ensures |st'.pc| == |st.pc| && WellFormed(st')
    ensures st'.al.pending[k] <==> st.al.pending[k] || Finish in steps
    ensures st.log[k] <= st'.log[k]
    decreases |steps|
  {
    if steps != [] {
      var mid := Apply(cfg, st, steps[0]);
      PendingStep(cfg, st, steps[0], k);
      PendingExactlyAfterRollOver(cfg, mid, steps[1..], st', k);
      assert steps == [steps[0]] + steps[1..];
    }
  }

  lemma PendingStep(cfg: Config, st: State, step: Step, k: nat)
    requires WellFormed(st) && k < |st.pc| && Enabled(st, step) && !Settles(cfg, st, step, k)
    ensures var st' := Apply(cfg, st, step);
            && |st'.pc| == |st.pc| && st.log[k] <= st'.log[k]
            && (st'.al.pending[k] <==> st.al.pending[k] || step.Finish?)
  {}

  /** Settling empties the log exactly if a flush was pending or a roll-over ends here. */
  lemma SettleFlushes(cfg: Config, st: State, step: Step, k: nat)
    requires WellFormed(st) && k < |st.pc| && Enabled(st, step) && Settles(cfg, st, step, k)
    ensures var st' := Apply(cfg, st, step);
            && |st'.pc| == |st.pc| && !st'.al.pending[k] && st'.run[k].Runs? && st'.lock.Free?
            && st'.log[k] == (if st.al.pending[k] || step.Finish? then {} else st.log[k])
                             + {(st'.run[k].num, st'.run[k].space)}
  {}

  /**
    The whole run: from a state in which CPU `k` has no flush pending, as it is at the start and whenever
    it has settled, its next settling empties its log exactly if a roll-over has ended in between.
   */
  lemma FlushExactlyAfterRollOver(cfg: Config, st: State, steps: seq<Step>, mid: State, step: Step, k: nat)
    requires WellFormed(st) && k < |st.pc| && !st.al.pending[k]
    requires Reaches(cfg, st, steps, mid) && Unsettled(cfg, st, steps, k)
    requires WellFormed(mid) && Enabled(mid, step) && Settles(cfg, mid, step, k)
    ensures var st' := Apply(cfg, mid, step);
            && |st'.pc| == |mid.pc| == |st.pc| && !st'.al.pending[k] && st'.run[k].Runs?
            && st'.log[k] == (if Finish in steps + [step] then {} else mid.log[k])
                             + {(st'.run[k].num, st'.run[k].space)}
  {
    PendingExactlyAfterRollOver(cfg, st, steps, mid, k);
    SettleFlushes(cfg, mid, step, k);
  }

  lemma NothingPendingAtStart(cfg: Config, cpus: nat, spaces: nat, k: nat)
    requires k < cpus
    ensures var st := Init(cfg, cpus, spaces);
            && WellFormed(st) && k < |st.pc| && !st.al.pending[k] && st.log[k] == {} && st.al.gen == 1
            && st.al.active[k] == st.al.reserved[k] == Invalid && st.al.bitmap == {} && st.al.idx == cfg.base
  {}

  // ----- the lock-free path

  /**
    `get_or_alloc_asid` without interruption, up to the lock: with a current tuple it is made active, and
    that is all if the CPU's active tuple was valid; otherwise the CPU goes for the lock.
   */
  lemma FastPath(cfg: Config, st: State, c: nat, s: nat) returns (steps: seq<Step>, st': State)
    requires WellFormed(st) && c < |st.pc| && s < |st.stored| && st.pc[c].Idle?
    ensures WellFormed(st') && Reaches(cfg, st, steps, st')
    ensures var a := st.stored[s];
            var al := st.al.(active := st.al.active[c := a]);
            st' == if !(a.Tuple? && a.gen == st.al.gen) then
                     st.(pc := st.pc[c := Waiting(s)])
                   else if st.al.active[c].Tuple? then
                     st.(al := al, run := st.run[c := Runs(s, a.num)], log := st.log[c := st.log[c] + {(a.num, s)}])
                   else
                     st.(al := al, pc := st.pc[c := Planted(s, a)])
  {
    var a := st.stored[s];
    var st1 := Apply(cfg, st, Load(c, s));
    var st2 := Apply(cfg, st1, Check(c));
    if !Current(st.al, a) {
      steps, st' := [Load(c, s), Check(c)], st2;
      assert st'.pc == st.pc[c := Waiting(s)];
      assert steps[1..] == [Check(c)] && steps[1..][1..] == [];
    } else {
      steps, st' := [Load(c, s), Check(c), Exchange(c)], Apply(cfg, st2, Exchange(c));
      assert st'.pc == if st.al.active[c].Tuple? then st.pc else st.pc[c := Planted(s, a)];
      assert steps[1..] == [Check(c), Exchange(c)] && steps[1..][1..] == [Exchange(c)];
      assert [Exchange(c)][1..] == [];
      assert Reaches(cfg, st2, [Exchange(c)], st');
      assert Reaches(cfg, st1, steps[1..], st');
    }
  }
}
