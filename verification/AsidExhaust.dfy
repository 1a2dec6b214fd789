/**
  Room is needed: with no more usable numbers than CPUs the allocator hands out a number that does not
  exist.  Every number runs on a CPU of its own when a roll-over starts, and so all of them stay reserved.
 */
module AsidExhaust {
  import opened AsidSpec
  import opened AsidProtocol
  import opened AsidSafety
  import opened AsidRoom
  import opened AsidClash

  /** CPU `j` runs space `j` under the `j`th number, for all `j` below `k`, and nothing else has happened. */
  predicate Filled(cfg: Config, st: State, k: nat) {
    && WellFormed(st) && st.lock.Free? && k <= |st.pc| && k <= |st.stored|
    && st.al.gen == 1 && st.al.bitmap == {} && st.al.idx == cfg.base + k
    && (forall j :: 0 <= j < |st.pc| ==> st.pc[j].Idle? && st.al.reserved[j] == Invalid)
    && (forall j :: 0 <= j < k ==> st.al.active[j] == Tuple(1, cfg.base + j))
    && (forall j :: k <= j < |st.pc| ==> st.al.active[j] == Invalid)
    && (forall j :: 0 <= j < k ==> st.stored[j] == Tuple(1, cfg.base + j))
    && (forall j :: k <= j < |st.stored| ==> st.stored[j] == Invalid)
  }

  lemma FillOne(cfg: Config, st: State, k: nat) returns (st': State)
    requires Filled(cfg, st, k) && k < |st.pc| && k < |st.stored| && cfg.base + k < cfg.limit
    ensures Reaches(cfg, st, Switch(k, k), st') && AvoidsClashes(cfg, st, Switch(k, k))
    ensures Filled(cfg, st', k + 1) && |st'.pc| == |st.pc| && |st'.stored| == |st.stored|
  {
    var st1 := Apply(cfg, st, Load(k, k));
    var st2 := Apply(cfg, st1, Check(k));
    st' := Apply(cfg, st2, Enter(k));
    assert Switch(k, k)[1..] == [Check(k), Enter(k)] && Switch(k, k)[1..][1..] == [Enter(k)];
    assert Reaches(cfg, st2, [Enter(k)], st') && AvoidsClashes(cfg, st2, [Enter(k)]);
  }

  lemma InitFilled(cfg: Config, cpus: nat, spaces: nat)
    ensures Filled(cfg, Init(cfg, cpus, spaces), 0)
  {}

  /** From here on the first `k` CPUs can be filled, one after the other. */
  lemma {:induction false} Fill(cfg: Config, st: State, i: nat, k: nat) returns (steps: seq<Step>, st': State)
    requires Filled(cfg, st, i) && i <= k <= |st.pc| && k <= |st.stored| && cfg.base + k <= cfg.limit
    ensures Reaches(cfg, st, steps, st') && AvoidsClashes(cfg, st, steps)
    ensures Filled(cfg, st', k) && |st'.pc| == |st.pc| && |st'.stored| == |st.stored|
    decreases k - i
  {
    if i == k {
      steps, st' := [], st;
    } else {
      var mid := FillOne(cfg, st, i);
      var more, end := Fill(cfg, mid, i + 1, k);
      Chain(cfg, st, Switch(i, i), mid, more, end);
      steps, st' := Switch(i, i) + more, end;
    }
  }

  /** A roll-over run to its end avoids a clash if its last exchange leaves none. */
  lemma {:induction false} RollAvoids(cfg: Config, st: State, left: nat)
    requires WellFormed(st) && st.lock.Rolling? && st.lock.next + left == |st.pc|
    requires !SomeClash(st.stored, RollFrom(st.al, st.lock.next).reserved, st.lock.space)
    ensures AvoidsClashes(cfg, st, RollSteps(left) + [Finish])
    decreases left
  {
    var steps := RollSteps(left) + [Finish];
    if left == 0 {
      assert steps == [Finish];
      assert steps[1..] == [];
    } else {
      assert steps[0] == Roll && steps[1..] == RollSteps(left - 1) + [Finish];
      RollAvoids(cfg, Apply(cfg, st, Roll), left - 1);
    }
  }

  /** With all numbers active, the roll-over finds none clear. */
  lemma NothingClear(cfg: Config, al: Alloc, k: nat)
    requires Shaped(al, |al.active|) && cfg.base + k == cfg.limit && k <= |al.active|
    requires forall j :: 0 <= j < k ==> al.active[j] == Tuple(1, cfg.base + j)
    requires forall j :: 0 <= j < |al.active| ==> al.reserved[j] == Invalid
    requires forall j :: k <= j < |al.active| ==> al.active[j] == Invalid
    ensures var r := RollFrom(RollStart(cfg, al), 0);
            && FindNext(r.bitmap, cfg.base, cfg.limit) == cfg.limit && r.idx == cfg.base
            && r.reserved == al.active && r.gen == al.gen + 1
  {
    var r := RollFrom(RollStart(cfg, al), 0);
    RolledBitmap(RollStart(cfg, al), 0);
    forall n | cfg.base <= n < cfg.limit ensures n in r.bitmap {
      assert r.reserved[n - cfg.base] == al.active[n - cfg.base];
    }
    assert r.reserved == al.active;
  }

  /** One more space: the roll-over it needs ends with the number past the last one. */
  lemma Overflow(cfg: Config, st: State, k: nat) returns (steps: seq<Step>, st': State)
    requires Filled(cfg, st, k) && cfg.base + k == cfg.limit && 0 < k < |st.stored|
    ensures Reaches(cfg, st, steps, st') && AvoidsClashes(cfg, st, steps)
    ensures |st'.stored| == |st.stored| && st'.stored[k] == Tuple(2, cfg.limit)
  {
    var st1 := Apply(cfg, st, Load(0, k));
    var st2 := Apply(cfg, st1, Check(0));
    var st3 := Apply(cfg, st2, Enter(0));
    assert st2.al == st.al && st2.stored == st.stored && st2.pc[0] == Waiting(k);
    NothingClear(cfg, st.al, k);
    LockedPathIsAllocAsid(cfg, st2, 0);
    var more := RollSteps(|st.pc|) + [Finish];
    var (al, a, flush) := AllocAsid(cfg, st.al, 0, st.stored[k]);
    assert NeedsRollOver(cfg, st.al, st.stored[k]) && a == Tuple(2, cfg.limit) && flush;
    st' := State(al, st.stored[k := a], Free, st2.pc[0 := Idle], st.run[0 := Runs(k, a.num)],
                 st.log[0 := {} + {(a.num, k)}]);
    assert st3.lock == Rolling(0, k, 0);
    FilledDoNotClash(cfg, st, k);
    RollAvoids(cfg, st3, |st.pc|);
    steps := Switch(0, k) + more;
    assert Switch(0, k)[1..] == [Check(0), Enter(0)] && Switch(0, k)[1..][1..] == [Enter(0)];
    assert Reaches(cfg, st2, [Enter(0)], st3) && AvoidsClashes(cfg, st2, [Enter(0)]);
    Chain(cfg, st, Switch(0, k), st3, more, st');
  }

  lemma FilledDoNotClash(cfg: Config, st: State, k: nat)
    requires Filled(cfg, st, k)
    ensures forall but: nat :: !SomeClash(st.stored, st.al.active, but)
  {}

  /** With a number for every space but one, and no more numbers than CPUs, that space gets a number out of range. */
  lemma NumberOutOfRange(cfg: Config, cpus: nat, spaces: nat) returns (steps: seq<Step>, st: State)
    requires cfg.base < cfg.limit && !Roomy(cfg, cpus) && cfg.limit - cfg.base < spaces
    ensures Reaches(cfg, Init(cfg, cpus, spaces), steps, st) && AvoidsClashes(cfg, Init(cfg, cpus, spaces), steps)
    ensures exists s :: 0 <= s < |st.stored| && st.stored[s].Tuple? && st.stored[s].num == cfg.limit
  {
    var k := cfg.limit - cfg.base;
    InitFilled(cfg, cpus, spaces);
    var first, mid := Fill(cfg, Init(cfg, cpus, spaces), 0, k);
    var more, end := Overflow(cfg, mid, k);
    Chain(cfg, Init(cfg, cpus, spaces), first, mid, more, end);
    steps, st := first + more, end;
    assert st.stored[k].num == cfg.limit;
  }

  /** In all runs in which no roll-over ends in a clash every number is in range. */
  ghost predicate InRange(cfg: Config, cpus: nat, spaces: nat) {
    forall steps, st ::
      Reaches(cfg, Init(cfg, cpus, spaces), steps, st) && AvoidsClashes(cfg, Init(cfg, cpus, spaces), steps) ==>
        forall s :: 0 <= s < |st.stored| && st.stored[s].Tuple? ==> cfg.base <= st.stored[s].num < cfg.limit
  }

  /** Numbers stay in range exactly if there are more of them than CPUs. */
  lemma InRangeExactlyIfRoomy(cfg: Config, cpus: nat, spaces: nat)
    requires cfg.base < cfg.limit && cfg.limit - cfg.base < spaces
    ensures InRange(cfg, cpus, spaces) <==> Roomy(cfg, cpus)
  {
    if Roomy(cfg, cpus) {
      forall steps, st |
        Reaches(cfg, Init(cfg, cpus, spaces), steps, st) && AvoidsClashes(cfg, Init(cfg, cpus, spaces), steps)
        ensures forall s :: 0 <= s < |st.stored| && st.stored[s].Tuple? ==> cfg.base <= st.stored[s].num < cfg.limit
      {
        RunsAreSafe(cfg, cpus, spaces, steps, st);
      }
    } else {
      var steps, st := NumberOutOfRange(cfg, cpus, spaces);
      assert Reaches(cfg, Init(cfg, cpus, spaces), steps, st);
    }
  }
}
