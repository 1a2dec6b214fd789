/**
  When roll-overs are safe.  A clash at the end of a roll-over is exactly what breaks the uniqueness of
  numbers, and a clash needs a stale plant: a CPU that passes the generation test, is overtaken by
  roll-overs, and exchanges its outdated tuple in before a further roll-over comes to it.
 */
module AsidClash {
  import opened AsidSpec
  import opened AsidProtocol
  import opened AsidSafety

  /** Numbers stay unique in every continuation in which no later roll-over ends in a clash. */
  ghost predicate StaysUnique(cfg: Config, st: State)
    requires WellFormed(st)
  {
    forall steps, st' :: Reaches(cfg, st, steps, st') && AvoidsClashes(cfg, st, steps) ==> UniqueNumbers(st')
  }

  /** The end of a roll-over is safe exactly if there is no clash. */
  lemma RollOverIsSafeExactlyWithoutClash(cfg: Config, st: State)
    requires Inv(cfg, st) && Roomy(cfg, |st.pc|) && Enabled(st, Finish)
    ensures !Clash(st) <==> StaysUnique(cfg, Apply(cfg, st, Finish))
  {
    var end := Apply(cfg, st, Finish);
    if Clash(st) {
      var s, t :| 0 <= s < |st.stored| && 0 <= t < |st.stored| &&
                  Clashing(st.stored, st.al.reserved, st.lock.space, s, t);
      ClashBreaksUniqueness(cfg, st, s, t);
    } else {
      FinishInv(cfg, st);
      forall steps, st' | Reaches(cfg, end, steps, st') && AvoidsClashes(cfg, end, steps) ensures UniqueNumbers(st') {
        RunInv(cfg, end, steps, st');
        CurrentIsLive(cfg, st');
      }
    }
  }

  // ----- two spaces reclaim one number

  function Switch(c: nat, s: nat): seq<Step> {
    [Load(c, s), Check(c), Enter(c)]
  }

  /** CPU `c` switches to a space whose outdated tuple is reserved, and that space gets its number back. */
  lemma Reclaims(cfg: Config, st: State, c: nat, s: nat) returns (st': State)
    requires WellFormed(st) && st.lock.Free? && c < |st.pc| && st.pc[c].Idle? && s < |st.stored|
    requires !Current(st.al, st.stored[s]) && Reclaimable(st.al, st.stored[s])
    ensures WellFormed(st') && Reaches(cfg, st, Switch(c, s), st') && AvoidsClashes(cfg, st, Switch(c, s))
    ensures st'.lock.Free? && st'.pc == st.pc && st'.stored == st.stored[s := Tuple(st.al.gen, st.stored[s].num)]
    ensures st'.al.gen == st.al.gen && st'.al.bitmap == st.al.bitmap
    ensures st'.al.reserved == Renew(st.al.reserved, st.stored[s], Tuple(st.al.gen, st.stored[s].num))
  {
    var st1 := Apply(cfg, st, Load(c, s));
    var st2 := Apply(cfg, st1, Check(c));
    st' := Apply(cfg, st2, Enter(c));
    assert Switch(c, s)[1..] == [Check(c), Enter(c)] && Switch(c, s)[1..][1..] == [Enter(c)];
    assert Reaches(cfg, st2, [Enter(c)], st') && AvoidsClashes(cfg, st2, [Enter(c)]);
    assert st'.pc == st.pc;
  }

  lemma {:induction false} ChainReaches(cfg: Config, st: State, steps: seq<Step>, mid: State, more: seq<Step>,
                                        end: State)
    requires WellFormed(st) && Reaches(cfg, st, steps, mid) && WellFormed(mid) && Reaches(cfg, mid, more, end)
    ensures Reaches(cfg, st, steps + more, end)
    decreases |steps|
  {
    if steps == [] {
      assert steps + more == more;
    } else {
      assert (steps + more)[1..] == steps[1..] + more;
      ChainReaches(cfg, Apply(cfg, st, steps[0]), steps[1..], mid, more, end);
    }
  }

  lemma {:induction false} ChainAvoids(cfg: Config, st: State, steps: seq<Step>, mid: State, more: seq<Step>)
    requires WellFormed(st) && Reaches(cfg, st, steps, mid) && AvoidsClashes(cfg, st, steps)
    requires WellFormed(mid) && AvoidsClashes(cfg, mid, more)
    ensures AvoidsClashes(cfg, st, steps + more)
    decreases |steps|
  {
    if steps == [] {
      assert steps + more == more;
    } else {
      assert (steps + more)[1..] == steps[1..] + more;
      ChainAvoids(cfg, Apply(cfg, st, steps[0]), steps[1..], mid, more);
    }
  }

  lemma Chain(cfg: Config, st: State, steps: seq<Step>, mid: State, more: seq<Step>, end: State)
    requires WellFormed(st) && Reaches(cfg, st, steps, mid) && AvoidsClashes(cfg, st, steps)
    requires WellFormed(mid) && Reaches(cfg, mid, more, end) && AvoidsClashes(cfg, mid, more)
    ensures Reaches(cfg, st, steps + more, end) && AvoidsClashes(cfg, st, steps + more)
  {
    ChainReaches(cfg, st, steps, mid, more, end);
    ChainAvoids(cfg, st, steps, mid, more);
  }

  /** Switching to the one space and then to the other gives both the number. */
  lemma BothReclaim(cfg: Config, st: State, c: nat, s: nat, t: nat) returns (st': State)
    requires WellFormed(st) && st.lock.Free? && c < |st.pc| && st.pc[c].Idle?
    requires s < |st.stored| && t < |st.stored| && s != t && st.stored[s] != st.stored[t]
    requires !Current(st.al, st.stored[s]) && Reclaimable(st.al, st.stored[s])
    requires !Current(st.al, st.stored[t]) && Reclaimable(st.al, st.stored[t])
    ensures Reaches(cfg, st, Switch(c, s) + Switch(c, t), st')
    ensures AvoidsClashes(cfg, st, Switch(c, s) + Switch(c, t))
    ensures st'.al.gen == st.al.gen && |st'.stored| == |st.stored|
    ensures st'.stored[s] == Tuple(st.al.gen, st.stored[s].num) && st'.stored[t] == Tuple(st.al.gen, st.stored[t].num)
  {
    var mid := Reclaims(cfg, st, c, s);
    var k :| 0 <= k < |st.al.reserved| && st.al.reserved[k] == st.stored[t];
    assert mid.al.reserved[k] == st.stored[t];
    st' := Reclaims(cfg, mid, c, t);
    Chain(cfg, st, Switch(c, s), mid, Switch(c, t), st');
  }

  /** The rolling CPU does that. */
  lemma ClashBreaksUniqueness(cfg: Config, st: State, s: nat, t: nat)
    requires Inv(cfg, st) && Enabled(st, Finish)
    requires s < |st.stored| && t < |st.stored|
    requires Clashing(st.stored, st.al.reserved, st.lock.space, s, t)
    ensures !StaysUnique(cfg, Apply(cfg, st, Finish))
  {
    var c, end := st.lock.cpu, Apply(cfg, st, Finish);
    assert end.al.reserved == st.al.reserved && end.al.bitmap == st.al.bitmap;
    var last := BothReclaim(cfg, end, c, s, t);
    assert Current(last.al, last.stored[s]) && Current(last.al, last.stored[t]);
    assert !UniqueNumbers(last);
  }

  // ----- a clash needs a stale plant

  /**
    This step is a roll-over's exchange that picks up a tuple planted by a CPU that is still waiting
    for the lock, and that tuple is older than the generation being retired.
   */
  predicate ReadsStalePlant(st: State, step: Step)
    requires WellFormed(st)
  {
    && step.Roll? && Enabled(st, step)
    && var k := st.lock.next;
       st.pc[k].Planted? && st.al.active[k].Tuple? && st.al.active[k].gen + 1 < st.al.gen
  }

  predicate AvoidsStalePlants(cfg: Config, st: State, steps: seq<Step>)
    requires WellFormed(st)
    decreases |steps|
  {
    steps == [] || (
      && Enabled(st, steps[0])
      && !ReadsStalePlant(st, steps[0])
      && AvoidsStalePlants(cfg, Apply(cfg, st, steps[0]), steps[1..]))
  }

  /** The space's tuple is live or reserved, also during a roll-over, which must not be for it. */
  predicate Kept(st: State, s: nat)
    requires s < |st.stored|
  {
    && st.stored[s].Tuple?
    && (st.stored[s].gen == Era(st) || st.stored[s] in st.al.reserved)
    && !(st.lock.Rolling? && st.lock.space == s)
  }

  predicate KeptDistinct(st: State) {
    forall s, t :: 0 <= s < |st.stored| && 0 <= t < |st.stored| && s != t && Kept(st, s) && Kept(st, t) ==>
      st.stored[s].num != st.stored[t].num
  }

  /** With the lock free kept spaces are live ones. */
  lemma FreeKept(cfg: Config, st: State)
    requires Inv(cfg, st) && st.lock.Free?
    ensures KeptDistinct(st)
  {
    assert forall s :: 0 <= s < |st.stored| && Kept(st, s) ==> Live(st, s);
  }

  /** A tuple that the roll-over picks up, if not stale, is the retired generation's or the roller's. */
  lemma RolledTupleOwner(cfg: Config, st: State, t: nat)
    requires Inv(cfg, st) && Enabled(st, Roll) && !ReadsStalePlant(st, Roll)
    requires t < |st.stored| && st.stored[t] == st.al.active[st.lock.next] && st.stored[t].Tuple?
    ensures t == st.lock.space || st.stored[t].gen == Era(st)
  {
    assert CpuInv(cfg, st, st.lock.next);
  }

  lemma StepKeeps(cfg: Config, st: State, step: Step)
    requires Inv(cfg, st) && KeptDistinct(st) && Enabled(st, step) && !ReadsStalePlant(st, step)
    requires Inv(cfg, Apply(cfg, st, step))
    ensures KeptDistinct(Apply(cfg, st, step))
  {
    var st' := Apply(cfg, st, step);
    if st'.lock.Free? {
      FreeKept(cfg, st');
    } else {
      forall t | 0 <= t < |st.stored| && Kept(st', t) ensures st'.stored[t] == st.stored[t] && Kept(st, t) {
        if step.Roll? && st.stored[t] == st.al.active[st.lock.next] {
          RolledTupleOwner(cfg, st, t);
        }
      }
    }
  }

  lemma KeptDoNotClash(st: State)
    requires KeptDistinct(st)
    ensures !Clash(st)
  {}

  lemma {:induction false} WithoutStalePlants(cfg: Config, st: State, steps: seq<Step>)
    requires Inv(cfg, st) && KeptDistinct(st) && Roomy(cfg, |st.pc|) && AvoidsStalePlants(cfg, st, steps)
    ensures AvoidsClashes(cfg, st, steps)
    decreases |steps|
  {
    if steps != [] {
      KeptDoNotClash(st);
      StepInv(cfg, st, steps[0]);
      StepKeeps(cfg, st, steps[0]);
      WithoutStalePlants(cfg, Apply(cfg, st, steps[0]), steps[1..]);
    }
  }

  /** If no roll-over of a run reads a stale plant, none ends in a clash, and so numbers are unique. */
  lemma RunsWithoutStalePlants(cfg: Config, cpus: nat, spaces: nat, steps: seq<Step>, st: State)
    requires Roomy(cfg, cpus) && Reaches(cfg, Init(cfg, cpus, spaces), steps, st)
    requires AvoidsStalePlants(cfg, Init(cfg, cpus, spaces), steps)
    ensures AvoidsClashes(cfg, Init(cfg, cpus, spaces), steps) && UniqueNumbers(st)
  {
    InitInv(cfg, cpus, spaces);
    FreeKept(cfg, Init(cfg, cpus, spaces));
    WithoutStalePlants(cfg, Init(cfg, cpus, spaces), steps);
    RunsAreSafe(cfg, cpus, spaces, steps, st);
  }
}
