/** Whose tuples are reserved: when a reserved tuple stops being some space's tuple. */
module AsidOwners {
  import opened AsidSpec
  import opened AsidProtocol
  import opened AsidSafety

  /** Every reserved tuple is the tuple of some space. */
  predicate Owned(st: State) {
    forall k :: 0 <= k < |st.al.reserved| && st.al.reserved[k].Tuple? ==> st.al.reserved[k] in st.stored
  }

  /**
    The step leaves a reserved tuple without a space: the roll-over ends by renumbering the space it runs
    for, although that space's tuple was planted and has been picked up, or it picks up a planted tuple
    that its space has left behind.
   */
  predicate Orphans(st: State, step: Step)
    requires WellFormed(st) && Enabled(st, step)
  {
    || (step.Finish? && st.stored[st.lock.space].Tuple? && st.stored[st.lock.space] in st.al.reserved)
    || (step.Roll? && st.al.active[st.lock.next].Tuple? && st.al.active[st.lock.next] !in st.stored)
  }

  lemma FinishOwned(cfg: Config, st: State)
    requires Inv(cfg, st) && Enabled(st, Finish) && Owned(st)
    ensures Owned(Apply(cfg, st, Finish)) <==> !Orphans(st, Finish)
  {
    var st' := Apply(cfg, st, Finish);
    var a := st.stored[st.lock.space];
    if Orphans(st, Finish) {
      var k :| 0 <= k < |st.al.reserved| && st.al.reserved[k] == a;
      assert st'.al.reserved[k] == a && a !in st'.stored;
    } else {
      forall k | 0 <= k < |st.al.reserved| && st.al.reserved[k].Tuple? ensures st.al.reserved[k] in st'.stored {
        var t :| 0 <= t < |st.stored| && st.stored[t] == st.al.reserved[k];
        assert st'.stored[t] == st.stored[t];
      }
    }
  }

  lemma EnterOwned(cfg: Config, st: State, c: nat)
    requires Inv(cfg, st) && Enabled(st, Enter(c)) && Owned(st)
    ensures Owned(Apply(cfg, st, Enter(c)))
  {
    var st' := Apply(cfg, st, Enter(c));
    var s := st.pc[c].space;
    forall k | 0 <= k < |st.al.reserved| && st'.al.reserved[k].Tuple? ensures st'.al.reserved[k] in st'.stored {
      if st.al.reserved[k] == st.stored[s] {
        assert st'.stored[s] == st'.al.reserved[k];
      } else {
        var t :| 0 <= t < |st.stored| && st.stored[t] == st.al.reserved[k];
        assert st'.stored[t] == st.stored[t];
      }
    }
  }

  /** Reserved tuples stay owned, except in exactly those cases. */
  lemma OwnerLostExactlyIfOrphaned(cfg: Config, st: State, step: Step)
    requires Inv(cfg, st) && Enabled(st, step) && Owned(st)
    ensures Owned(Apply(cfg, st, step)) <==> !Orphans(st, step)
  {
    match step
    case Finish => FinishOwned(cfg, st);
    case Enter(c) => EnterOwned(cfg, st, c);
    case Roll =>
      assert Apply(cfg, st, step).al.reserved[st.lock.next] ==
             if st.al.active[st.lock.next].Tuple? then st.al.active[st.lock.next] else st.al.reserved[st.lock.next];
    case _ =>
  }

  /** A roll-over picks up a tuple that is no space's only from a CPU that has planted it, or from itself. */
  lemma OrphanIsPlanted(cfg: Config, st: State)
    requires Inv(cfg, st) && Enabled(st, Roll) && Orphans(st, Roll)
    ensures st.pc[st.lock.next].Planted? || st.pc[st.lock.next].Locked?
  {
    assert CpuInv(cfg, st, st.lock.next);
  }

  /** No step of the run orphans a tuple. */
  predicate AvoidsOrphans(cfg: Config, st: State, steps: seq<Step>)
    requires WellFormed(st)
    decreases |steps|
  {
    steps == [] || (
      && Enabled(st, steps[0])
      && !Orphans(st, steps[0])
      && AvoidsOrphans(cfg, Apply(cfg, st, steps[0]), steps[1..]))
  }

  lemma {:induction false} RunOwned(cfg: Config, st: State, steps: seq<Step>, st': State)
    requires Inv(cfg, st) && Roomy(cfg, |st.pc|) && Owned(st)
    requires Reaches(cfg, st, steps, st') && AvoidsClashes(cfg, st, steps) && AvoidsOrphans(cfg, st, steps)
    ensures Owned(st')
    decreases |steps|
  {
    if steps != [] {
      StepInv(cfg, st, steps[0]);
      OwnerLostExactlyIfOrphaned(cfg, st, steps[0]);
      RunOwned(cfg, Apply(cfg, st, steps[0]), steps[1..], st');
    }
  }

  /** In every run without clashes and without orphaning steps every reserved tuple is some space's tuple. */
  lemma RunsKeepOwners(cfg: Config, cpus: nat, spaces: nat, steps: seq<Step>, st: State)
    requires Roomy(cfg, cpus) && Reaches(cfg, Init(cfg, cpus, spaces), steps, st)
    requires AvoidsClashes(cfg, Init(cfg, cpus, spaces), steps) && AvoidsOrphans(cfg, Init(cfg, cpus, spaces), steps)
    ensures Owned(st)
  {
    InitInv(cfg, cpus, spaces);
    RunOwned(cfg, Init(cfg, cpus, spaces), steps, st);
  }
}
