/**
  The ASID allocator as a protocol between CPUs.  Each step is one access that another CPU can see:
  on the lock-free path the load of a space's tuple, the generation test and the exchange of `active`;
  on the locked path either the whole of `alloc_asid`, or, when it rolls over, the store of the new
  generation, one exchange for each CPU, and the rest.  Accesses to data that only the lock holder
  touches are taken together with the next visible one.
 */
module AsidProtocol {
  import opened AsidSpec

  /** What a CPU runs: the space last handed to it, under which number. */
  datatype Run = Nothing | Runs(space: nat, num: nat)

  /** Where a CPU is inside `get_or_alloc_asid`. */
  datatype Pc =
    | Idle
    | Loaded(space: nat, a: Asid)    // read the space's tuple
    | Checked(space: nat, a: Asid)   // found its generation current
    | Waiting(space: nat)            // found it outdated: wants the lock
    | Planted(space: nat, a: Asid)   // exchanged it for an invalid tuple: wants the lock
    | Locked                         // rolling over

  datatype Lock = Free | Rolling(cpu: nat, space: nat, next: nat)

  /** `log[c]` holds the (number, space) pairs that CPU `c` ran since its last TLB flush. */
  datatype State = State(
    al: Alloc,
    stored: seq<Asid>,
    lock: Lock,
    pc: seq<Pc>,
    run: seq<Run>,
    log: seq<set<(nat, nat)>>)

  datatype Step =
    | Load(cpu: nat, space: nat)
    | Check(cpu: nat)
    | Exchange(cpu: nat)
    | Enter(cpu: nat)
    | Roll
    | Finish

  predicate PcFits(pc: Pc, spaces: nat) {
    (pc.Loaded? || pc.Checked? || pc.Waiting? || pc.Planted?) ==> pc.space < spaces
  }

  predicate WellFormed(st: State) {
    var n := |st.pc|;
    && Shaped(st.al, n) && |st.run| == n && |st.log| == n
    && (forall k :: 0 <= k < n ==> PcFits(st.pc[k], |st.stored|))
    && (st.lock.Rolling? ==> st.lock.cpu < n && st.lock.space < |st.stored| && st.lock.next <= n)
  }

  function Init(cfg: Config, cpus: nat, spaces: nat): (st: State) {
    State(Fresh(cfg, cpus), seq(spaces, _ => Invalid), Free,
          seq(cpus, _ => Idle), seq(cpus, _ => Nothing), seq(cpus, _ => {}))
  }

  predicate Enabled(st: State, step: Step) {
    match step
    case Load(c, s) => c < |st.pc| && s < |st.stored| && st.pc[c].Idle?
    case Check(c) => c < |st.pc| && st.pc[c].Loaded?
    case Exchange(c) => c < |st.pc| && st.pc[c].Checked?
    case Enter(c) => c < |st.pc| && (st.pc[c].Waiting? || st.pc[c].Planted?) && st.lock.Free?
    case Roll => st.lock.Rolling? && st.lock.next < |st.pc|
    case Finish => st.lock.Rolling? && st.lock.next == |st.pc|
  }

  /** Store the space's tuple, make it active, consume a pending flush, release the lock, run the space. */
  function Settle(st: State, c: nat, s: nat, al: Alloc, a: Asid): (r: State)
    requires WellFormed(st) && c < |st.pc| && s < |st.stored| && Shaped(al, |st.pc|) && a.Tuple?
    ensures WellFormed(r)
  {
    var (al', flush) := Publish(al, c, a);
    State(al', st.stored[s := a], Free, st.pc[c := Idle], st.run[c := Runs(s, a.num)],
          st.log[c := (if flush then {} else st.log[c]) + {(a.num, s)}])
  }

  function Apply(cfg: Config, st: State, step: Step): (r: State)
    requires WellFormed(st) && Enabled(st, step)
    ensures WellFormed(r)
  {
    match step
    case Load(c, s) =>
      st.(pc := st.pc[c := Loaded(s, st.stored[s])])
    case Check(c) =>
      var Loaded(s, a) := st.pc[c];
      st.(pc := st.pc[c := if Current(st.al, a) then Checked(s, a) else Waiting(s)])
    case Exchange(c) =>
      var Checked(s, a) := st.pc[c];
      var st' := st.(al := st.al.(active := st.al.active[c := a]));
      if st.al.active[c].Tuple? && a.Tuple? then
        st'.(pc := st.pc[c := Idle], run := st.run[c := Runs(s, a.num)],
             log := st.log[c := st.log[c] + {(a.num, s)}])
      else
        st'.(pc := st.pc[c := Planted(s, a)])
    case Enter(c) =>
      var s := st.pc[c].space;
      var a := st.stored[s];
      if Current(st.al, a) then
        Settle(st, c, s, st.al, a)
      else if NeedsRollOver(cfg, st.al, a) then
        st.(al := RollStart(cfg, st.al), lock := Rolling(c, s, 0), pc := st.pc[c := Locked])
      else
        var (al', a') := Renumber(cfg, st.al, a);
        Settle(st, c, s, al', a')
    case Roll =>
      st.(al := RollOne(st.al, st.lock.next), lock := st.lock.(next := st.lock.next + 1))
    case Finish =>
      var (al', a') := TakeNext(cfg, RollEnd(st.al));
      Settle(st, st.lock.cpu, st.lock.space, al', a')
  }

  /** The run that takes the given steps from `st` is possible and ends in `st'`. */
  predicate Reaches(cfg: Config, st: State, steps: seq<Step>, st': State)
    requires WellFormed(st)
    decreases |steps|
  {
    if steps == [] then st' == st
    else Enabled(st, steps[0]) && Reaches(cfg, Apply(cfg, st, steps[0]), steps[1..], st')
  }

  /** Two spaces, neither of them `but`, have reserved tuples with the same number. */
  predicate Clashing(stored: seq<Asid>, reserved: seq<Asid>, but: nat, s: nat, t: nat)
    requires s < |stored| && t < |stored|
  {
    && s != t && s != but && t != but
    && stored[s].Tuple? && stored[t].Tuple? && stored[s].num == stored[t].num
    && stored[s] in reserved && stored[t] in reserved
  }

  predicate SomeClash(stored: seq<Asid>, reserved: seq<Asid>, but: nat) {
    exists s, t :: 0 <= s < |stored| && 0 <= t < |stored| && Clashing(stored, reserved, but, s, t)
  }

  /** That is so of two spaces for which the roll-over does not run. */
  predicate Clash(st: State) {
    st.lock.Rolling? && SomeClash(st.stored, st.al.reserved, st.lock.space)
  }

  /** No roll-over of the run ends in a clash. */
  predicate AvoidsClashes(cfg: Config, st: State, steps: seq<Step>)
    requires WellFormed(st)
    decreases |steps|
  {
    steps == [] || (
      && Enabled(st, steps[0])
      && (steps[0].Finish? ==> !Clash(st))
      && AvoidsClashes(cfg, Apply(cfg, st, steps[0]), steps[1..]))
  }

  /** `alloc_asid` run without interruption is the Enter step, followed by the whole roll-over if one starts. */
  lemma LockedPathIsAllocAsid(cfg: Config, st: State, c: nat)
    requires WellFormed(st) && Enabled(st, Enter(c))
    ensures var s := st.pc[c].space;
            var (al, a, flush) := AllocAsid(cfg, st.al, c, st.stored[s]);
            var st' := State(al, st.stored[s := a], Free, st.pc[c := Idle], st.run[c := Runs(s, a.num)],
                             st.log[c := (if flush then {} else st.log[c]) + {(a.num, s)}]);
            if Apply(cfg, st, Enter(c)).lock.Free? then Apply(cfg, st, Enter(c)) == st'
            else Reaches(cfg, Apply(cfg, st, Enter(c)), RollSteps(|st.pc|) + [Finish], st')
  {
    var s := st.pc[c].space;
    var a := st.stored[s];
    if !Current(st.al, a) && NeedsRollOver(cfg, st.al, a) {
      var st1 := Apply(cfg, st, Enter(c));
      RollStepsRun(cfg, st1, |st.pc|);
      assert st1.pc[c := Idle] == st.pc[c := Idle];
    }
  }

  function RollSteps(n: nat): (r: seq<Step>)
    ensures |r| == n
  {
    seq(n, _ => Roll)
  }

  lemma {:induction false} RollStepsRun(cfg: Config, st: State, left: nat)
    requires WellFormed(st) && st.lock.Rolling? && st.lock.next + left == |st.pc|
    ensures var al := RollFrom(st.al, st.lock.next);
            var st' := st.(al := al, lock := st.lock.(next := |st.pc|));
            Reaches(cfg, st, RollSteps(left) + [Finish], Apply(cfg, st', Finish))
    decreases left
  {
    var steps := RollSteps(left) + [Finish];
    if left == 0 {
      assert steps == [Finish];
      assert steps[1..] == [];
    } else {
      assert steps[0] == Roll;
      assert steps[1..] == RollSteps(left - 1) + [Finish];
      RollStepsRun(cfg, Apply(cfg, st, Roll), left - 1);
    }
  }
}
