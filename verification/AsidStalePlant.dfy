/**
  Why runs have to avoid clashes: without that condition the uniqueness of numbers is false of the code.
  Two CPUs, three numbers and five spaces are enough.  CPU 0 passes the generation test, is overtaken by
  a roll-over, and exchanges its outdated tuple in while the next roll-over is already under way but has
  not come to CPU 0 yet.  If CPU 0 gets the lock first and rolls over itself, nothing clashes, but its
  reserved tuple ends up as no space's tuple.
 */
module AsidStalePlant {
  import opened AsidSpec
  import opened AsidProtocol
  import opened AsidSafety
  import opened AsidClash
  import opened AsidOwners

  const SMALL := Config(0, 3)

  /** A run, `clean` if no roll-over reads a stale plant. */
  ghost predicate Run(clean: bool, start: State, steps: seq<Step>, st: State)
    requires WellFormed(start)
  {
    Reaches(SMALL, start, steps, st) && (clean ==> AvoidsStalePlants(SMALL, start, steps))
  }

  /** `st` can be reached from the start with two CPUs and five spaces. */
  ghost predicate Reachable(clean: bool, st: State) {
    && WellFormed(st) && |st.pc| == 2 && |st.stored| == 5
    && exists steps :: Run(clean, Init(SMALL, 2, 5), steps, st)
  }

  lemma Extend(clean: bool, st: State, step: Step) returns (st': State)
    requires Reachable(clean, st) && Enabled(st, step) && (clean ==> !ReadsStalePlant(st, step))
    ensures st' == Apply(SMALL, st, step) && Reachable(clean, st')
  {
    st' := Apply(SMALL, st, step);
    var steps :| Run(clean, Init(SMALL, 2, 5), steps, st);
    Append(clean, Init(SMALL, 2, 5), steps, st, step);
  }

  lemma {:induction false} Append(clean: bool, start: State, steps: seq<Step>, st: State, step: Step)
    requires WellFormed(start) && WellFormed(st) && Run(clean, start, steps, st)
    requires Enabled(st, step) && (clean ==> !ReadsStalePlant(st, step))
    ensures Run(clean, start, steps + [step], Apply(SMALL, st, step))
    decreases |steps|
  {
    if steps == [] {
      assert ([] + [step])[1..] == [];
    } else {
      Append(clean, Apply(SMALL, start, steps[0]), steps[1..], st, step);
      assert (steps + [step])[1..] == steps[1..] + [step];
    }
  }

  /** What the story needs to know of a state. */
  predicate Looks(st: State, gen: nat, stored: seq<Asid>, active: seq<Asid>, reserved: seq<Asid>,
                  bitmap: set<nat>, idx: nat, pc: seq<Pc>, lock: Lock)
  {
    && st.al.gen == gen && st.stored == stored && st.al.active == active && st.al.reserved == reserved
    && st.al.bitmap == bitmap && st.al.idx == idx && st.pc == pc && st.lock == lock
  }

  /** CPU `c` switches to a space that needs a number, and the next one is clear. */
  lemma SwitchTakes(clean: bool, st: State, c: nat, s: nat) returns (st': State)
    requires Reachable(clean, st) && c < 2 && s < 5 && st.pc[c].Idle? && st.lock.Free?
    requires st.stored[s] == Invalid && st.al.idx < 3 && st.al.idx !in st.al.bitmap
    ensures Reachable(clean, st')
    ensures Looks(st', st.al.gen, st.stored[s := Tuple(st.al.gen, st.al.idx)],
                  st.al.active[c := Tuple(st.al.gen, st.al.idx)], st.al.reserved,
                  st.al.bitmap, st.al.idx + 1, st.pc, Free)
  {
    st' := Extend(clean, st, Load(c, s));
    st' := Extend(clean, st', Check(c));
    st' := Extend(clean, st', Enter(c));
    assert st'.pc == st.pc;
  }

  /** CPU 1 switches to a space that needs a number, and has to roll over. */
  lemma SwitchRolls(clean: bool, st: State, s: nat) returns (st': State)
    requires Reachable(clean, st) && s < 5 && st.pc[1].Idle? && st.lock.Free?
    requires st.stored[s] == Invalid && FindNext(st.al.bitmap, st.al.idx, 3) == 3
    ensures Reachable(clean, st')
    ensures Looks(st', st.al.gen + 1, st.stored, st.al.active, st.al.reserved, {}, 0,
                  st.pc[1 := Locked], Rolling(1, s, 0))
  {
    st' := Extend(clean, st, Load(1, s));
    st' := Extend(clean, st', Check(1));
    st' := Extend(clean, st', Enter(1));
    assert st'.pc == st.pc[1 := Locked];
  }

  /** Both CPUs have something active, and the roll-over reserves both tuples. */
  lemma ExchangesBoth(clean: bool, st: State) returns (st': State)
    requires Reachable(clean, st) && st.lock.Rolling? && st.lock.next == 0
    requires st.al.active[0].Tuple? && st.al.active[1].Tuple?
    requires clean ==> !st.pc[0].Planted? && !st.pc[1].Planted?
    ensures Reachable(clean, st')
    ensures Looks(st', st.al.gen, st.stored, [Invalid, Invalid], [st.al.active[0], st.al.active[1]],
                  st.al.bitmap + {st.al.active[0].num} + {st.al.active[1].num}, st.al.idx, st.pc, st.lock.(next := 2))
  {
    st' := Extend(clean, st, Roll);
    st' := Extend(clean, st', Roll);
    assert st'.al.active == [Invalid, Invalid];
    assert st'.al.reserved == [st.al.active[0], st.al.active[1]];
  }

  /** Then it ends. */
  lemma RollsBoth(clean: bool, st: State) returns (st': State)
    requires Reachable(clean, st) && st.lock.Rolling? && st.lock.next == 0
    requires st.al.active[0].Tuple? && st.al.active[1].Tuple?
    requires clean ==> !st.pc[0].Planted? && !st.pc[1].Planted?
    ensures Reachable(clean, st')
    ensures var bitmap := st.al.bitmap + {st.al.active[0].num} + {st.al.active[1].num};
            var (c, n) := (st.lock.cpu, FindNext(bitmap, st.al.idx, 3));
            n < 3 ==>
              Looks(st', st.al.gen, st.stored[st.lock.space := Tuple(st.al.gen, n)],
                    [Invalid, Invalid][c := Tuple(st.al.gen, n)], [st.al.active[0], st.al.active[1]],
                    bitmap, n + 1, st.pc[c := Idle], Free)
  {
    st' := ExchangesBoth(clean, st);
    st' := Extend(clean, st', Finish);
  }

  /** A CPU at the lock finds its space's outdated tuple reserved and gets its number back. */
  lemma EnterReclaims(clean: bool, st: State, c: nat) returns (st': State)
    requires Reachable(clean, st) && c < 2 && Enabled(st, Enter(c))
    requires var a := st.stored[st.pc[c].space]; !Current(st.al, a) && Reclaimable(st.al, a)
    ensures Reachable(clean, st')
    ensures var s := st.pc[c].space;
            var a := Tuple(st.al.gen, st.stored[s].num);
            Looks(st', st.al.gen, st.stored[s := a], st.al.active[c := a], Renew(st.al.reserved, st.stored[s], a),
                  st.al.bitmap, st.al.idx, st.pc[c := Idle], Free)
  {
    st' := Extend(clean, st, Enter(c));
  }

  /** All three numbers are handed out. */
  lemma TakeAll(clean: bool) returns (st: State)
    ensures Reachable(clean, st)
    ensures Looks(st, 1, [Tuple(1, 1), Tuple(1, 0), Tuple(1, 2), Invalid, Invalid],
                  [Tuple(1, 1), Tuple(1, 2)], [Invalid, Invalid], {}, 3, [Idle, Idle], Free)
  {
    st := Init(SMALL, 2, 5);
    assert Run(clean, st, [], st);
    st := SwitchTakes(clean, st, 0, 1);
    st := SwitchTakes(clean, st, 0, 0);
    st := SwitchTakes(clean, st, 1, 2);
    assert st.stored == [Tuple(1, 1), Tuple(1, 0), Tuple(1, 2), Invalid, Invalid];
  }

  /** CPU 0 runs space 0 and is about to exchange in the tuple of space 1; CPU 1 has the last number. */
  lemma Arm(clean: bool) returns (st: State)
    ensures Reachable(clean, st)
    ensures Looks(st, 1, [Tuple(1, 1), Tuple(1, 0), Tuple(1, 2), Invalid, Invalid],
                  [Tuple(1, 1), Tuple(1, 2)], [Invalid, Invalid], {}, 3,
                  [Checked(1, Tuple(1, 0)), Idle], Free)
  {
    st := TakeAll(clean);
    st := Extend(clean, st, Load(0, 1));
    st := Extend(clean, st, Check(0));
  }

  /** A roll-over for space 3 gives it number 0. */
  lemma Overtake(clean: bool, st: State) returns (st': State)
    requires Reachable(clean, st)
    requires Looks(st, 1, [Tuple(1, 1), Tuple(1, 0), Tuple(1, 2), Invalid, Invalid],
                   [Tuple(1, 1), Tuple(1, 2)], [Invalid, Invalid], {}, 3,
                   [Checked(1, Tuple(1, 0)), Idle], Free)
    ensures Reachable(clean, st')
    ensures Looks(st', 2, [Tuple(1, 1), Tuple(1, 0), Tuple(1, 2), Tuple(2, 0), Invalid],
                  [Invalid, Tuple(2, 0)], [Tuple(1, 1), Tuple(1, 2)], {1, 2}, 1,
                  [Checked(1, Tuple(1, 0)), Idle], Free)
  {
    st' := SwitchRolls(clean, st, 3);
    st' := RollsBoth(clean, st');
  }

  /** The next roll-over, for space 4, meets the stale tuple of space 1. */
  lemma Confuse(clean: bool, st: State) returns (st': State)
    requires !clean && Reachable(clean, st)
    requires Looks(st, 2, [Tuple(1, 1), Tuple(1, 0), Tuple(1, 2), Tuple(2, 0), Invalid],
                   [Invalid, Tuple(2, 0)], [Tuple(1, 1), Tuple(1, 2)], {1, 2}, 1,
                   [Checked(1, Tuple(1, 0)), Idle], Free)
    ensures Reachable(clean, st')
    ensures Looks(st', 3, [Tuple(1, 1), Tuple(1, 0), Tuple(1, 2), Tuple(2, 0), Tuple(3, 1)],
                  [Invalid, Tuple(3, 1)], [Tuple(1, 0), Tuple(2, 0)], {0}, 2,
                  [Planted(1, Tuple(1, 0)), Idle], Free)
  {
    assert FindNext({1, 2}, 1, 3) == 3;
    st' := SwitchRolls(clean, st, 4);
    st' := Extend(clean, st', Exchange(0));
    assert st'.al.active == [Tuple(1, 0), Tuple(2, 0)];
    assert FindNext({0}, 0, 3) == 1;
    st' := RollsBoth(clean, st');
  }

  /** A run of the code after which two spaces have the same current number. */
  lemma StalePlantBreaksUniqueness()
    ensures Roomy(SMALL, 2)
    ensures exists steps, st :: Reaches(SMALL, Init(SMALL, 2, 5), steps, st) && !UniqueNumbers(st)
  {
    var st := Arm(false);
    st := Overtake(false, st);
    st := Confuse(false, st);
    st := EnterReclaims(false, st, 0);
    assert st.al.reserved[1] == Tuple(2, 0);
    st := Extend(false, st, Load(1, 3));
    st := Extend(false, st, Check(1));
    st := EnterReclaims(false, st, 1);
    assert Current(st.al, st.stored[1]) && Current(st.al, st.stored[3]);
    assert !UniqueNumbers(st);
  }

  /** CPU 0 plants the tuple of space 1, gets the lock, and rolls over for that space. */
  lemma RollOwnPlant() returns (st: State)
    ensures Reachable(true, st)
    ensures Looks(st, 3, [Tuple(1, 1), Tuple(1, 0), Tuple(1, 2), Tuple(2, 0), Invalid],
                  [Tuple(1, 0), Tuple(2, 0)], [Tuple(1, 1), Tuple(1, 2)], {}, 0, [Locked, Idle], Rolling(0, 1, 0))
  {
    st := Arm(true);
    st := Overtake(true, st);
    st := Extend(true, st, Exchange(0));
    assert st.al.active == [Tuple(1, 0), Tuple(2, 0)];
    assert FindNext({1, 2}, 1, 3) == 3;
    st := Extend(true, st, Enter(0));
  }

  /** A run without stale plants after which a reserved tuple is no space's tuple. */
  lemma OwnPlantLosesOwner()
    ensures exists steps, st :: Run(true, Init(SMALL, 2, 5), steps, st) && WellFormed(st) && !Owned(st)
  {
    var st := RollOwnPlant();
    assert FindNext({0}, 0, 3) == 1;
    st := RollsBoth(true, st);
    assert st.al.reserved[0] == Tuple(1, 0);
    assert !Owned(st);
  }
}
