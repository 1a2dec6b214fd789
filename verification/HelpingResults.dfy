/** What each operation does when its CPU is not interrupted: who gets to execute the thread, and what it leaves. */
module HelpingResults {
  import opened Helping

  /** The steps of CPU `c` alone: it starts something and advances; `good` says how its tests come out. */
  predicate Alone(steps: seq<Step>, c: nat, act: Act, good: bool) {
    && steps != [] && steps[0] == Step(c, act)
    && forall i :: 0 < i < |steps| ==> steps[i] == Step(c, Advance(good))
  }

  lemma {:induction false} Longer(start: State, steps: seq<Step>, st: State, step: Step)
    requires Reaches(start, steps, st) && Enabled(st, step)
    ensures Reaches(start, steps + [step], Apply(st, step))
    decreases steps
  {
    if steps == [] {
      assert (steps + [step])[1..] == [];
    } else {
      assert (steps + [step])[1..] == steps[1..] + [step];
      Longer(Apply(start, steps[0]), steps[1..], st, step);
    }
  }

  lemma Begin(st: State, c: nat, act: Act, good: bool) returns (steps: seq<Step>, st': State)
    requires Enabled(st, Step(c, act))
    ensures Reaches(st, steps, st') && Alone(steps, c, act, good)
    ensures var (w, pc) := Do(st.word, c == st.home, st.pc[c], act);
            st' == State(st.home, w, st.pc[c := pc])
  {
    steps, st' := [Step(c, act)], Apply(st, Step(c, act));
    assert steps[1..] == [];
  }

  /** The next access of the CPU. */
  lemma Go(start: State, c: nat, act: Act, good: bool, steps: seq<Step>, st: State)
    returns (all: seq<Step>, st': State)
    requires c < |start.pc| == |st.pc| && Reaches(start, steps, st) && Alone(steps, c, act, good)
    requires CanDo(st.word, c == st.home, st.pc[c], Advance(good))
    ensures Reaches(start, all, st') && Alone(all, c, act, good)
    ensures var (w, pc) := Next(st.word, c == st.home, st.pc[c], good);
            st' == State(st.home, w, st.pc[c := pc])
  {
    all, st' := steps + [Step(c, Advance(good))], Apply(st, Step(c, Advance(good)));
    Longer(start, steps, st, Step(c, Advance(good)));
  }

  /** `need_help` gets as far as the test of the lock word. */
  lemma HelpTests(st: State, c: nat, l: nat) returns (steps: seq<Step>, st': State)
    requires c < |st.pc| && st.pc[c].Away? && st.word.flag == NotRunning && st.word.count > 0
    ensures Reaches(st, steps, st') && Alone(steps, c, Help(l), true)
    ensures st' == State(st.home, st.word.(flag := Trying), st.pc[c := HelpOwner(l)])
  {
    steps, st' := Begin(st, c, Help(l), true);
    steps, st' := Go(st, c, Help(l), true, steps, st');
    assert st'.pc[c] == HelpCount(l);
    steps, st' := Go(st, c, Help(l), true, steps, st');
  }

  /** The thread holds the lock: the CPU executes it. */
  lemma HelpStarts(st: State, c: nat, l: nat) returns (steps: seq<Step>, st': State)
    requires c < |st.pc| && st.pc[c].Away? && st.word.flag == NotRunning && st.word.count > 0 && l in st.word.owned
    ensures Reaches(st, steps, st') && Alone(steps, c, Help(l), true)
    ensures st' == State(st.home, st.word.(flag := Running), st.pc[c := Executing])
  {
    steps, st' := HelpTests(st, c, l);
    steps, st' := Go(st, c, Help(l), true, steps, st');
    steps, st' := Go(st, c, Help(l), true, steps, st');
    steps, st' := Go(st, c, Help(l), true, steps, st');
  }

  /** It does not, or somebody has the token: the CPU goes away again. */
  lemma HelpRefused(st: State, c: nat, l: nat) returns (steps: seq<Step>, st': State)
    requires c < |st.pc| && st.pc[c].Away?
    requires !(st.word.flag == NotRunning && st.word.count > 0 && l in st.word.owned)
    ensures Reaches(st, steps, st') && Alone(steps, c, Help(l), true) && st' == st
  {
    if st.word.flag == NotRunning && st.word.count > 0 {
      steps, st' := HelpTests(st, c, l);
      steps, st' := Go(st, c, Help(l), true, steps, st');
      steps, st' := Go(st, c, Help(l), true, steps, st');
    } else {
      steps, st' := Begin(st, c, Help(l), true);
      steps, st' := Go(st, c, Help(l), true, steps, st');
      if st.word.flag == NotRunning {
        assert st'.pc[c] == HelpCount(l);
        steps, st' := Go(st, c, Help(l), true, steps, st');
        steps, st' := Go(st, c, Help(l), true, steps, st');
      }
    }
    assert st'.pc == st.pc;
  }

  /**
    `need_help` and the switch: a CPU that wants to help for lock `l` gets to execute the thread exactly if
    nobody has the token and the thread holds that lock; otherwise it leaves everything as it was.
   */
  lemma HelpsExactlyIfLockHeld(st: State, c: nat, l: nat) returns (steps: seq<Step>, st': State)
    requires c < |st.pc| && st.pc[c].Away?
    ensures Reaches(st, steps, st') && Alone(steps, c, Help(l), true) && |st'.pc| == |st.pc|
    ensures st'.pc[c].Executing? <==> st.word.flag == NotRunning && st.word.count > 0 && l in st.word.owned
    ensures st'.pc[c].Executing? ==> st' == State(st.home, st.word.(flag := Running), st.pc[c := Executing])
    ensures !st'.pc[c].Executing? ==> st' == st
  {
    if st.word.flag == NotRunning && st.word.count > 0 && l in st.word.owned {
      steps, st' := HelpStarts(st, c, l);
    } else {
      steps, st' := HelpRefused(st, c, l);
    }
  }

  /**
    The home CPU gets to execute the thread exactly if nobody has the token, and it takes the token exactly
    if the thread holds a lock.
   */
  lemma DispatchesExactlyIfFree(st: State) returns (steps: seq<Step>, st': State)
    requires st.home < |st.pc| && st.pc[st.home].Away?
    ensures Reaches(st, steps, st') && Alone(steps, st.home, Dispatch, true) && |st'.pc| == |st.pc|
    ensures st'.pc[st.home].Executing? <==> st.word.flag == NotRunning
    ensures st'.pc[st.home].Executing? ==>
              st' == State(st.home, if st.word.count > 0 then st.word.(flag := Running) else st.word,
                           st.pc[st.home := Executing])
    ensures !st'.pc[st.home].Executing? ==> st' == st
  {
    var c := st.home;
    steps, st' := Begin(st, c, Dispatch, true);
    steps, st' := Go(st, c, Dispatch, true, steps, st');
    if st.word.count == 0 {
      assert st'.pc[c].DispatchCheck?;
      steps, st' := Go(st, c, Dispatch, true, steps, st');
      steps, st' := Go(st, c, Dispatch, true, steps, st');
    } else {
      assert st'.pc[c].DispatchTry?;
      steps, st' := Go(st, c, Dispatch, true, steps, st');
      if st.word.flag == NotRunning {
        assert st'.pc[c].DispatchRecheck?;
        steps, st' := Go(st, c, Dispatch, true, steps, st');
        steps, st' := Go(st, c, Dispatch, true, steps, st');
      }
    }
    assert st'.pc == st.pc[c := st'.pc[c]];
  }

  /** The CPU may take locks: it has the token, or nobody has. */
  predicate MayLock(st: State, c: nat, l: nat) {
    && c < |st.pc| && Enabled(st, Step(c, Acquire(l)))
    && (st.word.count == 0 ==> st.word.flag == NotRunning) && (st.word.count > 0 ==> st.word.flag == Running)
  }

  /** Taking a lock that is free adds and counts it, with the state word at `Running`. */
  lemma AcquiresFreeLock(st: State, c: nat, l: nat) returns (steps: seq<Step>, st': State)
    requires MayLock(st, c, l)
    ensures Reaches(st, steps, st') && Alone(steps, c, Acquire(l), true)
    ensures st' == State(st.home, Word(Running, st.word.count + 1, st.word.owned + {l}, st.word.stuck), st.pc)
  {
    steps, st' := Begin(st, c, Acquire(l), true);
    if st.word.count == 0 {
      steps, st' := Go(st, c, Acquire(l), true, steps, st');
    }
    assert st'.pc[c].AcquireSet?;
    steps, st' := Go(st, c, Acquire(l), true, steps, st');
    steps, st' := Go(st, c, Acquire(l), true, steps, st');
    assert st'.pc == st.pc;
  }

  /** Losing the race for it changes nothing. */
  lemma LosesTakenLock(st: State, c: nat, l: nat) returns (steps: seq<Step>, st': State)
    requires MayLock(st, c, l)
    ensures Reaches(st, steps, st') && Alone(steps, c, Acquire(l), false) && st' == st
  {
    steps, st' := Begin(st, c, Acquire(l), false);
    if st.word.count == 0 {
      steps, st' := Go(st, c, Acquire(l), false, steps, st');
    }
    assert st'.pc[c].AcquireSet?;
    steps, st' := Go(st, c, Acquire(l), false, steps, st');
    if st.word.count == 0 {
      steps, st' := Go(st, c, Acquire(l), false, steps, st');
    }
    assert st'.pc == st.pc;
  }

  /** Releasing a lock takes it back out; the last one, on the home CPU, gives the token back. */
  lemma ReleasesLock(st: State, c: nat, l: nat) returns (steps: seq<Step>, st': State)
    requires Enabled(st, Step(c, Release(l))) && st.word.count > 0
    ensures Reaches(st, steps, st') && Alone(steps, c, Release(l), true)
    ensures var last := st.word.count == 1 && c == st.home;
            st' == State(st.home, Word(if last then NotRunning else st.word.flag, st.word.count - 1,
                                       st.word.owned - {l}, st.word.stuck), st.pc)
  {
    steps, st' := Begin(st, c, Release(l), true);
    steps, st' := Go(st, c, Release(l), true, steps, st');
    steps, st' := Go(st, c, Release(l), true, steps, st');
    if st.word.count == 1 && c == st.home {
      steps, st' := Go(st, c, Release(l), true, steps, st');
    }
    assert st'.pc == st.pc;
  }

  /** Leaving the thread gives back the token, which is what a state of `Running` means, and nothing else. */
  lemma LeavingGivesTokenBack(st: State, c: nat) returns (steps: seq<Step>, st': State)
    requires c < |st.pc| && st.pc[c].Executing?
    ensures Reaches(st, steps, st') && Alone(steps, c, Switch, true)
    ensures st' == State(st.home, if st.word.flag == Running then st.word.(flag := NotRunning) else st.word,
                         st.pc[c := Away])
    ensures Inv(st) ==> (st.word.flag == Running <==> Holds(st, c))
  {
    if Inv(st) { assert LocalOk(st.word, c == st.home, st.pc[c]); }
    steps, st' := Begin(st, c, Switch, true);
    steps, st' := Go(st, c, Switch, true, steps, st');
    if st.word.flag == Running {
      steps, st' := Go(st, c, Switch, true, steps, st');
    }
    assert st'.pc == st.pc[c := Away];
  }

  /** The check for a forgotten token at home without locks finds none. */
  lemma TidyingFindsNothing(st: State, c: nat)
    requires Enabled(st, Step(c, Tidy))
    ensures Apply(st, Step(c, Tidy)).word.flag != Running
    ensures Inv(st) ==> Apply(st, Step(c, Tidy)) == st
  {
    if Inv(st) { assert LocalOk(st.word, c == st.home, st.pc[c]); }
  }
}
