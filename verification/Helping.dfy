/**
  Cross-CPU helping for one thread: who may execute it when it holds helping locks.  Every CPU may try
  to help the thread at any time, its home CPU may dispatch it, and the thread itself takes and
  releases locks wherever it executes.  Each step is one access to the thread's state word, its lock
  count or a lock word; the home CPU is fixed.
 */
module Helping {

  datatype Flag = NotRunning | Trying | Running

  /** What a CPU is doing with the thread. */
  datatype Pc =
    | Away                            // something else
    // the home CPU in switch_exec_locked and running_on_different_cpu
    | DispatchStart
    | DispatchCheck                   // read a lock count of zero
    | DispatchTry                     // about to call try_dispatch
    | DispatchRecheck                 // won it, re-reads the lock count
    | DispatchReset                   // no locks: gives the token back
    | DispatchGo(token: bool)         // about to test readiness and switch
    // any CPU in switch_exec_helping and need_help
    | HelpTry(lock: nat)
    | HelpCount(lock: nat)            // won try_to_help
    | HelpOwner(lock: nat)            // the thread holds locks
    | HelpStart                       // and this is one of them
    | HelpAbort
    | HelpGo                          // about to test readiness and switch
    // executing the thread
    | Executing
    | AcquireTry(lock: nat)           // no locks yet: spins on try_dispatch
    | AcquireSet(lock: nat, first: bool)
    | AcquireReset                    // lost the lock word, gives the token back
    | AcquireCount(lock: nat)         // won the lock word, counts it
    | ReleaseClear(lock: nat)
    | ReleaseCount
    | ReleaseReset                    // last lock, on the home CPU
    // switched away, in handle_lock_holder_preemption
    | Left(token: bool)
    | LeftStore

  /** What all CPUs see; `stuck` records that a CPU took the token and then found the thread not ready. */
  datatype Word = Word(flag: Flag, count: nat, owned: set<nat>, stuck: bool)

  datatype State = State(home: nat, word: Word, pc: seq<Pc>)

  datatype Act =
    | Dispatch                        // the home CPU picks the thread
    | Help(lock: nat)                 // a CPU waits for a lock held by the thread
    | Acquire(lock: nat)
    | Release(lock: nat)
    | Switch                          // preempted, blocked, or back to the helper
    | Tidy                            // back from schedule in Switch_lock::schedule
    | Advance(good: bool)             // the next access; `good`: the thread is ready, or the lock word was free

  datatype Step = Step(cpu: nat, act: Act)

  predicate RunsThread(pc: Pc) {
    || pc.Executing? || pc.AcquireTry? || pc.AcquireSet? || pc.AcquireReset? || pc.AcquireCount?
    || pc.ReleaseClear? || pc.ReleaseCount? || pc.ReleaseReset?
  }

  /** CPU `c` executes the thread. */
  predicate Executes(st: State, c: nat)
    requires c < |st.pc|
  {
    RunsThread(st.pc[c])
  }

  function Init(home: nat, cpus: nat): State
    requires home < cpus
  {
    State(home, Word(NotRunning, 0, {}, false), seq(cpus, _ => Away))
  }

  /** What a CPU at `pc`, which is the home CPU or not, may do. */
  predicate CanDo(w: Word, home: bool, pc: Pc, act: Act) {
    match act
    case Dispatch => home && pc.Away?
    case Help(_) => pc.Away?
    // set_lock_owner asserts that a thread without locks acquires on its home CPU
    case Acquire(l) => pc.Executing? && l !in w.owned && (w.count == 0 ==> home)
    case Release(l) => pc.Executing? && l in w.owned
    case Switch => pc.Executing?
    case Tidy => pc.Executing? && home && w.count == 0
    case Advance(_) => !pc.Away? && !pc.Executing? && (pc.ReleaseCount? ==> w.count > 0)
  }

  function Do(w: Word, home: bool, pc: Pc, act: Act): (Word, Pc)
    requires CanDo(w, home, pc, act)
  {
    match act
    case Dispatch => (w, DispatchStart)
    case Help(l) => (w, HelpTry(l))
    case Acquire(l) => (w, if w.count == 0 then AcquireTry(l) else AcquireSet(l, false))
    case Release(l) => (w, ReleaseClear(l))
    case Switch => (w, Left(w.count > 0 || !home))
    case Tidy => (if w.flag == Running then w.(flag := NotRunning) else w, pc)
    case Advance(good) => Next(w, home, pc, good)
  }

  /** The next access of a CPU at `pc`. */
  function Next(w: Word, home: bool, pc: Pc, good: bool): (Word, Pc)
    requires CanDo(w, home, pc, Advance(good))
  {
    match pc
    case DispatchStart => (w, if w.count == 0 then DispatchCheck else DispatchTry)
    case DispatchCheck => (w, if w.flag == NotRunning then DispatchGo(false) else DispatchTry)
    case DispatchTry => if w.flag == NotRunning then (w.(flag := Running), DispatchRecheck) else (w, Away)
    case DispatchRecheck => (w, if w.count == 0 then DispatchReset else DispatchGo(true))
    case DispatchReset => (w.(flag := NotRunning), DispatchGo(false))
    case DispatchGo(token) => if good then (w, Executing) else (w.(stuck := w.stuck || token), Away)
    case HelpTry(l) => if w.flag == NotRunning then (w.(flag := Trying), HelpCount(l)) else (w, Away)
    case HelpCount(l) => (w, if w.count != 0 then HelpOwner(l) else HelpAbort)
    case HelpOwner(l) => (w, if l in w.owned then HelpStart else HelpAbort)
    case HelpStart => (w.(flag := Running), HelpGo)
    case HelpAbort => (w.(flag := NotRunning), Away)
    case HelpGo => if good then (w, Executing) else (w.(stuck := true), Away)
    case AcquireTry(l) => if w.flag == NotRunning then (w.(flag := Running), AcquireSet(l, true)) else (w, pc)
    case AcquireSet(l, first) =>
      if good then (w.(owned := w.owned + {l}), AcquireCount(l))
      else (w, if first then AcquireReset else Executing)
    case AcquireReset => (w.(flag := NotRunning), Executing)
    case AcquireCount(_) => (w.(count := w.count + 1), Executing)
    case ReleaseClear(l) => (w.(owned := w.owned - {l}), ReleaseCount)
    case ReleaseCount => (w.(count := w.count - 1), if w.count == 1 && home then ReleaseReset else Executing)
    case ReleaseReset => (w.(flag := NotRunning), Executing)
    case Left(_) => (w, if w.flag == Running then LeftStore else Away)
    case LeftStore => (w.(flag := NotRunning), Away)
  }

  predicate Enabled(st: State, step: Step) {
    step.cpu < |st.pc| && CanDo(st.word, step.cpu == st.home, st.pc[step.cpu], step.act)
  }

  function Apply(st: State, step: Step): (r: State)
    requires Enabled(st, step)
  {
    var next := Do(st.word, step.cpu == st.home, st.pc[step.cpu], step.act);
    State(st.home, next.0, st.pc[step.cpu := next.1])
  }

  ghost predicate Reaches(st: State, steps: seq<Step>, st': State)
    decreases steps
  {
    if steps == [] then st' == st
    else Enabled(st, steps[0]) && Reaches(Apply(st, steps[0]), steps[1..], st')
  }

  // ----- the token

  /** A CPU here has moved the state word away from `NotRunning` and nobody else may touch it. */
  predicate Token(w: Word, home: bool, pc: Pc) {
    match pc
    case Away | DispatchStart | DispatchCheck | DispatchTry | HelpTry(_) | AcquireTry(_) => false
    case DispatchGo(token) => token
    case Left(token) => token
    case Executing => w.count > 0 || !home
    case _ => true
  }

  predicate Holds(st: State, c: nat)
    requires c < |st.pc|
  {
    Token(st.word, c == st.home, st.pc[c])
  }

  predicate Helping(pc: Pc) {
    pc.HelpCount? || pc.HelpOwner? || pc.HelpStart? || pc.HelpAbort?
  }

  predicate Dispatching(pc: Pc) {
    || pc.DispatchStart? || pc.DispatchCheck? || pc.DispatchTry? || pc.DispatchRecheck?
    || pc.DispatchReset? || pc.DispatchGo?
  }

  /** Between a change of a lock word and the change of the lock count that goes with it. */
  predicate Counting(pc: Pc) {
    pc.AcquireCount? || pc.ReleaseCount?
  }

  /** The home CPU runs, is about to run or has just run the thread without the token. */
  predicate Tokenless(w: Word, home: bool, pc: Pc) {
    !Token(w, home, pc) && (RunsThread(pc) || pc.DispatchGo? || pc.Left?)
  }

  /** What a CPU's position says about the lock count and the locks held. */
  predicate CountOk(w: Word, home: bool, pc: Pc) {
    match pc
    case DispatchCheck | DispatchReset => w.count == 0
    case DispatchGo(token) => token <==> w.count > 0
    case HelpOwner(_) | HelpStart | HelpGo => w.count > 0
    case AcquireTry(l) => w.count == 0 && home && l !in w.owned
    case AcquireSet(l, first) => (first <==> w.count == 0) && (first ==> home) && l !in w.owned
    case AcquireReset => w.count == 0 && home
    case AcquireCount(l) => w.count + 1 == |w.owned| && (w.count == 0 ==> home)
    case ReleaseClear(l) => w.count > 0 && l in w.owned
    case ReleaseCount => w.count == |w.owned| + 1
    case ReleaseReset => w.count == 0 && home
    case Left(token) => token <==> w.count > 0 || !home
    case _ => true
  }

  /** What a CPU's position says about the shared word. */
  predicate LocalOk(w: Word, home: bool, pc: Pc) {
    && CountOk(w, home, pc)
    && (Token(w, home, pc) ==> !w.stuck && w.flag == if Helping(pc) then Trying else Running)
    && (Token(w, home, pc) && !Counting(pc) ==> w.count == |w.owned|)
    && (Tokenless(w, home, pc) ==> home && w.count == 0 && !w.stuck && w.flag != Running)
    && (Dispatching(pc) ==> home)
  }

  /** The shared word by itself. */
  predicate WordOk(w: Word) {
    && (w.stuck ==> w.flag == Running && w.count > 0 && w.count == |w.owned|)
    && (w.flag != Running ==> w.count == |w.owned|)
  }

  /** Two CPUs never both have the token; facing a tokenless home CPU a helper can only give up. */
  predicate Apart(w: Word, h1: bool, p1: Pc, h2: bool, p2: Pc) {
    && !(h1 && h2)
    && !(Token(w, h1, p1) && Token(w, h2, p2))
    && (Tokenless(w, h1, p1) && Token(w, h2, p2) ==> p2.HelpCount? || p2.HelpAbort?)
    && (Tokenless(w, h2, p2) && Token(w, h1, p1) ==> p1.HelpCount? || p1.HelpAbort?)
  }

  predicate Inv(st: State) {
    && WordOk(st.word)
    && (forall c :: 0 <= c < |st.pc| ==> LocalOk(st.word, c == st.home, st.pc[c]))
    && (forall c, d :: 0 <= c < |st.pc| && 0 <= d < |st.pc| && c != d ==>
          Apart(st.word, c == st.home, st.pc[c], d == st.home, st.pc[d]))
    && (st.word.flag != NotRunning && !st.word.stuck ==> exists c :: 0 <= c < |st.pc| && Holds(st, c))
  }

  // ----- one step, seen by the CPU that makes it

  lemma OwnWord(w: Word, home: bool, pc: Pc, act: Act)
    requires WordOk(w) && LocalOk(w, home, pc) && CanDo(w, home, pc, act)
    ensures WordOk(Do(w, home, pc, act).0)
  {}

  lemma NextCount(w: Word, home: bool, pc: Pc, good: bool)
    requires WordOk(w) && LocalOk(w, home, pc) && CanDo(w, home, pc, Advance(good))
    ensures CountOk(Next(w, home, pc, good).0, home, Next(w, home, pc, good).1)
  {}

  lemma OwnCount(w: Word, home: bool, pc: Pc, act: Act)
    requires WordOk(w) && LocalOk(w, home, pc) && CanDo(w, home, pc, act)
    ensures CountOk(Do(w, home, pc, act).0, home, Do(w, home, pc, act).1)
  {
    if act.Advance? {
      NextCount(w, home, pc, act.good);
    }
  }

  lemma OwnToken(w: Word, home: bool, pc: Pc, act: Act)
    requires WordOk(w) && LocalOk(w, home, pc) && CanDo(w, home, pc, act)
    ensures var (w', pc') := Do(w, home, pc, act);
            Token(w', home, pc') ==> !w'.stuck && w'.flag == if Helping(pc') then Trying else Running
  {}

  lemma OwnSettled(w: Word, home: bool, pc: Pc, act: Act)
    requires WordOk(w) && LocalOk(w, home, pc) && CanDo(w, home, pc, act)
    ensures var (w', pc') := Do(w, home, pc, act);
            Token(w', home, pc') && !Counting(pc') ==> w'.count == |w'.owned|
  {}

  lemma NextTokenless(w: Word, home: bool, pc: Pc, good: bool)
    requires WordOk(w) && LocalOk(w, home, pc) && CanDo(w, home, pc, Advance(good))
    ensures var (w', pc') := Next(w, home, pc, good);
            && (Tokenless(w', home, pc') ==> home && w'.count == 0 && !w'.stuck && w'.flag != Running)
            && (Dispatching(pc') ==> home)
  {}

  lemma OwnTokenless(w: Word, home: bool, pc: Pc, act: Act)
    requires WordOk(w) && LocalOk(w, home, pc) && CanDo(w, home, pc, act)
    ensures var (w', pc') := Do(w, home, pc, act);
            && (Tokenless(w', home, pc') ==> home && w'.count == 0 && !w'.stuck && w'.flag != Running)
            && (Dispatching(pc') ==> home)
  {
    if act.Advance? {
      NextTokenless(w, home, pc, act.good);
    }
  }

  lemma OwnLocal(w: Word, home: bool, pc: Pc, act: Act)
    requires WordOk(w) && LocalOk(w, home, pc) && CanDo(w, home, pc, act)
    ensures LocalOk(Do(w, home, pc, act).0, home, Do(w, home, pc, act).1)
  {
    OwnCount(w, home, pc, act);
    OwnToken(w, home, pc, act);
    OwnSettled(w, home, pc, act);
    OwnTokenless(w, home, pc, act);
  }

  /** If the state word is not at rest afterwards, this CPU has the token or did not touch it. */
  lemma OwnFlag(w: Word, home: bool, pc: Pc, act: Act)
    requires WordOk(w) && LocalOk(w, home, pc) && CanDo(w, home, pc, act)
    ensures var next := Do(w, home, pc, act);
            next.0.flag != NotRunning && !next.0.stuck ==>
              Token(next.0, home, next.1) || (next.0 == w && !Token(w, home, pc))
  {}

  // ----- one step, seen by another CPU

  lemma OtherLocal(w: Word, home: bool, pc: Pc, act: Act, h2: bool, p2: Pc)
    requires WordOk(w) && LocalOk(w, home, pc) && CanDo(w, home, pc, act)
    requires LocalOk(w, h2, p2) && Apart(w, home, pc, h2, p2)
    ensures LocalOk(Do(w, home, pc, act).0, h2, p2)
  {}

  lemma OtherToken(w: Word, home: bool, pc: Pc, act: Act, h2: bool, p2: Pc)
    requires WordOk(w) && LocalOk(w, home, pc) && CanDo(w, home, pc, act)
    requires LocalOk(w, h2, p2) && Apart(w, home, pc, h2, p2)
    ensures var (w', pc') := Do(w, home, pc, act);
            && Token(w', h2, p2) == Token(w, h2, p2)
            && !(Token(w', home, pc') && Token(w', h2, p2))
  {}

  lemma OtherApart(w: Word, home: bool, pc: Pc, act: Act, h2: bool, p2: Pc)
    requires WordOk(w) && LocalOk(w, home, pc) && CanDo(w, home, pc, act)
    requires LocalOk(w, h2, p2) && Apart(w, home, pc, h2, p2)
    ensures Apart(Do(w, home, pc, act).0, home, Do(w, home, pc, act).1, h2, p2)
  {
    OtherToken(w, home, pc, act, h2, p2);
  }

  /** Two other CPUs stay apart. */
  lemma OthersApart(w: Word, home: bool, pc: Pc, act: Act, h2: bool, p2: Pc, h3: bool, p3: Pc)
    requires WordOk(w) && LocalOk(w, home, pc) && CanDo(w, home, pc, act)
    requires LocalOk(w, h2, p2) && LocalOk(w, h3, p3)
    requires Apart(w, home, pc, h2, p2) && Apart(w, home, pc, h3, p3) && Apart(w, h2, p2, h3, p3)
    ensures Apart(Do(w, home, pc, act).0, h2, p2, h3, p3)
  {
    OtherToken(w, home, pc, act, h2, p2);
    OtherToken(w, home, pc, act, h3, p3);
  }

  // ----- whole states and runs

  lemma InitInv(home: nat, cpus: nat)
    requires home < cpus
    ensures Inv(Init(home, cpus))
  {}

  lemma StepInv(st: State, step: Step)
    requires Inv(st) && Enabled(st, step)
    ensures Inv(Apply(st, step))
  {
    var (c, w, st') := (step.cpu, st.word, Apply(st, step));
    var (home, pc) := (c == st.home, st.pc[c]);
    OwnWord(w, home, pc, step.act);
    OwnLocal(w, home, pc, step.act);
    forall k | 0 <= k < |st.pc| && k != c
      ensures LocalOk(st'.word, k == st.home, st.pc[k])
      ensures Apart(st'.word, home, st'.pc[c], k == st.home, st.pc[k])
    {
      OtherLocal(w, home, pc, step.act, k == st.home, st.pc[k]);
      OtherApart(w, home, pc, step.act, k == st.home, st.pc[k]);
    }
    forall k, l | 0 <= k < |st.pc| && 0 <= l < |st.pc| && k != c && l != c && k != l
      ensures Apart(st'.word, k == st.home, st.pc[k], l == st.home, st.pc[l])
    {
      OthersApart(w, home, pc, step.act, k == st.home, st.pc[k], l == st.home, st.pc[l]);
    }
    StepFlag(st, step);
  }

  lemma StepFlag(st: State, step: Step)
    requires Inv(st) && Enabled(st, step)
    ensures var st' := Apply(st, step);
            st'.word.flag != NotRunning && !st'.word.stuck ==> exists c :: 0 <= c < |st'.pc| && Holds(st', c)
  {
    var st' := Apply(st, step);
    OwnFlag(st.word, step.cpu == st.home, st.pc[step.cpu], step.act);
    if st'.word.flag != NotRunning && !st'.word.stuck && !Holds(st', step.cpu) {
      var k :| 0 <= k < |st.pc| && Holds(st, k);
      assert Holds(st', k);
    }
  }

  lemma {:induction false} RunInv(st: State, steps: seq<Step>, st': State)
    requires Inv(st) && Reaches(st, steps, st')
    ensures Inv(st')
    decreases steps
  {
    if steps != [] {
      StepInv(st, steps[0]);
      RunInv(Apply(st, steps[0]), steps[1..], st');
    }
  }

  /**
    In every run at most one CPU executes the thread.  If that is a foreign CPU, or the thread holds a
    lock, the state word is `Running` and that CPU alone holds the token, so that neither `try_to_help`
    nor `try_dispatch` succeeds anywhere.
   */
  lemma RunsAreExclusive(home: nat, cpus: nat, steps: seq<Step>, st: State, c: nat)
    requires home < cpus && Reaches(Init(home, cpus), steps, st)
    requires c < |st.pc| && Executes(st, c)
    ensures forall d :: 0 <= d < |st.pc| && d != c ==> !Executes(st, d)
    ensures c != home || st.word.count > 0 ==>
              st.word.flag == Running && Holds(st, c) &&
              forall d :: 0 <= d < |st.pc| && d != c ==> !Holds(st, d)
  {
    InitInv(home, cpus);
    RunInv(Init(home, cpus), steps, st);
    RunHome(Init(home, cpus), steps, st);
    assert LocalOk(st.word, c == st.home, st.pc[c]);
    forall d | 0 <= d < |st.pc| && d != c
      ensures !Executes(st, d) && !(Holds(st, c) && Holds(st, d))
    {
      assert Apart(st.word, c == st.home, st.pc[c], d == st.home, st.pc[d]);
      assert LocalOk(st.word, d == st.home, st.pc[d]);
    }
  }

  lemma {:induction false} RunHome(st: State, steps: seq<Step>, st': State)
    requires Reaches(st, steps, st')
    ensures st'.home == st.home && |st'.pc| == |st.pc|
    decreases steps
  {
    if steps != [] {
      RunHome(Apply(st, steps[0]), steps[1..], st');
    }
  }

  /** The lock count counts the locks held, whenever no CPU is between the two changes. */
  lemma RunsCountLocks(home: nat, cpus: nat, steps: seq<Step>, st: State)
    requires home < cpus && Reaches(Init(home, cpus), steps, st)
    requires forall c :: 0 <= c < |st.pc| ==> !Counting(st.pc[c])
    ensures st.word.count == |st.word.owned|
  {
    InitInv(home, cpus);
    RunInv(Init(home, cpus), steps, st);
    if st.word.flag == Running && !st.word.stuck {
      var c :| 0 <= c < |st.pc| && Holds(st, c);
      assert LocalOk(st.word, c == st.home, st.pc[c]);
    }
  }

  // ----- a thread that is not ready

  /** The state word is taken, and nobody has the token. */
  predicate Lost(st: State) {
    st.word.flag != NotRunning && forall c :: 0 <= c < |st.pc| ==> !Holds(st, c)
  }

  lemma LostIsStuck(st: State)
    requires Inv(st)
    ensures Lost(st) <==> st.word.stuck
  {
    forall c | 0 <= c < |st.pc| ensures Holds(st, c) ==> !st.word.stuck {
      assert LocalOk(st.word, c == st.home, st.pc[c]);
    }
  }

  /** The token gets lost exactly if the CPU that has it finds the thread not ready. */
  lemma LostWhen(st: State, step: Step)
    requires Inv(st) && Enabled(st, step) && !Lost(st)
    ensures Lost(Apply(st, step)) <==>
              && step.act == Advance(false) && Holds(st, step.cpu)
              && (st.pc[step.cpu].DispatchGo? || st.pc[step.cpu].HelpGo?)
  {
    StepInv(st, step);
    LostIsStuck(st);
    LostIsStuck(Apply(st, step));
  }

  lemma LostIsIdle(st: State, c: nat)
    requires Inv(st) && Lost(st) && c < |st.pc|
    ensures !Executes(st, c)
  {
    LostIsStuck(st);
    assert LocalOk(st.word, c == st.home, st.pc[c]);
  }

  lemma {:induction false} LostForever(st: State, steps: seq<Step>, st': State)
    requires Inv(st) && Lost(st) && Reaches(st, steps, st')
    ensures Lost(st') && forall c :: 0 <= c < |st'.pc| ==> !Executes(st', c)
    decreases steps
  {
    forall c | 0 <= c < |st.pc| ensures !Executes(st, c) {
      LostIsIdle(st, c);
    }
    if steps != [] {
      StepInv(st, steps[0]);
      LostIsStuck(st);
      LostIsStuck(Apply(st, steps[0]));
      LostForever(Apply(st, steps[0]), steps[1..], st');
    }
  }

  // ----- otherwise the thread can be executed

  /** How far a CPU here is from executing the thread, if it goes on with nobody in its way. */
  function Rank(pc: Pc): nat {
    match pc
    case DispatchGo(_) => 1
    case HelpGo => 1
    case DispatchCheck => 2
    case DispatchReset => 3
    case DispatchRecheck => 4
    case DispatchTry => 5
    case DispatchStart => 6
    case Away => 7
    case LeftStore => 8
    case HelpAbort => 8
    case Left(_) => 9
    case HelpStart => 10
    case HelpOwner(_) => 11
    case HelpCount(_) => 12
    case HelpTry(_) => 13
    case _ => 0
  }

  /** What such a CPU does next. */
  function Toward(pc: Pc): Act {
    if pc.Away? then Dispatch else Advance(true)
  }

  /** The holder of the token, or the home CPU while the state word is free, comes closer or gives way. */
  lemma Closer(w: Word, home: bool, pc: Pc)
    requires WordOk(w) && LocalOk(w, home, pc) && !RunsThread(pc)
    requires Token(w, home, pc) || (home && w.flag == NotRunning)
    ensures CanDo(w, home, pc, Toward(pc))
    ensures var (w', pc') := Do(w, home, pc, Toward(pc));
            && (RunsThread(pc') || Rank(pc') < Rank(pc))
            && (Token(w', home, pc') || w'.flag == NotRunning)
  {}

  /** The CPU that can go on: it has the token, or it is the home CPU and the state word is free. */
  predicate Goes(st: State, c: nat) {
    c < |st.pc| && st.home < |st.pc| && (Holds(st, c) || (c == st.home && st.word.flag == NotRunning))
  }

  /** From every state in which some CPU can go on the thread gets executed in some run. */
  lemma {:induction false} ExecutedFrom(st: State, c: nat) returns (steps: seq<Step>, st': State, d: nat)
    requires Inv(st) && Goes(st, c)
    ensures Reaches(st, steps, st') && d < |st'.pc| && Executes(st', d)
    decreases (if c == st.home then 0 else 20) + Rank(st.pc[c])
  {
    if Executes(st, c) {
      steps, st', d := [], st, c;
    } else {
      assert LocalOk(st.word, c == st.home, st.pc[c]);
      Closer(st.word, c == st.home, st.pc[c]);
      var step := Step(c, Toward(st.pc[c]));
      var next := Apply(st, step);
      StepInv(st, step);
      var rest := [];
      if Executes(next, c) {
        st', d := next, c;
      } else if Holds(next, c) {
        rest, st', d := ExecutedFrom(next, c);
      } else {
        rest, st', d := ExecutedFrom(next, st.home);
      }
      steps := [step] + rest;
      assert steps[1..] == rest;
    }
  }

  ghost predicate NeverExecuted(st: State) {
    forall steps, st' :: Reaches(st, steps, st') ==> forall c :: 0 <= c < |st'.pc| ==> !Executes(st', c)
  }

  /** In every run: the thread is never executed again exactly if the token is lost. */
  lemma NeverExecutedExactlyIfLost(home: nat, cpus: nat, steps: seq<Step>, st: State)
    requires home < cpus && Reaches(Init(home, cpus), steps, st)
    ensures NeverExecuted(st) <==> Lost(st)
  {
    InitInv(home, cpus);
    RunInv(Init(home, cpus), steps, st);
    RunHome(Init(home, cpus), steps, st);
    NeverOrLost(st);
  }

  lemma NeverOrLost(st: State)
    requires Inv(st) && st.home < |st.pc|
    ensures NeverExecuted(st) <==> Lost(st)
  {
    if Lost(st) {
      forall steps, st' | Reaches(st, steps, st')
        ensures forall c :: 0 <= c < |st'.pc| ==> !Executes(st', c)
      {
        LostForever(st, steps, st');
      }
    } else {
      var c := if exists k :: 0 <= k < |st.pc| && Holds(st, k) then
                 var k :| 0 <= k < |st.pc| && Holds(st, k); k
               else st.home;
      var steps, st', d := ExecutedFrom(st, c);
      assert Reaches(st, steps, st') && Executes(st', d);
    }
  }

  // ----- a run that loses the token

  /** `steps` take a one-CPU system from here to a state in which the token is lost. */
  ghost predicate Sticks(flag: Flag, count: nat, owned: set<nat>, pc: Pc, steps: seq<Step>) {
    exists end :: Reaches(State(0, Word(flag, count, owned, false), [pc]), steps, end) && end.word.stuck
  }

  lemma Before(flag: Flag, count: nat, owned: set<nat>, pc: Pc, act: Act, next: Word, pc': Pc, steps: seq<Step>)
    returns (all: seq<Step>)
    requires CanDo(Word(flag, count, owned, false), true, pc, act)
    requires Do(Word(flag, count, owned, false), true, pc, act) == (next, pc')
    requires !next.stuck && Sticks(next.flag, next.count, next.owned, pc', steps)
    ensures Sticks(flag, count, owned, pc, all)
  {
    var st := State(0, Word(flag, count, owned, false), [pc]);
    var end :| Reaches(State(0, next, [pc']), steps, end) && end.word.stuck;
    all := [Step(0, act)] + steps;
    assert all[1..] == steps;
    assert Apply(st, all[0]) == State(0, next, [pc']);
    assert Reaches(st, all, end);
  }

  /** Dispatched while it holds a lock, and found not ready. */
  lemma StuckOnDispatch() returns (steps: seq<Step>)
    ensures Sticks(NotRunning, 1, {0}, Away, steps)
  {
    var step := Step(0, Advance(false));
    var free, taken := Word(NotRunning, 1, {0}, false), Word(Running, 1, {0}, false);
    assert Reaches(State(0, taken, [DispatchGo(true)]), [step], Apply(State(0, taken, [DispatchGo(true)]), step));
    steps := Before(Running, 1, {0}, DispatchRecheck, Advance(true), taken, DispatchGo(true), [step]);
    steps := Before(NotRunning, 1, {0}, DispatchTry, Advance(true), taken, DispatchRecheck, steps);
    steps := Before(NotRunning, 1, {0}, DispatchStart, Advance(true), free, DispatchTry, steps);
    steps := Before(NotRunning, 1, {0}, Away, Dispatch, free, DispatchStart, steps);
  }

  /** Preempted while it holds a lock. */
  lemma StuckOnSwitch() returns (steps: seq<Step>)
    ensures Sticks(Running, 1, {0}, Executing, steps)
  {
    var free, taken := Word(NotRunning, 1, {0}, false), Word(Running, 1, {0}, false);
    steps := StuckOnDispatch();
    steps := Before(Running, 1, {0}, LeftStore, Advance(true), free, Away, steps);
    steps := Before(Running, 1, {0}, Left(true), Advance(true), taken, LeftStore, steps);
    steps := Before(Running, 1, {0}, Executing, Switch, taken, Left(true), steps);
  }

  lemma StuckOnceLocked() returns (steps: seq<Step>)
    ensures Sticks(Running, 0, {}, AcquireSet(0, true), steps)
  {
    var taken := Word(Running, 1, {0}, false);
    steps := StuckOnSwitch();
    steps := Before(Running, 0, {0}, AcquireCount(0), Advance(true), taken, Executing, steps);
    var none: set<nat> := {};
    assert none + {0} == {0};
    var counting := Word(Running, 0, {0}, false);
    steps := Before(Running, 0, none, AcquireSet(0, true), Advance(true), counting, AcquireCount(0), steps);
  }

  /** Taking a lock, being preempted and being found not ready at the next dispatch is such a run. */
  lemma LostHappens() returns (steps: seq<Step>, end: State)
    ensures Reaches(Init(0, 1), steps, end) && Lost(end)
  {
    var free := Word(NotRunning, 0, {}, false);
    steps := StuckOnceLocked();
    var taken := Word(Running, 0, {}, false);
    steps := Before(NotRunning, 0, {}, AcquireTry(0), Advance(true), taken, AcquireSet(0, true), steps);
    steps := Before(NotRunning, 0, {}, Executing, Acquire(0), free, AcquireTry(0), steps);
    steps := Before(NotRunning, 0, {}, DispatchGo(false), Advance(true), free, Executing, steps);
    steps := Before(NotRunning, 0, {}, DispatchCheck, Advance(true), free, DispatchGo(false), steps);
    steps := Before(NotRunning, 0, {}, DispatchStart, Advance(true), free, DispatchCheck, steps);
    steps := Before(NotRunning, 0, {}, Away, Dispatch, free, DispatchStart, steps);
    assert Init(0, 1) == State(0, free, [Away]);
    end :| Reaches(Init(0, 1), steps, end) && end.word.stuck;
    InitInv(0, 1);
    RunInv(Init(0, 1), steps, end);
    LostIsStuck(end);
  }
}
