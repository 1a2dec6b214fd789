/**
  `cpu_call_many` is documented to wait until the function has finished on all selected CPUs whatever
  the mode.  In asynchronous mode a request counts as done once it is off its queue, so that holds only
  if the caller is always on the one online CPU that is selected, or none is.
 */
module CpuCallAsync {
  import opened CpuCall
  import opened CpuCallSafety
  import opened CpuCallResults

  /** Whenever the call has returned, every selected online CPU has run the function once and no other has. */
  ghost predicate Completes(cfg: Config)
    requires cfg.Valid()
  {
    forall steps, st, k: nat ::
      Run(cfg, steps, st) && st.pc.Returned? && k < |st.cpus| ==>
        st.cpus[k].count == if Selected(cfg, k) then 1 else 0
  }

  /** Some selected online CPU is one that the caller may be off when it gets there. */
  predicate SelectsOther(cfg: Config) {
    exists k :: 0 <= k < cfg.cpus && Selected(cfg, k) && cfg.homes != {k}
  }

  lemma CompletesExactlyWhen(cfg: Config)
    requires cfg.Valid()
    ensures Completes(cfg) <==> !cfg.async || !SelectsOther(cfg)
  {
    if cfg.async && SelectsOther(cfg) {
      var k :| 0 <= k < cfg.cpus && Selected(cfg, k) && cfg.homes != {k};
      var h :| h in cfg.homes && h != k;
      var steps, st := EarlyReturn(cfg, k, h);
      assert Run(cfg, steps, st) && st.pc.Returned? && st.cpus[k].count == 0;
    } else {
      forall steps, st, k: nat | Run(cfg, steps, st) && st.pc.Returned? && k < |st.cpus|
        ensures st.cpus[k].count == if Selected(cfg, k) then 1 else 0
      {
        RunKeepsInv(cfg, steps, st);
        ReturnMeansTaken(cfg, steps, st, k);
        TakenIsSelected(cfg, st, k);
        if !cfg.async { SynchronousReturn(cfg, steps, st, k); }
      }
    }
  }

  lemma TakenIsSelected(cfg: Config, st: State, k: nat)
    requires Inv(cfg, st) && k < cfg.cpus
    ensures HandlesOwn(st.cpus[k].handler) ==> Selected(cfg, k) && cfg.homes != {k}
  {
    assert CpuInv(cfg, st.pc, st.cpus[k], k);
  }

  // ----- the run that returns early: every CPU takes its request off its queue and gets no further

  /** The first loop is at CPU `n`; requests posted so far are in hand, and none has run off the calling CPU. */
  predicate Lazy(cfg: Config, h: nat, st: State, n: nat) {
    && Shaped(cfg, st) && st.pc == Scan(n, 0)
    && (forall k :: 0 <= k < cfg.cpus ==> st.cpus[k].queue == [])
    && (forall k :: n <= k < cfg.cpus ==> st.cpus[k].handler.Idle?)
    && (forall k :: 0 <= k < cfg.cpus && k != h ==> st.cpus[k].count == 0)
  }

  lemma Then(cfg: Config, st: State, step: Step, steps: seq<Step>, end: State) returns (all: seq<Step>)
    requires Shaped(cfg, st) && Enabled(cfg, st, step) && Shaped(cfg, Apply(cfg, st, step))
    requires Reaches(cfg, Apply(cfg, st, step), steps, end)
    ensures Reaches(cfg, st, all, end)
  {
    all := [step] + steps;
    assert all[1..] == steps;
  }

  /** One CPU further. */
  lemma LazyStep(cfg: Config, h: nat, st: State, n: nat) returns (steps: seq<Step>, st': State)
    requires cfg.async && h in cfg.homes && n < cfg.cpus && Lazy(cfg, h, st, n)
    ensures Reaches(cfg, st, steps, st') && Lazy(cfg, h, st', n + 1)
  {
    if n !in cfg.mask {
      st' := CallerStep(cfg, st, h);
      steps := Then(cfg, st, Caller(h), [], st');
    } else {
      ShapeKept(cfg, st, Caller(h));
      var call := CallerStep(cfg, st, h);
      ShapeKept(cfg, call, Caller(h));
      if n == h {
        steps, st' := LazySelf(cfg, h, call, n);
      } else {
        steps, st' := LazyPost(cfg, h, call, n);
      }
      steps := Then(cfg, st, Caller(h), steps, st');
    }
  }

  predicate LazyAt(cfg: Config, h: nat, st: State, n: nat, pc: Pc) {
    Lazy(cfg, h, st.(pc := Scan(n, 0)), n) && Shaped(cfg, st) && st.pc == pc
  }

  lemma LazySelf(cfg: Config, h: nat, st: State, n: nat) returns (steps: seq<Step>, st': State)
    requires cfg.async && h in cfg.homes && n < cfg.cpus && LazyAt(cfg, h, st, n, Call(n, 0, true)) && n == h
    ensures Reaches(cfg, st, steps, st') && Lazy(cfg, h, st', n + 1)
  {
    var after := CallerStep(cfg, st, h);
    ShapeKept(cfg, st, Caller(h));
    st' := CallerStep(cfg, after, h);
    ShapeKept(cfg, after, Caller(h));
    steps := Then(cfg, after, Caller(h), [], st');
    steps := Then(cfg, st, Caller(h), steps, st');
  }

  lemma LazyPost(cfg: Config, h: nat, st: State, n: nat) returns (steps: seq<Step>, st': State)
    requires cfg.async && h in cfg.homes && n < cfg.cpus && LazyAt(cfg, h, st, n, Call(n, 0, true)) && n != h
    ensures Reaches(cfg, st, steps, st') && Lazy(cfg, h, st', n + 1)
  {
    var enqueue := CallerStep(cfg, st, h);
    ShapeKept(cfg, st, Caller(h));
    var check := CallerStep(cfg, enqueue, h);
    ShapeKept(cfg, enqueue, Caller(h));
    var next := CallerStep(cfg, check, h);
    ShapeKept(cfg, check, Caller(h));
    if n in cfg.online {
      steps, st' := LazyTake(cfg, h, next, n);
    } else {
      steps, st' := LazyWithdraw(cfg, h, next, n);
    }
    steps := Then(cfg, check, Caller(h), steps, st');
    steps := Then(cfg, enqueue, Caller(h), steps, st');
    steps := Then(cfg, st, Caller(h), steps, st');
  }

  /** The request is on the queue of CPU `n`. */
  predicate Posted(cfg: Config, h: nat, st: State, n: nat) {
    && Shaped(cfg, st) && n < cfg.cpus && st.cpus[n].queue == [Own(0)]
    && (forall k :: 0 <= k < cfg.cpus && k != n ==> st.cpus[k].queue == [])
    && (forall k :: n <= k < cfg.cpus ==> st.cpus[k].handler.Idle?)
    && (forall k :: 0 <= k < cfg.cpus && k != h ==> st.cpus[k].count == 0)
  }

  lemma LazyWithdraw(cfg: Config, h: nat, st: State, n: nat) returns (steps: seq<Step>, st': State)
    requires cfg.async && h in cfg.homes && n < cfg.cpus && Posted(cfg, h, st, n) && st.pc == Withdraw(n, 0, true)
    ensures Reaches(cfg, st, steps, st') && Lazy(cfg, h, st', n + 1)
  {
    var after := CallerStep(cfg, st, h);
    ShapeKept(cfg, st, Caller(h));
    st' := CallerStep(cfg, after, h);
    ShapeKept(cfg, after, Caller(h));
    steps := Then(cfg, after, Caller(h), [], st');
    steps := Then(cfg, st, Caller(h), steps, st');
  }

  lemma LazyTake(cfg: Config, h: nat, st: State, n: nat) returns (steps: seq<Step>, st': State)
    requires cfg.async && h in cfg.homes && n < cfg.cpus && n in cfg.online && n != h && Posted(cfg, h, st, n)
    requires st.pc == Peek(n, 0, true)
    ensures Reaches(cfg, st, steps, st') && Lazy(cfg, h, st', n + 1)
  {
    assert st.cpus[n].handler.Idle?;
    var taken := HandlerStep(st, n);
    ShapeKept(cfg, st, Handle(n));
    assert forall k :: 0 <= k < cfg.cpus ==> taken.cpus[k].queue == [];
    var poll := CallerStep(cfg, taken, h);
    ShapeKept(cfg, taken, Caller(h));
    var after := CallerStep(cfg, poll, h);
    ShapeKept(cfg, poll, Caller(h));
    st' := CallerStep(cfg, after, h);
    ShapeKept(cfg, after, Caller(h));
    steps := Then(cfg, after, Caller(h), [], st');
    steps := Then(cfg, poll, Caller(h), steps, st');
    steps := Then(cfg, taken, Caller(h), steps, st');
    steps := Then(cfg, st, Handle(n), steps, st');
  }

  lemma LazyEnd(cfg: Config, h: nat, st: State) returns (steps: seq<Step>, st': State)
    requires cfg.async && h in cfg.homes && Lazy(cfg, h, st, cfg.cpus)
    ensures Reaches(cfg, st, steps, st') && st'.pc.Returned? && st'.cpus == st.cpus
  {
    var find := CallerStep(cfg, st, h);
    ShapeKept(cfg, st, Caller(h));
    var wait := CallerStep(cfg, find, h);
    ShapeKept(cfg, find, Caller(h));
    assert !Queued(st, 0);
    var waited := CallerStep(cfg, wait, h);
    ShapeKept(cfg, wait, Caller(h));
    st' := CallerStep(cfg, waited, h);
    ShapeKept(cfg, waited, Caller(h));
    steps := Then(cfg, waited, Caller(h), [], st');
    steps := Then(cfg, wait, Caller(h), steps, st');
    steps := Then(cfg, find, Caller(h), steps, st');
    steps := Then(cfg, st, Caller(h), steps, st');
  }

  lemma {:induction false} LazyRun(cfg: Config, h: nat, st: State, n: nat) returns (steps: seq<Step>, st': State)
    requires cfg.async && h in cfg.homes && n <= cfg.cpus && Lazy(cfg, h, st, n)
    ensures Reaches(cfg, st, steps, st') && st'.pc.Returned? && |st'.cpus| == cfg.cpus
    ensures forall k :: 0 <= k < cfg.cpus && k != h ==> st'.cpus[k].count == 0
    decreases cfg.cpus - n
  {
    if n == cfg.cpus {
      steps, st' := LazyEnd(cfg, h, st);
    } else {
      var first, mid := LazyStep(cfg, h, st, n);
      var rest, end := LazyRun(cfg, h, mid, n + 1);
      Chain(cfg, st, first, mid, rest, end);
      steps, st' := first + rest, end;
    }
  }

  /** The call can return although CPU `k` has not run the function. */
  lemma EarlyReturn(cfg: Config, k: nat, h: nat) returns (steps: seq<Step>, st: State)
    requires cfg.Valid() && cfg.async && k < cfg.cpus && Selected(cfg, k) && h in cfg.homes && k != h
    ensures Run(cfg, steps, st) && st.pc.Returned? && k < |st.cpus| && st.cpus[k].count == 0
  {
    steps, st := LazyRun(cfg, h, Init(cfg), 0);
  }
}
