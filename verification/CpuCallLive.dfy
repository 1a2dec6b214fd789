/**
  `cpu_call_many` can always return: from every state of every run, in either mode, the handlers of the
  CPUs that are waited for and the caller alone can bring it to its end.  And what `handle_requests` does
  to a whole queue.
 */
module CpuCallLive {
  import opened CpuCall
  import opened CpuCallSafety
  import opened CpuCallResults

  /** The steps are the caller's, made on CPU `h`, and handlers'. */
  predicate Quiet(steps: seq<Step>, h: nat) {
    forall s :: s in steps ==> s == Caller(h) || s.Handle?
  }

  lemma Then(cfg: Config, st: State, step: Step, steps: seq<Step>, end: State, h: nat) returns (all: seq<Step>)
    requires Shaped(cfg, st) && Enabled(cfg, st, step) && Shaped(cfg, Apply(cfg, st, step))
    requires Reaches(cfg, Apply(cfg, st, step), steps, end)
    requires Quiet(steps, h) && (step == Caller(h) || step.Handle?)
    ensures Reaches(cfg, st, all, end) && Quiet(all, h)
  {
    all := [step] + steps;
    assert all[1..] == steps;
  }

  // ----- a handler gets to the request that is waited for

  /** Steps until the CPU's queue is empty and its handler idle. */
  function Work(cpu: Cpu): nat {
    3 * |cpu.queue| + match cpu.handler case Idle => 0 case Ran(_) => 1 case Taken(_) => 2
  }

  /** The caller spins on this slot. */
  predicate Spins(st: State) {
    st.pc.Probe? || (st.pc.Wait? && st.pc.slot < st.used)
  }

  /** A slot that is not done is with an online CPU that has something to do. */
  lemma NotDoneIsServed(cfg: Config, st: State)
    requires Inv(cfg, st) && Spins(st) && !Done(cfg, st, st.pc.slot)
    ensures Enabled(cfg, st, Handle(st.slots[st.pc.slot].q))
  {
    var i := st.pc.slot;
    assert ServedInv(cfg, st, i);
    if cfg.async {
      var k :| 0 <= k < |st.cpus| && Own(i) in st.cpus[k].queue;
      assert PlaceInv(cfg, st.pc, st.used, st.slots[i], i, st.cpus[k], k);
      assert CpuInv(cfg, st.pc, st.cpus[k], k);
      OwnsMember(st.cpus[k].queue, i);
    }
  }

  lemma {:induction false} Serve(cfg: Config, st: State, h: nat) returns (steps: seq<Step>, st': State)
    requires Inv(cfg, st) && Spins(st)
    ensures Reaches(cfg, st, steps, st') && Quiet(steps, h) && Inv(cfg, st')
    ensures st'.pc == st.pc && st'.used == st.used && Done(cfg, st', st.pc.slot)
    decreases if st.slots[st.pc.slot].q < |st.cpus| then Work(st.cpus[st.slots[st.pc.slot].q]) else 0
  {
    if Done(cfg, st, st.pc.slot) {
      steps, st' := [], st;
    } else {
      var k := st.slots[st.pc.slot].q;
      NotDoneIsServed(cfg, st);
      var mid := Apply(cfg, st, Handle(k));
      StepInv(cfg, st, Handle(k));
      steps, st' := Serve(cfg, mid, h);
      steps := Then(cfg, st, Handle(k), steps, st', h);
    }
  }

  // ----- the caller gets on

  function Stage(pc: Pc): nat {
    match pc
    case Scan(_, _) => 19
    case Find(_) => 17
    case Probe(_, _) => 16
    case Call(_, _, _) => 15
    case Enqueue(_, _, _) => 14
    case Check(_, _, _) => 13
    case Withdraw(_, _, _) => 12
    case Peek(_, _, _) => 12
    case Undo(_, _, _) => 11
    case Poll(_, _, _) => 11
    case After(_, _, _, _) => 10
    case Wait(_) => 0
    case Returned => 0
  }

  /** How far the caller is from its end, leaving out the time it spins. */
  function Rank(cfg: Config, st: State): nat
    requires Shaped(cfg, st)
  {
    match st.pc
    case Returned => 0
    case Wait(i) => 1 + cfg.slots - i
    case _ => cfg.slots + 2 + 20 * (cfg.cpus - st.pc.n) + Stage(st.pc)
  }

  lemma CallerGetsOn(cfg: Config, st: State, h: nat)
    requires Shaped(cfg, st) && h in cfg.homes && !st.pc.Returned?
    requires Spins(st) ==> Done(cfg, st, st.pc.slot)
    ensures Shaped(cfg, Apply(cfg, st, Caller(h))) && Rank(cfg, Apply(cfg, st, Caller(h))) < Rank(cfg, st)
  {
    ShapeKept(cfg, st, Caller(h));
  }

  lemma {:induction false} Finishes(cfg: Config, st: State, h: nat) returns (steps: seq<Step>, st': State)
    requires Inv(cfg, st) && h in cfg.homes
    ensures Reaches(cfg, st, steps, st') && Quiet(steps, h) && st'.pc.Returned?
    decreases Rank(cfg, st)
  {
    if st.pc.Returned? {
      steps, st' := [], st;
    } else {
      var spin, mid := [], st;
      if Spins(st) { spin, mid := Serve(cfg, st, h); }
      CallerGetsOn(cfg, mid, h);
      StepInv(cfg, mid, Caller(h));
      var rest, end := Finishes(cfg, Apply(cfg, mid, Caller(h)), h);
      rest := Then(cfg, mid, Caller(h), rest, end, h);
      Chain(cfg, st, spin, mid, rest, end);
      steps, st' := spin + rest, end;
    }
  }

  /** From every state of every run there is a continuation of the caller and the handlers that returns. */
  lemma CanAlwaysReturn(cfg: Config, steps: seq<Step>, st: State, h: nat) returns (more: seq<Step>, st': State)
    requires cfg.Valid() && Run(cfg, steps, st) && h in cfg.homes
    ensures Shaped(cfg, st) && Reaches(cfg, st, more, st') && Quiet(more, h) && st'.pc.Returned?
    ensures Run(cfg, steps + more, st')
  {
    RunKeepsInv(cfg, steps, st);
    more, st' := Finishes(cfg, st, h);
    InitInv(cfg);
    Chain(cfg, Init(cfg), steps, st, more, st');
  }

  /** In synchronous mode the continuation leaves each selected online CPU with exactly one run. */
  lemma SynchronousCallSucceeds(cfg: Config, steps: seq<Step>, st: State, h: nat)
    returns (more: seq<Step>, st': State)
    requires cfg.Valid() && !cfg.async && Run(cfg, steps, st) && h in cfg.homes
    ensures Run(cfg, steps + more, st') && st'.pc.Returned? && |st'.cpus| == cfg.cpus
    ensures forall k :: 0 <= k < cfg.cpus ==> st'.cpus[k].count == if Selected(cfg, k) then 1 else 0
  {
    more, st' := CanAlwaysReturn(cfg, steps, st, h);
    RunKeepsInv(cfg, steps + more, st');
    forall k | 0 <= k < cfg.cpus ensures st'.cpus[k].count == if Selected(cfg, k) then 1 else 0 {
      SynchronousReturn(cfg, steps + more, st', k);
    }
  }

  // ----- handle_requests

  /** The slots after their waits have been ended for the caller's requests on this queue. */
  predicate WaitsEnded(slots: seq<Slot>, slots': seq<Slot>, queue: seq<Item>) {
    && |slots'| == |slots|
    && forall i :: 0 <= i < |slots| ==>
                     slots'[i] == if Own(i) in queue then slots[i].(wait := false) else slots[i]
  }

  /** One round: the first request is taken off, its function run, its wait ended. */
  lemma HandleOne(cfg: Config, st: State, k: nat, h: nat) returns (steps: seq<Step>, st': State)
    requires Shaped(cfg, st) && k < cfg.cpus && k in cfg.online
    requires st.cpus[k].handler.Idle? && st.cpus[k].queue != []
    ensures Shaped(cfg, st') && Reaches(cfg, st, steps, st') && Quiet(steps, h)
    ensures st'.pc == st.pc && st'.used == st.used && WaitsEnded(st.slots, st'.slots, [st.cpus[k].queue[0]])
    ensures var cpu := st.cpus[k];
            st'.cpus == st.cpus[k := Cpu(cpu.queue[1..], Idle, cpu.count + Owns([cpu.queue[0]]))]
  {
    var taken := Apply(cfg, st, Handle(k));
    ShapeKept(cfg, st, Handle(k));
    var ran := Apply(cfg, taken, Handle(k));
    ShapeKept(cfg, taken, Handle(k));
    st' := Apply(cfg, ran, Handle(k));
    ShapeKept(cfg, ran, Handle(k));
    steps := Then(cfg, ran, Handle(k), [], st', h);
    steps := Then(cfg, taken, Handle(k), steps, st', h);
    steps := Then(cfg, st, Handle(k), steps, st', h);
  }

  /** Run to its end: every request on the queue has been executed once, and nothing else has changed. */
  lemma {:induction false} HandleAll(cfg: Config, st: State, k: nat, h: nat) returns (steps: seq<Step>, st': State)
    requires Shaped(cfg, st) && k < cfg.cpus && k in cfg.online && st.cpus[k].handler.Idle?
    ensures Shaped(cfg, st') && Reaches(cfg, st, steps, st') && Quiet(steps, h)
    ensures st'.pc == st.pc && st'.used == st.used && WaitsEnded(st.slots, st'.slots, st.cpus[k].queue)
    ensures st'.cpus == st.cpus[k := Cpu([], Idle, st.cpus[k].count + Owns(st.cpus[k].queue))]
    decreases |st.cpus[k].queue|
  {
    var queue := st.cpus[k].queue;
    if queue == [] {
      steps, st' := [], st;
      assert st.cpus[k] == Cpu([], Idle, st.cpus[k].count);
    } else {
      var first, mid := HandleOne(cfg, st, k, h);
      var rest, end := HandleAll(cfg, mid, k, h);
      Chain(cfg, st, first, mid, rest, end);
      steps, st' := first + rest, end;
      assert queue == [queue[0]] + queue[1..];
      assert [queue[0]][1..] == [];
    }
  }
}
