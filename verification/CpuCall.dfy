/**
  One run of `Cpu_call::cpu_call_many` among the request queues of all CPUs: the caller, which may change
  its CPU between two accesses, posts its few `Cpu_call` objects over and over, every online CPU drains its
  queue, and other users of the queues post and withdraw requests of their own at any time.  Each step is
  one access to shared state.
 */
module CpuCall {

  /**
    `cpus` counts the CPUs, `slots` the objects of `Cpu_calls`; the online set does not change.  The caller
    is always on one of the CPUs in `homes`.
   */
  datatype Config = Config(cpus: nat, homes: set<nat>, mask: set<nat>, online: set<nat>, slots: nat, async: bool) {
    predicate Valid() {
      homes != {} && homes <= online && (forall h :: h in homes ==> h < cpus) && slots > 0
    }
  }

  datatype Item = Own(slot: nat) | Foreign(id: nat)

  /** A CPU in `handle_requests`: idle, with a request taken off its queue, or past the function call. */
  datatype Handler = Idle | Taken(item: Item) | Ran(item: Item)

  /** `count` is the number of times the function has run here. */
  datatype Cpu = Cpu(queue: seq<Item>, handler: Handler, count: nat)

  /** A `Cpu_call`: whether its function is set, `_wait`, and `_q` as the CPU it was last posted to. */
  datatype Slot = Slot(armed: bool, wait: bool, q: nat)

  datatype Pc =
    | Scan(n: nat, slot: nat)                             // first loop
    | Call(n: nat, slot: nat, first: bool)                // remote_call
    | Enqueue(n: nat, slot: nat, first: bool)
    | Check(n: nat, slot: nat, first: bool)               // is the CPU online?
    | Withdraw(n: nat, slot: nat, first: bool)
    | Undo(n: nat, slot: nat, first: bool)
    | Peek(n: nat, slot: nat, first: bool)                // is it still queued?
    | Poll(n: nat, slot: nat, first: bool)                // is it done?
    | After(n: nat, slot: nat, first: bool, busy: bool)
    | Find(n: nat)                                        // second loop
    | Probe(n: nat, slot: nat)                            // find_done
    | Wait(slot: nat)                                     // wait_all
    | Returned

  datatype State = State(pc: Pc, used: nat, slots: seq<Slot>, cpus: seq<Cpu>)

  datatype Step =
    | Caller(here: nat)               // the caller's next access, made on this CPU
    | Handle(cpu: nat)
    | Post(cpu: nat, id: nat)
    | Revoke(cpu: nat, id: nat)

  function Init(cfg: Config): State
    requires cfg.Valid()
  {
    // an empty mask returns at once
    State(if cfg.mask == {} then Returned else Scan(0, 0), 1,
          seq(cfg.slots, _ => Slot(false, false, 0)), seq(cfg.cpus, _ => Cpu([], Idle, 0)))
  }

  predicate Shaped(cfg: Config, st: State) {
    && cfg.Valid() && |st.slots| == cfg.slots && |st.cpus| == cfg.cpus && 0 < st.used <= cfg.slots
    && (HasTarget(st.pc) ==> st.pc.n < cfg.cpus)
    && (HasSlot(st.pc) ==> st.pc.slot < st.used)
    && (st.pc.Scan? || st.pc.Find? ==> st.pc.n <= cfg.cpus)
    && (st.pc.Wait? ==> st.pc.slot <= st.used)
    && (st.pc.Scan? || (Calling(st.pc) && st.pc.first) ==> st.used == st.pc.slot + 1)
  }

  predicate Calling(pc: Pc) {
    || pc.Call? || pc.Enqueue? || pc.Check? || pc.Withdraw? || pc.Undo? || pc.Peek? || pc.Poll? || pc.After?
  }

  predicate HasTarget(pc: Pc) {
    Calling(pc) || pc.Probe?
  }

  predicate HasSlot(pc: Pc) {
    Calling(pc) || pc.Scan? || pc.Probe?
  }

  // ----- queues

  function Remove(q: seq<Item>, item: Item): seq<Item> {
    if q == [] then []
    else if q[0] == item then q[1..]
    else [q[0]] + Remove(q[1..], item)
  }

  predicate Queued(st: State, i: nat) {
    exists k :: 0 <= k < |st.cpus| && Own(i) in st.cpus[k].queue
  }

  /** `is_done`. */
  predicate Done(cfg: Config, st: State, i: nat)
    requires i < |st.slots|
  {
    if cfg.async then !Queued(st, i) else !st.slots[i].wait
  }

  // ----- steps

  predicate Enabled(cfg: Config, st: State, step: Step) {
    match step
    case Caller(here) => here in cfg.homes && !st.pc.Returned?
    case Handle(k) => k < |st.cpus| && k in cfg.online && (st.cpus[k].handler.Idle? ==> st.cpus[k].queue != [])
    case Post(k, _) => k < |st.cpus|
    case Revoke(k, _) => k < |st.cpus|
  }

  function SetCpu(st: State, k: nat, cpu: Cpu): State
    requires k < |st.cpus|
  {
    st.(cpus := st.cpus[k := cpu])
  }

  function SetWait(st: State, i: nat, wait: bool): State
    requires i < |st.slots|
  {
    st.(slots := st.slots[i := st.slots[i].(wait := wait)])
  }

  function Apply(cfg: Config, st: State, step: Step): State
    requires Shaped(cfg, st) && Enabled(cfg, st, step)
  {
    match step
    case Caller(here) => CallerStep(cfg, st, here)
    case Handle(k) => HandlerStep(st, k)
    case Post(k, id) => SetCpu(st, k, st.cpus[k].(queue := st.cpus[k].queue + [Foreign(id)]))
    case Revoke(k, id) => SetCpu(st, k, st.cpus[k].(queue := Remove(st.cpus[k].queue, Foreign(id))))
  }

  function HandlerStep(st: State, k: nat): State
    requires k < |st.cpus| && (st.cpus[k].handler.Idle? ==> st.cpus[k].queue != [])
  {
    var cpu := st.cpus[k];
    match cpu.handler
    case Idle => SetCpu(st, k, cpu.(handler := Taken(cpu.queue[0]), queue := cpu.queue[1..]))
    case Taken(item) =>
      SetCpu(st, k, cpu.(handler := Ran(item), count := cpu.count + if item.Own? then 1 else 0))
    case Ran(item) =>
      var st' := SetCpu(st, k, cpu.(handler := Idle));
      if item.Own? && item.slot < |st.slots| then SetWait(st', item.slot, false) else st'
  }

  function CallerStep(cfg: Config, st: State, here: nat): State
    requires Shaped(cfg, st) && !st.pc.Returned?
  {
    match st.pc
    case Scan(n, i) =>
      if n >= cfg.cpus then st.(pc := Find(n))
      else if n !in cfg.mask then st.(pc := Scan(n + 1, i))
      else st.(pc := Call(n, i, true), slots := st.slots[i := st.slots[i].(armed := true)])
    case Call(n, i, first) =>
      if n == here then
        SetCpu(st, n, st.cpus[n].(count := st.cpus[n].count + 1)).(pc := After(n, i, first, false))
      else if cfg.async then st.(pc := Enqueue(n, i, first))
      else SetWait(st, i, true).(pc := Enqueue(n, i, first))
    case Enqueue(n, i, first) =>
      SetCpu(st, n, st.cpus[n].(queue := st.cpus[n].queue + [Own(i)]))
        .(pc := Check(n, i, first), slots := st.slots[i := st.slots[i].(q := n)])
    case Check(n, i, first) => st.(pc := if n in cfg.online then Peek(n, i, first) else Withdraw(n, i, first))
    case Withdraw(n, i, first) =>
      if Own(i) in st.cpus[n].queue then
        SetCpu(st, n, st.cpus[n].(queue := Remove(st.cpus[n].queue, Own(i))))
          .(pc := if cfg.async then After(n, i, first, false) else Undo(n, i, first))
      else st.(pc := After(n, i, first, false))
    case Undo(n, i, first) => SetWait(st, i, false).(pc := After(n, i, first, false))
    case Peek(n, i, first) =>
      st.(pc := if Queued(st, i) then After(n, i, first, true) else Poll(n, i, first))
    case Poll(n, i, first) => st.(pc := After(n, i, first, !Done(cfg, st, i)))
    case After(n, i, first, busy) =>
      if !first then st.(pc := Find(n + 1))
      else if !busy then st.(pc := Scan(n + 1, i))
      else if i + 1 < cfg.slots then st.(pc := Scan(n + 1, i + 1), used := i + 2)
      else st.(pc := Find(n + 1))
    case Find(n) =>
      if n >= cfg.cpus then st.(pc := Wait(0))
      else st.(pc := if n in cfg.mask then Probe(n, 0) else Find(n + 1))
    case Probe(n, i) =>
      if Done(cfg, st, i) then st.(pc := Call(n, i, false))
      else st.(pc := Probe(n, if i + 1 < st.used then i + 1 else 0))
    case Wait(i) =>
      if i >= st.used then st.(pc := Returned)
      else if Done(cfg, st, i) then st.(pc := Wait(i + 1))
      else st
  }

  ghost predicate Reaches(cfg: Config, st: State, steps: seq<Step>, st': State)
    requires Shaped(cfg, st)
    decreases steps
  {
    if steps == [] then st' == st
    else
      && Enabled(cfg, st, steps[0])
      && (ShapeKept(cfg, st, steps[0]); Reaches(cfg, Apply(cfg, st, steps[0]), steps[1..], st'))
  }

  lemma ShapeKept(cfg: Config, st: State, step: Step)
    requires Shaped(cfg, st) && Enabled(cfg, st, step)
    ensures Shaped(cfg, Apply(cfg, st, step))
  {}
}
