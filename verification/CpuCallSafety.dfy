/**
  What `cpu_call_many` keeps in every run: each selected online CPU is owed exactly one run of the
  function from the moment it has been called, and a `Cpu_call` is in one place only.
 */
module CpuCallSafety {
  import opened CpuCall

  // ----- counting the caller's own requests

  function Owns(q: seq<Item>): nat {
    if q == [] then 0 else (if q[0].Own? then 1 else 0) + Owns(q[1..])
  }

  function InHand(h: Handler): nat {
    if h.Taken? && h.item.Own? then 1 else 0
  }

  predicate Handles(h: Handler, i: nat) {
    !h.Idle? && h.item == Own(i)
  }

  predicate HandlesOwn(h: Handler) {
    !h.Idle? && h.item.Own?
  }

  lemma {:induction false} OwnsAppend(q: seq<Item>, item: Item)
    ensures Owns(q + [item]) == Owns(q) + if item.Own? then 1 else 0
  {
    if q != [] {
      assert (q + [item])[1..] == q[1..] + [item];
      OwnsAppend(q[1..], item);
    }
  }

  lemma {:induction false} OwnsRemove(q: seq<Item>, item: Item)
    ensures Owns(Remove(q, item)) == Owns(q) - if item.Own? && item in q then 1 else 0
    ensures forall x :: x in Remove(q, item) ==> x in q
    ensures forall x :: x in q && x != item ==> x in Remove(q, item)
  {
    if q != [] && q[0] != item {
      OwnsRemove(q[1..], item);
    }
  }

  lemma {:induction false} OwnsMember(q: seq<Item>, i: nat)
    ensures Own(i) in q ==> Owns(q) > 0
  {
    if q != [] && q[0] != Own(i) {
      OwnsMember(q[1..], i);
    }
  }

  // ----- what is owed

  /** CPUs below this have been called. */
  function Called(cfg: Config, pc: Pc): nat {
    match pc
    case Scan(n, _) => n
    case Call(n, _, _) => n
    case Enqueue(n, _, _) => n
    case Find(n) => n
    case Probe(n, _) => n
    case Wait(_) => cfg.cpus
    case Returned => cfg.cpus
    case _ => pc.n + 1
  }

  predicate Selected(cfg: Config, k: nat) {
    k in cfg.mask && k in cfg.online
  }

  /** A request is owed to CPU `k`, or is on its queue until the caller notices that it is offline. */
  function Due(cfg: Config, pc: Pc, k: nat): nat {
    if k in cfg.mask && k < Called(cfg, pc) && (k in cfg.online || ((pc.Check? || pc.Withdraw?) && pc.n == k))
    then 1 else 0
  }

  /** Requests are neither lost nor doubled: run, queued and in hand add up to what is owed. */
  predicate CpuInv(cfg: Config, pc: Pc, cpu: Cpu, k: nat) {
    && cpu.count + Owns(cpu.queue) + InHand(cpu.handler) == Due(cfg, pc, k)
    && (cpu.handler.Ran? && cpu.handler.item.Own? ==> cpu.count == 1)
    && (cfg.homes == {k} || k !in cfg.online ==> !HandlesOwn(cpu.handler))
    && (cfg.homes == {k} ==> Owns(cpu.queue) == 0)
    && (k !in cfg.online ==> cpu.count == 0)
    && (forall x :: x in cpu.queue && x.Own? ==> x.slot < cfg.slots)
    && (HandlesOwn(cpu.handler) ==> cpu.handler.item.slot < cfg.slots)
  }

  /** The caller knows that slot `i` is on no queue. */
  predicate Unqueued(pc: Pc, i: nat) {
    || ((pc.Scan? || pc.Call? || pc.Enqueue? || pc.Undo? || pc.Poll? || (pc.After? && !pc.busy)) && pc.slot == i)
    || Passed(pc, i)
  }

  /** `wait_all` is past slot `i`. */
  predicate Passed(pc: Pc, i: nat) {
    pc.Returned? || (pc.Wait? && i < pc.slot)
  }

  /** The caller has set `_wait` of slot `i` and the slot is nowhere else. */
  predicate Held(pc: Pc, i: nat) {
    (pc.Enqueue? || pc.Undo?) && pc.slot == i
  }

  predicate Unused(pc: Pc, i: nat) {
    ((pc.Scan? || pc.Call? || (pc.After? && !pc.busy)) && pc.slot == i) || Passed(pc, i)
  }

  predicate QueuedInv(cfg: Config, pc: Pc, used: nat, slot: Slot, i: nat, cpu: Cpu, k: nat) {
    Own(i) in cpu.queue ==>
      i < used && slot.armed && slot.q == k && !Unqueued(pc, i) && (!cfg.async ==> slot.wait)
  }

  predicate HandledInv(cfg: Config, pc: Pc, used: nat, slot: Slot, i: nat, cpu: Cpu, k: nat) {
    !cfg.async && Handles(cpu.handler, i) ==>
      i < used && slot.wait && slot.q == k && !Held(pc, i) && Own(i) !in cpu.queue
  }

  /** What slot `i` may do on CPU `k`. */
  predicate PlaceInv(cfg: Config, pc: Pc, used: nat, slot: Slot, i: nat, cpu: Cpu, k: nat) {
    QueuedInv(cfg, pc, used, slot, i, cpu, k) && HandledInv(cfg, pc, used, slot, i, cpu, k)
  }

  predicate SlotInv(cfg: Config, pc: Pc, used: nat, slot: Slot, i: nat) {
    && (!cfg.async && (Unused(pc, i) || i >= used) ==> !slot.wait)
    && (!cfg.async && Held(pc, i) ==> slot.wait)
    && (i < used && (pc.Scan? ==> i < pc.slot) && !pc.Wait? && !pc.Returned? && (pc.Find? ==> pc.n < cfg.cpus) ==>
          slot.armed)
  }

  /** A slot that is waited for is held by the caller, or the CPU it was posted to has it. */
  predicate ServedInv(cfg: Config, st: State, i: nat)
    requires Shaped(cfg, st) && i < cfg.slots
  {
    var k := st.slots[i].q;
    !cfg.async && st.slots[i].wait && !Held(st.pc, i) ==>
      && k < cfg.cpus && (Own(i) in st.cpus[k].queue || Handles(st.cpus[k].handler, i))
      && (k in cfg.online || ((st.pc.Check? || st.pc.Withdraw?) && st.pc.slot == i && st.pc.n == k))
  }

  predicate PcInv(cfg: Config, st: State)
    requires Shaped(cfg, st)
  {
    && (HasTarget(st.pc) ==> st.pc.n in cfg.mask)
    && (Calling(st.pc) && !st.pc.Call? && !st.pc.After? ==> cfg.homes != {st.pc.n})
    && (st.pc.Peek? || st.pc.Poll? ==> st.pc.n in cfg.online)
    && (st.pc.Withdraw? || st.pc.Undo? ==> st.pc.n !in cfg.online)
    && (st.pc.Withdraw? || (st.pc.Check? && st.pc.n !in cfg.online) ==> Own(st.pc.slot) in st.cpus[st.pc.n].queue)
  }

  predicate Inv(cfg: Config, st: State) {
    && Shaped(cfg, st) && PcInv(cfg, st)
    && (forall k :: 0 <= k < cfg.cpus ==> CpuInv(cfg, st.pc, st.cpus[k], k))
    && (forall i :: 0 <= i < cfg.slots ==> SlotInv(cfg, st.pc, st.used, st.slots[i], i))
    && (forall i, k :: 0 <= i < cfg.slots && 0 <= k < cfg.cpus ==>
          PlaceInv(cfg, st.pc, st.used, st.slots[i], i, st.cpus[k], k))
    && (forall i :: 0 <= i < cfg.slots ==> ServedInv(cfg, st, i))
  }

  lemma InitInv(cfg: Config)
    requires cfg.Valid()
    ensures Inv(cfg, Init(cfg))
  {}

  // ----- steps of the caller

  /** Only posting to a CPU, or calling the function directly, makes a request due there. */
  lemma CallerDue(cfg: Config, st: State, here: nat, k: nat)
    requires Inv(cfg, st) && here in cfg.homes && !st.pc.Returned? && k < cfg.cpus
    ensures var aimed := HasTarget(st.pc) && st.pc.n == k;
            Due(cfg, CallerStep(cfg, st, here).pc, k) ==
            if aimed && (st.pc.Enqueue? || (st.pc.Call? && k == here)) then 1
            else if aimed && st.pc.Withdraw? then 0
            else Due(cfg, st.pc, k)
  {}

  lemma CallerCpu(cfg: Config, st: State, here: nat, k: nat)
    requires Inv(cfg, st) && here in cfg.homes && !st.pc.Returned? && k < cfg.cpus
    ensures var st' := CallerStep(cfg, st, here);
            CpuInv(cfg, st'.pc, st'.cpus[k], k)
  {
    CallerDue(cfg, st, here, k);
    assert CpuInv(cfg, st.pc, st.cpus[k], k);
    if HasSlot(st.pc) {
      OwnsAppend(st.cpus[k].queue, Own(st.pc.slot));
      OwnsRemove(st.cpus[k].queue, Own(st.pc.slot));
    }
  }

  /** The steps that change a slot, or which slots are in use. */
  predicate TouchesSlot(pc: Pc) {
    pc.Scan? || pc.Call? || pc.Enqueue? || pc.Undo? || (pc.After? && pc.first)
  }

  lemma CallerOwnSlot(cfg: Config, st: State, here: nat, i: nat)
    requires Inv(cfg, st) && here in cfg.homes && TouchesSlot(st.pc) && i < cfg.slots
    ensures var st' := CallerStep(cfg, st, here);
            SlotInv(cfg, st'.pc, st'.used, st'.slots[i], i)
  {
    assert SlotInv(cfg, st.pc, st.used, st.slots[i], i);
  }

  lemma CallerSlot(cfg: Config, st: State, here: nat, i: nat)
    requires Inv(cfg, st) && here in cfg.homes && !st.pc.Returned? && i < cfg.slots
    ensures var st' := CallerStep(cfg, st, here);
            SlotInv(cfg, st'.pc, st'.used, st'.slots[i], i)
  {
    if TouchesSlot(st.pc) {
      CallerOwnSlot(cfg, st, here, i);
    } else {
      assert SlotInv(cfg, st.pc, st.used, st.slots[i], i);
    }
  }

  lemma EnqueueQueued(cfg: Config, st: State, here: nat, i: nat, k: nat)
    requires Inv(cfg, st) && here in cfg.homes && st.pc.Enqueue? && i < cfg.slots && k < cfg.cpus
    ensures var st' := CallerStep(cfg, st, here);
            QueuedInv(cfg, st'.pc, st'.used, st'.slots[i], i, st'.cpus[k], k)
  {
    assert PlaceInv(cfg, st.pc, st.used, st.slots[i], i, st.cpus[k], k);
    assert SlotInv(cfg, st.pc, st.used, st.slots[i], i);
  }

  lemma WithdrawQueued(cfg: Config, st: State, here: nat, i: nat, k: nat)
    requires Inv(cfg, st) && here in cfg.homes && st.pc.Withdraw? && i < cfg.slots && k < cfg.cpus
    ensures var st' := CallerStep(cfg, st, here);
            QueuedInv(cfg, st'.pc, st'.used, st'.slots[i], i, st'.cpus[k], k)
  {
    assert PlaceInv(cfg, st.pc, st.used, st.slots[i], i, st.cpus[k], k);
    assert CpuInv(cfg, st.pc, st.cpus[k], k);
    OwnsRemove(st.cpus[k].queue, Own(st.pc.slot));
    OwnsMember(Remove(st.cpus[k].queue, Own(st.pc.slot)), i);
  }

  /** The other steps leave the queues alone. */
  lemma QuietQueued(cfg: Config, st: State, here: nat, i: nat, k: nat)
    requires Inv(cfg, st) && here in cfg.homes && !st.pc.Returned? && !st.pc.Enqueue? && !st.pc.Withdraw?
    requires i < cfg.slots && k < cfg.cpus
    ensures var st' := CallerStep(cfg, st, here);
            QueuedInv(cfg, st'.pc, st'.used, st'.slots[i], i, st'.cpus[k], k)
  {
    assert PlaceInv(cfg, st.pc, st.used, st.slots[i], i, st.cpus[k], k);
    assert SlotInv(cfg, st.pc, st.used, st.slots[i], i);
    assert CallerStep(cfg, st, here).cpus[k].queue == st.cpus[k].queue;
  }

  lemma CallerQueued(cfg: Config, st: State, here: nat, i: nat, k: nat)
    requires Inv(cfg, st) && here in cfg.homes && !st.pc.Returned? && i < cfg.slots && k < cfg.cpus
    ensures var st' := CallerStep(cfg, st, here);
            QueuedInv(cfg, st'.pc, st'.used, st'.slots[i], i, st'.cpus[k], k)
  {
    if st.pc.Enqueue? {
      EnqueueQueued(cfg, st, here, i, k);
    } else if st.pc.Withdraw? {
      WithdrawQueued(cfg, st, here, i, k);
    } else {
      QuietQueued(cfg, st, here, i, k);
    }
  }

  lemma CallerHandled(cfg: Config, st: State, here: nat, i: nat, k: nat)
    requires Inv(cfg, st) && here in cfg.homes && !st.pc.Returned? && i < cfg.slots && k < cfg.cpus
    ensures var st' := CallerStep(cfg, st, here);
            HandledInv(cfg, st'.pc, st'.used, st'.slots[i], i, st'.cpus[k], k)
  {
    assert PlaceInv(cfg, st.pc, st.used, st.slots[i], i, st.cpus[k], k);
    assert SlotInv(cfg, st.pc, st.used, st.slots[i], i);
    assert CpuInv(cfg, st.pc, st.cpus[k], k);
    if st.pc.Withdraw? {
      OwnsRemove(st.cpus[k].queue, Own(st.pc.slot));
    }
  }

  lemma CallerServed(cfg: Config, st: State, here: nat, i: nat)
    requires Inv(cfg, st) && here in cfg.homes && !st.pc.Returned? && i < cfg.slots
    requires Shaped(cfg, CallerStep(cfg, st, here))
    ensures ServedInv(cfg, CallerStep(cfg, st, here), i)
  {
    assert ServedInv(cfg, st, i) && SlotInv(cfg, st.pc, st.used, st.slots[i], i);
    if st.pc.Withdraw? {
      OwnsRemove(st.cpus[st.pc.n].queue, Own(st.pc.slot));
    }
  }

  lemma CallerPc(cfg: Config, st: State, here: nat)
    requires Inv(cfg, st) && here in cfg.homes && !st.pc.Returned?
    ensures PcInv(cfg, CallerStep(cfg, st, here))
  {
  }

  lemma CallerInv(cfg: Config, st: State, here: nat)
    requires Inv(cfg, st) && here in cfg.homes && !st.pc.Returned?
    ensures Inv(cfg, CallerStep(cfg, st, here))
  {
    var st' := CallerStep(cfg, st, here);
    ShapeKept(cfg, st, Caller(here));
    CallerPc(cfg, st, here);
    forall k | 0 <= k < cfg.cpus ensures CpuInv(cfg, st'.pc, st'.cpus[k], k) { CallerCpu(cfg, st, here, k); }
    forall i | 0 <= i < cfg.slots ensures SlotInv(cfg, st'.pc, st'.used, st'.slots[i], i) {
      CallerSlot(cfg, st, here, i);
    }
    forall i | 0 <= i < cfg.slots ensures ServedInv(cfg, st', i) { CallerServed(cfg, st, here, i); }
    forall i, k | 0 <= i < cfg.slots && 0 <= k < cfg.cpus
      ensures PlaceInv(cfg, st'.pc, st'.used, st'.slots[i], i, st'.cpus[k], k)
    {
      CallerQueued(cfg, st, here, i, k);
      CallerHandled(cfg, st, here, i, k);
    }
  }

  // ----- steps of a queue handler

  lemma HandlerCpu(cfg: Config, st: State, c: nat, k: nat)
    requires Inv(cfg, st) && Enabled(cfg, st, Handle(c)) && k < cfg.cpus
    ensures CpuInv(cfg, st.pc, HandlerStep(st, c).cpus[k], k)
  {
    assert CpuInv(cfg, st.pc, st.cpus[k], k);
  }

  lemma HandlerPlace(cfg: Config, st: State, c: nat, i: nat, k: nat)
    requires Inv(cfg, st) && Enabled(cfg, st, Handle(c)) && i < cfg.slots && k < cfg.cpus
    ensures var st' := HandlerStep(st, c);
            PlaceInv(cfg, st.pc, st.used, st'.slots[i], i, st'.cpus[k], k)
  {
    assert PlaceInv(cfg, st.pc, st.used, st.slots[i], i, st.cpus[k], k);
    assert PlaceInv(cfg, st.pc, st.used, st.slots[i], i, st.cpus[c], c);
    assert CpuInv(cfg, st.pc, st.cpus[k], k);
    if st.cpus[c].handler.Idle? {
      OwnsMember(st.cpus[c].queue[1..], i);
    }
  }

  lemma HandlerServed(cfg: Config, st: State, c: nat, i: nat)
    requires Inv(cfg, st) && Enabled(cfg, st, Handle(c)) && i < cfg.slots
    ensures ServedInv(cfg, HandlerStep(st, c), i)
  {
    assert ServedInv(cfg, st, i);
    assert CpuInv(cfg, st.pc, st.cpus[c], c);
  }

  lemma HandlerInv(cfg: Config, st: State, c: nat)
    requires Inv(cfg, st) && Enabled(cfg, st, Handle(c))
    ensures Inv(cfg, HandlerStep(st, c))
  {
    var st' := HandlerStep(st, c);
    forall k | 0 <= k < cfg.cpus ensures CpuInv(cfg, st.pc, st'.cpus[k], k) { HandlerCpu(cfg, st, c, k); }
    forall i, k | 0 <= i < cfg.slots && 0 <= k < cfg.cpus
      ensures PlaceInv(cfg, st.pc, st.used, st'.slots[i], i, st'.cpus[k], k)
    {
      HandlerPlace(cfg, st, c, i, k);
    }
    forall i | 0 <= i < cfg.slots ensures SlotInv(cfg, st.pc, st.used, st'.slots[i], i) {
      assert SlotInv(cfg, st.pc, st.used, st.slots[i], i);
      assert PlaceInv(cfg, st.pc, st.used, st.slots[i], i, st.cpus[c], c);
    }
    forall i | 0 <= i < cfg.slots ensures ServedInv(cfg, st', i) { HandlerServed(cfg, st, c, i); }
  }

  // ----- other users of the queues

  /** A foreign request comes or goes, and the caller's own stay. */
  lemma ForeignQueue(cfg: Config, st: State, step: Step)
    requires Inv(cfg, st) && Enabled(cfg, st, step) && (step.Post? || step.Revoke?)
    ensures var (q, q') := (st.cpus[step.cpu].queue, Apply(cfg, st, step).cpus[step.cpu].queue);
            Owns(q') == Owns(q) && forall x: Item :: x.Own? ==> (x in q' <==> x in q)
  {
    OwnsAppend(st.cpus[step.cpu].queue, Foreign(step.id));
    OwnsRemove(st.cpus[step.cpu].queue, Foreign(step.id));
  }

  lemma ForeignPlace(cfg: Config, st: State, step: Step, i: nat, k: nat)
    requires Inv(cfg, st) && Enabled(cfg, st, step) && (step.Post? || step.Revoke?)
    requires i < cfg.slots && k < cfg.cpus
    ensures var st' := Apply(cfg, st, step);
            CpuInv(cfg, st.pc, st'.cpus[k], k) && PlaceInv(cfg, st.pc, st.used, st.slots[i], i, st'.cpus[k], k)
  {
    ForeignQueue(cfg, st, step);
    assert CpuInv(cfg, st.pc, st.cpus[k], k);
    assert PlaceInv(cfg, st.pc, st.used, st.slots[i], i, st.cpus[k], k);
  }

  lemma ForeignServed(cfg: Config, st: State, step: Step, i: nat)
    requires Inv(cfg, st) && Enabled(cfg, st, step) && (step.Post? || step.Revoke?) && i < cfg.slots
    ensures ServedInv(cfg, Apply(cfg, st, step), i)
  {
    ForeignQueue(cfg, st, step);
    assert ServedInv(cfg, st, i);
  }

  lemma ForeignInv(cfg: Config, st: State, step: Step)
    requires Inv(cfg, st) && Enabled(cfg, st, step) && (step.Post? || step.Revoke?)
    ensures Inv(cfg, Apply(cfg, st, step))
  {
    var st' := Apply(cfg, st, step);
    ForeignQueue(cfg, st, step);
    forall k | 0 <= k < cfg.cpus ensures CpuInv(cfg, st.pc, st'.cpus[k], k) {
      ForeignPlace(cfg, st, step, 0, k);
    }
    forall i, k | 0 <= i < cfg.slots && 0 <= k < cfg.cpus
      ensures PlaceInv(cfg, st.pc, st.used, st'.slots[i], i, st'.cpus[k], k)
    {
      ForeignPlace(cfg, st, step, i, k);
    }
    forall i | 0 <= i < cfg.slots ensures ServedInv(cfg, st', i) { ForeignServed(cfg, st, step, i); }
  }

  lemma StepInv(cfg: Config, st: State, step: Step)
    requires Inv(cfg, st) && Enabled(cfg, st, step)
    ensures Inv(cfg, Apply(cfg, st, step))
  {
    match step
    case Caller(here) => CallerInv(cfg, st, here);
    case Handle(c) => HandlerInv(cfg, st, c);
    case _ => ForeignInv(cfg, st, step);
  }

  lemma {:induction false} RunInv(cfg: Config, st: State, steps: seq<Step>, st': State)
    requires Inv(cfg, st) && Reaches(cfg, st, steps, st')
    ensures Inv(cfg, st')
    decreases steps
  {
    if steps != [] {
      StepInv(cfg, st, steps[0]);
      RunInv(cfg, Apply(cfg, st, steps[0]), steps[1..], st');
    }
  }
}
