/**
  What a caller of `cpu_call_many` gets: in synchronous mode every selected online CPU has run the
  function exactly once when the call returns; in asynchronous mode it may return before.
 */
module CpuCallResults {
  import opened CpuCall
  import opened CpuCallSafety

  ghost predicate Run(cfg: Config, steps: seq<Step>, st: State)
    requires cfg.Valid()
  {
    Reaches(cfg, Init(cfg), steps, st)
  }

  lemma RunKeepsInv(cfg: Config, steps: seq<Step>, st: State)
    requires cfg.Valid() && Run(cfg, steps, st)
    ensures Inv(cfg, st)
  {
    InitInv(cfg);
    RunInv(cfg, Init(cfg), steps, st);
  }

  /** One run after another. */
  lemma {:induction false} Chain(cfg: Config, st: State, steps: seq<Step>, mid: State, more: seq<Step>, end: State)
    requires Shaped(cfg, st) && Reaches(cfg, st, steps, mid) && Shaped(cfg, mid) && Reaches(cfg, mid, more, end)
    ensures Reaches(cfg, st, steps + more, end)
    decreases steps
  {
    if steps == [] {
      assert steps + more == more;
    } else {
      ShapeKept(cfg, st, steps[0]);
      assert (steps + more)[1..] == steps[1..] + more;
      Chain(cfg, Apply(cfg, st, steps[0]), steps[1..], mid, more, end);
    }
  }

  /** In either mode: once the call has returned, each selected online CPU has run the function or is about to. */
  lemma ReturnMeansTaken(cfg: Config, steps: seq<Step>, st: State, k: nat)
    requires cfg.Valid() && Run(cfg, steps, st) && st.pc.Returned? && k < cfg.cpus
    ensures |st.cpus| == cfg.cpus
    ensures st.cpus[k].count + InHand(st.cpus[k].handler) == if Selected(cfg, k) then 1 else 0
    ensures Owns(st.cpus[k].queue) == 0 && (HandlesOwn(st.cpus[k].handler) ==> cfg.homes != {k})
  {
    RunKeepsInv(cfg, steps, st);
    assert CpuInv(cfg, st.pc, st.cpus[k], k);
    NoOwns(st.cpus[k].queue);
    forall x ensures x in st.cpus[k].queue ==> !x.Own? { PassedUnqueued(cfg, st, k, x); }
  }

  lemma PassedUnqueued(cfg: Config, st: State, k: nat, x: Item)
    requires Inv(cfg, st) && st.pc.Returned? && k < cfg.cpus
    ensures x in st.cpus[k].queue ==> !x.Own?
  {
    assert CpuInv(cfg, st.pc, st.cpus[k], k);
    if x.Own? && x.slot < cfg.slots {
      assert PlaceInv(cfg, st.pc, st.used, st.slots[x.slot], x.slot, st.cpus[k], k);
    }
  }

  lemma {:induction false} NoOwns(q: seq<Item>)
    ensures (forall x :: x in q ==> !x.Own?) ==> Owns(q) == 0
  {
    if q != [] { NoOwns(q[1..]); }
  }

  /** In synchronous mode every selected online CPU has run the function exactly once, and no other CPU has. */
  lemma SynchronousReturn(cfg: Config, steps: seq<Step>, st: State, k: nat)
    requires cfg.Valid() && !cfg.async && Run(cfg, steps, st) && st.pc.Returned? && k < cfg.cpus
    ensures |st.cpus| == cfg.cpus && st.cpus[k].count == (if Selected(cfg, k) then 1 else 0)
    ensures Owns(st.cpus[k].queue) == 0 && !HandlesOwn(st.cpus[k].handler)
  {
    ReturnMeansTaken(cfg, steps, st, k);
    RunKeepsInv(cfg, steps, st);
    HandledWaits(cfg, st, k);
    assert forall i :: 0 <= i < cfg.slots ==> SlotInv(cfg, st.pc, st.used, st.slots[i], i) && !st.slots[i].wait;
  }

  lemma HandledWaits(cfg: Config, st: State, k: nat)
    requires Inv(cfg, st) && !cfg.async && k < cfg.cpus
    ensures HandlesOwn(st.cpus[k].handler) ==>
              st.cpus[k].handler.item.slot < cfg.slots && st.slots[st.cpus[k].handler.item.slot].wait
  {
    assert CpuInv(cfg, st.pc, st.cpus[k], k);
    if HandlesOwn(st.cpus[k].handler) {
      var i := st.cpus[k].handler.item.slot;
      assert PlaceInv(cfg, st.pc, st.used, st.slots[i], i, st.cpus[k], k);
    }
  }

  /** At every moment the function has run at most once on each CPU, and never on one not selected. */
  lemma AtMostOnce(cfg: Config, steps: seq<Step>, st: State, k: nat)
    requires cfg.Valid() && Run(cfg, steps, st) && k < cfg.cpus
    ensures |st.cpus| == cfg.cpus && st.cpus[k].count <= if Selected(cfg, k) then 1 else 0
  {
    RunKeepsInv(cfg, steps, st);
    assert CpuInv(cfg, st.pc, st.cpus[k], k);
  }

  /** A `Cpu_call` is on one queue at most, at most once, with its function set. */
  lemma OneQueue(cfg: Config, steps: seq<Step>, st: State, i: nat, k: nat, l: nat)
    requires cfg.Valid() && Run(cfg, steps, st)
    requires i < |st.slots| && k < |st.cpus| && l < |st.cpus|
    requires Own(i) in st.cpus[k].queue && Own(i) in st.cpus[l].queue
    ensures k == l && Owns(st.cpus[k].queue) == 1 && st.slots[i].armed
  {
    RunKeepsInv(cfg, steps, st);
    assert PlaceInv(cfg, st.pc, st.used, st.slots[i], i, st.cpus[k], k);
    assert PlaceInv(cfg, st.pc, st.used, st.slots[i], i, st.cpus[l], l);
    assert CpuInv(cfg, st.pc, st.cpus[k], k);
    OwnsMember(st.cpus[k].queue, i);
  }

  /**
    The assertions of the source hold: a slot is done when it is used for a call, it is not queued when
    it is enqueued, and it is done once the caller has taken it back from an offline CPU.
   */
  lemma ReusedOnlyWhenDone(cfg: Config, steps: seq<Step>, st: State)
    requires cfg.Valid() && Run(cfg, steps, st)
    ensures Calling(st.pc) ==> st.pc.slot < |st.slots| && st.slots[st.pc.slot].armed
    ensures st.pc.Call? || (st.pc.After? && !st.pc.busy) ==> Done(cfg, st, st.pc.slot)
    ensures st.pc.Call? || st.pc.Enqueue? ==> !Queued(st, st.pc.slot)
    ensures st.pc.Withdraw? ==> st.pc.n < |st.cpus| && Own(st.pc.slot) in st.cpus[st.pc.n].queue
  {
    RunKeepsInv(cfg, steps, st);
    if Calling(st.pc) {
      var i := st.pc.slot;
      assert SlotInv(cfg, st.pc, st.used, st.slots[i], i);
      assert forall k :: 0 <= k < cfg.cpus ==> PlaceInv(cfg, st.pc, st.used, st.slots[i], i, st.cpus[k], k);
    }
  }

  /** While the caller waits for a slot in synchronous mode, an online CPU has it and can go on. */
  lemma WaitedForIsServed(cfg: Config, steps: seq<Step>, st: State)
    requires cfg.Valid() && !cfg.async && Run(cfg, steps, st)
    requires st.pc.Probe? || (st.pc.Wait? && st.pc.slot < st.used)
    ensures st.pc.slot < |st.slots|
    ensures !Done(cfg, st, st.pc.slot) ==>
              exists k: nat :: Enabled(cfg, st, Handle(k)) &&
                          (Own(st.pc.slot) in st.cpus[k].queue || Handles(st.cpus[k].handler, st.pc.slot))
  {
    RunKeepsInv(cfg, steps, st);
    var i := st.pc.slot;
    assert ServedInv(cfg, st, i);
    if !Done(cfg, st, i) { assert Enabled(cfg, st, Handle(st.slots[i].q)); }
  }
}
