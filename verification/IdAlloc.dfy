/**
  `Id_alloc` with one allocating CPU and any number of concurrent `free`s.  Each step is one access to
  the slot array or to an owner's ID; `free` reads the validity and the ID of its owner in one step.
  Slots and owners are numbered, and the ID offset is left out.
 */
module IdAlloc {
  import opened Wrappers

  /** A slot is null, the freed marker, the eviction marker, or names its owner. */
  datatype Slot = Empty | Freed | Evicting | Held(owner: nat)

  /** `Cas` and `Spin` are inside `free`; `Dead` is after it has returned. */
  datatype Life = Live | Cas(slot: nat) | Spin(slot: nat) | Dead

  datatype Owner = Owner(id: Option<nat>, life: Life)

  datatype Pc =
    | Idle
    | Probe(owner: nat)                                // about to take the next slot
    | Decide(owner: nat, slot: nat, seen: Slot)        // has read the slot
    | Reset(owner: nat, slot: nat, victim: nat)        // has put the eviction marker
    | SetId(owner: nat, slot: nat)
    | Write(owner: nat, slot: nat)

  /** `next` is the round-robin position; `probes` counts the slots read by the current allocation. */
  datatype State = State(slots: seq<Slot>, next: nat, owners: seq<Owner>, pc: Pc, probes: nat)

  datatype Step = Alloc(owner: nat) | Go | Free(owner: nat) | FreeGo(owner: nat)

  function Init(slots: nat, owners: nat): State {
    State(seq(slots, _ => Empty), 0, seq(owners, _ => Owner(None, Live)), Idle, 0)
  }

  predicate Shaped(st: State) {
    && st.next < |st.slots|
    && (!st.pc.Idle? ==> st.pc.owner < |st.owners|)
    && (st.pc.Decide? || st.pc.Reset? || st.pc.SetId? || st.pc.Write? ==> st.pc.slot < |st.slots|)
    && (st.pc.Reset? ==> st.pc.victim < |st.owners|)
    && (forall o :: 0 <= o < |st.owners| && (st.owners[o].life.Cas? || st.owners[o].life.Spin?) ==>
          st.owners[o].life.slot < |st.slots|)
    && (forall o :: 0 <= o < |st.owners| && st.owners[o].id.Some? ==> st.owners[o].id.value < |st.slots|)
  }

  predicate Enabled(st: State, step: Step) {
    match step
    case Alloc(o) => o < |st.owners| && st.pc.Idle? && st.owners[o].life.Live?
    case Go => !st.pc.Idle?
    // an owner is not freed while an ID is being allocated for it
    case Free(o) => o < |st.owners| && st.owners[o].life.Live? && (st.pc.Idle? || st.pc.owner != o)
    case FreeGo(o) => o < |st.owners| && (st.owners[o].life.Cas? || st.owners[o].life.Spin?)
  }

  function Following(st: State): nat {
    if st.next + 1 >= |st.slots| then 0 else st.next + 1
  }

  function SetOwner(st: State, o: nat, owner: Owner): State
    requires o < |st.owners|
  {
    st.(owners := st.owners[o := owner])
  }

  /** `evictable` stands for `can_replace`. */
  function Apply(st: State, evictable: set<nat>, step: Step): State
    requires Shaped(st) && Enabled(st, step)
  {
    match step
    case Alloc(o) => if st.owners[o].id.Some? then st else st.(pc := Probe(o), probes := 0)
    case Go => AllocStep(st, evictable)
    case Free(o) =>
      var owner := st.owners[o];
      SetOwner(st, o, owner.(life := if owner.id.Some? then Cas(owner.id.value) else Dead))
    case FreeGo(o) =>
      match st.owners[o].life {
        case Cas(i) =>
          if st.slots[i] == Held(o)
          then SetOwner(st, o, st.owners[o].(life := Dead)).(slots := st.slots[i := Freed])
          else SetOwner(st, o, st.owners[o].(life := Spin(i)))
        case Spin(i) => if st.slots[i] == Evicting then st else SetOwner(st, o, st.owners[o].(life := Dead))
        case _ => st
      }
  }

  function AllocStep(st: State, evictable: set<nat>): State
    requires Shaped(st) && !st.pc.Idle?
  {
    match st.pc
    case Probe(o) =>
      st.(pc := Decide(o, st.next, st.slots[st.next]), next := Following(st), probes := st.probes + 1)
    case Decide(o, i, victim) =>
      if victim.Held? && victim.owner !in evictable then st.(pc := Probe(o))
      else if victim.Held? && victim.owner < |st.owners| && st.slots[i] == victim
      then st.(pc := Reset(o, i, victim.owner), slots := st.slots[i := Evicting])
      else st.(pc := SetId(o, i))
    case Reset(o, i, v) => SetOwner(st, v, st.owners[v].(id := None)).(pc := SetId(o, i))
    case SetId(o, i) => SetOwner(st, o, st.owners[o].(id := Some(i))).(pc := Write(o, i))
    case Write(o, i) => st.(pc := Idle, slots := st.slots[i := Held(o)])
  }

  // ----- the invariant

  /** The owner has not given up its ID by `free`. */
  predicate Present(life: Life) {
    life.Live? || life.Cas?
  }

  predicate SlotInv(st: State, i: nat)
    requires i < |st.slots|
  {
    match st.slots[i]
    case Held(o) => o < |st.owners| && st.owners[o].id == Some(i) && Present(st.owners[o].life)
    case Evicting => (st.pc.Reset? || st.pc.SetId? || st.pc.Write?) && st.pc.slot == i
    case _ => true
  }

  /** Owner `o` is being evicted from slot `i`. */
  predicate Evicted(st: State, o: nat, i: nat) {
    i < |st.slots| && st.slots[i].Evicting? && st.pc.Reset? && st.pc.slot == i && st.pc.victim == o
  }

  /** Owner `o` has just got slot `i`, which does not name it yet. */
  predicate Entering(st: State, o: nat, i: nat) {
    st.pc == Write(o, i)
  }

  predicate OwnerInv(st: State, o: nat)
    requires Shaped(st) && o < |st.owners|
  {
    var owner := st.owners[o];
    && (owner.id.Some? && Present(owner.life) ==>
          st.slots[owner.id.value] == Held(o) || Evicted(st, o, owner.id.value) || Entering(st, o, owner.id.value))
    && (owner.life.Cas? ==> owner.id == None || owner.id == Some(owner.life.slot))
    && (owner.life.Spin? && owner.id.Some? ==> Evicted(st, o, owner.id.value) && owner.life.slot == owner.id.value)
  }

  predicate PcInv(st: State)
    requires Shaped(st)
  {
    && (!st.pc.Idle? ==> st.owners[st.pc.owner].life.Live?)
    && (st.pc.Probe? || st.pc.Decide? || st.pc.Reset? || st.pc.SetId? ==> st.owners[st.pc.owner].id == None)
    && (st.pc.Decide? ==>
          st.slots[st.pc.slot] == st.pc.seen || (st.pc.seen.Held? && st.slots[st.pc.slot] == Freed))
    && (st.pc.Decide? && st.pc.seen.Held? ==> st.pc.seen.owner < |st.owners|)
    && (st.pc.Decide? ==> !st.pc.seen.Evicting?)
    && (st.pc.Reset? ==>
          st.slots[st.pc.slot] == Evicting && st.owners[st.pc.victim].id == Some(st.pc.slot)
          && !st.owners[st.pc.victim].life.Dead?)
    && (st.pc.SetId? || st.pc.Write? ==> !st.slots[st.pc.slot].Held?)
    && (st.pc.Write? ==> st.owners[st.pc.owner].id == Some(st.pc.slot))
  }

  predicate Inv(st: State) {
    && Shaped(st) && PcInv(st)
    && (forall i :: 0 <= i < |st.slots| ==> SlotInv(st, i))
    && (forall o :: 0 <= o < |st.owners| ==> OwnerInv(st, o))
  }

  lemma InitInv(slots: nat, owners: nat)
    requires slots > 0
    ensures Inv(Init(slots, owners))
  {}

  lemma StepShaped(st: State, evictable: set<nat>, step: Step)
    requires Inv(st) && Enabled(st, step)
    ensures Shaped(Apply(st, evictable, step))
  {}

  lemma StepPc(st: State, evictable: set<nat>, step: Step)
    requires Inv(st) && Enabled(st, step) && Shaped(Apply(st, evictable, step))
    ensures PcInv(Apply(st, evictable, step))
  {
    assert SlotInv(st, st.next);
    if st.pc.Decide? {
      assert SlotInv(st, st.pc.slot);
    }
    if step.FreeGo? {
      assert OwnerInv(st, step.owner);
    }
  }

  lemma StepSlot(st: State, evictable: set<nat>, step: Step, i: nat)
    requires Inv(st) && Enabled(st, step) && i < |st.slots|
    ensures SlotInv(Apply(st, evictable, step), i)
  {
    assert SlotInv(st, i);
    if step.FreeGo? {
      assert OwnerInv(st, step.owner);
    }
  }

  lemma AllocOwner(st: State, evictable: set<nat>, o: nat)
    requires Inv(st) && !st.pc.Idle? && o < |st.owners| && Shaped(AllocStep(st, evictable))
    ensures OwnerInv(AllocStep(st, evictable), o)
  {
    assert OwnerInv(st, o);
    if st.pc.Decide? {
      assert SlotInv(st, st.pc.slot);
    }
  }

  lemma FreeOwner(st: State, evictable: set<nat>, step: Step, o: nat)
    requires Inv(st) && Enabled(st, step) && step.FreeGo? && o < |st.owners| && Shaped(Apply(st, evictable, step))
    ensures OwnerInv(Apply(st, evictable, step), o)
  {
    assert OwnerInv(st, o) && OwnerInv(st, step.owner);
  }

  lemma StepOwner(st: State, evictable: set<nat>, step: Step, o: nat)
    requires Inv(st) && Enabled(st, step) && o < |st.owners| && Shaped(Apply(st, evictable, step))
    ensures OwnerInv(Apply(st, evictable, step), o)
  {
    if step.Go? {
      AllocOwner(st, evictable, o);
    } else if step.FreeGo? {
      FreeOwner(st, evictable, step, o);
    } else {
      assert OwnerInv(st, o);
    }
  }

  lemma StepInv(st: State, evictable: set<nat>, step: Step)
    requires Inv(st) && Enabled(st, step)
    ensures Inv(Apply(st, evictable, step))
  {
    var st' := Apply(st, evictable, step);
    StepShaped(st, evictable, step);
    StepPc(st, evictable, step);
    forall i | 0 <= i < |st.slots| ensures SlotInv(st', i) { StepSlot(st, evictable, step, i); }
    forall o | 0 <= o < |st.owners| ensures OwnerInv(st', o) { StepOwner(st, evictable, step, o); }
  }

  // ----- whole runs

  /** A step, and the owners that `can_replace` accepts at that moment. */
  datatype Move = Move(step: Step, evictable: set<nat>)

  ghost predicate Reaches(st: State, moves: seq<Move>, st': State)
    requires Inv(st)
    decreases moves
  {
    if moves == [] then st' == st
    else
      && Enabled(st, moves[0].step)
      && (StepInv(st, moves[0].evictable, moves[0].step);
          Reaches(Apply(st, moves[0].evictable, moves[0].step), moves[1..], st'))
  }

  ghost predicate Run(slots: nat, owners: nat, moves: seq<Move>, st: State)
    requires slots > 0
  {
    InitInv(slots, owners);
    Reaches(Init(slots, owners), moves, st)
  }

  lemma {:induction false} ReachesInv(st: State, moves: seq<Move>, st': State)
    requires Inv(st) && Reaches(st, moves, st')
    ensures Inv(st') && |st'.slots| == |st.slots|
    decreases moves
  {
    if moves != [] {
      StepInv(st, moves[0].evictable, moves[0].step);
      ReachesInv(Apply(st, moves[0].evictable, moves[0].step), moves[1..], st');
    }
  }

  /**
    In every run, whatever owners can be replaced at each moment: no two owners that have not given up
    their IDs have the same one, and the slot of such an owner names it unless the owner is being evicted
    or its ID is just being set.
   */
  lemma RunsKeepIdsApart(slots: nat, owners: nat, moves: seq<Move>, st: State, o: nat, p: nat)
    requires slots > 0 && Run(slots, owners, moves, st)
    requires o < |st.owners| && p < |st.owners| && st.owners[o].id.Some?
    requires Present(st.owners[o].life) && Present(st.owners[p].life)
    ensures st.owners[o].id == st.owners[p].id ==> o == p
    ensures var i := st.owners[o].id.value;
            i < |st.slots| && (st.slots[i] == Held(o) || Evicted(st, o, i) || Entering(st, o, i))
  {
    InitInv(slots, owners);
    ReachesInv(Init(slots, owners), moves, st);
    assert OwnerInv(st, o) && OwnerInv(st, p);
  }

  /** After `free` has returned nothing refers to the owner: no slot names it and no eviction will reset it. */
  lemma FreeReturnsAfterReset(slots: nat, owners: nat, moves: seq<Move>, st: State, o: nat)
    requires slots > 0 && Run(slots, owners, moves, st)
    requires o < |st.owners| && st.owners[o].life.Dead?
    ensures forall i :: 0 <= i < |st.slots| ==> st.slots[i] != Held(o)
    ensures st.pc.Idle? || (st.pc.owner != o && (st.pc.Reset? ==> st.pc.victim != o))
  {
    InitInv(slots, owners);
    ReachesInv(Init(slots, owners), moves, st);
    forall i | 0 <= i < |st.slots| ensures st.slots[i] != Held(o) { assert SlotInv(st, i); }
  }

  /** And no step touches it again. */
  lemma DeadIsLeftAlone(st: State, evictable: set<nat>, step: Step, o: nat)
    requires Inv(st) && Enabled(st, step) && o < |st.owners| && st.owners[o].life.Dead?
    ensures Apply(st, evictable, step).owners[o] == st.owners[o]
  {}

  // ----- how long an allocation searches

  /** How many slots after `a` slot `s` comes up. */
  function Distance(n: nat, a: nat, s: nat): nat
    requires a < n && s < n
  {
    if a <= s then s - a else s + n - a
  }

  predicate Usable(slot: Slot, evictable: set<nat>) {
    match slot
    case Held(o) => o in evictable
    case Evicting => false
    case _ => true
  }

  /** Slot `s` is still usable and comes up in time, or the search is over. */
  predicate InTime(st: State, evictable: set<nat>, s: nat)
    requires Shaped(st) && s < |st.slots|
  {
    var ahead := Usable(st.slots[s], evictable) && st.probes + Distance(|st.slots|, st.next, s) < |st.slots|;
    && st.probes <= |st.slots|
    && (st.pc.Probe? ==> ahead)
    && (st.pc.Decide? ==> ahead || Usable(st.pc.seen, evictable))
  }

  lemma StepInTime(st: State, evictable: set<nat>, move: Move, s: nat)
    requires Inv(st) && Enabled(st, move.step) && !move.step.Alloc? && evictable <= move.evictable
    requires s < |st.slots| && InTime(st, evictable, s) && Inv(Apply(st, move.evictable, move.step))
    ensures InTime(Apply(st, move.evictable, move.step), evictable, s)
  {}

  /**
    If some slot is usable when an allocation starts and its owner stays replaceable, the allocation reads
    at most as many slots as there are, however `free`s interleave.
   */
  lemma {:induction false} SearchIsBounded(st: State, evictable: set<nat>, moves: seq<Move>, st': State, s: nat)
    requires Inv(st) && s < |st.slots| && InTime(st, evictable, s)
    requires Reaches(st, moves, st') && forall m :: m in moves ==> !m.step.Alloc? && evictable <= m.evictable
    ensures st'.probes <= |st.slots| && (st'.pc.Probe? ==> st'.probes < |st.slots|)
    decreases moves
  {
    if moves != [] {
      var m := moves[0];
      assert m in moves && forall x :: x in moves[1..] ==> x in moves;
      StepInv(st, m.evictable, m.step);
      StepInTime(st, evictable, m, s);
      SearchIsBounded(Apply(st, m.evictable, m.step), evictable, moves[1..], st', s);
    }
  }

  lemma SearchStartsInTime(st: State, evictable: set<nat>, o: nat, s: nat)
    requires Inv(st) && Enabled(st, Alloc(o)) && s < |st.slots| && Usable(st.slots[s], evictable)
    requires st.owners[o].id == None
    ensures InTime(Apply(st, evictable, Alloc(o)), evictable, s)
  {}

  // ----- whether it ends

  /** The allocation is still looking for a slot. */
  predicate Searching(pc: Pc) {
    pc.Probe? || pc.Decide?
  }

  predicate NoneUsable(st: State, evictable: set<nat>) {
    forall i :: 0 <= i < |st.slots| ==> !Usable(st.slots[i], evictable)
  }

  /** Only the allocation goes on, and no more owners become replaceable. */
  predicate GoesOn(moves: seq<Move>, evictable: set<nat>) {
    forall m :: m in moves ==> m.step == Go && m.evictable <= evictable
  }

  /** If no slot is usable, the search does not end unless a `free` or `can_replace` makes one so. */
  lemma {:induction false} SearchGoesOn(st: State, evictable: set<nat>, moves: seq<Move>, st': State)
    requires Inv(st) && NoneUsable(st, evictable) && Reaches(st, moves, st') && GoesOn(moves, evictable)
    requires Searching(st.pc) && (st.pc.Decide? ==> !Usable(st.pc.seen, evictable))
    ensures Searching(st'.pc) && st'.slots == st.slots
    decreases moves
  {
    if moves != [] {
      var m := moves[0];
      assert m in moves && forall x :: x in moves[1..] ==> x in moves;
      StepInv(st, m.evictable, m.step);
      assert SlotInv(st, st.next);
      SearchGoesOn(Apply(st, m.evictable, m.step), evictable, moves[1..], st');
    }
  }
}
