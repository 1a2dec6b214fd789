/** What an allocation and a `free` do, from their start to their end. */
module IdAllocResults {
  import opened Wrappers
  import opened IdAlloc

  /** However frees interleave: an allocation that ends has given its owner an ID, and the slot names the owner. */
  lemma AllocationGivesId(st: State, evictable: set<nat>)
    requires Inv(st) && !st.pc.Idle? && AllocStep(st, evictable).pc.Idle?
    ensures var (st', o) := (AllocStep(st, evictable), st.pc.owner);
            && st'.owners[o].id.Some? && st'.owners[o].id.value < |st'.slots|
            && st'.slots[st'.owners[o].id.value] == Held(o)
  {}

  // ----- an allocation without interruption

  /** Slot `s` is usable, and no slot that comes up before it is. */
  predicate FirstUsable(st: State, evictable: set<nat>, s: nat) {
    && st.next < |st.slots| && s < |st.slots| && Usable(st.slots[s], evictable)
    && forall i :: 0 <= i < |st.slots| && Distance(|st.slots|, st.next, i) < Distance(|st.slots|, st.next, s) ==>
         !Usable(st.slots[i], evictable)
  }

  /** Only the allocation goes on, with the same owners replaceable all the time. */
  predicate Undisturbed(moves: seq<Move>, evictable: set<nat>) {
    forall m :: m in moves ==> m == Move(Go, evictable)
  }

  /** The owners after whoever had slot `s` has lost its ID. */
  function Bereft(st: State, s: nat): (r: seq<Owner>)
    requires s < |st.slots|
    ensures |r| == |st.owners|
  {
    match st.slots[s]
    case Held(v) => if v < |st.owners| then st.owners[v := st.owners[v].(id := None)] else st.owners
    case _ => st.owners
  }

  lemma {:induction false} Chain(st: State, moves: seq<Move>, mid: State, more: seq<Move>, end: State)
    requires Inv(st) && Reaches(st, moves, mid) && Inv(mid) && Reaches(mid, more, end)
    ensures Reaches(st, moves + more, end)
    decreases moves
  {
    if moves == [] {
      assert moves + more == more;
    } else {
      StepInv(st, moves[0].evictable, moves[0].step);
      assert (moves + more)[1..] == moves[1..] + more;
      Chain(Apply(st, moves[0].evictable, moves[0].step), moves[1..], mid, more, end);
    }
  }

  lemma Step(st: State, move: Move) returns (st': State)
    requires Inv(st) && Enabled(st, move.step)
    ensures st' == Apply(st, move.evictable, move.step) && Inv(st') && Reaches(st, [move], st')
  {
    st' := Apply(st, move.evictable, move.step);
    StepInv(st, move.evictable, move.step);
    assert [move][1..] == [];
  }

  /** The search passes over the slots that are not usable. */
  lemma {:induction false} Skips(st: State, evictable: set<nat>, s: nat) returns (moves: seq<Move>, st': State)
    requires Inv(st) && st.pc.Probe? && FirstUsable(st, evictable, s)
    ensures Reaches(st, moves, st') && Undisturbed(moves, evictable) && Inv(st')
    ensures st'.pc == st.pc && st'.slots == st.slots && st'.owners == st.owners && st'.next == s
    decreases Distance(|st.slots|, st.next, s)
  {
    if st.next == s {
      moves, st' := [], st;
    } else {
      var go := Move(Go, evictable);
      assert SlotInv(st, st.next) && Distance(|st.slots|, st.next, st.next) == 0;
      var read := Step(st, go);
      var next := Step(read, go);
      assert next.pc == st.pc && next.slots == st.slots;
      Chain(st, [go], read, [go], next);
      var rest;
      rest, st' := Skips(next, evictable, s);
      Chain(st, [go] + [go], next, rest, st');
      moves := [go] + [go] + rest;
    }
  }

  /** The first usable slot is taken from whoever has it. */
  lemma Takes(st: State, evictable: set<nat>) returns (moves: seq<Move>, st': State)
    requires Inv(st) && st.pc.Probe? && Usable(st.slots[st.next], evictable)
    ensures Reaches(st, moves, st') && Undisturbed(moves, evictable) && Inv(st')
    ensures st'.pc == SetId(st.pc.owner, st.next) && st'.next == Following(st)
    ensures |st'.slots| == |st.slots| && st'.slots == st.slots[st.next := st'.slots[st.next]]
    ensures st'.owners == Bereft(st, st.next)
  {
    var go := Move(Go, evictable);
    assert SlotInv(st, st.next);
    var read := Step(st, go);
    st' := Step(read, go);
    Chain(st, [go], read, [go], st');
    moves := [go] + [go];
    if st'.pc.Reset? {
      var mid := st';
      st' := Step(mid, go);
      Chain(st, moves, mid, [go], st');
      moves := moves + [go];
    }
  }

  /**
    An undisturbed allocation for an owner without an ID takes the first usable slot in round-robin order:
    that owner gets its number, whoever had it loses it, the search goes on behind it, and nothing else
    changes.
   */
  lemma AllocationTakesFirstUsable(st: State, evictable: set<nat>, o: nat, s: nat)
    returns (moves: seq<Move>, st': State)
    requires Inv(st) && Enabled(st, Alloc(o)) && st.owners[o].id == None && FirstUsable(st, evictable, s)
    ensures Inv(Apply(st, evictable, Alloc(o))) && Reaches(Apply(st, evictable, Alloc(o)), moves, st')
    ensures Undisturbed(moves, evictable) && st'.pc.Idle?
    ensures st'.slots == st.slots[s := Held(o)] && st'.owners == Bereft(st, s)[o := st.owners[o].(id := Some(s))]
    ensures st'.next == if s + 1 == |st.slots| then 0 else s + 1
  {
    var start := Step(st, Move(Alloc(o), evictable));
    var first, probe := Skips(start, evictable, s);
    var more, setId := Takes(probe, evictable);
    Chain(start, first, probe, more, setId);
    var last;
    last, st' := Enters(setId, evictable);
    Chain(start, first + more, setId, last, st');
    moves := first + more + last;
    assert SlotInv(st, s);
  }

  /** The owner is given the slot. */
  lemma Enters(st: State, evictable: set<nat>) returns (moves: seq<Move>, st': State)
    requires Inv(st) && st.pc.SetId?
    ensures Reaches(st, moves, st') && Undisturbed(moves, evictable)
    ensures var (o, i) := (st.pc.owner, st.pc.slot);
            st' == State(st.slots[i := Held(o)], st.next, st.owners[o := st.owners[o].(id := Some(i))], Idle, st.probes)
  {
    var go := Move(Go, evictable);
    var write := Step(st, go);
    st' := Step(write, go);
    Chain(st, [go], write, [go], st');
    moves := [go] + [go];
  }

  /** An owner that has an ID keeps it, and nothing happens. */
  lemma AllocationKeepsId(st: State, evictable: set<nat>, o: nat)
    requires Inv(st) && Enabled(st, Alloc(o)) && st.owners[o].id.Some?
    ensures Apply(st, evictable, Alloc(o)) == st
  {}

  /** The allocation, going on by itself, can end with its owner having an ID. */
  ghost predicate CanSucceed(st: State, evictable: set<nat>, o: nat)
    requires Inv(st)
  {
    exists moves, st' :: Reaches(st, moves, st') && GoesOn(moves, evictable) && Succeeded(st', o)
  }

  predicate Succeeded(st: State, o: nat) {
    st.pc.Idle? && o < |st.owners| && st.owners[o].id.Some?
  }

  /** An allocation that has just started can do so exactly if some slot is usable. */
  lemma AllocationSucceedsExactlyIfUsable(st: State, evictable: set<nat>, o: nat)
    requires Inv(st) && Enabled(st, Alloc(o)) && st.owners[o].id == None
    ensures Inv(Apply(st, evictable, Alloc(o)))
    ensures CanSucceed(Apply(st, evictable, Alloc(o)), evictable, o) <==> !NoneUsable(st, evictable)
  {
    StepInv(st, evictable, Alloc(o));
    var start := Apply(st, evictable, Alloc(o));
    if NoneUsable(st, evictable) {
      forall moves, st' | Reaches(start, moves, st') && GoesOn(moves, evictable) ensures Searching(st'.pc) {
        SearchGoesOn(start, evictable, moves, st');
      }
    } else {
      var any :| 0 <= any < |st.slots| && Usable(st.slots[any], evictable);
      var s := NearestUsable(st, evictable, any);
      var moves, st' := AllocationTakesFirstUsable(st, evictable, o, s);
      assert GoesOn(moves, evictable) && Succeeded(st', o);
    }
  }

  lemma {:induction false} NearestUsable(st: State, evictable: set<nat>, any: nat) returns (s: nat)
    requires st.next < |st.slots| && any < |st.slots| && Usable(st.slots[any], evictable)
    ensures FirstUsable(st, evictable, s)
    decreases Distance(|st.slots|, st.next, any)
  {
    if FirstUsable(st, evictable, any) {
      s := any;
    } else {
      var i :| 0 <= i < |st.slots| && Usable(st.slots[i], evictable) &&
               Distance(|st.slots|, st.next, i) < Distance(|st.slots|, st.next, any);
      s := NearestUsable(st, evictable, i);
    }
  }

  // ----- giving an ID up

  /** Without an eviction in its way `free` marks the owner's slot as freed, and returns. */
  lemma FreeMarksSlot(st: State, evictable: set<nat>, o: nat)
    requires Inv(st) && Enabled(st, Free(o))
    ensures var free := Apply(st, evictable, Free(o));
            if st.owners[o].id == None then free == SetOwner(st, o, st.owners[o].(life := Dead))
            else Inv(free) && Enabled(free, FreeGo(o)) &&
                 var i := st.owners[o].id.value;
                 st.slots[i] == Held(o) ==>
                   && Apply(free, evictable, FreeGo(o)).slots == st.slots[i := Freed]
                   && Apply(free, evictable, FreeGo(o)).owners == st.owners[o := st.owners[o].(life := Dead)]
  {
    StepInv(st, evictable, Free(o));
  }

  /** An eviction under way comes to its end, and the slot has another owner. */
  lemma EvictionEnds(st: State, evictable: set<nat>, i: nat) returns (moves: seq<Move>, st': State)
    requires Inv(st) && i < |st.slots| && st.slots[i].Evicting?
    ensures Reaches(st, moves, st') && Undisturbed(moves, evictable) && Inv(st')
    ensures |st'.slots| == |st.slots| && st'.slots[i].Held? && |st'.owners| == |st.owners|
    ensures forall p :: 0 <= p < |st.owners| ==> st'.owners[p].life == st.owners[p].life
  {
    var go := Move(Go, evictable);
    assert SlotInv(st, i);
    moves, st' := [], st;
    if st'.pc.Reset? {
      st' := Step(st, go);
      moves := [go];
    }
    if st'.pc.SetId? {
      var mid := st';
      st' := Step(mid, go);
      Chain(st, moves, mid, [go], st');
      moves := moves + [go];
    }
    var mid := st';
    st' := Step(mid, go);
    Chain(st, moves, mid, [go], st');
    moves := moves + [go];
  }

  /** Wherever a `free` is, it can return. */
  lemma FreeCanReturn(st: State, evictable: set<nat>, o: nat) returns (moves: seq<Move>, st': State)
    requires Inv(st) && Enabled(st, FreeGo(o))
    ensures Reaches(st, moves, st') && |st'.owners| == |st.owners| && st'.owners[o].life.Dead?
  {
    var go := Move(FreeGo(o), evictable);
    moves, st' := [], st;
    if st.owners[o].life.Cas? {
      st' := Step(st, go);
      moves := [go];
    }
    if st'.owners[o].life.Spin? {
      var spin := st';
      var i := spin.owners[o].life.slot;
      if spin.slots[i].Evicting? {
        var more, end := EvictionEnds(spin, evictable, i);
        Chain(st, moves, spin, more, end);
        moves, st' := moves + more, end;
      }
      var last := st';
      st' := Step(last, go);
      Chain(st, moves, last, [go], st');
      moves := moves + [go];
    }
  }
}
