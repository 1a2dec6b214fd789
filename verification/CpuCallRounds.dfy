/**
  The loops of `cpu_call_many` one CPU at a time, with nobody else making a step unless stated: what
  `remote_call` leaves behind, which object the next call uses, and where the loop goes on.
 */
module CpuCallRounds {
  import opened CpuCall
  import opened CpuCallResults
  import opened CpuCallLive

  // ----- runs, one step longer

  lemma Go(cfg: Config, start: State, steps: seq<Step>, st: State, step: Step) returns (all: seq<Step>, next: State)
    requires Shaped(cfg, start) && Reaches(cfg, start, steps, st) && Shaped(cfg, st) && Enabled(cfg, st, step)
    ensures Shaped(cfg, next) && next == Apply(cfg, st, step) && Reaches(cfg, start, all, next)
  {
    ShapeKept(cfg, st, step);
    next := Apply(cfg, st, step);
    assert [step][1..] == [];
    assert Reaches(cfg, st, [step], next);
    Chain(cfg, start, steps, st, [step], next);
    all := steps + [step];
  }

  lemma {:induction false} RemoveLast(q: seq<Item>, item: Item)
    requires item !in q
    ensures Remove(q + [item], item) == q
  {
    if q != [] {
      assert (q + [item])[1..] == q[1..] + [item];
      RemoveLast(q[1..], item);
    } else {
      assert (q + [item])[1..] == q;
    }
  }

  /** An empty selection returns without doing anything. */
  lemma EmptyMaskReturns(cfg: Config)
    requires cfg.Valid()
    ensures Init(cfg).pc.Returned? <==> cfg.mask == {}
  {}

  // ----- remote_call

  /** On the caller's own CPU the function is run at once. */
  lemma CallHere(cfg: Config, st: State, n: nat, i: nat, first: bool) returns (steps: seq<Step>, st': State)
    requires Shaped(cfg, st) && st.pc == Call(n, i, first) && n in cfg.homes
    ensures Shaped(cfg, st') && Reaches(cfg, st, steps, st')
    ensures st' == st.(pc := After(n, i, first, false),
                       cpus := st.cpus[n := st.cpus[n].(count := st.cpus[n].count + 1)])
  {
    steps, st' := Go(cfg, st, [], st, Caller(n));
  }

  /** For another CPU it is put on the queue and the caller finds whether the CPU is online. */
  lemma CallPosts(cfg: Config, st: State, h: nat, n: nat, i: nat, first: bool) returns (steps: seq<Step>, st': State)
    requires Shaped(cfg, st) && st.pc == Call(n, i, first) && h in cfg.homes && h != n
    ensures Shaped(cfg, st') && Reaches(cfg, st, steps, st')
    ensures st' == st.(pc := if n in cfg.online then Peek(n, i, first) else Withdraw(n, i, first),
                       slots := st.slots[i := Slot(st.slots[i].armed, !cfg.async || st.slots[i].wait, n)],
                       cpus := st.cpus[n := st.cpus[n].(queue := st.cpus[n].queue + [Own(i)])])
  {
    steps, st' := Go(cfg, st, [], st, Caller(h));
    steps, st' := Go(cfg, st, steps, st', Caller(h));
    steps, st' := Go(cfg, st, steps, st', Caller(h));
  }

  /** An online CPU that does not get to it keeps the object busy. */
  lemma CallQueues(cfg: Config, st: State, h: nat, n: nat, i: nat, first: bool) returns (steps: seq<Step>, st': State)
    requires Shaped(cfg, st) && st.pc == Call(n, i, first) && h in cfg.homes && h != n && n in cfg.online
    ensures Shaped(cfg, st') && Reaches(cfg, st, steps, st')
    ensures st' == st.(pc := After(n, i, first, true),
                       slots := st.slots[i := Slot(st.slots[i].armed, !cfg.async || st.slots[i].wait, n)],
                       cpus := st.cpus[n := st.cpus[n].(queue := st.cpus[n].queue + [Own(i)])])
  {
    steps, st' := CallPosts(cfg, st, h, n, i, first);
    assert Own(i) in st'.cpus[n].queue;
    steps, st' := Go(cfg, st, steps, st', Caller(h));
  }

  /** From an offline CPU the request is taken back, and the object is not busy. */
  lemma CallWithdraws(cfg: Config, st: State, h: nat, n: nat, i: nat, first: bool)
    returns (steps: seq<Step>, st': State)
    requires Shaped(cfg, st) && st.pc == Call(n, i, first) && h in cfg.homes && h != n && n !in cfg.online
    requires !Queued(st, i)
    ensures Shaped(cfg, st') && Reaches(cfg, st, steps, st')
    ensures st' == st.(pc := After(n, i, first, false),
                       slots := st.slots[i := Slot(st.slots[i].armed, cfg.async && st.slots[i].wait, n)])
  {
    assert Own(i) !in st.cpus[n].queue;
    RemoveLast(st.cpus[n].queue, Own(i));
    steps, st' := CallPosts(cfg, st, h, n, i, first);
    assert Own(i) in st'.cpus[n].queue;
    steps, st' := Go(cfg, st, steps, st', Caller(h));
    if !cfg.async { steps, st' := Go(cfg, st, steps, st', Caller(h)); }
    assert st'.cpus == st.cpus;
  }

  /** An online CPU that handles its queue before the caller looks leaves the object free in either mode. */
  lemma CallServed(cfg: Config, st: State, h: nat, n: nat, i: nat, first: bool) returns (steps: seq<Step>, st': State)
    requires Shaped(cfg, st) && st.pc == Call(n, i, first) && h in cfg.homes && h != n && n in cfg.online
    requires !Queued(st, i) && st.cpus[n] == Cpu([], Idle, st.cpus[n].count)
    ensures Shaped(cfg, st') && Reaches(cfg, st, steps, st') && st'.pc == After(n, i, first, false)
    ensures st'.used == st.used && st'.cpus == st.cpus[n := Cpu([], Idle, st.cpus[n].count + 1)]
    ensures |st'.slots| == |st.slots| && !st'.slots[i].wait
  {
    var posts, mid := CallPosts(cfg, st, h, n, i, first);
    var handles, handled := HandleAll(cfg, mid, n, h);
    Chain(cfg, st, posts, mid, handles, handled);
    assert mid.cpus[n].queue == [Own(i)] && [Own(i)][1..] == [];
    assert !Queued(handled, i);
    var looks;
    looks, st' := CallLooks(cfg, handled, h);
    Chain(cfg, st, posts + handles, handled, looks, st');
    steps := posts + handles + looks;
  }

  lemma CallLooks(cfg: Config, st: State, h: nat) returns (steps: seq<Step>, st': State)
    requires Shaped(cfg, st) && st.pc.Peek? && h in cfg.homes && !Queued(st, st.pc.slot) && !st.slots[st.pc.slot].wait
    ensures Shaped(cfg, st') && Reaches(cfg, st, steps, st')
    ensures st' == st.(pc := After(st.pc.n, st.pc.slot, st.pc.first, false))
  {
    steps, st' := Go(cfg, st, [], st, Caller(h));
    assert Queued(st', st.pc.slot) <==> Queued(st, st.pc.slot);
    steps, st' := Go(cfg, st, steps, st', Caller(h));
  }

  // ----- the loops

  /** The first loop goes on with the same object unless it is busy; then with the next one, if there is one. */
  lemma FirstLoopGoesOn(cfg: Config, st: State, h: nat) returns (steps: seq<Step>, st': State)
    requires Shaped(cfg, st) && st.pc.After? && st.pc.first && h in cfg.homes
    ensures Shaped(cfg, st') && Reaches(cfg, st, steps, st') && st'.slots == st.slots && st'.cpus == st.cpus
    ensures var (n, i) := (st.pc.n, st.pc.slot);
            && st'.pc == (if !st.pc.busy then Scan(n + 1, i)
                          else if i + 1 < cfg.slots then Scan(n + 1, i + 1)
                          else Find(n + 1))
            && st'.used == st.used + if st'.pc == Scan(n + 1, i + 1) then 1 else 0
  {
    steps, st' := Go(cfg, st, [], st, Caller(h));
  }

  /** A CPU that is not selected is passed over. */
  lemma Skips(cfg: Config, st: State, h: nat) returns (steps: seq<Step>, st': State)
    requires Shaped(cfg, st) && (st.pc.Scan? || st.pc.Find?) && h in cfg.homes
    requires st.pc.n < cfg.cpus && st.pc.n !in cfg.mask
    ensures Shaped(cfg, st') && Reaches(cfg, st, steps, st')
    ensures st' == st.(pc := if st.pc.Scan? then Scan(st.pc.n + 1, st.pc.slot) else Find(st.pc.n + 1))
  {
    steps, st' := Go(cfg, st, [], st, Caller(h));
  }

  /** `find_done` takes the first object that is done. */
  lemma {:induction false} FindsFirstDone(cfg: Config, st: State, h: nat, j: nat)
    returns (steps: seq<Step>, st': State)
    requires Shaped(cfg, st) && st.pc.Probe? && h in cfg.homes && st.pc.slot <= j < st.used
    requires Done(cfg, st, j) && forall i :: st.pc.slot <= i < j ==> !Done(cfg, st, i)
    ensures Shaped(cfg, st') && Reaches(cfg, st, steps, st') && st' == st.(pc := Call(st.pc.n, j, false))
    decreases j - st.pc.slot
  {
    var first, mid := Go(cfg, st, [], st, Caller(h));
    if st.pc.slot == j {
      steps, st' := first, mid;
    } else {
      forall i | mid.pc.slot <= i <= j ensures Done(cfg, mid, i) <==> Done(cfg, st, i) {
        assert Queued(mid, i) <==> Queued(st, i);
      }
      var rest, end := FindsFirstDone(cfg, mid, h, j);
      Chain(cfg, st, first, mid, rest, end);
      steps, st' := first + rest, end;
    }
  }

  /** Behind the last one it starts again, as long as none is done. */
  lemma {:induction false} SearchStartsAgain(cfg: Config, st: State, h: nat) returns (steps: seq<Step>, st': State)
    requires Shaped(cfg, st) && st.pc.Probe? && h in cfg.homes
    requires forall i :: st.pc.slot <= i < st.used ==> !Done(cfg, st, i)
    ensures Shaped(cfg, st') && Reaches(cfg, st, steps, st') && st' == st.(pc := Probe(st.pc.n, 0))
    decreases st.used - st.pc.slot
  {
    var first, mid := Go(cfg, st, [], st, Caller(h));
    if st.pc.slot + 1 >= st.used {
      steps, st' := first, mid;
    } else {
      forall i | mid.pc.slot <= i < mid.used ensures !Done(cfg, mid, i) {
        assert !Done(cfg, st, i) && (Queued(mid, i) <==> Queued(st, i));
      }
      var rest, end := SearchStartsAgain(cfg, mid, h);
      Chain(cfg, st, first, mid, rest, end);
      steps, st' := first + rest, end;
    }
  }
}
