/** Runs in which every post is safe keep all promises, and posts that wait for other contexts are safe. */
module DrqSafety {
  import opened Drq

  // ----- the invariant, for one request

  /** A context that still has to run the handler. */
  predicate ToRun(owner: nat, pc: Pc) {
    (pc.Fresh? || pc.Enqueue? || pc.Hand?) && pc.ctxt != owner
  }

  predicate WaitsElsewhere(owner: nat, r: Req) {
    r.mode && r.target != owner
  }

  /** It matters what a CPU here does: it does not just hand over an answer that nobody waits for. */
  predicate Serious(owner: nat, r: Req, pc: Pc) {
    Holds(pc) && (Answering(owner, pc) ==> WaitsElsewhere(owner, r))
  }

  /** `awaited`: the owner waits for this request. */
  predicate ReqOk(owner: nat, r: Req, awaited: bool) {
    && OnceEach(r)
    && (Unserved(owner, r) ==> awaited)
    && (r.at.At? ==>
          && r.ran != []
          && (r.at.ctxt != owner ==> r.at.ctxt == r.target && Last(r) == 0)
          && (r.at.ctxt == owner && r.target != owner ==> Last(r) == 1))
  }

  /** What the position of a CPU that has the request says about it. */
  predicate LocalOk(owner: nat, r: Req, poster: bool, pc: Pc) {
    && (Holds(pc) ==> r.ran != [])
    && (Serious(owner, r, pc) ==> r.at.Nowhere?)
    && (ToRun(owner, pc) ==> pc.ctxt == r.target && Last(r) == 0)
    && (Serious(owner, r, pc) && !ToRun(owner, pc) && r.target != owner ==> Last(r) == 1)
    && (pc.Answer? ==> r.target != owner)
    && (!poster && (pc.Fresh? || pc.Enqueue? || pc.Tail? || (pc.Hand? && pc.local)) ==> pc.ctxt == owner)
    && (!poster && pc.Answer? ==> !pc.local)
  }

  lemma NextOk(owner: nat, r: Req, awaited: bool, poster: bool, pc: Pc, yes: bool)
    requires ReqOk(owner, r, awaited) && !pc.Out? && LocalOk(owner, r, poster, pc)
    ensures var (r', pc') := Next(owner, r, pc, yes);
            ReqOk(owner, r', awaited && !Clears(owner, pc)) && LocalOk(owner, r', poster, pc')
  {}

  /** Other CPUs that have the request do not notice, because only one of them does anything serious to it. */
  lemma NextForOthers(owner: nat, r: Req, awaited: bool, poster: bool, pc: Pc, yes: bool, poster2: bool, pc2: Pc)
    requires ReqOk(owner, r, awaited) && !pc.Out? && LocalOk(owner, r, poster, pc)
    requires LocalOk(owner, r, poster2, pc2) && !(Serious(owner, r, pc) && Serious(owner, r, pc2))
    ensures var (r', pc') := Next(owner, r, pc, yes);
            && LocalOk(owner, r', poster2, pc2)
            && Serious(owner, r', pc2) == Serious(owner, r, pc2)
            && !(Serious(owner, r', pc') && Serious(owner, r, pc2))
  {}

  // ----- and for all of them

  predicate Awaited(st: State, q: nat) {
    st.wait && st.awaited == q
  }

  /** While the owner waits for a handler that has not run, no other request is on its way. */
  predicate Exclusive(st: State) {
    Armed(st) ==>
      && (forall e :: 0 <= e < |st.pc| && (Holds(st.pc[e]) || (e == 0 && !st.pc[e].Out?)) ==>
            st.pc[e].req == st.awaited)
      && (|st.pc| > 1 ==> forall q :: 0 <= q < |st.reqs| && q != st.awaited ==> st.reqs[q].at.Nowhere?)
  }

  predicate PcOk(st: State, e: nat)
    requires e < |st.pc|
  {
    !st.pc[e].Out? ==>
      var q := st.pc[e].req;
      q < |st.reqs| && LocalOk(st.owner, st.reqs[q], e == 0, st.pc[e])
  }

  /** Two CPUs do not both do something serious to one request. */
  predicate Apart(st: State, d: nat, e: nat)
    requires d < |st.pc| && e < |st.pc|
  {
    !st.pc[d].Out? && !st.pc[e].Out? && st.pc[d].req == st.pc[e].req < |st.reqs| ==>
      var r := st.reqs[st.pc[d].req];
      !(Serious(st.owner, r, st.pc[d]) && Serious(st.owner, r, st.pc[e]))
  }

  /** A request whose handler has not run is queued, or somebody has it. */
  predicate Underway(st: State, q: nat)
    requires q < |st.reqs|
  {
    Unserved(st.owner, st.reqs[q]) ==>
      st.reqs[q].at.At? || exists e :: 0 <= e < |st.pc| && Holds(st.pc[e]) && st.pc[e].req == q
  }

  predicate Inv(st: State) {
    && 0 < |st.pc| && (st.wait ==> st.awaited < |st.reqs|)
    && (forall q :: 0 <= q < |st.reqs| ==> ReqOk(st.owner, st.reqs[q], Awaited(st, q)))
    && (forall e :: 0 <= e < |st.pc| ==> PcOk(st, e))
    && (forall d, e :: 0 <= d < |st.pc| && 0 <= e < |st.pc| && d != e ==> Apart(st, d, e))
    && (forall q :: 0 <= q < |st.reqs| ==> Underway(st, q))
    && Exclusive(st)
  }

  lemma InitInv(owner: nat, executors: nat, requests: nat)
    requires executors > 0
    ensures Inv(Init(owner, executors, requests))
  {}

  /** An answer to another request never ends a wait for another context. */
  lemma NotForOthers(st: State, e: nat, p: nat)
    requires Inv(st) && e < |st.pc| && Clears(st.owner, st.pc[e]) && p < |st.reqs| && p != st.pc[e].req
    ensures Awaited(st, p) ==> !Unserved(st.owner, st.reqs[p])
  {}

  lemma MoveReq(st: State, e: nat, yes: bool, p: nat)
    requires Inv(st) && Enabled(st, Move(e, yes)) && p < |st.reqs|
    ensures var st' := Apply(st, Move(e, yes));
            ReqOk(st.owner, st'.reqs[p], Awaited(st', p))
  {
    assert PcOk(st, e) && ReqOk(st.owner, st.reqs[p], Awaited(st, p));
    if p == st.pc[e].req {
      NextOk(st.owner, st.reqs[p], Awaited(st, p), e == 0, st.pc[e], yes);
    } else if Clears(st.owner, st.pc[e]) {
      NotForOthers(st, e, p);
    }
  }

  lemma MovePc(st: State, e: nat, yes: bool, d: nat)
    requires Inv(st) && Enabled(st, Move(e, yes)) && d < |st.pc|
    ensures PcOk(Apply(st, Move(e, yes)), d)
  {
    assert PcOk(st, e) && PcOk(st, d) && ReqOk(st.owner, st.reqs[st.pc[e].req], Awaited(st, st.pc[e].req));
    var q := st.pc[e].req;
    if d == e {
      NextOk(st.owner, st.reqs[q], Awaited(st, q), e == 0, st.pc[e], yes);
    } else if !st.pc[d].Out? {
      if st.pc[d].req == q {
        assert Apart(st, d, e);
        NextForOthers(st.owner, st.reqs[q], Awaited(st, q), e == 0, st.pc[e], yes, d == 0, st.pc[d]);
      }
    }
  }

  lemma MoveApart(st: State, e: nat, yes: bool, d: nat)
    requires Inv(st) && Enabled(st, Move(e, yes)) && d < |st.pc| && d != e
    ensures Apart(Apply(st, Move(e, yes)), d, e) && Apart(Apply(st, Move(e, yes)), e, d)
    ensures !st.pc[d].Out? ==>
              var q := st.pc[d].req;
              q < |st.reqs| && Serious(st.owner, Apply(st, Move(e, yes)).reqs[q], st.pc[d]) ==
                               Serious(st.owner, st.reqs[q], st.pc[d])
  {
    assert PcOk(st, e) && PcOk(st, d) && ReqOk(st.owner, st.reqs[st.pc[e].req], Awaited(st, st.pc[e].req));
    var q := st.pc[e].req;
    if !st.pc[d].Out? && st.pc[d].req == q {
      assert Apart(st, d, e);
      NextForOthers(st.owner, st.reqs[q], Awaited(st, q), e == 0, st.pc[e], yes, d == 0, st.pc[d]);
    }
  }

  lemma MoveExclusive(st: State, e: nat, yes: bool)
    requires Inv(st) && Enabled(st, Move(e, yes))
    ensures Exclusive(Apply(st, Move(e, yes)))
  {
    assert PcOk(st, e);
    if st.wait {
      assert ReqOk(st.owner, st.reqs[st.awaited], Awaited(st, st.awaited));
      MoveReq(st, e, yes, st.awaited);
    }
  }

  lemma MoveUnderway(st: State, e: nat, yes: bool, q: nat)
    requires Inv(st) && Enabled(st, Move(e, yes)) && q < |st.reqs|
    ensures Underway(Apply(st, Move(e, yes)), q)
  {
    var st' := Apply(st, Move(e, yes));
    assert PcOk(st, e) && Underway(st, q) && ReqOk(st.owner, st.reqs[q], Awaited(st, q));
    MoveReq(st, e, yes, q);
    if Unserved(st.owner, st'.reqs[q]) && !st'.reqs[q].at.At? {
      if d :| 0 <= d < |st.pc| && Holds(st.pc[d]) && st.pc[d].req == q && d != e {
        assert Holds(st'.pc[d]);
      } else {
        assert Holds(st'.pc[e]) && st'.pc[e].req == q;
      }
    }
  }

  lemma MoveInv(st: State, e: nat, yes: bool)
    requires Inv(st) && Enabled(st, Move(e, yes))
    ensures Inv(Apply(st, Move(e, yes)))
  {
    var st' := Apply(st, Move(e, yes));
    forall p | 0 <= p < |st.reqs| ensures ReqOk(st.owner, st'.reqs[p], Awaited(st', p)) { MoveReq(st, e, yes, p); }
    forall d | 0 <= d < |st.pc| ensures PcOk(st', d) { MovePc(st, e, yes, d); }
    forall c, d | 0 <= c < |st.pc| && 0 <= d < |st.pc| && c != d ensures Apart(st', c, d) {
      assert Apart(st, c, d);
      if c != e { MoveApart(st, e, yes, c); }
      if d != e { MoveApart(st, e, yes, d); }
    }
    forall q | 0 <= q < |st.reqs| ensures Underway(st', q) { MoveUnderway(st, e, yes, q); }
    MoveExclusive(st, e, yes);
  }

  /** A step after which executor `e` has request `r`, and which changes nothing else. */
  lemma OthersUnderway(st: State, st': State, e: nat, r: nat)
    requires Inv(st) && e < |st.pc| == |st'.pc| && st.pc[e].Out? && r < |st.reqs| == |st'.reqs|
    requires st'.owner == st.owner && st'.reqs == st.reqs[r := st'.reqs[r]] && st'.pc == st.pc[e := st'.pc[e]]
    requires Holds(st'.pc[e]) && st'.pc[e].req == r
    ensures forall q :: 0 <= q < |st.reqs| ==> Underway(st', q)
  {
    forall q | 0 <= q < |st.reqs| ensures Underway(st', q) {
      assert Underway(st, q);
      if q != r && Unserved(st.owner, st.reqs[q]) && !st.reqs[q].at.At? {
        var d :| 0 <= d < |st.pc| && Holds(st.pc[d]) && st.pc[d].req == q;
        assert Holds(st'.pc[d]);
      }
    }
  }

  lemma TakeInv(st: State, e: nat, r: nat)
    requires Inv(st) && Enabled(st, Take(e, r))
    ensures Inv(Apply(st, Take(e, r)))
  {
    var st' := Apply(st, Take(e, r));
    assert ReqOk(st.owner, st.reqs[r], Awaited(st, r));
    OthersUnderway(st, st', e, r);
    forall d | 0 <= d < |st.pc| ensures PcOk(st', d) { assert PcOk(st, d); }
    forall c, d | 0 <= c < |st.pc| && 0 <= d < |st.pc| && c != d ensures Apart(st', c, d) {
      assert Apart(st, c, d) && PcOk(st, c) && PcOk(st, d);
    }
  }

  lemma PostInv(st: State, r: nat, t: nat, mode: bool)
    requires Inv(st) && Enabled(st, Post(r, t, mode)) && SafeToPost(st, r, t, mode)
    ensures Inv(Apply(st, Post(r, t, mode)))
  {
    var st' := Apply(st, Post(r, t, mode));
    OthersUnderway(st, st', 0, r);
    forall q | 0 <= q < |st.reqs| ensures ReqOk(st.owner, st'.reqs[q], Awaited(st', q)) {
      assert ReqOk(st.owner, st.reqs[q], Awaited(st, q));
    }
    forall d | 0 <= d < |st.pc| ensures PcOk(st', d) { assert PcOk(st, d); }
    forall c, d | 0 <= c < |st.pc| && 0 <= d < |st.pc| && c != d ensures Apart(st', c, d) {
      assert Apart(st, c, d) && PcOk(st, c) && PcOk(st, d);
    }
  }

  lemma StepInv(st: State, step: Step)
    requires Inv(st) && Enabled(st, step) && (step.Post? ==> SafeToPost(st, step.req, step.ctxt, step.mode))
    ensures Inv(Apply(st, step))
  {
    match step
    case Post(r, t, mode) => PostInv(st, r, t, mode);
    case Take(e, r) => TakeInv(st, e, r);
    case Move(e, yes) => MoveInv(st, e, yes);
  }

  lemma InvGood(st: State)
    requires Inv(st)
    ensures Good(st)
  {
    forall q | 0 <= q < |st.reqs| ensures OnceEach(st.reqs[q]) && (Unserved(st.owner, st.reqs[q]) ==> st.wait) {
      assert ReqOk(st.owner, st.reqs[q], Awaited(st, q));
    }
  }

  // ----- whole runs

  lemma {:induction false} RunInv(st: State, steps: seq<Step>, st': State)
    requires Inv(st) && Reaches(st, steps, st') && Guarded(st, steps)
    ensures Inv(st')
    decreases steps
  {
    if steps != [] {
      StepInv(st, steps[0]);
      RunInv(Apply(st, steps[0]), steps[1..], st');
    }
  }

  /** Every run whose posts are safe keeps the promise. */
  lemma GuardedRunsAreGood(owner: nat, executors: nat, requests: nat, steps: seq<Step>, st: State)
    requires executors > 0 && Reaches(Init(owner, executors, requests), steps, st)
    requires Guarded(Init(owner, executors, requests), steps)
    ensures Good(st)
  {
    InitInv(owner, executors, requests);
    RunInv(Init(owner, executors, requests), steps, st);
    InvGood(st);
  }

  /** Nobody has a request other than `but`, and none but that is queued. */
  predicate OnlyUnderway(st: State, but: int) {
    && (forall e :: 0 <= e < |st.pc| && (Holds(st.pc[e]) || (e == 0 && !st.pc[e].Out?)) ==> st.pc[e].req == but)
    && (forall q :: 0 <= q < |st.reqs| && q != but ==> st.reqs[q].at.Nowhere?)
  }

  /** Only the awaited request is on its way, and only during the wait. */
  predicate OneAtATime(st: State) {
    if st.wait then
      && st.awaited < |st.reqs| && WaitsElsewhere(st.owner, st.reqs[st.awaited]) && OnlyUnderway(st, st.awaited)
    else
      && (forall e :: 0 <= e < |st.pc| ==> !Holds(st.pc[e]))
      && (forall q :: 0 <= q < |st.reqs| ==> st.reqs[q].at.Nowhere?)
  }

  /** A wait ends with all requests at rest. */
  lemma MoveOneAtATime(st: State, e: nat, yes: bool)
    requires Inv(st) && OneAtATime(st) && Enabled(st, Move(e, yes))
    ensures OneAtATime(Apply(st, Move(e, yes)))
  {
    assert PcOk(st, e);
    if st.wait && Clears(st.owner, st.pc[e]) {
      forall d | 0 <= d < |st.pc| && d != e ensures !Holds(st.pc[d]) {
        assert Apart(st, d, e) && PcOk(st, d);
      }
    }
  }

  lemma {:induction false} WaitingIsGuarded(st: State, steps: seq<Step>)
    requires Inv(st) && OneAtATime(st) && AllWaiting(st.owner, steps)
    ensures Guarded(st, steps)
    decreases steps
  {
    if steps != [] && Enabled(st, steps[0]) {
      assert steps[0] in steps;
      assert forall s :: s in steps[1..] ==> s in steps;
      StepInv(st, steps[0]);
      if steps[0].Move? { MoveOneAtATime(st, steps[0].cpu, steps[0].yes); }
      WaitingIsGuarded(Apply(st, steps[0]), steps[1..]);
    }
  }

  /** If all posts of all the owner's requests wait and go to other contexts, the promise is kept. */
  lemma WaitingRunsAreGood(owner: nat, executors: nat, requests: nat, steps: seq<Step>, st: State)
    requires executors > 0 && Reaches(Init(owner, executors, requests), steps, st) && AllWaiting(owner, steps)
    ensures Good(st)
  {
    InitInv(owner, executors, requests);
    WaitingIsGuarded(Init(owner, executors, requests), steps);
    GuardedRunsAreGood(owner, executors, requests, steps, st);
  }
}
