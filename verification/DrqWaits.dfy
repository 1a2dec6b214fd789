/**
  Waits for deferred requests end: exactly when the owner's wait can still end, and what a post, the
  handling of a request and the arrival of an answer do when nobody interferes.
 */
module DrqWaits {
  import opened Drq
  import opened DrqSafety
  import opened DrqPosts

  /** Without another post, the owner's wait can end. */
  ghost predicate CanEnd(st: State) {
    exists steps, st' :: Reaches(st, steps, st') && NoPosts(steps) && !st'.wait
  }

  lemma Earlier(st: State, step: Step)
    requires Enabled(st, step) && !step.Post? && CanEnd(Apply(st, step))
    ensures CanEnd(st)
  {
    var steps, st' :| Reaches(Apply(st, step), steps, st') && NoPosts(steps) && !st'.wait;
    assert ([step] + steps)[1..] == steps;
    assert Reaches(st, [step] + steps, st') && NoPosts([step] + steps);
  }

  /** The executor has a request, or can take it back from the queue it has put it on. */
  predicate CanAnswer(st: State, e: nat)
    requires e < |st.pc|
  {
    var pc := st.pc[e];
    && !pc.Out? && pc.req < |st.reqs| && st.reqs[pc.req].ran != []
    && (pc.Tail? ==> st.reqs[pc.req].at == At(pc.ctxt))
  }

  /** Accesses until the owner has its answer, if the executor is on the home CPU and the handler answers. */
  function Left(owner: nat, pc: Pc): nat {
    match pc
    case Hand(_, x, local) => if x == owner then 0 else if local then 1 else 4
    case Answer(_, local) => if local then 0 else 3
    case Fresh(_, _) => 2
    case Enqueue(_, _) => 3
    case Tail(_, _) => 2
    case Out => 0
  }

  lemma {:induction false} HolderAnswers(st: State, e: nat)
    requires e < |st.pc| && CanAnswer(st, e)
    ensures CanEnd(st)
    decreases Left(st.owner, st.pc[e])
  {
    var next := Apply(st, Move(e, true));
    if Clears(st.owner, st.pc[e]) {
      assert Reaches(next, [], next) && NoPosts([]);
    } else {
      HolderAnswers(next, e);
    }
    Earlier(st, Move(e, true));
  }

  lemma QueuedIsAnswered(st: State, q: nat)
    requires Inv(st) && |st.pc| > 1 && q < |st.reqs| && st.reqs[q].at.At?
    ensures CanEnd(st)
  {
    assert PcOk(st, 1) && ReqOk(st.owner, st.reqs[q], Awaited(st, q));
    if Holds(st.pc[1]) {
      HolderAnswers(st, 1);
    } else if st.pc[1].Out? {
      HolderAnswers(Apply(st, Take(1, q)), 1);
      Earlier(st, Take(1, q));
    } else {
      var next := Apply(st, Move(1, false));
      assert next.reqs == st.reqs;
      HolderAnswers(Apply(next, Take(1, q)), 1);
      Earlier(next, Take(1, q));
      Earlier(st, Move(1, false));
    }
  }

  lemma QuietStep(st: State, step: Step)
    requires Quiet(st) && |st.pc| > 1 && Enabled(st, step) && !step.Post?
    ensures var st' := Apply(st, step);
            Quiet(st') && |st'.pc| == |st.pc| && st'.wait == st.wait
  {
    if step.Move? {
      assert !Holds(st.pc[step.cpu]) && st.reqs[st.pc[step.cpu].req].at.Nowhere?;
    }
  }

  lemma {:induction false} QuietStays(st: State, steps: seq<Step>, st': State)
    requires Quiet(st) && |st.pc| > 1 && Reaches(st, steps, st') && NoPosts(steps)
    ensures st'.wait == st.wait
    decreases steps
  {
    if steps != [] {
      assert steps[0] in steps;
      assert forall s :: s in steps[1..] ==> s in steps;
      QuietStep(st, steps[0]);
      QuietStays(Apply(st, steps[0]), steps[1..], st');
    }
  }

  /**
    A wait can end exactly if some request of the owner is still queued or in somebody's hands; it cannot
    once the handlers have come to nothing, which is so only if one has run without answering.
   */
  lemma WaitCanEndExactlyUnlessQuiet(st: State)
    requires Inv(st) && st.wait && |st.pc| > 1
    ensures CanEnd(st) <==> !Quiet(st)
    ensures Quiet(st) && WaitsElsewhere(st.owner, st.reqs[st.awaited]) && st.reqs[st.awaited].ran != [] ==>
              Last(st.reqs[st.awaited]) == 1
  {
    if Quiet(st) {
      if CanEnd(st) {
        var steps, st' :| Reaches(st, steps, st') && NoPosts(steps) && !st'.wait;
        QuietStays(st, steps, st');
        assert false;
      }
      assert Underway(st, st.awaited);
    } else if e :| 0 <= e < |st.pc| && Holds(st.pc[e]) {
      assert PcOk(st, e);
      HolderAnswers(st, e);
    } else {
      var q :| 0 <= q < |st.reqs| && st.reqs[q].at.At?;
      QueuedIsAnswered(st, q);
    }
  }

  /** In every run whose posts are safe. */
  lemma WaitsCanEnd(owner: nat, executors: nat, requests: nat, steps: seq<Step>, st: State)
    requires executors > 1 && Reaches(Init(owner, executors, requests), steps, st) && st.wait
    requires Guarded(Init(owner, executors, requests), steps)
    ensures CanEnd(st) <==> !Quiet(st)
  {
    InitInv(owner, executors, requests);
    RunInv(Init(owner, executors, requests), steps, st);
    SameExecutors(Init(owner, executors, requests), steps, st);
    WaitCanEndExactlyUnlessQuiet(st);
  }

  lemma {:induction false} SameExecutors(st: State, steps: seq<Step>, st': State)
    requires Reaches(st, steps, st')
    ensures |st'.pc| == |st.pc|
    decreases steps
  {
    if steps != [] { SameExecutors(Apply(st, steps[0]), steps[1..], st'); }
  }

  // ----- undisturbed

  /** The request after its handler has run once for the post. */
  function Served(r: Req, t: nat, mode: bool): Req {
    Req(Nowhere, t, mode, r.ran + [1], r.failed)
  }

  /**
    A post to a context at home on this CPU: the handler runs here and now, once, and the owner goes on,
    unless the handler does not answer.
   */
  lemma LocalPost(st: State, r: nat, t: nat, mode: bool, answers: bool) returns (steps: seq<Step>, st': State)
    requires Enabled(st, Post(r, t, mode)) && t != st.owner
    ensures Reaches(st, steps, st')
    ensures st' == State(st.owner, (st.wait || mode) && !answers, if mode then r else st.awaited,
                         st.reqs[r := Served(st.reqs[r], t, mode)], st.pc)
  {
    steps, st' := Append(st, [], st, Post(r, t, mode));
    steps, st' := Append(st, steps, st', Move(0, true));
    steps, st' := Append(st, steps, st', Move(0, answers));
    if answers { steps, st' := Append(st, steps, st', Move(0, true)); }
    assert st'.pc == st.pc;
    assert st'.reqs[r].ran == st.reqs[r].ran + [1];
    assert st'.reqs == st.reqs[r := Served(st.reqs[r], t, mode)];
  }

  /** A post to a context that is at home elsewhere puts the request on its queue. */
  lemma RemotePost(st: State, r: nat, t: nat, mode: bool) returns (steps: seq<Step>, st': State)
    requires Enabled(st, Post(r, t, mode))
    ensures Reaches(st, steps, st')
    ensures st' == State(st.owner, st.wait || mode, if mode then r else st.awaited,
                         st.reqs[r := Posted(st.reqs[r], t, mode).(at := At(t))], st.pc)
  {
    steps, st' := Append(st, [], st, Post(r, t, mode));
    steps, st' := Append(st, steps, st', Move(0, false));
    steps, st' := Append(st, steps, st', Move(0, false));
    steps, st' := Append(st, steps, st', Move(0, false));
    assert st'.pc == st.pc;
    assert st'.reqs == st.reqs[r := Posted(st.reqs[r], t, mode).(at := At(t))];
  }

  /** The request after one more run of its handler, on no queue. */
  function RunOnce(r: Req): Req
    requires r.ran != []
  {
    r.(at := Nowhere, ran := r.ran[|r.ran| - 1 := Last(r) + 1])
  }

  lemma RequestIsRun(st: State, r: nat, e: nat, answers: bool) returns (steps: seq<Step>, st': State)
    requires Enabled(st, Take(e, r)) && st.reqs[r].ran != [] && st.reqs[r].at.ctxt != st.owner
    ensures Reaches(st, steps, st')
    ensures st' == st.(reqs := st.reqs[r := RunOnce(st.reqs[r])],
                       pc := st.pc[e := if answers then Answer(r, false) else Out])
  {
    steps, st' := Append(st, [], st, Take(e, r));
    steps, st' := Append(st, steps, st', Move(e, answers));
  }

  /** The queue's handler runs the request's handler once and puts the answer, if any, on the owner's queue. */
  lemma RequestIsHandled(st: State, r: nat, e: nat, answers: bool) returns (steps: seq<Step>, st': State)
    requires Enabled(st, Take(e, r)) && st.reqs[r].ran != [] && st.reqs[r].at.ctxt != st.owner
    ensures Reaches(st, steps, st')
    ensures var done := RunOnce(st.reqs[r]);
            st' == st.(reqs := st.reqs[r := if answers then done.(at := At(st.owner)) else done])
  {
    steps, st' := RequestIsRun(st, r, e, answers);
    if answers {
      steps, st' := Append(st, steps, st', Move(e, true));
      steps, st' := Append(st, steps, st', Move(e, false));
      steps, st' := Append(st, steps, st', Move(e, false));
      steps, st' := Append(st, steps, st', Move(e, false));
    }
    assert st'.pc == st.pc;
  }

  /** An answer taken off the owner's queue ends its wait and does nothing else. */
  lemma AnswerArrives(st: State, r: nat, e: nat) returns (steps: seq<Step>, st': State)
    requires Enabled(st, Take(e, r)) && st.reqs[r].ran != [] && st.reqs[r].at.ctxt == st.owner
    ensures Reaches(st, steps, st')
    ensures st' == st.(wait := false, reqs := st.reqs[r := st.reqs[r].(at := Nowhere)])
  {
    steps, st' := Append(st, [], st, Take(e, r));
    steps, st' := Append(st, steps, st', Move(e, true));
    assert st'.pc == st.pc;
  }
}
