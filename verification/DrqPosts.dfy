/** Exactly when a post keeps the promises, and runs of the code that break them. */
module DrqPosts {
  import opened Drq
  import opened DrqSafety

  /** Whatever happens after the state, short of another post, the promise is kept. */
  ghost predicate StaysGood(st: State) {
    forall steps, st' :: Reaches(st, steps, st') && NoPosts(steps) ==> Good(st')
  }

  predicate NoPosts(steps: seq<Step>) {
    forall s :: s in steps ==> !s.Post?
  }

  lemma {:induction false} NoPostsGuarded(st: State, steps: seq<Step>)
    requires NoPosts(steps)
    ensures Guarded(st, steps)
    decreases steps
  {
    if steps != [] && Enabled(st, steps[0]) {
      assert steps[0] in steps;
      assert forall s :: s in steps[1..] ==> s in steps;
      NoPostsGuarded(Apply(st, steps[0]), steps[1..]);
    }
  }

  lemma Bad(st: State)
    ensures StaysGood(st) ==> Good(st)
  {
    assert Reaches(st, [], st) && NoPosts([]);
  }

  lemma Before(st: State, step: Step)
    requires Enabled(st, step) && !step.Post? && !StaysGood(Apply(st, step))
    ensures !StaysGood(st)
  {
    var steps, st' :| Reaches(Apply(st, step), steps, st') && NoPosts(steps) && !Good(st');
    assert ([step] + steps)[1..] == steps;
    assert Reaches(st, [step] + steps, st') && NoPosts([step] + steps);
  }

  // ----- somebody else has the request and will enqueue it

  /** A CPU that will enqueue an answer, sooner or later. */
  predicate WillEnqueue(owner: nat, pc: Pc) {
    match pc
    case Hand(_, x, local) => x != owner && !local
    case Answer(_, local) => !local
    case Fresh(_, x) => x == owner
    case Enqueue(_, x) => x == owner
    case _ => false
  }

  function Ahead(pc: Pc): nat {
    if pc.Hand? then 3 else if pc.Answer? then 2 else if pc.Fresh? then 1 else 0
  }

  /** With the request on a queue it enqueues the request a second time. */
  lemma {:induction false} EnqueuesTwice(st: State, e: nat)
    requires 0 < e < |st.pc| && WillEnqueue(st.owner, st.pc[e]) && st.pc[e].req < |st.reqs|
    requires st.reqs[st.pc[e].req].ran != [] && st.reqs[st.pc[e].req].at.At?
    ensures !StaysGood(st)
    decreases Ahead(st.pc[e])
  {
    var step := Move(e, st.pc[e].Hand?);
    var next := Apply(st, step);
    if st.pc[e].Enqueue? {
      assert !OnceEach(next.reqs[st.pc[e].req]);
      Bad(next);
    } else {
      EnqueuesTwice(next, e);
    }
    Before(st, step);
  }

  /** The poster enqueues the request, and then so does the other. */
  lemma PosterEnqueues(st: State, r: nat, t: nat, mode: bool, e: nat)
    requires Enabled(st, Post(r, t, mode)) && 0 < e < |st.pc| && WillEnqueue(st.owner, st.pc[e]) && st.pc[e].req == r
    ensures !StaysGood(Apply(st, Post(r, t, mode)))
  {
    var posted := Apply(st, Post(r, t, mode));
    var enqueue := Apply(posted, Move(0, false));
    EnqueuesTwice(Apply(enqueue, Move(0, false)), e);
    Before(enqueue, Move(0, false));
    Before(posted, Move(0, false));
  }

  // ----- an answer ends the wait for a handler that has not run

  /** A CPU that can bring an answer to the owner, for a request other than `r` or an old answer of `r`. */
  predicate WillAnswer(st: State, r: nat, e: nat)
    requires e < |st.pc|
  {
    var pc := st.pc[e];
    && !pc.Out? && pc.req < |st.reqs| && st.reqs[pc.req].ran != [] && (pc.req == r ==> Answering(st.owner, pc))
    && (pc.Enqueue? ==> pc.ctxt == st.owner)
    && (pc.Tail? ==> pc.ctxt == st.owner && st.reqs[pc.req].at == At(st.owner))
  }

  function ToAnswer(owner: nat, pc: Pc): nat {
    match pc
    case Hand(_, x, local) => if x == owner then 0 else if local then 1 else 4
    case Answer(_, local) => if local then 0 else 3
    case Fresh(_, x) => if x == owner then 1 else 2
    case Enqueue(_, _) => 2
    case Tail(_, _) => 1
    case Out => 0
  }

  /** A handler that the owner waits for has not run, and some other answer is on its way. */
  lemma {:induction false} WaitEndsEarly(st: State, r: nat, e: nat)
    requires r < |st.reqs| && Unserved(st.owner, st.reqs[r]) && e < |st.pc| && WillAnswer(st, r, e)
    ensures !StaysGood(st)
    decreases ToAnswer(st.owner, st.pc[e])
  {
    var step := Move(e, true);
    var next := Apply(st, step);
    assert next.reqs[r] == st.reqs[r];
    if Clears(st.owner, st.pc[e]) {
      Bad(next);
    } else {
      WaitEndsEarly(next, r, e);
    }
    Before(st, step);
  }

  /** A queued request can be taken, run and answered while the poster has not got anywhere. */
  lemma QueuedAnswerComes(st: State, r: nat, q: nat, e: nat)
    requires r < |st.reqs| && Unserved(st.owner, st.reqs[r]) && q < |st.reqs| && q != r
    requires st.reqs[q].at.At? && st.reqs[q].ran != [] && 0 < e < |st.pc|
    requires st.pc[e].Out? || (st.pc[e].Tail? && st.pc[e].req < |st.reqs|)
    ensures !StaysGood(st)
  {
    if st.pc[e].Out? {
      WaitEndsEarly(Apply(st, Take(e, q)), r, e);
      Before(st, Take(e, q));
    } else {
      var next := Apply(st, Move(e, false));
      assert next.reqs == st.reqs;
      WaitEndsEarly(Apply(next, Take(e, q)), r, e);
      Before(next, Take(e, q));
      Before(st, Move(e, false));
    }
  }

  // ----- the exact condition

  lemma SafePostStaysGood(st: State, r: nat, t: nat, mode: bool)
    requires Inv(st) && Enabled(st, Post(r, t, mode)) && SafeToPost(st, r, t, mode)
    ensures StaysGood(Apply(st, Post(r, t, mode)))
  {
    var posted := Apply(st, Post(r, t, mode));
    StepInv(st, Post(r, t, mode));
    forall steps, st' | Reaches(posted, steps, st') && NoPosts(steps) ensures Good(st') {
      NoPostsGuarded(posted, steps);
      RunInv(posted, steps, st');
      InvGood(st');
    }
  }

  /** A post that waits for another context while some answer can come. */
  lemma NoisyPostFails(st: State, r: nat, t: nat)
    requires Inv(st) && Enabled(st, Post(r, t, true)) && t != st.owner && !Quiet(st)
    requires forall e :: 0 <= e < |st.pc| && Holds(st.pc[e]) && st.pc[e].req == r ==> Answering(st.owner, st.pc[e])
    ensures !StaysGood(Apply(st, Post(r, t, true)))
  {
    var posted := Apply(st, Post(r, t, true));
    if e :| 0 <= e < |st.pc| && Holds(st.pc[e]) {
      assert PcOk(st, e);
      WaitEndsEarly(posted, r, e);
    } else {
      var q :| 0 <= q < |st.reqs| && st.reqs[q].at.At?;
      assert PcOk(st, 1) && ReqOk(st.owner, st.reqs[q], Awaited(st, q));
      QueuedAnswerComes(posted, r, q, 1);
    }
  }

  /** A request whose handler has not run, if not queued, is with somebody who does not just answer. */
  lemma UnservedIsHeld(st: State, r: nat)
    requires Inv(st) && r < |st.reqs| && Unserved(st.owner, st.reqs[r]) && st.reqs[r].at.Nowhere?
    ensures exists e :: 0 <= e < |st.pc| && Holds(st.pc[e]) && st.pc[e].req == r && !Answering(st.owner, st.pc[e])
  {
    assert Underway(st, r) && ReqOk(st.owner, st.reqs[r], Awaited(st, r));
    var e :| 0 <= e < |st.pc| && Holds(st.pc[e]) && st.pc[e].req == r;
    assert PcOk(st, e);
  }

  /** A post, while the owner waits for a handler that has not run: its own answer may come first. */
  lemma ArmedPostFails(st: State, r: nat, t: nat)
    requires Enabled(st, Post(r, t, false)) && Armed(st) && r != st.awaited
    ensures !StaysGood(Apply(st, Post(r, t, false)))
  {
    WaitEndsEarly(Apply(st, Post(r, t, false)), st.awaited, 0);
  }

  /** Posting keeps the promise, in all continuations, exactly when it is safe to post. */
  lemma PostKeepsPromiseExactlyWhenSafe(st: State, r: nat, t: nat, mode: bool)
    requires Inv(st) && Enabled(st, Post(r, t, mode))
    ensures SafeToPost(st, r, t, mode) <==> StaysGood(Apply(st, Post(r, t, mode)))
  {
    if Armed(st) && r == st.awaited {
      UnservedIsHeld(st, r);
    }
    if SafeToPost(st, r, t, mode) {
      SafePostStaysGood(st, r, t, mode);
    } else if e :| 0 <= e < |st.pc| && Holds(st.pc[e]) && st.pc[e].req == r && !Answering(st.owner, st.pc[e]) {
      assert PcOk(st, e);
      PosterEnqueues(st, r, t, mode, e);
    } else if Armed(st) {
      ArmedPostFails(st, r, t);
    } else {
      NoisyPostFails(st, r, t);
    }
  }

  /** For a post that waits for another context that means: no answer to any request of the owner can come. */
  lemma WaitingPostNeedsQuiet(st: State, r: nat, t: nat)
    requires Inv(st) && Enabled(st, Post(r, t, true)) && t != st.owner
    ensures Quiet(st) <==> StaysGood(Apply(st, Post(r, t, true)))
  {
    PostKeepsPromiseExactlyWhenSafe(st, r, t, true);
  }

  /** For one that does not wait, made while the owner does not wait either, only the request itself matters. */
  lemma OtherPostsNeedOwnRequest(st: State, r: nat, t: nat)
    requires Inv(st) && Enabled(st, Post(r, t, false)) && !st.wait
    ensures StaysGood(Apply(st, Post(r, t, false))) <==>
              forall e :: 0 <= e < |st.pc| && Holds(st.pc[e]) && st.pc[e].req == r ==> Answering(st.owner, st.pc[e])
  {
    PostKeepsPromiseExactlyWhenSafe(st, r, t, false);
  }

  // ----- runs that break the promise

  lemma Append(start: State, steps: seq<Step>, st: State, step: Step) returns (all: seq<Step>, next: State)
    requires Reaches(start, steps, st) && Enabled(st, step)
    ensures next == Apply(st, step) && Reaches(start, all, next) && all == steps + [step]
  {
    all, next := steps + [step], Apply(st, step);
    Longer(start, steps, st, step);
  }

  lemma {:induction false} Longer(start: State, steps: seq<Step>, st: State, step: Step)
    requires Reaches(start, steps, st) && Enabled(st, step)
    ensures Reaches(start, steps + [step], Apply(st, step))
    decreases steps
  {
    if steps == [] {
      assert (steps + [step])[1..] == [];
    } else {
      assert (steps + [step])[1..] == steps[1..] + [step];
      Longer(Apply(start, steps[0]), steps[1..], st, step);
    }
  }

  /** Request 0 is posted to context 1 without waiting, and taken off its queue. */
  lemma Taken() returns (steps: seq<Step>, st: State)
    ensures Reaches(Init(0, 2, 2), steps, st) && st.owner == 0 && !st.wait && st.pc == [Out, Hand(0, 1, false)]
    ensures st.reqs == [Req(Nowhere, 1, false, [0], false), Req(Nowhere, 0, false, [], false)]
  {
    var start := Init(0, 2, 2);
    steps, st := [], start;
    steps, st := Append(start, steps, st, Post(0, 1, false));
    steps, st := Append(start, steps, st, Move(0, false));
    steps, st := Append(start, steps, st, Move(0, false));
    assert st.reqs[0].ran == [0];
    steps, st := Append(start, steps, st, Take(1, 0));
    steps, st := Append(start, steps, st, Move(0, false));
  }

  /** Posted again, the handler of the second post runs twice, and that of the first never. */
  lemma HandlerRunsTwice() returns (steps: seq<Step>, st: State)
    ensures Reaches(Init(0, 2, 2), steps, st) && |st.reqs| == 2 && st.reqs[0].ran == [0, 2]
  {
    var start := Init(0, 2, 2);
    steps, st := Taken();
    steps, st := Append(start, steps, st, Post(0, 1, false));
    assert st.reqs[0].ran == [0, 0];
    steps, st := Append(start, steps, st, Move(1, false));
    steps, st := Append(start, steps, st, Move(0, true));
    steps, st := Append(start, steps, st, Move(0, false));
  }

  /** Nobody has the request and it is on no queue. */
  predicate AtRest(st: State, r: nat)
    requires r < |st.reqs|
  {
    st.reqs[r].at.Nowhere? && forall e :: 0 <= e < |st.pc| ==> !(Holds(st.pc[e]) && st.pc[e].req == r)
  }

  /** CPU 1 runs the handler of request 0 and brings the answer to the owner. */
  lemma AnswerComes(st: State) returns (steps: seq<Step>, st': State)
    requires st.owner == 0 && |st.pc| == 2 && st.pc[1] == Hand(0, 1, false)
    requires |st.reqs| == 2 && st.reqs[0].ran == [0]
    ensures Reaches(st, steps, st') && NoPosts(steps)
    ensures !st'.wait && st'.owner == 0 && |st'.reqs| == 2 && st'.reqs[1] == st.reqs[1]
  {
    steps, st' := [], st;
    steps, st' := Append(st, steps, st', Move(1, true));
    steps, st' := Append(st, steps, st', Move(1, true));
    steps, st' := Append(st, steps, st', Move(1, true));
    steps, st' := Append(st, steps, st', Move(1, true));
  }

  /**
    Request 1, at rest, is posted waiting to context 2; the answer to request 0 ends that wait although the
    handler of request 1 has not run.
   */
  lemma OtherAnswerEndsWait() returns (first: seq<Step>, before: State, rest: seq<Step>, st: State)
    ensures Reaches(Init(0, 2, 2), first, before) && Enabled(before, Post(1, 2, true)) && AtRest(before, 1)
    ensures Reaches(Apply(before, Post(1, 2, true)), rest, st) && NoPosts(rest)
    ensures !st.wait && |st.reqs| == 2 && st.reqs[1].ran == [0] && !Good(st)
  {
    first, before := Taken();
    rest, st := AnswerComes(Apply(before, Post(1, 2, true)));
    assert Unserved(0, st.reqs[1]);
  }
}
