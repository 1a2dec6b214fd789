/**
  The deferred requests (DRQs) of one context, over any number of posts.  The owner posts its requests to
  contexts, queue handlers on other CPUs race with it for them while home CPUs change, and the answers
  travel back through the owner's own queue.  All requests of the owner share its `Thread_drq_wait` flag.
  Contexts are numbered; a request handed to its owner is an answer.  Reading a home CPU gives any result,
  so that every way of migrating is covered.
 */
module Drq {

  datatype Where = Nowhere | At(ctxt: nat)

  /** Executor 0 is the owner inside `drq()`; the others are CPUs that handle queues. */
  datatype Pc =
    | Out
    | Fresh(req: nat, ctxt: nat)                // do_enqueue_drq: about to read the home CPU of the context
    | Enqueue(req: nat, ctxt: nat)
    | Tail(req: nat, ctxt: nat)                 // enqueued; may still find that the work has to be done here
    | Hand(req: nat, ctxt: nat, local: bool)    // about to execute the request for the context
    | Answer(req: nat, local: bool)             // the handler has run and wants to answer

  /**
    `at` is the queue the request is on; `target` and `mode` belong to the last post (`mode`: the poster
    waits).  `ran[m]` counts the runs of the handler given by post `m`: the handler that a run finds in the
    request is that of the last post.  `failed` records that the request was enqueued while it was queued,
    which the source asserts against.
   */
  datatype Req = Req(at: Where, target: nat, mode: bool, ran: seq<nat>, failed: bool)

  /** `wait` is the owner's `Thread_drq_wait`, and `awaited` the request of its last post that waits. */
  datatype State = State(owner: nat, wait: bool, awaited: nat, reqs: seq<Req>, pc: seq<Pc>)

  datatype Step =
    | Post(req: nat, ctxt: nat, mode: bool)
    | Take(cpu: nat, req: nat)        // handle_requests takes the request off its queue
    | Move(cpu: nat, yes: bool)       // the next access; `yes`: this is the home CPU, or the handler answers

  function Init(owner: nat, executors: nat, requests: nat): State
    requires executors > 0
  {
    State(owner, false, 0, seq(requests, _ => Req(Nowhere, 0, false, [], false)), seq(executors, _ => Out))
  }

  predicate Enabled(st: State, step: Step) {
    && 0 < |st.pc|
    && match step
       // the source asserts that the request is not queued and that the owner does not wait twice; handlers
       // that run in its context while it waits may post without waiting
       case Post(r, _, mode) => r < |st.reqs| && st.pc[0].Out? && (mode ==> !st.wait) && st.reqs[r].at.Nowhere?
       case Take(e, r) => 0 < e < |st.pc| && st.pc[e].Out? && r < |st.reqs| && st.reqs[r].at.At?
       case Move(e, _) => e < |st.pc| && CanMove(st.reqs, st.pc[e])
  }

  predicate CanMove(reqs: seq<Req>, pc: Pc) {
    !pc.Out? && pc.req < |reqs| && (pc.Hand? ==> reqs[pc.req].ran != [])
  }

  function Last(r: Req): nat
    requires r.ran != []
  {
    r.ran[|r.ran| - 1]
  }

  /** What the next access does to the request, and where it leads. */
  function Next(owner: nat, r: Req, pc: Pc, yes: bool): (Req, Pc)
    requires !pc.Out? && (pc.Hand? ==> r.ran != [])
  {
    match pc
    case Fresh(q, x) => (r, if yes then Hand(q, x, true) else Enqueue(q, x))
    case Enqueue(q, x) => (r.(at := At(x), failed := r.failed || r.at.At?), Tail(q, x))
    case Tail(q, x) => if yes && r.at == At(x) then (r.(at := Nowhere), Hand(q, x, true)) else (r, Out)
    case Hand(q, x, local) =>
      if x == owner then (r, Out)
      else (r.(ran := r.ran[|r.ran| - 1 := Last(r) + 1]), if yes then Answer(q, local) else Out)
    case Answer(q, local) => if local then (r, Out) else (r, Fresh(q, owner))
  }

  /** An answer reaches the owner and clears its wait flag, whatever request it belongs to. */
  predicate Clears(owner: nat, pc: Pc) {
    (pc.Hand? && pc.ctxt == owner) || (pc.Answer? && pc.local)
  }

  function Posted(r: Req, t: nat, mode: bool): Req {
    r.(target := t, mode := mode, ran := r.ran + [0])
  }

  function Apply(st: State, step: Step): State
    requires Enabled(st, step)
  {
    match step
    case Post(r, t, mode) =>
      State(st.owner, st.wait || mode, if mode then r else st.awaited,
            st.reqs[r := Posted(st.reqs[r], t, mode)], st.pc[0 := Fresh(r, t)])
    case Take(e, r) =>
      st.(reqs := st.reqs[r := st.reqs[r].(at := Nowhere)], pc := st.pc[e := Hand(r, st.reqs[r].at.ctxt, false)])
    case Move(e, yes) =>
      var q := st.pc[e].req;
      var next := Next(st.owner, st.reqs[q], st.pc[e], yes);
      State(st.owner, st.wait && !Clears(st.owner, st.pc[e]), st.awaited, st.reqs[q := next.0], st.pc[e := next.1])
  }

  ghost predicate Reaches(st: State, steps: seq<Step>, st': State)
    decreases steps
  {
    if steps == [] then st' == st
    else Enabled(st, steps[0]) && Reaches(Apply(st, steps[0]), steps[1..], st')
  }

  // ----- what is promised, and when

  /** No handler runs twice for one post, and the request is not enqueued while it is queued. */
  predicate OnceEach(r: Req) {
    (forall m :: 0 <= m < |r.ran| ==> r.ran[m] <= 1) && !r.failed
  }

  /** The last post waits for another context, and its handler has not run exactly once. */
  predicate Unserved(owner: nat, r: Req) {
    r.ran != [] && r.mode && r.target != owner && Last(r) != 1
  }

  /**
    What the protocol promises: each handler runs at most once for one post, no queued request is enqueued,
    and the owner goes on after a post that waits for another context only when the handler has run.
   */
  predicate Good(st: State) {
    forall q :: 0 <= q < |st.reqs| ==> OnceEach(st.reqs[q]) && (Unserved(st.owner, st.reqs[q]) ==> st.wait)
  }

  /** Somebody has a request and will do something with it. */
  predicate Holds(pc: Pc) {
    !pc.Out? && !pc.Tail?
  }

  /** About to hand over an answer. */
  predicate Answering(owner: nat, pc: Pc) {
    pc.Hand? && pc.ctxt == owner
  }

  /** Nobody has any request, and if there are queue handlers, none is queued: no answer can come. */
  predicate Quiet(st: State) {
    && (forall e :: 0 <= e < |st.pc| ==> !Holds(st.pc[e]))
    && (|st.pc| > 1 ==> forall q :: 0 <= q < |st.reqs| ==> st.reqs[q].at.Nowhere?)
  }

  /** The owner waits for another context whose handler has not run. */
  predicate Armed(st: State) {
    st.wait && st.awaited < |st.reqs| && Unserved(st.owner, st.reqs[st.awaited])
  }

  /**
    When a post is safe: the request is on no queue, whoever has it only hands over an old answer, the owner
    is not waiting for a handler that has not run, and if the post waits for another context, no answer to
    any request of the owner can come.
   */
  predicate SafeToPost(st: State, r: nat, t: nat, mode: bool)
    requires r < |st.reqs|
  {
    && st.reqs[r].at.Nowhere?
    && (forall e :: 0 <= e < |st.pc| && Holds(st.pc[e]) && st.pc[e].req == r ==> Answering(st.owner, st.pc[e]))
    && !Armed(st)
    && (mode && t != st.owner ==> Quiet(st))
  }

  /** Every post of the run is safe. */
  ghost predicate Guarded(st: State, steps: seq<Step>)
    decreases steps
  {
    steps != [] && Enabled(st, steps[0]) ==>
      && (steps[0].Post? ==> SafeToPost(st, steps[0].req, steps[0].ctxt, steps[0].mode))
      && Guarded(Apply(st, steps[0]), steps[1..])
  }

  /** Every post of the run waits, and goes to another context. */
  predicate AllWaiting(owner: nat, steps: seq<Step>) {
    forall s :: s in steps && s.Post? ==> s.mode && s.ctxt != owner
  }
}
