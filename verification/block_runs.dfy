/** Submitters, cancellers and eight workers interleaving at the boundaries of the context mutex. */
module BlockRuns {
  import opened Seqs
  import opened BlockIf

  /** Where a worker thread is. `Awake` covers a thread just created, signalled, or woken
      spuriously; the three holding phases are the I/O, the client's callback, and the wait for
      the mutex after it. */
  datatype Worker = Awake | Io(e: Ix) | Calling(e: Ix) | Returned(e: Ix) | Waiting {
    predicate Holds(x: Ix) { (Io? || Calling? || Returned?) && e == x }
    predicate Holding() { Io? || Calling? || Returned? }
  }

  datatype Sys = Sys(q: Queues, workers: seq<Worker>, workCount: int)

  datatype Action =
    | Submit(req: Req, op: Op, woken: seq<nat>)
    | Cancel(id: nat)
    | WakeSpuriously(w: nat)
    | Run(w: nat)
    | MarkDone(w: nat)
    | CallbackReturns(w: nat)
    | Finish(w: nat)

  datatype CancelCode = Cancelled | Interrupted | NotFound

  // ---- Atomic steps ----

  predicate Waits(s: Sys, w: int) {
    0 <= w < |s.workers| && s.workers[w].Waiting?
  }

  /** pthread_cond_signal wakes at least one waiter when there is one. */
  predicate Signals(s: Sys, ready: bool, woken: seq<nat>) {
    && (forall w :: w in woken ==> Waits(s, w))
    && (if ready then woken != [] || forall w :: 0 <= w < |s.workers| ==> !s.workers[w].Waiting? else woken == [])
  }

  function Wake(ws: seq<Worker>, woken: seq<nat>): (r: seq<Worker>)
    ensures |r| == |ws|
    ensures forall w :: 0 <= w < |ws| ==> r[w] == (if w in woken then Awake else ws[w])
  {
    seq(|ws|, w requires 0 <= w < |ws| => if w in woken then Awake else ws[w])
  }

  /** blockif_request: the free queue decides between queueing and E2BIG. */
  function Submitted(s: Sys, req: Req, op: Op, woken: seq<nat>): Sys
  {
    if s.q.free == [] then s
    else s.(q := Enqueued(s.q, req, op), workers := Wake(s.workers, woken))
  }

  predicate Ready(s: Sys, req: Req, op: Op)
    requires s.q.free != []
  {
    Enqueued(s.q, req, op).elems[s.q.free[0]].status == Pend
  }

  /** First element of `queue` that carries request `id`. */
  function Carrier(elems: Table, queue: seq<Ix>, id: nat): (r: Option<Ix>)
    ensures r.Some? ==> r.value in queue && elems[r.value].req.Some? && elems[r.value].req.value.id == id
    ensures r.None? ==> forall e :: e in queue ==> elems[e].req.None? || elems[e].req.value.id != id
  {
    if queue == [] then None
    else if elems[queue[0]].req.Some? && elems[queue[0]].req.value.id == id then Some(queue[0])
    else Carrier(elems, queue[1..], id)
  }

  /** blockif_cancel: a pending request is completed at once, one in flight is only interrupted. */
  function CancelDone(s: Sys, id: nat): (r: (Sys, CancelCode))
  {
    match Carrier(s.q.elems, s.q.pend, id)
    case Some(e) => (s.(q := Completed(s.q, e)), Cancelled)
    case None =>
      if Carrier(s.q.elems, s.q.busy, id).Some? then (s, Interrupted) else (s, NotFound)
  }

  /** The inner loop of a worker: take the next runnable element or wait for a signal. */
  function TakeNext(s: Sys, w: nat): Sys
    requires w < |s.workers|
  {
    match FirstPend(s.q.elems, s.q.pend)
    case Some(e) => s.(q := Dequeued(s.q, w), workers := s.workers[w := Io(e)])
    case None => s.(workers := s.workers[w := Waiting], workCount := s.workCount - 1)
  }

  predicate Enabled(s: Sys, a: Action) {
    match a
    case Submit(req, op, woken) =>
      (if s.q.free == [] then woken == [] else Signals(s, Ready(s, req, op), woken))
    case Cancel(id) => true
    case WakeSpuriously(w) => Waits(s, w)
    case Run(w) => w < |s.workers| && s.workers[w].Awake?
    case MarkDone(w) => w < |s.workers| && s.workers[w].Io?
    case CallbackReturns(w) => w < |s.workers| && s.workers[w].Calling?
    case Finish(w) => w < |s.workers| && s.workers[w].Returned?
  }

  function Step(s: Sys, a: Action): Sys
    requires Enabled(s, a)
  {
    match a
    case Submit(req, op, woken) => Submitted(s, req, op, woken)
    case Cancel(id) => CancelDone(s, id).0
    case WakeSpuriously(w) => s.(workers := s.workers[w := Awake])
    case Run(w) => TakeNext(s.(workCount := s.workCount + 1), w)
    case MarkDone(w) =>
      var e := s.workers[w].e;
      s.(q := s.q.(elems := s.q.elems[e := s.q.elems[e].(status := Done)]), workers := s.workers[w := Calling(e)])
    case CallbackReturns(w) => s.(workers := s.workers[w := Returned(s.workers[w].e)])
    case Finish(w) => TakeNext(s.(q := Completed(s.q, s.workers[w].e)), w)
  }

  // ---- The invariant of every interleaving ----

  /** Worker `w` holds the in-flight element it was given, busy exactly during the I/O. */
  ghost predicate HoldsOwn(q: Queues, ws: seq<Worker>, w: int)
    requires 0 <= w < |ws|
  {
    ws[w].Holding() ==>
      var e := ws[w].e;
      && e in q.busy && q.elems[e].tid == w
      && (q.elems[e].status == Busy <==> ws[w].Io?)
  }

  ghost predicate Owned(q: Queues, ws: seq<Worker>, e: Ix)
  {
    e in q.busy ==> q.elems[e].tid < |ws| && ws[q.elems[e].tid].Holds(e)
  }

  ghost predicate SomeoneIsUp(ws: seq<Worker>) {
    exists w :: 0 <= w < |ws| && !ws[w].Waiting?
  }

  function HoldCounts(ws: seq<Worker>): (r: seq<int>)
    ensures |r| == |ws|
  {
    seq(|ws|, w requires 0 <= w < |ws| => if ws[w].Holding() then 1 else 0)
  }

  ghost predicate SysInv(s: Sys) {
    && Inv(s.q)
    && |s.workers| == NUM_WORKERS
    && (forall w :: 0 <= w < NUM_WORKERS ==> HoldsOwn(s.q, s.workers, w))
    && (forall e: Ix :: Owned(s.q, s.workers, e))
    && (s.q.pend != [] ==> SomeoneIsUp(s.workers))
    && s.workCount == Sum(HoldCounts(s.workers))
  }

  lemma {:induction false} HoldCountUpdate(ws: seq<Worker>, w: nat, x: Worker)
    requires w < |ws|
    ensures Sum(HoldCounts(ws[w := x])) ==
      Sum(HoldCounts(ws)) - (if ws[w].Holding() then 1 else 0) + (if x.Holding() then 1 else 0)
  {
    var v := if x.Holding() then 1 else 0;
    assert HoldCounts(ws[w := x]) == HoldCounts(ws)[w := v];
    SumUpdate(HoldCounts(ws), w, v);
  }

  /** A pending element implies a worker that is up: a blocked one has a cause in flight or ahead of it. */
  lemma {:induction false} PendingNeedsWorker(q: Queues, ws: seq<Worker>)
    requires Inv(q) && q.pend != []
    requires forall e: Ix :: Owned(q, ws, e)
    requires FirstPend(q.elems, q.pend).None?
    ensures SomeoneIsUp(ws)
  {
    if q.busy == [] {
      HeadIsRunnable(q);
    } else {
      assert Owned(q, ws, q.busy[0]);
    }
  }

  lemma {:induction false} TakeNextKeeps(s: Sys, w: nat)
    requires Inv(s.q) && |s.workers| == NUM_WORKERS && w < NUM_WORKERS
    requires forall v :: 0 <= v < NUM_WORKERS && v != w ==> HoldsOwn(s.q, s.workers, v)
    requires forall e: Ix :: e in s.q.busy ==> s.q.elems[e].tid != w && Owned(s.q, s.workers, e)
    requires s.workCount == Sum(HoldCounts(s.workers)) + (if s.workers[w].Holding() then 0 else 1)
    ensures SysInv(TakeNext(s, w))
  {
    var r := TakeNext(s, w);
    HoldCountUpdate(s.workers, w, r.workers[w]);
    DequeueKeepsInv(s.q, w);
    match FirstPend(s.q.elems, s.q.pend)
    case Some(e) =>
      assert Placed(s.q, e);
      assert !r.workers[w].Waiting?;
      forall v | 0 <= v < NUM_WORKERS ensures HoldsOwn(r.q, r.workers, v) {
        assert v != w ==> HoldsOwn(s.q, s.workers, v);
      }
      forall x: Ix ensures Owned(r.q, r.workers, x) {
        assert x != e ==> Owned(s.q, s.workers, x);
      }
    case None =>
      forall v | 0 <= v < NUM_WORKERS ensures HoldsOwn(r.q, r.workers, v) {
        assert v != w ==> HoldsOwn(s.q, s.workers, v);
      }
      forall x: Ix ensures Owned(r.q, r.workers, x) {
        assert x in s.q.busy ==> Owned(s.q, s.workers, x);
      }
      if r.q.pend != [] { PendingNeedsWorker(r.q, r.workers); }
  }

  lemma {:induction false} SubmitKeeps(s: Sys, req: Req, op: Op, woken: seq<nat>)
    requires SysInv(s) && s.q.free != [] && Signals(s, Ready(s, req, op), woken)
    ensures SysInv(Submitted(s, req, op, woken))
  {
    var r := Submitted(s, req, op, woken);
    EnqueueKeepsInv(s.q, req, op);
    assert Placed(s.q, s.q.free[0]);
    assert HoldCounts(r.workers) == HoldCounts(s.workers);
    forall v | 0 <= v < NUM_WORKERS ensures HoldsOwn(r.q, r.workers, v) {
      assert HoldsOwn(s.q, s.workers, v);
      assert v in woken ==> Waits(s, v);
    }
    forall x: Ix ensures Owned(r.q, r.workers, x) {
      assert Owned(s.q, s.workers, x) && Placed(s.q, x);
    }
    SubmitLeavesSomeoneUp(s, req, op, woken);
  }

  lemma {:induction false} SubmitLeavesSomeoneUp(s: Sys, req: Req, op: Op, woken: seq<nat>)
    requires SysInv(s) && s.q.free != [] && Signals(s, Ready(s, req, op), woken)
    ensures SomeoneIsUp(Submitted(s, req, op, woken).workers)
  {
    var ws := Submitted(s, req, op, woken).workers;
    if woken != [] {
      assert woken[0] in woken;
      assert Waits(s, woken[0]) && !ws[woken[0]].Waiting?;
    } else if Ready(s, req, op) {
      assert !ws[0].Waiting?;
    } else {
      var e :| (e in s.q.pend || e in s.q.busy) && s.q.elems[e].block == req.offset;
      assert ws == s.workers;
      if e in s.q.busy { assert Owned(s.q, s.workers, e); }
    }
  }

  lemma {:induction false} CancelKeeps(s: Sys, id: nat)
    requires SysInv(s)
    ensures SysInv(CancelDone(s, id).0)
  {
    var carrier := Carrier(s.q.elems, s.q.pend, id);
    if carrier.Some? {
      var e, r := carrier.value, CancelDone(s, id).0;
      CompleteKeepsInv(s.q, e);
      assert Placed(s.q, e);
      assert Placed(r.q, e);
      forall v | 0 <= v < NUM_WORKERS ensures HoldsOwn(r.q, r.workers, v) {
        assert HoldsOwn(s.q, s.workers, v);
        if s.workers[v].Holding() { OthersStayInFlight(s.q, e, s.workers[v].e); }
      }
      forall x: Ix ensures Owned(r.q, r.workers, x) {
        assert Owned(s.q, s.workers, x);
        if x != e { OthersStayInFlight(s.q, e, x); }
      }
    }
  }

  lemma {:induction false} FinishKeeps(s: Sys, w: nat)
    requires SysInv(s) && w < NUM_WORKERS && s.workers[w].Returned?
    ensures SysInv(Step(s, Finish(w)))
  {
    hide Completed, TakeNext, HasCause, BlockedHaveCause;
    var e := s.workers[w].e;
    assert HoldsOwn(s.q, s.workers, w);
    CompleteKeepsInv(s.q, e);
    CompletedIsGone(s.q, e);
    var m := s.(q := Completed(s.q, e));
    forall v | 0 <= v < NUM_WORKERS && v != w ensures HoldsOwn(m.q, m.workers, v) {
      assert HoldsOwn(s.q, s.workers, v);
      if s.workers[v].Holding() { OthersStayInFlight(s.q, e, s.workers[v].e); }
    }
    forall x: Ix | x in m.q.busy ensures m.q.elems[x].tid != w && Owned(m.q, m.workers, x) {
      assert Owned(s.q, s.workers, x);
      OthersStayInFlight(s.q, e, x);
    }
    TakeNextKeeps(m, w);
  }

  lemma {:induction false} MarkDoneKeeps(s: Sys, w: nat)
    requires SysInv(s) && w < NUM_WORKERS && s.workers[w].Io?
    ensures SysInv(Step(s, MarkDone(w)))
  {
    var r, e := Step(s, MarkDone(w)), s.workers[w].e;
    assert HoldsOwn(s.q, s.workers, w);
    HoldCountUpdate(s.workers, w, Calling(e));
    forall i: Ix ensures Placed(r.q, i) { assert Placed(s.q, i); }
    forall k | 0 <= k < |r.q.pend| && r.q.elems[r.q.pend[k]].status == Block ensures HasCause(r.q, k) {
      assert Placed(s.q, r.q.pend[k]) && HasCause(s.q, k);
      EndsStay(s.q, r.q, r.q.pend[..k], s.q.elems[r.q.pend[k]].req.value.offset);
      EndsStay(s.q, r.q, r.q.busy, s.q.elems[r.q.pend[k]].req.value.offset);
    }
    forall v | 0 <= v < NUM_WORKERS ensures HoldsOwn(r.q, r.workers, v) {
      assert HoldsOwn(s.q, s.workers, v);
    }
    forall x: Ix ensures Owned(r.q, r.workers, x) { assert Owned(s.q, s.workers, x); }
    assert !r.workers[w].Waiting?;
  }

  lemma {:induction false} PhaseKeeps(s: Sys, w: nat, x: Worker)
    requires SysInv(s) && w < NUM_WORKERS
    requires (s.workers[w].Waiting? && x == Awake) || (s.workers[w].Calling? && x == Returned(s.workers[w].e))
    ensures SysInv(s.(workers := s.workers[w := x]))
  {
    var r := s.(workers := s.workers[w := x]);
    HoldCountUpdate(s.workers, w, x);
    forall v | 0 <= v < NUM_WORKERS ensures HoldsOwn(r.q, r.workers, v) {
      assert HoldsOwn(s.q, s.workers, v);
    }
    forall e: Ix ensures Owned(r.q, r.workers, e) { assert Owned(s.q, s.workers, e); }
    assert !r.workers[w].Waiting?;
  }

  lemma {:induction false} StepKeepsInv(s: Sys, a: Action)
    requires SysInv(s) && Enabled(s, a)
    ensures SysInv(Step(s, a))
  {
    match a
    case Submit(req, op, woken) => if s.q.free != [] { SubmitKeeps(s, req, op, woken); }
    case Cancel(id) => CancelKeeps(s, id);
    case WakeSpuriously(w) => PhaseKeeps(s, w, Awake);
    case Run(w) =>
      forall x: Ix | x in s.q.busy ensures s.q.elems[x].tid != w && Owned(s.q, s.workers, x) {
        assert Owned(s.q, s.workers, x);
      }
      TakeNextKeeps(s.(workCount := s.workCount + 1), w);
    case MarkDone(w) => MarkDoneKeeps(s, w);
    case CallbackReturns(w) => PhaseKeeps(s, w, Returned(s.workers[w].e));
    case Finish(w) => FinishKeeps(s, w);
  }

  // ---- Whole runs ----

  /** blockif_open: all elements free, eight threads just created. */
  ghost predicate Initial(s: Sys) {
    && Inv(s.q) && s.q.pend == [] && s.q.busy == []
    && s.workers == seq(NUM_WORKERS, _ => Awake) && s.workCount == 0
  }

  ghost predicate Next(s: Sys, a: Action, s': Sys) {
    Enabled(s, a) && s' == Step(s, a)
  }

  /** The states an interleaving goes through. */
  ghost predicate IsRun(states: seq<Sys>, actions: seq<Action>) {
    && |states| == |actions| + 1
    && forall k :: 0 <= k < |actions| ==> Next(states[k], actions[k], states[k + 1])
  }

  /** In every state of every run the element partition, the cause of every blocked element, the
      ownership of every in-flight element and the worker count hold. */
  lemma {:induction false} EveryRunKeepsInv(states: seq<Sys>, actions: seq<Action>, k: nat)
    requires IsRun(states, actions) && Initial(states[0]) && k < |states|
    ensures SysInv(states[k])
  {
    if k == 0 {
      var s := states[0];
      assert HoldCounts(s.workers) == [0, 0, 0, 0, 0, 0, 0, 0];
      assert Sum(HoldCounts(s.workers)) == 0 by { SumZero(HoldCounts(s.workers)); }
    } else {
      EveryRunKeepsInv(states, actions, k - 1);
      assert Next(states[k - 1], actions[k - 1], states[k]);
      StepKeepsInv(states[k - 1], actions[k - 1]);
    }
  }

  /** No lost wake-up: while any request is queued, runnable or blocked, some worker is running or
      already signalled, and if nothing is in flight the head of the queue is runnable. */
  lemma {:induction false} NoLostWakeup(states: seq<Sys>, actions: seq<Action>, k: nat)
    requires IsRun(states, actions) && Initial(states[0]) && k < |states|
    requires states[k].q.pend != []
    ensures SomeoneIsUp(states[k].workers)
    ensures states[k].q.busy == [] ==> states[k].q.elems[states[k].q.pend[0]].status == Pend
  {
    EveryRunKeepsInv(states, actions, k);
    if states[k].q.busy == [] { HeadIsRunnable(states[k].q); }
  }

  /** Only a completion or a cancellation changes the status of a held element. */
  lemma {:induction false} OthersLeaveHeld(s: Sys, a: Action, e: Ix)
    requires SysInv(s) && Enabled(s, a) && s.q.elems[e].status == Block && !a.Cancel? && !a.Finish?
    ensures Step(s, a).q.elems[e].status == Block
  {
    hide HoldCounts, BlockedHaveCause;
    match a
    case Submit(_, _, _) => assert s.q.free != [] ==> Placed(s.q, s.q.free[0]);
    case MarkDone(w) => assert HoldsOwn(s.q, s.workers, w);
    case _ =>
  }

  /** A completion releases only elements that start where the completed one ends. */
  lemma {:induction false} ReleasedByEnd(q: Queues, x: Ix, e: Ix)
    requires Inv(q) && (x in q.pend || x in q.busy)
    requires q.elems[e].status == Block && Completed(q, x).elems[e].status != Block
    ensures q.elems[e].req.Some? && x !in q.free && Completed(q, x).elems[x].status == Free
    ensures x == e || q.elems[x].block == q.elems[e].req.value.offset
  {
    hide BlockedHaveCause;
    assert Placed(q, x) && Placed(q, e);
  }

  /** A held request stays held until a request ending at its start completes or is cancelled,
      or it is itself cancelled. */
  lemma {:induction false} HeldUntilReleased(s: Sys, a: Action, e: Ix)
    requires SysInv(s) && Enabled(s, a)
    requires s.q.elems[e].status == Block && Step(s, a).q.elems[e].status != Block
    ensures s.q.elems[e].req.Some?
    ensures exists x: Ix ::
      && x !in s.q.free && Step(s, a).q.elems[x].status == Free
      && (x == e || s.q.elems[x].block == s.q.elems[e].req.value.offset)
  {
    hide HoldCounts, BlockedHaveCause, Completed;
    match a
    case Cancel(id) =>
      ReleasedByEnd(s.q, Carrier(s.q.elems, s.q.pend, id).value, e);
    case Finish(w) =>
      var x := s.workers[w].e;
      assert HoldsOwn(s.q, s.workers, w);
      CompleteKeepsInv(s.q, x);
      CompletedIsGone(s.q, x);
      TakeNextLeavesOthers(s.(q := Completed(s.q, x)), w, e);
      TakeNextLeavesOthers(s.(q := Completed(s.q, x)), w, x);
      ReleasedByEnd(s.q, x, e);
    case _ =>
      OthersLeaveHeld(s, a, e);
      assert false;
  }

  /** Taking the next element changes no held and no free one. */
  lemma {:induction false} TakeNextLeavesOthers(s: Sys, w: nat, e: Ix)
    requires w < |s.workers|
    ensures s.q.elems[e].status in [Block, Free] ==> TakeNext(s, w).q.elems[e].status == s.q.elems[e].status
  {
  }

  // ---- Draining ----

  predicate IsWorkerAction(a: Action) {
    a.Run? || a.MarkDone? || a.CallbackReturns? || a.Finish?
  }

  function Weight(w: Worker): nat {
    match w
    case Waiting => 0
    case Awake => 1
    case Returned(_) => 2
    case Calling(_) => 3
    case Io(_) => 4
  }

  function Weights(ws: seq<Worker>): (r: seq<int>)
    ensures |r| == |ws|
  {
    seq(|ws|, w requires 0 <= w < |ws| => Weight(ws[w]))
  }

  /** Work left: each queued request costs more than any phase of handling it. */
  function WorkLeft(s: Sys): int {
    5 * |s.q.pend| + Sum(Weights(s.workers))
  }

  lemma {:induction false} WeightUpdate(ws: seq<Worker>, w: nat, x: Worker)
    requires w < |ws|
    ensures Sum(Weights(ws[w := x])) == Sum(Weights(ws)) - Weight(ws[w]) + Weight(x)
  {
    assert Weights(ws[w := x]) == Weights(ws)[w := Weight(x)];
    SumUpdate(Weights(ws), w, Weight(x));
  }

  lemma {:induction false} WorkerActionsMakeProgress(s: Sys, a: Action)
    requires SysInv(s) && Enabled(s, a) && IsWorkerAction(a)
    ensures WorkLeft(Step(s, a)) < WorkLeft(s)
  {
    hide BlockedHaveCause, HoldCounts, Completed, Weights, Owned;
    WeightUpdate(s.workers, a.w, Step(s, a).workers[a.w]);
    if a.Finish? {
      assert HoldsOwn(s.q, s.workers, a.w);
      FinishKeepsQueue(s.q, s.workers[a.w].e);
    }
  }

  lemma {:induction false} FinishKeepsQueue(q: Queues, e: Ix)
    requires Partitioned(q) && e in q.busy
    ensures Completed(q, e).pend == q.pend
  {
    assert Placed(q, e);
  }

  lemma {:induction false} WorkLeftIsNatural(ws: seq<Worker>)
    ensures Sum(Weights(ws)) >= 0
  {
    if ws != [] {
      assert Weights(ws)[1..] == Weights(ws[1..]);
      WorkLeftIsNatural(ws[1..]);
    }
  }

  /** Left to themselves the workers stop after boundedly many steps, and they stop only when
      every request has been completed: all 136 elements are free again. */
  lemma {:induction false} WorkersDrainTheQueues(states: seq<Sys>, actions: seq<Action>)
    requires IsRun(states, actions) && SysInv(states[0])
    requires forall k :: 0 <= k < |actions| ==> IsWorkerAction(actions[k])
    ensures |actions| <= WorkLeft(states[0])
    ensures (forall a :: IsWorkerAction(a) ==> !Enabled(states[|actions|], a)) ==>
      && states[|actions|].q.pend == [] && states[|actions|].q.busy == []
      && |states[|actions|].q.free| == MAX_REQS
    decreases |actions|
  {
    var s := states[0];
    WorkLeftIsNatural(s.workers);
    if |actions| == 0 {
      if forall a :: IsWorkerAction(a) ==> !Enabled(s, a) { IdleMeansDrained(s); }
    } else {
      assert Next(s, actions[0], states[1]);
      StepKeepsInv(s, actions[0]);
      forall k | 0 <= k < |actions[1..]| ensures Next(states[1..][k], actions[1..][k], states[1..][k + 1]) {
        assert Next(states[k + 1], actions[k + 1], states[k + 2]);
      }
      WorkerActionsMakeProgress(s, actions[0]);
      WorkersDrainTheQueues(states[1..], actions[1..]);
    }
  }

  lemma {:induction false} InFlightHasWorker(s: Sys)
    requires SysInv(s) && s.q.busy != []
    ensures SomeoneIsUp(s.workers)
  {
    assert Owned(s.q, s.workers, s.q.busy[0]);
  }

  lemma {:induction false} IdleMeansDrained(s: Sys)
    requires SysInv(s) && forall a :: IsWorkerAction(a) ==> !Enabled(s, a)
    ensures s.q.pend == [] && s.q.busy == [] && |s.q.free| == MAX_REQS
  {
    forall w: nat | w < NUM_WORKERS ensures s.workers[w].Waiting? {
      assert !Enabled(s, Run(w)) && !Enabled(s, MarkDone(w));
      assert !Enabled(s, CallbackReturns(w)) && !Enabled(s, Finish(w));
    }
    if s.q.busy != [] { InFlightHasWorker(s); assert false; }
    QueuesConserveElements(s.q);
  }
}
