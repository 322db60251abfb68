/** An AHCI port's 32 command slots on top of the block request scheduler (pci_ahci.c, block_if.c). */
module AhciSlots {
  import opened Seqs
  import opened BlockIf
  import opened BlockRuns

  const SLOTS: nat := 32
  /** blockif_queuesz: one less than the scheduler's elements. */
  const REQS: nat := MAX_REQS - 1

  /** A client request: the slot it serves and whether the command needs another pass after it. The
      command's kind is not kept: the port reads it from guest memory again each time. */
  datatype Ioreq = Ioreq(slot: nat, more: bool)

  /** The port: command registers as bit vectors (`busy` is BSY or DRQ in the task file, `wait` is
      waitforclear, `receive` is FIS receive enabled with a buffer), and the request lists. */
  datatype Port = Port(
    ci: seq<bool>, pending: seq<bool>, sact: seq<bool>,
    busy: bool, error: bool, wait: bool, started: bool, receive: bool, reset: bool, ccs: nat,
    reqs: seq<Ioreq>, freel: seq<nat>, busyl: seq<nat>)

  // ---- The request lists ----

  predicate Sized(p: Port) {
    |p.reqs| == REQS && |p.pending| == SLOTS && |p.ci| == SLOTS && |p.sact| == SLOTS && p.ccs < SLOTS
  }

  ghost predicate ListsOk(p: Port) {
    && Sized(p) && Distinct(p.freel) && Distinct(p.busyl)
    && forall i: nat :: OnOneList(p, i)
  }

  /** Request `i` is on exactly one of the lists. */
  ghost predicate OnOneList(p: Port, i: nat) {
    && !(i in p.freel && i in p.busyl)
    && (i in p.freel || i in p.busyl <==> i < REQS)
  }

  function SlotOf(p: Port, i: nat): nat { if i < |p.reqs| then p.reqs[i].slot else 0 }

  /** Busy request `i` serves a slot marked in flight, and no other request serves it. */
  ghost predicate ServesOwnSlot(p: Port, i: nat) {
    i in p.busyl ==>
      && SlotOf(p, i) < |p.pending| && p.pending[SlotOf(p, i)]
      && forall j: nat :: j in p.busyl && SlotOf(p, j) == SlotOf(p, i) ==> j == i
  }

  ghost predicate Served(p: Port, s: nat) { exists i: nat :: i in p.busyl && SlotOf(p, i) == s }

  /** Slot accounting, except that `hole` may be marked in flight without a request. */
  ghost predicate AccountedBut(p: Port, hole: nat) {
    && ListsOk(p)
    && (forall i: nat :: ServesOwnSlot(p, i))
    && (forall s: nat :: s < SLOTS && p.pending[s] && s != hole ==> Served(p, s))
    && !Served(p, hole)
  }

  /** A slot is marked in flight exactly when exactly one busy request serves it. */
  ghost predicate Accounted(p: Port) {
    && ListsOk(p)
    && (forall i: nat :: ServesOwnSlot(p, i))
    && (forall s: nat :: s < SLOTS && p.pending[s] ==> Served(p, s))
  }

  lemma {:induction false} PendingMeansOneRequest(p: Port, s: nat)
    requires Accounted(p) && s < SLOTS
    ensures p.pending[s] <==> Served(p, s)
    ensures forall i: nat, j: nat :: i in p.busyl && j in p.busyl && SlotOf(p, i) == s && SlotOf(p, j) == s ==> i == j
  {
    forall i: nat, j: nat | i in p.busyl && j in p.busyl && SlotOf(p, i) == s && SlotOf(p, j) == s ensures i == j {
      assert ServesOwnSlot(p, i);
    }
    if Served(p, s) {
      var i: nat :| i in p.busyl && SlotOf(p, i) == s;
      assert ServesOwnSlot(p, i);
    }
  }

  /** Take a request off the free list for a slot and put it on the busy list. */
  function Take(p: Port, r: Ioreq): Port
    requires p.freel != [] && p.freel[0] < |p.reqs| && r.slot < |p.pending|
  {
    var i := p.freel[0];
    p.(reqs := p.reqs[i := r], freel := p.freel[1..], busyl := [i] + p.busyl, pending := p.pending[r.slot := true])
  }

  /** Move a finished or cancelled request back. */
  function Retire(p: Port, i: nat): Port {
    p.(busyl := Remove(p.busyl, i), freel := p.freel + [i])
  }

  function Idle(p: Port, s: nat): Port
    requires s < |p.pending|
  {
    p.(pending := p.pending[s := false])
  }

  lemma {:induction false} HoleIfIdle(p: Port, s: nat)
    requires Accounted(p) && s < SLOTS && !p.pending[s]
    ensures AccountedBut(p, s)
  {
    PendingMeansOneRequest(p, s);
  }

  lemma {:induction false} IdleFillsHole(p: Port, s: nat)
    requires AccountedBut(p, s) && s < SLOTS
    ensures Accounted(Idle(p, s))
  {
    var r := Idle(p, s);
    forall i: nat ensures OnOneList(r, i) && ServesOwnSlot(r, i) {
      assert OnOneList(p, i) && ServesOwnSlot(p, i);
    }
    forall k: nat | k < SLOTS && r.pending[k] ensures Served(r, k) {
      assert Served(p, k);
      var i: nat :| i in p.busyl && SlotOf(p, i) == k;
      assert i in r.busyl && SlotOf(r, i) == k;
    }
  }

  lemma {:induction false} RetireLeavesHole(p: Port, i: nat)
    requires Accounted(p) && i in p.busyl
    ensures AccountedBut(Retire(p, i), SlotOf(p, i)) && SlotOf(p, i) < SLOTS
    ensures forall j: nat :: j in Retire(p, i).busyl <==> j in p.busyl && j != i
  {
    var r, s := Retire(p, i), SlotOf(p, i);
    RemoveDistinct(p.busyl, i);
    assert OnOneList(p, i) && ServesOwnSlot(p, i);
    forall j: nat ensures OnOneList(r, j) && ServesOwnSlot(r, j) {
      assert OnOneList(p, j) && ServesOwnSlot(p, j);
    }
    forall k: nat | k < SLOTS && r.pending[k] && k != s ensures Served(r, k) {
      assert Served(p, k);
      var j: nat :| j in p.busyl && SlotOf(p, j) == k;
      assert j in r.busyl && SlotOf(r, j) == k;
    }
    assert !Served(r, s);
  }

  lemma {:induction false} TakeFillsHole(p: Port, q: Ioreq)
    requires AccountedBut(p, q.slot) && q.slot < SLOTS && p.freel != []
    ensures p.freel[0] < |p.reqs| == REQS && q.slot < |p.pending| && p.freel[0] !in p.busyl && Accounted(Take(p, q))
    ensures forall j: nat :: j in Take(p, q).busyl <==> j in p.busyl || j == p.freel[0]
  {
    var i := p.freel[0];
    assert OnOneList(p, i);
    var r, s := Take(p, q), q.slot;
    TakeKeepsLists(p, q);
    forall j: nat ensures ServesOwnSlot(r, j) {
      TakeServes(p, q, j);
    }
    forall k: nat | k < SLOTS && r.pending[k] ensures Served(r, k) {
      if k == s {
        assert i in r.busyl && SlotOf(r, i) == k;
      } else {
        assert Served(p, k);
        var j: nat :| j in p.busyl && SlotOf(p, j) == k;
        assert j in r.busyl && SlotOf(r, j) == k;
      }
    }
  }

  lemma {:induction false} TakeKeepsLists(p: Port, q: Ioreq)
    requires ListsOk(p) && q.slot < SLOTS && p.freel != [] && p.freel[0] < REQS && p.freel[0] !in p.busyl
    ensures ListsOk(Take(p, q))
  {
    var r, i := Take(p, q), p.freel[0];
    forall j: nat ensures OnOneList(r, j) {
      assert OnOneList(p, j);
      assert j in p.freel <==> j == i || j in p.freel[1..];
    }
  }

  lemma {:induction false} TakeServes(p: Port, q: Ioreq, j: nat)
    requires AccountedBut(p, q.slot) && q.slot < SLOTS && p.freel != [] && p.freel[0] < REQS && p.freel[0] !in p.busyl
    ensures ServesOwnSlot(Take(p, q), j)
  {
    var r, i := Take(p, q), p.freel[0];
    assert ServesOwnSlot(p, j);
    assert forall k: nat :: k in r.busyl ==> k == i || k in p.busyl;
  }

  // ---- Counting ----

  /** Distinct numbers below `n` are at most `n`. */
  lemma {:induction false} Pigeonhole(s: seq<int>, n: nat)
    requires Distinct(s) && forall k :: 0 <= k < |s| ==> 0 <= s[k] < n
    ensures |s| <= n
  {
    assert s != [] ==> 0 <= s[0] < n;
    if s != [] {
      if n - 1 in s {
        var r := Remove(s, n - 1);
        RemoveDistinct(s, n - 1);
        forall k | 0 <= k < |r| ensures 0 <= r[k] < n - 1 { assert r[k] in r; }
        Pigeonhole(r, n - 1);
      } else {
        forall k | 0 <= k < |s| ensures s[k] != n - 1 { assert s[k] in s; }
        Pigeonhole(s, n - 1);
      }
    }
  }

  /** At most one request per slot is out, so the free list has at least 103 left. */
  lemma {:induction false} FreeListSuffices(p: Port, hole: nat)
    requires AccountedBut(p, hole) || Accounted(p)
    ensures |p.busyl| <= SLOTS && |p.freel| + |p.busyl| == REQS && p.freel != []
  {
    var slots := seq(|p.busyl|, k requires 0 <= k < |p.busyl| => SlotOf(p, p.busyl[k]));
    forall k | 0 <= k < |slots| ensures 0 <= slots[k] < SLOTS {
      assert ServesOwnSlot(p, p.busyl[k]);
    }
    forall j, k | 0 <= j < k < |slots| ensures slots[j] != slots[k] {
      assert ServesOwnSlot(p, p.busyl[j]);
      assert p.busyl[k] in p.busyl && p.busyl[j] != p.busyl[k];
    }
    Pigeonhole(slots, SLOTS);
    BothLists(p);
  }

  lemma {:induction false} BothLists(p: Port)
    requires ListsOk(p)
    ensures |p.freel| + |p.busyl| == REQS
  {
    var all: seq<int> := p.freel + p.busyl;
    forall j, k | 0 <= j < k < |all| ensures all[j] != all[k] {
      assert OnOneList(p, all[j]) && OnOneList(p, all[k]);
      var f := |p.freel|;
      assert all[j] == if j < f then p.freel[j] else p.busyl[j - f];
      assert all[k] == if k < f then p.freel[k] else p.busyl[k - f];
    }
    forall i ensures i in all <==> 0 <= i < REQS {
      if i >= 0 { assert OnOneList(p, i); }
      assert i in all <==> i in p.freel || i in p.busyl;
    }
    DistinctCount(all, REQS);
  }

  // ---- Port and scheduler together ----

  /** The controller state and the scheduler of its disk. A request's identity is its index. */
  datatype Full = Full(port: Port, sys: Sys)

  /** An element whose request the port still waits for: pending, or with a worker that has not yet
      returned from the callback. */
  ghost predicate Live(s: Sys, e: Ix) {
    e in s.q.pend || (e in s.q.busy && s.q.elems[e].tid < |s.workers| && Delivering(s.workers[s.q.elems[e].tid]))
  }

  predicate Delivering(w: Worker) { w.Io? || w.Calling? }

  function IdOf(s: Sys, e: Ix): nat { if s.q.elems[e].req.Some? then s.q.elems[e].req.value.id else REQS }

  /** A live element carries a busy request, and no other live element carries the same. */
  ghost predicate CarriesOwn(f: Full, e: Ix) {
    Live(f.sys, e) ==>
      && IdOf(f.sys, e) in f.port.busyl
      && forall x: Ix :: Live(f.sys, x) && IdOf(f.sys, x) == IdOf(f.sys, e) ==> x == e
  }

  ghost predicate Carried(s: Sys, i: nat) { exists e: Ix :: Live(s, e) && IdOf(s, e) == i }

  /** Busy requests and live elements correspond one to one. */
  ghost predicate Linked(f: Full) {
    && (forall e: Ix :: CarriesOwn(f, e))
    && forall i: nat :: i in f.port.busyl ==> Carried(f.sys, i)
  }

  ghost predicate FullInv(f: Full) { SysInv(f.sys) && Accounted(f.port) && Linked(f) }

  /** Both pools have room: at most 32 requests are pending or being done, at most 8 elements are
      with workers. */
  lemma {:induction false} PoolsSuffice(f: Full, h: nat)
    requires SysInv(f.sys) && (forall e: Ix :: CarriesOwn(f, e)) && (AccountedBut(f.port, h) || Accounted(f.port))
    ensures f.port.freel != [] && f.sys.q.free != []
    ensures |f.sys.q.pend| <= SLOTS && |f.sys.q.busy| <= NUM_WORKERS
  {
    FreeListSuffices(f.port, h);
    PendingFewerThanSlots(f, h);
    BusyFewerThanWorkers(f.sys);
    QueuesConserveElements(f.sys.q);
  }

  lemma {:induction false} PendingFewerThanSlots(f: Full, h: nat)
    requires SysInv(f.sys) && (forall e: Ix :: CarriesOwn(f, e)) && (AccountedBut(f.port, h) || Accounted(f.port))
    ensures |f.sys.q.pend| <= SLOTS
  {
    var p, q := f.port, f.sys.q;
    var slots := seq(|q.pend|, k requires 0 <= k < |q.pend| => SlotOf(p, IdOf(f.sys, q.pend[k])));
    forall k | 0 <= k < |slots| ensures 0 <= slots[k] < SLOTS {
      SlotOfLive(f, h, q.pend[k]);
    }
    forall j, k | 0 <= j < k < |slots| ensures slots[j] != slots[k] {
      SlotOfLive(f, h, q.pend[j]);
      assert Live(f.sys, q.pend[k]) && CarriesOwn(f, q.pend[k]);
    }
    Pigeonhole(slots, SLOTS);
  }

  /** Different live elements serve different slots. */
  lemma {:induction false} SlotOfLive(f: Full, h: nat, e: Ix)
    requires (forall e: Ix :: CarriesOwn(f, e)) && (AccountedBut(f.port, h) || Accounted(f.port)) && Live(f.sys, e)
    ensures IdOf(f.sys, e) in f.port.busyl && SlotOf(f.port, IdOf(f.sys, e)) < SLOTS
    ensures forall x: Ix ::
      Live(f.sys, x) && SlotOf(f.port, IdOf(f.sys, x)) == SlotOf(f.port, IdOf(f.sys, e)) ==> x == e
  {
    assert CarriesOwn(f, e) && ServesOwnSlot(f.port, IdOf(f.sys, e));
    forall x: Ix | Live(f.sys, x) && SlotOf(f.port, IdOf(f.sys, x)) == SlotOf(f.port, IdOf(f.sys, e)) ensures x == e {
      assert CarriesOwn(f, x);
    }
  }

  lemma {:induction false} BusyFewerThanWorkers(s: Sys)
    requires SysInv(s)
    ensures |s.q.busy| <= NUM_WORKERS
  {
    var tids := seq(|s.q.busy|, k requires 0 <= k < |s.q.busy| => s.q.elems[s.q.busy[k]].tid);
    forall k | 0 <= k < |tids| ensures 0 <= tids[k] < NUM_WORKERS {
      assert Owned(s.q, s.workers, s.q.busy[k]);
    }
    forall j, k | 0 <= j < k < |tids| ensures tids[j] != tids[k] {
      assert Owned(s.q, s.workers, s.q.busy[j]) && Owned(s.q, s.workers, s.q.busy[k]);
    }
    Pigeonhole(tids, NUM_WORKERS);
  }

  // ---- Scheduler steps that the port does not see ----

  /** The same requests are live, on the same elements. */
  ghost predicate SameLive(s: Sys, r: Sys) {
    forall e: Ix :: SameLiveAt(s, r, e)
  }

  ghost predicate SameLiveAt(s: Sys, r: Sys, e: Ix) {
    (Live(r, e) <==> Live(s, e)) && (Live(s, e) ==> IdOf(r, e) == IdOf(s, e))
  }

  lemma {:induction false} UnseenKeepsLink(p: Port, s: Sys, r: Sys)
    requires Linked(Full(p, s)) && SameLive(s, r)
    ensures Linked(Full(p, r))
  {
    forall e: Ix ensures CarriesOwn(Full(p, r), e) {
      assert CarriesOwn(Full(p, s), e) && SameLiveAt(s, r, e);
      forall x: Ix | Live(r, e) && Live(r, x) && IdOf(r, x) == IdOf(r, e) ensures x == e {
        assert SameLiveAt(s, r, x);
      }
    }
    forall i: nat | i in p.busyl ensures Carried(r, i) {
      assert Carried(s, i);
      var e: Ix :| Live(s, e) && IdOf(s, e) == i;
      assert SameLiveAt(s, r, e);
    }
  }

  /** Taking an element from the queue to a worker keeps it live. */
  lemma {:induction false} TakeNextSameLive(s: Sys, w: nat)
    requires Partitioned(s.q) && w < |s.workers| && !Delivering(s.workers[w])
    requires forall e: Ix :: e in s.q.busy ==> s.q.elems[e].tid != w
    ensures SameLive(s, TakeNext(s, w))
  {
    var r := TakeNext(s, w);
    var first := FirstPend(s.q.elems, s.q.pend);
    if first.Some? { RemoveDistinct(s.q.pend, first.value); }
    forall e: Ix ensures SameLiveAt(s, r, e) {
      assert Placed(s.q, e);
    }
  }

  /** An element nobody waits for any more leaves without the port noticing. */
  lemma {:induction false} CompletedSameLive(s: Sys, e: Ix)
    requires Partitioned(s.q) && e in s.q.busy && !Live(s, e)
    ensures SameLive(s, s.(q := Completed(s.q, e)))
  {
    var r := s.(q := Completed(s.q, e));
    CompletedIsGone(s.q, e);
    forall x: Ix ensures SameLiveAt(s, r, x) {
      assert Placed(s.q, x) && Placed(s.q, e);
      if x != e { OthersStayInFlight(s.q, e, x); }
    }
  }

  /** The worker steps that belong to the scheduler alone. */
  predicate IsUnseen(a: Action) { a.Run? || a.MarkDone? || a.Finish? || a.WakeSpuriously? }

  lemma {:induction false} UnseenSameLive(s: Sys, a: Action)
    requires SysInv(s) && Enabled(s, a) && IsUnseen(a)
    ensures SameLive(s, Step(s, a))
  {
    match a
    case Run(w) => RunSameLive(s, w);
    case Finish(w) => FinishSameLive(s, w);
    case MarkDone(w) => PhaseSameLive(s, w, a);
    case WakeSpuriously(w) => PhaseSameLive(s, w, a);
    case _ =>
  }

  lemma {:induction false} PhaseSameLive(s: Sys, w: nat, a: Action)
    requires SysInv(s) && Enabled(s, a) && (a == MarkDone(w) || a == WakeSpuriously(w))
    ensures SameLive(s, Step(s, a))
  {
    forall e: Ix ensures SameLiveAt(s, Step(s, a), e) {
      assert Owned(s.q, s.workers, e);
    }
  }

  lemma {:induction false} RunSameLive(s: Sys, w: nat)
    requires SysInv(s) && Enabled(s, Run(w))
    ensures SameLive(s, Step(s, Run(w)))
  {
    forall e: Ix | e in s.q.busy ensures s.q.elems[e].tid != w {
      assert Owned(s.q, s.workers, e);
    }
    var m := s.(workCount := s.workCount + 1);
    TakeNextSameLive(m, w);
    forall e: Ix ensures SameLiveAt(s, Step(s, Run(w)), e) { assert SameLiveAt(m, TakeNext(m, w), e); }
  }

  lemma {:induction false} FinishSameLive(s: Sys, w: nat)
    requires SysInv(s) && Enabled(s, Finish(w))
    ensures SameLive(s, Step(s, Finish(w)))
  {
    hide Completed, TakeNext, BlockedHaveCause, HoldCounts;
    var e := s.workers[w].e;
    assert HoldsOwn(s.q, s.workers, w) && Placed(s.q, e);
    var m := s.(q := Completed(s.q, e));
    CompletedSameLive(s, e);
    CompletePartitions(s.q, e);
    CompletedIsGone(s.q, e);
    forall x: Ix | x in m.q.busy ensures m.q.elems[x].tid != w {
      OthersStayInFlight(s.q, e, x);
      assert Owned(s.q, s.workers, x);
    }
    TakeNextSameLive(m, w);
    forall x: Ix ensures SameLiveAt(s, TakeNext(m, w), x) {
      assert SameLiveAt(s, m, x) && SameLiveAt(m, TakeNext(m, w), x);
    }
  }

  // ---- Steps under the controller lock ----

  /** A new request goes to the scheduler; its element becomes live. */
  lemma {:induction false} IssueKeeps(p: Port, s: Sys, r: Ioreq, req: Req, op: Op, woken: seq<nat>)
    requires SysInv(s) && AccountedBut(p, r.slot) && Linked(Full(p, s)) && r.slot < SLOTS
    requires p.freel != [] && req.id == p.freel[0] && s.q.free != [] && Signals(s, Ready(s, req, op), woken)
    ensures p.freel[0] < |p.reqs| && FullInv(Full(Take(p, r), Submitted(s, req, op, woken)))
  {
    hide BlockedHaveCause, HoldCounts, AccountedBut, Accounted, ListsOk, EndsAt;
    TakeFillsHole(p, r);
    SubmitKeeps(s, req, op, woken);
    var t, e0 := Submitted(s, req, op, woken), s.q.free[0];
    SubmittedLive(s, req, op, woken);
    forall e: Ix ensures CarriesOwn(Full(Take(p, r), t), e) {
      IssuedCarries(p, s, r, t, e0, e);
    }
    forall i: nat | i in Take(p, r).busyl ensures Carried(t, i) {
      if i == req.id {
        assert Live(t, e0) && IdOf(t, e0) == i;
      } else {
        assert Carried(s, i);
        var e: Ix :| Live(s, e) && IdOf(s, e) == i;
        assert Live(t, e) && IdOf(t, e) == i;
      }
    }
  }

  /** What is live after a submission: the new element, and what was live before. */
  lemma {:induction false} SubmittedLive(s: Sys, req: Req, op: Op, woken: seq<nat>)
    requires SysInv(s) && s.q.free != [] && Signals(s, Ready(s, req, op), woken)
    ensures var t, e0 := Submitted(s, req, op, woken), s.q.free[0];
      && Live(t, e0) && IdOf(t, e0) == req.id && !Live(s, e0)
      && forall e: Ix :: e != e0 ==> (Live(t, e) <==> Live(s, e)) && IdOf(t, e) == IdOf(s, e)
  {
    hide BlockedHaveCause, HoldCounts;
    var t, e0 := Submitted(s, req, op, woken), s.q.free[0];
    assert Placed(s.q, e0);
    forall e: Ix | e != e0 ensures (Live(t, e) <==> Live(s, e)) && IdOf(t, e) == IdOf(s, e) {
      assert Owned(s.q, s.workers, e);
      assert forall v :: v in woken ==> Waits(s, v);
    }
  }

  lemma {:induction false} IssuedCarries(p: Port, s: Sys, r: Ioreq, t: Sys, e0: Ix, e: Ix)
    requires Linked(Full(p, s)) && p.freel != [] && p.freel[0] < |p.reqs| && p.freel[0] !in p.busyl
    requires r.slot < |p.pending|
    requires Live(t, e0) && IdOf(t, e0) == p.freel[0] && !Live(s, e0)
    requires forall e: Ix :: e != e0 ==> (Live(t, e) <==> Live(s, e)) && IdOf(t, e) == IdOf(s, e)
    ensures CarriesOwn(Full(Take(p, r), t), e)
  {
    assert CarriesOwn(Full(p, s), e);
    forall x: Ix | Live(t, e) && Live(t, x) && IdOf(t, x) == IdOf(t, e) ensures x == e {
      assert CarriesOwn(Full(p, s), x);
    }
  }

  /** One request leaves both sides: its element is no longer live, the others are. */
  lemma {:induction false} RetireKeepsLink(p: Port, s: Sys, i: nat, t: Sys, e0: Ix)
    requires Accounted(p) && Linked(Full(p, s)) && i in p.busyl
    requires Live(s, e0) && IdOf(s, e0) == i && !Live(t, e0)
    requires forall e: Ix :: e != e0 ==> (Live(t, e) <==> Live(s, e)) && (Live(s, e) ==> IdOf(t, e) == IdOf(s, e))
    ensures Linked(Full(Retire(p, i), t))
  {
    hide AccountedBut, Retire;
    RetireLeavesHole(p, i);
    assert CarriesOwn(Full(p, s), e0);
    forall e: Ix ensures CarriesOwn(Full(Retire(p, i), t), e) {
      assert CarriesOwn(Full(p, s), e);
      forall x: Ix | Live(t, e) && Live(t, x) && IdOf(t, x) == IdOf(t, e) ensures x == e {
        assert x != e0;
      }
    }
    forall j: nat | j in Retire(p, i).busyl ensures Carried(t, j) {
      assert Carried(s, j);
      var e: Ix :| Live(s, e) && IdOf(s, e) == j;
      assert Live(t, e) && IdOf(t, e) == j;
    }
  }

  /** A callback runs for a live element, which it retires. */
  lemma {:induction false} CallbackLive(s: Sys, w: nat)
    requires SysInv(s) && Enabled(s, CallbackReturns(w))
    ensures var e0, t := s.workers[w].e, Step(s, CallbackReturns(w));
      && Live(s, e0) && !Live(t, e0)
      && forall e: Ix :: e != e0 ==> (Live(t, e) <==> Live(s, e)) && IdOf(t, e) == IdOf(s, e)
  {
    hide BlockedHaveCause, HoldCounts;
    var e0, t := s.workers[w].e, Step(s, CallbackReturns(w));
    assert HoldsOwn(s.q, s.workers, w) && Placed(s.q, e0);
    forall e: Ix | e != e0 ensures Live(t, e) <==> Live(s, e) {
      assert Owned(s.q, s.workers, e);
    }
  }

  /** A cancelled request leaves the queue; everything else stays live. */
  lemma {:induction false} CancelLive(s: Sys, i: nat)
    requires SysInv(s) && Carrier(s.q.elems, s.q.pend, i).Some?
    ensures var e0, t := Carrier(s.q.elems, s.q.pend, i).value, CancelDone(s, i).0;
      && Live(s, e0) && IdOf(s, e0) == i && !Live(t, e0)
      && forall e: Ix :: e != e0 ==> (Live(t, e) <==> Live(s, e)) && (Live(s, e) ==> IdOf(t, e) == IdOf(s, e))
  {
    hide BlockedHaveCause, HoldCounts;
    var e0, t := Carrier(s.q.elems, s.q.pend, i).value, CancelDone(s, i).0;
    assert Placed(s.q, e0);
    CompletedIsGone(s.q, e0);
    forall e: Ix | e != e0 ensures (Live(t, e) <==> Live(s, e)) && (Live(s, e) ==> IdOf(t, e) == IdOf(s, e)) {
      assert Placed(s.q, e);
      OthersStayInFlight(s.q, e0, e);
      RemoveDistinct(s.q.pend, e0);
    }
  }

  // ---- What happens to the registers ----

  /** What the command header in a slot makes the port do: not a host-to-device FIS; a control FIS; a
      command answered at once; or one handed to the scheduler, released early when queued natively. */
  datatype Outcome = NotH2D | Control(srst: bool) | Good | Bad | Queued(more: bool, ncq: bool)

  predicate Issuable(p: Port, s: nat)
    requires |p.ci| == SLOTS && |p.pending| == SLOTS
  {
    s < SLOTS && p.ci[s] && !p.pending[s]
  }

  /** A successful device-to-host FIS. */
  function D2hGood(p: Port, s: nat): Port
    requires s < |p.ci|
  {
    p.(ci := p.ci[s := false], busy := false, error := false)
  }

  /** An erroneous one: the slot stays issued, and the port waits for the guest if it can tell it. */
  function D2hBad(p: Port): Port { p.(busy := false, error := true, wait := p.wait || p.receive) }

  /** ahci_handle_slot and ahci_handle_cmd, up to the submission. */
  function HandleSlot(p: Port, s: nat, o: Outcome): Port
    requires Sized(p) && s < SLOTS && (o.Queued? ==> p.freel != [] && p.freel[0] < |p.reqs|)
  {
    match o
    case NotH2D => p
    case Control(srst) =>
      var t := if srst then p.(reset := true)
               else if p.reset
               then p.(reset := false, sact := seq(SLOTS, _ => false), busy := false, error := false)
               else p;
      t.(ci := t.ci[s := false])
    case Good => D2hGood(p, s)
    case Bad => D2hBad(p)
    case Queued(more, ncq) =>
      var t := Take(p.(busy := true), Ioreq(s, more));
      if ncq then D2hGood(t, s) else t
  }

  /** Nothing in flight and not started: the command list is forgotten. */
  function CheckStopped(p: Port): Port {
    if !p.started && (forall s :: 0 <= s < |p.pending| ==> !p.pending[s])
    then p.(ccs := 0, ci := seq(SLOTS, _ => false), sact := seq(SLOTS, _ => false), wait := false) else p
  }

  /** The end of a command: a set-device-bits FIS for a natively queued one. */
  function Finished(p: Port, s: nat, ncq: bool, err: bool): Port
    requires s < SLOTS && |p.ci| == SLOTS && |p.sact| == SLOTS && |p.pending| == SLOTS
  {
    var t :=
      if ncq && err then p.(error := true, wait := p.wait || p.receive)
      else if ncq then p.(error := false, sact := p.sact[s := false])
      else if err then D2hBad(p) else D2hGood(p, s);
    CheckStopped(Idle(t, s))
  }

  /** A cancelled command is forgotten. */
  function Forgotten(p: Port, s: nat, ncq: bool): Port
    requires s < SLOTS && |p.ci| == SLOTS && |p.sact| == SLOTS && |p.pending| == SLOTS
  {
    var t := if ncq then p.(sact := p.sact[s := false]) else p.(ci := p.ci[s := false]);
    Idle(t, s)
  }

  /** The registers differ, the accounts do not. */
  predicate SameAccounts(p: Port, t: Port) {
    && t.pending == p.pending && t.reqs == p.reqs && t.freel == p.freel && t.busyl == p.busyl
    && |t.ci| == SLOTS && |t.sact| == SLOTS && t.ccs < SLOTS
  }

  lemma {:induction false} RegistersKeepAccounts(p: Port, t: Port, hole: nat)
    requires SameAccounts(p, t)
    ensures Accounted(p) ==> Accounted(t)
    ensures AccountedBut(p, hole) ==> AccountedBut(t, hole)
  {
    forall i: nat ensures (OnOneList(p, i) ==> OnOneList(t, i)) && (ServesOwnSlot(p, i) ==> ServesOwnSlot(t, i)) {}
    forall s: nat ensures Served(p, s) <==> Served(t, s) {
      if Served(p, s) {
        var i: nat :| i in p.busyl && SlotOf(p, i) == s;
        assert i in t.busyl && SlotOf(t, i) == s;
      }
      if Served(t, s) {
        var i: nat :| i in t.busyl && SlotOf(t, i) == s;
        assert i in p.busyl && SlotOf(p, i) == s;
      }
    }
  }

  // ---- Runs ----

  datatype Move =
    | Scheduler(a: Action)
    | Registers(t: Port)
    | Handle(s: nat, o: Outcome, req: Req, op: Op, woken: seq<nat>)
    | Again(w: nat, more: bool, req: Req, op: Op, woken: seq<nat>)
    | Over(w: nat, err: bool, ncq: bool, trim: bool)
    | CancelRequest(i: nat, ncq: bool)

  /** The request a worker's callback is about. */
  function Called(f: Full, w: nat): nat
    requires w < |f.sys.workers| && f.sys.workers[w].Calling?
  {
    IdOf(f.sys, f.sys.workers[w].e)
  }

  predicate CanCall(f: Full, w: nat) {
    w < |f.sys.workers| && f.sys.workers[w].Calling?
  }

  /** The scheduler when the callback of worker `w` has returned. */
  function AfterCall(f: Full, w: nat): Sys
    requires CanCall(f, w)
  {
    Step(f.sys, CallbackReturns(w))
  }

  /** Whether a move can happen, with the identity of the request it submits, if any. Whether there is
      a free request or element does not matter here. */
  ghost predicate Possible(f: Full, m: Move)
    requires ListsOk(f.port)
  {
    match m
    case Scheduler(a) => IsUnseen(a) && Enabled(f.sys, a)
    case Registers(t) => SameAccounts(f.port, t)
    case Handle(s, o, req, op, woken) =>
      Issuable(f.port, s) && (o.Queued? ==> Submits(f.port.freel, f.sys, req, op, woken))
    case Again(w, more, req, op, woken) =>
      && CanCall(f, w) && Called(f, w) < REQS && f.port.reqs[Called(f, w)].more
      && Submits(f.port.freel + [Called(f, w)], AfterCall(f, w), req, op, woken)
    case Over(w, err, _, trim) =>
      CanCall(f, w) && Called(f, w) < REQS && (err || !f.port.reqs[Called(f, w)].more || trim)
    case CancelRequest(i, _) => i in f.port.busyl
  }

  predicate Submits(freel: seq<nat>, s: Sys, req: Req, op: Op, woken: seq<nat>) {
    (freel != [] ==> req.id == freel[0]) && (s.q.free != [] ==> Signals(s, Ready(s, req, op), woken))
  }

  /** Take a request for a slot and submit it; none when one of the two assertions fails. */
  function Issue(p: Port, s: Sys, r: Ioreq, req: Req, op: Op, woken: seq<nat>): Option<Full>
    requires |p.pending| == SLOTS
  {
    if p.freel == [] || p.freel[0] >= |p.reqs| || r.slot >= SLOTS || s.q.free == [] then None
    else Some(Full(Take(p, r), Submitted(s, req, op, woken)))
  }

  /** One step of the composed system; none when an assertion fails. */
  function Moved(f: Full, m: Move): Option<Full>
    requires ListsOk(f.port) && Possible(f, m)
  {
    match m
    case Scheduler(a) => Some(f.(sys := Step(f.sys, a)))
    case Registers(t) => Some(f.(port := t))
    case Handle(s, o, req, op, woken) =>
      if o.Queued? then
        if f.port.freel == [] || f.port.freel[0] >= |f.port.reqs| || f.sys.q.free == [] then None
        else Some(Full(HandleSlot(f.port, s, o), Submitted(f.sys, req, op, woken)))
      else Some(f.(port := HandleSlot(f.port, s, o)))
    case Again(w, more, req, op, woken) =>
      Issue(Retire(f.port, Called(f, w)), AfterCall(f, w), f.port.reqs[Called(f, w)].(more := more), req, op, woken)
    case Over(w, err, ncq, _) =>
      var s := f.port.reqs[Called(f, w)].slot;
      if s >= SLOTS then None else Some(Full(Finished(Retire(f.port, Called(f, w)), s, ncq, err), AfterCall(f, w)))
    case CancelRequest(i, ncq) =>
      var c := CancelDone(f.sys, i);
      if c.1 != Cancelled then Some(f)
      else if i >= |f.port.reqs| || f.port.reqs[i].slot >= SLOTS then None
      else Some(Full(Forgotten(Retire(f.port, i), f.port.reqs[i].slot, ncq), c.0))
  }

  /** A callback's request is busy, and retiring it leaves its slot's account open. */
  lemma {:induction false} CalledIsBusy(f: Full, w: nat)
    requires FullInv(f) && CanCall(f, w)
    ensures Called(f, w) in f.port.busyl && Called(f, w) < REQS == |f.port.reqs|
    ensures SlotOf(f.port, Called(f, w)) == f.port.reqs[Called(f, w)].slot < SLOTS
    ensures var i := Called(f, w);
      AccountedBut(Retire(f.port, i), SlotOf(f.port, i)) && Linked(Full(Retire(f.port, i), AfterCall(f, w)))
    ensures SysInv(AfterCall(f, w))
  {
    hide BlockedHaveCause, HoldCounts, AccountedBut, Retire;
    var e0, i := f.sys.workers[w].e, Called(f, w);
    CallbackLive(f.sys, w);
    assert CarriesOwn(f, e0) && OnOneList(f.port, i) && ServesOwnSlot(f.port, i);
    RetireLeavesHole(f.port, i);
    RetireKeepsLink(f.port, f.sys, i, AfterCall(f, w), e0);
    PhaseKeeps(f.sys, w, Returned(e0));
  }

  lemma {:induction false} HandleKeeps(f: Full, s: nat, o: Outcome, req: Req, op: Op, woken: seq<nat>)
    requires FullInv(f) && Possible(f, Handle(s, o, req, op, woken))
    ensures Moved(f, Handle(s, o, req, op, woken)).Some? && FullInv(Moved(f, Handle(s, o, req, op, woken)).value)
  {
    hide SysInv, Submitted, Signals, Ready, AccountedBut, Accounted, HandleSlot, CarriesOwn;
    AccountedLists(f.port);
    if o.Queued? {
      HoleIfIdle(f.port, s);
      PoolsSuffice(f, s);
      QueueKeeps(f, s, o, req, op, woken);
    } else {
      AnsweredKeeps(f.port, s, o);
      RegistersKeepAccounts(f.port, HandleSlot(f.port, s, o), s);
      SamePortLink(f.port, HandleSlot(f.port, s, o), f.sys);
    }
  }

  /** A command that is answered at once touches registers only. */
  lemma {:induction false} AnsweredKeeps(p: Port, s: nat, o: Outcome)
    requires Sized(p) && s < SLOTS && !o.Queued?
    ensures SameAccounts(p, HandleSlot(p, s, o))
  {
  }

  /** A command for the scheduler takes a request for its slot; the rest is registers. */
  lemma {:induction false} QueuedTakes(p: Port, s: nat, o: Outcome)
    requires Sized(p) && s < SLOTS && o.Queued? && p.freel != [] && p.freel[0] < |p.reqs|
    ensures SameAccounts(Take(p.(busy := true), Ioreq(s, o.more)), HandleSlot(p, s, o))
  {
  }

  lemma {:induction false} QueueKeeps(f: Full, s: nat, o: Outcome, req: Req, op: Op, woken: seq<nat>)
    requires SysInv(f.sys) && AccountedBut(f.port, s) && Linked(f) && Sized(f.port) && s < SLOTS && o.Queued?
    requires f.port.freel != [] && req.id == f.port.freel[0] && f.sys.q.free != []
    requires Signals(f.sys, Ready(f.sys, req, op), woken)
    ensures f.port.freel[0] < |f.port.reqs|
    ensures FullInv(Full(HandleSlot(f.port, s, o), Submitted(f.sys, req, op, woken)))
  {
    hide SysInv, Submitted, Signals, Ready, AccountedBut, Accounted, HandleSlot, Linked, Take;
    var p, r := f.port.(busy := true), Ioreq(s, o.more);
    RegistersKeepAccounts(f.port, p, s);
    SamePortLink(f.port, p, f.sys);
    IssueKeeps(p, f.sys, r, req, op, woken);
    QueuedTakes(f.port, s, o);
    RegistersKeepAccounts(Take(p, r), HandleSlot(f.port, s, o), s);
    SamePortLink(Take(p, r), HandleSlot(f.port, s, o), Submitted(f.sys, req, op, woken));
  }

  lemma {:induction false} AccountedLists(p: Port)
    requires Accounted(p)
    ensures ListsOk(p) && Sized(p)
  {
  }

  /** The link only looks at the busy list. */
  lemma {:induction false} SamePortLink(p: Port, t: Port, s: Sys)
    requires t.busyl == p.busyl && Linked(Full(p, s))
    ensures Linked(Full(t, s))
  {
    forall e: Ix ensures CarriesOwn(Full(t, s), e) { assert CarriesOwn(Full(p, s), e); }
  }

  lemma {:induction false} AgainKeeps(f: Full, w: nat, more: bool, req: Req, op: Op, woken: seq<nat>)
    requires FullInv(f) && Possible(f, Again(w, more, req, op, woken))
    ensures Moved(f, Again(w, more, req, op, woken)).Some? && FullInv(Moved(f, Again(w, more, req, op, woken)).value)
  {
    hide SysInv, Submitted, Signals, Ready, AccountedBut, Accounted, Step;
    AccountedLists(f.port);
    CalledIsBusy(f, w);
    var i := Called(f, w);
    var p := Retire(f.port, i);
    PoolsSuffice(Full(p, AfterCall(f, w)), SlotOf(f.port, i));
    IssueKeeps(p, AfterCall(f, w), f.port.reqs[i].(more := more), req, op, woken);
  }

  lemma {:induction false} OverKeeps(f: Full, w: nat, err: bool, ncq: bool, trim: bool)
    requires FullInv(f) && Possible(f, Over(w, err, ncq, trim))
    ensures Moved(f, Over(w, err, ncq, trim)).Some? && FullInv(Moved(f, Over(w, err, ncq, trim)).value)
  {
    hide SysInv, AccountedBut, Step;
    AccountedLists(f.port);
    CalledIsBusy(f, w);
    var i := Called(f, w);
    var s := f.port.reqs[i].slot;
    FinishedAccounts(Retire(f.port, i), s, ncq, err);
    SamePortLink(Retire(f.port, i), Finished(Retire(f.port, i), s, ncq, err), AfterCall(f, w));
  }

  lemma {:induction false} FinishedAccounts(p: Port, s: nat, ncq: bool, err: bool)
    requires AccountedBut(p, s) && s < SLOTS
    ensures Accounted(Finished(p, s, ncq, err)) && Finished(p, s, ncq, err).busyl == p.busyl
  {
    IdleFillsHole(p, s);
    RegistersKeepAccounts(Idle(p, s), Finished(p, s, ncq, err), 0);
  }

  lemma {:induction false} BusySlot(p: Port, i: nat)
    requires Accounted(p) && i in p.busyl
    ensures ListsOk(p) && i < REQS == |p.reqs| && p.reqs[i].slot == SlotOf(p, i) < SLOTS
  {
    assert OnOneList(p, i) && ServesOwnSlot(p, i);
  }

  lemma {:induction false} CancelKeepsFull(f: Full, i: nat, ncq: bool)
    requires FullInv(f) && Possible(f, CancelRequest(i, ncq))
    ensures Moved(f, CancelRequest(i, ncq)).Some? && FullInv(Moved(f, CancelRequest(i, ncq)).value)
  {
    hide SysInv, AccountedBut, Accounted, Retire, Completed, CarriesOwn, Carried, Live;
    BusySlot(f.port, i);
    var c := CancelDone(f.sys, i);
    if c.1 == Cancelled {
      CancelKeeps(f.sys, i);
      CancelLive(f.sys, i);
      RetireLeavesHole(f.port, i);
      RetireKeepsLink(f.port, f.sys, i, c.0, Carrier(f.sys.q.elems, f.sys.q.pend, i).value);
      var s := f.port.reqs[i].slot;
      ForgottenAccounts(Retire(f.port, i), s, ncq);
      SamePortLink(Retire(f.port, i), Forgotten(Retire(f.port, i), s, ncq), c.0);
    }
  }

  lemma {:induction false} ForgottenAccounts(p: Port, s: nat, ncq: bool)
    requires AccountedBut(p, s) && s < SLOTS
    ensures ListsOk(p) && Accounted(Forgotten(p, s, ncq)) && Forgotten(p, s, ncq).busyl == p.busyl
  {
    IdleFillsHole(p, s);
    RegistersKeepAccounts(Idle(p, s), Forgotten(p, s, ncq), 0);
  }

  /** No step breaks the accounts, and no assertion on the way fails. */
  lemma {:induction false} MoveKeepsInv(f: Full, m: Move)
    requires FullInv(f) && Possible(f, m)
    ensures Moved(f, m).Some? && FullInv(Moved(f, m).value)
  {
    hide Accounted, BlockedHaveCause, HoldCounts;
    match m
    case Scheduler(a) =>
      StepKeepsInv(f.sys, a);
      UnseenSameLive(f.sys, a);
      UnseenKeepsLink(f.port, f.sys, Step(f.sys, a));
    case Registers(t) =>
      RegistersKeepAccounts(f.port, t, 0);
      SamePortLink(f.port, t, f.sys);
    case Handle(s, o, req, op, woken) => HandleKeeps(f, s, o, req, op, woken);
    case Again(w, more, req, op, woken) => AgainKeeps(f, w, more, req, op, woken);
    case Over(w, err, ncq, trim) => OverKeeps(f, w, err, ncq, trim);
    case CancelRequest(i, ncq) => CancelKeepsFull(f, i, ncq);
  }

  /** pci_ahci_ioreq_init on an opened disk: every request free, nothing in flight. */
  ghost predicate Starting(f: Full) {
    && BlockRuns.Initial(f.sys) && ListsOk(f.port) && f.port.busyl == []
    && forall s :: 0 <= s < SLOTS ==> !f.port.pending[s]
  }

  ghost predicate FullRun(states: seq<Full>, moves: seq<Move>) {
    && |states| == |moves| + 1 && Starting(states[0])
    && forall k :: 0 <= k < |moves| ==> RunStep(states, moves, k)
  }

  ghost predicate RunStep(states: seq<Full>, moves: seq<Move>, k: nat)
    requires k < |moves| && |states| == |moves| + 1
  {
    ListsOk(states[k].port) && Possible(states[k], moves[k]) && Moved(states[k], moves[k]) == Some(states[k + 1])
  }

  /** In every interleaving of the guest, the callbacks and the workers: a slot is marked in flight
      exactly when one busy request serves it, and busy requests correspond one to one to the
      scheduler's live elements. */
  lemma {:induction false} EveryRunIsAccounted(states: seq<Full>, moves: seq<Move>, k: nat)
    requires FullRun(states, moves) && k < |states|
    ensures FullInv(states[k])
  {
    hide Moved, Possible;
    if k == 0 {
      StartingInv(states[0]);
    } else {
      EveryRunIsAccounted(states, moves, k - 1);
      assert RunStep(states, moves, k - 1);
      MoveKeepsInv(states[k - 1], moves[k - 1]);
    }
  }

  lemma {:induction false} StartingInv(f: Full)
    requires Starting(f)
    ensures FullInv(f)
  {
    BlockRuns.EveryRunKeepsInv([f.sys], [], 0);
    forall i: nat ensures ServesOwnSlot(f.port, i) {}
    forall e: Ix ensures CarriesOwn(f, e) {}
  }

  /** In every such run no request assertion can fail: there is a free request and a free element
      whenever the port needs them. */
  lemma {:induction false} AssertionsHold(states: seq<Full>, moves: seq<Move>, k: nat, m: Move)
    requires FullRun(states, moves) && k < |states| && ListsOk(states[k].port) && Possible(states[k], m)
    ensures Moved(states[k], m).Some?
    ensures |states[k].port.busyl| <= SLOTS && |states[k].sys.q.free| >= MAX_REQS - SLOTS - NUM_WORKERS
  {
    EveryRunIsAccounted(states, moves, k);
    MoveKeepsInv(states[k], m);
    PoolsSuffice(states[k], 0);
    FreeListSuffices(states[k].port, 0);
    QueuesConserveElements(states[k].sys.q);
  }
}
