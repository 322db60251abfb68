/** The request queues of block_if.c: 136 elements on the free, pending and busy queues. */
module BlockIf {
  import opened Seqs

  const NUM_WORKERS := 8
  const MAX_REQS := 136
  const OFF_MAX := 0x7FFF_FFFF_FFFF_FFFF

  /** An index into the element table, standing for the element's address. */
  type Ix = i: int | 0 <= i < MAX_REQS

  datatype Op = Read | Write | Flush | Delete
  datatype Status = Free | Block | Pend | Busy | Done

  /** A client's request; `id` stands for its address. */
  datatype Req = Req(id: nat, offset: int, iov: seq<int>)

  datatype Elem = Elem(req: Option<Req>, op: Op, status: Status, tid: nat, block: int)

  type Table = t: seq<Elem> | |t| == MAX_REQS witness seq(MAX_REQS, _ => Elem(None, Read, Free, 0, 0))

  datatype Queues = Queues(elems: Table, free: seq<Ix>, pend: seq<Ix>, busy: seq<Ix>)

  /** The offset just past the request; a flush ends nowhere. */
  function EndOf(req: Req, op: Op): int {
    if op == Flush then OFF_MAX else req.offset + Sum(req.iov)
  }

  // ---- Invariants ----

  ghost predicate Distinct<T>(s: seq<T>) {
    forall i, j :: 0 <= i < j < |s| ==> s[i] != s[j]
  }

  /** Element `i` is on exactly the queue its status names, and holds a request unless free. */
  ghost predicate Placed(q: Queues, i: Ix)
  {
    var e := q.elems[i];
    && (i in q.free <==> e.status == Free)
    && (i in q.pend <==> e.status == Block || e.status == Pend)
    && (i in q.busy <==> e.status == Busy || e.status == Done)
    && (e.status != Free <==> e.req.Some?)
  }

  ghost predicate Partitioned(q: Queues) {
    && Distinct(q.free) && Distinct(q.pend) && Distinct(q.busy)
    && forall i: Ix :: Placed(q, i)
  }

  /** Some element of `s` ends at `off`. */
  predicate EndsAt(elems: Table, s: seq<Ix>, off: int)
  {
    exists i :: i in s && elems[i].block == off
  }

  /** The element at position `k` of the pending queue waits for one ahead of it, or in flight. */
  ghost predicate HasCause(q: Queues, k: nat)
    requires k < |q.pend|
  {
    var e := q.elems[q.pend[k]];
    e.req.Some? && (EndsAt(q.elems, q.pend[..k], e.req.value.offset) || EndsAt(q.elems, q.busy, e.req.value.offset))
  }

  ghost predicate BlockedHaveCause(q: Queues)
  {
    forall k :: 0 <= k < |q.pend| && q.elems[q.pend[k]].status == Block ==> HasCause(q, k)
  }

  ghost predicate Inv(q: Queues) {
    Partitioned(q) && BlockedHaveCause(q)
  }

  /** The scheduler never sticks: with nothing in flight the head of the queue is runnable. */
  lemma {:induction false} HeadIsRunnable(q: Queues)
    requires Inv(q) && q.busy == [] && q.pend != []
    ensures q.elems[q.pend[0]].status == Pend
  {
    assert Placed(q, q.pend[0]);
    assert q.pend[..0] == [];
  }

  // ---- Queue surgery ----

  function IndexOf<T(==)>(s: seq<T>, x: T): (k: nat)
    requires x in s
    ensures k < |s| && s[k] == x
    ensures forall j :: 0 <= j < k ==> s[j] != x
  {
    if s[0] == x then 0 else 1 + IndexOf(s[1..], x)
  }

  /** TAILQ_REMOVE. */
  function Remove<T(==)>(s: seq<T>, x: T): (r: seq<T>)
    ensures |r| == if x in s then |s| - 1 else |s|
  {
    if x in s then var k := IndexOf(s, x); s[..k] + s[k + 1..] else s
  }

  lemma {:induction false} RemoveDistinct<T>(s: seq<T>, x: T)
    requires x in s && Distinct(s)
    ensures Distinct(Remove(s, x))
    ensures forall y :: y in Remove(s, x) <==> y in s && y != x
  {
    var k := IndexOf(s, x);
    var r := Remove(s, x);
    forall y | y in s && y != x ensures y in r {
      var j := IndexOf(s, y);
      assert r[if j < k then j else j - 1] == y;
    }
  }

  lemma {:induction false} DroppedAt<T>(s: seq<T>, p: nat, j: nat)
    requires p < |s| && j < |s| && j != p
    ensures (s[..p] + s[p + 1..])[if j < p then j else j - 1] == s[j]
  {
  }

  lemma {:induction false} InPrefix<T>(s: seq<T>, i: nat, k: nat)
    requires i < k <= |s|
    ensures s[i] in s[..k]
  {
    assert s[..k][i] == s[i];
  }

  lemma {:induction false} DroppedPrefix<T>(s: seq<T>, p: nat, k0: nat, k: nat, y: T)
    requires p < |s| && k0 == (if k < p then k else k + 1) <= |s| && y in s[..k0] && y != s[p]
    ensures y in (s[..p] + s[p + 1..])[..k]
  {
    var j :| 0 <= j < k0 && s[j] == y;
    DroppedAt(s, p, j);
    InPrefix(s[..p] + s[p + 1..], if j < p then j else j - 1, k);
  }

  lemma {:induction false} RemoveIs<T>(s: seq<T>, x: T) returns (p: nat)
    requires x in s
    ensures p < |s| && s[p] == x && Remove(s, x) == s[..p] + s[p + 1..]
  {
    p := IndexOf(s, x);
  }

  /** What stood ahead of the element at `k` still does, except the removed one. */
  lemma {:induction false} RemovePrefix<T>(s: seq<T>, x: T, k: nat) returns (k0: nat)
    requires x in s && k < |Remove(s, x)|
    ensures k0 < |s| && s[k0] == Remove(s, x)[k]
    ensures forall y :: y in s[..k0] && y != x ==> y in Remove(s, x)[..k]
  {
    hide Remove;
    var p := RemoveIs(s, x);
    k0 := if k < p then k else k + 1;
    DroppedAt(s, p, k0);
    forall y | y in s[..k0] && y != x ensures y in Remove(s, x)[..k] { DroppedPrefix(s, p, k0, k, y); }
  }

  // ---- What the operations do to the queues ----

  /** The first runnable element of the pending queue. */
  function FirstPend(elems: Table, pend: seq<Ix>): (r: Option<Ix>)
    ensures r.Some? ==> r.value in pend && elems[r.value].status == Pend
    ensures r.None? ==> forall i :: i in pend ==> elems[i].status != Pend
  {
    if pend == [] then None
    else if elems[pend[0]].status == Pend then Some(pend[0])
    else FirstPend(elems, pend[1..])
  }

  function Enqueued(q: Queues, req: Req, op: Op): Queues
    requires q.free != []
  {
    var e := q.free[0];
    var held := EndsAt(q.elems, q.pend, req.offset) || EndsAt(q.elems, q.busy, req.offset);
    var elem := Elem(Some(req), op, if held then Block else Pend, q.elems[e].tid, EndOf(req, op));
    Queues(q.elems[e := elem], q.free[1..], q.pend + [e], q.busy)
  }

  /** Hand the first runnable element to worker `t`. */
  function Dequeued(q: Queues, t: nat): Queues
  {
    match FirstPend(q.elems, q.pend)
    case None => q
    case Some(e) =>
      Queues(q.elems[e := q.elems[e].(status := Busy, tid := t)], q.free, Remove(q.pend, e), q.busy + [e])
  }

  /** Every element of `pend` that starts at `off` becomes runnable. */
  function Unblocked(elems: Table, pend: seq<Ix>, off: int): (r: Table)
    ensures forall i: Ix ::
      r[i] == (if i in pend && elems[i].req.Some? && elems[i].req.value.offset == off
               then elems[i].(status := Pend) else elems[i])
  {
    seq(|elems|, i requires 0 <= i < |elems| =>
      if i in pend && elems[i].req.Some? && elems[i].req.value.offset == off
      then elems[i].(status := Pend) else elems[i])
  }

  function Completed(q: Queues, e: Ix): Queues
  {
    var inFlight := q.elems[e].status == Done || q.elems[e].status == Busy;
    var pend := if inFlight then q.pend else Remove(q.pend, e);
    var busy := if inFlight then Remove(q.busy, e) else q.busy;
    var elems := Unblocked(q.elems, pend, q.elems[e].block);
    Queues(elems[e := elems[e].(tid := 0, status := Free, req := None)], q.free + [e], pend, busy)
  }

  /** Completing one element leaves the others in flight as they were. */
  lemma {:induction false} OthersStayInFlight(q: Queues, e: Ix, x: Ix)
    requires Partitioned(q) && (e in q.pend || e in q.busy)
    requires x != e
    ensures x in Completed(q, e).busy <==> x in q.busy
    ensures x in q.busy ==> Completed(q, e).elems[x] == q.elems[x]
  {
    assert Placed(q, e) && Placed(q, x);
    if e in q.busy { RemoveDistinct(q.busy, e); } else { RemoveDistinct(q.pend, e); }
  }

  lemma {:induction false} CompletedIsGone(q: Queues, e: Ix)
    requires Partitioned(q) && (e in q.pend || e in q.busy)
    ensures e !in Completed(q, e).busy && e !in Completed(q, e).pend && Completed(q, e).elems[e].status == Free
  {
    assert Placed(q, e);
    if e in q.busy { RemoveDistinct(q.busy, e); } else { RemoveDistinct(q.pend, e); }
  }

  // ---- Each operation keeps the invariant ----

  lemma {:induction false} EnqueuePartitions(q: Queues, req: Req, op: Op)
    requires Partitioned(q) && q.free != []
    ensures Partitioned(Enqueued(q, req, op))
  {
    var r := Enqueued(q, req, op);
    var e := q.free[0];
    assert Placed(q, e);
    forall i: Ix ensures Placed(r, i) {
      assert Placed(q, i);
      if i in q.free && i != e {
        assert r.free[IndexOf(q.free, i) - 1] == i;
      }
    }
  }

  lemma {:induction false} EnqueueKeepsInv(q: Queues, req: Req, op: Op)
    requires Inv(q) && q.free != []
    ensures Inv(Enqueued(q, req, op))
  {
    EnqueuePartitions(q, req, op);
    var r := Enqueued(q, req, op);
    assert Placed(q, q.free[0]);
    forall k | 0 <= k < |r.pend| && r.elems[r.pend[k]].status == Block ensures HasCause(r, k) {
      assert Placed(r, r.pend[k]);
      var off := r.elems[r.pend[k]].req.value.offset;
      if k < |q.pend| {
        assert Placed(q, q.pend[k]) && HasCause(q, k);
        assert r.pend[..k] == q.pend[..k];
      } else {
        assert r.pend[..k] == q.pend;
      }
      EndsStay(q, r, r.pend[..k], off);
      EndsStay(q, r, q.busy, off);
    }
  }

  /** Ends are read off queued elements, which an enqueue leaves alone. */
  lemma {:induction false} EndsStay(q: Queues, r: Queues, s: seq<Ix>, off: int)
    requires forall i :: i in s ==> r.elems[i].block == q.elems[i].block
    ensures EndsAt(q.elems, s, off) <==> EndsAt(r.elems, s, off)
  {
  }

  lemma {:induction false} DequeuePartitions(q: Queues, t: nat)
    requires Partitioned(q)
    ensures Partitioned(Dequeued(q, t))
  {
    var first := FirstPend(q.elems, q.pend);
    if first.Some? {
      RemoveDistinct(q.pend, first.value);
      assert Placed(q, first.value);
      forall i: Ix ensures Placed(Dequeued(q, t), i) {
        assert Placed(q, i);
      }
    }
  }

  lemma {:induction false} DequeueKeepsInv(q: Queues, t: nat)
    requires Inv(q)
    ensures Inv(Dequeued(q, t))
  {
    DequeuePartitions(q, t);
    var first := FirstPend(q.elems, q.pend);
    if first.Some? {
      var e, r := first.value, Dequeued(q, t);
      forall k | 0 <= k < |r.pend| && r.elems[r.pend[k]].status == Block ensures HasCause(r, k) {
        var k0 := RemovePrefix(q.pend, e, k);
        assert Placed(r, r.pend[k]) && HasCause(q, k0);
        var off := r.elems[r.pend[k]].req.value.offset;
        var i :| (i in q.pend[..k0] || i in q.busy) && q.elems[i].block == off;
        assert r.elems[i].block == off;
        if i == e || i in q.busy { assert i in r.busy; } else { assert i in r.pend[..k]; }
      }
    }
  }

  lemma {:induction false} CompletePartitions(q: Queues, e: Ix)
    requires Partitioned(q) && (e in q.pend || e in q.busy)
    ensures Partitioned(Completed(q, e))
  {
    assert Placed(q, e);
    if e in q.pend { RemoveDistinct(q.pend, e); } else { RemoveDistinct(q.busy, e); }
    forall i: Ix ensures Placed(Completed(q, e), i) {
      assert Placed(q, i);
    }
  }

  /** An element still blocked after `e` completes does not start at `e`'s end, so its cause is another one. */
  lemma {:induction false} CompleteKeepsInv(q: Queues, e: Ix)
    requires Inv(q) && (e in q.pend || e in q.busy)
    ensures Inv(Completed(q, e))
  {
    CompletePartitions(q, e);
    assert Placed(q, e);
    var r := Completed(q, e);
    hide BlockedHaveCause, HasCause, Completed;
    forall k | 0 <= k < |r.pend| && r.elems[r.pend[k]].status == Block ensures HasCause(r, k) {
      CauseSurvives(q, e, k);
    }
    CausesMakeInv(r);
  }

  lemma {:induction false} CausesMakeInv(q: Queues)
    requires Partitioned(q) && forall k :: 0 <= k < |q.pend| && q.elems[q.pend[k]].status == Block ==> HasCause(q, k)
    ensures Inv(q)
  {
  }

  /** A request that is still held was not held because of the element that left. */
  lemma {:induction false} CauseSurvives(q: Queues, e: Ix, k: nat)
    requires Inv(q) && Partitioned(Completed(q, e)) && (e in q.pend || e in q.busy)
    requires k < |Completed(q, e).pend| && Completed(q, e).elems[Completed(q, e).pend[k]].status == Block
    ensures HasCause(Completed(q, e), k)
  {
    var r := Completed(q, e);
    assert Placed(q, e);
    var k0 := k;
    if e in q.pend { k0 := RemovePrefix(q.pend, e, k); }
    assert Placed(r, r.pend[k]) && HasCause(q, k0);
    var off := r.elems[r.pend[k]].req.value.offset;
    var i :| (i in q.pend[..k0] || i in q.busy) && q.elems[i].block == off;
    assert i != e && r.elems[i].block == off;
    if i in q.busy {
      if e in q.busy { RemoveDistinct(q.busy, e); }
      assert i in r.busy;
    } else {
      assert i in r.pend[..k];
    }
  }

  // ---- Conservation ----

  /** Free, pending and busy hold all 136 elements between them, each once. */
  lemma {:induction false} QueuesConserveElements(q: Queues)
    requires Partitioned(q)
    ensures |q.free| + |q.pend| + |q.busy| == MAX_REQS
    ensures Distinct(q.free + q.pend + q.busy)
    ensures forall i: Ix :: i in q.free + q.pend + q.busy
  {
    var all := q.free + q.pend + q.busy;
    forall i, j | 0 <= i < j < |all| ensures all[i] != all[j] {
      assert Placed(q, all[i]) && Placed(q, all[j]);
      var f, p := |q.free|, |q.free| + |q.pend|;
      assert all[i] == if i < f then q.free[i] else if i < p then q.pend[i - f] else q.busy[i - p];
      assert all[j] == if j < f then q.free[j] else if j < p then q.pend[j - f] else q.busy[j - p];
    }
    forall i: Ix ensures i in all { assert Placed(q, i); }
    DistinctCount(all, MAX_REQS);
  }

  /** A duplicate-free listing of 0..n has n entries. */
  lemma {:induction false} DistinctCount(s: seq<int>, n: nat)
    requires Distinct(s)
    requires forall i :: i in s <==> 0 <= i < n
    ensures |s| == n
  {
    if n > 0 {
      var r := Remove(s, n - 1);
      RemoveDistinct(s, n - 1);
      DistinctCount(r, n - 1);
    }
    assert |s| > 0 ==> s[0] in s && 0 <= s[0] < n;
  }

  /** The context itself: the queues are rewritten in place under its mutex. */
  class Ctxt {
    const elems: array<Elem>
    var freeq: seq<Ix>
    var pendq: seq<Ix>
    var busyq: seq<Ix>

    ghost function View(): Queues
      reads this, elems
      requires elems.Length == MAX_REQS
    {
      Queues(elems[..], freeq, pendq, busyq)
    }

    ghost predicate Valid()
      reads this, elems
    {
      elems.Length == MAX_REQS && Inv(View())
    }

    constructor ()
      ensures Valid() && fresh(elems)
      ensures |freeq| == MAX_REQS && pendq == [] && busyq == []
    {
      elems := new Elem[MAX_REQS](_ => Elem(None, Read, Free, 0, 0));
      freeq, pendq, busyq := [], [], [];
      new;
      for i := 0 to MAX_REQS
        invariant |freeq| == i && pendq == [] && busyq == []
        invariant forall k :: 0 <= k < i ==> freeq[k] == i - 1 - k
        invariant forall k :: 0 <= k < MAX_REQS ==> elems[k].status == Free && elems[k].req == None
      {
        freeq := [i] + freeq;
      }
      forall i: Ix ensures Placed(View(), i) {
        assert freeq[MAX_REQS - 1 - i] == i;
      }
    }

    /** Queue a request; the result says whether a worker may start it now. */
    method Enqueue(req: Req, op: Op) returns (ready: bool)
      requires Valid() && freeq != []
      modifies this, elems
      ensures Valid()
      ensures View() == Enqueued(old(View()), req, op)
      ensures ready == (elems[pendq[|pendq| - 1]].status == Pend)
    {
      ghost var q := View();
      EnqueueKeepsInv(q, req, op);
      var be := freeq[0];
      freeq := freeq[1..];
      var off := EndOffset(req, op);
      var held := FindEnd(pendq, req.offset);
      if !held {
        held := FindEnd(busyq, req.offset);
      }
      elems[be] := Elem(Some(req), op, if held then Block else Pend, elems[be].tid, off);
      pendq := pendq + [be];
      ready := elems[be].status == Pend;
      assert elems[..] == q.elems[be := elems[be]];
    }

    method EndOffset(req: Req, op: Op) returns (off: int)
      ensures off == EndOf(req, op)
    {
      if op == Flush { return OFF_MAX; }
      off := req.offset;
      for i := 0 to |req.iov|
        invariant off == req.offset + Sum(req.iov[..i])
      {
        assert req.iov[..i + 1] == req.iov[..i] + [req.iov[i]];
        SumConcat(req.iov[..i], [req.iov[i]]);
        off := off + req.iov[i];
      }
      assert req.iov[..|req.iov|] == req.iov;
    }

    method FindEnd(queue: seq<Ix>, off: int) returns (found: bool)
      requires elems.Length == MAX_REQS
      ensures found == EndsAt(elems[..], queue, off)
    {
      for i := 0 to |queue|
        invariant forall k :: 0 <= k < i ==> elems[queue[k]].block != off
      {
        if elems[queue[i]].block == off {
          assert queue[i] in queue;
          return true;
        }
      }
      return false;
    }

    /** Take the first runnable element for worker `t`, if there is one. */
    method Dequeue(t: nat) returns (be: Option<Ix>)
      requires Valid()
      modifies this, elems
      ensures Valid()
      ensures View() == Dequeued(old(View()), t)
      ensures be == FirstPend(old(elems[..]), old(pendq))
    {
      hide BlockedHaveCause;
      ghost var q := View();
      DequeueKeepsInv(q, t);
      var i := 0;
      while i < |pendq| && elems[pendq[i]].status != Pend
        invariant 0 <= i <= |pendq| && View() == q
        invariant FirstPend(q.elems, pendq) == FirstPend(q.elems, pendq[i..])
        invariant forall k :: 0 <= k < i ==> elems[pendq[k]].status != Pend
      {
        assert Placed(q, pendq[i]) && elems[pendq[i]].status == Block;
        assert pendq[i..][1..] == pendq[i + 1..];
        i := i + 1;
      }
      if i == |pendq| { return None; }
      var e := pendq[i];
      pendq := pendq[..i] + pendq[i + 1..];
      elems[e] := elems[e].(status := Busy, tid := t);
      busyq := busyq + [e];
      assert i == IndexOf(q.pend, e);
      assert elems[..] == q.elems[e := elems[e]];
      return Some(e);
    }

    /** Retire an element and release every pending element that starts where it ends. */
    method Complete(e: Ix)
      requires Valid() && (e in pendq || e in busyq)
      modifies this, elems
      ensures Valid()
      ensures View() == Completed(old(View()), e)
    {
      hide BlockedHaveCause, Distinct;
      ghost var q := View();
      CompleteKeepsInv(q, e);
      assert Placed(q, e);
      if elems[e].status == Done || elems[e].status == Busy {
        busyq := Remove(busyq, e);
      } else {
        pendq := Remove(pendq, e);
      }
      ghost var done := Completed(q, e);
      assert pendq == done.pend && busyq == done.busy;
      forall i | i in pendq ensures elems[i].req.Some? { assert Placed(done, i); }
      Release(elems[e].block);
      assert elems[..] == Unblocked(q.elems, done.pend, q.elems[e].block);
      elems[e] := elems[e].(tid := 0, status := Free, req := None);
      freeq := freeq + [e];
      assert elems[..] == done.elems;
    }

    /** Make every pending element that starts at `end` runnable. */
    method Release(end: int)
      requires elems.Length == MAX_REQS
      requires forall i :: i in pendq ==> elems[i].req.Some?
      modifies elems
      ensures elems[..] == Unblocked(old(elems[..]), pendq, end)
    {
      ghost var was := elems[..];
      for i := 0 to |pendq|
        invariant elems[..] == Unblocked(was, pendq[..i], end)
      {
        assert pendq[i] in pendq;
        assert pendq[..i + 1] == pendq[..i] + [pendq[i]];
        if elems[pendq[i]].req.value.offset == end {
          elems[pendq[i]] := elems[pendq[i]].(status := Pend);
        }
      }
      assert pendq[..|pendq|] == pendq;
    }
  }
}
