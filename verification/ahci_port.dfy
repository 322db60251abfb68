/** The controller's routines on one port: the scan, stopping it, and the end of a request (pci_ahci.c). */
module AhciPort {
  import opened Seqs
  import opened BlockIf
  import opened AhciSlots
  import AhciScan

  /** The requests of `list` that were not cancelled. */
  function NotCancelled(list: seq<nat>, answers: seq<bool>): (r: seq<nat>)
    ensures forall i: nat :: i in r <==> i in list && !(i < |answers| && answers[i])
  {
    if list == [] then []
    else
      var rest := NotCancelled(list[..|list| - 1], answers);
      var i := list[|list| - 1];
      if i < |answers| && answers[i] then rest else rest + [i]
  }

  lemma {:induction false} NotCancelledStep(list: seq<nat>, answers: seq<bool>, k: nat)
    requires k < |list|
    ensures list[k..] == [list[k]] + list[k + 1..] && list[..k + 1] == list[..k] + [list[k]]
    ensures var i := list[k];
      NotCancelled(list[..k + 1], answers) ==
        if i < |answers| && answers[i] then NotCancelled(list[..k], answers) else NotCancelled(list[..k], answers) + [i]
  {
    assert list[..k + 1][..k] == list[..k];
  }

  lemma {:induction false} NotCancelledNone(answers: seq<bool>)
    ensures NotCancelled([], answers) == []
  {
  }

  lemma {:induction false} BusyInRange(p: Port)
    requires Accounted(p)
    ensures forall i: nat :: i in p.busyl ==> i < REQS
  {
    forall i: nat | i in p.busyl ensures i < REQS { BusySlot(p, i); }
  }

  lemma {:induction false} RemoveAt<T>(s: seq<T>, k: nat)
    requires Distinct(s) && k < |s|
    ensures Remove(s, s[k]) == s[..k] + s[k + 1..]
  {
    assert IndexOf(s, s[k]) == k;
  }

  lemma {:induction false} RemoveMiddle<T>(a: seq<T>, x: T, b: seq<T>)
    requires Distinct(a + [x] + b)
    ensures Remove(a + [x] + b, x) == a + b
  {
    var s := a + [x] + b;
    assert s[|a|] == x;
    RemoveAt(s, |a|);
  }

  /** Nothing is busy, so nothing is marked in flight. */
  lemma {:induction false} NothingInFlight(p: Port)
    requires Accounted(p) && p.busyl == []
    ensures forall s :: 0 <= s < SLOTS ==> !p.pending[s]
  {
    forall s | 0 <= s < SLOTS ensures !p.pending[s] {
      assert !Served(p, s);
    }
  }

  lemma {:induction false} CheckStoppedAccounts(p: Port)
    requires Accounted(p)
    ensures Accounted(CheckStopped(p)) && CheckStopped(p).busyl == p.busyl
  {
    RegistersKeepAccounts(p, CheckStopped(p), 0);
  }

  // ---- What stopping does to the registers ----

  /** A cancelled request of the list served slot `s` with a command of this kind. */
  ghost predicate Dropped(p: Port, list: seq<nat>, answers: seq<bool>, queued: seq<bool>, s: nat, ncq: bool) {
    exists i: nat :: i in list && i < |answers| && answers[i] && i < |queued| && queued[i] == ncq && SlotOf(p, i) == s
  }

  /** After the requests of `list`: a slot whose native queued command was cancelled is no longer active,
      one whose other command was is no longer issued, neither is in flight; nothing else changed. */
  ghost predicate BitsAfter(p: Port, t: Port, list: seq<nat>, answers: seq<bool>, queued: seq<bool>)
    requires Sized(p) && Sized(t)
  {
    && t == p.(ci := t.ci, sact := t.sact, pending := t.pending, busyl := t.busyl, freel := t.freel)
    && forall s :: 0 <= s < SLOTS ==> BitAfter(p, t, s, Dropped(p, list, answers, queued, s, false),
                                               Dropped(p, list, answers, queued, s, true))
  }

  predicate BitAfter(p: Port, t: Port, s: nat, issued: bool, active: bool)
    requires Sized(p) && Sized(t) && s < SLOTS
  {
    && t.ci[s] == (p.ci[s] && !issued) && t.sact[s] == (p.sact[s] && !active)
    && t.pending[s] == (p.pending[s] && !issued && !active)
  }

  lemma {:induction false} BitsStart(p: Port, answers: seq<bool>, queued: seq<bool>)
    requires Sized(p)
    ensures BitsAfter(p, p, [], answers, queued)
  {
  }

  /** Request `i` served slot `s` with this kind of command, and was cancelled. */
  predicate DropsSlot(p: Port, i: nat, answers: seq<bool>, queued: seq<bool>, s: nat, ncq: bool)
    requires i < |answers| && i < |queued|
  {
    answers[i] && queued[i] == ncq && SlotOf(p, i) == s
  }

  lemma {:induction false} DroppedPush(p: Port, list: seq<nat>, i: nat, answers: seq<bool>, queued: seq<bool>,
                                       s: nat, ncq: bool)
    requires i < |answers| && i < |queued|
    ensures Dropped(p, list + [i], answers, queued, s, ncq)
            <==> Dropped(p, list, answers, queued, s, ncq) || DropsSlot(p, i, answers, queued, s, ncq)
  {
    if Dropped(p, list, answers, queued, s, ncq) {
      var j: nat :| j in list && j < |answers| && answers[j] && j < |queued| && queued[j] == ncq && SlotOf(p, j) == s;
      assert j in list + [i];
    }
    assert i in list + [i];
  }

  /** One more request: forgotten if it was cancelled. */
  lemma {:induction false} BitsStep(p: Port, t: Port, list: seq<nat>, i: nat, answers: seq<bool>, queued: seq<bool>)
    requires Sized(p) && Sized(t) && BitsAfter(p, t, list, answers, queued)
    requires i < |answers| && i < |queued| && i < |p.reqs| && SlotOf(p, i) < SLOTS
    ensures var r := if answers[i] then Forgotten(Retire(t, i), SlotOf(p, i), queued[i]) else t;
      Sized(r) && BitsAfter(p, r, list + [i], answers, queued)
  {
    hide Dropped, Remove, BitAfter;
    var r := if answers[i] then Forgotten(Retire(t, i), SlotOf(p, i), queued[i]) else t;
    forall s | 0 <= s < SLOTS
      ensures BitAfter(p, r, s, Dropped(p, list + [i], answers, queued, s, false),
                       Dropped(p, list + [i], answers, queued, s, true))
    {
      DroppedPush(p, list, i, answers, queued, s, false);
      DroppedPush(p, list, i, answers, queued, s, true);
      BitStep(p, t, i, SlotOf(p, i), answers[i], queued[i], s, Dropped(p, list, answers, queued, s, false),
              Dropped(p, list, answers, queued, s, true));
    }
  }

  lemma {:induction false} BitStep(p: Port, t: Port, i: nat, at: nat, cancelled: bool, ncq: bool, s: nat,
                                   issued: bool, active: bool)
    requires Sized(p) && Sized(t) && s < SLOTS && at < SLOTS && BitAfter(p, t, s, issued, active)
    ensures var r := if cancelled then Forgotten(Retire(t, i), at, ncq) else t;
      Sized(r) && BitAfter(p, r, s, issued || (cancelled && !ncq && at == s), active || (cancelled && ncq && at == s))
  {
    hide Remove;
    if cancelled {
      ForgottenBits(t, i, at, ncq, s);
    }
  }

  lemma {:induction false} ForgottenBits(t: Port, i: nat, at: nat, ncq: bool, s: nat)
    requires Sized(t) && s < SLOTS && at < SLOTS
    ensures var r := Forgotten(Retire(t, i), at, ncq);
      Sized(r) && BitAfter(t, r, s, !ncq && at == s, ncq && at == s)
  {
    hide Remove;
    ClearBit(if ncq then t.sact else t.ci, at, s);
    ClearBit(t.pending, at, s);
  }

  lemma {:induction false} ClearBit(b: seq<bool>, at: nat, s: nat)
    requires at < |b| && s < |b|
    ensures b[at := false][s] == (b[s] && at != s)
  {
  }

  /** While a request is in flight, or the port is started, nothing else is forgotten. */
  lemma {:induction false} CheckStoppedKeeps(p: Port)
    requires Accounted(p) && (p.started || p.busyl != [])
    ensures CheckStopped(p) == p
  {
    if p.busyl != [] { assert p.busyl[0] in p.busyl && ServesOwnSlot(p, p.busyl[0]); }
  }

  /** The end of a command for slot `s`: a natively queued one leaves the active bits, another the issued
      bits, and an erroneous one neither; the error bit tells, and the port waits if it could report it. */
  ghost predicate Ended(p: Port, t: Port, s: nat, ncq: bool, err: bool)
    requires Sized(p) && Sized(t)
  {
    && t.error == err && t.busy == (ncq && p.busy)
    && (forall k :: 0 <= k < SLOTS ==> t.pending[k] == (p.pending[k] && k != s))
    && if !p.started && (forall k :: 0 <= k < SLOTS ==> !t.pending[k]) then Cleared(t)
       else
         && t.wait == (p.wait || (err && p.receive))
         && forall k :: 0 <= k < SLOTS ==>
              && t.ci[k] == (p.ci[k] && !(k == s && !ncq && !err))
              && t.sact[k] == (p.sact[k] && !(k == s && ncq && !err))
  }

  lemma {:induction false} FinishedEnds(p: Port, s: nat, ncq: bool, err: bool)
    requires s < SLOTS && Sized(p)
    ensures var t := Finished(p, s, ncq, err);
      Sized(t) && Ended(p, t, s, ncq, err) && t.started == p.started && t.busyl == p.busyl
  {
  }

  /** The request's own list does not matter to the registers. */
  lemma {:induction false} EndedRetired(p: Port, i: nat, t: Port, s: nat, ncq: bool, err: bool)
    requires Sized(p) && Sized(t) && Sized(Retire(p, i)) && Ended(Retire(p, i), t, s, ncq, err)
    ensures Ended(p, t, s, ncq, err)
  {
    hide Remove;
  }

  lemma {:induction false} CheckStoppedClears(p: Port)
    requires Accounted(p)
    ensures CheckStopped(p).started == p.started
    ensures Sized(p) && (!p.started && (forall s :: 0 <= s < SLOTS ==> !p.pending[s]) ==> Cleared(CheckStopped(p)))
  {
  }

  predicate Cleared(p: Port) {
    Sized(p) && p.ccs == 0 && !p.wait && forall s :: 0 <= s < SLOTS ==> !p.ci[s] && !p.sact[s] && !p.pending[s]
  }

  class Device {
    var p: Port

    ghost predicate Valid()
      reads this
    {
      Accounted(p)
    }

    /** ahci_handle_port. */
    method HandlePort(h: AhciScan.Headers)
      requires Valid() && Sized(p) && (p.started ==> AhciScan.Ends(p, h))
      modifies this
      ensures Valid() && Sized(p)
      ensures if old(p.started) then AhciScan.Halted(p) && exists n: nat :: p == old(AhciScan.Scan(p, h, n))
              else p == old(p)
    {
      if !p.started { return; }
      p := AhciScan.ScanSlots(p, h);
    }

    /** ahci_port_stop: cancel what can be cancelled. `answers` says which cancellations succeed and
        `queued` which commands the FIS in guest memory calls natively queued. */
    method Stop(answers: seq<bool>, queued: seq<bool>)
      requires Valid() && |answers| == REQS && |queued| == REQS
      modifies this
      ensures Valid() && p.started == old(p.started) && Sized(p) && Sized(old(p))
      ensures p.busyl == NotCancelled(old(p.busyl), answers)
      ensures p.busyl == [] && !p.started ==> Cleared(p)
      ensures p.busyl != [] || p.started ==> BitsAfter(old(p), p, old(p.busyl), answers, queued)
    {
      hide Accounted, CheckStopped, BitsAfter;
      CancelAll(answers, queued);
      CheckStoppedAccounts(p);
      if p.busyl == [] { NothingInFlight(p); }
      CheckStoppedClears(p);
      if p.started || p.busyl != [] { CheckStoppedKeeps(p); }
      p := CheckStopped(p);
    }

    /** The loop over the busy list. */
    method CancelAll(answers: seq<bool>, queued: seq<bool>)
      requires Valid() && |answers| == REQS && |queued| == REQS
      modifies this
      ensures Valid() && p.started == old(p.started) && Sized(p) && Sized(old(p))
      ensures p.busyl == NotCancelled(old(p.busyl), answers)
      ensures BitsAfter(old(p), p, old(p.busyl), answers, queued)
    {
      hide Accounted, NotCancelled, BitsAfter, Forgotten, Retire;
      var list := p.busyl;
      ghost var p0 := p;
      AccountedLists(p);
      BusyInRange(p);
      NotCancelledNone(answers);
      BitsStart(p, answers, queued);
      for k := 0 to |list|
        invariant Valid() && Sized(p) && p.started == p0.started && p.reqs == p0.reqs
        invariant p.busyl == NotCancelled(list[..k], answers) + list[k..]
        invariant BitsAfter(p0, p, list[..k], answers, queued)
      {
        NotCancelledStep(list, answers, k);
        var i := list[k];
        assert i in list;
        BusySlot(p0, i);
        BitsStep(p0, p, list[..k], i, answers, queued);
        TryForget(i, answers[i], queued[i], NotCancelled(list[..k], answers), list[k + 1..]);
      }
      assert list[..|list|] == list;
    }

    method TryForget(i: nat, cancelled: bool, ncq: bool, ghost done: seq<nat>, ghost rest: seq<nat>)
      requires Valid() && p.busyl == done + ([i] + rest)
      modifies this
      ensures Valid() && Sized(p) && Sized(old(p)) && p.reqs == old(p.reqs) && p.started == old(p.started)
      ensures p.busyl == (if cancelled then done else done + [i]) + rest
      ensures SlotOf(p, i) < SLOTS
      ensures p == if cancelled then old(Forgotten(Retire(p, i), SlotOf(p, i), ncq)) else old(p)
    {
      hide Accounted;
      assert p.busyl == done + [i] + rest && p.busyl[|done|] == i;
      BusySlot(p, i);
      if cancelled {
        RemoveMiddle(done, i, rest);
        Forget(i, ncq);
      }
    }

    /** The bookkeeping for one cancelled request. */
    method Forget(i: nat, ncq: bool)
      requires Valid() && i in p.busyl
      modifies this
      ensures Valid() && Sized(p) && Sized(old(p)) && SlotOf(old(p), i) < SLOTS
      ensures p == old(Forgotten(Retire(p, i), SlotOf(p, i), ncq))
    {
      hide Accounted, AccountedBut;
      BusySlot(p, i);
      RetireLeavesHole(p, i);
      var s := p.reqs[i].slot;
      ForgottenAccounts(Retire(p, i), s, ncq);
      p := Forgotten(Retire(p, i), s, ncq);
      AccountedLists(p);
    }

    /** The port's half of ata_ioreq_cb for a command that is over; the scan that follows it is
        HandlePort. */
    method RequestOver(i: nat, ncq: bool, err: bool)
      requires Valid() && i in p.busyl
      modifies this
      ensures Valid() && p.busyl == old(Remove(p.busyl, i)) && p.started == old(p.started)
      ensures Sized(p) && Sized(old(p)) && SlotOf(old(p), i) < SLOTS
      ensures Ended(old(p), p, SlotOf(old(p), i), ncq, err)
    {
      hide Accounted, AccountedBut, Finished, Ended;
      BusySlot(p, i);
      RetireLeavesHole(p, i);
      var s := p.reqs[i].slot;
      var t := Retire(p, i);
      FinishedAccounts(t, s, ncq, err);
      AccountedLists(p);
      FinishedEnds(t, s, ncq, err);
      EndedRetired(p, i, Finished(t, s, ncq, err), s, ncq, err);
      p := Finished(t, s, ncq, err);
      AccountedLists(p);
    }
  }
}
