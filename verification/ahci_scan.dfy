/** The scan of a port's issued command slots, ahci_handle_port (pci_ahci.c). */
module AhciScan {
  import opened Seqs
  import opened BlockIf
  import opened AhciSlots

  /** Device busy, or waiting for the guest to clear an error. */
  predicate Stopped(p: Port) { p.busy || p.wait }

  predicate AnyIssuable(p: Port)
    requires Sized(p)
  {
    exists s | 0 <= s < SLOTS :: Issuable(p, s)
  }

  predicate Halted(p: Port)
    requires Sized(p)
  {
    !AnyIssuable(p) || Stopped(p)
  }

  function NextSlot(s: nat): nat { if s == SLOTS - 1 then 0 else s + 1 }

  /** What each slot's command header asks for. */
  type Headers = h: seq<Outcome> | |h| == SLOTS witness seq(SLOTS, _ => Good)

  /** One turn of the loop: handle the current slot if it is issuable, then move on. */
  function Turn(p: Port, h: Headers): Port
    requires Sized(p) && p.freel != [] && p.freel[0] < REQS
  {
    var t := if Issuable(p, p.ccs) then HandleSlot(p, p.ccs, h[p.ccs]) else p;
    t.(ccs := NextSlot(p.ccs))
  }

  /** The command makes the scan stop: it leaves the device busy, or reports an error the guest must clear. */
  predicate Stops(p: Port, o: Outcome) { (o.Queued? && !o.ncq) || (o == Bad && p.receive) }

  /** Handling the slot leaves it issued, with nothing to stop the scan. */
  predicate Sticks(p: Port, o: Outcome) { o == NotH2D || (o == Bad && !p.receive) }

  /** Handling a slot keeps the accounts, whatever the command. */
  lemma {:induction false} HandleSlotKeeps(p: Port, s: nat, o: Outcome)
    requires Accounted(p) && Issuable(p, s)
    ensures p.freel != [] && p.freel[0] < |p.reqs| && Accounted(HandleSlot(p, s, o))
  {
    hide Accounted, AccountedBut, Issuable, HandleSlot;
    AccountedLists(p);
    FreeListSuffices(p, 0);
    FreeHead(p);
    HoleOfIssuable(p, s);
    if o.Queued? {
      QueuedKeeps(p, s, o);
    } else {
      AnsweredKeeps(p, s, o);
      RegistersKeepAccounts(p, HandleSlot(p, s, o), 0);
    }
  }

  lemma {:induction false} QueuedKeeps(p: Port, s: nat, o: Outcome)
    requires AccountedBut(p, s) && Sized(p) && s < SLOTS && o.Queued? && p.freel != [] && p.freel[0] < |p.reqs|
    ensures Accounted(HandleSlot(p, s, o))
  {
    hide Accounted, AccountedBut, HandleSlot, Take;
    var q := p.(busy := true);
    RegistersKeepAccounts(p, q, s);
    TakeFillsHole(q, Ioreq(s, o.more));
    QueuedTakes(p, s, o);
    RegistersKeepAccounts(Take(q, Ioreq(s, o.more)), HandleSlot(p, s, o), 0);
  }

  lemma {:induction false} HoleOfIssuable(p: Port, s: nat)
    requires Accounted(p) && Issuable(p, s)
    ensures AccountedBut(p, s) && s < SLOTS
  {
    HoleIfIdle(p, s);
  }

  lemma {:induction false} FreeHead(p: Port)
    requires ListsOk(p) && p.freel != []
    ensures p.freel[0] < REQS == |p.reqs|
  {
    assert OnOneList(p, p.freel[0]);
  }

  lemma {:induction false} TurnKeepsAccounts(p: Port, h: Headers)
    requires Accounted(p)
    ensures p.freel != [] && p.freel[0] < REQS && Accounted(Turn(p, h))
  {
    hide Accounted, HandleSlot, Issuable;
    AccountedLists(p);
    FreeListSuffices(p, 0);
    FreeHead(p);
    var t := p;
    if Issuable(p, p.ccs) {
      HandleSlotKeeps(p, p.ccs, h[p.ccs]);
      t := HandleSlot(p, p.ccs, h[p.ccs]);
      AccountedLists(t);
    }
    RegistersKeepAccounts(t, t.(ccs := NextSlot(p.ccs)), 0);
  }

  /** What handling a slot does to the bits the scan looks at. */
  lemma {:induction false} HandleEffect(p: Port, s: nat, o: Outcome)
    requires Sized(p) && Issuable(p, s) && !Stopped(p) && p.freel != [] && p.freel[0] < |p.reqs|
    ensures var t := HandleSlot(p, s, o);
      && |t.ci| == |t.pending| == SLOTS && t.receive == p.receive && t.started == p.started && t.ccs == p.ccs
      && (forall k :: 0 <= k < SLOTS && k != s ==> (Issuable(t, k) <==> Issuable(p, k)))
      && (Issuable(t, s) ==> Sticks(p, o) || Stops(p, o)) && (Sticks(p, o) ==> Issuable(t, s))
      && (Stopped(t) <==> Stops(p, o))
  {
    hide OnOneList, Distinct;
    match o
    case NotH2D =>
    case Control(_) =>
    case Good =>
    case Bad =>
    case Queued(_, _) =>
      var t := HandleSlot(p, s, o);
      assert t.pending == p.pending[s := true] && (t.ci == p.ci || t.ci == p.ci[s := false]);
  }

  /** A turn changes issuability of the current slot only. */
  lemma {:induction false} TurnEffect(p: Port, h: Headers)
    requires Accounted(p) && !Stopped(p)
    ensures Sized(p) && p.freel != [] && p.freel[0] < REQS
    ensures var t, s := Turn(p, h), p.ccs;
      && Sized(t) && t.receive == p.receive && t.started == p.started && t.ccs == NextSlot(s)
      && (forall k :: 0 <= k < SLOTS && k != s ==> (Issuable(t, k) <==> Issuable(p, k)))
      && (if Issuable(p, s) then
            && (Issuable(t, s) ==> Sticks(p, h[s]) || Stops(p, h[s])) && (Sticks(p, h[s]) ==> Issuable(t, s))
            && (Stopped(t) <==> Stops(p, h[s]))
          else !Issuable(t, s) && !Stopped(t))
  {
    hide Accounted, HandleSlot, OnOneList, Distinct;
    TurnKeepsAccounts(p, h);
    AccountedLists(p);
    AccountedLists(Turn(p, h));
    if Issuable(p, p.ccs) { HandleEffect(p, p.ccs, h[p.ccs]); }
  }

  // ---- When the scan ends ----

  ghost predicate StopAhead(p: Port, h: Headers)
    requires Sized(p)
  {
    exists s :: 0 <= s < SLOTS && Issuable(p, s) && Stops(p, h[s])
  }

  ghost predicate StickyAhead(p: Port, h: Headers)
    requires Sized(p)
  {
    exists s :: 0 <= s < SLOTS && Issuable(p, s) && Sticks(p, h[s])
  }

  /** The scan ends exactly when it has nothing to do, or meets a command that stops it, or has no
      issued slot that handling leaves issued. */
  ghost predicate Ends(p: Port, h: Headers)
    requires Sized(p)
  {
    Halted(p) || StopAhead(p, h) || !StickyAhead(p, h)
  }

  function Flags(p: Port): (r: seq<int>)
    requires Sized(p)
    ensures |r| == SLOTS && forall s :: 0 <= s < SLOTS ==> r[s] == if Issuable(p, s) then 1 else 0
  {
    seq(SLOTS, s requires 0 <= s < SLOTS => if Issuable(p, s) then 1 else 0)
  }

  /** How many slots are issuable. */
  function Count(p: Port): int
    requires Sized(p)
  {
    Sum(Flags(p))
  }

  /** How far ahead, in circular order, the slot `s` is. */
  function Ahead(ccs: nat, s: nat): nat
    requires ccs < SLOTS && s < SLOTS
  {
    if s >= ccs then s - ccs else s - ccs + SLOTS
  }

  /** Handling this slot gets the scan further. */
  predicate Settles(p: Port, h: Headers, s: nat)
    requires Sized(p) && s < SLOTS
  {
    Issuable(p, s) && !Sticks(p, h[s])
  }

  /** Distance to the nearest slot that handling settles, within `n` slots. */
  function Distance(p: Port, h: Headers, s: nat, n: nat): (d: nat)
    requires Sized(p) && s < SLOTS
    ensures d <= n
    decreases n
  {
    if n == 0 || Settles(p, h, s) then 0 else 1 + Distance(p, h, NextSlot(s), n - 1)
  }

  lemma {:induction false} DistanceBound(p: Port, h: Headers, s: nat, z: nat, n: nat)
    requires Sized(p) && s < SLOTS && z < SLOTS && Settles(p, h, z) && Ahead(s, z) <= n
    ensures Distance(p, h, s, n) <= Ahead(s, z)
    decreases n
  {
    if n > 0 && !Settles(p, h, s) { DistanceBound(p, h, NextSlot(s), z, n - 1); }
  }

  /** Looking further does not change what was found. */
  lemma {:induction false} DistanceFound(p: Port, h: Headers, s: nat, n: nat)
    requires Sized(p) && s < SLOTS && Distance(p, h, s, n) < n
    ensures Distance(p, h, s, n + 1) == Distance(p, h, s, n)
    decreases n
  {
    if !Settles(p, h, s) { DistanceFound(p, h, NextSlot(s), n - 1); }
  }

  ghost predicate SameIssuable(p: Port, t: Port)
    requires Sized(p) && Sized(t)
  {
    t.receive == p.receive && forall k :: 0 <= k < SLOTS ==> (Issuable(t, k) <==> Issuable(p, k))
  }

  lemma {:induction false} DistanceSame(p: Port, t: Port, h: Headers, s: nat, n: nat)
    requires Sized(p) && Sized(t) && SameIssuable(p, t) && s < SLOTS
    ensures Distance(t, h, s, n) == Distance(p, h, s, n)
    decreases n
  {
    if n > 0 { DistanceSame(p, t, h, NextSlot(s), n - 1); }
  }

  /** Passing a slot that settles nothing brings the next one that does closer. */
  lemma {:induction false} DistanceDrops(p: Port, t: Port, h: Headers, z: nat, n: nat)
    requires Sized(p) && Sized(t) && SameIssuable(p, t) && t.ccs == NextSlot(p.ccs) && SLOTS <= n
    requires z < SLOTS && Settles(p, h, z) && !Settles(p, h, p.ccs)
    ensures Distance(t, h, t.ccs, n) < Distance(p, h, p.ccs, n)
    ensures Count(t) == Count(p)
  {
    hide Flags, Sum, SameIssuable, Distance, Issuable;
    CountSame(p, t);
    DistanceUnfold(p, h, p.ccs, n);
    assert z != p.ccs;
    DistanceSame(p, t, h, t.ccs, n);
    DistanceBound(p, h, t.ccs, z, n - 1);
    DistanceFound(p, h, t.ccs, n - 1);
  }

  lemma {:induction false} DistanceUnfold(p: Port, h: Headers, s: nat, n: nat)
    requires Sized(p) && s < SLOTS && n > 0 && !Settles(p, h, s)
    ensures Distance(p, h, s, n) == 1 + Distance(p, h, NextSlot(s), n - 1)
  {
  }

  lemma {:induction false} CountSame(p: Port, t: Port)
    requires Sized(p) && Sized(t) && SameIssuable(p, t)
    ensures Count(t) == Count(p)
  {
    assert Flags(t) == Flags(p);
  }

  lemma {:induction false} CountDrops(p: Port, t: Port, s: nat)
    requires Sized(p) && Sized(t) && s < SLOTS && Issuable(p, s) && !Issuable(t, s)
    requires forall k :: 0 <= k < SLOTS && k != s ==> (Issuable(t, k) <==> Issuable(p, k))
    ensures Count(t) == Count(p) - 1
  {
    assert Flags(t) == Flags(p)[s := 0];
    SumUpdate(Flags(p), s, 0);
  }

  /** While the scan has to end and has not, some issuable slot settles. */
  lemma {:induction false} SomethingSettles(p: Port, h: Headers) returns (z: nat)
    requires Sized(p) && !Halted(p) && Ends(p, h)
    ensures z < SLOTS && Settles(p, h, z) && (StopAhead(p, h) ==> Stops(p, h[z]))
  {
    if StopAhead(p, h) {
      z :| z < SLOTS && Issuable(p, z) && Stops(p, h[z]);
    } else {
      z :| z < SLOTS && Issuable(p, z);
    }
  }

  /** Each turn halts the scan, or settles a slot, or gets closer to one: the measure is the number of
      issuable slots, then the distance to the next one that settles. */
  lemma {:induction false} TurnProgress(p: Port, h: Headers)
    requires Accounted(p) && !Halted(p) && Ends(p, h)
    ensures p.freel != [] && p.freel[0] < REQS && Sized(Turn(p, h))
    ensures var t := Turn(p, h);
      || Halted(t)
      || (Ends(t, h) && (|| Count(t) < Count(p)
                         || (Count(t) == Count(p)
                             && Distance(t, h, t.ccs, SLOTS) < Distance(p, h, p.ccs, SLOTS))))
  {
    hide Accounted, Turn, Distance, Count, Flags;
    AccountedLists(p);
    TurnEffect(p, h);
    var t, s := Turn(p, h), p.ccs;
    var z := SomethingSettles(p, h);
    CcsInRange(p);
    if Settles(p, h, s) {
      if !Stops(p, h[s]) {
        CountDrops(p, t, s);
        EndsAfter(p, t, h, s);
      }
    } else {
      assert SameIssuable(p, t);
      DistanceDrops(p, t, h, z, SLOTS);
      EndsSame(p, t, h);
    }
  }

  lemma {:induction false} CcsInRange(p: Port)
    requires Sized(p)
    ensures p.ccs < SLOTS
  {
  }

  lemma {:induction false} EndsAfter(p: Port, t: Port, h: Headers, s: nat)
    requires Sized(p) && Sized(t) && t.receive == p.receive && s < SLOTS && Issuable(p, s) && !Issuable(t, s)
    requires forall k :: 0 <= k < SLOTS && k != s ==> (Issuable(t, k) <==> Issuable(p, k))
    requires Ends(p, h) && !Halted(p) && !Stops(p, h[s])
    ensures Ends(t, h)
  {
    if StopAhead(p, h) {
      var z :| 0 <= z < SLOTS && Issuable(p, z) && Stops(p, h[z]);
      assert Issuable(t, z) && Stops(t, h[z]);
    }
  }

  lemma {:induction false} EndsSame(p: Port, t: Port, h: Headers)
    requires Sized(p) && Sized(t) && SameIssuable(p, t)
    ensures StopAhead(p, h) <==> StopAhead(t, h)
    ensures StickyAhead(p, h) <==> StickyAhead(t, h)
  {
    assert forall s :: 0 <= s < SLOTS ==> (Issuable(p, s) && Stops(p, h[s]) <==> Issuable(t, s) && Stops(t, h[s]));
    assert forall s :: 0 <= s < SLOTS ==> (Issuable(p, s) && Sticks(p, h[s]) <==> Issuable(t, s) && Sticks(t, h[s]));
  }

  /** A scan that cannot end stays that way. */
  lemma {:induction false} TurnStaysStuck(p: Port, h: Headers)
    requires Accounted(p) && !Ends(p, h)
    ensures p.freel != [] && p.freel[0] < REQS && Sized(Turn(p, h)) && !Ends(Turn(p, h), h)
  {
    hide Accounted, Turn;
    TurnEffect(p, h);
    CcsInRange(p);
    var t, s := Turn(p, h), p.ccs;
    var z :| 0 <= z < SLOTS && Issuable(p, z) && Sticks(p, h[z]);
    assert Issuable(t, z) && Sticks(t, h[z]);
    assert !Stopped(t);
    forall k | 0 <= k < SLOTS && Issuable(t, k) ensures !Stops(t, h[k]) {
      assert Issuable(p, k);
    }
  }

  // ---- The whole scan ----

  /** The port after at most `n` turns. */
  ghost function Scan(p: Port, h: Headers, n: nat): Port
    requires Accounted(p)
    decreases n
  {
    AccountedLists(p);
    if n == 0 || Halted(p) then p
    else
      TurnKeepsAccounts(p, h);
      Scan(Turn(p, h), h, n - 1)
  }

  ghost predicate HaltedAfter(p: Port, h: Headers, n: nat)
    requires Accounted(p)
  {
    Sized(Scan(p, h, n)) && Halted(Scan(p, h, n))
  }

  lemma {:induction false} EndsWithin(p: Port, h: Headers) returns (n: nat)
    requires Accounted(p) && Ends(p, h)
    ensures HaltedAfter(p, h, n)
    decreases if Halted(p) then 0 else 1, Count(p), Distance(p, h, p.ccs, SLOTS)
  {
    hide Accounted, Turn, Ends, Distance, Count;
    AccountedLists(p);
    if Halted(p) {
      n := 0;
    } else {
      TurnProgress(p, h);
      TurnKeepsAccounts(p, h);
      CountIsNatural(p);
      if Halted(Turn(p, h)) { EndsIfHalted(Turn(p, h), h); }
      var m := EndsWithin(Turn(p, h), h);
      n := m + 1;
    }
  }

  lemma {:induction false} EndsIfHalted(p: Port, h: Headers)
    requires Sized(p) && Halted(p)
    ensures Ends(p, h)
  {
  }

  lemma {:induction false} CountIsNatural(p: Port)
    requires Sized(p)
    ensures Count(p) >= 0
  {
    SumNonNegative(Flags(p));
  }

  lemma {:induction false} NeverEnds(p: Port, h: Headers, n: nat)
    requires Accounted(p) && !Ends(p, h)
    ensures !HaltedAfter(p, h, n)
    decreases n
  {
    hide Accounted, Turn, StopAhead, StickyAhead;
    AccountedLists(p);
    if n > 0 {
      TurnStaysStuck(p, h);
      TurnKeepsAccounts(p, h);
      NeverEnds(Turn(p, h), h, n - 1);
    }
  }

  /** The scan of a port reaches an end exactly under the condition `Ends`. */
  lemma {:induction false} ScanEndsExactly(p: Port, h: Headers)
    requires Accounted(p)
    ensures Ends(p, h) <==> exists n: nat :: HaltedAfter(p, h, n)
  {
    hide Accounted, Ends, HaltedAfter;
    AccountedLists(p);
    if Ends(p, h) {
      var n := EndsWithin(p, h);
    } else {
      forall n: nat ensures !HaltedAfter(p, h, n) { NeverEnds(p, h, n); }
    }
  }

  /** A started port with nothing in flight, FIS receive on, and slot `s` issued. */
  function OneIssued(s: nat): Port {
    Port(seq(SLOTS, k => k == s), seq(SLOTS, _ => false), seq(SLOTS, _ => false),
         false, false, false, true, true, false, 0,
         seq(REQS, _ => Ioreq(0, false)), seq(REQS, i => i), [])
  }

  lemma {:induction false} OneIssuedAccounted(s: nat)
    ensures Accounted(OneIssued(s)) && Sized(OneIssued(s)) && !Stopped(OneIssued(s))
  {
    var p := OneIssued(s);
    forall i: nat ensures OnOneList(p, i) && ServesOwnSlot(p, i) {
      assert i < REQS ==> p.freel[i] == i;
    }
  }

  /** Without a host-to-device FIS in that slot the scan runs for ever. */
  lemma {:induction false} OneBadHeaderNeverEnds(s: nat, h: Headers, n: nat)
    requires s < SLOTS && h[s] == NotH2D
    ensures Accounted(OneIssued(s)) && !HaltedAfter(OneIssued(s), h, n)
  {
    hide Accounted, HaltedAfter;
    var p := OneIssued(s);
    OneIssuedAccounted(s);
    assert Issuable(p, s) && Sticks(p, h[s]);
    assert forall k :: 0 <= k < SLOTS && k != s ==> !Issuable(p, k);
    NeverEnds(p, h, n);
  }

  /** With FIS receive on and a host-to-device FIS in every issued slot it always ends. */
  lemma {:induction false} ReceivingPortsEnd(p: Port, h: Headers)
    requires Sized(p) && p.receive && forall s :: 0 <= s < SLOTS && Issuable(p, s) ==> h[s] != NotH2D
    ensures Ends(p, h)
  {
  }

  lemma {:induction false} ScanOneMore(p: Port, h: Headers, n: nat)
    requires Accounted(p) && !HaltedAfter(p, h, n)
    ensures var q := Scan(p, h, n);
      Accounted(q) && Sized(q) && q.freel != [] && q.freel[0] < REQS && Scan(p, h, n + 1) == Turn(q, h)
    decreases n
  {
    hide Accounted, Turn;
    AccountedLists(p);
    TurnKeepsAccounts(p, h);
    AccountedLists(Turn(p, h));
    if n > 0 { ScanOneMore(Turn(p, h), h, n - 1); }
  }

  /** The body of the loop. */
  method OneTurn(p0: Port, h: Headers) returns (p: Port)
    requires Sized(p0) && p0.freel != [] && p0.freel[0] < REQS
    ensures p == Turn(p0, h)
  {
    hide HandleSlot;
    p := p0;
    if Issuable(p, p.ccs) { p := HandleSlot(p, p.ccs, h[p.ccs]); }
    p := p.(ccs := NextSlot(p0.ccs));
  }

  method ScanSlots(p0: Port, h: Headers) returns (p: Port)
    requires Accounted(p0) && Sized(p0) && Ends(p0, h)
    ensures Accounted(p) && Sized(p) && Halted(p) && exists n: nat :: p == Scan(p0, h, n)
  {
    hide Accounted, Ends, Turn, Distance, Count, HandleSlot;
    p := p0;
    ghost var n: nat := 0;
    while AnyIssuable(p) && !p.busy && !p.wait
      invariant Accounted(p) && Sized(p) && Ends(p, h) && p == Scan(p0, h, n)
      decreases if Halted(p) then 0 else 1, Count(p), Distance(p, h, p.ccs, SLOTS)
    {
      TurnProgress(p, h);
      TurnKeepsAccounts(p, h);
      CountIsNatural(p);
      if Halted(Turn(p, h)) { EndsIfHalted(Turn(p, h), h); }
      ScanOneMore(p0, h, n);
      p := OneTurn(p, h);
      n := n + 1;
    }
  }
}
