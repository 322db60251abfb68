/** NVMe completion posting with the phase tag (pci_nvme.c, NVM Express 1.3 section 4.6). */
module NvmeQueue {

  /** What a completion says, apart from the phase tag. */
  datatype Payload = Payload(cdw0: nat, sqid: nat, sqhd: nat, cid: nat, status: nat)

  datatype Entry = Entry(payload: Payload, phase: bool)

  /** The ring in guest memory and the device's tail. */
  datatype Ring = Ring(slots: seq<Entry>, tail: nat)

  /** pci_nvme_set_completion: overwrite the slot, toggle its phase, advance the tail. */
  function Posted(r: Ring, p: Payload): Ring
    requires r.tail < |r.slots|
  {
    Ring(r.slots[r.tail := Entry(p, !r.slots[r.tail].phase)], if r.tail + 1 == |r.slots| then 0 else r.tail + 1)
  }

  /** A position in the endless stream of completions: how many whole turns, and the slot. */
  datatype Pos = Pos(turn: nat, slot: nat)

  /** Completions in `turns` whole turns of an `n`-slot ring. */
  function Turns(turns: nat, n: nat): nat { if turns == 0 then 0 else Turns(turns - 1, n) + n }

  function Index(p: Pos, n: nat): nat { Turns(p.turn, n) + p.slot }

  function NextPos(p: Pos, n: nat): Pos {
    if p.slot + 1 == n then Pos(p.turn + 1, 0) else Pos(p.turn, p.slot + 1)
  }

  lemma {:induction false} NextIndex(p: Pos, n: nat)
    ensures Index(NextPos(p, n), n) == Index(p, n) + 1
  {
  }

  /** How often slot `i` has been written when the next write goes to `tail`. */
  function Writes(tail: Pos, i: nat): nat {
    if i < tail.slot then tail.turn + 1 else tail.turn
  }

  /** Slot `i` shows its last write, and its phase is the parity of the number of its writes. */
  ghost predicate SlotOk(slots: seq<Entry>, tail: Pos, posted: seq<Payload>, i: nat)
    requires i < |slots|
  {
    var w := Writes(tail, i);
    && slots[i].phase == (w % 2 == 1)
    && (w > 0 ==> var k := Index(Pos(w - 1, i), |slots|); k < |posted| && slots[i].payload == posted[k])
  }

  ghost predicate Inv(r: Ring, tail: Pos, posted: seq<Payload>) {
    && r.tail == tail.slot < |r.slots|
    && |posted| == Index(tail, |r.slots|)
    && forall i :: 0 <= i < |r.slots| ==> SlotOk(r.slots, tail, posted, i)
  }

  /** A zeroed queue. */
  lemma {:induction false} ZeroedQueue(r: Ring)
    requires r.tail == 0 && 0 < |r.slots| && forall i :: 0 <= i < |r.slots| ==> !r.slots[i].phase
    ensures Inv(r, Pos(0, 0), [])
  {
  }

  lemma {:induction false} PostKeepsInv(r: Ring, tail: Pos, posted: seq<Payload>, p: Payload)
    requires Inv(r, tail, posted)
    ensures Inv(Posted(r, p), NextPos(tail, |r.slots|), posted + [p])
  {
    var n, r' := |r.slots|, Posted(r, p);
    var tail', posted' := NextPos(tail, n), posted + [p];
    NextIndex(tail, n);
    hide Index;
    forall i | 0 <= i < n ensures SlotOk(r'.slots, tail', posted', i) {
      assert SlotOk(r.slots, tail, posted, i);
      assert Writes(tail', i) == Writes(tail, i) + if i == tail.slot then 1 else 0;
    }
  }

  // ---- The consumer ----

  /** The driver's head and the phase it expects there: it flips on every wrap. */
  datatype Consumer = Consumer(head: nat, phase: bool)

  /** A new completion is present when the slot at the head carries the expected phase. */
  predicate Ready(r: Ring, c: Consumer)
    requires c.head < |r.slots|
  {
    r.slots[c.head].phase == c.phase
  }

  function Consumed(c: Consumer, n: nat): Consumer {
    if c.head + 1 == n then Consumer(0, !c.phase) else Consumer(c.head + 1, c.phase)
  }

  /** The consumer has read up to `at`, on the phase of that turn. */
  predicate ReadUpTo(c: Consumer, at: Pos) {
    c.head == at.slot && c.phase == (at.turn % 2 == 0)
  }

  /** Not overrun: at most one ring of completions is unread. */
  predicate NotOverrun(at: Pos, tail: Pos, n: nat) {
    Index(at, n) <= Index(tail, n) <= Index(at, n) + n
  }

  /** The phase tells exactly whether a completion is unread, and the one at the head is the
      oldest unread one. */
  lemma {:induction false} PhaseTellsTruth(r: Ring, tail: Pos, posted: seq<Payload>, c: Consumer, at: Pos)
    requires Inv(r, tail, posted) && ReadUpTo(c, at) && at.slot < |r.slots|
    requires NotOverrun(at, tail, |r.slots|)
    ensures Ready(r, c) <==> Index(at, |r.slots|) < |posted|
    ensures Ready(r, c) ==> r.slots[c.head].payload == posted[Index(at, |r.slots|)]
  {
    var n := |r.slots|;
    assert SlotOk(r.slots, tail, posted, at.slot);
    SameOrPreviousTurn(at, tail, n);
  }

  lemma {:induction false} SameOrPreviousTurn(at: Pos, tail: Pos, n: nat)
    requires at.slot < n && tail.slot < n && NotOverrun(at, tail, n)
    ensures (at.turn == tail.turn && at.slot <= tail.slot) || (at.turn + 1 == tail.turn && tail.slot <= at.slot)
    ensures Index(at, n) == Index(tail, n) <==> at == tail
  {
    assert Turns(at.turn + 1, n) == Turns(at.turn, n) + n;
    if at.turn > tail.turn {
      TurnGap(tail.turn, at.turn, n);
    } else if at.turn + 1 < tail.turn {
      TurnGap(at.turn + 1, tail.turn, n);
    }
  }

  lemma {:induction false} TurnGap(a: nat, b: nat, n: nat)
    requires a < b
    ensures Turns(a, n) + n <= Turns(b, n)
    decreases b
  {
    if a < b - 1 { TurnGap(a, b - 1, n); }
  }

  // ---- Runs of a device and a driver ----

  datatype Sys = Sys(ring: Ring, driver: Consumer, posted: seq<Payload>, seen: seq<Payload>)

  datatype Action = Post(p: Payload) | Poll

  function Step(s: Sys, a: Action): Sys
    requires s.ring.tail < |s.ring.slots| && s.driver.head < |s.ring.slots|
  {
    match a
    case Post(p) => s.(ring := Posted(s.ring, p), posted := s.posted + [p])
    case Poll =>
      if Ready(s.ring, s.driver)
      then s.(driver := Consumed(s.driver, |s.ring.slots|), seen := s.seen + [s.ring.slots[s.driver.head].payload])
      else s
  }

  ghost predicate SysInv(s: Sys, tail: Pos, at: Pos) {
    && Inv(s.ring, tail, s.posted)
    && ReadUpTo(s.driver, at) && at.slot < |s.ring.slots|
    && |s.seen| == Index(at, |s.ring.slots|)
    && s.seen <= s.posted
    && |s.posted| <= |s.seen| + |s.ring.slots|
  }

  /** Posting is safe while less than a whole ring is unread. */
  ghost predicate Next(s: Sys, a: Action, s': Sys) {
    && s.ring.tail < |s.ring.slots| && s.driver.head < |s.ring.slots|
    && (a.Post? ==> |s.posted| < |s.seen| + |s.ring.slots|)
    && s' == Step(s, a)
  }

  lemma {:induction false} StepKeepsInv(s: Sys, a: Action, tail: Pos, at: Pos) returns (tail': Pos, at': Pos)
    requires SysInv(s, tail, at)
    requires a.Post? ==> |s.posted| < |s.seen| + |s.ring.slots|
    ensures SysInv(Step(s, a), tail', at')
  {
    var n := |s.ring.slots|;
    tail', at' := tail, at;
    match a
    case Post(p) =>
      PostKeepsInv(s.ring, tail, s.posted, p);
      tail' := NextPos(tail, n);
    case Poll =>
      PhaseTellsTruth(s.ring, tail, s.posted, s.driver, at);
      if Ready(s.ring, s.driver) {
        at' := NextPos(at, n);
        NextIndex(at, n);
      }
  }

  /** A zeroed queue with a driver that expects phase 1 first. */
  ghost predicate Initial(s: Sys) {
    && s.ring.tail == 0 && 0 < |s.ring.slots| && (forall i :: 0 <= i < |s.ring.slots| ==> !s.ring.slots[i].phase)
    && s.driver == Consumer(0, true) && s.posted == [] && s.seen == []
  }

  /** A driver that tracks the phase and is never overrun has, at every moment of every run, read
      a prefix of what was posted, in order and each completion once; and it is offered another
      exactly when one is unread. */
  lemma {:induction false} DriverReadsEveryCompletionOnce(states: seq<Sys>, actions: seq<Action>, k: nat)
    returns (tail: Pos, at: Pos)
    requires |states| == |actions| + 1 && Initial(states[0]) && k < |states|
    requires forall j :: 0 <= j < |actions| ==> Next(states[j], actions[j], states[j + 1])
    ensures SysInv(states[k], tail, at)
    ensures states[k].seen <= states[k].posted
    ensures Ready(states[k].ring, states[k].driver) <==> |states[k].seen| < |states[k].posted|
  {
    if k == 0 {
      ZeroedQueue(states[0].ring);
      tail, at := Pos(0, 0), Pos(0, 0);
    } else {
      tail, at := DriverReadsEveryCompletionOnce(states, actions, k - 1);
      assert Next(states[k - 1], actions[k - 1], states[k]);
      tail, at := StepKeepsInv(states[k - 1], actions[k - 1], tail, at);
    }
    PhaseTellsTruth(states[k].ring, tail, states[k].posted, states[k].driver, at);
  }

  lemma {:induction false} TailWraps(slot: nat, n: nat)
    requires slot < n
    ensures (slot + 1) % n == if slot + 1 == n then 0 else slot + 1
  {
  }

  /** The queue in memory, written in place. */
  class CompletionQueue {
    const qbase: array<Entry>
    var tail: nat

    ghost function View(): Ring
      reads this, qbase
    {
      Ring(qbase[..], tail)
    }

    constructor (size: nat, blank: Payload)
      requires size > 0
      ensures fresh(qbase) && Inv(View(), Pos(0, 0), [])
    {
      qbase := new Entry[size](_ => Entry(blank, false));
      tail := 0;
      new;
      ZeroedQueue(View());
    }

    /** Post a completion. The status argument carries no phase; the slot's old phase decides it. */
    method SetCompletion(cdw0: nat, sqid: nat, sqhd: nat, cid: nat, status: nat)
      requires tail < qbase.Length
      modifies this, qbase
      ensures tail < qbase.Length
      ensures View() == Posted(old(View()), Payload(cdw0, sqid, sqhd, cid, status))
    {
      var phase := qbase[tail].phase;
      qbase[tail] := Entry(Payload(cdw0, sqid, sqhd, cid, status), !phase);
      TailWraps(tail, qbase.Length);
      tail := (tail + 1) % qbase.Length;
    }
  }
}
