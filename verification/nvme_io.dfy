/** NVMe I/O commands from submission queue to completion (pci_nvme.c). */
module NvmeIo {
  import opened Seqs

  /** A command taken from a submission queue; `serial` is the number of commands taken before it, and
      tells apart commands that reuse an id. */
  datatype Cmd = Cmd(serial: nat, sqid: nat, cid: nat)

  datatype Status = Success | InvalidOpcode | InternalDeviceError | DataTransferError | LbaOutOfRange | Unspecified

  datatype Completion = Completion(cmd: Cmd, status: Status)

  /** What an I/O request structure is being used for. */
  datatype Req =
    | Free
    | Building(cmd: Cmd)
    | InBlock(cmd: Cmd)
    | Ranges(cmd: Cmd, cur: nat, count: nat)
    | Finished

  /** A deallocation started for range `k` of the `count` that a command names. */
  datatype Trim = Trim(cmd: Cmd, k: nat, count: nat)

  /** `taken`, `posted` and `trims` record the commands read from the queues, the completions written and
      the ranges of multi-range deallocations handed to the block layer. */
  datatype Io = Io(reqs: seq<Req>, free: seq<nat>, pending: int,
                   taken: seq<Cmd>, posted: seq<Completion>, trims: seq<Trim>)

  datatype Action =
    | TakeImmediate(cmd: Cmd, status: Status)
    | Get(cmd: Cmd)
    | Fail(r: nat, status: Status)
    | SubmitRw(r: nat)
    | SubmitRanges(r: nat, count: nat)
    | Callback(r: nat, err: bool, resubmitErr: bool)
    | Release(r: nat)

  // ---- Steps ----

  /** Flush, write-zeroes and RAM-backed commands complete as they are taken; the others first get
      a request, waiting on the semaphore while none is free. */
  predicate Enabled(s: Io, a: Action) {
    match a
    case TakeImmediate(cmd, status) => cmd.serial == |s.taken|
    case Get(cmd) => cmd.serial == |s.taken| && s.free != [] && s.free[0] < |s.reqs|
    case Fail(r, status) => r < |s.reqs| && s.reqs[r].Building?
    case SubmitRw(r) => r < |s.reqs| && s.reqs[r].Building?
    case SubmitRanges(r, count) => r < |s.reqs| && s.reqs[r].Building? && count > 0
    case Callback(r, err, resubmitErr) => r < |s.reqs| && (s.reqs[r].InBlock? || s.reqs[r].Ranges?)
    case Release(r) => r < |s.reqs| && s.reqs[r].Finished?
  }

  function Complete(s: Io, r: nat, status: Status): Io
    requires r < |s.reqs| && (s.reqs[r].Building? || s.reqs[r].InBlock? || s.reqs[r].Ranges?)
  {
    s.(reqs := s.reqs[r := Finished], posted := s.posted + [Completion(s.reqs[r].cmd, status)])
  }

  /** Hand range `k` to the block layer. */
  function StartRange(s: Io, r: nat, cmd: Cmd, k: nat, count: nat): Io
    requires r < |s.reqs|
  {
    s.(reqs := s.reqs[r := Ranges(cmd, k, count)], trims := s.trims + [Trim(cmd, k, count)])
  }

  /** pci_nvme_io_done and pci_nvme_dealloc_sm: a deallocation goes on to its next range, and completes
      after the last one or on the first error. */
  function CalledBack(s: Io, r: nat, err: bool, resubmitErr: bool): Io
    requires r < |s.reqs| && (s.reqs[r].InBlock? || s.reqs[r].Ranges?)
  {
    match s.reqs[r]
    case Ranges(cmd, cur, count) =>
      if err then Complete(s, r, InternalDeviceError)
      else if cur + 1 == count then Complete(s, r, Success)
      else if resubmitErr then Complete(s, r, InternalDeviceError)
      else StartRange(s, r, cmd, cur + 1, count)
    case _ => Complete(s, r, if err then DataTransferError else Success)
  }

  function GetReq(s: Io, cmd: Cmd): Io
    requires s.free != [] && s.free[0] < |s.reqs|
  {
    Io(s.reqs[s.free[0] := Building(cmd)], s.free[1..], s.pending + 1, s.taken + [cmd], s.posted, s.trims)
  }

  function ReleaseReq(s: Io, r: nat): Io
    requires r < |s.reqs|
  {
    s.(reqs := s.reqs[r := Free], free := s.free + [r], pending := s.pending - 1)
  }

  function Step(s: Io, a: Action): Io
    requires Enabled(s, a)
  {
    match a
    case TakeImmediate(cmd, status) =>
      s.(taken := s.taken + [cmd], posted := s.posted + [Completion(cmd, status)])
    case Get(cmd) => GetReq(s, cmd)
    case Fail(r, status) => Complete(s, r, status)
    case SubmitRw(r) => s.(reqs := s.reqs[r := InBlock(s.reqs[r].cmd)])
    case SubmitRanges(r, count) => StartRange(s, r, s.reqs[r].cmd, 0, count)
    case Callback(r, err, resubmitErr) => CalledBack(s, r, err, resubmitErr)
    case Release(r) => ReleaseReq(s, r)
  }

  // ---- Conservation ----

  /** The request still owes its command a completion. */
  predicate Owes(r: Req, cmd: Cmd) {
    (r.Building? || r.InBlock? || r.Ranges?) && r.cmd == cmd
  }

  function OwedFlags(reqs: seq<Req>, cmd: Cmd): (f: seq<int>)
    ensures |f| == |reqs|
  {
    seq(|reqs|, r requires 0 <= r < |reqs| => Indicator(Owes(reqs[r], cmd)))
  }

  function TakenCount(taken: seq<Cmd>, cmd: Cmd): nat {
    if taken == [] then 0 else TakenCount(taken[..|taken| - 1], cmd) + Indicator(taken[|taken| - 1] == cmd)
  }

  function PostedCount(posted: seq<Completion>, cmd: Cmd): nat {
    if posted == [] then 0 else PostedCount(posted[..|posted| - 1], cmd) + Indicator(posted[|posted| - 1].cmd == cmd)
  }

  function FreeFlags(reqs: seq<Req>): (f: seq<int>)
    ensures |f| == |reqs|
  {
    seq(|reqs|, r requires 0 <= r < |reqs| => Indicator(reqs[r].Free?))
  }

  /** Each command taken has been completed once or is owed one completion. */
  ghost predicate Balanced(s: Io, cmd: Cmd) {
    TakenCount(s.taken, cmd) == PostedCount(s.posted, cmd) + Sum(OwedFlags(s.reqs, cmd))
  }

  /** The free list holds exactly the free requests, and the pending count is the others. */
  ghost predicate PoolOk(s: Io) {
    && (forall i :: 0 <= i < |s.free| ==> s.free[i] < |s.reqs| && s.reqs[s.free[i]].Free?)
    && (forall i, j :: 0 <= i < j < |s.free| ==> s.free[i] != s.free[j])
    && |s.free| == Sum(FreeFlags(s.reqs))
    && s.pending + |s.free| == |s.reqs|
  }

  ghost predicate AllBalanced(s: Io) {
    forall cmd :: Balanced(s, cmd)
  }

  ghost predicate Inv(s: Io) {
    PoolOk(s) && AllBalanced(s) && forall cmd :: InOrder(s, cmd)
  }

  // ---- Ranges of a deallocation ----

  /** The ranges started for one command. */
  function TrimsOf(trims: seq<Trim>, cmd: Cmd): seq<Trim> {
    if trims == [] then []
    else
      var t, rest := trims[|trims| - 1], TrimsOf(trims[..|trims| - 1], cmd);
      if t.cmd == cmd then rest + [t] else rest
  }

  /** The first `k` of `count` ranges, once each and in order. */
  function FirstRanges(cmd: Cmd, count: nat, k: nat): (t: seq<Trim>)
    ensures |t| == k
  {
    seq(k, i requires 0 <= i < k => Trim(cmd, i, count))
  }

  /** All ranges of the command were started, once each and in order; it may not have any. */
  ghost predicate AllStarted(t: seq<Trim>, cmd: Cmd) {
    t == [] || exists n: nat :: n > 0 && t == FirstRanges(cmd, n, n)
  }

  /** A command in progress has started its ranges up to the current one; one that was completed
      successfully has started them all. */
  ghost predicate InOrder(s: Io, cmd: Cmd) {
    var t := TrimsOf(s.trims, cmd);
    && (forall r, q ::
          0 <= r < |s.reqs| && 0 <= q < |s.reqs| && Owes(s.reqs[r], cmd) && Owes(s.reqs[q], cmd) ==> r == q)
    && (forall r :: 0 <= r < |s.reqs| && Owes(s.reqs[r], cmd) ==>
          && cmd.serial < |s.taken| && cmd !in CompletedCmds(s.posted)
          && (if s.reqs[r].Ranges? then s.reqs[r].cur < s.reqs[r].count
                                        && t == FirstRanges(cmd, s.reqs[r].count, s.reqs[r].cur + 1)
              else t == []))
    && (cmd in CompletedCmds(s.posted) ==> cmd.serial < |s.taken|)
    && (cmd.serial >= |s.taken| ==> t == [])
    && (Completion(cmd, Success) in s.posted ==> AllStarted(t, cmd))
  }

  function CompletedCmds(posted: seq<Completion>): seq<Cmd> {
    seq(|posted|, i requires 0 <= i < |posted| => posted[i].cmd)
  }

  lemma {:induction false} TrimsPush(trims: seq<Trim>, t: Trim, cmd: Cmd)
    ensures TrimsOf(trims + [t], cmd) == if t.cmd == cmd then TrimsOf(trims, cmd) + [t] else TrimsOf(trims, cmd)
  {
    assert (trims + [t])[..|trims|] == trims;
  }

  lemma {:induction false} PostedPush(posted: seq<Completion>, c: Completion)
    ensures CompletedCmds(posted + [c]) == CompletedCmds(posted) + [c.cmd]
    ensures forall x :: x in CompletedCmds(posted + [c]) <==> x in CompletedCmds(posted) || x == c.cmd
    ensures forall x :: x in posted + [c] <==> x in posted || x == c
  {
  }

  lemma {:induction false} CompleteInOrder(s: Io, r: nat, status: Status, cmd: Cmd)
    requires r < |s.reqs| && (s.reqs[r].Building? || s.reqs[r].InBlock? || s.reqs[r].Ranges?)
    requires InOrder(s, cmd) && InOrder(s, s.reqs[r].cmd)
    requires s.reqs[r].Ranges? && status == Success ==> s.reqs[r].cur + 1 == s.reqs[r].count
    ensures InOrder(Complete(s, r, status), cmd)
  {
    hide TrimsOf, FirstRanges, CompletedCmds;
    PostedPush(s.posted, Completion(s.reqs[r].cmd, status));
    assert Owes(s.reqs[r], s.reqs[r].cmd);
  }

  /** The next range is the one after those started. */
  lemma {:induction false} StartInOrder(s: Io, r: nat, k: nat, count: nat, cmd: Cmd)
    requires r < |s.reqs| && k < count
    requires if k == 0 then s.reqs[r].Building?
             else s.reqs[r].Ranges? && s.reqs[r] == Ranges(s.reqs[r].cmd, k - 1, count)
    requires InOrder(s, cmd) && InOrder(s, s.reqs[r].cmd)
    ensures InOrder(StartRange(s, r, s.reqs[r].cmd, k, count), cmd)
  {
    hide TrimsOf, CompletedCmds, AllStarted;
    var c := s.reqs[r].cmd;
    assert Owes(s.reqs[r], c);
    TrimsPush(s.trims, Trim(c, k, count), cmd);
    assert FirstRanges(c, count, k + 1) == FirstRanges(c, count, k) + [Trim(c, k, count)];
    assert FirstRanges(c, count, 0) == [];
    CompletedIn(s.posted, c, Success);
  }

  lemma {:induction false} CompletedIn(posted: seq<Completion>, cmd: Cmd, status: Status)
    ensures Completion(cmd, status) in posted ==> cmd in CompletedCmds(posted)
  {
    if Completion(cmd, status) in posted {
      var i :| 0 <= i < |posted| && posted[i] == Completion(cmd, status);
      assert CompletedCmds(posted)[i] == cmd;
    }
  }

  lemma {:induction false} TakenInOrder(s: Io, taken: Cmd, cmd: Cmd)
    requires InOrder(s, cmd) && taken.serial == |s.taken|
    ensures InOrder(s.(taken := s.taken + [taken]), cmd)
  {
    hide TrimsOf, CompletedCmds, AllStarted, FirstRanges;
  }

  lemma {:induction false} StepInOrder(s: Io, a: Action, cmd: Cmd)
    requires (forall c :: InOrder(s, c)) && Enabled(s, a)
    ensures InOrder(Step(s, a), cmd)
  {
    hide TrimsOf, CompletedCmds, AllStarted, FirstRanges;
    assert InOrder(s, cmd);
    match a
    case TakeImmediate(c, status) =>
      TakenInOrder(s, c, cmd);
      PostedPush(s.posted, Completion(c, status));
      assert TrimsOf(s.trims, c) == [] by { assert InOrder(s, c); }
      NoneStarted(c);
    case Get(c) => TakenInOrder(s, c, cmd);
    case Fail(r, status) =>
      assert InOrder(s, s.reqs[r].cmd);
      CompleteInOrder(s, r, status, cmd);
    case SubmitRw(_) =>
    case SubmitRanges(r, count) =>
      assert InOrder(s, s.reqs[r].cmd);
      StartInOrder(s, r, 0, count, cmd);
    case Callback(r, err, resubmitErr) =>
      assert InOrder(s, s.reqs[r].cmd);
      CallbackInOrder(s, r, err, resubmitErr, cmd);
    case Release(_) =>
  }

  lemma {:induction false} NoneStarted(cmd: Cmd)
    ensures AllStarted([], cmd)
  {
  }

  lemma {:induction false} CallbackInOrder(s: Io, r: nat, err: bool, resubmitErr: bool, cmd: Cmd)
    requires r < |s.reqs| && (s.reqs[r].InBlock? || s.reqs[r].Ranges?)
    requires InOrder(s, cmd) && InOrder(s, s.reqs[r].cmd)
    ensures InOrder(CalledBack(s, r, err, resubmitErr), cmd)
  {
    hide TrimsOf, CompletedCmds, AllStarted, FirstRanges;
    assert Owes(s.reqs[r], s.reqs[r].cmd);
    var t := CalledBack(s, r, err, resubmitErr);
    if t.reqs[r].Finished? {
      hide InOrder;
      CompleteInOrder(s, r, t.posted[|s.posted|].status, cmd);
    } else {
      StartInOrder(s, r, s.reqs[r].cur + 1, s.reqs[r].count, cmd);
    }
  }

  /** A deallocation of several ranges that is reported successful has started every range, once each
      and in order. */
  lemma {:induction false} SuccessMeansAllRanges(s: Io, cmd: Cmd, t: Trim)
    requires Inv(s) && Completion(cmd, Success) in s.posted && t in TrimsOf(s.trims, cmd)
    ensures t.cmd == cmd && TrimsOf(s.trims, cmd) == FirstRanges(cmd, t.count, t.count)
  {
    assert InOrder(s, cmd);
    var n: nat :| n > 0 && TrimsOf(s.trims, cmd) == FirstRanges(cmd, n, n);
  }

  // ---- Every step ----

  lemma {:induction false} ReqUpdate(reqs: seq<Req>, r: nat, v: Req, cmd: Cmd)
    requires r < |reqs|
    ensures Sum(OwedFlags(reqs[r := v], cmd)) ==
      Sum(OwedFlags(reqs, cmd)) + Indicator(Owes(v, cmd)) - Indicator(Owes(reqs[r], cmd))
    ensures Sum(FreeFlags(reqs[r := v])) == Sum(FreeFlags(reqs)) + Indicator(v.Free?) - Indicator(reqs[r].Free?)
  {
    assert OwedFlags(reqs[r := v], cmd) == OwedFlags(reqs, cmd)[r := Indicator(Owes(v, cmd))];
    assert FreeFlags(reqs[r := v]) == FreeFlags(reqs)[r := Indicator(v.Free?)];
    SumUpdate(OwedFlags(reqs, cmd), r, Indicator(Owes(v, cmd)));
    SumUpdate(FreeFlags(reqs), r, Indicator(v.Free?));
  }

  lemma {:induction false} Recorded(s: Io, cmd: Cmd, status: Status, c: Cmd)
    ensures TakenCount(s.taken + [cmd], c) == TakenCount(s.taken, c) + Indicator(cmd == c)
    ensures PostedCount(s.posted + [Completion(cmd, status)], c) == PostedCount(s.posted, c) + Indicator(cmd == c)
  {
    assert (s.taken + [cmd])[..|s.taken|] == s.taken;
    assert (s.posted + [Completion(cmd, status)])[..|s.posted|] == s.posted;
  }

  lemma {:induction false} CompleteBalances(s: Io, r: nat, status: Status, c: Cmd)
    requires Balanced(s, c)
    requires r < |s.reqs| && (s.reqs[r].Building? || s.reqs[r].InBlock? || s.reqs[r].Ranges?)
    ensures Balanced(Complete(s, r, status), c)
  {
    ReqUpdate(s.reqs, r, Finished, c);
    Recorded(s, s.reqs[r].cmd, status, c);
  }

  /** A request that goes on serving the same command, or none, owes as much as before. */
  lemma {:induction false} SameOwed(s: Io, r: nat, v: Req, c: Cmd)
    requires r < |s.reqs| && Owes(v, c) == Owes(s.reqs[r], c)
    ensures Sum(OwedFlags(s.reqs[r := v], c)) == Sum(OwedFlags(s.reqs, c))
  {
    ReqUpdate(s.reqs, r, v, c);
  }

  lemma {:induction false} CallbackBalances(s: Io, r: nat, err: bool, resubmitErr: bool, c: Cmd)
    requires Balanced(s, c) && r < |s.reqs| && (s.reqs[r].InBlock? || s.reqs[r].Ranges?)
    ensures Balanced(CalledBack(s, r, err, resubmitErr), c)
  {
    var s' := CalledBack(s, r, err, resubmitErr);
    if s'.reqs[r].Finished? {
      CompleteBalances(s, r, s'.posted[|s.posted|].status, c);
    } else {
      SameOwed(s, r, s'.reqs[r], c);
    }
  }

  lemma {:induction false} GetBalances(s: Io, cmd: Cmd, c: Cmd)
    requires Balanced(s, c) && s.free != [] && s.free[0] < |s.reqs| && s.reqs[s.free[0]].Free?
    ensures Balanced(GetReq(s, cmd), c)
  {
    Recorded(s, cmd, Success, c);
    ReqUpdate(s.reqs, s.free[0], Building(cmd), c);
  }

  lemma {:induction false} StepBalances(s: Io, a: Action, c: Cmd)
    requires Balanced(s, c) && Enabled(s, a) && (a.Get? ==> s.reqs[s.free[0]].Free?)
    ensures Balanced(Step(s, a), c)
  {
    match a
    case TakeImmediate(cmd, status) => Recorded(s, cmd, status, c);
    case Get(cmd) => GetBalances(s, cmd, c);
    case Fail(r, status) => CompleteBalances(s, r, status, c);
    case SubmitRw(r) => SameOwed(s, r, InBlock(s.reqs[r].cmd), c);
    case SubmitRanges(r, count) => SameOwed(s, r, Ranges(s.reqs[r].cmd, 0, count), c);
    case Callback(r, err, resubmitErr) => CallbackBalances(s, r, err, resubmitErr, c);
    case Release(r) => SameOwed(s, r, Free, c);
  }

  lemma {:induction false} GetKeepsPool(s: Io, cmd: Cmd)
    requires PoolOk(s) && s.free != []
    ensures PoolOk(GetReq(s, cmd))
  {
    ReqUpdate(s.reqs, s.free[0], Building(cmd), cmd);
  }

  lemma {:induction false} ReleaseKeepsPool(s: Io, r: nat)
    requires PoolOk(s) && r < |s.reqs| && s.reqs[r].Finished?
    ensures PoolOk(ReleaseReq(s, r))
  {
    ReqUpdate(s.reqs, r, Free, Cmd(0, 0, 0));
  }

  lemma {:induction false} UseKeepsPool(s: Io, r: nat, v: Req, posted: seq<Completion>, trims: seq<Trim>)
    requires PoolOk(s) && r < |s.reqs| && !s.reqs[r].Free? && !v.Free?
    ensures PoolOk(s.(reqs := s.reqs[r := v], posted := posted, trims := trims))
  {
    ReqUpdate(s.reqs, r, v, Cmd(0, 0, 0));
  }

  lemma {:induction false} StepKeepsPool(s: Io, a: Action)
    requires PoolOk(s) && Enabled(s, a)
    ensures PoolOk(Step(s, a))
  {
    match a
    case TakeImmediate(_, _) =>
    case Get(cmd) => GetKeepsPool(s, cmd);
    case Release(r) => ReleaseKeepsPool(s, r);
    case _ => UseKeepsPool(s, a.r, Step(s, a).reqs[a.r], Step(s, a).posted, Step(s, a).trims);
  }

  lemma {:induction false} StepKeepsInv(s: Io, a: Action)
    requires Inv(s) && Enabled(s, a)
    ensures Inv(Step(s, a))
  {
    forall c ensures Balanced(Step(s, a), c) {
      assert Balanced(s, c);
      StepBalances(s, a, c);
    }
    forall c ensures InOrder(Step(s, a), c) { StepInOrder(s, a, c); }
    StepKeepsPool(s, a);
  }

  ghost predicate Next(s: Io, a: Action, s': Io) {
    Enabled(s, a) && s' == Step(s, a)
  }

  ghost predicate Initial(s: Io) {
    && s.free == seq(|s.reqs|, i => i) && s.pending == 0 && s.taken == [] && s.posted == [] && s.trims == []
    && forall r :: 0 <= r < |s.reqs| ==> s.reqs[r].Free?
  }

  lemma {:induction false} SumOfConstant(xs: seq<int>, v: int)
    requires (v == 0 || v == 1) && forall i :: 0 <= i < |xs| ==> xs[i] == v
    ensures Sum(xs) == if v == 0 then 0 else |xs|
  {
    if xs != [] { SumOfConstant(xs[1..], v); }
  }

  /** In every run: free requests and pending commands together are always all the slots, and every
      command taken has exactly one completion posted or still owed. */
  lemma {:induction false} EveryRunKeepsInv(states: seq<Io>, actions: seq<Action>, k: nat)
    requires |states| == |actions| + 1 && Initial(states[0]) && k < |states|
    requires forall j :: 0 <= j < |actions| ==> Next(states[j], actions[j], states[j + 1])
    ensures Inv(states[k])
  {
    if k == 0 {
      SumOfConstant(FreeFlags(states[0].reqs), 1);
      forall c ensures Balanced(states[0], c) { SumOfConstant(OwedFlags(states[0].reqs, c), 0); }
    } else {
      EveryRunKeepsInv(states, actions, k - 1);
      assert Next(states[k - 1], actions[k - 1], states[k]);
      StepKeepsInv(states[k - 1], actions[k - 1]);
    }
  }

  /** No command is completed more often than it was taken; when every request is free again each has
      been completed exactly as often, and no slot is lost. */
  lemma {:induction false} NoCompletionLostOrDoubled(s: Io, cmd: Cmd)
    requires Inv(s)
    ensures PostedCount(s.posted, cmd) <= TakenCount(s.taken, cmd)
    ensures s.pending == 0 ==> PostedCount(s.posted, cmd) == TakenCount(s.taken, cmd) && |s.free| == |s.reqs|
  {
    assert Balanced(s, cmd);
    SumNonNegative(OwedFlags(s.reqs, cmd));
    if s.pending == 0 {
      forall r | 0 <= r < |s.reqs| ensures s.reqs[r].Free? { FullMeansAll(FreeFlags(s.reqs), r); }
      SumOfConstant(OwedFlags(s.reqs, cmd), 0);
    }
  }

  lemma {:induction false} FlagsBounded(xs: seq<int>)
    requires forall i :: 0 <= i < |xs| ==> xs[i] <= 1
    ensures Sum(xs) <= |xs|
  {
    if xs != [] { FlagsBounded(xs[1..]); }
  }

  /** As many set flags as positions: every flag is set. */
  lemma {:induction false} FullMeansAll(xs: seq<int>, r: nat)
    requires (forall i :: 0 <= i < |xs| ==> xs[i] == 0 || xs[i] == 1) && Sum(xs) == |xs| && r < |xs|
    ensures xs[r] == 1
  {
    FlagsBounded(xs[1..]);
    if r > 0 { FullMeansAll(xs[1..], r - 1); }
  }

  /** The request pool, updated in place under the controller's mutex. */
  class Pool {
    const reqs: array<Req>
    var free: seq<nat>
    var pending: int
    ghost var taken: seq<Cmd>
    ghost var posted: seq<Completion>
    ghost var trims: seq<Trim>

    ghost function View(): Io
      reads this, reqs
    {
      Io(reqs[..], free, pending, taken, posted, trims)
    }

    constructor (slots: nat)
      ensures fresh(reqs) && Inv(View()) && reqs.Length == slots && pending == 0
    {
      reqs := new Req[slots](_ => Free);
      free, pending := seq(slots, i => i), 0;
      taken, posted, trims := [], [], [];
      new;
      EveryRunKeepsInv([View()], [], 0);
    }

    /** pci_nvme_get_ioreq, once the semaphore says a request is free. */
    method Take(cmd: Cmd) returns (r: nat)
      requires Inv(View()) && free != [] && cmd.serial == |taken|
      modifies this, reqs
      ensures Inv(View()) && View() == GetReq(old(View()), cmd) && r == old(free)[0]
    {
      StepKeepsInv(View(), Action.Get(cmd));
      r := free[0];
      free := free[1..];
      reqs[r] := Building(cmd);
      pending := pending + 1;
      taken := taken + [cmd];
    }

    /** pci_nvme_release_ioreq. */
    method Return(r: nat)
      requires Inv(View()) && r < reqs.Length && reqs[r].Finished?
      modifies this, reqs
      ensures Inv(View()) && View() == ReleaseReq(old(View()), r)
    {
      StepKeepsInv(View(), Action.Release(r));
      reqs[r] := Free;
      free := free + [r];
      pending := pending - 1;
    }

    method Post(r: nat, status: Status)
      requires r < reqs.Length && (reqs[r].Building? || reqs[r].InBlock? || reqs[r].Ranges?)
      modifies this, reqs
      ensures View() == Complete(old(View()), r, status)
    {
      posted := posted + [Completion(reqs[r].cmd, status)];
      reqs[r] := Finished;
    }

    /** The block layer's callback; `resubmitErr` is the result of starting the next range. */
    method Done(r: nat, err: bool, resubmitErr: bool)
      requires Inv(View()) && r < reqs.Length && (reqs[r].InBlock? || reqs[r].Ranges?)
      modifies this, reqs
      ensures Inv(View()) && View() == CalledBack(old(View()), r, err, resubmitErr)
    {
      StepKeepsInv(View(), Action.Callback(r, err, resubmitErr));
      if reqs[r].InBlock? {
        Post(r, if err then DataTransferError else Success);
      } else if err {
        Post(r, InternalDeviceError);
      } else if reqs[r].cur + 1 == reqs[r].count {
        Post(r, Success);
      } else if resubmitErr {
        Post(r, InternalDeviceError);
      } else {
        trims := trims + [Trim(reqs[r].cmd, reqs[r].cur + 1, reqs[r].count)];
        reqs[r] := reqs[r].(cur := reqs[r].cur + 1);
      }
    }
  }
}
