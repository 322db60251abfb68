/** Splitting a large AHCI command into several block requests (pci_ahci.c). */
module AhciTransfer {
  import opened Seqs
  import opened Arith
  import opened Iovs

  const IOV_MAX := 128
  const DBC_RANGE := 0x40_0000

  /** A physical region descriptor: a guest address and a zero-based byte count. */
  datatype Prd = Prd(dba: nat, dbc: nat)

  function PrdSize(p: Prd): (n: nat)
    ensures n > 0
  {
    p.dbc % DBC_RANGE + 1
  }

  /** Every byte the descriptor table names, in order. */
  function PrdtBytes(prdt: seq<Prd>): seq<nat> {
    if prdt == [] then [] else PrdtBytes(prdt[..|prdt| - 1]) + Range(Last(prdt).dba, PrdSize(Last(prdt)))
  }

  function Last<T>(s: seq<T>): T
    requires s != []
  {
    s[|s| - 1]
  }

  // ---- Where a pass ends ----

  /** Where descriptor `i` starts in the table's bytes. */
  function Pos(prdt: seq<Prd>, i: nat): nat
    requires i <= |prdt|
  {
    |PrdtBytes(prdt[..i])|
  }

  /** The number of descriptors that lie before byte `done`. */
  function Skipped(prdt: seq<Prd>, done: nat): (n: nat)
    ensures n <= |prdt|
  {
    if prdt == [] then 0
    else if |PrdtBytes(prdt)| <= done then |prdt|
    else Skipped(prdt[..|prdt| - 1], done)
  }

  /** The vector fills up: the pass uses 128 descriptors, the last of which starts before `len`. */
  predicate Fills(prdt: seq<Prd>, len: nat, done: nat) {
    var first := Skipped(prdt, done);
    first + IOV_MAX <= |prdt| && Pos(prdt, first + IOV_MAX - 1) < len
  }

  /** Where the bytes gathered for a pass end. */
  function GatherEnd(prdt: seq<Prd>, len: nat, done: nat): nat {
    var end := if Fills(prdt, len, done) then Pos(prdt, Skipped(prdt, done) + IOV_MAX) else |PrdtBytes(prdt)|;
    Max(done, Min(len, end))
  }

  /** Where the pass itself ends: a full vector is cut to whole sectors. */
  function PassEnd(prdt: seq<Prd>, len: nat, done: nat, sectsz: nat): nat
    requires sectsz > 0
  {
    var end := GatherEnd(prdt, len, done);
    if Fills(prdt, len, done) then done + WholePart(end - done, sectsz) else end
  }

  /** The vector fills up with less than a sector, which the code asserts not to happen. */
  predicate Stuck(prdt: seq<Prd>, len: nat, done: nat, sectsz: nat) {
    Fills(prdt, len, done) && GatherEnd(prdt, len, done) - done < sectsz
  }

  /** Another pass follows: bytes are missing, and descriptors are left behind a full vector. */
  predicate MoreAfter(prdt: seq<Prd>, len: nat, done: nat, sectsz: nat)
    requires sectsz > 0
  {
    && PassEnd(prdt, len, done, sectsz) < len
    && Fills(prdt, len, done) && Skipped(prdt, done) + IOV_MAX < |prdt|
  }

  lemma {:induction false} PosNext(prdt: seq<Prd>, i: nat)
    requires i < |prdt|
    ensures PrdtBytes(prdt[..i + 1]) == PrdtBytes(prdt[..i]) + Range(prdt[i].dba, PrdSize(prdt[i]))
    ensures Pos(prdt, i + 1) > Pos(prdt, i)
  {
    assert prdt[..i + 1][..i] == prdt[..i];
  }

  lemma {:induction false} PosGrows(prdt: seq<Prd>, i: nat, j: nat)
    requires i <= j <= |prdt|
    ensures Pos(prdt, i) <= Pos(prdt, j) && (i < j ==> Pos(prdt, i) < Pos(prdt, j))
    ensures PrdtBytes(prdt[..i]) <= PrdtBytes(prdt[..j])
  {
    if i < j {
      PosGrows(prdt, i, j - 1);
      PosNext(prdt, j - 1);
    }
  }

  /** The descriptors skipped end at or before `done`, and the next one ends behind it. */
  lemma {:induction false} SkippedEnds(prdt: seq<Prd>, done: nat)
    ensures var n := Skipped(prdt, done);
      Pos(prdt, n) <= done && (n < |prdt| ==> done < Pos(prdt, n + 1))
  {
    if prdt != [] {
      assert prdt[..|prdt|] == prdt;
      var init := prdt[..|prdt| - 1];
      SkippedEnds(init, done);
      forall i: nat | i <= |init| ensures init[..i] == prdt[..i] {}
    }
  }

  // ---- One pass ----

  /** One pass: the vectors, their byte count, the new progress, and whether another pass follows. */
  datatype Pass = Pass(iov: seq<Iov>, resid: nat, done: nat, more: bool)

  /** `got` is the part of `bytes` from `done` on. */
  ghost predicate Holds(got: seq<nat>, bytes: seq<nat>, done: nat, todo: nat) {
    done + todo <= |bytes| && got == bytes[done..done + todo]
  }

  /** What one pass covers: the bytes from `done` up to its end. */
  ghost predicate Covers(p: Pass, prdt: seq<Prd>, len: nat, done: nat, sectsz: nat)
    requires sectsz > 0
  {
    && done <= p.done == PassEnd(prdt, len, done, sectsz) && p.done == done + p.resid
    && |p.iov| <= IOV_MAX && |IovBytes(p.iov)| == p.resid
    && (p.resid > 0 ==> Holds(IovBytes(p.iov), PrdtBytes(prdt), done, p.resid))
    && (p.more <==> MoreAfter(prdt, len, done, sectsz))
  }

  /** Copy the part of the table between `done` and `len` into a vector. None stands for the
      failed assertion that a pass makes progress. */
  method BuildIov(prdt: seq<Prd>, len: nat, done: nat, sectsz: nat) returns (r: Option<Pass>)
    requires sectsz > 0 && done <= len
    ensures r.None? <==> Stuck(prdt, len, done, sectsz)
    ensures r.Some? ==> Covers(r.value, prdt, len, done, sectsz)
  {
    var c, i := Gather(prdt, len, done);
    hide PrdtBytes, Skipped, IovBytes, Fills, Progress, WholePart, Range, GatherEnd, Holds;
    WholePartIs(c.todo, sectsz);
    CopiedBytes(PrdtBytes(prdt[..i]), c, done, len);
    var resid := if |c.iov| == IOV_MAX then WholePart(c.todo, sectsz) else c.todo;
    if |c.iov| == IOV_MAX && resid == 0 { return None; }
    var iov := Trim(c.iov, c.todo - resid);
    PassCovers(prdt, i, c, iov, resid, done, len);
    r := Some(Pass(iov, resid, done + resid, done + resid < len && i < |prdt|));
  }

  lemma {:induction false} CopiedBytes(bytes: seq<nat>, c: Copy, done: nat, len: nat)
    requires Progress(bytes, c, done, len)
    ensures |IovBytes(c.iov)| == c.todo
  {
  }

  /** The trimmed vector holds the table's bytes from `done` on. */
  lemma {:induction false} PassCovers(prdt: seq<Prd>, i: nat, c: Copy, iov: seq<Iov>, resid: nat, done: nat, len: nat)
    requires i <= |prdt| && Progress(PrdtBytes(prdt[..i]), c, done, len)
    requires resid <= c.todo == |IovBytes(c.iov)| && IovBytes(iov) == IovBytes(c.iov)[..resid]
    ensures resid > 0 ==> Holds(IovBytes(iov), PrdtBytes(prdt), done, resid)
  {
    hide PrdtBytes, IovBytes;
    PosGrows(prdt, i, |prdt|);
    assert prdt[..|prdt|] == prdt;
    if resid > 0 { HoldsFront(IovBytes(c.iov), PrdtBytes(prdt[..i]), PrdtBytes(prdt), done, c.todo, resid); }
  }

  lemma {:induction false} HoldsFront(got: seq<nat>, seen: seq<nat>, all: seq<nat>, done: nat, todo: nat, n: nat)
    requires Holds(got, seen, done, todo) && seen <= all && n <= todo
    ensures Holds(got[..n], all, done, n)
  {
    assert seen[done..done + n] == all[done..done + n];
  }

  /** The copy loop's variables: the vector, its byte count, and the bytes still to skip. */
  datatype Copy = Copy(iov: seq<Iov>, todo: nat, skip: nat)

  /** Take one descriptor: skip it when it lies before the bytes already done. */
  function CopyOne(c: Copy, p: Prd, left: nat): Copy {
    var dbcsz := PrdSize(p);
    if dbcsz <= c.skip then c.(skip := c.skip - dbcsz)
    else
      var n := Min(dbcsz - c.skip, left);
      Copy(c.iov + [Iov(Addr(p.dba, c.skip), n)], c.todo + n, 0)
  }

  /** State of the copy after the descriptors that name `bytes`. */
  ghost predicate Progress(bytes: seq<nat>, c: Copy, done: nat, len: nat) {
    && done + c.todo <= len
    && if |bytes| <= done
       then c == Copy([], 0, done - |bytes|)
       else c.skip == 0 && done + c.todo == Min(len, |bytes|) && Holds(IovBytes(c.iov), bytes, done, c.todo)
  }

  lemma {:induction false} CopyStep(bytes: seq<nat>, p: Prd, c: Copy, done: nat, len: nat)
    requires Progress(bytes, c, done, len) && done + c.todo < len
    ensures var next := CopyOne(c, p, len - done - c.todo);
      && Progress(bytes + Range(p.dba, PrdSize(p)), next, done, len)
      && |bytes| < len
      && (if |bytes| + PrdSize(p) <= done then next.iov == c.iov else |next.iov| == |c.iov| + 1)
  {
    hide Range, Addr, IovBytes, Holds, PrdSize;
    if PrdSize(p) > c.skip { TakeStep(bytes, p.dba, PrdSize(p), c, done, len); }
  }

  lemma {:induction false} TakeStep(bytes: seq<nat>, base: nat, size: nat, c: Copy, done: nat, len: nat)
    requires Progress(bytes, c, done, len) && done + c.todo < len && size > c.skip
    ensures var n := Min(size - c.skip, len - done - c.todo);
      Progress(bytes + Range(base, size), Copy(c.iov + [Iov(Addr(base, c.skip), n)], c.todo + n, 0), done, len)
  {
    assert IovBytes([]) == [];
    hide Range, Addr, IovBytes, Holds;
    var n := Min(size - c.skip, len - done - c.todo);
    IovPush(c.iov, Iov(Addr(base, c.skip), n));
    Gain(bytes, base, size, IovBytes(c.iov), done, c.todo, c.skip, n);
  }

  /** Copying `n` more bytes of the next descriptor extends the slice that starts at `done`. */
  lemma {:induction false} Gain(bytes: seq<nat>, base: nat, size: nat, got: seq<nat>,
                                done: nat, todo: nat, skip: nat, n: nat)
    requires if |bytes| <= done then todo == 0 && got == [] && skip == done - |bytes|
             else skip == 0 && done + todo == |bytes| && Holds(got, bytes, done, todo)
    requires skip + n <= size
    ensures Holds(got + Range(Addr(base, skip), n), bytes + Range(base, size), done, todo + n)
  {
    hide Range, Addr;
    SubRange(base, size, skip, n);
    Extend(bytes, Range(base, size), got, done, todo, skip, n);
  }

  lemma {:induction false} Extend(bytes: seq<nat>, tail: seq<nat>, got: seq<nat>,
                                  done: nat, todo: nat, skip: nat, n: nat)
    requires if |bytes| <= done then todo == 0 && got == [] && skip == done - |bytes|
             else skip == 0 && done + todo == |bytes| && Holds(got, bytes, done, todo)
    requires skip + n <= |tail|
    ensures Holds(got + tail[skip..skip + n], bytes + tail, done, todo + n)
  {
  }

  /** The copy loop: stop at the end of the table, at `len`, or when the vector is full. */
  method Gather(prdt: seq<Prd>, len: nat, done: nat) returns (c: Copy, i: nat)
    requires done <= len
    ensures i <= |prdt| && Progress(PrdtBytes(prdt[..i]), c, done, len)
    ensures |c.iov| <= IOV_MAX && (|c.iov| == IOV_MAX <==> Fills(prdt, len, done))
    ensures done + c.todo == GatherEnd(prdt, len, done)
    ensures Fills(prdt, len, done) ==> i == Skipped(prdt, done) + IOV_MAX && c.todo > 0
    ensures !Fills(prdt, len, done) ==> i == |prdt| || done + c.todo == len
  {
    c, i := Copy([], 0, done), 0;
    while i < |prdt| && |c.iov| < IOV_MAX && len - done - c.todo > 0
      invariant Gathered(prdt, i, c, done, len)
    {
      GatherStep(prdt, i, c, done, len);
      c := CopyOne(c, prdt[i], len - done - c.todo);
      i := i + 1;
    }
    GatherEnds(prdt, i, c, done, len);
  }

  /** After `i` descriptors: one vector was made of each that does not lie before `done`, and each
      starts before `len`. */
  ghost predicate Gathered(prdt: seq<Prd>, i: nat, c: Copy, done: nat, len: nat) {
    && i <= |prdt| && |c.iov| <= IOV_MAX
    && Progress(PrdtBytes(prdt[..i]), c, done, len)
    && |c.iov| == Max(0, i - Skipped(prdt, done))
    && (i > 0 ==> Pos(prdt, i - 1) < len)
  }

  lemma {:induction false} GatherStep(prdt: seq<Prd>, i: nat, c: Copy, done: nat, len: nat)
    requires Gathered(prdt, i, c, done, len)
    requires i < |prdt| && |c.iov| < IOV_MAX && done + c.todo < len
    ensures Gathered(prdt, i + 1, CopyOne(c, prdt[i], len - done - c.todo), done, len)
  {
    hide PrdtBytes, Skipped, IovBytes, CopyOne;
    PosNext(prdt, i);
    CopyStep(PrdtBytes(prdt[..i]), prdt[i], c, done, len);
    var first := Skipped(prdt, done);
    SkippedEnds(prdt, done);
    if i < first {
      PosGrows(prdt, i + 1, first);
    } else {
      PosGrows(prdt, first + 1, i + 1);
    }
  }

  lemma {:induction false} GatherEnds(prdt: seq<Prd>, i: nat, c: Copy, done: nat, len: nat)
    requires Gathered(prdt, i, c, done, len) && done <= len
    requires i == |prdt| || |c.iov| == IOV_MAX || done + c.todo == len
    ensures |c.iov| == IOV_MAX <==> Fills(prdt, len, done)
    ensures done + c.todo == GatherEnd(prdt, len, done)
    ensures Fills(prdt, len, done) ==> i == Skipped(prdt, done) + IOV_MAX && c.todo > 0
  {
    hide PrdtBytes, Skipped, IovBytes;
    var first := Skipped(prdt, done);
    SkippedEnds(prdt, done);
    assert prdt[..|prdt|] == prdt;
    PosGrows(prdt, i, |prdt|);
    if |c.iov| == IOV_MAX {
      PosGrows(prdt, first + 1, i - 1);
      PosGrows(prdt, i - 1, i);
    } else if i < |prdt| && first + IOV_MAX <= |prdt| {
      PosGrows(prdt, first + 1, first + IOV_MAX - 1);
      PosGrows(prdt, i, first + IOV_MAX - 1);
    }
  }

  /** Drop the last `extra` bytes. */
  method Trim(iov0: seq<Iov>, extra0: nat) returns (iov: seq<Iov>)
    requires extra0 <= |IovBytes(iov0)|
    ensures IovBytes(iov) == IovBytes(iov0)[..|IovBytes(iov0)| - extra0]
    ensures |iov| <= |iov0|
  {
    var extra := extra0;
    iov := iov0;
    ghost var all := IovBytes(iov0);
    while extra > 0
      invariant 0 <= extra <= extra0 && extra <= |IovBytes(iov)| && |iov| <= |iov0|
      invariant IovBytes(iov) == all[..|all| - extra0 + extra]
      decreases |iov|
    {
      var last := Last(iov);
      if last.len > extra {
        IovPush(iov[..|iov| - 1], Iov(last.base, last.len - extra));
        iov := iov[..|iov| - 1] + [Iov(last.base, last.len - extra)];
        assert Range(last.base, last.len - extra) == Range(last.base, last.len)[..last.len - extra];
        return;
      }
      assert IovBytes(iov[..|iov| - 1]) == IovBytes(iov)[..|IovBytes(iov)| - last.len];
      extra := extra - last.len;
      iov := iov[..|iov| - 1];
    }
  }

  // ---- All passes of a command ----

  datatype Request = Request(offset: nat, iov: seq<Iov>)

  /** The bytes moved by a list of requests, in order. */
  function Moved(reqs: seq<Request>): seq<nat> {
    if reqs == [] then [] else Moved(reqs[..|reqs| - 1]) + IovBytes(Last(reqs).iov)
  }

  /** Where pass `k` starts. */
  function Boundary(prdt: seq<Prd>, len: nat, sectsz: nat, k: nat): nat
    requires sectsz > 0
  {
    if k == 0 then 0 else PassEnd(prdt, len, Boundary(prdt, len, sectsz, k - 1), sectsz)
  }

  /** Each of the first `n` passes is followed by another. */
  ghost predicate GoesOn(prdt: seq<Prd>, len: nat, sectsz: nat, n: nat)
    requires sectsz > 0
  {
    forall k: nat :: k < n ==> MoreAfter(prdt, len, Boundary(prdt, len, sectsz, k), sectsz)
  }

  /** Pass `k` is reached and fails the assertion. */
  ghost predicate AbortsAt(prdt: seq<Prd>, len: nat, sectsz: nat, k: nat)
    requires sectsz > 0
  {
    GoesOn(prdt, len, sectsz, k) && Stuck(prdt, len, Boundary(prdt, len, sectsz, k), sectsz)
  }

  /** Request `k` starts on disk where the bytes moved before it end, and holds the bytes of its pass. */
  ghost predicate Consecutive(reqs: seq<Request>, prdt: seq<Prd>, lba: nat, len: nat, sectsz: nat)
    requires sectsz > 0
  {
    forall k :: 0 <= k < |reqs| ==>
      && reqs[k].offset == lba + Boundary(prdt, len, sectsz, k)
      && |IovBytes(reqs[k].iov)| == Boundary(prdt, len, sectsz, k + 1) - Boundary(prdt, len, sectsz, k)
      && |reqs[k].iov| <= IOV_MAX
  }

  ghost predicate WholeSectors(reqs: seq<Request>, sectsz: nat)
    requires sectsz > 0
  {
    forall k :: 0 <= k < |reqs| ==> |IovBytes(reqs[k].iov)| > 0 && |IovBytes(reqs[k].iov)| % sectsz == 0
  }

  ghost predicate NoneStuck(reqs: seq<Request>, prdt: seq<Prd>, len: nat, sectsz: nat)
    requires sectsz > 0
  {
    forall k :: 0 <= k < |reqs| ==> !Stuck(prdt, len, Boundary(prdt, len, sectsz, k), sectsz)
  }

  /** The transfer after some passes: the front of the table has moved, each pass but the last was
      followed by another, and a pass that was is whole sectors. */
  ghost predicate Moving(reqs: seq<Request>, prdt: seq<Prd>, lba: nat, len: nat, sectsz: nat)
    requires sectsz > 0
  {
    var done := Boundary(prdt, len, sectsz, |reqs|);
    && done <= |PrdtBytes(prdt)| && done <= len && Moved(reqs) == PrdtBytes(prdt)[..done]
    && Consecutive(reqs, prdt, lba, len, sectsz)
    && NoneStuck(reqs, prdt, len, sectsz)
    && (|PrdtBytes(prdt)| >= len ==> done % sectsz == 0 && WholeSectors(reqs, sectsz))
  }

  /** The length of a pass: never past `len` or the table, and whole sectors of a table that holds `len` bytes. */
  lemma {:induction false} PassLength(prdt: seq<Prd>, len: nat, done: nat, sectsz: nat)
    requires sectsz > 0 && done < len && !Stuck(prdt, len, done, sectsz)
    ensures var end := PassEnd(prdt, len, done, sectsz);
      && done <= end <= len && (done <= |PrdtBytes(prdt)| ==> end <= |PrdtBytes(prdt)|)
      && (Fills(prdt, len, done) ==> end > done && (end - done) % sectsz == 0)
      && (!Fills(prdt, len, done) && |PrdtBytes(prdt)| >= len ==> end == len)
  {
    hide PrdtBytes, Skipped, WholePart;
    var end := GatherEnd(prdt, len, done);
    assert prdt[..|prdt|] == prdt;
    if Fills(prdt, len, done) {
      var first := Skipped(prdt, done);
      PosGrows(prdt, first + IOV_MAX, |prdt|);
      WholePartIs(end - done, sectsz);
    }
  }

  /** A table that holds all of a whole-sector command: a pass is whole sectors, and another follows
      exactly while bytes are left. */
  lemma {:induction false} PassIsWholeSectors(prdt: seq<Prd>, len: nat, done: nat, sectsz: nat)
    requires sectsz > 0 && len % sectsz == 0 && done % sectsz == 0 && done < len <= |PrdtBytes(prdt)|
    requires !Stuck(prdt, len, done, sectsz)
    ensures var end := PassEnd(prdt, len, done, sectsz);
      && end > done && (end - done) % sectsz == 0 && end % sectsz == 0
      && (MoreAfter(prdt, len, done, sectsz) <==> end < len)
  {
    hide PrdtBytes, Skipped, WholePart;
    var end := PassEnd(prdt, len, done, sectsz);
    PassLength(prdt, len, done, sectsz);
    MultipleSum(len, done, sectsz);
    MultipleSum(end - done, done, sectsz);
    if Fills(prdt, len, done) && Skipped(prdt, done) + IOV_MAX == |prdt| {
      assert prdt[..|prdt|] == prdt;
      assert GatherEnd(prdt, len, done) == len;
      WholePartIs(len - done, sectsz);
    }
  }

  lemma {:induction false} MovedPush(reqs: seq<Request>, r: Request)
    ensures Moved(reqs + [r]) == Moved(reqs) + IovBytes(r.iov)
  {
    assert (reqs + [r])[..|reqs|] == reqs;
  }

  lemma {:induction false} BoundaryNext(prdt: seq<Prd>, len: nat, sectsz: nat, k: nat)
    requires sectsz > 0
    ensures Boundary(prdt, len, sectsz, k + 1) == PassEnd(prdt, len, Boundary(prdt, len, sectsz, k), sectsz)
  {
  }

  lemma {:induction false} HoldsNext(got: seq<nat>, bytes: seq<nat>, done: nat, n: nat)
    requires Holds(got, bytes, done, n)
    ensures bytes[..done] + got == bytes[..done + n]
  {
  }

  lemma {:induction false} ConsecutivePush(reqs: seq<Request>, r: Request, prdt: seq<Prd>, lba: nat, len: nat,
                                        sectsz: nat)
    requires sectsz > 0 && Consecutive(reqs, prdt, lba, len, sectsz) && |r.iov| <= IOV_MAX
    requires var done := Boundary(prdt, len, sectsz, |reqs|);
      r.offset == lba + done && |IovBytes(r.iov)| == PassEnd(prdt, len, done, sectsz) - done
    ensures Consecutive(reqs + [r], prdt, lba, len, sectsz)
  {
    hide Boundary, PassEnd, IovBytes;
    BoundaryNext(prdt, len, sectsz, |reqs|);
  }

  lemma {:induction false} WholePush(reqs: seq<Request>, r: Request, sectsz: nat)
    requires sectsz > 0 && WholeSectors(reqs, sectsz)
    requires |IovBytes(r.iov)| > 0 && |IovBytes(r.iov)| % sectsz == 0
    ensures WholeSectors(reqs + [r], sectsz)
  {
    hide IovBytes;
  }

  lemma {:induction false} UnstuckPush(reqs: seq<Request>, r: Request, prdt: seq<Prd>, len: nat, sectsz: nat)
    requires sectsz > 0 && NoneStuck(reqs, prdt, len, sectsz)
    requires !Stuck(prdt, len, Boundary(prdt, len, sectsz, |reqs|), sectsz)
    ensures NoneStuck(reqs + [r], prdt, len, sectsz)
  {
    hide Boundary, Stuck;
  }

  /** Issuing a pass extends the transfer by exactly the bytes the pass covers. */
  lemma {:induction false} NextPass(reqs: seq<Request>, p: Pass, prdt: seq<Prd>, lba: nat, len: nat, sectsz: nat)
    requires sectsz > 0 && len % sectsz == 0
    requires Moving(reqs, prdt, lba, len, sectsz)
    requires var done := Boundary(prdt, len, sectsz, |reqs|);
      done < len && !Stuck(prdt, len, done, sectsz) && Covers(p, prdt, len, done, sectsz)
    ensures var done := Boundary(prdt, len, sectsz, |reqs|); var reqs' := reqs + [Request(lba + done, p.iov)];
      && Moving(reqs', prdt, lba, len, sectsz) && p.done == Boundary(prdt, len, sectsz, |reqs'|)
      && (p.more ==> done < p.done < len)
      && (|PrdtBytes(prdt)| >= len ==> (p.more <==> p.done < len))
  {
    hide PrdtBytes, Skipped, IovBytes, Fills, GatherEnd, PassEnd, Stuck, Boundary, Moved, Holds;
    hide Consecutive, WholeSectors, NoneStuck;
    var done := Boundary(prdt, len, sectsz, |reqs|);
    var bytes, r := PrdtBytes(prdt), Request(lba + done, p.iov);
    PassLength(prdt, len, done, sectsz);
    BoundaryNext(prdt, len, sectsz, |reqs|);
    MovedPush(reqs, r);
    ConsecutivePush(reqs, r, prdt, lba, len, sectsz);
    UnstuckPush(reqs, r, prdt, len, sectsz);
    if p.resid > 0 { HoldsNext(IovBytes(p.iov), bytes, done, p.resid); }
    assert p.resid == 0 ==> IovBytes(p.iov) == [];
    if |bytes| >= len {
      PassIsWholeSectors(prdt, len, done, sectsz);
      WholePush(reqs, r, sectsz);
    }
  }

  lemma {:induction false} NotReached(prdt: seq<Prd>, len: nat, sectsz: nat, last: nat, k: nat)
    requires sectsz > 0 && last < k && !MoreAfter(prdt, len, Boundary(prdt, len, sectsz, last), sectsz)
    ensures !GoesOn(prdt, len, sectsz, k)
  {
  }

  /** A transfer that came to its end did not meet a stuck pass. */
  lemma {:induction false} NoAbort(reqs: seq<Request>, prdt: seq<Prd>, lba: nat, len: nat, sectsz: nat)
    requires sectsz > 0 && reqs != [] && Moving(reqs, prdt, lba, len, sectsz)
    requires !MoreAfter(prdt, len, Boundary(prdt, len, sectsz, |reqs| - 1), sectsz)
    ensures forall k: nat :: !AbortsAt(prdt, len, sectsz, k)
  {
    hide Stuck, MoreAfter, Boundary, Consecutive, WholeSectors, Moved, PrdtBytes;
    hide GoesOn;
    forall k: nat ensures !AbortsAt(prdt, len, sectsz, k) {
      if k >= |reqs| { NotReached(prdt, len, sectsz, |reqs| - 1, k); }
    }
  }

  /** The passes of one command: each completion starts the next while `more` is set. They move the
      front of the table to consecutive disk offsets, all `len` bytes of it when it has as many,
      unless some pass boundary is stuck. */
  method Transfer(prdt: seq<Prd>, lba: nat, len: nat, sectsz: nat) returns (reqs: seq<Request>, aborted: bool)
    requires sectsz > 0 && len % sectsz == 0 && len > 0
    ensures Moving(reqs, prdt, lba, len, sectsz)
    ensures aborted <==> exists k: nat :: AbortsAt(prdt, len, sectsz, k)
    ensures aborted ==> AbortsAt(prdt, len, sectsz, |reqs|)
    ensures !aborted && |PrdtBytes(prdt)| >= len ==> Moved(reqs) == PrdtBytes(prdt)[..len]
    ensures !aborted ==> reqs != [] && GoesOn(prdt, len, sectsz, |reqs| - 1)
    ensures !aborted ==> !MoreAfter(prdt, len, Boundary(prdt, len, sectsz, |reqs| - 1), sectsz)
  {
    hide PrdtBytes, Stuck, PassEnd, MoreAfter, IovBytes, Boundary, Consecutive, WholeSectors, Moved;
    var done, more := 0, true;
    reqs, aborted := [], false;
    NothingMoved(prdt, lba, len, sectsz);
    while more
      invariant done == Boundary(prdt, len, sectsz, |reqs|) && Moving(reqs, prdt, lba, len, sectsz)
      invariant Ahead(reqs, more, prdt, len, sectsz) && (more ==> done < len)
      invariant !more && |PrdtBytes(prdt)| >= len ==> done == len
      decreases len - done, more
    {
      var pass := BuildIov(prdt, len, done, sectsz);
      if pass.None? {
        assert AbortsAt(prdt, len, sectsz, |reqs|);
        return reqs, true;
      }
      var p := pass.value;
      NextPass(reqs, p, prdt, lba, len, sectsz);
      reqs := reqs + [Request(lba + done, p.iov)];
      done, more := p.done, p.more;
    }
    NoAbort(reqs, prdt, lba, len, sectsz);
  }

  /** Every pass so far was followed by another, the last one exactly if `more` is set. */
  ghost predicate Ahead(reqs: seq<Request>, more: bool, prdt: seq<Prd>, len: nat, sectsz: nat)
    requires sectsz > 0
  {
    if more then GoesOn(prdt, len, sectsz, |reqs|)
    else
      && reqs != [] && GoesOn(prdt, len, sectsz, |reqs| - 1)
      && !MoreAfter(prdt, len, Boundary(prdt, len, sectsz, |reqs| - 1), sectsz)
  }

  lemma {:induction false} NothingMoved(prdt: seq<Prd>, lba: nat, len: nat, sectsz: nat)
    requires sectsz > 0
    ensures Boundary(prdt, len, sectsz, 0) == 0 && Moving([], prdt, lba, len, sectsz)
  {
  }

  // ---- A table that aborts ----

  lemma {:induction false} OneBytePos(prdt: seq<Prd>, n: nat, i: nat)
    requires i <= n <= |prdt| && forall k :: 0 <= k < n ==> prdt[k] == Prd(0, 0)
    ensures Pos(prdt, i) == i
  {
    if i > 0 {
      OneBytePos(prdt, n, i - 1);
      PosNext(prdt, i - 1);
    }
  }

  /** A guest whose table begins with 128 one-byte descriptors aborts a transfer of any length. */
  lemma {:induction false} OneByteDescriptorsAbort(prdt: seq<Prd>, len: nat, sectsz: nat)
    requires sectsz > IOV_MAX && len >= sectsz
    requires |prdt| >= IOV_MAX && forall k :: 0 <= k < IOV_MAX ==> prdt[k] == Prd(0, 0)
    ensures AbortsAt(prdt, len, sectsz, 0)
  {
    SkippedEnds(prdt, 0);
    OneBytePos(prdt, IOV_MAX, 1);
    if Skipped(prdt, 0) >= 1 { PosGrows(prdt, 1, Skipped(prdt, 0)); }
    OneBytePos(prdt, IOV_MAX, IOV_MAX - 1);
    OneBytePos(prdt, IOV_MAX, IOV_MAX);
  }
}
