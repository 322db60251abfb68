/** Block requests with several buffers go through a bounce buffer, a chunk at a time (block_if.c). */
module Bounce {
  import opened Seqs

  /** Vectored transfer into buffers: they are filled in order. */
  function Scatter(iov: seq<seq<byte>>, data: seq<byte>): seq<seq<byte>> {
    if iov == [] then []
    else
      var k := Min(|iov[0]|, |data|);
      [data[..k] + iov[0][k..]] + Scatter(iov[1..], data[k..])
  }

  predicate SameShape(a: seq<seq<byte>>, b: seq<seq<byte>>) {
    |a| == |b| && forall i :: 0 <= i < |a| ==> |a[i]| == |b[i]|
  }

  /** Scattering overwrites the front of the flattened buffers and keeps every buffer's length. */
  lemma {:induction false} ScatterFlattens(iov: seq<seq<byte>>, data: seq<byte>)
    requires |data| <= |Flatten(iov)|
    ensures SameShape(Scatter(iov, data), iov) && Flatten(Scatter(iov, data)) == Splice(Flatten(iov), 0, data)
  {
    if iov != [] {
      var k := Min(|iov[0]|, |data|);
      ScatterFlattens(iov[1..], data[k..]);
      var first, rest := data[..k] + iov[0][k..], Scatter(iov[1..], data[k..]);
      assert ([first] + rest)[1..] == rest;
      HeadSplice(iov[0], Flatten(iov[1..]), data, k);
    }
  }

  lemma {:induction false} HeadSplice(head: seq<byte>, tail: seq<byte>, data: seq<byte>, k: nat)
    requires k == Min(|head|, |data|) && |data| <= |head| + |tail|
    ensures (data[..k] + head[k..]) + Splice(tail, 0, data[k..]) == Splice(head + tail, 0, data)
  {
  }

  /** Buffers of given lengths are determined by their flattened contents. */
  lemma {:induction false} FlattenIsInjective(a: seq<seq<byte>>, b: seq<seq<byte>>)
    requires SameShape(a, b) && Flatten(a) == Flatten(b)
    ensures a == b
  {
    if a != [] {
      var n := |a[0]|;
      assert a[0] == Flatten(a)[..n] && b[0] == Flatten(b)[..n];
      assert Flatten(a[1..]) == Flatten(a)[n..] && Flatten(b[1..]) == Flatten(b)[n..];
      FlattenIsInjective(a[1..], b[1..]);
      assert a == [a[0]] + a[1..] && b == [b[0]] + b[1..];
    }
  }

  // ---- The cursor over the buffers ----

  /** Buffer `i` at `voff` is `n` bytes into the flattened buffers; a full buffer is never stayed in. */
  ghost predicate At(iov: seq<seq<byte>>, i: nat, voff: nat, n: nat) {
    && i <= |iov| && (voff > 0 ==> i < |iov| && voff < |iov[i]|)
    && n == |Flatten(iov[..i])| + voff
  }

  lemma {:induction false} SplitAt(iov: seq<seq<byte>>, i: nat)
    requires i < |iov|
    ensures Flatten(iov) == Flatten(iov[..i]) + (iov[i] + Flatten(iov[i + 1..]))
    ensures Flatten(iov[..i + 1]) == Flatten(iov[..i]) + iov[i]
  {
    hide Flatten;
    FlattenSplit(iov, i);
    assert iov[..i + 1] == iov[..i] + [iov[i]];
    FlattenSnoc(iov[..i], iov[i]);
  }

  /** While bytes are missing, the cursor is on a buffer. */
  lemma {:induction false} CursorInside(iov: seq<seq<byte>>, i: nat, voff: nat, n: nat)
    requires At(iov, i, voff, n) && n < |Flatten(iov)|
    ensures i < |iov| && voff <= |iov[i]|
  {
    assert iov[..|iov|] == iov;
  }

  /** The cursor after `clen` bytes of buffer `i`. */
  lemma {:induction false} Advance(iov: seq<seq<byte>>, i: nat, voff: nat, n: nat, clen: nat)
    requires At(iov, i, voff, n) && i < |iov| && voff + clen <= |iov[i]|
    ensures if voff + clen < |iov[i]| then At(iov, i, voff + clen, n + clen) else At(iov, i + 1, 0, n + clen)
    ensures n + clen <= |Flatten(iov)| && Flatten(iov)[n..n + clen] == iov[i][voff..voff + clen]
  {
    SplitAt(iov, i);
    Window(Flatten(iov[..i]), iov[i], Flatten(iov[i + 1..]), voff, clen);
  }

  lemma {:induction false} Window(pre: seq<byte>, piece: seq<byte>, post: seq<byte>, voff: nat, clen: nat)
    requires voff + clen <= |piece|
    ensures (pre + (piece + post))[|pre| + voff..|pre| + voff + clen] == piece[voff..voff + clen]
  {
  }

  /** Copying into buffer `i` at the cursor splices the flattened contents there. */
  lemma {:induction false} CopySplices(iov: seq<seq<byte>>, i: nat, voff: nat, n: nat, data: seq<byte>)
    requires At(iov, i, voff, n) && i < |iov| && voff + |data| <= |iov[i]| && n + |data| <= |Flatten(iov)|
    ensures var r := iov[i := Splice(iov[i], voff, data)];
      SameShape(r, iov) && Flatten(r) == Splice(Flatten(iov), n, data) && At(r, i, voff, n)
  {
    var r := iov[i := Splice(iov[i], voff, data)];
    SplitAt(iov, i);
    SplitAt(r, i);
    assert r[..i] == iov[..i] && r[i + 1..] == iov[i + 1..];
    PieceSplice(Flatten(iov[..i]), iov[i], Flatten(iov[i + 1..]), voff, data);
  }

  lemma {:induction false} PieceSplice(pre: seq<byte>, piece: seq<byte>, post: seq<byte>, voff: nat, data: seq<byte>)
    requires voff + |data| <= |piece|
    ensures pre + (Splice(piece, voff, data) + post) == Splice(pre + (piece + post), |pre| + voff, data)
  {
  }

  lemma {:induction false} SpliceTwice(s: seq<byte>, at: nat, a: seq<byte>, b: seq<byte>)
    requires at + |a| + |b| <= |s|
    ensures Splice(Splice(s, at, a), at + |a|, b) == Splice(s, at, a + b)
  {
  }

  // ---- The copy loops ----

  /** Part of the bounce buffer is scattered, from position `n` of the flattened buffers on. */
  ghost predicate Scattered(iov0: seq<seq<byte>>, n: nat, done: seq<byte>, iov: seq<seq<byte>>, i: nat, voff: nat) {
    && n + |done| <= |Flatten(iov0)| && SameShape(iov, iov0)
    && Flatten(iov) == Splice(Flatten(iov0), n, done) && At(iov, i, voff, n + |done|)
  }

  /** Scatter the bounce buffer over the buffers from the cursor on. */
  method CopyOut(iov0: seq<seq<byte>>, i0: nat, voff0: nat, ghost n: nat, buf: seq<byte>)
    returns (iov: seq<seq<byte>>, i: nat, voff: nat)
    requires At(iov0, i0, voff0, n) && n + |buf| <= |Flatten(iov0)|
    ensures Scattered(iov0, n, buf, iov, i, voff)
  {
    hide At, SameShape;
    iov, i, voff := iov0, i0, voff0;
    var boff := 0;
    NothingScattered(iov0, i0, voff0, n);
    while boff < |buf|
      invariant 0 <= boff <= |buf| && Scattered(iov0, n, buf[..boff], iov, i, voff) && |iov| == |iov0|
      decreases |iov| - i, |buf| - boff
    {
      CursorInside(iov, i, voff, n + boff);
      var clen := Min(|buf| - boff, |iov[i]| - voff);
      iov, i, voff := CopyPiece(iov0, iov, i, voff, n, buf[..boff], buf[boff..boff + clen]);
      assert buf[..boff] + buf[boff..boff + clen] == buf[..boff + clen];
      boff := boff + clen;
    }
    assert buf[..boff] == buf;
  }

  lemma {:induction false} NothingScattered(iov: seq<seq<byte>>, i: nat, voff: nat, n: nat)
    requires At(iov, i, voff, n) && n <= |Flatten(iov)|
    ensures Scattered(iov, n, [], iov, i, voff)
  {
  }

  /** One memcpy into buffer `i`, and the cursor's step. */
  method CopyPiece(ghost iov0: seq<seq<byte>>, iov1: seq<seq<byte>>, i1: nat, voff1: nat, ghost n: nat,
      ghost done: seq<byte>, data: seq<byte>)
    returns (iov: seq<seq<byte>>, i: nat, voff: nat)
    requires Scattered(iov0, n, done, iov1, i1, voff1) && i1 < |iov1| && voff1 + |data| <= |iov1[i1]|
    ensures Scattered(iov0, n, done + data, iov, i, voff) && |iov| == |iov1|
    ensures (i == i1 && voff1 + |data| < |iov1[i1]|) || i == i1 + 1
  {
    ghost var at := n + |done|;
    Advance(iov1, i1, voff1, at, |data|);
    CopySplices(iov1, i1, voff1, at, data);
    iov := iov1[i1 := Splice(iov1[i1], voff1, data)];
    Advance(iov, i1, voff1, at, |data|);
    SpliceTwice(Flatten(iov0), n, done, data);
    if |data| < |iov1[i1]| - voff1 {
      i, voff := i1, voff1 + |data|;
    } else {
      i, voff := i1 + 1, 0;
    }
  }

  /** The next bytes of the buffers are in the bounce buffer. */
  ghost predicate Gathered(iov: seq<seq<byte>>, n: nat, buf: seq<byte>, i: nat, voff: nat) {
    n + |buf| <= |Flatten(iov)| && buf == Flatten(iov)[n..n + |buf|] && At(iov, i, voff, n + |buf|)
  }

  /** Gather the next `len` bytes of the buffers into the bounce buffer. */
  method CopyIn(iov: seq<seq<byte>>, i0: nat, voff0: nat, ghost n: nat, len: nat)
    returns (buf: seq<byte>, i: nat, voff: nat)
    requires At(iov, i0, voff0, n) && n + len <= |Flatten(iov)|
    ensures |buf| == len && Gathered(iov, n, buf, i, voff)
  {
    hide At;
    i, voff, buf := i0, voff0, [];
    while |buf| < len
      invariant |buf| <= len && Gathered(iov, n, buf, i, voff)
      decreases |iov| - i, len - |buf|
    {
      CursorInside(iov, i, voff, n + |buf|);
      var clen := Min(len - |buf|, |iov[i]| - voff);
      GatherStep(iov, n, buf, i, voff, clen);
      buf := buf + iov[i][voff..voff + clen];
      if clen < |iov[i]| - voff { voff := voff + clen; } else { i, voff := i + 1, 0; }
    }
  }

  lemma {:induction false} GatherStep(iov: seq<seq<byte>>, n: nat, buf: seq<byte>, i: nat, voff: nat, clen: nat)
    requires Gathered(iov, n, buf, i, voff) && i < |iov| && voff + clen <= |iov[i]|
    ensures var next := buf + iov[i][voff..voff + clen];
      if voff + clen < |iov[i]| then Gathered(iov, n, next, i, voff + clen) else Gathered(iov, n, next, i + 1, 0)
  {
    Advance(iov, i, voff, n + |buf|, clen);
    WindowGrows(Flatten(iov), n, |buf|, clen);
  }

  lemma {:induction false} WindowGrows(s: seq<byte>, n: nat, k: nat, c: nat)
    requires n + k + c <= |s|
    ensures s[n..n + k] + s[n + k..n + k + c] == s[n..n + k + c]
  {
  }

  // ---- What the kernel answers ----

  /** A transfer of one chunk fails, or moves some of its bytes; the code takes any such answer for all. */
  datatype Answer = Failed | Got(count: nat)

  /** The answers to the transfers of a request, in order. */
  type Answers = nat -> Answer

  /** The bytes a request of `resid` bytes counts as moved: the chunks before the first failure. */
  function Moved(resid: nat, maxphys: nat, k: nat, answers: Answers): (n: nat)
    requires maxphys > 0
    ensures n <= resid
    decreases resid
  {
    if resid == 0 || answers(k).Failed? then 0
    else
      var len := Min(resid, maxphys);
      len + Moved(resid - len, maxphys, k + 1, answers)
  }

  /** They are whole chunks, or everything. */
  lemma {:induction false} MovedIsChunks(resid: nat, maxphys: nat, k: nat, failAt: nat, answers: Answers)
    requires maxphys > 0 && k <= failAt && answers(failAt).Failed?
    requires forall j :: k <= j < failAt ==> answers(j).Got?
    ensures Moved(resid, maxphys, k, answers) == Min(resid, (failAt - k) * maxphys)
    decreases resid
  {
    if resid > 0 && k < failAt {
      MovedIsChunks(resid - Min(resid, maxphys), maxphys, k + 1, failAt, answers);
      assert (failAt - k) * maxphys == maxphys + (failAt - k - 1) * maxphys;
      assert (failAt - k - 1) * maxphys >= 0;
    }
  }

  /** No transfer up to the first failure was short. */
  predicate AllFull(resid: nat, maxphys: nat, k: nat, answers: Answers)
    requires maxphys > 0
    decreases resid
  {
    resid == 0 || answers(k).Failed?
    || (answers(k).count >= Min(resid, maxphys)
        && AllFull(resid - Min(resid, maxphys), maxphys, k + 1, answers))
  }

  /** The bytes of the file from an offset on. */
  function From(file: seq<byte>, offset: nat): seq<byte> { if offset <= |file| then file[offset..] else [] }

  // ---- Reading ----

  /** The bounce buffer after a transfer of `len` bytes from `src` that moves `count` of them. */
  function Refilled(buf: seq<byte>, src: seq<byte>, len: nat, count: nat): (r: seq<byte>)
    requires len <= |buf|
    ensures |r| == |buf|
  {
    Splice(buf, 0, src[..Min(count, Min(len, |src|))])
  }

  /** What the buffers of a read get from the file contents `src`: a short transfer leaves the end of
      its chunk as it was in the bounce buffer. */
  function ReadChunks(src: seq<byte>, buf: seq<byte>, resid: nat, maxphys: nat, k: nat,
                      answers: Answers): (r: seq<byte>)
    requires |buf| == maxphys > 0
    ensures |r| == Moved(resid, maxphys, k, answers)
    decreases resid
  {
    if resid == 0 || answers(k).Failed? then []
    else
      var len := Min(resid, maxphys);
      var b := Refilled(buf, src, len, answers(k).count);
      b[..len] + ReadChunks(From(src, len), b, resid - len, maxphys, k + 1, answers)
  }

  lemma {:induction false} FullRefills(buf: seq<byte>, src: seq<byte>, len: nat, count: nat)
    requires len <= |buf| && len <= |src| && count >= len
    ensures Refilled(buf, src, len, count)[..len] == src[..len] && From(src, len) == src[len..]
  {
  }

  lemma {:induction false} TakeSplit(s: seq<byte>, len: nat, n: nat)
    requires len + n <= |s|
    ensures s[..len + n] == s[..len] + s[len..][..n]
  {
  }

  lemma {:induction false} FullReadsFile(src: seq<byte>, buf: seq<byte>, resid: nat, maxphys: nat, k: nat,
                                        answers: Answers)
    requires |buf| == maxphys > 0 && resid <= |src| && AllFull(resid, maxphys, k, answers)
    ensures ReadChunks(src, buf, resid, maxphys, k, answers) == src[..Moved(resid, maxphys, k, answers)]
    decreases resid
  {
    hide ReadChunks, Moved, Refilled, From;
    if resid == 0 || answers(k).Failed? {
      ReadStops(src, buf, resid, maxphys, k, answers);
    } else {
      var len := Min(resid, maxphys);
      ReadUnfolds(src, buf, resid, maxphys, k, answers);
      FullRefills(buf, src, len, answers(k).count);
      FullReadsFile(From(src, len), Refilled(buf, src, len, answers(k).count), resid - len, maxphys, k + 1, answers);
      TakeSplit(src, len, Moved(resid - len, maxphys, k + 1, answers));
    }
  }

  lemma {:induction false} ReadUnfolds(src: seq<byte>, buf: seq<byte>, resid: nat, maxphys: nat, k: nat,
                                       answers: Answers)
    requires |buf| == maxphys > 0 && resid > 0 && answers(k).Got?
    ensures var len := Min(resid, maxphys); var b := Refilled(buf, src, len, answers(k).count);
      && ReadChunks(src, buf, resid, maxphys, k, answers)
         == b[..len] + ReadChunks(From(src, len), b, resid - len, maxphys, k + 1, answers)
      && Moved(resid, maxphys, k, answers) == len + Moved(resid - len, maxphys, k + 1, answers)
  {
    hide Refilled, From;
  }

  /** The last byte of a chunk that came short is the old one. */
  lemma {:induction false} StaleEnd(src: seq<byte>, buf: seq<byte>, len: nat, count: nat)
    requires count < len <= |buf|
    ensures Refilled(buf, src, len, count)[..len][len - 1] == buf[len - 1]
  {
  }

  lemma {:induction false} EndDiffers(a: seq<byte>, r: seq<byte>, s: seq<byte>)
    requires 0 < |a| <= |s| && a[|a| - 1] != s[|a| - 1]
    ensures a + r != s
  {
    assert (a + r)[|a| - 1] == a[|a| - 1];
  }

  lemma {:induction false} FrontRefills(buf: seq<byte>, rest: seq<byte>, count: nat)
    requires count >= |buf|
    ensures Refilled(buf, buf + rest, |buf|, count) == buf && From(buf + rest, |buf|) == rest && buf[..|buf|] == buf
  {
  }

  lemma {:induction false} FrontCancels(a: seq<byte>, r: seq<byte>, t: seq<byte>)
    ensures a + r == a + t ==> r == t
  {
    if a + r == a + t {
      assert r == (a + r)[|a|..] && t == (a + t)[|a|..];
    }
  }

  lemma {:induction false} TakeFront(a: seq<byte>, t: seq<byte>, n: nat)
    requires n <= |t|
    ensures (a + t)[..|a| + n] == a + t[..n]
  {
  }

  /** A file and a bounce buffer with which a short transfer shows. */
  lemma {:induction false} ShortReadShows(m: nat, resid: nat, maxphys: nat, k: nat, answers: Answers)
    returns (src: seq<byte>, buf: seq<byte>)
    requires maxphys > 0 && resid <= m && !AllFull(resid, maxphys, k, answers)
    ensures |src| == m && |buf| == maxphys
    ensures ReadChunks(src, buf, resid, maxphys, k, answers) != src[..Moved(resid, maxphys, k, answers)]
    decreases resid
  {
    hide Refilled, ReadChunks, Moved, From;
    var len := Min(resid, maxphys);
    if answers(k).count < len {
      src, buf := seq(m, _ => 1), seq(maxphys, _ => 0);
      ReadUnfolds(src, buf, resid, maxphys, k, answers);
      StaleEnd(src, buf, len, answers(k).count);
      var b := Refilled(buf, src, len, answers(k).count);
      EndDiffers(b[..len], ReadChunks(From(src, len), b, resid - len, maxphys, k + 1, answers),
                 src[..Moved(resid, maxphys, k, answers)]);
    } else {
      var rest;
      rest, buf := ShortReadShows(m - len, resid - len, maxphys, k + 1, answers);
      src := buf + rest;
      FrontRefills(buf, rest, answers(k).count);
      ReadUnfolds(src, buf, resid, maxphys, k, answers);
      var r := ReadChunks(rest, buf, resid - len, maxphys, k + 1, answers);
      var n := Moved(resid - len, maxphys, k + 1, answers);
      FrontCancels(buf, r, rest[..n]);
      TakeFront(buf, rest, n);
    }
  }

  /** A read of a file that is long enough delivers the file's bytes, whatever they are and whatever
      was in the bounce buffer, if and only if no transfer was short. */
  lemma {:induction false} ReadIsExactly(m: nat, resid: nat, maxphys: nat, answers: Answers)
    requires maxphys > 0 && resid <= m
    ensures (forall src: seq<byte>, buf: seq<byte> :: |src| == m && |buf| == maxphys ==>
              ReadChunks(src, buf, resid, maxphys, 0, answers) == src[..Moved(resid, maxphys, 0, answers)])
            <==> AllFull(resid, maxphys, 0, answers)
  {
    hide ReadChunks, AllFull, Moved;
    if AllFull(resid, maxphys, 0, answers) {
      forall src: seq<byte>, buf: seq<byte> | |src| == m && |buf| == maxphys
        ensures ReadChunks(src, buf, resid, maxphys, 0, answers) == src[..Moved(resid, maxphys, 0, answers)]
      {
        FullReadsFile(src, buf, resid, maxphys, 0, answers);
      }
    } else {
      var src, buf := ShortReadShows(m, resid, maxphys, 0, answers);
    }
  }

  /** BOP_READ: the buffers hold what a vectored read of the delivered bytes would put there, the residue
      counts the chunks before the first failure, and only that is an error. */
  method Read(file: seq<byte>, offset: nat, buf0: seq<byte>, iov0: seq<seq<byte>>, resid0: nat, maxphys: nat,
              answers: Answers)
    returns (iov: seq<seq<byte>>, resid: nat, err: bool)
    requires |buf0| == maxphys > 0 && resid0 <= |Flatten(iov0)|
    ensures iov == Scatter(iov0, ReadChunks(From(file, offset), buf0, resid0, maxphys, 0, answers))
    ensures resid == resid0 - Moved(resid0, maxphys, 0, answers) && (err <==> resid > 0)
  {
    hide At, SameShape, Splice, ReadChunks, Moved, Refilled, From, Flatten, Scattered, Reading;
    var i, voff, off: nat, chunk: nat, buf := 0, 0, 0, 0, buf0;
    iov, resid, err := iov0, resid0, false;
    StartOfTransfer(iov0);
    NothingScattered(iov0, 0, 0, 0);
    ghost var all, done := ReadChunks(From(file, offset), buf0, resid0, maxphys, 0, answers), [];
    ReadStart(file, offset, buf0, resid0, maxphys, answers);
    while resid > 0
      invariant off + resid == resid0 && |done| == off && |buf| == maxphys && !err
      invariant Scattered(iov0, 0, done, iov, i, voff)
      invariant Reading(file, offset, all, done, buf, resid, maxphys, chunk, answers)
      decreases resid
    {
      if answers(chunk).Failed? {
        err := true;
        break;
      }
      var len := Min(resid, maxphys);
      ReadNext(file, offset, all, done, buf, resid, maxphys, chunk, answers);
      buf := Refilled(buf, From(file, offset + off), len, answers(chunk).count);
      iov, i, voff := ReadChunk(iov0, iov, i, voff, done, buf[..len]);
      done := done + buf[..len];
      off, resid, chunk := off + len, resid - len, chunk + 1;
    }
    ReadEnd(file, offset, all, done, buf, resid, maxphys, chunk, answers);
    ReadDone(iov0, iov, all, i, voff);
  }

  /** What is delivered so far, and what is left to deliver. */
  ghost predicate Reading(file: seq<byte>, offset: nat, all: seq<byte>, done: seq<byte>, buf: seq<byte>,
                          resid: nat, maxphys: nat, k: nat, answers: Answers)
  {
    && |buf| == maxphys > 0
    && all == done + ReadChunks(From(file, offset + |done|), buf, resid, maxphys, k, answers)
  }

  lemma {:induction false} ReadStart(file: seq<byte>, offset: nat, buf: seq<byte>, resid: nat, maxphys: nat,
                                     answers: Answers)
    requires |buf| == maxphys > 0
    ensures var all := ReadChunks(From(file, offset), buf, resid, maxphys, 0, answers);
      Reading(file, offset, all, [], buf, resid, maxphys, 0, answers) && |all| == Moved(resid, maxphys, 0, answers)
  {
    hide ReadChunks, From, Moved;
  }

  lemma {:induction false} ReadNext(file: seq<byte>, offset: nat, all: seq<byte>, done: seq<byte>, buf: seq<byte>,
                                    resid: nat, maxphys: nat, k: nat, answers: Answers)
    requires Reading(file, offset, all, done, buf, resid, maxphys, k, answers) && resid > 0 && answers(k).Got?
    ensures var len := Min(resid, maxphys);
      var b := Refilled(buf, From(file, offset + |done|), len, answers(k).count);
      Reading(file, offset, all, done + b[..len], b, resid - len, maxphys, k + 1, answers)
  {
    hide Refilled, ReadChunks, From;
    var src, len := From(file, offset + |done|), Min(resid, maxphys);
    var b := Refilled(buf, src, len, answers(k).count);
    ReadUnfolds(src, buf, resid, maxphys, k, answers);
    FromFrom(file, offset + |done|, len);
    Assoc(done, b[..len], ReadChunks(From(src, len), b, resid - len, maxphys, k + 1, answers));
  }

  lemma {:induction false} FromFrom(file: seq<byte>, pos: nat, len: nat)
    ensures From(From(file, pos), len) == From(file, pos + len)
  {
  }

  lemma {:induction false} ReadEnd(file: seq<byte>, offset: nat, all: seq<byte>, done: seq<byte>, buf: seq<byte>,
                                   resid: nat, maxphys: nat, k: nat, answers: Answers)
    requires Reading(file, offset, all, done, buf, resid, maxphys, k, answers) && (resid == 0 || answers(k).Failed?)
    ensures done == all
  {
    ReadStops(From(file, offset + |done|), buf, resid, maxphys, k, answers);
  }

  lemma {:induction false} ReadStops(src: seq<byte>, buf: seq<byte>, resid: nat, maxphys: nat, k: nat, answers: Answers)
    requires |buf| == maxphys > 0 && (resid == 0 || answers(k).Failed?)
    ensures ReadChunks(src, buf, resid, maxphys, k, answers) == []
  {
  }

  /** The copies for one chunk continue those before it. */
  method ReadChunk(ghost iov0: seq<seq<byte>>, iov1: seq<seq<byte>>, i1: nat, voff1: nat, ghost done: seq<byte>,
                   chunk: seq<byte>)
    returns (iov: seq<seq<byte>>, i: nat, voff: nat)
    requires |done| + |chunk| <= |Flatten(iov0)| && Scattered(iov0, 0, done, iov1, i1, voff1)
    ensures Scattered(iov0, 0, done + chunk, iov, i, voff)
  {
    iov, i, voff := CopyOut(iov1, i1, voff1, |done|, chunk);
    SpliceTwice(Flatten(iov0), 0, done, chunk);
  }

  lemma {:induction false} StartOfTransfer(iov0: seq<seq<byte>>)
    ensures At(iov0, 0, 0, 0)
  {
  }

  /** Same shape and same flattened contents as the vectored transfer: the same buffers. */
  lemma {:induction false} ReadDone(iov0: seq<seq<byte>>, iov: seq<seq<byte>>, data: seq<byte>, i: nat, voff: nat)
    requires Scattered(iov0, 0, data, iov, i, voff)
    ensures iov == Scatter(iov0, data)
  {
    ScatterFlattens(iov0, data);
    FlattenIsInjective(iov, Scatter(iov0, data));
  }

  // ---- Writing ----

  /** The first chunk of the file when `n` of its `len` bytes were written. */
  function WrittenChunk(dst: seq<byte>, data: seq<byte>, len: nat, n: nat): (r: seq<byte>)
    requires n <= len <= |data| <= |dst|
    ensures |r| == len
  {
    data[..n] + dst[n..len]
  }

  /** What a write of `data` makes of the file contents `dst`: a short transfer skips the end of its chunk. */
  function WriteChunks(dst: seq<byte>, data: seq<byte>, maxphys: nat, k: nat, answers: Answers): (r: seq<byte>)
    requires maxphys > 0 && |data| <= |dst|
    ensures |r| == |dst|
    decreases |data|
  {
    if data == [] || answers(k).Failed? then dst
    else
      var len := Min(|data|, maxphys);
      var n := Min(answers(k).count, len);
      WrittenChunk(dst, data, len, n) + WriteChunks(dst[len..], data[len..], maxphys, k + 1, answers)
  }

  lemma {:induction false} WriteStops(dst: seq<byte>, data: seq<byte>, maxphys: nat, k: nat, answers: Answers)
    requires maxphys > 0 && |data| <= |dst| && (data == [] || answers(k).Failed?)
    ensures WriteChunks(dst, data, maxphys, k, answers) == dst && Moved(|data|, maxphys, k, answers) == 0
    ensures Splice(dst, 0, data[..0]) == dst
  {
  }

  lemma {:induction false} WriteUnfolds(dst: seq<byte>, data: seq<byte>, maxphys: nat, k: nat, answers: Answers)
    requires maxphys > 0 && 0 < |data| <= |dst| && answers(k).Got?
    ensures var len := Min(|data|, maxphys); var n := Min(answers(k).count, len);
      && WriteChunks(dst, data, maxphys, k, answers)
         == WrittenChunk(dst, data, len, n) + WriteChunks(dst[len..], data[len..], maxphys, k + 1, answers)
      && Moved(|data|, maxphys, k, answers) == len + Moved(|data| - len, maxphys, k + 1, answers)
      && (n == len ==> WrittenChunk(dst, data, len, n) == data[..len])
  {
    var len := Min(|data|, maxphys);
    assert dst[len..len] == [];
  }

  lemma {:induction false} SpliceFront(dst: seq<byte>, a: seq<byte>, b: seq<byte>)
    requires |a| + |b| <= |dst|
    ensures Splice(dst, 0, a + b) == a + Splice(dst[|a|..], 0, b)
  {
  }

  lemma {:induction false} FullWritesData(dst: seq<byte>, data: seq<byte>, maxphys: nat, k: nat, answers: Answers)
    requires maxphys > 0 && |data| <= |dst| && AllFull(|data|, maxphys, k, answers)
    ensures WriteChunks(dst, data, maxphys, k, answers) == Splice(dst, 0, data[..Moved(|data|, maxphys, k, answers)])
    decreases |data|
  {
    hide Splice, WriteChunks, Moved;
    if data == [] || answers(k).Failed? {
      WriteStops(dst, data, maxphys, k, answers);
    } else {
      var len := Min(|data|, maxphys);
      var n := Moved(|data| - len, maxphys, k + 1, answers);
      WriteUnfolds(dst, data, maxphys, k, answers);
      FullWritesData(dst[len..], data[len..], maxphys, k + 1, answers);
      TakeSplit(data, len, n);
      SpliceFront(dst, data[..len], data[len..][..n]);
    }
  }

  lemma {:induction false} FrontRest(a: seq<byte>, t: seq<byte>)
    ensures (a + t)[..|a|] == a && (a + t)[|a|..] == t
  {
  }

  lemma {:induction false} UnwrittenEnd(dst: seq<byte>, data: seq<byte>, len: nat, n: nat)
    requires n < len <= |data| <= |dst|
    ensures WrittenChunk(dst, data, len, n)[len - 1] == dst[len - 1]
  {
  }

  lemma {:induction false} SplicedByte(dst: seq<byte>, data: seq<byte>, i: nat)
    requires i < |data| <= |dst|
    ensures Splice(dst, 0, data)[i] == data[i]
  {
  }

  /** A file and data with which a short transfer shows. */
  lemma {:induction false} ShortWriteShows(m: nat, resid: nat, maxphys: nat, k: nat, answers: Answers)
    returns (dst: seq<byte>, data: seq<byte>)
    requires maxphys > 0 && resid <= m && !AllFull(resid, maxphys, k, answers)
    ensures |dst| == m && |data| == resid
    ensures WriteChunks(dst, data, maxphys, k, answers) != Splice(dst, 0, data[..Moved(resid, maxphys, k, answers)])
    decreases resid
  {
    hide Splice, WriteChunks, Moved, WrittenChunk;
    var len := Min(resid, maxphys);
    var n := Moved(resid - len, maxphys, k + 1, answers);
    if answers(k).count < len {
      dst, data := seq(m, _ => 0), seq(resid, _ => 1);
      WriteUnfolds(dst, data, maxphys, k, answers);
      SplicedByte(dst, data[..len + n], len - 1);
      UnwrittenEnd(dst, data, len, answers(k).count);
      EndDiffers(WrittenChunk(dst, data, len, answers(k).count),
                 WriteChunks(dst[len..], data[len..], maxphys, k + 1, answers), Splice(dst, 0, data[..len + n]));
    } else {
      var dst', data' := ShortWriteShows(m - len, resid - len, maxphys, k + 1, answers);
      var ones: seq<byte> := seq(len, _ => 1);
      dst, data := ones + dst', ones + data';
      FrontRest(ones, dst');
      FrontRest(ones, data');
      WriteUnfolds(dst, data, maxphys, k, answers);
      TakeFront(ones, data', n);
      SpliceFront(dst, ones, data'[..n]);
      FrontCancels(ones, WriteChunks(dst', data', maxphys, k + 1, answers), Splice(dst', 0, data'[..n]));
    }
  }

  /** A write into a file that is long enough leaves the data there, whatever it is and whatever was in
      the file, if and only if no transfer was short. */
  lemma {:induction false} WriteIsExactly(m: nat, resid: nat, maxphys: nat, answers: Answers)
    requires maxphys > 0 && resid <= m
    ensures (forall dst: seq<byte>, data: seq<byte> :: |dst| == m && |data| == resid ==>
              WriteChunks(dst, data, maxphys, 0, answers) == Splice(dst, 0, data[..Moved(resid, maxphys, 0, answers)]))
            <==> AllFull(resid, maxphys, 0, answers)
  {
    hide WriteChunks, AllFull, Moved, Splice;
    if AllFull(resid, maxphys, 0, answers) {
      forall dst: seq<byte>, data: seq<byte> | |dst| == m && |data| == resid
        ensures WriteChunks(dst, data, maxphys, 0, answers) == Splice(dst, 0, data[..Moved(resid, maxphys, 0, answers)])
      {
        FullWritesData(dst, data, maxphys, 0, answers);
      }
    } else {
      var dst, data := ShortWriteShows(m, resid, maxphys, 0, answers);
    }
  }

  /** BOP_WRITE: likewise for the file. */
  method Write(file0: seq<byte>, offset: nat, iov: seq<seq<byte>>, resid0: nat, maxphys: nat, answers: Answers)
    returns (file: seq<byte>, resid: nat, err: bool)
    requires maxphys > 0 && resid0 <= |Flatten(iov)| && offset + resid0 <= |file0|
    ensures file == file0[..offset] + WriteChunks(file0[offset..], Flatten(iov)[..resid0], maxphys, 0, answers)
    ensures resid == resid0 - Moved(resid0, maxphys, 0, answers) && (err <==> resid > 0)
  {
    hide At, WriteChunks, Moved, Splice;
    var i, voff, off: nat, chunk: nat := 0, 0, 0, 0;
    file, resid, err := file0, resid0, false;
    StartOfTransfer(iov);
    ghost var all := Flatten(iov)[..resid0];
    WriteStart(file0, offset, all, maxphys, answers);
    while resid > 0
      invariant off + resid == resid0 && At(iov, i, voff, off) && !err
      invariant Writing(file0, offset, all, off, file, maxphys, chunk, answers)
      decreases resid
    {
      var len := Min(resid, maxphys);
      var buf;
      buf, i, voff := CopyIn(iov, i, voff, off, len);
      if answers(chunk).Failed? {
        err := true;
        break;
      }
      assert buf == all[off..off + len];
      WriteNext(file0, offset, all, off, file, maxphys, chunk, answers);
      file := Splice(file, offset + off, buf[..Min(answers(chunk).count, len)]);
      off, resid, chunk := off + len, resid - len, chunk + 1;
    }
    WriteEnd(file0, offset, all, off, file, maxphys, chunk, answers);
  }

  /** The chunks up to `off` are written, the rest of the file is as it was. */
  ghost predicate Writing(file0: seq<byte>, offset: nat, all: seq<byte>, off: nat, file: seq<byte>,
                          maxphys: nat, k: nat, answers: Answers)
  {
    && maxphys > 0 && offset + |all| <= |file0| == |file| && off <= |all|
    && file[offset + off..] == file0[offset + off..] && file[..offset] == file0[..offset]
    && WriteChunks(file0[offset..], all, maxphys, 0, answers)
       == file[offset..offset + off] + WriteChunks(file0[offset + off..], all[off..], maxphys, k, answers)
    && Moved(|all|, maxphys, 0, answers) == off + Moved(|all| - off, maxphys, k, answers)
  }

  lemma {:induction false} WriteStart(file0: seq<byte>, offset: nat, all: seq<byte>, maxphys: nat, answers: Answers)
    requires maxphys > 0 && offset + |all| <= |file0|
    ensures Writing(file0, offset, all, 0, file0, maxphys, 0, answers)
  {
    hide WriteChunks, Moved;
    assert all[0..] == all && file0[offset..offset] == [];
  }

  lemma {:induction false} SpliceWindow(s: seq<byte>, lo: nat, at: nat, x: seq<byte>, hi: nat)
    requires lo <= at && at + |x| <= hi <= |s|
    ensures var r := Splice(s, at, x);
      r[lo..hi] == s[lo..at] + (x + s[at + |x|..hi]) && r[..lo] == s[..lo] && r[hi..] == s[hi..]
  {
  }

  lemma {:induction false} SubSlice(s: seq<byte>, at: nat, n: nat, len: nat)
    requires n <= len && at + len <= |s|
    ensures s[at..][n..len] == s[at + n..at + len]
  {
    forall i | 0 <= i < len - n ensures s[at..][n..len][i] == s[at + n..at + len][i] {}
  }

  lemma {:induction false} FrontSlice(s: seq<byte>, at: nat, len: nat, n: nat)
    requires n <= len && at + len <= |s|
    ensures s[at..at + len][..n] == s[at..][..n]
  {
    forall i | 0 <= i < n ensures s[at..at + len][..n][i] == s[at..][..n][i] {}
  }

  lemma {:induction false} SameTail(s: seq<byte>, t: seq<byte>, at: nat, n: nat, len: nat)
    requires n <= len && at + len <= |s| && |t| == |s| && s[at..] == t[at..]
    ensures s[at + n..at + len] == t[at..][n..len] && s[at + len..] == t[at + len..]
  {
    SubSlice(s, at, n, len);
    TailTail(s, at, len);
    TailTail(t, at, len);
  }

  lemma {:induction false} TailTail(s: seq<byte>, at: nat, len: nat)
    requires at + len <= |s|
    ensures s[at..][len..] == s[at + len..]
  {
  }

  lemma {:induction false} WriteNext(file0: seq<byte>, offset: nat, all: seq<byte>, off: nat, file: seq<byte>,
                                     maxphys: nat, k: nat, answers: Answers)
    requires Writing(file0, offset, all, off, file, maxphys, k, answers) && off < |all| && answers(k).Got?
    ensures var len := Min(|all| - off, maxphys); var n := Min(answers(k).count, len);
      var file' := Splice(file, offset + off, all[off..off + len][..n]);
      Writing(file0, offset, all, off + len, file', maxphys, k + 1, answers)
  {
    hide Splice, WriteChunks, Moved;
    var len := Min(|all| - off, maxphys);
    var n := Min(answers(k).count, len);
    var at := offset + off;
    var dst, rest := file0[at..], all[off..];
    SpliceWindow(file, offset, at, rest[..n], at + len);
    WriteUnfolds(dst, rest, maxphys, k, answers);
    SameTail(file, file0, at, n, len);
    TailTail(file0, at, len);
    TailTail(all, off, len);
    FrontSlice(all, off, len, n);
    hide WrittenChunk;
    Assoc(file[offset..at], WrittenChunk(dst, rest, len, n),
          WriteChunks(dst[len..], rest[len..], maxphys, k + 1, answers));
  }

  lemma {:induction false} WriteEnd(file0: seq<byte>, offset: nat, all: seq<byte>, off: nat, file: seq<byte>,
                                    maxphys: nat, k: nat, answers: Answers)
    requires Writing(file0, offset, all, off, file, maxphys, k, answers) && (off == |all| || answers(k).Failed?)
    ensures file == file0[..offset] + WriteChunks(file0[offset..], all, maxphys, 0, answers)
    ensures Moved(|all|, maxphys, 0, answers) == off
  {
    assert file == file[..offset] + (file[offset..offset + off] + file[offset + off..]);
  }
}
