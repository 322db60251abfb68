/** TCP segmentation offload: cutting one payload into segments (pci_e82545.c). */
module E1000Tso {
  import opened Seqs
  import opened Arith

  const U16 := 0x1_0000
  const U32 := 0x1_0000_0000

  /** What the loop sends for one segment: the payload pieces, and the header values it writes.
      `now` is the payload length the headers announce. */
  datatype Segment = Segment(pieces: seq<seq<byte>>, now: nat, ipLen: int, ipId: nat, tcpSeq: nat)

  /** Header values taken from the packet and the transmit context. */
  datatype Ctx = Ctx(hdrlen: nat, ipStart: nat, ipv4: bool, ipId: nat, tcpSeq: nat)

  function Payload(s: Segment): seq<byte> { Flatten(s.pieces) }

  function Payloads(segs: seq<Segment>): seq<byte> {
    if segs == [] then [] else Payloads(segs[..|segs| - 1]) + Payload(segs[|segs| - 1])
  }

  /** Bytes announced by a list of segments. */
  function Announced(segs: seq<Segment>): nat {
    if segs == [] then 0 else Announced(segs[..|segs| - 1]) + segs[|segs| - 1].now
  }

  /** What is left of the payload at piece `pv`, offset `pvoff`. */
  function Rest(payload: seq<seq<byte>>, pv: nat, pvoff: nat): seq<byte>
    requires pv <= |payload| && (pv < |payload| ==> pvoff <= |payload[pv]|)
  {
    if pv == |payload| then [] else payload[pv][pvoff..] + Flatten(payload[pv + 1..])
  }

  /** A cursor into the payload. */
  datatype Cursor = Cursor(pv: nat, pvoff: nat)

  predicate At(payload: seq<seq<byte>>, c: Cursor) {
    c.pv <= |payload| && (c.pv < |payload| ==> c.pvoff <= |payload[c.pv]|)
  }

  function Remaining(payload: seq<seq<byte>>, c: Cursor): seq<byte>
    requires At(payload, c)
  {
    Rest(payload, c.pv, c.pvoff)
  }

  function Advance(payload: seq<seq<byte>>, c: Cursor, nnow: nat): Cursor
    requires At(payload, c) && c.pv < |payload|
  {
    if c.pvoff + nnow == |payload[c.pv]| then Cursor(c.pv + 1, 0) else Cursor(c.pv, c.pvoff + nnow)
  }

  lemma {:induction false} AdvanceTakes(payload: seq<seq<byte>>, c: Cursor, nleft: nat)
    requires At(payload, c) && c.pv < |payload|
    ensures var nnow := Min(nleft, |payload[c.pv]| - c.pvoff);
      && At(payload, Advance(payload, c, nnow))
      && Remaining(payload, c) == payload[c.pv][c.pvoff..c.pvoff + nnow] + Remaining(payload, Advance(payload, c, nnow))
  {
    if c.pv + 1 < |payload| {
      assert payload[c.pv + 1..][1..] == payload[c.pv + 2..];
    }
  }

  /** The inner loop: collect the pieces of the next `now` payload bytes. */
  method TakeBytes(payload: seq<seq<byte>>, c0: Cursor, now: nat) returns (pieces: seq<seq<byte>>, c: Cursor)
    requires At(payload, c0)
    ensures At(payload, c)
    ensures Flatten(pieces) + Remaining(payload, c) == Remaining(payload, c0)
    ensures |Flatten(pieces)| == Min(now, |Remaining(payload, c0)|)
  {
    var nleft := now;
    c, pieces := c0, [];
    while c.pv < |payload| && nleft > 0
      invariant 0 <= nleft && At(payload, c)
      invariant Taken(payload, c0, c, pieces) && |Flatten(pieces)| == now - nleft
      decreases nleft, |payload| - c.pv
    {
      AdvanceTakes(payload, c, nleft);
      var nnow := Min(nleft, |payload[c.pv]| - c.pvoff);
      var piece := payload[c.pv][c.pvoff..c.pvoff + nnow];
      TakePiece(payload, c0, c, Advance(payload, c, nnow), pieces, piece);
      pieces := pieces + [piece];
      c := Advance(payload, c, nnow);
      nleft := nleft - nnow;
    }
  }

  ghost predicate Taken(payload: seq<seq<byte>>, c0: Cursor, c: Cursor, pieces: seq<seq<byte>>)
    requires At(payload, c0) && At(payload, c)
  {
    Flatten(pieces) + Remaining(payload, c) == Remaining(payload, c0)
  }

  lemma {:induction false} TakePiece(payload: seq<seq<byte>>, c0: Cursor, c: Cursor, c': Cursor,
                                     pieces: seq<seq<byte>>, piece: seq<byte>)
    requires At(payload, c0) && At(payload, c) && At(payload, c') && Taken(payload, c0, c, pieces)
    requires Remaining(payload, c) == piece + Remaining(payload, c')
    ensures Taken(payload, c0, c', pieces + [piece]) && Flatten(pieces + [piece]) == Flatten(pieces) + piece
  {
    FlattenSnoc(pieces, piece);
    Assoc(Flatten(pieces), piece, Remaining(payload, c'));
  }

  /** Header values of segment `k` that starts `at` bytes into the payload. */
  predicate Headers(s: Segment, ctx: Ctx, k: nat, at: nat) {
    && s.tcpSeq == (ctx.tcpSeq + at) % U32
    && s.ipLen == ctx.hdrlen - ctx.ipStart + s.now - (if ctx.ipv4 then 0 else 40)
    && (ctx.ipv4 ==> s.ipId == (ctx.ipId + k) % U16)
  }

  /** Update the length, identification and sequence number for segment `seg`. */
  function WithHeaders(pieces: seq<seq<byte>>, now: nat, ctx: Ctx, seg: nat, sent: nat): (s: Segment)
    ensures Headers(s, ctx, seg, sent)
  {
    Segment(pieces, now, ctx.hdrlen - ctx.ipStart + now - (if ctx.ipv4 then 0 else 40),
            if ctx.ipv4 then (ctx.ipId + seg) % U16 else ctx.ipId, (ctx.tcpSeq + sent) % U32)
  }

  ghost predicate AllFull(segs: seq<Segment>, mss: nat) {
    forall k :: 0 <= k < |segs| ==> segs[k].now == mss
  }

  /** Segment `k` is full unless it is the last, carries the payload that starts where the
      announced lengths before it end, and numbers itself accordingly. */
  ghost predicate Cut(segs: seq<Segment>, ctx: Ctx, mss: nat, flat: seq<byte>) {
    forall k :: 0 <= k < |segs| ==> CutAt(segs, k, ctx, mss, flat)
  }

  ghost predicate CutAt(segs: seq<Segment>, k: nat, ctx: Ctx, mss: nat, flat: seq<byte>)
    requires k < |segs|
  {
    var at := Announced(segs[..k]);
    && 0 < segs[k].now <= mss && (k < |segs| - 1 ==> segs[k].now == mss)
    && Headers(segs[k], ctx, k, at)
    && Payload(segs[k]) == flat[Min(at, |flat|)..Min(at + segs[k].now, |flat|)]
  }

  /** The segmentation loop. It would not end for a zero segment size, so one is required unless
      there is nothing to send. */
  method SegmentPayload(payload: seq<seq<byte>>, ctx: Ctx, paylen: nat, mss: nat) returns (segs: seq<Segment>)
    requires mss > 0 || paylen == 0
    ensures Cut(segs, ctx, mss, Flatten(payload))
    ensures Announced(segs) == paylen
    ensures Payloads(segs) == Flatten(payload)[..Min(paylen, |Flatten(payload)|)]
  {
    var c, left := Cursor(0, 0), paylen;
    ghost var flat := Flatten(payload);
    ghost var done: nat := 0;
    segs := [];
    CursorStart(payload, ctx, mss);
    while left > 0
      invariant 0 <= left <= paylen && At(payload, c)
      invariant done == paylen - left && Sent(segs, ctx, mss, flat, Remaining(payload, c), done)
      invariant left > 0 ==> AllFull(segs, mss)
    {
      var now := Min(left, mss);
      segs, c := SendNext(segs, payload, c, ctx, paylen - left, now, mss);
      done, left := done + now, left - now;
    }
  }

  /** One turn of the loop: gather `now` bytes, write the headers, send. */
  method SendNext(segs: seq<Segment>, payload: seq<seq<byte>>, c: Cursor, ctx: Ctx, sent: nat, now: nat, ghost mss: nat)
    returns (segs': seq<Segment>, c': Cursor)
    requires At(payload, c) && 0 < now <= mss && AllFull(segs, mss)
    requires Sent(segs, ctx, mss, Flatten(payload), Remaining(payload, c), sent)
    ensures At(payload, c')
    ensures Sent(segs', ctx, mss, Flatten(payload), Remaining(payload, c'), sent + now)
    ensures now == mss ==> AllFull(segs', mss)
  {
    var pieces: seq<seq<byte>>;
    pieces, c' := TakeBytes(payload, c, now);
    var s := WithHeaders(pieces, now, ctx, |segs|, sent);
    SendOne(segs, s, ctx, mss, Flatten(payload), Remaining(payload, c), Remaining(payload, c'), sent);
    segs' := segs + [s];
  }

  lemma {:induction false} CursorStart(payload: seq<seq<byte>>, ctx: Ctx, mss: nat)
    ensures At(payload, Cursor(0, 0))
    ensures Sent([], ctx, mss, Flatten(payload), Remaining(payload, Cursor(0, 0)), 0)
  {
  }

  /** `done` payload bytes have been announced; the cursor stands behind the bytes sent. */
  ghost predicate Sent(segs: seq<Segment>, ctx: Ctx, mss: nat, flat: seq<byte>, rest: seq<byte>, done: nat) {
    && Cut(segs, ctx, mss, flat)
    && Announced(segs) == done
    && Payloads(segs) == flat[..Min(done, |flat|)]
    && rest == flat[Min(done, |flat|)..]
  }

  lemma {:induction false} SendOne(segs: seq<Segment>, s: Segment, ctx: Ctx, mss: nat, flat: seq<byte>,
                rest: seq<byte>, rest': seq<byte>, done: nat)
    requires Sent(segs, ctx, mss, flat, rest, done) && AllFull(segs, mss)
    requires 0 < s.now <= mss && Headers(s, ctx, |segs|, done)
    requires Payload(s) + rest' == rest && |Payload(s)| == Min(s.now, |rest|)
    ensures Sent(segs + [s], ctx, mss, flat, rest', done + s.now)
    ensures s.now == mss ==> AllFull(segs + [s], mss)
  {
    var segs' := segs + [s];
    assert segs'[..|segs|] == segs;
    NextSlice(flat, rest, rest', Payload(s), done, s.now);
    forall k | 0 <= k < |segs'| ensures CutAt(segs', k, ctx, mss, flat) {
      if k < |segs| { CutStays(segs, s, k, ctx, mss, flat); }
    }
  }

  lemma {:induction false} CutStays(segs: seq<Segment>, s: Segment, k: nat, ctx: Ctx, mss: nat, flat: seq<byte>)
    requires k < |segs| && CutAt(segs, k, ctx, mss, flat) && segs[k].now == mss
    ensures CutAt(segs + [s], k, ctx, mss, flat)
  {
    assert (segs + [s])[..k] == segs[..k];
  }

  lemma {:induction false} NextSlice(flat: seq<byte>, rest: seq<byte>, rest': seq<byte>, p: seq<byte>, done: nat,
                                     now: nat)
    requires rest == flat[Min(done, |flat|)..] && p + rest' == rest && |p| == Min(now, |rest|)
    ensures p == flat[Min(done, |flat|)..Min(done + now, |flat|)]
    ensures rest' == flat[Min(done + now, |flat|)..]
    ensures flat[..Min(done, |flat|)] + p == flat[..Min(done + now, |flat|)]
  {
    assert p == rest[..|p|] && rest' == rest[|p|..];
  }

  // ---- What the cut means ----

  /** Segment `k` starts `k` full segments into the payload. */
  lemma {:induction false} FullSegmentsStart(segs: seq<Segment>, ctx: Ctx, mss: nat, flat: seq<byte>, k: nat)
    requires Cut(segs, ctx, mss, flat) && k < |segs|
    ensures Announced(segs[..k]) == k * mss
  {
    if k > 0 {
      FullSegmentsStart(segs, ctx, mss, flat, k - 1);
      assert segs[k - 1].now == mss by { assert CutAt(segs, k - 1, ctx, mss, flat); }
      assert segs[..k][..k - 1] == segs[..k - 1];
      assert k * mss == (k - 1) * mss + mss;
    }
  }

  /** There are ceil(paylen / mss) segments. */
  lemma {:induction false} SegmentCount(segs: seq<Segment>, ctx: Ctx, mss: nat, flat: seq<byte>, paylen: nat)
    requires Cut(segs, ctx, mss, flat) && Announced(segs) == paylen && mss > 0
    ensures |segs| == (paylen + mss - 1) / mss
  {
    var n := |segs|;
    if n == 0 {
      DivModUnique(mss - 1, mss, 0, mss - 1);
    } else {
      FullSegmentsStart(segs, ctx, mss, flat, n - 1);
      assert CutAt(segs, n - 1, ctx, mss, flat);
      CeilingCount(paylen, mss, n, segs[n - 1].now);
    }
  }

  lemma {:induction false} CeilingCount(paylen: nat, mss: nat, n: nat, last: nat)
    requires n > 0 && 0 < last <= mss && paylen == (n - 1) * mss + last
    ensures n == (paylen + mss - 1) / mss
  {
    assert mss * n == (n - 1) * mss + mss;
    DivModUnique(paylen + mss - 1, mss, n, last - 1);
  }

  /** Each sequence number is the previous one plus the previous payload length, modulo 2^32, and
      each IPv4 identification is one more than the previous, modulo 2^16. */
  lemma {:induction false} NumbersFollow(segs: seq<Segment>, ctx: Ctx, mss: nat, flat: seq<byte>, k: nat)
    requires Cut(segs, ctx, mss, flat) && k + 1 < |segs|
    ensures segs[k + 1].tcpSeq == (segs[k].tcpSeq + segs[k].now) % U32
    ensures ctx.ipv4 ==> segs[k + 1].ipId == (segs[k].ipId + 1) % U16
  {
    assert CutAt(segs, k, ctx, mss, flat) && CutAt(segs, k + 1, ctx, mss, flat);
    assert segs[..k + 1][..k] == segs[..k];
    ModStep(ctx.tcpSeq + Announced(segs[..k]), segs[k].now, U32);
    ModStep(ctx.ipId + k, 1, U16);
  }

  lemma {:induction false} ModStep(a: nat, b: nat, m: nat)
    requires m == U16 || m == U32
    ensures (a % m + b) % m == (a + b) % m
  {
  }

  /** When the pieces hold the announced payload, every segment carries what its headers announce. */
  lemma {:induction false} AnnouncedIsCarried(segs: seq<Segment>, ctx: Ctx, mss: nat, flat: seq<byte>, k: nat)
    requires Cut(segs, ctx, mss, flat) && Announced(segs) <= |flat| && k < |segs|
    ensures |Payload(segs[k])| == segs[k].now
  {
    assert CutAt(segs, k, ctx, mss, flat);
    AnnouncedGrows(segs, k + 1);
    assert segs[..k + 1][..k] == segs[..k];
  }

  lemma {:induction false} AnnouncedGrows(segs: seq<Segment>, k: nat)
    requires k <= |segs|
    ensures Announced(segs[..k]) <= Announced(segs)
    decreases |segs| - k
  {
    if k < |segs| {
      AnnouncedGrows(segs, k + 1);
      assert segs[..k + 1][..k] == segs[..k];
    } else {
      assert segs[..k] == segs;
    }
  }
}
