/** Splitting a packet over netmap slots and putting it together again (net_backends.c). */
module Netmap {
  import opened Seqs

  /** A slot: its buffer, how much of it is used, and NS_MOREFRAG. */
  datatype Slot = Slot(buf: seq<byte>, len: nat, more: bool)

  // ---- Positions in the ring ----

  /** `k` steps of nm_ring_next from `h`. */
  function Nth(h: nat, k: nat, n: nat): nat
    requires h < n && k <= n
  {
    if h + k < n then h + k else h + k - n
  }

  function RingNext(i: nat, n: nat): nat { if i + 1 == n then 0 else i + 1 }

  /** Slots from `head` up to `tail`. */
  function Space(head: nat, tail: nat, n: nat): (r: nat)
    requires head < n && tail < n
    ensures r < n && Nth(head, r, n) == tail
  {
    if head <= tail then tail - head else tail - head + n
  }

  predicate SlotsOk(slots: seq<Slot>) {
    forall i :: 0 <= i < |slots| ==> slots[i].len <= |slots[i].buf|
  }

  function Data(s: Slot): seq<byte>
    requires s.len <= |s.buf|
  {
    s.buf[..s.len]
  }

  /** The data of the first `k` slots from `h`. */
  function Contents(slots: seq<Slot>, h: nat, k: nat): seq<byte>
    requires SlotsOk(slots) && h < |slots| && k <= |slots|
  {
    if k == 0 then [] else Contents(slots, h, k - 1) + Data(slots[Nth(h, k - 1, |slots|)])
  }

  /** The first `k` slots from `h` are one packet: all but the last announce more fragments. */
  ghost predicate IsFrame(slots: seq<Slot>, h: nat, k: nat, packet: seq<byte>) {
    && SlotsOk(slots) && h < |slots| && 0 < k <= |slots|
    && Contents(slots, h, k) == packet
    && forall i :: 0 <= i < k ==> slots[Nth(h, i, |slots|)].more == (i < k - 1)
  }

  /** Slots that carry the same fragments carry the same packet, whichever ring they are in. */
  lemma {:induction false} SameContents(a: seq<Slot>, ha: nat, b: seq<Slot>, hb: nat, k: nat)
    requires SlotsOk(a) && ha < |a| && SlotsOk(b) && hb < |b| && k <= |a| && k <= |b|
    requires forall i :: 0 <= i < k ==> SameData(a[Nth(ha, i, |a|)], b[Nth(hb, i, |b|)])
    ensures Contents(a, ha, k) == Contents(b, hb, k)
  {
    if k > 0 {
      SameContents(a, ha, b, hb, k - 1);
      assert SameData(a[Nth(ha, k - 1, |a|)], b[Nth(hb, k - 1, |b|)]);
    }
  }

  ghost predicate SameData(a: Slot, b: Slot) {
    a.len == b.len && a.len <= |a.buf| && b.len <= |b.buf| && Data(a) == Data(b) && a.more == b.more
  }

  lemma {:induction false} FrameCarriesOver(a: seq<Slot>, ha: nat, b: seq<Slot>, hb: nat, k: nat, packet: seq<byte>)
    requires IsFrame(a, ha, k, packet) && SlotsOk(b) && hb < |b| && k <= |b|
    requires forall i :: 0 <= i < k ==> SameData(a[Nth(ha, i, |a|)], b[Nth(hb, i, |b|)])
    ensures IsFrame(b, hb, k, packet)
  {
    SameContents(a, ha, b, hb, k);
    forall i | 0 <= i < k ensures b[Nth(hb, i, |b|)].more == (i < k - 1) {
      assert SameData(a[Nth(ha, i, |a|)], b[Nth(hb, i, |b|)]);
    }
  }

  // ---- Sending ----

  /** `k` slots are closed and full, and the open one holds `fill` bytes: together what was sent. */
  ghost predicate Filling(slots: seq<Slot>, h: nat, k: nat, fill: nat, sent: seq<byte>, size: nat) {
    && SlotsOk(slots) && h < |slots| && k < |slots|
    && (forall i :: 0 <= i < |slots| ==> |slots[i].buf| == size)
    && fill <= size
    && (forall i :: 0 <= i < k ==> Closed(slots[Nth(h, i, |slots|)], size))
    && Contents(slots, h, k) + slots[Nth(h, k, |slots|)].buf[..fill] == sent
  }

  predicate Closed(s: Slot, size: nat) { s.more && s.len == size }

  lemma {:induction false} ContentsFrame(slots: seq<Slot>, h: nat, k: nat, j: nat, v: Slot)
    requires SlotsOk(slots) && h < |slots| && k <= j < |slots| && v.len <= |v.buf|
    ensures SlotsOk(slots[Nth(h, j, |slots|) := v])
    ensures Contents(slots[Nth(h, j, |slots|) := v], h, k) == Contents(slots, h, k)
  {
    if k > 0 {
      ContentsFrame(slots, h, k - 1, j, v);
      assert Nth(h, k - 1, |slots|) != Nth(h, j, |slots|);
    }
  }

  /** Copying into the open slot. */
  lemma {:induction false} CopyStep(slots: seq<Slot>, h: nat, k: nat, fill: nat, sent: seq<byte>, size: nat,
                                    data: seq<byte>)
    requires Filling(slots, h, k, fill, sent, size) && fill + |data| <= size
    ensures var at := Nth(h, k, |slots|);
      Filling(slots[at := slots[at].(buf := Splice(slots[at].buf, fill, data))], h, k, fill + |data|, sent + data, size)
  {
    var at := Nth(h, k, |slots|);
    var v := slots[at].(buf := Splice(slots[at].buf, fill, data));
    ContentsFrame(slots, h, k, k, v);
    forall i | 0 <= i < k ensures Closed(slots[at := v][Nth(h, i, |slots|)], size) {
      assert Closed(slots[Nth(h, i, |slots|)], size);
    }
    Assoc(Contents(slots, h, k), slots[at].buf[..fill], data);
  }

  lemma {:induction false} Extend(sent: seq<byte>, frag: seq<byte>, off: nat, n: nat)
    requires off + n <= |frag|
    ensures (sent + frag[..off]) + frag[off..off + n] == sent + frag[..off + n]
  {
  }

  /** Closing the full open slot and opening the next one. */
  lemma {:induction false} CloseStep(slots: seq<Slot>, h: nat, k: nat, sent: seq<byte>, size: nat)
    requires Filling(slots, h, k, size, sent, size) && k + 1 < |slots|
    ensures var at := Nth(h, k, |slots|);
      Filling(slots[at := slots[at].(len := size, more := true)], h, k + 1, 0, sent, size)
  {
    var at := Nth(h, k, |slots|);
    var v := slots[at].(len := size, more := true);
    ContentsFrame(slots, h, k, k, v);
    forall i | 0 <= i < k ensures Closed(slots[at := v][Nth(h, i, |slots|)], size) {
      assert Closed(slots[Nth(h, i, |slots|)], size);
    }
  }

  lemma {:induction false} FinishStep(slots: seq<Slot>, h: nat, k: nat, fill: nat, sent: seq<byte>, size: nat)
    requires Filling(slots, h, k, fill, sent, size)
    ensures var at := Nth(h, k, |slots|);
      IsFrame(slots[at := slots[at].(len := fill, more := false)], h, k + 1, sent)
  {
    var at := Nth(h, k, |slots|);
    var v := slots[at].(len := fill, more := false);
    ContentsFrame(slots, h, k, k, v);
    forall i | 0 <= i < k ensures slots[at := v][Nth(h, i, |slots|)].more {
      assert Closed(slots[Nth(h, i, |slots|)], size);
    }
  }

  lemma {:induction false} FullLength(slots: seq<Slot>, h: nat, k: nat, size: nat)
    requires SlotsOk(slots) && h < |slots| && k <= |slots|
    requires forall i :: 0 <= i < k ==> slots[Nth(h, i, |slots|)].len == size
    ensures |Contents(slots, h, k)| == k * size
  {
    if k > 0 {
      FullLength(slots, h, k - 1, size);
      assert k * size == (k - 1) * size + size;
    }
  }

  lemma {:induction false} SentLength(slots: seq<Slot>, h: nat, k: nat, fill: nat, sent: seq<byte>, size: nat)
    requires Filling(slots, h, k, fill, sent, size)
    ensures |sent| == k * size + fill
  {
    forall i | 0 <= i < k ensures slots[Nth(h, i, |slots|)].len == size {
      assert Closed(slots[Nth(h, i, |slots|)], size);
    }
    FullLength(slots, h, k, size);
  }

  // ---- Receiving ----

  /** Scatter destination: the pieces before `cur` are full, `off` bytes of piece `cur` are used. */
  datatype Dest = Dest(iov: seq<seq<byte>>, cur: nat, off: nat)

  /** The destination holds `got`, over the buffers it started with. */
  ghost predicate Holds(d: Dest, iov0: seq<seq<byte>>, got: seq<byte>) {
    && |d.iov| == |iov0| && d.cur < |d.iov| && d.off <= |d.iov[d.cur]|
    && (forall i :: 0 <= i < |d.iov| ==> |d.iov[i]| == |iov0[i]|)
    && d.iov[d.cur + 1..] == iov0[d.cur + 1..]
    && d.iov[d.cur][d.off..] == iov0[d.cur][d.off..]
    && Flatten(d.iov[..d.cur]) + d.iov[d.cur][..d.off] == got
  }

  /** Room left from the current position. */
  function Room(d: Dest): nat
    requires d.cur < |d.iov| && d.off <= |d.iov[d.cur]|
  {
    |d.iov[d.cur]| - d.off + |Flatten(d.iov[d.cur + 1..])|
  }

  function Put(d: Dest, data: seq<byte>): Dest
    requires d.cur < |d.iov| && d.off + |data| <= |d.iov[d.cur]|
  {
    Dest(d.iov[d.cur := Splice(d.iov[d.cur], d.off, data)], d.cur, d.off + |data|)
  }

  lemma {:induction false} PutHolds(d: Dest, iov0: seq<seq<byte>>, got: seq<byte>, data: seq<byte>)
    requires Holds(d, iov0, got) && d.off + |data| <= |d.iov[d.cur]|
    ensures Holds(Put(d, data), iov0, got + data)
    ensures Room(Put(d, data)) == Room(d) - |data|
  {
    var r := Put(d, data);
    assert r.iov[..d.cur] == d.iov[..d.cur] && r.iov[d.cur + 1..] == d.iov[d.cur + 1..];
    Assoc(Flatten(d.iov[..d.cur]), d.iov[d.cur][..d.off], data);
    var old_, new_ := d.iov[d.cur], r.iov[d.cur];
    assert new_[r.off..] == old_[r.off..] == old_[d.off..][|data|..];
    assert iov0[d.cur][r.off..] == iov0[d.cur][d.off..][|data|..];
  }

  lemma {:induction false} NextPieceHolds(d: Dest, iov0: seq<seq<byte>>, got: seq<byte>)
    requires Holds(d, iov0, got) && d.off == |d.iov[d.cur]| && d.cur + 1 < |d.iov|
    ensures Holds(Dest(d.iov, d.cur + 1, 0), iov0, got)
    ensures Room(Dest(d.iov, d.cur + 1, 0)) == Room(d)
  {
    assert d.iov[..d.cur + 1] == d.iov[..d.cur] + [d.iov[d.cur]];
    FlattenSnoc(d.iov[..d.cur], d.iov[d.cur]);
    assert d.iov[d.cur + 1..][0] == d.iov[d.cur + 1] && d.iov[d.cur + 1..][1..] == d.iov[d.cur + 2..];
    assert d.iov[d.cur + 2..] == d.iov[d.cur + 1..][1..] == iov0[d.cur + 1..][1..] == iov0[d.cur + 2..];
    assert d.iov[d.cur + 1] == d.iov[d.cur + 1..][0] == iov0[d.cur + 1..][0] == iov0[d.cur + 1];
  }

  /** What the caller finds in its buffers: the bytes received, then what was there before. */
  lemma {:induction false} HoldsMeaning(d: Dest, iov0: seq<seq<byte>>, got: seq<byte>)
    requires Holds(d, iov0, got)
    ensures |got| <= |Flatten(iov0)| && Flatten(d.iov) == got + Flatten(iov0)[|got|..]
    ensures Room(d) == |Flatten(iov0)| - |got|
  {
    FlattenSplit(d.iov, d.cur);
    FlattenSplit(iov0, d.cur);
    SameLengths(d.iov[..d.cur], iov0[..d.cur]);
    var tail := Flatten(d.iov[d.cur + 1..]);
    Regroup(Flatten(d.iov[..d.cur]), d.iov[d.cur], d.off, tail);
    Regroup(Flatten(iov0[..d.cur]), iov0[d.cur], d.off, tail);
  }

  lemma {:induction false} Regroup(pre: seq<byte>, piece: seq<byte>, off: nat, tail: seq<byte>)
    requires off <= |piece|
    ensures pre + (piece + tail) == (pre + piece[..off]) + (piece[off..] + tail)
    ensures (pre + (piece + tail))[|pre| + off..] == piece[off..] + tail
  {
  }

  lemma {:induction false} SameLengths(a: seq<seq<byte>>, b: seq<seq<byte>>)
    requires |a| == |b| && forall i :: 0 <= i < |a| ==> |a[i]| == |b[i]|
    ensures |Flatten(a)| == |Flatten(b)|
  {
    if a != [] { SameLengths(a[1..], b[1..]); }
  }

  /** Copy one slot's data into the destination; `ok` is false when the buffers ran out. */
  method CopySlot(d0: Dest, ghost iov0: seq<seq<byte>>, ghost got: seq<byte>, data: seq<byte>)
    returns (d: Dest, ok: bool)
    requires Holds(d0, iov0, got)
    ensures ok <==> |data| <= Room(d0)
    ensures ok ==> Holds(d, iov0, got + data)
  {
    var off := 0;
    d := d0;
    assert got + data[..0] == got;
    while true
      invariant off <= |data| && Holds(d, iov0, got + data[..off]) && Room(d) == Room(d0) - off
      decreases |d.iov| - d.cur
    {
      var copylen := Min(|data| - off, |d.iov[d.cur]| - d.off);
      PutHolds(d, iov0, got + data[..off], data[off..off + copylen]);
      Extend(got, data, off, copylen);
      d := Put(d, data[off..off + copylen]);
      off := off + copylen;
      if off == |data| {
        assert data[..off] == data;
        return d, true;
      }
      if d.cur + 1 == |d.iov| { return d, false; }
      NextPieceHolds(d, iov0, got + data[..off]);
      d := Dest(d.iov, d.cur + 1, 0);
    }
  }

  /** A frame has no shorter frame as a prefix. */
  lemma {:induction false} FrameIsUnique(slots: seq<Slot>, h: nat, j: nat, k: nat, p: seq<byte>, q: seq<byte>)
    requires IsFrame(slots, h, j, p) && IsFrame(slots, h, k, q)
    ensures j == k && p == q
  {
    assert slots[Nth(h, j - 1, |slots|)].more == (j - 1 < k - 1) || j > k;
    assert slots[Nth(h, k - 1, |slots|)].more == (k - 1 < j - 1) || k > j;
  }

  /** The first `k` slots all announce more fragments. */
  ghost predicate Unfinished(slots: seq<Slot>, h: nat, k: nat)
    requires h < |slots| && k <= |slots|
  {
    forall i :: 0 <= i < k ==> slots[Nth(h, i, |slots|)].more
  }

  lemma {:induction false} UnfinishedStep(slots: seq<Slot>, h: nat, k: nat)
    requires h < |slots| && k < |slots| && Unfinished(slots, h, k) && slots[Nth(h, k, |slots|)].more
    ensures Unfinished(slots, h, k + 1)
  {
  }

  /** A complete packet is waiting. */
  ghost predicate Waiting(slots: seq<Slot>, h: nat, space: nat) {
    exists k, packet :: 0 < k <= space && IsFrame(slots, h, k, packet)
  }

  lemma {:induction false} NoFrameYet(slots: seq<Slot>, h: nat, space: nat)
    requires h < |slots| && space <= |slots| && Unfinished(slots, h, space)
    ensures !Waiting(slots, h, space)
  {
    forall k, packet | 0 < k <= space ensures !IsFrame(slots, h, k, packet) {
      assert slots[Nth(h, k - 1, |slots|)].more;
    }
  }

  class Ring {
    const slots: array<Slot>
    const bufSize: nat
    var head: nat
    var tail: nat

    ghost predicate Valid()
      reads this, slots
    {
      && head < slots.Length && tail < slots.Length && SlotsOk(slots[..])
      && forall i :: 0 <= i < slots.Length ==> |slots[i].buf| == bufSize
    }

    ghost function Avail(): nat
      requires head < slots.Length && tail < slots.Length
      reads this
    {
      Space(head, tail, slots.Length)
    }

    /** Copy a packet into slots from the head. The head moves past them only when all fit, which
        is exactly when there is a slot and the packet fits the slots available. */
    method Send(iov: seq<seq<byte>>) returns (totlen: nat)
      requires Valid()
      modifies this, slots
      ensures Valid() && tail == old(tail)
      ensures var fits := old(Avail()) > 0 && |Flatten(iov)| <= old(Avail()) * bufSize;
        if fits then
          && totlen == |Flatten(iov)|
          && exists k :: 0 < k <= old(Avail()) && head == Nth(old(head), k, slots.Length)
               && IsFrame(slots[..], old(head), k, Flatten(iov))
        else head == old(head)
    {
      totlen := 0;
      var at := head;
      if at == tail { return; }
      var fill := 0;
      ghost var h, space, k, sent := head, Avail(), 0, [];
      assert Filling(slots[..], h, 0, 0, [], bufSize);
      for j := 0 to |iov|
        invariant Sending(h, space, k, at, fill, sent) && head == h && tail == old(tail)
        invariant sent == Flatten(iov[..j]) && totlen == |sent|
      {
        totlen := totlen + |iov[j]|;
        FlattenSnoc(iov[..j], iov[j]);
        assert iov[..j + 1] == iov[..j] + [iov[j]];
        var ok;
        ok, at, fill, k := SendFragment(iov[j], at, fill, h, space, k, sent);
        if !ok {
          FlattenConcat(iov[..j + 1], iov[j + 1..]);
          assert iov[..j + 1] + iov[j + 1..] == iov;
          return;
        }
        sent := sent + iov[j];
      }
      assert iov[..|iov|] == iov;
      Finish(at, fill, h, space, k, sent);
    }

    /** Close the last slot without NS_MOREFRAG and move the head past it. */
    method Finish(at: nat, fill: nat, ghost h: nat, ghost space: nat, ghost k: nat, ghost sent: seq<byte>)
      requires Sending(h, space, k, at, fill, sent)
      modifies this`head, slots
      ensures Valid() && head == Nth(h, k + 1, slots.Length)
      ensures IsFrame(slots[..], h, k + 1, sent) && |sent| <= space * bufSize
    {
      SentLength(slots[..], h, k, fill, sent, bufSize);
      FitsLength(k, fill, space, bufSize);
      FinishStep(slots[..], h, k, fill, sent, bufSize);
      slots[at] := slots[at].(len := fill, more := false);
      head := RingNext(at, slots.Length);
    }

    /** State of a send: `at` is the open slot, `k` slots from `h`. */
    ghost predicate Sending(h: nat, space: nat, k: nat, at: nat, fill: nat, sent: seq<byte>)
      reads this, slots
    {
      && Valid() && head == h && space == Avail()
      && k < space && at == Nth(h, k, slots.Length)
      && Filling(slots[..], h, k, fill, sent, bufSize)
    }

    /** Split one fragment over as many slots as it needs. */
    method SendFragment(frag: seq<byte>, at0: nat, fill0: nat, ghost h: nat, ghost space: nat, ghost k0: nat,
                        ghost sent: seq<byte>)
      returns (ok: bool, at: nat, fill: nat, ghost k: nat)
      requires Sending(h, space, k0, at0, fill0, sent)
      modifies slots
      ensures Valid()
      ensures ok ==> Sending(h, space, k, at, fill, sent + frag)
      ensures !ok ==> |sent| + |frag| > space * bufSize
    {
      var off := 0;
      at, fill, k := at0, fill0, k0;
      assert sent + frag[..0] == sent;
      while true
        invariant off <= |frag| && Sending(h, space, k, at, fill, sent + frag[..off])
        decreases space - k
      {
        off, fill := SendPiece(frag, off, at, fill, h, space, k, sent);
        if off == |frag| {
          assert frag[..off] == frag;
          return true, at, fill, k;
        }
        ok, at := NextSlot(at, fill, h, space, k, sent + frag[..off]);
        if !ok { return ok, at, fill, k; }
        fill, k := 0, k + 1;
      }
    }

    /** Copy as much of the fragment as the open slot still takes. */
    method SendPiece(frag: seq<byte>, off0: nat, at: nat, fill0: nat, ghost h: nat, ghost space: nat, ghost k: nat,
                     ghost sent: seq<byte>)
      returns (off: nat, fill: nat)
      requires off0 <= |frag| && Sending(h, space, k, at, fill0, sent + frag[..off0])
      modifies slots
      ensures off0 <= off <= |frag| && (off == |frag| || fill == bufSize)
      ensures Sending(h, space, k, at, fill, sent + frag[..off])
    {
      var copylen := Min(|frag| - off0, bufSize - fill0);
      CopyIn(frag[off0..off0 + copylen], at, fill0, h, space, k, sent + frag[..off0]);
      Extend(sent, frag, off0, copylen);
      off, fill := off0 + copylen, fill0 + copylen;
    }

    /** memcpy into the open slot. */
    method CopyIn(data: seq<byte>, at: nat, fill: nat, ghost h: nat, ghost space: nat, ghost k: nat,
                  ghost sent: seq<byte>)
      requires Sending(h, space, k, at, fill, sent) && fill + |data| <= bufSize
      modifies slots
      ensures Sending(h, space, k, at, fill + |data|, sent + data)
    {
      CopyStep(slots[..], h, k, fill, sent, bufSize, data);
      slots[at] := slots[at].(buf := Splice(slots[at].buf, fill, data));
    }

    /** Close the full slot with NS_MOREFRAG and open the next, if there is one. */
    method NextSlot(at0: nat, fill: nat, ghost h: nat, ghost space: nat, ghost k: nat, ghost sent: seq<byte>)
      returns (ok: bool, at: nat)
      requires Sending(h, space, k, at0, fill, sent) && fill == bufSize
      modifies slots
      ensures Valid()
      ensures ok ==> k + 1 < space && Sending(h, space, k + 1, at, 0, sent)
      ensures !ok ==> |sent| == space * bufSize
    {
      SentLength(slots[..], h, k, fill, sent, bufSize);
      if k + 1 < space { CloseStep(slots[..], h, k, sent, bufSize); }
      slots[at0] := slots[at0].(len := fill, more := true);
      at := RingNext(at0, slots.Length);
      ok := at != tail;
      assert (k + 1) * bufSize == k * bufSize + bufSize;
    }

    /** Length of the first packet, or of what has arrived of it. */
    method PeekRecvLen() returns (totlen: nat)
      requires Valid()
      ensures forall k, packet :: 0 < k <= Avail() && IsFrame(slots[..], head, k, packet) ==> totlen == |packet|
      ensures !Waiting(slots[..], head, Avail()) ==> totlen == |Contents(slots[..], head, Avail())|
    {
      var at := head;
      ghost var k, space := 0, Avail();
      totlen := 0;
      while at != tail
        invariant 0 <= k <= space && at == Nth(head, k, slots.Length)
        invariant totlen == |Contents(slots[..], head, k)| && Unfinished(slots[..], head, k)
        decreases space - k
      {
        totlen := totlen + slots[at].len;
        if !slots[at].more {
          FrameFound(slots[..], head, k, space);
          return;
        }
        at := RingNext(at, slots.Length);
        k := k + 1;
      }
      assert k == space;
      NoFrameYet(slots[..], head, space);
    }

    /** Take the first packet into the caller's buffers. It is consumed exactly when it is complete
        and fits them; the buffers then hold the packet, followed by what they held before. */
    method Recv(iov: seq<seq<byte>>) returns (r: int, iov': seq<seq<byte>>)
      requires Valid() && iov != []
      modifies this`head
      ensures Valid()
      ensures RecvResult(slots[..], old(head), old(Avail()), iov, r, iov', head)
    {
      ghost var all := slots[..];
      var next;
      r, iov', next := Collect(iov, all, head, Avail());
      head := next;
      assert slots[..] == all;
    }

    /** The loop of a receive; `next` is where it leaves the head. */
    method Collect(iov: seq<seq<byte>>, ghost all: seq<Slot>, ghost h: nat, ghost space: nat)
      returns (r: int, iov': seq<seq<byte>>, next: nat)
      requires Valid() && iov != [] && all == slots[..] && h == head && space == Avail()
      ensures next < slots.Length && RecvResult(all, h, space, iov, r, iov', next)
    {
      var at, d, totlen := head, Dest(iov, 0, 0), 0;
      ghost var k := 0;
      while true
        invariant k <= space && at == Nth(h, k, slots.Length) && Received(all, h, k, d, iov, totlen)
        invariant Unfinished(all, h, k)
        decreases space - k
      {
        if at == tail {
          NothingReceived(all, h, space, iov, 0, d.iov);
          return 0, d.iov, head;
        }
        var ok;
        ok, d, totlen := TakeSlot(slots[at], d, totlen, all, h, k, iov);
        if !ok {
          NotReceived(all, h, k, space, iov, -1, d.iov);
          return -1, d.iov, head;
        }
        var more := slots[at].more;
        at := RingNext(at, slots.Length);
        if !more {
          PacketReceived(all, h, k, space, iov, d, totlen);
          return totlen, d.iov, at;
        }
        UnfinishedStep(all, h, k);
        k := k + 1;
      }
    }
  }

  /** What a receive promises: a complete packet that fits is consumed and found at the front of the
      buffers; one that does not fit, or is not complete yet, stays in the ring. */
  ghost predicate RecvResult(slots: seq<Slot>, h: nat, space: nat, iov: seq<seq<byte>>, r: int, iov': seq<seq<byte>>,
                             next: nat)
    requires h < |slots| && space <= |slots|
  {
    && (forall k, packet :: 0 < k <= space && IsFrame(slots, h, k, packet) ==>
          if |packet| <= |Flatten(iov)|
          then r == |packet| && next == Nth(h, k, |slots|) && Flatten(iov') == packet + Flatten(iov)[|packet|..]
          else r < 0 && next == h)
    && (!Waiting(slots, h, space) ==> r <= 0 && next == h)
  }

  lemma {:induction false} NothingReceived(slots: seq<Slot>, h: nat, space: nat, iov: seq<seq<byte>>, r: int,
                                        iov': seq<seq<byte>>)
    requires h < |slots| && space <= |slots| && Unfinished(slots, h, space) && r == 0
    ensures RecvResult(slots, h, space, iov, r, iov', h)
  {
    NoFrameYet(slots, h, space);
  }

  lemma {:induction false} NotReceived(slots: seq<Slot>, h: nat, k: nat, space: nat, iov: seq<seq<byte>>, r: int,
                                       iov': seq<seq<byte>>)
    requires SlotsOk(slots) && h < |slots| && k < space <= |slots| && Unfinished(slots, h, k)
    requires |Contents(slots, h, k + 1)| > |Flatten(iov)| && r < 0
    ensures RecvResult(slots, h, space, iov, r, iov', h)
  {
    BuffersTooShort(slots, h, k, space, |Flatten(iov)|);
  }

  lemma {:induction false} PacketReceived(slots: seq<Slot>, h: nat, k: nat, space: nat, iov: seq<seq<byte>>, d: Dest,
                                        totlen: int)
    requires h < |slots| && k < space <= |slots| && Unfinished(slots, h, k)
    requires !slots[Nth(h, k, |slots|)].more && Received(slots, h, k + 1, d, iov, totlen)
    ensures RecvResult(slots, h, space, iov, totlen, d.iov, Nth(h, k + 1, |slots|))
  {
    FrameFound(slots, h, k, space);
    HoldsMeaning(d, iov, Contents(slots, h, k + 1));
  }

  /** Round trip: the slots a send committed, carried to another ring, are received as the packet. */
  lemma {:induction false} SentIsReceived(a: seq<Slot>, ha: nat, b: seq<Slot>, hb: nat, k: nat, packet: seq<byte>,
                                        space: nat,
      iov: seq<seq<byte>>, r: int, iov': seq<seq<byte>>, next: nat)
    requires IsFrame(a, ha, k, packet) && SlotsOk(b) && hb < |b| && k <= space <= |b|
    requires forall i :: 0 <= i < k ==> SameData(a[Nth(ha, i, |a|)], b[Nth(hb, i, |b|)])
    requires RecvResult(b, hb, space, iov, r, iov', next) && |packet| <= |Flatten(iov)|
    ensures r == |packet| && Flatten(iov')[..r] == packet && next == Nth(hb, k, |b|)
  {
    FrameCarriesOver(a, ha, b, hb, k, packet);
  }

  /** State of a receive: the data of the first `k` slots is in the buffers. */
  ghost predicate Received(slots: seq<Slot>, h: nat, k: nat, d: Dest, iov: seq<seq<byte>>, totlen: int) {
    && SlotsOk(slots) && h < |slots| && k <= |slots|
    && Holds(d, iov, Contents(slots, h, k)) && totlen == |Contents(slots, h, k)|
  }

  /** One slot of a receive: it is copied exactly when the buffers hold the packet up to its end. */
  method TakeSlot(s: Slot, d0: Dest, totlen0: int, ghost slots: seq<Slot>, ghost h: nat, ghost k: nat,
                  ghost iov: seq<seq<byte>>)
    returns (ok: bool, d: Dest, totlen: int)
    requires Received(slots, h, k, d0, iov, totlen0) && k < |slots| && s == slots[Nth(h, k, |slots|)]
    ensures ok <==> |Contents(slots, h, k + 1)| <= |Flatten(iov)|
    ensures ok ==> Received(slots, h, k + 1, d, iov, totlen)
  {
    HoldsMeaning(d0, iov, Contents(slots, h, k));
    d, ok := CopySlot(d0, iov, Contents(slots, h, k), Data(s));
    totlen := totlen0 + s.len;
  }

  /** Slot `k` is the first without NS_MOREFRAG: the packet ends there, and no other packet starts here. */
  lemma {:induction false} FrameFound(slots: seq<Slot>, h: nat, k: nat, space: nat)
    requires SlotsOk(slots) && h < |slots| && k < space <= |slots| && Unfinished(slots, h, k)
    requires !slots[Nth(h, k, |slots|)].more
    ensures IsFrame(slots, h, k + 1, Contents(slots, h, k + 1))
    ensures forall j, packet :: 0 < j <= space && IsFrame(slots, h, j, packet) ==>
      j == k + 1 && packet == Contents(slots, h, k + 1)
  {
    assert IsFrame(slots, h, k + 1, Contents(slots, h, k + 1));
    forall j, packet | 0 < j <= space && IsFrame(slots, h, j, packet)
      ensures j == k + 1 && packet == Contents(slots, h, k + 1)
    {
      FrameIsUnique(slots, h, k + 1, j, Contents(slots, h, k + 1), packet);
    }
  }

  lemma {:induction false} BuffersTooShort(slots: seq<Slot>, h: nat, k: nat, space: nat, cap: nat)
    requires SlotsOk(slots) && h < |slots| && k < space <= |slots| && Unfinished(slots, h, k)
    requires |Contents(slots, h, k + 1)| > cap
    ensures forall j, packet :: 0 < j <= space && IsFrame(slots, h, j, packet) ==> |packet| > cap
  {
    forall j, packet | 0 < j <= space && IsFrame(slots, h, j, packet) ensures |packet| > cap {
      FrameReachesBeyond(slots, h, k, j, packet);
    }
  }

  /** A frame that starts with `k` unfinished slots includes the slot after them. */
  lemma {:induction false} FrameReachesBeyond(slots: seq<Slot>, h: nat, k: nat, j: nat, packet: seq<byte>)
    requires IsFrame(slots, h, j, packet) && k < |slots| && Unfinished(slots, h, k)
    ensures k + 1 <= j && |packet| >= |Contents(slots, h, k + 1)|
  {
    assert !slots[Nth(h, j - 1, |slots|)].more;
    ContentsGrow(slots, h, k + 1, j);
  }

  lemma {:induction false} ContentsGrow(slots: seq<Slot>, h: nat, i: nat, j: nat)
    requires SlotsOk(slots) && h < |slots| && i <= j <= |slots|
    ensures |Contents(slots, h, i)| <= |Contents(slots, h, j)|
    decreases j
  {
    if i < j { ContentsGrow(slots, h, i, j - 1); }
  }

  lemma {:induction false} FitsLength(k: nat, fill: nat, space: nat, size: nat)
    requires k < space && fill <= size
    ensures k * size + fill <= space * size
  {
    assert space * size == (space - k - 1) * size + k * size + size;
    assert (space - k - 1) * size >= 0;
  }
}
