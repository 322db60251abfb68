/** The Internet checksum over scatter/gather buffers (pci_e82545.c, RFC 1071 sections 1 and 2). */
module E1000Checksum {
  import opened Seqs

  const U32 := 0x1_0000_0000
  const INT_MAX := 0x7FFF_FFFF
  /** Longest buffer whose 32-bit sum of words cannot wrap. */
  const EXACT_BYTES := 131074

  // ---- The ones' complement sum ----

  function EvenSum(b: seq<byte>): nat {
    if b == [] then 0 else b[0] + OddSum(b[1..])
  }

  function OddSum(b: seq<byte>): nat {
    if b == [] then 0 else EvenSum(b[1..])
  }

  /** Sum of the 16-bit words in memory order; an odd last byte is padded with zero. */
  function WordSum(b: seq<byte>): nat { EvenSum(b) + 256 * OddSum(b) }

  /** The ones' complement representative: 0 only for 0, otherwise 1..0xFFFF. */
  function Fold(n: nat): (r: nat)
    ensures r <= 0xFFFF && (r == 0 <==> n == 0)
  {
    if n == 0 then 0 else (n - 1) % 0xFFFF + 1
  }

  /** The Internet checksum of a flat byte range, before complementing. */
  function Checksum(b: seq<byte>): nat { Fold(WordSum(b)) }

  /** Equal modulo 0xFFFF, and zero together: what a ones' complement sum cannot tell apart. */
  ghost predicate SameSum(a: int, b: int) {
    (exists k: int :: Apart(a, b, k)) && (a == 0 <==> b == 0)
  }

  ghost predicate Apart(a: int, b: int, k: int) { a - b == 0xFFFF * k }

  lemma {:induction false} FoldUnique(a: nat, b: nat)
    requires SameSum(a, b)
    ensures Fold(a) == Fold(b)
  {
  }

  lemma {:induction false} FoldIsSame(n: nat)
    ensures SameSum(Fold(n), n)
  {
    assert Apart(Fold(n), n, if n == 0 then 0 else -((n - 1) / 0xFFFF));
  }

  lemma {:induction false} SameSumAdd(a: nat, b: nat, c: nat, d: nat)
    requires SameSum(a, b) && SameSum(c, d)
    ensures SameSum(a + c, b + d)
  {
    var k, l :| Apart(a, b, k) && Apart(c, d, l);
    assert Apart(a + c, b + d, k + l);
  }

  lemma {:induction false} SumsConcat(a: seq<byte>, b: seq<byte>)
    ensures EvenSum(a + b) == EvenSum(a) + if |a| % 2 == 0 then EvenSum(b) else OddSum(b)
    ensures OddSum(a + b) == OddSum(a) + if |a| % 2 == 0 then OddSum(b) else EvenSum(b)
  {
    if a == [] {
      assert a + b == b;
    } else {
      assert (a + b)[1..] == a[1..] + b;
      SumsConcat(a[1..], b);
    }
  }

  /** Shifting a piece by one byte swaps the weights of its bytes, which multiplies its sum by 256
      modulo 0xFFFF. */
  lemma {:induction false} PieceContribution(a: seq<byte>, b: seq<byte>, s: nat)
    requires SameSum(s, WordSum(b))
    ensures var add := if |a| % 2 == 0 then s else 256 * s;
      WordSum(a + b) >= WordSum(a) && SameSum(add, WordSum(a + b) - WordSum(a))
  {
    SumsConcat(a, b);
    if |a| % 2 == 1 {
      var k :| Apart(s, WordSum(b), k);
      assert Apart(256 * s, 256 * EvenSum(b) + OddSum(b), 256 * k + OddSum(b));
    }
  }

  lemma {:induction false} SumBounds(b: seq<byte>)
    ensures EvenSum(b) <= 255 * ((|b| + 1) / 2) && OddSum(b) <= 255 * (|b| / 2)
  {
    if b != [] { SumBounds(b[1..]); }
  }

  // ---- The code ----

  /** Fold a 32-bit accumulator to 16 bits with one end-around carry. */
  function Carry(sum: nat): (r: nat)
    requires sum < U32
    ensures r == Fold(sum)
  {
    var s := sum % 0x1_0000 + sum / 0x1_0000;
    if s > 0xFFFF then s - 0xFFFF else s
  }

  /** What a wrapping 32-bit accumulator makes of a buffer. */
  function WrappedChecksum(b: seq<byte>): nat { Fold(WordSum(b) % U32) }

  lemma {:induction false} ShortBuffersAreExact(b: seq<byte>)
    requires |b| <= EXACT_BYTES
    ensures WrappedChecksum(b) == Checksum(b)
  {
    SumBounds(b);
    assert WordSum(b) < U32;
  }

  /** A wrapping 32-bit addition. */
  function Add32(a: nat, b: nat): (r: nat) { (a + b) % U32 }

  /** Sum the pairs, then the odd byte, in a 32-bit accumulator that may wrap. */
  method BufChecksum(buf: seq<byte>) returns (r: nat)
    ensures r == WrappedChecksum(buf)
  {
    var i, sum: nat := 0, 0;
    while i + 1 < |buf|
      invariant 0 <= i <= |buf| && i % 2 == 0
      invariant sum == WordSum(buf[..i]) % U32
    {
      PushPair(buf, i);
      sum := Add32(sum, buf[i] as int + 256 * buf[i + 1] as int);
      i := i + 2;
    }
    if i < |buf| {
      PushByte(buf, i);
      sum := Add32(sum, buf[i] as int);
      i := i + 1;
    }
    assert buf[..i] == buf;
    r := Carry(sum);
  }

  lemma {:induction false} AddWraps(a: nat, w: nat)
    ensures Add32(a % U32, w) == (a + w) % U32
  {
  }

  lemma {:induction false} PushPair(buf: seq<byte>, i: nat)
    requires i % 2 == 0 && i + 2 <= |buf|
    ensures Add32(WordSum(buf[..i]) % U32, buf[i] as int + 256 * buf[i + 1] as int) == WordSum(buf[..i + 2]) % U32
  {
    WordAt(buf[..i], buf[i], buf[i + 1], []);
    assert buf[..i + 2] == buf[..i] + [buf[i], buf[i + 1]] + [];
    AddWraps(WordSum(buf[..i]), buf[i] as int + 256 * buf[i + 1] as int);
  }

  lemma {:induction false} PushByte(buf: seq<byte>, i: nat)
    requires i % 2 == 0 && i + 1 <= |buf|
    ensures Add32(WordSum(buf[..i]) % U32, buf[i] as int) == WordSum(buf[..i + 1]) % U32
  {
    SumsConcat(buf[..i], [buf[i]]);
    assert buf[..i + 1] == buf[..i] + [buf[i]];
    AddWraps(WordSum(buf[..i]), buf[i] as int);
  }

  /** The part of the flat range that a checksum over `len` bytes from `off` covers. */
  function Window(flat: seq<byte>, off: nat, len: int): seq<byte> {
    if off >= |flat| || len <= 0 then [] else flat[off..Min(off + len, |flat|)]
  }

  /** The parts of the pieces that a checksum over `len` bytes from `off` covers, in order. */
  function Covered(iov: seq<seq<byte>>, off: nat, len: int): seq<seq<byte>> {
    if iov == [] || len <= 0 then []
    else if |iov[0]| <= off && off > 0 then Covered(iov[1..], off - |iov[0]|, len)
    else
      var now := Min(len, |iov[0]| - off);
      [iov[0][off..off + now]] + Covered(iov[1..], 0, len - now)
  }

  lemma {:induction false} CoveredNone(iov: seq<seq<byte>>, off: nat, len: int)
    requires iov == [] || len <= 0
    ensures Flatten(Covered(iov, off, len)) == Window(Flatten(iov), off, len) == []
  {
  }

  lemma {:induction false} CoveredSkip(iov: seq<seq<byte>>, off: nat, len: int)
    requires iov != [] && len > 0 && |iov[0]| <= off && off > 0
    ensures Covered(iov, off, len) == Covered(iov[1..], off - |iov[0]|, len)
  {
  }

  lemma {:induction false} CoveredTake(iov: seq<seq<byte>>, off: nat, len: int)
    requires iov != [] && len > 0 && (off == 0 || off < |iov[0]|)
    ensures var now := Min(len, |iov[0]| - off);
      Covered(iov, off, len) == [iov[0][off..off + now]] + Covered(iov[1..], 0, len - now)
  {
  }

  lemma {:induction false} CoveredIsWindow(iov: seq<seq<byte>>, off: nat, len: int)
    ensures Flatten(Covered(iov, off, len)) == Window(Flatten(iov), off, len)
    decreases iov
  {
    hide Window, Flatten, Covered;
    if iov == [] || len <= 0 {
      CoveredNone(iov, off, len);
    } else if |iov[0]| <= off && off > 0 {
      FlattenHead(iov);
      CoveredSkip(iov, off, len);
      CoveredIsWindow(iov[1..], off - |iov[0]|, len);
      SkipPiece(iov[0], Flatten(iov[1..]), off, len);
    } else {
      FlattenHead(iov);
      CoveredTake(iov, off, len);
      var now := Min(len, |iov[0]| - off);
      CoveredIsWindow(iov[1..], 0, len - now);
      TakePiece(iov[0], Flatten(iov[1..]), off, len);
      FlattenCons(iov[0][off..off + now], Covered(iov[1..], 0, len - now));
    }
  }

  lemma {:induction false} SkipPiece(piece: seq<byte>, rest: seq<byte>, off: nat, len: int)
    requires |piece| <= off
    ensures Window(piece + rest, off, len) == Window(rest, off - |piece|, len)
  {
  }

  lemma {:induction false} TakePiece(piece: seq<byte>, rest: seq<byte>, off: nat, len: int)
    requires off <= |piece| && len > 0
    ensures var now := Min(len, |piece| - off);
      Window(piece + rest, off, len) == piece[off..off + now] + Window(rest, 0, len - now)
  {
  }

  /** The sum of the parts' checksums, shifted by a byte for a part that starts at an odd position. */
  function PartsSum(parts: seq<seq<byte>>): nat {
    if parts == [] then 0
    else
      var init, s := parts[..|parts| - 1], WrappedChecksum(parts[|parts| - 1]);
      PartsSum(init) + if |Flatten(init)| % 2 == 1 then 256 * s else s
  }

  lemma {:induction false} PartsSumBound(parts: seq<seq<byte>>)
    ensures PartsSum(parts) <= |parts| * 0xFFFF00
  {
    if parts != [] { PartsSumBound(parts[..|parts| - 1]); }
  }

  predicate AllExact(parts: seq<seq<byte>>) {
    forall k :: 0 <= k < |parts| ==> |parts[k]| <= EXACT_BYTES
  }

  /** If no part is too long for the accumulator, the fragmentation does not matter. */
  lemma {:induction false} PartsAreExact(parts: seq<seq<byte>>)
    requires AllExact(parts)
    ensures SameSum(PartsSum(parts), WordSum(Flatten(parts)))
  {
    if parts == [] {
      assert Apart(0, 0, 0);
    } else {
      var init, last := parts[..|parts| - 1], parts[|parts| - 1];
      PartsAreExact(init);
      assert init + [last] == parts;
      FlattenSnoc(init, last);
      ShortBuffersAreExact(last);
      PartAdds(Flatten(init), last, PartsSum(init));
    }
  }

  lemma {:induction false} PartAdds(front: seq<byte>, part: seq<byte>, sum: nat)
    requires SameSum(sum, WordSum(front))
    ensures var s := Checksum(part);
      SameSum(sum + if |front| % 2 == 1 then 256 * s else s, WordSum(front + part))
  {
    var s := Checksum(part);
    FoldIsSame(WordSum(part));
    PieceContribution(front, part, s);
    SameSumAdd(sum, WordSum(front), if |front| % 2 == 1 then 256 * s else s, WordSum(front + part) - WordSum(front));
  }

  /** Checksum of `len` bytes from `off`, across the pieces: equal to the checksum of the flat range,
      wherever the piece boundaries fall, as long as no covered part overflows the accumulator. */
  method IovChecksum(iov: seq<seq<byte>>, off0: nat, len0: int) returns (r: nat)
    requires |iov| <= 256
    ensures r == Fold(PartsSum(Covered(iov, off0, len0)))
    ensures AllExact(Covered(iov, off0, len0)) ==> r == Checksum(Window(Flatten(iov), off0, len0))
  {
    hide Covered, Flatten, WrappedChecksum, AllExact, Checksum, Window, Fold;
    var i: nat, off: nat := SkipPieces(iov, off0, len0);
    var v := SumVars(i, off, len0, 0, false);
    ghost var all, parts := Covered(iov, off0, len0), [];
    NoParts(all);
    while v.len > 0 && v.i < |iov|
      invariant SumState(iov, all, parts, v)
      decreases |iov| - v.i
    {
      var piece := NextPiece(iov[v.i], v);
      var s := BufChecksum(piece);
      SumStep(iov, all, parts, v, s);
      parts := parts + [piece];
      v := AfterPiece(v, |piece|, s);
    }
    SumEnd(iov, all, parts, v);
    if AllExact(all) {
      PartsAreExact(all);
      FoldUnique(PartsSum(all), WordSum(Flatten(all)));
      CoveredIsWindow(iov, off0, len0);
      FlatChecksum(Flatten(all));
    }
    r := Carry(v.sum);
  }

  lemma {:induction false} FlatChecksum(b: seq<byte>)
    ensures Checksum(b) == Fold(WordSum(b))
  {
  }

  /** The loop's variables: piece index, offset into it, bytes to go, accumulator, parity. */
  datatype SumVars = SumVars(i: nat, off: nat, len: int, sum: nat, odd: bool)

  /** The bytes of this piece that the range covers. */
  function NextPiece(piece: seq<byte>, v: SumVars): seq<byte>
    requires v.off <= |piece| && v.len > 0
  {
    piece[v.off..v.off + Min(v.len, |piece| - v.off)]
  }

  /** Add the checksum `s` of the next `now` bytes, shifted when they start at an odd position. */
  function AfterPiece(v: SumVars, now: nat, s: nat): SumVars {
    SumVars(v.i + 1, 0, v.len - now, Add32(v.sum, if v.odd then s * 256 else s), v.odd != (now % 2 == 1))
  }

  /** `parts` are summed; those left start `off` bytes into piece `i`. */
  ghost predicate SumState(iov: seq<seq<byte>>, all: seq<seq<byte>>, parts: seq<seq<byte>>, v: SumVars) {
    && v.i <= |iov| && |parts| <= v.i && (v.i < |iov| ==> v.off == 0 || v.off < |iov[v.i]|)
    && all == parts + Covered(iov[v.i..], v.off, v.len)
    && v.sum == PartsSum(parts) && v.odd == (|Flatten(parts)| % 2 == 1)
  }

  lemma {:induction false} NoParts(all: seq<seq<byte>>)
    ensures PartsSum([]) == 0 && |Flatten<byte>([])| % 2 == 0 && [] + all == all
  {
  }

  lemma {:induction false} SumStep(iov: seq<seq<byte>>, all: seq<seq<byte>>, parts: seq<seq<byte>>, v: SumVars, s: nat)
    requires |iov| <= 256 && SumState(iov, all, parts, v) && v.len > 0 && v.i < |iov|
    requires s == WrappedChecksum(NextPiece(iov[v.i], v))
    ensures var piece := NextPiece(iov[v.i], v); SumState(iov, all, parts + [piece], AfterPiece(v, |piece|, s))
  {
    hide Covered, Flatten, PartsSum, WrappedChecksum, Add32;
    var piece := NextPiece(iov[v.i], v);
    CoveredNext(iov, v);
    PartsPush(parts, piece);
    PartsSumBound(parts);
    NoWrap(v.sum, if v.odd then s * 256 else s);
    ParityPush(parts, piece);
    assert (parts + [piece]) + Covered(iov[v.i + 1..], 0, v.len - |piece|) == all;
  }

  lemma {:induction false} CoveredNext(iov: seq<seq<byte>>, v: SumVars)
    requires v.i < |iov| && v.len > 0 && (v.off == 0 || v.off < |iov[v.i]|)
    ensures var piece := NextPiece(iov[v.i], v);
      Covered(iov[v.i..], v.off, v.len) == [piece] + Covered(iov[v.i + 1..], 0, v.len - |piece|)
  {
    hide Covered;
    CoveredTake(iov[v.i..], v.off, v.len);
    assert iov[v.i..][1..] == iov[v.i + 1..];
  }

  lemma {:induction false} PartsPush(parts: seq<seq<byte>>, piece: seq<byte>)
    ensures var s := WrappedChecksum(piece);
      PartsSum(parts + [piece]) == PartsSum(parts) + if |Flatten(parts)| % 2 == 1 then 256 * s else s
    ensures WrappedChecksum(piece) <= 0xFFFF
  {
    assert (parts + [piece])[..|parts|] == parts;
  }

  lemma {:induction false} ParityPush(parts: seq<seq<byte>>, piece: seq<byte>)
    ensures (|Flatten(parts + [piece])| % 2 == 1) == ((|Flatten(parts)| % 2 == 1) != (|piece| % 2 == 1))
  {
    FlattenSnoc(parts, piece);
  }

  lemma {:induction false} SumEnd(iov: seq<seq<byte>>, all: seq<seq<byte>>, parts: seq<seq<byte>>, v: SumVars)
    requires |iov| <= 256 && SumState(iov, all, parts, v) && (v.len <= 0 || v.i >= |iov|)
    ensures parts == all && v.sum == PartsSum(all) < U32
  {
    assert parts + [] == parts;
    PartsSumBound(parts);
  }

  lemma {:induction false} NoWrap(a: nat, b: nat)
    requires a + b < U32
    ensures Add32(a, b) == a + b
  {
  }

  /** Pass over the pieces that lie wholly before the range. */
  method SkipPieces(iov: seq<seq<byte>>, off0: nat, len: int) returns (i: nat, off: nat)
    ensures i <= |iov| && (i < |iov| ==> off == 0 || off < |iov[i]|)
    ensures Covered(iov[i..], off, len) == Covered(iov, off0, len)
  {
    i, off := 0, off0;
    assert iov[0..] == iov;
    while i < |iov| && |iov[i]| <= off && off > 0
      invariant i <= |iov|
      invariant Covered(iov[i..], off, len) == Covered(iov, off0, len)
    {
      assert iov[i..][1..] == iov[i + 1..];
      off := off - |iov[i]|;
      i := i + 1;
    }
  }

  // ---- Storing the checksum ----

  /** Checksum context: where to start, where to store, and the last byte covered (0: to the end). */
  datatype CkInfo = CkInfo(start: nat, off: nat, len: nat)

  function CkLen(ck: CkInfo): int {
    if ck.len != 0 then ck.len - ck.start + 1 else INT_MAX
  }

  /** A little-endian 16-bit store. */
  function Store16(b: seq<byte>, at: nat, v: nat): (r: seq<byte>)
    requires at + 2 <= |b| && v <= 0xFFFF
    ensures |r| == |b|
  {
    b[at := v % 256][at + 1 := v / 256]
  }

  /** Replacing a zero word by the complement of the checksum makes the range sum to all ones. */
  lemma {:induction false} StoredChecksumVerifies(b: seq<byte>, at: nat)
    requires at % 2 == 0 && at + 2 <= |b| && b[at] == 0 && b[at + 1] == 0
    ensures Checksum(Store16(b, at, 0xFFFF - Checksum(b))) == 0xFFFF
  {
    var v := 0xFFFF - Checksum(b);
    StoreAdds(b, at, v);
    FoldIsSame(WordSum(b));
    var k :| Apart(Checksum(b), WordSum(b), k);
    assert Apart(WordSum(b) + v, 0xFFFF, -k);
    FoldUnique(WordSum(b) + v, 0xFFFF);
  }

  lemma {:induction false} StoreAdds(b: seq<byte>, at: nat, v: nat)
    requires at % 2 == 0 && at + 2 <= |b| && b[at] == 0 && b[at + 1] == 0 && v <= 0xFFFF
    ensures WordSum(Store16(b, at, v)) == WordSum(b) + v
  {
    var lo, hi: seq<byte> := b[..at], b[at + 2..];
    WordAt(lo, 0, 0, hi);
    WordAt(lo, v % 256, v / 256, hi);
    assert b == lo + [0, 0] + hi;
    assert Store16(b, at, v) == lo + [v % 256, v / 256] + hi;
  }

  lemma {:induction false} WordAt(lo: seq<byte>, x: byte, y: byte, hi: seq<byte>)
    requires |lo| % 2 == 0
    ensures WordSum(lo + [x, y] + hi) == WordSum(lo) + (x as int + 256 * y as int) + WordSum(hi)
  {
    SumsConcat(lo + [x, y], hi);
    SumsConcat(lo, [x, y]);
    assert [x, y][1..] == [y];
    assert EvenSum([y]) == y as int && OddSum([y]) == 0;
  }

  /** The pieces with the complement of `c` stored in the first one. */
  function Stored(iov: seq<seq<byte>>, ck: CkInfo, c: nat): seq<seq<byte>>
    requires iov != [] && ck.off + 2 <= |iov[0]| && c <= 0xFFFF
  {
    [Store16(iov[0], ck.off, 0xFFFF - c)] + iov[1..]
  }

  /** The field is zero, in the range, and at even distance from its start. */
  predicate FieldReady(iov: seq<seq<byte>>, ck: CkInfo) {
    && iov != [] && ck.off + 2 <= |iov[0]| && iov[0][ck.off] == 0 && iov[0][ck.off + 1] == 0
    && ck.start <= ck.off && (ck.off - ck.start) % 2 == 0 && ck.off + 2 <= ck.start + CkLen(ck)
  }

  /** Compute the checksum over the pieces and store its complement in the first one. The frame the
      device then sends verifies: summing the covered range again gives all ones, whatever the
      fragmentation. */
  method TransmitChecksum(iov: seq<seq<byte>>, ck: CkInfo) returns (out: seq<seq<byte>>)
    requires 0 < |iov| <= 256 && ck.off + 2 <= |iov[0]|
    ensures out == Stored(iov, ck, Fold(PartsSum(Covered(iov, ck.start, CkLen(ck)))))
    ensures AllExact(Covered(iov, ck.start, CkLen(ck))) && FieldReady(iov, ck) ==>
              Checksum(Window(Flatten(out), ck.start, CkLen(ck))) == 0xFFFF
  {
    hide Covered, PartsSum, AllExact, Window, Flatten;
    var cksum := IovChecksum(iov, ck.start, CkLen(ck));
    out := [Store16(iov[0], ck.off, 0xFFFF - cksum)] + iov[1..];
    if FieldReady(iov, ck) { StoredRangeVerifies(iov, ck); }
  }

  lemma {:induction false} StoredRangeVerifies(iov: seq<seq<byte>>, ck: CkInfo)
    requires FieldReady(iov, ck)
    ensures var out := Stored(iov, ck, Checksum(Window(Flatten(iov), ck.start, CkLen(ck))));
      Checksum(Window(Flatten(out), ck.start, CkLen(ck))) == 0xFFFF
  {
    var len := CkLen(ck);
    var w := Window(Flatten(iov), ck.start, len);
    var c := Checksum(w);
    var stored := Store16(iov[0], ck.off, 0xFFFF - c);
    var out := Stored(iov, ck, c);
    assert out[1..] == iov[1..];
    var rest := Flatten(iov[1..]);
    assert Flatten(iov) == iov[0] + rest && Flatten(out) == stored + rest;
    StoreInWindow(iov[0], rest, ck, 0xFFFF - c);
    StoredChecksumVerifies(w, ck.off - ck.start);
  }

  /** Storing in the first piece stores at the shifted position of the range. */
  lemma {:induction false} StoreInWindow(head: seq<byte>, rest: seq<byte>, ck: CkInfo, v: nat)
    requires ck.start <= ck.off && ck.off + 2 <= |head| && ck.off + 2 <= ck.start + CkLen(ck) && v <= 0xFFFF
    ensures var w := Window(head + rest, ck.start, CkLen(ck)); var at: nat := ck.off - ck.start;
      && at + 2 <= |w| && w[at] == head[ck.off] && w[at + 1] == head[ck.off + 1]
      && Window(Store16(head, ck.off, v) + rest, ck.start, CkLen(ck)) == Store16(w, at, v)
  {
    var flat, at: nat := head + rest, ck.off - ck.start;
    var end: nat := Min(ck.start + CkLen(ck), |flat|);
    var w := flat[ck.start..end];
    assert Window(flat, ck.start, CkLen(ck)) == w;
    StoreInSlice(flat, ck.start, end, ck.off, v % 256);
    StoreInSlice(flat[ck.off := v % 256], ck.start, end, ck.off + 1, v / 256);
    assert Store16(head, ck.off, v) + rest == flat[ck.off := v % 256][ck.off + 1 := v / 256];
  }

  lemma {:induction false} StoreInSlice(flat: seq<byte>, start: nat, end: nat, at: nat, x: byte)
    requires start <= at < end <= |flat|
    ensures flat[at := x][start..end] == flat[start..end][at - start := x]
    ensures flat[start..end][at - start] == flat[at]
  {
  }

  // ---- How long a buffer the 32-bit accumulator serves ----

  function Ones(n: nat): (b: seq<byte>)
    ensures |b| == n
  {
    seq(n, _ => 255)
  }

  lemma {:induction false} OnesSum(n: nat)
    ensures EvenSum(Ones(n)) == 255 * ((n + 1) / 2) && OddSum(Ones(n)) == 255 * (n / 2)
  {
    if n > 0 {
      assert Ones(n)[1..] == Ones(n - 1);
      OnesSum(n - 1);
    }
  }

  lemma {:induction false} ZerosSum(n: nat)
    ensures EvenSum(seq(n, _ => 0)) == 0 && OddSum(seq(n, _ => 0)) == 0
  {
    if n > 0 {
      assert seq(n, _ => 0 as byte)[1..] == seq(n - 1, _ => 0 as byte);
      ZerosSum(n - 1);
    }
  }

  function Zeros(n: nat): (b: seq<byte>)
    ensures |b| == n
  {
    seq(n, _ => 0)
  }

  /** A buffer of `n` bytes whose words wrap the accumulator to zero, if there are enough. */
  function Wrapping(n: nat): (b: seq<byte>)
    ensures |b| == n
  {
    if n <= EXACT_BYTES then Zeros(n) else (Ones(EXACT_BYTES) + [1]) + Zeros(n - EXACT_BYTES - 1)
  }

  lemma {:induction false} WrappingSum(n: nat)
    ensures WordSum(Wrapping(n)) == if n <= EXACT_BYTES then 0 else U32
    ensures WrappedChecksum(Wrapping(n)) == 0
  {
    ZerosSum(n);
    if n > EXACT_BYTES {
      var zeros := Zeros(n - EXACT_BYTES - 1);
      SumsConcat(Ones(EXACT_BYTES) + [1], zeros);
      SumsConcat(Ones(EXACT_BYTES), [1]);
      OnesSum(EXACT_BYTES);
      ZerosSum(n - EXACT_BYTES - 1);
    }
  }

  /** The wrapping accumulator is faithful on all buffers of `n` bytes exactly up to 131074. */
  lemma {:induction false} AccumulatorIsExactUpTo(n: nat)
    ensures (forall b: seq<byte> :: |b| == n ==> WrappedChecksum(b) == Checksum(b)) <==> n <= EXACT_BYTES
  {
    hide WordSum, WrappedChecksum, Wrapping;
    if n <= EXACT_BYTES {
      forall b: seq<byte> | |b| == n ensures WrappedChecksum(b) == Checksum(b) {
        ShortBuffersAreExact(b);
      }
    } else {
      WrappingSum(n);
      assert |Wrapping(n)| == n && WrappedChecksum(Wrapping(n)) != Checksum(Wrapping(n));
    }
  }

  // ---- Which fragmentations are exact ----

  predicate HasLengths(iov: seq<seq<byte>>, lens: seq<nat>) {
    |iov| == |lens| && forall k :: 0 <= k < |lens| ==> |iov[k]| == lens[k]
  }

  /** The lengths of the covered parts. */
  function CoveredLengths(lens: seq<nat>, off: nat, len: int): seq<nat> {
    if lens == [] || len <= 0 then []
    else if lens[0] <= off && off > 0 then CoveredLengths(lens[1..], off - lens[0], len)
    else
      var now := Min(len, lens[0] - off);
      [now] + CoveredLengths(lens[1..], 0, len - now)
  }

  lemma {:induction false} LengthsTail(iov: seq<seq<byte>>, lens: seq<nat>)
    requires HasLengths(iov, lens) && lens != []
    ensures iov != [] && |iov[0]| == lens[0] && HasLengths(iov[1..], lens[1..])
  {
  }

  lemma {:induction false} LengthsCons(piece: seq<byte>, iov: seq<seq<byte>>, lens: seq<nat>)
    requires HasLengths(iov, lens)
    ensures HasLengths([piece] + iov, [|piece|] + lens)
  {
  }

  lemma {:induction false} CoveredHasLengths(iov: seq<seq<byte>>, lens: seq<nat>, off: nat, len: int)
    requires HasLengths(iov, lens)
    ensures HasLengths(Covered(iov, off, len), CoveredLengths(lens, off, len))
    decreases lens
  {
    if lens != [] && len > 0 {
      hide Covered, HasLengths;
      LengthsTail(iov, lens);
      if lens[0] <= off && off > 0 {
        CoveredSkip(iov, off, len);
        CoveredHasLengths(iov[1..], lens[1..], off - lens[0], len);
      } else {
        var now := Min(len, lens[0] - off);
        CoveredTake(iov, off, len);
        CoveredHasLengths(iov[1..], lens[1..], 0, len - now);
        LengthsCons(iov[0][off..off + now], Covered(iov[1..], 0, len - now), CoveredLengths(lens[1..], 0, len - now));
      }
    }
  }

  /** The fragmented sum of these pieces is that of the flat range. */
  ghost predicate FragmentsExact(iov: seq<seq<byte>>, off: nat, len: int) {
    Fold(PartsSum(Covered(iov, off, len))) == Checksum(Window(Flatten(iov), off, len))
  }

  /** Pieces of given lengths whose covered parts all wrap to zero. */
  function WrappingIov(lens: seq<nat>, off: nat, len: int): (iov: seq<seq<byte>>)
    ensures HasLengths(iov, lens)
    decreases lens
  {
    if lens == [] then []
    else if len <= 0 then [Zeros(lens[0])] + WrappingIov(lens[1..], 0, 0)
    else if lens[0] <= off && off > 0 then [Zeros(lens[0])] + WrappingIov(lens[1..], off - lens[0], len)
    else
      var now := Min(len, lens[0] - off);
      [Zeros(off) + Wrapping(now) + Zeros(lens[0] - off - now)] + WrappingIov(lens[1..], 0, len - now)
  }

  ghost predicate AllWrapping(parts: seq<seq<byte>>) {
    forall k :: 0 <= k < |parts| ==> parts[k] == Wrapping(|parts[k]|)
  }

  lemma {:induction false} WrappingCons(x: seq<byte>, parts: seq<seq<byte>>)
    requires x == Wrapping(|x|) && AllWrapping(parts)
    ensures AllWrapping([x] + parts)
  {
    hide Wrapping;
  }

  lemma {:induction false} WrappingStep(iov: seq<seq<byte>>, off: nat, len: int)
    requires iov != [] && len > 0 && (off == 0 || off < |iov[0]|)
    requires var now := Min(len, |iov[0]| - off);
      iov[0][off..off + now] == Wrapping(now) && AllWrapping(Covered(iov[1..], 0, len - now))
    ensures AllWrapping(Covered(iov, off, len))
  {
    hide AllWrapping, Covered, Wrapping;
    var now := Min(len, |iov[0]| - off);
    CoveredTake(iov, off, len);
    WrappingCons(iov[0][off..off + now], Covered(iov[1..], 0, len - now));
  }

  lemma {:induction false} WrappingIovSkip(lens: seq<nat>, off: nat, len: int)
    requires lens != [] && len > 0 && lens[0] <= off && off > 0
    ensures var iov := WrappingIov(lens, off, len);
      iov != [] && |iov[0]| == lens[0] && iov[1..] == WrappingIov(lens[1..], off - lens[0], len)
  {
  }

  lemma {:induction false} WrappingIovTake(lens: seq<nat>, off: nat, len: int)
    requires lens != [] && len > 0 && (off == 0 || off < lens[0])
    ensures var iov, now := WrappingIov(lens, off, len), Min(len, lens[0] - off);
      && iov != [] && |iov[0]| == lens[0] && iov[1..] == WrappingIov(lens[1..], 0, len - now)
      && iov[0][off..off + now] == Wrapping(now)
  {
    hide Wrapping, Zeros;
    var now := Min(len, lens[0] - off);
    MiddlePart(Zeros(off), Wrapping(now), Zeros(lens[0] - off - now));
  }

  lemma {:induction false} WrappingIovNone(lens: seq<nat>, off: nat, len: int)
    requires lens == [] || len <= 0
    ensures AllWrapping(Covered(WrappingIov(lens, off, len), off, len))
  {
  }

  lemma {:induction false} WrappingIovCovered(lens: seq<nat>, off: nat, len: int)
    ensures AllWrapping(Covered(WrappingIov(lens, off, len), off, len))
    decreases lens
  {
    hide WrappingIov, Covered, AllWrapping, HasLengths, Wrapping, Zeros;
    if lens == [] || len <= 0 {
      WrappingIovNone(lens, off, len);
    } else {
      var iov := WrappingIov(lens, off, len);
      if lens[0] <= off && off > 0 {
        WrappingIovSkip(lens, off, len);
        CoveredSkip(iov, off, len);
        WrappingIovCovered(lens[1..], off - lens[0], len);
      } else {
        WrappingIovTake(lens, off, len);
        WrappingIovCovered(lens[1..], 0, len - Min(len, lens[0] - off));
        WrappingStep(iov, off, len);
      }
    }
  }

  lemma {:induction false} MiddlePart(a: seq<byte>, b: seq<byte>, c: seq<byte>)
    ensures (a + b + c)[|a|..|a| + |b|] == b
  {
  }

  /** Such parts sum to zero piece by piece, but not together when one of them is too long. */
  lemma {:induction false} WrappingPartsSum(parts: seq<seq<byte>>)
    requires AllWrapping(parts)
    ensures PartsSum(parts) == 0
    ensures !AllExact(parts) ==> WordSum(Flatten(parts)) > 0
  {
    hide Wrapping, WordSum, WrappedChecksum;
    if parts != [] {
      var init, last := parts[..|parts| - 1], parts[|parts| - 1];
      WrappingPartsSum(init);
      WrappingSum(|last|);
      assert init + [last] == parts;
      FlattenSnoc(init, last);
      PieceAdds(Flatten(init), last);
    }
  }

  lemma {:induction false} PieceAdds(a: seq<byte>, b: seq<byte>)
    ensures WordSum(a + b) >= WordSum(a) && (WordSum(b) > 0 ==> WordSum(a + b) > 0)
  {
    SumsConcat(a, b);
  }

  /** For pieces of given lengths the result is the flat checksum whatever they contain, if and only
      if no part of a piece in the range is longer than 131074 bytes. A data descriptor can name a
      longer one. */
  lemma {:induction false} FragmentsExactUpTo(lens: seq<nat>, off: nat, len: int)
    ensures (forall iov: seq<seq<byte>> :: HasLengths(iov, lens) ==> FragmentsExact(iov, off, len))
            <==> forall k :: 0 <= k < |CoveredLengths(lens, off, len)| ==>
                   CoveredLengths(lens, off, len)[k] <= EXACT_BYTES
  {
    hide Covered, CoveredLengths, Window, Flatten, PartsSum, WordSum, WrappingIov, Wrapping;
    var ns := CoveredLengths(lens, off, len);
    if forall k :: 0 <= k < |ns| ==> ns[k] <= EXACT_BYTES {
      forall iov: seq<seq<byte>> | HasLengths(iov, lens) ensures FragmentsExact(iov, off, len) {
        CoveredHasLengths(iov, lens, off, len);
        PartsAreExact(Covered(iov, off, len));
        CoveredIsWindow(iov, off, len);
        FoldUnique(PartsSum(Covered(iov, off, len)), WordSum(Window(Flatten(iov), off, len)));
      }
    } else {
      var iov := WrappingIov(lens, off, len);
      CoveredHasLengths(iov, lens, off, len);
      WrappingIovCovered(lens, off, len);
      WrappingPartsSum(Covered(iov, off, len));
      CoveredIsWindow(iov, off, len);
      assert HasLengths(iov, lens) && !FragmentsExact(iov, off, len);
    }
  }
}
