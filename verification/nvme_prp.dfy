/** The NVMe physical region page walk and its coalesced vectors (pci_nvme.c, NVM Express 1.3 section 4.3). */
module NvmePrp {
  import opened Seqs
  import opened Iovs

  const PAGE := 4096
  const ITEMS := 512
  const MAX_IOVS := 512

  /** The request being built, with the run of guest memory its last vector covers. */
  datatype Req = Req(iov: seq<Iov>, prevAddr: nat, prevSize: nat, resid: nat, offset: nat)

  /** Guest memory as 64-bit words, for reading PRP lists. */
  type Words = nat -> nat

  /** What a read or write command asks for: its two PRP entries and a byte count. */
  datatype Xfer = Xfer(prp1: nat, prp2: nat, bytes: nat, words: Words)

  // ---- Appending one chunk ----

  /** pci_nvme_append_iov_req for a block-backed store: extend the last vector when the chunk continues
      it, else start another. None is the partial-transfer path of a full request. */
  function Append(req: Req, gpaddr: nat, size: nat, lba: nat): Option<Req> {
    if Addr(req.prevAddr, req.prevSize) == gpaddr && req.iov != [] then
      var n := |req.iov| - 1;
      Some(req.(iov := req.iov[..n] + [Iov(req.prevAddr, req.prevSize + size)],
                prevSize := req.prevSize + size, resid := req.resid + size))
    else if |req.iov| == MAX_IOVS then None
    else
      Some(Req(req.iov + [Iov(gpaddr, size)], gpaddr, size, req.resid + size,
               if req.iov == [] then lba else req.offset))
  }

  /** The request describes its last vector, and no vector continues the one before it. */
  ghost predicate WellFormed(req: Req) {
    && |req.iov| <= MAX_IOVS
    && req.resid == |IovBytes(req.iov)|
    && (req.iov != [] ==> req.iov[|req.iov| - 1] == Iov(req.prevAddr, req.prevSize))
    && forall j :: 0 <= j < |req.iov| - 1 ==> !Continues(req.iov[j], req.iov[j + 1])
  }

  lemma {:induction false} AppendCovers(req: Req, gpaddr: nat, size: nat, lba: nat)
    requires WellFormed(req) && Append(req, gpaddr, size, lba).Some?
    ensures var r := Append(req, gpaddr, size, lba).value;
      && WellFormed(r)
      && IovBytes(r.iov) == IovBytes(req.iov) + Range(gpaddr, size)
      && r.offset == (if req.iov == [] then lba else req.offset)
      && r.iov != []
  {
    var r := Append(req, gpaddr, size, lba).value;
    if Addr(req.prevAddr, req.prevSize) == gpaddr && req.iov != [] {
      var init := req.iov[..|req.iov| - 1];
      assert req.iov == init + [Iov(req.prevAddr, req.prevSize)];
      IovPush(init, Iov(req.prevAddr, req.prevSize));
      IovPush(init, Iov(req.prevAddr, req.prevSize + size));
      RangeExtends(req.prevAddr, req.prevSize, size);
      Assoc(IovBytes(init), Range(req.prevAddr, req.prevSize), Range(gpaddr, size));
    } else {
      IovPush(req.iov, Iov(gpaddr, size));
    }
  }

  // ---- How many vectors a list of chunks needs ----

  /** The second chunk starts where the first one ends. */
  predicate Continues(a: Iov, b: Iov) { Addr(a.base, a.len) == b.base }

  /** The number of runs in a list of chunks: chunks that do not continue the one before. */
  function Coalesced(chunks: seq<Iov>): nat {
    if |chunks| <= 1 then |chunks|
    else Coalesced(chunks[..|chunks| - 1])
         + (if Continues(chunks[|chunks| - 2], chunks[|chunks| - 1]) then 0 else 1)
  }

  lemma {:induction false} CoalescedGrows(chunks: seq<Iov>, n: nat)
    requires n <= |chunks|
    ensures Coalesced(chunks[..n]) <= Coalesced(chunks)
  {
    if n < |chunks| {
      var init := chunks[..|chunks| - 1];
      CoalescedGrows(init, n);
      assert init[..n] == chunks[..n];
    } else {
      assert chunks[..n] == chunks;
    }
  }

  /** The request holds one vector for each run of the chunks appended so far. */
  ghost predicate Coalesces(req: Req, chunks: seq<Iov>) {
    && chunks != [] && req.iov != [] && |req.iov| == Coalesced(chunks)
    && Addr(req.prevAddr, req.prevSize) == Addr(chunks[|chunks| - 1].base, chunks[|chunks| - 1].len)
  }

  /** Appending fails exactly when the chunk starts one run too many. */
  lemma {:induction false} AppendCoalesces(req: Req, chunks: seq<Iov>, c: Iov, lba: nat)
    requires Coalesces(req, chunks) && |req.iov| <= MAX_IOVS
    ensures var r := Append(req, c.base, c.len, lba);
      && (r.Some? <==> Coalesced(chunks + [c]) <= MAX_IOVS)
      && (r.Some? ==> Coalesces(r.value, chunks + [c]))
  {
    assert (chunks + [c])[..|chunks|] == chunks;
    AddrAdds(req.prevAddr, req.prevSize, c.len);
  }

  // ---- What the PRP entries name ----

  /** Bytes the first page supplies. */
  function FirstSize(x: Xfer): nat { Min(PAGE - x.prp1 % PAGE, x.bytes) }

  /** Guest address of list page `s`: the last entry of a full page links to the next. */
  function ListPage(x: Xfer, s: nat): nat {
    if s == 0 then x.prp2 else x.words(Addr(ListPage(x, s - 1), 8 * (ITEMS - 1)))
  }

  /** Number of pages after the first. */
  function PageCount(x: Xfer): nat { (x.bytes - FirstSize(x) + PAGE - 1) / PAGE }

  /** Entry `p` of those that the PRP list supplies: 511 to a list page, except that the last entry
      of a page is a data page when nothing follows it. */
  function Entry(x: Xfer, p: nat): nat {
    if p == PageCount(x) - 1 && p > 0 && p % (ITEMS - 1) == 0
    then x.words(Addr(ListPage(x, p / (ITEMS - 1) - 1), 8 * (ITEMS - 1)))
    else x.words(Addr(ListPage(x, p / (ITEMS - 1)), 8 * (p % (ITEMS - 1))))
  }

  /** Guest address of page `p` after the first: PRP2 itself when one page is enough. */
  function PageAddr(x: Xfer, p: nat): nat { if PageCount(x) <= 1 then x.prp2 else Entry(x, p) }

  /** Guest address of byte `k` of the transfer. */
  function ByteAddr(x: Xfer, k: nat): nat {
    var first := FirstSize(x);
    if k < first then Addr(x.prp1, k) else Addr(PageAddr(x, (k - first) / PAGE), (k - first) % PAGE)
  }

  /** The bytes built so far are the first bytes of the transfer. */
  ghost predicate Names(built: seq<nat>, x: Xfer) {
    forall k :: 0 <= k < |built| ==> built[k] == ByteAddr(x, k)
  }

  /** The part of the transfer in page `p`. */
  function PageChunk(x: Xfer, p: nat): Iov {
    Iov(PageAddr(x, p), Min(PAGE, Max(0, x.bytes - FirstSize(x) - p * PAGE)))
  }

  /** The first page's part of the transfer and those of the `n` pages after it. */
  function Chunks(x: Xfer, n: nat): (c: seq<Iov>)
    ensures |c| == n + 1
  {
    [Iov(x.prp1, FirstSize(x))] + seq(n, p requires 0 <= p < n => PageChunk(x, p))
  }

  lemma {:induction false} ChunksPush(x: Xfer, n: nat)
    ensures Chunks(x, n + 1) == Chunks(x, n) + [PageChunk(x, n)]
  {
  }

  // ---- What can go wrong ----

  datatype Outcome =
    | Built(req: Req)
    | ZeroEntry
    | MisalignedLink
    | TooManyIovs

  /** Page `p` is reached through a link. */
  predicate Linked(x: Xfer, p: nat) { 0 < p < PageCount(x) - 1 && p % (ITEMS - 1) == 0 }

  /** What stops the walk at page `p` of a list, if it gets there. */
  function PageError(x: Xfer, p: nat): Option<Outcome> {
    if PageCount(x) <= 1 then None
    else if Linked(x, p) && ListPage(x, p / (ITEMS - 1)) % PAGE != 0 then Some(MisalignedLink)
    else if Entry(x, p) == 0 then Some(ZeroEntry)
    else if Coalesced(Chunks(x, p + 1)) > MAX_IOVS then Some(TooManyIovs)
    else None
  }

  ghost predicate NoErrorBelow(x: Xfer, n: nat) { forall p :: 0 <= p < n ==> PageError(x, p).None? }

  /** Page `p` is the first one in error. */
  ghost predicate FirstError(x: Xfer, p: nat, e: Outcome) {
    p < PageCount(x) && NoErrorBelow(x, p) && PageError(x, p) == Some(e)
  }

  /** What a guest has to provide: aligned list pages, entries that are not zero, and few enough runs. */
  ghost predicate Buildable(x: Xfer) {
    && (PageCount(x) > 1 ==>
          && (forall p :: 0 <= p < PageCount(x) ==> Entry(x, p) != 0)
          && (forall p: nat :: Linked(x, p) ==> ListPage(x, p / (ITEMS - 1)) % PAGE == 0))
    && Coalesced(Chunks(x, PageCount(x))) <= MAX_IOVS
  }

  lemma {:induction false} BuildableExactly(x: Xfer)
    ensures Buildable(x) <==> NoErrorBelow(x, PageCount(x))
  {
    hide PageCount, Entry, ListPage, Coalesced, Chunks;
    var n := PageCount(x);
    if n == 0 {
      FewChunks(x, 0);
    } else if n == 1 {
      FewChunks(x, 1);
    } else if Buildable(x) {
      forall p | 0 <= p < n ensures PageError(x, p).None? { ChunksPrefix(x, p + 1, n); }
    } else if NoErrorBelow(x, n) {
      assert PageError(x, n - 1).None?;
      forall p | 0 <= p < n ensures Entry(x, p) != 0 { assert PageError(x, p).None?; }
      forall p: nat | Linked(x, p) ensures ListPage(x, p / (ITEMS - 1)) % PAGE == 0 { assert PageError(x, p).None?; }
    }
  }

  lemma {:induction false} ChunksPrefix(x: Xfer, p: nat, n: nat)
    requires p <= n
    ensures Coalesced(Chunks(x, p)) <= Coalesced(Chunks(x, n))
  {
    CoalescedGrows(Chunks(x, n), p + 1);
    assert Chunks(x, n)[..p + 1] == Chunks(x, p);
  }

  lemma {:induction false} FewChunks(x: Xfer, n: nat)
    requires n <= 1
    ensures Coalesced(Chunks(x, n)) <= 2
  {
    assert n == 1 ==> |Chunks(x, n)[..1]| == 1;
  }

  // ---- The walk ----

  lemma {:induction false} FirstChunk(x: Xfer)
    ensures Names(Range(x.prp1, FirstSize(x)), x)
  {
  }

  /** Appending page `p` supplies the bytes that belong there. */
  lemma {:induction false} PageNames(built: seq<nat>, x: Xfer, p: nat)
    requires Names(built, x) && |built| == FirstSize(x) + p * PAGE
    ensures Names(built + Range(PageChunk(x, p).base, PageChunk(x, p).len), x)
  {
    var first := FirstSize(x);
    var next := Range(PageAddr(x, p), PageChunk(x, p).len);
    forall k | 0 <= k < |built + next| ensures (built + next)[k] == ByteAddr(x, k) {
      if k >= |built| {
        var off := k - |built|;
        PageOf(p, off);
        assert (built + next)[k] == next[off];
      }
    }
  }

  lemma {:induction false} PageOf(p: nat, off: nat)
    requires off < PAGE
    ensures (p * PAGE + off) / PAGE == p && (p * PAGE + off) % PAGE == off
  {
  }

  /** Where the walk stands in the PRP list. */
  datatype ListPos = ListPos(list: nat, i: nat)

  /** The walk at page `p` reads entry `i` of list page `seg`. */
  ghost predicate AtPage(pos: ListPos, seg: nat, p: nat, x: Xfer) {
    && pos.list == ListPage(x, seg)
    && p == seg * (ITEMS - 1) + pos.i && pos.i <= ITEMS - 1
  }

  /** Read entry `i`, or follow the link in the last one when more than a page remains. */
  function Follow(pos: ListPos, more: bool, words: Words): ListPos {
    if pos.i == ITEMS - 1 && more then ListPos(words(Addr(pos.list, 8 * (ITEMS - 1))), 0) else pos
  }

  /** The page is linked exactly when a link is followed, and the entry read is the page's. */
  lemma {:induction false} FollowReads(pos: ListPos, seg: nat, p: nat, x: Xfer) returns (seg': nat)
    requires AtPage(pos, seg, p, x) && p < PageCount(x) && (pos.i == 0 ==> seg == 0)
    ensures var more := p < PageCount(x) - 1; var pos' := Follow(pos, more, x.words);
      && AtPage(pos', seg', p, x)
      && x.words(Addr(pos'.list, 8 * pos'.i)) == Entry(x, p)
      && (pos'.i < ITEMS - 1 || p == PageCount(x) - 1)
      && (Linked(x, p) <==> pos.i == ITEMS - 1 && more)
      && (Linked(x, p) ==> pos'.list == ListPage(x, p / (ITEMS - 1)))
  {
    var more := p < PageCount(x) - 1;
    seg' := if pos.i == ITEMS - 1 && more then seg + 1 else seg;
    var i := Follow(pos, more, x.words).i;
    if i == ITEMS - 1 {
      ListIndex(seg + 1, 0);
    } else {
      ListIndex(seg', i);
    }
  }

  lemma {:induction false} ListIndex(seg: nat, i: nat)
    requires i < ITEMS - 1
    ensures (seg * (ITEMS - 1) + i) / (ITEMS - 1) == seg && (seg * (ITEMS - 1) + i) % (ITEMS - 1) == i
  {
  }

  /** The request names the transfer, and starts at `lba`. */
  ghost predicate Serves(req: Req, x: Xfer, lba: nat) {
    && WellFormed(req) && req.resid == x.bytes && req.offset == lba
    && |IovBytes(req.iov)| == x.bytes && Names(IovBytes(req.iov), x)
    && |req.iov| == Coalesced(Chunks(x, PageCount(x)))
  }

  /** Build the request for one read or write command. */
  method BuildRequest(x: Xfer, lba: nat) returns (out: Outcome)
    requires x.prp1 > 0 && x.bytes > 0
    ensures out.Built? <==> Buildable(x)
    ensures out.Built? ==> Serves(out.req, x, lba)
    ensures !out.Built? ==> exists p :: FirstError(x, p, out)
  {
    hide Buildable, Entry, ByteAddr, Continues, Linked, ListPage;
    var cpsz := FirstSize(x);
    var req := Req([], 0, 0, 0, 0);
    AppendCovers(req, x.prp1, cpsz, lba);
    FirstChunk(x);
    req := Append(req, x.prp1, cpsz, lba).value;
    assert [] + Range(x.prp1, cpsz) == Range(x.prp1, cpsz);
    assert Chunks(x, 0) == [Iov(x.prp1, cpsz)];
    var size := x.bytes - cpsz;
    BuildableExactly(x);
    if size == 0 { return Built(req); }
    if size <= PAGE {
      ghost var done := OnePage(req, x, lba, lba + cpsz);
      return Built(Append(req, x.prp2, size, lba + cpsz).value);
    }
    out := WalkList(req, x, lba);
  }

  /** A second page given by PRP2 itself always fits. */
  lemma {:induction false} OnePage(req: Req, x: Xfer, lba: nat, at: nat) returns (r: Req)
    requires Walked(req, 0, x, lba) && 0 < x.bytes - FirstSize(x) <= PAGE
    ensures Append(req, x.prp2, x.bytes - FirstSize(x), at) == Some(r) && Serves(r, x, lba)
  {
    hide Chunks, Names, FirstSize, PageCount, IovBytes;
    CountIsOne(x);
    FewChunks(x, 1);
    AppendPage(req, 0, x, lba, at);
    r := Append(req, x.prp2, x.bytes - FirstSize(x), at).value;
  }

  lemma {:induction false} CountIsOne(x: Xfer)
    requires 0 < x.bytes - FirstSize(x) <= PAGE
    ensures PageCount(x) == 1
  {
  }

  /** Progress of the walk: pages below `p` are appended. */
  ghost predicate Walked(req: Req, p: nat, x: Xfer, lba: nat) {
    && WellFormed(req) && req.offset == lba
    && req.resid == Min(FirstSize(x) + p * PAGE, x.bytes)
    && Names(IovBytes(req.iov), x)
    && Coalesces(req, Chunks(x, p))
  }

  method WalkList(req0: Req, x: Xfer, lba: nat) returns (out: Outcome)
    requires x.bytes - FirstSize(x) > PAGE && Walked(req0, 0, x, lba)
    ensures out.Built? <==> NoErrorBelow(x, PageCount(x))
    ensures out.Built? ==> Serves(out.req, x, lba)
    ensures !out.Built? ==> exists p :: FirstError(x, p, out)
  {
    hide PageError, ByteAddr, Continues;
    var req, pos, size := req0, ListPos(x.prp2, 0), x.bytes - FirstSize(x);
    ghost var p, seg := 0, 0;
    while size != 0
      invariant size == x.bytes - req.resid
      invariant Walking(req, pos, seg, p, x, lba)
      decreases size
    {
      var stop;
      stop, req, pos, seg := NextPage(req, pos, seg, p, x, lba);
      if stop.Some? {
        assert FirstError(x, p, stop.value);
        return stop.value;
      }
      size, p := x.bytes - req.resid, p + 1;
    }
    AllPagesWalked(x, p);
    return Built(req);
  }

  /** Read the next entry and append its page; the page's error, if it has one, ends the walk. */
  method NextPage(req: Req, pos: ListPos, ghost seg: nat, ghost p: nat, x: Xfer, ghost lba: nat)
    returns (stop: Option<Outcome>, req': Req, pos': ListPos, ghost seg': nat)
    requires Walking(req, pos, seg, p, x, lba) && req.resid < x.bytes
    ensures p < PageCount(x) && stop == PageError(x, p)
    ensures stop.Some? ==> !stop.value.Built?
    ensures stop.None? ==> Walking(req', pos', seg', p + 1, x, lba) && req.resid < req'.resid <= x.bytes
  {
    hide Walking, Walked, Coalesced;
    req', pos', seg' := req, pos, seg;
    var size := x.bytes - req.resid;
    seg' := WalkStep(req, pos, seg, p, x, lba);
    var followed := Follow(pos, size > PAGE, x.words);
    if pos.i == ITEMS - 1 && size > PAGE && followed.list % PAGE != 0 { return Some(MisalignedLink), req', pos', seg'; }
    pos' := followed;
    var entry := x.words(Addr(pos'.list, 8 * pos'.i));
    if entry == 0 { return Some(ZeroEntry), req', pos', seg'; }
    var r := Append(req, entry, Min(size, PAGE), req.offset + req.resid);
    if r.None? { return Some(TooManyIovs), req', pos', seg'; }
    return None, r.value, pos'.(i := pos'.i + 1), seg';
  }

  /** The walk between two pages. */
  ghost predicate Walking(req: Req, pos: ListPos, seg: nat, p: nat, x: Xfer, lba: nat) {
    && Walked(req, p, x, lba)
    && p <= PageCount(x) && PageCount(x) > 1
    && (req.resid < x.bytes ==> AtPage(pos, seg, p, x) && (pos.i == 0 ==> seg == 0))
    && NoErrorBelow(x, p)
  }

  /** One turn of the walk: the entry read is that of page `p`, and appending it completes the page. */
  lemma {:induction false} WalkStep(req: Req, pos: ListPos, seg: nat, p: nat, x: Xfer, lba: nat) returns (seg': nat)
    requires Walking(req, pos, seg, p, x, lba) && req.resid < x.bytes
    ensures p < PageCount(x) && PageCount(x) > 1 && req.offset == lba
    ensures var size := x.bytes - req.resid;
      var pos' := Follow(pos, size > PAGE, x.words);
      var entry := x.words(Addr(pos'.list, 8 * pos'.i));
      var r := Append(req, entry, Min(size, PAGE), lba + req.resid);
      && entry == Entry(x, p)
      && (Linked(x, p) <==> pos.i == ITEMS - 1 && size > PAGE)
      && (Linked(x, p) ==> pos'.list == ListPage(x, p / (ITEMS - 1)))
      && (r.Some? <==> Coalesced(Chunks(x, p + 1)) <= MAX_IOVS)
      && (PageError(x, p).None? && r.Some? ==>
           && req.resid < r.value.resid <= x.bytes
           && Walking(r.value, pos'.(i := pos'.i + 1), seg', p + 1, x, lba))
  {
    hide Names, IovBytes, ByteAddr, FirstSize, Coalesced, Chunks, Entry, Linked, PageError;
    var size := x.bytes - req.resid;
    PagesLeft(x, p, size);
    seg' := FollowReads(pos, seg, p, x);
    AppendPage(req, p, x, lba, lba + req.resid);
  }

  lemma {:induction false} AppendPage(req: Req, p: nat, x: Xfer, lba: nat, at: nat)
    requires Walked(req, p, x, lba) && FirstSize(x) + p * PAGE < x.bytes
    ensures var r := Append(req, PageAddr(x, p), Min(x.bytes - req.resid, PAGE), at);
      && (r.Some? <==> Coalesced(Chunks(x, p + 1)) <= MAX_IOVS)
      && (r.Some? ==> Walked(r.value, p + 1, x, lba))
      && (r.Some? ==> r.value.resid == req.resid + Min(x.bytes - req.resid, PAGE))
  {
    hide Names, ByteAddr, FirstSize, Coalesced, Chunks, PageAddr;
    var c := PageChunk(x, p);
    assert c == Iov(PageAddr(x, p), Min(x.bytes - req.resid, PAGE));
    ChunksPush(x, p);
    AppendCoalesces(req, Chunks(x, p), c, at);
    if Append(req, c.base, c.len, at).Some? {
      AppendCovers(req, c.base, c.len, at);
      PageNames(IovBytes(req.iov), x, p);
    }
  }

  lemma {:induction false} PagesLeft(x: Xfer, p: nat, size: nat)
    requires size == x.bytes - Min(FirstSize(x) + p * PAGE, x.bytes) && size > 0
    ensures FirstSize(x) + p * PAGE < x.bytes
    ensures p < PageCount(x) && (size > PAGE <==> p < PageCount(x) - 1)
  {
  }

  lemma {:induction false} AllPagesWalked(x: Xfer, p: nat)
    requires p <= PageCount(x) && x.bytes <= FirstSize(x) + p * PAGE
    ensures p == PageCount(x)
  {
  }
}
