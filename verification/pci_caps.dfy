/** The capability list in PCI configuration space and the guest writes that reach it (pci_emul.c).
    A register value is the sequence of its bytes, lowest address first. */
module PciCaps {
  import opened Seqs

  type Config = s: seq<byte> | |s| == 256 witness seq(256, _ => 0)

  const COMMAND: nat := 0x04
  const STATUS: nat := 0x06
  const REVID: nat := 0x08
  const BAR0: nat := 0x10
  const BAR_END: nat := 0x28
  const CAP_PTR: nat := 0x34
  const CAP_START: nat := 0x40
  const CFG_SIZE: nat := 256
  const ID_MSI: byte := 0x05
  const ID_EXPRESS: byte := 0x10
  const ID_MSIX: byte := 0x11

  // ---- Register bits, as fields of a byte ----

  /** PCIM_STATUS_CAPPRESENT, bit 4 of the low status byte. */
  predicate Present(cfg: Config) { (cfg[STATUS] / 16) % 2 == 1 }

  function SetPresent(x: byte): byte { if (x / 16) % 2 == 1 then x else x + 16 }

  /** Low byte of the MSI message control: bits 0 and 4-6 (mask 0x71) come from the guest. */
  function MsiControl(was: byte, now: byte): byte {
    now % 2 + (was / 2) % 8 * 2 + (now / 16) % 8 * 16 + was / 128 * 128
  }

  predicate SameMsiReadOnly(x: byte, y: byte) { (x / 2) % 8 == (y / 2) % 8 && x / 128 == y / 128 }

  lemma {:induction false} MsiFields(was: byte, now: byte)
    ensures var r := MsiControl(was, now);
      r % 2 == now % 2 && (r / 16) % 8 == (now / 16) % 8 && SameMsiReadOnly(r, was)
  {
    Fields(now % 2, (was / 2) % 8, (now / 16) % 8, was / 128);
  }

  lemma {:induction false} Fields(a: int, b: int, c: int, d: int)
    requires 0 <= a < 2 && 0 <= b < 8 && 0 <= c < 8
    ensures var r := a + b * 2 + c * 16 + d * 128;
      r % 2 == a && (r / 2) % 8 == b && (r / 16) % 8 == c && r / 128 == d
  {
    var r := a + b * 2 + c * 16 + d * 128;
    assert r / 2 == b + c * 8 + d * 64;
    assert r / 16 == c + d * 8;
  }

  /** High byte of the MSI-X message control: bits 6-7 (mask 0xC000) come from the guest. */
  function MsixControl(was: byte, now: byte): byte { was % 64 + now / 64 * 64 }

  /** A byte of the command and status registers (read-only mask 0xFFFFF880). */
  function CommandByte(at: nat, was: byte, now: byte): byte {
    if at == COMMAND then now % 128 + was / 128 * 128
    else if at == COMMAND + 1 then now % 8 + was / 8 * 8
    else was
  }

  function CommandBytes(cfg: Config, at: nat, data: seq<byte>): (r: seq<byte>)
    requires COMMAND <= at && at + |data| <= REVID
    ensures |r| == |data| && forall i :: 0 <= i < |r| ==> r[i] == CommandByte(at + i, cfg[at + i], data[i])
  {
    seq(|data|, i requires 0 <= i < |data| => CommandByte(at + i, cfg[at + i], data[i]))
  }

  /** Store bytes at an offset. */
  function Put(cfg: Config, at: nat, data: seq<byte>): (r: Config)
    requires at + |data| <= CFG_SIZE
    ensures forall k :: 0 <= k < CFG_SIZE ==> r[k] == if at <= k < at + |data| then data[k - at] else cfg[k]
  {
    Splice(cfg, at, data)
  }

  // ---- The list ----

  /** A capability as it was added: first and last word of its extent, and its identifier. */
  datatype Cap = Cap(word: nat, words: nat, id: byte) {
    function Off(): nat { 4 * word }
    function End(): nat { 4 * (word + words) }
    predicate Holds(offset: int) { Off() <= offset < End() }
  }

  /** First offset after the last capability. */
  function ListEnd(caps: seq<Cap>): nat {
    if caps == [] then CAP_START else caps[|caps| - 1].End()
  }

  /** Entry `i` begins where the one before it ends. */
  ghost predicate Follows(caps: seq<Cap>, i: nat)
    requires i < |caps|
  {
    caps[i].words > 0 && caps[i].word == if i == 0 then CAP_START / 4 else caps[i - 1].word + caps[i - 1].words
  }

  /** Back to back from 0x40: strictly increasing and dword aligned. */
  ghost predicate Packed(caps: seq<Cap>) {
    ListEnd(caps) <= CFG_SIZE && forall i :: 0 <= i < |caps| ==> Follows(caps, i)
  }

  /** Register contents of entry `i`: its identifier and the offset of the next entry, or zero. */
  ghost predicate Linked(cfg: Config, caps: seq<Cap>, i: nat)
    requires i < |caps|
  {
    var off := caps[i].Off();
    && off + 1 < CFG_SIZE && cfg[off] == caps[i].id
    && cfg[off + 1] == if i + 1 < |caps| then caps[i + 1].Off() else 0
  }

  ghost predicate Chain(cfg: Config, caps: seq<Cap>) {
    && Packed(caps) && (Present(cfg) <==> caps != [])
    && forall i :: 0 <= i < |caps| ==> Linked(cfg, caps, i)
  }

  lemma {:induction false} Ascending(caps: seq<Cap>, i: nat, j: nat)
    requires Packed(caps) && i < j < |caps|
    ensures caps[i].End() <= caps[j].Off()
    decreases j
  {
    assert Follows(caps, j);
    if i < j - 1 {
      Ascending(caps, i, j - 1);
      assert Follows(caps, j - 1);
    }
  }

  lemma {:induction false} InRegion(caps: seq<Cap>, i: nat)
    requires Packed(caps) && i < |caps|
    ensures CAP_START <= caps[i].Off() < caps[i].End() <= ListEnd(caps)
  {
    assert Follows(caps, i) && Follows(caps, 0);
    if i > 0 { Ascending(caps, 0, i); }
    if i < |caps| - 1 { Ascending(caps, i, |caps| - 1); assert Follows(caps, |caps| - 1); }
  }

  /** Which entry an offset belongs to. */
  function Owner(caps: seq<Cap>, offset: int): (i: nat)
    ensures i <= |caps| && (i < |caps| ==> caps[i].Holds(offset))
    ensures i == |caps| ==> forall k :: 0 <= k < |caps| ==> !caps[k].Holds(offset)
  {
    if caps == [] then 0
    else if caps[|caps| - 1].Holds(offset) then |caps| - 1
    else
      var i := Owner(caps[..|caps| - 1], offset);
      if i < |caps| - 1 then i else |caps|
  }

  lemma {:induction false} OwnerIsUnique(caps: seq<Cap>, i: nat, offset: int)
    requires Packed(caps) && i < |caps| && caps[i].Holds(offset)
    ensures Owner(caps, offset) == i
  {
    var k := Owner(caps, offset);
    if k < i { Ascending(caps, k, i); } else if i < k { Ascending(caps, i, k); }
  }

  /** Every offset of the region belongs to an entry. */
  lemma {:induction false} OwnerExists(caps: seq<Cap>, offset: int, n: nat)
    requires Packed(caps) && n <= |caps| && CAP_START <= offset < ListEnd(caps[..n])
    ensures Owner(caps, offset) < |caps|
  {
    var last := caps[n - 1];
    assert caps[..n][n - 1] == last;
    assert Follows(caps, n - 1);
    if last.Holds(offset) {
      OwnerIsUnique(caps, n - 1, offset);
    } else {
      assert n > 1 ==> caps[..n - 1][n - 2] == caps[n - 2];
      OwnerExists(caps, offset, n - 1);
    }
  }

  // ---- Guest writes ----

  /** The part of a device function that configuration writes change. */
  datatype Func = Func(cfg: Config, msi: bool, msix: bool, msixMasked: bool)

  predicate Aligned(at: nat, n: nat) {
    n == 1 || (n == 2 && at % 2 == 0) || (n == 4 && at % 4 == 0)
  }

  /** An aligned access stays inside one dword. */
  lemma {:induction false} InWord(at: nat, n: nat)
    requires Aligned(at, n)
    ensures 4 * (at / 4) <= at && at + n <= 4 * (at / 4) + 4
  {
  }

  /** The handlers per capability. A two-byte write to the control word keeps its read-only bits. */
  function HandlerWrite(f: Func, cap: Cap, at: nat, data: seq<byte>): Func
    requires cap.Off() + 2 <= at && at + |data| <= CFG_SIZE && |data| > 0
  {
    var control := at == cap.Off() + 2 && |data| == 2;
    if cap.id == ID_MSI then
      var cfg := Put(f.cfg, at, if control then [MsiControl(f.cfg[at], data[0]), f.cfg[at + 1]] else data);
      f.(cfg := cfg, msi := cfg[cap.Off() + 2] % 2 == 1)
    else if cap.id == ID_MSIX then
      if control then
        var high := MsixControl(f.cfg[at + 1], data[1]);
        Func(Put(f.cfg, at, [f.cfg[at], high]), f.msi, high / 128 == 1, (high / 64) % 2 == 1)
      else f.(cfg := Put(f.cfg, at, data))
    else if cap.id == ID_EXPRESS then f.(cfg := Put(f.cfg, at, data))
    else f
  }

  /** Identifier and next pointer are read-only; a dword write that includes them loses its low half. */
  function CapWritten(f: Func, cap: Cap, at: nat, data: seq<byte>): Func
    requires cap.Off() <= at && at + |data| <= CFG_SIZE && |data| > 0
  {
    if at == cap.Off() && |data| == 4 then HandlerWrite(f, cap, at + 2, data[2..])
    else if at <= cap.Off() + 1 then f
    else HandlerWrite(f, cap, at, data)
  }

  /** What a guest write does; `bar` is the dword the BAR branch decides on. */
  ghost function Written(f: Func, caps: seq<Cap>, at: nat, data: seq<byte>, bar: seq<byte>): Func
    requires Packed(caps) && |bar| == 4
  {
    if !Aligned(at, |data|) || at >= CFG_SIZE then f
    else
      InWord(at, |data|);
      if BAR0 <= at < BAR_END then (if |data| == 4 then f.(cfg := Put(f.cfg, at, bar)) else f)
      else if CAP_START <= at < ListEnd(caps) then
        OwnerExists(caps, at, |caps|);
        CapWritten(f, caps[Owner(caps, at)], at, data)
      else if COMMAND <= at < REVID then f.(cfg := Put(f.cfg, at, CommandBytes(f.cfg, at, data)))
      else f.(cfg := Put(f.cfg, at, data))
  }

  /** Bytes no guest write reaches: the status register, and identifier and link of every entry. */
  ghost predicate Fixed(caps: seq<Cap>, k: nat) {
    STATUS <= k < REVID || exists i :: 0 <= i < |caps| && caps[i].Off() <= k <= caps[i].Off() + 1
  }

  lemma {:induction false} FixedInRegion(caps: seq<Cap>, k: nat)
    requires Packed(caps) && Fixed(caps, k) && !(STATUS <= k < REVID)
    ensures CAP_START <= k < ListEnd(caps) && Owner(caps, k) < |caps|
    ensures caps[Owner(caps, k)].Off() <= k <= caps[Owner(caps, k)].Off() + 1
  {
    var i :| 0 <= i < |caps| && caps[i].Off() <= k <= caps[i].Off() + 1;
    InRegion(caps, i);
    OwnerIsUnique(caps, i, k);
  }

  lemma {:induction false} HandlerRange(f: Func, cap: Cap, at: nat, data: seq<byte>, k: nat)
    requires cap.Off() + 2 <= at && at + |data| <= CFG_SIZE && |data| > 0
    requires k < CFG_SIZE && !(at <= k < at + |data|)
    ensures HandlerWrite(f, cap, at, data).cfg[k] == f.cfg[k]
  {
  }

  /** A capability's handler stores inside its own extent, past identifier and link. */
  lemma {:induction false} HandlerStaysInside(f: Func, cap: Cap, w: nat, at: nat, data: seq<byte>, k: nat)
    requires cap.Off() <= at < cap.End() <= CFG_SIZE && |data| > 0 && k < CFG_SIZE
    requires 4 * w <= at && at + |data| <= 4 * w + 4
    requires !cap.Holds(k) || k <= cap.Off() + 1
    ensures CapWritten(f, cap, at, data).cfg[k] == f.cfg[k]
  {
    if at == cap.Off() && |data| == 4 {
      HandlerRange(f, cap, at + 2, data[2..], k);
    } else if at > cap.Off() + 1 {
      HandlerRange(f, cap, at, data, k);
    }
  }

  /** Writes inside the capability region. */
  lemma {:induction false} RegionKeepsFixed(f: Func, caps: seq<Cap>, w: nat, at: nat, data: seq<byte>, k: nat)
    requires Packed(caps) && k < CFG_SIZE && Fixed(caps, k) && |data| > 0
    requires CAP_START <= at < ListEnd(caps) && 4 * w <= at && at + |data| <= 4 * w + 4
    ensures Owner(caps, at) < |caps| && CapWritten(f, caps[Owner(caps, at)], at, data).cfg[k] == f.cfg[k]
  {
    OwnerExists(caps, at, |caps|);
    var o := Owner(caps, at);
    InRegion(caps, o);
    if !(STATUS <= k < REVID) { FixedInRegion(caps, k); }
    if caps[o].Holds(k) { OwnerIsUnique(caps, o, k); }
    HandlerStaysInside(f, caps[o], w, at, data, k);
  }

  /** Writes elsewhere do not reach the dwords of the region, nor more than the command register. */
  lemma {:induction false} ElsewhereKeepsFixed(cfg: Config, caps: seq<Cap>, w: nat, at: nat, data: seq<byte>, k: nat)
    requires Packed(caps) && k < CFG_SIZE && Fixed(caps, k)
    requires !(CAP_START <= at < ListEnd(caps)) && 4 * w <= at && at + |data| <= 4 * w + 4 <= CFG_SIZE
    ensures !(COMMAND <= at < REVID) ==> Put(cfg, at, data)[k] == cfg[k]
    ensures COMMAND <= at < REVID ==> Put(cfg, at, CommandBytes(cfg, at, data))[k] == cfg[k]
  {
    if !(STATUS <= k < REVID) { FixedInRegion(caps, k); }
  }

  lemma {:induction false} FixedBytesStay(f: Func, caps: seq<Cap>, at: nat, data: seq<byte>, bar: seq<byte>, k: nat)
    requires Packed(caps) && |bar| == 4 && k < CFG_SIZE && Fixed(caps, k)
    ensures Written(f, caps, at, data, bar).cfg[k] == f.cfg[k]
  {
    if Aligned(at, |data|) && at < CFG_SIZE {
      InWord(at, |data|);
      if CAP_START <= at < ListEnd(caps) {
        RegionKeepsFixed(f, caps, at / 4, at, data, k);
      } else {
        ElsewhereKeepsFixed(f.cfg, caps, at / 4, at, data, k);
        if |data| == 4 { ElsewhereKeepsFixed(f.cfg, caps, at / 4, at, bar, k); }
      }
    }
  }

  lemma {:induction false} SameLinks(cfg: Config, cfg': Config, caps: seq<Cap>)
    requires Chain(cfg, caps)
    requires forall k :: 0 <= k < CFG_SIZE && Fixed(caps, k) ==> cfg'[k] == cfg[k]
    ensures Chain(cfg', caps)
  {
    assert Fixed(caps, STATUS);
    forall i | 0 <= i < |caps| ensures Linked(cfg', caps, i) {
      assert Linked(cfg, caps, i);
      assert Fixed(caps, caps[i].Off()) && Fixed(caps, caps[i].Off() + 1);
    }
  }

  /** One guest write leaves the list as it was built. */
  lemma {:induction false} WriteKeepsChain(f: Func, caps: seq<Cap>, at: nat, data: seq<byte>, bar: seq<byte>)
    requires Chain(f.cfg, caps) && |bar| == 4
    ensures Chain(Written(f, caps, at, data, bar).cfg, caps)
  {
    forall k | 0 <= k < CFG_SIZE && Fixed(caps, k) ensures Written(f, caps, at, data, bar).cfg[k] == f.cfg[k] {
      FixedBytesStay(f, caps, at, data, bar, k);
    }
    SameLinks(f.cfg, Written(f, caps, at, data, bar).cfg, caps);
  }

  datatype GuestWrite = GuestWrite(at: nat, data: seq<byte>, bar: seq<byte>)

  ghost function After(f: Func, caps: seq<Cap>, writes: seq<GuestWrite>): Func
    requires Packed(caps) && forall w :: w in writes ==> |w.bar| == 4
  {
    if writes == [] then f
    else
      var w := writes[|writes| - 1];
      Written(After(f, caps, writes[..|writes| - 1]), caps, w.at, w.data, w.bar)
  }

  /** No sequence of guest writes changes the list: not its order, extents, identifiers or links. */
  lemma {:induction false} NoGuestBreaksTheList(f: Func, caps: seq<Cap>, writes: seq<GuestWrite>)
    requires Chain(f.cfg, caps) && forall w :: w in writes ==> |w.bar| == 4
    ensures Chain(After(f, caps, writes).cfg, caps)
  {
    if writes != [] {
      var w := writes[|writes| - 1];
      NoGuestBreaksTheList(f, caps, writes[..|writes| - 1]);
      WriteKeepsChain(After(f, caps, writes[..|writes| - 1]), caps, w.at, w.data, w.bar);
    }
  }

  // ---- What stays outside the guarantee ----

  /** A write changes no byte outside the dword it addresses. */
  lemma {:induction false} WriteStaysInWord(f: Func, caps: seq<Cap>, at: nat, data: seq<byte>, bar: seq<byte>, w: nat,
                                        k: nat)
    requires Packed(caps) && |bar| == 4 && k < CFG_SIZE && Aligned(at, |data|)
    requires 4 * w <= at && at + |data| <= 4 * w + 4 && !(4 * w <= k < 4 * w + 4)
    ensures Written(f, caps, at, data, bar).cfg[k] == f.cfg[k]
  {
    if CAP_START <= at < ListEnd(caps) {
      OwnerExists(caps, at, |caps|);
      var cap := caps[Owner(caps, at)];
      InRegion(caps, Owner(caps, at));
      if at == cap.Off() && |data| == 4 {
        HandlerRange(f, cap, at + 2, data[2..], k);
      } else if at > cap.Off() + 1 {
        HandlerRange(f, cap, at, data, k);
      }
    }
  }

  /** The head of the list is writable: a guest write keeps it, whatever the data, exactly when it
      is not addressed at the pointer itself. */
  lemma {:induction false} ListHeadIsKeptExactly(f: Func, caps: seq<Cap>, at: nat, n: nat, bar: seq<byte>)
    requires Packed(caps) && |bar| == 4 && Aligned(at, n) && at < CFG_SIZE
    ensures (forall data: seq<byte> | |data| == n :: Written(f, caps, at, data, bar).cfg[CAP_PTR] == f.cfg[CAP_PTR])
      <==> at != CAP_PTR
  {
    InWord(at, n);
    if at != CAP_PTR {
      forall data: seq<byte> | |data| == n ensures Written(f, caps, at, data, bar).cfg[CAP_PTR] == f.cfg[CAP_PTR] {
        if at / 4 != CAP_PTR / 4 { WriteStaysInWord(f, caps, at, data, bar, at / 4, CAP_PTR); }
      }
    } else {
      HeadCanBeMoved(f, caps, n, bar);
    }
  }

  lemma {:induction false} HeadCanBeMoved(f: Func, caps: seq<Cap>, n: nat, bar: seq<byte>)
    requires Packed(caps) && |bar| == 4 && Aligned(CAP_PTR, n)
    ensures exists data: seq<byte> :: |data| == n && Written(f, caps, CAP_PTR, data, bar).cfg[CAP_PTR] != f.cfg[CAP_PTR]
  {
    var x: byte := if f.cfg[CAP_PTR] == 0 then 1 else 0;
    var data: seq<byte> := if n == 1 then [x] else if n == 2 then [x, 0] else [x, 0, 0, 0];
    assert Written(f, caps, CAP_PTR, data, bar).cfg[CAP_PTR] == x;
  }

  /** The read-only bits of an MSI control word. */
  predicate MsiReadOnlyKept(f: Func, f': Func, cap: Cap)
    requires cap.Off() + 3 < CFG_SIZE
  {
    SameMsiReadOnly(f'.cfg[cap.Off() + 2], f.cfg[cap.Off() + 2]) && f'.cfg[cap.Off() + 3] == f.cfg[cap.Off() + 3]
  }

  /** The aligned accesses of a dword. */
  predicate Shape(d: int, n: nat) {
    (n == 1 && 0 <= d < 4) || (n == 2 && (d == 0 || d == 2)) || (n == 4 && d == 0)
  }

  /** Where a write into the first dword of entry `i` goes. */
  lemma {:induction false} FirstDword(f: Func, caps: seq<Cap>, i: nat, at: nat, data: seq<byte>, bar: seq<byte>)
    requires Packed(caps) && |bar| == 4 && i < |caps| && Aligned(at, |data|)
    requires caps[i].Off() <= at < caps[i].Off() + 4
    ensures caps[i].Off() + 4 <= CFG_SIZE && Shape(at - caps[i].Off(), |data|)
    ensures Written(f, caps, at, data, bar) == CapWritten(f, caps[i], at, data)
  {
    InWord(at, |data|);
    InRegion(caps, i);
    OwnerIsUnique(caps, i, at);
  }

  /** They are kept, whatever the data, exactly when the write is not a single byte of the word. */
  lemma {:induction false} MsiReadOnlyIsKeptExactly(f: Func, caps: seq<Cap>, i: nat, at: nat, n: nat, bar: seq<byte>)
    requires Packed(caps) && |bar| == 4 && i < |caps| && caps[i].id == ID_MSI && Aligned(at, n) && at < CFG_SIZE
    ensures caps[i].Off() + 3 < CFG_SIZE
    ensures (forall data: seq<byte> | |data| == n :: MsiReadOnlyKept(f, Written(f, caps, at, data, bar), caps[i]))
      <==> !(n == 1 && caps[i].Off() + 2 <= at <= caps[i].Off() + 3)
  {
    InRegion(caps, i);
    var off := caps[i].Off();
    if n == 1 && off + 2 <= at <= off + 3 {
      MsiByteWrite(f, caps, i, at, bar);
    } else {
      forall data: seq<byte> | |data| == n ensures MsiReadOnlyKept(f, Written(f, caps, at, data, bar), caps[i]) {
        MsiWordWrite(f, caps, i, at, data, bar);
      }
    }
  }

  lemma {:induction false} SameMsiAlike(b: byte)
    ensures SameMsiReadOnly(b, b)
  {
  }

  lemma {:induction false} MsiWordWrite(f: Func, caps: seq<Cap>, i: nat, at: nat, data: seq<byte>, bar: seq<byte>)
    requires Packed(caps) && |bar| == 4 && i < |caps| && caps[i].id == ID_MSI && Aligned(at, |data|) && at < CFG_SIZE
    requires !(|data| == 1 && caps[i].Off() + 2 <= at <= caps[i].Off() + 3)
    ensures caps[i].Off() + 3 < CFG_SIZE && MsiReadOnlyKept(f, Written(f, caps, at, data, bar), caps[i])
  {
    hide Written, CapWritten, SameMsiReadOnly;
    InRegion(caps, i);
    hide Packed;
    SameMsiAlike(f.cfg[caps[i].Off() + 2]);
    var off := caps[i].Off();
    if off <= at < off + 4 {
      FirstDword(f, caps, i, at, data, bar);
      MsiDword(f, caps[i], at, data);
    } else {
      InWord(at, |data|);
      WriteStaysInWord(f, caps, at, data, bar, at / 4, off + 2);
      WriteStaysInWord(f, caps, at, data, bar, at / 4, off + 3);
    }
  }

  lemma {:induction false} MsiDword(f: Func, cap: Cap, at: nat, data: seq<byte>)
    requires cap.id == ID_MSI && cap.Off() + 4 <= CFG_SIZE && cap.Off() <= at && Shape(at - cap.Off(), |data|)
    requires !(|data| == 1 && at >= cap.Off() + 2)
    ensures MsiReadOnlyKept(f, CapWritten(f, cap, at, data), cap)
  {
    if |data| == 4 {
      MsiFields(f.cfg[cap.Off() + 2], data[2]);
    } else if at == cap.Off() + 2 {
      MsiFields(f.cfg[cap.Off() + 2], data[0]);
    }
  }

  lemma {:induction false} MsiByteLost(f: Func, cap: Cap, at: nat, x: byte)
    requires cap.id == ID_MSI && cap.Off() + 2 <= at <= cap.Off() + 3 < CFG_SIZE
    requires x == if f.cfg[at] >= 128 then 0 else 128
    ensures !MsiReadOnlyKept(f, CapWritten(f, cap, at, [x]), cap)
  {
  }

  lemma {:induction false} MsiByteWrite(f: Func, caps: seq<Cap>, i: nat, at: nat, bar: seq<byte>)
    requires Packed(caps) && |bar| == 4 && i < |caps| && caps[i].id == ID_MSI
    requires caps[i].Off() + 2 <= at <= caps[i].Off() + 3 < CFG_SIZE
    ensures exists data: seq<byte> :: |data| == 1 && !MsiReadOnlyKept(f, Written(f, caps, at, data, bar), caps[i])
  {
    hide Packed, Written, CapWritten;
    var x: byte := if f.cfg[at] >= 128 then 0 else 128;
    FirstDword(f, caps, i, at, [x], bar);
    MsiByteLost(f, caps[i], at, x);
    assert !MsiReadOnlyKept(f, Written(f, caps, at, [x], bar), caps[i]);
  }

  /** No other entry has this identifier. */
  ghost predicate OnlyOne(caps: seq<Cap>, i: nat)
    requires i < |caps|
  {
    forall j :: 0 <= j < |caps| && caps[j].id == caps[i].id ==> j == i
  }

  /** The device's own idea of the MSI enable bit is the bit the guest sees. */
  ghost predicate MsiMirror(f: Func, cap: Cap) {
    cap.Off() + 2 < CFG_SIZE && f.msi == (f.cfg[cap.Off() + 2] % 2 == 1)
  }

  lemma {:induction false} HandlerMsi(f: Func, cap: Cap, at: nat, data: seq<byte>)
    requires cap.Off() <= at && at + |data| <= CFG_SIZE && |data| > 0
    ensures var f' := CapWritten(f, cap, at, data);
      f' == f || if cap.id == ID_MSI then MsiMirror(f', cap) else f'.msi == f.msi
  {
  }

  /** A write either recomputes the mirror or leaves it alone. */
  lemma {:induction false} WrittenMsi(f: Func, caps: seq<Cap>, i: nat, at: nat, data: seq<byte>, bar: seq<byte>)
    requires Packed(caps) && |bar| == 4 && i < |caps| && caps[i].id == ID_MSI && OnlyOne(caps, i)
    ensures var f' := Written(f, caps, at, data, bar); f' == f || MsiMirror(f', caps[i]) || f'.msi == f.msi
    ensures !Aligned(at, |data|) || at >= CFG_SIZE || caps[i].Off() <= at < caps[i].Off() + 4 ==>
      Written(f, caps, at, data, bar) == f || MsiMirror(Written(f, caps, at, data, bar), caps[i])
  {
    InRegion(caps, i);
    if Aligned(at, |data|) && CAP_START <= at < ListEnd(caps) {
      InWord(at, |data|);
      OwnerExists(caps, at, |caps|);
      HandlerMsi(f, caps[Owner(caps, at)], at, data);
      if caps[i].Holds(at) { OwnerIsUnique(caps, i, at); }
    }
  }

  lemma {:induction false} WriteKeepsMsiMirror(f: Func, caps: seq<Cap>, i: nat, at: nat, data: seq<byte>,
                                        bar: seq<byte>)
    requires Packed(caps) && |bar| == 4 && i < |caps| && caps[i].id == ID_MSI && OnlyOne(caps, i)
    requires MsiMirror(f, caps[i])
    ensures MsiMirror(Written(f, caps, at, data, bar), caps[i])
  {
    hide Written;
    var off := caps[i].Off();
    WrittenMsi(f, caps, i, at, data, bar);
    if Aligned(at, |data|) && at < CFG_SIZE && !(off <= at < off + 4) {
      InWord(at, |data|);
      WriteStaysInWord(f, caps, at, data, bar, at / 4, off + 2);
      assert MsiMirror(Written(f, caps, at, data, bar), caps[i]);
    }
  }

  /** The same for MSI-X enable and function mask. */
  ghost predicate MsixMirror(f: Func, cap: Cap) {
    && cap.Off() + 3 < CFG_SIZE
    && f.msix == (f.cfg[cap.Off() + 3] / 128 == 1) && f.msixMasked == ((f.cfg[cap.Off() + 3] / 64) % 2 == 1)
  }

  /** MSI-X state follows the register, whatever the data, exactly when the write is not a single
      byte at the high half of the control word: that one reaches the register alone. */
  lemma {:induction false} MsixMirrorIsKeptExactly(f: Func, caps: seq<Cap>, i: nat, at: nat, n: nat, bar: seq<byte>)
    requires Packed(caps) && |bar| == 4 && i < |caps| && caps[i].id == ID_MSIX && OnlyOne(caps, i)
    requires MsixMirror(f, caps[i]) && Aligned(at, n) && at < CFG_SIZE
    ensures (forall data: seq<byte> | |data| == n :: MsixMirror(Written(f, caps, at, data, bar), caps[i]))
      <==> !(n == 1 && at == caps[i].Off() + 3)
  {
    if n == 1 && at == caps[i].Off() + 3 {
      var x: byte := if f.msix then 0 else 128;
      FirstDword(f, caps, i, at, [x], bar);
      assert !MsixMirror(Written(f, caps, at, [x], bar), caps[i]);
    } else {
      forall data: seq<byte> | |data| == n ensures MsixMirror(Written(f, caps, at, data, bar), caps[i]) {
        MsixWrite(f, caps, i, at, data, bar);
      }
    }
  }

  /** Outside the first dword of the entry the flags stay; inside it the two-byte write sets both. */
  lemma {:induction false} WrittenMsix(f: Func, caps: seq<Cap>, i: nat, at: nat, data: seq<byte>, bar: seq<byte>)
    requires Packed(caps) && |bar| == 4 && i < |caps| && caps[i].id == ID_MSIX && OnlyOne(caps, i)
    requires Aligned(at, |data|)
    requires !(caps[i].Off() <= at < caps[i].Off() + 4)
    ensures var f' := Written(f, caps, at, data, bar); f'.msix == f.msix && f'.msixMasked == f.msixMasked
  {
    hide Put, Splice;
    if CAP_START <= at < ListEnd(caps) {
      InWord(at, |data|);
      OwnerExists(caps, at, |caps|);
    }
  }

  lemma {:induction false} MsixDword(f: Func, cap: Cap, at: nat, data: seq<byte>)
    requires cap.id == ID_MSIX && cap.Off() + 4 <= CFG_SIZE && cap.Off() <= at && Shape(at - cap.Off(), |data|)
    requires MsixMirror(f, cap) && !(|data| == 1 && at == cap.Off() + 3)
    ensures MsixMirror(CapWritten(f, cap, at, data), cap)
  {
  }

  lemma {:induction false} MsixWrite(f: Func, caps: seq<Cap>, i: nat, at: nat, data: seq<byte>, bar: seq<byte>)
    requires Packed(caps) && |bar| == 4 && i < |caps| && caps[i].id == ID_MSIX && OnlyOne(caps, i)
    requires MsixMirror(f, caps[i]) && Aligned(at, |data|) && at < CFG_SIZE
    requires !(|data| == 1 && at == caps[i].Off() + 3)
    ensures MsixMirror(Written(f, caps, at, data, bar), caps[i])
  {
    hide Written;
    var off := caps[i].Off();
    if off <= at < off + 4 {
      FirstDword(f, caps, i, at, data, bar);
      MsixDword(f, caps[i], at, data);
    } else {
      InWord(at, |data|);
      WrittenMsix(f, caps, i, at, data, bar);
      WriteStaysInWord(f, caps, at, data, bar, at / 4, off + 3);
    }
  }

  // ---- The device function ----

  /** The bookkeeping kept beside the configuration bytes agrees with the list. */
  ghost predicate Inv(cfg: Config, caps: seq<Cap>, prevcap: int, capend: int) {
    && Chain(cfg, caps)
    && (caps != [] ==> prevcap == caps[|caps| - 1].Off() && capend == ListEnd(caps) - 1)
  }

  /** The list with an entry for `capdata` at its end. */
  ghost function Extended(caps: seq<Cap>, capdata: seq<byte>): seq<Cap>
    requires capdata != []
  {
    caps + [Cap(ListEnd(caps) / 4, (|capdata| + 3) / 4, capdata[0])]
  }

  /** The configuration bytes after an addition: the data with its link cleared, and the link to it
      from the entry before, or from the header for the first. */
  ghost predicate Installed(cfg: Config, caps: seq<Cap>, capdata: seq<byte>, cfg': Config) {
    var off := ListEnd(caps);
    && (forall k :: 0 <= k < |capdata| && k != 1 && off + k < CFG_SIZE ==> cfg'[off + k] == capdata[k])
    && (forall k :: 0 <= k < CFG_SIZE && !(off <= k < off + |capdata|) && k != off + 1 ==>
          cfg'[k] == if LinkTo(caps, k) then off else if caps == [] && k == STATUS then SetPresent(cfg[k]) else cfg[k])
    && (off + 1 < CFG_SIZE ==> cfg'[off + 1] == 0)
  }

  predicate LinkTo(caps: seq<Cap>, k: int) {
    if caps == [] then k == CAP_PTR else k == caps[|caps| - 1].Off() + 1
  }

  lemma {:induction false} EndIsAligned(caps: seq<Cap>)
    ensures ListEnd(caps) % 4 == 0 && 4 * (ListEnd(caps) / 4) == ListEnd(caps) && ListEnd(caps) >= 0
  {
  }

  lemma {:induction false} ExtendedIsPacked(caps: seq<Cap>, capdata: seq<byte>)
    requires Packed(caps) && capdata != [] && ListEnd(caps) + (|capdata| + 3) / 4 * 4 <= CFG_SIZE
    ensures Packed(Extended(caps, capdata)) && Extended(caps, capdata)[|caps|].Off() == ListEnd(caps)
  {
    var caps', n := Extended(caps, capdata), |caps|;
    EndIsAligned(caps);
    forall i | 0 <= i < n ensures Follows(caps', i) {
      assert Follows(caps, i);
    }
    assert Follows(caps', n);
  }

  lemma {:induction false} OldLinkStays(cfg: Config, caps: seq<Cap>, capdata: seq<byte>, cfg': Config, i: nat)
    requires Chain(cfg, caps) && capdata != [] && Installed(cfg, caps, capdata, cfg') && i < |caps|
    requires Packed(Extended(caps, capdata)) && Extended(caps, capdata)[|caps|].Off() == ListEnd(caps)
    ensures Linked(cfg', Extended(caps, capdata), i)
  {
    var off, end := caps[i].Off(), ListEnd(caps);
    assert Linked(cfg, caps, i) && Follows(caps, i);
    InRegion(caps, i);
    if i < |caps| - 1 { Ascending(caps, i, |caps| - 1); }
    assert off + 1 < end;
    assert !LinkTo(caps, off) && (LinkTo(caps, off + 1) <==> i == |caps| - 1);
    assert cfg'[off] == cfg[off];
  }

  /** An addition that fits extends the list by exactly its entry. */
  lemma {:induction false} AddExtends(cfg: Config, caps: seq<Cap>, capdata: seq<byte>, cfg': Config)
    requires Chain(cfg, caps) && capdata != [] && Installed(cfg, caps, capdata, cfg')
    requires ListEnd(caps) + (|capdata| + 3) / 4 * 4 <= CFG_SIZE
    ensures Chain(cfg', Extended(caps, capdata))
  {
    var off := ListEnd(caps);
    ExtendedIsPacked(caps, capdata);
    forall i | 0 <= i < |caps| ensures Linked(cfg', Extended(caps, capdata), i) {
      OldLinkStays(cfg, caps, capdata, cfg', i);
    }
    if caps != [] { InRegion(caps, |caps| - 1); }
    assert CAP_START <= off && off + 3 < CFG_SIZE;
    assert cfg'[off + 0] == capdata[0];
    assert Linked(cfg', Extended(caps, capdata), |caps|);
    assert caps != [] ==> cfg'[STATUS] == cfg[STATUS];
    assert caps == [] ==> cfg'[STATUS] == SetPresent(cfg[STATUS]);
  }

  class Device {
    const cfg: array<byte>
    var prevcap: int
    var capend: int
    var msi: bool
    var msix: bool
    var msixMasked: bool
    ghost var caps: seq<Cap>

    ghost predicate Valid()
      reads this, cfg
    {
      cfg.Length == CFG_SIZE && Inv(cfg[..], caps, prevcap, capend)
    }

    ghost function State(): Func
      requires cfg.Length == CFG_SIZE
      reads this, cfg
    {
      Func(cfg[..], msi, msix, msixMasked)
    }

    constructor ()
      ensures Valid() && caps == [] && fresh(cfg)
    {
      cfg := new byte[CFG_SIZE](_ => 0);
      prevcap, capend, msi, msix, msixMasked := 0, 0, false, false, false;
      caps := [];
    }

    /** pci_emul_capwrite with a search: follow the links to the entry that holds the offset. */
    method FindCapability(offset: nat) returns (capoff: nat)
      requires Valid() && CAP_START <= offset < ListEnd(caps)
      ensures Owner(caps, offset) < |caps| && capoff == caps[Owner(caps, offset)].Off()
    {
      capoff := CAP_START;
      ghost var i := 0;
      assert Follows(caps, 0);
      while true
        invariant i < |caps| && capoff == caps[i].Off() && capoff <= offset
        decreases |caps| - i
      {
        assert Linked(cfg[..], caps, i);
        InRegion(caps, i);
        var nextoff := cfg[capoff + 1];
        if i + 1 < |caps| { InRegion(caps, i + 1); assert Follows(caps, i + 1); }
        if nextoff == 0 || (offset >= capoff && offset < nextoff) {
          OwnerIsUnique(caps, i, offset);
          return;
        }
        capoff, i := nextoff, i + 1;
      }
    }

    /** pci_emul_add_capability. */
    method AddCapability(capdata: seq<byte>) returns (rc: int)
      requires Valid() && capdata != []
      modifies this`prevcap, this`capend, this`caps, cfg
      ensures Valid()
      ensures rc == if old(ListEnd(caps)) + (|capdata| + 3) / 4 * 4 <= CFG_SIZE then 0 else -1
      ensures rc == 0 ==> caps == old(Extended(caps, capdata)) && Installed(old(cfg[..]), old(caps), capdata, cfg[..])
      ensures rc != 0 ==> caps == old(caps) && cfg[..] == old(cfg[..])
    {
      hide Linked;
      ghost var was := cfg[..];
      var reallen := (|capdata| + 3) / 4 * 4;
      var present := (cfg[STATUS] / 16) % 2 == 1;
      var capoff := if present then capend + 1 else CAP_START;
      assert capoff == ListEnd(caps);
      if caps != [] { InRegion(caps, |caps| - 1); }
      if capoff + reallen > CFG_SIZE { return -1; }
      if !present {
        cfg[CAP_PTR] := capoff;
        cfg[STATUS] := SetPresent(cfg[STATUS]);
      } else {
        cfg[prevcap + 1] := capoff;
      }
      CopyIn(capoff, capdata);
      cfg[capoff + 1] := 0;
      prevcap := capoff;
      capend := capoff + reallen - 1;
      assert Installed(was, caps, capdata, cfg[..]);
      hide Installed;
      AddExtends(was, caps, capdata, cfg[..]);
      ExtendedIsPacked(caps, capdata);
      caps := Extended(caps, capdata);
      rc := 0;
    }

    method CopyIn(at: nat, data: seq<byte>)
      requires at + |data| <= cfg.Length
      modifies cfg
      ensures forall k :: 0 <= k < cfg.Length ==> cfg[k] == if at <= k < at + |data| then data[k - at] else old(cfg[k])
    {
      for i := 0 to |data|
        invariant forall k :: 0 <= k < cfg.Length ==> cfg[k] == if at <= k < at + i then data[k - at] else old(cfg[k])
      {
        cfg[at + i] := data[i];
      }
    }

    /** CFGWRITE: store one, two or four bytes. */
    method Store(at: nat, data: seq<byte>)
      requires cfg.Length == CFG_SIZE && at + |data| <= CFG_SIZE
      modifies cfg
      ensures cfg[..] == Put(old(cfg[..]), at, data)
    {
      CopyIn(at, data);
    }

    /** msicap_cfgwrite. */
    method MsiWrite(capoff: nat, at: nat, data: seq<byte>, ghost cap: Cap)
      requires cfg.Length == CFG_SIZE && cap.Off() == capoff && cap.id == ID_MSI
      requires capoff + 2 <= at && at + |data| <= CFG_SIZE && |data| > 0
      modifies this`msi, cfg
      ensures State() == HandlerWrite(old(State()), cap, at, data)
    {
      hide Put, Splice;
      var val := data;
      if at - capoff == 2 && |data| == 2 { val := [MsiControl(cfg[at], data[0]), cfg[at + 1]]; }
      Store(at, val);
      msi := cfg[capoff + 2] % 2 == 1;
    }

    /** msixcap_cfgwrite. */
    method MsixWrite(capoff: nat, at: nat, data: seq<byte>, ghost cap: Cap)
      requires cfg.Length == CFG_SIZE && cap.Off() == capoff && cap.id == ID_MSIX
      requires capoff + 2 <= at && at + |data| <= CFG_SIZE && |data| > 0
      modifies this`msix, this`msixMasked, cfg
      ensures State() == HandlerWrite(old(State()), cap, at, data)
    {
      hide Put, Splice;
      var val := data;
      if at - capoff == 2 && |data| == 2 {
        val := [cfg[at], MsixControl(cfg[at + 1], data[1])];
        msix := val[1] / 128 == 1;
        msixMasked := (val[1] / 64) % 2 == 1;
      }
      Store(at, val);
    }

    method HandleWrite(capoff: nat, capid: byte, at: nat, data: seq<byte>, ghost cap: Cap)
      requires cfg.Length == CFG_SIZE && cap.Off() == capoff && cap.id == capid
      requires capoff + 2 <= at && at + |data| <= CFG_SIZE && |data| > 0
      modifies this`msi, this`msix, this`msixMasked, cfg
      ensures State() == HandlerWrite(old(State()), cap, at, data)
    {
      if capid == ID_MSI {
        MsiWrite(capoff, at, data, cap);
      } else if capid == ID_MSIX {
        MsixWrite(capoff, at, data, cap);
      } else if capid == ID_EXPRESS {
        Store(at, data);
      }
    }

    /** pci_emul_capwrite. */
    method CapWrite(at: nat, data: seq<byte>)
      requires Valid() && CAP_START <= at < ListEnd(caps) && at + |data| <= CFG_SIZE && |data| > 0
      modifies this`msi, this`msix, this`msixMasked, cfg
      ensures Owner(caps, at) < |caps|
      ensures State() == CapWritten(old(State()), caps[Owner(caps, at)], at, data)
    {
      var capoff := FindCapability(at);
      ghost var o := Owner(caps, at);
      assert Linked(cfg[..], caps, o);
      var capid := cfg[capoff];
      if at == capoff || at == capoff + 1 {
        if at == capoff && |data| == 4 {
          HandleWrite(capoff, capid, at + 2, data[2..], caps[o]);
        }
      } else {
        HandleWrite(capoff, capid, at, data, caps[o]);
      }
    }

    /** The write half of pci_cfgrw with the default handlers. */
    method CfgWrite(at: nat, data: seq<byte>, bar: seq<byte>)
      requires Valid() && |bar| == 4
      modifies this`msi, this`msix, this`msixMasked, cfg
      ensures Valid()
      ensures State() == Written(old(State()), caps, at, data, bar)
    {
      hide HandlerWrite, CapWritten, CommandByte;
      WriteKeepsChain(State(), caps, at, data, bar);
      if !Aligned(at, |data|) || at >= CFG_SIZE { return; }
      InWord(at, |data|);
      if BAR0 <= at < BAR_END {
        if |data| == 4 { Store(at, bar); }
      } else if (cfg[STATUS] / 16) % 2 == 1 && CAP_START <= at <= capend {
        CapWrite(at, data);
      } else if COMMAND <= at < REVID {
        Store(at, CommandBytes(cfg[..], at, data));
      } else {
        Store(at, data);
      }
    }
  }
}
