/** Base address registers and the registries that decode them (pci_emul.c). */
module PciBar {
  import opened Seqs
  import Arith

  const BARS: nat := 6
  const PORTS: nat := 0x1_0000
  const WORD: nat := 0x1_0000_0000
  const WORD64: nat := 0x1_0000_0000_0000_0000
  const IO_LIMIT: nat := 0x1_0000
  const MEM32_LIMIT: nat := 0xE000_0000
  const MEM64_LIMIT: nat := 0xFD_0000_0000
  const SMALL_MEM64: nat := 32 * 1024 * 1024

  // ---- Powers of two ----

  predicate Pow2(n: nat) { n == 1 || (n > 1 && n % 2 == 0 && Pow2(n / 2)) }

  lemma {:induction false} Pow2Divides(a: nat, b: nat)
    requires Pow2(a) && Pow2(b) && a <= b
    ensures b % a == 0
  {
    if a > 1 {
      Pow2Divides(a / 2, b / 2);
      var q := (b / 2) / (a / 2);
      assert b / 2 == (a / 2) * q;
      assert b == a * q by { assert a == 2 * (a / 2) && b == 2 * (b / 2); }
      Arith.DivModUnique(b, a, q, 0);
    }
  }

  lemma {:induction false} Pow2Product(a: nat, b: nat)
    requires Pow2(a) && Pow2(b)
    ensures Pow2(a * b)
    decreases a
  {
    if a > 1 {
      Pow2Product(a / 2, b);
      Pow2Double((a / 2) * b);
      assert a * b == 2 * ((a / 2) * b) by { assert a == 2 * (a / 2); }
    } else {
      assert a * b == b;
    }
  }

  lemma {:induction false} Pow2Double(n: nat)
    requires Pow2(n)
    ensures Pow2(2 * n)
  {
  }

  lemma {:induction false} Pow2Words()
    ensures Pow2(16) && Pow2(PORTS) && Pow2(WORD) && Pow2(WORD64)
  {
    assert Pow2(1) && Pow2(2) && Pow2(4) && Pow2(8) && Pow2(16);
    Pow2Product(16, 16);
    Pow2Product(256, 256);
    Pow2Product(0x1_0000, 0x1_0000);
    Pow2Product(WORD, WORD);
  }

  /** Index of the highest bit set, counted from one. */
  function Flsl(n: nat): nat { if n == 0 then 0 else 1 + Flsl(n / 2) }

  function Shift(k: nat): nat { if k == 0 then 1 else 2 * Shift(k - 1) }

  /** Size rounded up to a power of two; zero passes the test of the source and stays. */
  function RoundPow2(size: nat): nat { if size == 0 || Pow2(size) then size else Shift(Flsl(size)) }

  lemma {:induction false} ShiftFlsl(n: nat)
    requires n > 0
    ensures Pow2(Shift(Flsl(n))) && n < Shift(Flsl(n)) <= 2 * n
  {
    if n == 1 {
      assert Flsl(1) == 1 && Shift(1) == 2 * Shift(0) && Pow2(1) && Pow2(2);
    } else {
      ShiftFlsl(n / 2);
      Pow2Double(Shift(Flsl(n / 2)));
    }
  }

  lemma {:induction false} HalfIsPow2(m: nat, n: nat)
    requires Pow2(m) && m == 2 * n && n > 0
    ensures Pow2(n)
  {
  }

  /** The rounded size is the smallest power of two that holds the request. */
  lemma {:induction false} RoundPow2IsTight(size: nat)
    requires size > 0
    ensures Pow2(RoundPow2(size)) && size <= RoundPow2(size) < 2 * size
  {
    if !Pow2(size) {
      ShiftFlsl(size);
      if Shift(Flsl(size)) == 2 * size {
        HalfIsPow2(Shift(Flsl(size)), size);
        assert false;
      }
    }
  }

  // ---- State ----

  datatype Kind = NoBar | Io | Mem32 | Mem64 | MemHi64

  datatype Bar = Bar(kind: Kind, size: nat, addr: nat) {
    predicate IsMem() { kind == Mem32 || kind == Mem64 }
  }

  /** Who registered a range: one of this function's registers, or another device. */
  datatype Owner = Mine(idx: nat) | Foreign(id: nat)

  datatype Claim = Claim(owner: Owner, base: nat, size: nat) {
    predicate Covers(a: int) { base <= a < base + size }
    predicate Overlaps(b: Claim) { base < b.base + b.size && b.base < base + size }
  }

  /** Registers, their shadow, the decode bits, and the two registries: a handler per I/O port and
      the registered memory ranges. */
  datatype Dev = Dev(bars: seq<Bar>, regs: seq<nat>, porten: bool, memen: bool,
                     ports: seq<Option<Owner>>, mem: seq<Claim>)

  predicate Shaped(d: Dev) { |d.bars| == BARS && |d.regs| == BARS && |d.ports| == PORTS }

  function SetAddr(d: Dev, i: nat, addr: nat): Dev
    requires i < |d.bars|
  {
    d.(bars := d.bars[i := d.bars[i].(addr := addr)])
  }

  // ---- Registries ----

  predicate AnyTaken(ports: seq<Option<Owner>>, base: nat, size: nat)
    requires base + size <= |ports|
  {
    exists p :: base <= p < base + size && ports[p].Some?
  }

  function SetPorts(ports: seq<Option<Owner>>, base: nat, size: nat, o: Option<Owner>): (r: seq<Option<Owner>>)
    requires base + size <= |ports|
    ensures |r| == |ports| && forall p :: 0 <= p < |r| ==> r[p] == if base <= p < base + size then o else ports[p]
  {
    seq(|ports|, p requires 0 <= p < |ports| => if base <= p < base + size then o else ports[p])
  }

  /** Index of a range that covers the address, or the length. */
  function Covering(mem: seq<Claim>, a: int): (k: nat)
    ensures k <= |mem| && (k < |mem| ==> mem[k].Covers(a))
    ensures k == |mem| ==> forall j :: 0 <= j < |mem| ==> !mem[j].Covers(a)
  {
    if mem == [] || mem[|mem| - 1].Covers(a) then |mem| - (if mem == [] then 0 else 1)
    else
      var k := Covering(mem[..|mem| - 1], a);
      if k < |mem| - 1 then k else |mem|
  }

  predicate AnyOverlap(mem: seq<Claim>, c: Claim) { exists k :: 0 <= k < |mem| && mem[k].Overlaps(c) }

  /** Claim a range for its owner; none when the assertion on the registry's answer fails. A memory
      range whose base is covered is dropped without an error. */
  function RegisterAs(d: Dev, o: Owner, b: Bar): Option<Dev>
    requires Shaped(d)
  {
    var c := Claim(o, b.addr, b.size);
    if b.kind == Io then
      if b.size == 0 || b.addr + b.size > PORTS || AnyTaken(d.ports, b.addr, b.size) then None
      else Some(d.(ports := SetPorts(d.ports, b.addr, b.size, Some(o))))
    else if b.IsMem() then
      if Covering(d.mem, b.addr) < |d.mem| then Some(d)
      else if AnyOverlap(d.mem, c) then None
      else Some(d.(mem := d.mem + [c]))
    else None
  }

  /** register_bar. */
  function Register(d: Dev, i: nat): Option<Dev>
    requires Shaped(d) && i < BARS
  {
    RegisterAs(d, Mine(i), d.bars[i])
  }

  /** unregister_bar; the registries insist on finding this device's own registration. */
  function Unregister(d: Dev, i: nat): Option<Dev>
    requires Shaped(d) && i < BARS
  {
    var b := d.bars[i];
    if b.kind == Io then
      if b.size == 0 || b.addr + b.size > PORTS || d.ports[b.addr].None? || d.ports[b.addr].value.Foreign? then None
      else Some(d.(ports := SetPorts(d.ports, b.addr, b.size, None)))
    else if b.IsMem() then
      var k := Covering(d.mem, b.addr);
      if k == |d.mem| || d.mem[k].owner.Foreign? || d.mem[k].base != b.addr || d.mem[k].size != b.size then None
      else Some(d.(mem := d.mem[..k] + d.mem[k + 1..]))
    else None
  }

  predicate Decoded(d: Dev, i: nat)
    requires i < |d.bars|
  {
    if d.bars[i].kind == Io then d.porten else d.memen
  }

  /** update_bar_address. */
  function Move(d: Dev, i: nat, addr: nat): Option<Dev>
    requires Shaped(d) && i < BARS
  {
    if !Decoded(d, i) then Some(SetAddr(d, i, addr))
    else
      var u := Unregister(d, i);
      if u.None? then None else Register(SetAddr(u.value, i, addr), i)
  }

  // ---- What must hold ----

  /** The port handlers that are register `i`'s are those of the range, no more and no less. */
  ghost predicate OwnsPorts(ports: seq<Option<Owner>>, i: nat, base: nat, size: nat) {
    forall p :: 0 <= p < |ports| ==> (ports[p] == Some(Mine(i)) <==> base <= p < base + size)
  }

  /** Likewise for the memory ranges; a size of zero says there is none. */
  ghost predicate OwnsClaim(mem: seq<Claim>, i: nat, base: nat, size: nat) {
    && (forall c :: c in mem && c.owner == Mine(i) ==> size > 0 && c == Claim(Mine(i), base, size))
    && (size > 0 ==> Claim(Mine(i), base, size) in mem)
  }

  /** Register `i` is decoded exactly at its range when `on`, and nowhere otherwise. */
  ghost predicate Live(d: Dev, i: nat, on: bool)
    requires i < |d.bars|
  {
    var b := d.bars[i];
    && OwnsPorts(d.ports, i, b.addr, if on && b.kind == Io then b.size else 0)
    && OwnsClaim(d.mem, i, b.addr, if on && b.IsMem() then b.size else 0)
  }

  ghost predicate Disjoint(mem: seq<Claim>) {
    && (forall k :: 0 <= k < |mem| ==> mem[k].size > 0)
    && forall j, k :: 0 <= j < k < |mem| ==> !mem[j].Overlaps(mem[k])
  }

  /** The address the guest reads in the registers is the address in use, and sizes are powers of two. */
  predicate RegsOk(bars: seq<Bar>, regs: seq<nat>, i: nat)
    requires |bars| == BARS && |regs| == BARS && i < BARS
  {
    var b := bars[i];
    match b.kind
    case NoBar => regs[i] == 0
    case Io => Pow2(b.size) && 4 <= b.size <= PORTS && b.addr % b.size == 0 && b.addr < PORTS && regs[i] == b.addr + 1
    case Mem32 => Pow2(b.size) && 16 <= b.size <= WORD && b.addr % b.size == 0 && b.addr < WORD && regs[i] == b.addr
    case Mem64 =>
      && Pow2(b.size) && 16 <= b.size <= WORD64 && b.addr % b.size == 0 && b.addr < WORD64
      && i + 1 < BARS && bars[i + 1].kind == MemHi64
      && (regs[i] == b.addr % WORD + 4 || regs[i] == b.addr % WORD + 12) && regs[i + 1] == b.addr / WORD
    case MemHi64 => i > 0 && bars[i - 1].kind == Mem64
  }

  ghost predicate Inv(d: Dev) {
    && Shaped(d) && Disjoint(d.mem)
    && forall i :: 0 <= i < BARS ==> RegsOk(d.bars, d.regs, i) && Live(d, i, Decoded(d, i))
  }

  /** The range at `addr` meets no registration but register `i`'s own. */
  ghost predicate FreeAt(d: Dev, i: nat, addr: nat)
    requires Shaped(d) && i < BARS
  {
    var b := d.bars[i];
    if b.kind == Io then
      && addr + b.size <= PORTS
      && forall p :: addr <= p < addr + b.size ==> d.ports[p].None? || d.ports[p] == Some(Mine(i))
    else
      forall c :: c in d.mem && c.owner != Mine(i) ==> !c.Overlaps(Claim(Mine(i), addr, b.size))
  }

  // ---- Registering and unregistering ----

  /** Only register `i`'s entries differ. */
  ghost predicate SameBut(d: Dev, r: Dev, i: nat)
    requires Shaped(d)
  {
    && Shaped(r) && r.regs == d.regs && r.porten == d.porten && r.memen == d.memen
    && (forall p :: 0 <= p < PORTS ==> PortSameBut(d.ports[p], r.ports[p], i))
    && (forall c: Claim :: c.owner != Mine(i) ==> (c in r.mem <==> c in d.mem))
  }

  predicate PortSameBut(a: Option<Owner>, b: Option<Owner>, i: nat) {
    a == b || (a in [None, Some(Mine(i))] && b in [None, Some(Mine(i))])
  }

  /** Changes to register `i`'s entries leave the others decoded as they were. */
  lemma {:induction false} OthersStayLive(d: Dev, r: Dev, i: nat, j: nat, on: bool)
    requires Shaped(d) && SameBut(d, r, i) && i < BARS && j < BARS && j != i && r.bars[j] == d.bars[j]
    requires Live(d, j, on)
    ensures Live(r, j, on)
  {
    forall p | 0 <= p < PORTS ensures r.ports[p] == Some(Mine(j)) <==> d.ports[p] == Some(Mine(j)) {
      assert PortSameBut(d.ports[p], r.ports[p], i);
    }
  }

  lemma {:induction false} DropMembers(mem: seq<Claim>, k: nat)
    requires Disjoint(mem) && k < |mem|
    ensures Disjoint(mem[..k] + mem[k + 1..])
    ensures forall c :: c in mem[..k] + mem[k + 1..] <==> c in mem && c != mem[k]
  {
    var r := mem[..k] + mem[k + 1..];
    assert forall j :: 0 <= j < |r| ==> r[j] == mem[if j < k then j else j + 1];
    forall c ensures c in r <==> c in mem && c != mem[k] { DropMember(mem, k, c); }
  }

  lemma {:induction false} DropMember(mem: seq<Claim>, k: nat, c: Claim)
    requires Disjoint(mem) && k < |mem|
    ensures c in mem[..k] + mem[k + 1..] <==> c in mem && c != mem[k]
  {
    var r := mem[..k] + mem[k + 1..];
    if c in r {
      var j :| 0 <= j < |r| && r[j] == c;
      OneOf(mem, k, if j < k then j else j + 1);
    }
    if c in mem && c != mem[k] {
      var j :| 0 <= j < |mem| && mem[j] == c;
      assert r[if j < k then j else j - 1] == c;
    }
  }

  lemma {:induction false} OneOf(mem: seq<Claim>, j: nat, k: nat)
    requires Disjoint(mem) && j < |mem| && k < |mem| && j != k
    ensures mem[j] != mem[k] && !mem[j].Overlaps(mem[k])
  {
    assert !mem[if j < k then j else k].Overlaps(mem[if j < k then k else j]);
  }

  /** The base of a registered range is covered by it and nothing else. */
  lemma {:induction false} CoveringIsOwn(mem: seq<Claim>, c: Claim)
    requires Disjoint(mem) && c in mem
    ensures Covering(mem, c.base) < |mem| && mem[Covering(mem, c.base)] == c
  {
    var j :| 0 <= j < |mem| && mem[j] == c;
    var k := Covering(mem, c.base);
    if j != k && k < |mem| { OneOf(mem, j, k); assert false; }
  }

  predicate Usable(b: Bar) {
    b.size > 0 && (b.kind == Io ==> b.addr + b.size <= PORTS) && (b.kind == Io || b.IsMem())
  }

  lemma {:induction false} UnregisterOwn(d: Dev, i: nat)
    requires Shaped(d) && i < BARS && Disjoint(d.mem) && Usable(d.bars[i]) && Live(d, i, true)
    ensures Unregister(d, i).Some?
    ensures var r := Unregister(d, i).value;
      SameBut(d, r, i) && r.bars == d.bars && Live(r, i, false) && Disjoint(r.mem)
  {
    hide SameBut, Disjoint;
    if d.bars[i].kind == Io { UnregisterPort(d, i); } else { UnregisterMem(d, i); }
  }

  lemma {:induction false} UnregisterPort(d: Dev, i: nat)
    requires Shaped(d) && i < BARS && Usable(d.bars[i]) && d.bars[i].kind == Io && Live(d, i, true)
    ensures Unregister(d, i).Some?
    ensures var r := Unregister(d, i).value; SameBut(d, r, i) && r.bars == d.bars && Live(r, i, false) && r.mem == d.mem
  {
    assert d.ports[d.bars[i].addr] == Some(Mine(i));
  }

  lemma {:induction false} UnregisterMem(d: Dev, i: nat)
    requires Shaped(d) && i < BARS && Disjoint(d.mem) && Usable(d.bars[i]) && d.bars[i].IsMem() && Live(d, i, true)
    ensures Unregister(d, i).Some?
    ensures var r := Unregister(d, i).value;
      SameBut(d, r, i) && r.bars == d.bars && Live(r, i, false) && Disjoint(r.mem)
  {
    var b := d.bars[i];
    var c := Claim(Mine(i), b.addr, b.size);
    CoveringIsOwn(d.mem, c);
    DropMembers(d.mem, Covering(d.mem, b.addr));
    forall x: Claim ensures x in Unregister(d, i).value.mem <==> x in d.mem && x != c {}
  }

  /** With nothing of its own registered, a register is decoded after registering exactly when its
      range is free. */
  lemma {:induction false} RegisterExactly(d: Dev, i: nat)
    requires Shaped(d) && i < BARS && Disjoint(d.mem) && Usable(d.bars[i]) && Live(d, i, false)
    ensures var r := Register(d, i);
      FreeAt(d, i, d.bars[i].addr) <==> r.Some? && Live(r.value, i, true)
    ensures var r := Register(d, i);
      r.Some? ==> SameBut(d, r.value, i) && r.value.bars == d.bars && Disjoint(r.value.mem)
  {
    var b := d.bars[i];
    if b.kind == Io {
      RegisterPort(d, i);
    } else {
      RegisterMem(d, i);
    }
  }

  lemma {:induction false} RegisterPort(d: Dev, i: nat)
    requires Shaped(d) && i < BARS && Disjoint(d.mem) && Usable(d.bars[i]) && Live(d, i, false) && d.bars[i].kind == Io
    ensures FreeAt(d, i, d.bars[i].addr) <==> Register(d, i).Some?
    ensures var r := Register(d, i);
      r.Some? ==> SameBut(d, r.value, i) && r.value.bars == d.bars && Disjoint(r.value.mem) && Live(r.value, i, true)
  {
    var b := d.bars[i];
    if FreeAt(d, i, b.addr) {
      assert !AnyTaken(d.ports, b.addr, b.size);
    }
  }

  lemma {:induction false} RegisterMem(d: Dev, i: nat)
    requires Shaped(d) && i < BARS && Disjoint(d.mem) && Usable(d.bars[i]) && Live(d, i, false) && d.bars[i].IsMem()
    ensures var r := Register(d, i);
      FreeAt(d, i, d.bars[i].addr) <==> r.Some? && Live(r.value, i, true)
    ensures var r := Register(d, i);
      r.Some? ==> SameBut(d, r.value, i) && r.value.bars == d.bars && Disjoint(r.value.mem)
  {
    var b := d.bars[i];
    var c := Claim(Mine(i), b.addr, b.size);
    var k := Covering(d.mem, b.addr);
    if k < |d.mem| {
      assert d.mem[k] in d.mem && d.mem[k].Overlaps(c);
    } else if AnyOverlap(d.mem, c) {
      var j :| 0 <= j < |d.mem| && d.mem[j].Overlaps(c);
      assert d.mem[j] in d.mem;
    } else {
      forall x ensures x in d.mem + [c] <==> x in d.mem || x == c {}
    }
  }

  /** Freeness does not depend on what the register itself has registered. */
  lemma {:induction false} FreeCarries(d: Dev, r: Dev, i: nat, addr: nat)
    requires Shaped(d) && SameBut(d, r, i) && i < BARS && r.bars[i].kind == d.bars[i].kind
    requires r.bars[i].size == d.bars[i].size
    requires FreeAt(d, i, addr)
    ensures FreeAt(r, i, addr)
  {
    if d.bars[i].kind == Io {
      forall p | addr <= p < addr + d.bars[i].size ensures r.ports[p].None? || r.ports[p] == Some(Mine(i)) {
        assert PortSameBut(d.ports[p], r.ports[p], i);
      }
    }
  }

  lemma {:induction false} SameButFlips(d: Dev, r: Dev, i: nat)
    requires Shaped(d) && SameBut(d, r, i)
    ensures SameBut(r, d, i)
  {
    forall p | 0 <= p < PORTS ensures PortSameBut(r.ports[p], d.ports[p], i) {
      assert PortSameBut(d.ports[p], r.ports[p], i);
    }
  }

  lemma {:induction false} SameButChains(a: Dev, b: Dev, c: Dev, i: nat)
    requires Shaped(a) && SameBut(a, b, i) && SameBut(b, c, i)
    ensures SameBut(a, c, i)
  {
    forall p | 0 <= p < PORTS ensures PortSameBut(a.ports[p], c.ports[p], i) {
      assert PortSameBut(a.ports[p], b.ports[p], i) && PortSameBut(b.ports[p], c.ports[p], i);
    }
  }

  lemma {:induction false} AddrAlone(d: Dev, i: nat, addr: nat)
    requires Shaped(d) && i < BARS
    ensures SameBut(d, SetAddr(d, i, addr), i)
    ensures Live(d, i, false) <==> Live(SetAddr(d, i, addr), i, false)
  {
  }

  /** Moving a register to an address: it ends up decoded there, when it is decoded at all, exactly
      when that range is free. */
  lemma {:induction false} MoveExactly(d: Dev, i: nat, addr: nat)
    requires Shaped(d) && i < BARS && Disjoint(d.mem) && Usable(d.bars[i]) && Usable(d.bars[i].(addr := addr))
    requires Live(d, i, Decoded(d, i))
    ensures var r := Move(d, i, addr);
      (Decoded(d, i) ==> FreeAt(d, i, addr)) <==> r.Some? && Live(r.value, i, Decoded(d, i))
    ensures var r := Move(d, i, addr);
      r.Some? ==> SameBut(d, r.value, i) && r.value.bars == SetAddr(d, i, addr).bars && Disjoint(r.value.mem)
  {
    hide Live, OwnsPorts, OwnsClaim, Register, Unregister, FreeAt, SameBut, Disjoint;
    AddrAlone(d, i, addr);
    if Decoded(d, i) {
      UnregisterOwn(d, i);
      var u := Unregister(d, i).value;
      var m := SetAddr(u, i, addr);
      ShapedAfter(d, u, i);
      AddrAlone(u, i, addr);
      RegisterExactly(m, i);
      SameButChains(d, u, m, i);
      if FreeAt(d, i, addr) { FreeCarries(d, m, i, addr); }
      SameButFlips(d, m, i);
      if FreeAt(m, i, addr) { FreeCarries(m, d, i, addr); }
      if Register(m, i).Some? { SameButChains(d, m, Register(m, i).value, i); }
    }
  }

  lemma {:induction false} ShapedAfter(d: Dev, r: Dev, i: nat)
    requires Shaped(d) && SameBut(d, r, i)
    ensures Shaped(r)
  {
  }

  // ---- Guest writes to the registers ----

  /** Masking with the negated size. */
  function RoundDown(v: nat, size: nat): (r: nat)
    requires size > 0
    ensures r <= v
  {
    v / size * size
  }

  lemma {:induction false} RoundDownAligned(v: nat, size: nat)
    requires size > 0
    ensures RoundDown(v, size) % size == 0 && v - size < RoundDown(v, size) <= v
  {
    assert v == size * (v / size) + v % size;
    Arith.DivModUnique(RoundDown(v, size), size, v / size, 0);
  }

  /** Multiples of `m` stay multiples after reduction by a multiple of `m`. */
  lemma {:induction false} ModKeepsAligned(a: nat, m: nat, n: nat)
    requires m > 0 && n > 0 && a % m == 0 && n % m == 0
    ensures (a % n) % m == 0 && (a % n) + m <= n
  {
    var q, k := n / m, a / m;
    assert n == m * q && a == m * k;
    assert q > 0;
    ModOfMultiples(m, k, q);
    Arith.DivModUnique(m * (k % q), m, k % q, 0);
  }

  lemma {:induction false} ModOfMultiples(m: nat, k: nat, q: nat)
    requires m > 0 && q > 0
    ensures m * q > 0 && (m * k) % (m * q) == m * (k % q) && m * (k % q) + m <= m * q
  {
    var d, r := k / q, k % q;
    assert k == q * d + r;
    MulAssoc(m, q, d);
    assert m * k == (m * q) * d + m * r by { assert m * (q * d + r) == m * (q * d) + m * r; }
    MulMono(m, r + 1, q);
    assert m * (r + 1) == m * r + m;
    Arith.DivModUnique(m * k, m * q, d, m * r);
  }

  lemma {:induction false} MulAssoc(a: nat, b: nat, c: nat)
    ensures a * (b * c) == (a * b) * c
  {
  }

  lemma {:induction false} MulMono(m: nat, a: nat, b: nat)
    requires a <= b
    ensures m * a <= m * b
  {
    assert m * b == m * a + m * (b - a);
  }

  /** A value below a multiple of the size, aligned to it, leaves room for the size. */
  lemma {:induction false} AlignedFits(a: nat, m: nat, n: nat)
    requires m > 0 && n > 0 && a % m == 0 && n % m == 0 && a < n
    ensures a + m <= n
  {
    ModKeepsAligned(a, m, n);
    Arith.DivModUnique(a, n, 0, a);
  }

  /** The two halves of a 64-bit address and the address they make. */
  function High(addr: nat): nat { addr / WORD }
  function Low(addr: nat): nat { addr % WORD }

  lemma {:induction false} Halves(hi: nat, lo: nat)
    requires lo < WORD
    ensures High(hi * WORD + lo) == hi && Low(hi * WORD + lo) == lo
    ensures hi < WORD ==> hi * WORD + lo < WORD64
  {
  }

  lemma {:induction false} HighBound(addr: nat)
    requires addr < WORD64
    ensures High(addr) < WORD && Low(addr) < WORD && addr == High(addr) * WORD + Low(addr)
  {
  }

  /** The address the low register of a 64-bit pair selects, given the current one. */
  function LowWritten(addr: nat, v: nat, size: nat): nat
    requires size > 0
  {
    High(addr) * WORD + RoundDown(v, size)
  }

  /** The address the high register selects. */
  function HighWritten(addr: nat, v: nat, size: nat): nat
    requires size > 0
  {
    RoundDown(v * WORD, size) + Low(addr)
  }

  lemma {:induction false} WordMultiple(hi: nat, size: nat)
    requires size > 0 && WORD % size == 0
    ensures (hi * WORD) % size == 0
  {
    var q := WORD / size;
    assert WORD == size * q;
    assert hi * WORD == size * (q * hi) by { assert hi * (size * q) == size * (q * hi) by { MulAssoc(size, q, hi); } }
    Arith.DivModUnique(hi * WORD, size, q * hi, 0);
  }

  lemma {:induction false} MultipleOfMultiple(a: nat, m: nat, w: nat)
    requires m > 0 && w > 0 && a % m == 0 && m % w == 0
    ensures a % w == 0
  {
    var q, k := m / w, a / m;
    assert m == w * q && a == m * k;
    MulAssoc(w, q, k);
    Arith.DivModUnique(a, w, q * k, 0);
  }

  /** A big size: an aligned address has no low half. */
  lemma {:induction false} BigIsHigh(addr: nat, size: nat)
    requires Pow2(size) && size > WORD && addr % size == 0
    ensures Low(addr) == 0 && High(addr) * WORD == addr && size % WORD == 0
  {
    hide Pow2;
    Pow2Words();
    Pow2Divides(WORD, size);
    MultipleOfMultiple(addr, size, WORD);
  }

  lemma {:induction false} LowWrittenOk(addr: nat, v: nat, size: nat)
    requires Pow2(size) && 16 <= size <= WORD64 && addr % size == 0 && addr < WORD64 && v < WORD
    ensures var a := LowWritten(addr, v, size);
      a % size == 0 && a < WORD64 && High(a) == High(addr) && Low(a) == RoundDown(v, size)
  {
    hide Pow2, RoundDown, High, Low;
    Pow2Words();
    RoundDownAligned(v, size);
    HighBound(addr);
    Halves(High(addr), RoundDown(v, size));
    if size <= WORD {
      Pow2Divides(size, WORD);
      WordMultiple(High(addr), size);
      Arith.MultipleSum(High(addr) * WORD, RoundDown(v, size), size);
    } else {
      BigIsHigh(addr, size);
      RoundDownSmall(v, size);
    }
  }

  lemma {:induction false} HighWrittenOk(addr: nat, v: nat, size: nat)
    requires Pow2(size) && 16 <= size <= WORD64 && addr % size == 0 && addr < WORD64 && v < WORD
    ensures var a := HighWritten(addr, v, size);
      a % size == 0 && a < WORD64 && Low(a) == Low(addr) && High(a) == RoundDown(v * WORD, size) / WORD
  {
    hide Pow2, RoundDown, Low;
    Pow2Words();
    HighBound(addr);
    if size <= WORD { HighSmall(addr, v, size); } else { HighBig(addr, v, size); }
  }

  lemma {:induction false} HighSmall(addr: nat, v: nat, size: nat)
    requires Pow2(size) && 16 <= size <= WORD && addr % size == 0 && v < WORD && Low(addr) < WORD
    ensures var a := HighWritten(addr, v, size);
      a % size == 0 && a < WORD64 && Low(a) == Low(addr) && High(a) == RoundDown(v * WORD, size) / WORD == v
  {
    hide Pow2, RoundDown;
    Pow2Words();
    Pow2Divides(size, WORD);
    WordMultiple(v, size);
    RoundDownOfAligned(v * WORD, size);
    ModKeepsAligned(addr, size, WORD);
    Arith.MultipleSum(v * WORD, Low(addr), size);
    Halves(v, Low(addr));
  }

  lemma {:induction false} HighBig(addr: nat, v: nat, size: nat)
    requires Pow2(size) && WORD < size <= WORD64 && addr % size == 0 && v < WORD
    ensures var a := HighWritten(addr, v, size);
      a % size == 0 && a < WORD64 && Low(a) == Low(addr) && High(a) == RoundDown(v * WORD, size) / WORD
  {
    hide Pow2, RoundDown;
    BigIsHigh(addr, size);
    RoundDownAligned(v * WORD, size);
    BigIsHigh(RoundDown(v * WORD, size), size);
    assert v * WORD < WORD64;
  }

  lemma {:induction false} RoundDownSmall(v: nat, size: nat)
    requires v < size
    ensures RoundDown(v, size) == 0
  {
    Arith.DivModUnique(v, size, 0, v);
  }

  lemma {:induction false} RoundDownOfAligned(v: nat, size: nat)
    requires size > 0 && v % size == 0
    ensures RoundDown(v, size) == v
  {
    assert v == size * (v / size) + v % size;
  }

  function SetReg(d: Dev, i: nat, v: nat): Dev
    requires i < |d.regs|
  {
    d.(regs := d.regs[i := v])
  }

  /** Move only when the address changes, then store the register. */
  function Relocate(d: Dev, j: nat, addr: nat, i: nat, reg: nat): Option<Dev>
    requires Shaped(d) && i < BARS && j < BARS
  {
    var m := if addr == d.bars[j].addr then Some(d) else Move(d, j, addr);
    if m.None? then None else Some(SetReg(m.value, i, reg))
  }

  /** Which register pair a write addresses, where it moves it, and what the register then reads. */
  function Target(d: Dev, i: nat): nat
    requires Shaped(d) && i < BARS
  {
    if d.bars[i].kind == MemHi64 && i > 0 then i - 1 else i
  }

  function NewAddr(d: Dev, i: nat, v: nat): nat
    requires Shaped(d) && i < BARS
  {
    var b := d.bars[Target(d, i)];
    if b.size == 0 then 0
    else
      match d.bars[i].kind
      case NoBar => 0
      case Io => RoundDown(v, b.size) % PORTS
      case Mem32 => RoundDown(v, b.size)
      case Mem64 => LowWritten(b.addr, v, b.size)
      case MemHi64 => HighWritten(b.addr, v, b.size)
  }

  function NewReg(d: Dev, i: nat, v: nat): nat
    requires Shaped(d) && i < BARS
  {
    var b := d.bars[Target(d, i)];
    if b.size == 0 then 0
    else
      match d.bars[i].kind
      case NoBar => 0
      case Io => RoundDown(v, b.size) % PORTS + 1
      case Mem32 => RoundDown(v, b.size)
      case Mem64 => RoundDown(v, b.size) + 12
      case MemHi64 => RoundDown(v * WORD, b.size) / WORD
  }

  /** A dword write to register `i`; none when an assertion fails on the way. */
  function BarWrite(d: Dev, i: nat, v: nat): Option<Dev>
    requires Shaped(d) && i < BARS
  {
    if d.bars[i].kind == NoBar then Some(SetReg(SetAddr(d, i, 0), i, 0))
    else Relocate(d, Target(d, i), NewAddr(d, i, v), i, NewReg(d, i, v))
  }

  lemma {:induction false} InvBar(d: Dev, i: nat)
    requires Inv(d) && i < BARS
    ensures Shaped(d) && Disjoint(d.mem) && RegsOk(d.bars, d.regs, i) && Live(d, i, Decoded(d, i))
  {
  }

  /** What the register arithmetic yields is again a good address for the pair. */
  lemma {:induction false} NewAddrOk(d: Dev, i: nat, v: nat)
    requires Inv(d) && i < BARS && d.bars[i].kind != NoBar && v < WORD
    ensures var j := Target(d, i);
      && Usable(d.bars[j]) && Usable(d.bars[j].(addr := NewAddr(d, i, v)))
      && RegsOk(SetAddr(d, j, NewAddr(d, i, v)).bars, d.regs[i := NewReg(d, i, v)], j)
  {
    hide Pow2, RoundDown, LowWritten, HighWritten, Live, OwnsPorts, OwnsClaim, Disjoint;
    InvBar(d, i);
    var j := Target(d, i);
    InvBar(d, j);
    var b := d.bars[j];
    Pow2Words();
    match d.bars[i].kind
    case Io =>
      Pow2Divides(b.size, PORTS);
      RoundDownAligned(v, b.size);
      ModKeepsAligned(RoundDown(v, b.size), b.size, PORTS);
      AlignedFits(b.addr, b.size, PORTS);
    case Mem32 => RoundDownAligned(v, b.size);
    case Mem64 => LowWrittenOk(b.addr, v, b.size);
    case MemHi64 => HighWrittenOk(b.addr, v, b.size);
  }

  /** Where it is registered now, a register is free. */
  lemma {:induction false} CurrentIsFree(d: Dev, j: nat)
    requires Inv(d) && j < BARS && Usable(d.bars[j]) && Decoded(d, j)
    ensures FreeAt(d, j, d.bars[j].addr)
  {
    InvBar(d, j);
    var b := d.bars[j];
    if b.kind != Io {
      var c := Claim(Mine(j), b.addr, b.size);
      var m :| 0 <= m < |d.mem| && d.mem[m] == c;
      forall x | x in d.mem && x.owner != Mine(j) ensures !x.Overlaps(c) {
        var k :| 0 <= k < |d.mem| && d.mem[k] == x;
        OneOf(d.mem, k, m);
      }
    }
  }

  /** The other registers read as before and still describe their ranges. */
  lemma {:induction false} OtherRegsOk(d: Dev, i: nat, addr: nat, reg: nat, k: nat)
    requires Inv(d) && i < BARS && k < BARS && k != Target(d, i)
    ensures RegsOk(SetAddr(d, Target(d, i), addr).bars, d.regs[i := reg], k)
  {
    hide Live, OwnsPorts, OwnsClaim, Disjoint, Pow2;
    InvBar(d, i);
    InvBar(d, k);
    if k + 1 < BARS { InvBar(d, k + 1); }
  }

  /** State of a relocation that went through. */
  lemma {:induction false} RelocateExactly(d: Dev, j: nat, addr: nat)
    requires Inv(d) && j < BARS && Usable(d.bars[j]) && Usable(d.bars[j].(addr := addr))
    ensures var r := if addr == d.bars[j].addr then Some(d) else Move(d, j, addr);
      && ((Decoded(d, j) ==> FreeAt(d, j, addr)) <==> r.Some? && Live(r.value, j, Decoded(d, j)))
      && (r.Some? ==> SameBut(d, r.value, j) && r.value.bars == SetAddr(d, j, addr).bars && Disjoint(r.value.mem))
  {
    InvBar(d, j);
    if addr == d.bars[j].addr {
      if Decoded(d, j) { CurrentIsFree(d, j); }
    } else {
      hide Live, FreeAt, SameBut, Disjoint, Move;
      MoveExactly(d, j, addr);
    }
  }

  /** The new range meets no other registration, when the register is being decoded. */
  ghost predicate WriteIsFree(d: Dev, i: nat, v: nat)
    requires Shaped(d) && i < BARS
  {
    d.bars[i].kind != NoBar && Decoded(d, Target(d, i)) ==> FreeAt(d, Target(d, i), NewAddr(d, i, v))
  }

  /** A register write keeps registers, shadow and registry in agreement exactly when the range it
      selects is free (or not decoded). */
  lemma {:induction false} BarWriteExactly(d: Dev, i: nat, v: nat)
    requires Inv(d) && i < BARS && v < WORD
    ensures WriteIsFree(d, i, v) <==> BarWrite(d, i, v).Some? && Inv(BarWrite(d, i, v).value)
  {
    hide Live, FreeAt, SameBut, Disjoint, Move, RegsOk, NewAddr, NewReg;
    InvBar(d, i);
    if d.bars[i].kind == NoBar {
      ClearedRegister(d, i);
    } else {
      var j, addr, reg := Target(d, i), NewAddr(d, i, v), NewReg(d, i, v);
      NewAddrOk(d, i, v);
      RelocateExactly(d, j, addr);
      var m := if addr == d.bars[j].addr then Some(d) else Move(d, j, addr);
      if m.Some? { RelocatedInv(d, i, addr, reg, m.value); }
    }
  }

  lemma {:induction false} RelocatedInv(d: Dev, i: nat, addr: nat, reg: nat, m: Dev)
    requires Inv(d) && i < BARS && SameBut(d, m, Target(d, i)) && Disjoint(m.mem)
    requires m.bars == SetAddr(d, Target(d, i), addr).bars
    requires RegsOk(SetAddr(d, Target(d, i), addr).bars, d.regs[i := reg], Target(d, i))
    ensures Shaped(m) && (Inv(SetReg(m, i, reg)) <==> Live(m, Target(d, i), Decoded(d, Target(d, i))))
  {
    hide FreeAt, Disjoint, RegsOk, OwnsPorts, OwnsClaim;
    var j, r := Target(d, i), SetReg(m, i, reg);
    forall k | 0 <= k < BARS && k != j ensures RegsOk(r.bars, r.regs, k) && Live(r, k, Decoded(r, k)) {
      OtherRegsOk(d, i, addr, reg, k);
      InvBar(d, k);
      OthersStayLive(d, m, j, k, Decoded(d, k));
    }
    if Inv(r) { InvBar(r, j); }
  }

  lemma {:induction false} ClearedRegister(d: Dev, i: nat)
    requires Inv(d) && i < BARS && d.bars[i].kind == NoBar
    ensures Inv(SetReg(SetAddr(d, i, 0), i, 0))
  {
    hide Disjoint, Pow2;
    var r := SetReg(SetAddr(d, i, 0), i, 0);
    forall k | 0 <= k < BARS ensures RegsOk(r.bars, r.regs, k) && Live(r, k, Decoded(r, k)) {
      InvBar(d, k);
      if k != i { OtherRegsOk(d, i, 0, 0, k); }
    }
  }

  // ---- What the guest reads back ----

  lemma {:induction false} RoundDownPlus(a: nat, e: nat, size: nat)
    requires size > 0 && a % size == 0 && e < size
    ensures RoundDown(a + e, size) == a
  {
    Arith.DivModUnique(a + e, size, a / size, e);
    assert a == size * (a / size);
  }

  lemma {:induction false} AllOnesMask(n: nat, size: nat)
    requires 0 < size <= n && n % size == 0
    ensures RoundDown(n - 1, size) == n - size
  {
    Arith.MultipleSum(n, size, size);
    RoundDownPlus(n - size, size - 1, size);
  }

  predicate Moved(d: Dev, r: Dev, j: nat, addr: nat)
    requires j < |d.bars|
  {
    Shaped(r) && r.regs == d.regs && r.bars == d.bars[j := d.bars[j].(addr := addr)]
  }

  lemma {:induction false} MoveKeeps(d: Dev, j: nat, addr: nat)
    requires Shaped(d) && j < BARS
    ensures Move(d, j, addr).Some? ==> Moved(d, Move(d, j, addr).value, j, addr)
  {
  }

  lemma {:induction false} WriteKeepsSizes(d: Dev, i: nat, v: nat)
    requires Shaped(d) && i < BARS && d.bars[i].kind != NoBar && BarWrite(d, i, v).Some?
    ensures var r := BarWrite(d, i, v).value; var j := Target(d, i);
      && Shaped(r) && r.regs == d.regs[i := NewReg(d, i, v)]
      && r.bars == d.bars[j := d.bars[j].(addr := NewAddr(d, i, v))]
  {
    hide Move, NewAddr, NewReg;
    MoveKeeps(d, Target(d, i), NewAddr(d, i, v));
    assert d.bars[Target(d, i) := d.bars[Target(d, i)].(addr := d.bars[Target(d, i)].addr)] == d.bars;
  }

  /** Writing all ones reads back the negated size, in the bits of the address space. */
  lemma {:induction false} SizingReadsBack(d: Dev, i: nat)
    requires Inv(d) && i < BARS && (d.bars[i].kind == Io || d.bars[i].kind == Mem32) && BarWrite(d, i, WORD - 1).Some?
    ensures var regs := BarWrite(d, i, WORD - 1).value.regs;
      |regs| == BARS && regs[i] == if d.bars[i].kind == Io then PORTS - d.bars[i].size + 1 else WORD - d.bars[i].size
  {
    hide Live, OwnsPorts, OwnsClaim, Disjoint, Pow2, RoundDown, BarWrite;
    InvBar(d, i);
    WriteKeepsSizes(d, i, WORD - 1);
    var size := d.bars[i].size;
    Pow2Words();
    Pow2Divides(size, WORD);
    AllOnesMask(WORD, size);
    if d.bars[i].kind == Io {
      Arith.DivModUnique(WORD - size, PORTS, PORTS - 1, PORTS - size);
    }
  }

  /** For a 64-bit pair the two halves together read back the negated size; the low bits are the type. */
  lemma {:induction false} Sizing64ReadsBack(d: Dev, i: nat, d1: Dev, d2: Dev)
    requires Inv(d) && i + 1 < BARS && d.bars[i].kind == Mem64
    requires BarWrite(d, i, WORD - 1) == Some(d1) && Inv(d1) && BarWrite(d1, i + 1, WORD - 1) == Some(d2)
    ensures |d2.regs| == BARS && d2.regs[i + 1] * WORD + d2.regs[i] == WORD64 - d.bars[i].size + 12
  {
    hide Live, OwnsPorts, OwnsClaim, Disjoint, Pow2, BarWrite;
    InvBar(d, i);
    WriteKeepsSizes(d, i, WORD - 1);
    WriteKeepsSizes(d1, i + 1, WORD - 1);
    BothHalves(d.bars[i].size);
  }

  lemma {:induction false} BothHalves(size: nat)
    requires Pow2(size) && 16 <= size <= WORD64
    ensures RoundDown((WORD - 1) * WORD, size) / WORD * WORD + RoundDown(WORD - 1, size) == WORD64 - size
  {
    hide Pow2, RoundDown;
    Pow2Words();
    if size <= WORD {
      Pow2Divides(size, WORD);
      AllOnesMask(WORD, size);
      WordMultiple(WORD - 1, size);
      RoundDownOfAligned((WORD - 1) * WORD, size);
    } else {
      Pow2Divides(size, WORD64);
      RoundDownSmall(WORD - 1, size);
      Arith.MultipleSum(WORD64, size, size);
      RoundDownPlus(WORD64 - size, size - WORD, size);
      BigIsHigh(WORD64 - size, size);
    }
  }

  /** Writing back what a register reads keeps the address. It also keeps the register, except that a
      64-bit register allocated below 4 GB then reads as prefetchable. */
  lemma {:induction false} WriteBackKeepsAddress(d: Dev, i: nat)
    requires Inv(d) && i < BARS && d.bars[i].kind != NoBar
    ensures NewAddr(d, i, d.regs[i]) == d.bars[Target(d, i)].addr
    ensures NewReg(d, i, d.regs[i]) == if d.bars[i].kind == Mem64 then Low(d.bars[i].addr) + 12 else d.regs[i]
  {
    hide Live, OwnsPorts, OwnsClaim, Disjoint, Pow2, RoundDown;
    InvBar(d, i);
    var j := Target(d, i);
    InvBar(d, j);
    var b := d.bars[j];
    match d.bars[i].kind
    case Io => RoundDownPlus(b.addr, 1, b.size);
    case Mem32 => RoundDownOfAligned(b.addr, b.size);
    case Mem64 => LowWriteBack(b.addr, b.size, d.regs[i] - Low(b.addr));
    case MemHi64 => HighWriteBack(b.addr, b.size);
  }

  lemma {:induction false} LowWriteBack(addr: nat, size: nat, e: nat)
    requires Pow2(size) && 16 <= size <= WORD64 && addr % size == 0 && addr < WORD64 && e < 16
    ensures RoundDown(Low(addr) + e, size) == Low(addr) && LowWritten(addr, Low(addr) + e, size) == addr
  {
    hide Pow2, RoundDown;
    Pow2Words();
    HighBound(addr);
    if size <= WORD {
      Pow2Divides(size, WORD);
      ModKeepsAligned(addr, size, WORD);
      RoundDownPlus(Low(addr), e, size);
    } else {
      BigIsHigh(addr, size);
      RoundDownSmall(e, size);
    }
  }

  lemma {:induction false} HighWriteBack(addr: nat, size: nat)
    requires Pow2(size) && 16 <= size <= WORD64 && addr % size == 0 && addr < WORD64
    ensures HighWritten(addr, High(addr), size) == addr && RoundDown(High(addr) * WORD, size) / WORD == High(addr)
  {
    hide Pow2, RoundDown;
    Pow2Words();
    HighBound(addr);
    if size <= WORD {
      Pow2Divides(size, WORD);
      WordMultiple(High(addr), size);
    } else {
      BigIsHigh(addr, size);
    }
    RoundDownOfAligned(High(addr) * WORD, size);
  }

  // ---- Decode bits ----

  /** One register's turn in pci_emul_cmd_changed; the bits in `d` are already the new ones. */
  function ToggleOne(d: Dev, i: nat, portChanged: bool, memChanged: bool): Option<Dev>
    requires Shaped(d) && i < BARS
  {
    if !Changed(d, i, portChanged, memChanged) then Some(d)
    else if Decoded(d, i) then Register(d, i)
    else Unregister(d, i)
  }

  predicate Changed(d: Dev, i: nat, portChanged: bool, memChanged: bool)
    requires i < |d.bars|
  {
    (d.bars[i].kind == Io && portChanged) || (d.bars[i].IsMem() && memChanged)
  }

  function Toggle(d: Dev, i: nat, portChanged: bool, memChanged: bool): (r: Option<Dev>)
    requires Shaped(d) && i <= BARS
    decreases BARS - i
  {
    if i == BARS then Some(d)
    else
      var t := ToggleOne(d, i, portChanged, memChanged);
      if t.None? then None else Toggle(t.value, i + 1, portChanged, memChanged)
  }

  /** A command write that sets the decode bits. */
  function Command(d: Dev, porten: bool, memen: bool): Option<Dev>
    requires Shaped(d)
  {
    Toggle(d.(porten := porten, memen := memen), 0, d.porten != porten, d.memen != memen)
  }

  /** Halfway through: registers before `i` follow the new decode bits, the rest still the old. */
  predicate WasDecoded(d: Dev, j: nat, portChanged: bool, memChanged: bool)
    requires j < |d.bars|
  {
    Decoded(d, j) != Changed(d, j, portChanged, memChanged)
  }

  ghost predicate Pending(d: Dev, i: nat, portChanged: bool, memChanged: bool) {
    && Shaped(d) && Disjoint(d.mem)
    && forall j :: 0 <= j < BARS ==>
         RegsOk(d.bars, d.regs, j) && (i <= j ==> Live(d, j, WasDecoded(d, j, portChanged, memChanged)))
  }

  ghost predicate AllLive(d: Dev)
  {
    Shaped(d) && forall j :: 0 <= j < BARS ==> Live(d, j, Decoded(d, j))
  }

  ghost predicate LiveBefore(d: Dev, i: nat)
    requires Shaped(d) && i <= BARS
  {
    forall j :: 0 <= j < i ==> Live(d, j, Decoded(d, j))
  }

  predicate Enabling(d: Dev, j: nat, portChanged: bool, memChanged: bool)
    requires j < |d.bars|
  {
    Changed(d, j, portChanged, memChanged) && Decoded(d, j)
  }

  /** Ranges in different spaces, or not sharing an address. */
  predicate Apart(a: Bar, b: Bar) {
    (a.kind == Io) != (b.kind == Io) || a.addr + a.size <= b.addr || b.addr + b.size <= a.addr
  }

  /** Every register from `i` on that is about to be decoded has a free range, apart from the others'. */
  ghost predicate ClearFrom(d: Dev, i: nat, portChanged: bool, memChanged: bool)
    requires Shaped(d)
  {
    && (forall j :: i <= j < BARS && Enabling(d, j, portChanged, memChanged) ==> FreeAt(d, j, d.bars[j].addr))
    && (forall j, k ::
          i <= j < k < BARS && Enabling(d, j, portChanged, memChanged) && Enabling(d, k, portChanged, memChanged) ==>
          Apart(d.bars[j], d.bars[k]))
  }

  lemma {:induction false} PendingAt(d: Dev, i: nat, pc: bool, mc: bool, j: nat)
    requires Pending(d, i, pc, mc) && j < BARS
    ensures Shaped(d) && RegsOk(d.bars, d.regs, j)
    ensures i <= j ==> Live(d, j, WasDecoded(d, j, pc, mc))
  {
  }

  /** The fate of a register's turn, and that it concerns this register only. */
  lemma {:induction false} ToggleOneExactly(d: Dev, i: nat, pc: bool, mc: bool)
    requires Pending(d, i, pc, mc) && i < BARS
    ensures var t := ToggleOne(d, i, pc, mc);
      && ((Enabling(d, i, pc, mc) ==> FreeAt(d, i, d.bars[i].addr)) <==> t.Some? && Live(t.value, i, Decoded(d, i)))
      && (t.Some? ==> SameBut(d, t.value, i) && t.value.bars == d.bars && Pending(t.value, i + 1, pc, mc))
  {
    UsableRegister(d, i, pc, mc);
    PendingAt(d, i, pc, mc, i);
    var t := ToggleOne(d, i, pc, mc);
    if Changed(d, i, pc, mc) {
      hide Live, FreeAt, SameBut, Disjoint, RegsOk, Register, Unregister;
      if Decoded(d, i) { RegisterExactly(d, i); } else { UnregisterOwn(d, i); }
    }
    if t.Some? { TurnKeepsPending(d, t.value, i, pc, mc); }
  }

  lemma {:induction false} UsableRegister(d: Dev, i: nat, pc: bool, mc: bool)
    requires Pending(d, i, pc, mc) && i < BARS
    ensures Changed(d, i, pc, mc) ==> Usable(d.bars[i])
  {
    hide Live, Disjoint, Pow2;
    PendingAt(d, i, pc, mc, i);
    if d.bars[i].kind == Io {
      Pow2Words();
      Pow2Divides(d.bars[i].size, PORTS);
      AlignedFits(d.bars[i].addr, d.bars[i].size, PORTS);
    }
  }

  lemma {:induction false} TurnKeepsPending(d: Dev, t: Dev, i: nat, pc: bool, mc: bool)
    requires Pending(d, i, pc, mc) && i < BARS && SameBut(d, t, i) && t.bars == d.bars && Disjoint(t.mem)
    ensures Pending(t, i + 1, pc, mc)
  {
    hide Live, Disjoint, RegsOk;
    forall j | i + 1 <= j < BARS ensures Live(t, j, WasDecoded(t, j, pc, mc)) {
      PendingAt(d, i, pc, mc, j);
      OthersStayLive(d, t, i, j, WasDecoded(d, j, pc, mc));
    }
    forall j | 0 <= j < BARS ensures RegsOk(t.bars, t.regs, j) { PendingAt(d, i, pc, mc, j); }
  }

  lemma {:induction false} PortsAndFree(d: Dev, i: nat, j: nat)
    requires Shaped(d) && i < BARS && j < BARS && i != j && Register(d, i).Some?
    requires d.bars[i].kind == Io && d.bars[j].kind == Io && Usable(d.bars[i]) && Usable(d.bars[j])
    ensures var t := Register(d, i).value;
      FreeAt(t, j, d.bars[j].addr) <==> FreeAt(d, j, d.bars[j].addr) && Apart(d.bars[i], d.bars[j])
  {
    var t, a, b := Register(d, i).value, d.bars[i], d.bars[j];
    if FreeAt(t, j, b.addr) {
      var p := if a.addr < b.addr then b.addr else a.addr;
      assert p < b.addr + b.size ==> t.ports[p].None? || t.ports[p] == Some(Mine(j));
      forall p | b.addr <= p < b.addr + b.size ensures d.ports[p].None? || d.ports[p] == Some(Mine(j)) {
        assert t.ports[p].None? || t.ports[p] == Some(Mine(j));
      }
    }
  }

  lemma {:induction false} ClaimsAndFree(d: Dev, i: nat, j: nat)
    requires Shaped(d) && i < BARS && j < BARS && i != j && Register(d, i).Some?
    requires d.bars[i].IsMem() && d.bars[j].IsMem() && Usable(d.bars[i]) && Usable(d.bars[j])
    requires Live(d, i, false) && Live(Register(d, i).value, i, true)
    ensures var t := Register(d, i).value;
      FreeAt(t, j, d.bars[j].addr) <==> FreeAt(d, j, d.bars[j].addr) && Apart(d.bars[i], d.bars[j])
  {
    var t, a, b := Register(d, i).value, d.bars[i], d.bars[j];
    var c := Claim(Mine(i), a.addr, a.size);
    assert c in t.mem && c !in d.mem;
    assert t.mem == d.mem + [c];
    forall x ensures x in t.mem <==> x in d.mem || x == c {}
    assert c.Overlaps(Claim(Mine(j), b.addr, b.size)) <==> !Apart(a, b);
  }

  lemma {:induction false} OtherSpaceAndFree(d: Dev, i: nat, j: nat, t: Dev)
    requires Shaped(d) && i < BARS && j < BARS && (d.bars[i].kind == Io) != (d.bars[j].kind == Io)
    requires Usable(d.bars[i]) && (Register(d, i) == Some(t) || Unregister(d, i) == Some(t))
    ensures Shaped(t) && t.bars == d.bars && (FreeAt(t, j, d.bars[j].addr) <==> FreeAt(d, j, d.bars[j].addr))
  {
  }

  /** A turn registers its own range and nothing else, so later ranges stay free if they are apart. */
  lemma {:induction false} TurnAndFree(d: Dev, t: Dev, i: nat, j: nat, pc: bool, mc: bool)
    requires Pending(d, i, pc, mc) && i < j < BARS && ToggleOne(d, i, pc, mc) == Some(t)
    requires SameBut(d, t, i) && t.bars == d.bars && Live(t, i, Decoded(d, i))
    requires Enabling(d, j, pc, mc)
    ensures FreeAt(t, j, d.bars[j].addr)
            <==> FreeAt(d, j, d.bars[j].addr) && (Enabling(d, i, pc, mc) ==> Apart(d.bars[i], d.bars[j]))
  {
    hide Live, FreeAt, SameBut, Disjoint, RegsOk, Register, Unregister;
    PendingAt(d, i, pc, mc, i);
    UsableRegister(d, i, pc, mc);
    UsableAt(d, i, pc, mc, j);
    if Changed(d, i, pc, mc) {
      if (d.bars[i].kind == Io) != (d.bars[j].kind == Io) {
        OtherSpaceAndFree(d, i, j, t);
      } else if d.bars[i].kind == Io {
        PortsAndFree(d, i, j);
      } else {
        ClaimsAndFree(d, i, j);
      }
    }
  }

  lemma {:induction false} UsableAt(d: Dev, i: nat, pc: bool, mc: bool, j: nat)
    requires Pending(d, i, pc, mc) && j < BARS && Changed(d, j, pc, mc)
    ensures Usable(d.bars[j])
  {
    hide Live, Disjoint, Pow2;
    PendingAt(d, i, pc, mc, j);
    if d.bars[j].kind == Io {
      Pow2Words();
      Pow2Divides(d.bars[j].size, PORTS);
      AlignedFits(d.bars[j].addr, d.bars[j].size, PORTS);
    }
  }

  /** A register whose turn is over stays as it is. */
  lemma {:induction false} LaterTurnsFrame(d: Dev, t: Dev, i: nat, j: nat, on: bool)
    requires Shaped(d) && SameBut(d, t, i) && t.bars == d.bars && i < BARS && j < BARS && j != i
    ensures Live(t, j, on) <==> Live(d, j, on)
  {
    hide Live, SameBut;
    ShapedAfter(d, t, i);
    SameButFlips(d, t, i);
    if Live(d, j, on) { OthersStayLive(d, t, i, j, on); }
    if Live(t, j, on) { OthersStayLive(t, d, i, j, on); }
  }

  lemma {:induction false} ToggleFrame(d: Dev, i: nat, pc: bool, mc: bool, j: nat, on: bool)
    requires Pending(d, i, pc, mc) && j < i <= BARS && Toggle(d, i, pc, mc).Some?
    ensures var r := Toggle(d, i, pc, mc).value; Shaped(r) && r.bars == d.bars && (Live(r, j, on) <==> Live(d, j, on))
    decreases BARS - i
  {
    hide Live, SameBut, ToggleOne, FreeAt, Pending;
    PendingShaped(d, i, pc, mc);
    if i < BARS {
      ToggleOneExactly(d, i, pc, mc);
      var t := ToggleOne(d, i, pc, mc).value;
      LaterTurnsFrame(d, t, i, j, on);
      ToggleFrame(t, i + 1, pc, mc, j, on);
    }
  }

  lemma {:induction false} PendingShaped(d: Dev, i: nat, pc: bool, mc: bool)
    requires Pending(d, i, pc, mc)
    ensures Shaped(d)
  {
  }

  /** Clearness from one turn to the next. */
  lemma {:induction false} ClearStep(d: Dev, t: Dev, i: nat, pc: bool, mc: bool)
    requires Pending(d, i, pc, mc) && i < BARS && ToggleOne(d, i, pc, mc) == Some(t)
    requires SameBut(d, t, i) && t.bars == d.bars && Live(t, i, Decoded(d, i))
    requires Enabling(d, i, pc, mc) ==> FreeAt(d, i, d.bars[i].addr)
    ensures Shaped(t) && (ClearFrom(d, i, pc, mc) <==> ClearFrom(t, i + 1, pc, mc))
  {
    hide Live, FreeAt, Disjoint, RegsOk, Pending, ToggleOne, Apart;
    PendingShaped(d, i, pc, mc);
    ShapedAfter(d, t, i);
    forall j | i < j < BARS && Enabling(d, j, pc, mc)
      ensures FreeAt(t, j, d.bars[j].addr)
            <==> FreeAt(d, j, d.bars[j].addr) && (Enabling(d, i, pc, mc) ==> Apart(d.bars[i], d.bars[j]))
    {
      TurnAndFree(d, t, i, j, pc, mc);
    }
  }

  /** What the loop never touches. */
  ghost predicate Kept(d: Dev, r: Dev) {
    Shaped(r) && r.bars == d.bars && r.regs == d.regs && r.porten == d.porten && r.memen == d.memen && Disjoint(r.mem)
  }

  lemma {:induction false} TurnKept(d: Dev, t: Dev, i: nat)
    requires Shaped(d) && SameBut(d, t, i) && t.bars == d.bars
    ensures Shaped(t) && t.bars == d.bars && t.regs == d.regs && t.porten == d.porten && t.memen == d.memen
  {
  }

  lemma {:induction false} PendingDone(d: Dev, pc: bool, mc: bool)
    requires Pending(d, BARS, pc, mc)
    ensures Kept(d, d)
  {
  }

  lemma {:induction false} ToggleKeeps(d: Dev, i: nat, pc: bool, mc: bool)
    requires Pending(d, i, pc, mc) && i <= BARS && Toggle(d, i, pc, mc).Some?
    ensures Kept(d, Toggle(d, i, pc, mc).value)
    decreases BARS - i
  {
    hide Live, FreeAt, Disjoint, RegsOk, Pending, SameBut;
    PendingShaped(d, i, pc, mc);
    if i == BARS {
      PendingDone(d, pc, mc);
    } else {
      ToggleOneExactly(d, i, pc, mc);
      var t := ToggleOne(d, i, pc, mc).value;
      TurnKept(d, t, i);
      ToggleKeeps(t, i + 1, pc, mc);
    }
  }

  lemma {:induction false} ClearAtEnds(d: Dev, i: nat, pc: bool, mc: bool)
    requires Pending(d, i, pc, mc)
    ensures i == BARS ==> ClearFrom(d, i, pc, mc)
    ensures i < BARS && Enabling(d, i, pc, mc) && !FreeAt(d, i, d.bars[i].addr) ==> !ClearFrom(d, i, pc, mc)
  {
  }

  /** A register its turn left wrong is wrong at the end. */
  lemma {:induction false} StuckStaysStuck(t: Dev, i: nat, pc: bool, mc: bool)
    requires Pending(t, i + 1, pc, mc) && i < BARS && Toggle(t, i + 1, pc, mc).Some? && !Live(t, i, Decoded(t, i))
    ensures !AllLive(Toggle(t, i + 1, pc, mc).value)
  {
    hide Live, Pending, Toggle, Disjoint;
    PendingShaped(t, i + 1, pc, mc);
    ToggleFrame(t, i + 1, pc, mc, i, Decoded(t, i));
    ToggleKeeps(t, i + 1, pc, mc);
    var r := Toggle(t, i + 1, pc, mc).value;
    assert Decoded(r, i) == Decoded(t, i) && !Live(r, i, Decoded(t, i));
  }

  /** The loop over the registers succeeds, with each decoded as the bits say, exactly when all the
      ranges it enables are clear. */
  lemma {:induction false} ToggleExactly(d: Dev, i: nat, pc: bool, mc: bool)
    requires Pending(d, i, pc, mc) && i <= BARS && LiveBefore(d, i)
    ensures ClearFrom(d, i, pc, mc) <==> Toggle(d, i, pc, mc).Some? && AllLive(Toggle(d, i, pc, mc).value)
    decreases BARS - i
  {
    hide Live, FreeAt, Disjoint, RegsOk, Pending, SameBut, ClearFrom, LiveBefore, ToggleOne;
    PendingShaped(d, i, pc, mc);
    ClearAtEnds(d, i, pc, mc);
    if i == BARS {
      AllBefore(d);
    } else {
      ToggleOneExactly(d, i, pc, mc);
      var t := ToggleOne(d, i, pc, mc);
      if t.Some? {
        TurnKept(d, t.value, i);
        if !Live(t.value, i, Decoded(d, i)) {
          if Toggle(d, i, pc, mc).Some? { StuckStaysStuck(t.value, i, pc, mc); }
        } else {
          ClearStep(d, t.value, i, pc, mc);
          LiveStep(d, t.value, i);
          ToggleExactly(t.value, i + 1, pc, mc);
        }
      }
    }
  }

  lemma {:induction false} AllBefore(d: Dev)
    requires Shaped(d) && LiveBefore(d, BARS)
    ensures AllLive(d)
  {
  }

  lemma {:induction false} LiveStep(d: Dev, t: Dev, i: nat)
    requires Shaped(d) && i < BARS && LiveBefore(d, i) && SameBut(d, t, i) && t.bars == d.bars
    requires Live(t, i, Decoded(d, i))
    ensures Shaped(t) && LiveBefore(t, i + 1)
  {
    hide Live;
    forall j | 0 <= j < i ensures Live(t, j, Decoded(t, j)) {
      LaterTurnsFrame(d, t, i, j, Decoded(d, j));
    }
  }

  /** A command write keeps registers and registries in agreement exactly when every range it
      starts to decode is free and they are apart from each other. */
  lemma {:induction false} CommandExactly(d: Dev, porten: bool, memen: bool)
    requires Inv(d)
    ensures var n := d.(porten := porten, memen := memen); var r := Command(d, porten, memen);
      ClearFrom(n, 0, d.porten != porten, d.memen != memen) <==> r.Some? && Inv(r.value)
  {
    var n, pc, mc := d.(porten := porten, memen := memen), d.porten != porten, d.memen != memen;
    StartPending(d, n, pc, mc);
    ToggleExactly(n, 0, pc, mc);
    if Command(d, porten, memen).Some? {
      ToggleKeeps(n, 0, pc, mc);
      KeptIsInv(d, n, Command(d, porten, memen).value);
    }
  }

  lemma {:induction false} StartPending(d: Dev, n: Dev, pc: bool, mc: bool)
    requires Inv(d) && n == d.(porten := n.porten, memen := n.memen) && pc == (d.porten != n.porten)
    requires mc == (d.memen != n.memen)
    ensures Pending(n, 0, pc, mc)
  {
    hide Disjoint, RegsOk;
    forall j | 0 <= j < BARS ensures RegsOk(n.bars, n.regs, j) && Live(n, j, WasDecoded(n, j, pc, mc)) {
      InvBar(d, j);
    }
  }

  lemma {:induction false} KeptIsInv(d: Dev, n: Dev, r: Dev)
    requires Inv(d) && n.bars == d.bars && n.regs == d.regs && Kept(n, r)
    ensures Inv(r) <==> AllLive(r)
  {
    hide Live, RegsOk, Disjoint;
    forall j | 0 <= j < BARS ensures RegsOk(r.bars, r.regs, j) { InvBar(d, j); }
    if Inv(r) {
      forall j | 0 <= j < BARS ensures Live(r, j, Decoded(r, j)) { InvBar(r, j); }
    }
  }

  // ---- Allocation ----

  /** The bump pointers of the three windows. */
  datatype Bases = Bases(io: nat, mem32: nat, mem64: nat)

  datatype AllocResult = Placed(dev: Dev, bases: Bases) | NoSpace | Failed

  function RoundUp(base: nat, size: nat): nat
    requires size > 0
  {
    (base + size - 1) / size * size
  }

  /** pci_emul_alloc_resource. */
  function Carve(base: nat, limit: nat, size: nat): Option<nat>
    requires size > 0
  {
    if RoundUp(base, size) + size <= limit then Some(RoundUp(base, size)) else None
  }

  lemma {:induction false} CarveFits(base: nat, limit: nat, size: nat)
    requires size > 0
    ensures RoundUp(base, size) % size == 0 && base <= RoundUp(base, size) < base + size
    ensures var r := Carve(base, limit, size); r.Some? ==> base <= r.value && r.value + size <= limit
  {
    RoundDownAligned(base + size - 1, size);
  }

  /** Addresses carved one after the other from a window. */
  function CarveAll(base: nat, limit: nat, sizes: seq<nat>): seq<nat>
    requires forall k :: 0 <= k < |sizes| ==> sizes[k] > 0
    decreases |sizes|
  {
    if sizes == [] || Carve(base, limit, sizes[0]).None? then []
    else
      var a := Carve(base, limit, sizes[0]).value;
      [a] + CarveAll(a + sizes[0], limit, sizes[1..])
  }

  /** Everything carved stays in the window, aligned to its size, and no two ranges share an address. */
  lemma {:induction false} CarvedApart(base: nat, limit: nat, sizes: seq<nat>, j: nat, k: nat)
    requires forall k :: 0 <= k < |sizes| ==> sizes[k] > 0
    requires j < k < |CarveAll(base, limit, sizes)|
    ensures var r := CarveAll(base, limit, sizes);
      |r| <= |sizes| && base <= r[j] && r[j] % sizes[j] == 0 && r[j] + sizes[j] <= r[k] && r[k] + sizes[k] <= limit
    decreases |sizes|
  {
    var a := Carve(base, limit, sizes[0]).value;
    CarveFits(base, limit, sizes[0]);
    if j == 0 {
      CarvedInWindow(a + sizes[0], limit, sizes[1..], k - 1);
    } else {
      CarvedApart(a + sizes[0], limit, sizes[1..], j - 1, k - 1);
    }
  }

  lemma {:induction false} CarvedInWindow(base: nat, limit: nat, sizes: seq<nat>, k: nat)
    requires forall k :: 0 <= k < |sizes| ==> sizes[k] > 0
    requires k < |CarveAll(base, limit, sizes)|
    ensures |CarveAll(base, limit, sizes)| <= |sizes|
    ensures base <= CarveAll(base, limit, sizes)[k] && CarveAll(base, limit, sizes)[k] + sizes[k] <= limit
    decreases |sizes|
  {
    var a := Carve(base, limit, sizes[0]).value;
    CarveFits(base, limit, sizes[0]);
    var rest := CarveAll(a + sizes[0], limit, sizes[1..]);
    if rest == [] {
      assert |CarveAll(base, limit, sizes)| == 1;
    } else {
      CarvedInWindow(a + sizes[0], limit, sizes[1..], if k == 0 then 0 else k - 1);
    }
  }

  /** The size a request gets: a power of two, and at least what the standard asks for. */
  function BarSize(kind: Kind, request: nat): nat {
    var least := if kind == Io then 4 else 16;
    var size := RoundPow2(request);
    if size < least then least else size
  }

  lemma {:induction false} BarSizeOk(kind: Kind, request: nat)
    ensures Pow2(BarSize(kind, request)) && BarSize(kind, request) >= request
    ensures BarSize(kind, request) >= if kind == Io then 4 else 16
  {
    if request > 0 { RoundPow2IsTight(request); }
    assert Pow2(1) && Pow2(2) && Pow2(4) && Pow2(8) && Pow2(16);
  }

  /** The registers of a placed range; a 64-bit one above 4 GB is prefetchable. */
  function Programmed(d: Dev, i: nat, kind: Kind, size: nat, addr: nat): Dev
    requires Shaped(d) && i < BARS && (kind == Mem64 ==> i + 1 < BARS)
  {
    var bars := d.bars[i := Bar(kind, size, addr)];
    if kind == Io then d.(bars := bars, regs := d.regs[i := addr + 1], porten := true)
    else if kind == Mem64 then
      var low := Low(addr) + if size > SMALL_MEM64 then 12 else 4;
      d.(bars := bars[i + 1 := bars[i + 1].(kind := MemHi64)],
         regs := d.regs[i := low][i + 1 := High(addr)], memen := true)
    else d.(bars := bars, regs := d.regs[i := addr], memen := true)
  }

  /** The window of a request: I/O, below 4 GB, or above; one size uses an address of the host's. */
  function BaseOf(bases: Bases, hostbase: nat, kind: Kind, size: nat): nat {
    if kind == Io then bases.io
    else if !(kind == Mem64 && size > SMALL_MEM64) then bases.mem32
    else if size == WORD then hostbase
    else bases.mem64
  }

  function LimitOf(kind: Kind, size: nat): nat {
    if kind == Io then IO_LIMIT else if kind == Mem64 && size > SMALL_MEM64 then MEM64_LIMIT else MEM32_LIMIT
  }

  function Bumped(bases: Bases, kind: Kind, size: nat, end: nat): Bases {
    if kind == Io then bases.(io := end)
    else if !(kind == Mem64 && size > SMALL_MEM64) then bases.(mem32 := end)
    else if size == WORD then bases
    else bases.(mem64 := end)
  }

  /** pci_emul_alloc_pbar. */
  function Allocate(d: Dev, bases: Bases, hostbase: nat, i: nat, kind: Kind, request: nat): AllocResult
    requires Shaped(d) && i < BARS
  {
    if kind == NoBar || kind == MemHi64 then Failed
    else
      var size := BarSize(kind, request);
      var addr := Carve(BaseOf(bases, hostbase, kind, size), LimitOf(kind, size), size);
      if addr.None? then NoSpace
      else if kind == Mem64 && i + 1 == BARS then Failed
      else
        var r := Register(Programmed(d, i, kind, size, addr.value), i);
        if r.None? then Failed else Placed(r.value, Bumped(bases, kind, size, addr.value + size))
  }

  predicate SameSpace(a: Kind, b: Bar) {
    if a == Io then b.kind == Io else b.IsMem()
  }

  /** Before the allocation, the space was decoded already or no register used it. */
  ghost predicate SpaceReady(d: Dev, kind: Kind)
    requires Shaped(d)
  {
    (if kind == Io then d.porten else d.memen) || forall j :: 0 <= j < BARS ==> !SameSpace(kind, d.bars[j])
  }

  /** The three kinds of allocation, at an address in its window. */
  ghost predicate Placeable(d: Dev, i: nat, kind: Kind, size: nat, addr: nat) {
    && Shaped(d) && i < BARS && d.bars[i].kind == NoBar
    && (kind == Io || kind == Mem32 || (kind == Mem64 && i + 1 < BARS && d.bars[i + 1].kind == NoBar))
    && Pow2(size) && size >= (if kind == Io then 4 else 16) && addr % size == 0
    && addr + size <= LimitOf(kind, size)
  }

  lemma {:induction false} ProgrammedOwn(d: Dev, i: nat, kind: Kind, size: nat, addr: nat)
    requires Placeable(d, i, kind, size, addr)
    ensures var n := Programmed(d, i, kind, size, addr);
      && RegsOk(n.bars, n.regs, i) && Usable(n.bars[i]) && Decoded(n, i)
      && (kind == Mem64 ==> RegsOk(n.bars, n.regs, i + 1))
  {
    hide Pow2;
  }

  lemma {:induction false} ProgrammedOther(d: Dev, i: nat, kind: Kind, size: nat, addr: nat, k: nat)
    requires Inv(d) && Placeable(d, i, kind, size, addr) && k < BARS && k != i && !(kind == Mem64 && k == i + 1)
    ensures var n := Programmed(d, i, kind, size, addr); RegsOk(n.bars, n.regs, k) && n.bars[k] == d.bars[k]
  {
    hide Live, OwnsPorts, OwnsClaim, Disjoint, Pow2;
    InvBar(d, k);
    if k + 1 < BARS { InvBar(d, k + 1); }
  }

  /** Nothing of the unused register is registered. */
  lemma {:induction false} UnusedIsOff(d: Dev, i: nat, kind: Kind, size: nat, addr: nat, k: nat)
    requires Inv(d) && Placeable(d, i, kind, size, addr) && k < BARS && (k == i || (kind == Mem64 && k == i + 1))
    ensures Live(Programmed(d, i, kind, size, addr), k, false)
  {
    InvBar(d, k);
  }

  /** An allocation leaves registers and registries in agreement exactly when its range was free and
      no register was waiting for the decode bit it sets. */
  lemma {:induction false} AllocateExactly(d: Dev, i: nat, kind: Kind, size: nat, addr: nat)
    requires Inv(d) && Placeable(d, i, kind, size, addr)
    ensures var n := Programmed(d, i, kind, size, addr); var r := Register(n, i);
      FreeAt(n, i, addr) && SpaceReady(d, kind) <==> r.Some? && Inv(r.value)
  {
    hide Live, FreeAt, SameBut, Disjoint, RegsOk, Pow2, Register;
    var n := Programmed(d, i, kind, size, addr);
    ProgrammedOwn(d, i, kind, size, addr);
    UnusedIsOff(d, i, kind, size, addr, i);
    RegisterExactly(n, i);
    if Register(n, i).Some? {
      var r := Register(n, i).value;
      TurnKept(n, r, i);
      forall k | 0 <= k < BARS ensures RegsOk(r.bars, r.regs, k) {
        if k != i && !(kind == Mem64 && k == i + 1) { ProgrammedOther(d, i, kind, size, addr, k); }
      }
      forall k | 0 <= k < BARS && k != i
        ensures Live(r, k, Decoded(r, k)) <==> !(SameSpace(kind, d.bars[k]) && !WasOn(d, kind))
      {
        OtherAfterAllocate(d, i, kind, size, addr, r, k);
      }
      AllocatedInv(d, i, kind, r);
    }
  }

  predicate WasOn(d: Dev, kind: Kind) { if kind == Io then d.porten else d.memen }

  lemma {:induction false} AllocatedInv(d: Dev, i: nat, kind: Kind, r: Dev)
    requires Shaped(d) && i < BARS && d.bars[i].kind == NoBar && Shaped(r) && Disjoint(r.mem) && kind != NoBar
    requires kind != MemHi64
    requires forall k :: 0 <= k < BARS ==> RegsOk(r.bars, r.regs, k)
    requires forall k :: 0 <= k < BARS && k != i ==>
      (Live(r, k, Decoded(r, k)) <==> !(SameSpace(kind, d.bars[k]) && !WasOn(d, kind)))
    ensures Inv(r) <==> Live(r, i, Decoded(r, i)) && SpaceReady(d, kind)
  {
    hide Live, Disjoint, RegsOk;
    if Inv(r) {
      forall k | 0 <= k < BARS ensures Live(r, k, Decoded(r, k)) { InvBar(r, k); }
    }
  }

  lemma {:induction false} OtherAfterAllocate(d: Dev, i: nat, kind: Kind, size: nat, addr: nat, r: Dev, k: nat)
    requires Inv(d) && Placeable(d, i, kind, size, addr) && k < BARS && k != i
    requires SameBut(Programmed(d, i, kind, size, addr), r, i) && r.bars == Programmed(d, i, kind, size, addr).bars
    ensures Shaped(r) && (Live(r, k, Decoded(r, k)) <==> !(SameSpace(kind, d.bars[k]) && !WasOn(d, kind)))
  {
    hide SameBut, Disjoint, RegsOk, Pow2, OwnsPorts, OwnsClaim;
    var n := Programmed(d, i, kind, size, addr);
    TurnKept(n, r, i);
    if kind == Mem64 && k == i + 1 {
      UnusedIsOff(d, i, kind, size, addr, k);
      LaterTurnsFrame(n, r, i, k, false);
    } else {
      ProgrammedOther(d, i, kind, size, addr, k);
      InvBar(d, k);
      LaterTurnsFrame(n, r, i, k, Decoded(n, k));
      if SameSpace(kind, d.bars[k]) { NotBoth(d, k); }
    }
  }

  /** A register in use is not both decoded and not. */
  lemma {:induction false} NotBoth(d: Dev, k: nat)
    requires Inv(d) && k < BARS && (d.bars[k].kind == Io || d.bars[k].IsMem())
    ensures !(Live(d, k, true) && Live(d, k, false))
  {
    hide Pow2, Disjoint;
    InvBar(d, k);
    var b := d.bars[k];
    assert b.kind == Io ==> b.size > 0 && (d.ports[b.addr] == Some(Mine(k)) || d.ports[b.addr] != Some(Mine(k)));
  }

  /** What a successful allocation places: a range of the rounded size in its window. */
  lemma {:induction false} AllocatePlaces(d: Dev, bases: Bases, hostbase: nat, i: nat, kind: Kind, request: nat)
    requires Inv(d) && i < BARS && d.bars[i].kind == NoBar
    requires kind == Mem64 && i + 1 < BARS ==> d.bars[i + 1].kind == NoBar
    requires Allocate(d, bases, hostbase, i, kind, request).Placed?
    ensures var r, size := Allocate(d, bases, hostbase, i, kind, request).dev, BarSize(kind, request);
      && Shaped(r) && Placeable(d, i, kind, size, r.bars[i].addr)
      && Register(Programmed(d, i, kind, size, r.bars[i].addr), i) == Some(r)
  {
    hide Pow2, RoundUp, Disjoint, Live, RegsOk;
    var size := BarSize(kind, request);
    BarSizeOk(kind, request);
    CarveFits(BaseOf(bases, hostbase, kind, size), LimitOf(kind, size), size);
    RegisterKeepsBars(Programmed(d, i, kind, size, Allocate(d, bases, hostbase, i, kind, request).dev.bars[i].addr), i);
  }

  lemma {:induction false} RegisterKeepsBars(d: Dev, i: nat)
    requires Shaped(d) && i < BARS
    ensures Register(d, i).Some? ==> Shaped(Register(d, i).value) && Register(d, i).value.bars == d.bars
  {
  }

  /** A function without base address registers, next to other devices' registrations. */
  ghost predicate Initial(d: Dev) {
    && Shaped(d) && Disjoint(d.mem) && (forall i :: 0 <= i < BARS ==> d.bars[i] == Bar(NoBar, 0, 0) && d.regs[i] == 0)
    && (forall p :: 0 <= p < PORTS ==> d.ports[p].None? || d.ports[p].value.Foreign?)
    && (forall c :: c in d.mem ==> c.owner.Foreign?)
  }

  lemma {:induction false} InitialInv(d: Dev)
    requires Initial(d)
    ensures Inv(d)
  {
  }
}
