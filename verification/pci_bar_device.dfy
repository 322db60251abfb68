/** The device function that holds the base address registers: pci_emul.c's routines step by step,
    each proved against its specification in PciBar. A result of false stands for a failed assertion. */
module PciBarDevice {
  import opened Seqs
  import opened PciBar

  class Device {
    const bar: array<Bar>
    const reg: array<nat>
    var porten: bool
    var memen: bool
    var ports: seq<Option<Owner>>
    var mem: seq<Claim>

    ghost predicate Valid()
      reads this
    {
      bar.Length == BARS && reg.Length == BARS && |ports| == PORTS
    }

    ghost function State(): Dev
      reads this, bar, reg
    {
      Dev(bar[..], reg[..], porten, memen, ports, mem)
    }

    constructor (ports: seq<Option<Owner>>, mem: seq<Claim>)
      requires |ports| == PORTS && Disjoint(mem)
      requires forall p :: 0 <= p < PORTS ==> ports[p].None? || ports[p].value.Foreign?
      requires forall c :: c in mem ==> c.owner.Foreign?
      ensures Valid() && Initial(State()) && Inv(State()) && fresh(bar) && fresh(reg)
    {
      bar := new Bar[BARS](_ => Bar(NoBar, 0, 0));
      reg := new nat[BARS](_ => 0);
      porten, memen := false, false;
      this.ports, this.mem := ports, mem;
      new;
      InitialInv(State());
    }

    /** modify_bar_registration. */
    method ModifyRegistration(i: nat, registration: bool) returns (ok: bool)
      requires Valid() && i < BARS
      modifies this`ports, this`mem
      ensures Valid()
      ensures var r := old(if registration then Register(State(), i) else Unregister(State(), i));
        ok == r.Some? && (ok ==> State() == r.value)
    {
      var b := bar[i];
      match b.kind {
        case Io =>
          if b.size == 0 || b.addr + b.size > PORTS { return false; }
          if registration {
            if AnyTaken(ports, b.addr, b.size) { return false; }
            ports := SetPorts(ports, b.addr, b.size, Some(Mine(i)));
          } else {
            if ports[b.addr].None? || ports[b.addr].value.Foreign? { return false; }
            ports := SetPorts(ports, b.addr, b.size, None);
          }
          ok := true;
        case Mem32 | Mem64 =>
          var k := Covering(mem, b.addr);
          if registration {
            if k == |mem| {
              if AnyOverlap(mem, Claim(Mine(i), b.addr, b.size)) { return false; }
              mem := mem + [Claim(Mine(i), b.addr, b.size)];
            }
          } else {
            if k == |mem| || mem[k].owner.Foreign? || mem[k].base != b.addr || mem[k].size != b.size { return false; }
            mem := mem[..k] + mem[k + 1..];
          }
          ok := true;
        case _ => ok := false;
      }
    }

    /** update_bar_address. */
    method UpdateAddress(i: nat, addr: nat) returns (ok: bool)
      requires Valid() && i < BARS
      modifies this`ports, this`mem, bar
      ensures Valid()
      ensures var r := old(Move(State(), i, addr)); ok == r.Some? && (ok ==> State() == r.value)
    {
      hide Register, Unregister;
      var decode := if bar[i].kind == Io then porten else memen;
      if decode {
        ok := ModifyRegistration(i, false);
        if !ok { return; }
      }
      bar[i] := bar[i].(addr := addr);
      ok := true;
      if decode { ok := ModifyRegistration(i, true); }
    }

    /** The switch of the register branch: which register pair moves where, and what is stored. */
    method Decide(i: nat, v: nat) returns (j: nat, addr: nat, moves: bool, value: nat)
      requires Valid() && i < BARS && Inv(State()) && v < WORD && bar[i].kind != NoBar
      ensures j == Target(State(), i) && addr == NewAddr(State(), i, v) && value == NewReg(State(), i, v)
      ensures j < BARS && (moves <==> addr != bar[j].addr)
    {
      hide Move, RoundDown, Live, Disjoint, Pow2;
      InvBar(State(), i);
      var b := bar[i];
      j := i;
      match b.kind {
        case Io =>
          addr := RoundDown(v, b.size) % PORTS;
          value := addr + 1;
          moves := addr != b.addr;
        case Mem32 =>
          addr := RoundDown(v, b.size);
          value := addr;
          moves := addr != b.addr;
        case Mem64 =>
          LowSame(b.addr, v, b.size);
          var half := RoundDown(v, b.size);
          value := half + 12;
          moves := half != Low(b.addr);
          addr := High(b.addr) * WORD + half;
        case MemHi64 =>
          j := i - 1;
          InvBar(State(), j);
          var low := bar[j];
          HighSame(low.addr, v, low.size);
          var half := RoundDown(v * WORD, low.size);
          value := half / WORD;
          moves := value != High(low.addr);
          addr := half + Low(low.addr);
      }
    }

    /** The register branch of pci_cfgrw. */
    method CfgWrite(i: nat, v: nat) returns (ok: bool)
      requires Valid() && i < BARS && Inv(State()) && v < WORD
      modifies this`ports, this`mem, bar, reg
      ensures Valid()
      ensures var r := old(BarWrite(State(), i, v)); ok == r.Some? && (ok ==> State() == r.value)
    {
      hide Move, NewAddr, NewReg, Inv;
      ok := true;
      if bar[i].kind == NoBar {
        bar[i] := bar[i].(addr := 0);
        reg[i] := 0;
      } else {
        var j, addr, moves, value := Decide(i, v);
        if moves { ok := UpdateAddress(j, addr); }
        if ok { reg[i] := value; }
      }
    }

    /** pci_emul_cmd_changed, after the command register took its new value. */
    method CommandChanged(portChanged: bool, memChanged: bool) returns (ok: bool)
      requires Valid()
      modifies this`ports, this`mem
      ensures Valid()
      ensures var r := old(Toggle(State(), 0, portChanged, memChanged)); ok == r.Some? && (ok ==> State() == r.value)
    {
      hide Register, Unregister;
      ok := true;
      for i := 0 to BARS
        invariant Valid()
        invariant Toggle(State(), i, portChanged, memChanged) == old(Toggle(State(), 0, portChanged, memChanged))
      {
        match bar[i].kind {
          case NoBar =>
          case MemHi64 =>
          case Io =>
            if portChanged {
              ok := ModifyRegistration(i, porten);
              if !ok { return; }
            }
          case Mem32 | Mem64 =>
            if memChanged {
              ok := ModifyRegistration(i, memen);
              if !ok { return; }
            }
        }
      }
      ok := true;
    }

    method WriteCommand(portBit: bool, memBit: bool) returns (ok: bool)
      requires Valid()
      modifies this`ports, this`mem, this`porten, this`memen
      ensures Valid()
      ensures var r := old(Command(State(), portBit, memBit)); ok == r.Some? && (ok ==> State() == r.value)
    {
      hide Toggle;
      var portChanged, memChanged := porten != portBit, memen != memBit;
      porten, memen := portBit, memBit;
      ok := CommandChanged(portChanged, memChanged);
    }
  }

  /** The bump pointers shared by all devices. */
  class Windows {
    var io: nat
    var mem32: nat
    var mem64: nat

    ghost function Model(): Bases
      reads this
    {
      Bases(io, mem32, mem64)
    }

    /** pci_emul_alloc_resource for the window of a request; the peer-to-peer size starts at `hostbase`. */
    method Carve(kind: Kind, size: nat, hostbase: nat) returns (addr: Option<nat>)
      requires size > 0
      modifies this
      ensures addr == old(PciBar.Carve(BaseOf(Model(), hostbase, kind, size), LimitOf(kind, size), size))
      ensures Model() == old(if addr.Some? then Bumped(Model(), kind, size, addr.value + size) else Model())
    {
      hide RoundUp;
      var big := kind == Mem64 && size > SMALL_MEM64;
      if kind == Io {
        addr := PciBar.Carve(io, IO_LIMIT, size);
        if addr.Some? { io := addr.value + size; }
      } else if !big {
        addr := PciBar.Carve(mem32, MEM32_LIMIT, size);
        if addr.Some? { mem32 := addr.value + size; }
      } else if size == WORD {
        addr := PciBar.Carve(hostbase, MEM64_LIMIT, size);
      } else {
        addr := PciBar.Carve(mem64, MEM64_LIMIT, size);
        if addr.Some? { mem64 := addr.value + size; }
      }
    }
  }

  /** pci_emul_alloc_pbar. */
  method AllocPbar(d: Device, w: Windows, hostbase: nat, i: nat, kind: Kind, request: nat) returns (status: int)
    requires d.Valid() && i < BARS
    modifies d`ports, d`mem, d`porten, d`memen, d.bar, d.reg, w
    ensures d.Valid()
    ensures match old(Allocate(d.State(), w.Model(), hostbase, i, kind, request))
      case Placed(r, bases) => status == 0 && d.State() == r && w.Model() == bases
      case NoSpace => status == -1 && d.State() == old(d.State()) && w.Model() == old(w.Model())
      case Failed => status == 1
  {
    hide Register, RoundUp, RoundPow2, Low, High;
    if kind == NoBar || kind == MemHi64 { return 1; }
    BarSizeOk(kind, request);
    var size := BarSize(kind, request);
    var addr := w.Carve(kind, size, hostbase);
    if addr.None? { return -1; }
    if kind == Mem64 && i + 1 == BARS { return 1; }
    var ok := Program(d, i, kind, size, addr.value);
    status := if ok then 0 else 1;
  }

  /** The registers and the decode bit of a placed range, then its registration. */
  method Program(d: Device, i: nat, kind: Kind, size: nat, addr: nat) returns (ok: bool)
    requires d.Valid() && i < BARS && kind != NoBar && kind != MemHi64 && (kind == Mem64 ==> i + 1 < BARS)
    modifies d`ports, d`mem, d`porten, d`memen, d.bar, d.reg
    ensures d.Valid()
    ensures var r := old(Register(Programmed(d.State(), i, kind, size, addr), i));
      ok == r.Some? && (ok ==> d.State() == r.value)
  {
    hide Register, Low, High;
    ghost var n := Programmed(d.State(), i, kind, size, addr);
    d.bar[i] := Bar(kind, size, addr);
    if kind == Io {
      d.reg[i] := addr + 1;
      d.porten := true;
    } else if kind == Mem64 {
      d.reg[i] := Low(addr) + if size > SMALL_MEM64 then 12 else 4;
      d.bar[i + 1] := d.bar[i + 1].(kind := MemHi64);
      d.reg[i + 1] := High(addr);
      d.memen := true;
    } else {
      d.reg[i] := addr;
      d.memen := true;
    }
    assert d.State() == n;
    ok := d.ModifyRegistration(i, true);
  }

  /** Comparing the halves is comparing the addresses. */
  lemma {:induction false} LowSame(addr: nat, v: nat, size: nat)
    requires Pow2(size) && 16 <= size <= WORD64 && addr % size == 0 && addr < WORD64 && v < WORD
    ensures LowWritten(addr, v, size) == addr <==> RoundDown(v, size) == Low(addr)
  {
    hide Pow2, RoundDown;
    HighBound(addr);
  }

  lemma {:induction false} HighSame(addr: nat, v: nat, size: nat)
    requires Pow2(size) && 16 <= size <= WORD64 && addr % size == 0 && addr < WORD64 && v < WORD
    ensures HighWritten(addr, v, size) == addr <==> RoundDown(v * WORD, size) / WORD == High(addr)
  {
    hide Pow2, RoundDown, HighWritten;
    HighBound(addr);
    HighWrittenOk(addr, v, size);
    HighBound(HighWritten(addr, v, size));
  }
}
