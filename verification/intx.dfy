/** Legacy PCI interrupts: the per-device line state (pci_emul.c) and the shared PIRQ pins (pci_irq.c). */
module Intx {
  import opened Seqs

  const NPIRQ := 8
  const NIRQ := 16
  const PIRQ_DIS := 0x80

  datatype Line = Idle | Asserted | Pending

  /** A routed device: its line, what masks INTx, its PIRQ pin (0 when it has none), its IOAPIC
      line, and how many configuration writes have changed a mask without having updated the line yet. */
  datatype Dev = Dev(line: Line, msi: bool, msix: bool, intxDis: bool, pin: nat, ioapic: nat, updating: nat)

  datatype Pirq = Pirq(reg: nat, active: int)

  /** Devices, pins, and the outstanding asserts the kernel has seen on each ISA and IOAPIC line. */
  datatype Sys = Sys(devs: seq<Dev>, pirqs: seq<Pirq>, isa: seq<int>, ioapic: seq<int>)

  /** pci_lintr_permitted. */
  predicate Permitted(d: Dev) { !(d.msi || d.msix || d.intxDis) }

  /** Only IRQs 3-7, 9-12 and 14-15 may be routed. */
  predicate IrqPermitted(irq: nat) {
    3 <= irq <= 7 || 9 <= irq <= 12 || 14 <= irq <= 15
  }

  function PirqIrq(reg: nat): (r: nat)
    ensures r < NIRQ
  {
    reg % 16
  }

  /** pirq_valid_irq. */
  predicate ValidIrq(reg: nat) {
    (reg / PIRQ_DIS) % 2 == 0 && IrqPermitted(PirqIrq(reg))
  }

  /** The disable bit and the IRQ number; the other bits of the register do not exist. */
  function RegBits(val: nat): nat {
    PIRQ_DIS * ((val / PIRQ_DIS) % 2) + val % 16
  }

  predicate WellFormed(s: Sys) {
    && |s.pirqs| == NPIRQ && |s.isa| == NIRQ
    && forall d :: 0 <= d < |s.devs| ==> s.devs[d].pin <= NPIRQ && s.devs[d].ioapic < |s.ioapic|
  }

  // ---- The operations ----

  function Bump(xs: seq<int>, i: nat, delta: int): (r: seq<int>)
    requires i < |xs|
    ensures |r| == |xs|
  {
    xs[i := xs[i] + delta]
  }

  /** pci_irq_assert: the first device on a valid pin raises the ISA line as well. */
  function IrqAssert(s: Sys, d: nat): (r: Sys)
    requires WellFormed(s) && d < |s.devs|
    ensures WellFormed(r) && r.devs == s.devs
  {
    var dev := s.devs[d];
    var up := s.(ioapic := Bump(s.ioapic, dev.ioapic, 1));
    if dev.pin == 0 then up
    else
      var p := s.pirqs[dev.pin - 1];
      var up := up.(pirqs := s.pirqs[dev.pin - 1 := p.(active := p.active + 1)]);
      if p.active + 1 == 1 && ValidIrq(p.reg) then up.(isa := Bump(s.isa, PirqIrq(p.reg), 1)) else up
  }

  /** pci_irq_deassert: the last device on a valid pin lowers the ISA line as well. */
  function IrqDeassert(s: Sys, d: nat): (r: Sys)
    requires WellFormed(s) && d < |s.devs|
    ensures WellFormed(r) && r.devs == s.devs
  {
    var dev := s.devs[d];
    var down := s.(ioapic := Bump(s.ioapic, dev.ioapic, -1));
    if dev.pin == 0 then down
    else
      var p := s.pirqs[dev.pin - 1];
      var down := down.(pirqs := s.pirqs[dev.pin - 1 := p.(active := p.active - 1)]);
      if p.active - 1 == 0 && ValidIrq(p.reg) then down.(isa := Bump(s.isa, PirqIrq(p.reg), -1)) else down
  }

  function SetLine(s: Sys, d: nat, line: Line): (r: Sys)
    requires WellFormed(s) && d < |s.devs|
    ensures WellFormed(r)
  {
    s.(devs := s.devs[d := s.devs[d].(line := line)])
  }

  function LintrAssert(s: Sys, d: nat): (r: Sys)
    requires WellFormed(s) && d < |s.devs|
    ensures WellFormed(r)
  {
    if s.devs[d].line != Idle then s
    else if Permitted(s.devs[d]) then IrqAssert(SetLine(s, d, Asserted), d)
    else SetLine(s, d, Pending)
  }

  function LintrDeassert(s: Sys, d: nat): (r: Sys)
    requires WellFormed(s) && d < |s.devs|
    ensures WellFormed(r)
  {
    match s.devs[d].line
    case Asserted => IrqDeassert(SetLine(s, d, Idle), d)
    case Pending => SetLine(s, d, Idle)
    case Idle => s
  }

  function LintrUpdate(s: Sys, d: nat): (r: Sys)
    requires WellFormed(s) && d < |s.devs|
    ensures WellFormed(r)
  {
    if s.devs[d].line == Asserted && !Permitted(s.devs[d]) then SetLine(IrqDeassert(s, d), d, Pending)
    else if s.devs[d].line == Pending && Permitted(s.devs[d]) then IrqAssert(SetLine(s, d, Asserted), d)
    else s
  }

  /** pirq_write: rerouting an active pin moves its ISA assert to the new IRQ. */
  function PirqWrite(s: Sys, pin: nat, val: nat): (r: Sys)
    requires WellFormed(s) && 0 < pin <= NPIRQ
    ensures WellFormed(r)
  {
    var p := s.pirqs[pin - 1];
    var reg := RegBits(val);
    if p.reg == reg then s
    else
      var isa := if p.active != 0 && ValidIrq(p.reg) then Bump(s.isa, PirqIrq(p.reg), -1) else s.isa;
      var isa := if p.active != 0 && ValidIrq(reg) then Bump(isa, PirqIrq(reg), 1) else isa;
      s.(pirqs := s.pirqs[pin - 1 := p.(reg := reg)], isa := isa)
  }

  /** A configuration write first changes what masks INTx (MSI or MSI-X enable, or the command
      register), and only later updates the line. */
  function BeginConfig(s: Sys, d: nat, msi: bool, msix: bool, dis: bool): (r: Sys)
    requires WellFormed(s) && d < |s.devs|
    ensures WellFormed(r)
  {
    var dev := s.devs[d];
    s.(devs := s.devs[d := dev.(msi := msi, msix := msix, intxDis := dis, updating := dev.updating + 1)])
  }

  function EndConfig(s: Sys, d: nat): (r: Sys)
    requires WellFormed(s) && d < |s.devs| && s.devs[d].updating > 0
    ensures WellFormed(r)
  {
    var u := LintrUpdate(s, d);
    u.(devs := u.devs[d := u.devs[d].(updating := u.devs[d].updating - 1)])
  }

  // ---- What is conserved ----

  function PinFlags(devs: seq<Dev>, pin: nat): (r: seq<int>)
    ensures |r| == |devs|
  {
    seq(|devs|, d requires 0 <= d < |devs| => Indicator(devs[d].line == Asserted && devs[d].pin == pin))
  }

  function LineFlags(devs: seq<Dev>, line: nat): (r: seq<int>)
    ensures |r| == |devs|
  {
    seq(|devs|, d requires 0 <= d < |devs| => Indicator(devs[d].line == Asserted && devs[d].ioapic == line))
  }

  predicate Drives(p: Pirq, irq: nat) {
    p.active != 0 && ValidIrq(p.reg) && PirqIrq(p.reg) == irq
  }

  function IrqFlags(pirqs: seq<Pirq>, irq: nat): (r: seq<int>)
    ensures |r| == |pirqs|
  {
    seq(|pirqs|, p requires 0 <= p < |pirqs| => Indicator(Drives(pirqs[p], irq)))
  }

  ghost predicate LineAgrees(d: Dev) {
    && (d.line == Asserted ==> Permitted(d))
    && (d.line == Pending ==> !Permitted(d))
  }

  ghost predicate Conserved(s: Sys)
    requires WellFormed(s)
  {
    && (forall p :: 0 <= p < NPIRQ ==> s.pirqs[p].active == Sum(PinFlags(s.devs, p + 1)))
    && (forall n :: 0 <= n < NIRQ ==> s.isa[n] == Sum(IrqFlags(s.pirqs, n)))
    && (forall l :: 0 <= l < |s.ioapic| ==> s.ioapic[l] == Sum(LineFlags(s.devs, l)))
  }

  ghost predicate Inv(s: Sys) {
    && WellFormed(s)
    && (forall d :: 0 <= d < |s.devs| && s.devs[d].updating == 0 ==> LineAgrees(s.devs[d]))
    && Conserved(s)
  }

  // ---- How the counts move ----

  /** Changing one device's line moves the counts of its pin and of its IOAPIC line. */
  lemma {:induction false} CountsAfterLine(devs: seq<Dev>, d: nat, v: Dev, pin: nat, line: nat)
    requires d < |devs| && v.pin == devs[d].pin && v.ioapic == devs[d].ioapic
    ensures var up := Indicator(v.line == Asserted) - Indicator(devs[d].line == Asserted);
      && Sum(PinFlags(devs[d := v], pin)) == Sum(PinFlags(devs, pin)) + (if v.pin == pin then up else 0)
      && Sum(LineFlags(devs[d := v], line)) == Sum(LineFlags(devs, line)) + (if v.ioapic == line then up else 0)
  {
    var f := Indicator(v.line == Asserted && v.pin == pin);
    var g := Indicator(v.line == Asserted && v.ioapic == line);
    assert PinFlags(devs[d := v], pin) == PinFlags(devs, pin)[d := f];
    assert LineFlags(devs[d := v], line) == LineFlags(devs, line)[d := g];
    SumUpdate(PinFlags(devs, pin), d, f);
    SumUpdate(LineFlags(devs, line), d, g);
  }

  lemma {:induction false} CountsAfterPirq(pirqs: seq<Pirq>, p: nat, v: Pirq, irq: nat)
    requires p < |pirqs|
    ensures Sum(IrqFlags(pirqs[p := v], irq)) ==
      Sum(IrqFlags(pirqs, irq)) + Indicator(Drives(v, irq)) - Indicator(Drives(pirqs[p], irq))
  {
    assert IrqFlags(pirqs[p := v], irq) == IrqFlags(pirqs, irq)[p := Indicator(Drives(v, irq))];
    SumUpdate(IrqFlags(pirqs, irq), p, Indicator(Drives(v, irq)));
  }

  /** Raising the line of an idle or pending device keeps every count. */
  lemma {:induction false} AssertConserves(s: Sys, d: nat)
    requires WellFormed(s) && Conserved(s) && d < |s.devs| && s.devs[d].line != Asserted
    ensures Conserved(IrqAssert(SetLine(s, d, Asserted), d))
  {
    var m := SetLine(s, d, Asserted);
    var r := IrqAssert(m, d);
    var dev := s.devs[d];
    forall p | 0 <= p < NPIRQ ensures r.pirqs[p].active == Sum(PinFlags(r.devs, p + 1)) {
      CountsAfterLine(s.devs, d, m.devs[d], p + 1, 0);
    }
    forall l | 0 <= l < |r.ioapic| ensures r.ioapic[l] == Sum(LineFlags(r.devs, l)) {
      CountsAfterLine(s.devs, d, m.devs[d], 0, l);
    }
    if dev.pin > 0 {
      SumNonNegative(PinFlags(s.devs, dev.pin));
      forall n | 0 <= n < NIRQ ensures r.isa[n] == Sum(IrqFlags(r.pirqs, n)) {
        CountsAfterPirq(s.pirqs, dev.pin - 1, r.pirqs[dev.pin - 1], n);
      }
    }
  }

  /** Lowering the line of an asserted device keeps every count. */
  lemma {:induction false} DeassertConserves(s: Sys, d: nat, line: Line)
    requires WellFormed(s) && Conserved(s) && d < |s.devs| && s.devs[d].line == Asserted && line != Asserted
    ensures Conserved(IrqDeassert(SetLine(s, d, line), d))
  {
    var m := SetLine(s, d, line);
    var r := IrqDeassert(m, d);
    var dev := s.devs[d];
    forall p | 0 <= p < NPIRQ ensures r.pirqs[p].active == Sum(PinFlags(r.devs, p + 1)) {
      CountsAfterLine(s.devs, d, m.devs[d], p + 1, 0);
    }
    forall l | 0 <= l < |r.ioapic| ensures r.ioapic[l] == Sum(LineFlags(r.devs, l)) {
      CountsAfterLine(s.devs, d, m.devs[d], 0, l);
    }
    if dev.pin > 0 {
      SumNonNegative(PinFlags(s.devs, dev.pin));
      assert PinFlags(s.devs, dev.pin)[d] == 1;
      forall n | 0 <= n < NIRQ ensures r.isa[n] == Sum(IrqFlags(r.pirqs, n)) {
        CountsAfterPirq(s.pirqs, dev.pin - 1, r.pirqs[dev.pin - 1], n);
      }
    }
  }

  /** Changing anything about a device but whether its line is asserted moves no count. */
  lemma {:induction false} OtherFieldsConserve(s: Sys, d: nat, v: Dev)
    requires WellFormed(s) && Conserved(s) && d < |s.devs|
    requires v.pin == s.devs[d].pin && v.ioapic == s.devs[d].ioapic
    requires v.line == Asserted <==> s.devs[d].line == Asserted
    ensures WellFormed(s.(devs := s.devs[d := v])) && Conserved(s.(devs := s.devs[d := v]))
  {
    forall p | 0 <= p < NPIRQ ensures s.pirqs[p].active == Sum(PinFlags(s.devs[d := v], p + 1)) {
      CountsAfterLine(s.devs, d, v, p + 1, 0);
    }
    forall l | 0 <= l < |s.ioapic| ensures s.ioapic[l] == Sum(LineFlags(s.devs[d := v], l)) {
      CountsAfterLine(s.devs, d, v, 0, l);
    }
  }

  lemma {:induction false} PirqWriteConserves(s: Sys, pin: nat, val: nat)
    requires WellFormed(s) && Conserved(s) && 0 < pin <= NPIRQ
    ensures Conserved(PirqWrite(s, pin, val))
  {
    var r := PirqWrite(s, pin, val);
    forall n | 0 <= n < NIRQ ensures r.isa[n] == Sum(IrqFlags(r.pirqs, n)) {
      CountsAfterPirq(s.pirqs, pin - 1, r.pirqs[pin - 1], n);
    }
  }

  // ---- Runs ----

  datatype Action =
    | Assert(d: nat)
    | Deassert(d: nat)
    | Begin(d: nat, msi: bool, msix: bool, dis: bool)
    | End(d: nat)
    | Route(pin: nat, val: nat)

  predicate Enabled(s: Sys, a: Action) {
    match a
    case Route(pin, val) => 0 < pin <= NPIRQ
    case End(d) => d < |s.devs| && s.devs[d].updating > 0
    case _ => a.d < |s.devs|
  }

  function Step(s: Sys, a: Action): Sys
    requires WellFormed(s) && Enabled(s, a)
  {
    match a
    case Assert(d) => LintrAssert(s, d)
    case Deassert(d) => LintrDeassert(s, d)
    case Begin(d, msi, msix, dis) => BeginConfig(s, d, msi, msix, dis)
    case End(d) => EndConfig(s, d)
    case Route(pin, val) => PirqWrite(s, pin, val)
  }

  lemma {:induction false} UpdateConserves(s: Sys, d: nat)
    requires WellFormed(s) && Conserved(s) && d < |s.devs|
    ensures Conserved(LintrUpdate(s, d))
    ensures LineAgrees(LintrUpdate(s, d).devs[d])
  {
    var dev := s.devs[d];
    if dev.line == Asserted && !Permitted(dev) {
      DeassertConserves(s, d, Pending);
      assert SetLine(IrqDeassert(s, d), d, Pending) == IrqDeassert(SetLine(s, d, Pending), d);
    } else if dev.line == Pending && Permitted(dev) {
      AssertConserves(s, d);
    }
  }

  lemma {:induction false} StepKeepsInv(s: Sys, a: Action)
    requires Inv(s) && Enabled(s, a)
    ensures Inv(Step(s, a))
  {
    match a
    case Assert(d) =>
      if s.devs[d].line == Idle {
        if Permitted(s.devs[d]) { AssertConserves(s, d); }
        else { OtherFieldsConserve(s, d, s.devs[d].(line := Pending)); }
      }
    case Deassert(d) =>
      if s.devs[d].line == Asserted { DeassertConserves(s, d, Idle); }
      else { OtherFieldsConserve(s, d, s.devs[d].(line := Idle)); }
    case Begin(d, msi, msix, dis) =>
      OtherFieldsConserve(s, d, BeginConfig(s, d, msi, msix, dis).devs[d]);
    case End(d) =>
      UpdateConserves(s, d);
      var u := LintrUpdate(s, d);
      OtherFieldsConserve(u, d, EndConfig(s, d).devs[d]);
    case Route(pin, val) => PirqWriteConserves(s, pin, val);
  }

  ghost predicate IsRun(states: seq<Sys>, actions: seq<Action>) {
    && |states| == |actions| + 1
    && forall k :: 0 <= k < |actions| ==> Next(states[k], actions[k], states[k + 1])
  }

  ghost predicate Next(s: Sys, a: Action, s': Sys) {
    WellFormed(s) && Enabled(s, a) && s' == Step(s, a)
  }

  /** After routing, before anything is asserted. */
  ghost predicate Initial(s: Sys) {
    && WellFormed(s)
    && (forall d :: 0 <= d < |s.devs| ==> s.devs[d].line == Idle && s.devs[d].updating == 0)
    && (forall p :: 0 <= p < NPIRQ ==> s.pirqs[p].active == 0)
    && (forall n :: 0 <= n < NIRQ ==> s.isa[n] == 0)
    && (forall l :: 0 <= l < |s.ioapic| ==> s.ioapic[l] == 0)
  }

  lemma {:induction false} NoneAsserted(s: Sys)
    requires WellFormed(s) && forall d :: 0 <= d < |s.devs| ==> s.devs[d].line != Asserted
    ensures forall pin: nat :: Sum(PinFlags(s.devs, pin)) == 0
    ensures forall l :: 0 <= l < |s.ioapic| ==> Sum(LineFlags(s.devs, l)) == 0
    ensures (forall p :: 0 <= p < NPIRQ ==> s.pirqs[p].active == 0) ==>
      forall n :: 0 <= n < NIRQ ==> Sum(IrqFlags(s.pirqs, n)) == 0
  {
    forall pin: nat ensures Sum(PinFlags(s.devs, pin)) == 0 { SumZero(PinFlags(s.devs, pin)); }
    forall l | 0 <= l < |s.ioapic| ensures Sum(LineFlags(s.devs, l)) == 0 { SumZero(LineFlags(s.devs, l)); }
    if forall p :: 0 <= p < NPIRQ ==> s.pirqs[p].active == 0 {
      forall n | 0 <= n < NIRQ ensures Sum(IrqFlags(s.pirqs, n)) == 0 { SumZero(IrqFlags(s.pirqs, n)); }
    }
  }

  /** In every run the pin counts, the ISA asserts and the IOAPIC asserts are exactly those of the
      asserted devices, and a device with no configuration write in progress is asserted only when
      permitted and pending only when not. */
  lemma {:induction false} EveryRunConserves(states: seq<Sys>, actions: seq<Action>, k: nat)
    requires IsRun(states, actions) && Initial(states[0]) && k < |states|
    ensures Inv(states[k])
  {
    if k == 0 {
      NoneAsserted(states[0]);
    } else {
      EveryRunConserves(states, actions, k - 1);
      assert Next(states[k - 1], actions[k - 1], states[k]);
      StepKeepsInv(states[k - 1], actions[k - 1]);
    }
  }

  /** Device `d` is asserted on a pin validly routed to `irq`. */
  ghost predicate Raises(s: Sys, d: nat, irq: nat)
    requires WellFormed(s) && d < |s.devs|
  {
    var dev := s.devs[d];
    dev.line == Asserted && dev.pin > 0
    && ValidIrq(s.pirqs[dev.pin - 1].reg) && PirqIrq(s.pirqs[dev.pin - 1].reg) == irq
  }

  /** An ISA line is raised exactly when some asserted device sits on a pin validly routed to it,
      however the pins have been rerouted since. */
  lemma {:induction false} IsaLineIsTheOrOfItsDevices(s: Sys, n: nat)
    requires Inv(s) && n < NIRQ
    ensures s.isa[n] > 0 <==> exists d :: 0 <= d < |s.devs| && Raises(s, d, n)
  {
    SumNonNegative(IrqFlags(s.pirqs, n));
    forall d | 0 <= d < |s.devs| && Raises(s, d, n) ensures s.isa[n] > 0 {
      SumNonNegative(PinFlags(s.devs, s.devs[d].pin));
      assert PinFlags(s.devs, s.devs[d].pin)[d] == 1;
      assert IrqFlags(s.pirqs, n)[s.devs[d].pin - 1] == 1;
    }
    if s.isa[n] > 0 {
      var p := PositiveFlag(IrqFlags(s.pirqs, n));
      SumNonNegative(PinFlags(s.devs, p + 1));
      var d := PositiveFlag(PinFlags(s.devs, p + 1));
      assert Raises(s, d, n);
    }
  }

  lemma {:induction false} PositiveFlag(xs: seq<int>) returns (i: nat)
    requires Sum(xs) > 0
    ensures i < |xs| && xs[i] > 0
  {
    if xs[0] > 0 {
      i := 0;
    } else {
      i := PositiveFlag(xs[1..]);
      i := i + 1;
    }
  }

  /** Nothing leaks: once no device is asserted, no pin is active and every line is quiet. */
  lemma {:induction false} QuietWhenAllIdle(s: Sys)
    requires Inv(s) && forall d :: 0 <= d < |s.devs| ==> s.devs[d].line != Asserted
    ensures forall p :: 0 <= p < NPIRQ ==> s.pirqs[p].active == 0
    ensures forall n :: 0 <= n < NIRQ ==> s.isa[n] == 0
    ensures forall l :: 0 <= l < |s.ioapic| ==> s.ioapic[l] == 0
  {
    NoneAsserted(s);
  }

  /** The global pin table and the devices, updated in place. The two counters of kernel calls are ghost. */
  class Router {
    const devs: array<Dev>
    const pirqs: array<Pirq>
    ghost var isa: seq<int>
    ghost var ioapic: seq<int>

    ghost function View(): Sys
      reads this, devs, pirqs
    {
      Sys(devs[..], pirqs[..], isa, ioapic)
    }

    ghost predicate Valid()
      reads this, devs, pirqs
    {
      Inv(View())
    }

    constructor (routed: seq<Dev>, ghost lines: nat)
      requires forall d :: 0 <= d < |routed| ==>
        routed[d].line == Idle && routed[d].updating == 0 && routed[d].pin <= NPIRQ && routed[d].ioapic < lines
      ensures Valid() && fresh(devs) && fresh(pirqs)
      ensures View().devs == routed && |ioapic| == lines
    {
      devs := new Dev[|routed|](i requires 0 <= i < |routed| => routed[i]);
      pirqs := new Pirq[NPIRQ](_ => Pirq(PIRQ_DIS, 0));
      isa, ioapic := seq(NIRQ, _ => 0), seq(lines, _ => 0);
      new;
      NoneAsserted(View());
    }

    method IrqAssertPin(d: nat)
      requires WellFormed(View()) && d < devs.Length
      modifies this, pirqs
      ensures View() == IrqAssert(old(View()), d)
    {
      var pin, line := devs[d].pin, devs[d].ioapic;
      if pin > 0 {
        pirqs[pin - 1] := pirqs[pin - 1].(active := pirqs[pin - 1].active + 1);
        if pirqs[pin - 1].active == 1 && ValidIrq(pirqs[pin - 1].reg) {
          isa := Bump(isa, PirqIrq(pirqs[pin - 1].reg), 1);
        }
      }
      ioapic := Bump(ioapic, line, 1);
    }

    method IrqDeassertPin(d: nat)
      requires WellFormed(View()) && d < devs.Length
      modifies this, pirqs
      ensures View() == IrqDeassert(old(View()), d)
    {
      var pin, line := devs[d].pin, devs[d].ioapic;
      if pin > 0 {
        pirqs[pin - 1] := pirqs[pin - 1].(active := pirqs[pin - 1].active - 1);
        if pirqs[pin - 1].active == 0 && ValidIrq(pirqs[pin - 1].reg) {
          isa := Bump(isa, PirqIrq(pirqs[pin - 1].reg), -1);
        }
      }
      ioapic := Bump(ioapic, line, -1);
    }

    method SetDevLine(d: nat, line: Line)
      requires WellFormed(View()) && d < devs.Length
      modifies devs
      ensures View() == SetLine(old(View()), d, line)
    {
      devs[d] := devs[d].(line := line);
    }

    /** pci_lintr_assert. */
    method Assert(d: nat)
      requires Valid() && d < devs.Length
      modifies this, devs, pirqs
      ensures Valid() && View() == LintrAssert(old(View()), d)
    {
      StepKeepsInv(View(), Action.Assert(d));
      if devs[d].line == Idle {
        if Permitted(devs[d]) {
          SetDevLine(d, Asserted);
          IrqAssertPin(d);
        } else {
          SetDevLine(d, Pending);
        }
      }
    }

    /** pci_lintr_deassert. */
    method Deassert(d: nat)
      requires Valid() && d < devs.Length
      modifies this, devs, pirqs
      ensures Valid() && View() == LintrDeassert(old(View()), d)
    {
      StepKeepsInv(View(), Action.Deassert(d));
      if devs[d].line == Asserted {
        SetDevLine(d, Idle);
        IrqDeassertPin(d);
      } else if devs[d].line == Pending {
        SetDevLine(d, Idle);
      }
    }

    /** pci_lintr_update. */
    method Update(d: nat)
      requires WellFormed(View()) && d < devs.Length
      modifies this, devs, pirqs
      ensures View() == LintrUpdate(old(View()), d)
    {
      if devs[d].line == Asserted && !Permitted(devs[d]) {
        IrqDeassertPin(d);
        SetDevLine(d, Pending);
      } else if devs[d].line == Pending && Permitted(devs[d]) {
        SetDevLine(d, Asserted);
        IrqAssertPin(d);
      }
    }

    /** pirq_write. */
    method Route(pin: nat, val: nat)
      requires Valid() && 0 < pin <= NPIRQ
      modifies this, pirqs
      ensures Valid() && View() == PirqWrite(old(View()), pin, val)
    {
      StepKeepsInv(View(), Action.Route(pin, val));
      var reg := RegBits(val);
      var p := pirqs[pin - 1];
      if p.reg != reg {
        if p.active != 0 && ValidIrq(p.reg) { isa := Bump(isa, PirqIrq(p.reg), -1); }
        pirqs[pin - 1] := p.(reg := reg);
        if p.active != 0 && ValidIrq(reg) { isa := Bump(isa, PirqIrq(reg), 1); }
      }
    }
  }
}
