/** Devices that allocate base address registers one after the other, and a guest that then moves
    them (pci_emul.c). */
module PciBarRuns {
  import opened Seqs
  import opened PciBar

  /** One function, the registries it shares, and the bump pointers of the windows all functions share. */
  datatype World = World(dev: Dev, bases: Bases)

  // ---- The windows ----

  predicate Meets(c: Claim, lo: nat, hi: nat) { c.base < hi && lo < c.base + c.size }

  /** Nothing is registered in what is left of the windows. */
  ghost predicate WindowsFree(d: Dev, b: Bases)
    requires Shaped(d)
  {
    && b.mem64 >= MEM32_LIMIT
    && (forall p :: b.io <= p < IO_LIMIT ==> d.ports[p].None?)
    && forall c :: c in d.mem ==> Outside(c, b)
  }

  predicate Outside(c: Claim, b: Bases) {
    c.size > 0 && !Meets(c, b.mem32, MEM32_LIMIT) && !Meets(c, b.mem64, MEM64_LIMIT)
  }

  /** The one request that is placed at an address of the host's choice. */
  predicate AtHost(kind: Kind, size: nat) { kind == Mem64 && size == WORD }

  predicate IsRange(kind: Kind) { kind == Io || kind == Mem32 || kind == Mem64 }

  /** Where a request is placed, if there is room. */
  function Place(b: Bases, hostbase: nat, kind: Kind, size: nat): Option<nat>
    requires size > 0
  {
    Carve(BaseOf(b, hostbase, kind, size), LimitOf(kind, size), size)
  }

  /** No registration meets the range. */
  ghost predicate Unclaimed(d: Dev, kind: Kind, addr: nat, size: nat)
    requires Shaped(d)
  {
    if kind == Io then addr + size <= PORTS && forall p :: addr <= p < addr + size ==> d.ports[p].None?
    else forall c :: c in d.mem ==> !Meets(c, addr, addr + size)
  }

  /** A range that the host chose is free, and not in what is left of the windows. */
  ghost predicate HostRangeFree(w: World, hostbase: nat, kind: Kind, request: nat)
    requires Shaped(w.dev)
  {
    BarSizeOk(kind, request);
    var size := BarSize(kind, request);
    var addr := Place(w.bases, hostbase, kind, size);
    AtHost(kind, size) && addr.Some? ==>
      Unclaimed(w.dev, kind, addr.value, size) && Outside(Claim(Foreign(0), addr.value, size), w.bases)
  }

  /** A range placed in its window meets no registration, and the next one will not meet it. */
  lemma {:induction false} PlacedIsFree(w: World, hostbase: nat, kind: Kind, request: nat)
    requires Shaped(w.dev) && WindowsFree(w.dev, w.bases) && IsRange(kind) && HostRangeFree(w, hostbase, kind, request)
    requires BarSize(kind, request) > 0 && Place(w.bases, hostbase, kind, BarSize(kind, request)).Some?
    ensures var size := BarSize(kind, request); var addr := Place(w.bases, hostbase, kind, size).value;
      var b := Bumped(w.bases, kind, size, addr + size);
      && Unclaimed(w.dev, kind, addr, size)
      && w.bases.io <= b.io && (kind == Io ==> b.io == addr + size)
      && (forall c :: Outside(c, w.bases) ==> Outside(c, b)) && b.mem64 >= MEM32_LIMIT
      && (kind != Io ==> forall o :: Outside(Claim(o, addr, size), b))
  {
    hide BarSize, RoundUp;
    var size := BarSize(kind, request);
    CarveFits(BaseOf(w.bases, hostbase, kind, size), LimitOf(kind, size), size);
  }

  // ---- Claiming a range ----

  /** What claiming adds to the registries. */
  ghost predicate Added(d: Dev, r: Dev, o: Owner, kind: Kind, addr: nat, size: nat)
    requires Shaped(d)
  {
    && Shaped(r) && r == d.(ports := r.ports, mem := r.mem)
    && (forall p :: 0 <= p < PORTS ==>
          r.ports[p] == if kind == Io && addr <= p < addr + size then Some(o) else d.ports[p])
    && (forall c :: c in r.mem <==> c in d.mem || (kind != Io && c == Claim(o, addr, size)))
  }

  /** A range that meets no registration can be claimed. */
  lemma {:induction false} ClaimUnclaimed(d: Dev, o: Owner, kind: Kind, addr: nat, size: nat)
    requires Shaped(d) && Disjoint(d.mem) && IsRange(kind) && size > 0 && Unclaimed(d, kind, addr, size)
    ensures var r := RegisterAs(d, o, Bar(kind, size, addr));
      r.Some? && Added(d, r.value, o, kind, addr, size) && Disjoint(r.value.mem)
  {
    var c := Claim(o, addr, size);
    if kind != Io {
      assert forall x :: x in d.mem ==> !x.Overlaps(c) && !x.Covers(addr);
      assert Covering(d.mem, addr) == |d.mem| && !AnyOverlap(d.mem, c);
    }
  }

  /** What was claimed lies outside what is then left of the windows. */
  lemma {:induction false} WindowsStayFree(w: World, o: Owner, hostbase: nat, kind: Kind, request: nat, r: Dev)
    requires Shaped(w.dev) && WindowsFree(w.dev, w.bases) && IsRange(kind) && HostRangeFree(w, hostbase, kind, request)
    requires BarSize(kind, request) > 0 && Place(w.bases, hostbase, kind, BarSize(kind, request)).Some?
    requires var size := BarSize(kind, request); var addr := Place(w.bases, hostbase, kind, size).value;
      Added(w.dev, r, o, kind, addr, size)
    ensures var size := BarSize(kind, request); var addr := Place(w.bases, hostbase, kind, size).value;
      WindowsFree(r, Bumped(w.bases, kind, size, addr + size))
  {
    hide BarSize, Place, Outside;
    PlacedIsFree(w, hostbase, kind, request);
  }

  // ---- Steps ----

  datatype Action =
    | AllocBar(i: nat, kind: Kind, request: nat, hostbase: nat)
    | AllocElsewhere(id: nat, kind: Kind, request: nat, hostbase: nat)
    | WriteBar(i: nat, v: nat)
    | WriteCommand(porten: bool, memen: bool)

  predicate IsAlloc(a: Action) { a.AllocBar? || a.AllocElsewhere? }

  /** pci_emul_alloc_pbar as seen from another function. */
  function AllocateOther(w: World, hostbase: nat, id: nat, kind: Kind, request: nat): Option<World>
    requires Shaped(w.dev)
  {
    BarSizeOk(kind, request);
    var size := BarSize(kind, request);
    var addr := Place(w.bases, hostbase, kind, size);
    if addr.None? then Some(w)
    else
      var r := RegisterAs(w.dev, Foreign(id), Bar(kind, size, addr.value));
      if r.None? then None else Some(World(r.value, Bumped(w.bases, kind, size, addr.value + size)))
  }

  /** A step; none when an assertion fails. */
  function Next(w: World, a: Action): Option<World>
    requires Shaped(w.dev)
  {
    match a
    case AllocBar(i, kind, request, hostbase) =>
      if i >= BARS then None
      else (match Allocate(w.dev, w.bases, hostbase, i, kind, request)
            case Placed(r, b) => Some(World(r, b))
            case NoSpace => Some(w)
            case Failed => None)
    case AllocElsewhere(id, kind, request, hostbase) => AllocateOther(w, hostbase, id, kind, request)
    case WriteBar(i, v) => if i < BARS && v < WORD then Stepped(w, BarWrite(w.dev, i, v)) else None
    case WriteCommand(p, m) => Stepped(w, Command(w.dev, p, m))
  }

  function Stepped(w: World, d: Option<Dev>): Option<World> { if d.None? then None else Some(w.(dev := d.value)) }

  /** Requests are for unused registers, and the guest puts no decoded range on top of another. */
  ghost predicate Allowed(w: World, a: Action)
    requires Shaped(w.dev)
  {
    match a
    case AllocBar(i, kind, request, hostbase) =>
      && i < BARS && w.dev.bars[i].kind == NoBar && IsRange(kind)
      && (kind == Mem64 ==> i + 1 < BARS && w.dev.bars[i + 1].kind == NoBar)
      && HostRangeFree(w, hostbase, kind, request)
    case AllocElsewhere(_, kind, request, hostbase) => IsRange(kind) && HostRangeFree(w, hostbase, kind, request)
    case WriteBar(i, v) => i < BARS && v < WORD && WriteIsFree(w.dev, i, v)
    case WriteCommand(p, m) => ClearFrom(w.dev.(porten := p, memen := m), 0, w.dev.porten != p, w.dev.memen != m)
  }

  // ---- While devices initialise ----

  /** Every space a register uses is decoded. */
  ghost predicate SpacesOn(d: Dev)
    requires Shaped(d)
  {
    forall j :: 0 <= j < BARS ==> (d.bars[j].kind == Io ==> d.porten) && (d.bars[j].IsMem() ==> d.memen)
  }

  /** What holds until the guest runs. */
  ghost predicate InitInv(w: World) { Inv(w.dev) && SpacesOn(w.dev) && WindowsFree(w.dev, w.bases) }

  /** With every space on, no register waits for a decode bit. */
  lemma {:induction false} SpacesOnReady(d: Dev, kind: Kind)
    requires Shaped(d) && SpacesOn(d)
    ensures SpaceReady(d, kind)
  {
  }

  lemma {:induction false} SpacesStayOn(d: Dev, i: nat, kind: Kind, size: nat, addr: nat, r: Dev)
    requires Shaped(d) && SpacesOn(d) && i < BARS && IsRange(kind)
    requires kind == Mem64 ==> i + 1 < BARS && d.bars[i + 1].kind == NoBar
    requires Shaped(r) && var n := Programmed(d, i, kind, size, addr);
      r.bars == n.bars && r.porten == n.porten && r.memen == n.memen
    ensures SpacesOn(r)
  {
  }

  /** Programming a register leaves the registries alone. */
  lemma {:induction false} SameRegistries(w: World, n: Dev, hostbase: nat, kind: Kind, request: nat)
    requires Shaped(w.dev) && Shaped(n) && n.ports == w.dev.ports && n.mem == w.dev.mem
    requires WindowsFree(w.dev, w.bases) && HostRangeFree(w, hostbase, kind, request)
    ensures WindowsFree(n, w.bases) && HostRangeFree(World(n, w.bases), hostbase, kind, request)
  {
  }

  lemma {:induction false} ProgrammedKeeps(d: Dev, i: nat, kind: Kind, size: nat, addr: nat)
    requires Shaped(d) && i < BARS && (kind == Mem64 ==> i + 1 < BARS)
    ensures var n := Programmed(d, i, kind, size, addr);
      Shaped(n) && n.ports == d.ports && n.mem == d.mem && n.bars[i] == Bar(kind, size, addr)
  {
  }

  lemma {:induction false} InvShape(d: Dev)
    requires Inv(d)
    ensures Shaped(d) && Disjoint(d.mem)
  {
  }

  lemma {:induction false} PlaceFits(b: Bases, hostbase: nat, kind: Kind, size: nat)
    requires size > 0 && Place(b, hostbase, kind, size).Some?
    ensures var addr := Place(b, hostbase, kind, size).value; addr % size == 0 && addr + size <= LimitOf(kind, size)
  {
    CarveFits(BaseOf(b, hostbase, kind, size), LimitOf(kind, size), size);
  }

  lemma {:induction false} UnclaimedIsFree(n: Dev, i: nat, kind: Kind, size: nat, addr: nat)
    requires Shaped(n) && i < BARS && n.bars[i] == Bar(kind, size, addr) && IsRange(kind)
    requires Unclaimed(n, kind, addr, size)
    ensures FreeAt(n, i, addr)
  {
    assert kind != Io ==>
        forall c :: c in n.mem && !Meets(c, addr, addr + size) ==> !c.Overlaps(Claim(Mine(i), addr, size));
  }

  /** Placing a request for register `i` where there is room. */
  lemma {:induction false} PlacedKeeps(w: World, i: nat, kind: Kind, request: nat, hostbase: nat)
    requires InitInv(w) && Allowed(w, AllocBar(i, kind, request, hostbase))
    requires BarSize(kind, request) > 0 && Place(w.bases, hostbase, kind, BarSize(kind, request)).Some?
    ensures var size := BarSize(kind, request); var addr := Place(w.bases, hostbase, kind, size).value;
      var r := Register(Programmed(w.dev, i, kind, size, addr), i);
      r.Some? && InitInv(World(r.value, Bumped(w.bases, kind, size, addr + size)))
  {
    hide Inv, WindowsFree, HostRangeFree, Unclaimed, SpacesOn, SpaceReady, Disjoint, BarSize, Programmed, FreeAt;
    hide Bumped, RegisterAs, Outside, Place, Pow2, LimitOf;
    BarSizeOk(kind, request);
    InvShape(w.dev);
    var size := BarSize(kind, request);
    var addr := Place(w.bases, hostbase, kind, size).value;
    var n := Programmed(w.dev, i, kind, size, addr);
    PlaceFits(w.bases, hostbase, kind, size);
    ProgrammedKeeps(w.dev, i, kind, size, addr);
    var v := World(n, w.bases);
    SameRegistries(w, n, hostbase, kind, request);
    PlacedIsFree(v, hostbase, kind, request);
    ClaimUnclaimed(n, Mine(i), kind, addr, size);
    var r := Register(n, i).value;
    WindowsStayFree(v, Mine(i), hostbase, kind, request, r);
    UnclaimedIsFree(n, i, kind, size, addr);
    SpacesOnReady(w.dev, kind);
    AllocateExactly(w.dev, i, kind, size, addr);
    SpacesStayOn(w.dev, i, kind, size, addr, r);
  }

  /** An allocation in this phase succeeds or finds no space, and keeps everything. */
  lemma {:induction false} AllocKeeps(w: World, i: nat, kind: Kind, request: nat, hostbase: nat)
    requires InitInv(w) && Allowed(w, AllocBar(i, kind, request, hostbase))
    ensures var r := Next(w, AllocBar(i, kind, request, hostbase)); r.Some? && InitInv(r.value)
  {
    hide InitInv, HostRangeFree, BarSize, Programmed, Bumped, Register, Carve, Pow2;
    BarSizeOk(kind, request);
    if Place(w.bases, hostbase, kind, BarSize(kind, request)).Some? { PlacedKeeps(w, i, kind, request, hostbase); }
  }

  /** So does another function's: it never meets this one's ranges. */
  lemma {:induction false} ElsewhereKeeps(w: World, id: nat, kind: Kind, request: nat, hostbase: nat)
    requires InitInv(w) && Allowed(w, AllocElsewhere(id, kind, request, hostbase))
    ensures var r := Next(w, AllocElsewhere(id, kind, request, hostbase)); r.Some? && InitInv(r.value)
  {
    hide Inv, WindowsFree, HostRangeFree, Unclaimed, SpacesOn, Disjoint, BarSize, Bumped, RegisterAs, Outside, Place;
    BarSizeOk(kind, request);
    InvShape(w.dev);
    var size := BarSize(kind, request);
    if Place(w.bases, hostbase, kind, size).Some? {
      var addr := Place(w.bases, hostbase, kind, size).value;
      PlacedIsFree(w, hostbase, kind, request);
      ClaimUnclaimed(w.dev, Foreign(id), kind, addr, size);
      var r := RegisterAs(w.dev, Foreign(id), Bar(kind, size, addr)).value;
      WindowsStayFree(w, Foreign(id), hostbase, kind, request, r);
      ForeignKeepsInv(w.dev, r, id, kind, addr, size);
    }
  }

  /** A claim of another owner on free ground leaves every register decoded as it was. */
  lemma {:induction false} ForeignKeepsInv(d: Dev, r: Dev, id: nat, kind: Kind, addr: nat, size: nat)
    requires Inv(d) && SpacesOn(d) && Added(d, r, Foreign(id), kind, addr, size) && Disjoint(r.mem)
    requires Unclaimed(d, kind, addr, size)
    ensures Inv(r) && SpacesOn(r)
  {
    hide Disjoint, RegsOk;
    forall i | 0 <= i < BARS ensures Live(r, i, Decoded(r, i)) {
      InvBar(d, i);
      assert forall p :: 0 <= p < PORTS ==> (r.ports[p] == Some(Mine(i)) <==> d.ports[p] == Some(Mine(i)));
      assert forall c: Claim :: c.owner == Mine(i) ==> (c in r.mem <==> c in d.mem);
    }
  }

  // ---- Runs ----

  /** Functions initialise one after the other, then the guest runs. */
  ghost predicate IsRun(run: seq<World>, actions: seq<Action>) {
    && |run| == |actions| + 1 && PciBar.Initial(run[0].dev) && WindowsFree(run[0].dev, run[0].bases)
    && (forall k :: 0 <= k < |actions| ==> StepAt(run, actions, k))
  }

  ghost predicate StepAt(run: seq<World>, actions: seq<Action>, k: nat)
    requires k < |actions| && |run| == |actions| + 1
  {
    && Shaped(run[k].dev) && Allowed(run[k], actions[k]) && Next(run[k], actions[k]) == Some(run[k + 1])
    && (IsAlloc(actions[k]) ==> OnlyAllocs(actions, k))
  }

  ghost predicate OnlyAllocs(actions: seq<Action>, n: nat)
    requires n <= |actions|
  {
    forall j :: 0 <= j < n ==> IsAlloc(actions[j])
  }

  lemma {:induction false} GuestKeepsInv(w: World, a: Action)
    requires Inv(w.dev) && Allowed(w, a) && !IsAlloc(a)
    ensures Next(w, a).Some? && Inv(Next(w, a).value.dev)
  {
    hide Inv, BarWrite, Command, WriteIsFree, ClearFrom;
    InvShape(w.dev);
    match a
    case WriteBar(i, v) => BarWriteExactly(w.dev, i, v);
    case WriteCommand(p, m) => CommandExactly(w.dev, p, m);
    case AllocBar(_, _, _, _) =>
    case AllocElsewhere(_, _, _, _) =>
  }

  lemma {:induction false} InitKeepsInv(w: World, a: Action)
    requires InitInv(w) && Allowed(w, a) && IsAlloc(a)
    ensures Next(w, a).Some? && InitInv(Next(w, a).value)
  {
    hide InitInv, Next, Allowed;
    InitShape(w);
    match a
    case AllocBar(i, kind, request, hostbase) => AllocKeeps(w, i, kind, request, hostbase);
    case AllocElsewhere(id, kind, request, hostbase) => ElsewhereKeeps(w, id, kind, request, hostbase);
    case WriteBar(_, _) =>
    case WriteCommand(_, _) =>
  }

  lemma {:induction false} InitShape(w: World)
    requires InitInv(w)
    ensures Inv(w.dev) && Shaped(w.dev) && SpacesOn(w.dev)
  {
  }

  /** In every such run a register's range is registered exactly when its decode bit is set, and the
      shadow address is the one the registers hold; until the guest runs every space in use is on. */
  lemma {:induction false} EveryRunAgrees(run: seq<World>, actions: seq<Action>, k: nat)
    requires IsRun(run, actions) && k < |run|
    ensures Inv(run[k].dev)
    ensures OnlyAllocs(actions, k) ==> InitInv(run[k])
  {
    hide InitInv, Inv, Allowed, Next, OnlyAllocs;
    if k == 0 {
      InitialInv(run[0].dev);
      assert InitInv(run[0]) by { StartInv(run[0]); }
    } else {
      EveryRunAgrees(run, actions, k - 1);
      assert StepAt(run, actions, k - 1);
      if IsAlloc(actions[k - 1]) {
        InitKeepsInv(run[k - 1], actions[k - 1]);
        InitShape(run[k]);
      } else {
        GuestKeepsInv(run[k - 1], actions[k - 1]);
        NotOnlyAllocs(actions, k);
      }
    }
  }

  lemma {:induction false} NotOnlyAllocs(actions: seq<Action>, k: nat)
    requires 0 < k <= |actions| && !IsAlloc(actions[k - 1])
    ensures !OnlyAllocs(actions, k)
  {
  }

  lemma {:induction false} StartInv(w: World)
    requires PciBar.Initial(w.dev) && WindowsFree(w.dev, w.bases)
    ensures InitInv(w)
  {
    InitialInv(w.dev);
  }

  /** No assertion fails on the way: whatever is allowed next has a next state. */
  lemma {:induction false} NextNeverFails(run: seq<World>, actions: seq<Action>, k: nat, a: Action)
    requires IsRun(run, actions) && k < |run| && Shaped(run[k].dev) && Allowed(run[k], a)
    requires IsAlloc(a) ==> OnlyAllocs(actions, k)
    ensures Next(run[k], a).Some?
  {
    hide InitInv, Inv, Allowed, Next, OnlyAllocs;
    EveryRunAgrees(run, actions, k);
    if IsAlloc(a) { InitKeepsInv(run[k], a); } else { GuestKeepsInv(run[k], a); }
  }

  /** Allocating later can break the agreement: once the guest has cleared a decode bit, setting it
      registers only the new range. */
  lemma {:induction false} LateAllocationDisagrees(d: Dev, i: nat, j: nat, size: nat, addr: nat)
    requires Inv(d) && !d.memen && j < BARS && d.bars[j].kind == Mem32 && Placeable(d, i, Mem32, size, addr)
    ensures var r := Register(Programmed(d, i, Mem32, size, addr), i); r.Some? ==> !Inv(r.value)
  {
    hide Inv;
    InvShape(d);
    assert !SpaceReady(d, Mem32) by { assert SameSpace(Mem32, d.bars[j]); }
    AllocateExactly(d, i, Mem32, size, addr);
  }
}
