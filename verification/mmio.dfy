/** The MMIO registry: two interval trees and a per-vCPU lookup cache (mem.c). */
module Mmio {
  import opened Seqs

  /** What a device registers. */
  datatype Param = Param(name: string, base: nat, size: nat, immutable: bool)

  /** A tree node: its address (`id`), the registration, and the inclusive address range. */
  datatype Range = Range(id: nat, param: Param, base: int, end: int)

  function NewRange(id: nat, p: Param): Range { Range(id, p, p.base, p.base + p.size - 1) }

  /** The range neither wraps nor ends before address zero; it may be empty. */
  predicate Good(r: Range) {
    0 <= r.base <= r.end + 1 && 0 <= r.end < 0x1_0000_0000_0000_0000
  }

  predicate Covers(r: Range, addr: int) { r.base <= addr <= r.end }

  function Compare(a: Range, b: Range): int {
    if a.end < b.base then -1 else if a.base > b.end then 1 else 0
  }

  // ---- Trees of any shape ----

  datatype Tree = Leaf | Node(left: Tree, range: Range, right: Tree)

  function Entries(t: Tree): seq<Range> {
    match t
    case Leaf => []
    case Node(l, r, rt) => Entries(l) + [r] + Entries(rt)
  }

  /** Ranges in ascending order, none touching another. */
  ghost predicate Ordered(s: seq<Range>) {
    && (forall i :: 0 <= i < |s| ==> Good(s[i]))
    && forall i, j :: 0 <= i < j < |s| ==> s[i].end < s[j].base
  }

  /** RB_FIND. */
  function Lookup(t: Tree, addr: int): Option<Range> {
    match t
    case Leaf => None
    case Node(l, r, rt) =>
      if addr < r.base then Lookup(l, addr) else if addr > r.end then Lookup(rt, addr) else Some(r)
  }

  /** Index of the first range that covers `addr`, or the length. */
  function IndexOf(s: seq<Range>, addr: int): (k: nat)
    ensures k <= |s| && (k < |s| ==> Covers(s[k], addr))
    ensures forall i :: 0 <= i < k ==> !Covers(s[i], addr)
  {
    if s == [] || Covers(s[0], addr) then 0 else 1 + IndexOf(s[1..], addr)
  }

  /** The meaning of a lookup: scan every range. */
  function Find(s: seq<Range>, addr: int): Option<Range> {
    var k := IndexOf(s, addr);
    if k < |s| then Some(s[k]) else None
  }

  lemma {:induction false} IndexConcat(a: seq<Range>, b: seq<Range>, addr: int)
    ensures IndexOf(a + b, addr) == if IndexOf(a, addr) < |a| then IndexOf(a, addr) else |a| + IndexOf(b, addr)
  {
    if a == [] {
      assert a + b == b;
    } else {
      assert (a + b)[1..] == a[1..] + b;
      IndexConcat(a[1..], b, addr);
    }
  }

  /** Ranges left of an uncovered one do not cover the address either. */
  lemma {:induction false} NotCovered(s: seq<Range>, addr: int)
    requires forall i :: 0 <= i < |s| ==> !Covers(s[i], addr)
    ensures IndexOf(s, addr) == |s|
  {
  }

  lemma {:induction false} OrderedParts(l: seq<Range>, x: Range, rt: seq<Range>)
    requires Ordered(l + [x] + rt)
    ensures Ordered(l) && Ordered(rt) && Good(x)
    ensures forall i :: 0 <= i < |l| ==> l[i].end < x.base
    ensures forall i :: 0 <= i < |rt| ==> x.end < rt[i].base
  {
    var s := l + [x] + rt;
    assert s[|l|] == x;
    forall i | 0 <= i < |l| ensures l[i] == s[i] {}
    forall i | 0 <= i < |rt| ensures rt[i] == s[|l| + 1 + i] {}
  }

  /** Where the covering range of a node's entries is, following the comparisons. */
  lemma {:induction false} IndexInNode(l: seq<Range>, x: Range, rt: seq<Range>, addr: int)
    requires Ordered(l + [x] + rt)
    ensures var k := IndexOf(l + [x] + rt, addr);
      if addr < x.base then k == if IndexOf(l, addr) < |l| then IndexOf(l, addr) else |l + [x] + rt|
      else if addr > x.end then k == |l| + 1 + IndexOf(rt, addr)
      else k == |l|
  {
    OrderedParts(l, x, rt);
    IndexConcat(l + [x], rt, addr);
    IndexConcat(l, [x], addr);
    if addr < x.base { NotCovered(rt, addr); } else { NotCovered(l, addr); }
  }

  lemma {:induction false} LookupIsFind(t: Tree, addr: int)
    requires Ordered(Entries(t))
    ensures Lookup(t, addr) == Find(Entries(t), addr)
  {
    if t.Node? {
      var l, x, rt := Entries(t.left), t.range, Entries(t.right);
      OrderedParts(l, x, rt);
      IndexInNode(l, x, rt, addr);
      LookupIsFind(t.left, addr);
      LookupIsFind(t.right, addr);
    }
  }

  lemma {:induction false} CoverIsUnique(s: seq<Range>, k: nat, addr: int)
    requires Ordered(s) && k < |s| && Covers(s[k], addr)
    ensures IndexOf(s, addr) == k
  {
  }

  datatype Insertion = Inserted(tree: Tree) | Overlap(with: Range)

  /** RB_INSERT: a new leaf, or the entry that compares equal on the way down. */
  function Insert(t: Tree, r: Range): Insertion {
    match t
    case Leaf => Inserted(Node(Leaf, r, Leaf))
    case Node(left, x, right) =>
      if Compare(r, x) < 0 then
        match Insert(left, r)
        case Inserted(t') => Inserted(Node(t', x, right))
        case Overlap(w) => Overlap(w)
      else if Compare(r, x) > 0 then
        match Insert(right, r)
        case Inserted(t') => Inserted(Node(left, x, t'))
        case Overlap(w) => Overlap(w)
      else Overlap(x)
  }

  /** `s'` is `s` with `r` put in front of entry `k`. */
  ghost predicate AddedAt(s: seq<Range>, k: int, r: Range, s': seq<Range>) {
    0 <= k <= |s| && s' == s[..k] + [r] + s[k..]
  }

  /** Between which entries a range belongs. */
  function Position(t: Tree, r: Range): (k: nat)
    ensures k <= |Entries(t)|
  {
    match t
    case Leaf => 0
    case Node(left, x, right) =>
      if Compare(r, x) < 0 then Position(left, r) else |Entries(left)| + 1 + Position(right, r)
  }

  lemma {:induction false} SpliceLeft(l: seq<Range>, k: nat, r: Range, x: Range, rt: seq<Range>)
    requires k <= |l|
    ensures var s := l + [x] + rt;
      s[..k] + [r] + s[k..] == (l[..k] + [r] + l[k..]) + [x] + rt
  {
  }

  lemma {:induction false} SpliceRight(l: seq<Range>, x: Range, rt: seq<Range>, k: nat, r: Range)
    requires k <= |rt|
    ensures var s, n := l + [x] + rt, |l| + 1 + k;
      s[..n] + [r] + s[n..] == l + [x] + (rt[..k] + [r] + rt[k..])
  {
    var s, n := l + [x] + rt, |l| + 1 + k;
    assert s[..n] == l + [x] + rt[..k];
    assert s[n..] == rt[k..];
  }

  /** For every tree shape, insertion succeeds exactly when no entry overlaps, and keeps the order. */
  lemma {:induction false} InsertIsExact(t: Tree, r: Range)
    requires Ordered(Entries(t)) && Good(r)
    ensures Insert(t, r).Inserted? ==> AddedAt(Entries(t), Position(t, r), r, Entries(Insert(t, r).tree))
    ensures Insert(t, r).Inserted? ==> Around(Entries(t), Position(t, r), r)
    ensures Insert(t, r).Overlap? ==> Hit(Entries(t), r)
  {
    if t.Node? {
      var l, x, rt := Entries(t.left), t.range, Entries(t.right);
      OrderedParts(l, x, rt);
      if Compare(r, x) < 0 {
        InsertIsExact(t.left, r);
        SpliceLeft(l, Position(t.left, r), r, x, rt);
        if Insert(t.left, r).Inserted? {
          AroundLeft(l, x, rt, Position(t.left, r), r);
        } else {
          HitConcat(l, x, rt, r);
        }
      } else if Compare(r, x) > 0 {
        InsertIsExact(t.right, r);
        SpliceRight(l, x, rt, Position(t.right, r), r);
        if Insert(t.right, r).Inserted? {
          AroundRight(l, x, rt, Position(t.right, r), r);
        } else {
          HitConcat(l, x, rt, r);
        }
      } else {
        HitConcat(l, x, rt, r);
      }
    }
  }

  /** Some entry compares equal to `r`. */
  ghost predicate Hit(s: seq<Range>, r: Range) { exists i :: 0 <= i < |s| && Compare(r, s[i]) == 0 }

  lemma {:induction false} HitConcat(l: seq<Range>, x: Range, rt: seq<Range>, r: Range)
    requires Hit(l, r) || Compare(r, x) == 0 || Hit(rt, r)
    ensures Hit(l + [x] + rt, r)
  {
    var s := l + [x] + rt;
    assert s[|l|] == x;
    if Hit(l, r) {
      var i :| 0 <= i < |l| && Compare(r, l[i]) == 0;
      assert s[i] == l[i];
    }
    if Hit(rt, r) {
      var i :| 0 <= i < |rt| && Compare(r, rt[i]) == 0;
      assert s[|l| + 1 + i] == rt[i];
    }
  }

  /** Everything before position `k` ends before `r` and everything from it on starts after. */
  ghost predicate Around(s: seq<Range>, k: int, r: Range) {
    && (forall i :: 0 <= i < |s| && i < k ==> s[i].end < r.base)
    && (forall i :: 0 <= i < |s| && k <= i ==> r.end < s[i].base)
  }

  lemma {:induction false} AroundLeft(l: seq<Range>, x: Range, rt: seq<Range>, k: nat, r: Range)
    requires Around(l, k, r) && k <= |l| && Good(x) && r.end < x.base
    requires forall i :: 0 <= i < |rt| ==> x.end < rt[i].base
    ensures Around(l + [x] + rt, k, r)
  {
  }

  lemma {:induction false} AroundRight(l: seq<Range>, x: Range, rt: seq<Range>, k: nat, r: Range)
    requires Around(rt, k, r) && Good(x) && x.end < r.base
    requires forall i :: 0 <= i < |l| ==> l[i].end < x.base
    ensures Around(l + [x] + rt, |l| + 1 + k, r)
  {
  }

  lemma {:induction false} AroundExcludesHit(s: seq<Range>, k: nat, r: Range)
    requires Around(s, k, r)
    ensures !Hit(s, r)
  {
  }

  lemma {:induction false} AddedKeepsOrder(s: seq<Range>, k: nat, r: Range, s': seq<Range>)
    requires Ordered(s) && Good(r) && k <= |s| && AddedAt(s, k, r, s') && Around(s, k, r)
    ensures Ordered(s')
  {
    assert forall i :: 0 <= i < |s'| ==> s'[i] == if i < k then s[i] else if i == k then r else s[i - 1];
  }

  /** Join two trees whose entries are already in order. */
  function Join(a: Tree, b: Tree): (t: Tree)
    ensures Entries(t) == Entries(a) + Entries(b)
  {
    match a
    case Leaf => b
    case Node(l, r, rt) => Node(l, r, Join(rt, b))
  }

  /** RB_REMOVE of the node that covers `addr`. */
  function Remove(t: Tree, addr: int): Tree {
    match t
    case Leaf => Leaf
    case Node(l, r, rt) =>
      if addr < r.base then Node(Remove(l, addr), r, rt)
      else if addr > r.end then Node(l, r, Remove(rt, addr))
      else Join(l, rt)
  }

  function DropAt(s: seq<Range>, k: nat): seq<Range> {
    if k < |s| then s[..k] + s[k + 1..] else s
  }

  /** `s` without the entry that covers `addr`. */
  function Without(s: seq<Range>, addr: int): seq<Range> { DropAt(s, IndexOf(s, addr)) }

  lemma {:induction false} DropLeft(l: seq<Range>, x: Range, rt: seq<Range>, k: nat)
    requires k < |l|
    ensures DropAt(l + [x] + rt, k) == DropAt(l, k) + [x] + rt
  {
  }

  lemma {:induction false} DropRight(l: seq<Range>, x: Range, rt: seq<Range>, k: nat)
    requires k <= |rt|
    ensures DropAt(l + [x] + rt, |l| + 1 + k) == l + [x] + DropAt(rt, k)
  {
    var s, n := l + [x] + rt, |l| + 1 + k;
    assert s[..n] == l + [x] + rt[..k];
    assert k < |rt| ==> s[n + 1..] == rt[k + 1..];
  }

  lemma {:induction false} DropMiddle(l: seq<Range>, x: Range, rt: seq<Range>)
    ensures DropAt(l + [x] + rt, |l|) == l + rt
  {
  }

  lemma {:induction false} RemoveIsWithout(t: Tree, addr: int)
    requires Ordered(Entries(t))
    ensures Entries(Remove(t, addr)) == Without(Entries(t), addr)
  {
    if t.Node? {
      var l, x, rt := Entries(t.left), t.range, Entries(t.right);
      OrderedParts(l, x, rt);
      WithoutInNode(l, x, rt, addr);
      RemoveIsWithout(t.left, addr);
      RemoveIsWithout(t.right, addr);
    }
  }

  lemma {:induction false} WithoutInNode(l: seq<Range>, x: Range, rt: seq<Range>, addr: int)
    requires Ordered(l + [x] + rt)
    ensures Without(l + [x] + rt, addr) ==
      if addr < x.base then Without(l, addr) + [x] + rt
      else if addr > x.end then l + [x] + Without(rt, addr)
      else l + rt
  {
    IndexInNode(l, x, rt, addr);
    if addr < x.base {
      if IndexOf(l, addr) < |l| { DropLeft(l, x, rt, IndexOf(l, addr)); }
    } else if addr > x.end {
      DropRight(l, x, rt, IndexOf(rt, addr));
    } else {
      DropMiddle(l, x, rt);
    }
  }

  /** What is left keeps its order, and nothing in it covers the address any more. */
  lemma {:induction false} WithoutKeepsOrder(s: seq<Range>, addr: int)
    requires Ordered(s)
    ensures Ordered(Without(s, addr)) && Find(Without(s, addr), addr).None?
  {
    var k, r := IndexOf(s, addr), Without(s, addr);
    if k < |s| {
      forall i | 0 <= i < |r| ensures r[i] == s[if i < k then i else i + 1] {}
      forall i | 0 <= i < |s| && i != k ensures !Covers(s[i], addr) {}
    }
  }

  // ---- The registry ----

  datatype Mem = Mem(main: seq<Range>, fallback: seq<Range>, hints: seq<Option<Range>>)

  /** No two entries overlap, node addresses tell entries apart, every hint is a live main entry. */
  ghost predicate Inv(m: Mem) {
    && Ordered(m.main) && Ordered(m.fallback) && DistinctIds(m.main)
    && forall v :: 0 <= v < |m.hints| && m.hints[v].Some? ==> m.hints[v].value in m.main
  }

  ghost predicate DistinctIds(s: seq<Range>) {
    forall x, y :: x in s && y in s && x.id == y.id ==> x == y
  }

  /** An allocation is distinct from what is live; a freed address may come back. */
  ghost predicate FreshId(s: seq<Range>, id: nat) { forall x :: x in s ==> x.id != id }

  /** A new range is refused when its base is covered or some entry compares equal to it. */
  ghost predicate Blocked(s: seq<Range>, r: Range) { Find(s, r.base).Some? || Hit(s, r) }

  ghost predicate Overlaps(a: Range, b: Range) { exists addr: int :: Covers(a, addr) && Covers(b, addr) }

  /** An empty registration that lies strictly inside `r`. */
  predicate EmptyInside(x: Range, r: Range) { x.end < x.base && r.base < x.base <= r.end }

  /** For a range that is not empty, blocked means sharing an address with some entry, or enclosing
      an empty registration. */
  lemma {:induction false} BlockedMeansOverlap(s: seq<Range>, r: Range)
    requires Ordered(s) && Good(r) && r.base <= r.end
    ensures Blocked(s, r) <==> exists i :: 0 <= i < |s| && (Overlaps(r, s[i]) || EmptyInside(s[i], r))
  {
    forall i | 0 <= i < |s| ensures Compare(r, s[i]) == 0 <==> Overlaps(r, s[i]) || EmptyInside(s[i], r) {
      SharedAddress(r, s[i]);
    }
    if Find(s, r.base).Some? {
      assert Compare(r, s[IndexOf(s, r.base)]) == 0;
    }
  }

  lemma {:induction false} SharedAddress(r: Range, x: Range)
    requires Good(r) && Good(x) && r.base <= r.end
    ensures Compare(r, x) == 0 <==> Overlaps(r, x) || EmptyInside(x, r)
  {
    if Compare(r, x) == 0 && x.base <= x.end {
      var addr := if x.base <= r.base then r.base else x.base;
      assert Covers(r, addr) && Covers(x, addr);
    }
  }

  /** The tree after a registration: unchanged when blocked, otherwise with the range in its place. */
  ghost predicate Registered(s: seq<Range>, r: Range, s': seq<Range>) {
    if Blocked(s, r) then s' == s else Ordered(s') && exists k :: AddedAt(s, k, r, s')
  }

  /** Hints at the node `id` become null, the others stay. */
  ghost predicate Flushed(h: seq<Option<Range>>, id: nat, h': seq<Option<Range>>) {
    && |h'| == |h|
    && forall v :: 0 <= v < |h| ==> h'[v] == FlushOne(h[v], id)
  }

  function FlushOne(h: Option<Range>, id: nat): Option<Range> {
    if h.Some? && h.value.id == id then None else h
  }

  /** Which entry an access without a cache reaches: main tree first, then the fallback. */
  function Resolve(m: Mem, addr: int): Option<Range> {
    if Find(m.main, addr).Some? then Find(m.main, addr) else Find(m.fallback, addr)
  }

  datatype Action =
    | Register(r: Range, toFallback: bool)
    | Unregister(p: Param)
    | Access(vcpu: nat, addr: nat)

  /** A range that does not wrap, and a node that malloc has not handed out already. */
  ghost predicate Legal(m: Mem, a: Action) {
    match a
    case Register(r, _) => Good(r) && r == NewRange(r.id, r.param) && FreshId(m.main, r.id) && FreshId(m.fallback, r.id)
    case Unregister(_) => true
    case Access(vcpu, _) => vcpu < |m.hints|
  }

  /** The assertions of unregister_mem. */
  predicate Matches(e: Range, p: Param) {
    e.param.name == p.name && e.param.base == p.base && e.param.size == p.size && !e.param.immutable
  }

  /** Unregistering would fail an assertion: what is there is another range, or an immutable one. */
  predicate Aborts(s: seq<Range>, p: Param) { Find(s, p.base).Some? && !Matches(Find(s, p.base).value, p) }

  /** A step and the state after it; an aborted one has none. */
  ghost predicate Next(m: Mem, a: Action, m': Mem) {
    match a
    case Register(r, toFallback) =>
      && m'.hints == m.hints
      && (if toFallback then m'.main == m.main && Registered(m.fallback, r, m'.fallback)
          else m'.fallback == m.fallback && Registered(m.main, r, m'.main))
    case Unregister(p) =>
      && !Aborts(m.main, p)
      && m'.fallback == m.fallback && m'.main == Without(m.main, p.base)
      && (if Find(m.main, p.base).Some? then Flushed(m.hints, Find(m.main, p.base).value.id, m'.hints)
          else m'.hints == m.hints)
    case Access(vcpu, addr) =>
      && vcpu < |m.hints|
      && m' == if Find(m.main, addr).Some? then m.(hints := m.hints[vcpu := Find(m.main, addr)]) else m
  }

  lemma {:induction false} AddedMembers(s: seq<Range>, k: nat, r: Range, s': seq<Range>)
    requires AddedAt(s, k, r, s')
    ensures forall x :: x in s' <==> x in s || x == r
  {
    assert s == s[..k] + s[k..];
    forall x ensures x in s' <==> x in s || x == r {
      assert x in s <==> x in s[..k] || x in s[k..];
    }
  }

  lemma {:induction false} WithoutMembers(s: seq<Range>, addr: int)
    requires DistinctIds(s) && Ordered(s)
    ensures forall x :: x in Without(s, addr) ==> x in s
    ensures forall x :: x in s && Find(s, addr) != Some(x) ==> x in Without(s, addr)
  {
    var k := IndexOf(s, addr);
    if k < |s| {
      assert s == s[..k] + [s[k]] + s[k + 1..];
      forall x ensures x in s <==> x in s[..k] || x == s[k] || x in s[k + 1..] {}
    }
  }

  lemma {:induction false} RegisterKeepsInv(m: Mem, r: Range, toFallback: bool, m': Mem)
    requires Inv(m) && Legal(m, Register(r, toFallback)) && Next(m, Register(r, toFallback), m')
    ensures Inv(m')
  {
    if !toFallback && !Blocked(m.main, r) {
      var k :| AddedAt(m.main, k, r, m'.main);
      AddedMembers(m.main, k, r, m'.main);
    }
  }

  lemma {:induction false} UnregisterKeepsInv(m: Mem, p: Param, m': Mem)
    requires Inv(m) && Next(m, Unregister(p), m')
    ensures Inv(m') && Find(m'.main, p.base).None?
  {
    WithoutKeepsOrder(m.main, p.base);
    WithoutMembers(m.main, p.base);
    if Find(m.main, p.base).Some? {
      forall v | 0 <= v < |m'.hints| && m'.hints[v].Some? ensures m'.hints[v].value in m'.main {
        assert m'.hints[v] == FlushOne(m.hints[v], Find(m.main, p.base).value.id);
      }
    }
  }

  lemma {:induction false} StepKeepsInv(m: Mem, a: Action, m': Mem)
    requires Inv(m) && Legal(m, a) && Next(m, a, m')
    ensures Inv(m') && |m'.hints| == |m.hints|
    ensures forall x :: x in m.main && x.param.immutable ==> x in m'.main
  {
    match a
    case Register(r, toFallback) =>
      RegisterKeepsInv(m, r, toFallback, m');
      if !toFallback && !Blocked(m.main, r) {
        var k :| AddedAt(m.main, k, r, m'.main);
        AddedMembers(m.main, k, r, m'.main);
      }
    case Unregister(p) =>
      UnregisterKeepsInv(m, p, m');
      WithoutMembers(m.main, p.base);
    case Access(_, _) =>
  }

  predicate Initial(m: Mem) {
    m.main == [] && m.fallback == [] && forall v :: 0 <= v < |m.hints| ==> m.hints[v] == None
  }

  ghost predicate IsRun(run: seq<Mem>, actions: seq<Action>) {
    && |run| == |actions| + 1 && Initial(run[0])
    && forall i :: 0 <= i < |actions| ==> StepAt(run, actions, i)
  }

  ghost predicate StepAt(run: seq<Mem>, actions: seq<Action>, i: nat)
    requires i < |actions| && |run| == |actions| + 1
  {
    Legal(run[i], actions[i]) && Next(run[i], actions[i], run[i + 1])
  }

  lemma {:induction false} EveryRunKeepsInv(run: seq<Mem>, actions: seq<Action>, i: nat)
    requires IsRun(run, actions) && i < |run|
    ensures Inv(run[i])
  {
    if i > 0 {
      EveryRunKeepsInv(run, actions, i - 1);
      assert StepAt(run, actions, i - 1);
      StepKeepsInv(run[i - 1], actions[i - 1], run[i]);
    }
  }

  lemma {:induction false} ImmutableStays(run: seq<Mem>, actions: seq<Action>, i: nat, j: nat, x: Range)
    requires IsRun(run, actions) && i <= j < |run| && x in run[i].main && x.param.immutable
    ensures x in run[j].main
    decreases j
  {
    if i < j {
      ImmutableStays(run, actions, i, j - 1, x);
      EveryRunKeepsInv(run, actions, j - 1);
      assert StepAt(run, actions, j - 1);
      StepKeepsInv(run[j - 1], actions[j - 1], run[j]);
    }
  }

  /** In every run, what an immutable registration covers stays covered by it: unregistering it
      aborts. */
  lemma {:induction false} ImmutableIsForever(run: seq<Mem>, actions: seq<Action>, i: nat, j: nat, x: Range, addr: int)
    requires IsRun(run, actions) && i <= j < |run| && x in run[i].main && x.param.immutable && Covers(x, addr)
    ensures Resolve(run[j], addr) == Some(x)
  {
    ImmutableStays(run, actions, i, j, x);
    EveryRunKeepsInv(run, actions, j);
    FoundWhereLive(run[j].main, x, addr);
  }

  lemma {:induction false} FoundWhereLive(s: seq<Range>, x: Range, addr: int)
    requires Ordered(s) && x in s && Covers(x, addr)
    ensures Find(s, addr) == Some(x)
  {
    var k :| 0 <= k < |s| && s[k] == x;
    CoverIsUnique(s, k, addr);
  }

  /** A hint that covers the address is what the lookup would find. */
  lemma {:induction false} HintIsExact(m: Mem, v: nat, addr: int)
    requires Inv(m) && v < |m.hints| && m.hints[v].Some? && Covers(m.hints[v].value, addr)
    ensures Find(m.main, addr) == m.hints[v] && Resolve(m, addr) == m.hints[v]
  {
    FoundWhereLive(m.main, m.hints[v].value, addr);
  }

  lemma {:induction false} InsertRefines(t: Tree, r: Range)
    requires Ordered(Entries(t)) && Good(r) && Lookup(t, r.base).None?
    ensures Insert(t, r).Inserted? <==> !Blocked(Entries(t), r)
    ensures Registered(Entries(t), r, if Insert(t, r).Inserted? then Entries(Insert(t, r).tree) else Entries(t))
  {
    LookupIsFind(t, r.base);
    InsertIsExact(t, r);
    if Insert(t, r).Inserted? {
      AroundExcludesHit(Entries(t), Position(t, r), r);
      AddedKeepsOrder(Entries(t), Position(t, r), r, Entries(Insert(t, r).tree));
    }
  }

  datatype Status = Ok | Exists | NotFound | Aborted

  class Registry {
    var main: Tree
    var fallback: Tree
    const hints: array<Option<Range>>

    constructor (vcpus: nat)
      ensures Initial(Model()) && Inv(Model()) && fresh(hints) && hints.Length == vcpus
    {
      main, fallback := Leaf, Leaf;
      hints := new Option<Range>[vcpus](_ => None);
    }

    ghost function Model(): Mem
      reads this, hints
    {
      Mem(Entries(main), Entries(fallback), hints[..])
    }

    /** register_mem and register_mem_fallback. A range whose base is covered is dropped silently. */
    method RegisterMem(p: Param, id: nat, toFallback: bool) returns (status: Status)
      requires Inv(Model()) && Legal(Model(), Register(NewRange(id, p), toFallback))
      modifies this
      ensures Inv(Model()) && Next(old(Model()), Register(NewRange(id, p), toFallback), Model())
      ensures var s := old(if toFallback then Entries(fallback) else Entries(main));
        status == if Find(s, p.base).None? && Hit(s, NewRange(id, p)) then Exists else Ok
    {
      ghost var m := Model();
      var tree := if toFallback then fallback else main;
      var r := NewRange(id, p);
      status := Ok;
      LookupIsFind(tree, r.base);
      if Lookup(tree, r.base).None? {
        InsertRefines(tree, r);
        match Insert(tree, r) {
          case Inserted(t) => tree := t;
          case Overlap(_) => status := Exists;
        }
      }
      if toFallback { fallback := tree; } else { main := tree; }
      RegisterKeepsInv(m, r, toFallback, Model());
    }

    /** unregister_mem: drops the main-tree entry and every hint at it, or aborts on an assertion. */
    method UnregisterMem(p: Param) returns (status: Status)
      requires Inv(Model())
      modifies this, hints
      ensures Inv(Model())
      ensures status == (if old(Aborts(Entries(main), p)) then Aborted
                         else if old(Find(Entries(main), p.base)).Some? then Ok else NotFound)
      ensures if status == Aborted then Model() == old(Model()) else Next(old(Model()), Unregister(p), Model())
    {
      ghost var m := Model();
      LookupIsFind(main, p.base);
      RemoveIsWithout(main, p.base);
      match Lookup(main, p.base) {
        case None => status := NotFound;
        case Some(entry) =>
          if !Matches(entry, p) { return Aborted; }
          main := Remove(main, p.base);
          FlushHints(entry.id);
          status := Ok;
      }
      UnregisterKeepsInv(m, p, Model());
    }

    method FlushHints(id: nat)
      modifies hints
      ensures Flushed(old(hints[..]), id, hints[..])
    {
      for i := 0 to hints.Length
        invariant forall v :: 0 <= v < i ==> hints[v] == FlushOne(old(hints[v]), id)
        invariant forall v :: i <= v < hints.Length ==> hints[v] == old(hints[v])
      {
        if hints[i].Some? && hints[i].value.id == id { hints[i] := None; }
      }
    }

    /** access_memory: the entry whose handler is called, or none for ESRCH. The cached result is
        the one a lookup without a cache would give. */
    method AccessMemory(vcpu: nat, addr: nat) returns (entry: Option<Range>)
      requires Inv(Model()) && vcpu < hints.Length
      modifies hints
      ensures entry == Resolve(old(Model()), addr)
      ensures Inv(Model()) && Next(old(Model()), Access(vcpu, addr), Model())
    {
      ghost var m := Model();
      LookupIsFind(main, addr);
      LookupIsFind(fallback, addr);
      entry := None;
      if hints[vcpu].Some? && Covers(hints[vcpu].value, addr) {
        HintIsExact(m, vcpu, addr);
        entry := hints[vcpu];
      }
      if entry.None? {
        entry := Lookup(main, addr);
        if entry.Some? {
          hints[vcpu] := entry;
        } else {
          entry := Lookup(fallback, addr);
        }
      }
      StepKeepsInv(m, Access(vcpu, addr), Model());
    }
  }
}
