/** The list of memory ranges that the base address registers are checked against stands for the main
    MMIO tree (pci_emul.c, mem.c): registering and unregistering have the same outcome in both. */
module PciBarMmio {
  import opened Seqs
  import opened PciBar
  import Mmio

  ghost predicate Matches(e: Mmio.Range, c: Claim) {
    c.size > 0 && e.base == c.base && e.end == c.base + c.size - 1
  }

  ghost predicate HasClaim(e: Mmio.Range, s: seq<Mmio.Range>, mem: seq<Claim>) {
    e in s ==> exists c :: c in mem && Matches(e, c)
  }

  ghost predicate HasEntry(c: Claim, s: seq<Mmio.Range>, mem: seq<Claim>) {
    c in mem ==> exists e :: e in s && Matches(e, c)
  }

  /** The tree's entries and the list's ranges are the same. */
  ghost predicate Corresponds(s: seq<Mmio.Range>, mem: seq<Claim>) {
    && Mmio.Ordered(s) && Disjoint(mem)
    && (forall e :: HasClaim(e, s, mem))
    && (forall c :: HasEntry(c, s, mem))
  }

  /** An address is covered in both or in neither, by the same range. */
  lemma {:induction false} CoveredAlike(s: seq<Mmio.Range>, mem: seq<Claim>, a: int)
    requires Corresponds(s, mem)
    ensures Mmio.Find(s, a).Some? <==> Covering(mem, a) < |mem|
    ensures Mmio.Find(s, a).Some? ==> Matches(Mmio.Find(s, a).value, mem[Covering(mem, a)])
  {
    var k := Covering(mem, a);
    if Mmio.Find(s, a).Some? {
      var e := Mmio.Find(s, a).value;
      assert e in s && HasClaim(e, s, mem);
      var c :| c in mem && Matches(e, c);
      var j :| 0 <= j < |mem| && mem[j] == c;
      if k != j { NotBothCover(mem, j, k, a); }
    } else if k < |mem| {
      assert mem[k] in mem && HasEntry(mem[k], s, mem);
      var e :| e in s && Matches(e, mem[k]);
      Mmio.FoundWhereLive(s, e, a);
      assert false;
    }
  }

  lemma {:induction false} NotBothCover(mem: seq<Claim>, j: nat, k: nat, a: int)
    requires Disjoint(mem) && j < |mem| && k != j && mem[j].Covers(a)
    ensures k < |mem| ==> !mem[k].Covers(a)
  {
    if k < |mem| { OneOf(mem, j, k); }
  }

  /** A new range meets an entry exactly when it meets a range of the list. */
  lemma {:induction false} HitAlike(s: seq<Mmio.Range>, mem: seq<Claim>, r: Mmio.Range, c: Claim)
    requires Corresponds(s, mem) && Matches(r, c)
    ensures Mmio.Hit(s, r) <==> AnyOverlap(mem, c)
  {
    if Mmio.Hit(s, r) {
      var i :| 0 <= i < |s| && Mmio.Compare(r, s[i]) == 0;
      assert s[i] in s && HasClaim(s[i], s, mem);
      var x :| x in mem && Matches(s[i], x);
      var k :| 0 <= k < |mem| && mem[k] == x;
      assert mem[k].Overlaps(c);
    }
    if AnyOverlap(mem, c) {
      var k :| 0 <= k < |mem| && mem[k].Overlaps(c);
      assert mem[k] in mem && HasEntry(mem[k], s, mem);
      var e :| e in s && Matches(e, mem[k]);
      var i :| 0 <= i < |s| && s[i] == e;
      assert Mmio.Compare(r, s[i]) == 0;
    }
  }

  /** Registering a range: dropped because its base is covered, refused, or added, alike in both; and
      what is added keeps them the same. */
  lemma {:induction false} RegisterAlike(s: seq<Mmio.Range>, mem: seq<Claim>, r: Mmio.Range, c: Claim, k: nat,
                                        s': seq<Mmio.Range>)
    requires Corresponds(s, mem) && Matches(r, c) && Mmio.Good(r)
    ensures Mmio.Blocked(s, r) <==> Covering(mem, c.base) < |mem| || AnyOverlap(mem, c)
    ensures !Mmio.Blocked(s, r) && Mmio.AddedAt(s, k, r, s') && Mmio.Ordered(s') ==> Corresponds(s', mem + [c])
  {
    CoveredAlike(s, mem, c.base);
    HitAlike(s, mem, r, c);
    if !Mmio.Blocked(s, r) && Mmio.AddedAt(s, k, r, s') && Mmio.Ordered(s') {
      Mmio.AddedMembers(s, k, r, s');
      forall x ensures x in mem + [c] <==> x in mem || x == c {}
      forall e ensures HasClaim(e, s', mem + [c]) {
        if e in s' && e != r {
          assert HasClaim(e, s, mem);
          var x :| x in mem && Matches(e, x);
          assert x in mem + [c];
        }
      }
      forall x ensures HasEntry(x, s', mem + [c]) {
        assert r in s';
        if x in mem + [c] && x != c {
          assert HasEntry(x, s, mem);
          var e :| e in s && Matches(e, x);
          assert e in s';
        }
      }
    }
  }

  /** Unregistering removes the same range from both. */
  lemma {:induction false} UnregisterAlike(s: seq<Mmio.Range>, mem: seq<Claim>, a: int)
    requires Corresponds(s, mem) && Mmio.DistinctIds(s) && Mmio.Find(s, a).Some?
    ensures var k := Covering(mem, a); k < |mem| && Corresponds(Mmio.Without(s, a), mem[..k] + mem[k + 1..])
  {
    CoveredAlike(s, mem, a);
    var k := Covering(mem, a);
    var s', mem' := Mmio.Without(s, a), mem[..k] + mem[k + 1..];
    DropMembers(mem, k);
    Mmio.WithoutMembers(s, a);
    Mmio.WithoutKeepsOrder(s, a);
    forall e ensures HasClaim(e, s', mem') {
      if e in s' { LeftHasClaim(s, mem, a, e); }
    }
    forall c ensures HasEntry(c, s', mem') {
      if c in mem' { LeftHasEntry(s, mem, a, c); }
    }
  }

  lemma {:induction false} LeftHasClaim(s: seq<Mmio.Range>, mem: seq<Claim>, a: int, e: Mmio.Range)
    requires Corresponds(s, mem) && Mmio.DistinctIds(s) && Mmio.Find(s, a).Some? && e in Mmio.Without(s, a)
    ensures var k := Covering(mem, a); k < |mem| && HasClaim(e, Mmio.Without(s, a), mem[..k] + mem[k + 1..])
  {
    CoveredAlike(s, mem, a);
    var k := Covering(mem, a);
    DropMembers(mem, k);
    Mmio.WithoutMembers(s, a);
    Mmio.WithoutKeepsOrder(s, a);
    assert HasClaim(e, s, mem);
    var c :| c in mem && Matches(e, c);
    if c == mem[k] {
      Mmio.FoundWhereLive(Mmio.Without(s, a), e, a);
      assert false;
    }
  }

  lemma {:induction false} LeftHasEntry(s: seq<Mmio.Range>, mem: seq<Claim>, a: int, c: Claim)
    requires Corresponds(s, mem) && Mmio.DistinctIds(s) && Mmio.Find(s, a).Some?
    requires var k := Covering(mem, a); k < |mem| && c in mem[..k] + mem[k + 1..]
    ensures exists e :: e in Mmio.Without(s, a) && Matches(e, c)
  {
    var k := Covering(mem, a);
    DropMembers(mem, k);
    Mmio.WithoutMembers(s, a);
    assert HasEntry(c, s, mem);
    var e :| e in s && Matches(e, c);
    var j :| 0 <= j < |mem| && mem[j] == c;
    NotBothCover(mem, k, j, a);
    assert Mmio.Find(s, a) != Some(e);
  }
}
