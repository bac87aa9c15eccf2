/**
The address-space half of env_alloc and env_free: env_setup_vm makes a directory, and
env_free's nested loops give every page, table and directory back. The main lemma says
that env_free returns exactly what only this environment held, each frame once.
*/
module AddressSpaces {
  import opened Layout
  import opened Options
  import opened PhysicalMemory
  import opened PageTables

  // ---------------------------------------------------------------- env_setup_vm

  /** Allocate a page, copy the kernel directory into it, count it, and point its UVPT
      entry back at itself. */
  function SetupVm(p: Phys): Option<(Phys, nat)> {
    match PageAlloc(p)
    case None => None
    case Some((q, d)) =>
      if d < MAXFRAMES then
        Some((Store(IncRef(CopyPage(q, q.kdir, d), d), d, PDX_UVPT, MkPte(d, 5)).(roots := q.roots + {d}), d))
      else None
  }

  lemma SetupVmParts(p: Phys)
    requires Inv(p) && p.free != []
    ensures var d := p.free[0];
      && SetupVm(p).Some? && SetupVm(p).value.1 == d
      && var q := SetupVm(p).value.0;
      && d < |p.refs| && d !in p.pinned && d !in p.roots
      && q.roots == p.roots + {d} && q.pinned == p.pinned && q.kdir == p.kdir && |q.mem| == |p.mem|
      && q.free == p.free[1..] && q.refs == p.refs[d := 1]
      && (forall g: nat, k: nat :: k < NPTENTRIES && !(g == d && k == PDX_UVPT) ==>
            At(q, g, k) == if g == d then At(p, p.kdir, k) else At(p, g, k))
      && At(q, d, PDX_UVPT) == MkPte(d, 5)
  {
    var d := p.free[0];
    var a := ZeroPage(p, d).(free := p.free[1..]);
    var c := IncRef(CopyPage(a, a.kdir, d), d);
    if d in p.roots { FreeUnreferenced(p, d, Root(d)); }
    ZeroAt(p, d);
    assert forall g: nat, k: nat :: At(a, g, k) == At(ZeroPage(p, d), g, k);
    CopyAt(a, a.kdir, d);
    assert forall g: nat, k: nat :: At(c, g, k) == At(CopyPage(a, a.kdir, d), g, k);
    StoreAt(c, d, PDX_UVPT, MkPte(d, 5));
  }

  lemma UvptRights(d: nat)
    requires d < MAXFRAMES
    ensures HasU(MkPte(d, 5)) && !HasW(MkPte(d, 5))
  {
    assert MkPte(d, 5) == d * PGSIZE + 5;
  }

  lemma SetupVmTargets(p: Phys, q: Phys, d: nat)
    requires Inv(p) && d in p.free && d !in p.roots && q.roots == p.roots + {d}
    requires forall g: nat, k: nat :: k < NPTENTRIES && !(g == d && k == PDX_UVPT) ==>
      At(q, g, k) == if g == d then At(p, p.kdir, k) else At(p, g, k)
    ensures forall r :: IsRef(p.roots, r) ==> Tgt(q, r) == Tgt(p, r)
    ensures forall r :: IsRef(p.roots, r) && r.Pte? && Present(At(p, r.d, r.i)) ==> PteWord(q, r) == PteWord(p, r)
    ensures forall r :: IsRef(q.roots, r) && r.d == d ==>
      (if r.Root? then Tgt(q, r) == d else Tgt(q, r) == -1 && !Present(At(q, r.d, r.i)))
  {
    forall r | IsRef(p.roots, r)
      ensures Tgt(q, r) == Tgt(p, r)
      ensures r.Pte? && Present(At(p, r.d, r.i)) ==> PteWord(q, r) == PteWord(p, r)
    {
      FreeUnreferenced(p, d, Root(r.d));
      if !r.Root? && Present(At(p, r.d, r.i)) {
        FreeUnreferenced(p, d, Pde(r.d, r.i));
      }
    }
  }

  lemma SetupVmInv(p: Phys)
    requires Inv(p) && p.free != []
    ensures var (q, d) := SetupVm(p).value; Inv(q) && d !in p.roots && q.roots == p.roots + {d}
  {
    var d := p.free[0];
    var q := SetupVm(p).value.0;
    SetupVmParts(p);
    SetupVmTargets(p, q, d);
    forall r | IsRef(p.roots, r) ensures Tgt(p, r) != d { FreeUnreferenced(p, d, r); }
    forall r | IsRef(q.roots, r) ensures r.d == d || IsRef(p.roots, r) {}
    SetupVmCounts(p, q, d);
    assert d != p.kdir;
  }

  lemma SetupVmMappings(p: Phys)
    requires Inv(p) && p.free != []
    ensures Mappings(SetupVm(p).value.0) == Mappings(p)
  {
    var d := p.free[0];
    var q := SetupVm(p).value.0;
    SetupVmParts(p);
    SetupVmTargets(p, q, d);
    MappingsMembers(p);
    forall r ensures r in Mappings(p) <==> IsRef(q.roots, r) && r.Pte? && Tgt(q, r) != -1 {
      assert IsRef(q.roots, r) <==> IsRef(p.roots, r) || (r.d == d && IsRef({d}, r));
    }
    MappingsEqual(q, Mappings(p));
  }

  /** A new environment starts with an empty user address space, disturbs nobody else's, and its
      directory is counted once. Above UTOP it has what the kernel directory has, but for the entry
      at UVPT, which shows it its own directory to read. */
  lemma SetupVmCorrect(p: Phys)
    requires Inv(p)
    ensures SetupVm(p).None? <==> p.free == []
    ensures SetupVm(p).Some? ==>
      var (q, d) := SetupVm(p).value;
      && Inv(q) && d !in p.roots && q.roots == p.roots + {d} && Mappings(q) == Mappings(p)
      && (forall k: nat :: NUSERPDE <= k < NPTENTRIES && k != PDX_UVPT ==> At(q, d, k) == At(p, p.kdir, k))
      && var w := At(q, d, PDX_UVPT); Present(w) && PteFrame(w) == d && HasU(w) && !HasW(w)
  {
    if p.free != [] {
      SetupVmParts(p);
      UvptRights(p.free[0]);
      SetupVmInv(p);
      SetupVmMappings(p);
    }
  }

  lemma SetupVmCounts(p: Phys, q: Phys, d: nat)
    requires Inv(p) && d < |p.refs| && d !in p.pinned && d in p.free && d !in p.roots && q.roots == p.roots + {d}
    requires q.pinned == p.pinned && q.refs == p.refs[d := 1]
    requires forall r :: IsRef(p.roots, r) ==> Tgt(q, r) == Tgt(p, r) != d
    requires forall r :: IsRef(q.roots, r) && r.d == d ==> Tgt(q, r) == if r.Root? then d else -1
    ensures Exact(q)
  {
    forall f | 0 <= f < |q.refs| && f !in q.pinned
      ensures q.refs[f] == |RefsTo(q, f)|
    {
      RefsToMembers(p, f);
      RefsToMembers(q, f);
      if f == d {
        assert RefsTo(q, f) == {Root(d)};
      } else {
        assert RefsTo(q, f) == RefsTo(p, f);
      }
    }
  }

  // ---------------------------------------------------------------- env_free

  /** The inner loop of env_free after ptes 0..n of table i. */
  function ClearPtes(p: Phys, d: nat, i: nat, n: nat): Phys {
    if n == 0 then p else Remove(ClearPtes(p, d, i, n - 1), d, i, n - 1)
  }

  /** One pass of the outer loop: empty the table, clear its entry, drop it. */
  function FreeTable(p: Phys, d: nat, i: nat): Phys {
    if !Present(At(p, d, i)) then p
    else PageDecref(Store(ClearPtes(p, d, i, NPTENTRIES), d, i, 0), PteFrame(At(p, d, i)))
  }

  function FreeTables(p: Phys, d: nat, n: nat): Phys {
    if n == 0 then p else FreeTable(FreeTables(p, d, n - 1), d, n - 1)
  }

  /** All of env_free's memory work: the tables, then the directory. */
  function FreeVm(p: Phys, d: nat): Phys {
    PageDecref(FreeTables(p, d, NUSERPDE).(roots := p.roots - {d}), d)
  }

  /** q comes from p by dropping references: counts only fall, and the free list has gained
      exactly the frames whose count fell to zero. */
  ghost predicate Released(p: Phys, q: Phys) {
    && SameSize(p, q)
    && (forall f: nat :: f < |p.refs| ==> q.refs[f] <= p.refs[f])
    && (forall f: nat :: f < |p.refs| ==> (f in q.free <==> f in p.free || (p.refs[f] > 0 && q.refs[f] == 0)))
  }

  ghost predicate SameSize(p: Phys, q: Phys) {
    |q.refs| == |p.refs| && q.pinned == p.pinned && q.kdir == p.kdir && |q.mem| == |p.mem|
  }

  lemma ReleasedTrans(p: Phys, q: Phys, r: Phys)
    requires Released(p, q) && Released(q, r)
    ensures Released(p, r)
  {}

  lemma DecrefReleases(p: Phys, q: Phys, f: nat)
    requires SameSize(p, q) && f < |p.refs| && p.refs[f] > 0 && q.refs == p.refs[f := p.refs[f] - 1]
    requires q.free == if p.refs[f] == 1 then [f] + p.free else p.free
    requires f !in p.free
    ensures Released(p, q)
  {}

  lemma RemoveReleases(p: Phys, d: nat, i: nat, j: nat)
    requires Inv(p) && IsRef(p.roots, Pte(d, i, j))
    ensures Released(p, Remove(p, d, i, j))
  {
    if Tgt(p, Pte(d, i, j)) != -1 {
      RemoveParts(p, d, i, j, Tgt(p, Pte(d, i, j)));
      LiveCounted(p, Pte(d, i, j));
      DecrefReleases(p, Remove(p, d, i, j), Tgt(p, Pte(d, i, j)));
    }
  }

  ghost predicate ClearedUpTo(p: Phys, q: Phys, d: nat, i: nat, n: nat) {
    && Inv(q) && q.roots == p.roots && Released(p, q)
    && (forall r :: IsRef(p.roots, r) && !(r.Pte? && r.d == d && r.i == i && r.j < n) ==> Tgt(q, r) == Tgt(p, r))
    && (forall j: nat :: j < n ==> Tgt(q, Pte(d, i, j)) == -1)
    && (forall e: nat, k: nat :: e in p.roots && k < NPTENTRIES ==> At(q, e, k) == At(p, e, k))
  }

  lemma {:induction false} ClearPtesCorrect(p: Phys, d: nat, i: nat, n: nat)
    requires Inv(p) && IsRef(p.roots, Pde(d, i)) && n <= NPTENTRIES
    ensures ClearedUpTo(p, ClearPtes(p, d, i, n), d, i, n)
  {
    if n == 0 {
      ClearNone(p, d, i);
    } else {
      ClearPtesCorrect(p, d, i, n - 1);
      ClearStep(p, ClearPtes(p, d, i, n - 1), d, i, n - 1);
    }
  }

  lemma ClearNone(p: Phys, d: nat, i: nat)
    requires Inv(p)
    ensures ClearedUpTo(p, p, d, i, 0)
  {}

  lemma ClearStep(p: Phys, q: Phys, d: nat, i: nat, j: nat)
    requires Inv(p) && IsRef(p.roots, Pte(d, i, j)) && ClearedUpTo(p, q, d, i, j)
    ensures ClearedUpTo(p, Remove(q, d, i, j), d, i, j + 1)
  {
    var s := Remove(q, d, i, j);
    RemoveCorrect(q, d, i, j);
    RemoveReleases(q, d, i, j);
    ReleasedTrans(p, q, s);
    forall k: nat | k < j ensures Tgt(s, Pte(d, i, k)) == -1 {
      assert IsRef(p.roots, Pte(d, i, k));
    }
  }

  /** Dropping an emptied table. */
  lemma DropTable(p: Phys, d: nat, i: nat)
    requires Inv(p) && IsRef(p.roots, Pde(d, i)) && Present(At(p, d, i))
    requires forall j: nat :: j < NPTENTRIES ==> Tgt(p, Pte(d, i, j)) == -1
    ensures var q := PageDecref(Store(p, d, i, 0), PteFrame(At(p, d, i)));
      && Inv(q) && q.roots == p.roots && Released(p, q)
      && SameTargetsBut(p, q, Pde(d, i)) && Tgt(q, Pde(d, i)) == -1
      && Mappings(q) == Mappings(p) - {Pde(d, i)}
  {
    var t := PteFrame(At(p, d, i));
    var s := Store(p, d, i, 0);
    var q := PageDecref(s, t);
    assert Tgt(p, Pde(d, i)) == t;
    LiveCounted(p, Pde(d, i));
    DropTableTargets(p, d, i);
    SameMemory(s, q);
    assert q.refs == p.refs[t := p.refs[t] - 1];
    assert q.free == if p.refs[t] == 1 then [t] + p.free else p.free;
    FreePush(p, q, t);
    DecrefReleases(p, q, t);
    assert KernelDirEmpty(q);
    EntryStep(p, q, Pde(d, i));
    MappingsStep(p, q, Pde(d, i));
  }

  lemma DropTableTargets(p: Phys, d: nat, i: nat)
    requires Inv(p) && IsRef(p.roots, Pde(d, i)) && Present(At(p, d, i))
    requires forall j: nat :: j < NPTENTRIES ==> Tgt(p, Pte(d, i, j)) == -1
    ensures var s := Store(p, d, i, 0);
      && SameTargetsBut(p, s, Pde(d, i)) && Tgt(s, Pde(d, i)) == -1 && Clean(s) && KernelDirEmpty(s)
      && (forall r :: IsRef(p.roots, r) && r.Pte? && Tgt(p, r) != -1 ==> PteWord(s, r) == PteWord(p, r))
  {
    var s := Store(p, d, i, 0);
    assert IsRef(p.roots, Root(d)) && Tgt(p, Root(d)) == d;
    StoreAt(p, d, i, 0);
    forall r | IsRef(p.roots, r)
      ensures r != Pde(d, i) ==> Tgt(s, r) == Tgt(p, r)
      ensures r.Pte? && Present(At(s, r.d, r.i)) ==> Present(At(p, r.d, r.i)) && PteWord(s, r) == PteWord(p, r)
      ensures r.Pte? && Tgt(p, r) != -1 ==> PteWord(s, r) == PteWord(p, r)
    {
      if r.Pte? && Present(At(p, r.d, r.i)) {
        assert IsRef(p.roots, Pde(r.d, r.i)) && Tgt(p, Pde(r.d, r.i)) == PteFrame(At(p, r.d, r.i));
      }
    }
  }

  /** Everything of d's below entry n is gone and the rest is as it was. */
  ghost predicate FreedUpTo(p: Phys, q: Phys, d: nat, n: nat) {
    && Inv(q) && q.roots == p.roots && Released(p, q)
    && (forall r :: IsRef(p.roots, r) && (r.d != d || r.Root? || r.i >= n) ==> Tgt(q, r) == Tgt(p, r))
    && (forall r :: IsRef(p.roots, r) && r.d == d && !r.Root? && r.i < n ==> Tgt(q, r) == -1)
  }

  lemma FreeTableCorrect(p: Phys, q: Phys, d: nat, i: nat)
    requires Inv(p) && IsRef(p.roots, Pde(d, i)) && FreedUpTo(p, q, d, i)
    ensures FreedUpTo(p, FreeTable(q, d, i), d, i + 1)
  {
    if Present(At(q, d, i)) {
      var c := ClearPtes(q, d, i, NPTENTRIES);
      ClearPtesCorrect(q, d, i, NPTENTRIES);
      assert IsRef(q.roots, Root(d)) && d in q.roots;
      assert At(c, d, i) == At(q, d, i);
      DropTable(c, d, i);
      ReleasedTrans(q, c, FreeTable(q, d, i));
      ReleasedTrans(p, q, FreeTable(q, d, i));
      FreeTableTargets(p, q, c, FreeTable(q, d, i), d, i);
    } else {
      assert Tgt(q, Pde(d, i)) == -1;
    }
  }

  lemma FreeTableTargets(p: Phys, q: Phys, c: Phys, s: Phys, d: nat, i: nat)
    requires FreedUpTo(p, q, d, i) && ClearedUpTo(q, c, d, i, NPTENTRIES)
    requires s.roots == c.roots && SameTargetsBut(c, s, Pde(d, i)) && Tgt(s, Pde(d, i)) == -1
    ensures forall r :: IsRef(p.roots, r) && (r.d != d || r.Root? || r.i >= i + 1) ==> Tgt(s, r) == Tgt(p, r)
    ensures forall r :: IsRef(p.roots, r) && r.d == d && !r.Root? && r.i < i + 1 ==> Tgt(s, r) == -1
  {}

  lemma {:induction false} FreeTablesCorrect(p: Phys, d: nat, n: nat)
    requires Inv(p) && d in p.roots && n <= NUSERPDE
    ensures FreedUpTo(p, FreeTables(p, d, n), d, n)
  {
    if n > 0 {
      FreeTablesCorrect(p, d, n - 1);
      FreeTableCorrect(p, FreeTables(p, d, n - 1), d, n - 1);
    }
  }

  /** The references an environment holds on frame f. */
  ghost function Share(p: Phys, d: nat, f: int): set<Ref> {
    set r | r in RefsTo(p, f) && r.d == d
  }

  lemma DropRoot(q: Phys, d: nat)
    requires Inv(q) && d in q.roots
    requires forall r :: IsRef(q.roots, r) && r.d == d && !r.Root? ==> Tgt(q, r) == -1
    ensures var s := PageDecref(q.(roots := q.roots - {d}), d);
      && Inv(s) && s.roots == q.roots - {d} && Released(q, s)
      && (forall r :: IsRef(s.roots, r) ==> Tgt(s, r) == Tgt(q, r) && Tgt(q, r) != d)
      && (forall r :: IsRef(s.roots, r) && r.Pte? ==> PteWord(s, r) == PteWord(q, r))
  {
    var s := PageDecref(q.(roots := q.roots - {d}), d);
    assert IsRef(q.roots, Root(d)) && Tgt(q, Root(d)) == d;
    RefsToMembers(q, d);
    assert RefsTo(q, d) == {Root(d)};
    LiveCounted(q, Root(d));
    assert s.refs == q.refs[d := 0] && s.free == [d] + q.free;
    DecrefReleases(q, s, d);
    SameMemory(q, s);
    forall r | IsRef(s.roots, r) ensures IsRef(q.roots, r) && Tgt(q, r) != d {
      assert IsRef(q.roots, r) && r != Root(d);
    }
    DropRootCounts(q, s, d);
  }

  lemma DropRootCounts(q: Phys, s: Phys, d: nat)
    requires Exact(q) && d in q.roots && d < |q.refs| && s.roots == q.roots - {d} && s.pinned == q.pinned
    requires s.refs == q.refs[d := 0]
    requires forall r :: IsRef(q.roots, r) && r.d == d && !r.Root? ==> Tgt(q, r) == -1
    requires forall r :: IsRef(s.roots, r) ==> Tgt(s, r) == Tgt(q, r) != d
    ensures Exact(s)
  {
    forall f | 0 <= f < |s.refs| && f !in s.pinned
      ensures s.refs[f] == |RefsTo(s, f)|
    {
      RefsToMembers(q, f);
      RefsToMembers(s, f);
      if f == d {
        assert RefsTo(s, f) == {};
      } else {
        forall r | r in RefsTo(q, f) ensures r in RefsTo(s, f) {}
        assert RefsTo(s, f) == RefsTo(q, f);
      }
    }
  }

  /** The part of the map that belongs to other directories. */
  ghost function Others(m: map<Ref, Word>, d: nat): map<Ref, Word> {
    map r | r in m && r.d != d :: m[r]
  }

  lemma OthersDrop(m: map<Ref, Word>, r: Ref, d: nat)
    requires r.d == d
    ensures Others(m - {r}, d) == Others(m, d)
  {}

  lemma RemoveOthers(q: Phys, d: nat, i: nat, j: nat)
    requires Inv(q) && IsRef(q.roots, Pte(d, i, j))
    ensures Others(Mappings(Remove(q, d, i, j)), d) == Others(Mappings(q), d)
  {
    RemoveCorrect(q, d, i, j);
    OthersDrop(Mappings(q), Pte(d, i, j), d);
  }

  lemma ClearPtesInv(p: Phys, d: nat, i: nat, n: nat)
    requires Inv(p) && IsRef(p.roots, Pde(d, i)) && n <= NPTENTRIES
    ensures Inv(ClearPtes(p, d, i, n)) && ClearPtes(p, d, i, n).roots == p.roots
  {
    ClearPtesCorrect(p, d, i, n);
  }

  lemma {:induction false} Unchanging<T>(f: nat -> T, n: nat)
    requires forall k: nat :: k < n ==> f(k + 1) == f(k)
    ensures f(n) == f(0)
  {
    if n > 0 { Unchanging(f, n - 1); assert f((n - 1) + 1) == f(n - 1); }
  }

  lemma ClearPtesOthers(p: Phys, d: nat, i: nat, n: nat)
    requires Inv(p) && IsRef(p.roots, Pde(d, i)) && n <= NPTENTRIES
    ensures Others(Mappings(ClearPtes(p, d, i, n)), d) == Others(Mappings(p), d)
  {
    var f := (k: nat) => Others(Mappings(ClearPtes(p, d, i, k)), d);
    forall k: nat | k < n ensures f(k + 1) == f(k) { ClearPtesOthersStep(p, d, i, k); }
    Unchanging(f, n);
  }

  lemma ClearPtesOthersStep(p: Phys, d: nat, i: nat, n: nat)
    requires Inv(p) && IsRef(p.roots, Pde(d, i)) && n < NPTENTRIES
    ensures Others(Mappings(ClearPtes(p, d, i, n + 1)), d) == Others(Mappings(ClearPtes(p, d, i, n)), d)
  {
    ClearPtesInv(p, d, i, n);
    RemoveOthers(ClearPtes(p, d, i, n), d, i, n);
  }

  lemma FreeTableOthers(q: Phys, d: nat, i: nat)
    requires Inv(q) && IsRef(q.roots, Pde(d, i))
    ensures Others(Mappings(FreeTable(q, d, i)), d) == Others(Mappings(q), d)
  {
    if Present(At(q, d, i)) {
      var c := ClearPtes(q, d, i, NPTENTRIES);
      ClearPtesOthers(q, d, i, NPTENTRIES);
      ClearPtesCorrect(q, d, i, NPTENTRIES);
      assert IsRef(q.roots, Root(d)) && d in q.roots;
      assert At(c, d, i) == At(q, d, i);
      DropTable(c, d, i);
      OthersDrop(Mappings(c), Pde(d, i), d);
    }
  }

  lemma {:induction false} FreeTablesOthers(p: Phys, d: nat, n: nat)
    requires Inv(p) && d in p.roots && n <= NUSERPDE
    ensures Others(Mappings(FreeTables(p, d, n)), d) == Others(Mappings(p), d)
  {
    if n > 0 {
      FreeTablesOthers(p, d, n - 1);
      FreeTablesCorrect(p, d, n - 1);
      FreeTableOthers(FreeTables(p, d, n - 1), d, n - 1);
    }
  }

  lemma DropRootMappings(q: Phys, s: Phys, d: nat)
    requires s.roots == q.roots - {d}
    requires forall r :: IsRef(s.roots, r) ==> Tgt(s, r) == Tgt(q, r)
    requires forall r :: IsRef(s.roots, r) && r.Pte? ==> PteWord(s, r) == PteWord(q, r)
    ensures Mappings(s) == Others(Mappings(q), d)
  {
    MappingsMembers(q);
    assert forall r :: IsRef(s.roots, r) <==> IsRef(q.roots, r) && r.d != d;
    MappingsEqual(s, Others(Mappings(q), d));
  }

  /** env_free: the directory is gone; every other environment's entries are untouched; each
      count has dropped by this environment's share; and the frames added to the free list
      (which has no duplicates, by Inv) are exactly those that nobody else references. */
  lemma FreeVmCorrect(p: Phys, d: nat)
    requires Inv(p) && d in p.roots
    ensures var q := FreeVm(p, d);
      && Inv(q) && SameSize(p, q) && q.roots == p.roots - {d} && Mappings(q) == Others(Mappings(p), d)
      && (forall r :: IsRef(q.roots, r) ==> Tgt(q, r) == Tgt(p, r))
      && (forall f: nat :: f < |p.refs| && f !in p.pinned ==>
            q.refs[f] == p.refs[f] - |Share(p, d, f)|
            && (f in q.free <==> f in p.free || (RefsTo(p, f) != {} && Share(p, d, f) == RefsTo(p, f))))
  {
    var t := FreeTables(p, d, NUSERPDE);
    var q := FreeVm(p, d);
    FreeTablesCorrect(p, d, NUSERPDE);
    DropRoot(t, d);
    FreeTablesOthers(p, d, NUSERPDE);
    DropRootMappings(t, q, d);
    ReleasedTrans(p, t, q);
    assert Released(p, q);
    forall f: nat | f < |p.refs| && f !in p.pinned
      ensures q.refs[f] == p.refs[f] - |Share(p, d, f)|
      ensures f in q.free <==> f in p.free || (RefsTo(p, f) != {} && Share(p, d, f) == RefsTo(p, f))
    {
      ShareOf(p, q, d, f);
    }
  }

  lemma ShareOf(p: Phys, q: Phys, d: nat, f: nat)
    requires Exact(p) && Exact(q) && Released(p, q) && f < |p.refs| && f !in p.pinned
    requires q.roots == p.roots - {d} && forall r :: IsRef(q.roots, r) ==> Tgt(q, r) == Tgt(p, r)
    ensures q.refs[f] == p.refs[f] - |Share(p, d, f)|
    ensures f in q.free <==> f in p.free || (RefsTo(p, f) != {} && Share(p, d, f) == RefsTo(p, f))
  {
    RefsToMembers(p, f);
    RefsToMembers(q, f);
    assert RefsTo(q, f) == RefsTo(p, f) - Share(p, d, f);
    assert Share(p, d, f) <= RefsTo(p, f);
  }
}
