/**
What the system calls on pages take for granted beside the invariant: page 0 is out of the
allocator with a count of 1, and envs[] is mapped at UTOP in every directory. Each operation that
keeps the invariant keeps both, so calls follow one another.
*/
module KernelPages {
  import opened Layout
  import opened Options
  import opened PhysicalMemory
  import opened PageTables
  import opened Lab4Paging
  import opened AddressSpaces
  import opened Pmap
  import opened PageSyscalls
  import opened Words

  ghost predicate KernelFacts(p: Phys) { PageZeroReserved(p) && UenvsMapped(p) }

  /** The pinned frames have their contents and counts, and directories their entry for UTOP. */
  ghost predicate Kept(p: Phys, q: Phys) {
    && q.pinned == p.pinned && q.kdir == p.kdir && |q.refs| == |p.refs|
    && (forall f: nat :: f in p.pinned && f < |p.refs| ==> q.refs[f] == p.refs[f])
    && (forall f: nat, k: nat :: f in p.pinned && k < NPTENTRIES ==> At(q, f, k) == At(p, f, k))
    && (forall d: nat :: d in p.roots && d in q.roots ==> At(q, d, NUSERPDE) == At(p, d, NUSERPDE))
  }

  lemma KeptFacts(p: Phys, q: Phys)
    requires KernelFacts(p) && Kept(p, q) && q.roots <= p.roots && KernelDir(p)
    ensures KernelFacts(q)
  {
    forall d | d in q.roots || d == q.kdir
      ensures Present(At(q, d, NUSERPDE)) && UenvsTable(q, PteFrame(At(q, d, NUSERPDE)))
    {
      assert At(q, d, NUSERPDE) == At(p, d, NUSERPDE);
      assert UenvsTable(p, PteFrame(At(p, d, NUSERPDE)));
    }
  }

  lemma KeptTrans(p: Phys, q: Phys, r: Phys)
    requires Kept(p, q) && Kept(q, r) && r.roots <= q.roots <= p.roots
    ensures Kept(p, r)
  {}

  // ---------------------------------------------------------------- single writes

  /** A store into a managed frame that is no directory, or into a user entry of one. */
  lemma StoreKept(p: Phys, f: nat, k: nat, w: Word)
    requires Sized(p) && f < |p.refs| && k < NPTENTRIES && f !in p.pinned && (f in p.roots ==> k != NUSERPDE)
    ensures Kept(p, Store(p, f, k, w))
  {
    StoreAt(p, f, k, w);
  }

  lemma CountKept(p: Phys, q: Phys, f: nat)
    requires q.mem == p.mem && q.roots == p.roots && q.pinned == p.pinned && q.kdir == p.kdir
    requires |q.refs| == |p.refs| && f !in p.pinned
    requires forall g: nat :: g < |p.refs| && g != f ==> q.refs[g] == p.refs[g]
    ensures Kept(p, q)
  {
    SameMemory(p, q);
  }

  /** Store, then count: what page_insert and page_remove consist of. */
  lemma WriteKept(p: Phys, q: Phys, t: nat, k: nat, w: Word, f: nat)
    requires Sized(p) && t < |p.refs| && k < NPTENTRIES && t !in p.pinned && (t in p.roots ==> k != NUSERPDE)
    requires q.mem == Store(p, t, k, w).mem && q.roots == p.roots && q.pinned == p.pinned && q.kdir == p.kdir
    requires |q.refs| == |p.refs| && f !in p.pinned
    requires forall g: nat :: g < |p.refs| && g != f ==> q.refs[g] == p.refs[g]
    ensures Kept(p, q)
  {
    StoreKept(p, t, k, w);
    CountKept(Store(p, t, k, w), q, f);
    KeptTrans(p, Store(p, t, k, w), q);
  }

  lemma TableManaged(p: Phys, d: nat, i: nat)
    requires Inv(p) && IsRef(p.roots, Pde(d, i)) && Present(At(p, d, i))
    ensures var t := PteFrame(At(p, d, i)); t < |p.refs| && t !in p.pinned && t !in p.roots
  {
    assert Tgt(p, Pde(d, i)) == PteFrame(At(p, d, i));
    if Tgt(p, Pde(d, i)) in p.roots {
      assert IsRef(p.roots, Root(PteFrame(At(p, d, i))));
    }
  }

  lemma RootManaged(p: Phys, d: nat)
    requires Inv(p) && d in p.roots
    ensures d < |p.refs| && d !in p.pinned
  {
    assert IsRef(p.roots, Root(d)) && Tgt(p, Root(d)) == d;
  }

  // ---------------------------------------------------------------- the operations

  lemma AllocKept(p: Phys)
    requires Inv(p) && p.free != []
    ensures Kept(p, PageAlloc(p).value.0)
  {
    var f := p.free[0];
    var q := PageAlloc(p).value.0;
    ZeroAt(p, f);
    SameMemory(ZeroPage(p, f), q);
    forall d: nat | d in p.roots ensures d != f { FreeUnreferenced(p, f, Root(d)); }
  }

  lemma WalkKept(p: Phys, d: nat, i: nat)
    requires Inv(p) && IsRef(p.roots, Pde(d, i))
    ensures Kept(p, WalkCreate(p, d, i).0)
  {
    if !Present(At(p, d, i)) && p.free != [] {
      WalkCreateParts(p, d, i);
      RootManaged(p, d);
      forall e: nat | e in p.roots ensures e != p.free[0] { FreeUnreferenced(p, p.free[0], Root(e)); }
    }
  }

  lemma RemoveKept(p: Phys, d: nat, i: nat, j: nat)
    requires Inv(p) && IsRef(p.roots, Pte(d, i, j))
    ensures Kept(p, Remove(p, d, i, j))
  {
    if Tgt(p, Pte(d, i, j)) != -1 {
      RemoveParts(p, d, i, j, Tgt(p, Pte(d, i, j)));
      TableManaged(p, d, i);
      WriteKept(p, Remove(p, d, i, j), PteFrame(At(p, d, i)), j, 0, Tgt(p, Pte(d, i, j)));
    }
  }

  lemma EmptiedKept(p: Phys, d: nat, i: nat, j: nat)
    requires Inv(p) && IsRef(p.roots, Pte(d, i, j))
    ensures Kept(p, Emptied(p, d, i, j))
  {
    if !Present(At(p, d, i)) {
      WalkKept(p, d, i);
    } else if Tgt(p, Pte(d, i, j)) != -1 {
      RemoveAgree(p, d, i, j);
      RemoveKept(p, d, i, j);
    }
  }

  /** Whatever word is stored, the page counted for it being a managed one. */
  lemma InsertKept(p: Phys, d: nat, i: nat, j: nat, f: nat, w: Word)
    requires Inv(p) && IsRef(p.roots, Pte(d, i, j)) && f !in p.pinned
    ensures Kept(p, InsertWord4(p, d, i, j, f, w).0)
  {
    if Present(At(p, d, i)) || p.free != [] {
      var s := Emptied(p, d, i, j);
      EmptiedOk(p, d, i, j);
      EmptiedKept(p, d, i, j);
      EmptiedPinned(p, d, i, j);
      InsertParts(p, d, i, j, f, w);
      TableManaged(s, d, i);
      WriteKept(s, InsertWord4(p, d, i, j, f, w).0, PteFrame(At(s, d, i)), j, w, f);
      KeptTrans(p, s, InsertWord4(p, d, i, j, f, w).0);
    } else {
      WalkCreateCorrect(p, d, i);
    }
  }

  lemma AllocCallKept(p: Phys, d: nat, i: nat, j: nat, perm: Word)
    requires Inv(p) && IsRef(p.roots, Pte(d, i, j))
    ensures Kept(p, Lab4Paging.SysPageAlloc(p, d, i, j, perm).0)
  {
    if p.free != [] {
      var (q, f) := PageAlloc(p).value;
      AllocKeeps(p);
      AllocKept(p);
      var r := InsertWord4(q, d, i, j, f, EntryWord(f, perm)).0;
      InsertKept(q, d, i, j, f, EntryWord(f, perm));
      InsertedRoots(q, d, i, j, f, perm);
      KeptTrans(p, q, r);
      CountKept(r, PageFree(r, f), f);
      KeptTrans(p, r, PageFree(r, f));
    }
  }

  lemma InsertedRoots(q: Phys, d: nat, i: nat, j: nat, f: nat, perm: Word)
    requires Inv(q) && IsRef(q.roots, Pte(d, i, j)) && f < MAXFRAMES
    ensures InsertWord4(q, d, i, j, f, EntryWord(f, perm)).0.roots == q.roots
  {
    EntryNamesExact(f, perm);
    InsertedWord(q, d, i, j, f, EntryWord(f, perm));
  }

  lemma RemoveNextKept(p: Phys, c: Phys, d: nat, i: nat, j: nat)
    requires Inv(c) && c.roots == p.roots && IsRef(c.roots, Pte(d, i, j)) && Kept(p, c)
    ensures Kept(p, Remove(c, d, i, j))
  {
    RemoveKept(c, d, i, j);
    RemoveCorrect(c, d, i, j);
    KeptTrans(p, c, Remove(c, d, i, j));
  }

  /** The states after each turn of env_free's inner loop. */
  lemma {:induction false} TurnsKept(s: seq<Phys>, d: nat, i: nat, n: nat)
    requires n < |s| && n <= NPTENTRIES && IsRef(s[0].roots, Pde(d, i))
    requires forall k :: 0 <= k <= n ==> Inv(s[k]) && s[k].roots == s[0].roots
    requires forall k :: 0 < k <= n ==> s[k] == Remove(s[k - 1], d, i, k - 1)
    ensures Kept(s[0], s[n])
  {
    if n > 0 {
      TurnsKept(s, d, i, n - 1);
      RemoveNextKept(s[0], s[n - 1], d, i, n - 1);
    }
  }

  lemma ClearKept(p: Phys, d: nat, i: nat, n: nat)
    requires Inv(p) && IsRef(p.roots, Pde(d, i)) && n <= NPTENTRIES
    ensures Kept(p, ClearPtes(p, d, i, n))
  {
    var s := seq(n + 1, k requires 0 <= k => ClearPtes(p, d, i, k));
    forall k | 0 <= k <= n ensures Inv(s[k]) && s[k].roots == s[0].roots { ClearPtesInv(p, d, i, k); }
    TurnsKept(s, d, i, n);
  }

  lemma TableKept(p: Phys, d: nat, i: nat)
    requires Inv(p) && IsRef(p.roots, Pde(d, i))
    ensures Kept(p, FreeTable(p, d, i))
  {
    if Present(At(p, d, i)) {
      var c := ClearPtes(p, d, i, NPTENTRIES);
      ClearKept(p, d, i, NPTENTRIES);
      ClearPtesCorrect(p, d, i, NPTENTRIES);
      RootManaged(c, d);
      TableManaged(p, d, i);
      WriteKept(c, FreeTable(p, d, i), d, i, 0, PteFrame(At(p, d, i)));
      KeptTrans(p, c, FreeTable(p, d, i));
    }
  }

  lemma TableNextKept(p: Phys, q: Phys, d: nat, i: nat)
    requires Inv(q) && q.roots == p.roots && IsRef(q.roots, Pde(d, i)) && Kept(p, q)
    requires FreeTable(q, d, i).roots == q.roots
    ensures Kept(p, FreeTable(q, d, i))
  {
    TableKept(q, d, i);
    KeptTrans(p, q, FreeTable(q, d, i));
  }

  lemma TablesInv(p: Phys, d: nat, n: nat)
    requires Inv(p) && d in p.roots && n <= NUSERPDE
    ensures Inv(FreeTables(p, d, n)) && FreeTables(p, d, n).roots == p.roots
  {
    FreeTablesCorrect(p, d, n);
  }

  lemma {:induction false} TablesKept(p: Phys, d: nat, n: nat)
    requires Inv(p) && d in p.roots && n <= NUSERPDE
    ensures Kept(p, FreeTables(p, d, n))
  {
    if n > 0 {
      TablesKept(p, d, n - 1);
      TablesInv(p, d, n - 1);
      TablesInv(p, d, n);
      TableNextKept(p, FreeTables(p, d, n - 1), d, n - 1);
    }
  }

  lemma FreeVmKept(p: Phys, d: nat)
    requires Inv(p) && d in p.roots
    ensures Kept(p, FreeVm(p, d)) && FreeVm(p, d).roots <= p.roots
  {
    var q := FreeTables(p, d, NUSERPDE);
    TablesKept(p, d, NUSERPDE);
    FreeTablesCorrect(p, d, NUSERPDE);
    RootManaged(p, d);
    SameMemory(q, FreeVm(p, d));
    KeptTrans(p, q, FreeVm(p, d));
  }

  /** A new directory has the kernel directory's entry for UTOP. */
  lemma SetupVmFacts(p: Phys)
    requires Inv(p) && KernelFacts(p) && p.free != []
    ensures SetupVm(p).Some? && KernelFacts(SetupVm(p).value.0)
  {
    SetupVmParts(p);
    var (q, d) := SetupVm(p).value;
    forall e | e in q.roots || e == q.kdir
      ensures Present(At(q, e, NUSERPDE)) && UenvsTable(q, PteFrame(At(q, e, NUSERPDE)))
    {
      var e' := if e == d then p.kdir else e;
      assert At(q, e, NUSERPDE) == At(p, e', NUSERPDE);
      var t := PteFrame(At(p, e', NUSERPDE));
      assert UenvsTable(p, t) && At(q, t, 0) == At(p, t, 0);
    }
  }

  // ---------------------------------------------------------------- calls one after another

  datatype Op =
    | Alloc(d: nat, va: nat, perm: Word)
    | Map(sd: nat, srcva: nat, dd: nat, dstva: nat, perm: Word)
    | Unmap(d: nat, va: nat)
    | Setup
    | Free(d: nat)
    | UserStore(f: nat, k: nat, w: Word)

  /** The directories named are there; a program stores into pages that are no table or directory. */
  ghost predicate Enabled(p: Phys, op: Op) {
    match op
    case Alloc(d, _, _) => d in p.roots
    case Map(sd, _, dd, _, _) => sd in p.roots && dd in p.roots
    case Unmap(d, _) => d in p.roots
    case Setup => true
    case Free(d) => d in p.roots
    case UserStore(f, k, _) =>
      && f < |p.refs| && k < NPTENTRIES && f !in p.pinned
      && forall r :: IsRef(p.roots, r) && !r.Pte? ==> Tgt(p, r) != f
  }

  function Do(p: Phys, op: Op): Phys {
    match op
    case Alloc(d, va, perm) => PageSyscalls.SysPageAlloc(p, d, va, perm).0
    case Map(sd, srcva, dd, dstva, perm) => SysPageMap(p, sd, srcva, dd, dstva, perm).0
    case Unmap(d, va) => SysPageUnmap(p, d, va).0
    case Setup => if SetupVm(p).Some? then SetupVm(p).value.0 else p
    case Free(d) => FreeVm(p, d)
    case UserStore(f, k, w) => Store(p, f, k, w)
  }

  predicate AllocSucceeds(p: Phys, d: nat, va: nat, perm: Word) {
    && va <= UTOP && va % PGSIZE == 0 && HasU(perm) && HasP(perm) && p.free != []
    && (va == UTOP || Present(At(p, d, PDX(va))) || |p.free| > 1)
  }

  ghost predicate MapSucceeds(p: Phys, sd: nat, srcva: nat, dd: nat, dstva: nat, perm: Word) {
    && UserPage(srcva) && UserPage(dstva) && HasU(perm) && HasP(perm) && OnlySyscallBits(perm)
    && Present(At(p, sd, PDX(srcva))) && (HasW(perm) ==> HasW(PteWord(p, PageSyscalls.Key(sd, srcva))))
    && (Present(At(p, dd, PDX(dstva))) || p.free != [])
  }

  /** What a call must meet: an allocation that succeeds lies below UTOP and names its page rightly; a
      mapping that succeeds has a source, and room in its count; unmapping finds a mapping or no
      table. */
  ghost predicate Fits(p: Phys, op: Op)
    requires Sized(p)
  {
    match op
    case Alloc(d, va, perm) => AllocSucceeds(p, d, va, perm) ==> va < UTOP && Within(perm / PGSIZE, p.free[0])
    case Map(sd, srcva, dd, dstva, perm) =>
      MapSucceeds(p, sd, srcva, dd, dstva, perm) ==>
        var f := Tgt(p, PageSyscalls.Key(sd, srcva));
        f != -1 && (Tgt(p, PageSyscalls.Key(dd, dstva)) == f || RefCount(p, f) as int + 1 < REFMOD)
    case Unmap(d, va) => UserPage(va) ==> !Present(At(p, d, PDX(va))) || Tgt(p, PageSyscalls.Key(d, va)) != -1
    case _ => true
  }

  ghost predicate Good(p: Phys) { Inv(p) && KernelFacts(p) }

  lemma AllocGood(p: Phys, d: nat, va: nat, perm: Word)
    requires Good(p) && d in p.roots
    ensures Good(Do(p, Alloc(d, va, perm))) <==> Fits(p, Alloc(d, va, perm))
  {
    if va <= UTOP && va % PGSIZE == 0 {
      UtopEntry(va);
      if va < UTOP {
        SysPageAllocCorrect(p, d, PDX(va), PTX(va), perm);
        AllocCallKept(p, d, PDX(va), PTX(va), perm);
        AllocRoots(p, d, PDX(va), PTX(va), perm);
        KeptFacts(p, Lab4Paging.SysPageAlloc(p, d, PDX(va), PTX(va), perm).0);
      } else {
        AllocAtUtop(p, d, perm);
      }
    }
  }

  lemma AllocRoots(p: Phys, d: nat, i: nat, j: nat, perm: Word)
    requires Inv(p) && IsRef(p.roots, Pte(d, i, j))
    ensures Lab4Paging.SysPageAlloc(p, d, i, j, perm).0.roots == p.roots
  {
    if p.free != [] {
      AllocKeeps(p);
      InsertedRoots(PageAlloc(p).value.0, d, i, j, p.free[0], perm);
    }
  }

  lemma MapGood(p: Phys, sd: nat, srcva: nat, dd: nat, dstva: nat, perm: Word)
    requires Good(p) && sd in p.roots && dd in p.roots
    ensures Good(Do(p, Map(sd, srcva, dd, dstva, perm))) <==> Fits(p, Map(sd, srcva, dd, dstva, perm))
  {
    if UserPage(srcva) && UserPage(dstva) && HasU(perm) && HasP(perm) && OnlySyscallBits(perm) {
      var f := Tgt(p, PageSyscalls.Key(sd, srcva));
      if f == -1 {
        UnmappedSourceExact(p, sd, srcva, dd, dstva, perm);
        SourceUnmapped(p, sd, srcva);
      } else {
        MappedGood(p, sd, srcva, dd, dstva, perm, f);
      }
    }
  }

  lemma SourceUnmapped(p: Phys, sd: nat, srcva: nat)
    requires Inv(p) && sd in p.roots && srcva < UTOP && Tgt(p, PageSyscalls.Key(sd, srcva)) == -1
    ensures Present(At(p, sd, PDX(srcva))) ==> PteWord(p, PageSyscalls.Key(sd, srcva)) == 0
  {
    KeyIsRef(p.roots, sd, srcva);
  }

  lemma MappedGood(p: Phys, sd: nat, srcva: nat, dd: nat, dstva: nat, perm: Word, f: nat)
    requires Good(p) && sd in p.roots && dd in p.roots && UserPage(srcva) && UserPage(dstva)
    requires HasU(perm) && HasP(perm) && OnlySyscallBits(perm) && Tgt(p, PageSyscalls.Key(sd, srcva)) == f
    ensures Good(Do(p, Map(sd, srcva, dd, dstva, perm))) <==> Fits(p, Map(sd, srcva, dd, dstva, perm))
  {
    SysPageMapCorrect(p, sd, srcva, dd, dstva, perm);
    KeyIsRef(p.roots, sd, srcva);
    KeyIsRef(p.roots, dd, dstva);
    MappedFrame(p, PageSyscalls.Key(sd, srcva));
    if SysPageMap(p, sd, srcva, dd, dstva, perm).1 == 0 {
      MapInserts(p, sd, srcva, dd, dstva, perm);
      InsertKept(p, dd, PDX(dstva), PTX(dstva), f, EntryWord(f, perm));
      InsertedRoots(p, dd, PDX(dstva), PTX(dstva), f, perm);
      KeptFacts(p, Do(p, Map(sd, srcva, dd, dstva, perm)));
    }
  }

  lemma UnmapGood(p: Phys, d: nat, va: nat)
    requires Good(p) && d in p.roots
    ensures Good(Do(p, Unmap(d, va))) <==> Fits(p, Unmap(d, va))
  {
    if UserPage(va) {
      KeyIsRef(p.roots, d, va);
      Remove4Exact(p, d, PDX(va), PTX(va));
      if Fits(p, Unmap(d, va)) {
        RemoveAgree(p, d, PDX(va), PTX(va));
        RemoveCorrect(p, d, PDX(va), PTX(va));
        RemoveKept(p, d, PDX(va), PTX(va));
        KeptFacts(p, Do(p, Unmap(d, va)));
      }
    }
  }

  lemma OtherGood(p: Phys, op: Op)
    requires Good(p) && Enabled(p, op) && (op.Setup? || op.Free? || op.UserStore?)
    ensures Good(Do(p, op))
  {
    match op {
      case Setup =>
        SetupVmCorrect(p);
        if p.free != [] { SetupVmFacts(p); }
      case Free(d) =>
        FreeVmCorrect(p, d);
        FreeVmKept(p, d);
        KeptFacts(p, FreeVm(p, d));
      case UserStore(f, k, w) =>
        DataStore(p, f, k, w);
        assert f in p.roots ==> IsRef(p.roots, Root(f)) && Tgt(p, Root(f)) == f;
        StoreKept(p, f, k, w);
        KeptFacts(p, Store(p, f, k, w));
    }
  }

  /** An operation keeps the invariant and the kernel's pages exactly if it meets its condition. */
  lemma StepExact(p: Phys, op: Op)
    requires Good(p) && Enabled(p, op)
    ensures Good(Do(p, op)) <==> Fits(p, op)
  {
    match op {
      case Alloc(d, va, perm) => AllocGood(p, d, va, perm);
      case Map(sd, srcva, dd, dstva, perm) => MapGood(p, sd, srcva, dd, dstva, perm);
      case Unmap(d, va) => UnmapGood(p, d, va);
      case _ => OtherGood(p, op);
    }
  }

  ghost predicate Leads(p: Phys, ops: seq<Op>, q: Phys)
    decreases |ops|
  {
    if ops == [] then q == p
    else Sized(p) && Enabled(p, ops[0]) && Fits(p, ops[0]) && Leads(Do(p, ops[0]), ops[1..], q)
  }

  /** Calls that each meet their condition, environments made and freed, and stores of programs, in
      any order and number. */
  lemma {:induction false} RunGood(p: Phys, ops: seq<Op>, q: Phys)
    requires Good(p) && Leads(p, ops, q)
    ensures Good(q)
    decreases |ops|
  {
    if ops != [] {
      StepExact(p, ops[0]);
      RunGood(Do(p, ops[0]), ops[1..], q);
    }
  }
}
