/**
What the pages hold. The kernel's own stores go to directories, tables and pages it has just taken off
the free list, so a page that stays mapped keeps its contents through every call of any environment,
and holds what programs have stored in it since it was allocated, full of zeros.
*/
module PageContents {
  import opened Layout
  import opened Options
  import opened PhysicalMemory
  import opened PageTables
  import opened Lab4Paging
  import opened AddressSpaces
  import opened Pmap
  import opened PageSyscalls
  import opened KernelPages
  import opened Words

  /** Frame f is no directory and no table. */
  ghost predicate NoTable(p: Phys, f: nat) {
    f < |p.refs| && forall r :: IsRef(p.roots, r) && !r.Pte? ==> Tgt(p, r) != f
  }

  ghost predicate SamePage(p: Phys, q: Phys, f: nat) {
    forall k: nat :: k < NPTENTRIES ==> At(q, f, k) == At(p, f, k)
  }

  lemma SameTrans(p: Phys, q: Phys, r: Phys, f: nat)
    requires SamePage(p, q, f) && SamePage(q, r, f)
    ensures SamePage(p, r, f)
  {}

  lemma StoreElsewhere(p: Phys, q: Phys, t: nat, k: nat, w: Word, f: nat)
    requires Sized(p) && t < |p.refs| && k < NPTENTRIES && f != t && q.mem == Store(p, t, k, w).mem
    ensures SamePage(p, q, f)
  {
    StoreAt(p, t, k, w);
    SameMemory(Store(p, t, k, w), q);
  }

  // ---------------------------------------------------------------- entries and tables

  lemma RemoveSame(p: Phys, d: nat, i: nat, j: nat, f: nat)
    requires Inv(p) && IsRef(p.roots, Pte(d, i, j)) && NoTable(p, f)
    ensures var q := Remove(p, d, i, j); SamePage(p, q, f) && NoTable(q, f)
  {
    RemoveCorrect(p, d, i, j);
    if Tgt(p, Pte(d, i, j)) != -1 {
      RemoveParts(p, d, i, j, Tgt(p, Pte(d, i, j)));
      assert IsRef(p.roots, Pde(d, i)) && Tgt(p, Pde(d, i)) == PteFrame(At(p, d, i));
      StoreElsewhere(p, Remove(p, d, i, j), PteFrame(At(p, d, i)), j, 0, f);
    }
  }

  lemma WalkSame(p: Phys, d: nat, i: nat, f: nat)
    requires Inv(p) && IsRef(p.roots, Pde(d, i)) && NoTable(p, f) && f !in p.free
    ensures var q := WalkCreate(p, d, i).0; SamePage(p, q, f) && NoTable(q, f)
  {
    WalkCreateCorrect(p, d, i);
    if !Present(At(p, d, i)) && p.free != [] {
      WalkCreateParts(p, d, i);
      assert IsRef(p.roots, Root(d)) && Tgt(p, Root(d)) == d;
    }
  }

  lemma EmptiedSame(p: Phys, d: nat, i: nat, j: nat, f: nat)
    requires Inv(p) && IsRef(p.roots, Pte(d, i, j)) && NoTable(p, f) && f !in p.free
    ensures var s := Emptied(p, d, i, j); SamePage(p, s, f) && NoTable(s, f)
  {
    if !Present(At(p, d, i)) {
      WalkSame(p, d, i, f);
    } else if Tgt(p, Pte(d, i, j)) != -1 {
      RemoveAgree(p, d, i, j);
      RemoveSame(p, d, i, j, f);
    }
  }

  /** page_insert, whatever page it is given and whatever entry it writes. */
  lemma InsertSame4(p: Phys, d: nat, i: nat, j: nat, g: nat, w: Word, f: nat)
    requires Inv(p) && IsRef(p.roots, Pte(d, i, j)) && NoTable(p, f) && f !in p.free
    ensures SamePage(p, InsertWord4(p, d, i, j, g, w).0, f)
  {
    if Present(At(p, d, i)) || p.free != [] {
      var s := Emptied(p, d, i, j);
      EmptiedOk(p, d, i, j);
      EmptiedSame(p, d, i, j, f);
      InsertParts(p, d, i, j, g, w);
      TableManaged(s, d, i);
      assert IsRef(s.roots, Pde(d, i)) && Tgt(s, Pde(d, i)) == PteFrame(At(s, d, i));
      StoreElsewhere(s, InsertWord4(p, d, i, j, g, w).0, PteFrame(At(s, d, i)), j, w, f);
      SameTrans(p, s, InsertWord4(p, d, i, j, g, w).0, f);
    } else {
      WalkCreateCorrect(p, d, i);
    }
  }

  lemma PageAllocSame(p: Phys, f: nat)
    requires Inv(p) && p.free != [] && NoTable(p, f) && f !in p.free
    ensures var q := PageAlloc(p).value.0; SamePage(p, q, f) && NoTable(q, f) && f !in q.free
  {
    AllocKeeps(p);
    ZeroAt(p, p.free[0]);
    SameMemory(ZeroPage(p, p.free[0]), PageAlloc(p).value.0);
  }

  lemma AllocSame(p: Phys, d: nat, i: nat, j: nat, perm: Word, f: nat)
    requires Inv(p) && IsRef(p.roots, Pte(d, i, j)) && NoTable(p, f) && f !in p.free
    ensures SamePage(p, Lab4Paging.SysPageAlloc(p, d, i, j, perm).0, f)
  {
    if p.free != [] {
      var (q, g) := PageAlloc(p).value;
      AllocKeeps(p);
      PageAllocSame(p, f);
      var r := InsertWord4(q, d, i, j, g, EntryWord(g, perm)).0;
      InsertSame4(q, d, i, j, g, EntryWord(g, perm), f);
      SameTrans(p, q, r, f);
      SameMemory(r, PageFree(r, g));
    }
  }

  /** The page that sys_page_alloc has mapped is full of zeros. */
  lemma AllocatedZero(p: Phys, d: nat, i: nat, j: nat, perm: Word)
    requires Inv(p) && IsRef(p.roots, Pte(d, i, j))
    ensures var (q, rc) := Lab4Paging.SysPageAlloc(p, d, i, j, perm);
      rc == 0 ==> p.free != [] && forall k: nat :: k < NPTENTRIES ==> At(q, p.free[0], k) == 0
  {
    SysPageAllocCorrect(p, d, i, j, perm);
    if p.free != [] {
      var (q, g) := PageAlloc(p).value;
      AllocKeeps(p);
      InsertSame4(q, d, i, j, g, EntryWord(g, perm), g);
    }
  }

  // ---------------------------------------------------------------- whole address spaces

  lemma {:induction false} ClearSame(p: Phys, d: nat, i: nat, n: nat, f: nat)
    requires Inv(p) && IsRef(p.roots, Pde(d, i)) && n <= NPTENTRIES && NoTable(p, f)
    ensures var q := ClearPtes(p, d, i, n); SamePage(p, q, f) && NoTable(q, f)
  {
    if n > 0 {
      ClearSame(p, d, i, n - 1, f);
      ClearPtesInv(p, d, i, n - 1);
      RemoveSame(ClearPtes(p, d, i, n - 1), d, i, n - 1, f);
      SameTrans(p, ClearPtes(p, d, i, n - 1), ClearPtes(p, d, i, n), f);
    }
  }

  lemma TableSame(p: Phys, d: nat, i: nat, f: nat)
    requires Inv(p) && IsRef(p.roots, Pde(d, i)) && NoTable(p, f)
    ensures var q := FreeTable(p, d, i); SamePage(p, q, f)
  {
    if Present(At(p, d, i)) {
      var c := ClearPtes(p, d, i, NPTENTRIES);
      ClearSame(p, d, i, NPTENTRIES, f);
      ClearPtesCorrect(p, d, i, NPTENTRIES);
      RootManaged(c, d);
      assert IsRef(c.roots, Root(d)) && Tgt(c, Root(d)) == d;
      StoreElsewhere(c, FreeTable(p, d, i), d, i, 0, f);
      SameTrans(p, c, FreeTable(p, d, i), f);
    }
  }

  lemma FreedNoTable(p: Phys, q: Phys, d: nat, n: nat, f: nat)
    requires NoTable(p, f) && FreedUpTo(p, q, d, n)
    ensures NoTable(q, f)
  {}

  lemma {:induction false} TablesSame(p: Phys, d: nat, n: nat, f: nat)
    requires Inv(p) && d in p.roots && n <= NUSERPDE && NoTable(p, f)
    ensures SamePage(p, FreeTables(p, d, n), f)
  {
    if n > 0 {
      TablesSame(p, d, n - 1, f);
      FreeTablesCorrect(p, d, n - 1);
      FreedNoTable(p, FreeTables(p, d, n - 1), d, n - 1, f);
      TableSame(FreeTables(p, d, n - 1), d, n - 1, f);
      SameTrans(p, FreeTables(p, d, n - 1), FreeTables(p, d, n), f);
    }
  }

  lemma FreeVmSame(p: Phys, d: nat, f: nat)
    requires Inv(p) && d in p.roots && NoTable(p, f)
    ensures SamePage(p, FreeVm(p, d), f)
  {
    TablesSame(p, d, NUSERPDE, f);
    SameMemory(FreeTables(p, d, NUSERPDE), FreeVm(p, d));
  }

  // ---------------------------------------------------------------- every call

  /** Frame f is a page that some environment maps. */
  ghost predicate Mapped(p: Phys, f: nat) {
    exists r :: IsRef(p.roots, r) && r.Pte? && Tgt(p, r) == f
  }

  lemma MappedApart(p: Phys, f: nat)
    requires Inv(p) && Mapped(p, f)
    ensures NoTable(p, f) && f !in p.free
  {
    var r :| IsRef(p.roots, r) && r.Pte? && Tgt(p, r) == f;
    LiveCounted(p, r);
  }

  lemma MapSame(p: Phys, sd: nat, srcva: nat, dd: nat, dstva: nat, perm: Word, f: nat)
    requires Inv(p) && sd in p.roots && dd in p.roots && NoTable(p, f) && f !in p.free
    ensures SamePage(p, SysPageMap(p, sd, srcva, dd, dstva, perm).0, f)
  {
    if UserPage(srcva) && UserPage(dstva) && HasU(perm) && HasP(perm) && OnlySyscallBits(perm) {
      KeyIsRef(p.roots, dd, dstva);
      if Present(At(p, sd, PDX(srcva))) {
        var w := PteWord(p, PageSyscalls.Key(sd, srcva));
        if PteFrame(w) < MAXFRAMES {
          InsertSame4(p, dd, PDX(dstva), PTX(dstva), PteFrame(w), MkPte(PteFrame(w), perm), f);
        }
      }
    }
  }

  lemma UnmapSame(p: Phys, d: nat, va: nat, f: nat)
    requires Inv(p) && d in p.roots && NoTable(p, f) && Fits(p, Unmap(d, va))
    ensures SamePage(p, SysPageUnmap(p, d, va).0, f)
  {
    if UserPage(va) {
      KeyIsRef(p.roots, d, va);
      RemoveAgree(p, d, PDX(va), PTX(va));
      RemoveSame(p, d, PDX(va), PTX(va), f);
    }
  }

  lemma SetupSame(p: Phys, f: nat)
    requires Inv(p) && f !in p.free
    ensures SetupVm(p).Some? ==> SamePage(p, SetupVm(p).value.0, f)
  {
    if p.free != [] { SetupVmParts(p); }
  }

  lemma AllocCallSame(p: Phys, d: nat, va: nat, perm: Word, f: nat)
    requires Inv(p) && d in p.roots && NoTable(p, f) && f !in p.free && Fits(p, Alloc(d, va, perm))
    ensures SamePage(p, PageSyscalls.SysPageAlloc(p, d, va, perm).0, f)
  {
    if va < UTOP && va % PGSIZE == 0 {
      UtopEntry(va);
      AllocSame(p, d, PDX(va), PTX(va), perm, f);
    }
  }

  /** No call changes a page that is mapped when it starts, whether or not it is so afterwards; a store
      of a program changes the one word it names. */
  lemma StepContents(p: Phys, op: Op, f: nat)
    requires Good(p) && Enabled(p, op) && Fits(p, op) && Mapped(p, f)
    ensures forall k: nat :: k < NPTENTRIES ==>
      At(Do(p, op), f, k) == if op.UserStore? && op.f == f && op.k == k then op.w else At(p, f, k)
  {
    MappedApart(p, f);
    match op {
      case Alloc(d, va, perm) => AllocCallSame(p, d, va, perm, f);
      case Map(sd, srcva, dd, dstva, perm) => MapSame(p, sd, srcva, dd, dstva, perm, f);
      case Unmap(d, va) => UnmapSame(p, d, va, f);
      case Setup => SetupSame(p, f);
      case Free(d) => FreeVmSame(p, d, f);
      case UserStore(g, k, w) => StoreAt(p, g, k, w);
    }
  }

  // ---------------------------------------------------------------- every run

  /** The words of page f. */
  ghost function Content(p: Phys, f: nat): seq<Word> { seq(NPTENTRIES, k requires 0 <= k < NPTENTRIES => At(p, f, k)) }

  ghost function AfterStore(words: seq<Word>, op: Op, f: nat): (r: seq<Word>)
    ensures |r| == |words|
  {
    if op.UserStore? && op.f == f && op.k < |words| then words[op.k := op.w] else words
  }

  /** What programs have stored, and nothing else. */
  ghost function Stored(words: seq<Word>, ops: seq<Op>, f: nat): seq<Word>
    decreases |ops|
  {
    if ops == [] then words else Stored(AfterStore(words, ops[0], f), ops[1..], f)
  }

  /** Page f is mapped somewhere when each call of the run starts. */
  ghost predicate StaysMapped(p: Phys, ops: seq<Op>, f: nat)
    decreases |ops|
  {
    ops == [] || (Mapped(p, f) && StaysMapped(Do(p, ops[0]), ops[1..], f))
  }

  lemma StepWords(p: Phys, op: Op, f: nat)
    requires Good(p) && Enabled(p, op) && Fits(p, op) && Mapped(p, f)
    ensures Content(Do(p, op), f) == AfterStore(Content(p, f), op, f)
  {
    StepContents(p, op, f);
  }

  lemma FirstStep(p: Phys, ops: seq<Op>, q: Phys, f: nat)
    requires Good(p) && ops != [] && Leads(p, ops, q) && StaysMapped(p, ops, f)
    ensures Good(Do(p, ops[0])) && Leads(Do(p, ops[0]), ops[1..], q) && StaysMapped(Do(p, ops[0]), ops[1..], f)
    ensures Content(Do(p, ops[0]), f) == AfterStore(Content(p, f), ops[0], f)
  {
    StepExact(p, ops[0]);
    StepWords(p, ops[0], f);
  }

  /** A page that stays mapped holds at the end of a run exactly what the stores of programs have made
      of it: no call of anyone's has touched it. */
  lemma {:induction false} RunContents(p: Phys, ops: seq<Op>, q: Phys, f: nat)
    requires Good(p) && Leads(p, ops, q) && StaysMapped(p, ops, f)
    ensures Content(q, f) == Stored(Content(p, f), ops, f)
    decreases |ops|
  {
    if ops != [] {
      FirstStep(p, ops, q, f);
      RunContents(Do(p, ops[0]), ops[1..], q, f);
    }
  }
}
