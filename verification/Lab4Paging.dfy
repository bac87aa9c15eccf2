/**
lab4's page_insert and page_remove against lab3's. Insertion agrees on every page that is
not free. Removal does not: lab4's page_lookup has lost the present-bit test, so removing
at an address that has a table but no page takes a count from page 0.
*/
module Lab4Paging {
  import opened Layout
  import opened Options
  import opened PhysicalMemory
  import opened PageTables
  import opened Words

  /** On a mapped address the two removals are the same function. */
  lemma RemoveAgree(p: Phys, d: nat, i: nat, j: nat)
    requires Walk(p, d, i).None? || Tgt(p, Pte(d, i, j)) != -1
    ensures Remove4(p, d, i, j) == Remove(p, d, i, j)
  {}

  lemma StoreTwice(p: Phys, f: nat, i: nat, v: Word, w: Word)
    ensures Store(Store(p, f, i, v), f, i, w).mem == Store(p, f, i, w).mem
  {}

  lemma Reinsert(p: Phys, d: nat, i: nat, j: nat, f: nat, w: Word)
    requires Inv(p) && IsRef(p.roots, Pte(d, i, j)) && Tgt(p, Pte(d, i, j)) == f && f !in p.free
    ensures var t := PteFrame(At(p, d, i));
      IncRef(Store(PullBack(Remove(p, d, i, j), f), t, j, w), f) == IncRef(Store(DecRef(p, f), t, j, w), f)
  {
    var t := PteFrame(At(p, d, i));
    RemoveParts(p, d, i, j, f);
    InsertSame(p, d, i, j, f, w);
    StoreTwice(p, t, j, 0, w);
    var a := PullBack(Remove(p, d, i, j), f);
    var b := DecRef(p, f);
    assert a.refs == b.refs && a.free == b.free == p.free;
    assert Store(a, t, j, w).mem == Store(b, t, j, w).mem;
  }

  /** lab4's page_insert (remove, then pull the page back off the head of the free list) and
      lab3's (decrement in place) give the same memory, counts, free list and return code. */
  lemma InsertAgree(p: Phys, d: nat, i: nat, j: nat, f: nat, perm: nat)
    requires Inv(p) && IsRef(p.roots, Pte(d, i, j)) && perm < PGSIZE
    requires f < |p.refs| && f !in p.free
    ensures Insert4(p, d, i, j, f, perm) == Insert(p, d, i, j, f, perm)
  {
    var w := MkPte(f, perm);
    if !Present(At(p, d, i)) {
      WalkCreateCorrect(p, d, i);
      if p.free != [] {
        WalkCreateParts(p, d, i);
        var q := WalkCreate(p, d, i).0;
        FreeUnreferenced(p, p.free[0], Root(d));
        assert At(q, p.free[0], j) == 0;
        assert PullBack(q, f) == q;
      }
    } else if Tgt(p, Pte(d, i, j)) == -1 {
      assert PullBack(p, f) == p;
    } else if Tgt(p, Pte(d, i, j)) == f {
      RemoveAgree(p, d, i, j);
      Reinsert(p, d, i, j, f, w);
    } else {
      RemoveAgree(p, d, i, j);
      RemoveParts(p, d, i, j, Tgt(p, Pte(d, i, j)));
      assert PullBack(Remove(p, d, i, j), f) == Remove(p, d, i, j);
    }
  }

  /** lab4's page_insert inherits everything proved of lab3's. */
  lemma Insert4Correct(p: Phys, d: nat, i: nat, j: nat, f: nat, perm: nat)
    requires Inv(p) && IsRef(p.roots, Pte(d, i, j)) && Insertable(p, f) && perm < PGSIZE
    ensures var (q, rc) := Insert4(p, d, i, j, f, perm);
      && (rc == -E_NO_MEM <==> !Present(At(p, d, i)) && p.free == [])
      && (rc == -E_NO_MEM ==> q == p)
      && (rc != -E_NO_MEM ==>
            && rc == 0 && Mappings(q) == Mappings(p)[Pte(d, i, j) := MkPte(f, perm)]
            && (Inv(q) <==> Tgt(p, Pte(d, i, j)) == f || p.refs[f] + 1 < REFMOD))
  {
    InsertAgree(p, d, i, j, f, perm);
    InsertCorrect(p, d, i, j, f, perm);
  }

  lemma Insert4Rights(p: Phys, d: nat, i: nat, j: nat, f: nat, perm: nat)
    requires Inv(p) && IsRef(p.roots, Pte(d, i, j)) && Insertable(p, f) && perm < PGSIZE
    ensures var (q, rc) := Insert4(p, d, i, j, f, perm);
      rc == 0 ==> Pte(d, i, j) in Mappings(q) && Grants(Mappings(q)[Pte(d, i, j)], f, perm)
  {
    Insert4Correct(p, d, i, j, f, perm);
    MkPteGrants(f, perm);
  }

  /** page_init leaves page 0 out of the allocator with a count of 1. */
  ghost predicate PageZeroReserved(p: Phys) {
    |p.refs| > 0 && 0 in p.pinned && p.refs[0] == 1
  }

  /** lab4's page_remove keeps the invariant exactly when the address is mapped or has no
      table at all, which a caller can read off the page tables first. */
  lemma Remove4Exact(p: Phys, d: nat, i: nat, j: nat)
    requires Inv(p) && PageZeroReserved(p) && IsRef(p.roots, Pte(d, i, j))
    ensures Inv(Remove4(p, d, i, j)) <==> !Present(At(p, d, i)) || Tgt(p, Pte(d, i, j)) != -1
    ensures !Inv(Remove4(p, d, i, j)) ==> Remove4(p, d, i, j).free == [0] + p.free
  {
    if !Present(At(p, d, i)) || Tgt(p, Pte(d, i, j)) != -1 {
      RemoveAgree(p, d, i, j);
      RemoveCorrect(p, d, i, j);
    } else {
      var q := Remove4(p, d, i, j);
      assert PteWord(p, Pte(d, i, j)) == 0;
      assert q.free[0] == 0 && q.pinned == p.pinned;
    }
  }

  // ---------------------------------------------------------------- the entry's word

  /** page2pa(f) | (PTE_P | perm), for any 32-bit perm. */
  function EntryWord(f: nat, perm: Word): (w: Word)
    requires f < MAXFRAMES
  {
    EntryFits(f, perm);
    Or(f * PGSIZE, Or(1, perm))
  }

  lemma EntryFits(f: nat, perm: Word)
    requires f < MAXFRAMES
    ensures Or(f * PGSIZE, Or(1, perm)) == Or(f, perm / PGSIZE) * PGSIZE + Odd(perm) % PGSIZE < 0x1_0000_0000
  {
    OrEntry(f, perm);
  }

  lemma EntryParts(f: nat, perm: Word)
    requires f < MAXFRAMES
    ensures Present(EntryWord(f, perm)) && PteFrame(EntryWord(f, perm)) == Or(f, perm / PGSIZE)
  {
    EntryFits(f, perm);
    OddPage(perm);
    PageAndRest(EntryWord(f, perm), Or(f, perm / PGSIZE), Odd(perm) % PGSIZE);
  }

  /** Of any 32-bit perm the low 12 bits are the entry's, PTE_P apart. */
  lemma EntryPermissions(f: nat, perm: Word)
    requires f < MAXFRAMES
    ensures EntryWord(f, perm) % PGSIZE / 2 == perm % PGSIZE / 2
    ensures HasW(EntryWord(f, perm)) == HasW(perm) && HasU(EntryWord(f, perm)) == HasU(perm)
  {
    EntryFits(f, perm);
    OddLow(perm);
    PageAndRest(EntryWord(f, perm), Or(f, perm / PGSIZE), Odd(perm) % PGSIZE);
    RightsOf(EntryWord(f, perm), perm);
  }

  lemma EntryLow(f: nat, perm: Word)
    requires f < MAXFRAMES && perm < PGSIZE
    ensures EntryWord(f, perm) == MkPte(f, perm)
  {
    EntryFits(f, perm);
  }

  /** The entry that page_insert writes for page f names f exactly if the bits of perm above the
      low 12 are set in f's own number already. */
  lemma EntryNamesExact(f: nat, perm: Word)
    requires f < MAXFRAMES
    ensures Present(EntryWord(f, perm))
    ensures PteFrame(EntryWord(f, perm)) == f <==> Within(perm / PGSIZE, f)
  {
    EntryParts(f, perm);
    OrWithin(perm / PGSIZE, f);
  }

  /** It names every page rightly exactly if there are none. */
  lemma EntryAlwaysNames(perm: Word)
    ensures (forall f: nat :: f < MAXFRAMES ==> PteFrame(EntryWord(f, perm)) == f) <==> perm < PGSIZE
  {
    forall f: nat | f < MAXFRAMES ensures PteFrame(EntryWord(f, perm)) == f <==> Within(perm / PGSIZE, f) {
      EntryNamesExact(f, perm);
    }
    WithinZero(perm / PGSIZE);
    assert PteFrame(EntryWord(0, perm)) == 0 <==> Within(perm / PGSIZE, 0);
  }

  /** Page 1 allocated with bit 13 in perm: the entry names page 3. */
  lemma EntryNamesAnother(f: nat, perm: Word)
    requires f == 1 && perm == 0x2007
    ensures PteFrame(EntryWord(f, perm)) == 3
  {
    OneOrTwo();
    EntryParts(f, perm);
  }

  // ---------------------------------------------------------------- inserting any word

  /** The state page_insert stores its entry into: with a table, and with the old page gone. */
  function Emptied(p: Phys, d: nat, i: nat, j: nat): Phys {
    match Walk(p, d, i)
    case None => WalkCreate(p, d, i).0
    case Some(t) => if Present(At(p, t, j)) then Remove4(p, d, i, j) else p
  }

  lemma EmptiedOk(p: Phys, d: nat, i: nat, j: nat)
    requires Inv(p) && IsRef(p.roots, Pte(d, i, j)) && (Present(At(p, d, i)) || p.free != [])
    ensures var s := Emptied(p, d, i, j);
      && Inv(s) && s.roots == p.roots && s.kdir == p.kdir && Present(At(s, d, i)) && Tgt(s, Pte(d, i, j)) == -1
      && Mappings(s) == Mappings(p) - {Pte(d, i, j)}
      && (forall r :: IsRef(p.roots, r) && !r.Pte? && Tgt(p, r) != -1 ==> Tgt(s, r) == Tgt(p, r))
  {
    MappingsMembers(p);
    if !Present(At(p, d, i)) {
      WalkCreateCorrect(p, d, i);
      assert Tgt(p, Pte(d, i, j)) == -1;
      assert Mappings(p) - {Pte(d, i, j)} == Mappings(p);
    } else if Tgt(p, Pte(d, i, j)) == -1 {
      assert Mappings(p) - {Pte(d, i, j)} == Mappings(p);
    } else {
      RemoveAgree(p, d, i, j);
      RemoveCorrect(p, d, i, j);
      assert d in p.roots;
    }
  }

  lemma EmptiedPinned(p: Phys, d: nat, i: nat, j: nat)
    ensures Emptied(p, d, i, j).pinned == p.pinned
  {}

  lemma EmptiedInsertable(p: Phys, d: nat, i: nat, j: nat, f: nat)
    requires Inv(p) && IsRef(p.roots, Pte(d, i, j)) && (Present(At(p, d, i)) || p.free != [])
    requires Insertable(p, f) && Tgt(p, Pte(d, i, j)) != f
    ensures var s := Emptied(p, d, i, j); Insertable(s, f) && s.refs[f] == p.refs[f]
  {
    if !Present(At(p, d, i)) {
      WalkInsertable(p, d, i, f);
      WalkCreateParts(p, d, i);
    } else if Tgt(p, Pte(d, i, j)) != -1 {
      RemoveAgree(p, d, i, j);
      RemovedInsertable(p, d, i, j, f);
    }
  }

  lemma InsertParts(p: Phys, d: nat, i: nat, j: nat, f: nat, w: Word)
    requires Inv(p) && IsRef(p.roots, Pte(d, i, j)) && (Present(At(p, d, i)) || p.free != [])
    ensures var s := Emptied(p, d, i, j);
      InsertWord4(p, d, i, j, f, w) == (IncRef(Store(PullBack(s, f), PteFrame(At(s, d, i)), j, w), f), 0)
  {
    if !Present(At(p, d, i)) {
      WalkCreateCorrect(p, d, i);
    } else if Tgt(p, Pte(d, i, j)) != -1 {
      RemoveAgree(p, d, i, j);
      RemoveCorrect(p, d, i, j);
      assert d in p.roots;
    }
  }

  /** Whatever page it is called for, page_insert maps what the word names. */
  lemma InsertedWord(p: Phys, d: nat, i: nat, j: nat, f: nat, w: Word)
    requires Inv(p) && IsRef(p.roots, Pte(d, i, j)) && Present(w)
    ensures var (q, rc) := InsertWord4(p, d, i, j, f, w);
      && (rc == -E_NO_MEM <==> !Present(At(p, d, i)) && p.free == [])
      && (rc == -E_NO_MEM ==> q == p)
      && (rc != -E_NO_MEM ==>
            && rc == 0 && q.roots == p.roots && q.pinned == p.pinned
            && Mappings(q) == Mappings(p)[Pte(d, i, j) := w] && Tgt(q, Pte(d, i, j)) == PteFrame(w))
  {
    if Present(At(p, d, i)) || p.free != [] {
      EmptiedOk(p, d, i, j);
      InsertParts(p, d, i, j, f, w);
      var s := Emptied(p, d, i, j);
      EmptiedPinned(p, d, i, j);
      StoredEntry(s, InsertWord4(p, d, i, j, f, w).0, d, i, j, w);
      MapPut(Mappings(p), Pte(d, i, j), w);
    } else {
      WalkCreateCorrect(p, d, i);
    }
  }

  lemma CountOff(s: Phys, q: Phys, r0: Ref, f: nat)
    requires q.roots == s.roots && IsRef(s.roots, r0) && SameTargetsBut(s, q, r0)
    requires Tgt(s, r0) != f && Tgt(q, r0) != f && f < |s.refs| == |q.refs| && f !in q.pinned
    requires s.refs[f] == |RefsTo(s, f)| && q.refs[f] as int == s.refs[f] as int + 1
    ensures !Inv(q)
  {
    RefsDelta(s, q, r0, f);
  }

  /** Counting page f for an entry that names another leaves f's count one too high. */
  lemma Miscounted(s: Phys, q: Phys, d: nat, i: nat, j: nat, f: nat, w: Word)
    requires Inv(s) && IsRef(s.roots, Pte(d, i, j)) && Present(At(s, d, i)) && Tgt(s, Pte(d, i, j)) == -1
    requires Insertable(s, f) && s.refs[f] + 1 < REFMOD && Present(w) && PteFrame(w) != f
    requires q == IncRef(Store(s, PteFrame(At(s, d, i)), j, w), f)
    ensures !Inv(q)
  {
    StoredEntry(s, q, d, i, j, w);
    CountOff(s, q, Pte(d, i, j), f);
  }

  /** A page inserted where it is not mapped yet: everything stays in order exactly if the word
      names that page. */
  lemma InsertFresh(p: Phys, d: nat, i: nat, j: nat, f: nat, w: Word)
    requires Inv(p) && IsRef(p.roots, Pte(d, i, j)) && Insertable(p, f) && Tgt(p, Pte(d, i, j)) != f
    requires p.refs[f] + 1 < REFMOD && Present(w) && (Present(At(p, d, i)) || p.free != [])
    ensures Inv(InsertWord4(p, d, i, j, f, w).0) <==> PteFrame(w) == f
  {
    if PteFrame(w) == f {
      assert w == MkPte(f, w % PGSIZE);
      Insert4Correct(p, d, i, j, f, w % PGSIZE);
    } else {
      EmptiedOk(p, d, i, j);
      EmptiedInsertable(p, d, i, j, f);
      InsertParts(p, d, i, j, f, w);
      var s := Emptied(p, d, i, j);
      assert PullBack(s, f) == s;
      Miscounted(s, InsertWord4(p, d, i, j, f, w).0, d, i, j, f, w);
    }
  }

  // ---------------------------------------------------------------- sys_page_alloc

  /** The memory work of sys_page_alloc once its arguments have been checked. */
  function SysPageAlloc(p: Phys, d: nat, i: nat, j: nat, perm: Word): (Phys, int) {
    match PageAlloc(p)
    case None => (p, -E_NO_MEM)
    case Some((q, f)) =>
      if f >= MAXFRAMES then (q, -E_NO_MEM)
      else
        var (r, rc) := InsertWord4(q, d, i, j, f, EntryWord(f, perm));
        if rc < 0 then (PageFree(r, f), -E_NO_MEM) else (r, 0)
  }

  lemma AllocKeeps(p: Phys)
    requires Inv(p) && p.free != []
    ensures var (q, f) := PageAlloc(p).value;
      && Inv(q) && SameFrame(p, q) && Mappings(q) == Mappings(p) && Insertable(q, f) && q.refs[f] == 0
      && (forall r :: IsRef(p.roots, r) ==> Tgt(q, r) == Tgt(p, r) != f)
      && (forall k :: 0 <= k < NPTENTRIES ==> At(q, f, k) == 0)
  {
    var f := p.free[0];
    var z := ZeroPage(p, f);
    var q := PageAlloc(p).value.0;
    ZeroAt(p, f);
    ZeroKeeps(p, f);
    SameMemory(z, q);
    forall r | IsRef(p.roots, r) ensures Tgt(p, r) != f { FreeUnreferenced(p, f, r); }
    SameCounts(p, q);
    MappingsMembers(p);
    MappingsEqual(q, Mappings(p));
    AllocClean(p, q, f);
  }

  lemma AllocClean(p: Phys, q: Phys, f: nat)
    requires Inv(p) && p.free != [] && f == p.free[0] && q == ZeroPage(p, f).(free := p.free[1..])
    ensures Clean(q) && KernelDir(q) && FreeOk(q)
  {
    var z := ZeroPage(p, f);
    ZeroAt(p, f);
    ZeroKeeps(p, f);
    SameMemory(z, q);
    forall r | IsRef(q.roots, r) && r.Pte? && Present(At(q, r.d, r.i)) && Tgt(q, r) == -1
      ensures PteWord(q, r) == 0
    {
      assert At(z, r.d, r.i) == At(p, r.d, r.i) && Tgt(p, r) == -1;
    }
  }

  lemma GivenBack(p: Phys, q: Phys)
    requires Inv(p) && p.free != [] && q == PageAlloc(p).value.0
    ensures var r := PageFree(q, p.free[0]);
      Inv(r) && Mappings(r) == Mappings(p) && r.refs == p.refs && r.free == p.free
  {
    AllocKeeps(p);
    FreedKeeps(q, p.free[0]);
    assert [p.free[0]] + p.free[1..] == p.free;
  }

  lemma FreedKeeps(q: Phys, f: nat)
    requires Inv(q) && f < |q.refs| && f !in q.pinned && f !in q.free && q.refs[f] == 0
    ensures Inv(PageFree(q, f)) && Mappings(PageFree(q, f)) == Mappings(q)
  {
    var r := PageFree(q, f);
    SameMemory(q, r);
    SameCounts(q, r);
    MappingsMembers(q);
    MappingsEqual(r, Mappings(q));
  }

  /** sys_page_alloc writes its entry under exactly its own key, or changes nothing: when no table
      can be had the page goes back, and map, counts and free list are as they were. What it maps
      is the zeroed page it has allocated, and the counts stay exact, exactly if the bits of perm
      above the low 12 are set in that page's number already. */
  lemma SysPageAllocCorrect(p: Phys, d: nat, i: nat, j: nat, perm: Word)
    requires Inv(p) && IsRef(p.roots, Pte(d, i, j))
    ensures var (q, rc) := SysPageAlloc(p, d, i, j, perm);
      && (rc == 0 <==> p.free != [] && (Present(At(p, d, i)) || |p.free| > 1))
      && (rc == 0 ==>
            && p.free[0] < MAXFRAMES
            && Mappings(q) == Mappings(p)[Pte(d, i, j) := EntryWord(p.free[0], perm)]
            && EntryWord(p.free[0], perm) % PGSIZE / 2 == perm % PGSIZE / 2
            && HasW(EntryWord(p.free[0], perm)) == HasW(perm) && HasU(EntryWord(p.free[0], perm)) == HasU(perm)
            && (Tgt(q, Pte(d, i, j)) == p.free[0] <==> Within(perm / PGSIZE, p.free[0]))
            && (Inv(q) <==> Within(perm / PGSIZE, p.free[0])))
      && (rc != 0 ==>
            rc == -E_NO_MEM && Inv(q) && Mappings(q) == Mappings(p) && q.refs == p.refs && q.free == p.free)
  {
    if p.free != [] {
      var (q, f) := PageAlloc(p).value;
      AllocKeeps(p);
      assert At(q, d, i) == At(p, d, i) by { RootUntouched(p, d, i); }
      EntryNamesExact(f, perm);
      EntryPermissions(f, perm);
      InsertedWord(q, d, i, j, f, EntryWord(f, perm));
      if InsertWord4(q, d, i, j, f, EntryWord(f, perm)).1 < 0 {
        GivenBack(p, q);
      } else {
        InsertFresh(q, d, i, j, f, EntryWord(f, perm));
      }
    }
  }

  /** A page that does not exist, or belongs to somebody else, may come out mapped: allocating page
      1 with bit 13 of perm set maps page 3. */
  lemma AllocMapsAnother(p: Phys, d: nat, i: nat, j: nat, perm: Word)
    requires Inv(p) && IsRef(p.roots, Pte(d, i, j)) && Present(At(p, d, i))
    requires p.free != [] && p.free[0] == 1 && perm == 0x2007
    ensures var (q, rc) := SysPageAlloc(p, d, i, j, perm); rc == 0 && Tgt(q, Pte(d, i, j)) == 3 && !Inv(q)
  {
    SysPageAllocCorrect(p, d, i, j, perm);
    EntryNamesAnother(1, perm);
    EntryNamesExact(1, perm);
    var q := SysPageAlloc(p, d, i, j, perm).0;
    MappingsMembers(q);
    assert Pte(d, i, j) in Mappings(q);
  }

  lemma RootUntouched(p: Phys, d: nat, i: nat)
    requires Inv(p) && p.free != [] && d in p.roots && i < NUSERPDE
    ensures At(PageAlloc(p).value.0, d, i) == At(p, d, i)
  {
    ZeroKeeps(p, p.free[0]);
    SameMemory(ZeroPage(p, p.free[0]), PageAlloc(p).value.0);
  }

  // ---------------------------------------------------------------- the page at UTOP

  /** mem_init maps envs[] at UENVS, which is UTOP: every directory, the kernel's included, names a table
      of the kernel's there, and that table's first entry a page of the kernel's. */
  ghost predicate UenvsMapped(p: Phys) {
    forall d :: d in p.roots || d == p.kdir ==>
      Present(At(p, d, NUSERPDE)) && UenvsTable(p, PteFrame(At(p, d, NUSERPDE)))
  }

  ghost predicate UenvsTable(p: Phys, t: nat) {
    && t < |p.refs| && t in p.pinned && t != p.kdir
    && Present(At(p, t, 0)) && PteFrame(At(p, t, 0)) < |p.refs| && PteFrame(At(p, t, 0)) in p.pinned
  }

  lemma AllocUenvs(p: Phys)
    requires Inv(p) && UenvsMapped(p) && p.free != []
    ensures var q := PageAlloc(p).value.0;
      UenvsMapped(q) && forall d :: d in p.roots || d == p.kdir ==> At(q, d, NUSERPDE) == At(p, d, NUSERPDE)
  {
    var (q, f) := PageAlloc(p).value;
    var z := ZeroPage(p, f);
    ZeroAt(p, f);
    SameMemory(z, q);
    forall d | d in p.roots || d == p.kdir
      ensures At(q, d, NUSERPDE) == At(p, d, NUSERPDE) && UenvsTable(q, PteFrame(At(p, d, NUSERPDE)))
    {
      if d in p.roots { FreeUnreferenced(p, f, Root(d)); }
      assert At(z, d, NUSERPDE) == At(p, d, NUSERPDE);
      var t := PteFrame(At(p, d, NUSERPDE));
      assert UenvsTable(p, t);
      assert At(z, t, 0) == At(p, t, 0);
    }
  }

  /** A store into a table no user directory names moves no count: a page counted for it is off. */
  lemma KernelStore(p: Phys, q: Phys, t: nat, f: nat, w: Word)
    requires Inv(p) && t < |p.refs| && t in p.pinned && Insertable(p, f) && p.refs[f] + 1 < REFMOD
    requires q.roots == p.roots && q.pinned == p.pinned && q.mem == Store(p, t, 0, w).mem
    requires |q.refs| == |p.refs| && q.refs[f] as int == p.refs[f] as int + 1
    ensures Mappings(q) == Mappings(p) && !Inv(q)
  {
    DataStoreTargets(p, t, 0, w);
    SameMemory(Store(p, t, 0, w), q);
    MappingsMembers(p);
    MappingsEqual(q, Mappings(p));
    RefsToMembers(p, f);
    RefsToMembers(q, f);
    assert RefsTo(q, f) == RefsTo(p, f);
  }

  lemma UtopParts(p: Phys, d: nat, f: nat, w: Word)
    requires Inv(p) && UenvsTable(p, PteFrame(At(p, d, NUSERPDE))) && Present(At(p, d, NUSERPDE))
    requires Insertable(p, f) && p.refs[f] + 1 < REFMOD
    ensures var (q, rc) := InsertWord4(p, d, NUSERPDE, 0, f, w);
      && rc == 0 && q.roots == p.roots && q.pinned == p.pinned && |q.refs| == |p.refs|
      && q.mem == Store(p, PteFrame(At(p, d, NUSERPDE)), 0, w).mem && q.refs[f] as int == p.refs[f] as int + 1
  {
    var t := PteFrame(At(p, d, NUSERPDE));
    var r := Remove4(p, d, NUSERPDE, 0);
    assert r.mem == Store(p, t, 0, 0).mem && PullBack(r, f) == r;
    StoreTwice(p, t, 0, 0, w);
  }

  /** page_insert at UTOP takes the kernel's own page out of envs[] for everyone, counts the new page
      for an entry of the kernel's, and gives the environment nothing. */
  lemma InsertAtUtop(p: Phys, d: nat, f: nat, w: Word)
    requires Inv(p) && UenvsMapped(p) && d in p.roots && Insertable(p, f) && p.refs[f] + 1 < REFMOD
    ensures var (q, rc) := InsertWord4(p, d, NUSERPDE, 0, f, w);
      && rc == 0 && Mappings(q) == Mappings(p) && !Inv(q)
      && At(q, PteFrame(At(p, d, NUSERPDE)), 0) == w
  {
    var t := PteFrame(At(p, d, NUSERPDE));
    var q := InsertWord4(p, d, NUSERPDE, 0, f, w).0;
    UtopParts(p, d, f, w);
    KernelStore(p, q, t, f, w);
    StoreAt(p, t, 0, w);
    SameMemory(Store(p, t, 0, w), q);
  }

  lemma AllocAtUtop(p: Phys, d: nat, perm: Word)
    requires Inv(p) && UenvsMapped(p) && d in p.roots
    ensures var (q, rc) := SysPageAlloc(p, d, NUSERPDE, 0, perm);
      && (rc == 0 <==> p.free != [])
      && (rc == 0 ==>
            && p.free[0] < MAXFRAMES && Mappings(q) == Mappings(p) && !Inv(q)
            && At(q, PteFrame(At(p, d, NUSERPDE)), 0) == EntryWord(p.free[0], perm))
      && (rc != 0 ==> rc == -E_NO_MEM && q == p)
  {
    if p.free != [] {
      var (q, f) := PageAlloc(p).value;
      AllocKeeps(p);
      AllocUenvs(p);
      InsertAtUtop(q, d, f, EntryWord(f, perm));
    }
  }

  /** Below UTOP and at UTOP together. */
  lemma AllocEffect(p: Phys, d: nat, i: nat, j: nat, perm: Word)
    requires Inv(p) && UenvsMapped(p) && d in p.roots
    requires (i < NUSERPDE && j < NPTENTRIES) || (i == NUSERPDE && j == 0)
    ensures var (q, rc) := SysPageAlloc(p, d, i, j, perm);
      && rc in {0, -E_NO_MEM}
      && (rc == 0 ==>
            && p.free != []
            && (Inv(q) && Tgt(q, Pte(d, i, j)) == p.free[0] <==> i < NUSERPDE && Within(perm / PGSIZE, p.free[0])))
      && (rc != 0 ==> Mappings(q) == Mappings(p) && q.refs == p.refs && q.free == p.free)
  {
    if i < NUSERPDE {
      SysPageAllocCorrect(p, d, i, j, perm);
    } else {
      AllocAtUtop(p, d, perm);
    }
  }
}
