/**
sys_page_alloc, sys_page_map and sys_page_unmap of kern/syscall.c on directories that envid2env
has already found: the checks of their arguments and what they do to the address spaces.
*/
module PageSyscalls {
  import opened Layout
  import opened Options
  import opened PhysicalMemory
  import opened PageTables
  import opened Lab4Paging
  import opened Pmap
  import opened Words

  /** A page-aligned address below UTOP. */
  predicate UserPage(va: nat) { va < UTOP && va % PGSIZE == 0 }

  /** sys_page_alloc. Of the permissions it checks two bits only. */
  function SysPageAlloc(p: Phys, d: nat, va: nat, perm: Word): (Phys, int) {
    if va > UTOP || va % PGSIZE != 0 || !HasU(perm) || !HasP(perm) then (p, -E_INVAL)
    else Lab4Paging.SysPageAlloc(p, d, PDX(va), PTX(va), perm)
  }

  /** When its comment promises -E_INVAL. */
  predicate ShouldRefuse(va: nat, perm: nat) {
    va >= UTOP || va % PGSIZE != 0 || !HasU(perm) || !HasP(perm) || !OnlySyscallBits(perm)
  }

  /** sys_page_map */
  function SysPageMap(p: Phys, sd: nat, srcva: nat, dd: nat, dstva: nat, perm: nat): (Phys, int) {
    if !UserPage(srcva) || !UserPage(dstva) then (p, -E_INVAL)
    else if !HasU(perm) || !HasP(perm) || !OnlySyscallBits(perm) then (p, -E_INVAL)
    else
      match Lookup4(p, sd, PDX(srcva), PTX(srcva))
      case None => (p, -E_INVAL)
      case Some(f) =>
        var w := At(p, PteFrame(At(p, sd, PDX(srcva))), PTX(srcva));
        if f >= MAXFRAMES || (HasW(perm) && !HasW(w)) then (p, -E_INVAL)
        else Insert4(p, dd, PDX(dstva), PTX(dstva), f, perm)
  }

  /** sys_page_unmap */
  function SysPageUnmap(p: Phys, d: nat, va: nat): (Phys, int) {
    if !UserPage(va) then (p, -E_INVAL) else (Remove4(p, d, PDX(va), PTX(va)), 0)
  }

  ghost function Key(d: nat, va: nat): Ref { Pte(d, PDX(va), PTX(va)) }

  lemma KeyIsRef(roots: set<nat>, d: nat, va: nat)
    requires d in roots && va < UTOP
    ensures IsRef(roots, Key(d, va))
  {}

  lemma MappedFrame(p: Phys, r: Ref)
    requires Inv(p) && IsRef(p.roots, r) && r.Pte? && Tgt(p, r) != -1
    ensures Insertable(p, Tgt(p, r)) && p.refs[Tgt(p, r)] > 0 && PteWord(p, r) == Mappings(p)[r]
    ensures PteFrame(PteWord(p, r)) == Tgt(p, r) < MAXFRAMES
  {
    LiveCounted(p, r);
    MappingsMembers(p);
  }

  lemma UtopEntry(va: nat)
    requires va <= UTOP && va % PGSIZE == 0
    ensures if va < UTOP then PDX(va) < NUSERPDE && PTX(va) < NPTENTRIES else PDX(va) == NUSERPDE && PTX(va) == 0
  {}

  /** sys_page_alloc refuses what its comment says it refuses exactly if the address is not UTOP and
      no bit outside PTE_SYSCALL is set, unless one of the checks it does make fails. A call that
      succeeds has mapped the page it allocated, with the counts exact, exactly if the address is
      below UTOP and the bits of perm above the low 12 are set in that page's number. */
  lemma SysPageAllocExact(p: Phys, d: nat, va: nat, perm: Word)
    requires Inv(p) && UenvsMapped(p) && d in p.roots
    ensures var (q, rc) := SysPageAlloc(p, d, va, perm);
      && ((rc == -E_INVAL <==> ShouldRefuse(va, perm)) <==>
            || va > UTOP || va % PGSIZE != 0 || !HasU(perm) || !HasP(perm)
            || (va != UTOP && OnlySyscallBits(perm)))
      && (rc == 0 ==>
            && p.free != []
            && (Inv(q) && Tgt(q, Key(d, va)) == p.free[0] <==> va < UTOP && Within(perm / PGSIZE, p.free[0])))
      && (rc == -E_INVAL ==> q == p)
      && (rc !in {0, -E_INVAL} ==>
            rc == -E_NO_MEM && Mappings(q) == Mappings(p) && q.refs == p.refs && q.free == p.free)
  {
    if va <= UTOP && va % PGSIZE == 0 {
      UtopEntry(va);
      AllocEffect(p, d, PDX(va), PTX(va), perm);
    }
  }

  /** With valid arguments and a mapped source, sys_page_map gives the destination the source's page
      under the requested permissions, and nothing else changes. It never makes a read-only page
      writable, and it fails without any effect. */
  lemma SysPageMapCorrect(p: Phys, sd: nat, srcva: nat, dd: nat, dstva: nat, perm: nat)
    requires Inv(p) && sd in p.roots && dd in p.roots && UserPage(srcva) && UserPage(dstva)
    requires HasU(perm) && HasP(perm) && OnlySyscallBits(perm) && Tgt(p, Key(sd, srcva)) != -1
    ensures var (q, rc) := SysPageMap(p, sd, srcva, dd, dstva, perm);
      var w := PteWord(p, Key(sd, srcva));
      && (rc == -E_INVAL <==> HasW(perm) && !HasW(w))
      && (rc == -E_NO_MEM <==> !(HasW(perm) && !HasW(w)) && !Present(At(p, dd, PDX(dstva))) && p.free == [])
      && (rc != 0 ==> q == p && rc in {-E_INVAL, -E_NO_MEM})
      && (rc == 0 ==>
            && Mappings(q) == Mappings(p)[Key(dd, dstva) := MkPte(PteFrame(w), perm)]
            && (Inv(q) <==> Tgt(p, Key(dd, dstva)) == PteFrame(w) || p.refs[PteFrame(w)] + 1 < REFMOD))
  {
    var r := Key(sd, srcva);
    KeyIsRef(p.roots, sd, srcva);
    KeyIsRef(p.roots, dd, dstva);
    MappedFrame(p, r);
    Insert4Correct(p, dd, PDX(dstva), PTX(dstva), Tgt(p, r), perm);
  }

  /** The destination has the rights asked for, and the right to write only if the source has it. */
  lemma SysPageMapRights(p: Phys, sd: nat, srcva: nat, dd: nat, dstva: nat, perm: nat)
    requires Inv(p) && sd in p.roots && dd in p.roots && UserPage(srcva) && UserPage(dstva)
    requires HasU(perm) && HasP(perm) && OnlySyscallBits(perm) && Tgt(p, Key(sd, srcva)) != -1
    ensures var (q, rc) := SysPageMap(p, sd, srcva, dd, dstva, perm);
      rc == 0 ==>
        && Key(dd, dstva) in Mappings(q)
        && var w, src := Mappings(q)[Key(dd, dstva)], PteWord(p, Key(sd, srcva));
        && Grants(w, PteFrame(src), perm) && HasW(w) == HasW(perm) && HasU(w) && (HasW(w) ==> HasW(src))
  {
    SysPageMapCorrect(p, sd, srcva, dd, dstva, perm);
    KeyIsRef(p.roots, sd, srcva);
    MappedFrame(p, Key(sd, srcva));
    var f := PteFrame(PteWord(p, Key(sd, srcva)));
    MkPteGrants(f, perm);
    RightsOf(MkPte(f, perm), perm);
  }

  lemma InsertPageZero(p: Phys, d: nat, va: nat, perm: nat)
    requires Inv(p) && PageZeroReserved(p) && d in p.roots && va < UTOP && perm < PGSIZE
    ensures var (q, rc) := Insert4(p, d, PDX(va), PTX(va), 0, perm);
      && rc in {0, -E_NO_MEM} && (rc != 0 ==> q == p)
      && (rc == 0 ==> Mappings(q) == Mappings(p)[Key(d, va) := MkPte(0, perm)] && !Targets(q))
  {
    KeyIsRef(p.roots, d, va);
    InsertedWord(p, d, PDX(va), PTX(va), 0, MkPte(0, perm));
  }

  /** An unmapped source is refused, as sys_page_map's comment promises, if and only if it has no
      page table or write permission is asked for; otherwise page 0 stands in for the source. If
      that goes through, the destination maps page 0, which is none of the allocator's pages. */
  lemma UnmappedSourceExact(p: Phys, sd: nat, srcva: nat, dd: nat, dstva: nat, perm: nat)
    requires Inv(p) && PageZeroReserved(p) && sd in p.roots && dd in p.roots && UserPage(srcva) && UserPage(dstva)
    requires HasU(perm) && HasP(perm) && OnlySyscallBits(perm) && Tgt(p, Key(sd, srcva)) == -1
    ensures var (q, rc) := SysPageMap(p, sd, srcva, dd, dstva, perm);
      && (rc == -E_INVAL <==> !Present(At(p, sd, PDX(srcva))) || HasW(perm))
      && (rc != 0 ==> q == p)
      && (rc == 0 ==> Mappings(q) == Mappings(p)[Key(dd, dstva) := MkPte(0, perm)] && !Inv(q))
  {
    KeyIsRef(p.roots, sd, srcva);
    if Present(At(p, sd, PDX(srcva))) { assert PteWord(p, Key(sd, srcva)) == 0; }
    InsertPageZero(p, dd, dstva, perm);
  }

  /** sys_page_map refuses exactly for an address that is no page below UTOP, permissions outside
      PTE_SYSCALL or without U and P, a source without a page table, or the right to write asked of a
      page without it; no refused or failed call has an effect. */
  lemma SysPageMapErrors(p: Phys, sd: nat, srcva: nat, dd: nat, dstva: nat, perm: nat)
    requires Inv(p) && PageZeroReserved(p) && sd in p.roots && dd in p.roots
    ensures var (q, rc) := SysPageMap(p, sd, srcva, dd, dstva, perm);
      && rc in {0, -E_INVAL, -E_NO_MEM} && (rc != 0 ==> q == p)
      && (rc == -E_INVAL <==>
            || !UserPage(srcva) || !UserPage(dstva) || !HasU(perm) || !HasP(perm) || !OnlySyscallBits(perm)
            || !Present(At(p, sd, PDX(srcva))) || (HasW(perm) && !HasW(PteWord(p, Key(sd, srcva)))))
  {
    if UserPage(srcva) && UserPage(dstva) && HasU(perm) && HasP(perm) && OnlySyscallBits(perm) {
      KeyIsRef(p.roots, sd, srcva);
      if Tgt(p, Key(sd, srcva)) == -1 {
        UnmappedSourceExact(p, sd, srcva, dd, dstva, perm);
      } else {
        SysPageMapCorrect(p, sd, srcva, dd, dstva, perm);
      }
    }
  }

  /** sys_page_unmap refuses exactly an address that is no page below UTOP, without effect. */
  lemma SysPageUnmapErrors(p: Phys, d: nat, va: nat)
    ensures var (q, rc) := SysPageUnmap(p, d, va);
      && (rc == -E_INVAL <==> va >= UTOP || va % PGSIZE != 0) && (rc != 0 ==> q == p) && rc in {0, -E_INVAL}
  {}

  /** sys_page_unmap takes the key out of the map and keeps the invariant, except that an address
      with a table but no mapping frees page 0 instead of "silently succeeding". */
  lemma SysPageUnmapExact(p: Phys, d: nat, va: nat)
    requires Inv(p) && PageZeroReserved(p) && d in p.roots && UserPage(va)
    ensures var (q, rc) := SysPageUnmap(p, d, va);
      && rc == 0
      && (Inv(q) && Mappings(q) == Mappings(p) - {Key(d, va)} <==>
            !Present(At(p, d, PDX(va))) || Tgt(p, Key(d, va)) != -1)
  {
    KeyIsRef(p.roots, d, va);
    Remove4Exact(p, d, PDX(va), PTX(va));
    if !Present(At(p, d, PDX(va))) || Tgt(p, Key(d, va)) != -1 {
      RemoveAgree(p, d, PDX(va), PTX(va));
      RemoveCorrect(p, d, PDX(va), PTX(va));
    }
  }

  /** Mapping a page at an unmapped address and unmapping it again restores physical memory, the
      counts and the free list. */
  lemma MapUnmap(p: Phys, sd: nat, srcva: nat, dd: nat, dstva: nat, perm: nat)
    requires Inv(p) && sd in p.roots && dd in p.roots && UserPage(srcva) && UserPage(dstva)
    requires HasU(perm) && HasP(perm) && OnlySyscallBits(perm)
    requires Tgt(p, Key(sd, srcva)) != -1 && (HasW(perm) ==> HasW(PteWord(p, Key(sd, srcva))))
    requires Present(At(p, dd, PDX(dstva))) && Tgt(p, Key(dd, dstva)) == -1
    requires p.refs[Tgt(p, Key(sd, srcva))] + 1 < REFMOD
    ensures SysPageMap(p, sd, srcva, dd, dstva, perm).1 == 0
    ensures SysPageUnmap(SysPageMap(p, sd, srcva, dd, dstva, perm).0, dd, dstva) == (p, 0)
  {
    var f := Tgt(p, Key(sd, srcva));
    KeyIsRef(p.roots, sd, srcva);
    KeyIsRef(p.roots, dd, dstva);
    MappedFrame(p, Key(sd, srcva));
    InsertRemove(p, dd, PDX(dstva), PTX(dstva), f, perm);
  }

  lemma InsertRemove(p: Phys, d: nat, i: nat, j: nat, f: nat, perm: nat)
    requires Inv(p) && IsRef(p.roots, Pte(d, i, j)) && Insertable(p, f) && perm < PGSIZE
    requires Present(At(p, d, i)) && Tgt(p, Pte(d, i, j)) == -1 && 0 < p.refs[f] && p.refs[f] + 1 < REFMOD
    ensures Insert4(p, d, i, j, f, perm).1 == 0 && Remove4(Insert4(p, d, i, j, f, perm).0, d, i, j) == p
  {
    var t := PteFrame(At(p, d, i));
    var w := MkPte(f, perm);
    var q := Insert4(p, d, i, j, f, perm).0;
    assert At(p, t, j) == 0 by { assert PteWord(p, Pte(d, i, j)) == 0; }
    PteStore(p, d, i, j, w);
    FilledEmpty(p, d, i, j, f, perm);
    UndoFill(p, q, d, i, j, f, w);
  }

  lemma FilledEmpty(p: Phys, d: nat, i: nat, j: nat, f: nat, perm: nat)
    requires Present(At(p, d, i)) && At(p, PteFrame(At(p, d, i)), j) == 0 && perm < PGSIZE
    requires f < |p.refs| && f < MAXFRAMES && f !in p.free && p.refs[f] + 1 < REFMOD
    ensures Insert4(p, d, i, j, f, perm) ==
      (Store(p, PteFrame(At(p, d, i)), j, MkPte(f, perm)).(refs := p.refs[f := p.refs[f] + 1]), 0)
  {}

  /** page_remove takes back what has just been stored and counted. */
  lemma UndoFill(p: Phys, q: Phys, d: nat, i: nat, j: nat, f: nat, w: Word)
    requires Present(At(p, d, i)) && At(p, PteFrame(At(p, d, i)), j) == 0
    requires f < |p.refs| && 0 < p.refs[f] && p.refs[f] + 1 < REFMOD && PteFrame(w) == f
    requires q == Store(p, PteFrame(At(p, d, i)), j, w).(refs := p.refs[f := p.refs[f] + 1])
    requires At(q, d, i) == At(p, d, i) && At(q, PteFrame(At(p, d, i)), j) == w
    ensures Remove4(q, d, i, j) == p
  {
    var t := PteFrame(At(p, d, i));
    assert PageDecref(q, f) == q.(refs := p.refs);
    StoreBack(p, t, j, w);
  }

  lemma StoreBack(p: Phys, t: nat, j: nat, w: Word)
    requires At(p, t, j) == 0
    ensures Store(Store(p, t, j, w), t, j, 0) == p
  {}

  // ---------------------------------------------------------------- as they run

  method AllocPage(m: Pmap, d: nat, va: nat, perm: Word) returns (rc: int)
    requires m.Valid() && PageZeroReserved(m.State()) && UenvsMapped(m.State()) && d in m.roots
    modifies m`freeHead, m`free, m.mem, m.ppRef, m.ppLink
    ensures m.Linked() && (m.State(), rc) == SysPageAlloc(old(m.State()), d, va, perm)
  {
    if va > UTOP || va % PGSIZE != 0 || !HasU(perm) || !HasP(perm) {
      return -E_INVAL;
    }
    ghost var p := m.State();
    if p.free != [] {
      AllocKeeps(p);
      AllocUenvs(p);
    }
    var page := m.PageAlloc();
    if page == NULL {
      return -E_NO_MEM;
    }
    rc := m.PageInsert4(d, page, va, perm);
    if rc < 0 {
      m.PageFree(page);
      return -E_NO_MEM;
    }
    return 0;
  }

  /** With all the checks passed. */
  lemma MapInserts(p: Phys, sd: nat, srcva: nat, dd: nat, dstva: nat, perm: Word)
    requires UserPage(srcva) && UserPage(dstva) && HasU(perm) && HasP(perm) && OnlySyscallBits(perm)
    requires Present(At(p, sd, PDX(srcva)))
    requires var w := PteWord(p, Key(sd, srcva)); PteFrame(w) < MAXFRAMES && (HasW(perm) ==> HasW(w))
    ensures var f := PteFrame(PteWord(p, Key(sd, srcva)));
      SysPageMap(p, sd, srcva, dd, dstva, perm) == InsertWord4(p, dd, PDX(dstva), PTX(dstva), f, EntryWord(f, perm))
  {
    EntryLow(PteFrame(PteWord(p, Key(sd, srcva))), perm);
  }

  method MapPage(m: Pmap, sd: nat, srcva: nat, dd: nat, dstva: nat, perm: Word) returns (rc: int)
    requires m.Valid() && PageZeroReserved(m.State()) && sd in m.roots && dd in m.roots
    modifies m`freeHead, m`free, m.mem, m.ppRef, m.ppLink
    ensures m.Linked() && (m.State(), rc) == SysPageMap(old(m.State()), sd, srcva, dd, dstva, perm)
  {
    if !UserPage(srcva) || !UserPage(dstva) {
      return -E_INVAL;
    }
    if !HasU(perm) || !HasP(perm) || !OnlySyscallBits(perm) {
      return -E_INVAL;
    }
    var pte := m.PgdirWalk(sd, srcva, false);
    if pte == NULL {
      return -E_INVAL;
    }
    ghost var p := m.State();
    var word := m.mem[pte];
    assert word == PteWord(p, Key(sd, srcva));
    if HasW(perm) && !HasW(word) {
      return -E_INVAL;
    }
    DecrefCounted(p, sd, srcva);
    MapInserts(p, sd, srcva, dd, dstva, perm);
    rc := m.PageInsert4(dd, PteFrame(word), dstva, perm);
  }

  method UnmapPage(m: Pmap, d: nat, va: nat) returns (rc: int)
    requires m.Valid() && PageZeroReserved(m.State()) && d in m.roots
    modifies m`freeHead, m`free, m.mem, m.ppRef, m.ppLink
    ensures m.Linked() && (m.State(), rc) == SysPageUnmap(old(m.State()), d, va)
  {
    if !UserPage(va) {
      return -E_INVAL;
    }
    m.PageRemove4(d, va);
    return 0;
  }
}
