/**
One processor's cached translations against the page tables it has loaded. The processor
may fill its TLB and its paging-structure cache, or drop entries, between any two memory
writes of the kernel; INVLPG and a write of CR3 invalidate as section 4.10.4 of the Intel
SDM volume 3A says. lab4's page_remove and page_insert leave no stale entry under any such
interleaving; lab3's in-place re-insertion can.
*/
module Tlb {
  import opened Layout
  import opened Options
  import opened PhysicalMemory
  import opened PageTables
  import opened Lab4Paging
  import opened AddressSpaces

  /** A user page by directory and table index. */
  datatype Page = Page(i: nat, j: nat)

  /** `cr3` is the loaded directory, `cur` is curenv->env_pgdir (None when curenv is NULL),
      `tlb` holds whole translations, `pdes` cached directory entries. */
  datatype Cpu = Cpu(p: Phys, cr3: nat, cur: Option<nat>, tlb: map<Page, Word>, pdes: map<nat, nat>)

  ghost function Key(c: Cpu, v: Page): Ref { Pte(c.cr3, v.i, v.j) }

  /** Every cached translation except those of pages in `pending` is what the tables say. */
  ghost predicate AgreesBut(c: Cpu, pending: set<Page>) {
    && (forall v :: v in c.tlb && v !in pending ==> Key(c, v) in Mappings(c.p) && Mappings(c.p)[Key(c, v)] == c.tlb[v])
    && (forall i :: i in c.pdes ==> IsRef(c.p.roots, Pde(c.cr3, i)) && Tgt(c.p, Pde(c.cr3, i)) == c.pdes[i])
  }

  ghost predicate Agrees(c: Cpu) { AgreesBut(c, {}) }

  /** curenv's directory is the loaded one, except in env_free after the switch to kern_pgdir, which
      stays loaded while there is no curenv. */
  ghost predicate Loaded(c: Cpu) {
    && c.p.kdir !in c.p.roots
    && (c.cr3 in c.p.roots || c.cr3 == c.p.kdir)
    && (c.cur.Some? && c.cr3 in c.p.roots ==> c.cur.value == c.cr3)
    && (c.cur.None? ==> c.cr3 == c.p.kdir)
  }

  ghost predicate Good(c: Cpu) { Inv(c.p) && Loaded(c) && Agrees(c) }

  /** Any number of fills and evictions: a new translation is read through the tables as they
      are now, starting from the directory or from a cached directory entry. */
  ghost predicate Fill(c: Cpu, e: Cpu) {
    && e.p == c.p && e.cr3 == c.cr3 && e.cur == c.cur
    && (forall i :: i in e.pdes ==>
          || (i in c.pdes && e.pdes[i] == c.pdes[i])
          || (IsRef(c.p.roots, Pde(c.cr3, i)) && Tgt(c.p, Pde(c.cr3, i)) == e.pdes[i]))
    && (forall v :: v in e.tlb ==>
          || (v in c.tlb && e.tlb[v] == c.tlb[v])
          || (Key(c, v) in Mappings(c.p) && Mappings(c.p)[Key(c, v)] == e.tlb[v])
          || (v.i in c.pdes && v.j < NPTENTRIES && Present(At(c.p, c.pdes[v.i], v.j))
              && At(c.p, c.pdes[v.i], v.j) == e.tlb[v]))
  }

  function SetMem(c: Cpu, p: Phys): Cpu { c.(p := p) }

  /** tlb_invalidate: INVLPG drops the page's translation and every cached directory entry. */
  function Invalidate(c: Cpu, d: nat, v: Page): Cpu {
    if c.cur.None? || c.cur.value == d then c.(tlb := c.tlb - {v}, pdes := map[]) else c
  }

  /** lcr3 */
  function Lcr3(c: Cpu, d: nat): Cpu { c.(cr3 := d, tlb := map[], pdes := map[]) }

  // ---------------------------------------------------------------- single steps

  lemma FillAgrees(c: Cpu, e: Cpu, pending: set<Page>)
    requires AgreesBut(c, pending) && Fill(c, e)
    ensures AgreesBut(e, pending)
  {
    forall v | v in e.tlb && v !in pending
      ensures Key(e, v) in Mappings(e.p) && Mappings(e.p)[Key(e, v)] == e.tlb[v]
    {
      MappingsMembers(c.p);
      if v.i in c.pdes && v.j < NPTENTRIES && Present(At(c.p, c.pdes[v.i], v.j))
         && At(c.p, c.pdes[v.i], v.j) == e.tlb[v] {
        assert IsRef(c.p.roots, Key(c, v)) && Tgt(c.p, Pde(c.cr3, v.i)) == c.pdes[v.i];
      }
    }
  }

  /** A write that changes no entry of the loaded directory's tables. */
  lemma QuietWrite(c: Cpu, p: Phys, pending: set<Page>)
    requires AgreesBut(c, pending)
    requires forall r :: r in Mappings(c.p) && r.d == c.cr3 ==> r in Mappings(p) && Mappings(p)[r] == Mappings(c.p)[r]
    requires forall i :: IsRef(c.p.roots, Pde(c.cr3, i)) && Tgt(c.p, Pde(c.cr3, i)) != -1 ==>
      IsRef(p.roots, Pde(c.cr3, i)) && Tgt(p, Pde(c.cr3, i)) == Tgt(c.p, Pde(c.cr3, i))
    ensures AgreesBut(SetMem(c, p), pending)
  {
    var e := SetMem(c, p);
    assert forall v :: Key(e, v) == Key(c, v);
  }

  /** A write of one table entry makes at most that page pending. */
  lemma EntryWrite(c: Cpu, p: Phys, d: nat, v: Page)
    requires Agrees(c) && p.roots == c.p.roots
    requires Mappings(p) - {Pte(d, v.i, v.j)} == Mappings(c.p) - {Pte(d, v.i, v.j)}
    requires forall i :: IsRef(c.p.roots, Pde(c.cr3, i)) ==> Tgt(p, Pde(c.cr3, i)) == Tgt(c.p, Pde(c.cr3, i))
    ensures AgreesBut(SetMem(c, p), if c.cr3 == d then {v} else {})
  {
    var e := SetMem(c, p);
    var k := Pte(d, v.i, v.j);
    forall u | u in e.tlb && u !in (if c.cr3 == d then {v} else {})
      ensures Key(e, u) in Mappings(p) && Mappings(p)[Key(e, u)] == e.tlb[u]
    {
      assert Key(e, u) == Key(c, u) != k;
      assert Key(c, u) in Mappings(c.p) - {k};
      assert Key(c, u) in Mappings(p) - {k};
      assert (Mappings(p) - {k})[Key(c, u)] == (Mappings(c.p) - {k})[Key(c, u)];
    }
  }

  /** The invalidation clears what is pending, because pgdir is loaded only if it is curenv's
      or there is no curenv. */
  lemma InvalidateClears(c: Cpu, d: nat, v: Page)
    requires Loaded(c) && d in c.p.roots && AgreesBut(c, if c.cr3 == d then {v} else {})
    ensures Agrees(Invalidate(c, d, v)) && Loaded(Invalidate(c, d, v))
  {}

  // ---------------------------------------------------------------- page_remove

  /** lab4 page_remove of a page mapped at v, write by write with fills in between: the count
      and the free list, the entry, INVLPG. */
  ghost predicate RemoveRun(c: Cpu, m: seq<Cpu>, d: nat, v: Page) {
    && |m| == 6
    && Fill(c, m[0])
    && m[1] == SetMem(m[0], PageDecref(m[0].p, PteFrame(PteWord(m[0].p, Pte(d, v.i, v.j)))))
    && Fill(m[1], m[2])
    && m[3] == SetMem(m[2], Store(m[2].p, PteFrame(At(m[2].p, d, v.i)), v.j, 0))
    && Fill(m[3], m[4])
    && m[5] == Invalidate(m[4], d, v)
  }

  lemma DecrefQuiet(p: Phys, f: nat)
    ensures Mappings(PageDecref(p, f)) == Mappings(p)
    ensures forall r :: Tgt(PageDecref(p, f), r) == Tgt(p, r)
    ensures PageDecref(p, f).roots == p.roots
  {
    SameMemory(p, PageDecref(p, f));
    MappingsMembers(p);
    MappingsEqual(PageDecref(p, f), Mappings(p));
  }

  /** Up to the write of the entry nothing changes for the processor. */
  lemma RemoveHead(c: Cpu, m0: Cpu, m1: Cpu, m2: Cpu, f: nat)
    requires Agrees(c) && Fill(c, m0) && m1 == SetMem(m0, PageDecref(m0.p, f)) && Fill(m1, m2)
    ensures Agrees(m2) && m2.p == PageDecref(c.p, f) && m2.cr3 == c.cr3 && m2.cur == c.cur
    ensures m2.p.roots == c.p.roots && Mappings(m2.p) == Mappings(c.p)
    ensures forall r :: Tgt(m2.p, r) == Tgt(c.p, r)
  {
    DecrefQuiet(c.p, f);
    FillAgrees(c, m0, {});
    QuietWrite(m0, m1.p, {});
    FillAgrees(m1, m2, {});
  }

  /** The write and the invalidation. */
  lemma RemoveTail(m2: Cpu, m3: Cpu, m4: Cpu, m5: Cpu, d: nat, v: Page)
    requires Agrees(m2) && m3.cr3 == m2.cr3 && m3 == SetMem(m2, m3.p) && m3.p.roots == m2.p.roots
    requires m3.p.kdir == m2.p.kdir
    requires Mappings(m3.p) == Mappings(m2.p) - {Pte(d, v.i, v.j)}
    requires forall i :: IsRef(m2.p.roots, Pde(m2.cr3, i)) ==> Tgt(m3.p, Pde(m2.cr3, i)) == Tgt(m2.p, Pde(m2.cr3, i))
    requires Loaded(m2) && d in m2.p.roots && Fill(m3, m4) && m5 == Invalidate(m4, d, v)
    ensures Agrees(m5) && Loaded(m5) && m5.p == m3.p && m5.cr3 == m2.cr3 && m5.cur == m2.cur
  {
    EntryWrite(m2, m3.p, d, v);
    FillAgrees(m3, m4, if m2.cr3 == d then {v} else {});
    InvalidateClears(m4, d, v);
  }

  lemma RemoveRunAgrees(c: Cpu, m: seq<Cpu>, d: nat, v: Page)
    requires Inv(c.p) && Loaded(c) && Agrees(c) && RemoveRun(c, m, d, v)
    requires IsRef(c.p.roots, Pte(d, v.i, v.j)) && Tgt(c.p, Pte(d, v.i, v.j)) != -1
    ensures m[5].p == Remove4(c.p, d, v.i, v.j) && Inv(m[5].p) && Agrees(m[5]) && Loaded(m[5])
    ensures m[5].cr3 == c.cr3 && m[5].cur == c.cur
  {
    RemoveHead(c, m[0], m[1], m[2], PteFrame(PteWord(c.p, Pte(d, v.i, v.j))));
    RemoveAgree(c.p, d, v.i, v.j);
    RemoveCorrect(c.p, d, v.i, v.j);
    assert At(m[2].p, d, v.i) == At(c.p, d, v.i);
    assert m[3].p == Remove4(c.p, d, v.i, v.j);
    RemoveTail(m[2], m[3], m[4], m[5], d, v);
  }

  // ---------------------------------------------------------------- page_insert

  /** lab4 page_insert: either the table is made, or the old page is removed, or neither; then
      the entry is written. `m` lists the states in between. */
  ghost predicate InsertRun(c: Cpu, m: seq<Cpu>, e: Cpu, d: nat, v: Page, f: nat, perm: nat)
    requires f < MAXFRAMES && perm < PGSIZE
  {
    var after := Insert4(c.p, d, v.i, v.j, f, perm).0;
    if !Present(At(c.p, d, v.i)) then
      |m| == 1 && Fill(SetMem(c, WalkCreate(c.p, d, v.i).0), m[0]) && e == SetMem(m[0], after)
    else if Tgt(c.p, Pte(d, v.i, v.j)) == -1 then
      m == [] && e == SetMem(c, after)
    else
      |m| == 7 && RemoveRun(c, m[..6], d, v) && Fill(m[5], m[6]) && e == SetMem(m[6], after)
  }

  /** Writing an entry that no cached translation can be about. */
  lemma FreshWrite(c: Cpu, p: Phys, d: nat, v: Page, w: Word)
    requires Agrees(c) && p.roots == c.p.roots && Pte(d, v.i, v.j) !in Mappings(c.p)
    requires Mappings(p) == Mappings(c.p)[Pte(d, v.i, v.j) := w]
    requires forall i :: IsRef(c.p.roots, Pde(c.cr3, i)) && Tgt(c.p, Pde(c.cr3, i)) != -1 ==>
      Tgt(p, Pde(c.cr3, i)) == Tgt(c.p, Pde(c.cr3, i))
    ensures Agrees(SetMem(c, p))
  {
    QuietWrite(c, p, {});
  }

  lemma FillTables(q: Phys, d: nat, v: Page, f: nat, w: Word)
    requires Inv(q) && IsRef(q.roots, Pte(d, v.i, v.j)) && Present(At(q, d, v.i))
    ensures var s := IncRef(Store(PullBack(q, f), PteFrame(At(q, d, v.i)), v.j, w), f);
      forall r :: IsRef(q.roots, r) && !r.Pte? ==> Tgt(s, r) == Tgt(q, r)
  {
    var s := IncRef(Store(PullBack(q, f), PteFrame(At(q, d, v.i)), v.j, w), f);
    PteStore(q, d, v.i, v.j, w);
    assert s.mem == Store(q, PteFrame(At(q, d, v.i)), v.j, w).mem;
    SameMemory(Store(q, PteFrame(At(q, d, v.i)), v.j, w), s);
  }

  /** The last write of page_insert is about a page no translation can be cached for. */
  lemma InsertWrites(x: Cpu, p: Phys, d: nat, v: Page, f: nat, perm: nat)
    requires Inv(p) && IsRef(p.roots, Pte(d, v.i, v.j)) && (Present(At(p, d, v.i)) || p.free != [])
    requires Insertable(p, f) && perm < PGSIZE
    requires Agrees(x) && x.p == Emptied(p, d, v.i, v.j)
    ensures Agrees(SetMem(x, Insert4(p, d, v.i, v.j, f, perm).0))
  {
    var q := Emptied(p, d, v.i, v.j);
    var s := Insert4(p, d, v.i, v.j, f, perm).0;
    EmptiedOk(p, d, v.i, v.j);
    InsertParts(p, d, v.i, v.j, f, MkPte(f, perm));
    Insert4Correct(p, d, v.i, v.j, f, perm);
    FillTables(q, d, v, f, MkPte(f, perm));
    MapPut(Mappings(p), Pte(d, v.i, v.j), MkPte(f, perm));
    MappingsMembers(q);
    FreshWrite(x, s, d, v, MkPte(f, perm));
  }

  /** page_insert leaves every cached translation right, also when it only lowers the
      permissions of a mapped page, as duppage does when it turns W into COW. */
  lemma InsertRunAgrees(c: Cpu, m: seq<Cpu>, e: Cpu, d: nat, v: Page, f: nat, perm: nat)
    requires Inv(c.p) && Loaded(c) && Agrees(c) && perm < PGSIZE && Insertable(c.p, f)
    requires IsRef(c.p.roots, Pte(d, v.i, v.j)) && (Present(At(c.p, d, v.i)) || c.p.free != [])
    requires InsertRun(c, m, e, d, v, f, perm)
    ensures Agrees(e) && Loaded(e) && SameLoad(c, e) && e.p == Insert4(c.p, d, v.i, v.j, f, perm).0
    ensures e.p.roots == c.p.roots
  {
    EmptiedOk(c.p, d, v.i, v.j);
    InsertFrame(c.p, d, v, f, perm);
    if !Present(At(c.p, d, v.i)) {
      var x := SetMem(c, WalkCreate(c.p, d, v.i).0);
      WalkCreateCorrect(c.p, d, v.i);
      QuietWrite(c, x.p, {});
      FillAgrees(x, m[0], {});
      InsertWrites(m[0], c.p, d, v, f, perm);
    } else if Tgt(c.p, Pte(d, v.i, v.j)) == -1 {
      InsertWrites(c, c.p, d, v, f, perm);
    } else {
      RemoveRunAgrees(c, m[..6], d, v);
      FillAgrees(m[5], m[6], {});
      InsertWrites(m[6], c.p, d, v, f, perm);
    }
  }

  lemma InsertFrame(p: Phys, d: nat, v: Page, f: nat, perm: nat)
    requires Inv(p) && IsRef(p.roots, Pte(d, v.i, v.j)) && (Present(At(p, d, v.i)) || p.free != [])
    requires Insertable(p, f) && perm < PGSIZE
    ensures var s := Insert4(p, d, v.i, v.j, f, perm).0; s.roots == p.roots && s.kdir == p.kdir
  {
    InsertAgree(p, d, v.i, v.j, f, perm);
    InsertCorrect(p, d, v.i, v.j, f, perm);
  }

  // ---------------------------------------------------------------- lab3's re-insertion

  /** lab3 page_insert of the page already mapped at v: count, INVLPG, then the new entry. */
  ghost predicate ReinsertRun3(c: Cpu, m: seq<Cpu>, d: nat, v: Page, w: Word) {
    && |m| == 4
    && m[0] == SetMem(c, DecRef(c.p, PteFrame(PteWord(c.p, Pte(d, v.i, v.j)))))
    && m[1] == Invalidate(m[0], d, v)
    && Fill(m[1], m[2])
    && m[3] == SetMem(m[2], Store(m[2].p, PteFrame(At(m[2].p, d, v.i)), v.j, w))
  }

  /** lab3 invalidates before it stores, so the old translation can be read back in between:
      every run ends in agreement exactly when the directory is not loaded or the entry does
      not change. */
  lemma Reinsert3Exact(c: Cpu, d: nat, v: Page, w: Word)
    requires Inv(c.p) && Loaded(c) && Agrees(c) && d in c.p.roots && Present(w)
    requires IsRef(c.p.roots, Pte(d, v.i, v.j)) && Tgt(c.p, Pte(d, v.i, v.j)) != -1
    ensures (forall m: seq<Cpu> :: ReinsertRun3(c, m, d, v, w) ==> Agrees(m[3]))
      <==> c.cr3 != d || w == PteWord(c.p, Pte(d, v.i, v.j))
  {
    if c.cr3 != d || w == PteWord(c.p, Pte(d, v.i, v.j)) {
      forall m: seq<Cpu> | ReinsertRun3(c, m, d, v, w) ensures Agrees(m[3]) {
        Reinsert3Agrees(c, m, d, v, w);
      }
    } else {
      Reinsert3Stale(c, d, v, w);
    }
  }

  lemma CountDownQuiet(p: Phys, f: nat)
    ensures Mappings(DecRef(p, f)) == Mappings(p) && DecRef(p, f).mem == p.mem && DecRef(p, f).roots == p.roots
    ensures forall r :: Tgt(DecRef(p, f), r) == Tgt(p, r)
  {
    SameMemory(p, DecRef(p, f));
    MappingsMembers(p);
    MappingsEqual(DecRef(p, f), Mappings(p));
  }

  lemma RestoreMappings(p: Phys, q: Phys, d: nat, v: Page, w: Word)
    requires Inv(p) && IsRef(p.roots, Pte(d, v.i, v.j)) && Present(At(p, d, v.i)) && Present(w)
    requires q.mem == p.mem && q.roots == p.roots
    ensures var s := Store(q, PteFrame(At(q, d, v.i)), v.j, w);
      && s.roots == p.roots && Mappings(s) == Mappings(p)[Pte(d, v.i, v.j) := w]
      && (forall r :: IsRef(p.roots, r) && !r.Pte? ==> Tgt(s, r) == Tgt(p, r))
  {
    var t := Store(p, PteFrame(At(p, d, v.i)), v.j, w);
    var s := Store(q, PteFrame(At(q, d, v.i)), v.j, w);
    PteStore(p, d, v.i, v.j, w);
    SameMemory(p, q);
    SameMemory(t, s);
    MappingsStep(p, s, Pte(d, v.i, v.j));
  }

  lemma Reinsert3Head(c: Cpu, m0: Cpu, m1: Cpu, m2: Cpu, d: nat, v: Page, f: nat)
    requires Agrees(c) && m0 == SetMem(c, DecRef(c.p, f)) && m1 == Invalidate(m0, d, v) && Fill(m1, m2)
    ensures Agrees(m2) && m2.p == DecRef(c.p, f) && m2.cr3 == c.cr3
    ensures Mappings(m2.p) == Mappings(c.p) && m2.p.mem == c.p.mem && m2.p.roots == c.p.roots
    ensures forall r :: Tgt(m2.p, r) == Tgt(c.p, r)
  {
    CountDownQuiet(c.p, f);
    QuietWrite(c, m0.p, {});
    assert Agrees(m1);
    FillAgrees(m1, m2, {});
  }

  lemma Reinsert3Agrees(c: Cpu, m: seq<Cpu>, d: nat, v: Page, w: Word)
    requires Inv(c.p) && Loaded(c) && Agrees(c) && d in c.p.roots && Present(w)
    requires IsRef(c.p.roots, Pte(d, v.i, v.j)) && Tgt(c.p, Pte(d, v.i, v.j)) != -1
    requires ReinsertRun3(c, m, d, v, w)
    requires c.cr3 != d || w == PteWord(c.p, Pte(d, v.i, v.j))
    ensures Agrees(m[3])
  {
    Reinsert3Head(c, m[0], m[1], m[2], d, v, PteFrame(PteWord(c.p, Pte(d, v.i, v.j))));
    RestoreMappings(c.p, m[2].p, d, v, w);
    MappingsMembers(c.p);
    QuietWrite(m[2], m[3].p, {});
  }

  /** The run that goes wrong: the processor reads the page in again after INVLPG. */
  ghost function StaleRun(c: Cpu, d: nat, v: Page, w: Word): seq<Cpu> {
    var before := PteWord(c.p, Pte(d, v.i, v.j));
    var m0 := SetMem(c, DecRef(c.p, PteFrame(before)));
    var m1 := Invalidate(m0, d, v);
    var m2 := m1.(tlb := m1.tlb[v := before]);
    [m0, m1, m2, SetMem(m2, Store(m2.p, PteFrame(At(m2.p, d, v.i)), v.j, w))]
  }

  lemma StaleRunIsRun(c: Cpu, d: nat, v: Page, w: Word)
    requires c.cr3 == d && IsRef(c.p.roots, Pte(d, v.i, v.j)) && Tgt(c.p, Pte(d, v.i, v.j)) != -1
    ensures ReinsertRun3(c, StaleRun(c, d, v, w), d, v, w)
  {
    var m := StaleRun(c, d, v, w);
    MappingsMembers(c.p);
    CountDownQuiet(c.p, PteFrame(PteWord(c.p, Pte(d, v.i, v.j))));
    assert m[1].p.roots == c.p.roots && m[1].cr3 == d;
    assert Key(m[1], v) in Mappings(m[1].p);
    assert Fill(m[1], m[2]);
  }

  lemma Reinsert3Stale(c: Cpu, d: nat, v: Page, w: Word)
    requires Inv(c.p) && d in c.p.roots && Present(w)
    requires IsRef(c.p.roots, Pte(d, v.i, v.j)) && Tgt(c.p, Pte(d, v.i, v.j)) != -1
    requires c.cr3 == d && w != PteWord(c.p, Pte(d, v.i, v.j))
    ensures exists m: seq<Cpu> :: ReinsertRun3(c, m, d, v, w) && !Agrees(m[3])
  {
    var m := StaleRun(c, d, v, w);
    StaleRunIsRun(c, d, v, w);
    StaleRunDisagrees(c, d, v, w);
    assert ReinsertRun3(c, m, d, v, w) && !Agrees(m[3]);
  }

  lemma StaleRunDisagrees(c: Cpu, d: nat, v: Page, w: Word)
    requires Inv(c.p) && d in c.p.roots && Present(w)
    requires IsRef(c.p.roots, Pte(d, v.i, v.j)) && Tgt(c.p, Pte(d, v.i, v.j)) != -1
    requires c.cr3 == d && w != PteWord(c.p, Pte(d, v.i, v.j))
    ensures !Agrees(StaleRun(c, d, v, w)[3])
  {
    var m := StaleRun(c, d, v, w);
    CountDownQuiet(c.p, PteFrame(PteWord(c.p, Pte(d, v.i, v.j))));
    assert m[2].p.mem == c.p.mem && m[2].p.roots == c.p.roots;
    RestoreMappings(c.p, m[2].p, d, v, w);
    assert Key(m[3], v) == Pte(d, v.i, v.j) && v in m[3].tlb && v !in {};
    assert Mappings(m[3].p)[Key(m[3], v)] == w != m[3].tlb[v];
  }

  // ---------------------------------------------------------------- env_free

  /** A loop over the indices from i up to n; `turns` holds what turn k may do, as the state before
      it, the state after it, and k. */
  ghost predicate Turns(turns: iset<(Cpu, Cpu, nat)>, c: Cpu, e: Cpu, i: nat, n: nat)
    decreases n - i
  {
    if i >= n then e == c else exists b: Cpu :: (c, b, i) in turns && Turns(turns, b, e, i + 1, n)
  }

  /** A state in `kept` before turn k leads to one in `kept` before turn k + 1. */
  ghost predicate EachKeeps(turns: iset<(Cpu, Cpu, nat)>, kept: iset<(Cpu, nat)>, n: nat) {
    forall x: Cpu, y: Cpu, k: nat :: k < n && (x, k) in kept && (x, y, k) in turns ==> (y, k + 1) in kept
  }

  lemma {:induction false} TurnsKeep(turns: iset<(Cpu, Cpu, nat)>, kept: iset<(Cpu, nat)>,
                                     c: Cpu, e: Cpu, i: nat, n: nat)
    requires i <= n && (c, i) in kept && Turns(turns, c, e, i, n) && EachKeeps(turns, kept, n)
    ensures (e, n) in kept
    decreases n - i
  {
    if i < n {
      var b: Cpu :| (c, b, i) in turns && Turns(turns, b, e, i + 1, n);
      TurnsKeep(turns, kept, b, e, i + 1, n);
    }
  }

  /** One turn of env_free's inner loop: page_remove if the entry is present, and fills. */
  ghost predicate ClearOne(c: Cpu, e: Cpu, d: nat, v: Page) {
    if Tgt(c.p, Pte(d, v.i, v.j)) == -1 then Fill(c, e)
    else exists m: seq<Cpu> :: RemoveRun(c, m, d, v) && Fill(m[5], e)
  }

  ghost function InnerTurns(d: nat, i: nat): iset<(Cpu, Cpu, nat)> {
    iset t: (Cpu, Cpu, nat) | ClearOne(t.0, t.1, d, Page(i, t.2))
  }

  ghost predicate ClearRun(c: Cpu, e: Cpu, d: nat, i: nat) { Turns(InnerTurns(d, i), c, e, 0, NPTENTRIES) }

  /** The end of a turn of the outer loop: the directory entry, then the table's count. */
  ghost predicate DropRun(c: Cpu, x: Cpu, e: Cpu, d: nat, i: nat) {
    && Fill(SetMem(c, Store(c.p, d, i, 0)), x)
    && Fill(SetMem(x, PageDecref(x.p, PteFrame(At(c.p, d, i)))), e)
  }

  ghost predicate TableRun(c: Cpu, e: Cpu, d: nat, i: nat) {
    if !Present(At(c.p, d, i)) then Fill(c, e)
    else exists b: Cpu, x: Cpu :: ClearRun(c, b, d, i) && DropRun(b, x, e, d, i)
  }

  ghost function OuterTurns(d: nat): iset<(Cpu, Cpu, nat)> {
    iset t: (Cpu, Cpu, nat) | TableRun(t.0, t.1, d, t.2)
  }

  ghost predicate TablesRun(c: Cpu, e: Cpu, d: nat) { Turns(OuterTurns(d), c, e, 0, NUSERPDE) }

  ghost function FreeStart(c: Cpu, d: nat): Cpu { if c.cur == Some(d) then Lcr3(c, c.p.kdir) else c }

  ghost function FreeEnd(c: Cpu, d: nat): Cpu {
    SetMem(c, PageDecref(c.p.(roots := c.p.roots - {d}), d)).(cur := if c.cur == Some(d) then None else c.cur)
  }

  /** env_free of the environment whose directory is d, write by write: kern_pgdir is loaded first
      if d is curenv's, then the tables go, then the directory, then (for curenv) curenv becomes
      NULL. */
  ghost predicate FreeRun(c: Cpu, e: Cpu, d: nat) {
    exists a: Cpu, b: Cpu :: Fill(FreeStart(c, d), a) && TablesRun(a, b, d) && e == FreeEnd(b, d)
  }

  ghost predicate SameLoad(c: Cpu, e: Cpu) { e.cr3 == c.cr3 && e.cur == c.cur }

  lemma ClearOneAgrees(c: Cpu, e: Cpu, d: nat, v: Page)
    requires Good(c) && IsRef(c.p.roots, Pte(d, v.i, v.j)) && ClearOne(c, e, d, v)
    ensures Good(e) && SameLoad(c, e) && e.p == Remove(c.p, d, v.i, v.j)
  {
    if Tgt(c.p, Pte(d, v.i, v.j)) == -1 {
      FillAgrees(c, e, {});
    } else {
      var m: seq<Cpu> :| RemoveRun(c, m, d, v) && Fill(m[5], e);
      RemoveRunAgrees(c, m, d, v);
      RemoveAgree(c.p, d, v.i, v.j);
      FillAgrees(m[5], e, {});
    }
  }

  ghost predicate Cleared(c: Cpu, e: Cpu, d: nat, i: nat, j: nat) {
    Good(e) && SameLoad(c, e) && e.p == ClearPtes(c.p, d, i, j)
  }

  lemma ClearTurn(c: Cpu, x: Cpu, y: Cpu, d: nat, i: nat, j: nat)
    requires Good(c) && IsRef(c.p.roots, Pde(d, i)) && j < NPTENTRIES
    requires Cleared(c, x, d, i, j) && ClearOne(x, y, d, Page(i, j))
    ensures Cleared(c, y, d, i, j + 1)
  {
    ClearPtesCorrect(c.p, d, i, j);
    ClearOneAgrees(x, y, d, Page(i, j));
  }

  ghost function InnerKept(c: Cpu, d: nat, i: nat): iset<(Cpu, nat)> {
    iset s: (Cpu, nat) | Cleared(c, s.0, d, i, s.1)
  }

  lemma InnerStep(c: Cpu, d: nat, i: nat, x: Cpu, y: Cpu, j: nat)
    requires Good(c) && IsRef(c.p.roots, Pde(d, i)) && j < NPTENTRIES
    requires (x, j) in InnerKept(c, d, i) && (x, y, j) in InnerTurns(d, i)
    ensures (y, j + 1) in InnerKept(c, d, i)
  {
    ClearTurn(c, x, y, d, i, j);
  }

  lemma InnerKeeps(c: Cpu, d: nat, i: nat)
    requires Good(c) && IsRef(c.p.roots, Pde(d, i))
    ensures EachKeeps(InnerTurns(d, i), InnerKept(c, d, i), NPTENTRIES)
  {
    forall x: Cpu, y: Cpu, j: nat | j < NPTENTRIES && (x, j) in InnerKept(c, d, i) && (x, y, j) in InnerTurns(d, i)
      ensures (y, j + 1) in InnerKept(c, d, i)
    {
      InnerStep(c, d, i, x, y, j);
    }
  }

  lemma InnerStart(c: Cpu, d: nat, i: nat)
    requires Good(c)
    ensures (c, 0) in InnerKept(c, d, i)
  {
    assert Cleared(c, c, d, i, 0);
  }

  lemma ClearRunAgrees(c: Cpu, e: Cpu, d: nat, i: nat)
    requires Good(c) && IsRef(c.p.roots, Pde(d, i)) && ClearRun(c, e, d, i)
    ensures Cleared(c, e, d, i, NPTENTRIES)
  {
    InnerStart(c, d, i);
    InnerKeeps(c, d, i);
    TurnsKeep(InnerTurns(d, i), InnerKept(c, d, i), c, e, 0, NPTENTRIES);
  }

  /** An emptied table leaves the directory, unnoticed by a processor that has another one loaded. */
  lemma DropRunAgrees(b: Cpu, x: Cpu, e: Cpu, d: nat, i: nat)
    requires Good(b) && IsRef(b.p.roots, Pde(d, i)) && Present(At(b.p, d, i)) && b.cr3 != d
    requires forall j: nat :: j < NPTENTRIES ==> Tgt(b.p, Pte(d, i, j)) == -1
    requires DropRun(b, x, e, d, i)
    ensures Good(e) && SameLoad(b, e) && e.p == PageDecref(Store(b.p, d, i, 0), PteFrame(At(b.p, d, i)))
  {
    var t := PteFrame(At(b.p, d, i));
    var s := Store(b.p, d, i, 0);
    DropTable(b.p, d, i);
    DecrefQuiet(s, t);
    DropTableTargets(b.p, d, i);
    QuietWrite(b, s, {});
    FillAgrees(SetMem(b, s), x, {});
    QuietWrite(x, PageDecref(s, t), {});
    FillAgrees(SetMem(x, PageDecref(s, t)), e, {});
  }

  lemma TableRunAgrees(c: Cpu, e: Cpu, d: nat, i: nat)
    requires Good(c) && IsRef(c.p.roots, Pde(d, i)) && c.cr3 != d && TableRun(c, e, d, i)
    ensures Good(e) && SameLoad(c, e) && e.p == FreeTable(c.p, d, i)
  {
    if !Present(At(c.p, d, i)) {
      FillAgrees(c, e, {});
    } else {
      var b: Cpu, x: Cpu :| ClearRun(c, b, d, i) && DropRun(b, x, e, d, i);
      ClearRunAgrees(c, b, d, i);
      ClearPtesCorrect(c.p, d, i, NPTENTRIES);
      assert d in c.p.roots && At(b.p, d, i) == At(c.p, d, i);
      DropRunAgrees(b, x, e, d, i);
    }
  }

  ghost predicate Freed(c: Cpu, e: Cpu, d: nat, i: nat) {
    Good(e) && SameLoad(c, e) && e.p == FreeTables(c.p, d, i)
  }

  lemma TableTurn(c: Cpu, x: Cpu, y: Cpu, d: nat, i: nat)
    requires Good(c) && d in c.p.roots && c.cr3 != d && i < NUSERPDE
    requires Freed(c, x, d, i) && TableRun(x, y, d, i)
    ensures Freed(c, y, d, i + 1)
  {
    FreeTablesCorrect(c.p, d, i);
    TableRunAgrees(x, y, d, i);
  }

  ghost function OuterKept(c: Cpu, d: nat): iset<(Cpu, nat)> {
    iset s: (Cpu, nat) | Freed(c, s.0, d, s.1)
  }

  lemma OuterStep(c: Cpu, d: nat, x: Cpu, y: Cpu, i: nat)
    requires Good(c) && d in c.p.roots && c.cr3 != d && i < NUSERPDE
    requires (x, i) in OuterKept(c, d) && (x, y, i) in OuterTurns(d)
    ensures (y, i + 1) in OuterKept(c, d)
  {
    TableTurn(c, x, y, d, i);
  }

  lemma OuterKeeps(c: Cpu, d: nat)
    requires Good(c) && d in c.p.roots && c.cr3 != d
    ensures EachKeeps(OuterTurns(d), OuterKept(c, d), NUSERPDE)
  {
    forall x: Cpu, y: Cpu, i: nat | i < NUSERPDE && (x, i) in OuterKept(c, d) && (x, y, i) in OuterTurns(d)
      ensures (y, i + 1) in OuterKept(c, d)
    {
      OuterStep(c, d, x, y, i);
    }
  }

  lemma OuterStart(c: Cpu, d: nat)
    requires Good(c)
    ensures (c, 0) in OuterKept(c, d)
  {
    assert Freed(c, c, d, 0);
  }

  lemma TablesRunAgrees(c: Cpu, e: Cpu, d: nat)
    requires Good(c) && d in c.p.roots && c.cr3 != d && TablesRun(c, e, d)
    ensures Freed(c, e, d, NUSERPDE)
  {
    OuterStart(c, d);
    OuterKeeps(c, d);
    TurnsKeep(OuterTurns(d), OuterKept(c, d), c, e, 0, NUSERPDE);
  }

  /** Memory in which everything of other directories is as in p. */
  ghost predicate OthersKept(p: Phys, q: Phys, d: nat) {
    && Others(Mappings(q), d) == Others(Mappings(p), d)
    && (forall r :: IsRef(p.roots, r) && !r.Pte? && r.d != d ==> IsRef(q.roots, r) && Tgt(q, r) == Tgt(p, r))
  }

  lemma TablesKeepOthers(p: Phys, d: nat, n: nat)
    requires Inv(p) && d in p.roots && n <= NUSERPDE
    ensures OthersKept(p, FreeTables(p, d, n), d) && FreeTables(p, d, n).roots == p.roots
    ensures FreeTables(p, d, n).kdir == p.kdir
  {
    FreeTablesOthers(p, d, n);
    FreeTablesCorrect(p, d, n);
  }

  lemma OthersQuiet(c: Cpu, p: Phys, q: Phys, d: nat)
    requires Agrees(c) && c.p == p && c.cr3 != d
    requires forall r :: r in Mappings(p) && r.d != d ==> r in Mappings(q) && Mappings(q)[r] == Mappings(p)[r]
    requires forall r :: IsRef(p.roots, r) && !r.Pte? && r.d != d ==> IsRef(q.roots, r) && Tgt(q, r) == Tgt(p, r)
    ensures Agrees(SetMem(c, q))
  {
    QuietWrite(c, q, {});
  }

  lemma OthersPointwise(m: map<Ref, Word>, n: map<Ref, Word>, d: nat)
    requires Others(m, d) == Others(n, d)
    ensures forall r :: r in m && r.d != d ==> r in n && n[r] == m[r]
  {
    forall r | r in m && r.d != d ensures r in n && n[r] == m[r] {
      assert r in Others(m, d) && Others(m, d)[r] == m[r];
      assert r in Others(n, d) && Others(n, d)[r] == n[r];
    }
  }

  lemma KeptStep(c: Cpu, a: Phys, p: Phys, q: Phys, d: nat)
    requires Agrees(c) && c.p == p && c.cr3 != d
    requires OthersKept(a, p, d) && OthersKept(a, q, d) && p.roots == a.roots
    ensures Agrees(SetMem(c, q))
  {
    OthersPointwise(Mappings(p), Mappings(q), d);
    OthersQuiet(c, p, q, d);
  }

  lemma VmKeepsOthers(p: Phys, d: nat)
    requires Inv(p) && d in p.roots
    ensures Inv(FreeVm(p, d)) && FreeVm(p, d).roots == p.roots - {d} && FreeVm(p, d).kdir == p.kdir
    ensures OthersKept(p, FreeVm(p, d), d)
  {
    var q := FreeVm(p, d);
    FreeVmCorrect(p, d);
    forall r | r in Mappings(q) ensures r.d != d { MappingsMembers(q); }
    OthersIdem(Mappings(p), d);
  }

  lemma OthersIdem(m: map<Ref, Word>, d: nat)
    ensures Others(Others(m, d), d) == Others(m, d)
  {}

  lemma FreeEndAgrees(p: Phys, b: Cpu, d: nat)
    requires Inv(p) && d in p.roots && Good(b) && b.p == FreeTables(p, d, NUSERPDE) && b.cr3 != d
    ensures Good(FreeEnd(b, d)) && FreeEnd(b, d).p == FreeVm(p, d)
  {
    VmKeepsOthers(p, d);
    TablesKeepOthers(p, d, NUSERPDE);
    KeptStep(b, p, b.p, FreeVm(p, d), d);
  }

  /** env_free leaves every cached translation right. */
  lemma FreeRunAgrees(c: Cpu, e: Cpu, d: nat)
    requires Good(c) && d in c.p.roots && FreeRun(c, e, d)
    ensures Good(e) && e.p == FreeVm(c.p, d) && e.p.roots == c.p.roots - {d}
    ensures if c.cur == Some(d) then e.cur == None else SameLoad(c, e)
  {
    var a: Cpu, b: Cpu :| Fill(FreeStart(c, d), a) && TablesRun(a, b, d) && e == FreeEnd(b, d);
    FillAgrees(FreeStart(c, d), a, {});
    TablesRunAgrees(a, b, d);
    FreeEndAgrees(c.p, b, d);
    VmKeepsOthers(c.p, d);
  }

  // ---------------------------------------------------------------- whole runs

  datatype Label =
    | Filling
    | Removing(m: seq<Cpu>, d: nat, v: Page)
    | Inserting(m: seq<Cpu>, d: nat, v: Page, f: nat, perm: nat)
    | Freeing(d: nat)
    | SettingUp
    | Running(d: nat)
    | UserStore(f: nat, k: nat, w: Word)

  /** One event: fills, a kernel operation carried out as a run of writes and fills, a context
      switch by env_run, or a store by the program into a page that is no table. */
  ghost predicate Step(c: Cpu, l: Label, e: Cpu) {
    match l
    case Filling => Fill(c, e)
    case Removing(m, d, v) =>
      && IsRef(c.p.roots, Pte(d, v.i, v.j)) && Tgt(c.p, Pte(d, v.i, v.j)) != -1
      && RemoveRun(c, m, d, v) && e == m[5]
    case Inserting(m, d, v, f, perm) =>
      && IsRef(c.p.roots, Pte(d, v.i, v.j)) && (Present(At(c.p, d, v.i)) || c.p.free != [])
      && Insertable(c.p, f) && perm < PGSIZE && f < MAXFRAMES && InsertRun(c, m, e, d, v, f, perm)
      && (Tgt(c.p, Pte(d, v.i, v.j)) == f || c.p.refs[f] + 1 < REFMOD)
    case Freeing(d) => d in c.p.roots && FreeRun(c, e, d)
    case SettingUp => SetupVm(c.p).Some? && e == SetMem(c, SetupVm(c.p).value.0)
    case Running(d) => d in c.p.roots && e == if c.cur == Some(d) then c else Lcr3(c, d).(cur := Some(d))
    case UserStore(f, k, w) =>
      && f < |c.p.refs| && k < NPTENTRIES && f != c.p.kdir
      && (forall r :: IsRef(c.p.roots, r) && !r.Pte? ==> Tgt(c.p, r) != f)
      && e == SetMem(c, Store(c.p, f, k, w))
  }

  /** More directories, with the same mappings and tables for the old ones. */
  lemma GrowQuiet(c: Cpu, q: Phys)
    requires Agrees(c) && c.p.roots <= q.roots && Mappings(q) == Mappings(c.p)
    requires forall r :: IsRef(c.p.roots, r) ==> Tgt(q, r) == Tgt(c.p, r)
    ensures Agrees(SetMem(c, q))
  {
    forall i | IsRef(c.p.roots, Pde(c.cr3, i)) ensures IsRef(q.roots, Pde(c.cr3, i)) {}
    QuietWrite(c, q, {});
  }

  lemma SetupAgrees(c: Cpu)
    requires Good(c) && SetupVm(c.p).Some?
    ensures Good(SetMem(c, SetupVm(c.p).value.0))
  {
    var q := SetupVm(c.p).value.0;
    SetupVmCorrect(c.p);
    SetupVmParts(c.p);
    SetupVmTargets(c.p, q, c.p.free[0]);
    GrowQuiet(c, q);
  }

  lemma UserStoreAgrees(c: Cpu, f: nat, k: nat, w: Word)
    requires Good(c) && f < |c.p.refs| && k < NPTENTRIES && f != c.p.kdir
    requires forall r :: IsRef(c.p.roots, r) && !r.Pte? ==> Tgt(c.p, r) != f
    ensures Good(SetMem(c, Store(c.p, f, k, w)))
  {
    DataStore(c.p, f, k, w);
    DataStoreTargets(c.p, f, k, w);
    QuietWrite(c, Store(c.p, f, k, w), {});
  }

  /** Between kernel operations the directory of curenv is the loaded one. */
  ghost predicate Current(c: Cpu) { c.cur.Some? ==> c.cr3 == c.cur.value && c.cr3 in c.p.roots }

  lemma InsertGood(c: Cpu, m: seq<Cpu>, e: Cpu, d: nat, v: Page, f: nat, perm: nat)
    requires Good(c) && f < MAXFRAMES && perm < PGSIZE && Step(c, Inserting(m, d, v, f, perm), e)
    ensures Good(e) && SameLoad(c, e) && e.p.roots == c.p.roots
  {
    InsertRunAgrees(c, m, e, d, v, f, perm);
    Insert4Correct(c.p, d, v.i, v.j, f, perm);
  }

  lemma RemoveGood(c: Cpu, m: seq<Cpu>, e: Cpu, d: nat, v: Page)
    requires Good(c) && Step(c, Removing(m, d, v), e)
    ensures Good(e) && SameLoad(c, e) && e.p.roots == c.p.roots
  {
    RemoveRunAgrees(c, m, d, v);
    RemoveAgree(c.p, d, v.i, v.j);
    RemoveCorrect(c.p, d, v.i, v.j);
  }

  lemma FreeGood(c: Cpu, e: Cpu, d: nat)
    requires Good(c) && Current(c) && Step(c, Freeing(d), e)
    ensures Good(e) && Current(e)
  {
    FreeRunAgrees(c, e, d);
  }

  lemma SetupGood(c: Cpu, e: Cpu)
    requires Good(c) && Current(c) && Step(c, SettingUp, e)
    ensures Good(e) && Current(e)
  {
    SetupAgrees(c);
    SetupVmCorrect(c.p);
  }

  lemma RunningGood(c: Cpu, e: Cpu, d: nat)
    requires Good(c) && Current(c) && Step(c, Running(d), e)
    ensures Good(e) && Current(e) && e.cr3 == d && e.cur == Some(d)
  {}

  lemma StepGood(c: Cpu, l: Label, e: Cpu)
    requires Good(c) && Current(c) && Step(c, l, e)
    ensures Good(e) && Current(e)
    ensures l.Running? ==> e.cr3 == l.d && e.cur == Some(l.d)
  {
    match l {
      case Filling => FillAgrees(c, e, {});
      case Removing(m, d, v) => RemoveGood(c, m, e, d, v);
      case Inserting(m, d, v, f, perm) => InsertGood(c, m, e, d, v, f, perm);
      case Freeing(d) => FreeGood(c, e, d);
      case SettingUp => SetupGood(c, e);
      case Running(d) => RunningGood(c, e, d);
      case UserStore(f, k, w) => UserStoreAgrees(c, f, k, w);
    }
  }

  /** Over every run, every cached user translation agrees with the tables of the loaded directory,
      which is that of the current environment, after every kernel operation and context switch. */
  lemma {:induction false} RunGood(run: seq<Cpu>, labels: seq<Label>, n: nat)
    requires |run| == |labels| + 1 && n < |run| && Good(run[0]) && Current(run[0])
    requires forall k :: 0 <= k < |labels| ==> Step(run[k], labels[k], run[k + 1])
    ensures Good(run[n]) && Current(run[n])
  {
    if n > 0 {
      RunGood(run, labels, n - 1);
      assert Step(run[n - 1], labels[n - 1], run[n - 1 + 1]);
      StepGood(run[n - 1], labels[n - 1], run[n]);
    }
  }
}
