/**
The page allocator and the two-level page table operations as functions on `Phys`:
lab3's page_insert, page_lookup and page_remove, lab4's versions beside them, and the
address-space half of env_setup_vm and env_free. The lemmas show that they implement a
finite map from (directory, va) to (page, permissions) and keep every count exact.
*/
module PageTables {
  import opened Layout
  import opened Options
  import opened PhysicalMemory

  const REFMOD := 0x1_0000

  function RefCount(p: Phys, f: nat): Count {
    if f < |p.refs| then p.refs[f] else 0
  }

  function SetRef(p: Phys, f: nat, c: Count): Phys {
    if f < |p.refs| then p.(refs := p.refs[f := c]) else p
  }

  /** ++pp->pp_ref on a 16-bit field */
  function IncRef(p: Phys, f: nat): Phys {
    SetRef(p, f, (RefCount(p, f) + 1) % REFMOD)
  }

  /** --pp->pp_ref on a 16-bit field */
  function DecRef(p: Phys, f: nat): Phys {
    SetRef(p, f, (RefCount(p, f) + REFMOD - 1) % REFMOD)
  }

  /** page_alloc(ALLOC_ZERO) */
  function PageAlloc(p: Phys): Option<(Phys, nat)> {
    if p.free == [] then None
    else Some((ZeroPage(p, p.free[0]).(free := p.free[1..]), p.free[0]))
  }

  function PageFree(p: Phys, f: nat): Phys {
    p.(free := [f] + p.free)
  }

  function PageDecref(p: Phys, f: nat): Phys {
    var q := DecRef(p, f);
    if RefCount(q, f) == 0 then PageFree(q, f) else q
  }

  /** pgdir_walk(pgdir, va, 0): the table, the entry within it being PTX(va). */
  function Walk(p: Phys, d: nat, i: nat): Option<nat> {
    if Present(At(p, d, i)) then Some(PteFrame(At(p, d, i))) else None
  }

  /** pgdir_walk(pgdir, va, 1) */
  function WalkCreate(p: Phys, d: nat, i: nat): (Phys, Option<nat>) {
    if Present(At(p, d, i)) then (p, Some(PteFrame(At(p, d, i))))
    else match PageAlloc(p)
      case None => (p, None)
      case Some((q, t)) =>
        (if t < MAXFRAMES then Store(IncRef(q, t), d, i, MkPte(t, 7)) else q, Some(t))
  }

  /** lab3 page_lookup: only a present entry has a page. */
  function Lookup(p: Phys, d: nat, i: nat, j: nat): Option<nat> {
    match Walk(p, d, i)
    case None => None
    case Some(t) => if Present(At(p, t, j)) then Some(PteFrame(At(p, t, j))) else None
  }

  function Remove(p: Phys, d: nat, i: nat, j: nat): Phys {
    match Lookup(p, d, i, j)
    case None => p
    case Some(f) => Store(PageDecref(p, f), PteFrame(At(p, d, i)), j, 0)
  }

  /** What page_insert does about the page already at the entry. */
  function Displace(q: Phys, d: nat, i: nat, j: nat, f: nat): Phys {
    var w := At(q, PteFrame(At(q, d, i)), j);
    if !Present(w) then q
    else if PteFrame(w) == f then DecRef(q, f)
    else Remove(q, d, i, j)
  }

  /** lab3 page_insert: re-insertion of the mapped page decrements its count in place. */
  function Insert(p: Phys, d: nat, i: nat, j: nat, f: nat, perm: nat): (Phys, int)
    requires f < MAXFRAMES && perm < PGSIZE
  {
    var (q, table) := WalkCreate(p, d, i);
    match table
    case None => (q, -E_NO_MEM)
    case Some(t) => (IncRef(Store(Displace(q, d, i, j, f), t, j, MkPte(f, perm)), f), 0)
  }

  // ---------------------------------------------------------------- lab4's versions

  /** lab4 page_lookup: whatever the entry holds, once there is a table. */
  function Lookup4(p: Phys, d: nat, i: nat, j: nat): Option<nat> {
    match Walk(p, d, i)
    case None => None
    case Some(t) => Some(PteFrame(At(p, t, j)))
  }

  function Remove4(p: Phys, d: nat, i: nat, j: nat): Phys {
    match Lookup4(p, d, i, j)
    case None => p
    case Some(f) => Store(PageDecref(p, f), PteFrame(At(p, d, i)), j, 0)
  }

  /** if (pp == page_free_list) page_free_list = page_free_list->pp_link */
  function PullBack(p: Phys, f: nat): Phys {
    if p.free != [] && p.free[0] == f then p.(free := p.free[1..]) else p
  }

  /** lab4 page_insert of the entry w for page f: remove whatever is there, then pull the page off
      the list head. */
  function InsertWord4(p: Phys, d: nat, i: nat, j: nat, f: nat, w: Word): (Phys, int) {
    match Walk(p, d, i)
    case None =>
      var (q, table) := WalkCreate(p, d, i);
      (match table
       case None => (q, -E_NO_MEM)
       case Some(t) => (IncRef(Store(PullBack(q, f), t, j, w), f), 0))
    case Some(t) =>
      var q := if Present(At(p, t, j)) then Remove4(p, d, i, j) else p;
      (IncRef(Store(PullBack(q, f), t, j, w), f), 0)
  }

  /** With permissions that fit the low 12 bits. */
  function Insert4(p: Phys, d: nat, i: nat, j: nat, f: nat, perm: nat): (Phys, int)
    requires f < MAXFRAMES && perm < PGSIZE
  {
    InsertWord4(p, d, i, j, f, MkPte(f, perm))
  }

  // ---------------------------------------------------------------- page_remove

  lemma RemoveParts(p: Phys, d: nat, i: nat, j: nat, f: nat)
    requires Inv(p) && IsRef(p.roots, Pte(d, i, j)) && Tgt(p, Pte(d, i, j)) == f
    ensures var q := Remove(p, d, i, j);
      && SameFrame(p, q) && q.mem == Store(p, PteFrame(At(p, d, i)), j, 0).mem
      && f < |p.refs| && p.refs[f] > 0 && q.refs == p.refs[f := p.refs[f] - 1]
      && q.free == (if p.refs[f] == 1 then [f] + p.free else p.free)
  {
    LiveCounted(p, Pte(d, i, j));
  }

  lemma FreePush(p: Phys, q: Phys, f: nat)
    requires Inv(p) && f < |p.refs| && f !in p.pinned && q.pinned == p.pinned && p.refs[f] > 0
    requires q.refs == p.refs[f := p.refs[f] - 1]
    requires q.free == if p.refs[f] == 1 then [f] + p.free else p.free
    ensures FreeOk(q)
  {
    assert forall k :: 0 <= k < |p.free| ==> p.free[k] != f;
  }

  lemma StoreClean(p: Phys, q: Phys, d: nat, i: nat, j: nat)
    requires Inv(p) && q.roots == p.roots
    requires SameTargetsBut(p, q, Pte(d, i, j)) && SameWordsBut(p, q, Pte(d, i, j))
    requires forall e: nat, k: nat :: e in p.roots && k < NPTENTRIES ==> At(q, e, k) == At(p, e, k)
    requires Tgt(q, Pte(d, i, j)) == -1 ==> PteWord(q, Pte(d, i, j)) == 0
    ensures Clean(q)
  {}

  /** page_remove deletes exactly its own key and keeps the whole invariant. */
  lemma RemoveMapped(p: Phys, d: nat, i: nat, j: nat, f: nat)
    requires Inv(p) && IsRef(p.roots, Pte(d, i, j)) && Tgt(p, Pte(d, i, j)) == f
    ensures var q := Remove(p, d, i, j);
      && Inv(q) && Mappings(q) == Mappings(p) - {Pte(d, i, j)}
      && SameTargetsBut(p, q, Pte(d, i, j)) && Tgt(q, Pte(d, i, j)) == -1
      && (forall e: nat, k: nat :: e in p.roots && k < NPTENTRIES ==> At(q, e, k) == At(p, e, k))
  {
    var q := Remove(p, d, i, j);
    var s := Store(p, PteFrame(At(p, d, i)), j, 0);
    RemoveParts(p, d, i, j, f);
    PteStore(p, d, i, j, 0);
    SameMemory(s, q);
    FreePush(p, q, f);
    StoreClean(p, q, d, i, j);
    EntryStep(p, q, Pte(d, i, j));
    MappingsStep(p, q, Pte(d, i, j));
  }

  lemma RemoveCorrect(p: Phys, d: nat, i: nat, j: nat)
    requires Inv(p) && IsRef(p.roots, Pte(d, i, j))
    ensures var q := Remove(p, d, i, j);
      && Inv(q) && SameFrame(p, q) && Mappings(q) == Mappings(p) - {Pte(d, i, j)}
      && SameTargetsBut(p, q, Pte(d, i, j)) && Tgt(q, Pte(d, i, j)) == -1
      && (forall e: nat, k: nat :: e in p.roots && k < NPTENTRIES ==> At(q, e, k) == At(p, e, k))
  {
    if Tgt(p, Pte(d, i, j)) == -1 {
      MappingsMembers(p);
      assert Mappings(p) - {Pte(d, i, j)} == Mappings(p);
    } else {
      RemoveMapped(p, d, i, j, Tgt(p, Pte(d, i, j)));
      RemoveParts(p, d, i, j, Tgt(p, Pte(d, i, j)));
    }
  }

  // ---------------------------------------------------------------- pgdir_walk

  lemma ZeroKeeps(p: Phys, t: nat)
    requires Inv(p) && t in p.free
    ensures var z := ZeroPage(p, t);
      && (forall r :: IsRef(p.roots, r) ==> Tgt(z, r) == Tgt(p, r))
      && (forall r :: IsRef(p.roots, r) && r.Pte? && Present(At(p, r.d, r.i)) ==> PteWord(z, r) == PteWord(p, r))
      && (forall e: nat, k: nat :: e in p.roots && k < NPTENTRIES ==> At(z, e, k) == At(p, e, k))
      && KernelDirEmpty(z) && t !in p.roots
  {
    ZeroAt(p, t);
    forall r | IsRef(p.roots, r) ensures Tgt(p, r) != t { FreeUnreferenced(p, t, r); }
    forall e: nat | e in p.roots ensures e != t { assert IsRef(p.roots, Root(e)) && Tgt(p, Root(e)) == e; }
    forall r | IsRef(p.roots, r) && r.Pte? && Present(At(p, r.d, r.i))
      ensures PteFrame(At(p, r.d, r.i)) != t
    {
      assert IsRef(p.roots, Pde(r.d, r.i)) && Tgt(p, Pde(r.d, r.i)) == PteFrame(At(p, r.d, r.i));
    }
  }

  /** Linking a zeroed frame in as a table adds no mapping. */
  lemma NewTable(p: Phys, q: Phys, d: nat, i: nat, t: nat)
    requires Inv(p) && IsRef(p.roots, Pde(d, i)) && !Present(At(p, d, i))
    requires t in p.free && q.roots == p.roots && q.kdir == p.kdir
    requires forall g: nat, k: nat :: k < NPTENTRIES ==>
      At(q, g, k) == if g == d && k == i then MkPte(t, 7) else if g == t then 0 else At(p, g, k)
    ensures SameTargetsBut(p, q, Pde(d, i)) && SameWordsBut(p, q, Pde(d, i)) && Tgt(q, Pde(d, i)) == t
    ensures KernelDirEmpty(q) && Clean(q)
  {
    assert IsRef(p.roots, Root(d)) && Tgt(p, Root(d)) == d;
    assert d != p.kdir;
    FreeUnreferenced(p, t, Root(d));
    forall r | IsRef(p.roots, r)
      ensures r != Pde(d, i) ==> Tgt(q, r) == Tgt(p, r)
      ensures r != Pde(d, i) && r.Pte? && Present(At(p, r.d, r.i)) ==> PteWord(q, r) == PteWord(p, r)
      ensures r.Pte? && !Present(At(p, r.d, r.i)) && Present(At(q, r.d, r.i)) ==> PteWord(q, r) == 0
    {
      FreeUnreferenced(p, t, Root(r.d));
      if r.Pte? {
        FreeUnreferenced(p, t, Pde(r.d, r.i));
        if Present(At(p, r.d, r.i)) {
          assert IsRef(p.roots, Pde(r.d, r.i)) && Tgt(p, Pde(r.d, r.i)) == PteFrame(At(p, r.d, r.i));
        }
      }
    }
  }

  lemma WalkCreateParts(p: Phys, d: nat, i: nat)
    requires Inv(p) && IsRef(p.roots, Pde(d, i)) && !Present(At(p, d, i)) && p.free != []
    ensures var (q, table) := WalkCreate(p, d, i);
      var t := p.free[0];
      && table == Some(t) && t < |p.refs| && t !in p.pinned && SameFrame(p, q)
      && q.free == p.free[1..] && q.refs == p.refs[t := 1]
      && (forall g: nat, k: nat :: k < NPTENTRIES ==>
            At(q, g, k) == if g == d && k == i then MkPte(t, 7) else if g == t then 0 else At(p, g, k))
  {
    var t := p.free[0];
    var z := ZeroPage(p, t).(free := p.free[1..]);
    assert IsRef(p.roots, Root(d)) && Tgt(p, Root(d)) == d;
    FreeUnreferenced(p, t, Root(d));
    ZeroAt(p, t);
    StoreAt(IncRef(z, t), d, i, MkPte(t, 7));
    assert forall g: nat, k: nat :: At(z, g, k) == At(ZeroPage(p, t), g, k);
    assert forall g: nat, k: nat :: At(IncRef(z, t), g, k) == At(z, g, k);
  }

  lemma WalkCreateFresh(p: Phys, d: nat, i: nat)
    requires Inv(p) && IsRef(p.roots, Pde(d, i)) && !Present(At(p, d, i)) && p.free != []
    ensures var q := WalkCreate(p, d, i).0;
      Inv(q) && SameTargetsBut(p, q, Pde(d, i)) && Mappings(q) == Mappings(p)
  {
    var t := p.free[0];
    var q := WalkCreate(p, d, i).0;
    WalkCreateParts(p, d, i);
    NewTable(p, q, d, i, t);
    forall r | IsRef(p.roots, r) ensures Tgt(p, r) != t { FreeUnreferenced(p, t, r); }
    assert Tgt(p, Pde(d, i)) == -1;
    EntryStep(p, q, Pde(d, i));
    MappingsStep(p, q, Pde(d, i));
    MappingsMembers(p);
    assert Mappings(p) - {Pde(d, i)} == Mappings(p);
  }

  /** pgdir_walk with create set: on failure nothing changes; on success the table is
      there, and no mapping has appeared or disappeared. */
  lemma WalkCreateCorrect(p: Phys, d: nat, i: nat)
    requires Inv(p) && IsRef(p.roots, Pde(d, i))
    ensures var (q, table) := WalkCreate(p, d, i);
      && Inv(q) && SameFrame(p, q) && Mappings(q) == Mappings(p) && SameTargetsBut(p, q, Pde(d, i))
      && (table.None? <==> !Present(At(p, d, i)) && p.free == [])
      && (table.None? ==> q == p)
      && (table.Some? ==> Walk(q, d, i) == table && table.value < |q.refs|)
  {
    if Present(At(p, d, i)) {
      assert Tgt(p, Pde(d, i)) == PteFrame(At(p, d, i));
    } else if p.free != [] {
      WalkCreateParts(p, d, i);
      WalkCreateFresh(p, d, i);
    }
  }

  /** The entry of a new table leaves the rights to the entries within it. */
  lemma NewTableRights(p: Phys, d: nat, i: nat)
    requires Inv(p) && IsRef(p.roots, Pde(d, i)) && !Present(At(p, d, i)) && p.free != []
    ensures var w := At(WalkCreate(p, d, i).0, d, i); HasW(w) && HasU(w)
  {
    WalkCreateParts(p, d, i);
    TableRights(p.free[0]);
  }

  lemma TableRights(t: nat)
    requires t < MAXFRAMES
    ensures HasW(MkPte(t, 7)) && HasU(MkPte(t, 7))
  {
    assert MkPte(t, 7) == t * PGSIZE + 7;
  }

  // ---------------------------------------------------------------- page_insert

  /** What page_insert may be given: a managed page that is not free and is not in use
      as a directory or a table. */
  ghost predicate Insertable(p: Phys, f: nat) {
    && f < |p.refs| && f !in p.pinned && f !in p.free
    && (forall r :: IsRef(p.roots, r) && !r.Pte? ==> Tgt(p, r) != f)
  }

  /** q is p with page f written into entry (d, i, j), an entry that is empty or already f's. */
  ghost predicate Filled(p: Phys, q: Phys, d: nat, i: nat, j: nat, f: nat, w: Word) {
    && Present(w) && PteFrame(w) == f && f < |p.refs| && SameFrame(p, q)
    && (Tgt(p, Pte(d, i, j)) == -1 || Tgt(p, Pte(d, i, j)) == f)
    && q.mem == Store(p, PteFrame(At(p, d, i)), j, w).mem && q.free == p.free
    && q.refs == (if Tgt(p, Pte(d, i, j)) == f then p.refs else p.refs[f := (p.refs[f] + 1) % REFMOD])
  }

  /** Writing any present word into a live table's entry changes that mapping and no other. */
  lemma StoredEntry(p: Phys, q: Phys, d: nat, i: nat, j: nat, w: Word)
    requires Inv(p) && IsRef(p.roots, Pte(d, i, j)) && Present(At(p, d, i)) && Present(w)
    requires q.roots == p.roots && q.mem == Store(p, PteFrame(At(p, d, i)), j, w).mem
    ensures Mappings(q) == Mappings(p)[Pte(d, i, j) := w] && SameTargetsBut(p, q, Pte(d, i, j))
    ensures Tgt(q, Pte(d, i, j)) == PteFrame(w)
  {
    var s := Store(p, PteFrame(At(p, d, i)), j, w);
    PteStore(p, d, i, j, w);
    SameMemory(s, q);
    MappingsStep(p, q, Pte(d, i, j));
  }

  lemma FillMappings(p: Phys, q: Phys, d: nat, i: nat, j: nat, f: nat, w: Word)
    requires Inv(p) && IsRef(p.roots, Pte(d, i, j)) && Present(At(p, d, i)) && Filled(p, q, d, i, j, f, w)
    ensures Mappings(q) == Mappings(p)[Pte(d, i, j) := w] && SameTargetsBut(p, q, Pte(d, i, j))
    ensures Tgt(q, Pte(d, i, j)) == f && Clean(q) && KernelDirEmpty(q)
  {
    var s := Store(p, PteFrame(At(p, d, i)), j, w);
    PteStore(p, d, i, j, w);
    SameMemory(s, q);
    MappingsStep(p, q, Pte(d, i, j));
    StoreClean(p, q, d, i, j);
  }

  /** The effect of filling entry r0, without the memory it was done in. */
  ghost predicate Gained(p: Phys, q: Phys, r0: Ref, f: nat) {
    && f < |p.refs| && SameFrame(p, q) && SameTargetsBut(p, q, r0) && Tgt(q, r0) == f
    && Clean(q) && KernelDirEmpty(q) && q.free == p.free
    && q.refs == (if Tgt(p, r0) == f then p.refs else p.refs[f := (p.refs[f] + 1) % REFMOD])
  }

  lemma FillKeeps(p: Phys, q: Phys, r0: Ref, f: nat)
    requires Inv(p) && IsRef(p.roots, r0) && r0.Pte? && Insertable(p, f) && Gained(p, q, r0, f)
    requires Tgt(p, r0) == -1 || Tgt(p, r0) == f
    requires Tgt(p, r0) == f || p.refs[f] + 1 < REFMOD
    ensures Inv(q)
  {
    assert FreeOk(q);
    EntryStep(p, q, r0);
  }

  /** Past 65535 references the count wraps and is no longer exact. */
  lemma FillWraps(p: Phys, q: Phys, r0: Ref, f: nat)
    requires Inv(p) && IsRef(p.roots, r0) && r0.Pte? && Insertable(p, f) && Gained(p, q, r0, f)
    requires Tgt(p, r0) != f && p.refs[f] + 1 >= REFMOD
    ensures q.refs[f] == 0 && |RefsTo(q, f)| == REFMOD && !Inv(q)
  {
    RefsDelta(p, q, r0, f);
    assert p.refs[f] == |RefsTo(p, f)|;
  }

  lemma FillEntry(p: Phys, q: Phys, d: nat, i: nat, j: nat, f: nat, w: Word)
    requires Inv(p) && IsRef(p.roots, Pte(d, i, j)) && Present(At(p, d, i)) && Insertable(p, f)
    requires Filled(p, q, d, i, j, f, w)
    ensures Mappings(q) == Mappings(p)[Pte(d, i, j) := w]
    ensures Inv(q) <==> Tgt(p, Pte(d, i, j)) == f || p.refs[f] + 1 < REFMOD
  {
    FillMappings(p, q, d, i, j, f, w);
    assert Gained(p, q, Pte(d, i, j), f);
    if Tgt(p, Pte(d, i, j)) == f || p.refs[f] + 1 < REFMOD {
      FillKeeps(p, q, Pte(d, i, j), f);
    } else {
      FillWraps(p, q, Pte(d, i, j), f);
    }
  }

  lemma InsertSame(p: Phys, d: nat, i: nat, j: nat, f: nat, w: Word)
    requires Inv(p) && IsRef(p.roots, Pte(d, i, j)) && Tgt(p, Pte(d, i, j)) == f
    ensures var t := PteFrame(At(p, d, i));
      var q := IncRef(Store(DecRef(p, f), t, j, w), f);
      && SameFrame(p, q) && q.mem == Store(p, t, j, w).mem && q.free == p.free && q.refs == p.refs
  {
    LiveCounted(p, Pte(d, i, j));
  }

  lemma RemovedInsertable(p: Phys, d: nat, i: nat, j: nat, f: nat)
    requires Inv(p) && IsRef(p.roots, Pte(d, i, j)) && Insertable(p, f) && Tgt(p, Pte(d, i, j)) != f
    ensures var r := Remove(p, d, i, j); Insertable(r, f) && r.refs[f] == p.refs[f]
  {
    RemoveCorrect(p, d, i, j);
    if Tgt(p, Pte(d, i, j)) != -1 {
      RemoveParts(p, d, i, j, Tgt(p, Pte(d, i, j)));
    }
  }

  lemma FillEmpty(r: Phys, d: nat, i: nat, j: nat, f: nat, w: Word)
    requires Inv(r) && IsRef(r.roots, Pte(d, i, j)) && Present(At(r, d, i)) && Insertable(r, f)
    requires Present(w) && PteFrame(w) == f && Tgt(r, Pte(d, i, j)) == -1
    ensures var q := IncRef(Store(r, PteFrame(At(r, d, i)), j, w), f);
      SameFrame(r, q) && Mappings(q) == Mappings(r)[Pte(d, i, j) := w] && (Inv(q) <==> r.refs[f] + 1 < REFMOD)
  {
    var q := IncRef(Store(r, PteFrame(At(r, d, i)), j, w), f);
    assert Filled(r, q, d, i, j, f, w);
    FillEntry(r, q, d, i, j, f, w);
  }

  lemma InsertOver(p: Phys, d: nat, i: nat, j: nat, f: nat, w: Word)
    requires Inv(p) && IsRef(p.roots, Pte(d, i, j)) && Present(At(p, d, i)) && Insertable(p, f)
    requires Present(w) && PteFrame(w) == f && Tgt(p, Pte(d, i, j)) != f
    ensures var q := IncRef(Store(Remove(p, d, i, j), PteFrame(At(p, d, i)), j, w), f);
      && SameFrame(p, q) && Mappings(q) == Mappings(p)[Pte(d, i, j) := w]
      && (Inv(q) <==> p.refs[f] + 1 < REFMOD)
  {
    var r := Remove(p, d, i, j);
    RemoveCorrect(p, d, i, j);
    RemovedInsertable(p, d, i, j, f);
    assert IsRef(r.roots, Root(d)) && d in p.roots;
    assert At(r, d, i) == At(p, d, i);
    FillEmpty(r, d, i, j, f, w);
    MapPut(Mappings(p), Pte(d, i, j), w);
  }

  /** The entry w maps page f with exactly the permissions of perm in its low 12 bits, and is present. */
  predicate Grants(w: Word, f: nat, perm: nat) {
    Present(w) && PteFrame(w) == f && w % PGSIZE / 2 == perm % PGSIZE / 2
  }

  lemma MkPteGrants(f: nat, perm: nat)
    requires f < MAXFRAMES && perm < PGSIZE
    ensures Grants(MkPte(f, perm), f, perm)
  {}

  /** page_insert is assignment to one key of the finite map. It fails exactly when it needs
      a table and there is no memory, and then nothing changes. It keeps the invariant exactly
      when the 16-bit count does not wrap, which a caller can test before the call. */
  lemma InsertCorrect(p: Phys, d: nat, i: nat, j: nat, f: nat, perm: nat)
    requires Inv(p) && IsRef(p.roots, Pte(d, i, j)) && Insertable(p, f) && perm < PGSIZE
    ensures var (q, rc) := Insert(p, d, i, j, f, perm);
      && (rc == -E_NO_MEM <==> !Present(At(p, d, i)) && p.free == [])
      && (rc == -E_NO_MEM ==> q == p)
      && (rc != -E_NO_MEM ==>
            && rc == 0 && SameFrame(p, q)
            && Mappings(q) == Mappings(p)[Pte(d, i, j) := MkPte(f, perm)]
            && (Inv(q) <==> Tgt(p, Pte(d, i, j)) == f || p.refs[f] + 1 < REFMOD))
  {
    var (q, table) := WalkCreate(p, d, i);
    WalkCreateCorrect(p, d, i);
    if table.Some? {
      assert Tgt(q, Pte(d, i, j)) == Tgt(p, Pte(d, i, j));
      WalkInsertable(p, d, i, f);
      var t := table.value;
      if Tgt(q, Pte(d, i, j)) == f {
        InsertSame(q, d, i, j, f, MkPte(f, perm));
        FillEntry(q, Insert(p, d, i, j, f, perm).0, d, i, j, f, MkPte(f, perm));
      } else {
        InsertOver(q, d, i, j, f, MkPte(f, perm));
      }
    }
  }

  /** The entry that page_insert leaves maps the page with the permissions asked for. */
  lemma InsertRights(p: Phys, d: nat, i: nat, j: nat, f: nat, perm: nat)
    requires Inv(p) && IsRef(p.roots, Pte(d, i, j)) && Insertable(p, f) && perm < PGSIZE
    ensures var (q, rc) := Insert(p, d, i, j, f, perm);
      rc == 0 ==> Pte(d, i, j) in Mappings(q) && Grants(Mappings(q)[Pte(d, i, j)], f, perm)
  {
    InsertCorrect(p, d, i, j, f, perm);
    MkPteGrants(f, perm);
  }

  lemma WalkInsertable(p: Phys, d: nat, i: nat, f: nat)
    requires Inv(p) && IsRef(p.roots, Pde(d, i)) && Insertable(p, f)
    requires WalkCreate(p, d, i).1.Some?
    ensures Insertable(WalkCreate(p, d, i).0, f)
  {
    WalkCreateCorrect(p, d, i);
    if !Present(At(p, d, i)) { WalkCreateParts(p, d, i); }
  }
}
