/**
Physical memory as one flat array of words, with page directories and page tables
stored inside the same frames that the allocator hands out.

A frame is named by its number; word `i` of frame `f` sits at index `f * NPTENTRIES + i`
of the array, so nothing in the representation keeps a store into one table away from
another table. That separation is the content of `Inv` below, and the lemmas of this
module show which entries a store can reach once `Inv` holds.
*/
module PhysicalMemory {
  import opened Layout

  const PDX_UVPT := 957     // the self-mapping entry
  const MAXFRAMES := 0x10_0000

  type Word = w: int | 0 <= w < 0x1_0000_0000
  type Count = c: int | 0 <= c < 0x1_0000  // uint16_t pp_ref

  predicate Present(w: Word) { w % 2 == 1 }

  /** PTE_ADDR(w) as a frame number. */
  function PteFrame(w: Word): nat { w / PGSIZE }

  /** page2pa(f) | perm | PTE_P */
  function MkPte(f: nat, perm: nat): (w: Word)
    requires f < MAXFRAMES && perm < PGSIZE
    ensures Present(w) && PteFrame(w) == f
  {
    f * PGSIZE + (if perm % 2 == 1 then perm else perm + 1)
  }

  /** `roots` are the frames that hold an environment's page directory, `pinned` the frames
      the allocator never manages (kernel image, I/O hole, kernel directory and its tables). */
  datatype Phys = Phys(mem: seq<Word>, refs: seq<Count>, free: seq<nat>,
                       roots: set<nat>, pinned: set<nat>, kdir: nat)

  function At(p: Phys, f: nat, i: nat): Word {
    if f * NPTENTRIES + i < |p.mem| then p.mem[f * NPTENTRIES + i] else 0
  }

  /** The three kinds of counted reference to a frame: an env_pgdir pointer, a directory
      entry below UTOP, and a page table entry reached through such a directory entry. */
  datatype Ref = Root(d: nat) | Pde(d: nat, i: nat) | Pte(d: nat, i: nat, j: nat)

  ghost predicate IsRef(roots: set<nat>, r: Ref) {
    r.d in roots && (!r.Root? ==> r.i < NUSERPDE) && (r.Pte? ==> r.j < NPTENTRIES)
  }

  /** The frame a reference points at, or -1 when the entry is not present. */
  ghost function Tgt(p: Phys, r: Ref): int {
    match r
    case Root(d) => d
    case Pde(d, i) => if Present(At(p, d, i)) then PteFrame(At(p, d, i)) else -1
    case Pte(d, i, j) =>
      if Present(At(p, d, i)) && Present(At(p, PteFrame(At(p, d, i)), j))
      then PteFrame(At(p, PteFrame(At(p, d, i)), j)) else -1
  }

  ghost function AllRefs(roots: set<nat>): set<Ref> {
    (set d | d in roots :: Root(d))
    + (set d, i | d in roots && 0 <= i < NUSERPDE :: Pde(d, i))
    + (set d, i, j | d in roots && 0 <= i < NUSERPDE && 0 <= j < NPTENTRIES :: Pte(d, i, j))
  }

  /** Every reference to frame f. */
  ghost function RefsTo(p: Phys, f: int): set<Ref> {
    set r | r in AllRefs(p.roots) && Tgt(p, r) == f
  }

  lemma AllRefsMembers(roots: set<nat>)
    ensures forall r :: r in AllRefs(roots) <==> IsRef(roots, r)
  {}

  lemma RefsToMembers(p: Phys, f: int)
    ensures forall r :: r in RefsTo(p, f) <==> IsRef(p.roots, r) && Tgt(p, r) == f
  {
    AllRefsMembers(p.roots);
  }

  // ---------------------------------------------------------------- the abstract map

  /** The word of page table entry r, when its table exists. */
  ghost function PteWord(p: Phys, r: Ref): Word
    requires r.Pte?
  {
    At(p, PteFrame(At(p, r.d, r.i)), r.j)
  }

  /** What the tables mean: (directory, page-aligned user va) to (page, permissions). */
  ghost function Mappings(p: Phys): map<Ref, Word> {
    map r | r in AllRefs(p.roots) && r.Pte? && Tgt(p, r) != -1 :: PteWord(p, r)
  }

  lemma MappingsMembers(p: Phys)
    ensures forall r :: r in Mappings(p) <==> IsRef(p.roots, r) && r.Pte? && Tgt(p, r) != -1
    ensures forall r :: r in Mappings(p) ==> Mappings(p)[r] == PteWord(p, r)
  {
    AllRefsMembers(p.roots);
  }

  // ---------------------------------------------------------------- the invariant

  ghost predicate Sized(p: Phys) {
    |p.mem| == |p.refs| * NPTENTRIES && |p.refs| <= MAXFRAMES
  }

  /** The kernel directory is out of the allocator's reach and maps nothing below UTOP. */
  ghost predicate KernelDir(p: Phys) {
    && p.kdir < |p.refs| && p.kdir in p.pinned
    && (forall i :: 0 <= i < NUSERPDE ==> !Present(At(p, p.kdir, i)))
  }

  /** Present entries point at managed frames. */
  ghost predicate Targets(p: Phys) {
    forall r :: IsRef(p.roots, r) && Tgt(p, r) != -1 ==> 0 <= Tgt(p, r) < |p.refs| && Tgt(p, r) !in p.pinned
  }

  /** A directory or a table is referenced once and by nothing else: no two directories
      share a table, and no page table entry maps a directory or a table. */
  ghost predicate Exclusive(p: Phys) {
    forall r, s :: IsRef(p.roots, r) && IsRef(p.roots, s) && !r.Pte? && Tgt(p, r) != -1 && Tgt(p, r) == Tgt(p, s)
      ==> r == s
  }

  /** Entries of live tables that are not present are zero. */
  ghost predicate Clean(p: Phys) {
    forall r :: IsRef(p.roots, r) && r.Pte? && Present(At(p, r.d, r.i)) && Tgt(p, r) == -1 ==> PteWord(p, r) == 0
  }

  /** The free list has no duplicates and holds managed frames with count 0. */
  ghost predicate FreeOk(p: Phys) {
    && (forall k :: 0 <= k < |p.free| ==> p.free[k] < |p.refs| && p.free[k] !in p.pinned && p.refs[p.free[k]] == 0)
    && (forall k, l :: 0 <= k < l < |p.free| ==> p.free[k] != p.free[l])
  }

  /** Reference counts of managed frames are exact. */
  ghost predicate Exact(p: Phys) {
    forall f :: 0 <= f < |p.refs| && f !in p.pinned ==> p.refs[f] == |RefsTo(p, f)|
  }

  ghost predicate Inv(p: Phys) {
    Sized(p) && KernelDir(p) && Targets(p) && Exclusive(p) && Clean(p) && FreeOk(p) && Exact(p)
  }

  // ---------------------------------------------------------------- stores

  function Store(p: Phys, f: nat, i: nat, w: Word): Phys {
    if f * NPTENTRIES + i < |p.mem| then p.(mem := p.mem[f * NPTENTRIES + i := w]) else p
  }

  function ZeroedWord(p: Phys, f: nat, k: nat): Word
    requires k < |p.mem|
  {
    if f * NPTENTRIES <= k < f * NPTENTRIES + NPTENTRIES then 0 else p.mem[k]
  }

  /** memset(page2kva(f), 0, PGSIZE) */
  function ZeroPage(p: Phys, f: nat): Phys {
    p.(mem := seq(|p.mem|, (k: nat) requires k < |p.mem| => ZeroedWord(p, f, k) as Word))
  }

  function CopiedWord(p: Phys, src: nat, dst: nat, k: nat): Word
    requires k < |p.mem|
  {
    if dst * NPTENTRIES <= k < dst * NPTENTRIES + NPTENTRIES then At(p, src, k - dst * NPTENTRIES) else p.mem[k]
  }

  /** memmove(page2kva(dst), page2kva(src), PGSIZE) */
  function CopyPage(p: Phys, src: nat, dst: nat): Phys {
    p.(mem := seq(|p.mem|, (k: nat) requires k < |p.mem| => CopiedWord(p, src, dst, k) as Word))
  }

  lemma StoreAt(p: Phys, f: nat, i: nat, w: Word)
    requires Sized(p) && f < |p.refs| && i < NPTENTRIES
    ensures forall g: nat, j: nat :: j < NPTENTRIES ==>
      At(Store(p, f, i, w), g, j) == if g == f && j == i then w else At(p, g, j)
  {
    forall g: nat, j: nat | j < NPTENTRIES
      ensures At(Store(p, f, i, w), g, j) == if g == f && j == i then w else At(p, g, j)
    {
      if g < f { assert g * NPTENTRIES + j < f * NPTENTRIES; }
      else if g > f { assert g * NPTENTRIES >= f * NPTENTRIES + NPTENTRIES; }
    }
  }

  lemma ZeroAt(p: Phys, f: nat)
    ensures forall g: nat, j: nat :: j < NPTENTRIES ==>
      At(ZeroPage(p, f), g, j) == if g == f then 0 else At(p, g, j)
  {}

  lemma CopyAt(p: Phys, src: nat, dst: nat)
    requires Sized(p) && dst < |p.refs|
    ensures forall g: nat, j: nat :: j < NPTENTRIES ==>
      At(CopyPage(p, src, dst), g, j) == if g == dst then At(p, src, j) else At(p, g, j)
  {}

  // ---------------------------------------------------------------- counting

  /** When one entry changes its target, exactly two counts move. */
  lemma RefsDelta(p: Phys, q: Phys, r0: Ref, f: int)
    requires q.roots == p.roots && IsRef(p.roots, r0)
    requires forall r :: IsRef(p.roots, r) && r != r0 ==> Tgt(q, r) == Tgt(p, r)
    ensures |RefsTo(q, f)| == |RefsTo(p, f)| + (if Tgt(q, r0) == f then 1 else 0) - (if Tgt(p, r0) == f then 1 else 0)
  {
    RefsToMembers(p, f);
    RefsToMembers(q, f);
    var rest := RefsTo(p, f) - {r0};
    assert RefsTo(q, f) == if Tgt(q, r0) == f then rest + {r0} else rest;
    assert RefsTo(p, f) == if Tgt(p, r0) == f then rest + {r0} else rest;
  }

  /** The free list is disjoint from every page, table and directory in use. */
  lemma FreeUnreferenced(p: Phys, f: nat, r: Ref)
    requires Inv(p) && f in p.free && IsRef(p.roots, r)
    ensures Tgt(p, r) != f
  {
    RefsToMembers(p, f);
    assert p.refs[f] == |RefsTo(p, f)|;
  }

  lemma LiveCounted(p: Phys, r: Ref)
    requires Inv(p) && IsRef(p.roots, r) && Tgt(p, r) != -1
    ensures 0 <= Tgt(p, r) < |p.refs| && p.refs[Tgt(p, r)] > 0 && Tgt(p, r) !in p.free
  {
    RefsToMembers(p, Tgt(p, r));
    assert r in RefsTo(p, Tgt(p, r));
  }

  // ---------------------------------------------------------------- reach of a store

  ghost predicate SameTargetsBut(p: Phys, q: Phys, r0: Ref) {
    forall r :: IsRef(p.roots, r) && r != r0 ==> Tgt(q, r) == Tgt(p, r)
  }

  ghost predicate SameWordsBut(p: Phys, q: Phys, r0: Ref) {
    forall r :: IsRef(p.roots, r) && r != r0 && r.Pte? && Present(At(p, r.d, r.i)) ==> PteWord(q, r) == PteWord(p, r)
  }

  ghost predicate SameMapped(p: Phys, q: Phys, r0: Ref) {
    forall r :: IsRef(p.roots, r) && r != r0 && r.Pte? && Tgt(p, r) != -1 ==> PteWord(q, r) == PteWord(p, r)
  }

  ghost predicate KernelDirEmpty(p: Phys) {
    forall i :: 0 <= i < NUSERPDE ==> !Present(At(p, p.kdir, i))
  }

  /** A store into a live page table reaches that one entry and no other. */
  lemma PteStore(p: Phys, d: nat, i: nat, j: nat, w: Word)
    requires Inv(p) && IsRef(p.roots, Pte(d, i, j)) && Present(At(p, d, i))
    ensures var q := Store(p, PteFrame(At(p, d, i)), j, w);
      && SameTargetsBut(p, q, Pte(d, i, j)) && SameWordsBut(p, q, Pte(d, i, j))
      && Tgt(q, Pte(d, i, j)) == (if Present(w) then PteFrame(w) else -1)
      && PteWord(q, Pte(d, i, j)) == w && At(q, d, i) == At(p, d, i)
      && KernelDirEmpty(q) && |q.mem| == |p.mem|
      && (forall e: nat, k: nat :: e in p.roots && k < NPTENTRIES ==> At(q, e, k) == At(p, e, k))
  {
    var t := PteFrame(At(p, d, i));
    var q := Store(p, t, j, w);
    assert IsRef(p.roots, Pde(d, i)) && Tgt(p, Pde(d, i)) == t;
    StoreAt(p, t, j, w);
    forall e: nat | e in p.roots ensures e != t {
      assert IsRef(p.roots, Root(e)) && Tgt(p, Root(e)) == e;
    }
    forall r | IsRef(p.roots, r) && r != Pte(d, i, j) && r.Pte? && Present(At(p, r.d, r.i))
      ensures PteWord(q, r) == PteWord(p, r)
    {
      assert IsRef(p.roots, Pde(r.d, r.i)) && Tgt(p, Pde(r.d, r.i)) == PteFrame(At(p, r.d, r.i));
    }
  }

  lemma DataStoreTargets(p: Phys, f: nat, k: nat, w: Word)
    requires Inv(p) && f < |p.refs| && k < NPTENTRIES
    requires forall r :: IsRef(p.roots, r) && !r.Pte? ==> Tgt(p, r) != f
    ensures var q := Store(p, f, k, w);
      forall r :: IsRef(p.roots, r) ==>
        && Tgt(q, r) == Tgt(p, r)
        && (r.Pte? ==> At(q, r.d, r.i) == At(p, r.d, r.i))
        && (r.Pte? && Present(At(p, r.d, r.i)) ==> PteWord(q, r) == PteWord(p, r))
  {
    var q := Store(p, f, k, w);
    StoreAt(p, f, k, w);
    forall r | IsRef(p.roots, r)
      ensures Tgt(q, r) == Tgt(p, r)
      ensures r.Pte? ==> At(q, r.d, r.i) == At(p, r.d, r.i)
      ensures r.Pte? && Present(At(p, r.d, r.i)) ==> PteWord(q, r) == PteWord(p, r)
    {
      assert IsRef(p.roots, Root(r.d)) && Tgt(p, Root(r.d)) == r.d;
      if r.Pte? { assert IsRef(p.roots, Pde(r.d, r.i)) && Tgt(p, Pde(r.d, r.i)) != f; }
    }
  }

  lemma SameCounts(p: Phys, q: Phys)
    requires Exact(p) && q.roots == p.roots && q.refs == p.refs && q.pinned == p.pinned
    requires forall r :: IsRef(p.roots, r) ==> Tgt(q, r) == Tgt(p, r)
    ensures Exact(q)
  {
    forall f | 0 <= f < |q.refs| && f !in q.pinned ensures q.refs[f] == |RefsTo(q, f)| {
      RefsToMembers(p, f);
      RefsToMembers(q, f);
      assert RefsTo(q, f) == RefsTo(p, f);
    }
  }

  /** A store into a frame that no directory entry or directory pointer names, such as a
      user's store into a page it has mapped, changes no entry at all. */
  lemma DataStore(p: Phys, f: nat, k: nat, w: Word)
    requires Inv(p) && f < |p.refs| && k < NPTENTRIES && f != p.kdir
    requires forall r :: IsRef(p.roots, r) && !r.Pte? ==> Tgt(p, r) != f
    ensures Inv(Store(p, f, k, w)) && Mappings(Store(p, f, k, w)) == Mappings(p)
  {
    var q := Store(p, f, k, w);
    StoreAt(p, f, k, w);
    DataStoreTargets(p, f, k, w);
    SameCounts(p, q);
    MappingsMembers(p);
    MappingsEqual(q, Mappings(p));
  }

  lemma MapPut<K, V>(m: map<K, V>, k: K, v: V)
    ensures (m - {k})[k := v] == m[k := v]
  {}

  lemma SameMemory(p: Phys, q: Phys)
    requires q.mem == p.mem
    ensures forall r :: Tgt(q, r) == Tgt(p, r)
    ensures forall f, i :: At(q, f, i) == At(p, f, i)
    ensures forall r: Ref :: r.Pte? ==> PteWord(q, r) == PteWord(p, r)
  {}

  /** The mappings change only where an entry changes. */
  lemma MappingsStep(p: Phys, q: Phys, r0: Ref)
    requires q.roots == p.roots && SameTargetsBut(p, q, r0) && SameMapped(p, q, r0)
    ensures IsRef(p.roots, r0) && r0.Pte? && Tgt(q, r0) != -1 ==> Mappings(q) == Mappings(p)[r0 := PteWord(q, r0)]
    ensures !(IsRef(p.roots, r0) && r0.Pte? && Tgt(q, r0) != -1) ==> Mappings(q) == Mappings(p) - {r0}
  {
    MappingsMembers(p);
    MappingsMembers(q);
  }

  /** Two memories with the same mapped entries, and the same words in them, mean the same. */
  lemma MappingsEqual(q: Phys, m: map<Ref, Word>)
    requires forall r :: r in m <==> IsRef(q.roots, r) && r.Pte? && Tgt(q, r) != -1
    requires forall r :: r in m ==> m[r] == PteWord(q, r)
    ensures Mappings(q) == m
  {
    MappingsMembers(q);
  }

  ghost predicate SameFrame(p: Phys, q: Phys) {
    && q.roots == p.roots && q.pinned == p.pinned && q.kdir == p.kdir
    && |q.mem| == |p.mem| && |q.refs| == |p.refs|
  }

  /** One entry retargeted together with its two counts: the step every operation is made of. */
  lemma EntryStep(p: Phys, q: Phys, r0: Ref)
    requires Inv(p) && SameFrame(p, q)
    requires KernelDirEmpty(q) && Clean(q) && FreeOk(q)
    requires IsRef(p.roots, r0) && !r0.Root? && SameTargetsBut(p, q, r0)
    requires Tgt(q, r0) != -1 ==> 0 <= Tgt(q, r0) < |p.refs| && Tgt(q, r0) !in p.pinned
    requires Tgt(q, r0) != -1 ==>
      forall r :: IsRef(p.roots, r) && r != r0 && (!r.Pte? || !r0.Pte?) ==> Tgt(p, r) != Tgt(q, r0)
    requires forall f :: 0 <= f < |p.refs| && f !in p.pinned ==>
      q.refs[f] as int == p.refs[f] as int + (if Tgt(q, r0) == f then 1 else 0) - (if Tgt(p, r0) == f then 1 else 0)
    ensures Inv(q)
  {
    forall f | 0 <= f < |q.refs| && f !in q.pinned
      ensures q.refs[f] == |RefsTo(q, f)|
    {
      RefsDelta(p, q, r0, f);
    }
  }
}
