/**
kern/pmap.c as it runs: three arrays and a list head updated in place. `pages[f].pp_ref` is
`ppRef[f]`, `pages[f].pp_link` is `ppLink[f]` (-1 for NULL), and all of physical memory is the
one array `mem`; a pte_t pointer is an index into it. Each method is proved equal to its
function in PageTables, Lab4Paging or AddressSpaces, whose lemmas say what it means.
*/
module Pmap {
  import opened Layout
  import opened Options
  import opened PhysicalMemory
  import opened PageTables
  import opened Lab4Paging
  import opened AddressSpaces

  const NULL := -1
  const MPENTRY_PAGE := 7  // PGNUM(MPENTRY_PADDR)

  function PDX(va: nat): nat { va / PGSIZE / NPTENTRIES }
  function PTX(va: nat): nat { va / PGSIZE % NPTENTRIES }

  /** A page-aligned address is its two indices, so equal indices mean equal addresses. */
  lemma AddressOf(va: nat, vb: nat)
    requires va % PGSIZE == 0 && vb % PGSIZE == 0
    ensures va == (PDX(va) * NPTENTRIES + PTX(va)) * PGSIZE
    ensures PDX(va) == PDX(vb) && PTX(va) == PTX(vb) <==> va == vb
  {}

  /** The pp_links from `head` run through exactly the frames of `free`, in order, to NULL. */
  ghost predicate Chain(head: int, link: seq<int>, free: seq<nat>) {
    && head == (if free == [] then NULL else free[0])
    && (forall k :: 0 <= k < |free| ==> free[k] < |link|)
    && (forall k :: 0 <= k < |free| - 1 ==> link[free[k]] == free[k + 1])
    && (free != [] ==> link[free[|free| - 1]] == NULL)
    && (forall k, l :: 0 <= k < l < |free| ==> free[k] != free[l])
  }

  lemma ChainPush(head: int, link: seq<int>, free: seq<nat>, pp: nat)
    requires Chain(head, link, free) && pp < |link| && pp !in free
    ensures Chain(pp, link[pp := head], [pp] + free)
  {
    var longer := [pp] + free;
    assert forall k :: 1 <= k < |longer| ==> longer[k] == free[k - 1];
  }

  lemma ChainPop(head: int, link: seq<int>, free: seq<nat>)
    requires Chain(head, link, free) && free != []
    ensures 0 <= head < |link| && head !in free[1..] && Chain(link[head], link, free[1..])
  {
    var rest := free[1..];
    assert forall k :: 0 <= k < |rest| ==> rest[k] == free[k + 1];
  }

  ghost predicate Ascending(s: seq<nat>, lo: nat, hi: nat) {
    && (forall k :: 0 <= k < |s| ==> lo <= s[k] < hi)
    && (forall k, l :: 0 <= k < l < |s| ==> s[k] < s[l])
  }

  ghost predicate AllZero(s: seq<nat>, refs: seq<Count>) {
    forall k :: 0 <= k < |s| ==> s[k] < |refs| && refs[s[k]] == 0
  }

  /** The pages page_init keeps out of the list: page 0, the processors' start-up page, and
      everything from the end of base memory to the end of the kernel's boot-time data. */
  predicate Reserved(f: nat, basemem: nat, mile: nat) {
    f == 0 || f == MPENTRY_PAGE || basemem <= f < mile
  }

  /** With no directories there is nothing to count. */
  lemma InitialInv(p: Phys)
    requires Sized(p) && KernelDir(p) && FreeOk(p) && p.roots == {}
    requires forall f: nat :: f < |p.refs| && f !in p.pinned ==> p.refs[f] == 0
    ensures Inv(p)
  {
    forall f | 0 <= f < |p.refs| && f !in p.pinned ensures p.refs[f] == |RefsTo(p, f)| {
      RefsToMembers(p, f);
      assert RefsTo(p, f) == {};
    }
  }

  lemma PageInitInv(p: Phys, q: Phys, basemem: nat, mile: nat)
    requires Sized(q) && q.roots == {} && q.mem == p.mem && q.kdir == p.kdir && KernelDirEmpty(p)
    requires MPENTRY_PAGE < basemem <= q.kdir < mile <= |q.refs|
    requires Ascending(q.free, 0, |q.refs|) && AllZero(q.free, q.refs) && q.refs[0] == 1
    requires forall f: nat :: f in q.pinned <==> f < |q.refs| && Reserved(f, basemem, mile)
    requires forall f: nat :: f in q.free <==> f < |q.refs| && !Reserved(f, basemem, mile)
    ensures Inv(q) && PageZeroReserved(q)
  {
    SameMemory(p, q);
    assert Reserved(q.kdir, basemem, mile) && Reserved(0, basemem, mile);
    forall f: nat | f < |q.refs| && f !in q.pinned ensures q.refs[f] == 0 {
      assert f in q.free;
    }
    InitialInv(q);
  }

  /** An address whose table the functions below can reach: a user address, or UTOP with envs[]
      mapped there. */
  ghost predicate Reachable(p: Phys, va: nat) { va < UTOP || (va == UTOP && UenvsMapped(p)) }

  lemma EntryInRange(p: Phys, d: nat, va: nat)
    requires Inv(p) && d in p.roots && Reachable(p, va)
    ensures d < |p.refs| && At(p, d, PDX(va)) == p.mem[d * NPTENTRIES + PDX(va)]
    ensures Present(At(p, d, PDX(va))) ==> PteFrame(At(p, d, PDX(va))) < |p.refs|
    ensures !Present(At(p, d, PDX(va))) ==> va < UTOP
  {
    assert IsRef(p.roots, Root(d)) && Tgt(p, Root(d)) == d;
    if va < UTOP { RootInRange(p, d, PDX(va)); }
  }

  /** A page table's entry names a counted page, or page 0 if it is clear; that of UTOP names a page
      of the kernel's. */
  lemma DecrefCounted(p: Phys, d: nat, va: nat)
    requires Inv(p) && PageZeroReserved(p) && d in p.roots && Reachable(p, va) && Present(At(p, d, PDX(va)))
    ensures var w := PteWord(p, Pte(d, PDX(va), PTX(va))); PteFrame(w) < |p.refs| && PteFrame(w) !in p.free
  {
    var r := Pte(d, PDX(va), PTX(va));
    if va < UTOP {
      assert IsRef(p.roots, r);
      if Tgt(p, r) != -1 { LiveCounted(p, r); } else { assert PteFrame(PteWord(p, r)) == 0; }
    } else {
      assert UenvsTable(p, PteFrame(At(p, d, NUSERPDE)));
    }
  }

  class Pmap {
    const npages: nat
    const kdir: nat
    const mem: array<Word>
    const ppRef: array<Count>
    const ppLink: array<int>
    var freeHead: int
    ghost var free: seq<nat>
    ghost var roots: set<nat>
    ghost var pinned: set<nat>

    constructor (npages: nat, kdir: nat)
      requires kdir < npages <= MAXFRAMES
      ensures Arrays() && this.npages == npages && this.kdir == kdir
      ensures fresh(mem) && fresh(ppRef) && fresh(ppLink) && roots == {}
      ensures forall k :: 0 <= k < mem.Length ==> mem[k] == 0
    {
      this.npages, this.kdir := npages, kdir;
      mem := new Word[npages * NPTENTRIES](_ => 0);
      ppRef := new Count[npages];
      ppLink := new int[npages];
      freeHead := NULL;
      free, roots, pinned := [], {}, {};
    }

    ghost predicate Arrays()
    {
      && mem as object != ppRef as object && mem as object != ppLink as object && ppRef as object != ppLink as object
      && mem.Length == npages * NPTENTRIES && ppRef.Length == npages && ppLink.Length == npages
      && npages <= MAXFRAMES && kdir < npages
    }

    ghost predicate Linked()
      reads this, ppLink
    {
      Chain(freeHead, ppLink[..], free)
    }

    ghost function State(): Phys
      reads this, mem, ppRef
    {
      Phys(mem[..], ppRef[..], free, roots, pinned, kdir)
    }

    ghost predicate Valid()
      reads this, mem, ppRef, ppLink
    {
      Arrays() && Linked() && Inv(State())
    }

    // -------------------------------------------------------------- page_init

    /** lab4 page_init. `mile` is the first page after the kernel image and boot-time data. */
    method PageInit(basemem: nat, mile: nat)
      requires Arrays() && roots == {} && MPENTRY_PAGE < basemem <= kdir < mile <= npages
      requires forall i :: 0 <= i < NUSERPDE ==> !Present(At(State(), kdir, i))
      modifies this`freeHead, this`free, this`pinned, ppRef, ppLink
      ensures Valid() && PageZeroReserved(State())
      ensures forall f: nat :: f < npages ==> (f in pinned <==> Reserved(f, basemem, mile))
      ensures forall f: nat :: f in free <==> f < npages && !Reserved(f, basemem, mile)
      ensures Ascending(free, 0, npages)
    {
      ghost var before := State();
      pinned := set f | 0 <= f < npages && Reserved(f, basemem, mile);
      BuildList(basemem, mile);
      PageInitInv(before, State(), basemem, mile);
    }

    method BuildList(basemem: nat, mile: nat)
      requires Arrays() && MPENTRY_PAGE < basemem < mile <= npages
      modifies this`freeHead, this`free, ppRef, ppLink
      ensures Chain(freeHead, ppLink[..], free) && Ascending(free, 0, npages)
      ensures AllZero(free, ppRef[..]) && ppRef[0] == 1
      ensures forall f: nat :: f in free <==> f < npages && !Reserved(f, basemem, mile)
    {
      freeHead, free := NULL, [];
      ppRef[0] := 1;
      PushRange(mile, npages);
      PushRange(1, basemem);
      MarkHole(basemem, mile);
    }

    /** for (i = npages_basemem; i < mile; ++i) pages[i].pp_ref = 1 */
    method MarkHole(basemem: nat, mile: nat)
      requires Arrays() && 0 < basemem <= mile <= npages && ppRef[0] == 1 && AllZero(free, ppRef[..])
      requires forall f: nat :: f in free ==> !Reserved(f, basemem, mile)
      modifies ppRef
      ensures ppRef[0] == 1 && AllZero(free, ppRef[..])
      ensures forall f: nat :: f < npages && !Reserved(f, basemem, mile) ==> ppRef[f] == old(ppRef[f])
    {
      var i := basemem;
      while i < mile
        invariant basemem <= i <= mile && ppRef[0] == 1 && AllZero(free, ppRef[..])
        invariant forall f: nat :: f < npages && !Reserved(f, basemem, mile) ==> ppRef[f] == old(ppRef[f])
      {
        assert Reserved(i, basemem, mile);
        ppRef[i] := 1;
        i := i + 1;
      }
    }

    /** for (i = hi - 1; i >= lo; --i), skipping MPENTRY below the hole */
    method PushRange(lo: nat, hi: nat)
      requires Arrays() && 0 < lo <= hi <= npages && Ascending(free, hi, npages) && Chain(freeHead, ppLink[..], free)
      requires AllZero(free, ppRef[..]) && ppRef[0] == 1
      modifies this`freeHead, this`free, ppRef, ppLink
      ensures Ascending(free, lo, npages) && Chain(freeHead, ppLink[..], free)
      ensures AllZero(free, ppRef[..]) && ppRef[0] == 1
      ensures forall f: nat :: f in free <==> f in old(free) || (lo <= f < hi && f != MPENTRY_PAGE)
    {
      var i := hi;
      while i > lo
        invariant lo <= i <= hi && ppRef[0] == 1
        invariant Ascending(free, i, npages) && Chain(freeHead, ppLink[..], free) && AllZero(free, ppRef[..])
        invariant forall f: nat :: f in free <==> f in old(free) || (i <= f < hi && f != MPENTRY_PAGE)
      {
        i := i - 1;
        if i != MPENTRY_PAGE {
          PushFree(i);
        }
      }
    }

    /** pages[i].pp_ref = 0, and page i goes on the head of the list. */
    method PushFree(i: nat)
      requires Arrays() && i < npages && Ascending(free, i + 1, npages) && Chain(freeHead, ppLink[..], free)
      modifies this`freeHead, this`free, ppRef, ppLink
      ensures free == [i] + old(free) && Ascending(free, i, npages) && Chain(freeHead, ppLink[..], free)
      ensures ppRef[..] == old(ppRef[..])[i := 0]
    {
      ppRef[i] := 0;
      ChainPush(freeHead, ppLink[..], free, i);
      ppLink[i] := freeHead;
      freeHead := i;
      free := [i] + free;
    }

    // -------------------------------------------------------------- allocator

    method PageFree(pp: nat)
      requires Arrays() && Linked() && pp < npages && pp !in free
      modifies this`freeHead, this`free, ppLink
      ensures Linked() && State() == PageTables.PageFree(old(State()), pp)
    {
      ChainPush(freeHead, ppLink[..], free, pp);
      ppLink[pp] := freeHead;
      freeHead := pp;
      free := [pp] + free;
    }

    /** pp->pp_ref++ */
    method Ref(pp: nat)
      requires Arrays() && Linked() && pp < npages
      modifies ppRef
      ensures Linked() && State() == IncRef(old(State()), pp)
    {
      ppRef[pp] := (ppRef[pp] + 1) % REFMOD;
      assert ppRef[..] == IncRef(old(State()), pp).refs;
    }

    /** pp->pp_ref-- */
    method Unref(pp: nat)
      requires Arrays() && Linked() && pp < npages
      modifies ppRef
      ensures Linked() && State() == DecRef(old(State()), pp)
    {
      ppRef[pp] := (ppRef[pp] + REFMOD - 1) % REFMOD;
      assert ppRef[..] == DecRef(old(State()), pp).refs;
    }

    /** *pte = w, where pte points at entry j of table t */
    method SetEntry(pte: nat, w: Word, ghost t: nat, ghost j: nat)
      requires Arrays() && Linked() && t < npages && j < NPTENTRIES && pte == t * NPTENTRIES + j
      modifies mem
      ensures Linked() && State() == Store(old(State()), t, j, w)
    {
      mem[pte] := w;
      assert mem[..] == Store(old(State()), t, j, w).mem;
    }

    method PageDecref(pp: nat)
      requires Arrays() && Linked() && pp < npages && pp !in free
      modifies this`freeHead, this`free, ppLink, ppRef
      ensures Linked() && State() == PageTables.PageDecref(old(State()), pp)
    {
      Unref(pp);
      if ppRef[pp] == 0 {
        PageFree(pp);
      }
    }

    method Memset0(f: nat)
      requires Arrays() && f < npages
      modifies mem
      ensures mem[..] == ZeroPage(old(State()), f).mem
    {
      var k := 0;
      while k < NPTENTRIES
        invariant 0 <= k <= NPTENTRIES
        invariant forall x :: 0 <= x < mem.Length ==>
          mem[x] == if f * NPTENTRIES <= x < f * NPTENTRIES + k then 0 else old(mem[x])
      {
        mem[f * NPTENTRIES + k] := 0;
        k := k + 1;
      }
    }

    /** page_alloc(ALLOC_ZERO); NULL when the list is empty. */
    method PageAlloc() returns (pp: int)
      requires Arrays() && Linked()
      modifies this`freeHead, this`free, mem
      ensures Linked()
      ensures pp == NULL <==> PageTables.PageAlloc(old(State())).None?
      ensures pp == NULL ==> State() == old(State())
      ensures pp != NULL ==> 0 <= pp < npages && pp !in free
      ensures pp != NULL ==> PageTables.PageAlloc(old(State())) == Some((State(), pp as nat))
    {
      if freeHead == NULL {
        return NULL;
      }
      pp := freeHead;
      ChainPop(freeHead, ppLink[..], free);
      freeHead := ppLink[pp];
      free := free[1..];
      Memset0(pp);
      assert State() == ZeroPage(old(State()), pp).(free := old(free)[1..]);
    }

    // -------------------------------------------------------------- page tables

    /** pgdir_walk: the index of the entry for va, or NULL. */
    method PgdirWalk(d: nat, va: nat, create: bool) returns (pte: int)
      requires Valid() && d in roots && Reachable(State(), va)
      modifies this`freeHead, this`free, mem, ppRef
      ensures Valid()
      ensures !create ==> State() == old(State()) && (pte == NULL <==> Walk(State(), d, PDX(va)).None?)
      ensures create ==> var (q, t) := WalkCreate(old(State()), d, PDX(va)); State() == q && (pte == NULL <==> t.None?)
      ensures pte != NULL ==> Present(At(State(), d, PDX(va))) && PteFrame(At(State(), d, PDX(va))) < npages
      ensures pte != NULL ==> pte == PteFrame(At(State(), d, PDX(va))) * NPTENTRIES + PTX(va)
    {
      ghost var p := State();
      EntryInRange(p, d, va);
      var pde := mem[d * NPTENTRIES + PDX(va)];
      if Present(pde) {
        return PteFrame(pde) * NPTENTRIES + PTX(va);
      }
      if !create {
        return NULL;
      }
      WalkCreateCorrect(p, d, PDX(va));
      var t := MakeTable(d, PDX(va));
      if t == NULL {
        return NULL;
      }
      return t * NPTENTRIES + PTX(va);
    }

    /** The creating branch of pgdir_walk: the new table's page, or NULL. */
    method MakeTable(d: nat, i: nat) returns (t: int)
      requires Arrays() && Linked() && d * NPTENTRIES + i < mem.Length && !Present(At(State(), d, i))
      modifies this`freeHead, this`free, mem, ppRef
      ensures Linked() && State() == WalkCreate(old(State()), d, i).0
      ensures t != NULL ==> 0 <= t < npages
      ensures WalkCreate(old(State()), d, i).1 == if t == NULL then None else Some(t as nat)
    {
      t := PageAlloc();
      if t != NULL {
        ppRef[t] := (ppRef[t] + 1) % REFMOD;
        mem[d * NPTENTRIES + i] := MkPte(t, 7);
        assert State() == WalkCreate(old(State()), d, i).0;
      }
    }

    /** page_lookup, lab3: the page mapped at va and its entry. */
    method PageLookup(d: nat, va: nat) returns (pp: int, pte: int)
      requires Valid() && d in roots && va < UTOP
      modifies this`freeHead, this`free, mem, ppRef
      ensures Valid() && State() == old(State())
      ensures pp == NULL <==> Lookup(State(), d, PDX(va), PTX(va)).None?
      ensures pp != NULL ==> 0 <= pp < npages && Lookup(State(), d, PDX(va), PTX(va)) == Some(pp as nat)
      ensures pp != NULL ==> pte == PteFrame(At(State(), d, PDX(va))) * NPTENTRIES + PTX(va)
    {
      pte := PgdirWalk(d, va, false);
      if pte == NULL || !Present(mem[pte]) {
        return NULL, pte;
      }
      assert mem[pte] == At(State(), PteFrame(At(State(), d, PDX(va))), PTX(va));
      assert IsRef(roots, Pte(d, PDX(va), PTX(va))) && Tgt(State(), Pte(d, PDX(va), PTX(va))) == PteFrame(mem[pte]);
      return PteFrame(mem[pte]), pte;
    }

    method PageRemove(d: nat, va: nat)
      requires Valid() && d in roots && va < UTOP
      modifies this`freeHead, this`free, mem, ppRef, ppLink
      ensures Valid() && State() == Remove(old(State()), d, PDX(va), PTX(va))
    {
      ghost var p := State();
      RemoveCorrect(p, d, PDX(va), PTX(va));
      var pp, pte := PageLookup(d, va);
      if pp != NULL {
        LiveCounted(p, Pte(d, PDX(va), PTX(va)));
        PageDecref(pp);
        mem[pte] := 0;
        assert State() == Remove(p, d, PDX(va), PTX(va));
      }
    }

    /** page_lookup and page_remove as lab4 has them: no present-bit test. */
    method PageRemove4(d: nat, va: nat)
      requires Valid() && PageZeroReserved(State()) && d in roots && Reachable(State(), va)
      modifies this`freeHead, this`free, mem, ppRef, ppLink
      ensures Linked() && State() == Remove4(old(State()), d, PDX(va), PTX(va))
    {
      ghost var p := State();
      var pte := PgdirWalk(d, va, false);
      if pte != NULL {
        var pp := PteFrame(mem[pte]);
        assert mem[pte] == PteWord(p, Pte(d, PDX(va), PTX(va)));
        DecrefCounted(p, d, va);
        PageDecref(pp);
        SetEntry(pte, 0, PteFrame(At(p, d, PDX(va))), PTX(va));
      }
    }

    // -------------------------------------------------------------- page_insert

    /** lab3: decrement in place when the page is already mapped at va. */
    method PageInsert(d: nat, pp: nat, va: nat, perm: nat) returns (rc: int)
      requires Valid() && d in roots && va < UTOP && perm < PGSIZE && Insertable(State(), pp)
      modifies this`freeHead, this`free, mem, ppRef, ppLink
      ensures Linked() && (State(), rc) == Insert(old(State()), d, PDX(va), PTX(va), pp, perm)
    {
      ghost var p := State();
      WalkInserts(p, d, PDX(va), pp);
      var pte := PgdirWalk(d, va, true);
      if pte == NULL {
        return -E_NO_MEM;
      }
      ghost var t := PteFrame(At(State(), d, PDX(va)));
      assert WalkCreate(p, d, PDX(va)).1 == Some(t);
      DisplaceAt(d, pp, va, pte);
      SetEntry(pte, MkPte(pp, perm), t, PTX(va));
      Ref(pp);
      return 0;
    }

    method DisplaceAt(d: nat, pp: nat, va: nat, pte: nat)
      requires Valid() && d in roots && va < UTOP && pp < npages && Present(At(State(), d, PDX(va)))
      requires PteFrame(At(State(), d, PDX(va))) < npages
      requires pte == PteFrame(At(State(), d, PDX(va))) * NPTENTRIES + PTX(va)
      modifies this`freeHead, this`free, mem, ppRef, ppLink
      ensures Linked() && State() == Displace(old(State()), d, PDX(va), PTX(va), pp)
    {
      ghost var q := State();
      assert mem[pte] == At(q, PteFrame(At(q, d, PDX(va))), PTX(va));
      if Present(mem[pte]) {
        if PteFrame(mem[pte]) == pp {
          Unref(pp);
        } else {
          PageRemove(d, va);
        }
      }
    }

    /** lab4: remove, then take the page back off the head of the free list. */
    method PageInsert4(d: nat, pp: nat, va: nat, perm: Word) returns (rc: int)
      requires Valid() && PageZeroReserved(State()) && d in roots && Reachable(State(), va) && pp < npages
      modifies this`freeHead, this`free, mem, ppRef, ppLink
      ensures Linked()
      ensures (State(), rc) == InsertWord4(old(State()), d, PDX(va), PTX(va), pp, EntryWord(pp, perm))
    {
      var pte := PgdirWalk(d, va, false);
      if pte == NULL {
        rc := InsertNew4(d, pp, va, EntryWord(pp, perm));
      } else {
        ghost var t := PteFrame(At(State(), d, PDX(va)));
        assert mem[pte] == At(State(), t, PTX(va));
        if Present(mem[pte]) {
          PageRemove4(d, va);
        }
        Fill4(pp, pte, EntryWord(pp, perm), t, PTX(va));
        rc := 0;
      }
    }

    method InsertNew4(d: nat, pp: nat, va: nat, w: Word) returns (rc: int)
      requires Valid() && d in roots && Reachable(State(), va) && pp < npages
      requires Walk(State(), d, PDX(va)).None?
      modifies this`freeHead, this`free, mem, ppRef, ppLink
      ensures Linked() && (State(), rc) == InsertWord4(old(State()), d, PDX(va), PTX(va), pp, w)
    {
      ghost var p := State();
      var pte := PgdirWalk(d, va, true);
      if pte == NULL {
        return -E_NO_MEM;
      }
      ghost var t := PteFrame(At(State(), d, PDX(va)));
      assert WalkCreate(p, d, PDX(va)).1 == Some(t);
      Fill4(pp, pte, w, t, PTX(va));
      return 0;
    }

    method Fill4(pp: nat, pte: nat, w: Word, ghost t: nat, ghost j: nat)
      requires Arrays() && Linked() && pp < npages && t < npages && j < NPTENTRIES
      requires pte == t * NPTENTRIES + j
      modifies this`freeHead, this`free, mem, ppRef
      ensures Linked() && State() == IncRef(Store(PullBack(old(State()), pp), t, j, w), pp)
    {
      TakeBack(pp);
      SetEntry(pte, w, t, j);
      Ref(pp);
    }

    /** if (pp == page_free_list) page_free_list = page_free_list->pp_link */
    method TakeBack(pp: nat)
      requires Arrays() && Linked() && pp < npages
      modifies this`freeHead, this`free
      ensures Linked() && State() == PullBack(old(State()), pp)
    {
      if pp == freeHead {
        ChainPop(freeHead, ppLink[..], free);
        freeHead := ppLink[pp];
        free := free[1..];
      }
    }

    // -------------------------------------------------------------- env_setup_vm, env_free

    /** env_setup_vm: a new directory, or NULL. */
    method EnvSetupVm() returns (d: int)
      requires Valid()
      modifies this`freeHead, this`free, this`roots, mem, ppRef
      ensures Valid()
      ensures d == NULL <==> SetupVm(old(State())).None?
      ensures d == NULL ==> State() == old(State())
      ensures d != NULL ==> 0 <= d < npages && SetupVm(old(State())) == Some((State(), d as nat))
    {
      ghost var p := State();
      SetupVmCorrect(p);
      d := PageAlloc();
      if d != NULL {
        SetupDir(d);
        assert Some((State(), d as nat)) == SetupVm(p);
      }
    }

    method SetupDir(d: nat)
      requires Arrays() && Linked() && d < npages && d != kdir
      modifies this`roots, mem, ppRef
      ensures Linked()
      ensures State()
        == Store(IncRef(CopyPage(old(State()), kdir, d), d), d, PDX_UVPT, MkPte(d, 5)).(roots := old(roots) + {d})
    {
      MemmoveDir(d);
      Ref(d);
      SetEntry(d * NPTENTRIES + PDX_UVPT, MkPte(d, 5), d, PDX_UVPT);
      roots := roots + {d};
    }

    method MemmoveDir(d: nat)
      requires Arrays() && Linked() && d < npages && d != kdir
      modifies mem
      ensures Linked() && State() == CopyPage(old(State()), kdir, d)
    {
      var k := 0;
      while k < NPTENTRIES
        invariant 0 <= k <= NPTENTRIES
        invariant forall x :: 0 <= x < mem.Length ==>
          mem[x] == if d * NPTENTRIES <= x < d * NPTENTRIES + k
                    then old(mem[kdir * NPTENTRIES + (x - d * NPTENTRIES)]) else old(mem[x])
      {
        mem[d * NPTENTRIES + k] := mem[kdir * NPTENTRIES + k];
        k := k + 1;
      }
      assert mem[..] == CopyPage(old(State()), kdir, d).mem;
    }

    /** env_free: unmap every page of every table, free the tables, free the directory. */
    method EnvFree(d: nat)
      requires Valid() && d in roots
      modifies this`freeHead, this`free, this`roots, mem, ppRef, ppLink
      ensures Valid() && State() == FreeVm(old(State()), d)
    {
      ghost var p := State();
      var pdeno := 0;
      while pdeno < NUSERPDE
        invariant 0 <= pdeno <= NUSERPDE && Valid() && roots == old(roots)
        invariant State() == FreeTables(p, d, pdeno)
      {
        FreePde(d, pdeno);
        pdeno := pdeno + 1;
      }
      DropDir(d, p);
    }

    method DropDir(d: nat, ghost p: Phys)
      requires Valid() && Inv(p) && d in p.roots && State() == FreeTables(p, d, NUSERPDE)
      modifies this`freeHead, this`free, this`roots, ppLink, ppRef
      ensures Valid() && State() == FreeVm(p, d)
    {
      FreeVmInv(p, d);
      RootCounted(p, d);
      roots := roots - {d};
      PageDecref(d);
    }

    method FreePde(d: nat, pdeno: nat)
      requires Valid() && d in roots && pdeno < NUSERPDE
      modifies this`freeHead, this`free, mem, ppRef, ppLink
      ensures Valid() && State() == FreeTable(old(State()), d, pdeno)
    {
      ghost var q := State();
      RootInRange(q, d, pdeno);
      FreeTableKeeps(q, d, pdeno);
      var pde := mem[d * NPTENTRIES + pdeno];
      if !Present(pde) {
        return;
      }
      ClearTable(d, pdeno, pde);
      FreeTableCounted(q, d, pdeno);
      SetEntry(d * NPTENTRIES + pdeno, 0, d, pdeno);
      PageDecref(PteFrame(pde));
    }

    method ClearTable(d: nat, pdeno: nat, pde: Word)
      requires Valid() && d in roots && pdeno < NUSERPDE && At(State(), d, pdeno) == pde && Present(pde)
      modifies this`freeHead, this`free, mem, ppRef, ppLink
      ensures Valid() && State() == ClearPtes(old(State()), d, pdeno, NPTENTRIES)
    {
      ghost var q := State();
      var pteno := 0;
      while pteno < NPTENTRIES
        invariant 0 <= pteno <= NPTENTRIES && Valid() && roots == old(roots)
        invariant State() == ClearPtes(q, d, pdeno, pteno)
      {
        ClearEntry(q, d, pdeno, pteno, pde);
        pteno := pteno + 1;
      }
    }

    method ClearEntry(ghost q: Phys, d: nat, pdeno: nat, pteno: nat, pde: Word)
      requires Valid() && Inv(q) && d in q.roots && roots == q.roots && pdeno < NUSERPDE && pteno < NPTENTRIES
      requires At(q, d, pdeno) == pde && Present(pde) && State() == ClearPtes(q, d, pdeno, pteno)
      modifies this`freeHead, this`free, mem, ppRef, ppLink
      ensures Valid() && State() == ClearPtes(q, d, pdeno, pteno + 1)
    {
      ClearedTable(q, d, pdeno, pteno);
      var va := (pdeno * NPTENTRIES + pteno) * PGSIZE;
      assert PDX(va) == pdeno && PTX(va) == pteno;
      if Present(mem[PteFrame(pde) * NPTENTRIES + pteno]) {
        PageRemove(d, va);
      }
    }
  }

  lemma RootInRange(p: Phys, d: nat, i: nat)
    requires Inv(p) && d in p.roots && i < NUSERPDE
    ensures d < |p.refs| && At(p, d, i) == p.mem[d * NPTENTRIES + i]
    ensures Present(At(p, d, i)) ==> PteFrame(At(p, d, i)) < |p.refs|
  {
    assert IsRef(p.roots, Root(d)) && Tgt(p, Root(d)) == d;
    assert IsRef(p.roots, Pde(d, i)) && (Present(At(p, d, i)) ==> Tgt(p, Pde(d, i)) == PteFrame(At(p, d, i)));
  }

  lemma WalkInserts(p: Phys, d: nat, i: nat, pp: nat)
    requires Inv(p) && d in p.roots && i < NUSERPDE && Insertable(p, pp)
    ensures WalkCreate(p, d, i).1.Some? ==> Insertable(WalkCreate(p, d, i).0, pp)
  {
    if WalkCreate(p, d, i).1.Some? { WalkInsertable(p, d, i, pp); }
  }

  lemma FreeTableKeeps(q: Phys, d: nat, i: nat)
    requires Inv(q) && d in q.roots && i < NUSERPDE
    ensures Inv(FreeTable(q, d, i)) && FreeTable(q, d, i).roots == q.roots
  {
    if Present(At(q, d, i)) {
      ClearPtesCorrect(q, d, i, NPTENTRIES);
      assert IsRef(q.roots, Pde(d, i)) && At(ClearPtes(q, d, i, NPTENTRIES), d, i) == At(q, d, i);
      DropTable(ClearPtes(q, d, i, NPTENTRIES), d, i);
    }
  }

  lemma FreeTableCounted(q: Phys, d: nat, i: nat)
    requires Inv(q) && d in q.roots && i < NUSERPDE && Present(At(q, d, i))
    ensures var c := ClearPtes(q, d, i, NPTENTRIES);
      PteFrame(At(q, d, i)) < |c.refs| && PteFrame(At(q, d, i)) !in c.free && d < |c.refs|
  {
    var c := ClearPtes(q, d, i, NPTENTRIES);
    ClearPtesCorrect(q, d, i, NPTENTRIES);
    assert IsRef(q.roots, Pde(d, i)) && Tgt(c, Pde(d, i)) == Tgt(q, Pde(d, i)) == PteFrame(At(q, d, i));
    LiveCounted(c, Pde(d, i));
    RootInRange(c, d, i);
  }

  lemma ClearedTable(q: Phys, d: nat, i: nat, n: nat)
    requires Inv(q) && d in q.roots && i < NUSERPDE && n < NPTENTRIES && Present(At(q, d, i))
    ensures At(ClearPtes(q, d, i, n), d, i) == At(q, d, i) && PteFrame(At(q, d, i)) < |ClearPtes(q, d, i, n).refs|
  {
    ClearPtesCorrect(q, d, i, n);
    RootInRange(q, d, i);
    assert IsRef(q.roots, Root(d)) && d in q.roots;
  }

  lemma RootCounted(p: Phys, d: nat)
    requires Inv(p) && d in p.roots
    ensures d < |FreeTables(p, d, NUSERPDE).refs| && d !in FreeTables(p, d, NUSERPDE).free
  {
    FreeTablesCorrect(p, d, NUSERPDE);
    RootInRange(FreeTables(p, d, NUSERPDE), d, 0);
    LiveCounted(FreeTables(p, d, NUSERPDE), Root(d));
  }

  lemma FreeVmInv(p: Phys, d: nat)
    requires Inv(p) && d in p.roots
    ensures Inv(FreeVm(p, d)) && FreeTables(p, d, NUSERPDE).roots == p.roots
  {
    FreeVmCorrect(p, d);
    FreeTablesCorrect(p, d, NUSERPDE);
  }
}
