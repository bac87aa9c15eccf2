/**
Copy-on-write fork of lib/fork.c, with any number of environments taking small steps in any
order: user writes, the four steps of pgfault, and the steps of fork's loop over the pages, which
a page fault of the forking environment may interrupt anywhere. The reference is a machine
that copies pages outright, as user/dumbfork.c does.
*/
module CowFork {
  import opened Layout
  import opened Options

  /** Page contents. */
  type Page = seq<int>

  /** The page number of PFTEMP, where pgfault builds the new page. */
  const PFTEMP: nat := 0x7ff

  /** Where dumbfork maps the child's page while filling it. */
  const UTEMP: nat := 0x400

  function ZeroPage(): Page { seq(PGSIZE, i => 0) }

  datatype Kind = Ro | W | Cow

  datatype Pte = Pte(frame: nat, kind: Kind)

  /** fork() at page pn: before reading its entry; having found it read-only or not; having
      mapped it copy-on-write into the child (`late` if our own entry was writable then). */
  datatype ForkAt = Ready | Chosen(ro: bool) | MappedChild(late: bool)

  datatype Fork = Fork(child: nat, pn: nat, at: ForkAt)

  /** pgfault() for page v, with `at` of its four calls made. */
  datatype Fault = Fault(v: nat, at: nat)

  /** `late` marks the page a child shares with a parent that can still write it. */
  datatype Proc = Proc(started: bool, handler: bool, pt: map<int, Pte>,
                       fork: Option<Fork>, fault: Option<Fault>, late: Option<nat>)

  datatype State = State(procs: seq<Proc>, frames: seq<Page>)

  predicate Has(s: State, e: nat, v: nat) { e < |s.procs| && v in s.procs[e].pt }

  /** Every entry points at a frame. */
  ghost predicate Framed(s: State) {
    forall e: nat, v: nat :: Has(s, e, v) ==> s.procs[e].pt[v].frame < |s.frames|
  }

  function View(s: State, e: nat, v: nat): Page
    requires Framed(s) && Has(s, e, v)
  {
    s.frames[s.procs[e].pt[v].frame]
  }

  // ---------------------------------------------------------------- system calls

  function SetProc(s: State, e: nat, p: Proc): State
    requires e < |s.procs|
  {
    s.(procs := s.procs[e := p])
  }

  function SetPte(s: State, e: nat, v: nat, pte: Pte): State
    requires e < |s.procs|
  {
    SetProc(s, e, s.procs[e].(pt := s.procs[e].pt[v := pte]))
  }

  /** sys_page_alloc: a zeroed frame nobody else has. */
  function PageAlloc(s: State, e: nat, v: nat): State
    requires e < |s.procs|
  {
    SetPte(s, e, v, Pte(|s.frames|, W)).(frames := s.frames + [ZeroPage()])
  }

  /** sys_page_map */
  function PageMap(s: State, e: nat, v: nat, d: nat, dv: nat, kind: Kind): State
    requires Has(s, e, v) && d < |s.procs|
  {
    SetPte(s, d, dv, Pte(s.procs[e].pt[v].frame, kind))
  }

  /** sys_exofork: an environment that does not run yet. */
  function WithChild(s: State): State { s.(procs := s.procs + [Proc(false, false, map[], None, None, None)]) }

  function Store(s: State, e: nat, v: nat, page: Page): State
    requires Framed(s) && Has(s, e, v)
  {
    s.(frames := s.frames[s.procs[e].pt[v].frame := page])
  }

  // ---------------------------------------------------------------- steps

  datatype Step =
    | Write(e: nat, v: nat, off: nat, x: int)  // a store to a writable page, in or out of a handler
    | TakeFault(e: nat, v: nat)                // a store to a copy-on-write page
    | FaultStep(e: nat)
    | SetHandler(e: nat)                       // set_pgfault_handler's first use
    | BeginFork(e: nat)
    | ForkStep(e: nat)
    | Die(e: nat)                              // panic or env_destroy

  predicate Runs(s: State, e: nat) { e < |s.procs| && s.procs[e].started }

  /** What may happen. User stores go to pages that are writable or copy-on-write, PFTEMP apart. While
      a fault is handled the stores to writable pages are the kernel's and the handler's to the
      exception stack, and any others the handler makes. */
  ghost predicate Enabled(s: State, st: Step)
    requires Framed(s)
  {
    && Runs(s, st.e)
    && var p := s.procs[st.e];
    match st
    case Write(e, v, off, x) => v in p.pt && v != PFTEMP && p.pt[v].kind == W && off < |View(s, e, v)|
    case TakeFault(e, v) => p.fault.None? && v in p.pt && v != PFTEMP && p.pt[v].kind == Cow && p.handler
    case FaultStep(e) => p.fault.Some? && p.fault.value.v in p.pt && (p.fault.value.at >= 2 ==> PFTEMP in p.pt)
    case SetHandler(e) => p.fault.None? && !p.handler
    case BeginFork(e) => p.fault.None? && p.fork.None? && p.handler
    case ForkStep(e) =>
      p.fault.None? && p.fork.Some? && p.fork.value.child < |s.procs| && (!p.fork.value.at.Ready? ==>
        p.fork.value.pn in p.pt)
    case Die(e) => true
  }

  function Faulted(s: State, e: nat, f: Option<Fault>): State
    requires e < |s.procs|
  {
    SetProc(s, e, s.procs[e].(fault := f))
  }

  function Forked(s: State, e: nat, f: Option<Fork>): State
    requires e < |s.procs|
  {
    SetProc(s, e, s.procs[e].(fork := f))
  }

  function Late(s: State, e: nat, v: Option<nat>): State
    requires e < |s.procs|
  {
    SetProc(s, e, s.procs[e].(late := v))
  }

  /** pgfault: allocate at PFTEMP, allocate again, copy, map over the faulting page. */
  function HandleFault(s: State, e: nat): State
    requires Framed(s) && Enabled(s, FaultStep(e))
  {
    var Fault(v, at) := s.procs[e].fault.value;
    if at < 2 then Faulted(PageAlloc(s, e, PFTEMP), e, Some(Fault(v, at + 1)))
    else if at == 2 then Faulted(Store(s, e, PFTEMP, View(s, e, v)), e, Some(Fault(v, 3)))
    else Faulted(PageMap(s, e, PFTEMP, e, v, W), e, None)
  }

  /** One step of the loop over the pages, and what follows it. */
  function ContinueFork(s: State, e: nat): State
    requires Framed(s) && Enabled(s, ForkStep(e))
  {
    var Fork(child, pn, at) := s.procs[e].fork.value;
    var pt := s.procs[e].pt;
    if pn == UXPAGE then Forked(PageAlloc(s, child, UXPAGE), e, Some(Fork(child, pn + 1, Ready)))
    else if pn > UXPAGE then
      Forked(SetProc(s, child, s.procs[child].(started := true, handler := true)), e, None)
    else
      match at
      case Ready =>
        Forked(s, e, Some(if pn in pt then Fork(child, pn, Chosen(pt[pn].kind == Ro)) else Fork(child, pn + 1, Ready)))
      case Chosen(ro) =>
        if ro then Forked(PageMap(s, e, pn, child, pn, Ro), e, Some(Fork(child, pn + 1, Ready)))
        else
          var late := pt[pn].kind == W && pn != PFTEMP;
          Forked(Late(PageMap(s, e, pn, child, pn, Cow), child, if late then Some(pn) else None), e,
                 Some(Fork(child, pn, MappedChild(late))))
      case MappedChild(_) =>
        Forked(Late(PageMap(s, e, pn, e, pn, Cow), child, None), e, Some(Fork(child, pn + 1, Ready)))
  }

  function Do(s: State, st: Step): State
    requires Framed(s) && Enabled(s, st)
  {
    match st
    case Write(e, v, off, x) => Store(s, e, v, View(s, e, v)[off := x])
    case TakeFault(e, v) => Faulted(s, e, Some(Fault(v, 0)))
    case FaultStep(e) => HandleFault(s, e)
    case SetHandler(e) => var t := PageAlloc(s, e, UXPAGE); SetProc(t, e, t.procs[e].(handler := true))
    case BeginFork(e) =>
      Forked(WithChild(s), e, Some(Fork(|s.procs|, 0, Ready)))
    case ForkStep(e) => ContinueFork(s, e)
    case Die(e) => SetProc(s, e, Proc(false, false, map[], None, None, s.procs[e].late))
  }

  // ---------------------------------------------------------------- the invariant

  /** A writable page and another page of anyone's, PFTEMPs apart, on one frame. */
  ghost predicate Conflict(s: State, e: nat, v: nat, d: nat, w: nat) {
    && Has(s, e, v) && Has(s, d, w) && (e != d || v != w) && v != PFTEMP && w != PFTEMP
    && s.procs[e].pt[v].kind == W && s.procs[d].pt[w].frame == s.procs[e].pt[v].frame
  }

  /** The one time this happens: fork has mapped the page into the child, which does not run yet,
      and not yet marked its own entry. */
  ghost predicate Window(s: State, e: nat, v: nat, d: nat, w: nat) {
    && e < |s.procs| && d < |s.procs| && v == w && s.procs[d].late == Some(w)
    && s.procs[e].fork == Some(Fork(d, v, MappedChild(true)))
  }

  ghost predicate Exclusive(s: State) {
    forall e: nat, v: nat, d: nat, w: nat :: Conflict(s, e, v, d, w) ==> Window(s, e, v, d, w)
  }

  /** No other page of anyone's, PFTEMPs included, is on this page's frame. */
  ghost predicate Private(s: State, e: nat, v: nat)
    requires Has(s, e, v)
  {
    forall d: nat, w: nat :: Has(s, d, w) && (d != e || w != v) ==> s.procs[d].pt[w].frame != s.procs[e].pt[v].frame
  }

  ghost predicate FaultOk(s: State, e: nat)
    requires Framed(s) && e < |s.procs|
  {
    s.procs[e].fault.Some? ==>
      var Fault(v, at) := s.procs[e].fault.value;
      && s.procs[e].started && v != PFTEMP && Has(s, e, v) && s.procs[e].pt[v].kind == Cow && at <= 3
      && (at > 0 ==> Has(s, e, PFTEMP) && s.procs[e].pt[PFTEMP].kind == W && Private(s, e, PFTEMP))
      && (at == 3 ==> View(s, e, PFTEMP) == View(s, e, v))
  }

  ghost predicate ForkOk(s: State, e: nat)
    requires e < |s.procs|
  {
    s.procs[e].fork.Some? ==>
      var Fork(child, pn, at) := s.procs[e].fork.value;
      && s.procs[e].started && s.procs[e].handler && child < |s.procs| && child != e
      && !s.procs[child].started && s.procs[child].fault.None?
      && pn <= UXPAGE + 1 && (at.Ready? || (pn < UXPAGE && Has(s, e, pn)))
      && (at.Chosen? && pn != PFTEMP ==> at.ro == (s.procs[e].pt[pn].kind == Ro))
      && (if at == MappedChild(true) then
            pn != PFTEMP && Has(s, child, pn) && s.procs[e].pt[pn] == Pte(s.procs[child].pt[pn].frame, W)
            && s.procs[child].pt[pn].kind == Cow && s.procs[child].late == Some(pn)
          else s.procs[child].late.None?)
  }

  ghost predicate ProcOk(s: State, e: nat)
    requires Framed(s) && e < |s.procs|
  {
    && FaultOk(s, e) && ForkOk(s, e)
    && (s.procs[e].started ==> s.procs[e].late.None?)
    && (s.procs[e].fork.Some? || s.procs[e].fault.Some? ==> s.procs[e].started)
    && (s.procs[e].started && !s.procs[e].handler ==> forall v: nat :: Has(s, e, v) ==> s.procs[e].pt[v].kind != Cow)
  }

  /** Each child has one parent working on it. */
  ghost predicate OneParent(s: State) {
    forall e: nat, d: nat ::
      e < |s.procs| && d < |s.procs| && e != d && s.procs[e].fork.Some? && s.procs[d].fork.Some? ==>
      s.procs[e].fork.value.child != s.procs[d].fork.value.child
  }

  ghost predicate Inv(s: State) {
    Framed(s) && Exclusive(s) && OneParent(s) && forall e: nat :: e < |s.procs| ==> ProcOk(s, e)
  }

  // ---------------------------------------------------------------- the eager reference

  /** Every environment has its own memory; a fork copies. */
  type Memory = seq<map<int, Page>>

  datatype EagerOp =
    | Store1(e: nat, v: nat, off: nat, x: int)
    | Copy(e: nat, child: nat, v: nat)
    | Fresh(e: nat, v: nat)
    | NewEnv
    | Drop(e: nat)
    | Nothing

  predicate Defined(a: Memory, op: EagerOp) {
    match op
    case Store1(e, v, off, _) => e < |a| && v in a[e] && off < |a[e][v]|
    case Copy(e, child, v) => e < |a| && child < |a| && v in a[e]
    case Fresh(e, _) => e < |a|
    case Drop(e) => e < |a|
    case _ => true
  }

  function Eager(a: Memory, op: EagerOp): Memory
    requires Defined(a, op)
  {
    match op
    case Store1(e, v, off, x) => a[e := a[e][v := a[e][v][off := x]]]
    case Copy(e, child, v) => a[child := a[child][v := a[e][v]]]
    case Fresh(e, v) => a[e := a[e][v := ZeroPage()]]
    case NewEnv => a + [map[]]
    case Drop(e) => a[e := map[]]
    case Nothing => a
  }

  /** When fork's copying takes effect: at the mapping into the child, or, if the parent's own
      entry was writable then, at the marking of that entry. */
  function Op(s: State, st: Step): EagerOp
    requires Framed(s) && Enabled(s, st)
  {
    match st
    case Write(e, v, off, x) => Store1(e, v, off, x)
    case SetHandler(e) => Fresh(e, UXPAGE)
    case BeginFork(e) => NewEnv
    case Die(e) => Drop(e)
    case ForkStep(e) =>
      var Fork(child, pn, at) := s.procs[e].fork.value;
      if pn == UXPAGE then Fresh(child, UXPAGE)
      else if pn > UXPAGE || pn == PFTEMP then Nothing
      else if at.Chosen? && (at.ro || s.procs[e].pt[pn].kind != W) then Copy(e, child, pn)
      else if at == MappedChild(true) then Copy(e, child, pn)
      else Nothing
    case _ => Nothing
  }

  /** Page by page, PFTEMP apart, what an environment sees is what it has in the eager machine;
      a page still late is not there yet. */
  ghost predicate Same(s: State, a: Memory, e: nat, v: nat)
    requires Framed(s) && |a| == |s.procs| && e < |a|
  {
    v != PFTEMP && s.procs[e].late != Some(v) ==>
      (Has(s, e, v) <==> v in a[e]) && (Has(s, e, v) ==> View(s, e, v) == a[e][v])
  }

  ghost predicate Match(s: State, a: Memory) {
    && Framed(s) && |a| == |s.procs|
    && forall e: nat, v: nat :: e < |a| ==> Same(s, a, e, v)
  }

  // ---------------------------------------------------------------- single changes

  /** The three facts every page-table change has to respect. */
  lemma PutExclusive(s: State, e: nat, v: nat, pte: Pte)
    requires Exclusive(s) && e < |s.procs|
    requires pte.kind == W && v != PFTEMP ==>
      forall d: nat, w: nat :: Has(s, d, w) && w != PFTEMP && (d != e || w != v) ==> s.procs[d].pt[w].frame != pte.frame
    requires v != PFTEMP ==>
      forall d: nat, w: nat ::
        Has(s, d, w) && w != PFTEMP && (d != e || w != v) && s.procs[d].pt[w] == Pte(pte.frame, W) ==>
        Window(s, d, w, e, v)
    ensures Exclusive(SetPte(s, e, v, pte))
  {
    var t := SetPte(s, e, v, pte);
    forall x: nat, y: nat, d: nat, w: nat | Conflict(t, x, y, d, w) ensures Window(t, x, y, d, w) {
      if (x != e || y != v) && (d != e || w != v) {
        assert Conflict(s, x, y, d, w);
      } else if d == e && w == v {
        assert Has(s, x, y);
        assert Window(s, x, y, e, v);
      } else {
        assert Has(s, d, w);
      }
    }
  }

  /** Changes outside the page tables. */
  lemma FieldsExclusive(s: State, t: State)
    requires Exclusive(s) && |t.procs| == |s.procs| && forall e :: 0 <= e < |s.procs| ==> t.procs[e].pt == s.procs[e].pt
    requires forall e: nat, v: nat, d: nat, w: nat :: Conflict(s, e, v, d, w) && Window(s, e, v, d, w) ==>
      Window(t, e, v, d, w)
    ensures Exclusive(t)
  {
    forall e: nat, v: nat, d: nat, w: nat | Conflict(t, e, v, d, w) ensures Window(t, e, v, d, w) {
      assert Conflict(s, e, v, d, w);
    }
  }

  lemma PrivatePut(s: State, d: nat, e: nat, v: nat, pte: Pte)
    requires Has(s, d, PFTEMP) && Private(s, d, PFTEMP) && e < |s.procs| && (e != d || v != PFTEMP)
    requires pte.frame != s.procs[d].pt[PFTEMP].frame
    ensures Private(SetPte(s, e, v, pte), d, PFTEMP)
  {
    var t := SetPte(s, e, v, pte);
    forall x: nat, y: nat | Has(t, x, y) && (x != d || y != PFTEMP)
      ensures t.procs[x].pt[y].frame != t.procs[d].pt[PFTEMP].frame
    {
      if x != e || y != v { assert Has(s, x, y); }
    }
  }

  /** The frame of a writable page is nobody else's to read. */
  lemma Unshared(s: State, e: nat, v: nat, d: nat, w: nat)
    requires Inv(s) && Has(s, e, v) && Has(s, d, w) && (e != d || v != w) && v != PFTEMP && w != PFTEMP
    requires s.procs[e].pt[v].kind == W && s.procs[d].late != Some(w)
    ensures s.procs[d].pt[w].frame != s.procs[e].pt[v].frame
  {
    assert !Conflict(s, e, v, d, w) || Window(s, e, v, d, w);
  }

  ghost predicate FaultHolds(s: State, d: nat)
    requires Framed(s) && d < |s.procs|
  {
    s.procs[d].fault.Some? && s.procs[d].fault.value.at > 0 ==>
      var Fault(v, at) := s.procs[d].fault.value;
      && Has(s, d, v) && Has(s, d, PFTEMP) && Private(s, d, PFTEMP)
      && (at == 3 ==> View(s, d, PFTEMP) == View(s, d, v))
  }

  /** A process that a step leaves alone, and its child with it. */
  lemma OtherProc(s: State, t: State, d: nat)
    requires Inv(s) && Framed(t) && d < |s.procs| <= |t.procs| && t.procs[d] == s.procs[d]
    requires s.procs[d].fork.Some? && s.procs[d].fork.value.child < |s.procs| ==>
      t.procs[s.procs[d].fork.value.child] == s.procs[s.procs[d].fork.value.child]
    requires FaultHolds(t, d)
    ensures ProcOk(t, d)
  {
    assert ProcOk(s, d);
    forall v: nat | Has(t, d, v) ensures Has(s, d, v) {}
  }

  lemma PrivateSame(s: State, t: State, e: nat)
    requires Has(s, e, PFTEMP) && Private(s, e, PFTEMP) && |t.procs| == |s.procs|
    requires forall d :: 0 <= d < |s.procs| ==> t.procs[d].pt == s.procs[d].pt
    ensures Private(t, e, PFTEMP)
  {
    forall d: nat, w: nat | Has(t, d, w) && (d != e || w != PFTEMP)
      ensures t.procs[d].pt[w].frame != t.procs[e].pt[PFTEMP].frame
    {
      assert Has(s, d, w);
    }
  }

  lemma FramedSame(s: State, t: State)
    requires Framed(s) && |t.procs| == |s.procs| && |t.frames| >= |s.frames|
    requires forall d :: 0 <= d < |s.procs| ==> t.procs[d].pt == s.procs[d].pt
    ensures Framed(t)
  {
    forall d: nat, w: nat | Has(t, d, w) ensures t.procs[d].pt[w].frame < |t.frames| { assert Has(s, d, w); }
  }

  // ---------------------------------------------------------------- a store

  /** Storing into a writable page leaves every page that is waiting in a fault as it is. */
  lemma StoreFault(s: State, e: nat, v: nat, page: Page, d: nat)
    requires Inv(s) && Has(s, e, v) && s.procs[e].pt[v].kind == W && v != PFTEMP && d < |s.procs|
    ensures Framed(Store(s, e, v, page)) && FaultHolds(Store(s, e, v, page), d)
  {
    var t := Store(s, e, v, page);
    FramedSame(s, t);
    assert ProcOk(s, d);
    if s.procs[d].fault.Some? && s.procs[d].fault.value.at > 0 {
      PrivateSame(s, t, d);
      assert s.procs[e].pt[v].frame != s.procs[d].pt[PFTEMP].frame;
      Unshared(s, e, v, d, s.procs[d].fault.value.v);
    }
  }

  lemma StoreInv(s: State, e: nat, v: nat, page: Page)
    requires Inv(s) && Has(s, e, v) && s.procs[e].pt[v].kind == W && v != PFTEMP
    ensures Inv(Store(s, e, v, page))
  {
    var t := Store(s, e, v, page);
    FramedSame(s, t);
    FieldsExclusive(s, t);
    forall d: nat | d < |t.procs| ensures ProcOk(t, d) {
      StoreFault(s, e, v, page, d);
      OtherProc(s, t, d);
    }
  }

  lemma StoreMatch(s: State, a: Memory, e: nat, v: nat, off: nat, x: int)
    requires Inv(s) && Match(s, a) && Enabled(s, Write(e, v, off, x))
    ensures Defined(a, Store1(e, v, off, x))
    ensures Match(Do(s, Write(e, v, off, x)), Eager(a, Store1(e, v, off, x)))
  {
    assert ProcOk(s, e);
    assert Same(s, a, e, v);
    var t, b := Do(s, Write(e, v, off, x)), Eager(a, Store1(e, v, off, x));
    FramedSame(s, t);
    forall d: nat, w: nat | d < |b| ensures Same(t, b, d, w) {
      assert Same(s, a, d, w);
      if Has(s, d, w) && (d != e || v != w) && w != PFTEMP && s.procs[d].late != Some(w) { Unshared(s, e, v, d, w); }
    }
  }

  // ---------------------------------------------------------------- pgfault

  /** Process e changes its page table or its own fields and nobody else changes. */
  lemma OwnStep(s: State, t: State, e: nat)
    requires Inv(s) && Framed(t) && Exclusive(t) && e < |s.procs| == |t.procs| && s.procs[e].started
    requires forall d: nat :: d < |s.procs| && d != e ==> t.procs[d] == s.procs[d]
    requires forall d: nat :: d < |s.procs| && d != e ==> FaultHolds(t, d)
    requires t.procs[e].fork == s.procs[e].fork && ProcOk(t, e)
    ensures Inv(t)
  {
    forall d: nat | d < |t.procs| ensures ProcOk(t, d) {
      if d != e {
        assert ProcOk(s, d);
        OtherProc(s, t, d);
      }
    }
  }

  lemma FaultHoldsSame(s: State, t: State, d: nat)
    requires Inv(s) && Framed(t) && |t.procs| == |s.procs| && d < |s.procs| && t.frames == s.frames
    requires forall x :: 0 <= x < |s.procs| ==> t.procs[x].pt == s.procs[x].pt
    requires t.procs[d].fault == s.procs[d].fault
    ensures FaultHolds(t, d)
  {
    assert ProcOk(s, d);
    if s.procs[d].fault.Some? && s.procs[d].fault.value.at > 0 { PrivateSame(s, t, d); }
  }

  lemma TakeFaultInv(s: State, e: nat, v: nat)
    requires Inv(s) && Enabled(s, TakeFault(e, v))
    ensures Inv(Do(s, TakeFault(e, v)))
  {
    var t := Do(s, TakeFault(e, v));
    assert ProcOk(s, e);
    FramedSame(s, t);
    FieldsExclusive(s, t);
    forall d: nat | d < |s.procs| && d != e ensures FaultHolds(t, d) { FaultHoldsSame(s, t, d); }
    if s.procs[e].fork.Some? {
      var child := s.procs[e].fork.value.child;
      assert t.procs[child] == s.procs[child];
    }
    forall w: nat | Has(t, e, w) ensures Has(s, e, w) {}
    OwnStep(s, t, e);
  }

  /** Mapping a frame that no waiting fault has reserved for itself. */
  lemma PutFault(s: State, t: State, e: nat, v: nat, pte: Pte, d: nat)
    requires Inv(s) && Framed(t) && e < |s.procs| && d < |s.procs| && d != e
    requires |t.frames| >= |s.frames| && s.frames == t.frames[..|s.frames|]
    requires |t.procs| == |s.procs| && t.procs[d] == s.procs[d]
    requires forall x :: 0 <= x < |s.procs| ==> t.procs[x].pt == SetPte(s, e, v, pte).procs[x].pt
    requires Has(s, d, PFTEMP) && Private(s, d, PFTEMP) ==> pte.frame != s.procs[d].pt[PFTEMP].frame
    ensures FaultHolds(t, d)
  {
    assert ProcOk(s, d);
    if s.procs[d].fault.Some? && s.procs[d].fault.value.at > 0 {
      PrivatePut(s, d, e, v, pte);
      PrivateSame(SetPte(s, e, v, pte), t, d);
    }
  }

  lemma FramedPut(s: State, t: State, e: nat, v: nat, pte: Pte)
    requires Framed(s) && e < |s.procs| && |t.procs| == |s.procs| && |t.frames| >= |s.frames| && pte.frame < |t.frames|
    requires forall x :: 0 <= x < |s.procs| ==> t.procs[x].pt == SetPte(s, e, v, pte).procs[x].pt
    ensures Framed(t)
  {
    forall d: nat, w: nat | Has(t, d, w) ensures t.procs[d].pt[w].frame < |t.frames| {
      if d != e || w != v { assert Has(s, d, w); }
    }
  }

  /** A fresh frame is nobody's. */
  lemma FreshPrivate(s: State, e: nat, v: nat)
    requires Framed(s) && e < |s.procs|
    ensures Framed(PageAlloc(s, e, v)) && Private(PageAlloc(s, e, v), e, v)
  {
    var t := PageAlloc(s, e, v);
    FramedPut(s, t, e, v, Pte(|s.frames|, W));
    forall d: nat, w: nat | Has(t, d, w) && (d != e || w != v)
      ensures t.procs[d].pt[w].frame != t.procs[e].pt[v].frame
    {
      assert Has(s, d, w);
    }
  }

  lemma FreshExclusive(s: State, e: nat, v: nat)
    requires Framed(s) && Exclusive(s) && e < |s.procs|
    ensures Exclusive(PageAlloc(s, e, v))
  {
    forall d: nat, w: nat | Has(s, d, w) ensures s.procs[d].pt[w].frame != |s.frames| {}
    PutExclusive(s, e, v, Pte(|s.frames|, W));
    FieldsExclusive(SetPte(s, e, v, Pte(|s.frames|, W)), PageAlloc(s, e, v));
  }

  lemma AllocStepInv(s: State, e: nat)
    requires Inv(s) && Enabled(s, FaultStep(e)) && s.procs[e].fault.value.at < 2
    ensures Inv(Do(s, FaultStep(e)))
  {
    var u := PageAlloc(s, e, PFTEMP);
    var t := Do(s, FaultStep(e));
    assert ProcOk(s, e);
    FreshPrivate(s, e, PFTEMP);
    FreshExclusive(s, e, PFTEMP);
    FramedSame(u, t);
    FieldsExclusive(u, t);
    PrivateSame(u, t, e);
    forall d: nat | d < |s.procs| && d != e
      ensures FaultHolds(t, d)
    {
      PutFault(s, t, e, PFTEMP, Pte(|s.frames|, W), d);
    }
    AllocForkOk(s, t, e);
    OwnStep(s, t, e);
  }

  lemma AllocForkOk(s: State, t: State, e: nat)
    requires Inv(s) && e < |s.procs| == |t.procs| && s.procs[e].started
    requires forall d: nat :: d < |s.procs| && d != e ==> t.procs[d] == s.procs[d]
    requires t.procs[e].fork == s.procs[e].fork && t.procs[e].started && t.procs[e].handler == s.procs[e].handler
    requires exists f :: t.procs[e].pt == s.procs[e].pt[PFTEMP := Pte(f, W)]
    ensures ForkOk(t, e)
    ensures !s.procs[e].handler ==> forall v: nat :: Has(t, e, v) ==> t.procs[e].pt[v].kind != Cow
  {
    assert ProcOk(s, e);
    if s.procs[e].fork.Some? {
      var child := s.procs[e].fork.value.child;
      assert t.procs[child] == s.procs[child];
    }
    forall v: nat | Has(t, e, v) && v != PFTEMP ensures Has(s, e, v) {}
  }

  lemma SameForkOk(s: State, t: State, e: nat)
    requires Inv(s) && e < |s.procs| == |t.procs|
    requires forall d: nat :: d < |s.procs| && d != e ==> t.procs[d] == s.procs[d]
    requires t.procs[e].pt == s.procs[e].pt && t.procs[e].fork == s.procs[e].fork
    requires t.procs[e].started == s.procs[e].started && t.procs[e].handler == s.procs[e].handler
    ensures ForkOk(t, e)
    ensures s.procs[e].started && !s.procs[e].handler ==> forall v: nat :: Has(t, e, v) ==> t.procs[e].pt[v].kind != Cow
  {
    assert ProcOk(s, e);
    if s.procs[e].fork.Some? {
      var child := s.procs[e].fork.value.child;
      assert t.procs[child] == s.procs[child];
    }
    forall v: nat | Has(t, e, v) ensures Has(s, e, v) {}
  }

  lemma CopyStepInv(s: State, e: nat)
    requires Inv(s) && Enabled(s, FaultStep(e)) && s.procs[e].fault.value.at == 2
    ensures Inv(Do(s, FaultStep(e)))
  {
    var t := Do(s, FaultStep(e));
    assert ProcOk(s, e);
    FramedSame(s, t);
    FieldsExclusive(s, t);
    PrivateSame(s, t, e);
    forall d: nat | d < |s.procs| && d != e ensures FaultHolds(t, d) {
      assert ProcOk(s, d);
      if s.procs[d].fault.Some? && s.procs[d].fault.value.at > 0 {
        PrivateSame(s, t, d);
        assert Has(s, d, PFTEMP) && Has(s, d, s.procs[d].fault.value.v);
      }
    }
    assert Has(s, e, s.procs[e].fault.value.v);
    SameForkOk(s, t, e);
    OwnStep(s, t, e);
  }

  lemma CopyStepMatch(s: State, a: Memory, e: nat)
    requires Inv(s) && Match(s, a) && Enabled(s, FaultStep(e)) && s.procs[e].fault.value.at == 2
    ensures Match(Do(s, FaultStep(e)), a)
  {
    var t := Do(s, FaultStep(e));
    assert ProcOk(s, e);
    FramedSame(s, t);
    forall d: nat, w: nat | d < |a| ensures Same(t, a, d, w) {
      assert Same(s, a, d, w);
      if Has(s, d, w) && w != PFTEMP { assert s.procs[d].pt[w].frame != s.procs[e].pt[PFTEMP].frame; }
    }
  }

  lemma AllocStepMatch(s: State, a: Memory, e: nat)
    requires Inv(s) && Match(s, a) && Enabled(s, FaultStep(e)) && s.procs[e].fault.value.at < 2
    ensures Match(Do(s, FaultStep(e)), a)
  {
    var t := Do(s, FaultStep(e));
    FramedPut(s, t, e, PFTEMP, Pte(|s.frames|, W));
    forall d: nat, w: nat | d < |a| ensures Same(t, a, d, w) {
      assert Same(s, a, d, w);
      if w != PFTEMP { assert Has(t, d, w) <==> Has(s, d, w); }
    }
  }

  lemma MapStepInv(s: State, e: nat)
    requires Inv(s) && Enabled(s, FaultStep(e)) && s.procs[e].fault.value.at == 3
    ensures Inv(Do(s, FaultStep(e)))
  {
    var v := s.procs[e].fault.value.v;
    assert ProcOk(s, e);
    var pte := Pte(s.procs[e].pt[PFTEMP].frame, W);
    var u := SetPte(s, e, v, pte);
    var t := Do(s, FaultStep(e));
    PutExclusive(s, e, v, pte);
    FramedPut(s, t, e, v, pte);
    FieldsExclusive(u, t);
    forall d: nat | d < |s.procs| && d != e ensures FaultHolds(t, d) { PutFault(s, t, e, v, pte, d); }
    MapForkOk(s, t, e, v, pte);
    OwnStep(s, t, e);
  }

  lemma MapForkOk(s: State, t: State, e: nat, v: nat, pte: Pte)
    requires Inv(s) && e < |s.procs| == |t.procs| && Has(s, e, v) && s.procs[e].pt[v].kind == Cow && pte.kind == W
    requires forall d: nat :: d < |s.procs| && d != e ==> t.procs[d] == s.procs[d]
    requires t.procs[e].pt == s.procs[e].pt[v := pte] && t.procs[e].fork == s.procs[e].fork
    requires t.procs[e].started == s.procs[e].started && t.procs[e].handler == s.procs[e].handler
    ensures ForkOk(t, e)
    ensures s.procs[e].started && !s.procs[e].handler ==> forall w: nat :: Has(t, e, w) ==> t.procs[e].pt[w].kind != Cow
  {
    assert ProcOk(s, e);
    if s.procs[e].fork.Some? {
      var child := s.procs[e].fork.value.child;
      assert t.procs[child] == s.procs[child];
    }
    forall w: nat | Has(t, e, w) && w != v ensures Has(s, e, w) {}
  }

  lemma MapStepMatch(s: State, a: Memory, e: nat)
    requires Inv(s) && Match(s, a) && Enabled(s, FaultStep(e)) && s.procs[e].fault.value.at == 3
    ensures Match(Do(s, FaultStep(e)), a)
  {
    var v := s.procs[e].fault.value.v;
    var t := Do(s, FaultStep(e));
    assert ProcOk(s, e);
    FramedPut(s, t, e, v, Pte(s.procs[e].pt[PFTEMP].frame, W));
    forall d: nat, w: nat | d < |a| ensures Same(t, a, d, w) {
      assert Same(s, a, d, w);
      assert Has(t, d, w) <==> Has(s, d, w);
    }
  }

  // ---------------------------------------------------------------- setting up and starting a fork

  lemma SetHandlerInv(s: State, e: nat)
    requires Inv(s) && Enabled(s, SetHandler(e))
    ensures Inv(Do(s, SetHandler(e)))
  {
    var u := PageAlloc(s, e, UXPAGE);
    var t := Do(s, SetHandler(e));
    assert ProcOk(s, e);
    FreshExclusive(s, e, UXPAGE);
    FreshPrivate(s, e, UXPAGE);
    FramedSame(u, t);
    FieldsExclusive(u, t);
    forall d: nat | d < |s.procs| && d != e
      ensures FaultHolds(t, d)
    {
      PutFault(s, t, e, UXPAGE, Pte(|s.frames|, W), d);
    }
    OwnStep(s, t, e);
  }

  lemma SetHandlerMatch(s: State, a: Memory, e: nat)
    requires Inv(s) && Match(s, a) && Enabled(s, SetHandler(e))
    ensures Match(Do(s, SetHandler(e)), Eager(a, Fresh(e, UXPAGE)))
  {
    var t := Do(s, SetHandler(e));
    FramedPut(s, t, e, UXPAGE, Pte(|s.frames|, W));
    forall d: nat, w: nat | d < |a| ensures Same(t, Eager(a, Fresh(e, UXPAGE)), d, w) {
      assert Same(s, a, d, w);
      if d != e || w != UXPAGE { assert Has(t, d, w) <==> Has(s, d, w); }
    }
  }

  lemma BeginForkFault(s: State, t: State, d: nat)
    requires Inv(s) && Framed(t) && d < |s.procs| && |t.procs| == |s.procs| + 1 && t.frames == s.frames
    requires t.procs[|s.procs|].pt == map[] && forall x :: 0 <= x < |s.procs| ==> t.procs[x].pt == s.procs[x].pt
    requires t.procs[d].fault == s.procs[d].fault
    ensures FaultHolds(t, d)
  {
    assert ProcOk(s, d);
    if s.procs[d].fault.Some? && s.procs[d].fault.value.at > 0 {
      forall x: nat, y: nat | Has(t, x, y) && (x != d || y != PFTEMP)
        ensures t.procs[x].pt[y].frame != t.procs[d].pt[PFTEMP].frame
      {
        assert Has(s, x, y);
      }
    }
  }

  lemma BeginForkInv(s: State, e: nat)
    requires Inv(s) && Enabled(s, BeginFork(e))
    ensures Inv(Do(s, BeginFork(e)))
  {
    var t := Do(s, BeginFork(e));
    assert ProcOk(s, e);
    forall d: nat, w: nat | Has(t, d, w) ensures Has(s, d, w) && t.procs[d].pt == s.procs[d].pt {}
    forall x: nat, y: nat, d: nat, w: nat | Conflict(t, x, y, d, w)
      ensures Window(t, x, y, d, w)
    {
      assert Conflict(s, x, y, d, w);
    }
    forall d: nat | d < |t.procs| ensures ProcOk(t, d) {
      if d < |s.procs| {
        assert ProcOk(s, d);
        BeginForkFault(s, t, d);
        if d != e { OtherProc(s, t, d); }
      }
    }
    forall d: nat | d < |s.procs| && d != e && s.procs[d].fork.Some?
      ensures s.procs[d].fork.value.child < |s.procs|
    {
      assert ProcOk(s, d);
    }
  }

  lemma BeginForkMatch(s: State, a: Memory, e: nat)
    requires Inv(s) && Match(s, a) && Enabled(s, BeginFork(e))
    ensures Match(Do(s, BeginFork(e)), a + [map[]])
  {
    var t, b := Do(s, BeginFork(e)), a + [map[]];
    forall d: nat, w: nat | Has(t, d, w) ensures Has(s, d, w) && t.procs[d].pt == s.procs[d].pt {}
    forall d: nat, w: nat | d < |b| ensures Same(t, b, d, w) {
      if d < |a| {
        assert Same(s, a, d, w);
        assert Has(t, d, w) <==> Has(s, d, w);
      }
    }
  }

  // ---------------------------------------------------------------- the loop over the pages

  /** The parent e and its child change, nobody else. */
  lemma FamilyStep(s: State, t: State, e: nat, child: nat)
    requires Inv(s) && Framed(t) && Exclusive(t) && |t.procs| == |s.procs| && e < |s.procs| && child < |s.procs|
    requires s.procs[e].fork.Some? && s.procs[e].fork.value.child == child
    requires forall d: nat :: d < |s.procs| && d != e && d != child ==> t.procs[d] == s.procs[d] && FaultHolds(t, d)
    requires ProcOk(t, e) && ProcOk(t, child) && t.procs[child].fork.None?
    requires t.procs[e].fork.Some? ==> t.procs[e].fork.value.child == child
    ensures Inv(t)
  {
    assert ProcOk(s, e);
    forall d: nat | d < |t.procs| ensures ProcOk(t, d) {
      if d != e && d != child {
        assert ProcOk(s, d);
        OtherProc(s, t, d);
      }
    }
  }

  lemma Kid(s: State, e: nat)
    requires Inv(s) && Enabled(s, ForkStep(e))
    ensures ProcOk(s, e)
    ensures var child := s.procs[e].fork.value.child;
      && child != e && ProcOk(s, child) && !s.procs[child].started
      && s.procs[child].fork.None? && s.procs[child].fault.None?
  {
    assert ProcOk(s, e);
    assert ProcOk(s, s.procs[e].fork.value.child);
  }

  lemma ReadyStepInv(s: State, e: nat)
    requires Inv(s) && Enabled(s, ForkStep(e))
    requires s.procs[e].fork.value.pn < UXPAGE && s.procs[e].fork.value.at.Ready?
    ensures Inv(Do(s, ForkStep(e)))
  {
    Kid(s, e);
    var child := s.procs[e].fork.value.child;
    var t := Do(s, ForkStep(e));
    FramedSame(s, t);
    FieldsExclusive(s, t);
    forall d: nat | d < |s.procs| && d != e ensures FaultHolds(t, d) { FaultHoldsSame(s, t, d); }
    assert t.procs[child] == s.procs[child];
    FamilyStep(s, t, e, child);
  }

  /** A frame the parent maps may be mapped into the child, except writable. */
  lemma ChildExclusive(s: State, u: State, e: nat, child: nat, pn: nat, kind: Kind)
    requires Inv(s) && Enabled(s, ForkStep(e)) && kind != W && Has(s, e, pn) && child == s.procs[e].fork.value.child
    requires Exclusive(u) && |u.procs| == |s.procs| && forall d :: 0 <= d < |s.procs| ==> u.procs[d].pt == s.procs[d].pt
    requires s.procs[e].pt[pn].kind == W && pn != PFTEMP ==> Window(u, e, pn, child, pn)
    ensures Exclusive(SetPte(u, child, pn, Pte(s.procs[e].pt[pn].frame, kind)))
  {
    var pte := Pte(s.procs[e].pt[pn].frame, kind);
    Kid(s, e);
    if pn != PFTEMP {
      forall d: nat, w: nat | Has(u, d, w) && w != PFTEMP && (d != child || w != pn)
        && u.procs[d].pt[w] == Pte(pte.frame, W)
        ensures Window(u, d, w, child, pn)
      {
        assert Has(s, d, w);
        assert !Conflict(s, d, w, e, pn) || Window(s, d, w, e, pn);
      }
    }
    PutExclusive(u, child, pn, pte);
  }

  lemma ChildFault(s: State, t: State, e: nat, child: nat, pn: nat, pte: Pte, d: nat)
    requires Inv(s) && Framed(t) && e < |s.procs| && child < |s.procs| && Has(s, e, pn)
    requires pte.frame == s.procs[e].pt[pn].frame
    requires d < |s.procs| == |t.procs| && d != e && d != child && t.frames == s.frames && t.procs[d] == s.procs[d]
    requires forall x :: 0 <= x < |s.procs| ==> t.procs[x].pt == SetPte(s, child, pn, pte).procs[x].pt
    ensures FaultHolds(t, d)
  {
    PutFault(s, t, child, pn, pte, d);
  }

  lemma ShareStepInv(s: State, e: nat)
    requires Inv(s) && Enabled(s, ForkStep(e))
    requires s.procs[e].fork.value.pn < UXPAGE && s.procs[e].fork.value.at == Chosen(true)
    ensures Inv(Do(s, ForkStep(e)))
  {
    Kid(s, e);
    var Fork(child, pn, at) := s.procs[e].fork.value;
    var pte := Pte(s.procs[e].pt[pn].frame, Ro);
    var t := Do(s, ForkStep(e));
    FramedPut(s, t, child, pn, pte);
    ChildExclusive(s, s, e, child, pn, Ro);
    FieldsExclusive(SetPte(s, child, pn, pte), t);
    forall d: nat | d < |s.procs| && d != e && d != child
      ensures FaultHolds(t, d)
    {
      ChildFault(s, t, e, child, pn, pte, d);
    }
    assert t.procs[e].pt == s.procs[e].pt;
    forall w: nat | Has(t, e, w) ensures Has(s, e, w) {}
    FamilyStep(s, t, e, child);
  }

  lemma CowExclusive(s: State, e: nat)
    requires Inv(s) && Enabled(s, ForkStep(e))
    requires s.procs[e].fork.value.pn < UXPAGE && s.procs[e].fork.value.at == Chosen(false)
    ensures Exclusive(Do(s, ForkStep(e))) && Framed(Do(s, ForkStep(e)))
  {
    Kid(s, e);
    var Fork(child, pn, at) := s.procs[e].fork.value;
    var late := s.procs[e].pt[pn].kind == W && pn != PFTEMP;
    var pte := Pte(s.procs[e].pt[pn].frame, Cow);
    var u := Forked(Late(s, child, if late then Some(pn) else None), e, Some(Fork(child, pn, MappedChild(late))));
    var t := Do(s, ForkStep(e));
    FieldsExclusive(s, u);
    ChildExclusive(s, u, e, child, pn, Cow);
    assert t.procs == SetPte(u, child, pn, pte).procs;
    FramedPut(s, t, child, pn, pte);
  }

  lemma CowStepInv(s: State, e: nat)
    requires Inv(s) && Enabled(s, ForkStep(e))
    requires s.procs[e].fork.value.pn < UXPAGE && s.procs[e].fork.value.at == Chosen(false)
    ensures Inv(Do(s, ForkStep(e)))
  {
    Kid(s, e);
    CowExclusive(s, e);
    var Fork(child, pn, at) := s.procs[e].fork.value;
    var pte := Pte(s.procs[e].pt[pn].frame, Cow);
    var t := Do(s, ForkStep(e));
    forall d: nat | d < |s.procs| && d != e && d != child
      ensures FaultHolds(t, d)
    {
      ChildFault(s, t, e, child, pn, pte, d);
    }
    CowStepProcs(s, t, e);
    FamilyStep(s, t, e, child);
  }

  lemma CowStepProcs(s: State, t: State, e: nat)
    requires Inv(s) && Enabled(s, ForkStep(e)) && Framed(t)
    requires s.procs[e].fork.value.pn < UXPAGE && s.procs[e].fork.value.at == Chosen(false)
    requires t == Do(s, ForkStep(e))
    ensures ProcOk(t, e) && ProcOk(t, s.procs[e].fork.value.child)
  {
    Kid(s, e);
    assert t.procs[e].pt == s.procs[e].pt;
    forall w: nat | Has(t, e, w) ensures Has(s, e, w) {}
  }

  lemma MarkStepInv(s: State, e: nat)
    requires Inv(s) && Enabled(s, ForkStep(e))
    requires s.procs[e].fork.value.pn < UXPAGE && s.procs[e].fork.value.at.MappedChild?
    ensures Inv(Do(s, ForkStep(e)))
  {
    Kid(s, e);
    var Fork(child, pn, at) := s.procs[e].fork.value;
    var pte := Pte(s.procs[e].pt[pn].frame, Cow);
    var u := SetPte(s, e, pn, pte);
    var t := Do(s, ForkStep(e));
    MarkExclusive(s, e, pn);
    FieldsExclusive(u, t);
    FramedPut(s, t, e, pn, pte);
    forall d: nat | d < |s.procs| && d != e && d != child ensures FaultHolds(t, d) { PutFault(s, t, e, pn, pte, d); }
    assert t.procs[child].pt == s.procs[child].pt;
    FamilyStep(s, t, e, child);
  }

  /** Marking the own entry copy-on-write closes the window. */
  lemma MarkExclusive(s: State, e: nat, pn: nat)
    requires Inv(s) && Runs(s, e) && Has(s, e, pn)
    ensures Exclusive(SetPte(s, e, pn, Pte(s.procs[e].pt[pn].frame, Cow)))
    ensures forall d: nat, w: nat, x: nat, y: nat ::
      Conflict(SetPte(s, e, pn, Pte(s.procs[e].pt[pn].frame, Cow)), d, w, x, y) ==> d != e || w != pn
  {
    var pte := Pte(s.procs[e].pt[pn].frame, Cow);
    assert ProcOk(s, e);
    if pn != PFTEMP {
      forall d: nat, w: nat | Has(s, d, w) && w != PFTEMP && (d != e || w != pn)
        && s.procs[d].pt[w] == Pte(pte.frame, W)
        ensures Window(s, d, w, e, pn)
      {
        assert Conflict(s, d, w, e, pn);
      }
    }
    PutExclusive(s, e, pn, pte);
  }

  lemma UxStepInv(s: State, e: nat)
    requires Inv(s) && Enabled(s, ForkStep(e)) && s.procs[e].fork.value.pn == UXPAGE
    ensures Inv(Do(s, ForkStep(e)))
  {
    Kid(s, e);
    var child := s.procs[e].fork.value.child;
    var u := PageAlloc(s, child, UXPAGE);
    var t := Do(s, ForkStep(e));
    FreshExclusive(s, child, UXPAGE);
    FreshPrivate(s, child, UXPAGE);
    FramedSame(u, t);
    FieldsExclusive(u, t);
    forall d: nat | d < |s.procs| && d != e && d != child
      ensures FaultHolds(t, d)
    {
      PutFault(s, t, child, UXPAGE, Pte(|s.frames|, W), d);
    }
    assert t.procs[e].pt == s.procs[e].pt;
    FamilyStep(s, t, e, child);
  }

  lemma StartStepInv(s: State, e: nat)
    requires Inv(s) && Enabled(s, ForkStep(e)) && s.procs[e].fork.value.pn > UXPAGE
    ensures Inv(Do(s, ForkStep(e)))
  {
    Kid(s, e);
    var child := s.procs[e].fork.value.child;
    var t := Do(s, ForkStep(e));
    FramedSame(s, t);
    FieldsExclusive(s, t);
    forall d: nat | d < |s.procs| && d != e && d != child ensures FaultHolds(t, d) { FaultHoldsSame(s, t, d); }
    FamilyStep(s, t, e, child);
  }

  lemma ForkStepInv(s: State, e: nat)
    requires Inv(s) && Enabled(s, ForkStep(e))
    ensures Inv(Do(s, ForkStep(e)))
  {
    var Fork(child, pn, at) := s.procs[e].fork.value;
    assert ProcOk(s, e);
    if pn == UXPAGE {
      UxStepInv(s, e);
    } else if pn > UXPAGE {
      StartStepInv(s, e);
    } else {
      match at
      case Ready => ReadyStepInv(s, e);
      case Chosen(ro) => if ro { ShareStepInv(s, e); } else { CowStepInv(s, e); }
      case MappedChild(_) => MarkStepInv(s, e);
    }
  }

  // ---------------------------------------------------------------- the end of an environment

  lemma DieInv(s: State, e: nat)
    requires Inv(s) && Enabled(s, Die(e))
    ensures Inv(Do(s, Die(e)))
  {
    var t := Do(s, Die(e));
    assert ProcOk(s, e);
    forall d: nat, w: nat | Has(t, d, w) ensures d != e && Has(s, d, w) {}
    forall x: nat, y: nat, d: nat, w: nat | Conflict(t, x, y, d, w)
      ensures Window(t, x, y, d, w)
    {
      assert Conflict(s, x, y, d, w);
    }
    forall d: nat | d < |t.procs| ensures ProcOk(t, d) {
      assert ProcOk(s, d);
      if d != e {
        if s.procs[d].fault.Some? && s.procs[d].fault.value.at > 0 { DiePrivate(s, t, e, d); }
        OtherProc(s, t, d);
      }
    }
  }

  lemma DiePrivate(s: State, t: State, e: nat, d: nat)
    requires Has(s, d, PFTEMP) && Private(s, d, PFTEMP) && e < |s.procs| == |t.procs| && d != e
    requires t.procs[e].pt == map[]
    requires forall x: nat :: x < |s.procs| && x != e ==> t.procs[x].pt == s.procs[x].pt
    ensures Has(t, d, PFTEMP) && Private(t, d, PFTEMP)
  {
    forall x: nat, y: nat | Has(t, x, y) && (x != d || y != PFTEMP)
      ensures t.procs[x].pt[y].frame != t.procs[d].pt[PFTEMP].frame
    {
      assert Has(s, x, y);
    }
  }

  // ---------------------------------------------------------------- fork copies

  /** A mapping of the parent's page into the child shows the child the parent's contents. */
  lemma ForkStepMatch(s: State, a: Memory, e: nat)
    requires Inv(s) && Match(s, a) && Enabled(s, ForkStep(e))
    ensures Defined(a, Op(s, ForkStep(e))) && Match(Do(s, ForkStep(e)), Eager(a, Op(s, ForkStep(e))))
  {
    Kid(s, e);
    ForkStepInv(s, e);
    var Fork(child, pn, at) := s.procs[e].fork.value;
    assert Same(s, a, e, pn);
    if pn == UXPAGE {
      UxStepMatch(s, a, e);
    } else if pn < UXPAGE && !at.Ready? && pn != PFTEMP {
      PageStepMatch(s, a, e);
    } else {
      OtherForkMatch(s, a, e);
    }
  }

  lemma UxStepMatch(s: State, a: Memory, e: nat)
    requires Inv(s) && Match(s, a) && Enabled(s, ForkStep(e)) && s.procs[e].fork.value.pn == UXPAGE
    requires Framed(Do(s, ForkStep(e)))
    ensures Match(Do(s, ForkStep(e)), Eager(a, Fresh(s.procs[e].fork.value.child, UXPAGE)))
  {
    Kid(s, e);
    var child := s.procs[e].fork.value.child;
    var t := Do(s, ForkStep(e));
    forall d: nat, w: nat | d < |a| ensures Same(t, Eager(a, Fresh(child, UXPAGE)), d, w) {
      assert Same(s, a, d, w);
      if d != child || w != UXPAGE { assert Has(t, d, w) <==> Has(s, d, w); }
    }
  }

  /** Nobody's frames change; page pn of the child alone may now be seen differently. */
  lemma ChildPageMatch(s: State, t: State, a: Memory, b: Memory, child: nat, pn: nat)
    requires Match(s, a) && Framed(t) && |t.procs| == |s.procs| && t.frames == s.frames && child < |a| == |b|
    requires forall d: nat, w: nat :: d < |a| && (d != child || w != pn) ==>
      (Has(t, d, w) <==> Has(s, d, w)) && (Has(s, d, w) ==> t.procs[d].pt[w].frame == s.procs[d].pt[w].frame)
    requires forall d: nat :: d < |a| && d != child ==> t.procs[d].late == s.procs[d].late
    requires s.procs[child].late in {None, Some(pn)}
    requires forall d :: 0 <= d < |a| && d != child ==> b[d] == a[d]
    requires forall w: nat :: w != pn ==> (w in b[child] <==> w in a[child]) && (w in a[child] ==>
      b[child][w] == a[child][w])
    requires Same(t, b, child, pn)
    ensures Match(t, b)
  {
    forall d: nat, w: nat | d < |b| ensures Same(t, b, d, w) { assert Same(s, a, d, w); }
  }

  lemma MapPageMatch(s: State, a: Memory, e: nat)
    requires Inv(s) && Match(s, a) && Enabled(s, ForkStep(e)) && Framed(Do(s, ForkStep(e)))
    requires var f := s.procs[e].fork.value; f.pn < UXPAGE && f.pn != PFTEMP && f.at.Chosen?
    ensures Defined(a, Op(s, ForkStep(e))) && Match(Do(s, ForkStep(e)), Eager(a, Op(s, ForkStep(e))))
  {
    Kid(s, e);
    var Fork(child, pn, at) := s.procs[e].fork.value;
    assert Same(s, a, e, pn);
    ChildPageMatch(s, Do(s, ForkStep(e)), a, Eager(a, Op(s, ForkStep(e))), child, pn);
  }

  lemma MarkPageMatch(s: State, a: Memory, e: nat)
    requires Inv(s) && Match(s, a) && Enabled(s, ForkStep(e)) && Framed(Do(s, ForkStep(e)))
    requires var f := s.procs[e].fork.value; f.pn < UXPAGE && f.pn != PFTEMP && f.at.MappedChild?
    ensures Defined(a, Op(s, ForkStep(e))) && Match(Do(s, ForkStep(e)), Eager(a, Op(s, ForkStep(e))))
  {
    Kid(s, e);
    var Fork(child, pn, at) := s.procs[e].fork.value;
    assert Same(s, a, e, pn);
    assert Same(s, a, child, pn);
    ChildPageMatch(s, Do(s, ForkStep(e)), a, Eager(a, Op(s, ForkStep(e))), child, pn);
  }

  lemma PageStepMatch(s: State, a: Memory, e: nat)
    requires Inv(s) && Match(s, a) && Enabled(s, ForkStep(e)) && Inv(Do(s, ForkStep(e)))
    requires var f := s.procs[e].fork.value; f.pn < UXPAGE && f.pn != PFTEMP && !f.at.Ready?
    ensures Defined(a, Op(s, ForkStep(e))) && Match(Do(s, ForkStep(e)), Eager(a, Op(s, ForkStep(e))))
  {
    if s.procs[e].fork.value.at.Chosen? { MapPageMatch(s, a, e); } else { MarkPageMatch(s, a, e); }
  }

  lemma OtherForkMatch(s: State, a: Memory, e: nat)
    requires Inv(s) && Match(s, a) && Enabled(s, ForkStep(e)) && Inv(Do(s, ForkStep(e)))
    requires var f := s.procs[e].fork.value; f.pn != UXPAGE && (f.pn > UXPAGE || f.at.Ready? || f.pn == PFTEMP)
    ensures Op(s, ForkStep(e)) == Nothing && Match(Do(s, ForkStep(e)), a)
  {
    Kid(s, e);
    var t := Do(s, ForkStep(e));
    forall d: nat, w: nat | d < |a| ensures Same(t, a, d, w) {
      assert Same(s, a, d, w);
      if w != PFTEMP { assert Has(t, d, w) <==> Has(s, d, w); }
    }
  }

  lemma DieMatch(s: State, a: Memory, e: nat)
    requires Inv(s) && Match(s, a) && Enabled(s, Die(e)) && Inv(Do(s, Die(e)))
    ensures Match(Do(s, Die(e)), Eager(a, Drop(e)))
  {
    var t := Do(s, Die(e));
    forall d: nat, w: nat | d < |a| ensures Same(t, Eager(a, Drop(e)), d, w) {
      assert Same(s, a, d, w);
      if d != e { assert Has(t, d, w) <==> Has(s, d, w); }
    }
  }

  lemma TakeFaultMatch(s: State, a: Memory, e: nat, v: nat)
    requires Inv(s) && Match(s, a) && Enabled(s, TakeFault(e, v))
    ensures Match(Do(s, TakeFault(e, v)), a)
  {
    var t := Do(s, TakeFault(e, v));
    FramedSame(s, t);
    forall d: nat, w: nat | d < |a| ensures Same(t, a, d, w) {
      assert Same(s, a, d, w);
      assert Has(t, d, w) <==> Has(s, d, w);
    }
  }

  lemma FaultStepOk(s: State, a: Memory, e: nat)
    requires Inv(s) && Match(s, a) && Enabled(s, FaultStep(e))
    ensures Inv(Do(s, FaultStep(e))) && Match(Do(s, FaultStep(e)), a)
  {
    assert ProcOk(s, e);
    if s.procs[e].fault.value.at < 2 {
      AllocStepInv(s, e);
      AllocStepMatch(s, a, e);
    } else if s.procs[e].fault.value.at == 2 {
      CopyStepInv(s, e);
      CopyStepMatch(s, a, e);
    } else {
      MapStepInv(s, e);
      MapStepMatch(s, a, e);
    }
  }

  /** Every step keeps the invariant and is matched by the eager machine. */
  lemma StepRefines(s: State, a: Memory, st: Step)
    requires Inv(s) && Match(s, a) && Enabled(s, st)
    ensures Inv(Do(s, st)) && Defined(a, Op(s, st)) && Match(Do(s, st), Eager(a, Op(s, st)))
  {
    match st
    case Write(e, v, off, x) =>
      StoreInv(s, e, v, View(s, e, v)[off := x]);
      StoreMatch(s, a, e, v, off, x);
    case TakeFault(e, v) =>
      TakeFaultInv(s, e, v);
      TakeFaultMatch(s, a, e, v);
    case FaultStep(e) => FaultStepOk(s, a, e);
    case SetHandler(e) =>
      SetHandlerInv(s, e);
      SetHandlerMatch(s, a, e);
    case BeginFork(e) =>
      BeginForkInv(s, e);
      BeginForkMatch(s, a, e);
    case ForkStep(e) =>
      ForkStepInv(s, e);
      ForkStepMatch(s, a, e);
    case Die(e) =>
      DieInv(s, e);
      DieMatch(s, a, e);
  }

  // ---------------------------------------------------------------- every run

  /** One environment to begin with, no two of its pages on one frame. */
  function Start(pt: map<int, Pte>, frames: seq<Page>, handler: bool): State {
    State([Proc(true, handler, pt, None, None, None)], frames)
  }

  lemma StartOk(pt: map<int, Pte>, frames: seq<Page>, handler: bool)
    requires forall v :: v in pt ==> pt[v].frame < |frames| && (pt[v].kind == Cow ==> handler)
    requires forall v, w :: v in pt && w in pt && v != w ==> pt[v].frame != pt[w].frame
    ensures Inv(Start(pt, frames, handler))
    ensures Match(Start(pt, frames, handler), [map v | v in pt :: frames[pt[v].frame]])
  {
    var s := Start(pt, frames, handler);
    forall e: nat, v: nat | Has(s, e, v) ensures e == 0 && v in pt {}
    assert ProcOk(s, 0);
  }

  ghost predicate RunsTo(s: State, steps: seq<Step>, s': State)
    decreases |steps|
  {
    if steps == [] then s' == s
    else Framed(s) && Enabled(s, steps[0]) && RunsTo(Do(s, steps[0]), steps[1..], s')
  }

  /** What the eager machine does meanwhile. */
  ghost function Ops(s: State, steps: seq<Step>, s': State): seq<EagerOp>
    requires RunsTo(s, steps, s')
    decreases |steps|
  {
    if steps == [] then [] else [Op(s, steps[0])] + Ops(Do(s, steps[0]), steps[1..], s')
  }

  ghost predicate EagerRun(a: Memory, ops: seq<EagerOp>, a': Memory)
    decreases |ops|
  {
    if ops == [] then a' == a else Defined(a, ops[0]) && EagerRun(Eager(a, ops[0]), ops[1..], a')
  }

  lemma {:induction false} RunRefines(s: State, a: Memory, steps: seq<Step>, s': State) returns (a': Memory)
    requires Inv(s) && Match(s, a) && RunsTo(s, steps, s')
    ensures EagerRun(a, Ops(s, steps, s'), a') && Inv(s') && Match(s', a')
    decreases |steps|
  {
    if steps == [] {
      a' := a;
    } else {
      StepRefines(s, a, steps[0]);
      a' := RunRefines(Do(s, steps[0]), Eager(a, Op(s, steps[0])), steps[1..], s');
      assert Ops(s, steps, s')[1..] == Ops(Do(s, steps[0]), steps[1..], s');
    }
  }

  /** Whatever the interleaving, the eager machine has a run in which every running environment
      sees on every page, PFTEMP apart, exactly what it sees here. */
  lemma ForkRefinesEagerCopy(s: State, a: Memory, steps: seq<Step>, s': State) returns (a': Memory)
    requires Inv(s) && Match(s, a) && RunsTo(s, steps, s')
    ensures EagerRun(a, Ops(s, steps, s'), a') && Framed(s') && |a'| == |s'.procs|
    ensures forall e: nat, v: nat :: Runs(s', e) && v != PFTEMP ==>
      (Has(s', e, v) <==> v in a'[e]) && (Has(s', e, v) ==> View(s', e, v) == a'[e][v])
  {
    a' := RunRefines(s, a, steps, s');
    forall e: nat, v: nat | Runs(s', e) && v != PFTEMP
      ensures (Has(s', e, v) <==> v in a'[e]) && (Has(s', e, v) ==> View(s', e, v) == a'[e][v])
    {
      assert ProcOk(s', e);
      assert Same(s', a', e, v);
    }
  }

  // ---------------------------------------------------------------- the alias pgfault leaves behind

  /** Some page of a running environment, or of a child being built, lies on PFTEMP's frame. */
  ghost predicate Aliased(s: State, e: nat)
    requires Has(s, e, PFTEMP)
  {
    exists d: nat, w: nat :: Has(s, d, w) && w != PFTEMP && s.procs[d].late != Some(w)
      && s.procs[d].pt[w].frame == s.procs[e].pt[PFTEMP].frame
  }

  /** A store through PFTEMP agrees with eager copying exactly when it changes nothing or no page
      shares PFTEMP's frame. */
  lemma PftempStoreExact(s: State, a: Memory, e: nat, page: Page)
    requires Inv(s) && Match(s, a) && Has(s, e, PFTEMP)
    ensures Match(Store(s, e, PFTEMP, page), a) <==> page == View(s, e, PFTEMP) || !Aliased(s, e)
  {
    var t := Store(s, e, PFTEMP, page);
    FramedSame(s, t);
    if page == View(s, e, PFTEMP) || !Aliased(s, e) {
      forall d: nat, w: nat | d < |a| ensures Same(t, a, d, w) {
        assert Same(s, a, d, w);
        assert Has(t, d, w) <==> Has(s, d, w);
      }
    } else {
      var d: nat, w: nat :| Has(s, d, w) && w != PFTEMP && s.procs[d].late != Some(w)
        && s.procs[d].pt[w].frame == s.procs[e].pt[PFTEMP].frame;
      assert Same(s, a, d, w);
      assert !Same(t, a, d, w);
    }
  }

  /** pgfault always leaves one. */
  lemma FaultLeavesAlias(s: State, e: nat)
    requires Inv(s) && Enabled(s, FaultStep(e)) && s.procs[e].fault.value.at == 3
    ensures Has(Do(s, FaultStep(e)), e, PFTEMP) && Aliased(Do(s, FaultStep(e)), e)
  {
    assert ProcOk(s, e);
    assert Has(Do(s, FaultStep(e)), e, s.procs[e].fault.value.v);
  }

  // ---------------------------------------------------------------- pgfault's test

  const PTE_COW := 0x800

  predicate HasCow(pte: nat) { pte / PTE_COW % 2 == 1 }

  /** FEC_WR: the faulting access was a write. */
  predicate WasWrite(err: nat) { err / 2 % 2 == 1 }

  /** The entry of a page, its frame number apart: U and P with W or COW, or 0 if it is not mapped. */
  function Bits(s: State, e: nat, v: nat): nat {
    if !Has(s, e, v) then 0
    else match s.procs[e].pt[v].kind case Ro => 0x005 case W => 0x007 case Cow => PTE_COW + 0x005
  }

  /** The test pgfault makes: the page has a table, and its entry one of three bits. Without a table
      the entry cannot be read: that read faults, and the run of the handler for it panics. */
  predicate TestPasses(table: bool, pte: nat) { table && (HasU(pte) || HasP(pte) || HasCow(pte)) }

  /** The test its comment asks for: a write, and to a copy-on-write page. */
  predicate TestMeant(pte: nat, err: nat) { WasWrite(err) && HasCow(pte) }

  /** pgfault goes on where it should panic exactly for a page that is mapped, unless it is
      copy-on-write and written to. It never panics where it should go on. */
  lemma TestExact(s: State, e: nat, v: nat, table: bool, err: nat)
    requires Has(s, e, v) ==> table
    ensures TestPasses(table, Bits(s, e, v)) && !TestMeant(Bits(s, e, v), err)
      <==> Has(s, e, v) && !(WasWrite(err) && s.procs[e].pt[v].kind == Cow)
    ensures TestMeant(Bits(s, e, v), err) ==> TestPasses(table, Bits(s, e, v))
  {
    if Has(s, e, v) {
      assert HasCow(Bits(s, e, v)) <==> s.procs[e].pt[v].kind == Cow;
    }
  }

  /** After pgfault: two new frames, the second with the page's contents, mapped writable at the
      page and at PFTEMP. A fault at PFTEMP itself finds the first frame's zeroes there by then. */
  function Handled(s: State, e: nat, v: nat): State
    requires Framed(s) && Has(s, e, v)
  {
    var pte := Pte(|s.frames| + 1, W);
    SetProc(s, e, s.procs[e].(pt := s.procs[e].pt[PFTEMP := pte][v := pte])).(
    frames := s.frames + [ZeroPage(), if v == PFTEMP then ZeroPage() else View(s, e, v)])
  }

  /** The page is alone on its frame, PFTEMP apart. It keeps its contents unless it is PFTEMP, and
      every other page but PFTEMP keeps its own. It becomes writable without having been writable or
      copy-on-write exactly if it was read-only. */
  lemma HandledExact(s: State, e: nat, v: nat)
    requires Framed(s) && Has(s, e, v)
    ensures var t := Handled(s, e, v);
      && Framed(t) && Has(t, e, v)
      && (forall d: nat, w: nat :: Has(t, d, w) && (d != e || (w != v && w != PFTEMP)) ==>
            t.procs[d].pt[w].frame != t.procs[e].pt[v].frame)
      && (View(t, e, v) == View(s, e, v) <==> v != PFTEMP || View(s, e, v) == ZeroPage())
      && (forall d: nat, w: nat :: Has(s, d, w) && (d != e || w != PFTEMP) ==>
            Has(t, d, w) && View(t, d, w) == View(s, d, w))
      && (s.procs[e].pt[v].kind == Ro <==>
            HasW(Bits(t, e, v)) && !HasW(Bits(s, e, v)) && !HasCow(Bits(s, e, v)))
  {
    var t := Handled(s, e, v);
    forall d: nat, w: nat | Has(t, d, w) ensures t.procs[d].pt[w].frame < |t.frames| {
      assert w == v || w == PFTEMP || Has(s, d, w);
    }
    forall d: nat, w: nat | Has(t, d, w) && (d != e || (w != v && w != PFTEMP))
      ensures t.procs[d].pt[w].frame != t.procs[e].pt[v].frame
    {
      assert Has(s, d, w);
    }
  }

  /** A store to a read-only page: the comment asks for a panic, and the page becomes writable. */
  lemma ReadOnlyGivenAway(s: State)
    requires s == State([Proc(true, true, map[5 := Pte(0, Ro)], None, None, None)], [ZeroPage()])
    ensures TestPasses(true, Bits(s, 0, 5)) && !TestMeant(Bits(s, 0, 5), 2)
    ensures Framed(s) && Handled(s, 0, 5).procs[0].pt[5].kind == W
  {
    assert Bits(s, 0, 5) == 5;
  }

  /** The fault's call number k of four, on the state without the handler's own record. */
  function Call(s: State, e: nat, v: nat, k: nat): State
    requires Framed(s) && Has(s, e, v) && (k >= 2 ==> Has(s, e, PFTEMP))
  {
    if k < 2 then PageAlloc(s, e, PFTEMP)
    else if k == 2 then Store(s, e, PFTEMP, View(s, e, v))
    else PageMap(s, e, PFTEMP, e, v, W)
  }

  lemma CallOk(s: State, e: nat, v: nat, k: nat)
    requires Framed(s) && Has(s, e, v) && (k >= 2 ==> Has(s, e, PFTEMP))
    ensures var t := Call(s, e, v, k); Framed(t) && Has(t, e, v) && Has(t, e, PFTEMP)
  {
    if k < 2 { FreshPrivate(s, e, PFTEMP); }
    else if k == 2 { FramedSame(s, Call(s, e, v, k)); }
    else { FramedPut(s, Call(s, e, v, k), e, v, Pte(s.procs[e].pt[PFTEMP].frame, W)); }
  }

  lemma CallsHandle(s: State, e: nat, v: nat)
    requires Framed(s) && Has(s, e, v)
    ensures Framed(Call(s, e, v, 0)) && Framed(Call(Call(s, e, v, 0), e, v, 1))
    ensures var s2 := Call(Call(s, e, v, 0), e, v, 1);
      Framed(Call(s2, e, v, 2)) && Call(Call(s2, e, v, 2), e, v, 3) == Handled(s, e, v)
  {
    CallOk(s, e, v, 0);
    var s1 := Call(s, e, v, 0);
    CallOk(s1, e, v, 1);
    var s2 := Call(s1, e, v, 1);
    assert s2.frames == s.frames + [ZeroPage(), ZeroPage()];
    CallOk(s2, e, v, 2);
    var s3 := Call(s2, e, v, 2);
    assert s3.frames == Handled(s, e, v).frames;
    var s4 := Call(s3, e, v, 3);
    assert s4.procs[e].pt == Handled(s, e, v).procs[e].pt;
    assert s4.procs == Handled(s, e, v).procs;
  }

  lemma FaultStepCalls(s: State, u: State, e: nat, v: nat, k: nat)
    requires Framed(s) && Runs(s, e) && Has(s, e, v) && k <= 3 && (k >= 2 ==> Has(s, e, PFTEMP))
    requires u == Faulted(s, e, Some(Fault(v, k)))
    ensures Framed(u) && Enabled(u, FaultStep(e))
    ensures Do(u, FaultStep(e)) == Faulted(Call(s, e, v, k), e, if k == 3 then None else Some(Fault(v, k + 1)))
  {
    FramedSame(s, u);
    var t := Faulted(Call(s, e, v, k), e, if k == 3 then None else Some(Fault(v, k + 1)));
    assert Do(u, FaultStep(e)).procs == t.procs;
  }

  lemma RunCons(s: State, st: Step, steps: seq<Step>, t: State)
    requires Framed(s) && Enabled(s, st) && RunsTo(Do(s, st), steps, t)
    ensures RunsTo(s, [st] + steps, t)
  {
    assert ([st] + steps)[1..] == steps;
  }

  lemma FaultRun(s: State, s1: State, s2: State, s3: State, e: nat, v: nat)
    requires Framed(s) && Runs(s, e) && Has(s, e, v) && s == Faulted(s, e, Some(Fault(v, 0)))
    requires s1 == Call(s, e, v, 0) && Framed(s1) && Has(s1, e, v) && Runs(s1, e)
    requires s2 == Call(s1, e, v, 1) && Framed(s2) && Has(s2, e, v) && Has(s2, e, PFTEMP) && Runs(s2, e)
    requires s3 == Call(s2, e, v, 2) && Framed(s3) && Has(s3, e, v) && Has(s3, e, PFTEMP) && Runs(s3, e)
    ensures var st := FaultStep(e); RunsTo(s, [st, st, st, st], Faulted(Call(s3, e, v, 3), e, None))
  {
    var st := FaultStep(e);
    FaultStepCalls(s, s, e, v, 0);
    FaultStepCalls(s1, Do(s, st), e, v, 1);
    FaultStepCalls(s2, Do(Do(s, st), st), e, v, 2);
    FaultStepCalls(s3, Do(Do(Do(s, st), st), st), e, v, 3);
    var t := Faulted(Call(s3, e, v, 3), e, None);
    RunCons(Do(Do(Do(s, st), st), st), st, [], t);
    RunCons(Do(Do(s, st), st), st, [st] + [], t);
    RunCons(Do(s, st), st, [st] + ([st] + []), t);
    RunCons(s, st, [st] + ([st] + ([st] + [])), t);
    assert [st] + ([st] + ([st] + ([st] + []))) == [st, st, st, st];
  }

  /** The four steps of the fault, taken in a row, handle it. */
  lemma FaultStepsHandle(s: State, e: nat, v: nat)
    requires Framed(s) && Runs(s, e) && Has(s, e, v) && s.procs[e].fault == Some(Fault(v, 0))
    ensures var st := FaultStep(e); RunsTo(s, [st, st, st, st], Faulted(Handled(s, e, v), e, None))
  {
    var st := FaultStep(e);
    CallsHandle(s, e, v);
    CallOk(s, e, v, 0);
    var s1 := Call(s, e, v, 0);
    CallOk(s1, e, v, 1);
    var s2 := Call(s1, e, v, 1);
    CallOk(s2, e, v, 2);
    FaultRun(s, s1, s2, Call(s2, e, v, 2), e, v);
  }

  // ---------------------------------------------------------------- the library calls, uninterrupted

  /** The page tables and frames, with the system calls that change them in place. */
  class Memories {
    var s: State

    constructor (s: State)
      ensures this.s == s
    {
      this.s := s;
    }

    method SysPageAlloc(e: nat, v: nat)
      requires e < |s.procs|
      modifies this
      ensures s == PageAlloc(old(s), e, v)
    {
      var frame := |s.frames|;
      s := s.(frames := s.frames + [ZeroPage()]);
      s := SetPte(s, e, v, Pte(frame, W));
    }

    method SysPageMap(e: nat, v: nat, d: nat, dv: nat, kind: Kind)
      requires Has(s, e, v) && d < |s.procs|
      modifies this
      ensures s == PageMap(old(s), e, v, d, dv, kind)
    {
      var frame := s.procs[e].pt[v].frame;
      s := SetPte(s, d, dv, Pte(frame, kind));
    }

    method SysPageUnmap(e: nat, v: nat)
      requires e < |s.procs|
      modifies this
      ensures s == SetProc(old(s), e, old(s).procs[e].(pt := old(s).procs[e].pt - {v}))
    {
      s := SetProc(s, e, s.procs[e].(pt := s.procs[e].pt - {v}));
    }

    method Memmove(e: nat, dst: nat, src: nat)
      requires Framed(s) && Has(s, e, dst) && Has(s, e, src)
      modifies this
      ensures s == Store(old(s), e, dst, View(old(s), e, src))
    {
      s := Store(s, e, dst, View(s, e, src));
    }

    /** pgfault for a fault on page v: true if it panics. err is read and not looked at. */
    method Pgfault(e: nat, v: nat, table: bool, err: nat) returns (panicked: bool)
      requires Framed(s) && e < |s.procs| && (Has(s, e, v) ==> table)
      modifies this
      ensures panicked <==> !Has(old(s), e, v)
      ensures s == if panicked then old(s) else Handled(old(s), e, v)
    {
      var pte := Bits(s, e, v);
      if !table {
        return true;
      }
      if !HasU(pte) && !HasP(pte) && !HasCow(pte) {
        return true;
      }
      CallsHandle(s, e, v);
      SysPageAlloc(e, PFTEMP);
      SysPageAlloc(e, PFTEMP);
      Memmove(e, PFTEMP, v);
      SysPageMap(e, PFTEMP, e, v, W);
      panicked := false;
    }

    method Duppage(e: nat, child: nat, pn: nat)
      requires e < |s.procs| && child < |s.procs| && e != child
      modifies this
      ensures s == Duplicated(old(s), e, child, pn)
    {
      if pn !in s.procs[e].pt {
        return;
      }
      if s.procs[e].pt[pn].kind != Ro {
        SysPageMap(e, pn, child, pn, Cow);
        SysPageMap(e, pn, e, pn, Cow);
      } else {
        SysPageMap(e, pn, child, pn, Ro);
      }
    }

    /** duppage of user/dumbfork.c: a page of its own for the child, filled through UTEMP. */
    method DumbDuppage(e: nat, child: nat, v: nat)
      requires Framed(s) && e != child && child < |s.procs| && Has(s, e, v) && v != UTEMP
      modifies this
      ensures Framed(s) && |s.procs| == |old(s).procs|
      ensures forall d: nat :: d < |s.procs| && d != e && d != child ==> s.procs[d] == old(s).procs[d]
      ensures s.procs[e].pt == old(s).procs[e].pt - {UTEMP}
      ensures s.procs[child].pt == old(s).procs[child].pt[v := Pte(|old(s).frames|, W)]
      ensures s.frames == old(s).frames + [View(old(s), e, v)]
    {
      FreshPrivate(s, child, v);
      SysPageAlloc(child, v);
      FramedPut(s, PageMap(s, child, v, e, UTEMP, W), e, UTEMP, Pte(s.procs[child].pt[v].frame, W));
      SysPageMap(child, v, e, UTEMP, W);
      FramedSame(s, Store(s, e, UTEMP, View(s, e, v)));
      Memmove(e, UTEMP, v);
      ghost var filled := s;
      SysPageUnmap(e, UTEMP);
      forall d: nat, w: nat | Has(s, d, w) ensures s.procs[d].pt[w].frame < |s.frames| { assert Has(filled, d, w); }
    }

    /** dumbfork's loop: afterwards the child has the same contents on all the pages, each in a
        frame of its own, and the parent has what it had but for UTEMP. */
    method DumbCopy(e: nat, child: nat, text: nat, end: nat)
      requires Framed(s) && e != child && e < |s.procs| && child < |s.procs| && UTEMP < text <= end
      requires forall v: nat :: text <= v < end ==> Has(s, e, v)
      modifies this
      ensures Framed(s) && |s.procs| == |old(s).procs|
      ensures text < end ==> s.procs[e].pt == old(s).procs[e].pt - {UTEMP}
      ensures forall v: nat :: text <= v < end ==> Has(s, child, v) && View(s, child, v) == View(old(s), e, v)
      ensures forall v: nat :: text <= v < end ==>
        Has(s, child, v) && s.procs[child].pt[v] == Pte(|old(s).frames| + (v - text), W)
      ensures |s.frames| == |old(s).frames| + (end - text) && s.frames[..|old(s).frames|] == old(s).frames
    {
      var addr := text;
      while addr < end
        invariant text <= addr <= end && Framed(s) && |s.procs| == |old(s).procs|
        invariant s.procs[e].pt == if addr == text then old(s).procs[e].pt else old(s).procs[e].pt - {UTEMP}
        invariant |s.frames| == |old(s).frames| + (addr - text) && s.frames[..|old(s).frames|] == old(s).frames
        invariant forall v: nat :: text <= v < addr ==>
          Has(s, child, v) && s.procs[child].pt[v] == Pte(|old(s).frames| + (v - text), W)
        invariant forall v: nat :: text <= v < addr ==> View(s, child, v) == View(old(s), e, v)
      {
        assert Has(old(s), e, addr);
        DumbDuppage(e, child, addr);
        addr := addr + 1;
      }
    }

    /** fork's loop and the allocation after it, if nothing interrupts them: the child gets every
        page of the parent, with the same contents, and an exception stack of its own; what was
        writable is copy-on-write in both; the parent's contents stay. */
    method CopyPages(e: nat, child: nat)
      requires Framed(s) && e < |s.procs| && child < |s.procs| && e != child && s.procs[child].pt == map[]
      modifies this
      ensures Framed(s) && |s.procs| == |old(s).procs| && s.frames == old(s).frames + [ZeroPage()]
      ensures forall d: nat :: d < |s.procs| && d != e && d != child ==> s.procs[d] == old(s).procs[d]
      ensures SameRest(old(s).procs[e], s.procs[e]) && SameRest(old(s).procs[child], s.procs[child])
      ensures Has(s, child, UXPAGE) && View(s, child, UXPAGE) == ZeroPage()
      ensures forall v: nat :: v < UXPAGE ==> (Has(s, child, v) <==> Has(old(s), e, v))
      ensures forall v: nat :: v < UXPAGE && Has(old(s), e, v) ==> View(s, child, v) == View(old(s), e, v)
      ensures forall v: nat :: Has(s, e, v) <==> Has(old(s), e, v)
      ensures forall v: nat :: Has(old(s), e, v) ==> View(s, e, v) == View(old(s), e, v)
      ensures forall v: nat :: v < UXPAGE && Has(old(s), e, v) ==>
        && s.procs[child].pt[v] == s.procs[e].pt[v]
        && s.procs[e].pt[v].kind == (if old(s).procs[e].pt[v].kind == Ro then Ro else Cow)
    {
      ghost var before := s;
      var i := 0;
      while i < UXPAGE
        invariant i <= UXPAGE && CopiedTo(before, s, e, child, i)
        invariant SameRest(before.procs[e], s.procs[e]) && SameRest(before.procs[child], s.procs[child])
      {
        CopiedNext(before, s, e, child, i);
        Duppage(e, child, i);
        i := i + 1;
      }
      FreshPrivate(s, child, UXPAGE);
      CopiedViews(before, s, e, child);
      SysPageAlloc(child, UXPAGE);
    }

    /** set_pgfault_handler: an exception stack and the upcall, the first time. */
    method SetPgfaultHandler(e: nat)
      requires Framed(s) && e < |s.procs|
      modifies this
      ensures Framed(s) && |s.procs| == |old(s).procs|
      ensures forall d: nat :: d < |s.procs| && d != e ==> s.procs[d] == old(s).procs[d]
      ensures s.procs[e] == old(s).procs[e].(pt := s.procs[e].pt, handler := true)
      ensures forall v: nat :: v != UXPAGE ==> (Has(s, e, v) <==> Has(old(s), e, v))
      ensures forall v: nat :: v != UXPAGE && Has(old(s), e, v) ==>
        s.procs[e].pt[v] == old(s).procs[e].pt[v] && View(s, e, v) == View(old(s), e, v)
      ensures if old(s).procs[e].handler then s == old(s) else Has(s, e, UXPAGE) && View(s, e, UXPAGE) == ZeroPage()
    {
      if !s.procs[e].handler {
        FreshPrivate(s, e, UXPAGE);
        SysPageAlloc(e, UXPAGE);
        ghost var before := s;
        s := SetProc(s, e, s.procs[e].(handler := true));
        FramedSame(before, s);
      }
    }

    method SysExofork() returns (child: nat)
      requires Framed(s)
      modifies this
      ensures child == |old(s).procs| && s == WithChild(old(s)) && Framed(s)
    {
      child := |s.procs|;
      ghost var before := s;
      s := WithChild(s);
      forall d: nat, w: nat | Has(s, d, w) ensures s.procs[d].pt[w].frame < |s.frames| { assert Has(before, d, w); }
    }

    /** sys_env_set_pgfault_upcall and sys_env_set_status on the child. */
    method StartChild(child: nat)
      requires Framed(s) && child < |s.procs|
      modifies this
      ensures s == SetProc(old(s), child, old(s).procs[child].(started := true, handler := true)) && Framed(s)
    {
      s := SetProc(s, child, s.procs[child].(handler := true));
      s := SetProc(s, child, s.procs[child].(started := true));
      FramedSame(old(s), s);
    }

    /** fork, if nothing interrupts it: the child runs, with a handler, and sees on every page below
        the exception stack what the parent saw; the parent still sees it, has a handler, and, if it
        had none before, an empty exception stack. */
    method Fork(e: nat) returns (child: nat)
      requires Framed(s) && e < |s.procs|
      modifies this
      ensures Framed(s) && child == |old(s).procs| && |s.procs| == child + 1
      ensures forall d: nat :: d < child && d != e ==> s.procs[d] == old(s).procs[d]
      ensures s.procs[e] == old(s).procs[e].(pt := s.procs[e].pt, handler := true)
      ensures s.procs[child] == Proc(true, true, s.procs[child].pt, None, None, None)
      ensures Has(s, child, UXPAGE) && View(s, child, UXPAGE) == ZeroPage()
      ensures forall v: nat :: v < UXPAGE ==> (Has(s, e, v) <==> Has(old(s), e, v))
      ensures forall v: nat :: v < UXPAGE ==> (Has(s, child, v) <==> Has(old(s), e, v))
      ensures forall v: nat :: v < UXPAGE && Has(old(s), e, v) ==>
        && View(s, child, v) == View(old(s), e, v) == View(s, e, v)
        && s.procs[child].pt[v] == s.procs[e].pt[v]
        && s.procs[e].pt[v].kind == (if old(s).procs[e].pt[v].kind == Ro then Ro else Cow)
      ensures !old(s).procs[e].handler ==> Has(s, e, UXPAGE) && View(s, e, UXPAGE) == ZeroPage()
    {
      SetPgfaultHandler(e);
      ghost var ready := s;
      child := SysExofork();
      assert forall v: nat :: Has(s, e, v) <==> Has(ready, e, v);
      CopyPages(e, child);
      StartChild(child);
    }
  }

  /** duppage without interruption. */
  function Duplicated(s: State, e: nat, child: nat, pn: nat): State
    requires e < |s.procs| && child < |s.procs| && e != child
  {
    if pn !in s.procs[e].pt then s
    else if s.procs[e].pt[pn].kind == Ro then PageMap(s, e, pn, child, pn, Ro)
    else PageMap(PageMap(s, e, pn, child, pn, Cow), e, pn, e, pn, Cow)
  }

  predicate SameRest(p: Proc, q: Proc) { q == p.(pt := q.pt) }

  function Shared(pte: Pte): Pte { pte.(kind := if pte.kind == Ro then Ro else Cow) }

  /** The pages below i are duplicated. */
  ghost predicate CopiedTo(s: State, t: State, e: nat, child: nat, i: nat) {
    && Framed(s) && Framed(t) && e != child && e < |s.procs| == |t.procs| && child < |s.procs| && t.frames == s.frames
    && (forall d: nat :: d < |s.procs| && d != e && d != child ==> t.procs[d] == s.procs[d])
    && (forall v: nat :: Has(t, e, v) <==> Has(s, e, v))
    && (forall v: nat :: Has(s, e, v) ==>
          t.procs[e].pt[v] == if v < i then Shared(s.procs[e].pt[v]) else s.procs[e].pt[v])
    && (forall v: nat :: Has(t, child, v) <==> v < i && Has(s, e, v))
    && (forall v: nat :: v < i && Has(s, e, v) ==> t.procs[child].pt[v] == Shared(s.procs[e].pt[v]))
  }

  lemma CopiedNext(s: State, t: State, e: nat, child: nat, i: nat)
    requires CopiedTo(s, t, e, child, i)
    ensures CopiedTo(s, Duplicated(t, e, child, i), e, child, i + 1)
  {
    var u := Duplicated(t, e, child, i);
    if Has(t, e, i) {
      forall d: nat, w: nat | Has(u, d, w) ensures u.procs[d].pt[w].frame < |u.frames| {
        if w != i { assert Has(t, d, w); }
      }
    }
    forall v: nat ensures Has(u, e, v) <==> Has(t, e, v) {}
    forall v: nat ensures v != i ==> (Has(u, child, v) <==> Has(t, child, v)) {}
  }

  lemma CopiedViews(s: State, t: State, e: nat, child: nat)
    requires CopiedTo(s, t, e, child, UXPAGE)
    ensures forall v: nat :: Has(s, e, v) ==> Has(t, e, v) && View(t, e, v) == View(s, e, v)
    ensures forall v: nat :: v < UXPAGE && Has(s, e, v) ==> Has(t, child, v) && View(t, child, v) == View(s, e, v)
  {}
}