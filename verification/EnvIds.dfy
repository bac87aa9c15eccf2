/**
Environment ids and the list of free slots of kern/env.c: env_init, the id generation of
env_alloc, the end of env_free, and envid2env.
*/
module EnvIds {
  import opened Layout
  import opened Options
  import opened Numerals
  import opened Pmap
  import opened Scheduler

  const NENV: nat := 1024
  const GENERATION: nat := 4096
  /** Generations before they repeat. */
  const PERIOD: nat := 524287

  // ---------------------------------------------------------------- ids

  /** x & ~(NENV - 1) */
  function ClearIndex(x: int): int { x - x % NENV }

  /** ENVX */
  function EnvX(id: int): (e: nat)
    ensures e < NENV
  {
    id % NENV
  }

  /** The id env_alloc gives a slot whose last id was `id`. */
  function NextId(id: int, slot: nat): int {
    var generation := ClearIndex(Wrap32(id + GENERATION));
    (if generation <= 0 then GENERATION as int else generation) + slot
  }

  /** The id of a slot after n allocations. */
  function IdAfter(n: nat, slot: nat): int {
    if n == 0 then 0 else ((n - 1) % PERIOD + 1) * GENERATION + slot
  }

  lemma NextIdRange(k: nat, slot: nat)
    requires 1 <= k <= PERIOD && slot < NENV
    ensures NextId(k * GENERATION + slot, slot) == (if k == PERIOD then 1 else k + 1) * GENERATION + slot
  {
    if k < PERIOD { Aligned(k + 1, slot); } else { Aligned(-0x8_0000, slot); }
  }

  lemma Aligned(k: int, slot: nat)
    requires slot < NENV
    ensures ClearIndex(k * GENERATION + slot) == k * GENERATION && EnvX(k * GENERATION + slot) == slot
  {}

  lemma NextPeriod(n: nat)
    requires n > 0
    ensures n % PERIOD + 1 == (if (n - 1) % PERIOD + 1 == PERIOD then 1 else (n - 1) % PERIOD + 2)
  {}

  /** The arithmetic of env_alloc, 32-bit wrap-around included, steps through the generations
      1 .. 2^19 - 1 in turn and then starts over. */
  lemma NextIdAfter(n: nat, slot: nat)
    requires slot < NENV
    ensures NextId(IdAfter(n, slot), slot) == IdAfter(n + 1, slot)
  {
    if n > 0 {
      NextIdRange((n - 1) % PERIOD + 1, slot);
      NextPeriod(n);
    }
  }

  /** Every id is positive, fits 32 bits, and carries its slot in the low bits. */
  lemma IdShape(n: nat, slot: nat)
    requires n > 0 && slot < NENV
    ensures 0 < IdAfter(n, slot) < 0x8000_0000 && EnvX(IdAfter(n, slot)) == slot
  {
    Aligned((n - 1) % PERIOD + 1, slot);
  }

  /** Ids of different slots differ; those of one slot agree exactly at multiples of the period. */
  lemma IdsAgree(n: nat, slot: nat, n': nat, slot': nat)
    requires n > 0 && n' > 0 && slot < NENV && slot' < NENV
    ensures IdAfter(n, slot) == IdAfter(n', slot') <==> slot == slot' && (n - n') % PERIOD == 0
  {
    IdShape(n, slot);
    IdShape(n', slot');
    if slot == slot' { SameResidue(n - 1, n' - 1); }
  }

  lemma SameResidue(a: nat, b: nat)
    ensures a % PERIOD == b % PERIOD <==> (a - b) % PERIOD == 0
  {
    assert a - b == PERIOD * (a / PERIOD - b / PERIOD) + (a % PERIOD - b % PERIOD);
  }

  // ---------------------------------------------------------------- the table

  /** The id, parent, status and link fields of envs[], and env_free_list. */
  datatype Table = Table(status: seq<Status>, id: seq<int>, parent: seq<int>, link: seq<int>, head: int)

  predicate Shaped(t: Table) { |t.status| == |t.id| == |t.parent| == |t.link| == NENV }

  /** `free` lists the free slots in the order of env_free_list, each once. */
  ghost predicate Listed(t: Table, free: seq<nat>) {
    && Shaped(t) && Chain(t.head, t.link, free)
    && forall e :: 0 <= e < NENV ==> (e in free <==> t.status[e] == Free)
  }

  /** Each slot has the id that goes with the number of its allocations; a slot in use has been
      allocated. */
  ghost predicate Issued(t: Table, count: seq<nat>) {
    && Shaped(t) && |count| == NENV
    && (forall e :: 0 <= e < NENV ==> t.id[e] == IdAfter(count[e], e))
    && (forall e :: 0 <= e < NENV && t.status[e] != Free ==> count[e] > 0)
  }

  datatype Alloc = Slot(e: nat) | Failed(error: int)

  /** env_alloc; `vm` says whether env_setup_vm succeeds. */
  function EnvAlloc(t: Table, parent: int, vm: bool): (Table, Alloc)
    requires Shaped(t) && (t.head != NULL ==> 0 <= t.head < NENV)
  {
    if t.head == NULL then (t, Failed(-E_NO_FREE_ENV))
    else if !vm then (t, Failed(-E_NO_MEM))
    else
      var e := t.head;
      (Table(t.status[e := Runnable], t.id[e := NextId(t.id[e], e)], t.parent[e := parent], t.link, t.link[e]), Slot(e))
  }

  /** The last three lines of env_free. */
  function FreeSlot(t: Table, e: nat): Table
    requires Shaped(t) && e < NENV
  {
    t.(status := t.status[e := Free], link := t.link[e := t.head], head := e)
  }

  datatype Lookup = Found(e: Option<nat>) | BadEnv

  function EnvId2Env(t: Table, envid: int, cur: Option<nat>, checkperm: bool): Lookup
    requires Shaped(t) && (cur.Some? ==> cur.value < NENV) && (checkperm ==> cur.Some?)
  {
    var e := EnvX(envid);
    if envid == 0 then Found(cur)
    else if t.status[e] == Free || t.id[e] != envid then BadEnv
    else if checkperm && cur != Some(e) && t.parent[e] != t.id[cur.value] then BadEnv
    else Found(Some(e))
  }

  lemma EnvAllocOk(t: Table, free: seq<nat>, count: seq<nat>, parent: int, vm: bool)
    requires Listed(t, free) && Issued(t, count)
    ensures t.head != NULL ==> 0 <= t.head < NENV
    ensures var (t', r) := EnvAlloc(t, parent, vm);
      if free != [] && vm then
        r == Slot(free[0]) && Listed(t', free[1..]) && Issued(t', count[free[0] := count[free[0]] + 1])
      else t' == t && r == Failed(if free == [] then -E_NO_FREE_ENV else -E_NO_MEM)
  {
    if free != [] && vm {
      var e := free[0];
      ChainPop(t.head, t.link, free);
      NextIdAfter(count[e], e);
      var t' := EnvAlloc(t, parent, vm).0;
      forall x | 0 <= x < NENV ensures x in free[1..] <==> t'.status[x] == Free {
        assert free == [e] + free[1..];
      }
    }
  }

  lemma FreeSlotOk(t: Table, free: seq<nat>, count: seq<nat>, e: nat)
    requires Listed(t, free) && Issued(t, count) && e < NENV && t.status[e] != Free
    ensures Listed(FreeSlot(t, e), [e] + free) && Issued(FreeSlot(t, e), count)
    ensures var t' := FreeSlot(t, e);
      && t'.id == t.id && t'.parent == t.parent
      && forall x :: 0 <= x < NENV && x != e ==> t'.status[x] == t.status[x]
  {
    ChainPush(t.head, t.link, free, e);
  }

  ghost predicate SomeListed(t: Table) { exists free :: Listed(t, free) }

  /** Freeing an environment that is free already closes the list into a ring. */
  lemma {:induction false} RingFollows(head: int, link: seq<int>, free: seq<nat>, k: nat, ring: seq<nat>, j: nat)
    requires Chain(head, link, free) && k < |free| && j <= k
    requires Chain(free[k], link[free[k] := head], ring)
    ensures j + 1 < |ring| && ring[j + 1] == free[j]
  {
    var e := free[k];
    var link' := link[e := head];
    assert ring[0] == e;
    if j == 0 {
      assert link'[ring[0]] == head == free[0];
    } else {
      RingFollows(head, link, free, k, ring, j - 1);
      assert free[j - 1] != e;
      assert link'[ring[j]] == link[free[j - 1]] == free[j];
    }
  }

  /** The free list stays exact under env_free if and only if the environment was in use. */
  lemma FreeSlotExact(t: Table, free: seq<nat>, count: seq<nat>, e: nat)
    requires Listed(t, free) && Issued(t, count) && e < NENV
    ensures SomeListed(FreeSlot(t, e)) <==> t.status[e] != Free
  {
    if t.status[e] != Free {
      FreeSlotOk(t, free, count, e);
    } else if SomeListed(FreeSlot(t, e)) {
      var ring :| Listed(FreeSlot(t, e), ring);
      var k :| 0 <= k < |free| && free[k] == e;
      RingFollows(t.head, t.link, free, k, ring, k);
    }
  }

  /** A head and links determine the list. */
  lemma {:induction false} ChainUnique(head: int, link: seq<int>, s: seq<nat>, t: seq<nat>)
    requires Chain(head, link, s) && Chain(head, link, t)
    ensures s == t
    decreases |s|
  {
    if s != [] && t != [] {
      ChainPop(head, link, s);
      ChainPop(head, link, t);
      ChainUnique(link[head], link, s[1..], t[1..]);
      assert s == [s[0]] + s[1..] && t == [t[0]] + t[1..];
    }
  }

  /** A status stored from outside, as sys_env_set_status does, leaves the list exact if and only
      if it does not take the slot into or out of ENV_FREE. */
  lemma StatusStoreExact(t: Table, free: seq<nat>, e: nat, st: Status)
    requires Listed(t, free) && e < NENV
    ensures SomeListed(t.(status := t.status[e := st])) <==> (st == Free <==> t.status[e] == Free)
  {
    var t' := t.(status := t.status[e := st]);
    if SomeListed(t') {
      var free' :| Listed(t', free');
      ChainUnique(t.head, t.link, free, free');
      assert e in free <==> t'.status[e] == Free;
    } else if st == Free <==> t.status[e] == Free {
      assert Listed(t', free);
    }
  }

  // ---------------------------------------------------------------- runs

  /** SetOther stands for every other change of a status: between states other than ENV_FREE. */
  datatype Op = AllocOp(parent: int, vm: bool) | FreeOp(e: nat) | SetOther(e: nat, st: Status)

  datatype History = History(t: Table, count: seq<nat>)

  ghost predicate Fits(h: History, op: Op) {
    && Shaped(h.t) && |h.count| == NENV && (h.t.head != NULL ==> 0 <= h.t.head < NENV)
    && (op.FreeOp? ==> op.e < NENV && h.t.status[op.e] != Free)
    && (op.SetOther? ==> op.e < NENV && h.t.status[op.e] != Free && op.st != Free)
  }

  function Do(h: History, op: Op): History
    requires Fits(h, op)
  {
    match op
    case AllocOp(parent, vm) =>
      var (t, r) := EnvAlloc(h.t, parent, vm);
      History(t, if r.Slot? then h.count[r.e := h.count[r.e] + 1] else h.count)
    case FreeOp(e) => h.(t := FreeSlot(h.t, e))
    case SetOther(e, st) => h.(t := h.t.(status := h.t.status[e := st]))
  }

  ghost predicate Good(h: History) { SomeListed(h.t) && Issued(h.t, h.count) }

  ghost predicate Leads(h: History, ops: seq<Op>, h': History)
    decreases |ops|
  {
    if ops == [] then h' == h else Fits(h, ops[0]) && Leads(Do(h, ops[0]), ops[1..], h')
  }

  lemma DoGood(h: History, op: Op)
    requires Good(h) && Fits(h, op)
    ensures Good(Do(h, op))
    ensures forall e :: 0 <= e < NENV ==> Do(h, op).count[e] >= h.count[e]
  {
    var free :| Listed(h.t, free);
    match op
    case AllocOp(parent, vm) =>
      EnvAllocOk(h.t, free, h.count, parent, vm);
      if free != [] && vm { assert Listed(Do(h, op).t, free[1..]); } else { assert Listed(Do(h, op).t, free); }
    case FreeOp(e) => FreeSlotOk(h.t, free, h.count, e);
    case SetOther(e, st) => assert Listed(Do(h, op).t, free);
  }

  /** env_free_list holds exactly the ENV_FREE slots after every run. */
  lemma {:induction false} RunGood(h: History, ops: seq<Op>, h': History)
    requires Good(h) && Leads(h, ops, h')
    ensures Good(h') && forall e :: 0 <= e < NENV ==> h'.count[e] >= h.count[e]
    decreases |ops|
  {
    if ops != [] {
      DoGood(h, ops[0]);
      RunGood(Do(h, ops[0]), ops[1..], h');
    }
  }

  /** Ids of environments in use are positive and pairwise distinct. */
  lemma LiveDistinct(h: History, e: nat, f: nat)
    requires Good(h) && e < NENV && f < NENV && e != f && h.t.status[e] != Free && h.t.status[f] != Free
    ensures 0 < h.t.id[e] && h.t.id[e] != h.t.id[f]
  {
    IdShape(h.count[e], e);
    IdsAgree(h.count[e], e, h.count[f], f);
  }

  /** The caller may manage the environment: no check is asked for, or it is the caller itself or
      a child of the caller's. */
  predicate May(t: Table, e: nat, cur: Option<nat>, checkperm: bool)
    requires Shaped(t) && e < NENV && (cur.Some? ==> cur.value < NENV)
  {
    !checkperm || cur == Some(e) || (cur.Some? && t.parent[e] == t.id[cur.value])
  }

  /** env_alloc makes the new environment runnable and a child of the one named, and leaves status, id
      and parent of all others alone. */
  lemma AllocParent(t: Table, free: seq<nat>, count: seq<nat>, parent: int, vm: bool)
    requires Listed(t, free) && Issued(t, count) && free != [] && vm
    ensures var t' := EnvAlloc(t, parent, vm).0;
      && Shaped(t') && t'.parent[free[0]] == parent && t'.status[free[0]] == Runnable
      && forall e :: 0 <= e < NENV && e != free[0] ==>
           t'.parent[e] == t.parent[e] && t'.status[e] == t.status[e] && t'.id[e] == t.id[e]
  {
    EnvAllocOk(t, free, count, parent, vm);
  }

  /** An environment that has just made a child may manage it, and so may the child itself; of all
      others in use none may. */
  lemma ParentMay(t: Table, free: seq<nat>, count: seq<nat>, me: nat, other: nat)
    requires Listed(t, free) && Issued(t, count) && free != [] && me < NENV && t.status[me] != Free
    requires other < NENV && t.status[other] != Free
    ensures var t' := EnvAlloc(t, t.id[me], true).0;
      Shaped(t') && (May(t', free[0], Some(other), true) <==> other == me) && May(t', free[0], Some(free[0]), true)
  {
    AllocParent(t, free, count, t.id[me], true);
    assert free[0] in free;
    IdsAgree(count[me], me, count[other], other);
  }

  /** envid2env finds an environment for an id other than 0 exactly if that environment is in use,
      has this id, and may be managed by the caller; nothing else leads to an error. */
  lemma FindExact(t: Table, count: seq<nat>, envid: int, cur: Option<nat>, checkperm: bool)
    requires Issued(t, count) && envid != 0 && (cur.Some? ==> cur.value < NENV) && (checkperm ==> cur.Some?)
    ensures var r := EnvId2Env(t, envid, cur, checkperm);
      && (forall e: nat :: r == Found(Some(e)) <==>
            e < NENV && t.status[e] != Free && t.id[e] == envid && May(t, e, cur, checkperm))
      && r != Found(None)
  {
    forall e: nat | e < NENV && t.status[e] != Free && t.id[e] == envid ensures e == EnvX(envid) {
      IdShape(count[e], e);
    }
  }

  /** An id given out once is accepted later exactly if its slot is in use and has been given
      out again a multiple of 2^19 - 1 times since. */
  lemma StaleExact(h: History, e: nat, ops: seq<Op>, h': History, cur: Option<nat>)
    requires Good(h) && e < NENV && h.t.status[e] != Free && Leads(h, ops, h')
    requires cur.Some? ==> cur.value < NENV
    ensures Shaped(h'.t) && |h'.count| == NENV && h'.count[e] >= h.count[e]
    ensures var r := EnvId2Env(h'.t, h.t.id[e], cur, false);
      && r in {BadEnv, Found(Some(e))}
      && (r.Found? <==> h'.t.status[e] != Free && (h'.count[e] - h.count[e]) % PERIOD == 0)
  {
    RunGood(h, ops, h');
    IdShape(h.count[e], e);
    if h'.t.status[e] != Free { IdsAgree(h'.count[e], e, h.count[e], e); }
  }

  /** So a stale id is rejected until its slot has been reallocated 2^19 - 1 times. */
  lemma StaleRejected(h: History, e: nat, ops: seq<Op>, h': History, cur: Option<nat>)
    requires Good(h) && e < NENV && h.t.status[e] != Free && Leads(h, ops, h')
    requires cur.Some? ==> cur.value < NENV
    requires |h'.count| == NENV && h.count[e] < h'.count[e] < h.count[e] + PERIOD
    ensures Shaped(h'.t) && EnvId2Env(h'.t, h.t.id[e], cur, false) == BadEnv
  {
    StaleExact(h, e, ops, h', cur);
  }

  // ---------------------------------------------------------------- step by step

  /** The id arithmetic of env_alloc. */
  method GenerateId(id: int, slot: nat) returns (r: int)
    ensures r == NextId(id, slot)
  {
    var generation := ClearIndex(Wrap32(id + GENERATION));
    if generation <= 0 {
      generation := GENERATION;
    }
    r := generation + slot;
  }

  class EnvTable {
    const status: array<Status>
    const id: array<int>
    const parent: array<int>
    const link: array<int>
    var head: int
    ghost var free: seq<nat>
    ghost var count: seq<nat>

    ghost predicate Separate() {
      && id != parent && id != link && parent != link
      && status.Length == id.Length == parent.Length == link.Length == NENV
    }

    ghost function Value(): Table
      reads this, status, id, parent, link
    {
      Table(status[..], id[..], parent[..], link[..], head)
    }

    ghost predicate Valid()
      reads this, status, id, parent, link
    {
      Separate() && Listed(Value(), free) && Issued(Value(), count)
    }

    /** The first loop of env_init. */
    method ClearSlots()
      requires Separate()
      modifies status, id
      ensures forall x :: 0 <= x < NENV ==> status[x] == Free
      ensures forall x :: 0 <= x < NENV ==> id[x] == 0
    {
      for i := 0 to NENV
        invariant forall x :: 0 <= x < i ==> status[x] == Free
        invariant forall x :: 0 <= x < i ==> id[x] == 0
      {
        status[i] := Free;
        id[i] := 0;
      }
    }

    /** Its second loop, from the last slot down to the first. */
    method LinkSlots()
      requires Separate()
      modifies this`head, this`free, link
      ensures Chain(head, link[..], free) && free == seq(NENV, i => i)
    {
      head, free := NULL, [];
      var i := NENV;
      while i > 0
        invariant 0 <= i <= NENV && Chain(head, link[..], free)
        invariant |free| == NENV - i && forall x :: 0 <= x < NENV - i ==> free[x] == i + x
      {
        i := i - 1;
        ChainPush(head, link[..], free, i);
        link[i] := head;
        head := i;
        free := [i] + free;
      }
    }

    /** env_init: every slot is free, in order, and env_alloc will return slot 0 first. */
    method EnvInit()
      requires Separate()
      modifies this, status, id, link
      ensures Valid() && free == seq(NENV, i => i) && count == seq(NENV, i => 0)
    {
      ClearSlots();
      LinkSlots();
      count := seq(NENV, i => 0);
      forall e | 0 <= e < NENV ensures e in free { assert free[e] == e; }
    }

    method Allocate(p: int, vm: bool) returns (r: Alloc)
      requires Valid()
      modifies this, status, id, parent
      ensures Valid() && (Value(), r) == EnvAlloc(old(Value()), p, vm)
      ensures r.Slot? <==> old(free) != [] && vm
      ensures r.Slot? ==>
        r.e == old(free)[0] && free == old(free)[1..] && count == old(count)[r.e := old(count)[r.e] + 1]
      ensures r.Failed? ==> free == old(free) && count == old(count)
    {
      EnvAllocOk(Value(), free, count, p, vm);
      if head == NULL {
        return Failed(-E_NO_FREE_ENV);
      }
      if !vm {
        return Failed(-E_NO_MEM);
      }
      var e: nat := head;
      id[e] := GenerateId(id[e], e);
      parent[e] := p;
      status[e] := Runnable;
      head := link[e];
      r := Slot(e);
      free, count := free[1..], count[e := count[e] + 1];
    }

    method Release(e: nat)
      requires Valid() && e < NENV && status[e] != Free
      modifies this, status, link
      ensures Valid() && Value() == FreeSlot(old(Value()), e)
      ensures free == [e] + old(free) && count == old(count)
    {
      FreeSlotOk(Value(), free, count, e);
      status[e] := Free;
      link[e] := head;
      head := e;
      free := [e] + free;
    }

    method Find(envid: int, cur: Option<nat>, checkperm: bool) returns (r: Lookup)
      requires Valid() && (cur.Some? ==> cur.value < NENV) && (checkperm ==> cur.Some?)
      ensures r == EnvId2Env(Value(), envid, cur, checkperm)
      ensures envid == 0 ==> r == Found(cur)
      ensures envid != 0 ==> forall e: nat :: r == Found(Some(e)) <==>
        e < NENV && status[e] != Free && id[e] == envid && May(Value(), e, cur, checkperm)
    {
      if envid != 0 { FindExact(Value(), count, envid, cur, checkperm); }
      if envid == 0 {
        return Found(cur);
      }
      var e := EnvX(envid);
      if status[e] == Free || id[e] != envid {
        return BadEnv;
      }
      if checkperm && cur != Some(e) && parent[e] != id[cur.value] {
        return BadEnv;
      }
      return Found(Some(e));
    }
  }
}
