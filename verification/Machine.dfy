/**
Several CPUs sharing the kernel under one lock: user steps, attempts of the atomic exchange in
spin_lock, locked kernel steps, and the exchange that releases the lock. Every interleaving is
a list of (CPU, action) pairs. cpunum() is the acting CPU.
*/
module Machine {
  import opened Options
  import opened Scheduler

  /** How a CPU gets into the kernel. */
  datatype Request =
    | Boot                 // mp_main or i386_init, about to schedule for the first time
    | Trap(kind: Kind)     // through trap(), which collects zombies
    | Syscall(call: Call)  // through syscall_dummy, which does not

  /** Handled is a page fault passed to the user's handler; Fatal any trap that ends in
      env_destroy(curenv); Fork is sys_exofork, which comes in as a trap. */
  datatype Kind = Spurious | Timer | Handled | Fatal | Fork

  /** Plain is any call that returns to its caller and changes no status. */
  datatype Call =
    | Plain | Yield | DestroyEnv(t: nat) | SetEnvStatus(t: nat, st: Status) | Recv | TrySend(t: nat) | Exofork

  datatype Pc =
    | User
    | Spin(req: Request)   // before xchg(&locked, 1) returns 0
    | Body(req: Request)   // lock held, request not yet served
    | Yielding             // lock held, in sched_yield
    | Switch(e: nat)       // lock held, about to env_run(e)
    | Leaving              // lock held, about to xchg(&locked, 0)
    | Halted               // lock held for good in the monitor
    | Panicked

  datatype State = State(sys: Sys, locked: bool, pcs: seq<Pc>, idles: nat)

  predicate Holds(pc: Pc) { pc.Body? || pc.Yielding? || pc.Switch? || pc.Leaving? || pc.Halted? || pc.Panicked? }

  /** `slot` is the free slot that env_alloc would take. */
  datatype Action = Enter(req: Request) | Xchg | Work(slot: nat)

  /** Idle environments run user/idle.c: they yield, and are interrupted. */
  predicate IdleRequest(r: Request) { r == Syscall(Yield) || r == Trap(Timer) || r == Trap(Spurious) }

  predicate InTable(r: Request, n: nat) {
    match r
    case Syscall(DestroyEnv(t)) => t < n
    case Syscall(SetEnvStatus(t, _)) => t < n
    case Syscall(TrySend(t)) => t < n
    case _ => true
  }

  predicate Sized(m: State) {
    && |m.pcs| == |m.sys.cur| && |m.pcs| <= m.idles <= |m.sys.envs| && InBounds(m.sys)
  }

  predicate MayEnter(m: State, c: nat, req: Request)
    requires Sized(m) && c < |m.pcs|
  {
    var me := m.sys.cur[c];
    !req.Boot? && InTable(req, |m.sys.envs|) && (me.Some? && m.sys.envs[me.value].idle ==> IdleRequest(req))
  }

  predicate Forks(r: Request) { r == Trap(Fork) || r == Syscall(Exofork) }

  /** What CPU c may do next. A fork needs a free slot: without one sys_exofork goes on with an
      uninitialised pointer. */
  predicate Enabled(m: State, c: nat, a: Action)
    requires Sized(m)
  {
    && c < |m.pcs|
    && match a
       case Enter(req) => m.pcs[c].User? && MayEnter(m, c, req)
       case Xchg => m.pcs[c].Spin?
       case Work(slot) =>
         match m.pcs[c]
         case Body(req) =>
           && InTable(req, |m.sys.envs|) && (req.Boot? || m.sys.cur[c].Some?)
           && (Forks(req) ==> slot < |m.sys.envs| && m.sys.envs[slot].status == Free)
         case Switch(e) => e < |m.sys.envs|
         case Yielding => true
         case Leaving => true
         case _ => false
  }

  function Resumed(me: nat, next: After): Pc {
    if next.Resume? then Switch(me) else Yielding
  }

  /** trap() */
  function Trapped(s: Sys, c: nat, kind: Kind, slot: nat): (Sys, Pc)
    requires InBounds(s) && c < |s.cur| && s.cur[c].Some? && (kind.Fork? ==> slot < |s.envs|)
  {
    var me := s.cur[c].value;
    if s.envs[me].status == Dying then (SetCur(SetStatus(s, me, Free), c, None), Yielding)
    else
      match kind
      case Timer => (s, Yielding)
      case Handled => (s, Switch(me))
      case Fatal => var (s', next) := EnvDestroy(s, c, me); (s', Resumed(me, next))
      case Fork =>
        (SysExofork(s, slot), if SysExofork(s, slot).envs[me].status == Running then Switch(me) else Yielding)
      case Spurious => (s, if s.envs[me].status == Running then Switch(me) else Yielding)
  }

  /** syscall_dummy() */
  function Called(s: Sys, c: nat, call: Call, slot: nat): (Sys, Pc)
    requires InBounds(s) && c < |s.cur| && s.cur[c].Some? && (call.Exofork? ==> slot < |s.envs|)
    requires InTable(Syscall(call), |s.envs|)
  {
    var me := s.cur[c].value;
    match call
    case Plain => (s, Switch(me))
    case Yield => (s, Yielding)
    case DestroyEnv(t) => var (s', next) := SysEnvDestroy(s, c, t); (s', Resumed(me, next))
    case SetEnvStatus(t, st) => (SysEnvSetStatus(s, t, st), Switch(me))
    case Recv => (SysIpcRecv(s, me), Yielding)
    case TrySend(t) => (SysIpcTrySend(s, t), Switch(me))
    case Exofork => (SysExofork(s, slot), Switch(me))
  }

  function Served(s: Sys, c: nat, req: Request, slot: nat): (Sys, Pc)
    requires InBounds(s) && c < |s.cur| && (req.Boot? || s.cur[c].Some?)
    requires InTable(req, |s.envs|) && (Forks(req) ==> slot < |s.envs|)
  {
    match req
    case Boot => (s, Yielding)
    case Trap(kind) => Trapped(s, c, kind, slot)
    case Syscall(call) => Called(s, c, call, slot)
  }

  function Picked(p: Pick): Pc {
    match p
    case Take(e) => Switch(e)
    case Monitor => Halted
    case NoIdle => Panicked
  }

  function Goto(m: State, c: nat, pc: Pc): State
    requires c < |m.pcs|
  {
    m.(pcs := m.pcs[c := pc])
  }

  /** One step of CPU c. */
  function Step(m: State, c: nat, a: Action): State
    requires Sized(m) && Enabled(m, c, a)
  {
    match a
    case Enter(req) => Goto(m, c, Spin(req))
    case Xchg => if m.locked then m else Goto(m, c, Body(m.pcs[c].req)).(locked := true)
    case Work(slot) =>
      match m.pcs[c]
      case Body(req) => var (s, pc) := Served(m.sys, c, req, slot); Goto(m, c, pc).(sys := s)
      case Yielding => Goto(m, c, Picked(SchedPick(m.sys, c)))
      case Switch(e) => Goto(m, c, Leaving).(sys := EnvRun(m.sys, c, e))
      case _ => Goto(m, c, User).(locked := false)
  }

  // ---------------------------------------------------------------- the invariant

  predicate Live(st: Status) { st == Running || st == Dying }

  /** One CPU's current environment is no other CPU's. */
  ghost predicate Separate(s: Sys) {
    forall c, d :: 0 <= c < |s.cur| && 0 <= d < |s.cur| && c != d && s.cur[c].Some? ==> s.cur[c] != s.cur[d]
  }

  /** Slots below `idles` hold the idle environments, ready or running, and idle environment i
      is current on no CPU but i. */
  ghost predicate IdleOk(s: Sys, idles: nat) {
    && (forall i :: 0 <= i < |s.envs| ==> (s.envs[i].idle <==> i < idles))
    && (forall i :: 0 <= i < |s.envs| && s.envs[i].idle ==> s.envs[i].status == Runnable || s.envs[i].status == Running)
    && (forall c :: 0 <= c < |s.cur| && s.cur[c].Some? && s.cur[c].value < idles ==> s.cur[c].value == c)
  }

  /** An environment waiting in sys_ipc_recv cannot be picked, and no CPU goes on with it. */
  ghost predicate Blocked(s: Sys) {
    forall i :: 0 <= i < |s.envs| && s.envs[i].recving ==>
      && s.envs[i].status != Runnable && !s.envs[i].idle
      && (s.envs[i].status == NotRunnable || CurrentNowhere(s, i))
  }

  ghost predicate CurrentNowhere(s: Sys, i: nat) { forall c :: 0 <= c < |s.cur| ==> s.cur[c] != Some(i) }

  ghost predicate CurLive(s: Sys, c: nat)
    requires InBounds(s) && c < |s.cur|
  {
    s.cur[c].Some? ==> Live(s.envs[s.cur[c].value].status)
  }

  /** The current environment of a CPU on its way out of the kernel by sched_yield. */
  ghost predicate CurLeft(s: Sys, c: nat)
    requires InBounds(s) && c < |s.cur|
  {
    s.cur[c].Some? ==> Live(s.envs[s.cur[c].value].status) || s.envs[s.cur[c].value].status == NotRunnable
  }

  /** env_run(e) is safe on CPU c. */
  ghost predicate MayRun(s: Sys, c: nat, e: nat)
    requires InBounds(s) && c < |s.cur|
  {
    && e < |s.envs| && (e < |s.envs| && s.envs[e].idle ==> e == c)
    && (forall d :: 0 <= d < |s.cur| && d != c ==> s.cur[d] != Some(e))
    && (if s.cur[c] == Some(e) then Live(s.envs[e].status) else s.envs[e].status == Runnable || s.envs[e].idle)
  }

  ghost predicate RequestOk(m: State, c: nat, req: Request)
    requires Sized(m) && c < |m.pcs|
  {
    if req.Boot? then m.sys.cur[c].None? else m.sys.cur[c].Some? && MayEnter(m, c, req)
  }

  ghost predicate PcOk(m: State, c: nat)
    requires Sized(m) && c < |m.pcs|
  {
    match m.pcs[c]
    case User => m.sys.cur[c].Some? && CurLive(m.sys, c)
    case Spin(req) => RequestOk(m, c, req) && CurLive(m.sys, c)
    case Body(req) => RequestOk(m, c, req) && CurLive(m.sys, c)
    case Yielding => CurLeft(m.sys, c)
    case Switch(e) => CurLeft(m.sys, c) && MayRun(m.sys, c, e)
    case Leaving => m.sys.cur[c].Some? && CurLive(m.sys, c)
    case Halted => CurLeft(m.sys, c)
    case Panicked => false
  }

  /** At most one CPU is past the lock, and the lock word says whether one is. */
  ghost predicate LockOk(m: State) {
    && (forall c, d :: 0 <= c < |m.pcs| && 0 <= d < |m.pcs| && Holds(m.pcs[c]) && Holds(m.pcs[d]) ==> c == d)
    && (m.locked <==> exists c :: 0 <= c < |m.pcs| && Holds(m.pcs[c]))
  }

  ghost predicate SysOk(s: Sys, idles: nat) { Separate(s) && IdleOk(s, idles) && Blocked(s) }

  ghost predicate Inv(m: State) {
    && Sized(m) && LockOk(m) && SysOk(m.sys, m.idles)
    && forall c :: 0 <= c < |m.pcs| ==> PcOk(m, c)
  }

  /** What the invariant says between kernel entries: nothing is current twice, every current
      environment is RUNNING or DYING, and idle environment i is current on CPU i only. */
  lemma LockFree(m: State)
    requires Inv(m) && !m.locked
    ensures forall c, d :: 0 <= c < |m.pcs| && 0 <= d < |m.pcs| && c != d && m.sys.cur[c].Some? ==>
      m.sys.cur[c] != m.sys.cur[d]
    ensures forall c :: 0 <= c < |m.pcs| ==> m.pcs[c].User? || m.pcs[c].Spin?
    ensures forall c :: 0 <= c < |m.pcs| ==> CurLive(m.sys, c)
    ensures forall i, c :: 0 <= i < m.idles && 0 <= c < |m.pcs| && m.sys.cur[c] == Some(i) ==> c == i
  {
    forall c | 0 <= c < |m.pcs| ensures (m.pcs[c].User? || m.pcs[c].Spin?) && CurLive(m.sys, c) {
      assert !Holds(m.pcs[c]);
      assert PcOk(m, c);
    }
  }

  // ---------------------------------------------------------------- steps

  ghost predicate StaysLive(s: Sys, t: Sys, e: Option<nat>)
    requires |t.envs| == |s.envs|
  {
    e.Some? && e.value < |s.envs| && Live(s.envs[e.value].status) ==> Live(t.envs[e.value].status)
  }

  /** Others keep their state when CPU c changes the kernel data and none of their current
      environments loses its life. */
  ghost predicate SameForOthers(s: Sys, t: Sys, c: nat) {
    && |t.envs| == |s.envs| && |t.cur| == |s.cur|
    && (forall d :: 0 <= d < |s.cur| && d != c ==> t.cur[d] == s.cur[d])
    && (forall i :: 0 <= i < |s.envs| ==> t.envs[i].idle == s.envs[i].idle)
    && (forall d :: 0 <= d < |s.cur| && d != c ==> StaysLive(s, t, s.cur[d]))
  }

  /** The step of the CPU that holds the lock: its own new state, and what others may rely on. */
  lemma HolderStep(m: State, c: nat, pc: Pc, s: Sys, m': State)
    requires Inv(m) && c < |m.pcs| && Holds(m.pcs[c]) && (Holds(pc) || pc.User?)
    requires m' == State(s, Holds(pc), m.pcs[c := pc], m.idles)
    requires SameForOthers(m.sys, s, c) && InBounds(s) && SysOk(s, m.idles) && PcOk(m', c)
    ensures Inv(m')
  {
    forall d | 0 <= d < |m.pcs| ensures PcOk(m', d) {
      assert PcOk(m, d);
      if d != c { assert !Holds(m.pcs[d]); }
    }
    assert LockOk(m') by {
      forall d | 0 <= d < |m'.pcs| && d != c ensures !Holds(m'.pcs[d]) { assert !Holds(m.pcs[d]); }
      if Holds(pc) { assert Holds(m'.pcs[c]); }
    }
  }

  lemma EnterKeeps(m: State, c: nat, req: Request)
    requires Inv(m) && Enabled(m, c, Enter(req))
    ensures Inv(Step(m, c, Enter(req)))
  {
    var m' := Step(m, c, Enter(req));
    assert PcOk(m, c);
    forall d | 0 <= d < |m.pcs| ensures PcOk(m', d) { assert PcOk(m, d); }
    assert LockOk(m') by {
      forall d | 0 <= d < |m.pcs| ensures Holds(m'.pcs[d]) == Holds(m.pcs[d]) {}
    }
  }

  lemma XchgKeeps(m: State, c: nat)
    requires Inv(m) && Enabled(m, c, Xchg)
    ensures Inv(Step(m, c, Xchg))
  {
    var m' := Step(m, c, Xchg);
    if !m.locked {
      assert PcOk(m, c);
      forall d | 0 <= d < |m.pcs| ensures PcOk(m', d) && !Holds(m.pcs[d]) { assert PcOk(m, d); }
      assert Holds(m'.pcs[c]);
    }
  }

  lemma LeaveKeeps(m: State, c: nat, slot: nat)
    requires Inv(m) && Enabled(m, c, Work(slot)) && m.pcs[c].Leaving?
    ensures Inv(Step(m, c, Work(slot)))
  {
    assert PcOk(m, c);
    HolderStep(m, c, User, m.sys, Step(m, c, Work(slot)));
  }

  /** The chosen environment is safe to run. */
  lemma PickMayRun(s: Sys, c: nat, idles: nat, e: nat)
    requires InBounds(s) && c < |s.cur| && c < idles <= |s.envs| && SysOk(s, idles) && SchedPick(s, c) == Take(e)
    requires CurLeft(s, c) && forall d :: 0 <= d < |s.cur| && d != c ==> CurLive(s, d)
    ensures MayRun(s, c, e)
  {
    if Eligible(s.envs[e]) {
      forall d | 0 <= d < |s.cur| && d != c ensures s.cur[d] != Some(e) { assert CurLive(s, d); }
    } else if s.cur[c] == Some(e) {
    } else {
      assert e == c;
    }
  }

  lemma PickOk(m: State, c: nat)
    requires Inv(m) && c < |m.pcs| && m.pcs[c].Yielding?
    ensures PcOk(m.(pcs := m.pcs[c := Picked(SchedPick(m.sys, c))]), c)
  {
    var p := SchedPick(m.sys, c);
    assert PcOk(m, c);
    forall d | 0 <= d < |m.pcs| && d != c ensures CurLive(m.sys, d) {
      assert PcOk(m, d) && !Holds(m.pcs[d]);
    }
    if p.Take? {
      PickMayRun(m.sys, c, m.idles, p.e);
    } else {
      assert m.sys.envs[c].idle;
    }
  }

  lemma YieldKeeps(m: State, c: nat, slot: nat)
    requires Inv(m) && Enabled(m, c, Work(slot)) && m.pcs[c].Yielding?
    ensures Inv(Step(m, c, Work(slot)))
  {
    PickOk(m, c);
    HolderStep(m, c, Picked(SchedPick(m.sys, c)), m.sys, Step(m, c, Work(slot)));
  }

  /** env_run's first half: the old current environment goes back to RUNNABLE. */
  ghost function Demoted(s: Sys, c: nat): Sys
    requires InBounds(s) && c < |s.cur|
  {
    if s.cur[c].Some? && s.envs[s.cur[c].value].status == Running then SetStatus(s, s.cur[c].value, Runnable) else s
  }

  lemma DemotedOk(s: Sys, c: nat, idles: nat)
    requires InBounds(s) && c < |s.cur| && SysOk(s, idles)
    ensures var u := Demoted(s, c);
      InBounds(u) && SameForOthers(s, u, c) && SysOk(u, idles) && u.cur == s.cur
  {}

  /** Its second half. */
  lemma SelectOk(s: Sys, c: nat, e: nat, idles: nat)
    requires InBounds(s) && c < |s.cur| && SysOk(s, idles) && e < |s.envs| && !s.envs[e].recving
    requires (s.envs[e].idle ==> e == c) && forall d :: 0 <= d < |s.cur| && d != c ==> s.cur[d] != Some(e)
    ensures var t := SetStatus(SetCur(s, c, Some(e)), e, Running);
      InBounds(t) && SameForOthers(s, t, c) && SysOk(t, idles) && t.cur[c] == Some(e) && CurLive(t, c)
  {}

  lemma EnvRunOk(s: Sys, c: nat, e: nat, idles: nat)
    requires InBounds(s) && c < |s.cur| && SysOk(s, idles) && MayRun(s, c, e)
    ensures var t := EnvRun(s, c, e);
      InBounds(t) && SameForOthers(s, t, c) && SysOk(t, idles) && t.cur[c] == Some(e) && CurLive(t, c)
  {
    if s.cur[c] != Some(e) {
      DemotedOk(s, c, idles);
      SelectOk(Demoted(s, c), c, e, idles);
      SameTransitive(s, Demoted(s, c), EnvRun(s, c, e), c);
    }
  }

  lemma SameTransitive(s: Sys, u: Sys, t: Sys, c: nat)
    requires SameForOthers(s, u, c) && SameForOthers(u, t, c)
    ensures SameForOthers(s, t, c)
  {
    forall d | 0 <= d < |s.cur| && d != c ensures StaysLive(s, t, s.cur[d]) {
      assert StaysLive(s, u, s.cur[d]) && StaysLive(u, t, u.cur[d]);
    }
  }

  lemma SwitchKeeps(m: State, c: nat, slot: nat)
    requires Inv(m) && Enabled(m, c, Work(slot)) && m.pcs[c].Switch?
    ensures Inv(Step(m, c, Work(slot)))
  {
    var e := m.pcs[c].e;
    assert PcOk(m, c);
    EnvRunOk(m.sys, c, e, m.idles);
    HolderStep(m, c, Leaving, EnvRun(m.sys, c, e), Step(m, c, Work(slot)));
  }

  /** A running environment whose CPU switches to another waits for its turn, as every other
      environment that may run goes on waiting or running. */
  lemma SwitchLosesNobody(m: State, c: nat, slot: nat, x: nat)
    requires Inv(m) && Enabled(m, c, Work(slot)) && m.pcs[c].Switch? && x < |m.sys.envs| && !m.sys.envs[x].idle
    ensures var t := Step(m, c, Work(slot)).sys;
      && (m.sys.cur[c] == Some(x) && m.pcs[c].e != x && m.sys.envs[x].status == Running ==> Eligible(t.envs[x]))
      && (Active(m.sys.envs[x].status) ==> Active(t.envs[x].status))
      && (Eligible(m.sys.envs[x]) && m.pcs[c].e != x ==> Eligible(t.envs[x]))
  {
    assert PcOk(m, c);
    EnvRunEffect(m.sys, c, m.pcs[c].e);
  }

  // ---------------------------------------------------------------- serving a request

  /** Resuming the current environment, or giving it up. */
  ghost predicate ServedOk(s: Sys, t: Sys, c: nat, pc: Pc, idles: nat)
    requires InBounds(s) && c < |s.cur|
  {
    && InBounds(t) && SameForOthers(s, t, c) && SysOk(t, idles)
    && CurLeft(t, c)
    && (pc == Yielding || (pc.Switch? && t.cur[c] == Some(pc.e) && Live(t.envs[pc.e].status)))
  }

  lemma ServedKeeps(m: State, c: nat, slot: nat)
    requires Inv(m) && Enabled(m, c, Work(slot)) && m.pcs[c].Body?
    requires var (t, pc) := Served(m.sys, c, m.pcs[c].req, slot); ServedOk(m.sys, t, c, pc, m.idles)
    ensures Inv(Step(m, c, Work(slot)))
  {
    var (t, pc) := Served(m.sys, c, m.pcs[c].req, slot);
    var m' := Step(m, c, Work(slot));
    if pc.Switch? { assert MayRun(t, c, pc.e); }
    HolderStep(m, c, pc, t, m');
  }

  /** The kernel data as a request finds it: `me` is current and alive, others' current
      environments are alive. */
  ghost predicate Serving(s: Sys, c: nat, me: nat, idles: nat) {
    && InBounds(s) && c < |s.cur| && s.cur[c] == Some(me) && SysOk(s, idles) && Live(s.envs[me].status)
    && (forall d :: 0 <= d < |s.cur| ==> CurLive(s, d))
  }

  lemma InvServing(m: State, c: nat)
    requires Inv(m) && c < |m.pcs| && m.pcs[c].Body? && !m.pcs[c].req.Boot?
    ensures m.sys.cur[c].Some? && Serving(m.sys, c, m.sys.cur[c].value, m.idles)
  {
    forall d | 0 <= d < |m.pcs| ensures CurLive(m.sys, d) {
      assert PcOk(m, d) && (d != c ==> !Holds(m.pcs[d]));
    }
    assert PcOk(m, c);
  }

  /** Changing one environment that is current nowhere but perhaps here. */
  lemma OneChanged(s: Sys, c: nat, me: nat, idles: nat, i: nat, e: Env)
    requires Serving(s, c, me, idles) && i < |s.envs| && !s.envs[i].idle && !e.idle
    requires e.recving ==> e.status != Runnable && (e.status == NotRunnable || CurrentNowhere(s, i))
    requires Live(e.status) || forall d :: 0 <= d < |s.cur| && d != c ==> s.cur[d] != Some(i)
    ensures var t := s.(envs := s.envs[i := e]); InBounds(t) && SameForOthers(s, t, c) && SysOk(t, idles)
  {}

  /** While a request is served every current environment is alive, so none of them is waiting. */
  lemma ReceiverNowhere(s: Sys, c: nat, me: nat, idles: nat, t: nat)
    requires Serving(s, c, me, idles) && t < |s.envs| && s.envs[t].recving
    ensures CurrentNowhere(s, t)
  {
    forall d | 0 <= d < |s.cur| ensures s.cur[d] != Some(t) { assert CurLive(s, d); }
  }

  lemma FreeCurrent(s: Sys, c: nat, me: nat, idles: nat)
    requires Serving(s, c, me, idles) && !s.envs[me].idle
    ensures ServedOk(s, SetCur(SetStatus(s, me, Free), c, None), c, Yielding, idles)
  {
    OneChanged(s, c, me, idles, me, s.envs[me].(status := Free));
  }

  lemma TrappedOk(s: Sys, c: nat, me: nat, idles: nat, kind: Kind, slot: nat)
    requires Serving(s, c, me, idles) && (s.envs[me].idle ==> IdleRequest(Trap(kind)))
    requires kind.Fork? ==> slot < |s.envs| && s.envs[slot].status == Free
    ensures var (t, pc) := Trapped(s, c, kind, slot); ServedOk(s, t, c, pc, idles)
  {
    if s.envs[me].status == Dying || kind.Fatal? {
      FreeCurrent(s, c, me, idles);
    } else if kind.Fork? {
      ForkOk(s, c, me, idles, slot);
    }
  }

  lemma ForkOk(s: Sys, c: nat, me: nat, idles: nat, slot: nat)
    requires Serving(s, c, me, idles) && slot < |s.envs| && s.envs[slot].status == Free
    ensures slot != me && ServedOk(s, SysExofork(s, slot), c, Switch(me), idles)
  {
    forall d | 0 <= d < |s.cur| ensures s.cur[d] != Some(slot) { assert CurLive(s, d); }
    OneChanged(s, c, me, idles, slot, Env(NotRunnable, false, false));
  }

  /** What each call does: which environment it is about, what becomes of it, that all others stay as
      they are, and whether the caller goes on. */
  lemma CallEffect(s: Sys, c: nat, me: nat, call: Call, slot: nat)
    requires InBounds(s) && c < |s.cur| && s.cur[c] == Some(me) && InTable(Syscall(call), |s.envs|)
    requires call.Exofork? ==> slot < |s.envs|
    ensures var (t, pc) := Called(s, c, call, slot);
      var about := if call.DestroyEnv? || call.SetEnvStatus? || call.TrySend? then call.t
                   else if call.Exofork? then slot else me;
      && |t.envs| == |s.envs| && (forall i :: 0 <= i < |s.envs| && i != about ==> t.envs[i] == s.envs[i])
      && (pc == Yielding <==> call.Yield? || call.Recv? || (call.DestroyEnv? && call.t == me && !Denied(s, me)))
      && (pc != Yielding ==> pc == Switch(me) && t.cur == s.cur)
      && (call.Plain? || call.Yield? ==> t == s)
      && (call.Recv? ==> t.cur == s.cur && t.envs[me].recving && t.envs[me].status == NotRunnable)
      && (call.Exofork? ==> t.envs[slot] == Env(NotRunnable, false, false))
      && (call.TrySend? ==> CallOnTarget(s, t, about, s.envs[about].recving && s.envs[about].status != Free, Runnable))
      && (call.SetEnvStatus? ==> CallOnTarget(s, t, about, !Denied(s, about), call.st))
      && (call.DestroyEnv? ==>
            && CallOnTarget(s, t, about, !Denied(s, about),
                            if s.envs[about].status == Running && about != me then Dying else Free)
            && (about == me && !Denied(s, me) ==> t.cur == s.cur[c := None]))
  {}

  /** The target has the status if the call applies to it; otherwise nothing has changed. */
  ghost predicate CallOnTarget(s: Sys, t: Sys, i: nat, applies: bool, st: Status)
    requires i < |s.envs| == |t.envs|
  {
    if applies then t.envs[i].status == st && t.envs[i].idle == s.envs[i].idle else t.envs[i] == s.envs[i]
  }

  /** What each trap does: a zombie goes, a timer makes its CPU choose again, and otherwise the
      environment goes on if it is still running. */
  lemma TrapEffect(s: Sys, c: nat, me: nat, kind: Kind, slot: nat)
    requires InBounds(s) && c < |s.cur| && s.cur[c] == Some(me) && Live(s.envs[me].status)
    requires kind.Fork? ==> slot < |s.envs| && s.envs[slot].status == Free
    ensures var (t, pc) := Trapped(s, c, kind, slot);
      && |t.envs| == |s.envs|
      && (forall i :: 0 <= i < |s.envs| && i != me && !(kind.Fork? && i == slot) ==> t.envs[i] == s.envs[i])
      && (s.envs[me].status == Dying || kind.Fatal? ==>
            pc == Yielding && t.envs[me].status == Free && t.cur == s.cur[c := None])
      && (s.envs[me].status == Running && !kind.Fatal? ==>
            && t.cur == s.cur && t.envs[me] == s.envs[me] && (kind.Fork? ==> t.envs[slot].status == NotRunnable)
            && pc == if kind.Timer? then Yielding else Switch(me))
  {}

  // ---------------------------------------------------------------- the two calls that need care

  predicate CurrentElsewhere(s: Sys, c: nat, t: nat) {
    exists d :: 0 <= d < |s.cur| && d != c && s.cur[d] == Some(t)
  }

  /** sys_env_destroy must not hit an environment that is already dying on another CPU. */
  predicate DestroyFits(s: Sys, c: nat, t: nat)
    requires t < |s.envs|
  {
    !(s.envs[t].status == Dying && CurrentElsewhere(s, c, t))
  }

  /** sys_env_set_status must leave a current environment RUNNING or DYING, and must not make one that
      waits for a message RUNNABLE. */
  predicate SetStatusFits(s: Sys, c: nat, t: nat, st: Status)
    requires t < |s.envs| && c < |s.cur|
  {
    Denied(s, t) || (
      && (CurrentElsewhere(s, c, t) || s.cur[c] == Some(t) ==> Live(st))
      && (s.envs[t].recving ==> st != Runnable))
  }

  predicate Harmless(m: State, c: nat, a: Action)
    requires Sized(m) && Enabled(m, c, a)
  {
    a.Work? && m.pcs[c].Body? ==>
      match m.pcs[c].req
      case Syscall(DestroyEnv(t)) => DestroyFits(m.sys, c, t)
      case Syscall(SetEnvStatus(t, st)) => SetStatusFits(m.sys, c, t, st)
      case _ => true
  }

  lemma DestroyOk(s: Sys, c: nat, me: nat, idles: nat, t: nat)
    requires Serving(s, c, me, idles) && t < |s.envs| && DestroyFits(s, c, t)
    ensures var (s', pc) := Called(s, c, DestroyEnv(t), 0); ServedOk(s, s', c, pc, idles)
  {
    if !Denied(s, t) {
      if s.cur[c] == Some(t) {
        FreeCurrent(s, c, me, idles);
      } else if s.envs[t].status == Running {
        if s.envs[t].recving { ReceiverNowhere(s, c, me, idles, t); }
        OneChanged(s, c, me, idles, t, s.envs[t].(status := Dying));
      } else {
        forall d | 0 <= d < |s.cur| && d != c ensures s.cur[d] != Some(t) { assert CurLive(s, d); }
        if s.envs[t].recving { ReceiverNowhere(s, c, me, idles, t); }
        OneChanged(s, c, me, idles, t, s.envs[t].(status := Free));
      }
    }
  }

  lemma SetStatusOk(s: Sys, c: nat, me: nat, idles: nat, t: nat, st: Status)
    requires Serving(s, c, me, idles) && t < |s.envs| && SetStatusFits(s, c, t, st)
    ensures ServedOk(s, SysEnvSetStatus(s, t, st), c, Switch(me), idles)
  {
    if !Denied(s, t) {
      if s.envs[t].recving { ReceiverNowhere(s, c, me, idles, t); }
      OneChanged(s, c, me, idles, t, s.envs[t].(status := st));
    }
  }

  lemma CalledOk(s: Sys, c: nat, me: nat, idles: nat, call: Call, slot: nat)
    requires Serving(s, c, me, idles) && InTable(Syscall(call), |s.envs|)
    requires s.envs[me].idle ==> IdleRequest(Syscall(call))
    requires call.Exofork? ==> slot < |s.envs| && s.envs[slot].status == Free
    requires call.DestroyEnv? ==> DestroyFits(s, c, call.t)
    requires call.SetEnvStatus? ==> SetStatusFits(s, c, call.t, call.st)
    ensures var (t, pc) := Called(s, c, call, slot); ServedOk(s, t, c, pc, idles)
  {
    match call
    case Plain =>
    case Yield =>
    case DestroyEnv(t) => DestroyOk(s, c, me, idles, t);
    case SetEnvStatus(t, st) => SetStatusOk(s, c, me, idles, t, st);
    case Recv => OneChanged(s, c, me, idles, me, s.envs[me].(recving := true, status := NotRunnable));
    case TrySend(t) =>
      if s.envs[t].status != Free && s.envs[t].recving {
        forall d | 0 <= d < |s.cur| ensures s.cur[d] != Some(t) { assert CurLive(s, d); }
        OneChanged(s, c, me, idles, t, s.envs[t].(recving := false, status := Runnable));
      }
    case Exofork => ForkOk(s, c, me, idles, slot);
  }

  lemma BodyKeeps(m: State, c: nat, slot: nat)
    requires Inv(m) && Enabled(m, c, Work(slot)) && m.pcs[c].Body? && Harmless(m, c, Work(slot))
    ensures Inv(Step(m, c, Work(slot)))
  {
    var req := m.pcs[c].req;
    assert PcOk(m, c);
    if !req.Boot? {
      InvServing(m, c);
      if req.Trap? {
        TrappedOk(m.sys, c, m.sys.cur[c].value, m.idles, req.kind, slot);
      } else {
        CalledOk(m.sys, c, m.sys.cur[c].value, m.idles, req.call, slot);
      }
    }
    ServedKeeps(m, c, slot);
  }

  lemma StepKeeps(m: State, c: nat, a: Action)
    requires Inv(m) && Enabled(m, c, a) && Harmless(m, c, a)
    ensures Inv(Step(m, c, a))
  {
    match a
    case Enter(req) => EnterKeeps(m, c, req);
    case Xchg => XchgKeeps(m, c);
    case Work(slot) =>
      match m.pcs[c]
      case Body(_) => BodyKeeps(m, c, slot);
      case Yielding => YieldKeeps(m, c, slot);
      case Switch(_) => SwitchKeeps(m, c, slot);
      case Leaving => LeaveKeeps(m, c, slot);
  }

  // ---------------------------------------------------------------- exactly when a step is safe

  /** A CPU outside the kernel whose current environment is neither RUNNING nor DYING. */
  lemma LostElsewhere(m: State, d: nat, t: nat)
    requires Sized(m) && d < |m.pcs| && (m.pcs[d].User? || m.pcs[d].Spin?)
    requires m.sys.cur[d] == Some(t) && !Live(m.sys.envs[t].status)
    ensures !Inv(m)
  {
    assert !PcOk(m, d);
  }

  lemma HarmfulDestroy(m: State, c: nat, slot: nat, t: nat)
    requires Inv(m) && Enabled(m, c, Work(slot)) && m.pcs[c] == Body(Syscall(DestroyEnv(t)))
    requires !DestroyFits(m.sys, c, t)
    ensures !Inv(Step(m, c, Work(slot)))
  {
    InvServing(m, c);
    var d :| 0 <= d < |m.sys.cur| && d != c && m.sys.cur[d] == Some(t);
    assert !Holds(m.pcs[d]);
    assert Called(m.sys, c, DestroyEnv(t), slot).0 == SetStatus(m.sys, t, Free);
    LostElsewhere(Step(m, c, Work(slot)), d, t);
  }

  lemma HarmfulSetStatus(m: State, c: nat, slot: nat, t: nat, st: Status)
    requires Inv(m) && Enabled(m, c, Work(slot)) && m.pcs[c] == Body(Syscall(SetEnvStatus(t, st)))
    requires !SetStatusFits(m.sys, c, t, st)
    ensures !Inv(Step(m, c, Work(slot)))
  {
    InvServing(m, c);
    var m' := Step(m, c, Work(slot));
    assert m'.sys == SetStatus(m.sys, t, st) && m'.pcs[c] == Switch(m.sys.cur[c].value);
    if m.sys.envs[t].recving && st == Runnable {
      assert m'.sys.envs[t].recving && m'.sys.envs[t].status == st;
      assert !Blocked(m'.sys);
    } else if m.sys.cur[c] == Some(t) {
      assert !PcOk(m', c);
    } else {
      var d :| 0 <= d < |m.sys.cur| && d != c && m.sys.cur[d] == Some(t);
      assert !Holds(m.pcs[d]);
      LostElsewhere(m', d, t);
    }
  }

  /** Serving a request keeps the invariant exactly when it is not a second destruction of an
      environment dying elsewhere, nor a status change that takes a current environment out of
      RUNNING and DYING or makes a receiver RUNNABLE. */
  lemma BodyExact(m: State, c: nat, slot: nat)
    requires Inv(m) && Enabled(m, c, Work(slot)) && m.pcs[c].Body?
    ensures Inv(Step(m, c, Work(slot))) <==> Harmless(m, c, Work(slot))
  {
    if Harmless(m, c, Work(slot)) {
      BodyKeeps(m, c, slot);
    } else {
      match m.pcs[c].req
      case Syscall(DestroyEnv(t)) => HarmfulDestroy(m, c, slot, t);
      case Syscall(SetEnvStatus(t, st)) => HarmfulSetStatus(m, c, slot, t, st);
    }
  }

  // ---------------------------------------------------------------- runs

  ghost predicate Reaches(m: State, run: seq<(nat, Action)>, m': State)
    decreases |run|
  {
    if run == [] then m' == m
    else Sized(m) && Enabled(m, run[0].0, run[0].1) && Reaches(Step(m, run[0].0, run[0].1), run[1..], m')
  }

  ghost predicate HarmlessRun(m: State, run: seq<(nat, Action)>)
    decreases |run|
  {
    run != [] && Sized(m) && Enabled(m, run[0].0, run[0].1) ==>
      Harmless(m, run[0].0, run[0].1) && HarmlessRun(Step(m, run[0].0, run[0].1), run[1..])
  }

  /** Every interleaving keeps the invariant. */
  lemma {:induction false} RunSafe(m: State, run: seq<(nat, Action)>, m': State)
    requires Inv(m) && Reaches(m, run, m') && HarmlessRun(m, run)
    ensures Inv(m')
    decreases |run|
  {
    if run != [] {
      StepKeeps(m, run[0].0, run[0].1);
      RunSafe(Step(m, run[0].0, run[0].1), run[1..], m');
    }
  }

  /** The machine as i386_init leaves it: idle environments, some user environments, the boot
      CPU about to schedule with the lock held, the others spinning. */
  function BootState(ncpu: nat, idles: nat, users: nat, nenv: nat): State
    requires 0 < ncpu <= idles && idles + users <= nenv
  {
    var envs := seq(nenv, i => if i < idles then Env(Runnable, true, false)
                               else if i < idles + users then Env(Runnable, false, false)
                               else Env(Free, false, false));
    State(Sys(envs, seq(ncpu, i => None)), true, seq(ncpu, i => if i == 0 then Yielding else Spin(Boot)), idles)
  }

  lemma BootInv(ncpu: nat, idles: nat, users: nat, nenv: nat)
    requires 0 < ncpu <= idles && idles + users <= nenv
    ensures Inv(BootState(ncpu, idles, users, nenv))
  {
    var m := BootState(ncpu, idles, users, nenv);
    assert Holds(m.pcs[0]);
    assert LockOk(m);
    forall c | 0 <= c < |m.pcs| ensures PcOk(m, c) { assert m.sys.cur[c] == None; }
  }

  /** From the boot state every harmless run keeps the invariant. */
  lemma BootSafe(ncpu: nat, idles: nat, users: nat, nenv: nat, run: seq<(nat, Action)>, m': State)
    requires 0 < ncpu <= idles && idles + users <= nenv
    requires Reaches(BootState(ncpu, idles, users, nenv), run, m')
    requires HarmlessRun(BootState(ncpu, idles, users, nenv), run)
    ensures Inv(m')
  {
    BootInv(ncpu, idles, users, nenv);
    RunSafe(BootState(ncpu, idles, users, nenv), run, m');
  }

  // ---------------------------------------------------------------- what harmful steps lead to

  lemma {:induction false} ReachesAppend(m: State, r1: seq<(nat, Action)>, u: State, r2: seq<(nat, Action)>, m': State)
    requires Reaches(m, r1, u) && Reaches(u, r2, m')
    ensures Reaches(m, r1 + r2, m')
    decreases |r1|
  {
    if r1 == [] {
      assert r1 + r2 == r2;
    } else {
      ReachesAppend(Step(m, r1[0].0, r1[0].1), r1[1..], u, r2, m');
      assert (r1 + r2)[1..] == r1[1..] + r2;
    }
  }

  lemma OneStep(m: State, c: nat, a: Action)
    requires Sized(m) && Enabled(m, c, a)
    ensures Reaches(m, [(c, a)], Step(m, c, a))
  {
    assert [(c, a)][1..] == [];
    assert Reaches(Step(m, c, a), [], Step(m, c, a));
  }

  /** CPU c has the lock and the environment me is to be resumed. */
  lemma ResumeRun(m: State, c: nat, me: nat)
    requires Sized(m) && c < |m.pcs| && m.locked && m.pcs[c] == Switch(me) && m.sys.cur[c] == Some(me)
    ensures Reaches(m, [(c, Work(0)), (c, Work(0))], Goto(m, c, User).(locked := false))
  {
    var m1 := Goto(m, c, Leaving);
    OneStep(m, c, Work(0));
    assert Step(m, c, Work(0)) == m1;
    OneStep(m1, c, Work(0));
    assert Step(m1, c, Work(0)) == Goto(m, c, User).(locked := false);
    ReachesAppend(m, [(c, Work(0))], m1, [(c, Work(0))], Goto(m, c, User).(locked := false));
    assert [(c, Work(0))] + [(c, Work(0))] == [(c, Work(0)), (c, Work(0))];
  }

  /** CPU c gets from user mode to the service of a request. */
  lemma EntryRun(m: State, c: nat, req: Request)
    requires Sized(m) && c < |m.pcs| && !m.locked && m.pcs[c].User? && MayEnter(m, c, req)
    ensures Reaches(m, [(c, Enter(req)), (c, Xchg)], Goto(m, c, Body(req)).(locked := true))
  {
    var m1 := Goto(m, c, Spin(req));
    var m2 := Goto(m, c, Body(req)).(locked := true);
    OneStep(m, c, Enter(req));
    OneStep(m1, c, Xchg);
    assert Step(m1, c, Xchg) == m2;
    ReachesAppend(m, [(c, Enter(req))], m1, [(c, Xchg)], m2);
    assert [(c, Enter(req))] + [(c, Xchg)] == [(c, Enter(req)), (c, Xchg)];
  }

  ghost predicate CanReach(m: State, m': State) { exists run :: Reaches(m, run, m') }

  lemma CanReachTrans(m: State, u: State, m': State)
    requires CanReach(m, u) && CanReach(u, m')
    ensures CanReach(m, m')
  {
    var r1 :| Reaches(m, r1, u);
    var r2 :| Reaches(u, r2, m');
    ReachesAppend(m, r1, u, r2, m');
  }

  /** A whole system call that returns to its caller. */
  lemma CallRun(m: State, c: nat, call: Call, slot: nat, s: Sys)
    requires Sized(m) && c < |m.pcs| && !m.locked && m.pcs[c].User? && m.sys.cur[c].Some?
    requires MayEnter(m, c, Syscall(call))
    requires call.Exofork? ==> slot < |m.sys.envs| && m.sys.envs[slot].status == Free
    requires Called(m.sys, c, call, slot) == (s, Switch(m.sys.cur[c].value)) && s.cur == m.sys.cur
    requires |s.envs| == |m.sys.envs|
    ensures CanReach(m, m.(sys := s))
  {
    var me := m.sys.cur[c].value;
    var m2 := Goto(m, c, Body(Syscall(call))).(locked := true);
    EntryRun(m, c, Syscall(call));
    OneStep(m2, c, Work(slot));
    var m3 := Step(m2, c, Work(slot));
    assert m3 == Goto(m, c, Switch(me)).(locked := true, sys := s);
    ResumeRun(m3, c, me);
    assert Goto(m3, c, User).(locked := false) == m.(sys := s);
    CanReachTrans(m, m2, m3);
    CanReachTrans(m, m3, m.(sys := s));
  }

  /** CPU c, in sched_yield, switches to environment e and leaves the kernel. */
  lemma SwitchRun(m: State, c: nat, e: nat)
    requires Sized(m) && c < |m.pcs| && m.locked && m.pcs[c].Yielding?
    requires e < |m.sys.envs| && m.sys.cur[c] != Some(e) && SchedPick(m.sys, c) == Take(e)
    ensures CanReach(m, Goto(m, c, User).(locked := false, sys := EnvRun(m.sys, c, e)))
  {
    var m4 := Goto(m, c, Switch(e));
    var m5 := Goto(m, c, Leaving).(sys := EnvRun(m.sys, c, e));
    OneStep(m, c, Work(0));
    OneStep(m4, c, Work(0));
    assert Step(m4, c, Work(0)) == m5;
    OneStep(m5, c, Work(0));
    assert Step(m5, c, Work(0)) == Goto(m, c, User).(locked := false, sys := EnvRun(m.sys, c, e));
    CanReachTrans(m, m4, m5);
    CanReachTrans(m, m5, Step(m5, c, Work(0)));
  }

  /** A timer interrupt that switches to environment e. */
  lemma TimerRun(m: State, c: nat, e: nat)
    requires Sized(m) && c < |m.pcs| && !m.locked && m.pcs[c].User? && MayEnter(m, c, Trap(Timer))
    requires m.sys.cur[c].Some? && m.sys.envs[m.sys.cur[c].value].status != Dying
    requires e < |m.sys.envs| && m.sys.cur[c] != Some(e) && SchedPick(m.sys, c) == Take(e)
    ensures CanReach(m, m.(sys := EnvRun(m.sys, c, e)))
  {
    var m2 := Goto(m, c, Body(Trap(Timer))).(locked := true);
    var m3 := Goto(m, c, Yielding).(locked := true);
    EntryRun(m, c, Trap(Timer));
    OneStep(m2, c, Work(0));
    assert Step(m2, c, Work(0)) == m3;
    CanReachTrans(m, m2, m3);
    SwitchRun(m3, c, e);
    assert Goto(m3, c, User).(locked := false, sys := EnvRun(m.sys, c, e)) == m.(sys := EnvRun(m.sys, c, e));
    CanReachTrans(m, m3, m.(sys := EnvRun(m.sys, c, e)));
  }

  /** Two CPUs running environments 2 and 3; slots 0 and 1 are the idle environments. */
  function Pair(a: Status, b: Status): State {
    State(Sys([Env(Runnable, true, false), Env(Runnable, true, false), Env(a, false, false), Env(b, false, false)],
              [Some(2), Some(3)]), false, [User, User], 2)
  }

  lemma PairInv()
    ensures Inv(Pair(Running, Running))
  {}

  lemma PairSet(a: Status, b: Status, st: Status)
    ensures SetStatus(Pair(a, b).sys, 2, st) == Pair(st, b).sys
    ensures SetStatus(Pair(a, b).sys, 3, st) == Pair(a, st).sys
    ensures SysExofork(Pair(a, b).sys, 3) == Pair(a, NotRunnable).sys
  {}

  /** Environment 2 on CPU 0 makes a call that takes environment 3 from status b to b'. */
  lemma PairCall(b: Status, call: Call, b': Status)
    requires (call == DestroyEnv(3) && ((b == Running && b' == Dying) || (b == Dying && b' == Free)))
      || (call == Exofork && b == Free && b' == NotRunnable) || (call == SetEnvStatus(3, b') && b == NotRunnable)
    ensures CanReach(Pair(Running, b), Pair(Running, b'))
  {
    PairSet(Running, b, b');
    CallRun(Pair(Running, b), 0, call, 3, Pair(Running, b').sys);
  }

  /** An environment that sets its own status to RUNNABLE ends up current on both CPUs. */
  lemma SetStatusRunsTwice()
    ensures Inv(Pair(Running, Running))
    ensures exists m' :: CanReach(Pair(Running, Running), m') && !m'.locked && m'.sys.cur == [Some(2), Some(2)]
  {
    PairInv();
    PairSet(Running, Running, Runnable);
    var m, m1 := Pair(Running, Running), Pair(Runnable, Running);
    CallRun(m, 0, SetEnvStatus(2, Runnable), 0, m1.sys);
    PickTwo(m1);
    TimerRun(m1, 1, 2);
    CanReachTrans(m, m1, m1.(sys := EnvRun(m1.sys, 1, 2)));
  }

  lemma PickTwo(m: State)
    requires m == Pair(Runnable, Running)
    ensures SchedPick(m.sys, 1) == Take(2)
  {
    var p := SchedPick(m.sys, 1);
    assert Eligible(m.sys.envs[2]);
  }

  /** CPU 0 with environment cur0, CPU 1 with environment 3; `e` is environment 2. */
  function Trio(idle0: Status, e: Env, cur0: nat): State {
    State(Sys([Env(idle0, true, false), Env(Runnable, true, false), e, Env(Running, false, false)],
              [Some(cur0), Some(3)]), false, [User, User], 2)
  }

  lemma TrioInv()
    ensures Inv(Trio(Running, Env(NotRunnable, false, true), 0))
  {}

  lemma TrioPick(m: State, c: nat)
    requires (m == Trio(Running, Env(Runnable, false, true), 0) && c == 0)
      || (m == Trio(Runnable, Env(Runnable, false, false), 2) && c == 1)
    ensures SchedPick(m.sys, c) == Take(2)
  {
    assert Eligible(m.sys.envs[2]);
  }

  lemma TrioWakes()
    ensures CanReach(Trio(Running, Env(NotRunnable, false, true), 0), Trio(Running, Env(Runnable, false, true), 0))
  {
    var m, m' := Trio(Running, Env(NotRunnable, false, true), 0), Trio(Running, Env(Runnable, false, true), 0);
    assert SysEnvSetStatus(m.sys, 2, Runnable) == m'.sys;
    CallRun(m, 1, SetEnvStatus(2, Runnable), 0, m'.sys);
  }

  lemma TrioTakes()
    ensures CanReach(Trio(Running, Env(Runnable, false, true), 0), Trio(Runnable, Env(Running, false, true), 2))
  {
    var m, m' := Trio(Running, Env(Runnable, false, true), 0), Trio(Runnable, Env(Running, false, true), 2);
    TrioPick(m, 0);
    TimerRun(m, 0, 2);
    assert EnvRun(m.sys, 0, 2) == m'.sys;
  }

  lemma TrioDelivers()
    ensures CanReach(Trio(Runnable, Env(Running, false, true), 2), Trio(Runnable, Env(Runnable, false, false), 2))
  {
    var m, m' := Trio(Runnable, Env(Running, false, true), 2), Trio(Runnable, Env(Runnable, false, false), 2);
    assert SysIpcTrySend(m.sys, 2) == m'.sys;
    CallRun(m, 1, TrySend(2), 0, m'.sys);
  }

  lemma TrioTakesAgain() returns (m': State)
    ensures CanReach(Trio(Runnable, Env(Runnable, false, false), 2), m') && !m'.locked
    ensures m'.sys.cur == [Some(2), Some(2)]
  {
    var m := Trio(Runnable, Env(Runnable, false, false), 2);
    TrioPick(m, 1);
    TimerRun(m, 1, 2);
    m' := m.(sys := EnvRun(m.sys, 1, 2));
  }

  /** A receiver made RUNNABLE while it waits is scheduled on CPU 0; a message then makes it
      RUNNABLE where it runs, and CPU 1 takes it as well. */
  lemma WokenReceiverRunsTwice()
    ensures Inv(Trio(Running, Env(NotRunnable, false, true), 0))
    ensures exists m' ::
      CanReach(Trio(Running, Env(NotRunnable, false, true), 0), m') && !m'.locked && m'.sys.cur == [Some(2), Some(2)]
  {
    TrioInv();
    TrioWakes();
    TrioTakes();
    TrioDelivers();
    var m' := TrioTakesAgain();
    var m := Trio(Running, Env(NotRunnable, false, true), 0);
    CanReachTrans(m, Trio(Running, Env(Runnable, false, true), 0), Trio(Runnable, Env(Running, false, true), 2));
    CanReachTrans(m, Trio(Runnable, Env(Running, false, true), 2), Trio(Runnable, Env(Runnable, false, false), 2));
    CanReachTrans(m, Trio(Runnable, Env(Runnable, false, false), 2), m');
  }

  /** So does the slot of an environment destroyed twice by its parent while it runs on the other
      CPU: freed and handed out again by sys_exofork, it is then scheduled here as well. */
  lemma SecondDestroyRunsTwice()
    ensures exists m' :: CanReach(Pair(Running, Running), m') && !m'.locked && m'.sys.cur == [Some(3), Some(3)]
  {
    var m := Pair(Running, Running);
    PairCall(Running, DestroyEnv(3), Dying);
    PairCall(Dying, DestroyEnv(3), Free);
    PairCall(Free, Exofork, NotRunnable);
    PairCall(NotRunnable, SetEnvStatus(3, Runnable), Runnable);
    CanReachTrans(m, Pair(Running, Dying), Pair(Running, Free));
    CanReachTrans(m, Pair(Running, Free), Pair(Running, NotRunnable));
    CanReachTrans(m, Pair(Running, NotRunnable), Pair(Running, Runnable));
    var m' := PairSwitch();
    CanReachTrans(m, Pair(Running, Runnable), m');
  }

  lemma PairSwitch() returns (m': State)
    ensures CanReach(Pair(Running, Runnable), m') && !m'.locked && m'.sys.cur == [Some(3), Some(3)]
  {
    var m := Pair(Running, Runnable);
    PickThree(m);
    TimerRun(m, 0, 3);
    m' := m.(sys := EnvRun(m.sys, 0, 3));
  }

  lemma PickThree(m: State)
    requires m == Pair(Running, Runnable)
    ensures SchedPick(m.sys, 0) == Take(3)
  {
    assert Eligible(m.sys.envs[3]);
  }

  /** A zombie is collected when it traps; a system call collects it only if the call itself
      destroys it or declares it free. */
  lemma ZombieCollected(m: State, c: nat, slot: nat)
    requires Inv(m) && Enabled(m, c, Work(slot)) && m.pcs[c].Body? && m.sys.cur[c].Some?
    requires m.sys.envs[m.sys.cur[c].value].status == Dying
    ensures var me, req := m.sys.cur[c].value, m.pcs[c].req;
      Step(m, c, Work(slot)).sys.envs[me].status == Free <==>
        req.Trap? || req == Syscall(DestroyEnv(me)) || req == Syscall(SetEnvStatus(me, Free))
  {
    InvBody(m, c);
    InvServing(m, c);
  }

  lemma InvBody(m: State, c: nat)
    requires Inv(m) && c < |m.pcs| && m.pcs[c].Body? && m.sys.cur[c].Some?
    ensures !m.pcs[c].req.Boot?
  {
    assert PcOk(m, c);
  }
}