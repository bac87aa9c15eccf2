/**
trap() of kern/trap.c and syscall_dummy() of kern/syscall.c as they run on the kernel's tables,
from the moment the lock is held until a CPU is back in user mode or has given up. They do what
the locked steps of module Machine do one after the other.
*/
module KernelEntry {
  import opened Options
  import opened Scheduler
  import opened Machine

  /** sched_yield, with the switch. */
  function Yielded(s: Sys, c: nat): (Sys, Pc)
    requires InBounds(s) && c < |s.cur| && c < |s.envs|
  {
    var p := SchedPick(s, c);
    if p.Take? then (EnvRun(s, c, p.e), User) else (s, Picked(p))
  }

  /** Everything from the lock to the return to user mode. */
  function Entered(s: Sys, c: nat, req: Request, slot: nat): (Sys, Pc)
    requires InBounds(s) && c < |s.cur| && c < |s.envs| && (req.Boot? || s.cur[c].Some?)
    requires InTable(req, |s.envs|) && (Forks(req) ==> slot < |s.envs|)
  {
    var (t, pc) := Served(s, c, req, slot);
    Rest(t, c, pc)
  }

  /** What follows the service of the request. */
  function Rest(s: Sys, c: nat, pc: Pc): (Sys, Pc)
    requires InBounds(s) && c < |s.cur| && c < |s.envs| && (pc.Switch? ==> pc.e < |s.envs|)
  {
    if pc.Switch? then (EnvRun(s, c, pc.e), User) else Yielded(s, c)
  }

  /** A served request leaves the tables in bounds, and resumes the environment that made it. */
  lemma ServedShape(s: Sys, c: nat, req: Request, slot: nat)
    requires InBounds(s) && c < |s.cur| && (req.Boot? || s.cur[c].Some?)
    requires InTable(req, |s.envs|) && (Forks(req) ==> slot < |s.envs|)
    ensures var (t, pc) := Served(s, c, req, slot);
      && InBounds(t) && |t.cur| == |s.cur| && |t.envs| == |s.envs|
      && (pc == Yielding || (pc.Switch? && Some(pc.e) == s.cur[c]))
  {}

  /** The locked steps of CPU c in a row. */
  function Locked(c: nat, slot: nat, n: nat): seq<(nat, Action)> { seq(n, i => (c, Work(slot))) }

  lemma WorkStep(m: State, c: nat, slot: nat, n: nat, m': State)
    requires Sized(m) && Enabled(m, c, Work(slot)) && Reaches(Step(m, c, Work(slot)), Locked(c, slot, n), m')
    ensures Reaches(m, Locked(c, slot, n + 1), m')
  {
    assert Locked(c, slot, n + 1)[1..] == Locked(c, slot, n);
  }

  /** From an environment chosen to user mode. */
  lemma SwitchSteps(m: State, c: nat, slot: nat)
    requires Sized(m) && c < |m.pcs| && m.pcs[c].Switch? && m.pcs[c].e < |m.sys.envs|
    ensures Reaches(m, Locked(c, slot, 2), Goto(m, c, User).(sys := EnvRun(m.sys, c, m.pcs[c].e), locked := false))
  {
    var e := m.pcs[c].e;
    var m1 := Goto(m, c, Leaving).(sys := EnvRun(m.sys, c, e));
    var m2 := Goto(m, c, User).(sys := EnvRun(m.sys, c, e), locked := false);
    assert Step(m, c, Work(slot)) == m1;
    assert Step(m1, c, Work(slot)) == m2;
    assert Reaches(m2, Locked(c, slot, 0), m2);
    WorkStep(m1, c, slot, 0, m2);
    WorkStep(m, c, slot, 1, m2);
  }

  lemma YieldSteps(m: State, c: nat, slot: nat) returns (n: nat)
    requires Sized(m) && c < |m.pcs| && m.pcs[c].Yielding?
    ensures var (t, pc) := Yielded(m.sys, c);
      Reaches(m, Locked(c, slot, n), Goto(m, c, pc).(sys := t, locked := if pc.User? then false else m.locked))
  {
    var p := SchedPick(m.sys, c);
    var m1 := Goto(m, c, Picked(p));
    assert Step(m, c, Work(slot)) == m1;
    if p.Take? {
      SwitchSteps(m1, c, slot);
      n := 3;
      assert Goto(m1, c, User).(sys := EnvRun(m.sys, c, p.e), locked := false)
        == Goto(m, c, User).(sys := EnvRun(m.sys, c, p.e), locked := false);
      WorkStep(m, c, slot, 2, Goto(m, c, User).(sys := EnvRun(m.sys, c, p.e), locked := false));
    } else {
      n := 1;
      assert Reaches(m1, Locked(c, slot, 0), m1);
      WorkStep(m, c, slot, 0, m1);
    }
  }

  ghost predicate RestReached(m: State, c: nat, steps: seq<(nat, Action)>, t: Sys, pc: Pc)
    requires c < |m.pcs|
  {
    Reaches(m, steps, Goto(m, c, pc).(sys := t, locked := if pc.User? then false else m.locked))
  }

  lemma RestSteps(m: State, c: nat, slot: nat) returns (n: nat)
    requires Sized(m) && c < |m.pcs| && (m.pcs[c].Yielding? || (m.pcs[c].Switch? && m.pcs[c].e < |m.sys.envs|))
    ensures var (t, pc) := Rest(m.sys, c, m.pcs[c]); RestReached(m, c, Locked(c, slot, n), t, pc)
  {
    if m.pcs[c].Switch? {
      SwitchSteps(m, c, slot);
      n := 2;
    } else {
      n := YieldSteps(m, c, slot);
    }
  }

  /** What trap() and syscall_dummy() do in one go is what the machine does in steps. */
  lemma EnteredIsRun(m: State, c: nat, slot: nat) returns (n: nat)
    requires Sized(m) && Enabled(m, c, Work(slot)) && m.pcs[c].Body?
    ensures var (t, pc) := Entered(m.sys, c, m.pcs[c].req, slot); RestReached(m, c, Locked(c, slot, n), t, pc)
  {
    var (s, pc) := Served(m.sys, c, m.pcs[c].req, slot);
    var m1 := Goto(m, c, pc).(sys := s);
    ServedShape(m.sys, c, m.pcs[c].req, slot);
    assert Step(m, c, Work(slot)) == m1;
    n := RestSteps(m1, c, slot);
    var (t, out) := Rest(s, c, pc);
    assert Goto(m1, c, out).(sys := t, locked := if out.User? then false else m.locked)
      == Goto(m, c, out).(sys := t, locked := if out.User? then false else m.locked);
    WorkStep(m, c, slot, n, Goto(m, c, out).(sys := t, locked := if out.User? then false else m.locked));
    n := n + 1;
  }

  // ---------------------------------------------------------------- as they run

  /** sched_yield: in user mode afterwards, or stuck. */
  method Sched(k: Kernel, c: nat) returns (pc: Pc)
    requires k.Valid() && c < k.cur.Length && c < k.envs.Length
    modifies k.envs, k.cur
    ensures k.Valid() && (k.Value(), pc) == Yielded(old(k.Value()), c)
  {
    ghost var s := k.Value();
    var p := k.SchedYield(c);
    PickUnique(s, c, p, SchedPick(s, c));
    pc := if p.Take? then User else Picked(p);
  }

  method Trap(k: Kernel, c: nat, kind: Kind, slot: nat) returns (pc: Pc)
    requires k.Valid() && c < k.cur.Length && c < k.envs.Length && k.cur[c].Some?
    requires (kind.Fork? ==> slot < k.envs.Length)
    modifies k.envs, k.cur
    ensures k.Valid() && (k.Value(), pc) == Entered(old(k.Value()), c, Request.Trap(kind), slot)
  {
    ghost var s := k.Value();
    ServedShape(s, c, Request.Trap(kind), slot);
    var me := k.cur[c].value;
    if k.envs[me].status == Dying {
      k.envs[me] := k.envs[me].(status := Free);
      k.cur[c] := None;
      assert k.Value() == SetCur(SetStatus(s, me, Free), c, None);
      pc := Sched(k, c);
      return;
    }
    match kind {
      case Timer =>
        pc := Sched(k, c);
        return;
      case Handled =>
        k.RunEnv(c, me);
        return User;
      case Fatal =>
        var next := k.Destroy(c, me);
        pc := Sched(k, c);
        return;
      case Fork => k.envs[slot] := Env(NotRunnable, false, false);
      case Spurious =>
    }
    assert k.Value() == Trapped(s, c, kind, slot).0;
    if k.cur[c].Some? && k.envs[k.cur[c].value].status == Running {
      k.RunEnv(c, me);
      return User;
    }
    pc := Sched(k, c);
  }

  method SyscallDummy(k: Kernel, c: nat, call: Call, slot: nat) returns (pc: Pc)
    requires k.Valid() && c < k.cur.Length && c < k.envs.Length && k.cur[c].Some?
    requires InTable(Syscall(call), k.envs.Length) && (call.Exofork? ==> slot < k.envs.Length)
    modifies k.envs, k.cur
    ensures k.Valid() && (k.Value(), pc) == Entered(old(k.Value()), c, Syscall(call), slot)
  {
    ghost var s := k.Value();
    ServedShape(s, c, Syscall(call), slot);
    var me := k.cur[c].value;
    match call {
      case Plain =>
      case Yield =>
        pc := Sched(k, c);
        return;
      case DestroyEnv(t) =>
        if k.envs[t].status != Free && !k.envs[t].idle {
          var next := k.Destroy(c, t);
          if next.Reschedule? {
            pc := Sched(k, c);
            return;
          }
        }
      case SetEnvStatus(t, st) =>
        if k.envs[t].status != Free && !k.envs[t].idle {
          k.envs[t] := k.envs[t].(status := st);
        }
      case Recv =>
        k.envs[me] := k.envs[me].(recving := true);
        k.envs[me] := k.envs[me].(status := NotRunnable);
        assert k.Value() == SysIpcRecv(s, me);
        pc := Sched(k, c);
        return;
      case TrySend(t) =>
        if k.envs[t].status != Free && k.envs[t].recving {
          k.envs[t] := k.envs[t].(recving := false);
          k.envs[t] := k.envs[t].(status := Runnable);
        }
      case Exofork => k.envs[slot] := Env(NotRunnable, false, false);
    }
    assert k.Value() == Called(s, c, call, slot).0;
    k.RunEnv(c, me);
    return User;
  }
}
