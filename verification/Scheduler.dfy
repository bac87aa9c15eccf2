/**
The locked kernel operations on environments: env_run, env_free, env_destroy (kern/env.c),
sched_yield (kern/sched.c) and the system calls of kern/syscall.c that change a status.
The functions say what each does to the environment table and the per-CPU curenv; the class
runs them step by step.
*/
module Scheduler {
  import opened Options

  /** env_status. Other is any value outside the enumeration, which sys_env_set_status lets in. */
  datatype Status = Free | Dying | Runnable | Running | NotRunnable | Other

  datatype Env = Env(status: Status, idle: bool, recving: bool)

  /** envs[] and each CPU's curenv (None for NULL). */
  datatype Sys = Sys(envs: seq<Env>, cur: seq<Option<nat>>)

  predicate InBounds(s: Sys) {
    forall c :: 0 <= c < |s.cur| && s.cur[c].Some? ==> s.cur[c].value < |s.envs|
  }

  function SetStatus(s: Sys, e: nat, st: Status): Sys
    requires e < |s.envs|
  {
    s.(envs := s.envs[e := s.envs[e].(status := st)])
  }

  function SetCur(s: Sys, c: nat, e: Option<nat>): Sys
    requires c < |s.cur|
  {
    s.(cur := s.cur[c := e])
  }

  /** env_run up to the point where it releases the lock. */
  function EnvRun(s: Sys, c: nat, e: nat): Sys
    requires InBounds(s) && c < |s.cur| && e < |s.envs|
  {
    if s.cur[c] == Some(e) then s
    else if s.cur[c].Some? && s.envs[s.cur[c].value].status == Running then
      SetStatus(SetCur(SetStatus(s, s.cur[c].value, Runnable), c, Some(e)), e, Running)
    else SetStatus(SetCur(s, c, Some(e)), e, Running)
  }

  /** May use a CPU: running on one or waiting for one. */
  predicate Active(st: Status) { st == Runnable || st == Running }

  /** Environment i of t is that of s but for its status. */
  predicate SameButStatus(s: Sys, t: Sys, i: nat)
    requires i < |s.envs| == |t.envs|
  {
    t.envs[i].idle == s.envs[i].idle && t.envs[i].recving == s.envs[i].recving
  }

  /** env_run puts e on the CPU, RUNNING, and takes nobody else's place in the table away: an
      environment that was running here waits for its turn again, and all others stay as they are. */
  lemma EnvRunEffect(s: Sys, c: nat, e: nat)
    requires InBounds(s) && c < |s.cur| && e < |s.envs|
    ensures var t := EnvRun(s, c, e);
      && |t.envs| == |s.envs| && t.cur == s.cur[c := Some(e)]
      && (forall i :: 0 <= i < |s.envs| ==> SameButStatus(s, t, i))
      && (s.cur[c] != Some(e) ==> t.envs[e].status == Running)
      && (s.cur[c] == Some(e) ==> t.envs == s.envs)
      && (forall i :: 0 <= i < |s.envs| && i != e ==> (Active(t.envs[i].status) <==> Active(s.envs[i].status)))
      && (forall i :: 0 <= i < |s.envs| && i != e && s.cur[c] != Some(i) ==> t.envs[i] == s.envs[i])
      && (s.cur[c].Some? && s.cur[c].value != e ==>
            var o := s.cur[c].value;
            t.envs[o].status == if s.envs[o].status == Running then Runnable else s.envs[o].status)
  {
    assert s.cur[c] == Some(e) ==> s.cur[c := Some(e)] == s.cur;
  }

  /** What a system call or trap does next: resume the current environment or sched_yield. */
  datatype After = Resume | Reschedule

  /** envid2env with permission check turns these away: a free slot, and the idle environments,
      whose parent id 0 is nobody's id. */
  predicate Denied(s: Sys, t: nat)
    requires t < |s.envs|
  {
    s.envs[t].status == Free || s.envs[t].idle
  }

  /** env_destroy called by CPU c. */
  function EnvDestroy(s: Sys, c: nat, t: nat): (Sys, After)
    requires c < |s.cur| && t < |s.envs|
  {
    if s.envs[t].status == Running && s.cur[c] != Some(t) then (SetStatus(s, t, Dying), Resume)
    else if s.cur[c] == Some(t) then (SetCur(SetStatus(s, t, Free), c, None), Reschedule)
    else (SetStatus(s, t, Free), Resume)
  }

  function SysEnvDestroy(s: Sys, c: nat, t: nat): (Sys, After)
    requires c < |s.cur| && t < |s.envs|
  {
    if Denied(s, t) then (s, Resume) else EnvDestroy(s, c, t)
  }

  function SysEnvSetStatus(s: Sys, t: nat, st: Status): Sys
    requires t < |s.envs|
  {
    if Denied(s, t) then s else SetStatus(s, t, st)
  }

  /** sys_ipc_recv before it yields. */
  function SysIpcRecv(s: Sys, me: nat): Sys
    requires me < |s.envs|
  {
    s.(envs := s.envs[me := s.envs[me].(recving := true, status := NotRunnable)])
  }

  /** The effect of sys_ipc_try_send on the target's status. */
  function SysIpcTrySend(s: Sys, t: nat): Sys
    requires t < |s.envs|
  {
    if s.envs[t].status == Free || !s.envs[t].recving then s
    else s.(envs := s.envs[t := s.envs[t].(recving := false, status := Runnable)])
  }

  /** sys_exofork filling a free slot. */
  function SysExofork(s: Sys, slot: nat): Sys
    requires slot < |s.envs|
  {
    s.(envs := s.envs[slot := Env(NotRunnable, false, false)])
  }

  // ---------------------------------------------------------------- sched_yield

  predicate Eligible(e: Env) { !e.idle && e.status == Runnable }

  predicate Busy(e: Env) { !e.idle && (e.status == Runnable || e.status == Running) }

  /** The slot after i, circularly. */
  function After1(i: nat, n: nat): (r: nat)
    requires i < n
    ensures r < n
  {
    if i + 1 == n then 0 else i + 1
  }

  /** Where the search starts. */
  function StartSlot(cur: Option<nat>, n: nat): (r: nat)
    requires n > 0 && (cur.Some? ==> cur.value < n)
    ensures r < n
  {
    if cur.None? then 0 else After1(cur.value, n)
  }

  /** How many slots ahead of `from` slot x lies, circularly. */
  function Ahead(from: nat, x: nat, n: nat): (d: nat)
    requires from < n && x < n
    ensures d < n
  {
    if x >= from then x - from else x + n - from
  }

  datatype Pick = Take(e: nat) | Monitor | NoIdle

  ghost predicate NoneEligible(envs: seq<Env>) { forall i :: 0 <= i < |envs| ==> !Eligible(envs[i]) }

  predicate AnyBusy(envs: seq<Env>) { exists i :: 0 <= i < |envs| && Busy(envs[i]) }

  /** What sched_yield may choose on CPU c: the circularly first runnable environment after the
      current one; failing that the current one if still running; failing that this CPU's idle
      environment, or the monitor for good when no other environment is left. */
  ghost predicate IsPick(s: Sys, c: nat, p: Pick)
    requires InBounds(s) && c < |s.cur| && c < |s.envs|
  {
    var start := StartSlot(s.cur[c], |s.envs|);
    if !NoneEligible(s.envs) then
      p.Take? && p.e < |s.envs| && Eligible(s.envs[p.e])
      && forall x :: 0 <= x < |s.envs| && Eligible(s.envs[x]) ==>
           Ahead(start, p.e, |s.envs|) <= Ahead(start, x, |s.envs|)
    else if s.cur[c].Some? && s.envs[s.cur[c].value].status == Running then p == Take(s.cur[c].value)
    else if !AnyBusy(s.envs) then p == Monitor
    else if s.envs[c].status == Runnable || s.envs[c].status == Running then p == Take(c)
    else p == NoIdle
  }

  lemma AheadInjective(from: nat, x: nat, y: nat, n: nat)
    requires from < n && x < n && y < n && Ahead(from, x, n) == Ahead(from, y, n)
    ensures x == y
  {}

  /** The choice is unique. */
  lemma PickUnique(s: Sys, c: nat, p: Pick, q: Pick)
    requires InBounds(s) && c < |s.cur| && c < |s.envs| && IsPick(s, c, p) && IsPick(s, c, q)
    ensures p == q
  {
    if !NoneEligible(s.envs) {
      AheadInjective(StartSlot(s.cur[c], |s.envs|), p.e, q.e, |s.envs|);
    }
  }

  /** The search of sched_yield from slot i, having passed n slots. */
  function Search(envs: seq<Env>, start: nat, i: nat): (r: Option<nat>)
    requires start < |envs| && i < |envs|
    ensures r.Some? ==>
      r.value < |envs| && Eligible(envs[r.value]) && Ahead(start, i, |envs|) <= Ahead(start, r.value, |envs|)
    ensures forall x :: 0 <= x < |envs| && Ahead(start, i, |envs|) <= Ahead(start, x, |envs|) && Eligible(envs[x]) ==>
      r.Some? && Ahead(start, r.value, |envs|) <= Ahead(start, x, |envs|)
    decreases |envs| - Ahead(start, i, |envs|)
  {
    if Eligible(envs[i]) then Some(i)
    else if After1(i, |envs|) == start then
      LastSlot(start, i, |envs|);
      None
    else Search(envs, start, After1(i, |envs|))
  }

  lemma LastSlot(start: nat, i: nat, n: nat)
    requires start < n && i < n && After1(i, n) == start
    ensures Ahead(start, i, n) == n - 1
  {}

  function SchedPick(s: Sys, c: nat): (p: Pick)
    requires InBounds(s) && c < |s.cur| && c < |s.envs|
    ensures IsPick(s, c, p)
  {
    var start := StartSlot(s.cur[c], |s.envs|);
    var r := Search(s.envs, start, start);
    if r.Some? then Take(r.value)
    else if s.cur[c].Some? && s.envs[s.cur[c].value].status == Running then Take(s.cur[c].value)
    else if !AnyBusy(s.envs) then Monitor
    else if s.envs[c].status == Runnable || s.envs[c].status == Running then Take(c)
    else NoIdle
  }

  // ---------------------------------------------------------------- step by step

  /** The kernel data these operations assign to. `panicked` and `monitoring` are the two ways
      in which sched_yield gives up. */
  class Kernel {
    var envs: array<Env>
    var cur: array<Option<nat>>

    constructor (envs: array<Env>, cur: array<Option<nat>>)
      ensures this.envs == envs && this.cur == cur
    {
      this.envs, this.cur := envs, cur;
    }

    ghost predicate Valid()
      reads this, envs, cur
    {
      InBounds(Value())
    }

    ghost function Value(): Sys
      reads this, envs, cur
    {
      Sys(envs[..], cur[..])
    }

    method RunEnv(c: nat, e: nat)
      requires Valid() && c < cur.Length && e < envs.Length
      modifies envs, cur
      ensures Valid() && Value() == EnvRun(old(Value()), c, e)
    {
      if cur[c] != Some(e) {
        if cur[c].Some? && envs[cur[c].value].status == Running {
          envs[cur[c].value] := envs[cur[c].value].(status := Runnable);
        }
        cur[c] := Some(e);
        envs[e] := envs[e].(status := Running);
      }
      assert Value().envs == EnvRun(old(Value()), c, e).envs;
      assert Value().cur == EnvRun(old(Value()), c, e).cur;
    }

    method Destroy(c: nat, t: nat) returns (next: After)
      requires Valid() && c < cur.Length && t < envs.Length
      modifies envs, cur
      ensures Valid() && (Value(), next) == EnvDestroy(old(Value()), c, t)
    {
      if envs[t].status == Running && cur[c] != Some(t) {
        envs[t] := envs[t].(status := Dying);
        return Resume;
      }
      envs[t] := envs[t].(status := Free);
      next := Resume;
      if cur[c] == Some(t) {
        cur[c] := None;
        next := Reschedule;
      }
    }

    /** The do-while scan: one full turn around the table from `start`. */
    method SearchRunnable(start: nat) returns (found: Option<nat>)
      requires start < envs.Length
      ensures found == Search(envs[..], start, start)
    {
      var i: nat := start;
      var first := true;
      ghost var passed := 0;
      while first || i != start
        invariant i < envs.Length && 0 <= passed <= envs.Length && first == (passed == 0)
        invariant if first then i == start
                  else passed == if i == start then envs.Length else Ahead(start, i, envs.Length)
        invariant Search(envs[..], start, start) == if i == start && !first then None else Search(envs[..], start, i)
        decreases envs.Length - passed
      {
        if !envs[i].idle && envs[i].status == Runnable {
          return Some(i);
        }
        i := i + 1;
        if i == envs.Length { i := 0; }
        first, passed := false, passed + 1;
      }
      found := None;
    }

    method AnyLeft() returns (b: bool)
      ensures b == AnyBusy(envs[..])
    {
      var i := 0;
      while i < envs.Length
        invariant i <= envs.Length && forall x :: 0 <= x < i ==> !Busy(envs[x])
      {
        if !envs[i].idle && (envs[i].status == Runnable || envs[i].status == Running) {
          assert Busy(envs[..][i]);
          return true;
        }
        i := i + 1;
      }
      b := false;
    }

    /** sched_yield up to its call of env_run. */
    method Choose(c: nat) returns (p: Pick)
      requires Valid() && c < cur.Length && c < envs.Length
      ensures p == SchedPick(Value(), c)
    {
      var start: nat := 0;
      if cur[c].Some? {
        start := cur[c].value + 1;
        if start == envs.Length { start := 0; }
      }
      var found := SearchRunnable(start);
      if found.Some? {
        return Take(found.value);
      }
      if cur[c].Some? {
        if envs[cur[c].value].status == Running {
          return Take(cur[c].value);
        }
      }
      var left := AnyLeft();
      if !left {
        return Monitor;
      }
      if envs[c].status == Runnable || envs[c].status == Running {
        return Take(c);
      }
      return NoIdle;
    }

    /** sched_yield: the switch is to the environment IsPick describes. */
    method SchedYield(c: nat) returns (p: Pick)
      requires Valid() && c < cur.Length && c < envs.Length
      modifies envs, cur
      ensures Valid() && IsPick(old(Value()), c, p)
      ensures p.Take? ==> p.e < envs.Length && Value() == EnvRun(old(Value()), c, p.e)
      ensures !p.Take? ==> Value() == old(Value())
    {
      p := Choose(c);
      if p.Take? {
        RunEnv(c, p.e);
      }
    }
  }
}
