/**
Bounded waiting under sched_yield, on runs of the whole machine: each time a CPU yields, the
circular distance from its current environment to a waiting one shrinks, whatever the other
CPUs do in between.
*/
module RoundRobin {
  import opened Options
  import opened Scheduler
  import opened Machine

  /** The environment CPU c runs, or is about to switch to. */
  function Chosen(m: State, c: nat): Option<nat>
    requires Sized(m) && c < |m.pcs|
  {
    if m.pcs[c].Switch? then Some(m.pcs[c].e) else m.sys.cur[c]
  }

  /** x is runnable, and CPU c has a current environment. */
  ghost predicate Ready(m: State, c: nat, x: nat) {
    && Sized(m) && c < |m.pcs| && x < |m.sys.envs| && Eligible(m.sys.envs[x])
    && Chosen(m, c).Some? && Chosen(m, c).value < |m.sys.envs|
  }

  /** Slots to pass from the one after the chosen environment to x. */
  function Distance(m: State, c: nat, x: nat): (d: nat)
    requires Ready(m, c, x)
    ensures d < |m.sys.envs|
  {
    Ahead(After1(Chosen(m, c).value, |m.sys.envs|), x, |m.sys.envs|)
  }

  predicate Yields(m: State, c: nat, actor: nat, a: Action) {
    actor == c && a.Work? && c < |m.pcs| && m.pcs[c].Yielding?
  }

  lemma AheadStep(start: nat, p: nat, x: nat, n: nat)
    requires start < n && p < n && x < n && Ahead(start, p, n) < Ahead(start, x, n)
    ensures Ahead(After1(p, n), x, n) == Ahead(start, x, n) - Ahead(start, p, n) - 1
  {}

  /** A yield that does not pick x brings the CPU closer to x. */
  lemma YieldCloser(m: State, c: nat, x: nat, slot: nat)
    requires Ready(m, c, x) && m.pcs[c].Yielding? && Enabled(m, c, Work(slot))
    requires var m' := Step(m, c, Work(slot)); Ready(m', c, x) && m'.pcs[c] != Switch(x)
    ensures Distance(Step(m, c, Work(slot)), c, x) < Distance(m, c, x)
  {
    var n := |m.sys.envs|;
    var start := StartSlot(m.sys.cur[c], n);
    var p := SchedPick(m.sys, c);
    assert p.Take? && p.e != x;
    if Ahead(start, p.e, n) == Ahead(start, x, n) { AheadInjective(start, p.e, x, n); }
    AheadStep(start, p.e, x, n);
  }

  /** Nothing else moves it. */
  lemma OtherStepSame(m: State, c: nat, x: nat, actor: nat, a: Action)
    requires Ready(m, c, x) && Enabled(m, actor, a) && !Yields(m, c, actor, a) && Ready(Step(m, actor, a), c, x)
    ensures Chosen(Step(m, actor, a), c) == Chosen(m, c)
  {
    if actor == c && a.Work? && m.pcs[c].Body? {
      BodySame(m, c, a.slot);
    }
  }

  lemma BodySame(m: State, c: nat, slot: nat)
    requires Sized(m) && Enabled(m, c, Work(slot)) && m.pcs[c].Body? && m.sys.cur[c].Some?
    ensures Chosen(Step(m, c, Work(slot)), c) in {None, m.sys.cur[c]}
  {}

  lemma StepDistance(m: State, c: nat, x: nat, actor: nat, a: Action)
    requires Ready(m, c, x) && Enabled(m, actor, a)
    requires var m' := Step(m, actor, a); Ready(m', c, x) && m'.pcs[c] != Switch(x)
    ensures Distance(Step(m, actor, a), c, x) + (if Yields(m, c, actor, a) then 1 else 0) <= Distance(m, c, x)
  {
    if Yields(m, c, actor, a) {
      YieldCloser(m, c, x, a.slot);
    } else {
      OtherStepSame(m, c, x, actor, a);
    }
  }

  /** x stays runnable and the CPU keeps a current environment in every state of the run. */
  ghost predicate StaysReady(m: State, c: nat, x: nat, run: seq<(nat, Action)>)
    decreases |run|
  {
    Ready(m, c, x) &&
    (run != [] ==> Enabled(m, run[0].0, run[0].1) && StaysReady(Step(m, run[0].0, run[0].1), c, x, run[1..]))
  }

  /** CPU c picks x somewhere in the run. */
  ghost predicate Picks(m: State, c: nat, x: nat, run: seq<(nat, Action)>)
    requires StaysReady(m, c, x, run)
    decreases |run|
  {
    m.pcs[c] == Switch(x) || (run != [] && Picks(Step(m, run[0].0, run[0].1), c, x, run[1..]))
  }

  ghost function CountYields(m: State, c: nat, x: nat, run: seq<(nat, Action)>): nat
    requires StaysReady(m, c, x, run)
    decreases |run|
  {
    if run == [] then 0
    else (if Yields(m, c, run[0].0, run[0].1) then 1 else 0) + CountYields(Step(m, run[0].0, run[0].1), c, x, run[1..])
  }

  lemma {:induction false} YieldsBounded(m: State, c: nat, x: nat, run: seq<(nat, Action)>)
    requires StaysReady(m, c, x, run) && !Picks(m, c, x, run)
    ensures CountYields(m, c, x, run) <= Distance(m, c, x)
    decreases |run|
  {
    if run != [] {
      var actor, a := run[0].0, run[0].1;
      assert !Picks(Step(m, actor, a), c, x, run[1..]);
      YieldsBounded(Step(m, actor, a), c, x, run[1..]);
      StepDistance(m, c, x, actor, a);
    }
  }

  /** No CPU has a RUNNABLE environment as its current one, so the distance starts below its
      maximum. */
  lemma DistanceStart(m: State, c: nat, x: nat)
    requires Inv(m) && Ready(m, c, x) && m.pcs[c] != Switch(x)
    ensures Distance(m, c, x) <= |m.sys.envs| - 2
  {
    assert PcOk(m, c);
    AheadBelow(Chosen(m, c).value, x, |m.sys.envs|);
  }

  lemma AheadBelow(e: nat, x: nat, n: nat)
    requires e < n && x < n && e != x
    ensures Ahead(After1(e, n), x, n) <= n - 2
  {}

  /** An environment that stays RUNNABLE is picked within NENV - 1 yields of any one CPU whose
      current environment never becomes NULL. */
  lemma BoundedWaiting(m: State, c: nat, x: nat, run: seq<(nat, Action)>)
    requires Inv(m) && StaysReady(m, c, x, run)
    requires CountYields(m, c, x, run) >= |m.sys.envs| - 1
    ensures Picks(m, c, x, run)
  {
    if !Picks(m, c, x, run) {
      DistanceStart(m, c, x);
      YieldsBounded(m, c, x, run);
    }
  }

  /** An environment that was running when its CPU switched to another is in the race again, on that
      CPU and, being runnable, on any that keeps a current environment. */
  lemma PreemptedReady(m: State, c: nat, slot: nat, x: nat)
    requires Inv(m) && Enabled(m, c, Work(slot)) && m.pcs[c].Switch? && m.pcs[c].e != x
    requires m.sys.cur[c] == Some(x) && x < |m.sys.envs| && !m.sys.envs[x].idle && m.sys.envs[x].status == Running
    ensures Inv(Step(m, c, Work(slot))) && Ready(Step(m, c, Work(slot)), c, x)
  {
    SwitchKeeps(m, c, slot);
    SwitchLosesNobody(m, c, slot, x);
  }

  /** So it gets a CPU back within NENV - 1 yields, as long as it is not stopped meanwhile. */
  lemma PreemptedComesBack(m: State, c: nat, slot: nat, x: nat, d: nat, run: seq<(nat, Action)>)
    requires Inv(m) && Enabled(m, c, Work(slot)) && m.pcs[c].Switch? && m.pcs[c].e != x
    requires m.sys.cur[c] == Some(x) && x < |m.sys.envs| && !m.sys.envs[x].idle && m.sys.envs[x].status == Running
    requires StaysReady(Step(m, c, Work(slot)), d, x, run)
    requires CountYields(Step(m, c, Work(slot)), d, x, run) >= |m.sys.envs| - 1
    ensures Picks(Step(m, c, Work(slot)), d, x, run)
  {
    PreemptedReady(m, c, slot, x);
    BoundedWaiting(Step(m, c, Work(slot)), d, x, run);
  }
}
