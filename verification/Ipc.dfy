/**
Message passing: sys_ipc_recv and sys_ipc_try_send of kern/syscall.c with the library calls
ipc_recv and ipc_send of lib/ipc.c around them, for sends that carry a value and no page. A
receiver reads its mailbox in user mode, one field at a time, so other environments may act
between the reads. Every list of steps is a schedule.
*/
module Ipc {
  import opened Layout

  datatype Msg = Msg(value: int, from: nat, perm: nat)

  /** Where an environment is in the library: elsewhere, blocked in sys_ipc_recv, back from it
      and reading env_ipc_from, env_ipc_perm and env_ipc_value in turn, or in ipc_send's loop. */
  datatype Place =
    | Quiet
    | Waiting
    | ReadFrom
    | ReadPerm(f: nat)
    | ReadValue(f: nat, p: nat)
    | Sending(to: nat, v: int, sperm: nat)

  /** An environment's ipc fields. `wants` is env_ipc_dstva < UTOP; `from` is 0 for none. */
  datatype Env = Env(alive: bool, runnable: bool, recving: bool, wants: bool, from: nat, value: int, perm: nat,
                     at: Place)

  /** ids are the environment ids of the slots; `sent` and `got` are the history: for each
      environment the messages successfully sent to it, and those its ipc_recv calls returned. */
  datatype State = State(envs: seq<Env>, ids: seq<nat>, sent: seq<seq<Msg>>, got: seq<seq<Msg>>)

  predicate Sized(s: State) {
    && |s.ids| == |s.sent| == |s.got| == |s.envs|
    && forall e :: 0 <= e < |s.ids| ==> s.ids[e] > 0
  }

  // ---------------------------------------------------------------- the system calls

  /** sys_ipc_recv up to its sched_yield. */
  function Receiving(e: Env, wants: bool): Env {
    e.(recving := true, wants := wants, from := 0, runnable := false)
  }

  predicate Accepts(t: Env) { t.alive && t.from == 0 && t.recving }

  /** sys_ipc_try_send's stores into the target. */
  function Delivered(t: Env, from: nat, value: int, perm: nat): Env {
    t.(recving := false, from := from, value := value, perm := if t.wants then perm else 0, runnable := true)
  }

  /** What a send meets on the source page's side: the word *pte reads (its entry; without a page
      table pte is unset, and the word is any), and what sys_page_map into the receiver returns. */
  datatype Source = Source(word: nat, mapped: int)

  /** The error of sys_ipc_try_send, in the order of its checks, or 0. */
  function SendError(t: Env, srcva: nat, perm: nat, src: Source): int {
    if !t.alive then -E_BAD_ENV
    else if !Accepts(t) then -E_IPC_NOT_RECV
    else if srcva >= UTOP then 0
    else if srcva % PGSIZE != 0 || !HasU(perm) || !HasP(perm) || !OnlySyscallBits(perm) then -E_INVAL
    else if HasW(perm) && !HasW(src.word) then -E_INVAL
    else if t.wants && src.mapped < 0 then src.mapped else 0
  }

  /** The arguments that name a page are in order, and the source may be shared with these rights. */
  predicate PageFits(srcva: nat, perm: nat, word: nat) {
    srcva % PGSIZE == 0 && HasU(perm) && HasP(perm) && OnlySyscallBits(perm) && (HasW(perm) ==> HasW(word))
  }

  /** Which error belongs to which input. ipc_send tries again on -E_IPC_NOT_RECV, which means that the
      target is there and does not wait, and nothing else. */
  lemma SendErrorExact(t: Env, srcva: nat, perm: nat, src: Source)
    requires src.mapped in {0, -E_INVAL, -E_BAD_ENV, -E_NO_MEM}
    ensures var r := SendError(t, srcva, perm, src);
      var mapping := Accepts(t) && srcva < UTOP && PageFits(srcva, perm, src.word) && t.wants;
      && (r == -E_IPC_NOT_RECV <==> t.alive && (t.from != 0 || !t.recving))
      && (r == -E_BAD_ENV <==> !t.alive || (mapping && src.mapped == -E_BAD_ENV))
      && (r == -E_NO_MEM <==> mapping && src.mapped == -E_NO_MEM)
      && (r == -E_INVAL <==>
            Accepts(t) && srcva < UTOP && (!PageFits(srcva, perm, src.word) || (t.wants && src.mapped == -E_INVAL)))
      && (r == 0 <==> Accepts(t) && (srcva < UTOP ==> PageFits(srcva, perm, src.word) && (t.wants ==> src.mapped == 0)))
  {}

  // ---------------------------------------------------------------- steps

  datatype Step =
    | CallRecv(e: nat, wants: bool)
    | CallSend(e: nat, to: nat, value: int, perm: nat)
    | Try(e: nat)            // sys_ipc_try_send; on -E_IPC_NOT_RECV ipc_send yields and tries again
    | Resume(e: nat)         // sys_ipc_recv returns
    | Read(e: nat)           // one of ipc_recv's three reads
    | Spawn(id: nat)
    | Destroy(e: nat)
    | Wake(e: nat)           // sys_env_set_status(e, ENV_RUNNABLE) by another environment

  predicate Reading(p: Place) { p.ReadFrom? || p.ReadPerm? || p.ReadValue? }

  predicate Enabled(s: State, st: Step)
    requires Sized(s)
  {
    match st
    case Spawn(id) => id > 0
    case CallRecv(e, _) => e < |s.envs| && s.envs[e].alive && s.envs[e].at.Quiet?
    case CallSend(e, to, _, _) => e < |s.envs| && s.envs[e].alive && s.envs[e].at.Quiet? && to < |s.envs|
    case Try(e) => e < |s.envs| && s.envs[e].alive && s.envs[e].at.Sending? && s.envs[e].at.to < |s.envs|
    case Resume(e) => e < |s.envs| && s.envs[e].alive && s.envs[e].at.Waiting? && s.envs[e].runnable
    case Read(e) => e < |s.envs| && s.envs[e].alive && Reading(s.envs[e].at)
    case Destroy(e) => e < |s.envs| && s.envs[e].alive
    case Wake(e) => e < |s.envs| && s.envs[e].alive
  }

  function Put(s: State, e: nat, env: Env): State
    requires e < |s.envs|
  {
    s.(envs := s.envs[e := env])
  }

  function Move(s: State, e: nat, p: Place): State
    requires e < |s.envs|
  {
    Put(s, e, s.envs[e].(at := p))
  }

  /** What a sender sends: its value, its id, and, to a receiver that wants a page, its permission. */
  function Message(s: State, e: nat, to: nat, v: int, perm: nat): Msg
    requires Sized(s) && e < |s.envs| && to < |s.envs|
  {
    Msg(v, s.ids[e], if s.envs[to].wants then perm else 0)
  }

  /** One attempt of ipc_send: a dead target makes the sender panic, a busy one makes it retry. */
  function TrySend(s: State, e: nat): State
    requires Sized(s) && Enabled(s, Try(e))
  {
    var Sending(to, v, perm) := s.envs[e].at;
    var t := s.envs[to];
    if !t.alive then Put(s, e, s.envs[e].(alive := false))
    else if !Accepts(t) then s
    else
      var d := Delivered(t, s.ids[e], v, perm);
      Move(Put(s, to, d), e, Quiet).(sent := s.sent[to := s.sent[to] + [Message(s, e, to, v, perm)]])
  }

  function ReadOne(s: State, e: nat): State
    requires Sized(s) && Enabled(s, Read(e))
  {
    var env := s.envs[e];
    match env.at
    case ReadFrom => Move(s, e, ReadPerm(env.from))
    case ReadPerm(f) => Move(s, e, ReadValue(f, env.perm))
    case ReadValue(f, p) => Move(s, e, Quiet).(got := s.got[e := s.got[e] + [Msg(env.value, f, p)]])
  }

  function Do(s: State, st: Step): State
    requires Sized(s) && Enabled(s, st)
  {
    match st
    case CallRecv(e, wants) => Put(s, e, Receiving(s.envs[e], wants).(at := Waiting))
    case CallSend(e, to, v, perm) => Move(s, e, Sending(to, v, perm))
    case Try(e) => TrySend(s, e)
    case Resume(e) => Move(s, e, ReadFrom)
    case Read(e) => ReadOne(s, e)
    case Spawn(id) =>
      State(s.envs + [Env(true, true, false, false, 0, 0, 0, Quiet)], s.ids + [id], s.sent + [[]], s.got + [[]])
    case Destroy(e) => Put(s, e, s.envs[e].(alive := false))
    case Wake(e) => Put(s, e, s.envs[e].(runnable := true))
  }

  // ---------------------------------------------------------------- the invariant

  function Mailbox(e: Env): Msg { Msg(e.value, e.from, e.perm) }

  /** One environment, with the messages sent to it and those it has returned: they agree except
      for the one message that lies in its mailbox while it has not finished reading. */
  ghost predicate EnvOk(e: Env, sent: seq<Msg>, got: seq<Msg>) {
    match e.at
    case Waiting =>
      if e.recving then !e.runnable && e.from == 0 && sent == got
      else e.from > 0 && sent == got + [Mailbox(e)]
    case ReadFrom => !e.recving && sent == got + [Mailbox(e)]
    case ReadPerm(f) => !e.recving && f == e.from && sent == got + [Mailbox(e)]
    case ReadValue(f, p) => !e.recving && f == e.from && p == e.perm && sent == got + [Mailbox(e)]
    case _ => !e.recving && sent == got
  }

  ghost predicate Inv(s: State) {
    Sized(s) && forall e :: 0 <= e < |s.envs| ==> EnvOk(s.envs[e], s.sent[e], s.got[e])
  }

  /** Waking a blocked receiver is the one step that does harm. */
  predicate Harmless(s: State, st: Step)
    requires Sized(s) && Enabled(s, st)
  {
    st.Wake? ==> !(s.envs[st.e].at.Waiting? && s.envs[st.e].recving)
  }

  lemma TryKeeps(s: State, e: nat)
    requires Inv(s) && Enabled(s, Try(e))
    ensures Inv(TrySend(s, e))
  {
    assert EnvOk(s.envs[e], s.sent[e], s.got[e]);
    var t := s.envs[e].at.to;
    assert EnvOk(s.envs[t], s.sent[t], s.got[t]);
  }

  /** A step keeps the invariant exactly when it does not wake a blocked receiver. */
  lemma StepExact(s: State, st: Step)
    requires Inv(s) && Enabled(s, st)
    ensures Inv(Do(s, st)) <==> Harmless(s, st)
  {
    match st
    case Try(e) => TryKeeps(s, e);
    case Wake(e) =>
      if !Harmless(s, st) { assert !EnvOk(Do(s, st).envs[e], s.sent[e], s.got[e]); }
    case Spawn(id) =>
      forall e | 0 <= e < |s.envs| + 1 ensures EnvOk(Do(s, st).envs[e], Do(s, st).sent[e], Do(s, st).got[e]) {}
    case _ =>
  }

  ghost predicate Leads(s: State, steps: seq<Step>, s': State)
    decreases |steps|
  {
    if steps == [] then s' == s
    else Sized(s) && Enabled(s, steps[0]) && Harmless(s, steps[0]) && Leads(Do(s, steps[0]), steps[1..], s')
  }

  lemma {:induction false} RunKeeps(s: State, steps: seq<Step>, s': State)
    requires Inv(s) && Leads(s, steps, s')
    ensures Inv(s')
    decreases |steps|
  {
    if steps != [] {
      StepExact(s, steps[0]);
      RunKeeps(Do(s, steps[0]), steps[1..], s');
    }
  }

  /** Under every schedule, what an environment's ipc_recv calls have returned is exactly what was
      successfully sent to it, in order, up to one message it has not finished reading. */
  lemma ExactlyOnce(s: State, steps: seq<Step>, s': State, e: nat)
    requires Inv(s) && Leads(s, steps, s') && e < |s'.envs|
    ensures |s'.sent| == |s'.got| == |s'.envs|
    ensures s'.got[e] == s'.sent[e] || (s'.sent[e] != [] && s'.got[e] == s'.sent[e][..|s'.sent[e]| - 1])
  {
    RunKeeps(s, steps, s');
    assert EnvOk(s'.envs[e], s'.sent[e], s'.got[e]);
  }

  /** What ipc_send was last asked to send by each environment, and whether ipc_recv was last asked to
      take a page, as the calls themselves say. */
  datatype Asked = Asked(sends: map<nat, (nat, int, nat)>, wants: map<nat, bool>)

  function Ask(a: Asked, st: Step): Asked {
    match st
    case CallSend(e, to, v, perm) => a.(sends := a.sends[e := (to, v, perm)])
    case CallRecv(e, wants) => a.(wants := a.wants[e := wants])
    case _ => a
  }

  ghost predicate Remembers(s: State, a: Asked) {
    forall e: nat :: e < |s.envs| ==>
      && (s.envs[e].at.Sending? ==> e in a.sends && a.sends[e] == (s.envs[e].at.to, s.envs[e].at.v, s.envs[e].at.sperm))
      && (s.envs[e].at.Waiting? ==> e in a.wants && a.wants[e] == s.envs[e].wants)
  }

  lemma AskRemembers(s: State, a: Asked, st: Step)
    requires Inv(s) && Enabled(s, st) && Remembers(s, a)
    ensures Remembers(Do(s, st), Ask(a, st))
  {
    if st.Try? { TryRemembers(s, a, st.e); }
  }

  lemma TryRemembers(s: State, a: Asked, e: nat)
    requires Inv(s) && Enabled(s, Try(e)) && Remembers(s, a)
    ensures Remembers(Do(s, Try(e)), a)
  {
    assert EnvOk(s.envs[e], s.sent[e], s.got[e]);
  }

  /** The messages a run of steps delivers to `to`: an attempt that finds it waiting delivers what the
      sender was asked to send, under the sender's id. */
  ghost function Messages(s: State, a: Asked, steps: seq<Step>, to: nat): seq<Msg>
    decreases |steps|
  {
    if steps == [] || !Sized(s) || !Enabled(s, steps[0]) then []
    else Delivery(s, a, steps[0], to) + Messages(Do(s, steps[0]), Ask(a, steps[0]), steps[1..], to)
  }

  ghost function Delivery(s: State, a: Asked, st: Step, to: nat): seq<Msg>
    requires Sized(s) && Enabled(s, st)
  {
    if st.Try? && to < |s.envs| && st.e in a.sends && to in a.wants && a.sends[st.e].0 == to && Accepts(s.envs[to])
    then [Msg(a.sends[st.e].1, s.ids[st.e], if a.wants[to] then a.sends[st.e].2 else 0)] else []
  }

  lemma StepDelivers(s: State, a: Asked, st: Step, to: nat)
    requires Inv(s) && Enabled(s, st) && Remembers(s, a) && to < |s.envs|
    ensures Sized(Do(s, st)) && |Do(s, st).envs| >= |s.envs|
    ensures Do(s, st).sent[to] == s.sent[to] + Delivery(s, a, st, to)
  {
    if st.Try? {
      assert EnvOk(s.envs[st.e], s.sent[st.e], s.got[st.e]);
      assert EnvOk(s.envs[to], s.sent[to], s.got[to]);
    }
  }

  lemma {:induction false} SentExactly(s: State, a: Asked, steps: seq<Step>, s': State, to: nat)
    requires Inv(s) && Remembers(s, a) && Leads(s, steps, s') && to < |s.envs|
    ensures |s'.sent| >= |s.envs| && s'.sent[to] == s.sent[to] + Messages(s, a, steps, to)
    decreases |steps|
  {
    if steps != [] {
      FirstDelivers(s, a, steps, s', to);
      SentExactly(Do(s, steps[0]), Ask(a, steps[0]), steps[1..], s', to);
    }
  }

  lemma FirstDelivers(s: State, a: Asked, steps: seq<Step>, s': State, to: nat)
    requires Inv(s) && Remembers(s, a) && steps != [] && Leads(s, steps, s') && to < |s.envs|
    ensures var t := Do(s, steps[0]);
      && Inv(t) && Remembers(t, Ask(a, steps[0])) && Leads(t, steps[1..], s') && |t.envs| >= |s.envs|
      && t.sent[to] == s.sent[to] + Delivery(s, a, steps[0], to)
  {
    StepExact(s, steps[0]);
    AskRemembers(s, a, steps[0]);
    StepDelivers(s, a, steps[0], to);
  }

  /** Under every schedule each message that ipc_recv returns carries the value its sender was asked to
      send and the sender's id, and they come in the order of the successful sends. */
  lemma ReceivedAsSent(s: State, a: Asked, steps: seq<Step>, s': State, e: nat)
    requires Inv(s) && Remembers(s, a) && Leads(s, steps, s') && e < |s.envs| && s.sent[e] == []
    ensures |s'.got| >= |s.envs|
    ensures var all := Messages(s, a, steps, e);
      s'.got[e] == all || (all != [] && s'.got[e] == all[..|all| - 1])
  {
    RunKeeps(s, steps, s');
    SentExactly(s, a, steps, s', e);
    ExactlyOnce(s, steps, s', e);
  }

  /** A successful attempt adds the sender's own message. */
  lemma TrySends(s: State, e: nat)
    requires Inv(s) && Enabled(s, Try(e)) && Accepts(s.envs[s.envs[e].at.to])
    ensures var Sending(to, v, perm) := s.envs[e].at;
      TrySend(s, e).sent == s.sent[to := s.sent[to] + [Msg(v, s.ids[e], if s.envs[to].wants then perm else 0)]]
  {}

  /** After it the receiver can go on: sys_ipc_recv returns, and the three reads give that message. */
  lemma DeliveredIsRead(s: State, e: nat)
    requires Inv(s) && Enabled(s, Try(e)) && Accepts(s.envs[s.envs[e].at.to])
    ensures var Sending(to, v, perm) := s.envs[e].at;
      var s1 := TrySend(s, e);
      Sized(s1) && Enabled(s1, Resume(to)) &&
      var s2 := Do(s1, Resume(to));
      Sized(s2) && Enabled(s2, Read(to)) &&
      var s3 := ReadOne(s2, to);
      Sized(s3) && Enabled(s3, Read(to)) &&
      var s4 := ReadOne(s3, to);
      Sized(s4) && Enabled(s4, Read(to)) &&
      ReadOne(s4, to).got[to] == s.got[to] + [Msg(v, s.ids[e], if s.envs[to].wants then perm else 0)]
  {
    var to := s.envs[e].at.to;
    assert EnvOk(s.envs[e], s.sent[e], s.got[e]);
    assert EnvOk(s.envs[to], s.sent[to], s.got[to]);
  }

  /** A send succeeds only when every earlier message has been returned by ipc_recv, so it never
      overwrites a value that is still to be read. */
  lemma NoOverwrite(s: State, e: nat)
    requires Inv(s) && Enabled(s, Try(e))
    ensures var t := s.envs[e].at.to; Accepts(s.envs[t]) ==> s.got[t] == s.sent[t]
    ensures var t := s.envs[e].at.to; Accepts(s.envs[t]) <==> TrySend(s, e).sent[t] != s.sent[t]
  {
    var t := s.envs[e].at.to;
    assert EnvOk(s.envs[t], s.sent[t], s.got[t]);
    if Accepts(s.envs[t]) { assert |TrySend(s, e).sent[t]| == |s.sent[t]| + 1; }
  }

  /** ipc_recv's comment says that the stored permission is nonzero only if a page came along. For
      a send without a page that holds exactly if the receiver gave no page address or the sender
      passed permission 0. */
  lemma PermExact(s: State, e: nat)
    requires Inv(s) && Enabled(s, Try(e)) && Accepts(s.envs[s.envs[e].at.to])
    ensures var to := s.envs[e].at.to;
      TrySend(s, e).envs[to].perm == 0 <==> !s.envs[to].wants || s.envs[e].at.sperm == 0
  {
    assert EnvOk(s.envs[e], s.sent[e], s.got[e]);
  }

  /** A receiver that waits for a page, and a sender that passes permissions and no page: the receiver
      reads the permissions of a page it has not got. */
  lemma PermWithoutPage(s: State)
    requires s.envs == [Env(true, true, false, false, 0, 0, 0, Sending(1, 42, 7)),
                        Env(true, false, true, true, 0, 0, 0, Waiting)]
    requires s.ids == [1, 2] && s.sent == s.got == [[], []]
    ensures Inv(s) && Enabled(s, Try(0)) && TrySend(s, 0).envs[1].perm == 7
  {
    assert EnvOk(s.envs[0], [], []) && EnvOk(s.envs[1], [], []);
  }

  /** A receiver woken by sys_env_set_status returns a message nobody sent. */
  lemma WokenReadsStale(s: State, e: nat)
    requires Inv(s) && Enabled(s, Wake(e)) && !Harmless(s, Wake(e))
    ensures var s1 := Do(s, Wake(e));
      Sized(s1) && Enabled(s1, Resume(e)) &&
      var s2 := Do(s1, Resume(e));
      Sized(s2) && Enabled(s2, Read(e)) &&
      var s3 := ReadOne(s2, e);
      Sized(s3) && Enabled(s3, Read(e)) &&
      var s4 := ReadOne(s3, e);
      Sized(s4) && Enabled(s4, Read(e)) &&
      var s5 := ReadOne(s4, e);
      s5.sent == s.sent && s5.got[e] == s.sent[e] + [Msg(s.envs[e].value, 0, s.envs[e].perm)]
  {
    assert EnvOk(s.envs[e], s.sent[e], s.got[e]);
  }

  // ---------------------------------------------------------------- step by step

  /** The ipc fields of envs[] as the kernel updates them. */
  class Kernel {
    const envs: array<Env>
    const ids: array<nat>

    constructor (envs: array<Env>, ids: array<nat>)
      ensures this.envs == envs && this.ids == ids
    {
      this.envs, this.ids := envs, ids;
    }

    /** sys_ipc_recv up to its sched_yield. */
    method SysIpcRecv(cur: nat, dstva: nat) returns (r: int)
      requires cur < envs.Length
      modifies envs
      ensures r == if dstva < UTOP && dstva % PGSIZE != 0 then -E_INVAL else 0
      ensures envs[..] ==
        if r == 0 then old(envs[..])[cur := Receiving(old(envs[cur]), dstva < UTOP)] else old(envs[..])
    {
      if dstva < UTOP {
        if dstva % PGSIZE != 0 {
          return -E_INVAL;
        }
      }
      envs[cur] := envs[cur].(recving := true);
      envs[cur] := envs[cur].(wants := dstva < UTOP);
      envs[cur] := envs[cur].(from := 0);
      envs[cur] := envs[cur].(runnable := false);
      r := 0;
    }

    /** sys_ipc_try_send. */
    method SysIpcTrySend(cur: nat, to: nat, value: int, srcva: nat, perm: nat, src: Source) returns (r: int)
      requires cur < ids.Length && to < envs.Length
      modifies envs
      ensures r == SendError(old(envs[to]), srcva, perm, src)
      ensures envs[..] ==
        if r == 0 then old(envs[..])[to := Delivered(old(envs[to]), ids[cur], value, perm)] else old(envs[..])
    {
      if !envs[to].alive {
        return -E_BAD_ENV;
      }
      if envs[to].from != 0 {
        return -E_IPC_NOT_RECV;
      }
      if !envs[to].recving {
        return -E_IPC_NOT_RECV;
      }
      if srcva < UTOP {
        if srcva % PGSIZE != 0 {
          return -E_INVAL;
        }
        if !HasU(perm) || !HasP(perm) {
          return -E_INVAL;
        }
        if !OnlySyscallBits(perm) {
          return -E_INVAL;
        }
        if HasW(perm) {
          if !HasW(src.word) {
            return -E_INVAL;
          }
        }
        if envs[to].wants && src.mapped < 0 {
          return src.mapped;
        }
      }
      envs[to] := envs[to].(recving := false);
      envs[to] := envs[to].(from := ids[cur]);
      envs[to] := envs[to].(value := value);
      if envs[to].wants {
        envs[to] := envs[to].(perm := perm);
      } else {
        envs[to] := envs[to].(perm := 0);
      }
      envs[to] := envs[to].(runnable := true);
      r := 0;
    }
  }
}
