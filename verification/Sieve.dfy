/**
user/primes.c: a chain of environments, each of which takes a prime from its left neighbour,
forks a right neighbour, and passes on what its prime does not divide. The processes talk
through the message passing of module Ipc, one small step at a time, in any order.
*/
module Sieve {
  import opened Ipc
  import Numerals

  const INT_MAX := 0x7fff_ffff

  /** Where a process is in the program: the generator umain, or primeproc. */
  datatype Prog =
    | GenFork                          // umain, before its fork
    | GenSend(i: int, id: nat)         // for (i = 2; ; i++) ipc_send(id, i, 0, 0)
    | Fetch                            // p = ipc_recv(&envid, 0, 0)
    | ForkNext(p: int)                 // id = fork()
    | Loop(p: int, id: nat)            // i = ipc_recv(&envid, 0, 0)
    | Pass(p: int, id: nat, i: int)    // ipc_send(id, i, 0, 0)
    | Dead                             // after panic

  /** Process e is environment e: 0 the generator, k the k-th stage. */
  datatype Net = Net(ipc: State, progs: seq<Prog>)

  predicate Shaped(n: Net) { Sized(n.ipc) && |n.progs| == |n.ipc.envs| }

  /** What the program does with a received value; p is never 0. */
  function Received(prog: Prog, v: int): Prog {
    match prog
    case Fetch => ForkNext(v)
    case Loop(p, id) => if p != 0 && v % p != 0 then Pass(p, id, v) else prog
    case _ => prog
  }

  /** After a completed ipc_send. The generator's i++ overflows at INT_MAX and is not followed
      further. */
  function Sent(prog: Prog): Prog {
    match prog
    case GenSend(i, id) => if i < INT_MAX then GenSend(i + 1, id) else Dead
    case Pass(p, id, i) => Loop(p, id)
    case _ => prog
  }

  /** The next message-passing step of process e. */
  function IpcStep(n: Net, e: nat): Step
    requires Shaped(n) && e < |n.progs|
  {
    match n.ipc.envs[e].at
    case Quiet =>
      if n.progs[e].GenSend? || n.progs[e].Pass? then CallSend(e, n.progs[e].id, n.progs[e].i, 0)
      else CallRecv(e, false)
    case Waiting => Resume(e)
    case Sending(_, _, _) => Try(e)
    case _ => Read(e)
  }

  predicate Forking(p: Prog) { p.GenFork? || p.ForkNext? }

  predicate MayStep(n: Net, e: nat)
    requires Shaped(n)
  {
    && e < |n.progs| && n.ipc.envs[e].alive && !n.progs[e].Dead?
    && (!Forking(n.progs[e]) ==> Enabled(n.ipc, IpcStep(n, e)))
  }

  /** The program's move that goes with a message-passing step. */
  function Advance(n: Net, e: nat, ipc: State): Prog
    requires Shaped(n) && e < |n.progs| && Sized(ipc) && |ipc.envs| == |n.progs|
  {
    var now := ipc.envs[e];
    if !now.alive then Dead
    else if n.ipc.envs[e].at.ReadValue? && now.at.Quiet? && ipc.got[e] != [] then
      Received(n.progs[e], ipc.got[e][|ipc.got[e]| - 1].value)
    else if n.ipc.envs[e].at.Sending? && now.at.Quiet? then Sent(n.progs[e])
    else n.progs[e]
  }

  function Forked(prog: Prog, child: nat): Prog
    requires Forking(prog)
  {
    if prog.GenFork? then GenSend(2, child) else Loop(prog.p, child)
  }

  /** A small step of process e. A fork succeeds with a new environment of the given id, or
      fails (id 0) and the process panics. */
  function Next(n: Net, e: nat, id: nat): Net
    requires Shaped(n) && MayStep(n, e)
  {
    if Forking(n.progs[e]) then
      if id == 0 then Net(Do(n.ipc, Destroy(e)), n.progs[e := Dead])
      else Net(Do(n.ipc, Spawn(id)), n.progs[e := Forked(n.progs[e], |n.progs|)] + [Fetch])
    else
      var ipc := Do(n.ipc, IpcStep(n, e));
      Net(ipc, n.progs[e := Advance(n, e, ipc)])
  }

  function Start(id: nat): Net
    requires id > 0
  {
    Net(State([Env(true, true, false, false, 0, 0, 0, Quiet)], [id], [[]], [[]]), [GenFork])
  }

  // ---------------------------------------------------------------- streams

  function Values(s: seq<Msg>): (v: seq<int>)
    ensures |v| == |s| && forall k :: 0 <= k < |s| ==> v[k] == s[k].value
  {
    if s == [] then [] else Values(s[..|s| - 1]) + [s[|s| - 1].value]
  }

  /** lo, lo + 1, ..., hi - 1 */
  function Range(hi: int): (v: seq<int>)
    ensures |v| == (if hi > 2 then hi - 2 else 0) && forall k :: 0 <= k < |v| ==> v[k] == k + 2
  {
    if hi <= 2 then [] else Range(hi - 1) + [hi - 1]
  }

  /** What a stage with prime p lets through. */
  function Survivors(v: seq<int>, p: int): seq<int> {
    if v == [] then []
    else
      var last := v[|v| - 1];
      Survivors(v[..|v| - 1], p) + (if p != 0 && last % p != 0 then [last] else [])
  }

  predicate Undivided(x: int, ps: seq<int>) {
    forall p :: p in ps && p != 0 ==> x % p != 0
  }

  /** The integers from 2 up to b - 1 that no element of ps divides, in increasing order. */
  function Sift(ps: seq<int>, b: int): (v: seq<int>)
    ensures forall x :: x in v <==> 2 <= x < b && Undivided(x, ps)
  {
    if b <= 2 then []
    else Sift(ps, b - 1) + (if Undivided(b - 1, ps) then [b - 1] else [])
  }

  predicate IsPrime(n: int) { n >= 2 && forall d :: 2 <= d < n ==> n % d != 0 }

  /** ps are the first |ps| primes in order. */
  ghost predicate FirstPrimes(ps: seq<int>) {
    && (forall k :: 0 <= k < |ps| ==> IsPrime(ps[k]))
    && (forall k, l :: 0 <= k < l < |ps| ==> ps[k] < ps[l])
    && (forall q :: IsPrime(q) && ps != [] && q <= ps[|ps| - 1] ==> q in ps)
  }

  lemma {:induction false} SiftSorted(ps: seq<int>, b: int)
    ensures forall k, l :: 0 <= k < l < |Sift(ps, b)| ==> Sift(ps, b)[k] < Sift(ps, b)[l]
    decreases b
  {
    if b > 2 {
      SiftSorted(ps, b - 1);
      var v := Sift(ps, b - 1);
      forall k | 0 <= k < |v| ensures v[k] < b - 1 { assert v[k] in v; }
    }
  }

  lemma {:induction false} SiftNone(b: int)
    ensures Sift([], b) == Range(b)
    decreases b
  {
    if b > 2 { SiftNone(b - 1); }
  }

  /** Every beginning of such a stream is such a stream. */
  lemma {:induction false} SiftPrefix(ps: seq<int>, b: int, v: seq<int>) returns (b': int)
    requires v <= Sift(ps, b)
    ensures v == Sift(ps, b')
    decreases b
  {
    if v == Sift(ps, b) {
      b' := b;
    } else {
      assert b > 2;
      assert v <= Sift(ps, b - 1);
      b' := SiftPrefix(ps, b - 1, v);
    }
  }

  lemma SurvivorsSnoc(v: seq<int>, x: int, p: int)
    ensures Survivors(v + [x], p) == Survivors(v, p) + (if p != 0 && x % p != 0 then [x] else [])
  {
    assert (v + [x])[..|v|] == v;
  }

  lemma UndividedSnoc(x: int, ps: seq<int>, p: int)
    requires p != 0
    ensures Undivided(x, ps + [p]) <==> Undivided(x, ps) && x % p != 0
  {
    var longer := ps + [p];
    assert longer[|ps|] == p;
    if Undivided(x, longer) {
      assert p in longer;
      forall y | y in ps && y != 0 ensures x % y != 0 { assert y in longer; }
    }
  }

  /** Filtering once more. */
  lemma {:induction false} SiftSurvivors(ps: seq<int>, p: int, b: int)
    requires p != 0
    ensures Survivors(Sift(ps, b), p) == Sift(ps + [p], b)
    decreases b
  {
    if b > 2 {
      SiftSurvivors(ps, p, b - 1);
      var v := Sift(ps, b - 1);
      SurvivorsSnoc(v, b - 1, p);
      UndividedSnoc(b - 1, ps, p);
      assert v + [] == v;
      assert Sift(ps + [p], b - 1) + [] == Sift(ps + [p], b - 1);
    }
  }

  /** The first number is removed by its own stage, so leaving it out makes no difference. */
  lemma {:induction false} SurvivorsTail(v: seq<int>)
    requires v != [] && v[0] != 0
    ensures Survivors(v[1..], v[0]) == Survivors(v, v[0])
    decreases |v|
  {
    if |v| > 1 {
      SurvivorsTail(v[..|v| - 1]);
      assert v[1..][..|v| - 2] == v[..|v| - 1][1..];
    } else {
      assert v[1..] == [] && v[..0] == [];
    }
  }

  lemma MulAtLeast(p: int, k: int)
    requires p > 0 && k >= 1
    ensures p * k >= p
  {}

  lemma MulMinus(p: int, a: int, q: int)
    ensures p * (a - q) == p * a - q * p
  {}

  /** The remainder is the only one. */
  lemma ModUnique(x: int, p: int, q: int, r: int)
    requires p > 0 && x == q * p + r && 0 <= r < p
    ensures x % p == r
  {
    var a, b := x / p, x % p;
    assert x == p * a + b;
    RemaindersAgree(p, a, b, q, r);
  }

  lemma RemaindersAgree(p: int, a: int, b: int, q: int, r: int)
    requires p > 0 && p * a + b == q * p + r && 0 <= r < p && 0 <= b < p
    ensures b == r
  {
    MulMinus(p, a, q);
    MulMinus(p, q, a);
    if a > q {
      MulAtLeast(p, a - q);
    } else if a < q {
      MulAtLeast(p, q - a);
    }
  }

  lemma DividesThrough(h: int, d: int, p: int)
    requires p > 0 && d > 0 && h % d == 0 && d % p == 0
    ensures h % p == 0
  {
    var a, c := h / d, d / p;
    assert h == a * d && d == c * p;
    assert h == (a * c) * p;
    ModUnique(h, p, a * c, 0);
  }

  /** The first number that survives the first primes is the next prime. */
  lemma NextPrime(ps: seq<int>, b: int)
    requires FirstPrimes(ps) && Sift(ps, b) != []
    ensures FirstPrimes(ps + [Sift(ps, b)[0]])
  {
    var v := Sift(ps, b);
    var h := v[0];
    assert h in v;
    SiftSorted(ps, b);
    forall d | 2 <= d < h ensures !Undivided(d, ps) { SmallerRemoved(ps, b, d); }
    forall d | 2 <= d < h ensures h % d != 0 { Indivisible(ps, h, d); }
    assert IsPrime(h);
    forall q | IsPrime(q) && q < h ensures q in ps { PrimeListed(ps, q); }
    NotListed(ps, h);
  }

  lemma NotListed(ps: seq<int>, h: int)
    requires h >= 2 && Undivided(h, ps)
    ensures h !in ps
  {
    ModUnique(h, h, 1, 0);
  }

  lemma FirstLeast(v: seq<int>)
    requires v != [] && forall k, l :: 0 <= k < l < |v| ==> v[k] < v[l]
    ensures forall x :: x in v ==> v[0] <= x
  {
    forall x | x in v ensures v[0] <= x {
      var k :| 0 <= k < |v| && v[k] == x;
      assert k > 0 ==> v[0] < v[k];
    }
  }

  lemma SmallerRemoved(ps: seq<int>, b: int, d: int)
    requires Sift(ps, b) != [] && 2 <= d < Sift(ps, b)[0]
    ensures !Undivided(d, ps)
  {
    var v := Sift(ps, b);
    SiftSorted(ps, b);
    FirstLeast(v);
    assert v[0] in v && d !in v;
  }

  lemma Indivisible(ps: seq<int>, h: int, d: int)
    requires FirstPrimes(ps) && Undivided(h, ps) && 2 <= d && !Undivided(d, ps)
    ensures h % d != 0
  {
    var p :| p in ps && p != 0 && d % p == 0;
    if h % d == 0 { DividesThrough(h, d, p); }
  }

  lemma PrimeListed(ps: seq<int>, q: int)
    requires FirstPrimes(ps) && IsPrime(q) && !Undivided(q, ps)
    ensures q in ps
  {
    var p :| p in ps && p != 0 && q % p == 0;
    assert IsPrime(p);
    if p > q { Numerals.SmallMod(q, p); }
  }

  // ---------------------------------------------------------------- the invariant of the chain

  /** The program and the message-passing library agree on what the process is doing. */
  predicate FitsPlace(prog: Prog, at: Place) {
    match prog
    case GenSend(i, id) => at.Quiet? || at == Sending(id, i, 0)
    case Pass(_, id, i) => at.Quiet? || at == Sending(id, i, 0)
    case Fetch => at.Quiet? || at.Waiting? || Reading(at)
    case Loop(_, _) => at.Quiet? || at.Waiting? || Reading(at)
    case Dead => true
    case _ => at.Quiet?
  }

  /** The chain: process e has process e + 1 as its right neighbour, and only the last one has
      not forked. */
  predicate InChain(prog: Prog, e: nat, n: nat) {
    match prog
    case GenFork => e == 0 && n == 1
    case GenSend(i, id) => e == 0 && id == 1 && n > 1 && 2 <= i <= INT_MAX
    case Fetch => e > 0 && e + 1 == n
    case ForkNext(_) => e > 0 && e + 1 == n
    case Loop(_, id) => e > 0 && id == e + 1 < n
    case Pass(_, id, _) => e > 0 && id == e + 1 < n
    case Dead => true
  }

  /** What a stage has passed on, against what it has received. */
  ghost predicate StageFlow(inp: seq<int>, out: seq<int>) {
    if inp == [] then out == [] else out <= Survivors(inp[1..], inp[0])
  }

  ghost predicate Flow(prog: Prog, e: nat, inp: seq<int>, out: seq<int>) {
    match prog
    case GenFork => out == []
    case GenSend(i, _) => out == Range(i)
    case Fetch => inp == [] && out == []
    case ForkNext(p) => inp == [p] && out == []
    case Loop(p, _) => inp != [] && inp[0] == p && out == Survivors(inp[1..], p)
    case Pass(p, _, i) =>
      && |inp| >= 2 && inp[0] == p && inp[|inp| - 1] == i && p != 0 && i % p != 0
      && out == Survivors(inp[1..|inp| - 1], p)
    case Dead => if e == 0 then out == Range(|out| + 2) else StageFlow(inp, out)
  }

  ghost function Out(n: Net, e: nat): seq<int>
    requires Shaped(n)
  {
    if e + 1 < |n.progs| then Values(n.ipc.sent[e + 1]) else []
  }

  ghost predicate ProcOk(n: Net, e: nat)
    requires Shaped(n) && e < |n.progs|
  {
    && FitsPlace(n.progs[e], n.ipc.envs[e].at) && InChain(n.progs[e], e, |n.progs|)
    && Flow(n.progs[e], e, Values(n.ipc.got[e]), Out(n, e))
    && (0 < e < |n.progs| - 1 ==> n.ipc.got[e] != [])
  }

  ghost predicate NetInv(n: Net) {
    Shaped(n) && |n.progs| > 0 && Ipc.Inv(n.ipc) && forall e :: 0 <= e < |n.progs| ==> ProcOk(n, e)
  }

  lemma ValuesSnoc(s: seq<Msg>, m: Msg)
    ensures Values(s + [m]) == Values(s) + [m.value]
  {
    assert (s + [m])[..|s|] == s;
  }

  /** Receiving one more number. */
  lemma FlowReceived(prog: Prog, e: nat, inp: seq<int>, out: seq<int>, v: int)
    requires Flow(prog, e, inp, out) && (prog.Fetch? || prog.Loop?)
    ensures Flow(Received(prog, v), e, inp + [v], out)
  {
    if prog.Loop? {
      assert (inp + [v])[1..] == inp[1..] + [v];
      SurvivorsSnoc(inp[1..], v, prog.p);
      assert (inp + [v])[1..|inp|] == inp[1..];
      assert out + [] == out;
    }
  }

  /** Passing one on. */
  lemma FlowSent(prog: Prog, e: nat, inp: seq<int>, out: seq<int>)
    requires Flow(prog, e, inp, out) && (prog.GenSend? || prog.Pass?)
    requires prog.GenSend? ==> e == 0 && prog.i >= 2
    ensures Flow(Sent(prog), e, inp, out + [prog.i])
  {
    if prog.Pass? {
      assert inp[1..] == inp[1..|inp| - 1] + [prog.i];
      SurvivorsSnoc(inp[1..|inp| - 1], prog.i, prog.p);
    }
  }

  /** A process may die anywhere. */
  lemma FlowDead(prog: Prog, e: nat, inp: seq<int>, out: seq<int>)
    requires Flow(prog, e, inp, out) && (prog.GenSend? || prog.GenFork? <==> e == 0) && !prog.Dead?
    requires prog.GenSend? ==> prog.i >= 2
    ensures Flow(Dead, e, inp, out)
  {
    if prog.Pass? {
      assert inp[1..] == inp[1..|inp| - 1] + [prog.i];
      SurvivorsSnoc(inp[1..|inp| - 1], prog.i, prog.p);
    }
  }

  /** A step of process e that leaves the others' programs, places and logs alone, except for the
      log of what e has sent. */
  lemma OthersOk(n: Net, n': Net, e: nat)
    requires NetInv(n) && e < |n.progs| && Shaped(n') && |n'.progs| == |n.progs| && Ipc.Inv(n'.ipc)
    requires forall d :: 0 <= d < |n.progs| && d != e ==> n'.progs[d] == n.progs[d]
    requires forall d :: 0 <= d < |n.progs| && d != e ==> n'.ipc.envs[d].at == n.ipc.envs[d].at
    requires forall d :: 0 <= d < |n.progs| && d != e ==> n'.ipc.got[d] == n.ipc.got[d]
    requires forall d :: 0 <= d < |n.progs| && d != e + 1 ==> n'.ipc.sent[d] == n.ipc.sent[d]
    requires ProcOk(n', e)
    ensures NetInv(n')
  {
    forall d | 0 <= d < |n.progs| ensures ProcOk(n', d) {
      assert ProcOk(n, d);
      if d != e { assert Out(n', d) == Out(n, d); }
    }
  }

  lemma ForkKeeps(n: Net, e: nat, id: nat)
    requires NetInv(n) && MayStep(n, e) && Forking(n.progs[e]) && id != 0
    ensures NetInv(Next(n, e, id))
  {
    var n' := Next(n, e, id);
    assert ProcOk(n, e);
    StepExact(n.ipc, Spawn(id));
    forall d | 0 <= d < |n'.progs| ensures ProcOk(n', d) {
      if d < |n.progs| && d != e {
        assert ProcOk(n, d);
        assert Out(n', d) == Out(n, d);
      }
    }
  }

  lemma PanicKeeps(n: Net, e: nat)
    requires NetInv(n) && MayStep(n, e) && Forking(n.progs[e])
    ensures NetInv(Next(n, e, 0))
  {
    assert ProcOk(n, e);
    StepExact(n.ipc, Destroy(e));
    DeadOk(n, Next(n, e, 0), e);
    OthersOk(n, Next(n, e, 0), e);
  }

  // What one message-passing step of process e changes.

  ghost predicate OnlyAt(s: State, t: State, e: nat) {
    && Sized(s) && Sized(t) && |t.envs| == |s.envs| && e < |s.envs|
    && forall d :: 0 <= d < |s.envs| && d != e ==> t.envs[d].at == s.envs[d].at
  }

  lemma DeliverEffect(s: State, e: nat, to: nat, v: int)
    requires Ipc.Inv(s) && Enabled(s, Try(e)) && s.envs[e].at == Sending(to, v, 0) && Accepts(s.envs[to])
    ensures var t := Do(s, Try(e));
      && OnlyAt(s, t, e) && t.envs[e].at == Quiet && t.envs[e].alive && t.got == s.got
      && exists m: Msg :: m.value == v && t.sent == s.sent[to := s.sent[to] + [m]]
  {
    assert EnvOk(s.envs[e], s.sent[e], s.got[e]);
    var m := Msg(v, s.ids[e], 0);
    assert m.value == v;
  }

  lemma NoDeliverEffect(s: State, e: nat, to: nat, v: int)
    requires Ipc.Inv(s) && Enabled(s, Try(e)) && s.envs[e].at == Sending(to, v, 0) && !Accepts(s.envs[to])
    ensures var t := Do(s, Try(e));
      && OnlyAt(s, t, e) && t.got == s.got && t.sent == s.sent && t.envs[e].at == s.envs[e].at
      && (t.envs[e].alive || !s.envs[to].alive)
  {}

  lemma LastReadEffect(s: State, e: nat)
    requires Ipc.Inv(s) && Enabled(s, Read(e)) && s.envs[e].at.ReadValue?
    ensures var t := Do(s, Read(e));
      && OnlyAt(s, t, e) && t.envs[e].at == Quiet && t.envs[e].alive && t.sent == s.sent
      && t.got == s.got[e := s.got[e] + [Msg(s.envs[e].value, s.envs[e].at.f, s.envs[e].at.p)]]
  {}

  lemma QuietEffect(n: Net, e: nat)
    requires Shaped(n) && MayStep(n, e) && !Forking(n.progs[e]) && FitsPlace(n.progs[e], n.ipc.envs[e].at)
    requires !n.ipc.envs[e].at.Sending? && !n.ipc.envs[e].at.ReadValue?
    ensures var t := Do(n.ipc, IpcStep(n, e));
      OnlyAt(n.ipc, t, e) && t.got == n.ipc.got && t.sent == n.ipc.sent && FitsPlace(n.progs[e], t.envs[e].at)
      && t.envs[e].alive && (n.ipc.envs[e].at.ReadValue? <==> false)
  {}

  /** Sent or received: the flow of the process that stepped. */
  lemma DeliverOk(n: Net, n': Net, e: nat)
    requires NetInv(n) && e < |n.progs| && (n.progs[e].GenSend? || n.progs[e].Pass?) && ProcOk(n, e)
    requires Shaped(n') && n'.progs == n.progs[e := Sent(n.progs[e])] && n'.ipc.envs[e].at == Quiet
    requires n'.ipc.got == n.ipc.got && Out(n', e) == Out(n, e) + [n.progs[e].i]
    ensures ProcOk(n', e)
  {
    FlowSent(n.progs[e], e, Values(n.ipc.got[e]), Out(n, e));
  }

  lemma DeliveredNet(n: Net, n': Net, e: nat, m: Msg)
    requires NetInv(n) && e < |n.progs| - 1 && ProcOk(n, e)
    requires (n.progs[e].GenSend? || n.progs[e].Pass?) && m.value == n.progs[e].i
    requires OnlyAt(n.ipc, n'.ipc, e) && Ipc.Inv(n'.ipc) && n'.ipc.envs[e].at == Quiet && n'.ipc.got == n.ipc.got
    requires n'.ipc.sent == n.ipc.sent[e + 1 := n.ipc.sent[e + 1] + [m]]
    requires n'.progs == n.progs[e := Sent(n.progs[e])]
    ensures NetInv(n')
  {
    ValuesSnoc(n.ipc.sent[e + 1], m);
    DeliverOk(n, n', e);
    OthersOk(n, n', e);
  }

  lemma DeliverKeeps(n: Net, e: nat, i: int)
    requires NetInv(n) && MayStep(n, e) && !Forking(n.progs[e]) && n.ipc.envs[e].at == Sending(e + 1, i, 0)
    requires ProcOk(n, e) && (n.progs[e].GenSend? || n.progs[e].Pass?) && n.progs[e].i == i
    requires Accepts(n.ipc.envs[e + 1])
    ensures NetInv(Next(n, e, 0))
  {
    var ipc := Do(n.ipc, Try(e));
    StepExact(n.ipc, Try(e));
    DeliverEffect(n.ipc, e, e + 1, i);
    var m: Msg :| m.value == i && ipc.sent == n.ipc.sent[e + 1 := n.ipc.sent[e + 1] + [m]];
    DeliveredNet(n, Net(ipc, n.progs[e := Sent(n.progs[e])]), e, m);
  }

  lemma DeadOk(n: Net, n': Net, e: nat)
    requires Shaped(n) && Shaped(n') && |n'.progs| == |n.progs| && e < |n.progs| && ProcOk(n, e) && !n.progs[e].Dead?
    requires n'.ipc.got == n.ipc.got && n'.ipc.sent == n.ipc.sent && n'.progs[e] == Dead
    ensures ProcOk(n', e)
  {
    var prog, inp, out := n.progs[e], Values(n.ipc.got[e]), Out(n, e);
    assert Out(n', e) == out;
    DeadFlow(prog, e, |n.progs|, inp, out);
  }

  lemma DeadFlow(prog: Prog, e: nat, n: nat, inp: seq<int>, out: seq<int>)
    requires InChain(prog, e, n) && Flow(prog, e, inp, out)
    ensures Flow(Dead, e, inp, out)
  {
    if !prog.Dead? { FlowDead(prog, e, inp, out); }
  }

  lemma UndeliveredNet(n: Net, n': Net, e: nat, prog: Prog)
    requires NetInv(n) && e < |n.progs| && ProcOk(n, e) && !n.progs[e].Dead?
    requires OnlyAt(n.ipc, n'.ipc, e) && Ipc.Inv(n'.ipc) && n'.ipc.envs[e].at == n.ipc.envs[e].at
    requires n'.ipc.got == n.ipc.got && n'.ipc.sent == n.ipc.sent
    requires n'.progs == n.progs[e := prog] && (prog == n.progs[e] || prog == Dead)
    ensures NetInv(n')
  {
    if prog.Dead? { DeadOk(n, n', e); } else { assert Out(n', e) == Out(n, e); }
    OthersOk(n, n', e);
  }

  lemma NoDeliverKeeps(n: Net, e: nat, i: int)
    requires NetInv(n) && MayStep(n, e) && !Forking(n.progs[e]) && n.ipc.envs[e].at == Sending(e + 1, i, 0)
    requires ProcOk(n, e) && !n.progs[e].Dead? && !Accepts(n.ipc.envs[e + 1])
    ensures NetInv(Next(n, e, 0))
  {
    StepExact(n.ipc, Try(e));
    NoDeliverEffect(n.ipc, e, e + 1, i);
    UndeliveredNet(n, Next(n, e, 0), e, Next(n, e, 0).progs[e]);
  }

  lemma TryKeepsNet(n: Net, e: nat)
    requires NetInv(n) && MayStep(n, e) && !Forking(n.progs[e]) && n.ipc.envs[e].at.Sending?
    ensures NetInv(Next(n, e, 0))
  {
    assert ProcOk(n, e);
    if Accepts(n.ipc.envs[e + 1]) {
      DeliverKeeps(n, e, n.progs[e].i);
    } else {
      NoDeliverKeeps(n, e, n.progs[e].i);
    }
  }

  lemma ReceiveOk(n: Net, n': Net, e: nat, m: Msg)
    requires NetInv(n) && e < |n.progs| && (n.progs[e].Fetch? || n.progs[e].Loop?) && ProcOk(n, e)
    requires Shaped(n') && n'.progs == n.progs[e := Received(n.progs[e], m.value)] && n'.ipc.envs[e].at == Quiet
    requires n'.ipc.got == n.ipc.got[e := n.ipc.got[e] + [m]] && n'.ipc.sent == n.ipc.sent
    ensures ProcOk(n', e)
  {
    FlowReceived(n.progs[e], e, Values(n.ipc.got[e]), Out(n, e), m.value);
    ValuesSnoc(n.ipc.got[e], m);
  }

  lemma ReadKeepsNet(n: Net, e: nat)
    requires NetInv(n) && MayStep(n, e) && !Forking(n.progs[e]) && n.ipc.envs[e].at.ReadValue?
    ensures NetInv(Next(n, e, 0))
  {
    var env := n.ipc.envs[e];
    assert ProcOk(n, e);
    StepExact(n.ipc, Read(e));
    LastReadEffect(n.ipc, e);
    ReceiveOk(n, Next(n, e, 0), e, Msg(env.value, env.at.f, env.at.p));
    OthersOk(n, Next(n, e, 0), e);
  }

  lemma QuietKeepsNet(n: Net, e: nat)
    requires NetInv(n) && MayStep(n, e) && !Forking(n.progs[e])
    requires !n.ipc.envs[e].at.Sending? && !n.ipc.envs[e].at.ReadValue?
    ensures NetInv(Next(n, e, 0))
  {
    assert ProcOk(n, e);
    StepExact(n.ipc, IpcStep(n, e));
    QuietEffect(n, e);
    OthersOk(n, Next(n, e, 0), e);
  }

  lemma NextKeeps(n: Net, e: nat, id: nat)
    requires NetInv(n) && MayStep(n, e)
    ensures NetInv(Next(n, e, id))
  {
    if Forking(n.progs[e]) {
      if id == 0 { PanicKeeps(n, e); } else { ForkKeeps(n, e, id); }
    } else if n.ipc.envs[e].at.Sending? {
      TryKeepsNet(n, e);
    } else if n.ipc.envs[e].at.ReadValue? {
      ReadKeepsNet(n, e);
    } else {
      QuietKeepsNet(n, e);
    }
  }

  // ---------------------------------------------------------------- every schedule

  ghost predicate Runs(n: Net, schedule: seq<(nat, nat)>, n': Net)
    decreases |schedule|
  {
    if schedule == [] then n' == n
    else Shaped(n) && MayStep(n, schedule[0].0) && Runs(Next(n, schedule[0].0, schedule[0].1), schedule[1..], n')
  }

  lemma {:induction false} RunKeepsNet(n: Net, schedule: seq<(nat, nat)>, n': Net)
    requires NetInv(n) && Runs(n, schedule, n')
    ensures NetInv(n')
    decreases |schedule|
  {
    if schedule != [] {
      NextKeeps(n, schedule[0].0, schedule[0].1);
      RunKeepsNet(Next(n, schedule[0].0, schedule[0].1), schedule[1..], n');
    }
  }

  /** What ipc_recv has returned to a process is a beginning of what was sent to it. */
  lemma GotPrefix(n: Net, e: nat)
    requires NetInv(n) && e < |n.progs|
    ensures Values(n.ipc.got[e]) <= Values(n.ipc.sent[e])
  {
    assert EnvOk(n.ipc.envs[e], n.ipc.sent[e], n.ipc.got[e]);
    if n.ipc.sent[e] != n.ipc.got[e] { ValuesSnoc(n.ipc.got[e], Mailbox(n.ipc.envs[e])); }
  }

  lemma StageFlowOf(n: Net, e: nat)
    requires NetInv(n) && 0 < e < |n.progs|
    ensures StageFlow(Values(n.ipc.got[e]), Out(n, e))
  {
    assert ProcOk(n, e);
    if !n.progs[e].Dead? { FlowDead(n.progs[e], e, Values(n.ipc.got[e]), Out(n, e)); }
  }

  /** The stream into stage e: the integers from 2 up to some bound that none of the primes
      fetched by the stages before it divides; those primes are the first e - 1 primes. */
  ghost predicate StreamOk(n: Net, e: nat, ps: seq<int>, b: int)
    requires Shaped(n) && 0 < e < |n.progs|
  {
    && |ps| == e - 1 && FirstPrimes(ps) && Values(n.ipc.sent[e]) == Sift(ps, b)
    && forall k :: 0 < k < e ==> n.ipc.got[k] != [] && n.ipc.got[k][0].value == ps[k - 1]
  }

  lemma PassOn(inp: seq<int>, out: seq<int>, ps: seq<int>, b: int) returns (b': int)
    requires inp != [] && inp <= Sift(ps, b) && out <= Survivors(inp[1..], inp[0])
    ensures out == Sift(ps + [inp[0]], b')
  {
    var c := SiftPrefix(ps, b, inp);
    assert inp[0] in Sift(ps, c);
    SurvivorsTail(inp);
    SiftSurvivors(ps, inp[0], c);
    b' := SiftPrefix(ps + [inp[0]], c, out);
  }

  lemma {:induction false} Stream(n: Net, e: nat) returns (ps: seq<int>, b: int)
    requires NetInv(n) && 0 < e < |n.progs|
    ensures StreamOk(n, e, ps, b)
  {
    if e == 1 {
      assert ProcOk(n, 0);
      b := |Out(n, 0)| + 2;
      ps := [];
      SiftNone(b);
      assert Out(n, 0) == Range(b);
    } else {
      var qs, c := Stream(n, e - 1);
      b := StreamNext(n, e - 1, qs, c);
      ps := qs + [n.ipc.got[e - 1][0].value];
    }
  }

  /** What stage e has received and passed on. */
  lemma StageStreams(n: Net, e: nat) returns (inp: seq<int>, out: seq<int>)
    requires NetInv(n) && 0 < e < |n.progs| - 1
    ensures n.ipc.got[e] != [] && inp != [] && inp[0] == n.ipc.got[e][0].value && inp <= Values(n.ipc.sent[e])
    ensures out == Values(n.ipc.sent[e + 1]) && out <= Survivors(inp[1..], inp[0])
  {
    inp, out := Values(n.ipc.got[e]), Out(n, e);
    assert ProcOk(n, e);
    GotPrefix(n, e);
    StageFlowOf(n, e);
  }

  lemma StreamNext(n: Net, e: nat, ps: seq<int>, b: int) returns (b': int)
    requires NetInv(n) && 0 < e < |n.progs| - 1 && StreamOk(n, e, ps, b)
    ensures n.ipc.got[e] != [] && StreamOk(n, e + 1, ps + [n.ipc.got[e][0].value], b')
  {
    var inp, out := StageStreams(n, e);
    b' := NextStage(inp, out, ps, b);
  }

  lemma NextStage(inp: seq<int>, out: seq<int>, ps: seq<int>, b: int) returns (b': int)
    requires FirstPrimes(ps) && inp != [] && inp <= Sift(ps, b) && out <= Survivors(inp[1..], inp[0])
    ensures FirstPrimes(ps + [inp[0]]) && out == Sift(ps + [inp[0]], b')
  {
    NextPrime(ps, b);
    b' := PassOn(inp, out, ps, b);
  }

  lemma StartOk(id: nat)
    requires id > 0
    ensures NetInv(Start(id))
  {}

  /** The process sieve is correct under every schedule: the stream that has entered stage k is
      the integers from 2 up that none of the first k - 1 primes divides, in increasing order, and
      the number stage k has fetched is the k-th prime. */
  lemma SieveCorrect(id: nat, schedule: seq<(nat, nat)>, n: Net, k: nat) returns (ps: seq<int>, b: int)
    requires id > 0 && Runs(Start(id), schedule, n)
    ensures Shaped(n) && |n.progs| > 0
    ensures 0 < k < |n.progs| ==> StreamOk(n, k, ps, b)
    ensures 0 < k < |n.progs| && n.ipc.got[k] != [] ==> FirstPrimes(ps + [n.ipc.got[k][0].value])
  {
    StartOk(id);
    RunKeepsNet(Start(id), schedule, n);
    ps, b := [], 0;
    if 0 < k < |n.progs| {
      ps, b := Stream(n, k);
      GotPrefix(n, k);
      if n.ipc.got[k] != [] { NextPrime(ps, b); }
    }
  }
}