/**
What fork's loop has done at each moment, whatever runs in between: the pages it has passed are in
the child exactly if they are in the parent, with the permissions duppage gives them, and the pages
to come are not there yet.
*/
module ForkProgress {
  import opened Layout
  import opened Options
  import opened CowFork

  /** duppage's kind for the child's entry. */
  function SharedKind(k: Kind): Kind { if k == Ro then Ro else Cow }

  /** Page v of the child while fork is at page pn: behind pn it is there exactly if the parent has it;
      at pn it is there once it has been mapped; ahead of pn it is not there. */
  predicate PageDone(s: State, e: nat, f: Fork, v: nat) {
    if v < f.pn then
      && (Has(s, f.child, v) <==> Has(s, e, v))
      && (Has(s, e, v) && Has(s, f.child, v) ==> s.procs[f.child].pt[v].kind == SharedKind(s.procs[e].pt[v].kind))
    else if v == f.pn && f.at.MappedChild? then
      && Has(s, f.child, v) && s.procs[f.child].pt[v].kind == Cow
      && Has(s, e, v) && s.procs[e].pt[v].kind != Ro
    else !Has(s, f.child, v)
  }

  ghost predicate Progress(s: State, e: nat)
    requires e < |s.procs|
  {
    s.procs[e].fork.Some? ==>
      var f := s.procs[e].fork.value;
      && (forall v: nat :: v < UXPAGE && v != PFTEMP ==> PageDone(s, e, f, v))
      && (f.pn > UXPAGE ==> Has(s, f.child, UXPAGE) && s.procs[f.child].pt[UXPAGE].kind == W)
  }

  ghost predicate AllProgress(s: State) { forall e: nat :: e < |s.procs| ==> Progress(s, e) }

  // ---------------------------------------------------------------- steps of others

  /** The page tables of e and of its child agree, below the exception page and apart from PFTEMP, in
      which pages there are and which of them are read-only; the child's agree in full. */
  ghost predicate SameKinds(s: State, t: State, e: nat, child: nat)
    requires e < |s.procs| && e < |t.procs|
  {
    && child < |s.procs| && child < |t.procs| && t.procs[child].pt == s.procs[child].pt
    && forall v: nat :: v < UXPAGE && v != PFTEMP ==>
         && (Has(t, e, v) <==> Has(s, e, v))
         && (Has(s, e, v) && Has(t, e, v) ==> (t.procs[e].pt[v].kind == Ro <==> s.procs[e].pt[v].kind == Ro))
  }

  lemma ProgressSame(s: State, t: State, e: nat)
    requires e < |s.procs| && e < |t.procs| && Progress(s, e) && t.procs[e].fork == s.procs[e].fork
    requires s.procs[e].fork.Some? ==> SameKinds(s, t, e, s.procs[e].fork.value.child)
    ensures Progress(t, e)
  {
    if s.procs[e].fork.Some? {
      var f := s.procs[e].fork.value;
      forall v: nat | v < UXPAGE && v != PFTEMP ensures PageDone(t, e, f, v) {
        assert PageDone(s, e, f, v);
        assert Has(t, f.child, v) <==> Has(s, f.child, v);
      }
    }
  }

  /** Steps change only the acting environment and, in a fork, its child. */
  lemma OnlyActor(s: State, st: Step, d: nat)
    requires Inv(s) && Enabled(s, st) && d < |s.procs| && d != st.e
    requires st.ForkStep? ==> d != s.procs[st.e].fork.value.child
    ensures |Do(s, st).procs| >= |s.procs| && Do(s, st).procs[d] == s.procs[d]
  {}

  lemma Bystander(s: State, st: Step, e: nat)
    requires Inv(s) && Enabled(s, st) && e < |s.procs| && e != st.e && Progress(s, e)
    ensures |Do(s, st).procs| >= |s.procs| && Progress(Do(s, st), e)
  {
    assert ProcOk(s, e) && ProcOk(s, st.e);
    if s.procs[e].fork.Some? {
      OnlyActor(s, st, e);
      OnlyActor(s, st, s.procs[e].fork.value.child);
      ProgressSame(s, Do(s, st), e);
    } else if st.ForkStep? && e == s.procs[st.e].fork.value.child {
      assert Do(s, st).procs[e].fork == None;
    } else {
      OnlyActor(s, st, e);
    }
  }

  // ---------------------------------------------------------------- the environment's own steps

  lemma OwnFault(s: State, e: nat)
    requires Inv(s) && Enabled(s, FaultStep(e)) && Progress(s, e)
    ensures Progress(Do(s, FaultStep(e)), e)
  {
    assert ProcOk(s, e);
    ProgressSame(s, Do(s, FaultStep(e)), e);
  }

  lemma OwnOther(s: State, st: Step)
    requires Inv(s) && Enabled(s, st) && Progress(s, st.e) && !st.FaultStep? && !st.ForkStep?
    ensures st.e < |Do(s, st).procs| && Progress(Do(s, st), st.e)
  {
    assert ProcOk(s, st.e);
    if st.Write? || st.TakeFault? { ProgressSame(s, Do(s, st), st.e); }
  }

  lemma OwnFork(s: State, e: nat)
    requires Inv(s) && Enabled(s, ForkStep(e)) && Progress(s, e)
    ensures Progress(Do(s, ForkStep(e)), e)
  {
    assert ProcOk(s, e);
    var f := s.procs[e].fork.value;
    var t := Do(s, ForkStep(e));
    if t.procs[e].fork.Some? {
      forall v: nat | v < UXPAGE && v != PFTEMP ensures PageDone(t, e, t.procs[e].fork.value, v) {
        assert PageDone(s, e, f, v);
      }
    }
  }

  lemma StepProgress(s: State, st: Step)
    requires Inv(s) && AllProgress(s) && Enabled(s, st)
    ensures AllProgress(Do(s, st))
  {
    var t := Do(s, st);
    forall e: nat | e < |t.procs| ensures Progress(t, e) {
      if e >= |s.procs| {
        assert st.BeginFork?;
      } else if e != st.e {
        Bystander(s, st, e);
      } else if st.FaultStep? {
        OwnFault(s, e);
      } else if st.ForkStep? {
        OwnFork(s, e);
      } else {
        OwnOther(s, st);
      }
    }
  }

  // ---------------------------------------------------------------- every run

  lemma {:induction false} RunProgress(s: State, a: Memory, steps: seq<Step>, s': State)
    requires Inv(s) && Match(s, a) && AllProgress(s) && RunsTo(s, steps, s')
    ensures Inv(s') && AllProgress(s')
    decreases |steps|
  {
    if steps != [] {
      StepRefines(s, a, steps[0]);
      StepProgress(s, steps[0]);
      RunProgress(Do(s, steps[0]), Eager(a, Op(s, steps[0])), steps[1..], s');
    }
  }

  /** In every state of every run, of an environment that forks and has come to page pn: the pages below
      pn, PFTEMP apart, are in the child exactly if they are in the parent, read-only exactly if they
      are so there, and otherwise copy-on-write. */
  lemma PagesBehind(s: State, a: Memory, steps: seq<Step>, s': State, e: nat, v: nat)
    requires Inv(s) && Match(s, a) && AllProgress(s) && RunsTo(s, steps, s')
    requires e < |s'.procs| && s'.procs[e].fork.Some? && v < s'.procs[e].fork.value.pn && v < UXPAGE && v != PFTEMP
    ensures var child := s'.procs[e].fork.value.child;
      && (Has(s', child, v) <==> Has(s', e, v))
      && (Has(s', e, v) ==> s'.procs[child].pt[v].kind == SharedKind(s'.procs[e].pt[v].kind))
  {
    RunProgress(s, a, steps, s');
    assert Progress(s', e);
    assert PageDone(s', e, s'.procs[e].fork.value, v);
  }

  /** The step that starts the child: it runs, with a handler and an exception stack of its own, and has
      exactly the parent's pages below that, PFTEMP apart. */
  lemma ChildComplete(s: State, a: Memory, steps: seq<Step>, s': State, e: nat)
    requires Inv(s) && Match(s, a) && AllProgress(s) && RunsTo(s, steps, s')
    requires Framed(s') && Enabled(s', ForkStep(e)) && s'.procs[e].fork.value.pn > UXPAGE
    ensures var child := s'.procs[e].fork.value.child;
      var t := Do(s', ForkStep(e));
      && child < |t.procs| && t.procs[child].started && t.procs[child].handler && t.procs[e].fork == None
      && Has(t, child, UXPAGE) && t.procs[child].pt[UXPAGE].kind == W
      && (forall v: nat :: v < UXPAGE && v != PFTEMP ==>
            && (Has(t, child, v) <==> Has(t, e, v))
            && (Has(t, e, v) ==> t.procs[child].pt[v].kind == SharedKind(t.procs[e].pt[v].kind)))
  {
    RunProgress(s, a, steps, s');
    assert ProcOk(s', e) && Progress(s', e);
    var child := s'.procs[e].fork.value.child;
    var t := Do(s', ForkStep(e));
    forall v: nat | v < UXPAGE && v != PFTEMP
      ensures Has(t, child, v) <==> Has(t, e, v)
      ensures Has(t, e, v) ==> t.procs[child].pt[v].kind == SharedKind(t.procs[e].pt[v].kind)
    {
      assert PageDone(s', e, s'.procs[e].fork.value, v);
    }
  }

  /** Where no fork is under way, nothing has to be shown. */
  lemma StartProgress(pt: map<int, Pte>, frames: seq<Page>, handler: bool)
    ensures AllProgress(Start(pt, frames, handler))
  {}

  // ---------------------------------------------------------------- one page without interruption

  lemma Enables(s: State, e: nat)
    requires Inv(s) && Enabled(s, ForkStep(e)) && s.procs[e].fork.value.pn < UXPAGE
    requires s.procs[e].fork.value.pn in s.procs[e].pt
    ensures var t := Do(s, ForkStep(e));
      && Inv(t)
      && (t.procs[e].fork.Some? && t.procs[e].fork.value.pn == s.procs[e].fork.value.pn ==> Enabled(t, ForkStep(e)))
  {
    ForkStepInv(s, e);
    assert ProcOk(s, e);
  }

  /** The state in which duppage of page pn has been done and the loop goes on. */
  function Turned(s: State, e: nat, child: nat, pn: nat): State
    requires e < |s.procs| && child < |s.procs| && e != child
  {
    Forked(Duplicated(s, e, child, pn), e, Some(Fork(child, pn + 1, Ready)))
  }

  lemma SkipTurn(s: State, e: nat, child: nat, pn: nat)
    requires Inv(s) && Enabled(s, ForkStep(e)) && s.procs[e].fork == Some(Fork(child, pn, Ready)) && pn < UXPAGE
    requires child != e && pn !in s.procs[e].pt
    ensures RunsTo(s, [ForkStep(e)], Turned(s, e, child, pn))
  {
    var t := Do(s, ForkStep(e));
    RunCons(s, ForkStep(e), [], t);
    assert [ForkStep(e)] + [] == [ForkStep(e)];
  }

  lemma TurnedByTwo(s: State, e: nat, child: nat, pn: nat)
    requires Inv(s) && Enabled(s, ForkStep(e)) && s.procs[e].fork == Some(Fork(child, pn, Ready)) && pn < UXPAGE
    requires child != e && pn in s.procs[e].pt && s.procs[e].pt[pn].kind == Ro
    requires var s1 := Do(s, ForkStep(e)); Framed(s1) && Enabled(s1, ForkStep(e))
    ensures Do(Do(s, ForkStep(e)), ForkStep(e)) == Turned(s, e, child, pn)
  {
    assert Do(Do(s, ForkStep(e)), ForkStep(e)).procs == Turned(s, e, child, pn).procs;
  }

  lemma ShareTurn(s: State, e: nat, child: nat, pn: nat)
    requires Inv(s) && Enabled(s, ForkStep(e)) && s.procs[e].fork == Some(Fork(child, pn, Ready)) && pn < UXPAGE
    requires child != e && pn in s.procs[e].pt && s.procs[e].pt[pn].kind == Ro
    ensures RunsTo(s, [ForkStep(e), ForkStep(e)], Turned(s, e, child, pn))
  {
    var st := ForkStep(e);
    Enables(s, e);
    var s1 := Do(s, st);
    var s2 := Do(s1, st);
    TurnedByTwo(s, e, child, pn);
    RunCons(s1, st, [], s2);
    RunCons(s, st, [st] + [], s2);
    assert [st] + ([st] + []) == [st, st];
  }

  lemma MarkTurn(s: State, e: nat, child: nat, pn: nat)
    requires Inv(s) && Enabled(s, ForkStep(e)) && s.procs[e].fork == Some(Fork(child, pn, Ready)) && pn < UXPAGE
    requires child != e && pn in s.procs[e].pt && s.procs[e].pt[pn].kind != Ro && s.procs[child].late == None
    ensures RunsTo(s, [ForkStep(e), ForkStep(e), ForkStep(e)], Turned(s, e, child, pn))
  {
    var st := ForkStep(e);
    Enables(s, e);
    var s1 := Do(s, st);
    Enables(s1, e);
    var s2 := Do(s1, st);
    var s3 := Do(s2, st);
    TurnedByThree(s, e, child, pn);
    RunCons(s2, st, [], s3);
    RunCons(s1, st, [st] + [], s3);
    RunCons(s, st, [st] + ([st] + []), s3);
    assert [st] + ([st] + ([st] + [])) == [st, st, st];
  }

  lemma TurnedByThree(s: State, e: nat, child: nat, pn: nat)
    requires Inv(s) && Enabled(s, ForkStep(e)) && s.procs[e].fork == Some(Fork(child, pn, Ready)) && pn < UXPAGE
    requires child != e && pn in s.procs[e].pt && s.procs[e].pt[pn].kind != Ro && s.procs[child].late == None
    requires var s1 := Do(s, ForkStep(e)); Framed(s1) && Enabled(s1, ForkStep(e))
    requires var s2 := Do(Do(s, ForkStep(e)), ForkStep(e)); Framed(s2) && Enabled(s2, ForkStep(e))
    ensures Do(Do(Do(s, ForkStep(e)), ForkStep(e)), ForkStep(e)) == Turned(s, e, child, pn)
  {
    var s3 := Do(Do(Do(s, ForkStep(e)), ForkStep(e)), ForkStep(e));
    assert s3.procs[e] == Turned(s, e, child, pn).procs[e];
    assert s3.procs[child] == Turned(s, e, child, pn).procs[child];
    assert s3.procs == Turned(s, e, child, pn).procs;
  }

  /** The steps of one page, taken in a row, do what duppage does. */
  lemma ForkStepsDuplicate(s: State, e: nat) returns (n: nat)
    requires Inv(s) && Enabled(s, ForkStep(e)) && s.procs[e].fork.value.pn < UXPAGE && s.procs[e].fork.value.at.Ready?
    ensures 1 <= n <= 3
    ensures var f := s.procs[e].fork.value;
      f.child < |s.procs| && f.child != e && RunsTo(s, seq(n, i => ForkStep(e)), Turned(s, e, f.child, f.pn))
  {
    assert ProcOk(s, e);
    var f := s.procs[e].fork.value;
    var st := ForkStep(e);
    if f.pn !in s.procs[e].pt {
      n := 1;
      SkipTurn(s, e, f.child, f.pn);
      assert seq(1, i => st) == [st];
    } else if s.procs[e].pt[f.pn].kind == Ro {
      n := 2;
      ShareTurn(s, e, f.child, f.pn);
      assert seq(2, i => st) == [st, st];
    } else {
      n := 3;
      MarkTurn(s, e, f.child, f.pn);
      assert seq(3, i => st) == [st, st, st];
    }
  }
}
