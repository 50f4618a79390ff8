/** States joined by a run of the store. */
module Runs {
  import opened Machine
  import opened Invariant
  import opened InvariantKept
  import opened InvariantRecovery

  /** The property survives every action. */
  ghost predicate Closed(p: State -> bool) {
    forall s, a | p(s) && Enabled(s, a) :: p(Do(s, a))
  }

  /** Whatever survives every action and holds of `s` holds of `s'` too; by `ReachesIffRun` this says
      that some run of the machine leads from `s` to `s'`. */
  ghost predicate Reaches(s: State, s': State) {
    forall p: State -> bool :: p(s) && Closed(p) ==> p(s')
  }

  lemma ReachesSelf(s: State)
    ensures Reaches(s, s)
  {
  }

  lemma ReachesStep(s: State, a: Action)
    requires Enabled(s, a)
    ensures Reaches(s, Do(s, a))
  {
  }

  lemma ReachesTrans(s: State, s': State, s'': State)
    requires Reaches(s, s') && Reaches(s', s'')
    ensures Reaches(s, s'')
  {
    forall p: State -> bool | p(s) && Closed(p) ensures p(s'') {
      assert p(s');
    }
  }

  lemma ReachesThen(s: State, s': State, a: Action)
    requires Reaches(s, s') && Enabled(s', a)
    ensures Reaches(s, Do(s', a))
  {
    ReachesStep(s', a);
    ReachesTrans(s, s', Do(s', a));
  }

  // ---------------------------------------------------------------- without a crash

  /** The property survives every action but a crash. */
  ghost predicate SteadilyClosed(p: State -> bool) {
    forall s, a | p(s) && Enabled(s, a) && !a.ACrash? :: p(Do(s, a))
  }

  /** As `Reaches`, by a run without a crash. */
  ghost predicate Steadily(s: State, s': State) {
    forall p: State -> bool :: p(s) && SteadilyClosed(p) ==> p(s')
  }

  lemma SteadilySelf(s: State)
    ensures Steadily(s, s)
  {
  }

  lemma SteadilyStep(s: State, a: Action)
    requires Enabled(s, a) && !a.ACrash?
    ensures Steadily(s, Do(s, a))
  {
  }

  lemma SteadilyTrans(s: State, s': State, s'': State)
    requires Steadily(s, s') && Steadily(s', s'')
    ensures Steadily(s, s'')
  {
    forall p: State -> bool | p(s) && SteadilyClosed(p) ensures p(s'') {
      assert p(s');
    }
  }

  lemma SteadilyThen(s: State, s': State, a: Action)
    requires Steadily(s, s') && Enabled(s', a) && !a.ACrash?
    ensures Steadily(s, Do(s', a))
  {
    SteadilyStep(s', a);
    SteadilyTrans(s, s', Do(s', a));
  }

  lemma SteadilyReaches(s: State, s': State)
    requires Steadily(s, s')
    ensures Reaches(s, s')
  {
    forall p: State -> bool | p(s) && Closed(p) ensures p(s') {
      assert SteadilyClosed(p);
    }
  }

  /** A state reached from a fresh store satisfies the invariant. */
  lemma ReachedInv(s: State)
    requires Reaches(FRESH, s)
    ensures Inv(s)
  {
    FreshOk();
    var p: State -> bool := x => Inv(x);
    assert p(FRESH);
    forall x, a | p(x) && Enabled(x, a) ensures p(Do(x, a)) { KeepsInv(x, a); }
    assert p(s);
  }

  // ---------------------------------------------------------------- runs, written out

  lemma {:induction false} RunSnoc(s: State, acts: seq<Action>, a: Action)
    requires CanRun(s, acts) && Enabled(Run(s, acts), a)
    ensures CanRun(s, acts + [a]) && Run(s, acts + [a]) == Do(Run(s, acts), a)
    decreases |acts|
  {
    if acts == [] {
      assert acts + [a] == [a];
      assert CanRun(Do(s, a), [a][1..]) && Run(Do(s, a), [a][1..]) == Do(s, a);
    } else {
      assert (acts + [a])[1..] == acts[1..] + [a];
      RunSnoc(Do(s, acts[0]), acts[1..], a);
    }
  }

  /** Some run of the machine leads from `s` to `s'`. */
  ghost predicate RunLeads(s: State, s': State) {
    exists acts :: CanRun(s, acts) && Run(s, acts) == s'
  }

  lemma RunLeadsStep(s: State, s': State, a: Action)
    requires RunLeads(s, s') && Enabled(s', a)
    ensures RunLeads(s, Do(s', a))
  {
    var acts :| CanRun(s, acts) && Run(s, acts) == s';
    RunSnoc(s, acts, a);
  }

  lemma {:induction false} RunReaches(s: State, acts: seq<Action>)
    requires CanRun(s, acts)
    ensures Reaches(s, Run(s, acts))
    decreases |acts|
  {
    if acts != [] {
      RunReaches(Do(s, acts[0]), acts[1..]);
      ReachesStep(s, acts[0]);
      ReachesTrans(s, Do(s, acts[0]), Run(s, acts));
    }
  }

  lemma RunLeadsSelf(s: State)
    ensures RunLeads(s, s)
  {
    assert CanRun(s, []) && Run(s, []) == s;
  }

  lemma ReachesLeads(s: State, s': State)
    requires Reaches(s, s')
    ensures RunLeads(s, s')
  {
    var p: State -> bool := x => RunLeads(s, x);
    RunLeadsSelf(s);
    assert p(s);
    forall x, a | p(x) && Enabled(x, a) ensures p(Do(x, a)) { RunLeadsStep(s, x, a); }
    assert p(s');
  }

  lemma LeadsReaches(s: State, s': State)
    requires RunLeads(s, s')
    ensures Reaches(s, s')
  {
    var acts :| CanRun(s, acts) && Run(s, acts) == s';
    RunReaches(s, acts);
    forall p: State -> bool | p(s) && Closed(p) ensures p(s') { assert p(Run(s, acts)); }
  }

  lemma ReachesIffRun(s: State, s': State)
    ensures Reaches(s, s') <==> RunLeads(s, s')
  {
    if Reaches(s, s') { ReachesLeads(s, s'); }
    if RunLeads(s, s') { LeadsReaches(s, s'); }
  }
}
