/** Actions with a precondition and a transition, and their fairness rule. */
module Actions {
  import opened TemporalLogic

  datatype Action<!State, !Input, +Output> = Action(
    precondition: (Input, State) -> bool,
    transition: (Input, State) -> (State, Output))

  ghost function Pre<State(!new), Input(!new), Output(!new)>(
      a: Action<State, Input, Output>, input: Input): StatePred<State>
  {
    s => a.precondition(input, s)
  }

  ghost function Forward<State(!new), Input(!new), Output(!new)>(
      a: Action<State, Input, Output>, input: Input): ActionPred<State>
  {
    (s, s') => a.precondition(input, s) && s' == a.transition(input, s).0
  }

  ghost function Fairness<State(!new), Input(!new), Output(!new)>(
      a: Action<State, Input, Output>, input: Input): Temp<State>
  {
    LeadsTo(Always(LiftState(Pre(a, input))), LiftAction(Forward(a, input)))
  }

  /** The precondition of an action says exactly when it is enabled, so both notions of fairness agree. */
  lemma FairnessIsWeakFairness<State(!new), Input(!new), Output(!new)>(a: Action<State, Input, Output>, input: Input,
                                                                   ex: Execution<State>, i: nat)
    ensures forall s :: Pre(a, input)(s) <==> Enabled(Forward(a, input))(s)
    ensures Fairness(a, input)(ex, i) <==> WeakFairness(Forward(a, input))(ex, i)
  {
    var pre, forward := Pre(a, input), Forward(a, input);
    forall s
      ensures pre(s) <==> Enabled(forward)(s)
    {
      if pre(s) { assert forward(s, a.transition(input, s).0); }
    }
    assert forall j: nat :: LiftState(pre)(ex, j) <==> LiftState(Enabled(forward))(ex, j);
    forall j: nat
      ensures Always(LiftState(pre))(ex, j) <==> Always(LiftState(Enabled(forward)))(ex, j)
    {
    }
    forall j: nat
      ensures Implies(Always(LiftState(pre)), Eventually(LiftAction(forward)))(ex, j)
         <==> Implies(Always(LiftState(Enabled(forward))), Eventually(LiftAction(forward)))(ex, j)
    {
    }
  }

  /** What implies another thing at every moment implies it for good. */
  lemma ImplicationLifts<T(!new)>(spec: Temp<T>, p: Temp<T>, q: Temp<T>)
    requires Entails(spec, Always(Implies(p, q)))
    ensures Entails(spec, Always(Implies(Always(p), Always(q))))
  {
    forall ex: Execution<T>, i: nat, j: nat | spec(ex, 0) && Always(p)(ex, i) && i <= j
      ensures q(ex, j)
    {
      assert Implies(p, q)(ex, j);
    }
  }

  lemma StateImplicationHolds<T(!new)>(spec: Temp<T>, p: StatePred<T>, q: StatePred<T>)
    requires forall s :: p(s) ==> q(s)
    ensures Entails(spec, Always(Implies(LiftState(p), LiftState(q))))
  {
  }

  lemma ActionWf1<State(!new), Input(!new), Output(!new)>(
      a: Action<State, Input, Output>, input: Input, spec: Temp<State>,
      next: ActionPred<State>, pre: StatePred<State>, post: StatePred<State>)
    requires forall s, s' {:trigger next(s, s')} :: pre(s) && next(s, s') ==> pre(s') || post(s')
    requires forall s, s' {:trigger next(s, s')} :: pre(s) && next(s, s') && Forward(a, input)(s, s') ==> post(s')
    requires Entails(spec, Always(Implies(LiftState(pre), LiftState(Pre(a, input)))))
    requires Entails(spec, Always(LiftAction(next)))
    requires Entails(spec, Fairness(a, input))
    ensures Entails(spec, LeadsTo(LiftState(pre), LiftState(post)))
  {
    hide Entails, LeadsTo, Always, Implies, Forward;
    ImplicationLifts(spec, LiftState(pre), LiftState(Pre(a, input)));
    ImpliesSelf(spec, LiftAction(Forward(a, input)));
    LeadsToWeaken(spec, Always(LiftState(Pre(a, input))), LiftAction(Forward(a, input)),
                  Always(LiftState(pre)), LiftAction(Forward(a, input)));
    KeepingLifts(spec, next, pre, post);
    HelpingLifts(spec, next, Forward(a, input), pre, post);
    Wf1Variant(spec, LiftAction(next), LiftAction(Forward(a, input)), LiftState(pre), LiftState(post));
  }

  lemma AlwaysAt<T(!new)>(p: Temp<T>, ex: Execution<T>, i: nat, j: nat)
    requires Always(p)(ex, i) && i <= j
    ensures p(ex, j)
  {
  }

  lemma StepAt<T(!new)>(ex: Execution<T>, j: nat, next: ActionPred<T>)
    requires Always(LiftAction(next))(ex, 0)
    ensures next(ex(j), ex(j + 1))
  {
    hide Always;
    AlwaysAt(LiftAction(next), ex, 0, j);
    assert StepsBy(next, ex, j);
  }

  lemma {:induction false} InvariantAt<T(!new)>(ex: Execution<T>, j: nat, next: ActionPred<T>, inv: StatePred<T>)
    requires forall s, s' {:trigger next(s, s')} :: inv(s) && next(s, s') ==> inv(s')
    requires inv(ex(0)) && Always(LiftAction(next))(ex, 0)
    ensures inv(ex(j))
  {
    hide Always, LiftAction;
    if j > 0 {
      InvariantAt(ex, j - 1, next, inv);
      StepAt(ex, j - 1, next);
    }
  }

  /** An invariant established by the first state and kept by every step. */
  lemma InitInvariant<T(!new)>(spec: Temp<T>, init: StatePred<T>, next: ActionPred<T>, inv: StatePred<T>)
    requires forall s :: init(s) ==> inv(s)
    requires forall s, s' {:trigger next(s, s')} :: inv(s) && next(s, s') ==> inv(s')
    requires Entails(spec, LiftState(init)) && Entails(spec, Always(LiftAction(next)))
    ensures Entails(spec, Always(LiftState(inv)))
  {
    forall ex: Execution<T>, j: nat | spec(ex, 0)
      ensures inv(ex(j))
    {
      assert LiftState(init)(ex, 0) && Always(LiftAction(next))(ex, 0);
      InvariantAt(ex, j, next, inv);
    }
  }

}

/** Two threads take and release one lock; under weak fairness both terminate. */
module LockDemo {
  import opened TemporalLogic
  import opened Actions

  datatype Tid = A | B

  datatype ThreadState = Waiting | Holding | Terminated

  datatype ProgramState = ProgramState(lock: bool, threads: map<Tid, ThreadState>) {
    predicate Is(tid: Tid, state: ThreadState) {
      tid in threads && threads[tid] == state
    }
  }

  ghost predicate Init(s: ProgramState) {
    !s.lock && s.Is(A, Waiting) && s.Is(B, Waiting)
  }

  ghost function AcquiresLock(): Action<ProgramState, Tid, ()> {
    Action((tid: Tid, s: ProgramState) => !s.lock && s.Is(tid, Waiting),
           (tid: Tid, s: ProgramState) => (ProgramState(true, s.threads[tid := Holding]), ()))
  }

  ghost function ReleasesLock(): Action<ProgramState, Tid, ()> {
    Action((tid: Tid, s: ProgramState) => s.Is(tid, Holding),
           (tid: Tid, s: ProgramState) => (ProgramState(false, s.threads[tid := Terminated]), ()))
  }

  ghost predicate Next(s: ProgramState, s': ProgramState) {
    || Forward(AcquiresLock(), A)(s, s')
    || Forward(ReleasesLock(), A)(s, s')
    || Forward(AcquiresLock(), B)(s, s')
    || Forward(ReleasesLock(), B)(s, s')
    || s' == s
  }

  ghost function Config(a: ThreadState, b: ThreadState, lock: bool): StatePred<ProgramState> {
    (s: ProgramState) => s.Is(A, a) && s.Is(B, b) && s.lock == lock
  }

  ghost predicate OneHolds(s: ProgramState) {
    Config(Holding, Waiting, true)(s) || Config(Waiting, Holding, true)(s)
  }

  /** The lock is taken exactly when exactly one thread holds it. */
  ghost predicate MutualExclusion(s: ProgramState) {
    && A in s.threads && B in s.threads
    && !(s.Is(A, Holding) && s.Is(B, Holding))
    && (s.lock <==> s.Is(A, Holding) || s.Is(B, Holding))
  }

  lemma NextKeepsMutualExclusion(s: ProgramState, s': ProgramState)
    requires MutualExclusion(s) && Next(s, s')
    ensures MutualExclusion(s')
  {
  }

  lemma MutualExclusionAlwaysHolds(model: Temp<ProgramState>)
    requires Entails(model, LiftState(s => Init(s)))
    requires Entails(model, Always(LiftAction((s, s') => Next(s, s'))))
    ensures Entails(model, Always(LiftState(s => MutualExclusion(s))))
  {
    var next := (s, s') => Next(s, s');
    forall s, s' | MutualExclusion(s) && next(s, s')
      ensures MutualExclusion(s')
    {
      NextKeepsMutualExclusion(s, s');
    }
    hide Entails, Always, LiftState, LiftAction, Next;
    InitInvariant(model, s => Init(s), next, s => MutualExclusion(s));
  }

  ghost predicate Fair(model: Temp<ProgramState>) {
    forall tid :: Entails(model, Fairness(AcquiresLock(), tid)) && Entails(model, Fairness(ReleasesLock(), tid))
  }

  /** One thread moves the program from one configuration to another, and nothing else can happen meanwhile. */
  lemma Moves(model: Temp<ProgramState>, action: Action<ProgramState, Tid, ()>, tid: Tid,
              pre: StatePred<ProgramState>, post: StatePred<ProgramState>)
    requires forall s, s' {:trigger Next(s, s')} :: pre(s) && Next(s, s') ==> pre(s') || post(s')
    requires forall s :: pre(s) ==> action.precondition(tid, s) && post(action.transition(tid, s).0)
    requires Entails(model, Always(LiftAction((s, s') => Next(s, s'))))
    requires Entails(model, Fairness(action, tid))
    ensures Entails(model, LeadsTo(LiftState(pre), LiftState(post)))
  {
    hide Entails, Always, LiftState, LiftAction, Next, Fairness, LeadsTo;
    var next := (s, s') => Next(s, s');
    StateImplicationHolds(model, pre, Pre(action, tid));
    ActionWf1(action, tid, model, next, pre, post);
  }

  lemma OrOfStates<T(!new)>(spec: Temp<T>, p: StatePred<T>, q: StatePred<T>, pq: StatePred<T>, r: Temp<T>)
    requires forall s :: pq(s) ==> p(s) || q(s)
    requires Entails(spec, LeadsTo(LiftState(p), r)) && Entails(spec, LeadsTo(LiftState(q), r))
    ensures Entails(spec, LeadsTo(LiftState(pq), r))
  {
    OrLeadsToCombine(spec, LiftState(p), LiftState(q), r);
    forall ex: Execution<T>, i: nat | spec(ex, 0) && LiftState(pq)(ex, i)
      ensures Eventually(r)(ex, i)
    {
      assert Implies(Or(LiftState(p), LiftState(q)), Eventually(r))(ex, i);
    }
  }

  /** From the moment one thread holds the lock, both come to an end. */
  lemma HolderThenOther(model: Temp<ProgramState>, first: Tid)
    requires Entails(model, Always(LiftAction((s, s') => Next(s, s')))) && Fair(model)
    ensures Entails(model, LeadsTo(
              LiftState(if first == A then Config(Holding, Waiting, true) else Config(Waiting, Holding, true)),
              LiftState(Config(Terminated, Terminated, false))))
  {
    hide Entails, Always, LiftState, LiftAction, Fairness, LeadsTo;
    var c0, c1, c2, c3 := Config(Holding, Waiting, true), Config(Terminated, Waiting, false),
                          Config(Terminated, Holding, true), Config(Terminated, Terminated, false);
    var second := B;
    if first == B {
      c0, c1, c2 := Config(Waiting, Holding, true), Config(Waiting, Terminated, false),
          Config(Holding, Terminated, true);
      second := A;
    }
    Moves(model, ReleasesLock(), first, c0, c1);
    Moves(model, AcquiresLock(), second, c1, c2);
    Moves(model, ReleasesLock(), second, c2, c3);
    LeadsToTrans(model, LiftState(c0), LiftState(c1), LiftState(c2));
    LeadsToTrans(model, LiftState(c0), LiftState(c2), LiftState(c3));
  }

  /** In every fair execution both threads terminate, and the lock ends up free. */
  lemma BothThreadsEventuallyTerminate(model: Temp<ProgramState>)
    requires Entails(model, LiftState(s => Init(s)))
    requires Entails(model, Always(LiftAction((s, s') => Next(s, s')))) && Fair(model)
    ensures Entails(model, Eventually(LiftState(Config(Terminated, Terminated, false))))
  {
    hide Entails, Always, LiftState, LiftAction, Fairness, LeadsTo, Eventually;
    var init, one, done := s => Init(s), s => OneHolds(s), Config(Terminated, Terminated, false);
    Moves(model, AcquiresLock(), A, init, one);
    HolderThenOther(model, A);
    HolderThenOther(model, B);
    OrOfStates(model, Config(Holding, Waiting, true), Config(Waiting, Holding, true), one, LiftState(done));
    LeadsToTrans(model, LiftState(init), LiftState(one), LiftState(done));
    LeadsToApply(model, LiftState(init), LiftState(done));
  }

  // ----- such executions exist -----

  ghost function InTurn(i: nat): ProgramState
    ensures InTurn(i).lock <==> i == 1 || i == 3
    ensures InTurn(i).Is(A, if i == 0 then Waiting else if i == 1 then Holding else Terminated)
    ensures InTurn(i).Is(B, if i < 3 then Waiting else if i == 3 then Holding else Terminated)
  {
    if i == 0 then ProgramState(false, map[A := Waiting, B := Waiting])
    else if i == 1 then AcquiresLock().transition(A, InTurn(0)).0
    else if i == 2 then ReleasesLock().transition(A, InTurn(1)).0
    else if i == 3 then AcquiresLock().transition(B, InTurn(2)).0
    else if i == 4 then ReleasesLock().transition(B, InTurn(3)).0
    else InTurn(i - 1)
  }

  lemma InTurnSteps(i: nat)
    ensures Next(InTurn(i), InTurn(i + 1))
  {
    if i == 0 { assert Forward(AcquiresLock(), A)(InTurn(0), InTurn(1)); }
    if i == 1 { assert Forward(ReleasesLock(), A)(InTurn(1), InTurn(2)); }
    if i == 2 { assert Forward(AcquiresLock(), B)(InTurn(2), InTurn(3)); }
    if i == 3 { assert Forward(ReleasesLock(), B)(InTurn(3), InTurn(4)); }
  }

  lemma FairIfDisabledInTheEnd(a: Action<ProgramState, Tid, ()>, tid: Tid, ex: Execution<ProgramState>, n: nat)
    requires forall j: nat :: n <= j ==> !a.precondition(tid, ex(j))
    ensures Fairness(a, tid)(ex, 0)
  {
    forall j: nat
      ensures !Always(LiftState(Pre(a, tid)))(ex, j)
    {
      NotAlways(a, tid, ex, if j <= n then n else j, j);
    }
    hide Always, Eventually, LiftState, LiftAction;
    NeverLeadsAnywhere(ex, Always(LiftState(Pre(a, tid))), LiftAction(Forward(a, tid)));
  }

  lemma NotAlways(a: Action<ProgramState, Tid, ()>, tid: Tid, ex: Execution<ProgramState>, k: nat, j: nat)
    requires j <= k && !a.precondition(tid, ex(k))
    ensures !Always(LiftState(Pre(a, tid)))(ex, j)
  {
    assert !LiftState(Pre(a, tid))(ex, k);
  }

  lemma NeverLeadsAnywhere<T(!new)>(ex: Execution<T>, p: Temp<T>, q: Temp<T>)
    requires forall j: nat :: !p(ex, j)
    ensures LeadsTo(p, q)(ex, 0)
  {
  }

  /** The hypotheses of the theorems above can be met: the threads may take the lock in turn. */
  lemma SomeFairExecution(tid: Tid, i: nat)
    ensures Init(InTurn(0)) && Next(InTurn(i), InTurn(i + 1))
    ensures Fairness(AcquiresLock(), tid)(InTurn, 0) && Fairness(ReleasesLock(), tid)(InTurn, 0)
  {
    InTurnSteps(i);
    hide Fairness;
    FairIfDisabledInTheEnd(AcquiresLock(), tid, InTurn, 4);
    FairIfDisabledInTheEnd(ReleasesLock(), tid, InTurn, 4);
  }

}
