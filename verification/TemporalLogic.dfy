/**
 A linear-time temporal logic over infinite executions, and its proof rules. A formula is judged at a
 position of an execution, which stands for the suffix starting there.
 */
module TemporalLogic {

  type Execution<!T> = nat -> T

  type StatePred<!T> = T -> bool

  type ActionPred<!T> = (T, T) -> bool

  type Temp<!T> = (Execution<T>, nat) -> bool

  // ----- formulas -----

  ghost function LiftState<T(!new)>(p: StatePred<T>): Temp<T> {
    (ex: Execution<T>, i: nat) => p(ex(i))
  }

  ghost predicate StepsBy<T(!new)>(a: ActionPred<T>, ex: Execution<T>, i: nat) {
    a(ex(i), ex(i + 1))
  }

  ghost function LiftAction<T(!new)>(a: ActionPred<T>): Temp<T> {
    (ex: Execution<T>, i: nat) => StepsBy(a, ex, i)
  }

  ghost function And<T(!new)>(p: Temp<T>, q: Temp<T>): Temp<T> {
    (ex: Execution<T>, i: nat) => p(ex, i) && q(ex, i)
  }

  ghost function Or<T(!new)>(p: Temp<T>, q: Temp<T>): Temp<T> {
    (ex: Execution<T>, i: nat) => p(ex, i) || q(ex, i)
  }

  ghost function Implies<T(!new)>(p: Temp<T>, q: Temp<T>): Temp<T> {
    (ex: Execution<T>, i: nat) => p(ex, i) ==> q(ex, i)
  }

  ghost function Not<T(!new)>(p: Temp<T>): Temp<T> {
    (ex: Execution<T>, i: nat) => !p(ex, i)
  }

  ghost function Later<T(!new)>(p: Temp<T>): Temp<T> {
    (ex: Execution<T>, i: nat) => p(ex, i + 1)
  }

  ghost function Always<T(!new)>(p: Temp<T>): Temp<T> {
    (ex: Execution<T>, i: nat) => forall j: nat :: i <= j ==> p(ex, j)
  }

  ghost function Eventually<T(!new)>(p: Temp<T>): Temp<T> {
    (ex: Execution<T>, i: nat) => exists j: nat :: i <= j && p(ex, j)
  }

  ghost function LeadsTo<T(!new)>(p: Temp<T>, q: Temp<T>): Temp<T> {
    Always(Implies(p, Eventually(q)))
  }

  ghost function Enabled<T(!new)>(a: ActionPred<T>): StatePred<T> {
    s => exists s' :: a(s, s')
  }

  ghost function WeakFairness<T(!new)>(a: ActionPred<T>): Temp<T> {
    LeadsTo(Always(LiftState(Enabled(a))), LiftAction(a))
  }

  ghost predicate Entails<T(!new)>(spec: Temp<T>, p: Temp<T>) {
    forall ex: Execution<T> :: spec(ex, 0) ==> p(ex, 0)
  }

  // ----- rules -----

  /** Either `p` holds from `i` on, or `q` comes to hold. */
  lemma {:induction false} AlwaysOrEventually<T(!new)>(ex: Execution<T>, i: nat, next: Temp<T>, p: Temp<T>, q: Temp<T>)
    requires Always(Implies(And(p, next), Or(Later(p), Later(q))))(ex, i)
    requires Always(next)(ex, i) && p(ex, i)
    ensures Always(p)(ex, i) || Eventually(q)(ex, i)
  {
    if !Eventually(q)(ex, i) {
      forall j: nat | i <= j
        ensures p(ex, j)
      {
        StaysUntil(ex, i, j, next, p, q);
      }
    }
  }

  lemma {:induction false} StaysUntil<T(!new)>(ex: Execution<T>, i: nat, j: nat, next: Temp<T>, p: Temp<T>, q: Temp<T>)
    requires Always(Implies(And(p, next), Or(Later(p), Later(q))))(ex, i)
    requires Always(next)(ex, i) && p(ex, i) && i <= j
    requires !Eventually(q)(ex, i)
    ensures p(ex, j)
    decreases j
  {
    if i < j {
      StaysUntil(ex, i, j - 1, next, p, q);
      assert next(ex, j - 1);
      assert Implies(And(p, next), Or(Later(p), Later(q)))(ex, j - 1);
      assert !q(ex, j);
    }
  }

  /** Fairness in the form: if `p` always holds, the helpful step comes. */
  lemma Wf1Variant<T(!new)>(spec: Temp<T>, next: Temp<T>, forward: Temp<T>, p: Temp<T>, q: Temp<T>)
    requires Entails(spec, Always(Implies(And(p, next), Or(Later(p), Later(q)))))
    requires Entails(spec, Always(Implies(And(And(p, next), forward), Later(q))))
    requires Entails(spec, Always(next))
    requires Entails(spec, LeadsTo(Always(p), forward))
    ensures Entails(spec, LeadsTo(p, q))
  {
    forall ex: Execution<T>, i: nat | spec(ex, 0) && p(ex, i)
      ensures Eventually(q)(ex, i)
    {
      assert Always(Implies(And(p, next), Or(Later(p), Later(q))))(ex, 0);
      assert Always(next)(ex, 0);
      AlwaysOrEventually(ex, i, next, p, q);
      if Always(p)(ex, i) {
        assert Implies(Always(p), Eventually(forward))(ex, i);
        var j: nat :| i <= j && forward(ex, j);
        assert Implies(And(And(p, next), forward), Later(q))(ex, j);
        assert next(ex, j);
        assert q(ex, j + 1);
      }
    }
  }

  lemma AlwaysIntro<T(!new)>(spec: Temp<T>, p: Temp<T>)
    requires forall ex: Execution<T>, i: nat :: p(ex, i)
    ensures Entails(spec, Always(p))
  {
  }

  lemma KeepingLifts<T(!new)>(spec: Temp<T>, next: ActionPred<T>, p: StatePred<T>, q: StatePred<T>)
    requires forall s, s' {:trigger next(s, s')} :: p(s) && next(s, s') ==> p(s') || q(s')
    ensures Entails(spec,
        Always(Implies(And(LiftState(p), LiftAction(next)), Or(Later(LiftState(p)), Later(LiftState(q))))))
  {
    var f := Implies(And(LiftState(p), LiftAction(next)), Or(Later(LiftState(p)), Later(LiftState(q))));
    forall ex: Execution<T>, i: nat
      ensures f(ex, i)
    {
      var s, s' := ex(i), ex(i + 1);
      assert p(s) && next(s, s') ==> p(s') || q(s');
    }
    hide Always, Entails, Implies;
    AlwaysIntro(spec, f);
  }

  lemma HelpingLifts<T(!new)>(spec: Temp<T>, next: ActionPred<T>, forward: ActionPred<T>, p: StatePred<T>,
                              q: StatePred<T>)
    requires forall s, s' {:trigger next(s, s')} :: p(s) && next(s, s') && forward(s, s') ==> q(s')
    ensures Entails(spec,
        Always(Implies(And(And(LiftState(p), LiftAction(next)), LiftAction(forward)), Later(LiftState(q)))))
  {
    var f := Implies(And(And(LiftState(p), LiftAction(next)), LiftAction(forward)), Later(LiftState(q)));
    forall ex: Execution<T>, i: nat
      ensures f(ex, i)
    {
      var s, s' := ex(i), ex(i + 1);
      assert p(s) && next(s, s') && forward(s, s') ==> q(s');
    }
    hide Always, Entails, Implies;
    AlwaysIntro(spec, f);
  }

  lemma EnabledLifts<T(!new)>(spec: Temp<T>, forward: ActionPred<T>, p: StatePred<T>)
    requires forall s :: p(s) ==> Enabled(forward)(s)
    ensures Entails(spec, Always(Implies(Always(LiftState(p)), Always(LiftState(Enabled(forward))))))
  {
    forall ex: Execution<T>, i: nat, j: nat | Always(LiftState(p))(ex, i) && i <= j
      ensures LiftState(Enabled(forward))(ex, j)
    {
      assert LiftState(p)(ex, j);
    }
  }

  lemma ImpliesSelf<T(!new)>(spec: Temp<T>, p: Temp<T>)
    ensures Entails(spec, Always(Implies(p, p)))
  {
  }

  /** Weak fairness of an action that is enabled as long as `p` holds, and leads from `p` to `q`. */
  lemma Wf1<T(!new)>(spec: Temp<T>, next: ActionPred<T>, forward: ActionPred<T>, p: StatePred<T>, q: StatePred<T>)
    requires forall s, s' {:trigger next(s, s')} :: p(s) && next(s, s') ==> p(s') || q(s')
    requires forall s, s' {:trigger next(s, s')} :: p(s) && next(s, s') && forward(s, s') ==> q(s')
    requires forall s :: p(s) ==> Enabled(forward)(s)
    requires Entails(spec, Always(LiftAction(next)))
    requires Entails(spec, WeakFairness(forward))
    ensures Entails(spec, LeadsTo(LiftState(p), LiftState(q)))
  {
    hide Entails, LeadsTo, Enabled, Always, Implies;
    KeepingLifts(spec, next, p, q);
    HelpingLifts(spec, next, forward, p, q);
    EnabledLifts(spec, forward, p);
    ImpliesSelf(spec, LiftAction(forward));
    LeadsToWeaken(spec, Always(LiftState(Enabled(forward))), LiftAction(forward), Always(LiftState(p)),
        LiftAction(forward));
    Wf1Variant(spec, LiftAction(next), LiftAction(forward), LiftState(p), LiftState(q));
  }

  lemma LeadsToTrans<T(!new)>(spec: Temp<T>, p: Temp<T>, q: Temp<T>, r: Temp<T>)
    requires Entails(spec, LeadsTo(p, q)) && Entails(spec, LeadsTo(q, r))
    ensures Entails(spec, LeadsTo(p, r))
  {
    forall ex: Execution<T>, i: nat | spec(ex, 0) && p(ex, i)
      ensures Eventually(r)(ex, i)
    {
      assert Implies(p, Eventually(q))(ex, i);
      var j: nat :| i <= j && q(ex, j);
      assert Implies(q, Eventually(r))(ex, j);
      var k: nat :| j <= k && r(ex, k);
    }
  }

  lemma LeadsToApply<T(!new)>(spec: Temp<T>, p: Temp<T>, q: Temp<T>)
    requires Entails(spec, p) && Entails(spec, LeadsTo(p, q))
    ensures Entails(spec, Eventually(q))
  {
    forall ex: Execution<T> | spec(ex, 0)
      ensures Eventually(q)(ex, 0)
    {
      assert Implies(p, Eventually(q))(ex, 0);
    }
  }

  lemma LeadsToWeaken<T(!new)>(spec: Temp<T>, p1: Temp<T>, q1: Temp<T>, p2: Temp<T>, q2: Temp<T>)
    requires Entails(spec, Always(Implies(p2, p1))) && Entails(spec, Always(Implies(q1, q2)))
    requires Entails(spec, LeadsTo(p1, q1))
    ensures Entails(spec, LeadsTo(p2, q2))
  {
    forall ex: Execution<T>, i: nat | spec(ex, 0) && p2(ex, i)
      ensures Eventually(q2)(ex, i)
    {
      assert Implies(p2, p1)(ex, i);
      assert Implies(p1, Eventually(q1))(ex, i);
      var j: nat :| i <= j && q1(ex, j);
      assert Implies(q1, q2)(ex, j);
    }
  }

  lemma OrLeadsToCombine<T(!new)>(spec: Temp<T>, p: Temp<T>, q: Temp<T>, r: Temp<T>)
    requires Entails(spec, LeadsTo(p, r)) && Entails(spec, LeadsTo(q, r))
    ensures Entails(spec, LeadsTo(Or(p, q), r))
  {
    forall ex: Execution<T>, i: nat | spec(ex, 0) && Or(p, q)(ex, i)
      ensures Eventually(r)(ex, i)
    {
      assert Implies(p, Eventually(r))(ex, i);
      assert Implies(q, Eventually(r))(ex, i);
    }
  }

  lemma {:induction false} PreservedForever<T(!new)>(ex: Execution<T>, i: nat, j: nat, next: Temp<T>, q: Temp<T>)
    requires Always(Implies(And(q, next), Later(q)))(ex, i) && Always(next)(ex, i) && q(ex, i) && i <= j
    ensures q(ex, j)
    decreases j
  {
    if i < j {
      PreservedForever(ex, i, j - 1, next, q);
      assert next(ex, j - 1);
      assert Implies(And(q, next), Later(q))(ex, j - 1);
    }
  }

  lemma LeadsToStable<T(!new)>(spec: Temp<T>, next: Temp<T>, p: Temp<T>, q: Temp<T>)
    requires Entails(spec, Always(Implies(And(q, next), Later(q)))) && Entails(spec, Always(next))
    requires Entails(spec, LeadsTo(p, q))
    ensures Entails(spec, LeadsTo(p, Always(q)))
  {
    forall ex: Execution<T>, i: nat | spec(ex, 0) && p(ex, i)
      ensures Eventually(Always(q))(ex, i)
    {
      assert Implies(p, Eventually(q))(ex, i);
      var j: nat :| i <= j && q(ex, j);
      assert Always(Implies(And(q, next), Later(q)))(ex, 0) && Always(next)(ex, 0);
      forall k: nat | j <= k
        ensures q(ex, k)
      {
        PreservedForever(ex, j, k, next, q);
      }
      assert Always(q)(ex, j);
    }
  }

  /** What always holds may be carried along; the source leaves this rule unproved. */
  lemma LeadsToWithAlways<T(!new)>(spec: Temp<T>, p: Temp<T>, q: Temp<T>, c: Temp<T>)
    requires Entails(spec, LeadsTo(p, q))
    ensures Entails(spec, LeadsTo(And(p, Always(c)), And(q, Always(c))))
  {
    forall ex: Execution<T>, i: nat | spec(ex, 0) && And(p, Always(c))(ex, i)
      ensures Eventually(And(q, Always(c)))(ex, i)
    {
      assert Implies(p, Eventually(q))(ex, i);
      var j: nat :| i <= j && q(ex, j);
      assert And(q, Always(c))(ex, j);
    }
  }

  /** If each level leads to the one below, every level leads to the ground. */
  lemma {:induction false} LeadsToRankStepOne<T(!new)>(spec: Temp<T>, p: nat -> Temp<T>, n: nat)
    requires forall k: nat :: k > 0 ==> Entails(spec, LeadsTo(p(k), p(k - 1)))
    ensures Entails(spec, LeadsTo(p(n), p(0)))
  {
    if n == 0 {
      forall ex: Execution<T>, i: nat | p(0)(ex, i)
        ensures Eventually(p(0))(ex, i)
      {
      }
    } else {
      LeadsToRankStepOne(spec, p, n - 1);
      LeadsToTrans(spec, p(n), p(n - 1), p(0));
    }
  }

  ghost function SomeBetween<T(!new)>(q: int -> Temp<T>, n: int, max: int): Temp<T> {
    (ex: Execution<T>, i: nat) => exists m :: n <= m <= max && q(m)(ex, i)
  }

  /** Staying forever at level `k` brings about the goal of that level. */
  ghost predicate Settles<T(!new)>(spec: Temp<T>, p: int -> Temp<T>, q: int -> Temp<T>, k: int) {
    Entails(spec, LeadsTo(Always(p(k)), q(k)))
  }

  /** A step keeps level `k` or raises it by one. */
  ghost predicate Rises<T(!new)>(spec: Temp<T>, next: Temp<T>, p: int -> Temp<T>, k: int) {
    Entails(spec, Always(Implies(And(p(k), next), Or(Later(p(k)), Later(p(k + 1))))))
  }

  /**
   Monotone progress: each step keeps the level or raises it by one, up to `max`, and staying forever at a
   level brings about its goal. Then from level `n` some goal between `n` and `max` is reached.
   */
  lemma {:induction false} LeadsToByMonotonicity<T(!new)>(spec: Temp<T>, next: Temp<T>, p: int -> Temp<T>,
                                                          q: int -> Temp<T>, n: int, max: int)
    requires n <= max
    requires forall k :: Settles(spec, p, q, k)
    requires forall k :: k < max ==> Rises(spec, next, p, k)
    requires Entails(spec, Always(Implies(And(p(max), next), Later(p(max)))))
    requires Entails(spec, Always(next))
    ensures Entails(spec, LeadsTo(p(n), SomeBetween(q, n, max)))
    decreases max - n
  {
    if n < max {
      LeadsToByMonotonicity(spec, next, p, q, n + 1, max);
    }
    hide Entails, LeadsTo, SomeBetween;
    forall ex: Execution<T>, i: nat | spec(ex, 0) && p(n)(ex, i)
      ensures Eventually(SomeBetween(q, n, max))(ex, i)
    {
      assert Settles(spec, p, q, n);
      if n == max {
        StayingAtTop(spec, next, ex, i, p(n));
        StayingReachesGoal(spec, ex, i, p(n), q, n, n, max);
      } else {
        assert Rises(spec, next, p, n);
        StayingOrRising(spec, next, ex, i, p(n), p(n + 1));
        if Always(p(n))(ex, i) {
          StayingReachesGoal(spec, ex, i, p(n), q, n, n, max);
        } else {
          RisingReachesGoal(spec, ex, i, p(n + 1), q, n, max);
        }
      }
    }
    LeadsToIntro(spec, p(n), SomeBetween(q, n, max));
  }

  lemma StayingAtTop<T(!new)>(spec: Temp<T>, next: Temp<T>, ex: Execution<T>, i: nat, p: Temp<T>)
    requires spec(ex, 0) && p(ex, i)
    requires Entails(spec, Always(Implies(And(p, next), Later(p)))) && Entails(spec, Always(next))
    ensures Always(p)(ex, i)
  {
    assert Always(Implies(And(p, next), Later(p)))(ex, 0) && Always(next)(ex, 0);
    forall j: nat | i <= j
      ensures p(ex, j)
    {
      PreservedForever(ex, i, j, next, p);
    }
  }

  lemma StayingOrRising<T(!new)>(spec: Temp<T>, next: Temp<T>, ex: Execution<T>, i: nat, p: Temp<T>, q: Temp<T>)
    requires spec(ex, 0) && p(ex, i)
    requires Entails(spec, Always(Implies(And(p, next), Or(Later(p), Later(q))))) && Entails(spec, Always(next))
    ensures Always(p)(ex, i) || Eventually(q)(ex, i)
  {
    assert Always(Implies(And(p, next), Or(Later(p), Later(q))))(ex, 0) && Always(next)(ex, 0);
    AlwaysOrEventually(ex, i, next, p, q);
  }

  lemma LeadsToIntro<T(!new)>(spec: Temp<T>, p: Temp<T>, q: Temp<T>)
    requires forall ex: Execution<T>, i: nat :: spec(ex, 0) && p(ex, i) ==> Eventually(q)(ex, i)
    ensures Entails(spec, LeadsTo(p, q))
  {
  }

  lemma StayingReachesGoal<T(!new)>(spec: Temp<T>, ex: Execution<T>, i: nat, p: Temp<T>, q: int -> Temp<T>, k: int,
                                    n: int, max: int)
    requires n <= k <= max && spec(ex, 0) && Always(p)(ex, i)
    requires Entails(spec, LeadsTo(Always(p), q(k)))
    ensures Eventually(SomeBetween(q, n, max))(ex, i)
  {
    assert LeadsTo(Always(p), q(k))(ex, 0);
    assert Implies(Always(p), Eventually(q(k)))(ex, i);
    var j: nat :| i <= j && q(k)(ex, j);
    assert SomeBetween(q, n, max)(ex, j);
  }

  lemma RisingReachesGoal<T(!new)>(spec: Temp<T>, ex: Execution<T>, i: nat, p: Temp<T>, q: int -> Temp<T>, n: int,
                                   max: int)
    requires spec(ex, 0) && Eventually(p)(ex, i)
    requires Entails(spec, LeadsTo(p, SomeBetween(q, n + 1, max)))
    ensures Eventually(SomeBetween(q, n, max))(ex, i)
  {
    var j: nat :| i <= j && p(ex, j);
    assert LeadsTo(p, SomeBetween(q, n + 1, max))(ex, 0);
    assert Implies(p, Eventually(SomeBetween(q, n + 1, max)))(ex, j);
    var k: nat :| j <= k && SomeBetween(q, n + 1, max)(ex, k);
    assert SomeBetween(q, n, max)(ex, k);
  }

  // ----- finitely many goals at once -----

  ghost function AllOf<T(!new), A(!new)>(aToP: A -> Temp<T>, domain: set<A>): Temp<T> {
    (ex: Execution<T>, i: nat) => forall a :: a in domain ==> aToP(a)(ex, i)
  }

  lemma CommonSuffix<T(!new)>(ex: Execution<T>, i: nat, p: Temp<T>, q: Temp<T>) returns (l: nat)
    requires Eventually(Always(p))(ex, i) && Eventually(Always(q))(ex, i)
    ensures i <= l && Always(p)(ex, l) && Always(q)(ex, l)
  {
    var j: nat :| i <= j && Always(p)(ex, j);
    var k: nat :| i <= k && Always(q)(ex, k);
    l := if j <= k then k else j;
  }

  /** Finitely many formulas, even none, that each hold from some point on all hold from one common point on. */
  lemma {:induction false} EventuallyAlwaysAll<T(!new), A(!new)>(ex: Execution<T>, i: nat, aToP: A -> Temp<T>,
                                                                 domain: set<A>)
    requires forall a :: a in domain ==> Eventually(Always(aToP(a)))(ex, i)
    ensures Eventually(Always(AllOf(aToP, domain)))(ex, i)
  {
    if domain == {} {
      assert Always(AllOf(aToP, domain))(ex, i);
    } else {
      var a :| a in domain;
      EventuallyAlwaysAll(ex, i, aToP, domain - {a});
      var l := CommonSuffix(ex, i, AllOf(aToP, domain - {a}), aToP(a));
      OneMore(ex, l, aToP, domain, a);
    }
  }

  lemma OneMore<T(!new), A(!new)>(ex: Execution<T>, l: nat, aToP: A -> Temp<T>, domain: set<A>, a: A)
    requires Always(AllOf(aToP, domain - {a}))(ex, l) && Always(aToP(a))(ex, l)
    ensures Always(AllOf(aToP, domain))(ex, l)
  {
    forall m: nat | l <= m
      ensures AllOf(aToP, domain)(ex, m)
    {
      assert AllOf(aToP, domain - {a})(ex, m);
      assert aToP(a)(ex, m);
    }
  }

  /** The same after a premise, for every execution of a specification. */
  lemma LeadsToAlwaysAll<T(!new), A(!new)>(spec: Temp<T>, p: Temp<T>, aToP: A -> Temp<T>, domain: set<A>)
    ensures (forall a :: a in domain ==> Entails(spec, LeadsTo(p, Always(aToP(a))))) <==>
            Entails(spec, LeadsTo(p, Always(AllOf(aToP, domain))))
  {
    if forall a :: a in domain ==> Entails(spec, LeadsTo(p, Always(aToP(a)))) {
      forall ex: Execution<T>, i: nat | spec(ex, 0) && p(ex, i)
        ensures Eventually(Always(AllOf(aToP, domain)))(ex, i)
      {
        forall a | a in domain
          ensures Eventually(Always(aToP(a)))(ex, i)
        {
          assert LeadsTo(p, Always(aToP(a)))(ex, 0);
          assert Implies(p, Eventually(Always(aToP(a))))(ex, i);
        }
        EventuallyAlwaysAll(ex, i, aToP, domain);
      }
    }
    if Entails(spec, LeadsTo(p, Always(AllOf(aToP, domain)))) {
      forall a, ex: Execution<T>, i: nat | a in domain && spec(ex, 0) && p(ex, i)
        ensures Eventually(Always(aToP(a)))(ex, i)
      {
        assert LeadsTo(p, Always(AllOf(aToP, domain)))(ex, 0);
        assert Implies(p, Eventually(Always(AllOf(aToP, domain))))(ex, i);
        var j: nat :| i <= j && Always(AllOf(aToP, domain))(ex, j);
        forall k: nat | j <= k
          ensures aToP(a)(ex, k)
        {
          assert AllOf(aToP, domain)(ex, k);
        }
        assert Always(aToP(a))(ex, j);
      }
    }
  }

  // ----- the two forms of weak fairness -----

  /** "Always enabled leads to the step" says the same as "infinitely often the step, or infinitely often disabled". */
  lemma WeakFairnessForms<T(!new)>(a: ActionPred<T>, ex: Execution<T>, i: nat)
    ensures WeakFairness(a)(ex, i) <==>
            Or(Always(Eventually(LiftAction(a))), Always(Eventually(Not(LiftState(Enabled(a))))))(ex, i)
  {
    var en, act := LiftState(Enabled(a)), LiftAction(a);
    if WeakFairness(a)(ex, i) && !Always(Eventually(Not(en)))(ex, i) {
      var k: nat :| i <= k && !Eventually(Not(en))(ex, k);
      forall j: nat | i <= j
        ensures Eventually(act)(ex, j)
      {
        // Enabled from k on, hence from the later of j and k on.
        var l := if j <= k then k else j;
        forall m: nat | l <= m
          ensures en(ex, m)
        {
          assert !Not(en)(ex, m);
        }
        assert Implies(Always(en), Eventually(act))(ex, l);
      }
    }
    if Always(Eventually(Not(en)))(ex, i) {
      forall j: nat | i <= j
        ensures !Always(en)(ex, j)
      {
        assert Eventually(Not(en))(ex, j);
        var m: nat :| j <= m && Not(en)(ex, m);
        assert !en(ex, m);
      }
    }
  }

}
