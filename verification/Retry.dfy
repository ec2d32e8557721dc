/** Retry convergence.

    For one bundle and one last.json, attempts may be cut short at any command, with the
    staged changes reverted or left behind, before the commit or after it.  Whatever the
    history, one complete attempt ends in exactly the state a single clean attempt reaches --
    provided that an attempt which does not force every interface finds the sections of the
    interfaces it skips intact.  That proviso is exact: only staged leftovers of a forced
    attempt can break it, and then convergence does fail.
  */
module Retry {
  import opened Text
  import opened Bundle
  import opened Uci
  import opened InterfaceBatch
  import opened InterfaceSections
  import opened Last
  import opened DiffTypes
  import opened ApplyPlan
  import opened Convergence
  import opened NetworkProofs

  datatype Store = Store(staged: Config, committed: Config)

  // How an attempt was cut short: after `steps` steps of its plan (the whole plan if that is
  // shorter), or past its commit.
  datatype Cut = Cut(forceAll: bool, steps: nat, reverted: bool, pastCommit: bool)

  // Staged changes that nobody reverted.
  predicate Leaves(c: Cut) { !c.pastCommit && !c.reverted }

  // Nothing of the attempt is left.
  predicate Undone(c: Cut) { !c.pastCommit && (c.reverted || c.steps == 0) }

  function Prefix(plan: seq<Step>, k: nat): seq<Step> { if k <= |plan| then plan[..k] else plan }

  function AfterCut(plan: seq<Step>, n: Store, c: Cut): Store {
    if c.pastCommit then Store(Run(plan, n.staged), Run(plan, n.staged))
    else Store(if c.reverted then n.committed else Run(Prefix(plan, c.steps), n.staged), n.committed)
  }

  predicate AtRest(n: Store) { n.staged == n.committed }

  lemma NoSteps(plan: seq<Step>, n: Store, c: Cut)
    requires AtRest(n) && Undone(c)
    ensures AfterCut(plan, n, c) == n
  {
    assert Prefix(plan, 0) == [];
  }

  // The plans of the two diffs a retry may compute: the ordinary one and the one with forceAll.
  datatype Plans = Plans(ordinary: seq<Step>, forced: seq<Step>)

  function PlanOf(p: Plans, forceAll: bool): seq<Step> { if forceAll then p.forced else p.ordinary }

  function AfterCuts(p: Plans, n: Store, cuts: seq<Cut>): Store
    decreases |cuts|
  {
    if cuts == [] then n else AfterCuts(p, AfterCut(PlanOf(p, cuts[0].forceAll), n, cuts[0]), cuts[1..])
  }

  // No forced attempt left staged changes behind.
  predicate Tidy(cuts: seq<Cut>) { cuts == [] || ((cuts[0].forceAll ==> !Leaves(cuts[0])) && Tidy(cuts[1..])) }

  // ----- what a plan has to be -----

  // A plan for the interfaces in `acted`: every step is one of theirs, and the plan completes.
  ghost predicate Works(s: Site, acted: set<string>, plan: seq<Step>) {
    && Safe(s, acted, plan)
    && (forall cfg :: Partial(s, cfg, acted) ==> Completes(s, plan, cfg))
    && (forall i :: i in Names(s) && i !in acted ==> Settled(s, i))
  }

  ghost predicate Completes(s: Site, plan: seq<Step>, cfg: Config) {
    Accepted(plan, cfg) && Describes(s, Run(plan, cfg))
  }

  // The plan of a diff that leaves out only unaltered interfaces.
  lemma DiffPlanWorks(s: Site, v: Sides, ds: seq<InterfaceDiff>)
    requires Separate(s) && IsSite(s, v) && AllFit(v, ds)
    requires forall i :: i in Names(s) && i !in Acted(ds) ==> Unaltered(v, i)
    ensures forall n :: 0 <= n < |ds| ==> HasContent(ds[n])
    ensures Works(s, Acted(ds), NetworkPlan(v.net, ds))
  {
    NetworkPlanSafe(s, v, ds, Acted(ds));
    forall cfg | Partial(s, cfg, Acted(ds)) ensures Completes(s, NetworkPlan(v.net, ds), cfg) {
      PlanCompletes(s, v, cfg, Acted(ds), ds);
    }
    forall i | i in Names(s) && i !in Acted(ds) ensures Settled(s, i) { UnalteredSettled(s, v, i); }
  }

  // Both plans work: the ordinary one for the altered interfaces, the forced one for all.
  ghost predicate BothWork(s: Site, acted: set<string>, p: Plans) {
    Separate(s) && acted <= Names(s) && Works(s, acted, p.ordinary) && Works(s, Names(s), p.forced)
  }

  // ----- every cut keeps the store partial -----

  ghost predicate StorePartial(s: Site, n: Store, touched: set<string>) {
    Partial(s, n.staged, touched) && Partial(s, n.committed, touched)
  }

  lemma PrefixKeepsPartial(s: Site, cfg: Config, touched: set<string>, plan: seq<Step>, k: nat)
    requires Separate(s) && Partial(s, cfg, touched) && Safe(s, touched, plan)
    ensures Partial(s, Run(Prefix(plan, k), cfg), touched)
  {
    if k <= |plan| { SafePrefix(s, touched, plan, k); }
    PlanKeepsPartial(s, cfg, touched, Prefix(plan, k));
  }

  // A cut of the plan's own interfaces.
  lemma OwnCut(s: Site, n: Store, touched: set<string>, plan: seq<Step>, c: Cut)
    requires Separate(s) && StorePartial(s, n, touched) && Safe(s, touched, plan)
    ensures StorePartial(s, AfterCut(plan, n, c), touched)
  {
    PrefixKeepsPartial(s, n.staged, touched, plan, c.steps);
    PlanKeepsPartial(s, n.staged, touched, plan);
  }

  // A forced attempt among ordinary ones: it completes, or it is as if it had not been.
  lemma ForcedCut(s: Site, n: Store, acted: set<string>, p: Plans, c: Cut)
    requires BothWork(s, acted, p) && StorePartial(s, n, acted) && c.forceAll && !Leaves(c)
    ensures StorePartial(s, AfterCut(p.forced, n, c), acted)
  {
    if c.pastCommit {
      Widen(s, n.staged, acted, Names(s));
      assert Completes(s, p.forced, n.staged);
      DescribesPartial(s, Run(p.forced, n.staged), acted);
    }
  }

  lemma {:induction false} SafeWider(s: Site, touched: set<string>, wider: set<string>, plan: seq<Step>)
    requires Safe(s, touched, plan) && touched <= wider
    ensures Safe(s, wider, plan)
  {
    if plan != [] {
      SafeWider(s, touched, wider, plan[1..]);
      var i :| i in Names(s) && i in touched && StepFor(s, i, plan[0]);
      assert i in wider;
    }
  }

  // Any history at all leaves a store that a forced attempt can start from.
  lemma {:induction false} AnyCuts(s: Site, acted: set<string>, p: Plans, n: Store, cuts: seq<Cut>)
    requires BothWork(s, acted, p) && StorePartial(s, n, Names(s))
    ensures StorePartial(s, AfterCuts(p, n, cuts), Names(s))
    decreases |cuts|
  {
    if cuts != [] {
      var plan := PlanOf(p, cuts[0].forceAll);
      SafeWider(s, acted, Names(s), p.ordinary);
      OwnCut(s, n, Names(s), plan, cuts[0]);
      AnyCuts(s, acted, p, AfterCut(plan, n, cuts[0]), cuts[1..]);
    }
  }

  // A tidy history leaves a store that an ordinary attempt can start from.
  lemma {:induction false} TidyCuts(s: Site, acted: set<string>, p: Plans, n: Store, cuts: seq<Cut>)
    requires BothWork(s, acted, p) && StorePartial(s, n, acted) && Tidy(cuts)
    ensures StorePartial(s, AfterCuts(p, n, cuts), acted)
    decreases |cuts|
  {
    if cuts != [] {
      var plan := PlanOf(p, cuts[0].forceAll);
      if cuts[0].forceAll { ForcedCut(s, n, acted, p, cuts[0]); } else { OwnCut(s, n, acted, plan, cuts[0]); }
      TidyCuts(s, acted, p, AfterCut(plan, n, cuts[0]), cuts[1..]);
    }
  }

  // ----- convergence -----

  // After any history of interrupted attempts, one complete attempt is never refused and
  // reaches the state that a single clean attempt reaches.
  lemma RetryConverges(s: Site, acted: set<string>, p: Plans, cfg: Config, cuts: seq<Cut>, forceAll: bool)
    requires BothWork(s, acted, p) && Partial(s, cfg, acted)
    requires forceAll || Tidy(cuts)
    ensures var left := AfterCuts(p, Store(cfg, cfg), cuts).staged;
      Completes(s, PlanOf(p, forceAll), left) && Run(PlanOf(p, forceAll), left) == Run(PlanOf(p, forceAll), cfg)
  {
    var left := AfterCuts(p, Store(cfg, cfg), cuts).staged;
    Widen(s, cfg, acted, Names(s));
    if forceAll { AnyCuts(s, acted, p, Store(cfg, cfg), cuts); } else { TidyCuts(s, acted, p, Store(cfg, cfg), cuts); }
    assert Completes(s, PlanOf(p, forceAll), left) && Completes(s, PlanOf(p, forceAll), cfg);
    DescribesUnique(s, Run(PlanOf(p, forceAll), left), Run(PlanOf(p, forceAll), cfg));
  }

  // ----- the exact condition for an ordinary attempt -----

  // A plan leaves alone the sections of every interface it does not act on.
  lemma {:induction false} SafeKeepsAt(s: Site, touched: set<string>, plan: seq<Step>, cfg: Config, i: string,
                                       x: string)
    requires Separate(s) && Safe(s, touched, plan) && i in Names(s) && i !in touched && x in Own(s, i)
    ensures SameAt(Run(plan, cfg), cfg, x)
  {
    if plan != [] {
      var j :| j in Names(s) && j in touched && StepFor(s, j, plan[0]);
      StepOwned(s, j, plan[0]);
      if StepSection(plan[0]) == x { OwnerUnique(s, i, j, x); }
      StepElsewhere(plan[0], cfg, x);
      SafeKeepsAt(s, touched, plan[1..], StepEffect(plan[0], cfg), i, x);
    }
  }

  ghost predicate SkippedIntact(s: Site, acted: set<string>, cfg: Config) {
    forall i :: i in Names(s) && i !in acted ==> Intact(s, cfg, i)
  }

  lemma SkippedStay(s: Site, acted: set<string>, plan: seq<Step>, cfg: Config, i: string)
    requires Separate(s) && Works(s, acted, plan) && i in Names(s) && i !in acted
    requires Describes(s, Run(plan, cfg))
    ensures Intact(s, cfg, i)
  {
    assert Settled(s, i);
    assert Intact(s, Run(plan, cfg), i);
    forall x | x in Wanted(s, i) ensures SameAt(Run(plan, cfg), cfg, x) { SafeKeepsAt(s, acted, plan, cfg, i, x); }
  }

  // From whatever interrupted attempts left, forced ones included, an ordinary attempt
  // converges if and only if the interfaces it skips are intact beforehand.
  lemma OrdinaryConvergesIff(s: Site, acted: set<string>, p: Plans, cfg: Config)
    requires BothWork(s, acted, p) && Partial(s, cfg, Names(s))
    ensures Describes(s, Run(p.ordinary, cfg)) <==> SkippedIntact(s, acted, cfg)
  {
    if SkippedIntact(s, acted, cfg) {
      Narrow(s, cfg, Names(s), acted);
      assert Completes(s, p.ordinary, cfg);
    }
    if Describes(s, Run(p.ordinary, cfg)) {
      forall i | i in Names(s) && i !in acted ensures Intact(s, cfg, i) { SkippedStay(s, acted, p.ordinary, cfg, i); }
    }
  }
}
