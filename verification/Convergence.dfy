/** Bringing a store to a target state by owned steps, from wherever earlier attempts left it.

    A site gives every interface the sections it should have (target), the section names on
    record for it (prior), and the sections that belong to nobody here (foreign).  One
    invariant, Partial, describes every store that any mixture of owned steps can produce;
    each single step keeps it, and Describes is the state a whole plan is after.
  */
module Convergence {
  import opened Uci

  datatype Site = Site(target: map<string, Config>, prior: map<string, set<string>>, foreign: Config)

  ghost function Names(s: Site): set<string> { s.target.Keys + s.prior.Keys }

  ghost function Recorded(s: Site, i: string): set<string> { if i in s.prior then s.prior[i] else {} }

  ghost function Target(s: Site, i: string): Config { if i in s.target then s.target[i] else map[] }

  ghost function Wanted(s: Site, i: string): set<string> { Target(s, i).Keys }

  ghost function Own(s: Site, i: string): set<string> { Recorded(s, i) + Wanted(s, i) }

  // No two interfaces share a section name, and none is foreign.
  ghost predicate Separate(s: Site) {
    && (forall i, j :: i in Names(s) && j in Names(s) && i != j ==> Own(s, i) !! Own(s, j))
    && (forall i :: i in Names(s) ==> Own(s, i) !! s.foreign.Keys)
  }

  lemma OwnerUnique(s: Site, i: string, j: string, x: string)
    requires Separate(s) && i in Names(s) && j in Names(s) && x in Own(s, i) && x in Own(s, j)
    ensures i == j
  {
  }

  lemma NotForeign(s: Site, i: string, x: string)
    requires Separate(s) && i in Names(s) && x in Own(s, i)
    ensures x !in s.foreign
  {
  }

  ghost predicate Intact(s: Site, cfg: Config, i: string) {
    forall x :: x in Wanted(s, i) ==> x in cfg && cfg[x] == Target(s, i)[x]
  }

  // On record and wanted, and nothing on record that is not wanted.
  ghost predicate Settled(s: Site, i: string) { i in s.target && i in s.prior && Recorded(s, i) <= Wanted(s, i) }

  ghost predicate Known(s: Site, x: string) {
    x in s.foreign || exists i :: i in Names(s) && x in Own(s, i)
  }

  ghost predicate ForeignKept(s: Site, cfg: Config) {
    forall x :: x in s.foreign ==> x in cfg && cfg[x] == s.foreign[x]
  }

  // A section that the deletions do not cover holds no option that the create will not set.
  ghost predicate NoLeftover(s: Site, cfg: Config, i: string) {
    forall x :: x in Wanted(s, i) && x !in Recorded(s, i) && x in cfg ==>
      cfg[x].options.Keys <= Target(s, i)[x].options.Keys
  }

  // What the store holds of interface i, depending on whether steps have touched it.
  ghost predicate PartOk(s: Site, cfg: Config, touched: set<string>, i: string) {
    if i in touched then NoLeftover(s, cfg, i) else Settled(s, i) && Intact(s, cfg, i)
  }

  // Any store that steps for the interfaces in `touched` may have produced.
  ghost predicate Partial(s: Site, cfg: Config, touched: set<string>) {
    && ForeignKept(s, cfg)
    && (forall x :: x in cfg ==> Known(s, x))
    && (forall i :: i in Names(s) ==> PartOk(s, cfg, touched, i))
  }

  ghost predicate IsWanted(s: Site, x: string) {
    x in s.foreign || exists i :: i in s.target && x in Wanted(s, i)
  }

  // The wanted sections, the foreign sections, and nothing else.
  ghost predicate Describes(s: Site, cfg: Config) {
    && ForeignKept(s, cfg)
    && (forall i :: i in s.target ==> Intact(s, cfg, i))
    && (forall x :: x in cfg ==> IsWanted(s, x))
  }

  lemma DescribedAt(s: Site, a: Config, b: Config, x: string)
    requires Describes(s, a) && Describes(s, b) && x in a
    ensures x in b && a[x] == b[x]
  {
    assert IsWanted(s, x);
    if x !in s.foreign {
      var i :| i in s.target && x in Wanted(s, i);
      assert Intact(s, a, i) && Intact(s, b, i);
    }
  }

  // There is only one such state.
  lemma DescribesUnique(s: Site, a: Config, b: Config)
    requires Describes(s, a) && Describes(s, b)
    ensures a == b
  {
    forall x | x in a ensures x in b && a[x] == b[x] { DescribedAt(s, a, b, x); }
    forall x | x in b ensures x in a && a[x] == b[x] { DescribedAt(s, b, a, x); }
  }

  // ----- every owned step keeps Partial -----

  // What a plan step for interface i may be.
  ghost predicate StepFor(s: Site, i: string, step: Step) {
    match step
    case DeleteIfPresent(SectionPath(x)) => x in Recorded(s, i)
    case DeleteIfPresent(OptionPath(x, _)) => x in Wanted(s, i)
    case Do(Create(x, _)) => x in Wanted(s, i)
    case Do(Set(x, o, _)) => x in Wanted(s, i) && o in Target(s, i)[x].options
    case Do(AddList(x, o, _)) => x in Wanted(s, i) && o in Target(s, i)[x].options
    case Do(_) => false
  }

  lemma StepOwned(s: Site, i: string, step: Step)
    requires StepFor(s, i, step)
    ensures StepSection(step) in Own(s, i)
  {
  }

  lemma StepElsewhere(step: Step, cfg: Config, x: string)
    requires x != StepSection(step)
    ensures SameAt(StepEffect(step, cfg), cfg, x)
  {
  }

  lemma StepKeepsIntact(s: Site, cfg: Config, i: string, j: string, step: Step)
    requires Separate(s) && i in Names(s) && j in Names(s) && i != j
    requires StepFor(s, i, step) && Intact(s, cfg, j)
    ensures Intact(s, StepEffect(step, cfg), j)
  {
    forall x | x in Wanted(s, j) ensures SameAt(StepEffect(step, cfg), cfg, x) {
      StepOwned(s, i, step);
      if x == StepSection(step) { OwnerUnique(s, i, j, x); }
      StepElsewhere(step, cfg, x);
    }
  }

  lemma StepKeepsForeign(s: Site, cfg: Config, i: string, step: Step)
    requires Separate(s) && i in Names(s)
    requires StepFor(s, i, step) && ForeignKept(s, cfg)
    ensures ForeignKept(s, StepEffect(step, cfg))
  {
    StepOwned(s, i, step);
    NotForeign(s, i, StepSection(step));
    forall x | x in s.foreign ensures SameAt(StepEffect(step, cfg), cfg, x) { StepElsewhere(step, cfg, x); }
  }

  lemma StepKeepsOptions(s: Site, cfg: Config, i: string, step: Step, x: string)
    requires StepFor(s, i, step) && x == StepSection(step) && x in Wanted(s, i) && x !in Recorded(s, i)
    requires x in cfg ==> cfg[x].options.Keys <= Target(s, i)[x].options.Keys
    requires x in StepEffect(step, cfg)
    ensures StepEffect(step, cfg)[x].options.Keys <= Target(s, i)[x].options.Keys
  {
  }

  lemma StepKeepsNoLeftover(s: Site, cfg: Config, i: string, j: string, step: Step)
    requires Separate(s) && i in Names(s) && j in Names(s)
    requires StepFor(s, i, step) && NoLeftover(s, cfg, j)
    ensures NoLeftover(s, StepEffect(step, cfg), j)
  {
    var next := StepEffect(step, cfg);
    forall x | x in Wanted(s, j) && x !in Recorded(s, j) && x in next
      ensures next[x].options.Keys <= Target(s, j)[x].options.Keys
    {
      if x != StepSection(step) {
        StepElsewhere(step, cfg, x);
      } else {
        StepOwned(s, i, step);
        OwnerUnique(s, i, j, x);
        StepKeepsOptions(s, cfg, j, step, x);
      }
    }
  }

  lemma StepAddsKnown(s: Site, cfg: Config, i: string, step: Step, x: string)
    requires i in Names(s) && StepFor(s, i, step) && (x in cfg ==> Known(s, x))
    requires x in StepEffect(step, cfg)
    ensures Known(s, x)
  {
    StepOwned(s, i, step);
    if x != StepSection(step) { StepElsewhere(step, cfg, x); }
  }

  lemma StepKeepsPartial(s: Site, cfg: Config, touched: set<string>, i: string, step: Step)
    requires Separate(s) && Partial(s, cfg, touched)
    requires i in Names(s) && i in touched && StepFor(s, i, step)
    ensures Partial(s, StepEffect(step, cfg), touched)
  {
    var next := StepEffect(step, cfg);
    StepKeepsForeign(s, cfg, i, step);
    forall x | x in next ensures Known(s, x) { StepAddsKnown(s, cfg, i, step, x); }
    forall j | j in Names(s) ensures PartOk(s, next, touched, j) {
      assert PartOk(s, cfg, touched, j);
      if j in touched { StepKeepsNoLeftover(s, cfg, i, j, step); } else { StepKeepsIntact(s, cfg, i, j, step); }
    }
  }

  ghost predicate SafeStep(s: Site, touched: set<string>, step: Step) {
    exists i :: i in Names(s) && i in touched && StepFor(s, i, step)
  }

  ghost predicate Safe(s: Site, touched: set<string>, plan: seq<Step>) {
    plan == [] || (SafeStep(s, touched, plan[0]) && Safe(s, touched, plan[1..]))
  }

  lemma {:induction false} SafeFor(s: Site, touched: set<string>, i: string, plan: seq<Step>)
    requires i in Names(s) && i in touched && forall n :: 0 <= n < |plan| ==> StepFor(s, i, plan[n])
    ensures Safe(s, touched, plan)
  {
    if plan != [] { SafeFor(s, touched, i, plan[1..]); }
  }

  lemma {:induction false} SafeConcat(s: Site, touched: set<string>, a: seq<Step>, b: seq<Step>)
    requires Safe(s, touched, a) && Safe(s, touched, b)
    ensures Safe(s, touched, a + b)
  {
    if a == [] {
      assert a + b == b;
    } else {
      assert (a + b)[1..] == a[1..] + b;
      SafeConcat(s, touched, a[1..], b);
    }
  }

  // A safe plan cut short is safe.
  lemma {:induction false} SafePrefix(s: Site, touched: set<string>, plan: seq<Step>, k: nat)
    requires Safe(s, touched, plan) && k <= |plan|
    ensures Safe(s, touched, plan[..k])
  {
    if k > 0 {
      assert plan[..k][1..] == plan[1..][..k - 1];
      SafePrefix(s, touched, plan[1..], k - 1);
    }
  }

  lemma SafeStepKeepsPartial(s: Site, cfg: Config, touched: set<string>, step: Step)
    requires Separate(s) && Partial(s, cfg, touched) && SafeStep(s, touched, step)
    ensures Partial(s, StepEffect(step, cfg), touched)
  {
    var i :| i in Names(s) && i in touched && StepFor(s, i, step);
    StepKeepsPartial(s, cfg, touched, i, step);
  }

  lemma {:induction false} PlanKeepsPartial(s: Site, cfg: Config, touched: set<string>, plan: seq<Step>)
    requires Separate(s) && Partial(s, cfg, touched) && Safe(s, touched, plan)
    ensures Partial(s, Run(plan, cfg), touched)
    decreases |plan|
  {
    if plan != [] {
      SafeStepKeepsPartial(s, cfg, touched, plan[0]);
      PlanKeepsPartial(s, StepEffect(plan[0], cfg), touched, plan[1..]);
    }
  }

  // ----- getting there -----

  // Interface i is as it should be: built as wanted, and nothing recorded left behind.
  ghost predicate Done(s: Site, cfg: Config, i: string) {
    Intact(s, cfg, i) && forall x :: x in Recorded(s, i) && x !in Wanted(s, i) ==> x !in cfg
  }

  ghost predicate PlanFor(s: Site, i: string, plan: seq<Step>) {
    forall n :: 0 <= n < |plan| ==> StepFor(s, i, plan[n])
  }

  lemma PlanKeepsAt(s: Site, cfg: Config, i: string, plan: seq<Step>, x: string)
    requires PlanFor(s, i, plan) && x !in Own(s, i)
    ensures SameAt(Run(plan, cfg), cfg, x)
  {
    forall n | 0 <= n < |plan| ensures StepSection(plan[n]) != x { StepOwned(s, i, plan[n]); }
    RunElsewhere(plan, cfg, x);
  }

  lemma PlanKeepsDone(s: Site, cfg: Config, i: string, plan: seq<Step>, j: string)
    requires Separate(s) && i in Names(s) && j in Names(s) && i != j && Done(s, cfg, j) && PlanFor(s, i, plan)
    ensures Done(s, Run(plan, cfg), j)
  {
    forall x | x in Own(s, j) ensures SameAt(Run(plan, cfg), cfg, x) {
      if x in Own(s, i) { OwnerUnique(s, i, j, x); }
      PlanKeepsAt(s, cfg, i, plan, x);
    }
    assert forall x :: x in Wanted(s, j) ==> x in Own(s, j);
  }

  // Interfaces that are settled and intact may as well have been touched.
  lemma Widen(s: Site, cfg: Config, touched: set<string>, wider: set<string>)
    requires Partial(s, cfg, touched) && touched <= wider
    ensures Partial(s, cfg, wider)
  {
    forall i | i in Names(s) ensures PartOk(s, cfg, wider, i) { assert PartOk(s, cfg, touched, i); }
  }

  // Interfaces that are settled and intact need not count as touched.
  lemma Narrow(s: Site, cfg: Config, touched: set<string>, narrower: set<string>)
    requires Partial(s, cfg, touched)
    requires forall i :: i in Names(s) && i in touched && i !in narrower ==> Settled(s, i) && Intact(s, cfg, i)
    ensures Partial(s, cfg, narrower)
  {
    forall i | i in Names(s) ensures PartOk(s, cfg, narrower, i) { assert PartOk(s, cfg, touched, i); }
  }

  lemma NothingElse(s: Site, r: Config, touched: set<string>, x: string)
    requires Partial(s, r, touched) && x in r
    requires forall i :: i in touched ==> Done(s, r, i)
    ensures IsWanted(s, x)
  {
    assert Known(s, x);
    if x !in s.foreign {
      var i :| i in Names(s) && x in Own(s, i);
      assert PartOk(s, r, touched, i);
      assert x in Wanted(s, i);
    }
  }

  // Once every touched interface is done, the store is the wanted one.
  lemma AllDone(s: Site, r: Config, touched: set<string>)
    requires Partial(s, r, touched)
    requires forall i :: i in touched ==> Done(s, r, i)
    ensures Describes(s, r)
  {
    forall i | i in s.target ensures Intact(s, r, i) {
      assert PartOk(s, r, touched, i);
    }
    forall x | x in r ensures IsWanted(s, x) { NothingElse(s, r, touched, x); }
  }

  // A wanted state is a partial one for any bookkeeping.
  lemma DescribesPartial(s: Site, cfg: Config, touched: set<string>)
    requires Describes(s, cfg)
    requires forall i :: i in Names(s) && i !in touched ==> Settled(s, i)
    ensures Partial(s, cfg, touched)
  {
    forall x | x in cfg ensures Known(s, x) {
      assert IsWanted(s, x);
      if x !in s.foreign {
        var i :| i in s.target && x in Wanted(s, i);
        assert i in Names(s) && x in Own(s, i);
      }
    }
    forall i | i in Names(s) ensures PartOk(s, cfg, touched, i) {
      if i in s.target { assert Intact(s, cfg, i); }
    }
  }
}
