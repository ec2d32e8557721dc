/** What an apply makes of a store that earlier attempts left behind, whatever bundles they were
    for: it ends in the wanted store if and only if the store is Partial for its diff.
  */
module Leftovers {
  import opened Text
  import opened Bundle
  import opened Uci
  import opened InterfaceBatch
  import opened InterfaceSections
  import opened Last
  import opened DiffTypes
  import opened ApplyPlan
  import opened Convergence
  import opened NetworkProofs
  import opened Retry
  import opened Rebuild

  // ----- options that a plan does not delete -----

  // The step deletes neither section x nor its option o.
  predicate Spares(step: Step, x: string, o: string) {
    match step
    case Do(Delete(path)) => path != SectionPath(x) && path != OptionPath(x, o)
    case DeleteIfPresent(path) => path != SectionPath(x) && path != OptionPath(x, o)
    case Do(_) => true
  }

  ghost predicate AllSpare(plan: seq<Step>, x: string, o: string) {
    forall n :: 0 <= n < |plan| ==> Spares(plan[n], x, o)
  }

  ghost predicate HasOption(cfg: Config, x: string, o: string) { x in cfg && o in cfg[x].options }

  lemma SpareStep(step: Step, cfg: Config, x: string, o: string)
    requires Spares(step, x, o) && HasOption(cfg, x, o)
    ensures HasOption(StepEffect(step, cfg), x, o)
  {
  }

  lemma {:induction false} SparedStays(plan: seq<Step>, cfg: Config, x: string, o: string)
    requires AllSpare(plan, x, o) && HasOption(cfg, x, o)
    ensures HasOption(Run(plan, cfg), x, o)
    decreases |plan|
  {
    if plan != [] {
      SpareStep(plan[0], cfg, x, o);
      SparedStays(plan[1..], StepEffect(plan[0], cfg), x, o);
    }
  }

  lemma SpareConcat(a: seq<Step>, b: seq<Step>, x: string, o: string)
    requires AllSpare(a, x, o) && AllSpare(b, x, o)
    ensures AllSpare(a + b, x, o)
  {
  }

  // Interface i neither has section x on record nor sets option o of it.
  ghost predicate Unset(s: Site, v: Sides, i: string, x: string, o: string) {
    && x !in Recorded(s, i)
    && (x in Wanted(s, i) ==> i in v.wanted && ValidInterface(v.wanted[i]) && o !in Target(s, i)[x].options)
  }

  lemma {:induction false} SectionDeletions(names: seq<string>, x: string, o: string)
    requires x !in names
    ensures AllSpare(DeleteSteps(names), x, o)
  {
    forall n | 0 <= n < |names| ensures Spares(DeleteSteps(names)[n], x, o) { assert names[n] in names; }
  }

  lemma UncoveredNames(name: string, i: Interface, x: string)
    requires x !in Covered(name, i)
    ensures var s := SectionsFor(name, i); x !in s.peers && x !in s.routes && (s.iface == "" || s.iface != x)
  {
    if x == "" { EmptyListed(name, i); }
  }

  lemma EmptyListed(name: string, i: Interface)
    ensures var s := SectionsFor(name, i); "" !in s.peers && "" !in s.routes
  {
  }

  lemma DeleteSpares(s: Site, v: Sides, i: string, x: string, o: string)
    requires i in v.recorded && RecordedAt(s, v, i) && x !in Recorded(s, i)
    ensures AllSpare(DeletePlan(SectionsFor(i, v.recorded[i])), x, o)
  {
    var sections := SectionsFor(i, v.recorded[i]);
    UncoveredNames(i, v.recorded[i], x);
    var itself := if sections.iface != "" then [sections.iface] else [];
    SectionDeletions(sections.peers, x, o);
    SectionDeletions(sections.routes, x, o);
    SectionDeletions(itself, x, o);
    SpareConcat(DeleteSteps(sections.peers), DeleteSteps(sections.routes), x, o);
    SpareConcat(DeleteSteps(sections.peers) + DeleteSteps(sections.routes), DeleteSteps(itself), x, o);
  }

  // Every list option that a valid interface has cleared is one that it sets.
  lemma ListedIsSet(net: Net, name: string, i: Interface, n: nat)
    requires ValidInterface(i) && n < |ListPaths(name, i)| && ListPaths(name, i)[n].OptionPath?
    ensures var path := ListPaths(name, i)[n];
      path.section in Built(net, name, i) && path.option in Built(net, name, i)[path.section].options
  {
    if n == 0 {
      BuiltIsWanted(net, name, i, Itself);
    } else {
      var keys := Sorted(Peers(i).Keys);
      assert keys[n - 1] in keys;
      BuiltIsWanted(net, name, i, PeerNamed(keys[n - 1]));
    }
  }

  lemma ClearSpares(s: Site, v: Sides, i: string, x: string, o: string)
    requires i in v.wanted && WantedAt(s, v, i) && Unset(s, v, i, x, o)
    ensures AllSpare(ClearPlan(ListPaths(i, v.wanted[i])), x, o)
  {
    var paths := ListPaths(i, v.wanted[i]);
    ListsAreOptions(i, v.wanted[i]);
    BuiltNames(v.net, i, v.wanted[i]);
    forall n | 0 <= n < |paths| ensures paths[n] != SectionPath(x) && paths[n] != OptionPath(x, o) {
      ListedPathsOwned(i, v.wanted[i], n);
      if paths[n] == OptionPath(x, o) { ListedIsSet(v.net, i, v.wanted[i], n); }
    }
  }

  lemma BatchSpares(ps: seq<Program>, x: string, o: string)
    ensures AllSpare(Steps(Batch(ps)), x, o)
  {
    forall n | 0 <= n < |Batch(ps)| ensures Spares(Steps(Batch(ps))[n], x, o) {
      var k := BatchCommand(ps, n);
    }
  }

  lemma CreateSpares(s: Site, v: Sides, i: string, x: string, o: string)
    requires i in v.wanted && WantedAt(s, v, i) && Unset(s, v, i, x, o)
    ensures AllSpare(CreatePlan(v.net, i, v.wanted[i]), x, o)
  {
    ClearSpares(s, v, i, x, o);
    BatchSpares(Programs(v.net, i, v.wanted[i]), x, o);
    SpareConcat(ClearPlan(ListPaths(i, v.wanted[i])), Steps(Batch(Programs(v.net, i, v.wanted[i]))), x, o);
  }

  lemma EntrySpares(s: Site, v: Sides, d: InterfaceDiff, x: string, o: string)
    requires IsSite(s, v) && Fits(v, d) && HasContent(d) && Unset(s, v, d.name, x, o)
    ensures AllSpare(InterfacePlan(v.net, d), x, o)
  {
    var i := d.name;
    if d.change.Removed? || d.change.Changed? {
      assert RecordedAt(s, v, i);
      DeleteSpares(s, v, i, x, o);
    }
    if d.change.New? || d.change.Changed? {
      assert WantedAt(s, v, i);
      CreateSpares(s, v, i, x, o);
    }
    if d.change.Changed? { SpareConcat(DeletePlan(d.sections), CreatePlan(v.net, i, v.wanted[i]), x, o); }
  }

  // No plan of a diff deletes an option that no interface sets, of a section that no interface
  // has on record.
  lemma {:induction false} PlanSpares(s: Site, v: Sides, ds: seq<InterfaceDiff>, x: string, o: string)
    requires IsSite(s, v) && AllFit(v, ds) && forall n :: 0 <= n < |ds| ==> HasContent(ds[n])
    requires forall i :: Unset(s, v, i, x, o)
    ensures AllSpare(NetworkPlan(v.net, ds), x, o)
    decreases |ds|
  {
    if ds != [] {
      RestFit(v, ds);
      PlanSpares(s, v, ds[1..], x, o);
      EntrySpares(s, v, ds[0], x, o);
      SpareConcat(InterfacePlan(v.net, ds[0]), NetworkPlan(v.net, ds[1..]), x, o);
    }
  }

  // ----- sections that a plan does not name -----

  ghost predicate Avoids(plan: seq<Step>, x: string) { forall n :: 0 <= n < |plan| ==> StepSection(plan[n]) != x }

  lemma {:induction false} SafeAvoids(s: Site, touched: set<string>, plan: seq<Step>, x: string)
    requires Safe(s, touched, plan) && forall i :: i in Names(s) ==> x !in Own(s, i)
    ensures Avoids(plan, x)
  {
    if plan != [] {
      var i :| i in Names(s) && i in touched && StepFor(s, i, plan[0]);
      StepOwned(s, i, plan[0]);
      SafeAvoids(s, touched, plan[1..], x);
      assert forall n :: 1 <= n < |plan| ==> plan[n] == plan[1..][n - 1];
    }
  }

  // ----- what the wanted store tells of the store before -----

  // The plan of a diff has run on cfg and has ended in the wanted store.
  ghost predicate Ended(s: Site, v: Sides, ds: seq<InterfaceDiff>, cfg: Config)
    requires forall n :: 0 <= n < |ds| ==> HasContent(ds[n])
  {
    FitDiff(s, v, ds) && Describes(s, Run(NetworkPlan(v.net, ds), cfg))
  }

  lemma OutsideStays(s: Site, v: Sides, ds: seq<InterfaceDiff>, cfg: Config, x: string)
    requires FitDiff(s, v, ds) && forall i :: i in Names(s) ==> x !in Own(s, i)
    ensures forall n :: 0 <= n < |ds| ==> HasContent(ds[n])
    ensures SameAt(Run(NetworkPlan(v.net, ds), cfg), cfg, x)
  {
    NetworkPlanSafe(s, v, ds, Acted(ds));
    SafeAvoids(s, Acted(ds), NetworkPlan(v.net, ds), x);
    RunElsewhere(NetworkPlan(v.net, ds), cfg, x);
  }

  lemma ForeignWasKept(s: Site, v: Sides, ds: seq<InterfaceDiff>, cfg: Config)
    requires forall n :: 0 <= n < |ds| ==> HasContent(ds[n])
    requires Ended(s, v, ds, cfg)
    ensures ForeignKept(s, cfg)
  {
    forall x | x in s.foreign ensures SameAt(Run(NetworkPlan(v.net, ds), cfg), cfg, x) {
      OutsideStays(s, v, ds, cfg, x);
    }
  }

  lemma WasKnown(s: Site, v: Sides, ds: seq<InterfaceDiff>, cfg: Config, x: string)
    requires forall n :: 0 <= n < |ds| ==> HasContent(ds[n])
    requires Ended(s, v, ds, cfg) && x in cfg
    ensures Known(s, x)
  {
    if forall i :: i in Names(s) ==> x !in Own(s, i) {
      OutsideStays(s, v, ds, cfg, x);
      WantedKnown(s, x);
    }
  }

  lemma WantedKnown(s: Site, x: string)
    requires IsWanted(s, x)
    ensures Known(s, x)
  {
    if x !in s.foreign {
      var i :| i in s.target && x in Wanted(s, i);
      assert i in Names(s) && x in Own(s, i);
    }
  }

  lemma SkippedWas(s: Site, v: Sides, ds: seq<InterfaceDiff>, cfg: Config, i: string)
    requires forall n :: 0 <= n < |ds| ==> HasContent(ds[n])
    requires Ended(s, v, ds, cfg) && i in Names(s) && i !in Acted(ds)
    ensures Settled(s, i) && Intact(s, cfg, i)
  {
    DiffPlanWorks(s, v, ds);
    SkippedStay(s, Acted(ds), NetworkPlan(v.net, ds), cfg, i);
  }

  ghost predicate ValidWanted(v: Sides) { forall i :: i in v.wanted ==> ValidInterface(v.wanted[i]) }

  // An option that the create does not set, in a wanted section not on record, stays.
  lemma LeftoverStays(s: Site, v: Sides, ds: seq<InterfaceDiff>, cfg: Config, i: string, x: string, o: string)
    requires FitDiff(s, v, ds) && ValidWanted(v) && i in Names(s) && HasOption(cfg, x, o)
    requires x in Wanted(s, i) && x !in Recorded(s, i) && o !in Target(s, i)[x].options
    ensures forall n :: 0 <= n < |ds| ==> HasContent(ds[n])
    ensures HasOption(Run(NetworkPlan(v.net, ds), cfg), x, o)
  {
    FitsHasContent(v, ds);
    forall j ensures Unset(s, v, j, x, o) { OthersUnset(s, v, i, j, x, o); }
    PlanSpares(s, v, ds, x, o);
    SparedStays(NetworkPlan(v.net, ds), cfg, x, o);
  }

  lemma OthersUnset(s: Site, v: Sides, i: string, j: string, x: string, o: string)
    requires Separate(s) && IsSite(s, v) && ValidWanted(v) && i in Names(s)
    requires x in Wanted(s, i) && x !in Recorded(s, i) && o !in Target(s, i)[x].options
    ensures Unset(s, v, j, x, o)
  {
    if j in Names(s) && x in Own(s, j) { OwnerUnique(s, i, j, x); }
  }

  lemma NoLeftoverWas(s: Site, v: Sides, ds: seq<InterfaceDiff>, cfg: Config, i: string)
    requires forall n :: 0 <= n < |ds| ==> HasContent(ds[n])
    requires Ended(s, v, ds, cfg) && ValidWanted(v) && i in Names(s)
    ensures NoLeftover(s, cfg, i)
  {
    forall x | x in Wanted(s, i) && x !in Recorded(s, i) && x in cfg
      ensures cfg[x].options.Keys <= Target(s, i)[x].options.Keys
    {
      assert Intact(s, Run(NetworkPlan(v.net, ds), cfg), i);
      forall o | o in cfg[x].options ensures o in Target(s, i)[x].options {
        if o !in Target(s, i)[x].options { LeftoverStays(s, v, ds, cfg, i, x, o); }
      }
    }
  }

  lemma EndedWasPartial(s: Site, v: Sides, ds: seq<InterfaceDiff>, cfg: Config)
    requires forall n :: 0 <= n < |ds| ==> HasContent(ds[n])
    requires Ended(s, v, ds, cfg) && ValidWanted(v)
    ensures Partial(s, cfg, Acted(ds))
  {
    ForeignWasKept(s, v, ds, cfg);
    forall x | x in cfg ensures Known(s, x) { WasKnown(s, v, ds, cfg, x); }
    forall i | i in Names(s) ensures PartOk(s, cfg, Acted(ds), i) {
      if i in Acted(ds) { NoLeftoverWas(s, v, ds, cfg, i); } else { SkippedWas(s, v, ds, cfg, i); }
    }
  }

  // On any store whatever, the plan of a diff ends in the wanted store if and only if the store
  // is one that steps for the interfaces it acts on may have produced.
  lemma DescribesIffPartial(s: Site, v: Sides, ds: seq<InterfaceDiff>, cfg: Config)
    requires FitDiff(s, v, ds) && ValidWanted(v)
    ensures forall n :: 0 <= n < |ds| ==> HasContent(ds[n])
    ensures Describes(s, Run(NetworkPlan(v.net, ds), cfg)) <==> Partial(s, cfg, Acted(ds))
  {
    FitsHasContent(v, ds);
    if Partial(s, cfg, Acted(ds)) { PlanCompletes(s, v, cfg, Acted(ds), ds); }
    if Describes(s, Run(NetworkPlan(v.net, ds), cfg)) { EndedWasPartial(s, v, ds, cfg); }
  }
}
