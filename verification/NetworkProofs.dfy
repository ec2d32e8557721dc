/** The network plan of a diff brings the store to the wanted state. */
module NetworkProofs {
  import opened Text
  import opened Bundle
  import opened Uci
  import opened InterfaceBatch
  import opened InterfaceSections
  import opened Last
  import opened DiffTypes
  import opened ApplyPlan
  import opened Convergence

  // The interfaces an apply works from: those wanted by the bundle, those on record.
  datatype Sides = Sides(net: Net, wanted: map<string, Interface>, recorded: map<string, Interface>)

  ghost predicate WantedAt(s: Site, v: Sides, i: string) {
    i in v.wanted && i in s.target && s.target[i] == Built(v.net, i, v.wanted[i])
  }

  // The sections on record that a deletion covers: all but one of an interface with an empty
  // name, whose own section deleteSections skips.
  ghost function Covered(name: string, i: Interface): set<string> { SectionNames(name, i) - {""} }

  ghost predicate RecordedAt(s: Site, v: Sides, i: string) {
    i in v.recorded && i in s.prior && s.prior[i] == Covered(i, v.recorded[i])
  }

  // The site is the one the two sides describe.
  ghost predicate IsSite(s: Site, v: Sides) {
    && s.target.Keys == v.wanted.Keys && s.prior.Keys == v.recorded.Keys
    && (forall i :: i in v.wanted ==> WantedAt(s, v, i))
    && (forall i :: i in v.recorded ==> RecordedAt(s, v, i))
  }

  ghost function SiteOf(v: Sides, foreign: Config): Site {
    Site(map i | i in v.wanted :: Built(v.net, i, v.wanted[i]), map i | i in v.recorded :: Covered(i, v.recorded[i]),
         foreign)
  }

  lemma SiteOfIsSite(v: Sides, foreign: Config)
    ensures IsSite(SiteOf(v, foreign), v)
  {
  }

  // Wanted as recorded: nothing to do.
  ghost predicate Unaltered(v: Sides, i: string) {
    i in v.wanted && i in v.recorded && v.wanted[i] == v.recorded[i]
  }

  lemma UnalteredSettled(s: Site, v: Sides, i: string)
    requires IsSite(s, v) && Unaltered(v, i)
    ensures Settled(s, i)
  {
    assert WantedAt(s, v, i) && RecordedAt(s, v, i);
    BuiltNames(v.net, i, v.wanted[i]);
  }

  // ----- each plan step is owned -----

  lemma DeletePlanFor(s: Site, v: Sides, i: string)
    requires i in v.recorded && RecordedAt(s, v, i)
    ensures PlanFor(s, i, DeletePlan(SectionsFor(i, v.recorded[i])))
  {
    var sections := SectionsFor(i, v.recorded[i]);
    assert forall n :: 0 <= n < |sections.peers| ==> sections.peers[n] in Recorded(s, i);
    assert forall n :: 0 <= n < |sections.routes| ==> sections.routes[n] in Recorded(s, i);
  }

  lemma ClearPlanFor(s: Site, v: Sides, i: string)
    requires i in v.wanted && WantedAt(s, v, i)
    ensures PlanFor(s, i, ClearPlan(ListPaths(i, v.wanted[i])))
  {
    var paths := ListPaths(i, v.wanted[i]);
    BuiltNames(v.net, i, v.wanted[i]);
    forall n | 0 <= n < |paths| ensures StepFor(s, i, ClearPlan(paths)[n]) { ListedPathsOwned(i, v.wanted[i], n); }
  }

  // The command is one of program p's.
  ghost predicate CommandOf(c: Command, p: Program) {
    c == Create(p.section, p.typ) || exists m :: 0 <= m < |p.writes| && c == WriteCommand(p.section, p.writes[m])
  }

  lemma {:induction false} BatchCommand(ps: seq<Program>, n: nat) returns (k: nat)
    requires n < |Batch(ps)|
    ensures k < |ps| && CommandOf(Batch(ps)[n], ps[k])
  {
    var head := ProgramCommands(ps[0]);
    if n < |head| {
      k := 0;
      if n > 0 { assert head[n] == WriteCommand(ps[0].section, ps[0].writes[n - 1]); }
    } else {
      var r := BatchCommand(ps[1..], n - |head|);
      assert Batch(ps)[n] == Batch(ps[1..])[n - |head|];
      k := r + 1;
    }
  }

  lemma CommandOwned(s: Site, i: string, c: Command, p: Program)
    requires CommandOf(c, p) && p.section in Wanted(s, i) && Target(s, i)[p.section] == Made(p)
    ensures StepFor(s, i, Do(c))
  {
    FoldKeys(p.writes, map[]);
  }

  lemma BatchFor(s: Site, v: Sides, i: string, n: nat)
    requires i in v.wanted && WantedAt(s, v, i) && n < |Batch(Programs(v.net, i, v.wanted[i]))|
    ensures StepFor(s, i, Do(Batch(Programs(v.net, i, v.wanted[i]))[n]))
  {
    var ps := Programs(v.net, i, v.wanted[i]);
    var k := BatchCommand(ps, n);
    ProgramsDistinct(v.net, i, v.wanted[i]);
    MadeAllAt(ps, k);
    CommandOwned(s, i, Batch(ps)[n], ps[k]);
  }

  lemma CreatePlanFor(s: Site, v: Sides, i: string)
    requires i in v.wanted && WantedAt(s, v, i)
    ensures PlanFor(s, i, CreatePlan(v.net, i, v.wanted[i]))
  {
    var clear, batch := ClearPlan(ListPaths(i, v.wanted[i])), Batch(Programs(v.net, i, v.wanted[i]));
    ClearPlanFor(s, v, i);
    forall n | 0 <= n < |batch| ensures StepFor(s, i, Steps(batch)[n]) { BatchFor(s, v, i, n); }
    PlanForConcat(s, i, clear, Steps(batch));
  }

  lemma PlanForConcat(s: Site, i: string, a: seq<Step>, b: seq<Step>)
    requires PlanFor(s, i, a) && PlanFor(s, i, b)
    ensures PlanFor(s, i, a + b)
  {
  }

  // ----- the entries of a diff -----

  // The entry says of its interface what the two sides say of it.
  ghost predicate Fits(v: Sides, d: InterfaceDiff) {
    && (d.change.New? ==> d.name in v.wanted && d.name !in v.recorded)
    && (d.change.Changed? ==> d.name in v.wanted && d.name in v.recorded)
    && (d.change.Removed? ==> d.name !in v.wanted && d.name in v.recorded)
    && (d.change.Unchanged? ==> Unaltered(v, d.name))
    && (d.change.New? || d.change.Changed? ==> d.content == Some(v.wanted[d.name]))
    && (d.change.Changed? || d.change.Removed? ==> d.sections == SectionsFor(d.name, v.recorded[d.name]))
  }

  ghost predicate AllFit(v: Sides, ds: seq<InterfaceDiff>) {
    && (forall n :: 0 <= n < |ds| ==> Fits(v, ds[n]))
    && (forall m, n :: 0 <= m < n < |ds| ==> ds[m].name != ds[n].name)
  }

  lemma InterfacePlanFor(s: Site, v: Sides, d: InterfaceDiff)
    requires IsSite(s, v) && Fits(v, d)
    ensures HasContent(d) && d.name in Names(s) && PlanFor(s, d.name, InterfacePlan(v.net, d))
  {
    var i := d.name;
    if d.change.Changed? || d.change.Removed? {
      assert RecordedAt(s, v, i);
      DeletePlanFor(s, v, i);
    }
    if d.change.New? || d.change.Changed? {
      assert WantedAt(s, v, i);
      CreatePlanFor(s, v, i);
    }
    if d.change.Changed? { PlanForConcat(s, i, DeletePlan(d.sections), CreatePlan(v.net, i, v.wanted[i])); }
  }

  // The interfaces a diff acts on.
  ghost function Acted(ds: seq<InterfaceDiff>): set<string> {
    set n | 0 <= n < |ds| && !ds[n].change.Unchanged? :: ds[n].name
  }

  lemma ActedCons(ds: seq<InterfaceDiff>)
    requires ds != []
    ensures Acted(ds) == Acted(ds[1..]) + if ds[0].change.Unchanged? then {} else {ds[0].name}
  {
    forall name | name in Acted(ds) && !(name == ds[0].name && !ds[0].change.Unchanged?)
      ensures name in Acted(ds[1..])
    {
      var n :| 0 <= n < |ds| && !ds[n].change.Unchanged? && ds[n].name == name;
      assert ds[1..][n - 1] == ds[n];
    }
    assert forall n :: 0 <= n < |ds[1..]| ==> ds[1..][n] == ds[n + 1];
  }

  lemma RestFit(v: Sides, ds: seq<InterfaceDiff>)
    requires ds != [] && AllFit(v, ds)
    ensures AllFit(v, ds[1..]) && forall n :: 0 <= n < |ds[1..]| ==> ds[1..][n].name != ds[0].name
  {
    assert forall n :: 0 <= n < |ds[1..]| ==> ds[1..][n] == ds[n + 1];
  }

  lemma FitsHasContent(v: Sides, ds: seq<InterfaceDiff>)
    requires AllFit(v, ds)
    ensures forall n :: 0 <= n < |ds| ==> HasContent(ds[n])
  {
    assert forall n :: 0 <= n < |ds| ==> Fits(v, ds[n]);
  }

  lemma {:induction false} NetworkPlanSafe(s: Site, v: Sides, ds: seq<InterfaceDiff>, touched: set<string>)
    requires IsSite(s, v) && AllFit(v, ds) && Acted(ds) <= touched
    ensures forall n :: 0 <= n < |ds| ==> HasContent(ds[n])
    ensures Safe(s, touched, NetworkPlan(v.net, ds))
  {
    FitsHasContent(v, ds);
    if ds != [] {
      RestFit(v, ds);
      ActedCons(ds);
      NetworkPlanSafe(s, v, ds[1..], touched);
      InterfacePlanSafe(s, v, ds[0], touched);
      SafeConcat(s, touched, InterfacePlan(v.net, ds[0]), NetworkPlan(v.net, ds[1..]));
    }
  }

  lemma InterfacePlanSafe(s: Site, v: Sides, d: InterfaceDiff, touched: set<string>)
    requires IsSite(s, v) && Fits(v, d) && (!d.change.Unchanged? ==> d.name in touched)
    ensures HasContent(d) && Safe(s, touched, InterfacePlan(v.net, d))
  {
    InterfacePlanFor(s, v, d);
    if !d.change.Unchanged? { SafeFor(s, touched, d.name, InterfacePlan(v.net, d)); }
  }

  // ----- deleting and creating -----

  lemma {:induction false} DeleteAll(names: seq<string>, cfg: Config, x: string)
    ensures var r := Run(DeleteSteps(names), cfg); if x in names then x !in r else SameAt(r, cfg, x)
    ensures Accepted(DeleteSteps(names), cfg)
  {
    if names != [] {
      var next := StepEffect(DeleteSteps(names)[0], cfg);
      assert DeleteSteps(names)[1..] == DeleteSteps(names[1..]);
      DeleteAll(names[1..], next, x);
    }
  }

  lemma DeletePlanDeletes(sections: Sections, cfg: Config, x: string)
    ensures var r := Run(DeletePlan(sections), cfg);
      if (x == sections.iface && x != "") || x in sections.routes || x in sections.peers
      then x !in r else SameAt(r, cfg, x)
    ensures Accepted(DeletePlan(sections), cfg)
  {
    var itself := if sections.iface != "" then [sections.iface] else [];
    var a, b, c := DeleteSteps(sections.peers), DeleteSteps(sections.routes), DeleteSteps(itself);
    var r1 := Run(a, cfg);
    var r2 := Run(b, r1);
    DeleteAll(sections.peers, cfg, x);
    DeleteAll(sections.routes, r1, x);
    DeleteAll(itself, r2, x);
    RunConcat(a + b, c, cfg);
    RunConcat(a, b, cfg);
  }

  ghost predicate Shrunk(r: Config, cfg: Config) {
    r.Keys == cfg.Keys && forall x :: x in r ==> r[x].options.Keys <= cfg[x].options.Keys
  }

  lemma {:induction false} ClearAll(paths: seq<Path>, cfg: Config)
    requires forall n :: 0 <= n < |paths| ==> paths[n].OptionPath?
    ensures var r := Run(ClearPlan(paths), cfg);
      Shrunk(r, cfg) && forall n :: 0 <= n < |paths| ==> !Present(paths[n], r)
    ensures Accepted(ClearPlan(paths), cfg)
  {
    if paths != [] {
      var next := StepEffect(ClearPlan(paths)[0], cfg);
      assert ClearPlan(paths)[1..] == ClearPlan(paths[1..]);
      assert Shrunk(next, cfg) && !Present(paths[0], next);
      ClearAll(paths[1..], next);
      var r := Run(ClearPlan(paths), cfg);
      forall n | 0 <= n < |paths| ensures !Present(paths[n], r) {
        if n > 0 { assert paths[n] == paths[1..][n - 1]; }
      }
    }
  }

  lemma CreatePlanAccepted(net: Net, name: string, i: Interface, cfg: Config)
    ensures Accepted(CreatePlan(net, name, i), cfg)
  {
    ListsAreOptions(name, i);
    ClearAll(ListPaths(name, i), cfg);
    BatchAccepted(Programs(net, name, i), Run(ClearPlan(ListPaths(name, i)), cfg));
    RunConcat(ClearPlan(ListPaths(name, i)), Steps(Batch(Programs(net, name, i))), cfg);
  }

  lemma InterfacePlanAccepted(net: Net, d: InterfaceDiff, cfg: Config)
    requires HasContent(d)
    ensures Accepted(InterfacePlan(net, d), cfg)
  {
    if d.change.Removed? || d.change.Changed? { DeletePlanDeletes(d.sections, cfg, ""); }
    if d.change.New? { CreatePlanAccepted(net, d.name, d.content.value, cfg); }
    if d.change.Changed? {
      CreatePlanAccepted(net, d.name, d.content.value, Run(DeletePlan(d.sections), cfg));
      RunConcat(DeletePlan(d.sections), CreatePlan(net, d.name, d.content.value), cfg);
    }
  }

  // uci never refuses a command of the network plan, whatever the diff and whatever the store
  // holds: deletions are guarded, and every section is created before it is filled.
  lemma {:induction false} NetworkPlanAccepted(net: Net, ds: seq<InterfaceDiff>, cfg: Config)
    requires forall n :: 0 <= n < |ds| ==> HasContent(ds[n])
    ensures Accepted(NetworkPlan(net, ds), cfg)
    decreases |ds|
  {
    if ds != [] {
      InterfacePlanAccepted(net, ds[0], cfg);
      NetworkPlanAccepted(net, ds[1..], Run(InterfacePlan(net, ds[0]), cfg));
      RunConcat(InterfacePlan(net, ds[0]), NetworkPlan(net, ds[1..]), cfg);
    }
  }

  ghost predicate Creatable(target: Config, cfg: Config) {
    forall x :: x in target && x in cfg ==> cfg[x].options.Keys <= target[x].options.Keys
  }

  lemma ListsAreOptions(name: string, i: Interface)
    ensures forall n :: 0 <= n < |ListPaths(name, i)| ==> ListPaths(name, i)[n].OptionPath?
  {
  }

  lemma AppendedCleared(net: Net, name: string, i: Interface, cfg: Config, k: nat, o: string)
    requires k < |Programs(net, name, i)| && Appends(Programs(net, name, i)[k].writes, o)
    ensures !Present(OptionPath(Programs(net, name, i)[k].section, o), Run(ClearPlan(ListPaths(name, i)), cfg))
  {
    var paths := ListPaths(name, i);
    ListsAreOptions(name, i);
    ClearAll(paths, cfg);
    ProgramAt(net, name, i, k);
    AppendsListed(net, name, i, ProgramKinds(i)[k], o);
    var n :| 0 <= n < |paths| && paths[n] == OptionPath(Programs(net, name, i)[k].section, o);
  }

  lemma ClearedShrinks(name: string, i: Interface, cfg: Config)
    ensures Shrunk(Run(ClearPlan(ListPaths(name, i)), cfg), cfg)
  {
    ListsAreOptions(name, i);
    ClearAll(ListPaths(name, i), cfg);
  }

  // Once its list options are cleared, nothing left of an earlier attempt survives the batch.
  lemma ClearedOverwritable(net: Net, name: string, i: Interface, cfg: Config, k: nat)
    requires k < |Programs(net, name, i)| && Creatable(Built(net, name, i), cfg)
    ensures Overwritable(Programs(net, name, i)[k], Run(ClearPlan(ListPaths(name, i)), cfg))
  {
    var ps, r := Programs(net, name, i), Run(ClearPlan(ListPaths(name, i)), cfg);
    var p := ps[k];
    ClearedShrinks(name, i, cfg);
    ProgramsDistinct(net, name, i);
    MadeAllAt(ps, k);
    forall o | Appends(p.writes, o) ensures !Present(OptionPath(p.section, o), r) {
      AppendedCleared(net, name, i, cfg, k, o);
    }
  }

  lemma CreatePlanBuilds(net: Net, name: string, i: Interface, cfg: Config)
    requires Creatable(Built(net, name, i), cfg)
    ensures var r := Run(CreatePlan(net, name, i), cfg);
      forall x :: x in Built(net, name, i) ==> x in r && r[x] == Built(net, name, i)[x]
    ensures Accepted(CreatePlan(net, name, i), cfg)
  {
    var ps, paths := Programs(net, name, i), ListPaths(name, i);
    var cleared := Run(ClearPlan(paths), cfg);
    ListsAreOptions(name, i);
    ClearAll(paths, cfg);
    forall k | 0 <= k < |ps| ensures Overwritable(ps[k], cleared) { ClearedOverwritable(net, name, i, cfg, k); }
    ProgramsDistinct(net, name, i);
    RunBatch(ps, cleared);
    RunConcat(ClearPlan(paths), Steps(Batch(ps)), cfg);
  }

  ghost predicate StepsIn(plan: seq<Step>, sections: set<string>) {
    forall n :: 0 <= n < |plan| ==> StepSection(plan[n]) in sections
  }

  lemma StepsInConcat(a: seq<Step>, b: seq<Step>, sections: set<string>)
    requires StepsIn(a, sections) && StepsIn(b, sections)
    ensures StepsIn(a + b, sections)
  {
  }

  lemma ClearStepsIn(s: Site, v: Sides, i: string)
    requires i in v.wanted && WantedAt(s, v, i)
    ensures StepsIn(ClearPlan(ListPaths(i, v.wanted[i])), Wanted(s, i))
  {
    ListsAreOptions(i, v.wanted[i]);
    ClearPlanFor(s, v, i);
  }

  lemma BatchStepsIn(s: Site, v: Sides, i: string)
    requires i in v.wanted && WantedAt(s, v, i)
    ensures StepsIn(Steps(Batch(Programs(v.net, i, v.wanted[i]))), Wanted(s, i))
  {
    var batch := Batch(Programs(v.net, i, v.wanted[i]));
    forall n | 0 <= n < |batch| ensures StepSection(Steps(batch)[n]) in Wanted(s, i) { BatchFor(s, v, i, n); }
  }

  lemma CreateKeepsAbsent(s: Site, v: Sides, cfg: Config, i: string, x: string)
    requires i in v.wanted && WantedAt(s, v, i) && x !in Wanted(s, i) && x !in cfg
    ensures x !in Run(CreatePlan(v.net, i, v.wanted[i]), cfg)
  {
    ClearStepsIn(s, v, i);
    BatchStepsIn(s, v, i);
    StepsInConcat(ClearPlan(ListPaths(i, v.wanted[i])), Steps(Batch(Programs(v.net, i, v.wanted[i]))), Wanted(s, i));
    RunElsewhere(CreatePlan(v.net, i, v.wanted[i]), cfg, x);
  }

  lemma NoLeftoverAt(s: Site, cfg: Config, touched: set<string>, i: string)
    requires Partial(s, cfg, touched) && i in touched && i in Names(s)
    ensures NoLeftover(s, cfg, i)
  {
    assert PartOk(s, cfg, touched, i);
  }

  lemma DeleteLeavesCreatable(s: Site, v: Sides, cfg: Config, i: string)
    requires i in v.recorded && RecordedAt(s, v, i) && NoLeftover(s, cfg, i)
    ensures var plan := DeletePlan(SectionsFor(i, v.recorded[i])); var r := Run(plan, cfg);
      Accepted(plan, cfg) && Creatable(Target(s, i), r) && forall x :: x in Recorded(s, i) ==> x !in r
  {
    var sections := SectionsFor(i, v.recorded[i]);
    var r := Run(DeletePlan(sections), cfg);
    DeletePlanDeletes(sections, cfg, i);
    forall x | x in Recorded(s, i) ensures x !in r { DeletePlanDeletes(sections, cfg, x); }
    forall x | x in Wanted(s, i) && x in r ensures r[x].options.Keys <= Target(s, i)[x].options.Keys {
      DeletePlanDeletes(sections, cfg, x);
    }
  }

  lemma RemovedDone(s: Site, v: Sides, cfg: Config, touched: set<string>, i: string)
    requires IsSite(s, v) && Partial(s, cfg, touched) && i in touched && i in v.recorded && i !in v.wanted
    ensures var plan := DeletePlan(SectionsFor(i, v.recorded[i])); Done(s, Run(plan, cfg), i) && Accepted(plan, cfg)
  {
    assert RecordedAt(s, v, i);
    NoLeftoverAt(s, cfg, touched, i);
    DeleteLeavesCreatable(s, v, cfg, i);
  }

  lemma NewCreatable(s: Site, v: Sides, cfg: Config, touched: set<string>, i: string)
    requires IsSite(s, v) && Partial(s, cfg, touched) && i in touched && i in v.wanted && i !in v.recorded
    ensures Creatable(Built(v.net, i, v.wanted[i]), cfg)
  {
    assert WantedAt(s, v, i);
    NoLeftoverAt(s, cfg, touched, i);
  }

  // Built, and nothing on record: the interface is done.
  lemma BuiltDone(s: Site, v: Sides, r: Config, i: string)
    requires IsSite(s, v) && i in v.wanted && i !in v.recorded
    requires forall x :: x in Built(v.net, i, v.wanted[i]) ==> x in r && r[x] == Built(v.net, i, v.wanted[i])[x]
    ensures Done(s, r, i)
  {
    assert WantedAt(s, v, i);
  }

  lemma NewDone(s: Site, v: Sides, cfg: Config, touched: set<string>, i: string)
    requires IsSite(s, v) && Partial(s, cfg, touched) && i in touched && i in v.wanted && i !in v.recorded
    ensures var plan := CreatePlan(v.net, i, v.wanted[i]); Done(s, Run(plan, cfg), i) && Accepted(plan, cfg)
  {
    NewCreatable(s, v, cfg, touched, i);
    CreatePlanBuilds(v.net, i, v.wanted[i], cfg);
    BuiltDone(s, v, Run(CreatePlan(v.net, i, v.wanted[i]), cfg), i);
  }

  lemma ChangedDone(s: Site, v: Sides, cfg: Config, touched: set<string>, i: string)
    requires IsSite(s, v) && Partial(s, cfg, touched) && i in touched && i in v.wanted && i in v.recorded
    ensures var plan := DeletePlan(SectionsFor(i, v.recorded[i])) + CreatePlan(v.net, i, v.wanted[i]);
      Done(s, Run(plan, cfg), i) && Accepted(plan, cfg)
  {
    assert WantedAt(s, v, i) && RecordedAt(s, v, i);
    var deletion, creation := DeletePlan(SectionsFor(i, v.recorded[i])), CreatePlan(v.net, i, v.wanted[i]);
    var r := Run(deletion, cfg);
    NoLeftoverAt(s, cfg, touched, i);
    DeleteLeavesCreatable(s, v, cfg, i);
    CreatePlanBuilds(v.net, i, v.wanted[i], r);
    RunConcat(deletion, creation, cfg);
    forall x | x in Recorded(s, i) && x !in Wanted(s, i) ensures x !in Run(creation, r) {
      CreateKeepsAbsent(s, v, r, i, x);
    }
  }

  lemma InterfacePlanDone(s: Site, v: Sides, cfg: Config, touched: set<string>, d: InterfaceDiff)
    requires IsSite(s, v) && Partial(s, cfg, touched) && Fits(v, d) && !d.change.Unchanged? && d.name in touched
    ensures HasContent(d)
    ensures Done(s, Run(InterfacePlan(v.net, d), cfg), d.name) && Accepted(InterfacePlan(v.net, d), cfg)
  {
    match d.change {
      case New => NewDone(s, v, cfg, touched, d.name);
      case Changed => ChangedDone(s, v, cfg, touched, d.name);
      case Removed => RemovedDone(s, v, cfg, touched, d.name);
    }
  }

  // ----- the whole plan -----

  ghost predicate AllDoneIn(s: Site, cfg: Config, done: set<string>) {
    forall i :: i in done ==> i in Names(s) && Done(s, cfg, i)
  }

  lemma OthersStayDone(s: Site, cfg: Config, i: string, plan: seq<Step>, done: set<string>)
    requires Separate(s) && i in Names(s) && PlanFor(s, i, plan) && AllDoneIn(s, cfg, done) && i !in done
    ensures AllDoneIn(s, Run(plan, cfg), done)
  {
    forall j | j in done ensures Done(s, Run(plan, cfg), j) { PlanKeepsDone(s, cfg, i, plan, j); }
  }

  lemma EntryKeepsPartial(s: Site, v: Sides, cfg: Config, touched: set<string>, d: InterfaceDiff)
    requires Separate(s) && IsSite(s, v) && Partial(s, cfg, touched) && Fits(v, d)
    requires !d.change.Unchanged? ==> d.name in touched
    ensures HasContent(d) && Partial(s, Run(InterfacePlan(v.net, d), cfg), touched)
  {
    InterfacePlanSafe(s, v, d, touched);
    PlanKeepsPartial(s, cfg, touched, InterfacePlan(v.net, d));
  }

  ghost function Progress(done: set<string>, d: InterfaceDiff): set<string> {
    done + if d.change.Unchanged? then {} else {d.name}
  }

  lemma OneMoreDone(s: Site, cfg: Config, done: set<string>, d: InterfaceDiff)
    requires AllDoneIn(s, cfg, done) && d.name in Names(s) && Done(s, cfg, d.name) && !d.change.Unchanged?
    ensures AllDoneIn(s, cfg, Progress(done, d))
  {
  }

  lemma EntryActed(s: Site, v: Sides, cfg: Config, touched: set<string>, d: InterfaceDiff, done: set<string>)
    requires Separate(s) && IsSite(s, v) && Partial(s, cfg, touched) && Fits(v, d)
    requires !d.change.Unchanged? && d.name in touched && AllDoneIn(s, cfg, done) && d.name !in done
    ensures HasContent(d) && Accepted(InterfacePlan(v.net, d), cfg)
    ensures AllDoneIn(s, Run(InterfacePlan(v.net, d), cfg), Progress(done, d))
  {
    InterfacePlanFor(s, v, d);
    InterfacePlanDone(s, v, cfg, touched, d);
    OthersStayDone(s, cfg, d.name, InterfacePlan(v.net, d), done);
    OneMoreDone(s, Run(InterfacePlan(v.net, d), cfg), done, d);
  }

  lemma EntrySkipped(s: Site, v: Sides, cfg: Config, d: InterfaceDiff, done: set<string>)
    requires d.change.Unchanged? && AllDoneIn(s, cfg, done)
    ensures HasContent(d) && Accepted(InterfacePlan(v.net, d), cfg)
    ensures AllDoneIn(s, Run(InterfacePlan(v.net, d), cfg), Progress(done, d))
  {
    assert Progress(done, d) == done;
  }

  // One entry of the diff: its interface gets done, the others stay done.
  lemma EntryDone(s: Site, v: Sides, cfg: Config, touched: set<string>, d: InterfaceDiff, done: set<string>)
    requires Separate(s) && IsSite(s, v) && Partial(s, cfg, touched) && Fits(v, d)
    requires !d.change.Unchanged? ==> d.name in touched
    requires AllDoneIn(s, cfg, done) && d.name !in done
    ensures HasContent(d) && Accepted(InterfacePlan(v.net, d), cfg)
    ensures AllDoneIn(s, Run(InterfacePlan(v.net, d), cfg), Progress(done, d))
  {
    if d.change.Unchanged? {
      EntrySkipped(s, v, cfg, d, done);
    } else {
      EntryActed(s, v, cfg, touched, d, done);
    }
  }

  // Part of a diff has been worked off: the interfaces in `done`.
  ghost predicate UnderWay(s: Site, v: Sides, cfg: Config, touched: set<string>, ds: seq<InterfaceDiff>,
                           done: set<string>) {
    && Separate(s) && IsSite(s, v) && AllFit(v, ds) && Acted(ds) <= touched && Partial(s, cfg, touched)
    && AllDoneIn(s, cfg, done) && (forall n :: 0 <= n < |ds| ==> ds[n].name !in done)
  }

  lemma RestReady(v: Sides, ds: seq<InterfaceDiff>, done: set<string>)
    requires ds != [] && AllFit(v, ds) && forall n :: 0 <= n < |ds| ==> ds[n].name !in done
    ensures AllFit(v, ds[1..])
    ensures forall n :: 0 <= n < |ds[1..]| ==> ds[1..][n].name !in Progress(done, ds[0])
  {
    RestFit(v, ds);
    assert forall n :: 0 <= n < |ds[1..]| ==> ds[1..][n] == ds[n + 1];
  }

  lemma NextEntry(s: Site, v: Sides, cfg: Config, touched: set<string>, ds: seq<InterfaceDiff>, done: set<string>)
    requires ds != [] && UnderWay(s, v, cfg, touched, ds, done)
    ensures HasContent(ds[0]) && Accepted(InterfacePlan(v.net, ds[0]), cfg)
    ensures UnderWay(s, v, Run(InterfacePlan(v.net, ds[0]), cfg), touched, ds[1..], Progress(done, ds[0]))
  {
    ActedCons(ds);
    EntryKeepsPartial(s, v, cfg, touched, ds[0]);
    EntryDone(s, v, cfg, touched, ds[0], done);
    RestReady(v, ds, done);
  }

  lemma ProgressActed(done: set<string>, ds: seq<InterfaceDiff>)
    requires ds != []
    ensures Progress(done, ds[0]) + Acted(ds[1..]) == done + Acted(ds)
  {
    ActedCons(ds);
  }

  lemma {:induction false} NetworkPlanDone(s: Site, v: Sides, cfg: Config, touched: set<string>, ds: seq<InterfaceDiff>,
                                           done: set<string>)
    requires UnderWay(s, v, cfg, touched, ds, done)
    requires forall n :: 0 <= n < |ds| ==> HasContent(ds[n])
    ensures AllDoneIn(s, Run(NetworkPlan(v.net, ds), cfg), done + Acted(ds))
    ensures Accepted(NetworkPlan(v.net, ds), cfg)
    decreases |ds|
  {
    if ds == [] {
      assert done + Acted(ds) == done;
    } else {
      var plan := InterfacePlan(v.net, ds[0]);
      NextEntry(s, v, cfg, touched, ds, done);
      ProgressActed(done, ds);
      NetworkPlanDone(s, v, Run(plan, cfg), touched, ds[1..], Progress(done, ds[0]));
      RunConcat(plan, NetworkPlan(v.net, ds[1..]), cfg);
    }
  }

  // A whole plan, run on any store that earlier steps for its own interfaces may have
  // produced, is never refused and ends in exactly the wanted state.
  lemma PlanCompletes(s: Site, v: Sides, cfg: Config, touched: set<string>, ds: seq<InterfaceDiff>)
    requires Separate(s) && IsSite(s, v) && AllFit(v, ds) && Partial(s, cfg, touched) && touched <= Acted(ds)
    ensures forall n :: 0 <= n < |ds| ==> HasContent(ds[n])
    ensures Describes(s, Run(NetworkPlan(v.net, ds), cfg)) && Accepted(NetworkPlan(v.net, ds), cfg)
  {
    var acted := Acted(ds);
    NetworkPlanSafe(s, v, ds, acted);
    Widen(s, cfg, touched, acted);
    PlanKeepsPartial(s, cfg, acted, NetworkPlan(v.net, ds));
    NetworkPlanDone(s, v, cfg, acted, ds, {});
    AllDone(s, Run(NetworkPlan(v.net, ds), cfg), acted);
  }
}
