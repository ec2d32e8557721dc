/** Histories of completed and interrupted attempts over the firewall config.

    Main results: what no history touches, an operator's zone first of all; and exactly which
    staged leftovers of an interrupted attempt the next one can work with.
  */
module FirewallHistory {
  import opened Text
  import opened Bundle
  import opened Uci
  import opened Last
  import opened DiffTypes
  import opened Retry
  import opened Firewall
  import opened FirewallRuns

  // ----- what no history touches -----

  // One attempt of a history: it completes, or it is cut short.
  datatype Event = Completed(ds: seq<InterfaceDiff>) | Interrupted(ds: seq<InterfaceDiff>, cut: Cut)

  datatype Condition = Condition(store: Store, fw: FirewallState)

  function Half(c: Condition, ds: seq<InterfaceDiff>): Outcome { FirewallHalf(ds, c.fw, ZONE in c.store.staged) }

  function AfterEvent(c: Condition, e: Event): Condition {
    var out := Half(c, e.ds);
    match e
    case Completed(_) =>
      Condition(if out.changed then Store(Run(out.plan, c.store.staged), Run(out.plan, c.store.staged)) else c.store,
                out.record)
    case Interrupted(_, cut) => Condition(AfterCut(out.plan, c.store, cut), c.fw)
  }

  function AfterEvents(c: Condition, events: seq<Event>): Condition
    decreases |events|
  {
    if events == [] then c else AfterEvents(AfterEvent(c, events[0]), events[1..])
  }

  // A zone that last.json does not claim.
  ghost predicate Unclaimed(c: Condition, a: Config, b: Config) {
    && !c.fw.zoneOwned && ZONE in a && ZONE in b
    && (c.store.staged == a || c.store.staged == b) && (c.store.committed == a || c.store.committed == b)
  }

  lemma NothingRuns(c: Condition, ds: seq<InterfaceDiff>)
    requires !c.fw.zoneOwned && ZONE in c.store.staged
    ensures var out := Half(c, ds); out.plan == [] && !out.changed && !out.record.zoneOwned
  {
  }

  lemma EventSpares(c: Condition, e: Event, a: Config, b: Config)
    requires Unclaimed(c, a, b)
    ensures Unclaimed(AfterEvent(c, e), a, b)
  {
    NothingRuns(c, e.ds);
  }

  lemma {:induction false} HistorySpares(c: Condition, events: seq<Event>, a: Config, b: Config)
    requires Unclaimed(c, a, b)
    ensures Unclaimed(AfterEvents(c, events), a, b)
    decreases |events|
  {
    if events != [] {
      EventSpares(c, events[0], a, b);
      HistorySpares(AfterEvent(c, events[0]), events[1..], a, b);
    }
  }

  // A zone that last.json does not claim stays unclaimed, and the whole firewall config stays
  // what it is, whatever bundles are applied and wherever the attempts stop.
  lemma OperatorZoneUntouched(c: Condition, events: seq<Event>)
    requires !c.fw.zoneOwned && ZONE in c.store.committed && c.store.staged == c.store.committed
    ensures AfterEvents(c, events).store == c.store && !AfterEvents(c, events).fw.zoneOwned
  {
    HistorySpares(c, events, c.store.staged, c.store.committed);
  }

  // The steps name no section but the agent's four.
  ghost predicate OwnSteps(plan: seq<Step>) { forall n :: 0 <= n < |plan| ==> StepSection(plan[n]) in OWNED_NAMES }

  lemma OwnConcat(a: seq<Step>, b: seq<Step>)
    requires OwnSteps(a) && OwnSteps(b)
    ensures OwnSteps(a + b)
  {
  }

  lemma {:induction false} OwnRemovals(names: seq<string>)
    ensures OwnSteps(Removals(names))
  {
    if names != [] {
      OwnRemovals(names[1..]);
      OwnConcat([Do(RemoveMember(names[0]))], Removals(names[1..]));
    }
  }

  lemma {:induction false} OwnAdditions(names: seq<string>)
    ensures OwnSteps(Additions(names))
  {
    if names != [] {
      OwnAdditions(names[1..]);
      OwnConcat([Do(RemoveMember(names[0])), Do(AddMember(names[0]))], Additions(names[1..]));
    }
  }

  lemma OwnProgram(p: Program)
    requires p.section in OWNED_NAMES
    ensures OwnSteps(Steps(ProgramCommands(p)))
  {
    forall n | 0 <= n < |p.writes| ensures WriteCommands(p.section, p.writes)[n].section == p.section {
    }
  }

  lemma {:induction false} OwnBatch(ps: seq<Program>)
    requires forall n :: 0 <= n < |ps| ==> ps[n].section in OWNED_NAMES
    ensures OwnSteps(Steps(Batch(ps)))
  {
    if ps != [] {
      OwnProgram(ps[0]);
      OwnBatch(ps[1..]);
      StepsConcat(ProgramCommands(ps[0]), Batch(ps[1..]));
      OwnConcat(Steps(ProgramCommands(ps[0])), Steps(Batch(ps[1..])));
    }
  }

  lemma HalfOwn(ds: seq<InterfaceDiff>, fw: FirewallState, present: bool)
    ensures OwnSteps(FirewallHalf(ds, fw, present).plan)
  {
    var toRemove, toAdd := ToRemove(ds, fw.members), ToAdd(ds, fw.members);
    OwnBatch(ZonePrograms());
    OwnRemovals(toRemove);
    OwnAdditions(toAdd);
    OwnConcat(ZonePart(fw.zoneOwned), Removals(toRemove));
    OwnConcat(ZonePart(fw.zoneOwned) + Removals(toRemove), Additions(toAdd));
    TeardownOwn();
  }

  lemma TeardownOwn()
    ensures OwnSteps(TeardownPlan())
  {
  }

  ghost predicate SameInBoth(n: Store, cfg: Config, x: string) {
    SameAt(n.staged, cfg, x) && SameAt(n.committed, cfg, x)
  }

  lemma EventElsewhere(c: Condition, e: Event, cfg: Config, x: string)
    requires x !in OWNED_NAMES && SameInBoth(c.store, cfg, x)
    ensures SameInBoth(AfterEvent(c, e).store, cfg, x)
  {
    var plan := Half(c, e.ds).plan;
    HalfOwn(e.ds, c.fw, ZONE in c.store.staged);
    RunElsewhere(plan, c.store.staged, x);
    if e.Interrupted? { RunElsewhere(Prefix(plan, e.cut.steps), c.store.staged, x); }
  }

  // Sections other than the agent's four are never altered, staged or committed.
  lemma {:induction false} OthersUntouched(c: Condition, events: seq<Event>, cfg: Config, x: string)
    requires x !in OWNED_NAMES && SameInBoth(c.store, cfg, x)
    ensures SameInBoth(AfterEvents(c, events).store, cfg, x)
    decreases |events|
  {
    if events != [] {
      EventElsewhere(c, events[0], cfg, x);
      OthersUntouched(AfterEvent(c, events[0]), events[1..], cfg, x);
    }
  }

  // ----- member edits, cut anywhere -----

  ghost predicate Edited(foreign: Config, managed: set<string>, wanted: set<string>, cfg: Config) {
    exists network :: InBetween(network, managed, wanted) && cfg == WithZone(foreign, Some(network))
  }

  lemma DropKeeps(managed: set<string>, wanted: set<string>, network: seq<string>, x: string)
    requires InBetween(network, managed, wanted) && x !in managed * wanted
    ensures InBetween(Without(network, x), managed, wanted)
  {
    WithoutKeepsNoDuplicates(network, x);
    forall y ensures y in Without(network, x) <==> y in network && y != x { WithoutMembers(network, x, y); }
  }

  lemma AddKeeps(managed: set<string>, wanted: set<string>, network: seq<string>, x: string)
    requires InBetween(network, managed, wanted) && x in wanted - managed
    ensures InBetween(Without(network, x) + [x], managed, wanted)
  {
    DropKeeps(managed, wanted, network, x);
    WithoutMembers(network, x, x);
  }

  lemma {:induction false} RemovalsCut(foreign: Config, managed: set<string>, wanted: set<string>, network: seq<string>,
                                       names: seq<string>, k: nat)
    requires InBetween(network, managed, wanted) && (forall x :: x in names ==> x !in managed * wanted)
    requires k <= |Removals(names)|
    ensures Edited(foreign, managed, wanted, Run(Removals(names)[..k], WithZone(foreign, Some(network))))
    decreases |names|
  {
    if k > 0 {
      DropStep(foreign, Some(network), names[0]);
      DropKeeps(managed, wanted, network, names[0]);
      assert Removals(names)[..k][1..] == Removals(names[1..])[..k - 1];
      RemovalsCut(foreign, managed, wanted, Without(network, names[0]), names[1..], k - 1);
    }
  }

  lemma DropThenAdd(foreign: Config, network: seq<string>, x: string, rest: seq<Step>)
    ensures Run([Do(RemoveMember(x)), Do(AddMember(x))] + rest, WithZone(foreign, Some(network)))
         == Run(rest, WithZone(foreign, Some(Without(network, x) + [x])))
  {
    var plan := [Do(RemoveMember(x)), Do(AddMember(x))] + rest;
    DropStep(foreign, Some(network), x);
    AddStep(foreign, Some(Without(network, x)), x);
    assert plan[1..][1..] == rest;
  }

  lemma DropFirst(foreign: Config, managed: set<string>, wanted: set<string>, network: seq<string>, x: string)
    requires InBetween(network, managed, wanted) && x !in managed * wanted
    ensures Edited(foreign, managed, wanted, Run([Do(RemoveMember(x))], WithZone(foreign, Some(network))))
  {
    RunOne(Do(RemoveMember(x)), WithZone(foreign, Some(network)));
    DropStep(foreign, Some(network), x);
    DropKeeps(managed, wanted, network, x);
  }

  lemma {:induction false} AdditionsCut(foreign: Config, managed: set<string>, wanted: set<string>,
                                        network: seq<string>, names: seq<string>, k: nat)
    requires InBetween(network, managed, wanted) && (forall x :: x in names ==> x in wanted - managed)
    requires k <= |Additions(names)|
    ensures Edited(foreign, managed, wanted, Run(Additions(names)[..k], WithZone(foreign, Some(network))))
    decreases |names|
  {
    if k == 1 {
      assert names[0] in names;
      assert Additions(names)[..k] == [Do(RemoveMember(names[0]))];
      DropFirst(foreign, managed, wanted, network, names[0]);
    } else if k > 1 {
      var rest := Additions(names[1..])[..k - 2];
      assert Additions(names)[..k] == [Do(RemoveMember(names[0])), Do(AddMember(names[0]))] + rest;
      DropThenAdd(foreign, network, names[0], rest);
      AddKeeps(managed, wanted, network, names[0]);
      AdditionsCut(foreign, managed, wanted, Without(network, names[0]) + [names[0]], names[1..], k - 2);
    }
  }

  lemma MembersCut(foreign: Config, managed: set<string>, wanted: set<string>, cfg: Config,
                   toRemove: seq<string>, toAdd: seq<string>, k: nat)
    requires Edited(foreign, managed, wanted, cfg) && k <= |Removals(toRemove) + Additions(toAdd)|
    requires forall x :: x in toRemove ==> x !in managed * wanted
    requires forall x :: x in toAdd ==> x in wanted - managed
    ensures Edited(foreign, managed, wanted, Run((Removals(toRemove) + Additions(toAdd))[..k], cfg))
  {
    var a, b := Removals(toRemove), Additions(toAdd);
    var network :| InBetween(network, managed, wanted) && cfg == WithZone(foreign, Some(network));
    if k <= |a| {
      assert (a + b)[..k] == a[..k];
      RemovalsCut(foreign, managed, wanted, network, toRemove, k);
    } else {
      assert (a + b)[..k] == a + b[..k - |a|] && a[..|a|] == a;
      RunConcat(a, b[..k - |a|], cfg);
      RemovalsCut(foreign, managed, wanted, network, toRemove, |a|);
      var kept :| InBetween(kept, managed, wanted) && Run(a, cfg) == WithZone(foreign, Some(kept));
      AdditionsCut(foreign, managed, wanted, kept, toAdd, k - |a|);
    }
  }

  // ----- leftovers that the next attempt can work with -----

  // What member edits of an owned zone, cut anywhere, can leave.
  ghost predicate Unfinished(foreign: Config, managed: set<string>, wanted: set<string>, fw: FirewallState,
                             cfg: Config) {
    if ZONE in foreign || managed == {} then fw == NO_FIREWALL && cfg == foreign
    else fw == FirewallState(true, Sorted(managed)) && Edited(foreign, managed, wanted, cfg)
  }

  // The apply neither creates nor removes the zone.
  predicate KeepsZone(foreign: Config, managed: set<string>, wanted: set<string>) {
    ZONE in foreign || (managed == {} <==> wanted == {})
  }

  lemma OkUnfinished(foreign: Config, managed: set<string>, wanted: set<string>, fw: FirewallState, cfg: Config)
    requires FirewallOk(foreign, managed, fw, cfg)
    ensures Unfinished(foreign, managed, wanted, fw, cfg)
  {
    if ZONE !in foreign && managed != {} {
      var items :| Lists(items, managed) && cfg == WithZone(foreign, Some(items));
      assert InBetween(items, managed, wanted);
    }
  }

  lemma EditsAllowed(ds: seq<InterfaceDiff>, managed: set<string>, wanted: set<string>)
    requires Between(ds, managed, wanted)
    ensures forall x :: x in ToRemove(ds, Sorted(managed)) ==> x !in managed * wanted
    ensures forall x :: x in ToAdd(ds, Sorted(managed)) ==> x in wanted - managed
  {
    forall x ensures x in ToRemove(ds, Sorted(managed)) ==> x !in managed * wanted {
      PickedAre(ds, managed, wanted, Leaves(Sorted(managed)), x);
    }
    forall x ensures x in ToAdd(ds, Sorted(managed)) ==> x in wanted - managed {
      PickedAre(ds, managed, wanted, Joins(Sorted(managed)), x);
    }
  }

  // Next to an operator's zone, or with nothing managed before and after, no step runs.
  lemma NothingToDo(ds: seq<InterfaceDiff>, present: bool)
    requires Kept(ds) == [] || present
    ensures FirewallHalf(ds, NO_FIREWALL, present) == Outcome([], NO_FIREWALL, false)
  {
  }

  lemma OwnedHalf(ds: seq<InterfaceDiff>, managed: set<string>, wanted: set<string>, present: bool)
    requires Between(ds, managed, wanted) && wanted != {}
    ensures var plan := FirewallHalf(ds, FirewallState(true, Sorted(managed)), present).plan;
      plan == [] || plan == MemberPlan(ds, Sorted(managed))
  {
    NothingKept(ds, managed, wanted);
    OwnedPlan(ds, Sorted(managed));
  }

  // Cut anywhere, its steps leave something the next attempt can work with.
  lemma CutUnfinished(foreign: Config, ds: seq<InterfaceDiff>, managed: set<string>, wanted: set<string>,
                      fw: FirewallState, cfg: Config, k: nat)
    requires Between(ds, managed, wanted) && KeepsZone(foreign, managed, wanted)
    requires Unfinished(foreign, managed, wanted, fw, cfg)
    ensures Unfinished(foreign, managed, wanted, fw, Run(Prefix(FirewallHalf(ds, fw, ZONE in cfg).plan, k), cfg))
  {
    NothingKept(ds, managed, wanted);
    if ZONE in foreign || managed == {} {
      NothingToDo(ds, ZONE in cfg);
    } else {
      EditsAllowed(ds, managed, wanted);
      OwnedHalf(ds, managed, wanted, ZONE in cfg);
      OwnedCut(foreign, ds, managed, wanted, cfg, FirewallHalf(ds, fw, ZONE in cfg).plan, k);
    }
  }

  lemma OwnedCut(foreign: Config, ds: seq<InterfaceDiff>, managed: set<string>, wanted: set<string>, cfg: Config,
                 plan: seq<Step>, k: nat)
    requires Between(ds, managed, wanted) && Edited(foreign, managed, wanted, cfg)
    requires plan == [] || plan == MemberPlan(ds, Sorted(managed))
    ensures Edited(foreign, managed, wanted, Run(Prefix(plan, k), cfg))
  {
    EditsAllowed(ds, managed, wanted);
    if plan != [] {
      var steps := if k <= |plan| then k else |plan|;
      assert Prefix(plan, k) == plan[..steps];
      MembersCut(foreign, managed, wanted, cfg, ToRemove(ds, Sorted(managed)), ToAdd(ds, Sorted(managed)), steps);
    }
  }

  // From anything left unfinished, the attempt that runs through restores the invariant.
  lemma UnfinishedGood(foreign: Config, ds: seq<InterfaceDiff>, managed: set<string>, wanted: set<string>,
                       fw: FirewallState, cfg: Config)
    requires Usable(foreign) && Between(ds, managed, wanted) && KeepsZone(foreign, managed, wanted)
    requires Unfinished(foreign, managed, wanted, fw, cfg)
    ensures Good(foreign, wanted, FirewallHalf(ds, fw, ZONE in cfg), cfg)
  {
    NothingKept(ds, managed, wanted);
    if ZONE in foreign || managed == {} {
      NothingToDo(ds, ZONE in cfg);
    } else {
      var network :| InBetween(network, managed, wanted) && cfg == WithZone(foreign, Some(network));
      if AnyChanged(ds) {
        ManageOwned(foreign, ds, managed, wanted, network);
      } else {
        UnchangedSame(ds, managed, wanted);
        OwnedUnedited(foreign, managed, wanted, network);
      }
    }
  }

  // ----- leftovers that it cannot work with -----

  lemma AtMostOne(plan: seq<Step>, k: nat)
    requires plan != [] && k > 0
    ensures Prefix(plan, k) == [plan[0]] + Prefix(plan[1..], k - 1)
  {
  }

  // The steps delete nothing.
  ghost predicate Keeping(plan: seq<Step>) { forall n :: 0 <= n < |plan| ==> plan[n].Do? && !plan[n].command.Delete? }

  lemma {:induction false} KeepingKeeps(plan: seq<Step>, cfg: Config, x: string)
    requires Keeping(plan) && x in cfg
    ensures x in Run(plan, cfg)
    decreases |plan|
  {
    if plan != [] { KeepingKeeps(plan[1..], StepEffect(plan[0], cfg), x); }
  }

  lemma {:induction false} EditsKeep(toRemove: seq<string>, toAdd: seq<string>)
    ensures Keeping(Removals(toRemove)) && Keeping(Additions(toAdd))
    decreases |toRemove| + |toAdd|
  {
    if toRemove != [] { EditsKeep(toRemove[1..], toAdd); } else if toAdd != [] { EditsKeep([], toAdd[1..]); }
  }

  lemma {:induction false} BatchKeeps(ps: seq<Program>)
    ensures Keeping(Steps(Batch(ps)))
  {
    if ps != [] {
      BatchKeeps(ps[1..]);
      StepsConcat(ProgramCommands(ps[0]), Batch(ps[1..]));
    }
  }

  lemma CreateFirst()
    ensures CreateZonePlan() != [] && CreateZonePlan()[0] == Do(Create(ZONE, "zone")) && Keeping(CreateZonePlan())
  {
    BatchKeeps(ZonePrograms());
    assert ZonePrograms()[0] == ZoneProgram();
    assert ProgramCommands(ZoneProgram())[0] == Create(ZONE, "zone");
    assert Batch(ZonePrograms())[0] == Create(ZONE, "zone");
  }

  // Once the creation has begun, the zone section is there.
  lemma BegunCreation(ds: seq<InterfaceDiff>, cfg: Config, k: nat)
    requires k > 0
    ensures ZONE in Run(Prefix(CreateZonePlan() + MemberPlan(ds, []), k), cfg)
  {
    var plan := CreateZonePlan() + MemberPlan(ds, []);
    CreateFirst();
    EditsKeep(ToRemove(ds, []), ToAdd(ds, []));
    assert plan[0] == CreateZonePlan()[0];
    assert Keeping(plan);
    AtMostOne(plan, k);
    KeepingKeeps(Prefix(plan[1..], k - 1), StepEffect(plan[0], cfg), ZONE);
  }

  lemma CreationPlan(foreign: Config, ds: seq<InterfaceDiff>, wanted: set<string>)
    requires NoZone(foreign) && wanted != {} && Between(ds, {}, wanted)
    ensures FirewallHalf(ds, NO_FIREWALL, ZONE in foreign).plan == CreateZonePlan() + MemberPlan(ds, [])
    ensures AnyChanged(ds)
  {
    assert ZONE in OWNED_NAMES;
    assert Sorted({}) == [];
    if !AnyChanged(ds) { UnchangedSame(ds, {}, wanted); }
    NothingKept(ds, {}, wanted);
    NothingToEdit(ds, {}, wanted);
    FreshPlan(ds);
  }

  // The retry takes the half-made zone for an operator's.
  lemma PresentMisread(foreign: Config, ds: seq<InterfaceDiff>, wanted: set<string>, cfg: Config)
    requires NoZone(foreign) && wanted != {} && ZONE in cfg
    ensures !Good(foreign, wanted, FirewallHalf(ds, NO_FIREWALL, true), cfg)
  {
    assert ZONE in OWNED_NAMES;
    NothingRuns(Condition(Store(cfg, cfg), NO_FIREWALL), ds);
  }

  function Deletions(names: seq<string>): (cs: seq<Command>)
    ensures |cs| == |names|
    ensures forall n :: 0 <= n < |cs| ==> cs[n] == Delete(SectionPath(names[n]))
  {
    seq(|names|, n requires 0 <= n < |names| => Delete(SectionPath(names[n])))
  }

  lemma {:induction false} DeletionsDelete(names: seq<string>, cfg: Config, x: string)
    requires x !in cfg
    ensures x !in Run(Steps(Deletions(names)), cfg)
    decreases |names|
  {
    var plan := Steps(Deletions(names));
    if names != [] {
      var rest := names[1..];
      assert plan[1..] == Steps(Deletions(rest));
      DeletionsDelete(rest, StepEffect(plan[0], cfg), x);
    }
  }

  // Once the teardown has begun, the first section it deletes is gone.
  lemma BegunTeardown(cfg: Config, k: nat)
    requires k > 0
    ensures LAN_TO_ZONE !in Run(Prefix(TeardownPlan(), k), cfg)
  {
    AtMostOne(TeardownPlan(), k);
    var all := [ZONE_TO_LAN, ZONE_TO_WAN, ZONE];
    var names := if k - 1 <= 3 then all[..k - 1] else all;
    assert Prefix(TeardownPlan()[1..], k - 1) == Steps(Deletions(names));
    DeletionsDelete(names, StepEffect(TeardownPlan()[0], cfg), LAN_TO_ZONE);
  }

  lemma TeardownRefused(cfg: Config)
    requires LAN_TO_ZONE !in cfg
    ensures !Accepted(TeardownPlan(), cfg)
  {
    assert TeardownPlan()[0] == Do(Delete(SectionPath(LAN_TO_ZONE)));
  }

  lemma TeardownHalf(ds: seq<InterfaceDiff>, managed: set<string>, fw: FirewallState, present: bool)
    requires fw.zoneOwned && managed != {} && Between(ds, managed, {})
    ensures FirewallHalf(ds, fw, present).plan == TeardownPlan()
  {
    NothingKept(ds, managed, {});
    if !AnyChanged(ds) { UnchangedSame(ds, managed, {}); }
  }

  // ----- the exact condition -----

  // After an attempt whose staged firewall changes, cut after k steps, nobody reverted, the
  // next attempt at the same bundle restores the invariant if and only if the apply neither
  // creates nor removes the zone, or nothing was staged.
  lemma RetryAfterCutIff(foreign: Config, ds: seq<InterfaceDiff>, again: seq<InterfaceDiff>, managed: set<string>,
                         wanted: set<string>, fw: FirewallState, cfg: Config, k: nat)
    requires Usable(foreign) && FirewallOk(foreign, managed, fw, cfg)
    requires Between(ds, managed, wanted) && Between(again, managed, wanted)
    ensures var left := Run(Prefix(FirewallHalf(ds, fw, ZONE in cfg).plan, k), cfg);
      Good(foreign, wanted, FirewallHalf(again, fw, ZONE in left), left)
      <==> KeepsZone(foreign, managed, wanted) || k == 0
  {
    var plan := FirewallHalf(ds, fw, ZONE in cfg).plan;
    if KeepsZone(foreign, managed, wanted) {
      OkUnfinished(foreign, managed, wanted, fw, cfg);
      CutUnfinished(foreign, ds, managed, wanted, fw, cfg, k);
      UnfinishedGood(foreign, again, managed, wanted, fw, Run(Prefix(plan, k), cfg));
    } else if k == 0 {
      assert Prefix(plan, 0) == [];
      ApplyKeepsFirewall(foreign, again, managed, wanted, fw, cfg);
    } else if managed == {} {
      CreationPlan(foreign, ds, wanted);
      BegunCreation(ds, cfg, k);
      PresentMisread(foreign, again, wanted, Run(Prefix(plan, k), cfg));
    } else {
      TeardownHalf(ds, managed, fw, ZONE in cfg);
      BegunTeardown(cfg, k);
      TeardownHalf(again, managed, fw, ZONE in Run(Prefix(plan, k), cfg));
      TeardownRefused(Run(Prefix(plan, k), cfg));
    }
  }

  // ----- any number of failed attempts -----

  ghost predicate StoreUnfinished(foreign: Config, managed: set<string>, wanted: set<string>, fw: FirewallState,
                                  n: Store) {
    Unfinished(foreign, managed, wanted, fw, n.staged) && Unfinished(foreign, managed, wanted, fw, n.committed)
  }

  // Reverted or not, committed or not.
  lemma CutKeepsUnfinished(foreign: Config, ds: seq<InterfaceDiff>, managed: set<string>, wanted: set<string>,
                           fw: FirewallState, n: Store, cut: Cut)
    requires Between(ds, managed, wanted) && KeepsZone(foreign, managed, wanted)
    requires StoreUnfinished(foreign, managed, wanted, fw, n)
    ensures StoreUnfinished(foreign, managed, wanted, fw, AfterCut(FirewallHalf(ds, fw, ZONE in n.staged).plan, n, cut))
  {
    var plan := FirewallHalf(ds, fw, ZONE in n.staged).plan;
    CutUnfinished(foreign, ds, managed, wanted, fw, n.staged, cut.steps);
    CutUnfinished(foreign, ds, managed, wanted, fw, n.staged, |plan|);
    assert plan[..|plan|] == plan;
  }

  // ----- runs -----

  // One failed attempt: its diff, and where it stopped.
  datatype Failure = Failure(ds: seq<InterfaceDiff>, cut: Cut)

  // One bundle: failed attempts, then one that runs through.
  datatype Episode = Episode(failures: seq<Failure>, ds: seq<InterfaceDiff>, wanted: set<string>)

  function Left(n: Store, fw: FirewallState, failures: seq<Failure>): Store
    decreases |failures|
  {
    if failures == [] then n
    else Left(AfterCut(FirewallHalf(failures[0].ds, fw, ZONE in n.staged).plan, n, failures[0].cut), fw, failures[1..])
  }

  ghost predicate AllBetween(failures: seq<Failure>, managed: set<string>, wanted: set<string>) {
    forall n :: 0 <= n < |failures| ==> Between(failures[n].ds, managed, wanted)
  }

  predicate AllUndone(failures: seq<Failure>) { forall n :: 0 <= n < |failures| ==> Undone(failures[n].cut) }

  // The failed attempts left something the next one can work with.
  predicate Bearable(foreign: Config, managed: set<string>, wanted: set<string>, n: Store, left: Store) {
    KeepsZone(foreign, managed, wanted) || left == n
  }

  // It is enough that every one of them was undone.
  lemma {:induction false} UndoneLeave(n: Store, fw: FirewallState, failures: seq<Failure>)
    requires AtRest(n) && AllUndone(failures)
    ensures Left(n, fw, failures) == n
    decreases |failures|
  {
    if failures != [] {
      NoSteps(FirewallHalf(failures[0].ds, fw, ZONE in n.staged).plan, n, failures[0].cut);
      UndoneLeave(n, fw, failures[1..]);
    }
  }

  lemma {:induction false} FailuresUnfinished(foreign: Config, managed: set<string>, wanted: set<string>,
                                              fw: FirewallState, n: Store, failures: seq<Failure>)
    requires KeepsZone(foreign, managed, wanted) && AllBetween(failures, managed, wanted)
    requires StoreUnfinished(foreign, managed, wanted, fw, n)
    ensures StoreUnfinished(foreign, managed, wanted, fw, Left(n, fw, failures))
    decreases |failures|
  {
    if failures != [] {
      var f := failures[0];
      CutKeepsUnfinished(foreign, f.ds, managed, wanted, fw, n, f.cut);
      FailuresUnfinished(foreign, managed, wanted, fw,
                         AfterCut(FirewallHalf(f.ds, fw, ZONE in n.staged).plan, n, f.cut), failures[1..]);
    }
  }

  // With nothing to do, no failed attempt has left anything.
  lemma {:induction false} IdleLeave(foreign: Config, managed: set<string>, wanted: set<string>, fw: FirewallState,
                                     n: Store, failures: seq<Failure>)
    requires AllBetween(failures, managed, wanted) && (ZONE in foreign || managed == wanted)
    requires AtRest(n) && FirewallOk(foreign, managed, fw, n.committed)
    ensures Left(n, fw, failures) == n
    decreases |failures|
  {
    if failures != [] {
      IdlePlan(foreign, failures[0].ds, managed, wanted, fw, n.staged);
      IdleLeave(foreign, managed, wanted, fw, n, failures[1..]);
    }
  }

  lemma IdlePlan(foreign: Config, ds: seq<InterfaceDiff>, managed: set<string>, wanted: set<string>, fw: FirewallState,
                 cfg: Config)
    requires Between(ds, managed, wanted) && (ZONE in foreign || managed == wanted)
    requires FirewallOk(foreign, managed, fw, cfg)
    ensures FirewallHalf(ds, fw, ZONE in cfg).plan == []
  {
    NothingKept(ds, managed, wanted);
    if ZONE in foreign || managed == {} { NothingToDo(ds, ZONE in cfg); } else {
      SameMembers(ds, managed, ZONE in cfg);
    }
  }

  lemma SameMembers(ds: seq<InterfaceDiff>, managed: set<string>, present: bool)
    requires Between(ds, managed, managed) && managed != {}
    ensures FirewallHalf(ds, FirewallState(true, Sorted(managed)), present).plan == []
  {
    EditsAllowed(ds, managed, managed);
    NothingKept(ds, managed, managed);
    var toRemove := ToRemove(ds, Sorted(managed));
    forall x ensures x !in toRemove { PickedAre(ds, managed, managed, Leaves(Sorted(managed)), x); }
    NobodyIn(toRemove);
    NobodyIn(ToAdd(ds, Sorted(managed)));
  }

  lemma NobodyIn(names: seq<string>)
    ensures names == [] || exists x :: x in names
  {
    if names != [] { assert names[0] in names; }
  }

  // What is to be edited is committed.
  lemma EditsCommit(ds: seq<InterfaceDiff>, managed: set<string>, wanted: set<string>, present: bool)
    requires Between(ds, managed, wanted) && managed != wanted && wanted != {}
    ensures FirewallHalf(ds, FirewallState(true, Sorted(managed)), present).changed
  {
    NothingKept(ds, managed, wanted);
    NothingToEdit(ds, managed, wanted);
    OwnedPlan(ds, Sorted(managed));
    if !AnyChanged(ds) { UnchangedSame(ds, managed, wanted); }
  }

  lemma BearableEnds(foreign: Config, n: Store, fw: FirewallState, managed: set<string>, e: Episode)
    requires Usable(foreign) && AtRest(n) && FirewallOk(foreign, managed, fw, n.committed)
    requires AllBetween(e.failures, managed, e.wanted) && Between(e.ds, managed, e.wanted)
    requires Bearable(foreign, managed, e.wanted, n, Left(n, fw, e.failures))
    ensures Ends(foreign, fw, e, Left(n, fw, e.failures))
  {
    var left := Left(n, fw, e.failures);
    if ZONE in foreign || managed == e.wanted {
      IdleLeave(foreign, managed, e.wanted, fw, n, e.failures);
      ApplyKeepsFirewall(foreign, e.ds, managed, e.wanted, fw, n.staged);
    } else if KeepsZone(foreign, managed, e.wanted) {
      OkUnfinished(foreign, managed, e.wanted, fw, n.committed);
      FailuresUnfinished(foreign, managed, e.wanted, fw, n, e.failures);
      UnfinishedGood(foreign, e.ds, managed, e.wanted, fw, left.staged);
      EditsCommit(e.ds, managed, e.wanted, ZONE in left.staged);
    } else {
      ApplyKeepsFirewall(foreign, e.ds, managed, e.wanted, fw, n.staged);
    }
  }

  // A creation or a teardown has begun in this config.
  ghost predicate Begun(managed: set<string>, cfg: Config) {
    if managed == {} then ZONE in cfg else LAN_TO_ZONE !in cfg
  }

  ghost predicate StoreBegun(managed: set<string>, n: Store, left: Store) {
    && (left.staged == n.staged || Begun(managed, left.staged))
    && (left.committed == n.committed || (Begun(managed, left.committed) && Begun(managed, left.staged)))
  }

  lemma NotBegun(foreign: Config, managed: set<string>, fw: FirewallState, cfg: Config)
    requires ZONE !in foreign && Usable(foreign) && FirewallOk(foreign, managed, fw, cfg)
    ensures !Begun(managed, cfg)
  {
    if managed != {} { var items :| Lists(items, managed) && cfg == WithZone(foreign, Some(items)); }
  }

  // From where nothing has begun, any step at all begins it.
  lemma CutBegins(foreign: Config, ds: seq<InterfaceDiff>, managed: set<string>, wanted: set<string>, fw: FirewallState,
                  cfg: Config, k: nat)
    requires Usable(foreign) && FirewallOk(foreign, managed, fw, cfg)
    requires Between(ds, managed, wanted) && !KeepsZone(foreign, managed, wanted)
    ensures FirewallHalf(ds, fw, ZONE in cfg).plan != []
    ensures k > 0 ==> Begun(managed, Run(Prefix(FirewallHalf(ds, fw, ZONE in cfg).plan, k), cfg))
  {
    if managed == {} {
      CreationPlan(foreign, ds, wanted);
      CreateFirst();
      if k > 0 { BegunCreation(ds, cfg, k); }
    } else {
      TeardownHalf(ds, managed, fw, ZONE in cfg);
      if k > 0 { BegunTeardown(cfg, k); }
    }
  }

  // Once it has begun, no further attempt takes it back.
  lemma CutStaysBegun(ds: seq<InterfaceDiff>, managed: set<string>, wanted: set<string>, fw: FirewallState, cfg: Config,
                      k: nat)
    requires Begun(managed, cfg) && Between(ds, managed, wanted) && (managed == {} <==> wanted != {})
    requires if managed == {} then fw == NO_FIREWALL else fw.zoneOwned
    ensures Begun(managed, Run(Prefix(FirewallHalf(ds, fw, ZONE in cfg).plan, k), cfg))
  {
    if managed == {} {
      NothingRuns(Condition(Store(cfg, cfg), NO_FIREWALL), ds);
    } else {
      TeardownHalf(ds, managed, fw, ZONE in cfg);
      if k == 0 { assert Prefix(TeardownPlan(), 0) == []; } else { BegunTeardown(cfg, k); }
    }
  }

  lemma WholePlan(plan: seq<Step>)
    ensures Prefix(plan, |plan|) == plan && Prefix(plan, 0) == []
  {
  }

  lemma CutKeepsBegun(foreign: Config, ds: seq<InterfaceDiff>, managed: set<string>, wanted: set<string>,
                      fw: FirewallState, n: Store, left: Store, cut: Cut)
    requires Usable(foreign) && AtRest(n) && FirewallOk(foreign, managed, fw, n.committed)
    requires Between(ds, managed, wanted) && !KeepsZone(foreign, managed, wanted) && StoreBegun(managed, n, left)
    ensures StoreBegun(managed, n, AfterCut(FirewallHalf(ds, fw, ZONE in left.staged).plan, left, cut))
  {
    var plan := FirewallHalf(ds, fw, ZONE in left.staged).plan;
    WholePlan(plan);
    NotBegun(foreign, managed, fw, n.committed);
    if Begun(managed, left.staged) {
      CutStaysBegun(ds, managed, wanted, fw, left.staged, cut.steps);
      CutStaysBegun(ds, managed, wanted, fw, left.staged, |plan|);
    } else {
      CutBegins(foreign, ds, managed, wanted, fw, n.staged, cut.steps);
      CutBegins(foreign, ds, managed, wanted, fw, n.staged, |plan|);
    }
  }

  lemma {:induction false} FailuresBegin(foreign: Config, managed: set<string>, wanted: set<string>, fw: FirewallState,
                                         n: Store, left: Store, failures: seq<Failure>)
    requires Usable(foreign) && AtRest(n) && FirewallOk(foreign, managed, fw, n.committed)
    requires AllBetween(failures, managed, wanted) && !KeepsZone(foreign, managed, wanted)
    requires StoreBegun(managed, n, left)
    ensures StoreBegun(managed, n, Left(left, fw, failures))
    decreases |failures|
  {
    if failures != [] {
      var f := failures[0];
      CutKeepsBegun(foreign, f.ds, managed, wanted, fw, n, left, f.cut);
      FailuresBegin(foreign, managed, wanted, fw, n,
                    AfterCut(FirewallHalf(f.ds, fw, ZONE in left.staged).plan, left, f.cut), failures[1..]);
    }
  }

  lemma BegunBad(foreign: Config, ds: seq<InterfaceDiff>, managed: set<string>, wanted: set<string>, fw: FirewallState,
                 cfg: Config)
    requires NoZone(foreign) && Begun(managed, cfg) && Between(ds, managed, wanted) && (managed == {} <==> wanted != {})
    requires if managed == {} then fw == NO_FIREWALL else fw.zoneOwned
    ensures !Good(foreign, wanted, FirewallHalf(ds, fw, ZONE in cfg), cfg)
  {
    if managed == {} {
      PresentMisread(foreign, ds, wanted, cfg);
    } else {
      TeardownHalf(ds, managed, fw, ZONE in cfg);
      TeardownRefused(cfg);
    }
  }

  // The attempt that runs through restores the invariant, and commits whatever is staged.
  ghost predicate Ends(foreign: Config, fw: FirewallState, e: Episode, left: Store) {
    var out := FirewallHalf(e.ds, fw, ZONE in left.staged);
    Good(foreign, e.wanted, out, left.staged) && (out.changed || AtRest(left))
  }

  // After any history of failed attempts at one bundle, each cut anywhere, reverted or not,
  // committed or not, the attempt that runs through does so if and only if the apply neither
  // creates nor removes the zone, or all that the failed ones staged is gone.
  lemma SameBundleEndsIff(foreign: Config, n: Store, fw: FirewallState, managed: set<string>, e: Episode)
    requires Usable(foreign) && AtRest(n) && FirewallOk(foreign, managed, fw, n.committed)
    requires AllBetween(e.failures, managed, e.wanted) && Between(e.ds, managed, e.wanted)
    ensures Ends(foreign, fw, e, Left(n, fw, e.failures))
      <==> Bearable(foreign, managed, e.wanted, n, Left(n, fw, e.failures))
  {
    var left := Left(n, fw, e.failures);
    if Bearable(foreign, managed, e.wanted, n, left) {
      BearableEnds(foreign, n, fw, managed, e);
    } else {
      FailuresBegin(foreign, managed, e.wanted, fw, n, n, e.failures);
      NotBegun(foreign, managed, fw, n.committed);
      assert Begun(managed, left.staged);
      BegunBad(foreign, e.ds, managed, e.wanted, fw, left.staged);
    }
  }
}
