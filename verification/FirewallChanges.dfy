/** Applies over firewall leftovers of attempts at other bundles: the exact condition on what they
    left, and the zone over runs of changing bundles.
  */
module FirewallChanges {
  import opened Text
  import opened Bundle
  import opened Uci
  import opened Last
  import opened DiffTypes
  import opened Retry
  import opened Firewall
  import opened FirewallRuns
  import opened FirewallHistory

  // ----- the condition -----

  // The zone and its forwardings stand, and the zone lists what this apply can start from.
  ghost predicate ZoneStands(foreign: Config, managed: set<string>, wanted: set<string>, cfg: Config) {
    exists network :: (wanted == {} || InBetween(network, managed, wanted)) && cfg == WithZone(foreign, Some(network))
  }

  // What failed attempts at any bundles left of the store n, seen from the next bundle: next to
  // an operator's zone, or with no interface on record, it has to be n; otherwise the zone has
  // to stand, and to rest if there is nothing to edit.
  ghost predicate ZoneReady(foreign: Config, managed: set<string>, wanted: set<string>, n: Store, left: Store) {
    if ZONE in foreign || managed == {} then left == n
    else ZoneStands(foreign, managed, wanted, left.staged) && (managed == wanted ==> AtRest(left))
  }

  // ----- next to an operator's zone -----

  lemma {:induction false} OperatorLeave(n: Store, fw: FirewallState, failures: seq<Failure>)
    requires !fw.zoneOwned && ZONE in n.staged && AtRest(n)
    ensures Left(n, fw, failures) == n
    decreases |failures|
  {
    if failures != [] {
      NothingRuns(Condition(n, fw), failures[0].ds);
      OperatorLeave(n, fw, failures[1..]);
    }
  }

  // ----- with no interface on record -----

  // A plan over an unowned zone creates it or does nothing.
  lemma UnownedPlan(ds: seq<InterfaceDiff>, present: bool)
    ensures var plan := FirewallHalf(ds, NO_FIREWALL, present).plan;
      plan == [] || (!present && plan == CreateZonePlan() + MemberPlan(ds, []))
  {
    if Kept(ds) != [] && (ToAdd(ds, []) != [] || ToRemove(ds, []) != []) { FreshPlan(ds); }
  }

  lemma UnownedCut(ds: seq<InterfaceDiff>, cfg: Config, k: nat)
    ensures var r := Run(Prefix(FirewallHalf(ds, NO_FIREWALL, ZONE in cfg).plan, k), cfg); r == cfg || ZONE in r
  {
    var plan := FirewallHalf(ds, NO_FIREWALL, ZONE in cfg).plan;
    UnownedPlan(ds, ZONE in cfg);
    WholePlan(plan);
    if plan != [] && k > 0 { BegunCreation(ds, cfg, k); }
  }

  // The zone has appeared, or nothing has happened.
  ghost predicate Appeared(n: Store, left: Store) {
    && (left.staged == n.staged || ZONE in left.staged)
    && (left.committed == n.committed || (ZONE in left.committed && ZONE in left.staged))
  }

  lemma CutAppears(n: Store, left: Store, ds: seq<InterfaceDiff>, cut: Cut)
    requires AtRest(n) && ZONE !in n.staged && Appeared(n, left)
    ensures Appeared(n, AfterCut(FirewallHalf(ds, NO_FIREWALL, ZONE in left.staged).plan, left, cut))
  {
    var plan := FirewallHalf(ds, NO_FIREWALL, ZONE in left.staged).plan;
    WholePlan(plan);
    UnownedCut(ds, left.staged, cut.steps);
    UnownedCut(ds, left.staged, |plan|);
  }

  lemma {:induction false} FailuresAppear(n: Store, left: Store, failures: seq<Failure>)
    requires AtRest(n) && ZONE !in n.staged && Appeared(n, left)
    ensures Appeared(n, Left(left, NO_FIREWALL, failures))
    decreases |failures|
  {
    if failures != [] {
      var f := failures[0];
      CutAppears(n, left, f.ds, f.cut);
      FailuresAppear(n, AfterCut(FirewallHalf(f.ds, NO_FIREWALL, ZONE in left.staged).plan, left, f.cut),
                     failures[1..]);
    }
  }

  // A zone that is there is taken for an operator's, so the invariant is out of reach.
  lemma PresentBad(foreign: Config, ds: seq<InterfaceDiff>, wanted: set<string>, cfg: Config)
    requires ZONE !in foreign && ZONE in cfg
    ensures !Good(foreign, wanted, FirewallHalf(ds, NO_FIREWALL, true), cfg)
  {
    NothingRuns(Condition(Store(cfg, cfg), NO_FIREWALL), ds);
  }

  // ----- member edits and teardowns, cut anywhere -----

  // What is left of the zone and its forwardings: this list, without these sections.
  ghost predicate WornTo(foreign: Config, cfg: Config, network: seq<string>, gone: set<string>) {
    NoDuplicates(network) && gone <= OWNED_NAMES && cfg == WithZone(foreign, Some(network)) - gone
  }

  // The zone as edits and teardowns of any bundles can leave it.
  ghost predicate Worn(foreign: Config, cfg: Config) {
    exists network, gone :: WornTo(foreign, cfg, network, gone)
  }

  lemma WornWith(foreign: Config, network: seq<string>, gone: set<string>)
    requires NoDuplicates(network) && gone <= OWNED_NAMES
    ensures Worn(foreign, WithZone(foreign, Some(network)) - gone)
  {
    assert WornTo(foreign, WithZone(foreign, Some(network)) - gone, network, gone);
  }

  lemma DropWorn(foreign: Config, network: seq<string>, gone: set<string>, x: string)
    requires NoDuplicates(network)
    ensures NoDuplicates(Without(network, x)) && x !in Without(network, x)
    ensures StepEffect(Do(RemoveMember(x)), WithZone(foreign, Some(network)) - gone)
         == WithZone(foreign, Some(if ZONE in gone then network else Without(network, x))) - gone
  {
    WithoutKeepsNoDuplicates(network, x);
    WithoutMembers(network, x, x);
    DropStep(foreign, Some(network), x);
  }

  lemma AddWorn(foreign: Config, network: seq<string>, gone: set<string>, x: string)
    ensures StepEffect(Do(AddMember(x)), WithZone(foreign, Some(network)) - gone)
         == WithZone(foreign, Some(if ZONE in gone then network else network + [x])) - gone
  {
    AddStep(foreign, Some(network), x);
  }

  lemma {:induction false} RemovalsWorn(foreign: Config, network: seq<string>, gone: set<string>, names: seq<string>,
                                        k: nat)
    requires NoDuplicates(network) && gone <= OWNED_NAMES && k <= |Removals(names)|
    ensures exists m :: WornTo(foreign, Run(Removals(names)[..k], WithZone(foreign, Some(network)) - gone), m, gone)
    decreases |names|
  {
    if k == 0 {
      assert Removals(names)[..k] == [];
      assert WornTo(foreign, Run(Removals(names)[..k], WithZone(foreign, Some(network)) - gone), network, gone);
    } else {
      var next := if ZONE in gone then network else Without(network, names[0]);
      DropWorn(foreign, network, gone, names[0]);
      assert Removals(names)[..k][1..] == Removals(names[1..])[..k - 1];
      RemovalsWorn(foreign, next, gone, names[1..], k - 1);
      var m :| WornTo(foreign, Run(Removals(names[1..])[..k - 1], WithZone(foreign, Some(next)) - gone), m, gone);
      assert WornTo(foreign, Run(Removals(names)[..k], WithZone(foreign, Some(network)) - gone), m, gone);
    }
  }

  lemma OneMore(network: seq<string>, x: string)
    requires NoDuplicates(network) && x !in network
    ensures NoDuplicates(network + [x])
  {
  }

  lemma TwoSteps(first: Step, second: Step, rest: seq<Step>, cfg: Config)
    ensures Run([first, second] + rest, cfg) == Run(rest, StepEffect(second, StepEffect(first, cfg)))
  {
    assert ([first, second] + rest)[1..][1..] == rest;
  }

  lemma {:induction false} AdditionsWorn(foreign: Config, network: seq<string>, gone: set<string>, names: seq<string>,
                                         k: nat)
    requires NoDuplicates(network) && gone <= OWNED_NAMES && k <= |Additions(names)|
    ensures exists m :: WornTo(foreign, Run(Additions(names)[..k], WithZone(foreign, Some(network)) - gone), m, gone)
    decreases |names|
  {
    if k == 0 {
      assert Additions(names)[..k] == [];
      assert WornTo(foreign, Run(Additions(names)[..k], WithZone(foreign, Some(network)) - gone), network, gone);
    } else {
      var x := names[0];
      var dropped := if ZONE in gone then network else Without(network, x);
      DropWorn(foreign, network, gone, x);
      if k == 1 {
        assert Additions(names)[..k] == [Do(RemoveMember(x))];
        RunOne(Do(RemoveMember(x)), WithZone(foreign, Some(network)) - gone);
        assert WornTo(foreign, WithZone(foreign, Some(dropped)) - gone, dropped, gone);
      } else {
        var next := if ZONE in gone then dropped else dropped + [x];
        var rest := Additions(names[1..])[..k - 2];
        assert Additions(names)[..k] == [Do(RemoveMember(x)), Do(AddMember(x))] + rest;
        TwoSteps(Do(RemoveMember(x)), Do(AddMember(x)), rest, WithZone(foreign, Some(network)) - gone);
        AddWorn(foreign, dropped, gone, x);
        if ZONE !in gone { OneMore(dropped, x); }
        AdditionsWorn(foreign, next, gone, names[1..], k - 2);
        var m :| WornTo(foreign, Run(rest, WithZone(foreign, Some(next)) - gone), m, gone);
        assert WornTo(foreign, Run(Additions(names)[..k], WithZone(foreign, Some(network)) - gone), m, gone);
      }
    }
  }

  lemma EditsWorn(foreign: Config, network: seq<string>, gone: set<string>, toRemove: seq<string>, toAdd: seq<string>,
                  k: nat)
    requires NoDuplicates(network) && gone <= OWNED_NAMES && k <= |Removals(toRemove) + Additions(toAdd)|
    ensures Worn(foreign, Run((Removals(toRemove) + Additions(toAdd))[..k], WithZone(foreign, Some(network)) - gone))
  {
    var a, b, cfg := Removals(toRemove), Additions(toAdd), WithZone(foreign, Some(network)) - gone;
    if k <= |a| {
      assert (a + b)[..k] == a[..k];
      RemovalsWorn(foreign, network, gone, toRemove, k);
    } else {
      assert (a + b)[..k] == a + b[..k - |a|] && a[..|a|] == a;
      RunConcat(a, b[..k - |a|], cfg);
      RemovalsWorn(foreign, network, gone, toRemove, |a|);
      var m :| WornTo(foreign, Run(a, cfg), m, gone);
      AdditionsWorn(foreign, m, gone, toAdd, k - |a|);
    }
  }

  lemma {:induction false} DeletionsTake(names: seq<string>, cfg: Config)
    ensures Run(Steps(Deletions(names)), cfg) == cfg - (set x | x in names)
    decreases |names|
  {
    if names == [] {
      assert cfg - (set x | x in names) == cfg;
    } else {
      var plan, rest := Steps(Deletions(names)), names[1..];
      assert plan[1..] == Steps(Deletions(rest));
      assert StepEffect(plan[0], cfg) == cfg - {names[0]};
      DeletionsTake(rest, cfg - {names[0]});
      assert (set x | x in names) == {names[0]} + (set x | x in rest);
    }
  }

  lemma TeardownWorn(foreign: Config, cfg: Config, k: nat)
    requires Worn(foreign, cfg) && k <= 4
    ensures Worn(foreign, Run(TeardownPlan()[..k], cfg))
  {
    var all := [LAN_TO_ZONE, ZONE_TO_LAN, ZONE_TO_WAN, ZONE];
    var network, gone :| WornTo(foreign, cfg, network, gone);
    assert TeardownPlan()[..k] == Steps(Deletions(all[..k]));
    DeletionsTake(all[..k], cfg);
    var more := set x | x in all[..k];
    assert forall x :: x in all[..k] ==> x in all;
    assert cfg - more == WithZone(foreign, Some(network)) - (gone + more);
    WornWith(foreign, network, gone + more);
  }

  // A plan over an owned zone edits its members, tears it down, or does nothing.
  lemma OwnedPlans(ds: seq<InterfaceDiff>, members: seq<string>, present: bool)
    ensures var plan := FirewallHalf(ds, FirewallState(true, members), present).plan;
      plan == [] || plan == MemberPlan(ds, members) || plan == TeardownPlan()
  {
    assert [] + Removals(ToRemove(ds, members)) == Removals(ToRemove(ds, members));
  }

  lemma CutWorn(foreign: Config, ds: seq<InterfaceDiff>, members: seq<string>, cfg: Config, k: nat)
    requires Worn(foreign, cfg)
    ensures Worn(foreign, Run(Prefix(FirewallHalf(ds, FirewallState(true, members), ZONE in cfg).plan, k), cfg))
  {
    var plan := FirewallHalf(ds, FirewallState(true, members), ZONE in cfg).plan;
    var steps := if k <= |plan| then k else |plan|;
    assert Prefix(plan, k) == plan[..steps];
    OwnedPlans(ds, members, ZONE in cfg);
    if plan == TeardownPlan() {
      TeardownWorn(foreign, cfg, steps);
    } else if plan != [] {
      var network, gone :| WornTo(foreign, cfg, network, gone);
      EditsWorn(foreign, network, gone, ToRemove(ds, members), ToAdd(ds, members), steps);
    }
  }

  ghost predicate StoreWorn(foreign: Config, n: Store) { Worn(foreign, n.staged) && Worn(foreign, n.committed) }

  lemma CutKeepsWorn(foreign: Config, ds: seq<InterfaceDiff>, members: seq<string>, n: Store, cut: Cut)
    requires StoreWorn(foreign, n)
    ensures StoreWorn(foreign, AfterCut(FirewallHalf(ds, FirewallState(true, members), ZONE in n.staged).plan, n, cut))
  {
    var plan := FirewallHalf(ds, FirewallState(true, members), ZONE in n.staged).plan;
    WholePlan(plan);
    CutWorn(foreign, ds, members, n.staged, cut.steps);
    CutWorn(foreign, ds, members, n.staged, |plan|);
  }

  lemma {:induction false} FailuresWorn(foreign: Config, members: seq<string>, n: Store, failures: seq<Failure>)
    requires StoreWorn(foreign, n)
    ensures StoreWorn(foreign, Left(n, FirewallState(true, members), failures))
    decreases |failures|
  {
    if failures != [] {
      var f := failures[0];
      CutKeepsWorn(foreign, f.ds, members, n, f.cut);
      var next := AfterCut(FirewallHalf(f.ds, FirewallState(true, members), ZONE in n.staged).plan, n, f.cut);
      FailuresWorn(foreign, members, next, failures[1..]);
    }
  }

  // ----- the apply over a worn zone -----

  lemma {:induction false} RunKeepsKeys(plan: seq<Step>, cfg: Config)
    requires forall n :: 0 <= n < |plan| ==>
      plan[n].Do? && (plan[n].command.AddList? || plan[n].command.DelList?)
    ensures Run(plan, cfg).Keys == cfg.Keys
    decreases |plan|
  {
    if plan != [] {
      assert StepEffect(plan[0], cfg).Keys == cfg.Keys;
      RunKeepsKeys(plan[1..], StepEffect(plan[0], cfg));
    }
  }

  lemma {:induction false} EditsAreListCommands(toRemove: seq<string>, toAdd: seq<string>)
    ensures forall n :: 0 <= n < |Removals(toRemove)| ==>
      Removals(toRemove)[n].Do? && Removals(toRemove)[n].command.DelList?
    ensures forall n :: 0 <= n < |Additions(toAdd)| ==>
      Additions(toAdd)[n].Do? && (Additions(toAdd)[n].command.AddList? || Additions(toAdd)[n].command.DelList?)
    decreases |toRemove| + |toAdd|
  {
    if toRemove != [] { EditsAreListCommands(toRemove[1..], toAdd); }
    if toAdd != [] { EditsAreListCommands([], toAdd[1..]); }
  }

  lemma MembersKeepKeys(ds: seq<InterfaceDiff>, members: seq<string>, cfg: Config)
    ensures Run(MemberPlan(ds, members), cfg).Keys == cfg.Keys
  {
    EditsAreListCommands(ToRemove(ds, members), ToAdd(ds, members));
    RunKeepsKeys(MemberPlan(ds, members), cfg);
  }

  lemma AllGoneOrNone(foreign: Config, network: seq<string>, gone: set<string>)
    requires gone <= OWNED_NAMES && OWNED_NAMES <= (WithZone(foreign, Some(network)) - gone).Keys
    ensures WithZone(foreign, Some(network)) - gone == WithZone(foreign, Some(network))
  {
  }

  // If all four sections are there, what is worn is only the list.
  lemma WornStanding(foreign: Config, cfg: Config) returns (network: seq<string>)
    requires Worn(foreign, cfg) && OWNED_NAMES <= cfg.Keys
    ensures NoDuplicates(network) && cfg == WithZone(foreign, Some(network))
  {
    var m, gone :| WornTo(foreign, cfg, m, gone);
    AllGoneOrNone(foreign, m, gone);
    network := m;
  }

  lemma ZonesHaveAll(foreign: Config, network: Option<seq<string>>)
    ensures OWNED_NAMES <= WithZone(foreign, network).Keys
  {
  }

  lemma ZoneDetermines(foreign: Config, a: Option<seq<string>>, b: Option<seq<string>>)
    requires WithZone(foreign, a) == WithZone(foreign, b)
    ensures a == b
  {
    assert Zone(a) == WithZone(foreign, a)[ZONE] == WithZone(foreign, b)[ZONE] == Zone(b);
    assert a.Some? <==> "network" in Zone(a).options;
    assert b.Some? <==> "network" in Zone(b).options;
    assert a.Some? ==> Zone(a).options["network"] == ListOf(a.value);
    assert b.Some? ==> Zone(b).options["network"] == ListOf(b.value);
  }

  // Editing gives the wanted list exactly from a list in between.
  lemma EditedFrom(foreign: Config, ds: seq<InterfaceDiff>, managed: set<string>, wanted: set<string>,
                   network: seq<string>)
    requires Between(ds, managed, wanted) && NoDuplicates(network)
    requires ZoneLists(foreign, wanted, Run(MemberPlan(ds, Sorted(managed)), WithZone(foreign, Some(network))))
    ensures InBetween(network, managed, wanted)
  {
    var toRemove, toAdd := ToRemove(ds, Sorted(managed)), ToAdd(ds, Sorted(managed));
    var kept := AfterRemovals(Some(network), toRemove);
    var items :| Lists(items, wanted)
      && Run(MemberPlan(ds, Sorted(managed)), WithZone(foreign, Some(network))) == WithZone(foreign, Some(items));
    RunConcat(Removals(toRemove), Additions(toAdd), WithZone(foreign, Some(network)));
    RunRemovals(foreign, Some(network), toRemove);
    RunAdditions(foreign, kept, toAdd);
    ZoneDetermines(foreign, AfterAdditions(kept, toAdd), Some(items));
    RemovalsList(Some(network), toRemove, "");
    EditsAllowed(ds, managed, wanted);
    forall x ensures x in items <==> (x in network && x !in toRemove) || x in toAdd {
      RemovalsList(Some(network), toRemove, x);
      AdditionsList(kept, toAdd, x);
    }
    forall x | x in toRemove ensures x in managed { PickedAre(ds, managed, wanted, Leaves(Sorted(managed)), x); }
  }

  lemma NothingEditedFrom(foreign: Config, wanted: set<string>, network: seq<string>)
    requires ZoneLists(foreign, wanted, WithZone(foreign, Some(network)))
    ensures InBetween(network, wanted, wanted)
  {
    var items :| Lists(items, wanted) && WithZone(foreign, Some(network)) == WithZone(foreign, Some(items));
    ZoneDetermines(foreign, Some(network), Some(items));
  }

  // What an owned zone's plan does when some interface stays.
  lemma OwnedStays(ds: seq<InterfaceDiff>, managed: set<string>, wanted: set<string>, present: bool)
    requires Between(ds, managed, wanted) && wanted != {}
    ensures var out := FirewallHalf(ds, FirewallState(true, Sorted(managed)), present);
      if managed == wanted then out.plan == [] && !out.changed
      else out.plan == MemberPlan(ds, Sorted(managed)) && out.changed
  {
    NothingKept(ds, managed, wanted);
    OwnedPlan(ds, Sorted(managed));
    if managed == wanted {
      SameMembers(ds, managed, present);
    } else {
      NothingToEdit(ds, managed, wanted);
      EditsCommit(ds, managed, wanted, present);
    }
  }

  lemma OwnedEnds(foreign: Config, ds: seq<InterfaceDiff>, managed: set<string>, wanted: set<string>, left: Store)
    requires NoZone(foreign) && managed != {} && Between(ds, managed, wanted)
    requires ZoneReady(foreign, managed, wanted, left, left)
    ensures Ends(foreign, FirewallState(true, Sorted(managed)), Episode([], ds, wanted), left)
  {
    var fw := FirewallState(true, Sorted(managed));
    assert ZONE in OWNED_NAMES;
    var network :|
      (wanted == {} || InBetween(network, managed, wanted)) && left.staged == WithZone(foreign, Some(network));
    if wanted == {} {
      TeardownHalf(ds, managed, fw, ZONE in left.staged);
      Teardown(foreign, Some(network));
      NothingKept(ds, managed, wanted);
    } else {
      UnfinishedGood(foreign, ds, managed, wanted, fw, left.staged);
      OwnedStays(ds, managed, wanted, ZONE in left.staged);
    }
  }

  lemma {:induction false} DeletionsNeed(names: seq<string>, cfg: Config)
    requires Accepted(Steps(Deletions(names)), cfg)
    ensures forall x :: x in names ==> x in cfg
    decreases |names|
  {
    if names != [] {
      var plan, rest := Steps(Deletions(names)), names[1..];
      assert plan[1..] == Steps(Deletions(rest));
      assert StepEffect(plan[0], cfg) == cfg - {names[0]};
      DeletionsNeed(rest, cfg - {names[0]});
      assert forall x :: x in names ==> x == names[0] || x in rest;
    }
  }

  lemma TeardownNeedsAll(cfg: Config)
    requires Accepted(TeardownPlan(), cfg)
    ensures OWNED_NAMES <= cfg.Keys
  {
    var all := [LAN_TO_ZONE, ZONE_TO_LAN, ZONE_TO_WAN, ZONE];
    assert TeardownPlan() == Steps(Deletions(all));
    DeletionsNeed(all, cfg);
    assert forall x :: x in OWNED_NAMES ==> x in all;
  }

  // An owned apply that ends well has started from a zone that stood.
  lemma EndedStood(foreign: Config, ds: seq<InterfaceDiff>, managed: set<string>, wanted: set<string>, left: Store)
    requires NoZone(foreign) && managed != {} && Between(ds, managed, wanted) && Worn(foreign, left.staged)
    requires Ends(foreign, FirewallState(true, Sorted(managed)), Episode([], ds, wanted), left)
    ensures OWNED_NAMES <= left.staged.Keys
  {
    var fw := FirewallState(true, Sorted(managed));
    assert ZONE in OWNED_NAMES;
    if wanted == {} {
      TeardownHalf(ds, managed, fw, ZONE in left.staged);
      TeardownNeedsAll(left.staged);
    } else {
      OwnedStays(ds, managed, wanted, ZONE in left.staged);
      var plan := FirewallHalf(ds, fw, ZONE in left.staged).plan;
      var items :| Lists(items, wanted) && Run(plan, left.staged) == WithZone(foreign, Some(items));
      ZonesHaveAll(foreign, Some(items));
      MembersKeepKeys(ds, Sorted(managed), left.staged);
    }
  }

  lemma OwnedEndsOnly(foreign: Config, ds: seq<InterfaceDiff>, managed: set<string>, wanted: set<string>, left: Store)
    requires NoZone(foreign) && managed != {} && Between(ds, managed, wanted) && Worn(foreign, left.staged)
    requires Ends(foreign, FirewallState(true, Sorted(managed)), Episode([], ds, wanted), left)
    ensures ZoneReady(foreign, managed, wanted, left, left)
  {
    assert ZONE in OWNED_NAMES;
    EndedStood(foreign, ds, managed, wanted, left);
    var network := WornStanding(foreign, left.staged);
    if wanted != {} {
      OwnedStays(ds, managed, wanted, ZONE in left.staged);
      if managed == wanted {
        NothingEditedFrom(foreign, wanted, network);
      } else {
        EditedFrom(foreign, ds, managed, wanted, network);
      }
    }
  }

  lemma OwnedEndsIff(foreign: Config, ds: seq<InterfaceDiff>, managed: set<string>, wanted: set<string>, left: Store)
    requires NoZone(foreign) && managed != {} && Between(ds, managed, wanted) && Worn(foreign, left.staged)
    ensures Ends(foreign, FirewallState(true, Sorted(managed)), Episode([], ds, wanted), left)
      <==> ZoneReady(foreign, managed, wanted, left, left)
  {
    if ZoneReady(foreign, managed, wanted, left, left) { OwnedEnds(foreign, ds, managed, wanted, left); }
    if Ends(foreign, FirewallState(true, Sorted(managed)), Episode([], ds, wanted), left) {
      OwnedEndsOnly(foreign, ds, managed, wanted, left);
    }
  }

  // ----- any failures at any bundles -----

  lemma RestIsWorn(foreign: Config, managed: set<string>, fw: FirewallState, cfg: Config)
    requires ZONE !in foreign && managed != {} && FirewallOk(foreign, managed, fw, cfg)
    ensures Worn(foreign, cfg)
  {
    var items :| Lists(items, managed) && cfg == WithZone(foreign, Some(items));
    assert WithZone(foreign, Some(items)) - {} == WithZone(foreign, Some(items));
    WornWith(foreign, items, {});
  }

  // The same store at rest: the apply ends well.
  lemma UntouchedEnds(foreign: Config, n: Store, fw: FirewallState, managed: set<string>, e: Episode)
    requires Usable(foreign) && AtRest(n) && FirewallOk(foreign, managed, fw, n.committed)
    requires Between(e.ds, managed, e.wanted)
    ensures Ends(foreign, fw, e, n)
  {
    ApplyKeepsFirewall(foreign, e.ds, managed, e.wanted, fw, n.staged);
  }

  lemma UnownedEndsIff(foreign: Config, n: Store, managed: set<string>, e: Episode)
    requires Usable(foreign) && AtRest(n) && FirewallOk(foreign, managed, NO_FIREWALL, n.committed)
    requires ZONE !in foreign && managed == {} && Between(e.ds, managed, e.wanted)
    ensures Ends(foreign, NO_FIREWALL, e, Left(n, NO_FIREWALL, e.failures)) <==> Left(n, NO_FIREWALL, e.failures) == n
  {
    var left := Left(n, NO_FIREWALL, e.failures);
    FailuresAppear(n, n, e.failures);
    if left == n {
      UntouchedEnds(foreign, n, NO_FIREWALL, managed, e);
    } else {
      PresentBad(foreign, e.ds, e.wanted, left.staged);
    }
  }

  // After any history of failed attempts at any bundles, each cut anywhere, reverted or not,
  // committed or not, the attempt that runs through restores the invariant and commits what is
  // staged if and only if what they left is ready for its bundle.
  lemma EpisodeEndsIff(foreign: Config, n: Store, fw: FirewallState, managed: set<string>, e: Episode)
    requires Usable(foreign) && AtRest(n) && FirewallOk(foreign, managed, fw, n.committed)
    requires Between(e.ds, managed, e.wanted)
    ensures Ends(foreign, fw, e, Left(n, fw, e.failures))
      <==> ZoneReady(foreign, managed, e.wanted, n, Left(n, fw, e.failures))
  {
    if ZONE in foreign {
      OperatorLeave(n, fw, e.failures);
      UntouchedEnds(foreign, n, fw, managed, e);
    } else if managed == {} {
      UnownedEndsIff(foreign, n, managed, e);
    } else {
      RestIsWorn(foreign, managed, fw, n.committed);
      FailuresWorn(foreign, Sorted(managed), n, e.failures);
      OwnedEndsIff(foreign, e.ds, managed, e.wanted, Left(n, fw, e.failures));
    }
  }

  // For failures at the bundle itself this is what FirewallHistory says.
  lemma SameBundleReady(foreign: Config, n: Store, fw: FirewallState, managed: set<string>, e: Episode)
    requires Usable(foreign) && AtRest(n) && FirewallOk(foreign, managed, fw, n.committed)
    requires AllBetween(e.failures, managed, e.wanted) && Between(e.ds, managed, e.wanted)
    ensures var left := Left(n, fw, e.failures);
      ZoneReady(foreign, managed, e.wanted, n, left) <==> Bearable(foreign, managed, e.wanted, n, left)
  {
    EpisodeEndsIff(foreign, n, fw, managed, e);
    SameBundleEndsIff(foreign, n, fw, managed, e);
  }

  // Failures that have left nothing are no matter, whatever their bundles.
  lemma NothingLeftReady(foreign: Config, n: Store, fw: FirewallState, managed: set<string>, ds: seq<InterfaceDiff>,
                         wanted: set<string>)
    requires Usable(foreign) && AtRest(n) && FirewallOk(foreign, managed, fw, n.committed)
    requires Between(ds, managed, wanted)
    ensures ZoneReady(foreign, managed, wanted, n, n)
  {
    var e := Episode([], ds, wanted);
    UntouchedEnds(foreign, n, fw, managed, e);
    EpisodeEndsIff(foreign, n, fw, managed, e);
  }

  // ----- a member that a replaced bundle leaves for good -----

  // An interface on the list that is neither on record nor wanted stays there.
  lemma UnrecordedMemberStays(foreign: Config, ds: seq<InterfaceDiff>, managed: set<string>, wanted: set<string>,
                              network: seq<string>, x: string)
    requires NoZone(foreign) && Between(ds, managed, wanted) && wanted != {}
    requires NoDuplicates(network) && x in network && x !in managed + wanted
    ensures var cfg := WithZone(foreign, Some(network));
      var out := FirewallHalf(ds, FirewallState(true, Sorted(managed)), ZONE in cfg);
      && (exists items :: x in items && Run(out.plan, cfg) == WithZone(foreign, Some(items)))
      && !Good(foreign, wanted, out, cfg)
  {
    var toRemove, toAdd := ToRemove(ds, Sorted(managed)), ToAdd(ds, Sorted(managed));
    var kept, cfg := AfterRemovals(Some(network), toRemove), WithZone(foreign, Some(network));
    OwnedStays(ds, managed, wanted, ZONE in cfg);
    RemovalsListed(Some(network), toRemove);
    RemovalsList(Some(network), toRemove, x);
    AdditionsList(kept, toAdd, x);
    AdditionsListed(kept, toAdd);
    PickedAre(ds, managed, wanted, Leaves(Sorted(managed)), x);
    RunRemovals(foreign, Some(network), toRemove);
    RunAdditions(foreign, kept, toAdd);
    RunConcat(Removals(toRemove), Additions(toAdd), cfg);
    var items := if managed == wanted then network else AfterAdditions(kept, toAdd).value;
    assert x in items;
    ListedNotOk(foreign, wanted, items, x);
    assert ZONE in OWNED_NAMES;
  }

  // The firewall commit of a bundle with a new interface x goes through, but the bundle never
  // reaches last.json and is replaced by one without x: the zone goes on listing x.
  lemma ReplacedMemberStays(foreign: Config, first: Episode, second: Episode, managed: set<string>, fw: FirewallState,
                            cfg: Config, x: string)
    requires NoZone(foreign) && managed != {} && FirewallOk(foreign, managed, fw, cfg)
    requires Between(first.ds, managed, first.wanted) && Between(second.ds, managed, second.wanted)
    requires second.wanted != {}
    requires x in first.wanted && x !in managed + second.wanted
    ensures var left := Run(FirewallHalf(first.ds, fw, ZONE in cfg).plan, cfg);
      var out := FirewallHalf(second.ds, fw, ZONE in left);
      && (exists items :: x in items && Run(out.plan, left) == WithZone(foreign, Some(items)))
      && !Good(foreign, second.wanted, out, left)
  {
    assert ZONE in OWNED_NAMES;
    ApplyKeepsFirewall(foreign, first.ds, managed, first.wanted, fw, cfg);
    var left := Run(FirewallHalf(first.ds, fw, ZONE in cfg).plan, cfg);
    var network :| Lists(network, first.wanted) && left == WithZone(foreign, Some(network));
    UnrecordedMemberStays(foreign, second.ds, managed, second.wanted, network, x);
  }

  lemma ListedNotOk(foreign: Config, wanted: set<string>, items: seq<string>, x: string)
    requires x in items && x !in wanted
    ensures !ZoneLists(foreign, wanted, WithZone(foreign, Some(items)))
  {
    forall other | WithZone(foreign, Some(items)) == WithZone(foreign, Some(other)) ensures other == items {
      ZoneDetermines(foreign, Some(items), Some(other));
    }
  }

  // ----- runs -----

  datatype Zoned = Zoned(managed: set<string>, fw: FirewallState, store: Store)

  function AfterEpisode(z: Zoned, e: Episode): Zoned {
    var c := AfterEvent(Condition(Left(z.store, z.fw, e.failures), z.fw), Completed(e.ds));
    Zoned(e.wanted, c.fw, c.store)
  }

  function AfterRun(z: Zoned, episodes: seq<Episode>): Zoned
    decreases |episodes|
  {
    if episodes == [] then z else AfterRun(AfterEpisode(z, episodes[0]), episodes[1..])
  }

  // Every diff of the run is one between what is managed then and what its bundle wants, and
  // what its failed attempts left, at whatever bundles, is ready for it.
  ghost predicate Diffed(foreign: Config, z: Zoned, episodes: seq<Episode>)
    decreases |episodes|
  {
    episodes == [] ||
    (&& EpisodeFits(foreign, z, episodes[0])
     && Diffed(foreign, AfterEpisode(z, episodes[0]), episodes[1..]))
  }

  ghost predicate EpisodeFits(foreign: Config, z: Zoned, e: Episode) {
    && Between(e.ds, z.managed, e.wanted)
    && ZoneReady(foreign, z.managed, e.wanted, z.store, Left(z.store, z.fw, e.failures))
  }

  ghost predicate FirewallRests(foreign: Config, z: Zoned) {
    AtRest(z.store) && FirewallOk(foreign, z.managed, z.fw, z.store.committed)
  }

  lemma EpisodeKeepsFirewall(foreign: Config, z: Zoned, e: Episode)
    requires Usable(foreign) && FirewallRests(foreign, z)
    requires EpisodeFits(foreign, z, e)
    ensures FirewallRests(foreign, AfterEpisode(z, e))
  {
    EpisodeEndsIff(foreign, z.store, z.fw, z.managed, e);
  }

  // Over every run of bundles, each applied after any failed attempts at any bundles that left
  // something ready for it, the zone is what the managed interfaces call for.
  lemma {:induction false} RunKeepsFirewall(foreign: Config, z: Zoned, episodes: seq<Episode>)
    requires Usable(foreign) && FirewallRests(foreign, z) && Diffed(foreign, z, episodes)
    ensures FirewallRests(foreign, AfterRun(z, episodes))
    decreases |episodes|
  {
    if episodes != [] {
      EpisodeKeepsFirewall(foreign, z, episodes[0]);
      RunKeepsFirewall(foreign, AfterEpisode(z, episodes[0]), episodes[1..]);
    }
  }
}
