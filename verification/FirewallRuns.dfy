/** What one apply makes of the firewall zone, and of a commit that last.json does not record. */
module FirewallRuns {
  import opened Text
  import opened Bundle
  import opened Uci
  import opened Last
  import opened DiffTypes
  import opened Firewall

  ghost predicate Lists(items: seq<string>, managed: set<string>) {
    NoDuplicates(items) && forall x :: x in items <==> x in managed
  }

  // The zone belongs to an operator, or all four section names are free.
  predicate Usable(foreign: Config) { ZONE in foreign || NoZone(foreign) }

  ghost predicate ZoneLists(foreign: Config, managed: set<string>, cfg: Config) {
    exists items :: Lists(items, managed) && cfg == WithZone(foreign, Some(items))
  }

  // While some interface is managed the agent owns the zone, records the managed interfaces
  // in name order, and the zone lists each of them once; the forwardings are there and
  // everything else is as it was.  Otherwise, or next to an operator's zone, there is nothing.
  ghost predicate FirewallOk(foreign: Config, managed: set<string>, fw: FirewallState, cfg: Config) {
    if ZONE in foreign || managed == {} then fw == NO_FIREWALL && cfg == foreign
    else fw == FirewallState(true, Sorted(managed)) && ZoneLists(foreign, managed, cfg)
  }

  lemma OwnedIffManaged(foreign: Config, managed: set<string>, fw: FirewallState, cfg: Config)
    requires NoZone(foreign) && FirewallOk(foreign, managed, fw, cfg)
    ensures fw.zoneOwned <==> managed != {}
    ensures fw.zoneOwned <==> ZONE in cfg
    ensures forall x :: x in OWNED_NAMES ==> (x in cfg <==> managed != {})
    ensures fw.members == Sorted(managed)
    ensures managed != {} ==> cfg[ZONE].options["network"].items != []
    ensures managed != {} ==> multiset(cfg[ZONE].options["network"].items) == multiset(fw.members)
  {
    if managed != {} {
      var items :| Lists(items, managed) && cfg == WithZone(foreign, Some(items));
      assert cfg[ZONE].options["network"] == ListOf(items);
      var m :| m in managed;
      assert m in items;
      IncreasingDistinct(Sorted(managed));
      forall x ensures multiset(items)[x] == multiset(Sorted(managed))[x] {
        OnceInMultiset(items, x);
        OnceInMultiset(Sorted(managed), x);
      }
    }
  }

  lemma {:induction false} OnceInMultiset(xs: seq<string>, x: string)
    requires NoDuplicates(xs)
    ensures multiset(xs)[x] == if x in xs then 1 else 0
  {
    if xs != [] {
      assert xs == [xs[0]] + xs[1..];
      assert forall i, j :: 0 <= i < j < |xs[1..]| ==> xs[1..][i] == xs[i + 1] && xs[1..][j] == xs[j + 1];
      OnceInMultiset(xs[1..], x);
      assert xs[0] !in xs[1..];
    }
  }

  // ----- one apply -----

  // Removing and adding members gives the wanted list from any list in between.
  lemma MembersEdited(ds: seq<InterfaceDiff>, managed: set<string>, wanted: set<string>, network: Option<seq<string>>)
    requires Between(ds, managed, wanted) && NoDuplicates(Items(network))
    requires forall x :: x in managed * wanted ==> x in Items(network)
    requires forall x :: x in Items(network) ==> x in managed + wanted
    ensures var members := Sorted(managed);
      Lists(Items(AfterAdditions(AfterRemovals(network, ToRemove(ds, members)), ToAdd(ds, members))), wanted)
  {
    var members := Sorted(managed);
    var toRemove, toAdd := ToRemove(ds, members), ToAdd(ds, members);
    var kept := AfterRemovals(network, toRemove);
    RemovalsList(network, toRemove, "");
    AdditionsList(kept, toAdd, "");
    forall x ensures x in Items(AfterAdditions(kept, toAdd)) <==> x in wanted {
      RemovalsList(network, toRemove, x);
      AdditionsList(kept, toAdd, x);
      PickedAre(ds, managed, wanted, Leaves(members), x);
      PickedAre(ds, managed, wanted, Joins(members), x);
    }
  }

  lemma {:induction false} AdditionsListed(network: Option<seq<string>>, names: seq<string>)
    requires network.Some? || names != []
    ensures AfterAdditions(network, names).Some?
    decreases |names|
  {
    if names != [] { AdditionsListed(Some(Items(Dropped(network, names[0])) + [names[0]]), names[1..]); }
  }

  lemma {:induction false} RemovalsListed(network: Option<seq<string>>, names: seq<string>)
    ensures AfterRemovals(network, names).Some? <==> network.Some?
    decreases |names|
  {
    if names != [] { RemovalsListed(Dropped(network, names[0]), names[1..]); }
  }

  function MemberPlan(ds: seq<InterfaceDiff>, members: seq<string>): seq<Step> {
    Removals(ToRemove(ds, members)) + Additions(ToAdd(ds, members))
  }

  lemma MemberPlanLists(foreign: Config, ds: seq<InterfaceDiff>, managed: set<string>, wanted: set<string>,
                        network: Option<seq<string>>)
    requires Between(ds, managed, wanted) && NoDuplicates(Items(network))
    requires forall x :: x in managed * wanted ==> x in Items(network)
    requires forall x :: x in Items(network) ==> x in managed + wanted
    requires network.Some? || (managed == {} && wanted != {})
    ensures var plan := MemberPlan(ds, Sorted(managed));
      Accepted(plan, WithZone(foreign, network)) && ZoneLists(foreign, wanted, Run(plan, WithZone(foreign, network)))
  {
    var toRemove, toAdd := ToRemove(ds, Sorted(managed)), ToAdd(ds, Sorted(managed));
    var kept := AfterRemovals(network, toRemove);
    RunRemovals(foreign, network, toRemove);
    RunAdditions(foreign, kept, toAdd);
    RunConcat(Removals(toRemove), Additions(toAdd), WithZone(foreign, network));
    MembersEdited(ds, managed, wanted, network);
    RemovalsListed(network, toRemove);
    if network.None? {
      var x :| x in wanted;
      PickedAre(ds, managed, wanted, Joins(Sorted(managed)), x);
    }
    AdditionsListed(kept, toAdd);
    var items := AfterAdditions(kept, toAdd).value;
    assert Lists(items, wanted);
  }

  ghost predicate Good(foreign: Config, wanted: set<string>, out: Outcome, cfg: Config) {
    Accepted(out.plan, cfg) && FirewallOk(foreign, wanted, out.record, Run(out.plan, cfg))
  }

  lemma NothingToEdit(ds: seq<InterfaceDiff>, managed: set<string>, wanted: set<string>)
    requires Between(ds, managed, wanted)
    ensures ToAdd(ds, Sorted(managed)) == [] && ToRemove(ds, Sorted(managed)) == [] ==> managed == wanted
  {
    forall x ensures x in ToAdd(ds, Sorted(managed)) <==> x in wanted && x !in managed {
      PickedAre(ds, managed, wanted, Joins(Sorted(managed)), x);
    }
    forall x ensures x in ToRemove(ds, Sorted(managed)) <==> x in managed && x !in wanted {
      PickedAre(ds, managed, wanted, Leaves(Sorted(managed)), x);
    }
  }

  lemma NothingKept(ds: seq<InterfaceDiff>, managed: set<string>, wanted: set<string>)
    requires Between(ds, managed, wanted)
    ensures Kept(ds) == [] <==> wanted == {}
  {
    KeptIsWanted(ds, managed, wanted);
  }

  lemma OwnedPlan(ds: seq<InterfaceDiff>, members: seq<string>)
    requires Kept(ds) != []
    ensures var out := Manage(ds, FirewallState(true, members), true);
      if ToAdd(ds, members) == [] && ToRemove(ds, members) == []
      then out == Outcome([], FirewallState(true, members), false)
      else out == Outcome(MemberPlan(ds, members), FirewallState(true, Kept(ds)), true)
  {
    assert [] + Removals(ToRemove(ds, members)) == Removals(ToRemove(ds, members));
  }

  ghost predicate InBetween(network: seq<string>, managed: set<string>, wanted: set<string>) {
    && NoDuplicates(network) && (forall x :: x in managed * wanted ==> x in network)
    && forall x :: x in network ==> x in managed + wanted
  }

  lemma OwnedUnedited(foreign: Config, managed: set<string>, wanted: set<string>, network: seq<string>)
    requires NoZone(foreign) && wanted != {} && managed == wanted && InBetween(network, managed, wanted)
    ensures Good(foreign, wanted, Outcome([], FirewallState(true, Sorted(managed)), false),
                 WithZone(foreign, Some(network)))
  {
    assert ZONE !in foreign by { assert ZONE in OWNED_NAMES; }
    assert Lists(network, wanted);
  }

  lemma OwnedEdited(foreign: Config, ds: seq<InterfaceDiff>, managed: set<string>, wanted: set<string>,
                    network: seq<string>)
    requires NoZone(foreign) && wanted != {} && Between(ds, managed, wanted) && InBetween(network, managed, wanted)
    ensures Good(foreign, wanted, Outcome(MemberPlan(ds, Sorted(managed)), FirewallState(true, Sorted(wanted)), true),
                 WithZone(foreign, Some(network)))
  {
    assert ZONE !in foreign by { assert ZONE in OWNED_NAMES; }
    MemberPlanLists(foreign, ds, managed, wanted, Some(network));
  }

  // From an owned zone that lists some of the interfaces in between.
  lemma ManageOwned(foreign: Config, ds: seq<InterfaceDiff>, managed: set<string>, wanted: set<string>,
                    network: seq<string>)
    requires NoZone(foreign) && managed != {} && wanted != {} && Between(ds, managed, wanted)
    requires InBetween(network, managed, wanted)
    ensures Good(foreign, wanted, Manage(ds, FirewallState(true, Sorted(managed)), true),
                 WithZone(foreign, Some(network)))
  {
    NothingKept(ds, managed, wanted);
    KeptIsWanted(ds, managed, wanted);
    OwnedPlan(ds, Sorted(managed));
    if ToAdd(ds, Sorted(managed)) == [] && ToRemove(ds, Sorted(managed)) == [] {
      NothingToEdit(ds, managed, wanted);
      OwnedUnedited(foreign, managed, wanted, network);
    } else {
      OwnedEdited(foreign, ds, managed, wanted, network);
    }
  }

  lemma FreshPlan(ds: seq<InterfaceDiff>)
    requires Kept(ds) != [] && (ToAdd(ds, []) != [] || ToRemove(ds, []) != [])
    ensures Manage(ds, NO_FIREWALL, false)
      == Outcome(CreateZonePlan() + MemberPlan(ds, []), FirewallState(true, Kept(ds)), true)
  {
    var a, b, c := CreateZonePlan(), Removals(ToRemove(ds, [])), Additions(ToAdd(ds, []));
    assert a + b + c == a + (b + c);
  }

  lemma FreshZoneLists(foreign: Config, ds: seq<InterfaceDiff>, wanted: set<string>)
    requires NoZone(foreign) && wanted != {} && Between(ds, {}, wanted)
    ensures var plan := CreateZonePlan() + MemberPlan(ds, []);
      Accepted(plan, foreign) && ZoneLists(foreign, wanted, Run(plan, foreign))
  {
    assert Sorted({}) == [];
    CreateZone(foreign);
    MemberPlanLists(foreign, ds, {}, wanted, None);
    RunConcat(CreateZonePlan(), MemberPlan(ds, []), foreign);
  }

  // The first managed interfaces: the zone is created.
  lemma ManageCreates(foreign: Config, ds: seq<InterfaceDiff>, wanted: set<string>)
    requires NoZone(foreign) && wanted != {} && Between(ds, {}, wanted)
    ensures Good(foreign, wanted, Manage(ds, NO_FIREWALL, false), foreign)
  {
    assert Sorted({}) == [];
    NothingKept(ds, {}, wanted);
    NothingToEdit(ds, {}, wanted);
    KeptIsWanted(ds, {}, wanted);
    FreshPlan(ds);
    FreshZoneLists(foreign, ds, wanted);
    assert ZONE !in foreign by { assert ZONE in OWNED_NAMES; }
  }

  lemma ManageTearsDown(foreign: Config, ds: seq<InterfaceDiff>, managed: set<string>, cfg: Config)
    requires NoZone(foreign) && managed != {} && Between(ds, managed, {}) && ZoneLists(foreign, managed, cfg)
    ensures Good(foreign, {}, Manage(ds, FirewallState(true, Sorted(managed)), true), cfg)
  {
    NothingKept(ds, managed, {});
    var items :| Lists(items, managed) && cfg == WithZone(foreign, Some(items));
    Teardown(foreign, Some(items));
  }

  lemma ManageKeeps(foreign: Config, ds: seq<InterfaceDiff>, managed: set<string>, wanted: set<string>,
                    fw: FirewallState, cfg: Config)
    requires Usable(foreign) && Between(ds, managed, wanted) && FirewallOk(foreign, managed, fw, cfg)
    ensures Good(foreign, wanted, Manage(ds, fw, ZONE in cfg), cfg)
  {
    NothingKept(ds, managed, wanted);
    if ZONE in foreign {
    } else if managed == {} {
      if wanted != {} { ManageCreates(foreign, ds, wanted); }
    } else if wanted == {} {
      ManageTearsDown(foreign, ds, managed, cfg);
    } else {
      var items :| Lists(items, managed) && cfg == WithZone(foreign, Some(items));
      ManageOwned(foreign, ds, managed, wanted, items);
    }
  }

  lemma UnchangedSame(ds: seq<InterfaceDiff>, managed: set<string>, wanted: set<string>)
    requires Between(ds, managed, wanted) && !AnyChanged(ds)
    ensures managed == wanted
  {
    forall x | x in managed + wanted ensures x in managed && x in wanted {
      var n :| 0 <= n < |ds| && ds[n].name == x;
      assert ds[n].change.Unchanged? && EntryBetween(ds[n], managed, wanted);
    }
  }

  // A successful apply is never refused and keeps the invariant, whatever the diff.
  lemma ApplyKeepsFirewall(foreign: Config, ds: seq<InterfaceDiff>, managed: set<string>, wanted: set<string>,
                           fw: FirewallState, cfg: Config)
    requires Usable(foreign) && Between(ds, managed, wanted) && FirewallOk(foreign, managed, fw, cfg)
    ensures Good(foreign, wanted, FirewallHalf(ds, fw, ZONE in cfg), cfg)
  {
    if AnyChanged(ds) {
      ManageKeeps(foreign, ds, managed, wanted, fw, cfg);
    } else {
      UnchangedSame(ds, managed, wanted);
    }
  }

  // The diff of an apply lies between what is recorded and what is wanted.
  lemma EntriesBetween(wanted: map<string, Interface>, recorded: map<string, Record>, forceAll: bool)
    ensures Between(Entries(wanted, recorded, forceAll), recorded.Keys, wanted.Keys)
  {
    NamedBetween(wanted, recorded, forceAll, Sorted(wanted.Keys + recorded.Keys));
  }

  lemma NamedEntry(wanted: map<string, Interface>, recorded: map<string, Record>, forceAll: bool, name: string)
    requires name in wanted || name in recorded
    ensures var d := EntryOf(wanted, recorded, forceAll, name);
      d.name == name && EntryBetween(d, recorded.Keys, wanted.Keys)
  {
  }

  lemma NamedOrder(ds: seq<InterfaceDiff>, names: seq<string>)
    requires Increasing(names) && |ds| == |names| && forall n :: 0 <= n < |ds| ==> ds[n].name == names[n]
    ensures InOrder(ds) && forall x :: x in names ==> exists n :: 0 <= n < |ds| && ds[n].name == x
  {
    forall x | x in names ensures exists n :: 0 <= n < |ds| && ds[n].name == x {
      var n :| 0 <= n < |names| && names[n] == x;
      assert ds[n].name == x;
    }
  }

  lemma NamedBetween(wanted: map<string, Interface>, recorded: map<string, Record>, forceAll: bool, names: seq<string>)
    requires Increasing(names) && forall x :: x in names <==> x in wanted.Keys + recorded.Keys
    ensures Between(EntriesOf(wanted, recorded, forceAll, names), recorded.Keys, wanted.Keys)
  {
    var ds := EntriesOf(wanted, recorded, forceAll, names);
    forall n | 0 <= n < |names| ensures ds[n].name == names[n] && EntryBetween(ds[n], recorded.Keys, wanted.Keys) {
      assert names[n] in names;
      NamedEntry(wanted, recorded, forceAll, names[n]);
    }
    NamedOrder(ds, names);
    forall x | x in recorded.Keys + wanted.Keys ensures exists n :: 0 <= n < |ds| && ds[n].name == x {
      assert x in names;
    }
  }

  // ----- a commit that last.json does not record -----

  lemma CreatedUnrecorded(foreign: Config, ds: seq<InterfaceDiff>, wanted: set<string>, cfg: Config)
    requires NoZone(foreign) && wanted != {} && Between(ds, {}, wanted) && ZoneLists(foreign, wanted, cfg)
    ensures ZONE in cfg && !Good(foreign, wanted, Manage(ds, NO_FIREWALL, true), cfg)
  {
    NothingKept(ds, {}, wanted);
    assert Sorted({}) == [];
    NothingToEdit(ds, {}, wanted);
    assert Manage(ds, NO_FIREWALL, true) == Outcome([], NO_FIREWALL, false);
    assert !FirewallOk(foreign, wanted, NO_FIREWALL, cfg) by { assert ZONE in OWNED_NAMES; }
  }

  lemma TornDownUnrecorded(foreign: Config, ds: seq<InterfaceDiff>, managed: set<string>, fw: FirewallState,
                           present: bool)
    requires NoZone(foreign) && fw.zoneOwned && Between(ds, managed, {})
    ensures !Accepted(Manage(ds, fw, present).plan, foreign)
  {
    NothingKept(ds, managed, {});
    var plan := TeardownPlan();
    assert plan == [Do(Delete(SectionPath(LAN_TO_ZONE)))] + plan[1..];
    assert LAN_TO_ZONE in OWNED_NAMES;
  }

  // A retry over the old last.json, after the firewall commit of the same bundle succeeded,
  // works if and only if that commit neither created nor removed the zone.
  lemma RetryAfterCommitIff(foreign: Config, ds: seq<InterfaceDiff>, managed: set<string>, wanted: set<string>,
                            fw: FirewallState, cfg: Config)
    requires Usable(foreign) && Between(ds, managed, wanted) && FirewallOk(foreign, managed, fw, cfg)
    ensures var committed := Run(FirewallHalf(ds, fw, ZONE in cfg).plan, cfg);
      Good(foreign, wanted, FirewallHalf(ds, fw, ZONE in committed), committed)
      <==> ZONE in foreign || (managed == {} <==> wanted == {})
  {
    var out := FirewallHalf(ds, fw, ZONE in cfg);
    var committed := Run(out.plan, cfg);
    ApplyKeepsFirewall(foreign, ds, managed, wanted, fw, cfg);
    NothingKept(ds, managed, wanted);
    if !AnyChanged(ds) {
      UnchangedSame(ds, managed, wanted);
    } else if ZONE in foreign || (managed == {} && wanted == {}) {
    } else if managed == {} {
      CreatedUnrecorded(foreign, ds, wanted, committed);
    } else if wanted == {} {
      TornDownUnrecorded(foreign, ds, managed, fw, ZONE in committed);
    } else {
      var items :| Lists(items, wanted) && committed == WithZone(foreign, Some(items));
      ManageOwned(foreign, ds, managed, wanted, items);
    }
  }
}
