/** The firewall half of an apply: one zone for all managed interfaces, with its forwardings.

    This module is manageFirewall as a plan and what its commands do; FirewallRuns proves what an
    apply keeps, and FirewallHistory what holds over failures.
  */
module Firewall {
  import opened Text
  import opened Bundle
  import opened Uci
  import opened Last
  import opened DiffTypes

  const ZONE := "stunmesh"
  const LAN_TO_ZONE := "stunmesh_fwd_lan_stunmesh"
  const ZONE_TO_LAN := "stunmesh_fwd_stunmesh_lan"
  const ZONE_TO_WAN := "stunmesh_fwd_stunmesh_wan"

  const OWNED_NAMES: set<string> := {ZONE, LAN_TO_ZONE, ZONE_TO_LAN, ZONE_TO_WAN}

  lemma OwnedNamesDistinct()
    ensures ZONE != LAN_TO_ZONE && ZONE != ZONE_TO_LAN && ZONE != ZONE_TO_WAN
    ensures LAN_TO_ZONE != ZONE_TO_LAN && LAN_TO_ZONE != ZONE_TO_WAN && ZONE_TO_LAN != ZONE_TO_WAN
  {
    assert LAN_TO_ZONE[13] != ZONE_TO_LAN[13] && LAN_TO_ZONE[13] != ZONE_TO_WAN[13];
    assert ZONE_TO_LAN[22] != ZONE_TO_WAN[22];
  }

  // ----- the command batches -----

  function ZoneProgram(): Program {
    Program(ZONE, "zone", [SetTo("name", ZONE), SetTo("input", "ACCEPT"), SetTo("output", "ACCEPT"),
                           SetTo("forward", "ACCEPT"), SetTo("mtu_fix", "1")])
  }

  function ForwardingProgram(name: string, src: string, dest: string): Program {
    Program(name, "forwarding", [SetTo("src", src), SetTo("dest", dest)])
  }

  function ForwardingPrograms(): seq<Program> {
    [ForwardingProgram(LAN_TO_ZONE, "lan", ZONE),
     ForwardingProgram(ZONE_TO_LAN, ZONE, "lan"),
     ForwardingProgram(ZONE_TO_WAN, ZONE, "wan")]
  }

  function ZonePrograms(): seq<Program> { [ZoneProgram()] + ForwardingPrograms() }

  function DeleteForwardings(): seq<Command> {
    [Delete(SectionPath(LAN_TO_ZONE)), Delete(SectionPath(ZONE_TO_LAN)), Delete(SectionPath(ZONE_TO_WAN))]
  }

  function DeleteZone(): Command { Delete(SectionPath(ZONE)) }

  function AddMember(name: string): Command { AddList(ZONE, "network", name) }

  function RemoveMember(name: string): Command { DelList(ZONE, "network", name) }

  // ----- manageFirewall as a plan -----

  // Which entries of a diff: those that stay, those to add to the members, those to remove.
  datatype Test = Stays | Joins(members: seq<string>) | Leaves(members: seq<string>)

  predicate Passes(t: Test, d: InterfaceDiff) {
    match t
    case Stays => !d.change.Removed?
    case Joins(members) => !d.change.Removed? && d.name !in members
    case Leaves(members) => d.change.Removed? && d.name in members
  }

  // The names of the entries that pass, in the order of the diff.
  function Pick(ds: seq<InterfaceDiff>, t: Test): seq<string> {
    if ds == [] then [] else Pick(ds[..|ds| - 1], t) + if Passes(t, ds[|ds| - 1]) then [ds[|ds| - 1].name] else []
  }

  function Kept(ds: seq<InterfaceDiff>): seq<string> { Pick(ds, Stays) }

  function ToAdd(ds: seq<InterfaceDiff>, members: seq<string>): seq<string> { Pick(ds, Joins(members)) }

  function ToRemove(ds: seq<InterfaceDiff>, members: seq<string>): seq<string> { Pick(ds, Leaves(members)) }

  function Removals(names: seq<string>): seq<Step> {
    if names == [] then [] else [Do(RemoveMember(names[0]))] + Removals(names[1..])
  }

  // Each member is removed right before it is added, so that it is never listed twice.
  function Additions(names: seq<string>): seq<Step> {
    if names == [] then [] else [Do(RemoveMember(names[0])), Do(AddMember(names[0]))] + Additions(names[1..])
  }

  function CreateZonePlan(): seq<Step> { Steps(Batch(ZonePrograms())) }

  function TeardownPlan(): seq<Step> { Steps(DeleteForwardings() + [DeleteZone()]) }

  function ZonePart(owned: bool): seq<Step> { if owned then [] else CreateZonePlan() }

  // The zone first if it is new, then its members.
  function EditPlan(owned: bool, toRemove: seq<string>, toAdd: seq<string>): seq<Step> {
    ZonePart(owned) + Removals(toRemove) + Additions(toAdd)
  }

  datatype Outcome = Outcome(plan: seq<Step>, record: FirewallState, changed: bool)

  // What manageFirewall stages, given whether `uci get` finds the zone section.
  function Manage(ds: seq<InterfaceDiff>, have: FirewallState, present: bool): Outcome {
    var toAdd, toRemove := ToAdd(ds, have.members), ToRemove(ds, have.members);
    if Kept(ds) == [] then
      if have.zoneOwned then Outcome(TeardownPlan(), NO_FIREWALL, true) else Outcome([], NO_FIREWALL, false)
    else if toAdd == [] && toRemove == [] then Outcome([], have, false)
    else if !have.zoneOwned && present then Outcome([], NO_FIREWALL, false)
    else Outcome(EditPlan(have.zoneOwned, toRemove, toAdd), FirewallState(true, Kept(ds)), true)
  }

  predicate AnyChanged(ds: seq<InterfaceDiff>) { exists n :: 0 <= n < |ds| && !ds[n].change.Unchanged? }

  // The firewall half of applyDiff: nothing at all unless some interface changes.
  function FirewallHalf(ds: seq<InterfaceDiff>, have: FirewallState, present: bool): Outcome {
    if AnyChanged(ds) then Manage(ds, have, present) else Outcome([], have, false)
  }

  // What counts as a change is an edit.
  lemma ChangedPlans(ds: seq<InterfaceDiff>, have: FirewallState, present: bool)
    ensures FirewallHalf(ds, have, present).changed <==> FirewallHalf(ds, have, present).plan != []
  {
    var toAdd, toRemove := ToAdd(ds, have.members), ToRemove(ds, have.members);
    assert TeardownPlan()[3] == Do(DeleteZone());
    if toAdd != [] || toRemove != [] { assert |Removals(toRemove)| + |Additions(toAdd)| > 0; }
  }

  // ----- what Pick picks -----

  ghost predicate Picked(ds: seq<InterfaceDiff>, t: Test, x: string) {
    exists n :: 0 <= n < |ds| && Passes(t, ds[n]) && ds[n].name == x
  }

  lemma {:induction false} PickMembers(ds: seq<InterfaceDiff>, t: Test, x: string)
    ensures x in Pick(ds, t) <==> Picked(ds, t, x)
  {
    if ds != [] {
      var front, last := ds[..|ds| - 1], ds[|ds| - 1];
      PickMembers(front, t, x);
      if Picked(front, t, x) {
        var n :| 0 <= n < |front| && Passes(t, front[n]) && front[n].name == x;
        assert ds[n] == front[n];
      }
      if Picked(ds, t, x) {
        var n :| 0 <= n < |ds| && Passes(t, ds[n]) && ds[n].name == x;
        assert n < |front| ==> front[n] == ds[n];
      }
    }
  }

  // ----- the cases of manageFirewall -----

  // Some interface stays that is no member yet.
  ghost predicate Joining(ds: seq<InterfaceDiff>, members: seq<string>) {
    exists n :: 0 <= n < |ds| && ds[n].change != Change.Removed && ds[n].name !in members
  }

  // Some member goes.
  ghost predicate Leaving(ds: seq<InterfaceDiff>, members: seq<string>) {
    exists n :: 0 <= n < |ds| && ds[n].change == Change.Removed && ds[n].name in members
  }

  lemma PickIff(ds: seq<InterfaceDiff>, members: seq<string>)
    ensures Kept(ds) == [] <==> forall n :: 0 <= n < |ds| ==> ds[n].change == Change.Removed
    ensures ToAdd(ds, members) != [] <==> Joining(ds, members)
    ensures ToRemove(ds, members) != [] <==> Leaving(ds, members)
  {
    PickSome(ds, Stays);
    PickSome(ds, Joins(members));
    PickSome(ds, Leaves(members));
  }

  lemma PickSome(ds: seq<InterfaceDiff>, t: Test)
    ensures Pick(ds, t) != [] <==> exists n :: 0 <= n < |ds| && Passes(t, ds[n])
  {
    if Pick(ds, t) != [] {
      assert Pick(ds, t)[0] in Pick(ds, t);
      PickMembers(ds, t, Pick(ds, t)[0]);
    }
    if n :| 0 <= n < |ds| && Passes(t, ds[n]) { PickMembers(ds, t, ds[n].name); }
  }

  // With no interface left the zone goes if it is the agent's, and nothing is remembered; with
  // the same members as before nothing happens; an operator's zone is left alone and nothing is
  // remembered; only otherwise is anything edited, and then the agent owns the zone.
  lemma ManageCases(ds: seq<InterfaceDiff>, have: FirewallState, present: bool)
    ensures var out := Manage(ds, have, present);
      if forall n :: 0 <= n < |ds| ==> ds[n].change == Change.Removed then
        out.record == FirewallState(false, []) && (out.plan != [] <==> have.zoneOwned)
      else if !Joining(ds, have.members) && !Leaving(ds, have.members) then
        out.record == have && out.plan == []
      else if !have.zoneOwned && present then
        out.record == FirewallState(false, []) && out.plan == []
      else out.record.zoneOwned && out.plan != []
    ensures FirewallHalf(ds, have, present) ==
      if forall n :: 0 <= n < |ds| ==> ds[n].change == Unchanged then Outcome([], have, false)
      else Manage(ds, have, present)
  {
    PickIff(ds, have.members);
    assert TeardownPlan()[3] == Do(DeleteZone());
    var toAdd, toRemove := ToAdd(ds, have.members), ToRemove(ds, have.members);
    if toAdd != [] || toRemove != [] { assert |Removals(toRemove)| + |Additions(toAdd)| > 0; }
  }

  ghost predicate NoDuplicates(xs: seq<string>) { forall i, j :: 0 <= i < j < |xs| ==> xs[i] != xs[j] }

  // The diff is in name order, so what is picked is in increasing order.
  ghost predicate InOrder(ds: seq<InterfaceDiff>) { forall m, n :: 0 <= m < n < |ds| ==> Less(ds[m].name, ds[n].name) }

  lemma {:induction false} PickIncreasing(ds: seq<InterfaceDiff>, t: Test)
    requires InOrder(ds)
    ensures Increasing(Pick(ds, t))
  {
    if ds != [] {
      var front, last := ds[..|ds| - 1], ds[|ds| - 1];
      PickIncreasing(front, t);
      var before := Pick(front, t);
      forall i | 0 <= i < |before| ensures Less(before[i], last.name) {
        PickMembers(front, t, before[i]);
        var n :| 0 <= n < |front| && Passes(t, front[n]) && front[n].name == before[i];
        assert ds[n] == front[n];
      }
    }
  }

  ghost predicate EntryBetween(d: InterfaceDiff, managed: set<string>, wanted: set<string>) {
    match d.change
    case Removed => d.name in managed - wanted
    case New => d.name in wanted - managed
    case _ => d.name in managed && d.name in wanted
  }

  // The entries of a diff between the managed interfaces and the wanted ones.
  ghost predicate Between(ds: seq<InterfaceDiff>, managed: set<string>, wanted: set<string>) {
    && InOrder(ds)
    && (forall n :: 0 <= n < |ds| ==> EntryBetween(ds[n], managed, wanted))
    && (forall x :: x in managed + wanted ==> exists n :: 0 <= n < |ds| && ds[n].name == x)
  }

  ghost predicate Picks(managed: set<string>, wanted: set<string>, t: Test, x: string) {
    match t
    case Stays => x in wanted
    case Joins(members) => x in wanted && x !in members
    case Leaves(members) => x in managed - wanted && x in members
  }

  lemma PickedAre(ds: seq<InterfaceDiff>, managed: set<string>, wanted: set<string>, t: Test, x: string)
    requires Between(ds, managed, wanted)
    ensures x in Pick(ds, t) <==> Picks(managed, wanted, t, x)
  {
    PickMembers(ds, t, x);
    if Picks(managed, wanted, t, x) {
      assert x in managed + wanted;
      var n :| 0 <= n < |ds| && ds[n].name == x;
      assert Passes(t, ds[n]);
    }
  }

  lemma KeptIsWanted(ds: seq<InterfaceDiff>, managed: set<string>, wanted: set<string>)
    requires Between(ds, managed, wanted)
    ensures Kept(ds) == Sorted(wanted)
  {
    PickIncreasing(ds, Stays);
    forall x ensures x in Kept(ds) <==> x in wanted { PickedAre(ds, managed, wanted, Stays, x); }
    SortedUnique(Kept(ds), Sorted(wanted));
  }

  // ----- the zone section and its network list -----

  function ZoneOptions(): map<string, Value> {
    map["name" := Scalar("stunmesh"), "input" := Scalar("ACCEPT"), "output" := Scalar("ACCEPT"),
        "forward" := Scalar("ACCEPT"), "mtu_fix" := Scalar("1")]
  }

  // The zone with its network list, if it has one.
  function Zone(network: Option<seq<string>>): Section {
    Section("zone", if network.Some? then ZoneOptions()["network" := ListOf(network.value)] else ZoneOptions())
  }

  function Forwarding(src: string, dest: string): Section {
    Section("forwarding", map["src" := Scalar(src), "dest" := Scalar(dest)])
  }

  function Forwardings(): Config {
    map["stunmesh_fwd_lan_stunmesh" := Forwarding("lan", "stunmesh"),
        "stunmesh_fwd_stunmesh_lan" := Forwarding("stunmesh", "lan"),
        "stunmesh_fwd_stunmesh_wan" := Forwarding("stunmesh", "wan")]
  }

  // The foreign sections, the forwardings and the zone.
  function WithZone(foreign: Config, network: Option<seq<string>>): Config {
    (foreign + Forwardings())[ZONE := Zone(network)]
  }

  function Items(network: Option<seq<string>>): seq<string> { if network.Some? then network.value else [] }

  function Dropped(network: Option<seq<string>>, x: string): Option<seq<string>> {
    if network.Some? then Some(Without(network.value, x)) else None
  }

  lemma DropStep(foreign: Config, network: Option<seq<string>>, x: string)
    ensures StepAccepted(Do(RemoveMember(x)), WithZone(foreign, network))
    ensures StepEffect(Do(RemoveMember(x)), WithZone(foreign, network)) == WithZone(foreign, Dropped(network, x))
  {
    var cfg := WithZone(foreign, network);
    assert Uci.Removed(cfg[ZONE].options, "network", x) == Zone(Dropped(network, x)).options;
  }

  lemma AddStep(foreign: Config, network: Option<seq<string>>, x: string)
    ensures StepAccepted(Do(AddMember(x)), WithZone(foreign, network))
    ensures StepEffect(Do(AddMember(x)), WithZone(foreign, network)) == WithZone(foreign, Some(Items(network) + [x]))
  {
    var cfg := WithZone(foreign, network);
    assert [] + [x] == [x];
    assert cfg[ZONE].options["network" := Added(cfg[ZONE].options, "network", x)]
        == Zone(Some(Items(network) + [x])).options;
  }

  lemma {:induction false} WithoutMembers(items: seq<string>, v: string, x: string)
    ensures x in Without(items, v) <==> x in items && x != v
  {
    if items != [] { WithoutMembers(items[1..], v, x); }
  }

  lemma {:induction false} WithoutKeepsNoDuplicates(items: seq<string>, v: string)
    requires NoDuplicates(items)
    ensures NoDuplicates(Without(items, v))
  {
    if items != [] {
      assert forall i, j :: 0 <= i < j < |items[1..]| ==>
        items[1..][i] == items[i + 1] && items[1..][j] == items[j + 1];
      WithoutKeepsNoDuplicates(items[1..], v);
      assert items[0] !in items[1..];
      WithoutMembers(items[1..], v, items[0]);
    }
  }

  function AfterRemovals(network: Option<seq<string>>, names: seq<string>): Option<seq<string>>
    decreases |names|
  {
    if names == [] then network else AfterRemovals(Dropped(network, names[0]), names[1..])
  }

  function AfterAdditions(network: Option<seq<string>>, names: seq<string>): Option<seq<string>>
    decreases |names|
  {
    if names == [] then network else AfterAdditions(Some(Items(Dropped(network, names[0])) + [names[0]]), names[1..])
  }

  lemma {:induction false} RunRemovals(foreign: Config, network: Option<seq<string>>, names: seq<string>)
    ensures Accepted(Removals(names), WithZone(foreign, network))
    ensures Run(Removals(names), WithZone(foreign, network)) == WithZone(foreign, AfterRemovals(network, names))
    decreases |names|
  {
    if names != [] {
      DropStep(foreign, network, names[0]);
      RunRemovals(foreign, Dropped(network, names[0]), names[1..]);
    }
  }

  lemma {:induction false} RunAdditions(foreign: Config, network: Option<seq<string>>, names: seq<string>)
    ensures Accepted(Additions(names), WithZone(foreign, network))
    ensures Run(Additions(names), WithZone(foreign, network)) == WithZone(foreign, AfterAdditions(network, names))
    decreases |names|
  {
    if names != [] {
      var dropped := Dropped(network, names[0]);
      var plan := Additions(names);
      DropStep(foreign, network, names[0]);
      AddStep(foreign, dropped, names[0]);
      RunAdditions(foreign, Some(Items(dropped) + [names[0]]), names[1..]);
      assert plan[1..][1..] == Additions(names[1..]);
    }
  }

  lemma {:induction false} RemovalsList(network: Option<seq<string>>, names: seq<string>, x: string)
    requires NoDuplicates(Items(network))
    ensures NoDuplicates(Items(AfterRemovals(network, names)))
    ensures x in Items(AfterRemovals(network, names)) <==> x in Items(network) && x !in names
    decreases |names|
  {
    if names != [] {
      var dropped := Dropped(network, names[0]);
      WithoutKeepsNoDuplicates(Items(network), names[0]);
      WithoutMembers(Items(network), names[0], x);
      RemovalsList(dropped, names[1..], x);
    }
  }

  lemma {:induction false} AdditionsList(network: Option<seq<string>>, names: seq<string>, x: string)
    requires NoDuplicates(Items(network))
    ensures NoDuplicates(Items(AfterAdditions(network, names)))
    ensures x in Items(AfterAdditions(network, names)) <==> x in Items(network) || x in names
    decreases |names|
  {
    if names != [] {
      var dropped := Dropped(network, names[0]);
      WithoutKeepsNoDuplicates(Items(network), names[0]);
      WithoutMembers(Items(network), names[0], names[0]);
      WithoutMembers(Items(network), names[0], x);
      AdditionsList(Some(Items(dropped) + [names[0]]), names[1..], x);
    }
  }

  // ----- creating and deleting the zone -----

  lemma FoldStep(w: Write, ws: seq<Write>, m: map<string, Value>)
    ensures Fold([w] + ws, m) == Fold(ws, Written(w, m))
  {
    assert ([w] + ws)[1..] == ws;
  }

  lemma FoldForwarding(name: string, src: string, dest: string)
    ensures Made(ForwardingProgram(name, src, dest)) == Forwarding(src, dest)
  {
    var a, b := SetTo("src", src), SetTo("dest", dest);
    assert [a, b] == [a] + ([b] + []);
    FoldStep(a, [b] + [], map[]);
    FoldStep(b, [], Written(a, map[]));
  }

  lemma FoldZone()
    ensures Made(ZoneProgram()) == Zone(None)
  {
    var a, b, c := SetTo("name", ZONE), SetTo("input", "ACCEPT"), SetTo("output", "ACCEPT");
    var d, e := SetTo("forward", "ACCEPT"), SetTo("mtu_fix", "1");
    assert ZoneProgram().writes == [a] + ([b] + ([c] + ([d] + ([e] + []))));
    FoldStep(a, [b] + ([c] + ([d] + ([e] + []))), map[]);
    var m1 := Written(a, map[]);
    FoldStep(b, [c] + ([d] + ([e] + [])), m1);
    var m2 := Written(b, m1);
    FoldStep(c, [d] + ([e] + []), m2);
    var m3 := Written(c, m2);
    FoldStep(d, [e] + [], m3);
    var m4 := Written(d, m3);
    FoldStep(e, [], m4);
  }

  lemma MadeCons(p: Program, ps: seq<Program>)
    ensures MadeAll([p] + ps) == map[p.section := Made(p)] + MadeAll(ps)
  {
    assert ([p] + ps)[1..] == ps;
  }

  lemma MadeThree(p: Program, q: Program, r: Program)
    requires p.section != q.section && p.section != r.section && q.section != r.section
    ensures MadeAll([p, q, r]) == map[p.section := Made(p), q.section := Made(q), r.section := Made(r)]
  {
    assert [p, q, r] == [p] + ([q] + ([r] + []));
    MadeCons(p, [q] + ([r] + []));
    MadeCons(q, [r] + []);
    MadeCons(r, []);
  }

  lemma MadeForwardings()
    ensures MadeAll(ForwardingPrograms()) == Forwardings()
  {
    FoldForwarding(LAN_TO_ZONE, "lan", ZONE);
    FoldForwarding(ZONE_TO_LAN, ZONE, "lan");
    FoldForwarding(ZONE_TO_WAN, ZONE, "wan");
    OwnedNamesDistinct();
    var fs := ForwardingPrograms();
    MadeThree(fs[0], fs[1], fs[2]);
  }

  // None of the four sections is there.
  predicate NoZone(cfg: Config) { OWNED_NAMES !! cfg.Keys }

  lemma FourDistinct(p: Program, q: Program, r: Program, t: Program)
    requires p.section != q.section && p.section != r.section && p.section != t.section
    requires q.section != r.section && q.section != t.section && r.section != t.section
    ensures Distinct([p] + [q, r, t])
  {
  }

  lemma CreateZone(foreign: Config)
    requires NoZone(foreign)
    ensures Accepted(CreateZonePlan(), foreign) && Run(CreateZonePlan(), foreign) == WithZone(foreign, None)
  {
    var ps, fs := ZonePrograms(), ForwardingPrograms();
    OwnedNamesDistinct();
    FourDistinct(ZoneProgram(), fs[0], fs[1], fs[2]);
    RunBatch(ps, foreign);
    CreatedIsZone(foreign);
  }

  lemma CreatedIsZone(foreign: Config)
    requires NoZone(foreign)
    ensures foreign + MadeAll(ZonePrograms()) == WithZone(foreign, None)
  {
    FoldZone();
    MadeForwardings();
    MadeCons(ZoneProgram(), ForwardingPrograms());
    OwnedNamesDistinct();
    PutFirst(foreign, ZONE, Zone(None), Forwardings());
  }

  lemma PutFirst(cfg: Config, x: string, section: Section, rest: Config)
    requires x !in rest
    ensures cfg + (map[x := section] + rest) == (cfg + rest)[x := section]
  {
  }

  function DeleteFour(a: string, b: string, c: string, d: string): seq<Step> {
    Steps([Delete(SectionPath(a)), Delete(SectionPath(b)), Delete(SectionPath(c))] + [Delete(SectionPath(d))])
  }

  lemma FourDeletions(a: string, b: string, c: string, d: string, cfg: Config, r: Config)
    requires a in cfg && b in cfg && c in cfg && d in cfg
    requires a != b && a != c && a != d && b != c && b != d && c != d
    requires r == cfg - {a, b, c, d}
    ensures Accepted(DeleteFour(a, b, c, d), cfg) && Run(DeleteFour(a, b, c, d), cfg) == r
  {
    var plan := DeleteFour(a, b, c, d);
    assert plan == [Do(Delete(SectionPath(a)))] + plan[1..] && plan[1..] == [Do(Delete(SectionPath(b)))] + plan[2..];
    assert plan[2..] == [Do(Delete(SectionPath(c)))] + plan[3..] && plan[3..] == [Do(Delete(SectionPath(d)))] + [];
    DeleteOne(a, plan[1..], cfg);
    DeleteOne(b, plan[2..], cfg - {a});
    DeleteOne(c, plan[3..], cfg - {a} - {b});
    DeleteOne(d, [], cfg - {a} - {b} - {c});
    assert cfg - {a} - {b} - {c} - {d} == r;
  }

  lemma TakenOut(foreign: Config, network: Option<seq<string>>)
    requires NoZone(foreign)
    ensures WithZone(foreign, network) - {LAN_TO_ZONE, ZONE_TO_LAN, ZONE_TO_WAN, ZONE} == foreign
  {
    assert forall x :: x in foreign ==> x !in OWNED_NAMES;
  }

  lemma Teardown(foreign: Config, network: Option<seq<string>>)
    requires NoZone(foreign)
    ensures Accepted(TeardownPlan(), WithZone(foreign, network))
    ensures Run(TeardownPlan(), WithZone(foreign, network)) == foreign
  {
    OwnedNamesDistinct();
    TakenOut(foreign, network);
    FourDeletions(LAN_TO_ZONE, ZONE_TO_LAN, ZONE_TO_WAN, ZONE, WithZone(foreign, network), foreign);
  }

  lemma DeleteOne(x: string, rest: seq<Step>, cfg: Config)
    requires x in cfg
    ensures Run([Do(Delete(SectionPath(x)))] + rest, cfg) == Run(rest, cfg - {x})
    ensures Accepted([Do(Delete(SectionPath(x)))] + rest, cfg) <==> Accepted(rest, cfg - {x})
  {
    assert ([Do(Delete(SectionPath(x)))] + rest)[1..] == rest;
  }
}
