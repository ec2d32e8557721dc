/** One complete apply against what last.json records: the incremental plan refines a rebuild
    from scratch, and the new last.json describes the new store.
  */
module Rebuild {
  import opened Text
  import opened Bundle
  import opened Uci
  import opened InterfaceBatch
  import opened InterfaceSections
  import opened Last
  import opened DiffTypes
  import opened ApplyPlan
  import opened Convergence
  import opened NetworkProofs
  import opened Retry

  ghost predicate Within(part: Config, cfg: Config) { forall x :: x in part ==> x in cfg && cfg[x] == part[x] }

  ghost predicate Holds(net: Net, name: string, content: Interface, cfg: Config) {
    Within(Built(net, name, content), cfg)
  }

  ghost predicate Belongs(contents: map<string, Interface>, foreign: Config, x: string) {
    x in foreign || exists name :: name in contents && x in SectionNames(name, contents[name])
  }

  ghost predicate AllHold(net: Net, contents: map<string, Interface>, cfg: Config) {
    forall name :: name in contents ==> Holds(net, name, contents[name], cfg)
  }

  ghost predicate AllBelong(contents: map<string, Interface>, foreign: Config, cfg: Config) {
    forall x :: x in cfg ==> Belongs(contents, foreign, x)
  }

  // The store holds the foreign sections, the sections of exactly these interfaces, and
  // nothing else.
  ghost predicate Mirrors(net: Net, contents: map<string, Interface>, foreign: Config, cfg: Config) {
    Within(foreign, cfg) && AllHold(net, contents, cfg) && AllBelong(contents, foreign, cfg)
  }

  lemma WantedBelongs(s: Site, v: Sides, x: string)
    requires IsSite(s, v)
    ensures IsWanted(s, x) <==> Belongs(v.wanted, s.foreign, x)
  {
    if x !in s.foreign && IsWanted(s, x) {
      var i :| i in s.target && x in Wanted(s, i);
      assert WantedAt(s, v, i);
      BuiltNames(v.net, i, v.wanted[i]);
    }
    if x !in s.foreign && Belongs(v.wanted, s.foreign, x) {
      var i :| i in v.wanted && x in SectionNames(i, v.wanted[i]);
      assert WantedAt(s, v, i);
      BuiltNames(v.net, i, v.wanted[i]);
      assert x in Wanted(s, i);
    }
  }

  lemma IntactWithin(s: Site, cfg: Config, i: string)
    ensures Intact(s, cfg, i) <==> Within(Target(s, i), cfg)
  {
  }

  lemma IntactHolds(s: Site, v: Sides, cfg: Config, i: string)
    requires IsSite(s, v) && i in v.wanted
    ensures Intact(s, cfg, i) <==> Holds(v.net, i, v.wanted[i], cfg)
  {
    assert WantedAt(s, v, i);
    IntactWithin(s, cfg, i);
  }

  lemma AllIntact(s: Site, v: Sides, cfg: Config)
    requires IsSite(s, v)
    ensures (forall i :: i in s.target ==> Intact(s, cfg, i)) <==> AllHold(v.net, v.wanted, cfg)
  {
    forall i | i in v.wanted ensures Intact(s, cfg, i) <==> Holds(v.net, i, v.wanted[i], cfg) {
      IntactHolds(s, v, cfg, i);
    }
  }

  lemma AllWanted(s: Site, v: Sides, cfg: Config)
    requires IsSite(s, v)
    ensures (forall x :: x in cfg ==> IsWanted(s, x)) <==> AllBelong(v.wanted, s.foreign, cfg)
  {
    forall x ensures IsWanted(s, x) <==> Belongs(v.wanted, s.foreign, x) { WantedBelongs(s, v, x); }
  }

  lemma DescribedMirrors(s: Site, v: Sides, cfg: Config)
    requires IsSite(s, v) && Describes(s, cfg)
    ensures Mirrors(v.net, v.wanted, s.foreign, cfg)
  {
    AllIntact(s, v, cfg);
    AllWanted(s, v, cfg);
  }

  // ----- an interface with an empty name -----

  // Validation lets the empty name pass, but the deletion skips its section.  That does no
  // harm exactly if the bundle still has that interface and sets every option it had.
  predicate EmptyNameOk(wanted: map<string, Interface>, recorded: map<string, Interface>) {
    "" in recorded ==> "" in wanted && InterfaceOptions(recorded[""]).Keys <= InterfaceOptions(wanted[""]).Keys
  }

  lemma EmptySection(net: Net, i: Interface)
    ensures "" in Built(net, "", i) && Built(net, "", i)[""] == Section("interface", InterfaceOptions(i))
  {
    BuiltIsWanted(net, "", i, Itself);
  }

  lemma EmptySectionName(name: string, i: Interface)
    ensures "" in SectionNames(name, i) <==> name == ""
  {
    if "" in SectionNames(name, i) { var k := NamesHaveKinds(name, i, ""); }
  }

  // ----- what is recorded is where an apply starts -----

  lemma RecordedKnown(s: Site, v: Sides, x: string)
    requires IsSite(s, v) && Belongs(v.recorded, s.foreign, x) && ("" in v.recorded ==> "" in v.wanted)
    ensures Known(s, x)
  {
    if x !in s.foreign {
      var i :| i in v.recorded && x in SectionNames(i, v.recorded[i]);
      if x == "" {
        EmptySectionName(i, v.recorded[i]);
        EmptyKnown(s, v);
      } else {
        CoveredKnown(s, v, i, x);
      }
    }
  }

  lemma CoveredKnown(s: Site, v: Sides, i: string, x: string)
    requires IsSite(s, v) && i in v.recorded && x in Covered(i, v.recorded[i])
    ensures Known(s, x)
  {
    assert RecordedAt(s, v, i);
    assert i in Names(s) && x in Own(s, i);
  }

  lemma EmptyKnown(s: Site, v: Sides)
    requires IsSite(s, v) && "" in v.wanted
    ensures Known(s, "")
  {
    assert WantedAt(s, v, "");
    EmptySection(v.net, v.wanted[""]);
    assert "" in Names(s) && "" in Own(s, "");
  }

  // A section that interface i wants and does not have on record is not there yet.
  lemma UnrecordedAbsent(s: Site, v: Sides, cfg: Config, i: string, x: string)
    requires Separate(s) && IsSite(s, v) && Mirrors(v.net, v.recorded, s.foreign, cfg)
    requires i in Names(s) && x in Wanted(s, i) && x in cfg && x != ""
    ensures x in Recorded(s, i)
  {
    assert Belongs(v.recorded, s.foreign, x);
    NotForeign(s, i, x);
    var j :| j in v.recorded && x in SectionNames(j, v.recorded[j]);
    assert RecordedAt(s, v, j);
    OwnerUnique(s, i, j, x);
  }

  // What the empty name's section holds before the create, the create sets.
  lemma EmptyLeftover(s: Site, v: Sides, cfg: Config, i: string)
    requires Separate(s) && IsSite(s, v) && Mirrors(v.net, v.recorded, s.foreign, cfg)
    requires EmptyNameOk(v.wanted, v.recorded)
    requires i in Names(s) && "" in Wanted(s, i) && "" in cfg
    ensures cfg[""].options.Keys <= Target(s, i)[""].options.Keys
  {
    assert WantedAt(s, v, i);
    BuiltNames(v.net, i, v.wanted[i]);
    EmptySectionName(i, v.wanted[i]);
    NotForeign(s, i, "");
    assert Belongs(v.recorded, s.foreign, "");
    var j :| j in v.recorded && "" in SectionNames(j, v.recorded[j]);
    EmptySectionName(j, v.recorded[j]);
    assert Holds(v.net, "", v.recorded[""], cfg);
    EmptySection(v.net, v.recorded[""]);
    EmptySection(v.net, v.wanted[""]);
  }

  lemma RecordedPart(s: Site, v: Sides, cfg: Config, acted: set<string>, i: string)
    requires Separate(s) && IsSite(s, v) && Mirrors(v.net, v.recorded, s.foreign, cfg) && i in Names(s)
    requires EmptyNameOk(v.wanted, v.recorded) && (i !in acted ==> Unaltered(v, i))
    ensures PartOk(s, cfg, acted, i)
  {
    if i !in acted {
      UnalteredSettled(s, v, i);
      IntactHolds(s, v, cfg, i);
    } else {
      forall x | x in Wanted(s, i) && x !in Recorded(s, i) && x in cfg
        ensures cfg[x].options.Keys <= Target(s, i)[x].options.Keys
      {
        if x == "" { EmptyLeftover(s, v, cfg, i); } else { UnrecordedAbsent(s, v, cfg, i, x); }
      }
    }
  }

  lemma AllKnown(s: Site, v: Sides, cfg: Config)
    requires IsSite(s, v) && AllBelong(v.recorded, s.foreign, cfg) && ("" in v.recorded ==> "" in v.wanted)
    ensures forall x :: x in cfg ==> Known(s, x)
  {
    forall x | x in cfg ensures Known(s, x) { RecordedKnown(s, v, x); }
  }

  lemma RecordedPartial(s: Site, v: Sides, cfg: Config, acted: set<string>)
    requires Separate(s) && IsSite(s, v) && Mirrors(v.net, v.recorded, s.foreign, cfg)
    requires EmptyNameOk(v.wanted, v.recorded)
    requires forall i :: i in Names(s) && i !in acted ==> Unaltered(v, i)
    ensures Partial(s, cfg, acted)
  {
    AllKnown(s, v, cfg);
    forall i | i in Names(s) ensures PartOk(s, cfg, acted, i) { RecordedPart(s, v, cfg, acted, i); }
  }

  // ----- the new last.json -----

  predicate IsRecord(m: map<string, Record>, name: string, content: Interface) {
    name in m && m[name] == Record(content, SectionsFor(name, content))
  }

  ghost predicate OnRecord(v: Sides, recorded: map<string, Record>) {
    recorded.Keys == v.recorded.Keys && forall name :: name in v.recorded ==> IsRecord(recorded, name, v.recorded[name])
  }

  lemma FitRecordable(v: Sides, recorded: map<string, Record>, ds: seq<InterfaceDiff>)
    requires OnRecord(v, recorded) && AllFit(v, ds)
    ensures forall n :: 0 <= n < |ds| ==> Recordable(ds[n], recorded)
  {
    assert forall n :: 0 <= n < |ds| ==> Fits(v, ds[n]);
  }

  ghost predicate Listed(ds: seq<InterfaceDiff>, name: string) { exists n :: 0 <= n < |ds| && ds[n].name == name }

  lemma ListedSnoc(ds: seq<InterfaceDiff>, name: string)
    requires ds != []
    ensures Listed(ds, name) <==> Listed(ds[..|ds| - 1], name) || ds[|ds| - 1].name == name
  {
    var front := ds[..|ds| - 1];
    if Listed(front, name) {
      var n :| 0 <= n < |front| && front[n].name == name;
      assert ds[n].name == name;
    }
    if Listed(ds, name) {
      var n :| 0 <= n < |ds| && ds[n].name == name;
      if n < |front| { assert front[n].name == name; }
    }
  }

  lemma FrontFit(v: Sides, ds: seq<InterfaceDiff>)
    requires ds != [] && AllFit(v, ds)
    ensures AllFit(v, ds[..|ds| - 1])
  {
  }

  // One interface after the entries seen so far: recorded as wanted, or not at all.
  lemma {:induction false} RecordsAt(v: Sides, recorded: map<string, Record>, ds: seq<InterfaceDiff>, name: string)
    requires OnRecord(v, recorded) && AllFit(v, ds)
    requires forall n :: 0 <= n < |ds| ==> Recordable(ds[n], recorded)
    ensures if Listed(ds, name) && name in v.wanted then IsRecord(Records(ds, recorded), name, v.wanted[name])
            else name !in Records(ds, recorded)
    decreases |ds|
  {
    if ds != [] {
      var d := ds[|ds| - 1];
      FrontFit(v, ds);
      RecordsAt(v, recorded, ds[..|ds| - 1], name);
      ListedSnoc(ds, name);
      assert Fits(v, d);
    }
  }

  ghost predicate ListsAll(v: Sides, ds: seq<InterfaceDiff>) { forall name :: name in v.wanted ==> Listed(ds, name) }

  // The new records are those of the wanted interfaces.
  lemma RecordsWanted(v: Sides, recorded: map<string, Record>, ds: seq<InterfaceDiff>)
    requires OnRecord(v, recorded) && AllFit(v, ds) && ListsAll(v, ds)
    ensures forall n :: 0 <= n < |ds| ==> Recordable(ds[n], recorded)
    ensures OnRecord(Sides(v.net, v.wanted, v.wanted), Records(ds, recorded))
  {
    FitRecordable(v, recorded, ds);
    var m := Records(ds, recorded);
    forall name ensures if name in v.wanted then IsRecord(m, name, v.wanted[name]) else name !in m {
      RecordsAt(v, recorded, ds, name);
    }
    assert forall name :: name in m <==> name in v.wanted;
  }

  // ----- one apply -----

  ghost predicate FitDiff(s: Site, v: Sides, ds: seq<InterfaceDiff>) {
    Separate(s) && IsSite(s, v) && AllFit(v, ds) && forall i :: i in Names(s) && i !in Acted(ds) ==> Unaltered(v, i)
  }

  // The incremental plan, run on what is recorded, is never refused and ends in the foreign
  // sections and the sections of the wanted interfaces.
  lemma ApplyMirrors(s: Site, v: Sides, ds: seq<InterfaceDiff>, cfg: Config)
    requires FitDiff(s, v, ds) && Mirrors(v.net, v.recorded, s.foreign, cfg) && EmptyNameOk(v.wanted, v.recorded)
    ensures forall n :: 0 <= n < |ds| ==> HasContent(ds[n])
    ensures Accepted(NetworkPlan(v.net, ds), cfg)
    ensures Mirrors(v.net, v.wanted, s.foreign, Run(NetworkPlan(v.net, ds), cfg))
  {
    RecordedPartial(s, v, cfg, Acted(ds));
    PlanCompletes(s, v, cfg, Acted(ds), ds);
    DescribedMirrors(s, v, Run(NetworkPlan(v.net, ds), cfg));
  }

  // There is one such store.
  lemma MirrorsUnique(net: Net, contents: map<string, Interface>, foreign: Config, a: Config, b: Config)
    requires Mirrors(net, contents, foreign, a) && Mirrors(net, contents, foreign, b)
    ensures a == b
  {
    forall x | x in a ensures x in b && a[x] == b[x] { MirroredAt(net, contents, foreign, a, b, x); }
    forall x | x in b ensures x in a && a[x] == b[x] { MirroredAt(net, contents, foreign, b, a, x); }
  }

  lemma MirroredAt(net: Net, contents: map<string, Interface>, foreign: Config, a: Config, b: Config, x: string)
    requires Mirrors(net, contents, foreign, a) && Mirrors(net, contents, foreign, b) && x in a
    ensures x in b && a[x] == b[x]
  {
    assert Belongs(contents, foreign, x);
    if x !in foreign {
      var name :| name in contents && x in SectionNames(name, contents[name]);
      BuiltNames(net, name, contents[name]);
      assert Holds(net, name, contents[name], a) && Holds(net, name, contents[name], b);
    }
  }

  // ----- creating and deleting one interface -----

  // On a store without its sections, the create commands are all accepted and add exactly
  // the sections that last.json will record.
  lemma CreateAdds(net: Net, name: string, i: Interface, cfg: Config)
    requires SectionNames(name, i) !! cfg.Keys
    ensures Accepted(Steps(Batch(Programs(net, name, i))), cfg)
    ensures Run(Steps(Batch(Programs(net, name, i))), cfg) == cfg + Built(net, name, i)
    ensures Built(net, name, i).Keys == SectionNames(name, i)
  {
    var ps := Programs(net, name, i);
    BuiltNames(net, name, i);
    ProgramsDistinct(net, name, i);
    forall k | 0 <= k < |ps| ensures Overwritable(ps[k], cfg) { MadeAllAt(ps, k); }
    RunBatch(ps, cfg);
  }

  lemma CoveredSections(name: string, i: Interface, x: string)
    ensures var sections := SectionsFor(name, i);
      x in Covered(name, i) <==> (x == sections.iface && x != "") || x in sections.routes || x in sections.peers
  {
    var sections := SectionsFor(name, i);
    assert forall n :: 0 <= n < |sections.routes| ==> sections.routes[n] != "";
    assert forall n :: 0 <= n < |sections.peers| ==> sections.peers[n] != "";
  }

  // The deletion of what is recorded removes the covered sections and nothing else.
  lemma RecordedDeleted(name: string, i: Interface, cfg: Config, x: string)
    ensures var r := Run(DeletePlan(SectionsFor(name, i)), cfg);
      if x in Covered(name, i) then x !in r else SameAt(r, cfg, x)
  {
    CoveredSections(name, i, x);
    DeletePlanDeletes(SectionsFor(name, i), cfg, x);
  }

  lemma Restored(cfg: Config, added: Config, r: Config)
    requires added.Keys !! cfg.Keys
    requires forall x :: if x in added then x !in r else SameAt(r, cfg + added, x)
    ensures r == cfg
  {
    assert forall x :: x in r <==> x in cfg;
  }

  // Deleting what last.json records undoes the create -- unless the interface has an empty
  // name: its own section stays.
  lemma DeleteUndoesCreate(net: Net, name: string, i: Interface, cfg: Config)
    requires SectionNames(name, i) !! cfg.Keys
    ensures var made := Run(Steps(Batch(Programs(net, name, i))), cfg);
      Run(DeletePlan(SectionsFor(name, i)), made) == cfg <==> name != ""
  {
    CreateAdds(net, name, i, cfg);
    EmptySectionName(name, i);
    if name != "" {
      AddedDeleted(name, i, cfg, Built(net, name, i));
    } else {
      RecordedDeleted(name, i, cfg + Built(net, name, i), "");
    }
  }

  lemma AddedDeleted(name: string, i: Interface, cfg: Config, added: Config)
    requires name != "" && added.Keys == SectionNames(name, i) && added.Keys !! cfg.Keys
    ensures Run(DeletePlan(SectionsFor(name, i)), cfg + added) == cfg
  {
    var r := Run(DeletePlan(SectionsFor(name, i)), cfg + added);
    EmptySectionName(name, i);
    forall x ensures if x in added then x !in r else SameAt(r, cfg + added, x) {
      RecordedDeleted(name, i, cfg + added, x);
    }
    Restored(cfg, added, r);
  }

  // ----- an ordinary attempt on a forced attempt's leftovers -----

  // An ordinary plan does not restore a section of an interface that it skips.
  lemma SkippedStaysLost(s: Site, v: Sides, ordinary: seq<InterfaceDiff>, i: string, x: string, left: Config)
    requires FitDiff(s, v, ordinary) && Unaltered(v, i) && i !in Acted(ordinary)
    requires x in SectionNames(i, v.wanted[i]) && x !in left
    ensures forall n :: 0 <= n < |ordinary| ==> HasContent(ordinary[n])
    ensures !Mirrors(v.net, v.wanted, s.foreign, Run(NetworkPlan(v.net, ordinary), left))
  {
    assert RecordedAt(s, v, i) && WantedAt(s, v, i);
    BuiltNames(v.net, i, v.wanted[i]);
    NetworkPlanSafe(s, v, ordinary, Acted(ordinary));
    SafeKeepsAt(s, Acted(ordinary), NetworkPlan(v.net, ordinary), left, i, x);
    assert x in Built(v.net, i, v.wanted[i]);
    assert !Holds(v.net, i, v.wanted[i], Run(NetworkPlan(v.net, ordinary), left));
  }

  // What a forced attempt leaves that stops after its first deletions and cannot revert.
  function LeftAfterDeletion(net: Net, forced: seq<InterfaceDiff>, cfg: Config): Config
    requires forced != [] && forall n :: 0 <= n < |forced| ==> HasContent(forced[n])
  {
    var cut := Cut(true, |DeletePlan(forced[0].sections)|, false, false);
    AfterCut(NetworkPlan(net, forced), Store(cfg, cfg), cut).staged
  }

  lemma FirstDeleted(v: Sides, forced: seq<InterfaceDiff>, cfg: Config, x: string)
    requires AllFit(v, forced) && forced != [] && forced[0].change.Changed?
    requires x in Covered(forced[0].name, v.recorded[forced[0].name])
    ensures forall n :: 0 <= n < |forced| ==> HasContent(forced[n])
    ensures x !in LeftAfterDeletion(v.net, forced, cfg)
  {
    FitsHasContent(v, forced);
    assert Fits(v, forced[0]);
    PlanStartsWith(v.net, forced);
    RecordedDeleted(forced[0].name, v.recorded[forced[0].name], cfg, x);
  }

  // The first interface is unaltered; a forced attempt stops after deleting its sections and
  // cannot revert.  The ordinary attempt that follows does not converge.
  lemma ForcedLeftoverBreaks(s: Site, v: Sides, ordinary: seq<InterfaceDiff>, forced: seq<InterfaceDiff>, cfg: Config,
                             x: string)
    requires FitDiff(s, v, ordinary) && AllFit(v, forced) && forced != [] && forced[0].change.Changed?
    requires Unaltered(v, forced[0].name) && forced[0].name !in Acted(ordinary)
    requires x in Covered(forced[0].name, v.recorded[forced[0].name])
    ensures forall n :: 0 <= n < |ordinary| ==> HasContent(ordinary[n])
    ensures forall n :: 0 <= n < |forced| ==> HasContent(forced[n])
    ensures !Mirrors(v.net, v.wanted, s.foreign,
                     Run(NetworkPlan(v.net, ordinary), LeftAfterDeletion(v.net, forced, cfg)))
  {
    FirstDeleted(v, forced, cfg, x);
    SkippedStaysLost(s, v, ordinary, forced[0].name, x, LeftAfterDeletion(v.net, forced, cfg));
  }

  lemma StartsWith(a: seq<Step>, b: seq<Step>, c: seq<Step>)
    ensures Prefix((a + b) + c, |a|) == a
  {
  }

  lemma PlanStartsWith(net: Net, ds: seq<InterfaceDiff>)
    requires ds != [] && ds[0].change.Changed? && forall n :: 0 <= n < |ds| ==> HasContent(ds[n])
    ensures Prefix(NetworkPlan(net, ds), |DeletePlan(ds[0].sections)|) == DeletePlan(ds[0].sections)
  {
    StartsWith(DeletePlan(ds[0].sections), CreatePlan(net, ds[0].name, ds[0].content.value), NetworkPlan(net, ds[1..]));
  }
}
