/** An interface with an empty name: validation accepts it, deleteSections skips its section.
    An apply that finds one on record succeeds exactly under EmptyNameOk.
  */
module EmptyName {
  import opened Text
  import opened Bundle
  import opened Uci
  import opened InterfaceBatch
  import opened InterfaceSections
  import opened Last
  import opened DiffTypes
  import opened ApplyPlan
  import opened Convergence
  import opened NetworkProofs
  import opened Rebuild
  import opened Leftovers

  // No interface has the section with the empty name on record, and none sets this option.
  lemma NoneSets(s: Site, v: Sides, o: string)
    requires IsSite(s, v) && o != "addresses"
    requires "" in v.wanted ==> ValidInterface(v.wanted[""]) && o !in InterfaceOptions(v.wanted[""])
    ensures forall i :: Unset(s, v, i, "", o)
  {
    forall i ensures Unset(s, v, i, "", o) {
      if i in v.wanted && "" in Wanted(s, i) { EmptyUnset(s, v, i, o); }
      if i in v.recorded { assert RecordedAt(s, v, i); }
    }
  }

  lemma EmptyUnset(s: Site, v: Sides, i: string, o: string)
    requires IsSite(s, v) && i in v.wanted && "" in Wanted(s, i)
    requires "" in v.wanted ==> ValidInterface(v.wanted[""]) && o !in InterfaceOptions(v.wanted[""])
    ensures ValidInterface(v.wanted[i]) && o !in Target(s, i)[""].options
  {
    assert WantedAt(s, v, i);
    BuiltNames(v.net, i, v.wanted[i]);
    EmptySectionName(i, v.wanted[i]);
    EmptySection(v.net, v.wanted[i]);
  }

  // An option that the section had and should not have, or any if the section should not be.
  lemma OffendingOption(wanted: map<string, Interface>, recorded: map<string, Interface>) returns (o: string)
    requires !EmptyNameOk(wanted, recorded) && ("" in wanted ==> ValidInterface(wanted[""]))
    ensures "" in recorded && o in InterfaceOptions(recorded[""]) && o != "addresses"
    ensures "" in wanted ==> o !in InterfaceOptions(wanted[""])
  {
    if "" in wanted {
      o :| o in InterfaceOptions(recorded[""]) && o !in InterfaceOptions(wanted[""]);
      assert "addresses" in InterfaceOptions(wanted[""]);
    } else {
      o := "proto";
    }
  }

  lemma OffendedMirror(v: Sides, foreign: Config, cfg: Config, o: string)
    requires HasOption(cfg, "", o) && ("" in v.wanted ==> o !in InterfaceOptions(v.wanted[""])) && "" !in foreign
    ensures !Mirrors(v.net, v.wanted, foreign, cfg)
  {
    if "" in v.wanted {
      EmptySection(v.net, v.wanted[""]);
      assert !Holds(v.net, "", v.wanted[""], cfg);
    } else {
      forall i | i in v.wanted ensures "" !in SectionNames(i, v.wanted[i]) { EmptySectionName(i, v.wanted[i]); }
      assert !Belongs(v.wanted, foreign, "");
    }
  }

  lemma RecordedHasOption(v: Sides, foreign: Config, cfg: Config, o: string)
    requires Mirrors(v.net, v.recorded, foreign, cfg) && "" in v.recorded && o in InterfaceOptions(v.recorded[""])
    ensures HasOption(cfg, "", o)
  {
    EmptySection(v.net, v.recorded[""]);
    assert Holds(v.net, "", v.recorded[""], cfg);
  }

  // The incremental plan ends in the mirror of the wanted interfaces if and only if the empty
  // name does no harm.
  lemma ApplyMirrorsIff(s: Site, v: Sides, ds: seq<InterfaceDiff>, cfg: Config)
    requires FitDiff(s, v, ds) && Mirrors(v.net, v.recorded, s.foreign, cfg)
    requires "" !in s.foreign && ("" in v.wanted ==> ValidInterface(v.wanted[""]))
    ensures forall n :: 0 <= n < |ds| ==> HasContent(ds[n])
    ensures Mirrors(v.net, v.wanted, s.foreign, Run(NetworkPlan(v.net, ds), cfg)) <==> EmptyNameOk(v.wanted, v.recorded)
  {
    FitsHasContent(v, ds);
    if EmptyNameOk(v.wanted, v.recorded) {
      ApplyMirrors(s, v, ds, cfg);
    } else {
      var o := OffendingOption(v.wanted, v.recorded);
      RecordedHasOption(v, s.foreign, cfg, o);
      NoneSets(s, v, o);
      PlanSpares(s, v, ds, "", o);
      SparedStays(NetworkPlan(v.net, ds), cfg, "", o);
      OffendedMirror(v, s.foreign, Run(NetworkPlan(v.net, ds), cfg), o);
    }
  }
}
