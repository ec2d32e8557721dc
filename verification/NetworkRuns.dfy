/** Runs of applies of changing bundles over the network config.

    Main results: every run of successful applies keeps the store a mirror of last.json, each
    incremental apply ends where a rebuild from scratch would, and no attempt, complete or
    interrupted, ever alters a section that last.json and the bundles do not name.
  */
module NetworkRuns {
  import opened Text
  import opened Bundle
  import opened Uci
  import opened InterfaceBatch
  import opened InterfaceSections
  import opened Last
  import opened DiffTypes
  import opened ApplyPlan
  import opened Convergence
  import opened NetworkProofs
  import opened Retry
  import opened Rebuild
  import opened EmptyName

  // The interfaces of a bundle to apply, in which way, and what else goes into last.json.
  datatype Apply = Apply(wanted: map<string, Interface>, forceAll: bool, stunmesh: string, firewall: FirewallState)

  ghost predicate ValidContents(wanted: map<string, Interface>) {
    forall name :: name in wanted ==> ValidInterface(wanted[name])
  }

  function SidesOf(net: Net, wanted: map<string, Interface>, state: State): Sides {
    Sides(net, wanted, Contents(state))
  }

  predicate OnEitherSide(names: seq<string>, wanted: map<string, Interface>, recorded: map<string, Record>) {
    forall name :: name in names ==> name in wanted || name in recorded
  }

  lemma NameOnSide(names: seq<string>, wanted: map<string, Interface>, recorded: map<string, Record>, n: nat)
    requires OnEitherSide(names, wanted, recorded) && n < |names|
    ensures names[n] in wanted || names[n] in recorded
  {
    assert names[n] in names;
  }

  lemma NamedRecordable(wanted: map<string, Interface>, recorded: map<string, Record>, forceAll: bool,
                        names: seq<string>)
    requires OnEitherSide(names, wanted, recorded)
    ensures forall n :: 0 <= n < |names| ==> Recordable(EntriesOf(wanted, recorded, forceAll, names)[n], recorded)
  {
    forall n | 0 <= n < |names| ensures Recordable(EntriesOf(wanted, recorded, forceAll, names)[n], recorded) {
      NameOnSide(names, wanted, recorded, n);
    }
  }

  lemma EntriesRecordable(wanted: map<string, Interface>, recorded: map<string, Record>, forceAll: bool)
    ensures var ds := Entries(wanted, recorded, forceAll); forall n :: 0 <= n < |ds| ==> Recordable(ds[n], recorded)
  {
    NamedRecordable(wanted, recorded, forceAll, Sorted(wanted.Keys + recorded.Keys));
  }

  function PlanFrom(net: Net, wanted: map<string, Interface>, state: State, forceAll: bool): seq<Step> {
    EntriesRecordable(wanted, state.wg, forceAll);
    NetworkPlan(net, Entries(wanted, state.wg, forceAll))
  }

  // What a successful apply writes to last.json.
  function Recording(state: State, a: Apply): State {
    EntriesRecordable(a.wanted, state.wg, a.forceAll);
    State(Records(Entries(a.wanted, state.wg, a.forceAll), state.wg), a.stunmesh, a.firewall)
  }

  // ----- the diff fits its two sides -----

  lemma EntryFits(net: Net, wanted: map<string, Interface>, state: State, forceAll: bool, name: string)
    requires WellRecorded(state) && (name in wanted || name in state.wg)
    ensures var d := EntryOf(wanted, state.wg, forceAll, name);
      && Fits(SidesOf(net, wanted, state), d)
      && (d.change.Unchanged? <==> !forceAll && Unaltered(SidesOf(net, wanted, state), name))
  {
    if name in state.wg { RecordedContent(state, name); }
  }

  lemma RecordedContent(state: State, name: string)
    requires name in state.wg
    ensures name in Contents(state) && Contents(state)[name] == state.wg[name].content
  {
  }

  lemma NamedFit(net: Net, wanted: map<string, Interface>, state: State, forceAll: bool, names: seq<string>)
    requires WellRecorded(state) && OnEitherSide(names, wanted, state.wg)
    requires forall m, n :: 0 <= m < n < |names| ==> names[m] != names[n]
    ensures AllFit(SidesOf(net, wanted, state), EntriesOf(wanted, state.wg, forceAll, names))
  {
    var ds := EntriesOf(wanted, state.wg, forceAll, names);
    forall n | 0 <= n < |names| ensures Fits(SidesOf(net, wanted, state), ds[n]) && ds[n].name == names[n] {
      NameOnSide(names, wanted, state.wg, n);
      EntryFits(net, wanted, state, forceAll, names[n]);
    }
  }

  lemma EntriesFit(net: Net, wanted: map<string, Interface>, state: State, forceAll: bool)
    requires WellRecorded(state)
    ensures AllFit(SidesOf(net, wanted, state), Entries(wanted, state.wg, forceAll))
  {
    var names := Sorted(wanted.Keys + state.wg.Keys);
    IncreasingDistinct(names);
    NamedFit(net, wanted, state, forceAll, names);
  }

  lemma EntryListed(wanted: map<string, Interface>, state: State, forceAll: bool, name: string) returns (n: nat)
    requires name in wanted || name in state.wg
    ensures n < |Entries(wanted, state.wg, forceAll)|
    ensures Entries(wanted, state.wg, forceAll)[n] == EntryOf(wanted, state.wg, forceAll, name)
  {
    var names := Sorted(wanted.Keys + state.wg.Keys);
    assert name in names;
    n :| 0 <= n < |names| && names[n] == name;
  }

  // A diff skips exactly the unaltered interfaces, and none when it is forced.
  lemma SkippedUnaltered(net: Net, wanted: map<string, Interface>, state: State, forceAll: bool, name: string)
    requires WellRecorded(state) && (name in wanted || name in state.wg)
    ensures name !in Acted(Entries(wanted, state.wg, forceAll))
      <==> !forceAll && Unaltered(SidesOf(net, wanted, state), name)
  {
    var ds := Entries(wanted, state.wg, forceAll);
    var n := EntryListed(wanted, state, forceAll, name);
    EntryFits(net, wanted, state, forceAll, name);
    EntriesFit(net, wanted, state, forceAll);
    ActedIff(SidesOf(net, wanted, state), ds, n);
  }

  lemma ActedIff(v: Sides, ds: seq<InterfaceDiff>, n: nat)
    requires AllFit(v, ds) && n < |ds|
    ensures ds[n].name in Acted(ds) <==> !ds[n].change.Unchanged?
  {
    if ds[n].name in Acted(ds) {
      var m :| 0 <= m < |ds| && !ds[m].change.Unchanged? && ds[m].name == ds[n].name;
      assert m == n;
    }
  }

  lemma ActedOwned(s: Site, v: Sides, ds: seq<InterfaceDiff>)
    requires IsSite(s, v) && AllFit(v, ds)
    ensures Acted(ds) <= Names(s)
  {
    forall i | i in Acted(ds) ensures i in Names(s) {
      var n :| 0 <= n < |ds| && !ds[n].change.Unchanged? && ds[n].name == i;
      assert Fits(v, ds[n]);
    }
  }

  ghost function SiteFor(net: Net, wanted: map<string, Interface>, state: State, foreign: Config): Site {
    SiteOf(SidesOf(net, wanted, state), foreign)
  }

  // Every interface of the bundle or on record has its section names to itself.
  ghost predicate Apart(net: Net, wanted: map<string, Interface>, state: State, foreign: Config) {
    Separate(SiteFor(net, wanted, state, foreign))
  }

  lemma ApartSite(net: Net, wanted: map<string, Interface>, state: State, foreign: Config)
    requires Apart(net, wanted, state, foreign)
    ensures IsSite(SiteFor(net, wanted, state, foreign), SidesOf(net, wanted, state))
    ensures Names(SiteFor(net, wanted, state, foreign)) == wanted.Keys + state.wg.Keys
    ensures SiteFor(net, wanted, state, foreign).foreign == foreign
  {
    SiteOfIsSite(SidesOf(net, wanted, state), foreign);
  }

  // The diff is one that the convergence results apply to.
  lemma DiffFits(net: Net, wanted: map<string, Interface>, state: State, forceAll: bool, foreign: Config)
    requires Apart(net, wanted, state, foreign) && WellRecorded(state)
    ensures FitDiff(SiteFor(net, wanted, state, foreign), SidesOf(net, wanted, state),
                    Entries(wanted, state.wg, forceAll))
  {
    ApartSite(net, wanted, state, foreign);
    EntriesFit(net, wanted, state, forceAll);
    forall i | i in Names(SiteFor(net, wanted, state, foreign)) && i !in Acted(Entries(wanted, state.wg, forceAll))
      ensures Unaltered(SidesOf(net, wanted, state), i)
    {
      SkippedUnaltered(net, wanted, state, forceAll, i);
    }
  }

  lemma ForcedActsOnAll(net: Net, wanted: map<string, Interface>, state: State)
    requires WellRecorded(state)
    ensures wanted.Keys + state.wg.Keys <= Acted(Entries(wanted, state.wg, true))
  {
    forall i | i in wanted || i in state.wg ensures i in Acted(Entries(wanted, state.wg, true)) {
      SkippedUnaltered(net, wanted, state, true, i);
    }
  }

  lemma OwnNames(v: Sides, foreign: Config, i: string, x: string)
    requires x in Own(SiteOf(v, foreign), i)
    ensures
      || (i in v.wanted && x in SectionNames(i, v.wanted[i]))
      || (i in v.recorded && x in SectionNames(i, v.recorded[i]))
  {
    if i in v.wanted { BuiltNames(v.net, i, v.wanted[i]); }
  }

  // No two interface names collide.
  ghost predicate Uncolliding(names: set<string>) {
    forall a, b :: a in names && b in names && a != b ==> !Collide(a, b)
  }

  // No section of these interfaces is foreign.
  ghost predicate NoneForeign(contents: map<string, Interface>, foreign: Config) {
    forall i :: i in contents ==> SectionNames(i, contents[i]) !! foreign.Keys
  }

  lemma OwnedApart(v: Sides, foreign: Config, a: string, b: string)
    requires a != b && !Collide(a, b)
    ensures Own(SiteOf(v, foreign), a) !! Own(SiteOf(v, foreign), b)
  {
    forall x | x in Own(SiteOf(v, foreign), a) ensures x !in Own(SiteOf(v, foreign), b) {
      OwnNames(v, foreign, a, x);
      if x in Own(SiteOf(v, foreign), b) {
        OwnNames(v, foreign, b, x);
        var ia := if a in v.wanted && x in SectionNames(a, v.wanted[a]) then v.wanted[a] else v.recorded[a];
        var ib := if b in v.wanted && x in SectionNames(b, v.wanted[b]) then v.wanted[b] else v.recorded[b];
        NamesDisjoint(a, ia, b, ib);
      }
    }
  }

  lemma OwnedNotForeign(v: Sides, foreign: Config, i: string)
    requires NoneForeign(v.wanted, foreign) && NoneForeign(v.recorded, foreign)
    ensures Own(SiteOf(v, foreign), i) !! foreign.Keys
  {
    forall x | x in Own(SiteOf(v, foreign), i) ensures x !in foreign { OwnNames(v, foreign, i, x); }
  }

  lemma NamesDistinctOwners(s: Site, v: Sides, foreign: Config, names: set<string>)
    requires s == SiteOf(v, foreign) && Uncolliding(names)
    ensures forall a, b :: a in names && b in names && a != b ==> Own(s, a) !! Own(s, b)
  {
    forall a, b | a in names && b in names && a != b ensures Own(s, a) !! Own(s, b) { OwnedApart(v, foreign, a, b); }
  }

  lemma NoneOwnsForeign(s: Site, v: Sides, foreign: Config, names: set<string>)
    requires s == SiteOf(v, foreign) && NoneForeign(v.wanted, foreign) && NoneForeign(v.recorded, foreign)
    ensures forall i :: i in names ==> Own(s, i) !! foreign.Keys
  {
    forall i | i in names ensures Own(s, i) !! foreign.Keys { OwnedNotForeign(v, foreign, i); }
  }

  // Interface names that do not collide keep the section names apart.
  lemma UncollidingApart(net: Net, wanted: map<string, Interface>, state: State, foreign: Config)
    requires Uncolliding(wanted.Keys + state.wg.Keys) && NoneForeign(wanted, foreign)
    requires NoneForeign(Contents(state), foreign)
    ensures Apart(net, wanted, state, foreign)
  {
    var names := wanted.Keys + state.wg.Keys;
    assert names == wanted.Keys + Contents(state).Keys;
    SeparateWhen(SiteFor(net, wanted, state, foreign), SidesOf(net, wanted, state), foreign, names);
  }

  lemma SeparateWhen(s: Site, v: Sides, foreign: Config, names: set<string>)
    requires s == SiteOf(v, foreign) && names == v.wanted.Keys + v.recorded.Keys
    requires Uncolliding(names) && NoneForeign(v.wanted, foreign) && NoneForeign(v.recorded, foreign)
    ensures Separate(s)
  {
    SiteOfIsSite(v, foreign);
    NamesDistinctOwners(s, v, foreign, names);
    NoneOwnsForeign(s, v, foreign, names);
  }

  // Names without an underscore do not collide.
  lemma PlainApart(net: Net, wanted: map<string, Interface>, state: State, foreign: Config)
    requires forall name :: name in wanted.Keys + state.wg.Keys ==> Plain(name)
    requires NoneForeign(wanted, foreign) && NoneForeign(Contents(state), foreign)
    ensures Apart(net, wanted, state, foreign)
  {
    var names := wanted.Keys + state.wg.Keys;
    forall a, b | a in names && b in names && a != b ensures !Collide(a, b) { PlainCollides(a, b); }
    UncollidingApart(net, wanted, state, foreign);
  }

  // ----- runs of successful applies -----

  datatype At = At(cfg: Config, state: State)

  function AfterApply(net: Net, at: At, a: Apply): At {
    At(Run(PlanFrom(net, a.wanted, at.state, a.forceAll), at.cfg), Recording(at.state, a))
  }

  function AfterRun(net: Net, at: At, applies: seq<Apply>): At
    decreases |applies|
  {
    if applies == [] then at else AfterRun(net, AfterApply(net, at, applies[0]), applies[1..])
  }

  // last.json is well formed and the store is the foreign sections and what it records.
  ghost predicate Faithful(net: Net, foreign: Config, at: At) {
    WellRecorded(at.state) && Mirrors(net, Contents(at.state), foreign, at.cfg)
  }

  lemma AllListed(net: Net, wanted: map<string, Interface>, state: State, forceAll: bool)
    ensures ListsAll(SidesOf(net, wanted, state), Entries(wanted, state.wg, forceAll))
  {
    forall name | name in wanted ensures Listed(Entries(wanted, state.wg, forceAll), name) {
      var n := EntryListed(wanted, state, forceAll, name);
    }
  }

  lemma StateOnRecord(net: Net, wanted: map<string, Interface>, state: State)
    requires WellRecorded(state)
    ensures OnRecord(SidesOf(net, wanted, state), state.wg)
  {
    forall name | name in state.wg ensures IsRecord(state.wg, name, Contents(state)[name]) {
      RecordedContent(state, name);
    }
  }

  lemma RecordingOnRecord(net: Net, state: State, a: Apply)
    requires WellRecorded(state)
    ensures OnRecord(Sides(net, a.wanted, a.wanted), Recording(state, a).wg)
  {
    EntriesFit(net, a.wanted, state, a.forceAll);
    AllListed(net, a.wanted, state, a.forceAll);
    StateOnRecord(net, a.wanted, state);
    RecordsWanted(SidesOf(net, a.wanted, state), state.wg, Entries(a.wanted, state.wg, a.forceAll));
  }

  // The new last.json describes exactly the interfaces of the bundle.
  lemma RecordingDescribes(net: Net, state: State, a: Apply)
    requires WellRecorded(state) && ValidContents(a.wanted)
    ensures WellRecorded(Recording(state, a)) && Contents(Recording(state, a)) == a.wanted
  {
    RecordingOnRecord(net, state, a);
    OnRecordDescribes(Sides(net, a.wanted, a.wanted), Recording(state, a));
  }

  lemma OnRecordDescribes(v: Sides, state: State)
    requires OnRecord(v, state.wg) && ValidContents(v.recorded)
    ensures WellRecorded(state) && Contents(state) == v.recorded
  {
    forall name | name in state.wg
      ensures state.wg[name] == Record(v.recorded[name], SectionsFor(name, v.recorded[name]))
      ensures ValidInterface(v.recorded[name])
    {
      assert IsRecord(state.wg, name, v.recorded[name]);
    }
  }

  // uci refuses no command of any apply, whatever the store holds.
  lemma NeverRefused(net: Net, wanted: map<string, Interface>, state: State, forceAll: bool, cfg: Config)
    ensures Accepted(PlanFrom(net, wanted, state, forceAll), cfg)
  {
    EntriesRecordable(wanted, state.wg, forceAll);
    NetworkPlanAccepted(net, Entries(wanted, state.wg, forceAll), cfg);
  }

  // The empty name does no harm in this apply.
  predicate Harmless(wanted: map<string, Interface>, state: State) { EmptyNameOk(wanted, Contents(state)) }

  // After a successful apply of a valid bundle, forced or not, last.json describes the store
  // again if and only if the empty name does no harm.
  lemma ApplyFaithfulIff(net: Net, foreign: Config, at: At, a: Apply)
    requires Faithful(net, foreign, at) && ValidContents(a.wanted) && Apart(net, a.wanted, at.state, foreign)
    requires "" !in foreign
    ensures Faithful(net, foreign, AfterApply(net, at, a)) <==> Harmless(a.wanted, at.state)
  {
    ApplyMirrorsWhen(net, foreign, at, a);
    RecordingDescribes(net, at.state, a);
  }

  lemma ApplyMirrorsWhen(net: Net, foreign: Config, at: At, a: Apply)
    requires Faithful(net, foreign, at) && ValidContents(a.wanted) && Apart(net, a.wanted, at.state, foreign)
    requires "" !in foreign
    ensures Mirrors(net, a.wanted, foreign, AfterApply(net, at, a).cfg) <==> Harmless(a.wanted, at.state)
  {
    DiffFits(net, a.wanted, at.state, a.forceAll, foreign);
    ApartSite(net, a.wanted, at.state, foreign);
    ApplyMirrorsIff(SiteFor(net, a.wanted, at.state, foreign), SidesOf(net, a.wanted, at.state),
                    Entries(a.wanted, at.state.wg, a.forceAll), at.cfg);
  }

  // A successful apply of any valid bundle, forced or not, is never refused, and last.json
  // describes the store again.
  lemma ApplyFaithful(net: Net, foreign: Config, at: At, a: Apply)
    requires Faithful(net, foreign, at) && ValidContents(a.wanted) && Apart(net, a.wanted, at.state, foreign)
    requires Harmless(a.wanted, at.state)
    ensures Accepted(PlanFrom(net, a.wanted, at.state, a.forceAll), at.cfg)
    ensures Faithful(net, foreign, AfterApply(net, at, a))
    ensures Contents(AfterApply(net, at, a).state) == a.wanted
  {
    DiffFits(net, a.wanted, at.state, a.forceAll, foreign);
    ApartSite(net, a.wanted, at.state, foreign);
    ApplyMirrors(SiteFor(net, a.wanted, at.state, foreign), SidesOf(net, a.wanted, at.state),
                 Entries(a.wanted, at.state.wg, a.forceAll), at.cfg);
    RecordingDescribes(net, at.state, a);
  }

  // The interfaces of the last bundle.
  function LastWanted(contents: map<string, Interface>, applies: seq<Apply>): map<string, Interface>
    decreases |applies|
  {
    if applies == [] then contents else LastWanted(applies[0].wanted, applies[1..])
  }

  // Every apply of the run brings valid interfaces and keeps the section names apart.
  ghost predicate GoodRun(net: Net, foreign: Config, at: At, applies: seq<Apply>)
    decreases |applies|
  {
    applies == [] ||
    (&& ValidContents(applies[0].wanted) && Apart(net, applies[0].wanted, at.state, foreign)
     && Harmless(applies[0].wanted, at.state)
     && GoodRun(net, foreign, AfterApply(net, at, applies[0]), applies[1..]))
  }

  lemma {:induction false} RunFaithful(net: Net, foreign: Config, at: At, applies: seq<Apply>)
    requires Faithful(net, foreign, at) && GoodRun(net, foreign, at, applies)
    ensures Faithful(net, foreign, AfterRun(net, at, applies))
    ensures Contents(AfterRun(net, at, applies).state) == LastWanted(Contents(at.state), applies)
    decreases |applies|
  {
    if applies != [] {
      ApplyFaithful(net, foreign, at, applies[0]);
      RunFaithful(net, foreign, AfterApply(net, at, applies[0]), applies[1..]);
    }
  }

  // Building everything from nothing but the foreign sections.
  function RebuiltFrom(net: Net, foreign: Config, wanted: map<string, Interface>): Config {
    Run(PlanFrom(net, wanted, EMPTY_STATE, false), foreign)
  }

  lemma RebuildMirrors(net: Net, foreign: Config, wanted: map<string, Interface>)
    requires ValidContents(wanted) && Apart(net, wanted, EMPTY_STATE, foreign)
    ensures Mirrors(net, wanted, foreign, RebuiltFrom(net, foreign, wanted))
  {
    var start := At(foreign, EMPTY_STATE);
    assert Faithful(net, foreign, start);
    ApplyFaithful(net, foreign, start, Apply(wanted, false, "", NO_FIREWALL));
  }

  // The incremental apply ends exactly where the rebuild does.
  lemma ApplyRefinesRebuild(net: Net, foreign: Config, at: At, a: Apply)
    requires Faithful(net, foreign, at) && ValidContents(a.wanted) && Harmless(a.wanted, at.state)
    requires Apart(net, a.wanted, at.state, foreign) && Apart(net, a.wanted, EMPTY_STATE, foreign)
    ensures AfterApply(net, at, a).cfg == RebuiltFrom(net, foreign, a.wanted)
  {
    ApplyFaithful(net, foreign, at, a);
    RebuildMirrors(net, foreign, a.wanted);
    MirrorsUnique(net, a.wanted, foreign, AfterApply(net, at, a).cfg, RebuiltFrom(net, foreign, a.wanted));
  }

  // ----- retries -----

  function PlansFor(net: Net, wanted: map<string, Interface>, state: State): Plans {
    Plans(PlanFrom(net, wanted, state, false), PlanFrom(net, wanted, state, true))
  }

  lemma ForcedIsAll(net: Net, wanted: map<string, Interface>, state: State, foreign: Config)
    requires Apart(net, wanted, state, foreign) && WellRecorded(state)
    ensures Acted(Entries(wanted, state.wg, true)) == Names(SiteFor(net, wanted, state, foreign))
  {
    ApartSite(net, wanted, state, foreign);
    ForcedActsOnAll(net, wanted, state);
    EntriesFit(net, wanted, state, true);
    ActedOwned(SiteFor(net, wanted, state, foreign), SidesOf(net, wanted, state), Entries(wanted, state.wg, true));
  }

  lemma BothPlansWork(s: Site, v: Sides, ordinary: seq<InterfaceDiff>, forced: seq<InterfaceDiff>)
    requires FitDiff(s, v, ordinary) && FitDiff(s, v, forced) && Acted(forced) == Names(s)
    ensures forall n :: 0 <= n < |ordinary| ==> HasContent(ordinary[n])
    ensures forall n :: 0 <= n < |forced| ==> HasContent(forced[n])
    ensures BothWork(s, Acted(ordinary), Plans(NetworkPlan(v.net, ordinary), NetworkPlan(v.net, forced)))
  {
    DiffPlanWorks(s, v, ordinary);
    DiffPlanWorks(s, v, forced);
    ActedOwned(s, v, ordinary);
  }

  lemma PlansWork(net: Net, wanted: map<string, Interface>, state: State, foreign: Config)
    requires Apart(net, wanted, state, foreign) && WellRecorded(state)
    ensures BothWork(SiteFor(net, wanted, state, foreign), Acted(Entries(wanted, state.wg, false)),
                     PlansFor(net, wanted, state))
  {
    DiffFits(net, wanted, state, false, foreign);
    DiffFits(net, wanted, state, true, foreign);
    ForcedIsAll(net, wanted, state, foreign);
    BothPlansWork(SiteFor(net, wanted, state, foreign), SidesOf(net, wanted, state),
                  Entries(wanted, state.wg, false), Entries(wanted, state.wg, true));
  }

  lemma StartPartial(net: Net, foreign: Config, at: At, wanted: map<string, Interface>)
    requires Faithful(net, foreign, at) && Apart(net, wanted, at.state, foreign) && Harmless(wanted, at.state)
    ensures Partial(SiteFor(net, wanted, at.state, foreign), at.cfg, Acted(Entries(wanted, at.state.wg, false)))
  {
    ApartSite(net, wanted, at.state, foreign);
    DiffFits(net, wanted, at.state, false, foreign);
    RecordedPartial(SiteFor(net, wanted, at.state, foreign), SidesOf(net, wanted, at.state), at.cfg,
                    Acted(Entries(wanted, at.state.wg, false)));
  }

  // After any history of interrupted attempts at one bundle over one last.json, a complete
  // attempt is never refused and ends where a single clean attempt ends.
  lemma RetryEndsClean(net: Net, foreign: Config, at: At, a: Apply, cuts: seq<Cut>)
    requires Faithful(net, foreign, at) && Apart(net, a.wanted, at.state, foreign) && Harmless(a.wanted, at.state)
    requires a.forceAll || Tidy(cuts)
    ensures var left := AfterCuts(PlansFor(net, a.wanted, at.state), Store(at.cfg, at.cfg), cuts).staged;
      var plan := PlanFrom(net, a.wanted, at.state, a.forceAll);
      Accepted(plan, left) && Run(plan, left) == AfterApply(net, at, a).cfg
  {
    PlansWork(net, a.wanted, at.state, foreign);
    StartPartial(net, foreign, at, a.wanted);
    RetryConverges(SiteFor(net, a.wanted, at.state, foreign), Acted(Entries(a.wanted, at.state.wg, false)),
                   PlansFor(net, a.wanted, at.state), at.cfg, cuts, a.forceAll);
  }
}
