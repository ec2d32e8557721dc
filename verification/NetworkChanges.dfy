/** Applies over what attempts at other bundles left behind: the exact condition on the store,
    and the sections that a replaced bundle leaves for good.
  */
module NetworkChanges {
  import opened Text
  import opened Bundle
  import opened Uci
  import opened InterfaceBatch
  import opened InterfaceSections
  import opened Last
  import opened DiffTypes
  import opened ApplyPlan
  import opened Convergence
  import opened NetworkProofs
  import opened Retry
  import opened Rebuild
  import opened Leftovers
  import opened NetworkRuns
  import opened NetworkHistory

  // ----- what a store must be for an apply to end as wanted -----

  // The deletion of a recorded interface covers section x.
  ghost predicate Deletable(contents: map<string, Interface>, x: string) {
    exists i :: i in contents && x in Covered(i, contents[i])
  }

  // The foreign sections aside, there are only sections that the bundle names or that are
  // deleted through last.json.
  ghost predicate AllClaimed(wanted: map<string, Interface>, recorded: map<string, Interface>, foreign: Config,
                             cfg: Config) {
    forall x :: x in cfg ==> x in foreign || Named(wanted, x) || Deletable(recorded, x)
  }

  ghost function CoveredBy(contents: map<string, Interface>, name: string): set<string> {
    if name in contents then Covered(name, contents[name]) else {}
  }

  // No section that is created without being deleted first holds an option not set then.
  ghost predicate Unburdened(built: Config, covered: set<string>, cfg: Config) {
    forall x :: x in built && x !in covered && x in cfg ==> cfg[x].options.Keys <= built[x].options.Keys
  }

  ghost predicate AllUnburdened(net: Net, wanted: map<string, Interface>, recorded: map<string, Interface>,
                                cfg: Config) {
    forall i :: i in wanted ==> Unburdened(Built(net, i, wanted[i]), CoveredBy(recorded, i), cfg)
  }

  // The foreign sections are there, and every other section is claimed; what an unforced apply
  // skips is intact; and nothing burdens what the apply creates.
  ghost predicate Resumable(net: Net, foreign: Config, wanted: map<string, Interface>, state: State, forceAll: bool,
                            cfg: Config) {
    && Within(foreign, cfg) && AllClaimed(wanted, Contents(state), foreign, cfg)
    && (forceAll || UnalteredHold(SidesOf(net, wanted, state), cfg))
    && AllUnburdened(net, wanted, Contents(state), cfg)
  }

  lemma KnownIff(s: Site, v: Sides, x: string)
    requires IsSite(s, v)
    ensures Known(s, x) <==> x in s.foreign || Named(v.wanted, x) || Deletable(v.recorded, x)
  {
    if x !in s.foreign && Known(s, x) {
      var i :| i in Names(s) && x in Own(s, i);
      if x in Wanted(s, i) { WantedNamed(s, v, i, x); } else { assert RecordedAt(s, v, i); }
    }
    if Named(v.wanted, x) {
      var i :| i in v.wanted && x in SectionNames(i, v.wanted[i]);
      assert WantedAt(s, v, i);
      BuiltNames(v.net, i, v.wanted[i]);
      assert i in Names(s) && x in Own(s, i);
    }
    if Deletable(v.recorded, x) {
      var i :| i in v.recorded && x in Covered(i, v.recorded[i]);
      CoveredKnown(s, v, i, x);
    }
  }

  lemma WantedNamed(s: Site, v: Sides, i: string, x: string)
    requires IsSite(s, v) && x in Wanted(s, i)
    ensures Named(v.wanted, x)
  {
    assert WantedAt(s, v, i);
    BuiltNames(v.net, i, v.wanted[i]);
  }

  lemma SiteAt(s: Site, v: Sides, i: string)
    requires IsSite(s, v)
    ensures i in v.wanted ==> Target(s, i) == Built(v.net, i, v.wanted[i])
    ensures Recorded(s, i) == CoveredBy(v.recorded, i)
  {
    if i in v.wanted { assert WantedAt(s, v, i); }
    if i in v.recorded { assert RecordedAt(s, v, i); }
  }

  lemma NoLeftoverIff(s: Site, cfg: Config, i: string)
    ensures NoLeftover(s, cfg, i) <==> Unburdened(Target(s, i), Recorded(s, i), cfg)
  {
  }

  // What has to hold of one wanted interface.
  ghost predicate PartFits(v: Sides, cfg: Config, acted: set<string>, i: string)
    requires i in v.wanted
  {
    && (i !in acted ==> Holds(v.net, i, v.wanted[i], cfg))
    && Unburdened(Built(v.net, i, v.wanted[i]), CoveredBy(v.recorded, i), cfg)
  }

  lemma HeldUnburdened(s: Site, v: Sides, cfg: Config, i: string)
    requires Intact(s, cfg, i)
    ensures Unburdened(Target(s, i), Recorded(s, i), cfg)
  {
  }

  lemma WantedPartIff(s: Site, v: Sides, cfg: Config, acted: set<string>, i: string)
    requires IsSite(s, v) && i in v.wanted && (i !in acted ==> Unaltered(v, i))
    ensures PartOk(s, cfg, acted, i) <==> PartFits(v, cfg, acted, i)
  {
    SiteAt(s, v, i);
    if i in acted {
      NoLeftoverIff(s, cfg, i);
    } else {
      UnalteredSettled(s, v, i);
      IntactHolds(s, v, cfg, i);
      if Intact(s, cfg, i) { HeldUnburdened(s, v, cfg, i); }
    }
  }

  lemma RemovedPart(s: Site, v: Sides, cfg: Config, acted: set<string>, i: string)
    requires IsSite(s, v) && i in acted && i !in v.wanted
    ensures PartOk(s, cfg, acted, i)
  {
  }

  ghost predicate AllPartsOk(s: Site, cfg: Config, acted: set<string>) {
    forall i :: i in Names(s) ==> PartOk(s, cfg, acted, i)
  }

  ghost predicate AllPartsFit(v: Sides, cfg: Config, acted: set<string>) {
    forall i :: i in v.wanted ==> PartFits(v, cfg, acted, i)
  }

  lemma PartsIff(s: Site, v: Sides, cfg: Config, acted: set<string>)
    requires IsSite(s, v) && forall i :: i in Names(s) && i !in acted ==> Unaltered(v, i)
    ensures AllPartsOk(s, cfg, acted) <==> AllPartsFit(v, cfg, acted)
  {
    forall i | i in v.wanted ensures PartOk(s, cfg, acted, i) <==> PartFits(v, cfg, acted, i) {
      WantedPartIff(s, v, cfg, acted, i);
    }
    forall i | i in Names(s) && i !in v.wanted ensures PartOk(s, cfg, acted, i) { RemovedPart(s, v, cfg, acted, i); }
  }

  ghost predicate AllSectionsKnown(s: Site, cfg: Config) { forall x :: x in cfg ==> Known(s, x) }

  lemma ThreeParts(s: Site, cfg: Config, acted: set<string>)
    ensures Partial(s, cfg, acted) <==> Within(s.foreign, cfg) && AllSectionsKnown(s, cfg) && AllPartsOk(s, cfg, acted)
  {
  }

  lemma ClaimedIff(s: Site, v: Sides, cfg: Config)
    requires IsSite(s, v)
    ensures AllSectionsKnown(s, cfg) <==> AllClaimed(v.wanted, v.recorded, s.foreign, cfg)
  {
    forall x ensures Known(s, x) <==> x in s.foreign || Named(v.wanted, x) || Deletable(v.recorded, x) {
      KnownIff(s, v, x);
    }
  }

  // The interfaces that the diff leaves out are the unaltered ones, if it is not forced.
  lemma SkippedHoldIff(net: Net, wanted: map<string, Interface>, state: State, forceAll: bool, cfg: Config)
    requires WellRecorded(state)
    ensures var acted := Acted(Entries(wanted, state.wg, forceAll));
      (forall i :: i in wanted && i !in acted ==> Holds(net, i, wanted[i], cfg))
      <==> forceAll || UnalteredHold(SidesOf(net, wanted, state), cfg)
  {
    forall i | i in wanted
      ensures i !in Acted(Entries(wanted, state.wg, forceAll))
        <==> !forceAll && Unaltered(SidesOf(net, wanted, state), i)
    {
      SkippedUnaltered(net, wanted, state, forceAll, i);
    }
  }

  lemma PartsFitIff(net: Net, wanted: map<string, Interface>, state: State, forceAll: bool, cfg: Config)
    requires WellRecorded(state)
    ensures AllPartsFit(SidesOf(net, wanted, state), cfg, Acted(Entries(wanted, state.wg, forceAll))) <==>
      && (forceAll || UnalteredHold(SidesOf(net, wanted, state), cfg))
      && AllUnburdened(net, wanted, Contents(state), cfg)
  {
    SkippedHoldIff(net, wanted, state, forceAll, cfg);
  }

  lemma PartialIff(s: Site, v: Sides, cfg: Config, acted: set<string>)
    requires IsSite(s, v) && forall i :: i in Names(s) && i !in acted ==> Unaltered(v, i)
    ensures Partial(s, cfg, acted)
      <==> Within(s.foreign, cfg) && AllClaimed(v.wanted, v.recorded, s.foreign, cfg) && AllPartsFit(v, cfg, acted)
  {
    ThreeParts(s, cfg, acted);
    ClaimedIff(s, v, cfg);
    PartsIff(s, v, cfg, acted);
  }

  lemma ResumablePartial(net: Net, foreign: Config, wanted: map<string, Interface>, state: State, forceAll: bool,
                         cfg: Config)
    requires Apart(net, wanted, state, foreign) && WellRecorded(state)
    ensures Resumable(net, foreign, wanted, state, forceAll, cfg)
      <==> Partial(SiteFor(net, wanted, state, foreign), cfg, Acted(Entries(wanted, state.wg, forceAll)))
  {
    ApartSite(net, wanted, state, foreign);
    DiffFits(net, wanted, state, forceAll, foreign);
    PartialIff(SiteFor(net, wanted, state, foreign), SidesOf(net, wanted, state), cfg,
               Acted(Entries(wanted, state.wg, forceAll)));
    PartsFitIff(net, wanted, state, forceAll, cfg);
  }

  // On any store whatever -- left by attempts at other bundles, forced or not, cut anywhere,
  // committed or not -- an apply ends in the wanted store if and only if it is resumable.
  lemma ResumesIff(net: Net, foreign: Config, wanted: map<string, Interface>, state: State, forceAll: bool, cfg: Config)
    requires Apart(net, wanted, state, foreign) && WellRecorded(state) && ValidContents(wanted)
    ensures Mirrors(net, wanted, foreign, Run(PlanFrom(net, wanted, state, forceAll), cfg))
      <==> Resumable(net, foreign, wanted, state, forceAll, cfg)
  {
    var s, v := SiteFor(net, wanted, state, foreign), SidesOf(net, wanted, state);
    ApartSite(net, wanted, state, foreign);
    DiffFits(net, wanted, state, forceAll, foreign);
    DescribesIffPartial(s, v, Entries(wanted, state.wg, forceAll), cfg);
    ResumablePartial(net, foreign, wanted, state, forceAll, cfg);
    var r := Run(PlanFrom(net, wanted, state, forceAll), cfg);
    if Mirrors(net, wanted, foreign, r) { MirrorsDescribed(s, v, r); }
    if Describes(s, r) { DescribedMirrors(s, v, r); }
  }

  // ----- what a replaced bundle leaves for good -----

  // No apply deletes a section that neither its bundle nor last.json names.
  lemma OrphanStays(net: Net, wanted: map<string, Interface>, state: State, forceAll: bool, cfg: Config, x: string)
    requires WellRecorded(state) && !Named(wanted, x) && !Named(Contents(state), x)
    ensures SameAt(Run(PlanFrom(net, wanted, state, forceAll), cfg), cfg, x)
  {
    PlanAvoids(net, wanted, state, forceAll, x);
    RunElsewhere(PlanFrom(net, wanted, state, forceAll), cfg, x);
  }

  // What the commit of an unrecorded apply has put there.
  lemma CommittedHolds(net: Net, foreign: Config, at: At, a: Apply, i: string, x: string)
    requires Faithful(net, foreign, at) && ValidContents(a.wanted) && Apart(net, a.wanted, at.state, foreign)
    requires Harmless(a.wanted, at.state) && i in a.wanted && x in SectionNames(i, a.wanted[i])
    ensures x in Run(PlanFrom(net, a.wanted, at.state, a.forceAll), at.cfg) && x !in foreign
  {
    ApplyFaithful(net, foreign, at, a);
    assert Holds(net, i, a.wanted[i], AfterApply(net, at, a).cfg);
    BuiltNames(net, i, a.wanted[i]);
    NamedNotForeign(net, foreign, at.state, a.wanted, i, x);
  }

  lemma UnnamedNotMirrored(net: Net, foreign: Config, wanted: map<string, Interface>, cfg: Config, x: string)
    requires x in cfg && x !in foreign && !Named(wanted, x)
    ensures !Mirrors(net, wanted, foreign, cfg)
  {
    assert !Belongs(wanted, foreign, x);
  }

  // A bundle whose network commit went through but that never reached last.json is replaced:
  // every section of it that the new bundle does not name stays, and the new bundle's apply
  // misses the wanted store.
  lemma ReplacedBundleOrphans(net: Net, foreign: Config, at: At, a: Apply, b: Apply, i: string, x: string)
    requires Faithful(net, foreign, at) && ValidContents(a.wanted) && Apart(net, a.wanted, at.state, foreign)
    requires Harmless(a.wanted, at.state) && i in a.wanted && x in SectionNames(i, a.wanted[i])
    requires !Named(b.wanted, x) && !Named(Contents(at.state), x)
    ensures var left := Run(PlanFrom(net, a.wanted, at.state, a.forceAll), at.cfg);
      var r := Run(PlanFrom(net, b.wanted, at.state, b.forceAll), left);
      x in r && !Mirrors(net, b.wanted, foreign, r)
  {
    var left := Run(PlanFrom(net, a.wanted, at.state, a.forceAll), at.cfg);
    CommittedHolds(net, foreign, at, a, i, x);
    OrphanStays(net, b.wanted, at.state, b.forceAll, left, x);
    UnnamedNotMirrored(net, foreign, b.wanted, Run(PlanFrom(net, b.wanted, at.state, b.forceAll), left), x);
  }

  lemma NamedNotForeign(net: Net, foreign: Config, state: State, wanted: map<string, Interface>, i: string, x: string)
    requires Apart(net, wanted, state, foreign) && i in wanted && x in SectionNames(i, wanted[i])
    ensures x !in foreign
  {
    ApartSite(net, wanted, state, foreign);
    BuiltNames(net, i, wanted[i]);
    NotForeign(SiteFor(net, wanted, state, foreign), i, x);
  }

  // An interface with one peer.
  function WithPeer(peer: string): Interface {
    Interface("key", None, Some(["10.0.0.1/24"]), None, None, None, None, None, None,
              Some(map[peer := Peer("peer key", None, Some(["0.0.0.0/0"]), None, None, None)]))
  }

  lemma PeerNames(peer: string)
    ensures ValidInterface(WithPeer(peer))
    ensures SectionNames("wg0", WithPeer(peer)) == {"wg0", PeerSectionName("wg0", peer)}
  {
    var i := WithPeer(peer);
    forall s ensures s in SectionNames("wg0", i) <==> s == "wg0" || s == PeerSectionName("wg0", peer) {
      if s in SectionNames("wg0", i) { var k := NamesHaveKinds("wg0", i, s); }
      KindHasName("wg0", i, Itself);
      KindHasName("wg0", i, PeerNamed(peer));
    }
  }

  // A fresh node without foreign sections.
  const FRESH := At(map[], EMPTY_STATE)

  lemma OneNameApart(net: Net, wanted: map<string, Interface>)
    requires wanted.Keys == {"wg0"}
    ensures Apart(net, wanted, EMPTY_STATE, map[]) && Harmless(wanted, EMPTY_STATE) && Faithful(net, map[], FRESH)
  {
    assert Contents(EMPTY_STATE) == map[];
    OneNameUncolliding(wanted);
    UncollidingApart(net, wanted, EMPTY_STATE, map[]);
  }

  lemma OneNameUncolliding(wanted: map<string, Interface>)
    requires wanted.Keys == {"wg0"}
    ensures Uncolliding(wanted.Keys + EMPTY_STATE.wg.Keys)
  {
  }

  lemma OneUnnamed(b: map<string, Interface>, x: string)
    requires b.Keys == {"wg0"} && x !in SectionNames("wg0", b["wg0"])
    ensures !Named(b, x) && !Named(Contents(EMPTY_STATE), x)
  {
  }

  // x is left in the store when b follows a on a fresh node, and b's apply misses its store.
  ghost predicate Orphaned(net: Net, a: Apply, b: Apply, x: string) {
    var left := Run(PlanFrom(net, a.wanted, EMPTY_STATE, a.forceAll), map[]);
    var r := Run(PlanFrom(net, b.wanted, EMPTY_STATE, b.forceAll), left);
    x in r && !Mirrors(net, b.wanted, map[], r)
  }

  ghost predicate OnlyHas(wanted: map<string, Interface>, i: Interface) { wanted.Keys == {"wg0"} && wanted["wg0"] == i }

  lemma OnlyValid(wanted: map<string, Interface>, i: Interface)
    requires OnlyHas(wanted, i) && ValidInterface(i)
    ensures ValidContents(wanted)
  {
  }

  lemma FreshOrphan(net: Net, a: Apply, b: Apply, first: Interface, second: Interface, x: string)
    requires OnlyHas(a.wanted, first) && OnlyHas(b.wanted, second) && ValidInterface(first)
    requires x in SectionNames("wg0", first) && x !in SectionNames("wg0", second)
    ensures Orphaned(net, a, b, x)
  {
    OnlyValid(a.wanted, first);
    OneNameApart(net, a.wanted);
    OneUnnamed(b.wanted, x);
    ReplacedBundleOrphans(net, map[], FRESH, a, b, "wg0", x);
  }

  lemma OwnPeer(peer: string, other: string)
    requires peer != other
    ensures PeerSectionName("wg0", peer) in SectionNames("wg0", WithPeer(peer))
    ensures PeerSectionName("wg0", peer) !in SectionNames("wg0", WithPeer(other))
  {
    PeerNames(peer);
    PeerNames(other);
    var x := PeerSectionName("wg0", peer);
    assert |x| > 3;
    if x == PeerSectionName("wg0", other) { KindInjective("wg0", PeerNamed(peer), PeerNamed(other)); }
  }

  // The input: on a fresh node the network commit of wg0 with one peer goes through, and a later
  // step fails; then the bundle has another peer in its place.  The section of the first stays.
  lemma WithdrawnPeerStays(net: Net, a: Apply, b: Apply, peer: string, other: string)
    requires peer != other && OnlyHas(a.wanted, WithPeer(peer)) && OnlyHas(b.wanted, WithPeer(other))
    ensures ValidContents(a.wanted) && ValidContents(b.wanted) && Orphaned(net, a, b, PeerSectionName("wg0", peer))
  {
    PeerNames(peer);
    PeerNames(other);
    OwnPeer(peer, other);
    OnlyValid(a.wanted, WithPeer(peer));
    OnlyValid(b.wanted, WithPeer(other));
    FreshOrphan(net, a, b, WithPeer(peer), WithPeer(other), PeerSectionName("wg0", peer));
  }
}
