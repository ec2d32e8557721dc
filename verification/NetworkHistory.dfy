/** Arbitrary histories of attempts over the network config: the exact condition under which an
    ordinary retry converges, and the sections that no history touches.
  */
module NetworkHistory {
  import opened Text
  import opened Bundle
  import opened Uci
  import opened InterfaceBatch
  import opened InterfaceSections
  import opened Last
  import opened DiffTypes
  import opened ApplyPlan
  import opened Convergence
  import opened NetworkProofs
  import opened Retry
  import opened Rebuild
  import opened Leftovers
  import opened NetworkRuns

  // ----- ordinary retries, exactly -----

  lemma MirrorsDescribed(s: Site, v: Sides, cfg: Config)
    requires IsSite(s, v) && Mirrors(v.net, v.wanted, s.foreign, cfg)
    ensures Describes(s, cfg)
  {
    AllIntact(s, v, cfg);
    AllWanted(s, v, cfg);
  }

  // The interfaces that are wanted as recorded have their sections.
  ghost predicate UnalteredHold(v: Sides, cfg: Config) {
    forall i :: Unaltered(v, i) ==> Holds(v.net, i, v.wanted[i], cfg)
  }

  lemma SkippedIff(net: Net, wanted: map<string, Interface>, state: State, foreign: Config, i: string)
    requires Apart(net, wanted, state, foreign) && WellRecorded(state)
    ensures i in Names(SiteFor(net, wanted, state, foreign)) && i !in Acted(Entries(wanted, state.wg, false))
       <==> Unaltered(SidesOf(net, wanted, state), i)
  {
    ApartSite(net, wanted, state, foreign);
    if i in wanted || i in state.wg { SkippedUnaltered(net, wanted, state, false, i); }
  }

  lemma SkippedThenHold(net: Net, wanted: map<string, Interface>, state: State, foreign: Config, cfg: Config)
    requires Apart(net, wanted, state, foreign) && WellRecorded(state)
    requires SkippedIntact(SiteFor(net, wanted, state, foreign), Acted(Entries(wanted, state.wg, false)), cfg)
    ensures UnalteredHold(SidesOf(net, wanted, state), cfg)
  {
    ApartSite(net, wanted, state, foreign);
    forall i | Unaltered(SidesOf(net, wanted, state), i) ensures Holds(net, i, wanted[i], cfg) {
      SkippedIff(net, wanted, state, foreign, i);
      IntactHolds(SiteFor(net, wanted, state, foreign), SidesOf(net, wanted, state), cfg, i);
    }
  }

  lemma HoldThenSkipped(net: Net, wanted: map<string, Interface>, state: State, foreign: Config, cfg: Config)
    requires Apart(net, wanted, state, foreign) && WellRecorded(state)
    requires UnalteredHold(SidesOf(net, wanted, state), cfg)
    ensures SkippedIntact(SiteFor(net, wanted, state, foreign), Acted(Entries(wanted, state.wg, false)), cfg)
  {
    var s, v := SiteFor(net, wanted, state, foreign), SidesOf(net, wanted, state);
    ApartSite(net, wanted, state, foreign);
    forall i | i in Names(s) && i !in Acted(Entries(wanted, state.wg, false)) ensures Intact(s, cfg, i) {
      SkippedIff(net, wanted, state, foreign, i);
      IntactHolds(s, v, cfg, i);
    }
  }

  lemma LeftPartial(net: Net, foreign: Config, at: At, wanted: map<string, Interface>, cuts: seq<Cut>)
    requires Faithful(net, foreign, at) && Apart(net, wanted, at.state, foreign) && Harmless(wanted, at.state)
    ensures var s := SiteFor(net, wanted, at.state, foreign);
      Partial(s, AfterCuts(PlansFor(net, wanted, at.state), Store(at.cfg, at.cfg), cuts).staged, Names(s))
  {
    var s, acted := SiteFor(net, wanted, at.state, foreign), Acted(Entries(wanted, at.state.wg, false));
    PlansWork(net, wanted, at.state, foreign);
    StartPartial(net, foreign, at, wanted);
    Widen(s, at.cfg, acted, Names(s));
    AnyCuts(s, acted, PlansFor(net, wanted, at.state), Store(at.cfg, at.cfg), cuts);
  }

  // After any history of interrupted attempts, forced ones included, an ordinary attempt ends
  // in the wanted store if and only if the interfaces it skips are intact when it starts.
  lemma OrdinaryRetryIff(net: Net, foreign: Config, at: At, wanted: map<string, Interface>, cuts: seq<Cut>)
    requires Faithful(net, foreign, at) && Apart(net, wanted, at.state, foreign) && Harmless(wanted, at.state)
    ensures var left := AfterCuts(PlansFor(net, wanted, at.state), Store(at.cfg, at.cfg), cuts).staged;
      Mirrors(net, wanted, foreign, Run(PlanFrom(net, wanted, at.state, false), left))
      <==> UnalteredHold(SidesOf(net, wanted, at.state), left)
  {
    var s, v := SiteFor(net, wanted, at.state, foreign), SidesOf(net, wanted, at.state);
    var left := AfterCuts(PlansFor(net, wanted, at.state), Store(at.cfg, at.cfg), cuts).staged;
    var r := Run(PlanFrom(net, wanted, at.state, false), left);
    LeftPartial(net, foreign, at, wanted, cuts);
    PlansWork(net, wanted, at.state, foreign);
    OrdinaryConvergesIff(s, Acted(Entries(wanted, at.state.wg, false)), PlansFor(net, wanted, at.state), left);
    ApartSite(net, wanted, at.state, foreign);
    if UnalteredHold(v, left) {
      HoldThenSkipped(net, wanted, at.state, foreign, left);
      DescribedMirrors(s, v, r);
    }
    if Mirrors(net, wanted, foreign, r) {
      MirrorsDescribed(s, v, r);
      SkippedThenHold(net, wanted, at.state, foreign, left);
    }
  }

  // ----- sections that nobody names -----

  // One attempt of a history: it completes, or it is cut short.
  datatype Event = Completed(apply: Apply) | Interrupted(apply: Apply, cut: Cut)

  datatype Condition = Condition(store: Store, state: State)

  function AfterEvent(net: Net, c: Condition, e: Event): Condition {
    var plan := PlanFrom(net, e.apply.wanted, c.state, e.apply.forceAll);
    match e
    case Completed(a) => Condition(Store(Run(plan, c.store.staged), Run(plan, c.store.staged)), Recording(c.state, a))
    case Interrupted(_, cut) => Condition(AfterCut(plan, c.store, cut), c.state)
  }

  function AfterHistory(net: Net, c: Condition, events: seq<Event>): Condition
    decreases |events|
  {
    if events == [] then c else AfterHistory(net, AfterEvent(net, c, events[0]), events[1..])
  }

  ghost predicate Named(contents: map<string, Interface>, x: string) {
    exists i :: i in contents && x in SectionNames(i, contents[i])
  }

  lemma UnnamedOwn(v: Sides, x: string, i: string)
    requires !Named(v.wanted, x) && !Named(v.recorded, x)
    ensures x !in Own(SiteOf(v, map[]), i)
  {
    if x in Own(SiteOf(v, map[]), i) { OwnNames(v, map[], i, x); }
  }

  lemma PlanAvoids(net: Net, wanted: map<string, Interface>, state: State, forceAll: bool, x: string)
    requires WellRecorded(state) && !Named(wanted, x) && !Named(Contents(state), x)
    ensures Avoids(PlanFrom(net, wanted, state, forceAll), x)
  {
    var v := SidesOf(net, wanted, state);
    var ds := Entries(wanted, state.wg, forceAll);
    SiteOfIsSite(v, map[]);
    EntriesFit(net, wanted, state, forceAll);
    NetworkPlanSafe(SiteOf(v, map[]), v, ds, Acted(ds));
    forall i ensures x !in Own(SiteOf(v, map[]), i) { UnnamedOwn(v, x, i); }
    SafeAvoids(SiteOf(v, map[]), Acted(ds), PlanFrom(net, wanted, state, forceAll), x);
  }

  ghost predicate SameInBoth(n: Store, cfg: Config, x: string) {
    SameAt(n.staged, cfg, x) && SameAt(n.committed, cfg, x)
  }

  lemma PrefixAvoids(plan: seq<Step>, k: nat, x: string)
    requires Avoids(plan, x)
    ensures Avoids(Prefix(plan, k), x)
  {
    if k <= |plan| { assert forall n :: 0 <= n < k ==> plan[..k][n] == plan[n]; }
  }

  lemma CutAvoids(plan: seq<Step>, n: Store, c: Cut, cfg: Config, x: string)
    requires Avoids(plan, x) && SameInBoth(n, cfg, x)
    ensures SameInBoth(AfterCut(plan, n, c), cfg, x)
  {
    PrefixAvoids(plan, c.steps, x);
    RunElsewhere(plan, n.staged, x);
    RunElsewhere(Prefix(plan, c.steps), n.staged, x);
  }

  // last.json is well formed and does not name x.
  ghost predicate Unclaimed(c: Condition, x: string) {
    WellRecorded(c.state) && !Named(Contents(c.state), x)
  }

  lemma EventLeavesStore(net: Net, c: Condition, e: Event, cfg: Config, x: string)
    requires Unclaimed(c, x) && !Named(e.apply.wanted, x) && SameInBoth(c.store, cfg, x)
    ensures SameInBoth(AfterEvent(net, c, e).store, cfg, x)
  {
    var plan := PlanFrom(net, e.apply.wanted, c.state, e.apply.forceAll);
    PlanAvoids(net, e.apply.wanted, c.state, e.apply.forceAll, x);
    CutAvoids(plan, c.store, if e.Interrupted? then e.cut else Cut(e.apply.forceAll, 0, false, true), cfg, x);
  }

  lemma EventLeavesUnclaimed(net: Net, c: Condition, e: Event, x: string)
    requires Unclaimed(c, x) && ValidContents(e.apply.wanted) && !Named(e.apply.wanted, x)
    ensures Unclaimed(AfterEvent(net, c, e), x)
  {
    if e.Completed? {
      RecordingDescribes(net, c.state, e.apply);
      assert Contents(Recording(c.state, e.apply)).Keys == Recording(c.state, e.apply).wg.Keys;
    }
  }

  // A section that neither last.json nor any fetched bundle names is never altered, staged or
  // committed, by any history of complete and interrupted attempts.
  lemma {:induction false} UnnamedUntouched(net: Net, c: Condition, events: seq<Event>, cfg: Config, x: string)
    requires Unclaimed(c, x) && SameInBoth(c.store, cfg, x)
    requires forall e :: e in events ==> ValidContents(e.apply.wanted) && !Named(e.apply.wanted, x)
    ensures SameInBoth(AfterHistory(net, c, events).store, cfg, x)
    decreases |events|
  {
    if events != [] {
      assert events[0] in events;
      EventLeavesStore(net, c, events[0], cfg, x);
      EventLeavesUnclaimed(net, c, events[0], x);
      UnnamedUntouched(net, AfterEvent(net, c, events[0]), events[1..], cfg, x);
    }
  }
}
