/** The whole agent at rest, and what an apply does to it.

    Main result: over every run of bundles, each applied after any number of recoverable
    failures, the agent comes to rest with the content of the last bundle.
  */
module SteadyAgent {
  import opened Text
  import opened Bundle
  import opened Uci
  import opened InterfaceBatch
  import opened Last
  import opened DiffTypes
  import opened ApplyPlan
  import opened Retry
  import opened Rebuild
  import opened NetworkRuns
  import opened Firewall
  import F = FirewallRuns
  import H = FirewallHistory
  import opened NetworkChanges
  import Z = FirewallChanges
  import W = World

  // The sections that are not the agent's, in the two configs.
  datatype Foreign = Foreign(network: Config, firewall: Config)

  predicate FileHolds(file: Option<string>, text: string) { file == if text == "" then None else Some(text) }

  // Nothing staged; the network is the foreign sections and the recorded interfaces; the
  // firewall zone lists the recorded interfaces; the stunmesh file holds the recorded text.
  ghost predicate Steady(net: Net, foreign: Foreign, w: W.World, state: State) {
    && Read(w.last) == Some(state)
    && AtRest(w.network) && Faithful(net, foreign.network, At(w.network.committed, state))
    && AtRest(w.firewall) && F.Usable(foreign.firewall)
    && F.FirewallOk(foreign.firewall, state.wg.Keys, state.firewall, w.firewall.committed)
    && FileHolds(w.stunmesh, state.stunmesh)
  }

  datatype Content = Content(wanted: map<string, Interface>, text: string)

  function DiffFor(c: Content, state: State, forceAll: bool): Diff {
    Diff(Entries(c.wanted, state.wg, forceAll), DiffStunmesh(c.text, state.stunmesh, forceAll), c.text)
  }

  lemma DiffForUsable(c: Content, state: State, forceAll: bool)
    ensures W.Usable(DiffFor(c, state, forceAll), state)
  {
    EntriesRecordable(c.wanted, state.wg, forceAll);
    NamesDistinct(c.wanted, state.wg, forceAll, Sorted(c.wanted.Keys + state.wg.Keys));
  }

  lemma NamesDistinct(wanted: map<string, Interface>, recorded: map<string, Record>, forceAll: bool, names: seq<string>)
    requires OnEitherSide(names, wanted, recorded) && Increasing(names)
    ensures W.DistinctNames(EntriesOf(wanted, recorded, forceAll, names))
  {
    IncreasingDistinct(names);
    forall n | 0 <= n < |names| ensures EntriesOf(wanted, recorded, forceAll, names)[n].name == names[n] {
      NameOnSide(names, wanted, recorded, n);
    }
  }

  function ApplyOf(c: Content, forceAll: bool, fw: FirewallState): Apply { Apply(c.wanted, forceAll, c.text, fw) }

  function After(net: Net, w: W.World, c: Content, state: State, forceAll: bool): W.World {
    DiffForUsable(c, state, forceAll);
    W.Applied(net, w, DiffFor(c, state, forceAll), state)
  }

  function Part(w: W.World, c: Content, state: State, forceAll: bool): Outcome {
    W.FirewallPart(w, DiffFor(c, state, forceAll), state)
  }

  function Next(w: W.World, c: Content, state: State, forceAll: bool): State {
    Recording(state, ApplyOf(c, forceAll, Part(w, c, state, forceAll).record))
  }

  // ----- one attempt that runs through -----

  lemma ContentsKeys(state: State)
    ensures Contents(state).Keys == state.wg.Keys
  {
  }

  // The new last.json, whatever the store.
  lemma NextDescribes(w: W.World, net: Net, c: Content, state: State, forceAll: bool)
    requires WellRecorded(state) && ValidContents(c.wanted)
    ensures var next := Next(w, c, state, forceAll);
      && WellRecorded(next) && Contents(next) == c.wanted && next.wg.Keys == c.wanted.Keys
      && next.stunmesh == c.text && next.firewall == Part(w, c, state, forceAll).record
  {
    RecordingDescribes(net, state, ApplyOf(c, forceAll, Part(w, c, state, forceAll).record));
    ContentsKeys(Next(w, c, state, forceAll));
  }

  // ----- failed attempts -----

  // One failed attempt: what it was to apply, where it stopped, and what it left.
  datatype Try = Try(content: Content, cut: Cut, firewallCut: Cut, after: W.World)

  function DiffOfTry(t: Try, state: State): Diff { DiffFor(t.content, state, t.cut.forceAll) }

  // Failed attempts one after another, at one bundle or at bundles that replace each other.
  ghost predicate Tries(net: Net, w: W.World, state: State, tries: seq<Try>)
    decreases |tries|
  {
    tries == [] ||
    (&& W.Usable(DiffOfTry(tries[0], state), state)
     && W.Interrupted(net, w, DiffOfTry(tries[0], state), state, tries[0].after, tries[0].cut, tries[0].firewallCut)
     && Tries(net, tries[0].after, state, tries[1..]))
  }

  // Which mode a cut names does not matter to what it leaves, so every failed apply is a try.
  lemma ModeIgnored(net: Net, w: W.World, diff: Diff, state: State, after: W.World, cut: Cut, firewallCut: Cut,
                    forceAll: bool)
    requires W.Usable(diff, state) && W.Interrupted(net, w, diff, state, after, cut, firewallCut)
    ensures W.Interrupted(net, w, diff, state, after, cut.(forceAll := forceAll), firewallCut)
  {
  }

  lemma FailedIsTry(net: Net, w: W.World, c: Content, state: State, forceAll: bool, after: W.World, cut: Cut,
                    firewallCut: Cut)
    requires W.Usable(DiffFor(c, state, forceAll), state)
    requires W.Interrupted(net, w, DiffFor(c, state, forceAll), state, after, cut, firewallCut)
    ensures Tries(net, w, state, [Try(c, cut.(forceAll := forceAll), firewallCut, after)])
  {
    ModeIgnored(net, w, DiffFor(c, state, forceAll), state, after, cut, firewallCut, forceAll);
  }

  function Left(w: W.World, tries: seq<Try>): W.World
    decreases |tries|
  {
    if tries == [] then w else Left(tries[0].after, tries[1..])
  }

  // The failed attempts leave last.json as it was.
  lemma {:induction false} TriesKeepLast(net: Net, w: W.World, state: State, tries: seq<Try>)
    requires Tries(net, w, state, tries)
    ensures Left(w, tries).last == w.last
    decreases |tries|
  {
    if tries != [] { TriesKeepLast(net, tries[0].after, state, tries[1..]); }
  }

  function FailureOf(state: State, t: Try): H.Failure {
    H.Failure(Entries(t.content.wanted, state.wg, t.cut.forceAll), t.firewallCut)
  }

  function FailuresOf(state: State, tries: seq<Try>): (failures: seq<H.Failure>)
    ensures |failures| == |tries|
    ensures forall n :: 0 <= n < |tries| ==> failures[n] == FailureOf(state, tries[n])
  {
    if tries == [] then [] else [FailureOf(state, tries[0])] + FailuresOf(state, tries[1..])
  }

  lemma {:induction false} TriesAreFailures(net: Net, w: W.World, state: State, tries: seq<Try>)
    requires Tries(net, w, state, tries)
    ensures Left(w, tries).firewall == H.Left(w.firewall, state.firewall, FailuresOf(state, tries))
    decreases |tries|
  {
    if tries != [] {
      assert FailuresOf(state, tries)[1..] == FailuresOf(state, tries[1..]);
      TriesAreFailures(net, tries[0].after, state, tries[1..]);
    }
  }

  // An attempt that failed before its commits and could revert has changed nothing.
  lemma RevertedStaysSteady(net: Net, foreign: Foreign, w: W.World, diff: Diff, state: State, after: W.World, cut: Cut,
                            firewallCut: Cut)
    requires Steady(net, foreign, w, state) && W.Usable(diff, state)
    requires W.Interrupted(net, w, diff, state, after, cut, firewallCut) && Undone(cut) && Undone(firewallCut)
    ensures after == w && Steady(net, foreign, after, state)
  {
    NoSteps(W.NetworkHalf(net, diff, state), w.network, cut);
    NoSteps(W.FirewallPart(w, diff, state).plan, w.firewall, firewallCut);
  }

  predicate AllUndone(tries: seq<Try>) {
    forall n :: 0 <= n < |tries| ==> Undone(tries[n].cut) && Undone(tries[n].firewallCut)
  }

  lemma {:induction false} UndoneTriesLeave(net: Net, foreign: Foreign, w: W.World, state: State, tries: seq<Try>)
    requires Steady(net, foreign, w, state) && Tries(net, w, state, tries) && AllUndone(tries)
    ensures Left(w, tries) == w
    decreases |tries|
  {
    if tries != [] {
      var t := tries[0];
      RevertedStaysSteady(net, foreign, w, DiffOfTry(t, state), state, t.after, t.cut, t.firewallCut);
      UndoneTriesLeave(net, foreign, w, state, tries[1..]);
    }
  }

  // ----- what an attempt can start from -----

  // The stunmesh file is written, or already holds the text.
  predicate FileReady(left: W.World, c: Content, state: State, forceAll: bool) {
    forceAll || c.text == "" || c.text != state.stunmesh || FileHolds(left.stunmesh, c.text)
  }

  // What the failed attempts left is something that an attempt at this content, in this mode,
  // ends well from.
  ghost predicate Recoverable(net: Net, foreign: Foreign, w: W.World, c: Content, state: State, tries: seq<Try>,
                              forceAll: bool) {
    var left := Left(w, tries);
    && Resumable(net, foreign.network, c.wanted, state, forceAll, left.network.staged)
    && Z.ZoneReady(foreign.firewall, state.wg.Keys, c.wanted.Keys, w.firewall, left.firewall)
    && FileReady(left, c, state, forceAll)
  }

  lemma NetworkMirrorsIff(net: Net, foreign: Foreign, left: W.World, c: Content, state: State, forceAll: bool)
    requires WellRecorded(state) && ValidContents(c.wanted) && Apart(net, c.wanted, state, foreign.network)
    ensures Mirrors(net, c.wanted, foreign.network, After(net, left, c, state, forceAll).network.committed)
      <==> Resumable(net, foreign.network, c.wanted, state, forceAll, left.network.staged)
  {
    ResumesIff(net, foreign.network, c.wanted, state, forceAll, left.network.staged);
  }

  function EpisodeOf(c: Content, state: State, tries: seq<Try>, forceAll: bool): H.Episode {
    H.Episode(FailuresOf(state, tries), Entries(c.wanted, state.wg, forceAll), c.wanted.Keys)
  }

  ghost predicate FirewallEnds(foreign: Foreign, left: W.World, c: Content, state: State, forceAll: bool) {
    var out := Part(left, c, state, forceAll);
    F.Good(foreign.firewall, c.wanted.Keys, out, left.firewall.staged) && (out.changed || AtRest(left.firewall))
  }

  lemma FirewallEndsIff(net: Net, foreign: Foreign, w: W.World, c: Content, state: State, tries: seq<Try>,
                        forceAll: bool)
    requires Steady(net, foreign, w, state) && Tries(net, w, state, tries)
    ensures FirewallEnds(foreign, Left(w, tries), c, state, forceAll)
      <==> Z.ZoneReady(foreign.firewall, state.wg.Keys, c.wanted.Keys, w.firewall, Left(w, tries).firewall)
  {
    TriesAreFailures(net, w, state, tries);
    F.EntriesBetween(c.wanted, state.wg, forceAll);
    Z.EpisodeEndsIff(foreign.firewall, w.firewall, state.firewall, state.wg.Keys, EpisodeOf(c, state, tries, forceAll));
  }

  // The firewall store after the apply, whether or not there was something to commit.
  lemma FirewallAfter(net: Net, w: W.World, c: Content, state: State, forceAll: bool)
    ensures var out, n := Part(w, c, state, forceAll), After(net, w, c, state, forceAll).firewall;
      if out.changed then n == Store(Run(out.plan, w.firewall.staged), Run(out.plan, w.firewall.staged))
      else out.plan == [] && n == w.firewall
  {
  }

  ghost predicate FirewallRests(foreign: Foreign, w: W.World, c: Content, next: State) {
    AtRest(w.firewall) && F.FirewallOk(foreign.firewall, c.wanted.Keys, next.firewall, w.firewall.committed)
  }

  lemma RestsWhenEnds(net: Net, foreign: Foreign, left: W.World, c: Content, state: State, forceAll: bool)
    ensures FirewallEnds(foreign, left, c, state, forceAll) <==>
      && Accepted(Part(left, c, state, forceAll).plan, left.firewall.staged)
      && FirewallRests(foreign, After(net, left, c, state, forceAll), c, Next(left, c, state, forceAll))
  {
    FirewallAfter(net, left, c, state, forceAll);
  }

  // After the apply the file holds the new text, or it was not written and does not hold it.
  lemma FileAfter(net: Net, w: W.World, c: Content, state: State, forceAll: bool)
    ensures FileHolds(After(net, w, c, state, forceAll).stunmesh, c.text) <==> FileReady(w, c, state, forceAll)
  {
  }

  lemma NextIsStored(net: Net, w: W.World, c: Content, state: State, forceAll: bool)
    ensures Read(After(net, w, c, state, forceAll).last) == Some(Next(w, c, state, forceAll))
  {
  }

  // What rest after an apply comes down to.
  lemma RestIff(net: Net, foreign: Foreign, left: W.World, c: Content, state: State, forceAll: bool)
    requires WellRecorded(state) && ValidContents(c.wanted) && F.Usable(foreign.firewall)
    ensures var after, next := After(net, left, c, state, forceAll), Next(left, c, state, forceAll);
      Steady(net, foreign, after, next) <==>
        && Mirrors(net, c.wanted, foreign.network, after.network.committed)
        && FirewallRests(foreign, after, c, next) && FileReady(left, c, state, forceAll)
  {
    FileAfter(net, left, c, state, forceAll);
    NextIsStored(net, left, c, state, forceAll);
    NextDescribes(left, net, c, state, forceAll);
  }

  lemma UnopposedIff(net: Net, left: W.World, c: Content, state: State, forceAll: bool)
    ensures W.Usable(DiffFor(c, state, forceAll), state)
    ensures W.Unopposed(net, left, DiffFor(c, state, forceAll), state)
      <==> Accepted(Part(left, c, state, forceAll).plan, left.firewall.staged)
  {
    DiffForUsable(c, state, forceAll);
    NeverRefused(net, c.wanted, state, forceAll, left.network.staged);
  }

  // From rest, over any failed attempts at any bundles: the attempt that runs through meets no
  // refusal and leads to rest with exactly the new content if and only if what it finds is
  // recoverable.
  lemma RecoveredSteadyIff(net: Net, foreign: Foreign, w: W.World, c: Content, state: State, tries: seq<Try>,
                           forceAll: bool)
    requires Steady(net, foreign, w, state) && Tries(net, w, state, tries)
    requires ValidContents(c.wanted) && Apart(net, c.wanted, state, foreign.network)
    ensures W.Usable(DiffFor(c, state, forceAll), state)
    ensures var left := Left(w, tries);
      && W.Unopposed(net, left, DiffFor(c, state, forceAll), state)
      && Steady(net, foreign, After(net, left, c, state, forceAll), Next(left, c, state, forceAll))
      <==> Recoverable(net, foreign, w, c, state, tries, forceAll)
  {
    var left := Left(w, tries);
    NetworkMirrorsIff(net, foreign, left, c, state, forceAll);
    FirewallEndsIff(net, foreign, w, c, state, tries, forceAll);
    RestsWhenEnds(net, foreign, left, c, state, forceAll);
    RestIff(net, foreign, left, c, state, forceAll);
    UnopposedIff(net, left, c, state, forceAll);
  }

  // ----- histories that are recoverable -----

  // Nothing is left of any attempt, whatever it was to apply.
  lemma UndoneRecoverable(net: Net, foreign: Foreign, w: W.World, c: Content, state: State, tries: seq<Try>,
                          forceAll: bool)
    requires Steady(net, foreign, w, state) && Tries(net, w, state, tries) && AllUndone(tries)
    requires ValidContents(c.wanted) && Apart(net, c.wanted, state, foreign.network) && Harmless(c.wanted, state)
    ensures Recoverable(net, foreign, w, c, state, tries, forceAll)
  {
    UndoneTriesLeave(net, foreign, w, state, tries);
    RestResumable(net, foreign, w, c, state, forceAll);
    F.EntriesBetween(c.wanted, state.wg, forceAll);
    Z.NothingLeftReady(foreign.firewall, w.firewall, state.firewall, state.wg.Keys,
                       Entries(c.wanted, state.wg, forceAll), c.wanted.Keys);
  }

  lemma RestResumable(net: Net, foreign: Foreign, w: W.World, c: Content, state: State, forceAll: bool)
    requires Steady(net, foreign, w, state) && Harmless(c.wanted, state)
    requires ValidContents(c.wanted) && Apart(net, c.wanted, state, foreign.network)
    ensures Resumable(net, foreign.network, c.wanted, state, forceAll, w.network.staged)
  {
    ApplyFaithful(net, foreign.network, At(w.network.committed, state), ApplyOf(c, forceAll, NO_FIREWALL));
    ResumesIff(net, foreign.network, c.wanted, state, forceAll, w.network.staged);
  }

  // All attempts were at this content.
  ghost predicate AllAt(tries: seq<Try>, c: Content) { forall n :: 0 <= n < |tries| ==> tries[n].content == c }

  function CutsOf(tries: seq<Try>): (cuts: seq<Cut>)
    ensures |cuts| == |tries|
  {
    if tries == [] then [] else [tries[0].cut] + CutsOf(tries[1..])
  }

  // To the network config failed attempts at one content are cuts.
  lemma {:induction false} TriesAreCuts(net: Net, w: W.World, c: Content, state: State, tries: seq<Try>)
    requires Tries(net, w, state, tries) && AllAt(tries, c)
    ensures Left(w, tries).network == AfterCuts(PlansFor(net, c.wanted, state), w.network, CutsOf(tries))
    decreases |tries|
  {
    if tries != [] {
      assert CutsOf(tries)[1..] == CutsOf(tries[1..]);
      TriesAreCuts(net, tries[0].after, c, state, tries[1..]);
    }
  }

  // However many attempts at one content failed, and wherever each of them failed, the attempt
  // that finally runs through leaves the network as one clean attempt would have.
  lemma FailedAttemptsConverge(net: Net, foreign: Foreign, w: W.World, c: Content, state: State, tries: seq<Try>,
                               forceAll: bool)
    requires Steady(net, foreign, w, state) && Apart(net, c.wanted, state, foreign.network) && Harmless(c.wanted, state)
    requires Tries(net, w, state, tries) && AllAt(tries, c) && (forceAll || Tidy(CutsOf(tries)))
    ensures Accepted(PlanFrom(net, c.wanted, state, forceAll), Left(w, tries).network.staged)
    ensures After(net, Left(w, tries), c, state, forceAll).network == After(net, w, c, state, forceAll).network
  {
    TriesAreCuts(net, w, c, state, tries);
    RetryEndsClean(net, foreign.network, At(w.network.committed, state), ApplyOf(c, forceAll, NO_FIREWALL),
                   CutsOf(tries));
  }

  lemma TidyResumable(net: Net, foreign: Foreign, w: W.World, c: Content, state: State, tries: seq<Try>,
                      forceAll: bool)
    requires Steady(net, foreign, w, state) && Tries(net, w, state, tries) && AllAt(tries, c)
    requires ValidContents(c.wanted) && Apart(net, c.wanted, state, foreign.network) && Harmless(c.wanted, state)
    requires forceAll || Tidy(CutsOf(tries))
    ensures Resumable(net, foreign.network, c.wanted, state, forceAll, Left(w, tries).network.staged)
  {
    FailedAttemptsConverge(net, foreign, w, c, state, tries, forceAll);
    NetworkMirrorsIff(net, foreign, Left(w, tries), c, state, forceAll);
    RestResumable(net, foreign, w, c, state, forceAll);
    NetworkMirrorsIff(net, foreign, w, c, state, forceAll);
  }

  lemma FailuresBetween(c: Content, state: State, tries: seq<Try>)
    requires AllAt(tries, c)
    ensures H.AllBetween(FailuresOf(state, tries), state.wg.Keys, c.wanted.Keys)
  {
    F.EntriesBetween(c.wanted, state.wg, true);
    F.EntriesBetween(c.wanted, state.wg, false);
  }

  // The file holds the old text or already the new one.
  ghost predicate FileOneOf(file: Option<string>, a: string, b: string) { FileHolds(file, a) || FileHolds(file, b) }

  lemma {:induction false} TriesKeepFile(net: Net, w: W.World, c: Content, state: State, tries: seq<Try>)
    requires Tries(net, w, state, tries) && AllAt(tries, c) && FileOneOf(w.stunmesh, state.stunmesh, c.text)
    ensures FileOneOf(Left(w, tries).stunmesh, state.stunmesh, c.text)
    decreases |tries|
  {
    if tries != [] { TriesKeepFile(net, tries[0].after, c, state, tries[1..]); }
  }

  // Failed attempts at the content itself are recoverable if no forced one left staged changes
  // to an unforced one, and the firewall cuts of a creation or removal of the zone were undone.
  lemma TidyRecoverable(net: Net, foreign: Foreign, w: W.World, c: Content, state: State, tries: seq<Try>,
                        forceAll: bool)
    requires Steady(net, foreign, w, state) && Tries(net, w, state, tries) && AllAt(tries, c)
    requires ValidContents(c.wanted) && Apart(net, c.wanted, state, foreign.network) && Harmless(c.wanted, state)
    requires forceAll || Tidy(CutsOf(tries))
    requires H.KeepsZone(foreign.firewall, state.wg.Keys, c.wanted.Keys) || H.AllUndone(FailuresOf(state, tries))
    ensures Recoverable(net, foreign, w, c, state, tries, forceAll)
  {
    TidyResumable(net, foreign, w, c, state, tries, forceAll);
    TriesKeepFile(net, w, c, state, tries);
    TidyZone(net, foreign, w, c, state, tries, forceAll);
  }

  lemma TidyZone(net: Net, foreign: Foreign, w: W.World, c: Content, state: State, tries: seq<Try>, forceAll: bool)
    requires Steady(net, foreign, w, state) && Tries(net, w, state, tries) && AllAt(tries, c)
    requires H.KeepsZone(foreign.firewall, state.wg.Keys, c.wanted.Keys) || H.AllUndone(FailuresOf(state, tries))
    ensures Z.ZoneReady(foreign.firewall, state.wg.Keys, c.wanted.Keys, w.firewall, Left(w, tries).firewall)
  {
    TriesAreFailures(net, w, state, tries);
    FailuresBetween(c, state, tries);
    F.EntriesBetween(c.wanted, state.wg, forceAll);
    if H.AllUndone(FailuresOf(state, tries)) { H.UndoneLeave(w.firewall, state.firewall, FailuresOf(state, tries)); }
    Z.SameBundleReady(foreign.firewall, w.firewall, state.firewall, state.wg.Keys,
                      EpisodeOf(c, state, tries, forceAll));
  }

  // ----- without failures -----

  // The apply of valid content leads to rest if and only if the empty name does no harm.
  lemma ApplySteadyIff(net: Net, foreign: Foreign, w: W.World, c: Content, state: State, forceAll: bool)
    requires Steady(net, foreign, w, state) && ValidContents(c.wanted) && Apart(net, c.wanted, state, foreign.network)
    requires "" !in foreign.network
    ensures Steady(net, foreign, After(net, w, c, state, forceAll), Next(w, c, state, forceAll))
      <==> Harmless(c.wanted, state)
  {
    if Harmless(c.wanted, state) {
      ApplySteady(net, foreign, w, c, state, forceAll);
    } else {
      ApplyFaithfulIff(net, foreign.network, At(w.network.committed, state),
                       ApplyOf(c, forceAll, Part(w, c, state, forceAll).record));
    }
  }

  lemma ApplySteady(net: Net, foreign: Foreign, w: W.World, c: Content, state: State, forceAll: bool)
    requires Steady(net, foreign, w, state) && Harmless(c.wanted, state)
    requires ValidContents(c.wanted) && Apart(net, c.wanted, state, foreign.network)
    ensures Steady(net, foreign, After(net, w, c, state, forceAll), Next(w, c, state, forceAll))
  {
    UndoneRecoverable(net, foreign, w, c, state, [], forceAll);
    RecoveredSteadyIff(net, foreign, w, c, state, [], forceAll);
  }

  // Nothing but faults stands in the way of an apply from rest.
  lemma ApplyUnopposed(net: Net, foreign: Foreign, w: W.World, c: Content, state: State, forceAll: bool)
    requires Steady(net, foreign, w, state)
    ensures var diff := DiffFor(c, state, forceAll); W.Usable(diff, state) && W.Unopposed(net, w, diff, state)
  {
    F.EntriesBetween(c.wanted, state.wg, forceAll);
    Z.UntouchedEnds(foreign.firewall, w.firewall, state.firewall, state.wg.Keys, EpisodeOf(c, state, [], forceAll));
    UnopposedIff(net, w, c, state, forceAll);
  }

  // ----- runs -----

  // One content: failed attempts, at it or at bundles it replaces, then one that runs through.
  datatype Fetched = Fetched(content: Content, tries: seq<Try>, forceAll: bool)

  datatype Condition = Condition(world: W.World, state: State)

  function AfterFetch(net: Net, c: Condition, f: Fetched): Condition {
    var left := Left(c.world, f.tries);
    Condition(After(net, left, f.content, c.state, f.forceAll), Next(left, f.content, c.state, f.forceAll))
  }

  function AfterFetches(net: Net, c: Condition, fs: seq<Fetched>): Condition
    decreases |fs|
  {
    if fs == [] then c else AfterFetches(net, AfterFetch(net, c, fs[0]), fs[1..])
  }

  ghost predicate Fetchable(net: Net, foreign: Foreign, c: Condition, f: Fetched) {
    && Tries(net, c.world, c.state, f.tries)
    && ValidContents(f.content.wanted) && Apart(net, f.content.wanted, c.state, foreign.network)
    && Recoverable(net, foreign, c.world, f.content, c.state, f.tries, f.forceAll)
  }

  ghost predicate Proper(net: Net, foreign: Foreign, c: Condition, fs: seq<Fetched>)
    decreases |fs|
  {
    fs == [] || (Fetchable(net, foreign, c, fs[0]) && Proper(net, foreign, AfterFetch(net, c, fs[0]), fs[1..]))
  }

  lemma {:induction false} RunSteady(net: Net, foreign: Foreign, c: Condition, fs: seq<Fetched>)
    requires Steady(net, foreign, c.world, c.state) && Proper(net, foreign, c, fs)
    ensures Steady(net, foreign, AfterFetches(net, c, fs).world, AfterFetches(net, c, fs).state)
    decreases |fs|
  {
    if fs != [] {
      RecoveredSteadyIff(net, foreign, c.world, fs[0].content, c.state, fs[0].tries, fs[0].forceAll);
      RunSteady(net, foreign, AfterFetch(net, c, fs[0]), fs[1..]);
    }
  }

  // A fresh node is at rest.
  lemma FreshSteady(net: Net, foreign: Foreign)
    requires F.Usable(foreign.firewall)
    ensures var initial :=
        W.World(Store(foreign.network, foreign.network), Store(foreign.firewall, foreign.firewall), Missing, None);
      Steady(net, foreign, initial, EMPTY_STATE)
  {
    assert Contents(EMPTY_STATE) == map[];
  }
}
