/** checkAndApply of cmd/stunmesh-agent: read last.json, compare, diff, apply. */
module Fetch {
  import opened Text
  import opened Bundle
  import opened Uci
  import opened InterfaceBatch
  import opened Last
  import opened DiffTypes
  import opened Diffs
  import opened ApplyPlan
  import opened Retry
  import opened NetworkRuns
  import opened SteadyAgent
  import opened AgentApply
  import W = World

  datatype CheckOutcome = Failed | NothingToDo | ApplyDone

  lemma EntryUsable(wanted: map<string, Interface>, recorded: map<string, Record>, forceAll: bool, name: string)
    requires name in wanted || name in recorded
    ensures Recordable(Classify(wanted, recorded, forceAll, name), recorded)
  {
  }

  lemma NamedUsable(wanted: map<string, Interface>, recorded: map<string, Record>, forceAll: bool, names: seq<string>)
    requires Increasing(names) && forall name :: name in names ==> name in wanted || name in recorded
    ensures var ds := ClassifyAll(wanted, recorded, forceAll, names);
      W.DistinctNames(ds) && forall n :: 0 <= n < |ds| ==> Recordable(ds[n], recorded)
  {
    IncreasingDistinct(names);
    forall n | 0 <= n < |names| ensures Recordable(ClassifyAll(wanted, recorded, forceAll, names)[n], recorded) {
      assert names[n] in names;
      EntryUsable(wanted, recorded, forceAll, names[n]);
    }
  }

  // Whatever the bundle and the state, applyDiff can work with their diff.
  lemma DiffUsable(b: Bundle, state: State, forceAll: bool)
    ensures W.Usable(DiffOf(b, state, forceAll), state)
  {
    NamedUsable(WantedOf(b), state.wg, forceAll, Sorted(WantedOf(b).Keys + state.wg.Keys));
  }

  // The cycle from a selected bundle on.
  method CheckAndApply(agent: Agent, b: Bundle, forceAll: bool)
    returns (r: CheckOutcome, ghost cut: Cut, ghost firewallCut: Cut)
    requires agent.network != agent.firewall
    modifies agent, agent.network, agent.firewall
    ensures old(agent.ops) <= agent.ops
    ensures old(agent.lastFile) == Corrupt ==> r == Failed
    ensures Read(old(agent.lastFile)) ==
      if old(agent.lastFile) == Corrupt then None
      else if old(agent.lastFile) == Missing then Some(State(map[], "", FirewallState(false, [])))
      else Some(old(agent.lastFile).state)
    ensures r == NothingToDo
      <==> Read(old(agent.lastFile)).Some? && !forceAll && SameAsLast(Read(old(agent.lastFile)).value, b)
    ensures Read(old(agent.lastFile)).None? || r == NothingToDo ==>
      agent.ops == old(agent.ops) && agent.Snapshot() == old(agent.Snapshot()) && agent.calls == old(agent.calls)
    ensures r != NothingToDo && Read(old(agent.lastFile)).Some? ==>
      var state := Read(old(agent.lastFile)).value;
      var diff := DiffOf(b, state, forceAll);
      && W.Usable(diff, state)
      && (r == ApplyDone ==> agent.Snapshot() == W.Applied(agent.net, old(agent.Snapshot()), diff, state))
      && Called(old(agent.calls), FinishCalls(diff, W.FirewallPart(old(agent.Snapshot()), diff, state).changed),
                agent.calls, r == ApplyDone)
      && CallsInOrder(old(agent.calls), agent.calls, diff, agent.firewall.committed != old(agent.firewall.committed),
                      W.FirewallPart(old(agent.Snapshot()), diff, state).plan != [], r == ApplyDone)
      && (r == Failed ==> W.Interrupted(agent.net, old(agent.Snapshot()), diff, state, agent.Snapshot(), cut,
                                        firewallCut))
      && (r == Failed ==>
            agent.UndoneUnlessFaults(diff, state, old(agent.Snapshot()), old(agent.ops), cut, firewallCut))
      && (agent.Clean(old(agent.ops), agent.ops) && W.Unopposed(agent.net, old(agent.Snapshot()), diff, state) ==>
            r == ApplyDone)
  {
    cut, firewallCut := Cut(false, 0, false, false), Cut(false, 0, false, false);
    var state := Read(agent.lastFile);
    if state.None? {
      return Failed, cut, firewallCut;
    }
    if !forceAll {
      var same := SameContent(state.value, b);
      if same {
        return NothingToDo, cut, firewallCut;
      }
    }
    var diff := ComputeDiff(b, state.value, forceAll);
    DiffUsable(b, state.value, forceAll);
    var ok;
    ok, cut, firewallCut := agent.ApplyDiff(diff, state.value);
    r := if ok then ApplyDone else Failed;
  }

  // ----- what the cycle promises -----

  function ContentOf(b: Bundle): Content { Content(WantedOf(b), StunmeshText(b)) }

  lemma DiffIsFor(b: Bundle, state: State, forceAll: bool, namespace: string, nodeID: string)
    requires Valid(b, namespace, nodeID) && WellRecorded(state)
    ensures DiffOf(b, state, forceAll) == DiffFor(ContentOf(b), state, forceAll)
  {
    DiffIsByContent(b, state, forceAll);
  }

  // From rest, over any failed cycles with any bundles: a cycle that no fault hits applies the
  // bundle and leaves the agent at rest with its content, if and only if what it
  // finds is recoverable.
  lemma CycleSteady(net: Net, foreign: Foreign, w: W.World, b: Bundle, state: State, tries: seq<Try>, forceAll: bool,
                    namespace: string, nodeID: string)
    requires Steady(net, foreign, w, state) && Valid(b, namespace, nodeID)
    requires Apart(net, b.wg.value, state, foreign.network) && Tries(net, w, state, tries)
    ensures W.Usable(DiffOf(b, state, forceAll), state)
    ensures var diff, left := DiffOf(b, state, forceAll), Left(w, tries);
      && W.Unopposed(net, left, diff, state)
      && Steady(net, foreign, W.Applied(net, left, diff, state), Next(left, ContentOf(b), state, forceAll))
      <==> Recoverable(net, foreign, w, ContentOf(b), state, tries, forceAll)
  {
    DiffIsFor(b, state, forceAll, namespace, nodeID);
    RecoveredSteadyIff(net, foreign, w, ContentOf(b), state, tries, forceAll);
  }

  // What a failed cycle leaves is a failed attempt at the bundle's content.
  lemma FailureIsTry(net: Net, w: W.World, b: Bundle, state: State, forceAll: bool, namespace: string, nodeID: string,
                     after: W.World, cut: Cut, firewallCut: Cut)
    requires Valid(b, namespace, nodeID) && WellRecorded(state) && W.Usable(DiffOf(b, state, forceAll), state)
    requires W.Interrupted(net, w, DiffOf(b, state, forceAll), state, after, cut, firewallCut)
    ensures Tries(net, w, state, [Try(ContentOf(b), cut.(forceAll := forceAll), firewallCut, after)])
  {
    DiffIsFor(b, state, forceAll, namespace, nodeID);
    FailedIsTry(net, w, ContentOf(b), state, forceAll, after, cut, firewallCut);
  }

  lemma NextIsSame(net: Net, w: W.World, b: Bundle, again: Bundle, state: State, forceAll: bool, namespace: string,
                   nodeID: string)
    requires WellRecorded(state) && Valid(b, namespace, nodeID)
    requires Valid(again, namespace, nodeID) && again.wg == b.wg && again.stunmesh == b.stunmesh
    ensures var next := Next(w, ContentOf(b), state, forceAll); WellRecorded(next) && SameAsLast(next, again)
  {
    NextDescribes(w, net, ContentOf(b), state, forceAll);
    SameIsEquality(Next(w, ContentOf(b), state, forceAll), again, namespace, nodeID);
  }

  // After any successful apply, whatever it started from, last.json reads back as a state with
  // which every bundle of the same content compares equal.
  lemma AppliedIsSame(net: Net, w: W.World, b: Bundle, again: Bundle, state: State, forceAll: bool, namespace: string,
                      nodeID: string)
    requires WellRecorded(state) && Valid(b, namespace, nodeID) && W.Usable(DiffOf(b, state, forceAll), state)
    requires Valid(again, namespace, nodeID) && again.wg == b.wg && again.stunmesh == b.stunmesh
    ensures var last := Read(W.Applied(net, w, DiffOf(b, state, forceAll), state).last);
      last.Some? && WellRecorded(last.value) && SameAsLast(last.value, again)
  {
    DiffIsFor(b, state, forceAll, namespace, nodeID);
    NextIsStored(net, w, ContentOf(b), state, forceAll);
    NextIsSame(net, w, b, again, state, forceAll, namespace, nodeID);
  }

  // A successful apply, then a check of the same content: the second runs no operation, and
  // everything stays as the first one left it.
  method ApplyThenCheck(agent: Agent, b: Bundle, again: Bundle, forceAll: bool, ghost namespace: string,
                        ghost nodeID: string)
    returns (first: CheckOutcome, second: CheckOutcome, ghost opsBetween: nat)
    requires agent.network != agent.firewall
    requires Read(agent.lastFile).Some? ==> WellRecorded(Read(agent.lastFile).value)
    requires Valid(b, namespace, nodeID) && Valid(again, namespace, nodeID) && again.wg == b.wg
    requires again.stunmesh == b.stunmesh
    modifies agent, agent.network, agent.firewall
    ensures first == ApplyDone ==> second == NothingToDo && agent.ops == opsBetween
    ensures first == ApplyDone ==>
      && Read(old(agent.lastFile)).Some?
      && var state := Read(old(agent.lastFile)).value;
         var diff := DiffOf(b, state, forceAll);
         && W.Usable(diff, state)
         && agent.Snapshot() == W.Applied(agent.net, old(agent.Snapshot()), diff, state)
         && agent.calls == old(agent.calls) + FinishCalls(diff,
                                                          W.FirewallPart(old(agent.Snapshot()), diff, state).changed)
  {
    ghost var state, w := Read(agent.lastFile), agent.Snapshot();
    ghost var cut, firewallCut;
    first, cut, firewallCut := CheckAndApply(agent, b, forceAll);
    opsBetween := agent.ops;
    if first != ApplyDone {
      return first, Failed, opsBetween;
    }
    AppliedIsSame(agent.net, w, b, again, state.value, forceAll, namespace, nodeID);
    second, cut, firewallCut := CheckAndApply(agent, again, false);
  }

  // A cycle from rest: without faults it does not fail; after success the agent is at rest with
  // the bundle's content, if its names are apart and the empty one is harmless; and a single
  // fault before the network commit changes nothing at all.
  method CheckFromRest(agent: Agent, b: Bundle, forceAll: bool, ghost foreign: Foreign, ghost state: State,
                       ghost namespace: string, ghost nodeID: string)
    returns (r: CheckOutcome, ghost cut: Cut, ghost firewallCut: Cut)
    requires agent.network != agent.firewall
    requires Steady(agent.net, foreign, agent.Snapshot(), state) && Valid(b, namespace, nodeID)
    modifies agent, agent.network, agent.firewall
    ensures old(agent.ops) <= agent.ops && (agent.Clean(old(agent.ops), agent.ops) ==> r != Failed)
    ensures r == NothingToDo || (r == Failed && !cut.pastCommit && agent.OneFault(old(agent.ops), agent.ops)) ==>
      agent.Snapshot() == old(agent.Snapshot())
    ensures r == ApplyDone && Apart(agent.net, b.wg.value, state, foreign.network) && Harmless(b.wg.value, state) ==>
      Steady(agent.net, foreign, agent.Snapshot(), Next(old(agent.Snapshot()), ContentOf(b), state, forceAll))
  {
    ghost var w := agent.Snapshot();
    r, cut, firewallCut := CheckAndApply(agent, b, forceAll);
    DiffIsFor(b, state, forceAll, namespace, nodeID);
    ApplyUnopposed(agent.net, foreign, w, ContentOf(b), state, forceAll);
    if r == Failed && !cut.pastCommit && agent.OneFault(old(agent.ops), agent.ops) {
      RevertedStaysSteady(agent.net, foreign, w, DiffOf(b, state, forceAll), state, agent.Snapshot(), cut, firewallCut);
    }
    if r == ApplyDone && Apart(agent.net, b.wg.value, state, foreign.network) && Harmless(b.wg.value, state) {
      ApplySteady(agent.net, foreign, w, ContentOf(b), state, forceAll);
    }
  }
}
