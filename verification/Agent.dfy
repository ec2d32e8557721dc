/** cmd/stunmesh-agent: the apply procedure, command by command.

    Module Progress says how far a plan got; module AgentApply is the agent itself, whose
    commands may fail.  Every method says which part of its plan ran and, without faults,
    that all of it did.
  */
module Progress {
  import opened Text
  import opened Uci
  import opened Retry

  // The first `done` steps of the plan ran, all of them if it went well.
  ghost predicate Ran(plan: seq<Step>, before: Config, after: Config, ok: bool, done: nat) {
    && done <= |plan|
    && after == Run(plan[..done], before)
    && (ok ==> done == |plan| && Accepted(plan, before))
  }

  lemma RanAll(plan: seq<Step>, before: Config, after: Config, done: nat)
    requires Ran(plan, before, after, true, done)
    ensures after == Run(plan, before)
  {
    assert plan[..done] == plan;
  }

  lemma RanThen(plan: seq<Step>, a: seq<Step>, b: seq<Step>, c0: Config, c1: Config, c2: Config, ok: bool, done: nat)
    requires plan == a + b && Ran(a, c0, c1, true, |a|) && Ran(b, c1, c2, ok, done)
    ensures Ran(plan, c0, c2, ok, |a| + done)
    ensures Accepted(plan, c0) ==> Accepted(b, c1)
  {
    RanAll(a, c0, c1, |a|);
    assert (a + b)[..|a| + done] == a + b[..done];
    RunConcat(a, b[..done], c0);
    RunConcat(a, b, c0);
  }

  lemma RanStopped(plan: seq<Step>, a: seq<Step>, b: seq<Step>, c0: Config, c1: Config, done: nat)
    requires plan == a + b && Ran(a, c0, c1, false, done)
    ensures Ran(plan, c0, c1, false, done)
    ensures Accepted(plan, c0) ==> Accepted(a, c0)
  {
    assert (a + b)[..done] == a[..done];
    RunConcat(a, b, c0);
  }

  // One more step.
  lemma RanStep(plan: seq<Step>, a: seq<Step>, step: Step, c0: Config, c1: Config, c2: Config, ok: bool)
    requires plan == a + [step] && Ran(a, c0, c1, true, |a|) && (ok ==> StepAccepted(step, c1))
    requires c2 == if ok then StepEffect(step, c1) else c1
    ensures Ran(plan, c0, c2, ok, if ok then |a| + 1 else |a|)
    ensures Accepted(plan, c0) ==> StepAccepted(step, c1)
  {
    RunOne(step, c1);
    assert [step][..1] == [step] && [step][..0] == [];
    RanThen(plan, a, [step], c0, c1, c2, ok, if ok then 1 else 0);
  }

  // Two plans, the second only if all of the first ran.
  lemma BothRan(a: seq<Step>, b: seq<Step>, c0: Config, c1: Config, c2: Config, ok: bool, done: nat, more: nat)
    requires
      || (Ran(a, c0, c1, true, done) && Ran(b, c1, c2, ok, more))
      || (Ran(a, c0, c1, false, done) && !ok && more == 0 && c2 == c1)
    ensures Ran(a + b, c0, c2, ok, done + more)
    ensures Accepted(a + b, c0) ==> Accepted(a, c0) && (Ran(a, c0, c1, true, done) ==> Accepted(b, c1))
  {
    if Ran(a, c0, c1, true, done) && Ran(b, c1, c2, ok, more) {
      RanThen(a + b, a, b, c0, c1, c2, ok, more);
    } else {
      RanStopped(a + b, a, b, c0, c1, done);
    }
    RunConcat(a, b, c0);
  }

  // One more part of a whole plan.
  lemma RanNext(whole: seq<Step>, upTo: seq<Step>, a: seq<Step>, b: seq<Step>, rest: seq<Step>,
                c0: Config, c1: Config, c2: Config, ok: bool, done: nat, more: nat)
    requires upTo == a + b && whole == upTo + rest
    requires Ran(a, c0, c1, true, done) && Ran(b, c1, c2, ok, more)
    ensures Ran(upTo, c0, c2, ok, done + more)
    ensures !ok ==> Ran(whole, c0, c2, false, done + more)
    ensures Accepted(whole, c0) ==> Accepted(b, c1)
  {
    RanThen(upTo, a, b, c0, c1, c2, ok, more);
    if !ok { RanStopped(whole, upTo, rest, c0, c2, done + more); }
    RunConcat(upTo, rest, c0);
  }

  // A plan that stopped is one that was cut short.
  lemma RanIsPrefix(plan: seq<Step>, before: Config, after: Config, ok: bool, done: nat)
    requires Ran(plan, before, after, ok, done)
    ensures after == Run(Prefix(plan, done), before)
  {
  }
}

/** What an apply leaves behind, as values: the two configs, last.json and the stunmesh file. */
module World {
  import opened Text
  import opened Uci
  import opened InterfaceBatch
  import opened Last
  import opened DiffTypes
  import opened ApplyPlan
  import opened Retry
  import opened Firewall

  datatype World = World(network: Store, firewall: Store, last: LastFile, stunmesh: Option<string>)

  predicate DistinctNames(ds: seq<InterfaceDiff>) { forall m, n :: 0 <= m < n < |ds| ==> ds[m].name != ds[n].name }

  // What applyDiff can work with: the diff is one against this state.
  predicate Usable(diff: Diff, state: State) {
    && DistinctNames(diff.interfaces)
    && forall n :: 0 <= n < |diff.interfaces| ==> Recordable(diff.interfaces[n], state.wg)
  }

  function NetworkHalf(net: Net, diff: Diff, state: State): seq<Step>
    requires Usable(diff, state)
  {
    NetworkPlan(net, diff.interfaces)
  }

  function FirewallPart(w: World, diff: Diff, state: State): Outcome {
    FirewallHalf(diff.interfaces, state.firewall, ZONE in w.firewall.staged)
  }

  function StunmeshAfter(diff: Diff, file: Option<string>): Option<string> {
    match diff.stunmesh
    case StunmeshEmpty => None
    case StunmeshChanged => Some(diff.text)
    case StunmeshUnchanged => file
  }

  function Committed(plan: seq<Step>, n: Store): Store { Store(Run(plan, n.staged), Run(plan, n.staged)) }

  // A successful apply.
  function Applied(net: Net, w: World, diff: Diff, state: State): World
    requires Usable(diff, state)
  {
    var out := FirewallPart(w, diff, state);
    World(Committed(NetworkHalf(net, diff, state), w.network),
          if out.changed then Committed(out.plan, w.firewall) else w.firewall,
          Stored(StateOf(diff, state, out.record)),
          StunmeshAfter(diff, w.stunmesh))
  }

  // An apply cut short: each config holds what a cut of its plan leaves, the firewall is
  // committed only after the network, and last.json is what it was.
  ghost predicate Interrupted(net: Net, w: World, diff: Diff, state: State, after: World, cut: Cut, firewallCut: Cut)
    requires Usable(diff, state)
  {
    && after.network == AfterCut(NetworkHalf(net, diff, state), w.network, cut)
    && after.firewall == AfterCut(FirewallPart(w, diff, state).plan, w.firewall, firewallCut)
    && (firewallCut.pastCommit ==> cut.pastCommit)
    && after.last == w.last
    && (after.stunmesh == w.stunmesh || (cut.pastCommit && after.stunmesh == StunmeshAfter(diff, w.stunmesh)))
  }

  // Nothing stands in the way of the apply but faults.
  predicate Unopposed(net: Net, w: World, diff: Diff, state: State)
    requires Usable(diff, state)
  {
    && Accepted(NetworkHalf(net, diff, state), w.network.staged)
    && Accepted(FirewallPart(w, diff, state).plan, w.firewall.staged)
  }
}

module AgentApply {
  import opened Text
  import opened Bundle
  import opened Uci
  import opened InterfaceBatch
  import opened Last
  import opened DiffTypes
  import opened ApplyPlan
  import opened Firewall
  import opened Progress
  import opened Retry
  import opened World

  // One uci config: what is staged, and what is committed.
  class ConfigStore {
    var staged: Config
    var committed: Config

    constructor (cfg: Config)
      ensures staged == cfg && committed == cfg
    {
      staged, committed := cfg, cfg;
    }
  }

  class Agent {
    const net: Net
    const network: ConfigStore
    const firewall: ConfigStore

    // Which operations fail: commands other than `uci get`, and file writes.
    const fails: nat -> bool

    // How many operations were tried so far.
    var ops: nat
    var lastFile: LastFile
    var stunmeshFile: Option<string>

    // What was done after the commits, in order.
    var calls: seq<Call>

    constructor (net: Net, network: ConfigStore, firewall: ConfigStore, fails: nat -> bool)
      ensures this.net == net && this.network == network && this.firewall == firewall && this.fails == fails
      ensures ops == 0 && lastFile == Missing && stunmeshFile == None && calls == []
    {
      this.net, this.network, this.firewall, this.fails := net, network, firewall, fails;
      ops, lastFile, stunmeshFile, calls := 0, Missing, None, [];
    }

    // No operation in this span failed of its own accord.
    ghost predicate Clean(from: nat, to: nat) { forall n :: from <= n < to ==> !fails(n) }

    // At most one operation in this span failed of its own accord.
    ghost predicate OneFault(from: nat, to: nat) {
      forall m, n :: from <= m < to && from <= n < to && fails(m) && fails(n) ==> m == n
    }

    // ----- single commands -----

    method Attempt() returns (ok: bool)
      modifies `ops
      ensures ops == old(ops) + 1 && ok == !fails(old(ops))
    {
      ok := !fails(ops);
      ops := ops + 1;
    }

    method Get(store: ConfigStore, path: Path) returns (found: bool)
      modifies `ops
      ensures ops == old(ops) + 1 && (found <==> Present(path, store.staged))
    {
      ops := ops + 1;
      found := Present(path, store.staged);
    }

    method RunCommand(store: ConfigStore, c: Command) returns (ok: bool)
      modifies `ops, store`staged
      ensures ops == old(ops) + 1
      ensures ok <==> !fails(old(ops)) && Accepts(c, old(store.staged))
      ensures store.staged == if ok then Effect(c, old(store.staged)) else old(store.staged)
    {
      ok := Attempt();
      ok := ok && Accepts(c, store.staged);
      if ok {
        store.staged := Effect(c, store.staged);
      }
    }

    method Commit(store: ConfigStore) returns (ok: bool)
      modifies `ops, store`committed
      ensures ops == old(ops) + 1 && ok == !fails(old(ops))
      ensures store.committed == if ok then store.staged else old(store.committed)
    {
      ok := Attempt();
      if ok {
        store.committed := store.staged;
      }
    }

    // Best effort: its failure goes unnoticed.
    method Revert(store: ConfigStore) returns (ghost reverted: bool)
      modifies `ops, store`staged
      ensures ops == old(ops) + 1 && reverted == !fails(old(ops))
      ensures store.staged == if reverted then store.committed else old(store.staged)
    {
      var ok := Attempt();
      if ok {
        store.staged := store.committed;
      }
      reverted := ok;
    }

    method DeleteIfPresent(store: ConfigStore, path: Path) returns (ok: bool)
      modifies `ops, store`staged
      ensures old(ops) < ops && (Clean(old(ops), ops) ==> ok)
      ensures store.staged ==
        if ok then StepEffect(Step.DeleteIfPresent(path), old(store.staged)) else old(store.staged)
    {
      var found := Get(store, path);
      if !found {
        return true;
      }
      ok := RunCommand(store, Delete(path));
    }

    // ----- batches -----

    method RunBatch(store: ConfigStore, batch: seq<Command>) returns (ok: bool, ghost done: nat)
      modifies `ops, store`staged
      ensures old(ops) <= ops
      ensures Ran(Steps(batch), old(store.staged), store.staged, ok, done)
      ensures Clean(old(ops), ops) && Accepted(Steps(batch), old(store.staged)) ==> ok
    {
      ok, done := true, 0;
      ghost var start := store.staged;
      for n := 0 to |batch|
        invariant old(ops) <= ops
        invariant Ran(Steps(batch[..n]), start, store.staged, true, n)
      {
        ghost var plan, before := Steps(batch[..n]), store.staged;
        ok := RunCommand(store, batch[n]);
        RanStep(Steps(batch[..n + 1]), plan, Do(batch[n]), start, before, store.staged, ok);
        if !ok {
          RanStopped(Steps(batch), Steps(batch[..n + 1]), Steps(batch[n + 1..]), start, store.staged, n);
          return false, n;
        }
      }
      assert batch[..|batch|] == batch;
      done := |batch|;
    }

    method ClearListOptions(paths: seq<Path>) returns (ok: bool, ghost done: nat)
      modifies `ops, network`staged
      ensures old(ops) <= ops
      ensures Ran(ClearPlan(paths), old(network.staged), network.staged, ok, done)
      ensures Clean(old(ops), ops) ==> ok
    {
      ok, done := true, 0;
      ghost var start := network.staged;
      for n := 0 to |paths|
        invariant old(ops) <= ops
        invariant Ran(ClearPlan(paths[..n]), start, network.staged, true, n)
      {
        ghost var plan, before := ClearPlan(paths[..n]), network.staged;
        ok := DeleteIfPresent(network, paths[n]);
        RanStep(ClearPlan(paths[..n + 1]), plan, Step.DeleteIfPresent(paths[n]), start, before, network.staged, ok);
        if !ok {
          RanStopped(ClearPlan(paths), ClearPlan(paths[..n + 1]), ClearPlan(paths[n + 1..]), start, network.staged, n);
          return false, n;
        }
      }
      assert paths[..|paths|] == paths;
      done := |paths|;
    }

    method DeleteEach(names: seq<string>) returns (ok: bool, ghost done: nat)
      modifies `ops, network`staged
      ensures old(ops) <= ops
      ensures Ran(DeleteSteps(names), old(network.staged), network.staged, ok, done)
      ensures Clean(old(ops), ops) ==> ok
    {
      ok, done := true, 0;
      ghost var start := network.staged;
      for n := 0 to |names|
        invariant old(ops) <= ops
        invariant Ran(DeleteSteps(names[..n]), start, network.staged, true, n)
      {
        ghost var plan, before := DeleteSteps(names[..n]), network.staged;
        ok := DeleteIfPresent(network, SectionPath(names[n]));
        RanStep(DeleteSteps(names[..n + 1]), plan, Step.DeleteIfPresent(SectionPath(names[n])), start, before,
                network.staged, ok);
        if !ok {
          RanStopped(DeleteSteps(names), DeleteSteps(names[..n + 1]), DeleteSteps(names[n + 1..]), start,
                     network.staged, n);
          return false, n;
        }
      }
      assert names[..|names|] == names;
      done := |names|;
    }

    method DeleteSections(sections: Sections) returns (ok: bool, ghost done: nat)
      modifies `ops, network`staged
      ensures old(ops) <= ops
      ensures Ran(DeletePlan(sections), old(network.staged), network.staged, ok, done)
      ensures Clean(old(ops), ops) ==> ok
    {
      var itself := if sections.iface != "" then [sections.iface] else [];
      ghost var a, b, c := DeleteSteps(sections.peers), DeleteSteps(sections.routes), DeleteSteps(itself);
      ghost var c0 := network.staged;
      ok, done := DeleteEach(sections.peers);
      ghost var c1 := network.staged;
      if !ok {
        RanStopped(a + b, a, b, c0, c1, done);
        RanStopped(DeletePlan(sections), a + b, c, c0, c1, done);
        return;
      }
      ok, done := DeleteEach(sections.routes);
      ghost var c2 := network.staged;
      RanThen(a + b, a, b, c0, c1, c2, ok, done);
      done := |a| + done;
      if !ok {
        RanStopped(DeletePlan(sections), a + b, c, c0, c2, done);
        return;
      }
      ghost var last: nat;
      ok, last := DeleteEach(itself);
      RanThen(DeletePlan(sections), a + b, c, c0, c2, network.staged, ok, last);
      done := |a + b| + last;
    }

    // ----- one interface, and all of them -----

    // The two halves of a create: clear the list options, then run the batch.
    method ClearThenRun(paths: seq<Path>, batch: seq<Command>) returns (ok: bool, ghost done: nat)
      modifies `ops, network`staged
      ensures old(ops) <= ops
      ensures Ran(ClearPlan(paths) + Steps(batch), old(network.staged), network.staged, ok, done)
      ensures Clean(old(ops), ops) && Accepted(ClearPlan(paths) + Steps(batch), old(network.staged)) ==> ok
    {
      ghost var a, b, c0 := ClearPlan(paths), Steps(batch), network.staged;
      ok, done := ClearListOptions(paths);
      ghost var c1 := network.staged;
      if !ok {
        RanStopped(a + b, a, b, c0, c1, done);
        return;
      }
      ghost var more: nat;
      ok, more := RunBatch(network, batch);
      RanThen(a + b, a, b, c0, c1, network.staged, ok, more);
      done := |a| + more;
    }

    method CreateInterface(name: string, i: Interface) returns (ok: bool, ghost done: nat)
      modifies `ops, network`staged
      ensures old(ops) <= ops
      ensures Ran(CreatePlan(net, name, i), old(network.staged), network.staged, ok, done)
      ensures Clean(old(ops), ops) && Accepted(CreatePlan(net, name, i), old(network.staged)) ==> ok
    {
      var paths := ListOptions(name, i);
      var batch := BuildInterface(net, name, i);
      ok, done := ClearThenRun(paths, batch);
    }

    // Delete what is recorded, then create.
    method DeleteThenCreate(sections: Sections, paths: seq<Path>, batch: seq<Command>)
      returns (ok: bool, ghost done: nat)
      modifies `ops, network`staged
      ensures old(ops) <= ops
      ensures Ran(DeletePlan(sections) + (ClearPlan(paths) + Steps(batch)), old(network.staged), network.staged,
                  ok, done)
      ensures Clean(old(ops), ops) ==>
        Accepted(DeletePlan(sections) + (ClearPlan(paths) + Steps(batch)), old(network.staged)) ==> ok
    {
      ghost var a, b, c0 := DeletePlan(sections), ClearPlan(paths) + Steps(batch), network.staged;
      ok, done := DeleteSections(sections);
      ghost var c1 := network.staged;
      if !ok {
        RanStopped(a + b, a, b, c0, c1, done);
        return;
      }
      ghost var more: nat;
      ok, more := ClearThenRun(paths, batch);
      RanThen(a + b, a, b, c0, c1, network.staged, ok, more);
      done := |a| + more;
    }

    method ReplaceInterface(sections: Sections, name: string, i: Interface) returns (ok: bool, ghost done: nat)
      modifies `ops, network`staged
      ensures old(ops) <= ops
      ensures Ran(DeletePlan(sections) + CreatePlan(net, name, i), old(network.staged), network.staged, ok, done)
      ensures Clean(old(ops), ops) ==>
        Accepted(DeletePlan(sections) + CreatePlan(net, name, i), old(network.staged)) ==> ok
    {
      var paths := ListOptions(name, i);
      var batch := BuildInterface(net, name, i);
      ok, done := DeleteThenCreate(sections, paths, batch);
    }

    method WriteInterface(d: InterfaceDiff) returns (ok: bool, ghost done: nat)
      requires HasContent(d)
      modifies `ops, network`staged
      ensures old(ops) <= ops
      ensures Ran(InterfacePlan(net, d), old(network.staged), network.staged, ok, done)
      ensures Clean(old(ops), ops) && Accepted(InterfacePlan(net, d), old(network.staged)) ==> ok
    {
      match d.change {
        case Removed =>
          ok, done := DeleteSections(d.sections);
        case Changed =>
          ok, done := ReplaceInterface(d.sections, d.name, d.content.value);
        case New =>
          ok, done := CreateInterface(d.name, d.content.value);
        case Unchanged =>
          ok, done := true, 0;
      }
    }

    method WriteUCI(ds: seq<InterfaceDiff>) returns (ok: bool, ghost done: nat)
      requires forall n :: 0 <= n < |ds| ==> HasContent(ds[n])
      modifies `ops, network`staged
      ensures old(ops) <= ops
      ensures Ran(NetworkPlan(net, ds), old(network.staged), network.staged, ok, done)
      ensures Clean(old(ops), ops) && Accepted(NetworkPlan(net, ds), old(network.staged)) ==> ok
    {
      ok, done := true, 0;
      ghost var start := network.staged;
      for n := 0 to |ds|
        invariant old(ops) <= ops
        invariant ok && Ran(NetworkPlan(net, ds[..n]), start, network.staged, true, done)
      {
        ghost var c1 := network.staged;
        ghost var more: nat;
        ok, more := WriteInterface(ds[n]);
        InterfaceRan(net, ds, n, start, c1, network.staged, ok, done, more);
        done := done + more;
        if !ok {
          return;
        }
      }
      assert ds[..|ds|] == ds;
    }

    // ----- the firewall -----

    method CreateZone() returns (ok: bool, ghost done: nat)
      modifies `ops, firewall`staged
      ensures old(ops) <= ops
      ensures Ran(CreateZonePlan(), old(firewall.staged), firewall.staged, ok, done)
      ensures Clean(old(ops), ops) && Accepted(CreateZonePlan(), old(firewall.staged)) ==> ok
    {
      var zone, forwardings := Batch([ZoneProgram()]), Batch(ForwardingPrograms());
      BatchConcat([ZoneProgram()], ForwardingPrograms());
      StepsConcat(zone, forwardings);
      ghost var c0 := firewall.staged;
      ok, done := RunBatch(firewall, zone);
      ghost var c1 := firewall.staged;
      if !ok {
        RanStopped(CreateZonePlan(), Steps(zone), Steps(forwardings), c0, c1, done);
        return;
      }
      ghost var more: nat;
      ok, more := RunBatch(firewall, forwardings);
      RanThen(CreateZonePlan(), Steps(zone), Steps(forwardings), c0, c1, firewall.staged, ok, more);
      done := |Steps(zone)| + more;
    }

    method TearDownZone() returns (ok: bool, ghost done: nat)
      modifies `ops, firewall`staged
      ensures old(ops) <= ops
      ensures Ran(TeardownPlan(), old(firewall.staged), firewall.staged, ok, done)
      ensures Clean(old(ops), ops) && Accepted(TeardownPlan(), old(firewall.staged)) ==> ok
    {
      StepsConcat(DeleteForwardings(), [DeleteZone()]);
      assert Steps([DeleteZone()]) == [Do(DeleteZone())];
      ghost var c0 := firewall.staged;
      ok, done := RunBatch(firewall, DeleteForwardings());
      ghost var c1 := firewall.staged;
      if !ok {
        RanStopped(TeardownPlan(), Steps(DeleteForwardings()), [Do(DeleteZone())], c0, c1, done);
        return;
      }
      ok := RunCommand(firewall, DeleteZone());
      RanStep(TeardownPlan(), Steps(DeleteForwardings()), Do(DeleteZone()), c0, c1, firewall.staged, ok);
      done := if ok then done + 1 else done;
    }

    method RemoveMembers(names: seq<string>) returns (ok: bool, ghost done: nat)
      modifies `ops, firewall`staged
      ensures old(ops) <= ops
      ensures Ran(Removals(names), old(firewall.staged), firewall.staged, ok, done)
      ensures Clean(old(ops), ops) && Accepted(Removals(names), old(firewall.staged)) ==> ok
    {
      ok, done := true, 0;
      ghost var start := firewall.staged;
      for n := 0 to |names|
        invariant old(ops) <= ops
        invariant ok && Ran(Removals(names[..n]), start, firewall.staged, true, done)
      {
        ghost var a, c1 := Removals(names[..n]), firewall.staged;
        RemovalsSplit(names, n);
        ok := RunCommand(firewall, RemoveMember(names[n]));
        RanStep(Removals(names[..n + 1]), a, Do(RemoveMember(names[n])), start, c1, firewall.staged, ok);
        done := if ok then |a| + 1 else |a|;
        if !ok {
          RanStopped(Removals(names), Removals(names[..n + 1]), Removals(names[n + 1..]), start, firewall.staged, done);
          return;
        }
      }
      assert names[..|names|] == names;
    }

    method AddMembers(names: seq<string>) returns (ok: bool, ghost done: nat)
      modifies `ops, firewall`staged
      ensures old(ops) <= ops
      ensures Ran(Additions(names), old(firewall.staged), firewall.staged, ok, done)
      ensures Clean(old(ops), ops) && Accepted(Additions(names), old(firewall.staged)) ==> ok
    {
      ok, done := true, 0;
      ghost var start := firewall.staged;
      for n := 0 to |names|
        invariant old(ops) <= ops
        invariant ok && Ran(Additions(names[..n]), start, firewall.staged, true, done)
      {
        ghost var a, rest, c1 := Additions(names[..n]), Additions(names[n + 1..]), firewall.staged;
        ghost var removal, addition := Do(RemoveMember(names[n])), Do(AddMember(names[n]));
        AdditionsSplit(names, n);
        ok := RunCommand(firewall, RemoveMember(names[n]));
        ghost var c2 := firewall.staged;
        RanStep(a + [removal], a, removal, start, c1, c2, ok);
        if !ok {
          done := |a|;
          RanStopped(Additions(names), a + [removal], [addition] + rest, start, c2, done);
          return;
        }
        ok := RunCommand(firewall, AddMember(names[n]));
        RanStep(Additions(names[..n + 1]), a + [removal], addition, start, c2, firewall.staged, ok);
        done := if ok then |a| + 2 else |a| + 1;
        if !ok {
          RanStopped(Additions(names), Additions(names[..n + 1]), rest, start, firewall.staged, done);
          return;
        }
      }
      assert names[..|names|] == names;
    }

    // manageFirewall up to its first command: who joins, who leaves, whether any stays.
    method SortMembers(ds: seq<InterfaceDiff>, members: seq<string>)
      returns (toAdd: seq<string>, toRemove: seq<string>, remaining: nat)
      ensures toAdd == ToAdd(ds, members) && toRemove == ToRemove(ds, members)
      ensures remaining == 0 <==> Kept(ds) == []
    {
      toAdd, toRemove, remaining := [], [], 0;
      for n := 0 to |ds|
        invariant toAdd == ToAdd(ds[..n], members) && toRemove == ToRemove(ds[..n], members)
        invariant remaining == 0 <==> Kept(ds[..n]) == []
      {
        assert ds[..n + 1][..n] == ds[..n];
        if ds[n].change.Removed? {
          if ds[n].name in members {
            toRemove := toRemove + [ds[n].name];
          }
        } else {
          remaining := remaining + 1;
          if ds[n].name !in members {
            toAdd := toAdd + [ds[n].name];
          }
        }
      }
      assert ds[..|ds|] == ds;
    }

    method KeepMembers(ds: seq<InterfaceDiff>, haveMembers: set<string>) returns (members: seq<string>)
      requires forall n :: 0 <= n < |ds| && !ds[n].change.Removed? ==> ds[n].name in haveMembers
      ensures members == Kept(ds)
    {
      members := [];
      for n := 0 to |ds|
        invariant members == Kept(ds[..n])
      {
        assert ds[..n + 1][..n] == ds[..n];
        if !ds[n].change.Removed? && ds[n].name in haveMembers {
          members := members + [ds[n].name];
        }
      }
      assert ds[..|ds|] == ds;
    }

    method EnsureZone(owned: bool) returns (ok: bool, ghost done: nat)
      modifies `ops, firewall`staged
      ensures old(ops) <= ops
      ensures Ran(ZonePart(owned), old(firewall.staged), firewall.staged, ok, done)
      ensures Clean(old(ops), ops) && Accepted(ZonePart(owned), old(firewall.staged)) ==> ok
    {
      ok, done := true, 0;
      if !owned {
        ok, done := CreateZone();
      }
    }

    method EnsureAndRemove(owned: bool, toRemove: seq<string>) returns (ok: bool, ghost done: nat)
      modifies `ops, firewall`staged
      ensures old(ops) <= ops
      ensures Ran(ZonePart(owned) + Removals(toRemove), old(firewall.staged), firewall.staged, ok, done)
      ensures Clean(old(ops), ops) && Accepted(ZonePart(owned) + Removals(toRemove), old(firewall.staged)) ==> ok
    {
      ghost var c0 := firewall.staged;
      ok, done := EnsureZone(owned);
      ghost var c1 := firewall.staged;
      ghost var more: nat := 0;
      if ok {
        ok, more := RemoveMembers(toRemove);
      }
      BothRan(ZonePart(owned), Removals(toRemove), c0, c1, firewall.staged, ok, done, more);
      done := done + more;
    }

    method EditMembers(owned: bool, toRemove: seq<string>, toAdd: seq<string>) returns (ok: bool, ghost done: nat)
      modifies `ops, firewall`staged
      ensures old(ops) <= ops
      ensures Ran(EditPlan(owned, toRemove, toAdd), old(firewall.staged), firewall.staged, ok, done)
      ensures Clean(old(ops), ops) && Accepted(EditPlan(owned, toRemove, toAdd), old(firewall.staged)) ==> ok
    {
      ghost var a, b, c0 := ZonePart(owned) + Removals(toRemove), Additions(toAdd), firewall.staged;
      ghost var whole := EditPlan(owned, toRemove, toAdd);
      ok, done := EnsureAndRemove(owned, toRemove);
      ghost var c1 := firewall.staged;
      if !ok {
        RanStopped(whole, a, b, c0, c1, done);
        return;
      }
      ghost var more: nat;
      ok, more := AddMembers(toAdd);
      RanThen(whole, a, b, c0, c1, firewall.staged, ok, more);
      done := done + more;
    }

    method ManageFirewall(ds: seq<InterfaceDiff>, have: FirewallState)
      returns (ok: bool, record: FirewallState, changed: bool, ghost done: nat)
      requires DistinctNames(ds)
      modifies `ops, firewall`staged
      ensures old(ops) <= ops
      ensures Ran(Manage(ds, have, ZONE in old(firewall.staged)).plan, old(firewall.staged), firewall.staged, ok, done)
      ensures ok ==> record == Manage(ds, have, ZONE in old(firewall.staged)).record
      ensures ok ==> changed == Manage(ds, have, ZONE in old(firewall.staged)).changed
      ensures Clean(old(ops), ops) ==>
        Accepted(Manage(ds, have, ZONE in old(firewall.staged)).plan, old(firewall.staged)) ==> ok
    {
      var haveMembers := set name | name in have.members;
      var toAdd, toRemove, remaining := SortMembers(ds, have.members);
      ok, record, changed, done := true, NO_FIREWALL, false, 0;
      if remaining == 0 {
        if have.zoneOwned {
          ok, done := TearDownZone();
          changed := true;
        }
        return;
      }
      if toAdd == [] && toRemove == [] {
        record := have;
        return;
      }
      if !have.zoneOwned {
        var present := Get(firewall, SectionPath(ZONE));
        if present {
          return;
        }
      }
      ok, done := EditMembers(have.zoneOwned, toRemove, toAdd);
      if !ok {
        return;
      }
      haveMembers := haveMembers - (set name | name in toRemove) + set name | name in toAdd;
      StaysMember(ds, have.members);
      var members := KeepMembers(ds, haveMembers);
      record, changed := FirewallState(true, members), true;
    }

    // ----- the rest of the apply -----

    // One more call, if it succeeds.
    method Invoke(call: Call) returns (ok: bool)
      modifies `ops, `calls
      ensures ops == old(ops) + 1 && ok == !fails(old(ops))
      ensures calls == old(calls) + if ok then [call] else []
    {
      ok := Attempt();
      if ok {
        calls := calls + [call];
      }
    }

    method IfupChanged(ds: seq<InterfaceDiff>) returns (ok: bool)
      modifies `ops, `calls
      ensures old(ops) <= ops && (Clean(old(ops), ops) ==> ok)
      ensures Called(old(calls), Ifups(ds), calls, ok)
    {
      ok := true;
      assert Ifups(ds[..0]) == [];
      for n := 0 to |ds|
        invariant old(ops) <= ops
        invariant ok && calls == old(calls) + Ifups(ds[..n])
      {
        IfupsSplit(ds, n);
        if ds[n].change.New? || ds[n].change.Changed? {
          ok := Invoke(Ifup(ds[n].name));
          if !ok {
            CalledPart(old(calls), Ifups(ds), calls, |Ifups(ds[..n])|);
            return;
          }
        }
      }
      assert ds[..|ds|] == ds;
    }

    method ApplyStunmesh(diff: Diff) returns (ok: bool)
      modifies `ops, `calls, `stunmeshFile
      ensures old(ops) <= ops && (Clean(old(ops), ops) ==> ok)
      ensures stunmeshFile == if ok then StunmeshAfter(diff, old(stunmeshFile)) else old(stunmeshFile)
      ensures calls == old(calls) + if ok then StunmeshCalls(diff) else []
    {
      match diff.stunmesh {
        case StunmeshEmpty =>
          ok := Invoke(WriteStunmesh);
          if ok {
            stunmeshFile := None;
          }
        case StunmeshChanged =>
          ok := Invoke(WriteStunmesh);
          if ok {
            stunmeshFile := Some(diff.text);
          }
        case StunmeshUnchanged =>
          ok := true;
      }
    }

    method RecordEntry(d: InterfaceDiff, recorded: map<string, Record>) returns (r: Record)
      requires Recordable(d, recorded) && !d.change.Removed?
      ensures r == RecordOf(d, recorded)
    {
      if d.change.Unchanged? {
        return recorded[d.name];
      }
      var sections := SectionsOf(d.name, d.content.value);
      r := Record(d.content.value, sections);
    }

    method BuildState(diff: Diff, state: State, firewallState: FirewallState) returns (next: State)
      requires Usable(diff, state)
      ensures next == StateOf(diff, state, firewallState)
    {
      var ds := diff.interfaces;
      var wg: map<string, Record> := map[];
      for n := 0 to |ds|
        invariant forall k :: 0 <= k < |ds[..n]| ==> Recordable(ds[..n][k], state.wg)
        invariant wg == Records(ds[..n], state.wg)
      {
        RecordsNext(ds, state.wg, n);
        if !ds[n].change.Removed? {
          var r := RecordEntry(ds[n], state.wg);
          wg := wg[ds[n].name := r];
        }
      }
      assert ds[..|ds|] == ds;
      next := State(wg, diff.text, firewallState);
    }

    method SectionsOf(name: string, i: Interface) returns (s: Sections)
      ensures s == SectionsFor(name, i)
    {
      var routes := RouteSectionNames(name, i.routes);
      var peers := PeerSectionNames(name, i.peers);
      s := Sections(name, routes, peers);
    }

    // ----- the apply -----

    ghost function Snapshot(): World
      reads this, network, firewall
    {
      World(Store(network.staged, network.committed), Store(firewall.staged, firewall.committed), lastFile,
            stunmeshFile)
    }

    // The store is what a cut of this plan leaves.
    ghost predicate Held(store: ConfigStore, plan: seq<Step>, n: Store, c: Cut)
      reads store
    {
      Store(store.staged, store.committed) == AfterCut(plan, n, c)
    }

    // Each config is committed as a whole or as it was before, if the apply failed by a single
    // fault, or by a refusal alone.
    ghost predicate UndoneUnlessFaults(diff: Diff, state: State, w: World, from: nat, cut: Cut, firewallCut: Cut)
      requires Usable(diff, state)
      reads `ops
    {
      (OneFault(from, ops) && Unopposed(net, w, diff, state)) || Clean(from, ops) ==>
        (cut.pastCommit || Undone(cut)) && (firewallCut.pastCommit || Undone(firewallCut))
    }

    // Commit what is staged, the whole plan.
    method CommitAll(store: ConfigStore, ghost plan: seq<Step>, ghost n: Store, ghost c: Cut)
      returns (ok: bool, ghost c': Cut)
      requires Held(store, plan, n, c) && c == AllSteps(plan)
      modifies `ops, store`committed
      ensures ops == old(ops) + 1 && ok == !fails(old(ops))
      ensures Held(store, plan, n, c') && c' == if ok then c.(pastCommit := true) else c
    {
      AllStepsRun(plan, n);
      ok := Commit(store);
      c' := if ok then c.(pastCommit := true) else c;
    }

    method RevertCut(store: ConfigStore, ghost plan: seq<Step>, ghost n: Store, ghost c: Cut) returns (ghost c': Cut)
      requires Held(store, plan, n, c) && !c.pastCommit
      modifies `ops, store`staged
      ensures ops == old(ops) + 1
      ensures Held(store, plan, n, c') && !c'.pastCommit && c'.steps == c.steps
      ensures Undone(c') || fails(old(ops))
    {
      ghost var reverted := Revert(store);
      c' := if reverted then c.(reverted := true) else c;
    }

    method StageNetwork(ds: seq<InterfaceDiff>) returns (ok: bool, ghost c: Cut)
      requires forall n :: 0 <= n < |ds| ==> HasContent(ds[n])
      modifies `ops, network`staged
      ensures old(ops) <= ops
      ensures Held(network, NetworkPlan(net, ds), old(Store(network.staged, network.committed)), c) && !c.pastCommit
      ensures ok ==> c == AllSteps(NetworkPlan(net, ds))
      ensures Clean(old(ops), ops) && Accepted(NetworkPlan(net, ds), old(network.staged)) ==> ok
    {
      ghost var before := network.staged;
      ghost var done: nat;
      ok, done := WriteUCI(ds);
      RanIsPrefix(NetworkPlan(net, ds), before, network.staged, ok, done);
      c := Cut(false, done, false, false);
    }

    method StageFirewall(ds: seq<InterfaceDiff>, have: FirewallState)
      returns (ok: bool, record: FirewallState, changed: bool, ghost c: Cut)
      requires DistinctNames(ds)
      modifies `ops, firewall`staged
      ensures old(ops) <= ops
      ensures Held(firewall, FirewallHalf(ds, have, ZONE in old(firewall.staged)).plan,
                   old(Store(firewall.staged, firewall.committed)), c)
      ensures !c.pastCommit
      ensures var out := FirewallHalf(ds, have, ZONE in old(firewall.staged));
        ok ==> c == AllSteps(out.plan) && record == out.record && changed == out.changed
      ensures Clean(old(ops), ops) ==>
        Accepted(FirewallHalf(ds, have, ZONE in old(firewall.staged)).plan, old(firewall.staged)) ==> ok
    {
      ok, record, changed := true, have, false;
      ghost var done: nat := 0;
      ghost var before := firewall.staged;
      var any := AnyInterfaceChanged(ds);
      if any {
        ok, record, changed, done := ManageFirewall(ds, have);
        RanIsPrefix(Manage(ds, have, ZONE in before).plan, before, firewall.staged, ok, done);
      }
      c := Cut(false, done, false, false);
    }

    method AnyInterfaceChanged(ds: seq<InterfaceDiff>) returns (any: bool)
      ensures any <==> AnyChanged(ds)
    {
      for n := 0 to |ds|
        invariant forall k :: 0 <= k < n ==> ds[k].change.Unchanged?
      {
        if !ds[n].change.Unchanged? {
          return true;
        }
      }
      any := false;
    }

    // Stage both configs; if either fails, revert what was staged.
    method StageBoth(diff: Diff, state: State)
      returns (ok: bool, record: FirewallState, changed: bool, ghost cut: Cut, ghost firewallCut: Cut)
      requires network != firewall && Usable(diff, state)
      modifies `ops, network`staged, firewall`staged
      ensures old(ops) <= ops
      ensures Held(network, NetworkHalf(net, diff, state), old(Snapshot()).network, cut) && !cut.pastCommit
      ensures Held(firewall, FirewallPart(old(Snapshot()), diff, state).plan, old(Snapshot()).firewall, firewallCut)
      ensures !firewallCut.pastCommit
      ensures !ok ==> UndoneUnlessFaults(diff, state, old(Snapshot()), old(ops), cut, firewallCut)
      ensures ok ==> cut == AllSteps(NetworkHalf(net, diff, state))
      ensures var out := FirewallPart(old(Snapshot()), diff, state);
        ok ==> firewallCut == AllSteps(out.plan) && record == out.record && changed == out.changed
      ensures Clean(old(ops), ops) && Unopposed(net, old(Snapshot()), diff, state) ==> ok
    {
      ghost var w := Snapshot();
      ok, cut := StageNetwork(diff.interfaces);
      record, changed, firewallCut := state.firewall, false, Cut(false, 0, false, false);
      if !ok {
        cut := RevertCut(network, NetworkHalf(net, diff, state), w.network, cut);
        return;
      }
      ok, record, changed, firewallCut := StageFirewall(diff.interfaces, state.firewall);
      if !ok {
        cut := RevertCut(network, NetworkHalf(net, diff, state), w.network, cut);
        firewallCut := RevertCut(firewall, FirewallPart(w, diff, state).plan, w.firewall, firewallCut);
      }
    }

    // Commit the network, then the firewall if it changed; whatever is not committed is reverted.
    method CommitBoth(changed: bool, ghost w: World, ghost plan: seq<Step>, ghost firewallPlan: seq<Step>)
      returns (ok: bool, ghost cut: Cut, ghost firewallCut: Cut)
      requires network != firewall && (!changed ==> firewallPlan == [])
      requires Held(network, plan, w.network, AllSteps(plan))
      requires Held(firewall, firewallPlan, w.firewall, AllSteps(firewallPlan))
      modifies `ops, network, firewall
      ensures old(ops) <= ops
      ensures Held(network, plan, w.network, cut) && Held(firewall, firewallPlan, w.firewall, firewallCut)
      ensures firewallCut.pastCommit ==> cut.pastCommit
      ensures !ok ==>
        !firewallCut.pastCommit && (OneFault(old(ops), ops) ==> (cut.pastCommit || Undone(cut)) && Undone(firewallCut))
      ensures !ok ==> !Clean(old(ops), ops)
      ensures ok ==> cut.pastCommit && (changed <==> firewallCut.pastCommit)
      ensures ok && !changed ==> firewallCut == AllSteps(firewallPlan)
      ensures Clean(old(ops), ops) ==> ok
    {
      firewallCut := AllSteps(firewallPlan);
      ok, cut := CommitAll(network, plan, w.network, AllSteps(plan));
      if !ok {
        cut := RevertCut(network, plan, w.network, cut);
        firewallCut := RevertCut(firewall, firewallPlan, w.firewall, firewallCut);
        return;
      }
      if changed {
        ok, firewallCut := CommitAll(firewall, firewallPlan, w.firewall, firewallCut);
        if !ok {
          firewallCut := RevertCut(firewall, firewallPlan, w.firewall, firewallCut);
        }
      }
    }

    method StageAndCommit(diff: Diff, state: State)
      returns (ok: bool, record: FirewallState, changed: bool, ghost cut: Cut, ghost firewallCut: Cut)
      requires network != firewall && Usable(diff, state)
      modifies `ops, network, firewall
      ensures old(ops) <= ops
      ensures Held(network, NetworkHalf(net, diff, state), old(Snapshot()).network, cut)
      ensures Held(firewall, FirewallPart(old(Snapshot()), diff, state).plan, old(Snapshot()).firewall, firewallCut)
      ensures firewallCut.pastCommit ==> cut.pastCommit
      ensures !ok ==> UndoneUnlessFaults(diff, state, old(Snapshot()), old(ops), cut, firewallCut)
      ensures ok ==> BothDone(FirewallPart(old(Snapshot()), diff, state), record, changed, cut, firewallCut)
      ensures Clean(old(ops), ops) && Unopposed(net, old(Snapshot()), diff, state) ==> ok
    {
      ghost var w := Snapshot();
      ok, record, changed, cut, firewallCut := StageBoth(diff, state);
      if !ok {
        return;
      }
      UnchangedPlan(diff.interfaces, state.firewall, ZONE in w.firewall.staged);
      ok, cut, firewallCut := CommitBoth(changed, w, NetworkHalf(net, diff, state), FirewallPart(w, diff, state).plan);
    }

    // Reload the network, bring interfaces up, reload the firewall if it changed.
    method ReloadAll(diff: Diff, changed: bool) returns (ok: bool)
      modifies `ops, `calls
      ensures old(ops) <= ops
      ensures Called(old(calls), ReloadCalls(diff, changed), calls, ok)
      ensures Clean(old(ops), ops) ==> ok
    {
      ghost var c0, all := calls, ReloadCalls(diff, changed);
      ghost var reload, ifups := [ReloadNetwork], Ifups(diff.interfaces);
      assert all == reload + ifups + FirewallCalls(changed);
      ok := Invoke(ReloadNetwork);
      if !ok {
        CalledPart(c0, all, calls, 0);
        return;
      }
      ok := IfupChanged(diff.interfaces);
      CalledThen(c0, reload, ifups, c0 + reload, calls, ok);
      if !ok {
        CalledStopped(c0, reload + ifups, all, calls);
        return;
      }
      if changed {
        ok := Invoke(ReloadFirewall);
        if !ok {
          assert all[..|reload + ifups|] == reload + ifups;
          CalledPart(c0, all, calls, |reload + ifups|);
        }
      }
    }

    // The stunmesh file, and last of all last.json.
    method WriteFiles(diff: Diff, state: State, record: FirewallState) returns (ok: bool)
      requires Usable(diff, state)
      modifies `ops, `calls, `stunmeshFile, `lastFile
      ensures old(ops) <= ops
      ensures lastFile == if ok then Stored(StateOf(diff, state, record)) else old(lastFile)
      ensures Called(old(calls), StunmeshCalls(diff) + [WriteLast], calls, ok)
      ensures ok ==> stunmeshFile == StunmeshAfter(diff, old(stunmeshFile))
      ensures stunmeshFile == old(stunmeshFile) || stunmeshFile == StunmeshAfter(diff, old(stunmeshFile))
      ensures Clean(old(ops), ops) ==> ok
    {
      ghost var c0, all := calls, StunmeshCalls(diff) + [WriteLast];
      ok := ApplyStunmesh(diff);
      if !ok {
        CalledPart(c0, all, calls, 0);
        return;
      }
      var next := BuildState(diff, state, record);
      ok := Invoke(WriteLast);
      if ok {
        lastFile := Stored(next);
      } else {
        CalledPart(c0, all, calls, |StunmeshCalls(diff)|);
      }
    }

    // Reload, bring interfaces up, write the stunmesh file, and last of all last.json: in this
    // order, up to the first failure.
    method Finish(diff: Diff, state: State, record: FirewallState, changed: bool) returns (ok: bool)
      requires Usable(diff, state)
      modifies `ops, `calls, `stunmeshFile, `lastFile
      ensures old(ops) <= ops
      ensures lastFile == if ok then Stored(StateOf(diff, state, record)) else old(lastFile)
      ensures Called(old(calls), FinishCalls(diff, changed), calls, ok)
      ensures ok ==> stunmeshFile == StunmeshAfter(diff, old(stunmeshFile))
      ensures stunmeshFile == old(stunmeshFile) || stunmeshFile == StunmeshAfter(diff, old(stunmeshFile))
      ensures Clean(old(ops), ops) ==> ok
    {
      ghost var c0, reloads := calls, ReloadCalls(diff, changed);
      FinishParts(diff, changed);
      ok := ReloadAll(diff, changed);
      if !ok {
        CalledStopped(c0, reloads, FinishCalls(diff, changed), calls);
        return;
      }
      ok := WriteFiles(diff, state, record);
      CalledThen(c0, reloads, StunmeshCalls(diff) + [WriteLast], c0 + reloads, calls, ok);
    }

    // A successful apply does all of it; any other leaves last.json alone and each config as
    // a cut of its plan leaves it.  Without faults it succeeds.
    method ApplyDiff(diff: Diff, state: State) returns (ok: bool, ghost cut: Cut, ghost firewallCut: Cut)
      requires network != firewall && Usable(diff, state)
      modifies `ops, `calls, `stunmeshFile, `lastFile, network, firewall
      ensures old(ops) <= ops
      ensures ok ==> Snapshot() == Applied(net, old(Snapshot()), diff, state)
      ensures Called(old(calls), FinishCalls(diff, FirewallPart(old(Snapshot()), diff, state).changed), calls, ok)
      ensures CallsInOrder(old(calls), calls, diff, firewall.committed != old(firewall.committed),
                           FirewallPart(old(Snapshot()), diff, state).plan != [], ok)
      ensures !ok ==> Interrupted(net, old(Snapshot()), diff, state, Snapshot(), cut, firewallCut)
      ensures !ok ==> UndoneUnlessFaults(diff, state, old(Snapshot()), old(ops), cut, firewallCut)
      ensures Clean(old(ops), ops) && Unopposed(net, old(Snapshot()), diff, state) ==> ok
    {
      ghost var w := Snapshot();
      var record, changed;
      ok, record, changed, cut, firewallCut := StageAndCommit(diff, state);
      if !ok {
        NoneCalled(calls, diff, FirewallPart(w, diff, state).changed, firewall.committed != w.firewall.committed,
                   FirewallPart(w, diff, state).plan != []);
        return;
      }
      ghost var before := calls;
      ok := Finish(diff, state, record, changed);
      FinishedInOrder(net, w, diff, state, before, calls, firewall.committed, firewallCut, ok);
      if ok {
        AllCuts(net, w, diff, state, Snapshot(), changed, cut, firewallCut);
      }
    }
  }

  function AllSteps(plan: seq<Step>): Cut { Cut(false, |plan|, false, false) }

  lemma AllStepsRun(plan: seq<Step>, n: Store)
    ensures AfterCut(plan, n, AllSteps(plan)) == Store(Run(plan, n.staged), n.committed)
    ensures AfterCut(plan, n, AllSteps(plan).(pastCommit := true)) == Committed(plan, n)
  {
    assert Prefix(plan, |plan|) == plan;
  }

  // Past the commits: the network is committed, and the firewall if it changed.
  ghost predicate BothDone(out: Outcome, record: FirewallState, changed: bool, cut: Cut, firewallCut: Cut) {
    && cut.pastCommit && record == out.record && changed == out.changed
    && (out.changed <==> firewallCut.pastCommit) && (!out.changed ==> firewallCut == AllSteps(out.plan))
  }

  lemma UnchangedPlan(ds: seq<InterfaceDiff>, have: FirewallState, present: bool)
    ensures var out := FirewallHalf(ds, have, present); !out.changed ==> out.plan == []
  {
  }

  // Both halves committed, as far as there was something to commit.
  lemma AllCuts(net: Net, w: World, diff: Diff, state: State, after: World, changed: bool, cut: Cut, firewallCut: Cut)
    requires Usable(diff, state)
    requires after.network == AfterCut(NetworkHalf(net, diff, state), w.network, cut)
    requires after.firewall == AfterCut(FirewallPart(w, diff, state).plan, w.firewall, firewallCut)
    requires BothDone(FirewallPart(w, diff, state), FirewallPart(w, diff, state).record, changed, cut, firewallCut)
    requires after.last == Stored(StateOf(diff, state, FirewallPart(w, diff, state).record))
    requires after.stunmesh == StunmeshAfter(diff, w.stunmesh)
    ensures after == Applied(net, w, diff, state)
  {
    var out := FirewallPart(w, diff, state);
    UnchangedPlan(diff.interfaces, state.firewall, ZONE in w.firewall.staged);
    AllStepsRun(out.plan, w.firewall);
  }

  // The interfaces to bring up: the new and the changed ones, in the order of the diff.
  function Brought(ds: seq<InterfaceDiff>): seq<string> {
    if ds == [] then []
    else
      var d := ds[|ds| - 1];
      Brought(ds[..|ds| - 1]) + if d.change.New? || d.change.Changed? then [d.name] else []
  }

  // ----- what an apply does after its commits -----

  // A reload, an `ifup`, or a file written or deleted.
  datatype Call = ReloadNetwork | Ifup(name: string) | ReloadFirewall | WriteStunmesh | WriteLast

  function Ifups(ds: seq<InterfaceDiff>): (calls: seq<Call>) {
    var names := Brought(ds);
    seq(|names|, n requires 0 <= n < |names| => Ifup(names[n]))
  }

  function FirewallCalls(changed: bool): seq<Call> { if changed then [ReloadFirewall] else [] }

  function StunmeshCalls(diff: Diff): seq<Call> { if diff.stunmesh.StunmeshUnchanged? then [] else [WriteStunmesh] }

  function FinishCalls(diff: Diff, changed: bool): seq<Call> {
    [ReloadNetwork] + Ifups(diff.interfaces) + FirewallCalls(changed) + StunmeshCalls(diff) + [WriteLast]
  }

  // All of these calls were made, or the first few of them.
  ghost predicate Called(before: seq<Call>, all: seq<Call>, after: seq<Call>, ok: bool) {
    if ok then after == before + all else exists k :: 0 <= k < |all| && after == before + all[..k]
  }

  lemma CalledPart(before: seq<Call>, all: seq<Call>, after: seq<Call>, k: nat)
    requires k < |all| && after == before + all[..k]
    ensures Called(before, all, after, false)
  {
  }

  lemma CalledThen(before: seq<Call>, a: seq<Call>, b: seq<Call>, mid: seq<Call>, after: seq<Call>, ok: bool)
    requires mid == before + a && Called(mid, b, after, ok)
    ensures Called(before, a + b, after, ok)
  {
    if ok {
      assert after == before + (a + b);
    } else {
      var k :| 0 <= k < |b| && after == mid + b[..k];
      assert (a + b)[..|a| + k] == a + b[..k];
      CalledPart(before, a + b, after, |a| + k);
    }
  }

  lemma CalledStopped(before: seq<Call>, part: seq<Call>, all: seq<Call>, after: seq<Call>)
    requires part <= all && Called(before, part, after, false)
    ensures Called(before, all, after, false)
  {
    var k :| 0 <= k < |part| && after == before + part[..k];
    assert all[..k] == part[..k];
    CalledPart(before, all, after, k);
  }

  function ReloadCalls(diff: Diff, changed: bool): seq<Call> {
    [ReloadNetwork] + Ifups(diff.interfaces) + FirewallCalls(changed)
  }

  lemma FinishParts(diff: Diff, changed: bool)
    ensures FinishCalls(diff, changed) == ReloadCalls(diff, changed) + (StunmeshCalls(diff) + [WriteLast])
    ensures ReloadCalls(diff, changed) <= FinishCalls(diff, changed)
  {
  }

  // ----- in which order -----

  // The new and the changed interfaces, each brought up once, in the order of the diff.
  ghost predicate IfupsInOrder(done: seq<Call>, ds: seq<InterfaceDiff>) {
    && (forall p :: 0 <= p < |done| && done[p].Ifup? ==>
          exists i :: 0 <= i < |ds| && (ds[i].change.New? || ds[i].change.Changed?) && done[p] == Ifup(ds[i].name))
    && (forall i :: 0 <= i < |ds| && (ds[i].change.New? || ds[i].change.Changed?) ==> Ifup(ds[i].name) in done)
    && (forall p, q :: 0 <= p < q < |done| && done[p].Ifup? && done[q].Ifup? ==>
          Precedes(ds, done[p].name, done[q].name))
  }

  // Both names are in the diff, the first before the second.
  ghost predicate Precedes(ds: seq<InterfaceDiff>, a: string, b: string) {
    exists i, j :: 0 <= i < j < |ds| && ds[i].name == a && ds[j].name == b
  }

  // Before any other call comes the network reload, and nowhere else; then the ifups, then the
  // firewall reload, once: certainly if the firewall is another one than before, and never if it
  // was not edited; then the stunmesh file, exactly if it is to be deleted or rewritten;
  // last.json last.
  ghost predicate Orderly(done: seq<Call>, diff: Diff, firewallChanged: bool, edited: bool) {
    && |done| >= 2 && Framed(done) && IfupsInOrder(done, diff.interfaces)
    && (firewallChanged ==> ReloadFirewall in done) && (ReloadFirewall in done ==> edited)
    && FirewallPlaced(done) && StunmeshPlaced(done, diff)
  }

  predicate Framed(done: seq<Call>) {
    forall p :: 0 <= p < |done| ==>
      (done[p] == ReloadNetwork <==> p == 0) && (done[p] == WriteLast <==> p == |done| - 1)
  }

  predicate FirewallPlaced(done: seq<Call>) {
    && (forall p, q :: 0 <= p < |done| && 0 <= q < |done| && done[p].Ifup? && done[q] == ReloadFirewall ==> p < q)
    && forall p, q :: 0 <= p < q < |done| && done[p] == ReloadFirewall ==>
         done[q] == WriteStunmesh || done[q] == WriteLast
  }

  predicate StunmeshPlaced(done: seq<Call>, diff: Diff) {
    && (WriteStunmesh in done <==> diff.stunmesh == StunmeshEmpty || diff.stunmesh == StunmeshChanged)
    && forall p :: 0 <= p < |done| && done[p] == WriteStunmesh ==> p == |done| - 2
  }

  // The beginning of such a sequence.
  ghost predicate OrderlyPart(done: seq<Call>, diff: Diff, edited: bool) {
    exists all, changed :: Orderly(all, diff, changed, edited) && |done| < |all| && done == all[..|done|]
  }

  lemma {:induction false} BroughtInOrder(ds: seq<InterfaceDiff>)
    requires DistinctNames(ds)
    ensures forall p, q :: 0 <= p < q < |Brought(ds)| ==> Precedes(ds, Brought(ds)[p], Brought(ds)[q])
  {
    if ds != [] {
      var front, last := ds[..|ds| - 1], |ds| - 1;
      BroughtInOrder(front);
      forall p, q | 0 <= p < q < |Brought(ds)| ensures Precedes(ds, Brought(ds)[p], Brought(ds)[q]) {
        if q < |Brought(front)| {
          assert Precedes(front, Brought(front)[p], Brought(front)[q]);
          var i, j :| 0 <= i < j < |front| && front[i].name == Brought(front)[p] && front[j].name == Brought(front)[q];
          assert ds[i] == front[i] && ds[j] == front[j];
        } else {
          assert Brought(front)[p] in Brought(front);
          BroughtAre(front, Brought(front)[p]);
          var name := Brought(front)[p];
          var i :| 0 <= i < |front| && (front[i].change.New? || front[i].change.Changed?) && front[i].name == name;
          assert ds[i] == front[i] && ds[last].name == Brought(ds)[q];
        }
      }
    }
  }

  lemma Middle(before: seq<Call>, mid: seq<Call>, after: seq<Call>, p: nat)
    requires p < |before + mid + after|
    ensures var all, n := before + mid + after, |before|;
      all[p] in before || all[p] in after || (n <= p < n + |mid| && all[p] == mid[p - n])
  {
    var all, n := before + mid + after, |before|;
    if p < n {
      assert all[p] == before[p];
    } else if p >= n + |mid| {
      assert all[p] == after[p - n - |mid|];
    }
  }

  lemma IfupsOrdered(ds: seq<InterfaceDiff>, before: seq<Call>, after: seq<Call>)
    requires DistinctNames(ds)
    requires (forall c :: c in before ==> !c.Ifup?) && forall c :: c in after ==> !c.Ifup?
    ensures IfupsInOrder(before + Ifups(ds) + after, ds)
  {
    var names, all, n := Brought(ds), before + Ifups(ds) + after, |before|;
    forall p | 0 <= p < |all| && all[p].Ifup? ensures n <= p < n + |names| && all[p] == Ifup(names[p - n]) {
      Middle(before, Ifups(ds), after, p);
    }
    forall p | 0 <= p < |all| && all[p].Ifup?
      ensures exists i :: 0 <= i < |ds| && (ds[i].change.New? || ds[i].change.Changed?) && all[p] == Ifup(ds[i].name)
    {
      BroughtAre(ds, names[p - n]);
    }
    forall i | 0 <= i < |ds| && (ds[i].change.New? || ds[i].change.Changed?) ensures Ifup(ds[i].name) in all {
      BroughtAre(ds, ds[i].name);
      var m :| 0 <= m < |names| && names[m] == ds[i].name;
      assert all[n + m] == Ifup(ds[i].name);
    }
    BroughtInOrder(ds);
  }

  // The calls from one position on.
  lemma TailAt(ups: seq<Call>, after: seq<Call>, p: nat)
    requires forall c :: c in ups ==> c.Ifup?
    requires p < 1 + |ups| + |after|
    ensures var all := [ReloadNetwork] + ups + after;
      if p == 0 then all[p] == ReloadNetwork
      else if p <= |ups| then all[p].Ifup? else all[p] == after[p - 1 - |ups|]
  {
    if 0 < p <= |ups| { assert ups[p - 1] in ups; }
  }

  lemma TailPlaced(diff: Diff, changed: bool, ups: seq<Call>)
    requires forall c :: c in ups ==> c.Ifup?
    ensures var all := [ReloadNetwork] + ups + (FirewallCalls(changed) + StunmeshCalls(diff) + [WriteLast]);
      && |all| >= 2 && Framed(all) && FirewallPlaced(all) && StunmeshPlaced(all, diff)
      && (ReloadFirewall in all <==> changed)
  {
    var after := FirewallCalls(changed) + StunmeshCalls(diff) + [WriteLast];
    var all := [ReloadNetwork] + ups + after;
    forall p: nat | p < |all|
      ensures if p == 0 then all[p] == ReloadNetwork
        else if p <= |ups| then all[p].Ifup? else all[p] == after[p - 1 - |ups|]
    {
      TailAt(ups, after, p);
    }
    if changed { assert all[1 + |ups|] == ReloadFirewall; }
    if !diff.stunmesh.StunmeshUnchanged? { assert all[|all| - 2] == WriteStunmesh; }
  }

  lemma FinishOrderly(diff: Diff, changed: bool)
    requires DistinctNames(diff.interfaces)
    ensures Orderly(FinishCalls(diff, changed), diff, changed, changed)
  {
    var all, ups := FinishCalls(diff, changed), Ifups(diff.interfaces);
    var after := FirewallCalls(changed) + StunmeshCalls(diff) + [WriteLast];
    assert all == [ReloadNetwork] + ups + after;
    IfupsOrdered(diff.interfaces, [ReloadNetwork], after);
    TailPlaced(diff, changed, ups);
  }

  // The calls made since are in order, all of them or the first few.
  ghost predicate CallsInOrder(before: seq<Call>, after: seq<Call>, diff: Diff, firewallChanged: bool, edited: bool,
                               ok: bool) {
    && before <= after
    && if ok then Orderly(after[|before|..], diff, firewallChanged, edited)
       else OrderlyPart(after[|before|..], diff, edited)
  }

  lemma OrderlyWhen(done: seq<Call>, diff: Diff, changed: bool, firewallChanged: bool, edited: bool)
    requires Orderly(done, diff, changed, changed) && (firewallChanged ==> changed) && (changed ==> edited)
    ensures Orderly(done, diff, firewallChanged, edited)
  {
  }

  lemma CalledInOrder(before: seq<Call>, diff: Diff, changed: bool, after: seq<Call>, firewallChanged: bool,
                      edited: bool, ok: bool)
    requires DistinctNames(diff.interfaces) && Called(before, FinishCalls(diff, changed), after, ok)
    requires (firewallChanged ==> changed) && (changed ==> edited)
    ensures CallsInOrder(before, after, diff, firewallChanged, edited, ok)
  {
    var all := FinishCalls(diff, changed);
    FinishOrderly(diff, changed);
    OrderlyWhen(all, diff, changed, firewallChanged, edited);
    if ok {
      assert after[|before|..] == all;
    } else {
      var k :| 0 <= k < |all| && after == before + all[..k];
      assert after[|before|..] == all[..k];
    }
  }

  lemma NoneCalled(calls: seq<Call>, diff: Diff, changed: bool, firewallChanged: bool, edited: bool)
    requires DistinctNames(diff.interfaces)
    ensures Called(calls, FinishCalls(diff, changed), calls, false)
    ensures CallsInOrder(calls, calls, diff, firewallChanged, edited, false)
  {
    CalledPart(calls, FinishCalls(diff, changed), calls, 0);
    FinishOrderly(diff, false);
    OrderlyWhen(FinishCalls(diff, false), diff, false, false, edited);
    assert calls[|calls|..] == [] == FinishCalls(diff, false)[..0];
  }

  // Without a change there is nothing to commit; with one something was staged.
  lemma ChangedIsReloaded(net: Net, w: World, diff: Diff, state: State, committed: Config, firewallCut: Cut)
    requires committed == AfterCut(FirewallPart(w, diff, state).plan, w.firewall, firewallCut).committed
    requires firewallCut.pastCommit <==> FirewallPart(w, diff, state).changed
    ensures committed != w.firewall.committed ==> FirewallPart(w, diff, state).changed
    ensures FirewallPart(w, diff, state).changed ==> FirewallPart(w, diff, state).plan != []
  {
    ChangedPlans(diff.interfaces, state.firewall, ZONE in w.firewall.staged);
  }

  lemma FinishedInOrder(net: Net, w: World, diff: Diff, state: State, before: seq<Call>, after: seq<Call>,
                        committed: Config, firewallCut: Cut, ok: bool)
    requires DistinctNames(diff.interfaces)
    requires Called(before, FinishCalls(diff, FirewallPart(w, diff, state).changed), after, ok)
    requires committed == AfterCut(FirewallPart(w, diff, state).plan, w.firewall, firewallCut).committed
    requires firewallCut.pastCommit <==> FirewallPart(w, diff, state).changed
    ensures CallsInOrder(before, after, diff, committed != w.firewall.committed,
                         FirewallPart(w, diff, state).plan != [], ok)
  {
    ChangedIsReloaded(net, w, diff, state, committed, firewallCut);
    CalledInOrder(before, diff, FirewallPart(w, diff, state).changed, after, committed != w.firewall.committed,
                  FirewallPart(w, diff, state).plan != [], ok);
  }

  lemma IfupsSplit(ds: seq<InterfaceDiff>, n: nat)
    requires n < |ds|
    ensures Ifups(ds[..n + 1]) ==
      Ifups(ds[..n]) + if ds[n].change.New? || ds[n].change.Changed? then [Ifup(ds[n].name)] else []
    ensures Ifups(ds[..n]) <= Ifups(ds) && Ifups(ds[..n + 1]) <= Ifups(ds)
  {
    assert ds[..n + 1][..n] == ds[..n];
    BroughtPrefix(ds, n);
    BroughtPrefix(ds, n + 1);
  }

  lemma {:induction false} BroughtPrefix(ds: seq<InterfaceDiff>, n: nat)
    requires n <= |ds|
    ensures Brought(ds[..n]) <= Brought(ds)
    decreases |ds|
  {
    if n == |ds| {
      assert ds[..n] == ds;
    } else {
      assert ds[..|ds| - 1][..n] == ds[..n];
      BroughtPrefix(ds[..|ds| - 1], n);
    }
  }

  // An interface that stays is a member already and does not leave, or it joins.
  lemma StaysMember(ds: seq<InterfaceDiff>, members: seq<string>)
    requires DistinctNames(ds)
    ensures forall n :: 0 <= n < |ds| && !ds[n].change.Removed? ==>
      (ds[n].name in members && ds[n].name !in ToRemove(ds, members)) || ds[n].name in ToAdd(ds, members)
  {
    forall n | 0 <= n < |ds| && !ds[n].change.Removed?
      ensures (ds[n].name in members && ds[n].name !in ToRemove(ds, members)) || ds[n].name in ToAdd(ds, members)
    {
      PickMembers(ds, Joins(members), ds[n].name);
      PickMembers(ds, Test.Leaves(members), ds[n].name);
      assert ds[n].name !in members ==> Picked(ds, Joins(members), ds[n].name) by {
        assert ds[n].name !in members ==> Passes(Joins(members), ds[n]);
      }
    }
  }

  lemma PlanOfOne(net: Net, d: InterfaceDiff)
    requires HasContent(d)
    ensures NetworkPlan(net, [d]) == InterfacePlan(net, d)
  {
    assert [d][1..] == [];
    assert InterfacePlan(net, d) + [] == InterfacePlan(net, d);
  }

  lemma PlanSplits(net: Net, ds: seq<InterfaceDiff>, n: nat)
    requires n < |ds| && forall k :: 0 <= k < |ds| ==> HasContent(ds[k])
    ensures NetworkPlan(net, ds[..n + 1]) == NetworkPlan(net, ds[..n]) + InterfacePlan(net, ds[n])
    ensures NetworkPlan(net, ds) == NetworkPlan(net, ds[..n + 1]) + NetworkPlan(net, ds[n + 1..])
  {
    SplitAt(ds, n);
    PlanOfOne(net, ds[n]);
    NetworkPlanConcat(net, ds[..n], [ds[n]]);
    NetworkPlanConcat(net, ds[..n + 1], ds[n + 1..]);
  }

  lemma InterfaceRan(net: Net, ds: seq<InterfaceDiff>, n: nat, c0: Config, c1: Config, c2: Config, ok: bool, done: nat,
                     more: nat)
    requires n < |ds| && forall k :: 0 <= k < |ds| ==> HasContent(ds[k])
    requires Ran(NetworkPlan(net, ds[..n]), c0, c1, true, done)
    requires Ran(InterfacePlan(net, ds[n]), c1, c2, ok, more)
    ensures Ran(NetworkPlan(net, ds[..n + 1]), c0, c2, ok, done + more)
    ensures !ok ==> Ran(NetworkPlan(net, ds), c0, c2, false, done + more)
    ensures Accepted(NetworkPlan(net, ds), c0) ==> Accepted(InterfacePlan(net, ds[n]), c1)
  {
    PlanSplits(net, ds, n);
    RanNext(NetworkPlan(net, ds), NetworkPlan(net, ds[..n + 1]), NetworkPlan(net, ds[..n]), InterfacePlan(net, ds[n]),
            NetworkPlan(net, ds[n + 1..]), c0, c1, c2, ok, done, more);
  }

  lemma {:induction false} RemovalsConcat(a: seq<string>, b: seq<string>)
    ensures Removals(a + b) == Removals(a) + Removals(b)
  {
    if a == [] {
      assert a + b == b;
    } else {
      assert (a + b)[1..] == a[1..] + b;
      RemovalsConcat(a[1..], b);
    }
  }

  lemma SplitAt<T>(xs: seq<T>, n: nat)
    requires n < |xs|
    ensures xs[..n + 1] == xs[..n] + [xs[n]] && xs == xs[..n + 1] + xs[n + 1..]
  {
  }

  lemma RemovalsOne(x: string)
    ensures Removals([x]) == [Do(RemoveMember(x))]
  {
  }

  lemma RemovalsSplit(names: seq<string>, n: nat)
    requires n < |names|
    ensures Removals(names[..n + 1]) == Removals(names[..n]) + [Do(RemoveMember(names[n]))]
    ensures Removals(names) == Removals(names[..n + 1]) + Removals(names[n + 1..])
  {
    SplitAt(names, n);
    RemovalsOne(names[n]);
    RemovalsConcat(names[..n], [names[n]]);
    RemovalsConcat(names[..n + 1], names[n + 1..]);
  }

  lemma {:induction false} AdditionsConcat(a: seq<string>, b: seq<string>)
    ensures Additions(a + b) == Additions(a) + Additions(b)
  {
    if a == [] {
      assert a + b == b;
    } else {
      assert (a + b)[1..] == a[1..] + b;
      AdditionsConcat(a[1..], b);
    }
  }

  lemma AdditionsOne(x: string)
    ensures Additions([x]) == [Do(RemoveMember(x)), Do(AddMember(x))]
  {
  }

  lemma Regroup(a: seq<Step>, x: Step, y: Step, rest: seq<Step>)
    ensures a + [x, y] == a + [x] + [y]
    ensures (a + [x, y]) + rest == a + [x] + [y] + rest
    ensures (a + [x, y]) + rest == a + [x] + ([y] + rest)
  {
  }

  lemma AdditionsSplit(names: seq<string>, n: nat)
    requires n < |names|
    ensures var removal, addition := Do(RemoveMember(names[n])), Do(AddMember(names[n]));
      var a, rest := Additions(names[..n]), Additions(names[n + 1..]);
      Additions(names[..n + 1]) == a + [removal] + [addition]
      && Additions(names) == a + [removal] + [addition] + rest
      && Additions(names) == a + [removal] + ([addition] + rest)
  {
    SplitAt(names, n);
    AdditionsOne(names[n]);
    AdditionsConcat(names[..n], [names[n]]);
    AdditionsConcat(names[..n + 1], names[n + 1..]);
    Regroup(Additions(names[..n]), Do(RemoveMember(names[n])), Do(AddMember(names[n])), Additions(names[n + 1..]));
  }

  // `ifup` runs for exactly the new and the changed interfaces.
  lemma {:induction false} BroughtAre(ds: seq<InterfaceDiff>, x: string)
    ensures x in Brought(ds)
      <==> exists n :: 0 <= n < |ds| && (ds[n].change.New? || ds[n].change.Changed?) && ds[n].name == x
  {
    if ds != [] {
      var front := ds[..|ds| - 1];
      BroughtAre(front, x);
      assert forall n :: 0 <= n < |front| ==> front[n] == ds[n];
    }
  }
}
