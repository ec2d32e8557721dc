/** The network half of an apply, as a plan: for every interface of the diff, in order, the
    guarded deletions and the create commands that writeUCI issues.
  */
module ApplyPlan {
  import opened Text
  import opened Bundle
  import opened Uci
  import opened InterfaceBatch
  import opened Last
  import opened DiffTypes

  function DeleteSteps(names: seq<string>): (plan: seq<Step>)
    ensures |plan| == |names|
    ensures forall n :: 0 <= n < |plan| ==> plan[n] == DeleteIfPresent(SectionPath(names[n]))
  {
    seq(|names|, n requires 0 <= n < |names| => DeleteIfPresent(SectionPath(names[n])))
  }

  // Peers, then routes, then the interface itself.
  function DeletePlan(s: Sections): seq<Step> {
    DeleteSteps(s.peers) + DeleteSteps(s.routes) + DeleteSteps(if s.iface != "" then [s.iface] else [])
  }

  // The peers' sections go before any route's, and the interface's own goes last of all.
  lemma DeleteInOrder(s: Sections, m: nat, n: nat)
    requires m < n < |DeletePlan(s)|
    ensures n >= |s.peers| + |s.routes| ==> s.iface != "" && DeletePlan(s)[n] == DeleteIfPresent(SectionPath(s.iface))
    ensures m < |s.peers| ==> DeletePlan(s)[m] == DeleteIfPresent(SectionPath(s.peers[m]))
    ensures |s.peers| <= m ==>
      m < |s.peers| + |s.routes| && DeletePlan(s)[m] == DeleteIfPresent(SectionPath(s.routes[m - |s.peers|]))
  {
    var a, b := DeleteSteps(s.peers), DeleteSteps(s.routes);
    assert DeletePlan(s)[..|a + b|] == a + b;
  }

  function ClearPlan(paths: seq<Path>): (plan: seq<Step>)
    ensures |plan| == |paths|
    ensures forall n :: 0 <= n < |plan| ==> plan[n] == DeleteIfPresent(paths[n])
  {
    seq(|paths|, n requires 0 <= n < |paths| => DeleteIfPresent(paths[n]))
  }

  function CreatePlan(net: Net, name: string, i: Interface): seq<Step> {
    ClearPlan(ListPaths(name, i)) + Steps(Batch(Programs(net, name, i)))
  }

  // A new or changed interface comes with its content.
  predicate HasContent(d: InterfaceDiff) { d.change.New? || d.change.Changed? ==> d.content.Some? }

  function InterfacePlan(net: Net, d: InterfaceDiff): seq<Step>
    requires HasContent(d)
  {
    match d.change
    case Removed => DeletePlan(d.sections)
    case Changed => DeletePlan(d.sections) + CreatePlan(net, d.name, d.content.value)
    case New => CreatePlan(net, d.name, d.content.value)
    case Unchanged => []
  }

  function NetworkPlan(net: Net, ds: seq<InterfaceDiff>): seq<Step>
    requires forall n :: 0 <= n < |ds| ==> HasContent(ds[n])
  {
    if ds == [] then [] else InterfacePlan(net, ds[0]) + NetworkPlan(net, ds[1..])
  }

  lemma {:induction false} NetworkPlanConcat(net: Net, a: seq<InterfaceDiff>, b: seq<InterfaceDiff>)
    requires forall n :: 0 <= n < |a| ==> HasContent(a[n])
    requires forall n :: 0 <= n < |b| ==> HasContent(b[n])
    ensures forall n :: 0 <= n < |a + b| ==> HasContent((a + b)[n])
    ensures NetworkPlan(net, a + b) == NetworkPlan(net, a) + NetworkPlan(net, b)
  {
    if a == [] {
      assert a + b == b;
    } else {
      assert (a + b)[1..] == a[1..] + b;
      NetworkPlanConcat(net, a[1..], b);
    }
  }

  // ----- the new last.json -----

  predicate Recordable(d: InterfaceDiff, recorded: map<string, Record>) {
    HasContent(d) && (d.change.Unchanged? ==> d.name in recorded)
  }

  function RecordOf(d: InterfaceDiff, recorded: map<string, Record>): Record
    requires Recordable(d, recorded) && !d.change.Removed?
  {
    if d.change.Unchanged? then recorded[d.name] else Record(d.content.value, SectionsFor(d.name, d.content.value))
  }

  // The records of a successful apply, entry after entry of its diff.
  function Records(ds: seq<InterfaceDiff>, recorded: map<string, Record>): map<string, Record>
    requires forall n :: 0 <= n < |ds| ==> Recordable(ds[n], recorded)
  {
    if ds == [] then map[]
    else
      var d := ds[|ds| - 1];
      var before := Records(ds[..|ds| - 1], recorded);
      if d.change.Removed? then before else before[d.name := RecordOf(d, recorded)]
  }

  lemma RecordsNext(ds: seq<InterfaceDiff>, recorded: map<string, Record>, n: nat)
    requires n < |ds| && forall k :: 0 <= k < |ds| ==> Recordable(ds[k], recorded)
    ensures var upTo := ds[..n + 1]; forall k :: 0 <= k < |upTo| ==> Recordable(upTo[k], recorded)
    ensures var before := Records(ds[..n], recorded);
      Records(ds[..n + 1], recorded) ==
        if ds[n].change.Removed? then before else before[ds[n].name := RecordOf(ds[n], recorded)]
  {
    assert ds[..n + 1][..n] == ds[..n];
  }

  // What a successful apply writes to last.json.
  function StateOf(diff: Diff, state: State, firewall: FirewallState): State
    requires forall n :: 0 <= n < |diff.interfaces| ==> Recordable(diff.interfaces[n], state.wg)
  {
    State(Records(diff.interfaces, state.wg), diff.text, firewall)
  }
}
