/** cmd/stunmesh-agent: the comparison of a new bundle with last.json. */
module DiffTypes {
  import opened Text
  import opened Bundle
  import opened Last

  datatype Change = New | Changed | Unchanged | Removed

  datatype InterfaceDiff = InterfaceDiff(name: string, change: Change, content: Option<Interface>, sections: Sections)

  datatype StunmeshChange = StunmeshUnchanged | StunmeshChanged | StunmeshEmpty

  datatype Diff = Diff(interfaces: seq<InterfaceDiff>, stunmesh: StunmeshChange, text: string)

  function DiffStunmesh(wanted: string, recorded: string, forceAll: bool): StunmeshChange {
    if wanted == "" then StunmeshEmpty
    else if wanted == recorded && !forceAll then StunmeshUnchanged
    else StunmeshChanged
  }

  // The diff entry of one interface by plain equality of content.
  function EntryOf(wanted: map<string, Interface>, recorded: map<string, Record>, forceAll: bool,
                   name: string): InterfaceDiff
    requires name in wanted || name in recorded
  {
    if name !in recorded then InterfaceDiff(name, New, Some(wanted[name]), NO_SECTIONS)
    else if name !in wanted then InterfaceDiff(name, Removed, None, recorded[name].sections)
    else if !forceAll && wanted[name] == recorded[name].content then InterfaceDiff(name, Unchanged, None, NO_SECTIONS)
    else InterfaceDiff(name, Changed, Some(wanted[name]), recorded[name].sections)
  }

  function EntriesOf(wanted: map<string, Interface>, recorded: map<string, Record>, forceAll: bool,
                     names: seq<string>): (ds: seq<InterfaceDiff>)
    requires forall name :: name in names ==> name in wanted || name in recorded
    ensures |ds| == |names|
    ensures forall n :: 0 <= n < |names| ==> ds[n] == EntryOf(wanted, recorded, forceAll, names[n])
  {
    seq(|names|, n requires 0 <= n < |names| => EntryOf(wanted, recorded, forceAll, names[n]))
  }

  // The diff entries by plain equality of content: one for every interface of either side,
  // in name order.
  function Entries(wanted: map<string, Interface>, recorded: map<string, Record>, forceAll: bool): seq<InterfaceDiff> {
    EntriesOf(wanted, recorded, forceAll, Sorted(wanted.Keys + recorded.Keys))
  }
}

module Diffs {
  import opened Text
  import opened Bundle
  import opened Last
  import opened DiffTypes
  import C = CanonicalForm

  function WantedOf(b: Bundle): map<string, Interface> { if b.wg.Some? then b.wg.value else map[] }

  function StunmeshText(b: Bundle): string { if b.stunmesh.Some? then b.stunmesh.value else "" }

  // One interface alone in a bundle, as interfaceEqual wraps it.
  function Wrapped(name: string, i: Interface): Bundle { Bundle(0, "", "", 0, Some(map[name := i]), Some("")) }

  predicate InterfaceEqual(name: string, a: Interface, b: Interface) {
    C.CanonicalBytes(Wrapped(name, a)) == C.CanonicalBytes(Wrapped(name, b))
  }

  // On validated content the byte comparison is equality of content.
  lemma InterfaceEqualIsEquality(name: string, a: Interface, b: Interface)
    requires ValidInterface(a) && ValidInterface(b)
    ensures InterfaceEqual(name, a, b) <==> a == b
  {
    var x, y := Wrapped(name, a), Wrapped(name, b);
    C.EqualIsSameContent(x, y);
    assert x.wg.value[name] == a && y.wg.value[name] == b;
  }

  function Classify(wanted: map<string, Interface>, recorded: map<string, Record>, forceAll: bool,
                    name: string): InterfaceDiff
    requires name in wanted || name in recorded
  {
    if name !in recorded then InterfaceDiff(name, New, Some(wanted[name]), NO_SECTIONS)
    else if name !in wanted then InterfaceDiff(name, Removed, None, recorded[name].sections)
    else if !forceAll && InterfaceEqual(name, wanted[name], recorded[name].content) then
      InterfaceDiff(name, Unchanged, None, NO_SECTIONS)
    else InterfaceDiff(name, Changed, Some(wanted[name]), recorded[name].sections)
  }

  function ClassifyAll(wanted: map<string, Interface>, recorded: map<string, Record>, forceAll: bool,
                       names: seq<string>): (ds: seq<InterfaceDiff>)
    requires forall name :: name in names ==> name in wanted || name in recorded
    ensures |ds| == |names|
    ensures forall n :: 0 <= n < |names| ==>
      ds[n].name == names[n] && ds[n] == Classify(wanted, recorded, forceAll, names[n])
  {
    seq(|names|, n requires 0 <= n < |names| => Classify(wanted, recorded, forceAll, names[n]))
  }

  // One entry for every interface of either side, in name order.
  function DiffOf(b: Bundle, state: State, forceAll: bool): Diff {
    var names := Sorted(WantedOf(b).Keys + state.wg.Keys);
    Diff(ClassifyAll(WantedOf(b), state.wg, forceAll, names),
         DiffStunmesh(StunmeshText(b), state.stunmesh, forceAll), StunmeshText(b))
  }

  method CompareInterfaces(name: string, a: Interface, b: Interface) returns (equal: bool)
    ensures equal <==> InterfaceEqual(name, a, b)
  {
    equal := C.Equal(Wrapped(name, a), Wrapped(name, b));
  }

  method ClassifyInterface(wanted: map<string, Interface>, recorded: map<string, Record>, forceAll: bool, name: string)
    returns (d: InterfaceDiff)
    requires name in wanted || name in recorded
    ensures d == Classify(wanted, recorded, forceAll, name)
  {
    if name !in recorded {
      return InterfaceDiff(name, New, Some(wanted[name]), NO_SECTIONS);
    }
    if name !in wanted {
      return InterfaceDiff(name, Removed, None, recorded[name].sections);
    }
    var equal := false;
    if !forceAll {
      equal := CompareInterfaces(name, wanted[name], recorded[name].content);
    }
    if equal {
      return InterfaceDiff(name, Unchanged, None, NO_SECTIONS);
    }
    d := InterfaceDiff(name, Changed, Some(wanted[name]), recorded[name].sections);
  }

  method ClassifyNames(wanted: map<string, Interface>, recorded: map<string, Record>, forceAll: bool,
                       names: seq<string>)
    returns (ds: seq<InterfaceDiff>)
    requires forall name :: name in names ==> name in wanted || name in recorded
    ensures ds == ClassifyAll(wanted, recorded, forceAll, names)
  {
    ds := [];
    for n := 0 to |names|
      invariant |ds| == n
      invariant forall m :: 0 <= m < n ==> ds[m] == ClassifyAll(wanted, recorded, forceAll, names)[m]
    {
      assert names[n] in names;
      var entry := ClassifyInterface(wanted, recorded, forceAll, names[n]);
      ds := ds + [entry];
    }
  }

  // One entry for every interface that the bundle or last.json has, in name order: new without a
  // record, removed without content, otherwise unchanged exactly if equal and not forced.
  ghost predicate Sorting(ds: seq<InterfaceDiff>, wanted: map<string, Interface>, recorded: map<string, Record>,
                          forceAll: bool) {
    && (forall m, n :: 0 <= m < n < |ds| ==> Less(ds[m].name, ds[n].name))
    && (forall name :: name in wanted || name in recorded ==> exists n :: 0 <= n < |ds| && ds[n].name == name)
    && forall n :: 0 <= n < |ds| ==> SortedRight(ds[n], wanted, recorded, forceAll)
  }

  predicate SortedRight(d: InterfaceDiff, wanted: map<string, Interface>, recorded: map<string, Record>,
                        forceAll: bool) {
    && (d.name in wanted || d.name in recorded)
    && (d.change == New <==> d.name !in recorded) && (d.change == Removed <==> d.name !in wanted)
    && (d.change == Unchanged <==>
          d.name in wanted && d.name in recorded && !forceAll && wanted[d.name] == recorded[d.name].content)
    && ((d.change == New || d.change == Changed) && d.name in wanted ==> d.content == Some(wanted[d.name]))
    && ((d.change == Removed || d.change == Changed) && d.name in recorded ==> d.sections == recorded[d.name].sections)
  }

  lemma EntrySorted(wanted: map<string, Interface>, recorded: map<string, Record>, forceAll: bool, name: string)
    requires name in wanted || name in recorded
    requires name in wanted && name in recorded ==>
      ValidInterface(wanted[name]) && ValidInterface(recorded[name].content)
    ensures SortedRight(Classify(wanted, recorded, forceAll, name), wanted, recorded, forceAll)
  {
    ClassifyByContent(wanted, recorded, forceAll, name);
  }

  predicate AllValid(wanted: map<string, Interface>) { forall name :: name in wanted ==> ValidInterface(wanted[name]) }

  lemma DiffSorted(b: Bundle, state: State, forceAll: bool)
    requires WellRecorded(state) && AllValid(WantedOf(b))
    ensures Sorting(DiffOf(b, state, forceAll).interfaces, WantedOf(b), state.wg, forceAll)
  {
    var ds, names := DiffOf(b, state, forceAll).interfaces, Sorted(WantedOf(b).Keys + state.wg.Keys);
    forall n | 0 <= n < |ds| ensures SortedRight(ds[n], WantedOf(b), state.wg, forceAll) {
      assert names[n] in names;
      EntrySorted(WantedOf(b), state.wg, forceAll, names[n]);
    }
    forall name | name in WantedOf(b) || name in state.wg ensures exists n :: 0 <= n < |ds| && ds[n].name == name {
      assert name in names;
      var n :| 0 <= n < |names| && names[n] == name;
      assert ds[n].name == name;
    }
  }

  // On validated content the interfaces are sorted right; the stunmesh text is empty, or as
  // recorded and not forced, or changed.
  ghost predicate Computed(d: Diff, b: Bundle, state: State, forceAll: bool) {
    && (WellRecorded(state) && b.wg.Some? && AllValid(b.wg.value) ==>
          Sorting(d.interfaces, b.wg.value, state.wg, forceAll))
    && (d.stunmesh == StunmeshEmpty <==> b.stunmesh == None || b.stunmesh == Some(""))
    && (d.stunmesh == StunmeshUnchanged <==>
          b.stunmesh != Some("") && b.stunmesh == Some(state.stunmesh) && !forceAll)
    && d.text == if b.stunmesh.Some? then b.stunmesh.value else ""
  }

  lemma DiffComputed(b: Bundle, state: State, forceAll: bool)
    ensures Computed(DiffOf(b, state, forceAll), b, state, forceAll)
  {
    if WellRecorded(state) && AllValid(WantedOf(b)) { DiffSorted(b, state, forceAll); }
  }

  method ComputeDiff(b: Bundle, state: State, forceAll: bool) returns (d: Diff)
    ensures d == DiffOf(b, state, forceAll)
    ensures Computed(d, b, state, forceAll)
  {
    DiffComputed(b, state, forceAll);
    var wanted := WantedOf(b);
    var names := SortedKeys(wanted.Keys + state.wg.Keys);
    var ds := ClassifyNames(wanted, state.wg, forceAll, names);
    d := Diff(ds, DiffStunmesh(StunmeshText(b), state.stunmesh, forceAll), StunmeshText(b));
  }

  lemma ClassifyByContent(wanted: map<string, Interface>, recorded: map<string, Record>, forceAll: bool, name: string)
    requires name in wanted || name in recorded
    requires name in wanted && name in recorded ==>
      ValidInterface(wanted[name]) && ValidInterface(recorded[name].content)
    ensures Classify(wanted, recorded, forceAll, name) == EntryOf(wanted, recorded, forceAll, name)
  {
    if name in wanted && name in recorded { InterfaceEqualIsEquality(name, wanted[name], recorded[name].content); }
  }

  lemma AllByContent(wanted: map<string, Interface>, recorded: map<string, Record>, forceAll: bool, names: seq<string>)
    requires forall name :: name in names ==> name in wanted || name in recorded
    requires forall name :: name in wanted && name in recorded ==>
      ValidInterface(wanted[name]) && ValidInterface(recorded[name].content)
    ensures ClassifyAll(wanted, recorded, forceAll, names) == EntriesOf(wanted, recorded, forceAll, names)
  {
    forall n | 0 <= n < |names|
      ensures ClassifyAll(wanted, recorded, forceAll, names)[n] == EntriesOf(wanted, recorded, forceAll, names)[n]
    {
      assert names[n] in names;
      ClassifyByContent(wanted, recorded, forceAll, names[n]);
    }
  }

  // On validated content, comparing canonical bytes gives the diff by plain equality.
  lemma DiffIsByContent(b: Bundle, state: State, forceAll: bool)
    requires WellRecorded(state) && forall name :: name in WantedOf(b) ==> ValidInterface(WantedOf(b)[name])
    ensures DiffOf(b, state, forceAll).interfaces == Entries(WantedOf(b), state.wg, forceAll)
  {
    AllByContent(WantedOf(b), state.wg, forceAll, Sorted(WantedOf(b).Keys + state.wg.Keys));
  }

  // ----- the whole-bundle comparison -----

  function StateBundle(state: State, ref: Bundle): Bundle {
    Bundle(ref.version, ref.namespace, ref.nodeID, 0, Some(Contents(state)), Some(state.stunmesh))
  }

  predicate SameAsLast(state: State, b: Bundle) {
    C.CanonicalBytes(StateBundle(state, b)) == C.CanonicalBytes(b)
  }

  // On validated content: the recorded interfaces and stunmesh text are those of the bundle.
  method SameContent(state: State, b: Bundle) returns (same: bool)
    ensures same <==> SameAsLast(state, b)
    ensures forall namespace, nodeID :: Valid(b, namespace, nodeID) && WellRecorded(state) ==>
      (same <==> Contents(state) == b.wg.value && state.stunmesh == b.stunmesh.value)
  {
    same := C.Equal(StateBundle(state, b), b);
    forall namespace, nodeID | Valid(b, namespace, nodeID) && WellRecorded(state)
      ensures same <==> Contents(state) == b.wg.value && state.stunmesh == b.stunmesh.value
    {
      SameIsEquality(state, b, namespace, nodeID);
    }
  }

  predicate AllUnchanged(d: Diff) { forall n :: 0 <= n < |d.interfaces| ==> d.interfaces[n].change == Unchanged }

  lemma SameIsEquality(state: State, b: Bundle, namespace: string, nodeID: string)
    requires Valid(b, namespace, nodeID) && WellRecorded(state)
    ensures SameAsLast(state, b) <==> Contents(state) == b.wg.value && state.stunmesh == b.stunmesh.value
  {
    C.EqualIsSameContent(StateBundle(state, b), b);
  }

  lemma UnchangedMeansEqual(state: State, b: Bundle, namespace: string, nodeID: string, name: string)
    requires Valid(b, namespace, nodeID) && WellRecorded(state)
    requires AllUnchanged(DiffOf(b, state, false)) && (name in b.wg.value || name in state.wg)
    ensures name in b.wg.value && name in state.wg && state.wg[name].content == b.wg.value[name]
  {
    var d := DiffOf(b, state, false).interfaces;
    var names := Sorted(b.wg.value.Keys + state.wg.Keys);
    assert name in names;
    var n :| 0 <= n < |names| && names[n] == name;
    assert d[n].change == Unchanged;
    assert d[n] == Classify(b.wg.value, state.wg, false, name);
    InterfaceEqualIsEquality(name, b.wg.value[name], state.wg[name].content);
  }

  lemma EqualMeansUnchanged(state: State, b: Bundle, namespace: string, nodeID: string)
    requires Valid(b, namespace, nodeID) && WellRecorded(state) && Contents(state) == b.wg.value
    ensures AllUnchanged(DiffOf(b, state, false))
  {
    var d := DiffOf(b, state, false).interfaces;
    var names := Sorted(b.wg.value.Keys + state.wg.Keys);
    forall n | 0 <= n < |d| ensures d[n].change == Unchanged {
      var name := names[n];
      assert name in names;
      assert name in b.wg.value && name in Contents(state);
      assert Contents(state)[name] == b.wg.value[name];
      InterfaceEqualIsEquality(name, b.wg.value[name], state.wg[name].content);
      assert d[n] == Classify(b.wg.value, state.wg, false, name);
    }
  }

  lemma ContentsAre(state: State, wanted: map<string, Interface>)
    requires forall name :: name in wanted || name in state.wg ==>
      name in wanted && name in state.wg && state.wg[name].content == wanted[name]
    ensures Contents(state) == wanted
  {
  }

  lemma UnchangedIsEquality(state: State, b: Bundle, namespace: string, nodeID: string)
    requires Valid(b, namespace, nodeID) && WellRecorded(state)
    ensures AllUnchanged(DiffOf(b, state, false)) <==> Contents(state) == b.wg.value
  {
    if AllUnchanged(DiffOf(b, state, false)) {
      forall name | name in b.wg.value || name in state.wg
        ensures name in b.wg.value && name in state.wg && state.wg[name].content == b.wg.value[name]
      {
        UnchangedMeansEqual(state, b, namespace, nodeID, name);
      }
      ContentsAre(state, b.wg.value);
    }
    if Contents(state) == b.wg.value { EqualMeansUnchanged(state, b, namespace, nodeID); }
  }

  // The comparison of whole bundles and the comparison interface by interface never disagree.
  lemma ComparisonsAgree(state: State, b: Bundle, namespace: string, nodeID: string)
    requires Valid(b, namespace, nodeID) && WellRecorded(state)
    ensures SameAsLast(state, b) <==> AllUnchanged(DiffOf(b, state, false)) && state.stunmesh == b.stunmesh.value
  {
    SameIsEquality(state, b, namespace, nodeID);
    UnchangedIsEquality(state, b, namespace, nodeID);
  }
}
