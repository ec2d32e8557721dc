/** cmd/stunmesh-provd: building a bundle. */
module BuildBundle {
  import opened Text
  import opened Json
  import opened JsonRoundTrip
  import opened Bundle
  import opened Marshal
  import opened Strict
  import C = CanonicalForm
  import opened Schedule
  import opened Books
  import opened SizeBound

  // ----- the pipeline -----

  // The document assembled around a node's wg value.
  function Assembly(k: NodeKey, wg: Json, stunmesh: string, seconds: int): Json {
    Object(map["version" := IntJson(1), "namespace" := String(k.namespace), "node_id" := String(k.nodeID),
               "timestamp" := IntJson(seconds), "wg" := wg, "stunmesh" := String(stunmesh)])
  }

  // The agent accepts the bundle from the wire, unchanged.
  ghost predicate Accepted(b: Bundle, k: NodeKey) {
    Valid(b, k.namespace, k.nodeID) && forall w: Word :: C.ParseBundle(C.MarshalBundle(b), w) == C.Ok(b)
  }

  lemma AssemblyWellFormed(k: NodeKey, wg: Json, stunmesh: string, seconds: int)
    requires WellFormed(wg)
    ensures WellFormed(Assembly(k, wg, stunmesh, seconds))
  {
    IntWellFormed(Some(1));
    IntWellFormed(Some(seconds));
  }

  // The document around encoded interfaces is the encoding of the bundle that holds them.
  lemma AssemblyIsBundle(k: NodeKey, interfaces: map<string, Interface>, stunmesh: string, seconds: int)
    ensures Assembly(k, OptInterfaces(Some(interfaces)).value, stunmesh, seconds)
      == BundleJson(Bundle(1, k.namespace, k.nodeID, seconds, Some(interfaces), Some(stunmesh)))
  {
    var b := Bundle(1, k.namespace, k.nodeID, seconds, Some(interfaces), Some(stunmesh));
    var members := Assembly(k, OptInterfaces(Some(interfaces)).value, stunmesh, seconds).members;
    forall key ensures key in members <==> key in BundleJson(b).members {
      assert key in BUNDLE_KEYS <==> key in members;
    }
    forall key | key in members ensures members[key] == BundleJson(b).members[key] {
      assert BundleMember(b, key) == Some(members[key]);
    }
    assert members == BundleJson(b).members;
  }

  // The bundle that a JSON document spells out, if it does.
  function SpelledOut(j: Json): Option<Bundle> { if RawOk(j) then DecodeBundle(j, Word64) else None }

  // A document is built exactly if its wg value is not null, it spells out a bundle, and that
  // bundle is valid and not too large; every agent then reads it back unchanged, on 32 bits as
  // on 64.
  method Build(k: NodeKey, wg: Json, stunmesh: string, seconds: int) returns (r: Option<Bundle>)
    ensures r.Some? ==> Accepted(r.value, k) && |C.MarshalBundle(r.value)| <= MAX_INNER_BUNDLE_SIZE
    ensures WellFormed(wg) ==>
      var b := SpelledOut(Assembly(k, wg, stunmesh, seconds));
      && (r.Some? <==> !wg.Null? && b.Some? && Valid(b.value, k.namespace, k.nodeID)
                       && |C.MarshalBundle(b.value)| <= MAX_INNER_BUNDLE_SIZE)
      && (r.Some? ==> r == b)
    ensures Builds(k, wg, stunmesh, seconds, r)
  {
    r := None;
    if wg.Null? {
      return;
    }
    var data := Print(Wire, Assembly(k, wg, stunmesh, seconds));
    if WellFormed(wg) { AssemblyWellFormed(k, wg, stunmesh, seconds); }
    forall b | BundleJson(b) == Assembly(k, wg, stunmesh, seconds) && Valid(b, k.namespace, k.nodeID)
      ensures C.ParseBundle(data, Word64) == C.Ok(b)
    {
      C.WireRoundTrip(b, k.namespace, k.nodeID, Word64);
    }
    var parsed := C.Parse(data, Word64);
    if !parsed.Ok? {
      return;
    }
    var problem := Validate(parsed.bundle, k.namespace, k.nodeID);
    if problem.Some? || |C.MarshalBundle(parsed.bundle)| > MAX_INNER_BUNDLE_SIZE {
      return;
    }
    forall w: Word ensures C.ParseBundle(C.MarshalBundle(parsed.bundle), w) == C.Ok(parsed.bundle) {
      C.WireRoundTrip(parsed.bundle, k.namespace, k.nodeID, w);
    }
    r := Some(parsed.bundle);
  }

  // Every valid bundle whose encoding is the assembled document is the one built, if it fits.
  ghost predicate Builds(k: NodeKey, wg: Json, stunmesh: string, seconds: int, r: Option<Bundle>) {
    forall b ::
      BundleJson(b) == Assembly(k, wg, stunmesh, seconds) && Valid(b, k.namespace, k.nodeID) && !wg.Null? ==>
      r == if |C.MarshalBundle(b)| <= MAX_INNER_BUNDLE_SIZE then Some(b) else None
  }

  // From the encoding of valid interfaces, what is built is the bundle written out here, if its
  // sealed and encoded form fits a value, and nothing if it does not.
  lemma EncodingIsBuilt(k: NodeKey, interfaces: map<string, Interface>, stunmesh: string, seconds: int,
                        r: Option<Bundle>)
    requires Builds(k, OptInterfaces(Some(interfaces)).value, stunmesh, seconds, r)
    requires (forall name :: name in interfaces ==> ValidInterface(interfaces[name]))
    requires 0 < seconds <= 9_007_199_254_740_991
    ensures var b := Bundle(1, k.namespace, k.nodeID, seconds, Some(interfaces), Some(stunmesh));
      r == if FitsValue(b) then Some(b) else None
  {
    AssemblyIsBundle(k, interfaces, stunmesh, seconds);
    FitsWhen(Bundle(1, k.namespace, k.nodeID, seconds, Some(interfaces), Some(stunmesh)));
  }

  // The unedited template is recognised by its trimmed text.
  method TrimJsonWhitespace(raw: Bytes) returns (trimmed: Bytes)
    ensures exists i, j :: IsTrimmed(raw, i, j) && trimmed == raw[i..j]
  {
    var start := 0;
    while start < |raw| && IsJsonSpace(raw[start])
      invariant start <= |raw| && forall n :: 0 <= n < start ==> IsJsonSpace(raw[n])
    {
      start := start + 1;
    }
    var end := |raw|;
    while end > start && IsJsonSpace(raw[end - 1])
      invariant start <= end <= |raw| && forall n :: end <= n < |raw| ==> IsJsonSpace(raw[n])
    {
      end := end - 1;
    }
    assert forall c :: IsJsonSpace(c) <==> C.Blank(c);
    assert IsTrimmed(raw, start, end);
    trimmed := raw[start..end];
  }

  predicate IsJsonSpace(c: char) { c == ' ' || c == '\t' || c == '\n' || c == '\r' }

  // raw[i..j] is raw without the white space around it.
  predicate IsTrimmed(raw: Bytes, i: int, j: int) {
    && 0 <= i <= j <= |raw|
    && C.Blanks(raw[..i]) && C.Blanks(raw[j..])
    && (i < j ==> !C.Blank(raw[i]) && !C.Blank(raw[j - 1]))
  }

  // ----- the size of the DHT value -----

  // A node with valid files is refused exactly when its DHT value would exceed the limit.
  lemma RefusedIffTooLarge(k: NodeKey, f: Files, now: int, sealed: Bytes)
    requires f.Files? && Valid(Assembled(k, f, now), k.namespace, k.nodeID)
    requires |sealed| == |C.MarshalBundle(Assembled(k, f, now))| + BOX_OVERHEAD
    ensures Prepare(k, f, now).None? <==> |Encode64(sealed)| > MAX_DHT_VALUE_SIZE
  {
    FitsIff(sealed, |C.MarshalBundle(Assembled(k, f, now))|, MAX_DHT_VALUE_SIZE);
  }
}
