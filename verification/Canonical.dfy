/** Parse, Canonical and Equal of internal/bundle.

    Main results: Parse returns every valid bundle unchanged from its marshalled bytes; the
    canonical form is the canonical printing of the bundle without its timestamp; and two
    bundles have equal canonical forms exactly when they agree on everything else.
  */
module CanonicalForm {
  import opened Text
  import opened Json
  import opened JsonRoundTrip
  import opened Escapes
  import opened Surrogates
  import opened Bundle
  import opened Marshal
  import opened Strict
  import opened Doubles

  // ----- Parse -----

  datatype ParseError = Syntax | NullOrNumber | Surrogate | Shape | Trailing

  datatype Outcome = Ok(bundle: Bundle) | Rejected(error: ParseError)

  // json.Decoder.More lets a closing bracket or brace pass.
  predicate More(rest: Bytes) {
    var r := Skip(rest);
    r != [] && r[0] != ']' && r[0] != '}'
  }

  function ParseBundle(data: Bytes, w: Word): Outcome {
    match ParseValue(data)
    case None => Rejected(Syntax)
    case Some(p) =>
      if !RawOk(p.value) then Rejected(NullOrNumber)
      else if HasUnpaired(data) then Rejected(Surrogate)
      else
        match DecodeBundle(p.value, w)
        case None => Rejected(Shape)
        case Some(b) => if More(p.rest) then Rejected(Trailing) else Ok(b)
  }

  // Every valid bundle is returned unchanged from its marshalled bytes, and from any printing of
  // its encoding; and a printed document gives a valid bundle only if it is that bundle's
  // encoding, key by key and digit by digit.  Whatever passes is a JSON value without unpaired
  // surrogates, and what follows it is empty or starts with a closing bracket or brace.
  method Parse(data: Bytes, w: Word) returns (r: Outcome)
    ensures r == ParseBundle(data, w)
    ensures forall b, namespace, nodeID :: Valid(b, namespace, nodeID) && data == MarshalBundle(b) ==> r == Ok(b)
    ensures forall style, j :: WellFormed(j) && data == Print(style, j) ==> r == Judged(j, w)
    ensures forall style, b, namespace, nodeID :: Valid(b, namespace, nodeID) && data == Print(style, BundleJson(b)) ==>
      r == Ok(b)
    ensures forall style, j :: WellFormed(j) && data == Print(style, j) && r.Ok? && ValidAndNamed(r.bundle) ==>
      j == BundleJson(r.bundle)
    ensures r.Ok? ==> EndsWell(data)
    ensures r == Rejected(Syntax) <==> ParseValue(data).None?
    ensures ParseValue(data).Some? && !RawOk(ParseValue(data).value.value) ==> r == Rejected(NullOrNumber)
    ensures ParseValue(data).Some? && RawOk(ParseValue(data).value.value) ==>
      (r == Rejected(Surrogate) <==> HasUnpaired(data))
  {
    forall b, namespace, nodeID | Valid(b, namespace, nodeID) && data == MarshalBundle(b)
      ensures ParseBundle(data, w) == Ok(b)
    {
      WireRoundTrip(b, namespace, nodeID, w);
    }
    forall style, j | WellFormed(j) && data == Print(style, j) ensures ParseBundle(data, w) == Judged(j, w) {
      ParsePrinted(style, j, w);
    }
    forall style, b, namespace, nodeID | Valid(b, namespace, nodeID) && data == Print(style, BundleJson(b))
      ensures ParseBundle(data, w) == Ok(b)
    {
      AnyPrintRoundTrip(style, b, namespace, nodeID, w);
    }
    forall style, j |
      WellFormed(j) && data == Print(style, j) && ParseBundle(data, w).Ok? && ValidAndNamed(ParseBundle(data, w).bundle)
      ensures j == BundleJson(ParseBundle(data, w).bundle)
    {
      ParsedIsEncoding(style, j, ParseBundle(data, w).bundle, w);
    }
    if ParseBundle(data, w).Ok? { OkEndsWell(data, w); }
    var raw := ParseValue(data);
    if raw.None? {
      return Rejected(Syntax);
    }
    if !RawOk(raw.value.value) {
      return Rejected(NullOrNumber);
    }
    var unpaired := CheckSurrogates(data);
    if unpaired {
      return Rejected(Surrogate);
    }
    var b := DecodeBundle(raw.value.value, w);
    if b.None? {
      return Rejected(Shape);
    }
    if More(raw.value.rest) {
      return Rejected(Trailing);
    }
    r := Ok(b.value);
  }

  function MarshalBundle(b: Bundle): Bytes { Print(Wire, BundleJson(b)) }

  // ----- numbers -----

  // json.Unmarshal into `any` keeps a number as a float64, and printing it shows the rounding.
  function RoundLiteral(literal: string): string {
    var n := ParseInt(literal);
    if n.Some? then Itoa(Spelled(RoundToDouble(n.value))) else literal
  }

  function Rounded(j: Json): Json
    decreases j
  {
    match j
    case Number(literal) => Number(RoundLiteral(literal))
    case Array(items) => Array(seq(|items|, i requires 0 <= i < |items| => Rounded(items[i])))
    case Object(members) => Object(map k | k in members :: Rounded(members[k]))
    case _ => j
  }

  lemma {:induction false} RoundedWellFormed(j: Json)
    requires WellFormed(j)
    ensures WellFormed(Rounded(j))
    decreases j
  {
    match j {
      case Number(literal) =>
        if ParseInt(literal).Some? { ItoaIsNumber(Spelled(RoundToDouble(ParseInt(literal).value))); }
      case Array(items) =>
        forall i | 0 <= i < |items| ensures WellFormed(Rounded(items[i])) { RoundedWellFormed(items[i]); }
      case Object(members) =>
        forall k | k in members ensures WellFormed(Rounded(members[k])) { RoundedWellFormed(members[k]); }
      case _ =>
    }
  }

  // ----- clean trees: no null, and only integers that a float64 holds exactly -----

  predicate Exact(n: int) { -TWO_53 <= n <= TWO_53 }

  ghost predicate Clean(j: Json)
    decreases j
  {
    match j
    case Null => false
    case Number(literal) => exists n :: Exact(n) && literal == Itoa(n)
    case Array(items) => forall i :: 0 <= i < |items| ==> Clean(items[i])
    case Object(members) => forall k :: k in members ==> Clean(members[k])
    case _ => true
  }

  lemma {:induction false} CleanRounds(j: Json)
    requires Clean(j)
    ensures Rounded(j) == j
    decreases j
  {
    match j {
      case Number(literal) =>
        var n :| Exact(n) && literal == Itoa(n);
        ItoaParses(n);
        SpelledExact(n);
      case Array(items) =>
        forall i | 0 <= i < |items| ensures Rounded(items[i]) == items[i] { CleanRounds(items[i]); }
        assert Rounded(j).items == items;
      case Object(members) =>
        forall k | k in members ensures Rounded(members[k]) == members[k] { CleanRounds(members[k]); }
        assert Rounded(j).members == members;
      case _ =>
    }
  }

  lemma ItoaPlain(n: int)
    requires Exact(n)
    ensures PlainInteger(Itoa(n))
  {
    ItoaParses(n);
    var s := Itoa(n);
    forall c | c in s ensures c == '-' || IsDigit(c) {
      if n < 0 && c != '-' { assert c in Digits(-n); }
    }
    if n < 0 {
      assert s[1] == Digits(-n)[0] && s[1] != '0';
    } else {
      assert IsDigit(s[0]);
    }
  }

  lemma {:induction false} CleanIsRawOk(j: Json)
    requires Clean(j)
    ensures RawOk(j)
    decreases j
  {
    match j {
      case Number(literal) => var n :| Exact(n) && literal == Itoa(n); ItoaPlain(n);
      case Array(items) => forall i | 0 <= i < |items| ensures RawOk(items[i]) { CleanIsRawOk(items[i]); }
      case Object(members) => forall k | k in members ensures RawOk(members[k]) { CleanIsRawOk(members[k]); }
      case _ =>
    }
  }

  lemma IntClean(o: Option<int>)
    requires o.Some? ==> Exact(o.value)
    ensures o.Some? ==> Clean(OptInt(o).value)
  {
  }

  lemma RoutesClean(o: Option<seq<Route>>)
    requires o.Some? ==> forall n :: 0 <= n < |o.value| ==> ValidRoute(o.value[n])
    ensures o.Some? ==> Clean(OptRoutes(o).value)
  {
    if o.Some? {
      forall n | 0 <= n < |o.value| ensures Clean(RouteJson(o.value[n])) { IntClean(o.value[n].metric); }
    }
  }

  lemma PeerMemberClean(p: Peer, key: string)
    requires ValidPeer(p) && PeerMember(p, key).Some?
    ensures Clean(PeerMember(p, key).value)
  {
    IntClean(p.persistentKeepalive);
  }

  lemma PeersClean(o: Option<map<string, Peer>>)
    requires o.Some? ==> forall p :: p in o.value ==> ValidPeer(o.value[p])
    ensures o.Some? ==> Clean(OptPeers(o).value)
  {
    if o.Some? {
      forall p | p in o.value ensures Clean(PeerJson(o.value[p])) {
        forall k | k in PEER_KEYS && PeerMember(o.value[p], k).Some? ensures Clean(PeerMember(o.value[p], k).value) {
          PeerMemberClean(o.value[p], k);
        }
      }
    }
  }

  lemma InterfaceMemberClean(i: Interface, key: string)
    requires ValidInterface(i) && InterfaceMember(i, key).Some?
    ensures Clean(InterfaceMember(i, key).value)
  {
    if key == "listen_port" || key == "mtu" || key == "fwmark" {
      IntClean(i.listenPort);
      IntClean(i.mtu);
      IntClean(i.fwmark);
    } else if key == "routes" {
      RoutesClean(i.routes);
    } else if key == "peers" {
      PeersClean(i.peers);
    }
  }

  lemma InterfacesClean(o: Option<map<string, Interface>>)
    requires o.Some? ==> forall name :: name in o.value ==> ValidInterface(o.value[name])
    ensures o.Some? ==> Clean(OptInterfaces(o).value)
  {
    if o.Some? {
      forall name | name in o.value ensures Clean(InterfaceJson(o.value[name])) {
        var i := o.value[name];
        forall k | k in INTERFACE_KEYS && InterfaceMember(i, k).Some? ensures Clean(InterfaceMember(i, k).value) {
          InterfaceMemberClean(i, k);
        }
      }
    }
  }

  // What Equal needs of a bundle: every interface passed validation.
  predicate Comparable(b: Bundle) {
    && Exact(b.version) && Exact(b.timestamp)
    && (b.wg.Some? ==> forall name :: name in b.wg.value ==> ValidInterface(b.wg.value[name]))
  }

  lemma BundleClean(b: Bundle)
    requires Comparable(b)
    ensures Clean(BundleJson(b))
  {
    IntClean(Some(b.version));
    IntClean(Some(b.timestamp));
    InterfacesClean(b.wg);
  }

  lemma ValidInterfaceFits(i: Interface, w: Word)
    requires ValidInterface(i)
    ensures InterfaceFits(i, w)
  {
    assert i.routes.Some? ==> forall n :: 0 <= n < |i.routes.value| ==> ValidRoute(i.routes.value[n]);
  }

  lemma ComparableFits(b: Bundle)
    requires Comparable(b)
    ensures Fits(b, Word64)
  {
    if b.wg.Some? {
      forall name | name in b.wg.value ensures InterfaceFits(b.wg.value[name], Word64) {
        ValidInterfaceFits(b.wg.value[name], Word64);
      }
    }
  }

  // ----- the wire -----

  // What Parse makes of a JSON value, however it came to be printed.
  function Judged(j: Json, w: Word): Outcome {
    if !RawOk(j) then Rejected(NullOrNumber)
    else if DecodeBundle(j, w).None? then Rejected(Shape)
    else Ok(DecodeBundle(j, w).value)
  }

  lemma ParsePrinted(style: Style, j: Json, w: Word)
    requires WellFormed(j)
    ensures ParseBundle(Print(style, j), w) == Judged(j, w)
  {
    DocumentRoundTrip(style, j);
    DocumentScan(Print(style, j));
    DocumentRest(Print(style, j), j);
  }

  lemma AnyPrintRoundTrip(style: Style, b: Bundle, namespace: string, nodeID: string, w: Word)
    requires Valid(b, namespace, nodeID)
    ensures ParseBundle(Print(style, BundleJson(b)), w) == Ok(b)
  {
    BundleWellFormed(b);
    ParsePrinted(style, BundleJson(b), w);
    BundleClean(b);
    CleanIsRawOk(BundleJson(b));
    forall name | name in b.wg.value ensures InterfaceFits(b.wg.value[name], w) {
      ValidInterfaceFits(b.wg.value[name], w);
    }
    BundleDecodes(b, w);
  }

  // What the controller marshals, the agent parses back unchanged, on 32 bits as on 64.
  lemma WireRoundTrip(b: Bundle, namespace: string, nodeID: string, w: Word)
    requires Valid(b, namespace, nodeID)
    ensures ParseBundle(MarshalBundle(b), w) == Ok(b)
  {
    AnyPrintRoundTrip(Wire, b, namespace, nodeID, w);
  }

  // A printed document that parses to a valid bundle is the bundle's encoding: no unknown key at
  // any level, nothing left out, every value as the encoding has it.
  lemma ParsedIsEncoding(style: Style, j: Json, b: Bundle, w: Word)
    requires WellFormed(j) && ParseBundle(Print(style, j), w) == Ok(b) && ValidAndNamed(b)
    ensures j == BundleJson(b)
  {
    ParsePrinted(style, j, w);
    BundleBack(j, b, w, b.namespace, b.nodeID);
  }

  // Valid for the namespace and node that it names.
  predicate ValidAndNamed(b: Bundle) { Valid(b, b.namespace, b.nodeID) && b.namespace != "" && b.nodeID != "" }

  // A JSON value without unpaired surrogates, then nothing, a closing bracket or a closing brace.
  predicate EndsWell(data: Bytes) {
    && ParseValue(data).Some? && !ParseValue(data).value.unpaired
    && var rest := Skip(ParseValue(data).value.rest); rest == [] || rest[0] == ']' || rest[0] == '}'
  }

  lemma OkEndsWell(data: Bytes, w: Word)
    requires ParseBundle(data, w).Ok?
    ensures EndsWell(data)
  {
    ValueScan(data);
  }

  predicate Blank(c: char) { c == ' ' || c == '\t' || c == '\n' || c == '\r' }

  predicate Blanks(spaces: Bytes) { forall c :: c in spaces ==> Blank(c) }

  lemma {:induction false} SkipBlanks(spaces: Bytes, rest: Bytes)
    requires Blanks(spaces) && (rest != [] ==> !Blank(rest[0]))
    ensures Skip(spaces + rest) == rest
  {
    if spaces == [] {
      assert spaces + rest == rest;
    } else {
      assert (spaces + rest)[1..] == spaces[1..] + rest;
      assert spaces[0] in spaces && forall c :: c in spaces[1..] ==> c in spaces;
      SkipBlanks(spaces[1..], rest);
    }
  }

  lemma EncodingFollowed(style: Style, b: Bundle, tail: Bytes, namespace: string, nodeID: string, w: Word)
    requires Valid(b, namespace, nodeID)
    ensures ParseBundle(Print(style, BundleJson(b)) + tail, w) ==
      if HasUnpaired(tail) then Rejected(Surrogate) else if More(tail) then Rejected(Trailing) else Ok(b)
  {
    var data := Print(style, BundleJson(b)) + tail;
    BundleWellFormed(b);
    ObjectRoundTrip(style, BundleJson(b), tail);
    ValueScan(data);
    AnyPrintRoundTrip(style, b, namespace, nodeID, w);
    ParsePrinted(style, BundleJson(b), w);
  }

  // A valid bundle in any printing, followed by something: after white space, a closing bracket
  // or brace passes with whatever comes after it, and anything else is refused.
  lemma TrailingIff(style: Style, b: Bundle, spaces: Bytes, rest: Bytes, namespace: string, nodeID: string, w: Word)
    requires Valid(b, namespace, nodeID) && Blanks(spaces) && (rest != [] ==> !Blank(rest[0]))
    ensures ParseBundle(Print(style, BundleJson(b)) + (spaces + rest), w) ==
      if HasUnpaired(rest) then Rejected(Surrogate)
      else if rest == [] || rest[0] == ']' || rest[0] == '}' then Ok(b) else Rejected(Trailing)
  {
    SkipBlanks(spaces, rest);
    SkipSpace(spaces + rest);
    EncodingFollowed(style, b, spaces + rest, namespace, nodeID, w);
  }

  lemma DocumentRest(data: Bytes, j: Json)
    requires ParseDocument(data) == Some(Parsed(j, false, []))
    ensures ParseValue(data) == Some(Parsed(j, false, []))
  {
  }

  // ----- Canonical -----

  function WithoutTimestamp(j: Json): Json
    requires j.Object?
  {
    Object(j.members - {"timestamp"})
  }

  function CanonicalTree(b: Bundle): Json { WithoutTimestamp(Rounded(BundleJson(b))) }

  // The canonical form: content only, keys sorted, in the canonical spelling.
  function CanonicalBytes(b: Bundle): Bytes { Print(Style.Canonical, CanonicalTree(b)) }

  lemma TreeWellFormed(b: Bundle)
    ensures WellFormed(CanonicalTree(b))
  {
    BundleWellFormed(b);
    RoundedWellFormed(BundleJson(b));
  }

  method TrimNewlines(data: Bytes) returns (out: Bytes)
    ensures out <= data
    ensures out == [] || out[|out| - 1] != '\n'
    ensures forall i :: |out| <= i < |data| ==> data[i] == '\n'
  {
    var n := |data|;
    while n > 0 && data[n - 1] == '\n'
      invariant 0 <= n <= |data|
      invariant forall i :: n <= i < |data| ==> data[i] == '\n'
    {
      n := n - 1;
    }
    out := data[..n];
  }

  method Canonical(b: Bundle) returns (out: Bytes)
    ensures out == CanonicalBytes(b)
  {
    var data := MarshalBundle(b);
    BundleWellFormed(b);
    DocumentRoundTrip(Wire, BundleJson(b));
    var tree := WithoutTimestamp(Rounded(ParseDocument(data).value.value));
    TreeWellFormed(b);
    PrintNormalizes(tree);
    UnaffectedNormalizes("\n");
    NormalizesConcat(Print(Plain, tree), Print(Style.Canonical, tree), "\n", "\n");
    out := NormalizeEscapes(Print(Plain, tree) + "\n");
    var line := out;
    out := TrimNewlines(line);
    LineTrimmed(CanonicalBytes(b), line, out);
  }

  lemma LineTrimmed(body: Bytes, line: Bytes, out: Bytes)
    requires body != [] && body[|body| - 1] == '}' && line == body + "\n"
    requires out <= line && (out == [] || out[|out| - 1] != '\n')
    requires forall i :: |out| <= i < |line| ==> line[i] == '\n'
    ensures out == body
  {
    assert line[|body| - 1] == '}';
    assert line[|body|] == '\n';
  }

  method Equal(a: Bundle, b: Bundle) returns (same: bool)
    ensures same <==> CanonicalBytes(a) == CanonicalBytes(b)
  {
    var x := Canonical(a);
    var y := Canonical(b);
    same := x == y;
  }

  predicate SameContent(a: Bundle, b: Bundle) { a.(timestamp := 0) == b.(timestamp := 0) }

  lemma TimestampDropped(b: Bundle, t: int)
    requires Comparable(b) && Exact(t)
    ensures CanonicalTree(b) == WithoutTimestamp(BundleJson(b))
    ensures WithoutTimestamp(BundleJson(b)) == WithoutTimestamp(BundleJson(b.(timestamp := t)))
  {
    BundleClean(b);
    CleanRounds(BundleJson(b));
    var b' := b.(timestamp := t);
    forall k | k != "timestamp" ensures BundleMember(b, k) == BundleMember(b', k) {}
  }

  lemma TimestampRestored(a: Bundle, b: Bundle)
    requires a.timestamp == b.timestamp
    requires WithoutTimestamp(BundleJson(a)) == WithoutTimestamp(BundleJson(b))
    ensures BundleJson(a) == BundleJson(b)
  {
    var m, n := BundleJson(a).members, BundleJson(b).members;
    assert m == (m - {"timestamp"})["timestamp" := IntJson(a.timestamp)];
    assert n == (n - {"timestamp"})["timestamp" := IntJson(b.timestamp)];
  }

  // Equal compares content, all of it and nothing else: every field but the timestamp,
  // with an absent field and an explicit empty one kept apart.
  lemma EqualIsSameContent(a: Bundle, b: Bundle)
    requires Comparable(a) && Comparable(b)
    ensures CanonicalBytes(a) == CanonicalBytes(b) <==> SameContent(a, b)
  {
    var a0, b0 := a.(timestamp := 0), b.(timestamp := 0);
    TimestampDropped(a, 0);
    TimestampDropped(b, 0);
    if CanonicalBytes(a) == CanonicalBytes(b) {
      TreeWellFormed(a);
      TreeWellFormed(b);
      PrintInjective(Style.Canonical, CanonicalTree(a), CanonicalTree(b));
      TimestampRestored(a0, b0);
      ComparableFits(a0);
      ComparableFits(b0);
      BundleDecodes(a0, Word64);
      BundleDecodes(b0, Word64);
    }
  }

  lemma DoubleCollision()
    ensures RoundToDouble(TWO_53 + 1) == RoundToDouble(TWO_53)
  {
    assert (TWO_53 + 1) / 2 < TWO_53 && TWO_53 / 2 < TWO_53;
    assert Excess(TWO_53 + 1) == 1 + Excess((TWO_53 + 1) / 2);
    assert Excess(TWO_53) == 1 + Excess(TWO_53 / 2);
    assert Pow2(1) == 2 * Pow2(0);
  }

  lemma IntRounds(n: int)
    ensures Rounded(IntJson(n)) == Number(Itoa(Spelled(RoundToDouble(n))))
  {
    ItoaParses(n);
  }

  lemma OtherMembers(b: Bundle, m: int, n: int, key: string)
    requires key != "version"
    ensures BundleMember(b.(version := m), key) == BundleMember(b.(version := n), key)
  {
  }

  // Versions that round to one float64 print alike.
  lemma SameRounding(b: Bundle, m: int, n: int)
    requires RoundToDouble(m) == RoundToDouble(n)
    ensures CanonicalBytes(b.(version := m)) == CanonicalBytes(b.(version := n))
  {
    var x, y := b.(version := m), b.(version := n);
    forall k | k in BUNDLE_KEYS ensures RoundedMember(x, k) == RoundedMember(y, k) {
      if k == "version" {
        IntRounds(m);
        IntRounds(n);
      } else {
        OtherMembers(b, m, n, k);
      }
    }
    RoundedMembers(x);
    RoundedMembers(y);
    SameMembers(x, y);
  }

  lemma SameMembers(x: Bundle, y: Bundle)
    requires forall k :: k in BUNDLE_KEYS ==> RoundedMember(x, k) == RoundedMember(y, k)
    ensures (map k | k in BUNDLE_KEYS && RoundedMember(x, k).Some? :: RoundedMember(x, k).value)
         == (map k | k in BUNDLE_KEYS && RoundedMember(y, k).Some? :: RoundedMember(y, k).value)
  {
  }

  // Two versions of a bundle print alike exactly if they round to one float64.
  lemma VersionsPrintAlikeIff(b: Bundle, m: int, n: int)
    ensures CanonicalBytes(b.(version := m)) == CanonicalBytes(b.(version := n))
      <==> RoundToDouble(m) == RoundToDouble(n)
  {
    var x, y := b.(version := m), b.(version := n);
    if RoundToDouble(m) == RoundToDouble(n) { SameRounding(b, m, n); }
    if CanonicalBytes(x) == CanonicalBytes(y) {
      TreeWellFormed(x);
      TreeWellFormed(y);
      PrintInjective(Style.Canonical, CanonicalTree(x), CanonicalTree(y));
      VersionInTree(b, m);
      VersionInTree(b, n);
      ItoaParses(Spelled(RoundToDouble(m)));
      ItoaParses(Spelled(RoundToDouble(n)));
      SpelledReads(m);
      SpelledReads(n);
    }
  }

  lemma VersionInTree(b: Bundle, n: int)
    ensures var members := CanonicalTree(b.(version := n)).members;
      "version" in members && members["version"] == Number(Itoa(Spelled(RoundToDouble(n))))
  {
    IntRounds(n);
    RoundedMembers(b.(version := n));
    assert "version" in BUNDLE_KEYS;
    assert RoundedMember(b.(version := n), "version").Some?;
  }

  // Beyond 2^53 the float64 in between loses the difference: it is validation that makes
  // the comparison exact.
  lemma UnvalidatedNumbersCollide(b: Bundle)
    ensures var x, y := b.(version := TWO_53), b.(version := TWO_53 + 1);
      !SameContent(x, y) && CanonicalBytes(x) == CanonicalBytes(y)
  {
    DoubleCollision();
    SameRounding(b, TWO_53, TWO_53 + 1);
  }

  function RoundedMember(b: Bundle, key: string): Option<Json> {
    var v := BundleMember(b, key);
    if v.Some? then Some(Rounded(v.value)) else None
  }

  lemma RoundedMembers(b: Bundle)
    ensures Rounded(BundleJson(b))
         == Object(map k | k in BUNDLE_KEYS && RoundedMember(b, k).Some? :: RoundedMember(b, k).value)
  {
  }
}
