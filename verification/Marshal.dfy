/** Bundles as JSON trees: the MarshalJSON methods and the strict decoding Parse relies on. */
module Marshal {
  import opened Text
  import opened Json
  import opened JsonRoundTrip
  import opened Bundle

  // ----- encoding -----

  function IntJson(n: int): Json { Number(Itoa(n)) }

  function StringsJson(xs: seq<string>): Json { Array(seq(|xs|, i requires 0 <= i < |xs| => String(xs[i]))) }

  function TextMapJson(m: map<string, string>): Json { Object(map k | k in m :: String(m[k])) }

  function OptText(o: Option<string>): Option<Json> { if o.Some? then Some(String(o.value)) else None }

  function OptInt(o: Option<int>): Option<Json> { if o.Some? then Some(IntJson(o.value)) else None }

  function OptBool(o: Option<bool>): Option<Json> { if o.Some? then Some(Bool(o.value)) else None }

  // A slice that MarshalJSON always emits: a nil one prints as null.
  function SliceJson(xs: Option<seq<string>>): Option<Json> {
    Some(if xs.Some? then StringsJson(xs.value) else Null)
  }

  function OptTextMap(o: Option<map<string, string>>): Option<Json> {
    if o.Some? then Some(TextMapJson(o.value)) else None
  }

  const ROUTE_KEYS := {"cidr", "gateway", "metric"}

  function RouteMember(r: Route, key: string): Option<Json> {
    if key == "cidr" then Some(String(r.cidr))
    else if key == "gateway" then OptText(r.gateway)
    else if key == "metric" then OptInt(r.metric)
    else None
  }

  // A member is emitted exactly when it has a value.
  function RouteJson(r: Route): Json {
    Object(map k | k in ROUTE_KEYS && RouteMember(r, k).Some? :: RouteMember(r, k).value)
  }

  function OptRoutes(o: Option<seq<Route>>): Option<Json> {
    if o.Some? then Some(Array(seq(|o.value|, i requires 0 <= i < |o.value| => RouteJson(o.value[i])))) else None
  }

  const TABLE_KEYS := {"ipv4", "ipv6"}

  function TableMember(t: RoutingTable, key: string): Option<Json> {
    if key == "ipv4" then OptText(t.ipv4) else if key == "ipv6" then OptText(t.ipv6) else None
  }

  function OptTable(o: Option<RoutingTable>): Option<Json> {
    if o.Some? then
      Some(Object(map k | k in TABLE_KEYS && TableMember(o.value, k).Some? :: TableMember(o.value, k).value))
    else None
  }

  const PEER_KEYS := {"public_key", "allowed_ips", "preshared_key", "endpoint", "persistent_keepalive", "options"}

  function PeerMember(p: Peer, key: string): Option<Json> {
    if key == "public_key" then Some(String(p.publicKey))
    else if key == "allowed_ips" then SliceJson(p.allowedIPs)
    else if key == "preshared_key" then OptText(p.presharedKey)
    else if key == "endpoint" then OptText(p.endpoint)
    else if key == "persistent_keepalive" then OptInt(p.persistentKeepalive)
    else if key == "options" then OptTextMap(p.options)
    else None
  }

  function PeerJson(p: Peer): Json {
    Object(map k | k in PEER_KEYS && PeerMember(p, k).Some? :: PeerMember(p, k).value)
  }

  function OptPeers(o: Option<map<string, Peer>>): Option<Json> {
    if o.Some? then Some(Object(map k | k in o.value :: PeerJson(o.value[k]))) else None
  }

  const INTERFACE_KEYS := {"private_key", "addresses", "listen_port", "mtu", "route_allowed_ips", "fwmark",
                           "routing_table", "routes", "options", "peers"}

  function InterfaceMember(i: Interface, key: string): Option<Json> {
    if key == "private_key" then Some(String(i.privateKey))
    else if key == "addresses" then SliceJson(i.addresses)
    else if key == "listen_port" then OptInt(i.listenPort)
    else if key == "mtu" then OptInt(i.mtu)
    else if key == "route_allowed_ips" then OptBool(i.routeAllowedIPs)
    else if key == "fwmark" then OptInt(i.fwmark)
    else if key == "routing_table" then OptTable(i.routingTable)
    else if key == "routes" then OptRoutes(i.routes)
    else if key == "options" then OptTextMap(i.options)
    else if key == "peers" then OptPeers(i.peers)
    else None
  }

  function InterfaceJson(i: Interface): Json {
    Object(map k | k in INTERFACE_KEYS && InterfaceMember(i, k).Some? :: InterfaceMember(i, k).value)
  }

  function OptInterfaces(o: Option<map<string, Interface>>): Option<Json> {
    if o.Some? then Some(Object(map k | k in o.value :: InterfaceJson(o.value[k]))) else None
  }

  const BUNDLE_KEYS := {"version", "namespace", "node_id", "timestamp", "wg", "stunmesh"}

  function BundleMember(b: Bundle, key: string): Option<Json> {
    if key == "version" then Some(IntJson(b.version))
    else if key == "namespace" then Some(String(b.namespace))
    else if key == "node_id" then Some(String(b.nodeID))
    else if key == "timestamp" then Some(IntJson(b.timestamp))
    else if key == "wg" then OptInterfaces(b.wg)
    else if key == "stunmesh" then OptText(b.stunmesh)
    else None
  }

  function BundleJson(b: Bundle): Json {
    Object(map k | k in BUNDLE_KEYS && BundleMember(b, k).Some? :: BundleMember(b, k).value)
  }

  // ----- decoding -----

  // The width of Go's int on the target.
  datatype Word = Word32 | Word64

  predicate InInt64(n: int) { -0x8000_0000_0000_0000 <= n < 0x8000_0000_0000_0000 }

  predicate InInt(n: int, w: Word) { if w.Word64? then InInt64(n) else -0x8000_0000 <= n < 0x8000_0000 }

  // strconv.ParseInt in base 10, before any range check.
  function ParseInt(s: string): Option<int> {
    if AllDigits(s) then Some(DigitsValue(s))
    else if s != "" && s[0] == '-' && AllDigits(s[1..]) then Some(0 - DigitsValue(s[1..]))
    else None
  }

  // What decoding one struct field finds; a null leaves the field as it was.
  datatype Field<+T> = Absent | Bad | Present(value: T) {
    function ToOption(): Option<T> { if Present? then Some(value) else None }
  }

  predicate Missing(m: map<string, Json>, key: string) { key !in m || m[key].Null? }

  function TextField(m: map<string, Json>, key: string): Field<string> {
    if Missing(m, key) then Absent
    else if m[key].String? then Present(m[key].text)
    else Bad
  }

  function BoolField(m: map<string, Json>, key: string): Field<bool> {
    if Missing(m, key) then Absent
    else if m[key].Bool? then Present(m[key].value)
    else Bad
  }

  function Int64Field(m: map<string, Json>, key: string): Field<int> {
    if Missing(m, key) then Absent
    else if m[key].Number? && ParseInt(m[key].literal).Some? && InInt64(ParseInt(m[key].literal).value) then
      Present(ParseInt(m[key].literal).value)
    else Bad
  }

  function IntField(m: map<string, Json>, key: string, w: Word): Field<int> {
    var f := Int64Field(m, key);
    if f.Present? && !InInt(f.value, w) then Bad else f
  }

  function StringsField(m: map<string, Json>, key: string): Field<seq<string>> {
    if Missing(m, key) then Absent
    else if m[key].Array? && forall i :: 0 <= i < |m[key].items| ==> m[key].items[i].String? then
      var items := m[key].items;
      Present(seq(|items|, i requires 0 <= i < |items| && items[i].String? => items[i].text))
    else Bad
  }

  function TextMapField(m: map<string, Json>, key: string): Field<map<string, string>> {
    if Missing(m, key) then Absent
    else if m[key].Object? && forall k :: k in m[key].members ==> m[key].members[k].String? then
      Present(map k | k in m[key].members :: m[key].members[k].text)
    else Bad
  }

  function DecodeRoute(j: Json): Option<Route> {
    if !j.Object? || !(j.members.Keys <= ROUTE_KEYS) then None
    else
      var cidr, gateway := TextField(j.members, "cidr"), TextField(j.members, "gateway");
      var metric := Int64Field(j.members, "metric");
      if cidr.Bad? || gateway.Bad? || metric.Bad? then None
      else Some(Route(if cidr.Present? then cidr.value else "", gateway.ToOption(), metric.ToOption()))
  }

  function RoutesField(m: map<string, Json>, key: string): Field<seq<Route>> {
    if Missing(m, key) then Absent
    else if m[key].Array? && forall i :: 0 <= i < |m[key].items| ==> DecodeRoute(m[key].items[i]).Some? then
      var items := m[key].items;
      Present(seq(|items|, i requires 0 <= i < |items| && DecodeRoute(items[i]).Some? => DecodeRoute(items[i]).value))
    else Bad
  }

  function TableField(m: map<string, Json>, key: string): Field<RoutingTable> {
    if Missing(m, key) then Absent
    else if m[key].Object? && m[key].members.Keys <= TABLE_KEYS then
      var v4, v6 := TextField(m[key].members, "ipv4"), TextField(m[key].members, "ipv6");
      if v4.Bad? || v6.Bad? then Bad else Present(RoutingTable(v4.ToOption(), v6.ToOption()))
    else Bad
  }

  function DecodePeer(j: Json, w: Word): Option<Peer> {
    if !j.Object? || !(j.members.Keys <= PEER_KEYS) then None
    else
      var m := j.members;
      var publicKey, presharedKey := TextField(m, "public_key"), TextField(m, "preshared_key");
      var allowedIPs, endpoint := StringsField(m, "allowed_ips"), TextField(m, "endpoint");
      var keepalive, options := IntField(m, "persistent_keepalive", w), TextMapField(m, "options");
      if publicKey.Bad? || presharedKey.Bad? || allowedIPs.Bad? || endpoint.Bad? || keepalive.Bad? || options.Bad?
      then None
      else Some(Peer(if publicKey.Present? then publicKey.value else "", presharedKey.ToOption(), allowedIPs.ToOption(),
                     endpoint.ToOption(), keepalive.ToOption(), options.ToOption()))
  }

  function PeersField(m: map<string, Json>, key: string, w: Word): Field<map<string, Peer>> {
    if Missing(m, key) then Absent
    else if m[key].Object? && forall k :: k in m[key].members ==> DecodePeer(m[key].members[k], w).Some? then
      Present(map k | k in m[key].members :: DecodePeer(m[key].members[k], w).value)
    else Bad
  }

  function DecodeInterface(j: Json, w: Word): Option<Interface> {
    if !j.Object? || !(j.members.Keys <= INTERFACE_KEYS) then None
    else
      var m := j.members;
      var privateKey, listenPort := TextField(m, "private_key"), IntField(m, "listen_port", w);
      var addresses, mtu := StringsField(m, "addresses"), IntField(m, "mtu", w);
      var routeAllowedIPs, fwmark := BoolField(m, "route_allowed_ips"), Int64Field(m, "fwmark");
      var table, routes := TableField(m, "routing_table"), RoutesField(m, "routes");
      var options, peers := TextMapField(m, "options"), PeersField(m, "peers", w);
      if privateKey.Bad? || listenPort.Bad? || addresses.Bad? || mtu.Bad? || routeAllowedIPs.Bad? || fwmark.Bad?
         || table.Bad? || routes.Bad? || options.Bad? || peers.Bad?
      then None
      else Some(Interface(if privateKey.Present? then privateKey.value else "", listenPort.ToOption(),
                          addresses.ToOption(), mtu.ToOption(), routeAllowedIPs.ToOption(),
                          fwmark.ToOption(), table.ToOption(),
                          routes.ToOption(), options.ToOption(), peers.ToOption()))
  }

  function InterfacesField(m: map<string, Json>, key: string, w: Word): Field<map<string, Interface>> {
    if Missing(m, key) then Absent
    else if m[key].Object? && forall k :: k in m[key].members ==> DecodeInterface(m[key].members[k], w).Some? then
      Present(map k | k in m[key].members :: DecodeInterface(m[key].members[k], w).value)
    else Bad
  }

  function DecodeBundle(j: Json, w: Word): Option<Bundle> {
    if !j.Object? || !(j.members.Keys <= BUNDLE_KEYS) then None
    else
      var m := j.members;
      var version, namespace, nodeID := IntField(m, "version", w), TextField(m, "namespace"), TextField(m, "node_id");
      var timestamp, wg, stunmesh := Int64Field(m, "timestamp"), InterfacesField(m, "wg", w), TextField(m, "stunmesh");
      if version.Bad? || namespace.Bad? || nodeID.Bad? || timestamp.Bad? || wg.Bad? || stunmesh.Bad? then None
      else Some(Bundle(if version.Present? then version.value else 0,
                       if namespace.Present? then namespace.value else "",
                       if nodeID.Present? then nodeID.value else "",
                       if timestamp.Present? then timestamp.value else 0,
                       wg.ToOption(), stunmesh.ToOption()))
  }

  // ----- decoding undoes encoding -----

  // The numbers fit the Go types that hold them.
  predicate OptIn64(o: Option<int>) { o.Some? ==> -9223372036854775808 <= o.value <= 9223372036854775807 }

  predicate OptIn(o: Option<int>, w: Word) {
    if w.Word64? then OptIn64(o) else o.Some? ==> -2147483648 <= o.value <= 2147483647
  }

  ghost predicate PeerFits(p: Peer, w: Word) { OptIn(p.persistentKeepalive, w) }

  ghost predicate InterfaceFits(i: Interface, w: Word) {
    && OptIn(i.listenPort, w) && OptIn(i.mtu, w) && OptIn64(i.fwmark)
    && (i.routes.Some? ==> forall n :: 0 <= n < |i.routes.value| ==> OptIn64(i.routes.value[n].metric))
    && (i.peers.Some? ==> forall p :: p in i.peers.value ==> PeerFits(i.peers.value[p], w))
  }

  ghost predicate Fits(b: Bundle, w: Word) {
    && OptIn(Some(b.version), w) && OptIn64(Some(b.timestamp))
    && (b.wg.Some? ==> forall name :: name in b.wg.value ==> InterfaceFits(b.wg.value[name], w))
  }

  lemma ItoaParses(n: int)
    ensures ParseInt(Itoa(n)) == Some(n)
  {
    if n >= 0 {
      DigitsRoundTrip(n);
    } else {
      DigitsRoundTrip(-n);
      assert Itoa(n)[1..] == Digits(-n);
      assert !IsDigit(Itoa(n)[0]) && Itoa(n)[0] in Itoa(n);
    }
  }

  function Lookup(m: map<string, Json>, key: string): Option<Json> { if key in m then Some(m[key]) else None }

  function Found<T>(o: Option<T>): Field<T> { if o.Some? then Present(o.value) else Absent }

  lemma IntFieldDecodes(m: map<string, Json>, key: string, o: Option<int>, w: Word)
    requires Lookup(m, key) == OptInt(o)
    ensures OptIn64(o) ==> Int64Field(m, key) == Found(o)
    ensures OptIn(o, w) ==> IntField(m, key, w) == Found(o)
  {
    if o.Some? { ItoaParses(o.value); }
  }

  lemma SliceFieldDecodes(m: map<string, Json>, key: string, o: Option<seq<string>>)
    requires Lookup(m, key) == SliceJson(o)
    ensures StringsField(m, key) == Found(o)
  {
    if o.Some? {
      assert StringsField(m, key).Present?;
      assert StringsField(m, key).value == o.value;
    }
  }

  lemma TextMapFieldDecodes(m: map<string, Json>, key: string, o: Option<map<string, string>>)
    requires Lookup(m, key) == OptTextMap(o)
    ensures TextMapField(m, key) == Found(o)
  {
    if o.Some? {
      assert TextMapField(m, key).Present?;
      assert TextMapField(m, key).value == o.value;
    }
  }

  lemma RouteDecodes(r: Route)
    requires OptIn64(r.metric)
    ensures DecodeRoute(RouteJson(r)) == Some(r)
  {
    var m := RouteJson(r).members;
    IntFieldDecodes(m, "metric", r.metric, Word64);
  }

  lemma RoutesFieldDecodes(m: map<string, Json>, key: string, o: Option<seq<Route>>)
    requires Lookup(m, key) == OptRoutes(o)
    requires o.Some? ==> forall n :: 0 <= n < |o.value| ==> OptIn64(o.value[n].metric)
    ensures RoutesField(m, key) == Found(o)
  {
    if o.Some? {
      forall n | 0 <= n < |o.value| ensures DecodeRoute(RouteJson(o.value[n])) == Some(o.value[n]) {
        RouteDecodes(o.value[n]);
      }
      assert RoutesField(m, key).Present?;
      assert RoutesField(m, key).value == o.value;
    }
  }

  lemma TableFieldDecodes(m: map<string, Json>, key: string, o: Option<RoutingTable>)
    requires Lookup(m, key) == OptTable(o)
    ensures TableField(m, key) == Found(o)
  {
  }

  lemma PeerTexts(p: Peer)
    ensures var m := PeerJson(p).members;
      && TextField(m, "public_key") == Present(p.publicKey)
      && TextField(m, "preshared_key") == Found(p.presharedKey)
      && TextField(m, "endpoint") == Found(p.endpoint)
  {
  }

  lemma PeerContainers(p: Peer, w: Word)
    requires PeerFits(p, w)
    ensures var m := PeerJson(p).members;
      && StringsField(m, "allowed_ips") == Found(p.allowedIPs)
      && IntField(m, "persistent_keepalive", w) == Found(p.persistentKeepalive)
      && TextMapField(m, "options") == Found(p.options)
  {
    var m := PeerJson(p).members;
    SliceFieldDecodes(m, "allowed_ips", p.allowedIPs);
    IntFieldDecodes(m, "persistent_keepalive", p.persistentKeepalive, w);
    TextMapFieldDecodes(m, "options", p.options);
  }

  lemma PeerFieldsDecode(m: map<string, Json>, p: Peer, w: Word)
    requires TextField(m, "public_key") == Present(p.publicKey)
    requires TextField(m, "preshared_key") == Found(p.presharedKey) && TextField(m, "endpoint") == Found(p.endpoint)
    requires StringsField(m, "allowed_ips") == Found(p.allowedIPs)
    requires IntField(m, "persistent_keepalive", w) == Found(p.persistentKeepalive)
    requires TextMapField(m, "options") == Found(p.options) && forall k :: k in m ==> k in PEER_KEYS
    ensures DecodePeer(Object(m), w) == Some(p)
  {
  }

  lemma PeerDecodes(p: Peer, w: Word)
    requires PeerFits(p, w)
    ensures DecodePeer(PeerJson(p), w) == Some(p)
  {
    PeerTexts(p);
    PeerContainers(p, w);
    PeerFieldsDecode(PeerJson(p).members, p, w);
  }

  lemma PeersFieldDecodes(m: map<string, Json>, key: string, o: Option<map<string, Peer>>, w: Word)
    requires Lookup(m, key) == OptPeers(o)
    requires o.Some? ==> forall p :: p in o.value ==> PeerFits(o.value[p], w)
    ensures PeersField(m, key, w) == Found(o)
  {
    if o.Some? {
      forall k | k in o.value ensures DecodePeer(PeerJson(o.value[k]), w) == Some(o.value[k]) {
        PeerDecodes(o.value[k], w);
      }
      PeersFound(m, key, o.value, w);
    }
  }

  lemma PeersFound(m: map<string, Json>, key: string, peers: map<string, Peer>, w: Word)
    requires Lookup(m, key) == OptPeers(Some(peers))
    requires forall p :: p in peers ==> DecodePeer(PeerJson(peers[p]), w) == Some(peers[p])
    ensures PeersField(m, key, w) == Present(peers)
  {
    PeersPresent(m, key, peers, w);
  }

  lemma PeersPresent(m: map<string, Json>, key: string, peers: map<string, Peer>, w: Word)
    requires key in m && m[key].Object? && m[key].members.Keys == peers.Keys
    requires forall p :: p in peers ==> DecodePeer(m[key].members[p], w) == Some(peers[p])
    ensures PeersField(m, key, w) == Present(peers)
  {
    assert PeersField(m, key, w).Present?;
    assert PeersField(m, key, w).value == peers;
  }

  lemma InterfaceKeyAndFlag(i: Interface)
    ensures var m := InterfaceJson(i).members;
      && TextField(m, "private_key") == Present(i.privateKey)
      && BoolField(m, "route_allowed_ips") == Found(i.routeAllowedIPs)
  {
  }

  lemma InterfaceNumbers(i: Interface, w: Word)
    requires InterfaceFits(i, w)
    ensures var m := InterfaceJson(i).members;
      && IntField(m, "listen_port", w) == Found(i.listenPort)
      && IntField(m, "mtu", w) == Found(i.mtu)
      && Int64Field(m, "fwmark") == Found(i.fwmark)
  {
    var m := InterfaceJson(i).members;
    IntFieldDecodes(m, "listen_port", i.listenPort, w);
    IntFieldDecodes(m, "mtu", i.mtu, w);
    IntFieldDecodes(m, "fwmark", i.fwmark, w);
  }

  lemma InterfaceContainers(i: Interface, w: Word)
    requires InterfaceFits(i, w)
    ensures var m := InterfaceJson(i).members;
      && StringsField(m, "addresses") == Found(i.addresses)
      && TableField(m, "routing_table") == Found(i.routingTable)
      && RoutesField(m, "routes") == Found(i.routes)
      && TextMapField(m, "options") == Found(i.options)
      && PeersField(m, "peers", w) == Found(i.peers)
  {
    var m := InterfaceJson(i).members;
    SliceFieldDecodes(m, "addresses", i.addresses);
    TableFieldDecodes(m, "routing_table", i.routingTable);
    RoutesFieldDecodes(m, "routes", i.routes);
    TextMapFieldDecodes(m, "options", i.options);
    PeersFieldDecodes(m, "peers", i.peers, w);
  }

  // Decoding puts the fields together.
  lemma FieldsDecode(m: map<string, Json>, i: Interface, w: Word)
    requires TextField(m, "private_key") == Present(i.privateKey)
    requires IntField(m, "listen_port", w) == Found(i.listenPort)
    requires IntField(m, "mtu", w) == Found(i.mtu) && BoolField(m, "route_allowed_ips") == Found(i.routeAllowedIPs)
    requires Int64Field(m, "fwmark") == Found(i.fwmark) && StringsField(m, "addresses") == Found(i.addresses)
    requires TableField(m, "routing_table") == Found(i.routingTable) && RoutesField(m, "routes") == Found(i.routes)
    requires TextMapField(m, "options") == Found(i.options) && PeersField(m, "peers", w) == Found(i.peers)
    requires forall k :: k in m ==> k in INTERFACE_KEYS
    ensures DecodeInterface(Object(m), w) == Some(i)
  {
  }

  lemma InterfaceDecodes(i: Interface, w: Word)
    requires InterfaceFits(i, w)
    ensures DecodeInterface(InterfaceJson(i), w) == Some(i)
  {
    InterfaceKeyAndFlag(i);
    InterfaceNumbers(i, w);
    InterfaceContainers(i, w);
    FieldsDecode(InterfaceJson(i).members, i, w);
  }

  lemma InterfacesFieldDecodes(m: map<string, Json>, key: string, o: Option<map<string, Interface>>, w: Word)
    requires Lookup(m, key) == OptInterfaces(o)
    requires o.Some? ==> forall name :: name in o.value ==> InterfaceFits(o.value[name], w)
    ensures InterfacesField(m, key, w) == Found(o)
  {
    if o.Some? {
      forall k | k in o.value ensures DecodeInterface(InterfaceJson(o.value[k]), w) == Some(o.value[k]) {
        InterfaceDecodes(o.value[k], w);
      }
      InterfacesFound(m, key, o.value, w);
    }
  }

  lemma InterfacesFound(m: map<string, Json>, key: string, wg: map<string, Interface>, w: Word)
    requires Lookup(m, key) == OptInterfaces(Some(wg))
    requires forall name :: name in wg ==> DecodeInterface(InterfaceJson(wg[name]), w) == Some(wg[name])
    ensures InterfacesField(m, key, w) == Present(wg)
  {
    InterfacesPresent(m, key, wg, w);
  }

  lemma InterfacesPresent(m: map<string, Json>, key: string, wg: map<string, Interface>, w: Word)
    requires key in m && m[key].Object? && m[key].members.Keys == wg.Keys
    requires forall name :: name in wg ==> DecodeInterface(m[key].members[name], w) == Some(wg[name])
    ensures InterfacesField(m, key, w) == Present(wg)
  {
    assert InterfacesField(m, key, w).Present?;
    assert InterfacesField(m, key, w).value == wg;
  }

  lemma BundleNumbers(b: Bundle, w: Word)
    requires Fits(b, w)
    ensures var m := BundleJson(b).members;
      IntField(m, "version", w) == Present(b.version) && Int64Field(m, "timestamp") == Present(b.timestamp)
  {
    var m := BundleJson(b).members;
    IntFieldDecodes(m, "version", Some(b.version), w);
    IntFieldDecodes(m, "timestamp", Some(b.timestamp), w);
  }

  lemma BundleTexts(b: Bundle)
    ensures var m := BundleJson(b).members;
      && TextField(m, "namespace") == Present(b.namespace)
      && TextField(m, "node_id") == Present(b.nodeID)
      && TextField(m, "stunmesh") == Found(b.stunmesh)
  {
  }

  lemma BundleInterfaces(b: Bundle, w: Word)
    requires Fits(b, w)
    ensures InterfacesField(BundleJson(b).members, "wg", w) == Found(b.wg)
  {
    InterfacesFieldDecodes(BundleJson(b).members, "wg", b.wg, w);
  }

  lemma BundleFieldsDecode(m: map<string, Json>, b: Bundle, w: Word)
    requires IntField(m, "version", w) == Present(b.version) && Int64Field(m, "timestamp") == Present(b.timestamp)
    requires TextField(m, "namespace") == Present(b.namespace) && TextField(m, "node_id") == Present(b.nodeID)
    requires TextField(m, "stunmesh") == Found(b.stunmesh) && InterfacesField(m, "wg", w) == Found(b.wg)
    requires forall k :: k in m ==> k in BUNDLE_KEYS
    ensures DecodeBundle(Object(m), w) == Some(b)
  {
  }

  lemma BundleDecodes(b: Bundle, w: Word)
    requires Fits(b, w)
    ensures DecodeBundle(BundleJson(b), w) == Some(b)
  {
    BundleNumbers(b, w);
    BundleTexts(b);
    BundleInterfaces(b, w);
    BundleFieldsDecode(BundleJson(b).members, b, w);
  }

  // ----- what does not fit is refused -----

  lemma RouteDecodedFits(j: Json, r: Route)
    requires DecodeRoute(j) == Some(r)
    ensures OptIn64(r.metric)
  {
  }

  lemma PeerDecodedFits(j: Json, w: Word, p: Peer)
    requires DecodePeer(j, w) == Some(p)
    ensures PeerFits(p, w)
  {
  }

  lemma RoutesDecodedFit(m: map<string, Json>, key: string)
    requires RoutesField(m, key).Present?
    ensures var rs := RoutesField(m, key).value; forall n :: 0 <= n < |rs| ==> OptIn64(rs[n].metric)
  {
    var rs := RoutesField(m, key).value;
    forall n | 0 <= n < |rs| ensures OptIn64(rs[n].metric) { RouteDecodedFits(m[key].items[n], rs[n]); }
  }

  lemma PeersDecodedFit(m: map<string, Json>, key: string, w: Word)
    requires PeersField(m, key, w).Present?
    ensures var ps := PeersField(m, key, w).value; forall p :: p in ps ==> PeerFits(ps[p], w)
  {
    var ps := PeersField(m, key, w).value;
    forall p | p in ps ensures PeerFits(ps[p], w) { PeerDecodedFits(m[key].members[p], w, ps[p]); }
  }

  lemma InterfaceDecodedFits(j: Json, w: Word, i: Interface)
    requires DecodeInterface(j, w) == Some(i)
    ensures InterfaceFits(i, w)
  {
    if i.routes.Some? { RoutesDecodedFit(j.members, "routes"); }
    if i.peers.Some? { PeersDecodedFit(j.members, "peers", w); }
  }

  // On 32 bits an int of 2^31 or more is refused, as is an int64 of 2^63 or more everywhere.
  lemma DecodedFits(j: Json, w: Word, b: Bundle)
    requires DecodeBundle(j, w) == Some(b)
    ensures Fits(b, w)
  {
    if b.wg.Some? {
      forall name | name in b.wg.value ensures InterfaceFits(b.wg.value[name], w) {
        InterfaceDecodedFits(j.members["wg"].members[name], w, b.wg.value[name]);
      }
    }
  }

  // An encoding decodes if and only if every number fits.
  lemma EncodingDecodesIff(b: Bundle, w: Word)
    ensures DecodeBundle(BundleJson(b), w) == Some(b) <==> Fits(b, w)
  {
    if Fits(b, w) { BundleDecodes(b, w); }
    if DecodeBundle(BundleJson(b), w) == Some(b) { DecodedFits(BundleJson(b), w, b); }
  }

  // ----- every printed tree is well formed -----

  lemma IntWellFormed(o: Option<int>)
    ensures o.Some? ==> WellFormed(OptInt(o).value)
  {
    if o.Some? { ItoaIsNumber(o.value); }
  }

  lemma RouteWellFormed(r: Route)
    ensures WellFormed(RouteJson(r))
  {
    IntWellFormed(r.metric);
  }

  lemma RoutesWellFormed(o: Option<seq<Route>>)
    ensures o.Some? ==> WellFormed(OptRoutes(o).value)
  {
    if o.Some? {
      forall n | 0 <= n < |o.value| ensures WellFormed(RouteJson(o.value[n])) { RouteWellFormed(o.value[n]); }
    }
  }

  lemma SliceWellFormed(o: Option<seq<string>>)
    ensures WellFormed(SliceJson(o).value)
  {
  }

  lemma TextMapWellFormed(o: Option<map<string, string>>)
    ensures o.Some? ==> WellFormed(OptTextMap(o).value)
  {
  }

  lemma TableWellFormed(o: Option<RoutingTable>)
    ensures o.Some? ==> WellFormed(OptTable(o).value)
  {
  }

  lemma PeerMemberWellFormed(p: Peer, key: string)
    requires PeerMember(p, key).Some?
    ensures WellFormed(PeerMember(p, key).value)
  {
    if key == "allowed_ips" {
      SliceWellFormed(p.allowedIPs);
    } else if key == "persistent_keepalive" {
      IntWellFormed(p.persistentKeepalive);
    } else if key == "options" {
      TextMapWellFormed(p.options);
    }
  }

  lemma PeerWellFormed(p: Peer)
    ensures WellFormed(PeerJson(p))
  {
    forall k | k in PEER_KEYS && PeerMember(p, k).Some? ensures WellFormed(PeerMember(p, k).value) {
      PeerMemberWellFormed(p, k);
    }
  }

  lemma PeersWellFormed(o: Option<map<string, Peer>>)
    ensures o.Some? ==> WellFormed(OptPeers(o).value)
  {
    if o.Some? {
      forall k | k in o.value ensures WellFormed(PeerJson(o.value[k])) { PeerWellFormed(o.value[k]); }
    }
  }

  lemma InterfaceMemberWellFormed(i: Interface, key: string)
    requires InterfaceMember(i, key).Some?
    ensures WellFormed(InterfaceMember(i, key).value)
  {
    if key == "addresses" {
      SliceWellFormed(i.addresses);
    } else if key == "listen_port" || key == "mtu" || key == "fwmark" {
      IntWellFormed(i.listenPort);
      IntWellFormed(i.mtu);
      IntWellFormed(i.fwmark);
    } else if key == "routing_table" {
      TableWellFormed(i.routingTable);
    } else if key == "routes" {
      RoutesWellFormed(i.routes);
    } else if key == "options" {
      TextMapWellFormed(i.options);
    } else if key == "peers" {
      PeersWellFormed(i.peers);
    }
  }

  lemma InterfaceWellFormed(i: Interface)
    ensures WellFormed(InterfaceJson(i))
  {
    forall k | k in INTERFACE_KEYS && InterfaceMember(i, k).Some? ensures WellFormed(InterfaceMember(i, k).value) {
      InterfaceMemberWellFormed(i, k);
    }
  }

  lemma InterfacesWellFormed(o: Option<map<string, Interface>>)
    ensures o.Some? ==> WellFormed(OptInterfaces(o).value)
  {
    if o.Some? {
      forall k | k in o.value ensures WellFormed(InterfaceJson(o.value[k])) { InterfaceWellFormed(o.value[k]); }
    }
  }

  lemma BundleMemberWellFormed(b: Bundle, key: string)
    requires BundleMember(b, key).Some?
    ensures WellFormed(BundleMember(b, key).value)
  {
    if key == "version" || key == "timestamp" {
      IntWellFormed(Some(b.version));
      IntWellFormed(Some(b.timestamp));
    } else if key == "wg" {
      InterfacesWellFormed(b.wg);
    }
  }

  lemma BundleWellFormed(b: Bundle)
    ensures WellFormed(BundleJson(b))
  {
    forall k | k in BUNDLE_KEYS && BundleMember(b, k).Some? ensures WellFormed(BundleMember(b, k).value) {
      BundleMemberWellFormed(b, k);
    }
  }
}
