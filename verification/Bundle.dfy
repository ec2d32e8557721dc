/** The inner bundle and its validation (docs/format.md sections 5 to 7).

    A field that Go keeps as a pointer, a slice or a map is an Option here, so that an absent
    key and an explicit empty value stay different.
  */
module Bundle {
  import opened Text

  datatype Bundle = Bundle(
    version: int,
    namespace: string,
    nodeID: string,
    timestamp: int,
    wg: Option<map<string, Interface>>,
    stunmesh: Option<string>)

  datatype Interface = Interface(
    privateKey: string,
    listenPort: Option<int>,
    addresses: Option<seq<string>>,
    mtu: Option<int>,
    routeAllowedIPs: Option<bool>,
    fwmark: Option<int>,
    routingTable: Option<RoutingTable>,
    routes: Option<seq<Route>>,
    options: Option<map<string, string>>,
    peers: Option<map<string, Peer>>)

  datatype RoutingTable = RoutingTable(ipv4: Option<string>, ipv6: Option<string>)

  datatype Route = Route(cidr: string, gateway: Option<string>, metric: Option<int>)

  datatype Peer = Peer(
    publicKey: string,
    presharedKey: Option<string>,
    allowedIPs: Option<seq<string>>,
    endpoint: Option<string>,
    persistentKeepalive: Option<int>,
    options: Option<map<string, string>>)

  const MAX_SAFE_INTEGER := 9007199254740991
  const MAX_UINT32 := 4294967295

  predicate InRange(o: Option<int>, lo: int, hi: int) { o.Some? ==> lo <= o.value <= hi }

  predicate NotEmptyText(o: Option<string>) { o != Some("") }

  predicate NotEmptyList(o: Option<seq<string>>) { o.Some? && o.value != [] }

  // ----- what a valid bundle is -----

  predicate IsWhitespace(c: char) {
    c == ' ' || c == '\t' || c == '\n' || c == '\r' || c == 12 as char || c == 11 as char
  }

  predicate AllDigits(v: string) { v != "" && forall c :: c in v ==> IsDigit(c) }

  predicate ValidTable(v: string) {
    v != "" && (forall c :: c in v ==> !IsWhitespace(c)) && !(AllDigits(v) && v[0] == '0')
  }

  predicate ValidRoutingTable(t: RoutingTable) {
    && (t.ipv4.Some? || t.ipv6.Some?)
    && (t.ipv4.Some? ==> ValidTable(t.ipv4.value))
    && (t.ipv6.Some? ==> ValidTable(t.ipv6.value))
  }

  predicate ValidPeer(p: Peer) {
    && p.publicKey != ""
    && NotEmptyList(p.allowedIPs)
    && NotEmptyText(p.presharedKey)
    && NotEmptyText(p.endpoint)
    && InRange(p.persistentKeepalive, 0, 65535)
  }

  predicate ValidRoute(r: Route) {
    r.cidr != "" && NotEmptyText(r.gateway) && InRange(r.metric, 0, MAX_UINT32)
  }

  predicate ValidInterface(i: Interface) {
    && i.privateKey != ""
    && NotEmptyList(i.addresses)
    && i.peers.Some?
    && InRange(i.listenPort, 1, 65535)
    && InRange(i.mtu, 576, 65535)
    && InRange(i.fwmark, 1, MAX_UINT32)
    && (i.routingTable.Some? ==> ValidRoutingTable(i.routingTable.value))
    && (forall p :: p in i.peers.value ==> ValidPeer(i.peers.value[p]))
    && (i.routes.Some? ==> forall n :: 0 <= n < |i.routes.value| ==> ValidRoute(i.routes.value[n]))
  }

  predicate Valid(b: Bundle, namespace: string, nodeID: string) {
    && b.version == 1
    && b.namespace == namespace
    && b.nodeID == nodeID
    && 0 < b.timestamp <= MAX_SAFE_INTEGER
    && b.stunmesh.Some?
    && b.wg.Some?
    && forall name :: name in b.wg.value ==> ValidInterface(b.wg.value[name])
  }

  // ----- Validate -----

  datatype Problem =
    | BadVersion | BadNamespace | BadNodeID | BadTimestamp | BadRange
    | MissingStunmesh | MissingWG | BadInterface | BadPeer | BadRoute

  // The first problem of the header, in the order Validate looks for one.
  function HeaderProblem(b: Bundle, namespace: string, nodeID: string): Option<Problem> {
    if b.version != 1 then Some(BadVersion)
    else if b.namespace != namespace then Some(BadNamespace)
    else if b.nodeID != nodeID then Some(BadNodeID)
    else if b.timestamp <= 0 then Some(BadTimestamp)
    else if b.timestamp > MAX_SAFE_INTEGER then Some(BadRange)
    else if b.stunmesh.None? then Some(MissingStunmesh)
    else if b.wg.None? then Some(MissingWG)
    else None
  }

  method ValidateTable(v: string) returns (problem: Option<Problem>)
    ensures problem.None? <==> ValidTable(v)
    ensures problem.Some? ==> problem == Some(BadInterface)
  {
    if v == "" {
      return Some(BadInterface);
    }
    var digits := true;
    for i := 0 to |v|
      invariant forall j :: 0 <= j < i ==> !IsWhitespace(v[j])
      invariant digits <==> forall j :: 0 <= j < i ==> IsDigit(v[j])
    {
      var c := v[i];
      if c == ' ' || c == '\t' || c == '\n' || c == '\r' || c == 12 as char || c == 11 as char {
        assert IsWhitespace(v[i]);
        return Some(BadInterface);
      }
      digits := digits && IsDigit(v[i]);
    }
    if digits && v[0] == '0' {
      return Some(BadInterface);
    }
    return None;
  }

  method ValidatePeers(peers: map<string, Peer>) returns (problem: Option<Problem>)
    ensures problem.None? <==> forall p :: p in peers ==> ValidPeer(peers[p])
    ensures problem.Some? ==> problem.value in {BadPeer, BadRange}
  {
    var todo := peers.Keys;
    while todo != {}
      invariant todo <= peers.Keys
      invariant forall p :: p in peers.Keys - todo ==> ValidPeer(peers[p])
      decreases |todo|
    {
      var name :| name in todo;
      var peer := peers[name];
      if peer.publicKey == "" || peer.allowedIPs.None? || |peer.allowedIPs.value| == 0 {
        return Some(BadPeer);
      }
      if peer.presharedKey.Some? && peer.presharedKey.value == "" {
        return Some(BadPeer);
      }
      if peer.endpoint.Some? && peer.endpoint.value == "" {
        return Some(BadPeer);
      }
      if peer.persistentKeepalive.Some?
         && (peer.persistentKeepalive.value < 0 || peer.persistentKeepalive.value > 65535)
      {
        return Some(BadRange);
      }
      todo := todo - {name};
    }
    return None;
  }

  method ValidateRoutes(routes: seq<Route>) returns (problem: Option<Problem>)
    ensures problem.None? <==> forall n :: 0 <= n < |routes| ==> ValidRoute(routes[n])
    ensures problem.Some? ==> problem.value in {BadRoute, BadRange}
  {
    for n := 0 to |routes|
      invariant forall m :: 0 <= m < n ==> ValidRoute(routes[m])
    {
      var route := routes[n];
      if route.cidr == "" || (route.gateway.Some? && route.gateway.value == "") {
        return Some(BadRoute);
      }
      if route.metric.Some? && (route.metric.value < 0 || route.metric.value > 4294967295) {
        return Some(BadRange);
      }
    }
    return None;
  }

  method ValidateInterface(i: Interface) returns (problem: Option<Problem>)
    ensures problem.None? <==> ValidInterface(i)
    ensures problem.Some? ==> problem.value in {BadInterface, BadRange, BadPeer, BadRoute}
  {
    if i.privateKey == "" || i.addresses.None? || |i.addresses.value| == 0 || i.peers.None? {
      return Some(BadInterface);
    }
    if i.listenPort.Some? && (i.listenPort.value < 1 || i.listenPort.value > 65535) {
      return Some(BadRange);
    }
    if i.mtu.Some? && (i.mtu.value < 576 || i.mtu.value > 65535) {
      return Some(BadRange);
    }
    if i.fwmark.Some? && (i.fwmark.value < 1 || i.fwmark.value > 4294967295) {
      return Some(BadRange);
    }
    if i.routingTable.Some? {
      var t := i.routingTable.value;
      if t.ipv4.None? && t.ipv6.None? {
        return Some(BadInterface);
      }
      if t.ipv4.Some? {
        problem := ValidateTable(t.ipv4.value);
        if problem.Some? {
          return;
        }
      }
      if t.ipv6.Some? {
        problem := ValidateTable(t.ipv6.value);
        if problem.Some? {
          return;
        }
      }
    }
    problem := ValidatePeers(i.peers.value);
    if problem.Some? {
      return;
    }
    if i.routes.Some? {
      problem := ValidateRoutes(i.routes.value);
    }
  }

  method Validate(b: Bundle, namespace: string, nodeID: string) returns (problem: Option<Problem>)
    ensures problem.None? <==> Valid(b, namespace, nodeID)
    ensures HeaderProblem(b, namespace, nodeID).Some? ==> problem == HeaderProblem(b, namespace, nodeID)
    ensures problem.Some? && HeaderProblem(b, namespace, nodeID).None?
      ==> problem.value in {BadInterface, BadRange, BadPeer, BadRoute}
  {
    if b.version != 1 {
      return Some(BadVersion);
    }
    if b.namespace != namespace {
      return Some(BadNamespace);
    }
    if b.nodeID != nodeID {
      return Some(BadNodeID);
    }
    if b.timestamp <= 0 {
      return Some(BadTimestamp);
    }
    if b.timestamp > 9007199254740991 {
      return Some(BadRange);
    }
    if b.stunmesh.None? {
      return Some(MissingStunmesh);
    }
    if b.wg.None? {
      return Some(MissingWG);
    }
    var wg := b.wg.value;
    var todo := wg.Keys;
    while todo != {}
      invariant todo <= wg.Keys
      invariant forall name :: name in wg.Keys - todo ==> ValidInterface(wg[name])
      decreases |todo|
    {
      var name :| name in todo;
      problem := ValidateInterface(wg[name]);
      if problem.Some? {
        return;
      }
      todo := todo - {name};
    }
    return None;
  }

  // RouteAllowedIPsOrDefault
  function RouteAllowedIPsOrDefault(i: Interface): bool {
    i.routeAllowedIPs.None? || i.routeAllowedIPs.value
  }
}
