/** What the sections of an interface hold, option by option, told from the bundle alone. */
module BuiltSections {
  import opened Text
  import opened Bundle
  import opened Marshal
  import opened Uci
  import opened InterfaceBatch
  import opened InterfaceSections

  // ----- how an option is told -----

  // The option is there exactly if there is a text for it, and holds it.
  ghost predicate Holds(s: Section, o: string, v: Option<string>) {
    (o in s.options <==> v.Some?) && (v.Some? ==> s.options[o] == Scalar(v.value))
  }

  // A list option is there exactly if there are items, and holds them in order.
  ghost predicate HoldsList(s: Section, o: string, xs: Option<seq<string>>) {
    (o in s.options <==> xs.Some? && xs.value != []) && (o in s.options ==> s.options[o] == ListOf(xs.value))
  }

  // A number is there exactly if it is given, in decimal digits that read back as it.
  ghost predicate HoldsNumber(s: Section, o: string, n: Option<int>) {
    && (o in s.options <==> n.Some?)
    && (n.Some? ==> s.options[o].Scalar? && ParseInt(s.options[o].text) == Some(n.value))
  }

  lemma NumberHeld(s: Section, o: string, n: Option<int>)
    requires Holds(s, o, ItoaOpt(n))
    ensures HoldsNumber(s, o, n)
  {
    if n.Some? { ItoaParses(n.value); }
  }

  predicate IsHex(c: char) { '0' <= c <= '9' || 'a' <= c <= 'f' }

  // Read as a hexadecimal number, the most significant digit first.
  function HexNumber(text: string): nat
    requires forall c :: c in text ==> IsHex(c)
  {
    if text == [] then 0
    else
      var c := text[|text| - 1];
      assert IsHex(c);
      16 * HexNumber(text[..|text| - 1]) + if c <= '9' then c as int - '0' as int else 10 + (c as int - 'a' as int)
  }

  lemma {:induction false} HexReads(n: nat)
    ensures Hex(n) != [] && (forall c :: c in Hex(n) ==> IsHex(c)) && HexNumber(Hex(n)) == n
  {
    if n >= 16 {
      HexReads(n / 16);
      assert Hex(n)[..|Hex(n)| - 1] == Hex(n / 16);
    } else {
      assert Hex(n)[..0] == [];
    }
  }

  predicate IsMark(text: string, n: nat) {
    |text| > 2 && text[..2] == "0x" && (forall c :: c in text[2..] ==> IsHex(c)) && HexNumber(text[2..]) == n
  }

  lemma MarkReads(n: nat)
    ensures IsMark("0x" + Hex(n), n)
  {
    HexReads(n);
    assert ("0x" + Hex(n))[2..] == Hex(n);
  }

  // A mark is there exactly if it is given, after 0x, in hexadecimal digits that read as it.
  ghost predicate HoldsMark(s: Section, o: string, n: Option<int>) {
    && (o in s.options <==> n.Some?)
    && (n.Some? && n.value >= 0 ==>
          s.options[o].Scalar? && IsMark(s.options[o].text, n.value))
  }

  predicate Given(options: Option<map<string, string>>, o: string) { options.Some? && o in options.value }

  // Free options win over everything else.
  ghost predicate FreeWin(s: Section, options: Option<map<string, string>>) {
    forall o :: Given(options, o) ==> Holds(s, o, Some(options.value[o]))
  }

  // ----- the interface's own section -----

  predicate InterfaceOption(o: string) {
    || o == "proto" || o == "private_key" || o == "listen_port" || o == "addresses" || o == "mtu" || o == "fwmark"
    || o == "ip4table" || o == "ip6table"
  }

  ghost predicate InterfaceTold(s: Section, i: Interface) {
    && s.typ == "interface" && FreeWin(s, i.options)
    && (forall o :: o in s.options ==> Given(i.options, o) || InterfaceOption(o))
    && (!Given(i.options, "proto") ==> Holds(s, "proto", Some("wireguard")))
    && (!Given(i.options, "private_key") ==> Holds(s, "private_key", Some(i.privateKey)))
    && (!Given(i.options, "listen_port") ==> HoldsNumber(s, "listen_port", i.listenPort))
    && (!Given(i.options, "addresses") ==> HoldsList(s, "addresses", i.addresses))
    && (!Given(i.options, "mtu") ==> HoldsNumber(s, "mtu", i.mtu))
    && (!Given(i.options, "fwmark") ==> HoldsMark(s, "fwmark", i.fwmark))
    && (!Given(i.options, "ip4table") ==>
          Holds(s, "ip4table", if i.routingTable.Some? then i.routingTable.value.ipv4 else None))
    && (!Given(i.options, "ip6table") ==>
          Holds(s, "ip6table", if i.routingTable.Some? then i.routingTable.value.ipv6 else None))
  }

  // What a map holds of an option.
  function At(m: map<string, Value>, o: string): Option<Value> { if o in m then Some(m[o]) else None }

  // A layer on top hides what is below only for its own option.
  lemma UnderOpt(m: map<string, Value>, layer: string, v: Option<string>, o: string)
    ensures At(m + OptValue(layer, v), o) == if o == layer && v.Some? then Some(Scalar(v.value)) else At(m, o)
  {
  }

  lemma UnderList(m: map<string, Value>, layer: string, xs: seq<string>, o: string)
    ensures At(m + ListValue(layer, xs), o) == if o == layer && xs != [] then Some(ListOf(xs)) else At(m, o)
  {
  }

  lemma UnderFree(m: map<string, Value>, options: Option<map<string, string>>, o: string)
    ensures At(m + CustomValues(options), o) == if Given(options, o) then Some(Scalar(options.value[o])) else At(m, o)
  {
  }

  function InterfaceAt(i: Interface, o: string): Option<Value> {
    var v4, v6 := TableOf(i.routingTable, false), TableOf(i.routingTable, true);
    if Given(i.options, o) then Some(Scalar(i.options.value[o]))
    else if o == "ip6table" && v6.Some? then Some(Scalar(v6.value))
    else if o == "ip4table" && v4.Some? then Some(Scalar(v4.value))
    else if o == "fwmark" && i.fwmark.Some? then Some(Scalar(Fwmark(i.fwmark).value))
    else if o == "mtu" && i.mtu.Some? then Some(Scalar(Itoa(i.mtu.value)))
    else if o == "addresses" && ListItems(i.addresses) != [] then Some(ListOf(ListItems(i.addresses)))
    else if o == "listen_port" && i.listenPort.Some? then Some(Scalar(Itoa(i.listenPort.value)))
    else if o == "private_key" then Some(Scalar(i.privateKey))
    else if o == "proto" then Some(Scalar("wireguard"))
    else None
  }

  lemma InterfaceIsAt(i: Interface, o: string)
    ensures At(InterfaceOptions(i), o) == InterfaceAt(i, o)
  {
    var m: map<string, Value> := map["proto" := Scalar("wireguard"), "private_key" := Scalar(i.privateKey)];
    var v4, v6 := TableOf(i.routingTable, false), TableOf(i.routingTable, true);
    UnderOpt(m, "listen_port", ItoaOpt(i.listenPort), o);
    m := m + OptValue("listen_port", ItoaOpt(i.listenPort));
    UnderList(m, "addresses", ListItems(i.addresses), o);
    m := m + ListValue("addresses", ListItems(i.addresses));
    UnderOpt(m, "mtu", ItoaOpt(i.mtu), o);
    m := m + OptValue("mtu", ItoaOpt(i.mtu));
    UnderOpt(m, "fwmark", Fwmark(i.fwmark), o);
    m := m + OptValue("fwmark", Fwmark(i.fwmark));
    UnderOpt(m, "ip4table", v4, o);
    m := m + OptValue("ip4table", v4);
    UnderOpt(m, "ip6table", v6, o);
    m := m + OptValue("ip6table", v6);
    UnderFree(m, i.options, o);
  }

  // The section holds what the layers make of every option.
  ghost predicate InterfaceReads(s: Section, i: Interface) { forall o :: At(s.options, o) == InterfaceAt(i, o) }

  lemma InterfaceBasics(s: Section, i: Interface)
    requires InterfaceReads(s, i)
    ensures !Given(i.options, "proto") ==> Holds(s, "proto", Some("wireguard"))
    ensures !Given(i.options, "private_key") ==> Holds(s, "private_key", Some(i.privateKey))
  {
    assert At(s.options, "proto") == InterfaceAt(i, "proto");
    assert At(s.options, "private_key") == InterfaceAt(i, "private_key");
  }

  lemma InterfaceNumbers(s: Section, i: Interface)
    requires InterfaceReads(s, i)
    ensures !Given(i.options, "listen_port") ==> HoldsNumber(s, "listen_port", i.listenPort)
    ensures !Given(i.options, "mtu") ==> HoldsNumber(s, "mtu", i.mtu)
  {
    assert At(s.options, "listen_port") == InterfaceAt(i, "listen_port");
    assert At(s.options, "mtu") == InterfaceAt(i, "mtu");
    if !Given(i.options, "listen_port") { NumberHeld(s, "listen_port", i.listenPort); }
    if !Given(i.options, "mtu") { NumberHeld(s, "mtu", i.mtu); }
  }

  lemma InterfaceAddresses(s: Section, i: Interface)
    requires InterfaceReads(s, i)
    ensures !Given(i.options, "addresses") ==> HoldsList(s, "addresses", i.addresses)
  {
    assert At(s.options, "addresses") == InterfaceAt(i, "addresses");
  }

  lemma InterfaceMark(s: Section, i: Interface)
    requires InterfaceReads(s, i)
    ensures !Given(i.options, "fwmark") ==> HoldsMark(s, "fwmark", i.fwmark)
  {
    assert At(s.options, "fwmark") == InterfaceAt(i, "fwmark");
    if i.fwmark.Some? && i.fwmark.value >= 0 { MarkReads(i.fwmark.value); }
  }

  lemma InterfaceTables(s: Section, i: Interface)
    requires InterfaceReads(s, i)
    ensures var t := i.routingTable;
      && (!Given(i.options, "ip4table") ==> Holds(s, "ip4table", if t.Some? then t.value.ipv4 else None))
      && (!Given(i.options, "ip6table") ==> Holds(s, "ip6table", if t.Some? then t.value.ipv6 else None))
  {
    assert At(s.options, "ip4table") == InterfaceAt(i, "ip4table");
    assert At(s.options, "ip6table") == InterfaceAt(i, "ip6table");
  }

  lemma InterfaceOnly(s: Section, i: Interface)
    requires InterfaceReads(s, i)
    ensures FreeWin(s, i.options)
    ensures forall o :: o in s.options ==> Given(i.options, o) || InterfaceOption(o)
  {
    forall o | o in s.options ensures Given(i.options, o) || InterfaceOption(o) {
      assert At(s.options, o) == InterfaceAt(i, o);
    }
    forall o | Given(i.options, o) ensures Holds(s, o, Some(i.options.value[o])) {
      assert At(s.options, o) == InterfaceAt(i, o);
    }
  }

  lemma ReadIsTold(s: Section, i: Interface)
    requires s.typ == "interface" && InterfaceReads(s, i)
    ensures InterfaceTold(s, i)
  {
    InterfaceBasics(s, i);
    InterfaceNumbers(s, i);
    InterfaceAddresses(s, i);
    InterfaceMark(s, i);
    InterfaceTables(s, i);
    InterfaceOnly(s, i);
  }

  lemma InterfaceIsTold(i: Interface)
    ensures InterfaceTold(Section("interface", InterfaceOptions(i)), i)
  {
    var s := Section("interface", InterfaceOptions(i));
    forall o ensures At(s.options, o) == InterfaceAt(i, o) { InterfaceIsAt(i, o); }
    ReadIsTold(s, i);
  }

  // ----- a route's section -----

  predicate RouteOption(o: string) { o == "interface" || o == "target" || o == "gateway" || o == "metric" }

  ghost predicate RouteTold(net: Net, s: Section, iface: string, r: Route) {
    && s.typ == (match net.parseCIDR(r.cidr)
                 case Some(true) => "route"
                 case Some(false) => "route6"
                 case None => if exists n :: 0 <= n < |r.cidr| && r.cidr[n] == ':' then "route6" else "route")
    && (forall o :: o in s.options ==> RouteOption(o))
    && Holds(s, "interface", Some(iface)) && Holds(s, "target", Some(r.cidr))
    && Holds(s, "gateway", r.gateway) && HoldsNumber(s, "metric", r.metric)
  }

  function RouteAt(iface: string, r: Route, o: string): Option<Value> {
    if o == "metric" && r.metric.Some? then Some(Scalar(Itoa(r.metric.value)))
    else if o == "gateway" && r.gateway.Some? then Some(Scalar(r.gateway.value))
    else if o == "target" then Some(Scalar(r.cidr))
    else if o == "interface" then Some(Scalar(iface))
    else None
  }

  lemma RouteIsAt(iface: string, r: Route, o: string)
    ensures At(RouteOptions(iface, r), o) == RouteAt(iface, r, o)
  {
    var m: map<string, Value> := map["interface" := Scalar(iface), "target" := Scalar(r.cidr)];
    UnderOpt(m, "gateway", r.gateway, o);
    UnderOpt(m + OptValue("gateway", r.gateway), "metric", ItoaOpt(r.metric), o);
  }

  ghost predicate RouteReads(s: Section, iface: string, r: Route) {
    forall o :: At(s.options, o) == RouteAt(iface, r, o)
  }

  lemma RouteOptionsTold(s: Section, iface: string, r: Route)
    requires RouteReads(s, iface, r)
    ensures forall o :: o in s.options ==> RouteOption(o)
    ensures Holds(s, "interface", Some(iface)) && Holds(s, "target", Some(r.cidr))
    ensures Holds(s, "gateway", r.gateway) && HoldsNumber(s, "metric", r.metric)
  {
    assert At(s.options, "interface") == RouteAt(iface, r, "interface");
    assert At(s.options, "target") == RouteAt(iface, r, "target");
    assert At(s.options, "gateway") == RouteAt(iface, r, "gateway");
    assert At(s.options, "metric") == RouteAt(iface, r, "metric");
    NumberHeld(s, "metric", r.metric);
    forall o | o in s.options ensures RouteOption(o) { assert At(s.options, o) == RouteAt(iface, r, o); }
  }

  lemma RouteIsTold(net: Net, iface: string, r: Route)
    ensures RouteTold(net, Section(RouteFamily(net, r.cidr), RouteOptions(iface, r)), iface, r)
  {
    var s := Section(RouteFamily(net, r.cidr), RouteOptions(iface, r));
    forall o ensures At(s.options, o) == RouteAt(iface, r, o) { RouteIsAt(iface, r, o); }
    RouteOptionsTold(s, iface, r);
  }

  // ----- a peer's section -----

  // The port, if the endpoint splits into host and port.
  ghost predicate PortTold(net: Net, s: Section, endpoint: Option<string>) {
    var split := if endpoint.Some? then net.splitHostPort(endpoint.value) else None;
    Holds(s, "endpoint_port", if split.Some? then Some(split.value.1) else None)
  }

  // The host that is written for an endpoint.
  ghost predicate HostOf(net: Net, e: string, host: string) {
    match net.splitHostPort(e)
    case Some((h, _)) => host == h
    case None => e == "[" + host + "]" || (host == e && forall h :: e != "[" + h + "]")
  }

  // The host of an endpoint that splits; else the endpoint, without the brackets around it.
  ghost predicate HostTold(net: Net, s: Section, endpoint: Option<string>) {
    if endpoint.None? then "endpoint_host" !in s.options
    else exists host :: Holds(s, "endpoint_host", Some(host)) && HostOf(net, endpoint.value, host)
  }

  predicate PeerOption(o: string) {
    || o == "description" || o == "public_key" || o == "preshared_key" || o == "allowed_ips" || o == "endpoint_host"
    || o == "endpoint_port" || o == "persistent_keepalive" || o == "route_allowed_ips"
  }

  ghost predicate PeerTold(net: Net, s: Section, iface: string, i: Interface, peer: string, p: Peer) {
    && s.typ == "wireguard_" + iface && FreeWin(s, p.options)
    && (forall o :: o in s.options ==> Given(p.options, o) || PeerOption(o))
    && (!Given(p.options, "description") ==> Holds(s, "description", Some(peer)))
    && (!Given(p.options, "public_key") ==> Holds(s, "public_key", Some(p.publicKey)))
    && (!Given(p.options, "preshared_key") ==> Holds(s, "preshared_key", p.presharedKey))
    && (!Given(p.options, "allowed_ips") ==> HoldsList(s, "allowed_ips", p.allowedIPs))
    && (!Given(p.options, "endpoint_host") ==> HostTold(net, s, p.endpoint))
    && (!Given(p.options, "endpoint_port") ==> PortTold(net, s, p.endpoint))
    && (!Given(p.options, "persistent_keepalive") ==> HoldsNumber(s, "persistent_keepalive", p.persistentKeepalive))
    && (!Given(p.options, "route_allowed_ips") ==>
          Holds(s, "route_allowed_ips", Some(if i.routeAllowedIPs == Some(false) then "0" else "1")))
  }

  function PeerAt(net: Net, peer: string, p: Peer, flag: string, o: string): Option<Value> {
    if Given(p.options, o) then Some(Scalar(p.options.value[o]))
    else if o == "route_allowed_ips" then Some(Scalar(flag))
    else if o == "persistent_keepalive" && p.persistentKeepalive.Some? then
      Some(Scalar(Itoa(p.persistentKeepalive.value)))
    else if o == "endpoint_port" && EndpointPort(net, p.endpoint).Some? then
      Some(Scalar(EndpointPort(net, p.endpoint).value))
    else if o == "endpoint_host" && p.endpoint.Some? then Some(Scalar(EndpointHost(net, p.endpoint).value))
    else if o == "allowed_ips" && ListItems(p.allowedIPs) != [] then Some(ListOf(ListItems(p.allowedIPs)))
    else if o == "preshared_key" && p.presharedKey.Some? then Some(Scalar(p.presharedKey.value))
    else if o == "public_key" then Some(Scalar(p.publicKey))
    else if o == "description" then Some(Scalar(peer))
    else None
  }

  lemma PeerIsAt(net: Net, peer: string, p: Peer, flag: string, o: string)
    ensures At(PeerOptions(net, peer, p, flag), o) == PeerAt(net, peer, p, flag, o)
  {
    var m: map<string, Value> := map["description" := Scalar(peer), "public_key" := Scalar(p.publicKey)];
    UnderOpt(m, "preshared_key", p.presharedKey, o);
    m := m + OptValue("preshared_key", p.presharedKey);
    UnderList(m, "allowed_ips", ListItems(p.allowedIPs), o);
    m := m + ListValue("allowed_ips", ListItems(p.allowedIPs));
    UnderOpt(m, "endpoint_host", EndpointHost(net, p.endpoint), o);
    m := m + OptValue("endpoint_host", EndpointHost(net, p.endpoint));
    UnderOpt(m, "endpoint_port", EndpointPort(net, p.endpoint), o);
    m := m + OptValue("endpoint_port", EndpointPort(net, p.endpoint));
    UnderOpt(m, "persistent_keepalive", ItoaOpt(p.persistentKeepalive), o);
    m := m + OptValue("persistent_keepalive", ItoaOpt(p.persistentKeepalive));
    UnderOpt(m, "route_allowed_ips", Some(flag), o);
    m := m + map["route_allowed_ips" := Scalar(flag)];
    UnderFree(m, p.options, o);
  }

  lemma Bracketed(s: string, host: string)
    ensures s == "[" + host + "]" <==> |s| >= 2 && s[0] == '[' && s[|s| - 1] == ']' && s[1..|s| - 1] == host
  {
    if |s| >= 2 && s[0] == '[' && s[|s| - 1] == ']' && s[1..|s| - 1] == host {
      assert s == [s[0]] + s[1..|s| - 1] + [s[|s| - 1]];
    }
  }

  lemma HostParsed(net: Net, e: string)
    ensures HostOf(net, e, ParseEndpoint(net, e).host)
    ensures ParseEndpoint(net, e).port ==
      match net.splitHostPort(e) case Some((_, port)) => Some(port) case None => None
  {
    forall host { Bracketed(e, host); }
  }

  // The section holds what the layers make of every option.
  ghost predicate PeerReads(net: Net, s: Section, peer: string, p: Peer, flag: string) {
    forall o :: At(s.options, o) == PeerAt(net, peer, p, flag, o)
  }

  lemma PeerNameTold(net: Net, s: Section, peer: string, p: Peer, flag: string)
    requires PeerReads(net, s, peer, p, flag)
    ensures !Given(p.options, "description") ==> Holds(s, "description", Some(peer))
    ensures !Given(p.options, "route_allowed_ips") ==> Holds(s, "route_allowed_ips", Some(flag))
  {
    assert At(s.options, "description") == PeerAt(net, peer, p, flag, "description");
    assert At(s.options, "route_allowed_ips") == PeerAt(net, peer, p, flag, "route_allowed_ips");
  }

  lemma PeerKeysTold(net: Net, s: Section, peer: string, p: Peer, flag: string)
    requires PeerReads(net, s, peer, p, flag)
    ensures !Given(p.options, "public_key") ==> Holds(s, "public_key", Some(p.publicKey))
    ensures !Given(p.options, "preshared_key") ==> Holds(s, "preshared_key", p.presharedKey)
  {
    assert "preshared_key"[0] != "endpoint_host"[0] && "preshared_key"[0] != "endpoint_port"[0];
    assert At(s.options, "public_key") == PeerAt(net, peer, p, flag, "public_key");
    assert At(s.options, "preshared_key") == PeerAt(net, peer, p, flag, "preshared_key");
  }

  lemma PeerAllowedTold(net: Net, s: Section, peer: string, p: Peer, flag: string)
    requires PeerReads(net, s, peer, p, flag)
    ensures !Given(p.options, "allowed_ips") ==> HoldsList(s, "allowed_ips", p.allowedIPs)
  {
    assert "allowed_ips"[0] != "description"[0];
    assert At(s.options, "allowed_ips") == PeerAt(net, peer, p, flag, "allowed_ips");
  }

  lemma PeerAliveTold(net: Net, s: Section, peer: string, p: Peer, flag: string)
    requires PeerReads(net, s, peer, p, flag)
    ensures !Given(p.options, "persistent_keepalive") ==>
      HoldsNumber(s, "persistent_keepalive", p.persistentKeepalive)
  {
    assert At(s.options, "persistent_keepalive") == PeerAt(net, peer, p, flag, "persistent_keepalive");
    if !Given(p.options, "persistent_keepalive") { NumberHeld(s, "persistent_keepalive", p.persistentKeepalive); }
  }

  lemma PeerEndpointTold(net: Net, s: Section, peer: string, p: Peer, flag: string)
    requires PeerReads(net, s, peer, p, flag)
    ensures !Given(p.options, "endpoint_host") ==> HostTold(net, s, p.endpoint)
    ensures !Given(p.options, "endpoint_port") ==> PortTold(net, s, p.endpoint)
  {
    assert "endpoint_host"[9] != "endpoint_port"[9];
    assert At(s.options, "endpoint_host") == PeerAt(net, peer, p, flag, "endpoint_host");
    assert At(s.options, "endpoint_port") == PeerAt(net, peer, p, flag, "endpoint_port");
    if p.endpoint.Some? { HostParsed(net, p.endpoint.value); }
  }

  lemma PeerOnly(net: Net, s: Section, peer: string, p: Peer, flag: string)
    requires PeerReads(net, s, peer, p, flag)
    ensures FreeWin(s, p.options)
    ensures forall o :: o in s.options ==> Given(p.options, o) || PeerOption(o)
  {
    forall o | o in s.options ensures Given(p.options, o) || PeerOption(o) {
      assert At(s.options, o) == PeerAt(net, peer, p, flag, o);
    }
    forall o | Given(p.options, o) ensures Holds(s, o, Some(p.options.value[o])) {
      assert At(s.options, o) == PeerAt(net, peer, p, flag, o);
    }
  }

  lemma PeerReadIsTold(net: Net, s: Section, iface: string, i: Interface, peer: string, p: Peer)
    requires s.typ == "wireguard_" + iface && PeerReads(net, s, peer, p, Flag(RouteAllowedIPsOrDefault(i)))
    ensures PeerTold(net, s, iface, i, peer, p)
  {
    var flag := Flag(RouteAllowedIPsOrDefault(i));
    PeerNameTold(net, s, peer, p, flag);
    PeerKeysTold(net, s, peer, p, flag);
    PeerAllowedTold(net, s, peer, p, flag);
    PeerAliveTold(net, s, peer, p, flag);
    PeerEndpointTold(net, s, peer, p, flag);
    PeerOnly(net, s, peer, p, flag);
  }

  lemma PeerIsTold(net: Net, iface: string, i: Interface, peer: string, p: Peer)
    ensures PeerTold(net, Section("wireguard_" + iface, PeerOptions(net, peer, p, Flag(RouteAllowedIPsOrDefault(i)))),
                     iface, i, peer, p)
  {
    var flag := Flag(RouteAllowedIPsOrDefault(i));
    var s := Section("wireguard_" + iface, PeerOptions(net, peer, p, flag));
    forall o ensures At(s.options, o) == PeerAt(net, peer, p, flag, o) { PeerIsAt(net, peer, p, flag, o); }
    PeerReadIsTold(net, s, iface, i, peer, p);
  }

  // ----- what the batch makes of an empty store -----

  const EMPTY: Config := map[]

  lemma EmptyOverwritable(ps: seq<Program>)
    ensures forall n :: 0 <= n < |ps| ==> Overwritable(ps[n], EMPTY)
  {
  }

  lemma EmptyAfter(ps: seq<Program>)
    requires Distinct(ps)
    ensures Run(Steps(Batch(ps)), EMPTY) == MadeAll(ps)
  {
    EmptyOverwritable(ps);
    RunBatch(ps, EMPTY);
    assert EMPTY + MadeAll(ps) == MadeAll(ps);
  }

  lemma BatchBuilds(net: Net, name: string, i: Interface)
    ensures Run(Steps(Batch(Programs(net, name, i))), EMPTY) == Built(net, name, i)
  {
    ProgramsDistinct(net, name, i);
    EmptyAfter(Programs(net, name, i));
  }

  // A section of this name is made for the interface, and what it is for.
  ghost predicate Named(name: string, i: Interface, s: string) {
    || s == name
    || (i.routes.Some? && exists n :: 0 <= n < |i.routes.value| && s == name + "_r_" + Itoa(n))
    || (i.peers.Some? && exists p :: p in i.peers.value && s == name + "_p_" + p)
  }

  lemma KindIsNamed(name: string, i: Interface, k: Kind)
    requires HasKind(i, k)
    ensures Named(name, i, SectionName(name, k))
  {
  }

  lemma NamedHasKind(name: string, i: Interface, s: string) returns (k: Kind)
    requires Named(name, i, s)
    ensures HasKind(i, k) && SectionName(name, k) == s
  {
    if s == name {
      k := Itself;
    } else if i.routes.Some? && exists n :: 0 <= n < |i.routes.value| && s == name + "_r_" + Itoa(n) {
      var n :| 0 <= n < |i.routes.value| && s == name + "_r_" + Itoa(n);
      k := RouteNo(n);
    } else {
      var p :| p in i.peers.value && s == name + "_p_" + p;
      k := PeerNamed(p);
    }
  }

  lemma NamedIff(name: string, i: Interface, s: string)
    ensures s in SectionNames(name, i) <==> Named(name, i, s)
  {
    if s in SectionNames(name, i) {
      var k := NamesHaveKinds(name, i, s);
      KindIsNamed(name, i, k);
    }
    if Named(name, i, s) {
      var k := NamedHasKind(name, i, s);
      KindHasName(name, i, k);
    }
  }

  ghost predicate RoutesTold(net: Net, cfg: Config, name: string, i: Interface) {
    i.routes.Some? ==> forall n :: 0 <= n < |i.routes.value| ==>
      name + "_r_" + Itoa(n) in cfg && RouteTold(net, cfg[name + "_r_" + Itoa(n)], name, i.routes.value[n])
  }

  ghost predicate PeersTold(net: Net, cfg: Config, name: string, i: Interface) {
    i.peers.Some? ==> forall p :: p in i.peers.value ==>
      name + "_p_" + p in cfg && PeerTold(net, cfg[name + "_p_" + p], name, i, p, i.peers.value[p])
  }

  lemma InterfaceIsBuilt(net: Net, name: string, i: Interface)
    ensures name in Built(net, name, i) && InterfaceTold(Built(net, name, i)[name], i)
  {
    BuiltIsWanted(net, name, i, Itself);
    InterfaceIsTold(i);
  }

  lemma RouteIsBuilt(net: Net, name: string, i: Interface, n: nat)
    requires i.routes.Some? && n < |i.routes.value|
    ensures var s := name + "_r_" + Itoa(n);
      s in Built(net, name, i) && RouteTold(net, Built(net, name, i)[s], name, i.routes.value[n])
  {
    BuiltIsWanted(net, name, i, RouteNo(n));
    RouteIsTold(net, name, i.routes.value[n]);
  }

  lemma PeerIsBuilt(net: Net, name: string, i: Interface, p: string)
    requires i.peers.Some? && p in i.peers.value
    ensures var s := name + "_p_" + p;
      s in Built(net, name, i) && PeerTold(net, Built(net, name, i)[s], name, i, p, i.peers.value[p])
  {
    BuiltIsWanted(net, name, i, PeerNamed(p));
    PeerIsTold(net, name, i, p, i.peers.value[p]);
  }

  // The batch run on an empty store makes exactly the named sections: the interface's own, one
  // for each route, and one for each peer, each as told.
  lemma BatchTold(net: Net, name: string, i: Interface)
    ensures var cfg := Run(Steps(Batch(Programs(net, name, i))), map[]);
      && (forall s :: s in cfg <==> Named(name, i, s))
      && name in cfg && InterfaceTold(cfg[name], i) && RoutesTold(net, cfg, name, i) && PeersTold(net, cfg, name, i)
  {
    var cfg := Built(net, name, i);
    BatchBuilds(net, name, i);
    BuiltNames(net, name, i);
    forall s ensures s in cfg <==> Named(name, i, s) { NamedIff(name, i, s); }
    InterfaceIsBuilt(net, name, i);
    forall n | i.routes.Some? && 0 <= n < |i.routes.value|
      ensures var s := name + "_r_" + Itoa(n); s in cfg && RouteTold(net, cfg[s], name, i.routes.value[n])
    {
      RouteIsBuilt(net, name, i, n);
    }
    forall p | i.peers.Some? && p in i.peers.value
      ensures var s := name + "_p_" + p; s in cfg && PeerTold(net, cfg[s], name, i, p, i.peers.value[p])
    {
      PeerIsBuilt(net, name, i, p);
    }
  }
}
