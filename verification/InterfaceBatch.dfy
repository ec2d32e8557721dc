/** internal/uci: the batch that creates one WireGuard interface, and the section names it
    uses.
  */
module InterfaceBatch {
  import opened Text
  import opened Bundle
  import opened Uci

  /** The two calls into package net, as functions: SplitHostPort gives host and port or
      fails; ParseCIDR fails or tells whether the network is an IPv4 one.
    */
  datatype Net = Net(splitHostPort: string -> Option<(string, string)>, parseCIDR: string -> Option<bool>)

  // ----- names -----

  function RouteSectionName(iface: string, n: nat): string { iface + "_r_" + Itoa(n) }

  function PeerSectionName(iface: string, peer: string): string { iface + "_p_" + peer }

  function RouteNames(name: string, routes: Option<seq<Route>>): seq<string> {
    if routes.None? then []
    else seq(|routes.value|, n requires 0 <= n < |routes.value| => RouteSectionName(name, n))
  }

  function PeerKeys(peers: Option<map<string, Peer>>): seq<string> {
    if peers.None? then [] else Sorted(peers.value.Keys)
  }

  function NamesOfPeers(name: string, keys: seq<string>): seq<string> {
    seq(|keys|, k requires 0 <= k < |keys| => PeerSectionName(name, keys[k]))
  }

  function PeerNames(name: string, peers: Option<map<string, Peer>>): seq<string> {
    NamesOfPeers(name, PeerKeys(peers))
  }

  // Every section that belongs to an interface.
  function SectionNames(name: string, i: Interface): set<string> {
    {name} + (set s | s in RouteNames(name, i.routes)) + (set s | s in PeerNames(name, i.peers))
  }

  // What a section of an interface is for.
  datatype Kind = Itself | RouteNo(n: nat) | PeerNamed(peer: string)

  function SectionName(iface: string, k: Kind): string {
    match k
    case Itself => iface
    case RouteNo(n) => RouteSectionName(iface, n)
    case PeerNamed(p) => PeerSectionName(iface, p)
  }

  predicate Plain(iface: string) { '_' !in iface }

  // The part of a section name before its first underscore.
  function Owner(s: string): string {
    if s == [] || s[0] == '_' then [] else [s[0]] + Owner(s[1..])
  }

  lemma {:induction false} OwnerOfPrefix(iface: string, rest: string)
    requires Plain(iface) && (rest == [] || rest[0] == '_')
    ensures Owner(iface + rest) == iface
  {
    if iface == [] {
      assert iface + rest == rest;
    } else {
      assert (iface + rest)[1..] == iface[1..] + rest;
      OwnerOfPrefix(iface[1..], rest);
      assert iface == [iface[0]] + iface[1..];
    }
  }

  lemma OwnerOfSection(iface: string, k: Kind)
    requires Plain(iface)
    ensures Owner(SectionName(iface, k)) == iface
  {
    NameIsSuffixed(iface, k);
    OwnerOfPrefix(iface, Suffix(k));
  }

  // Within one interface, whatever its name, a section name tells what the section is for.
  lemma KindInjective(iface: string, k: Kind, l: Kind)
    requires SectionName(iface, k) == SectionName(iface, l)
    ensures k == l
  {
    var n := |iface|;
    var a, b := SectionName(iface, k)[n..], SectionName(iface, l)[n..];
    assert k.RouteNo? ==> a == "_r_" + Itoa(k.n) && a[1] == 'r' && a[3..] == Itoa(k.n);
    assert l.RouteNo? ==> b == "_r_" + Itoa(l.n) && b[1] == 'r' && b[3..] == Itoa(l.n);
    assert k.PeerNamed? ==> a == "_p_" + k.peer && a[1] == 'p' && a[3..] == k.peer;
    assert l.PeerNamed? ==> b == "_p_" + l.peer && b[1] == 'p' && b[3..] == l.peer;
    assert k.Itself? ==> a == [];
    assert l.Itself? ==> b == [];
    if k.RouteNo? && l.RouteNo? { DigitsInjective(k.n, l.n); }
  }

  // Without underscores in interface names, no two sections of any interfaces share a name.
  lemma SectionNameInjective(a: string, k: Kind, b: string, l: Kind)
    requires Plain(a) && Plain(b) && SectionName(a, k) == SectionName(b, l)
    ensures a == b && k == l
  {
    OwnerOfSection(a, k);
    OwnerOfSection(b, l);
    KindInjective(a, k, l);
  }

  // With underscores they can.
  lemma UnderscoreCollision()
    ensures PeerSectionName("a", "b_p_c") == PeerSectionName("a_p_b", "c")
  {
  }

  predicate StartsWith(s: string, prefix: string) { |prefix| <= |s| && s[..|prefix|] == prefix }

  // Interface b is named as if it were a section of interface a, or the beginning of one.
  ghost predicate Shadows(a: string, b: string) {
    b == a + "_p" || StartsWith(b, a + "_p_") || exists n: nat :: b == a + "_r_" + Itoa(n)
  }

  // The exact condition on two interface names under which some of their sections collide.
  ghost predicate Collide(a: string, b: string) { Shadows(a, b) || Shadows(b, a) }

  ghost predicate ShareName(a: string, b: string) { exists k, l :: SectionName(a, k) == SectionName(b, l) }

  // What a section's name adds to the interface's.
  function Suffix(k: Kind): string {
    match k
    case Itself => ""
    case RouteNo(n) => "_r_" + Itoa(n)
    case PeerNamed(p) => "_p_" + p
  }

  lemma NameIsSuffixed(iface: string, k: Kind)
    ensures SectionName(iface, k) == iface + Suffix(k)
  {
  }

  lemma ShadowShares(a: string, b: string)
    requires Shadows(a, b)
    ensures ShareName(a, b)
  {
    if b == a + "_p" {
      assert SectionName(a, PeerNamed("p_")) == a + "_p_p_";
      assert SectionName(b, PeerNamed("")) == a + "_p_p_";
    } else if StartsWith(b, a + "_p_") {
      var rest := b[|a + "_p_"|..];
      assert b == (a + "_p_") + rest == a + ("_p_" + rest);
      assert SectionName(a, PeerNamed(rest)) == SectionName(b, Itself);
    } else {
      var n: nat :| b == a + "_r_" + Itoa(n);
      assert SectionName(a, RouteNo(n)) == SectionName(b, Itself);
    }
  }

  lemma ItoaDigits(n: nat)
    ensures Itoa(n) != "" && forall c :: c in Itoa(n) ==> IsDigit(c)
  {
  }

  lemma RouteChars(n: nat)
    ensures forall i :: 3 <= i < |Suffix(RouteNo(n))| ==> IsDigit(Suffix(RouteNo(n))[i])
  {
    var s := Suffix(RouteNo(n));
    ItoaDigits(n);
    forall i | 3 <= i < |s| ensures IsDigit(s[i]) { assert s[i] == Itoa(n)[i - 3] && Itoa(n)[i - 3] in Itoa(n); }
  }

  // The names agree, and b is longer by t.
  ghost predicate Overlap(k: Kind, t: string, l: Kind) { t != "" && Suffix(k) == t + Suffix(l) }

  lemma OverlapAt(k: Kind, t: string, l: Kind, n: nat)
    requires Overlap(k, t, l) && n < |Suffix(l)|
    ensures |t| + n < |Suffix(k)| && Suffix(k)[|t| + n] == Suffix(l)[n]
  {
  }

  // A route's name ends in digits, so no other section's suffix can be found inside it.
  lemma RouteOverlap(n: nat, t: string, l: Kind)
    requires Overlap(RouteNo(n), t, l)
    ensures l.Itself?
  {
    if !l.Itself? {
      var s := Suffix(RouteNo(n));
      OverlapAt(RouteNo(n), t, l, 0);
      OverlapAt(RouteNo(n), t, l, 1);
      RouteChars(n);
    }
  }

  lemma PeerOverlap(p: string, t: string, l: Kind)
    requires Overlap(PeerNamed(p), t, l)
    ensures t == "_p" || StartsWith(t, "_p_")
  {
    var s := Suffix(PeerNamed(p));
    assert t == s[..|t|];
    if |t| >= 3 {
      assert t[..3] == "_p_";
    } else if |t| == 2 {
      assert t == "_p";
    } else {
      assert l.Itself? ==> s == t;
      if !l.Itself? { OverlapAt(PeerNamed(p), t, l, 0); }
    }
  }

  lemma SplitPrefix(a: string, u: string, b: string, w: string)
    requires a + u == b + w && |a| < |b|
    ensures var t := b[|a|..]; t != "" && b == a + t && u == t + w
  {
    assert b == (b + w)[..|b|] == (a + u)[..|b|];
    assert u == (a + u)[|a|..] == (b + w)[|a|..];
  }

  // What b has on top of a, when the two share a section name.
  lemma OverlapShadows(a: string, t: string, k: Kind, l: Kind)
    requires Overlap(k, t, l)
    ensures Shadows(a, a + t)
  {
    match k {
      case Itself =>
      case RouteNo(n) =>
        RouteOverlap(n, t, l);
        assert t == "_r_" + Itoa(n);
        assert a + t == a + "_r_" + Itoa(n);
      case PeerNamed(p) =>
        PeerOverlap(p, t, l);
        if t != "_p" { assert (a + t)[..|a + "_p_"|] == a + "_p_"; }
    }
  }

  lemma LongerShadows(a: string, k: Kind, b: string, l: Kind)
    requires SectionName(a, k) == SectionName(b, l) && |a| < |b|
    ensures Shadows(a, b)
  {
    NameIsSuffixed(a, k);
    NameIsSuffixed(b, l);
    SplitPrefix(a, Suffix(k), b, Suffix(l));
    OverlapShadows(a, b[|a|..], k, l);
  }

  lemma SameLength(a: string, k: Kind, b: string, l: Kind)
    requires SectionName(a, k) == SectionName(b, l) && |a| == |b|
    ensures a == b
  {
    NameIsSuffixed(a, k);
    NameIsSuffixed(b, l);
    assert a == SectionName(a, k)[..|a|] && b == SectionName(b, l)[..|b|];
  }

  // Two interfaces can share a section name if and only if one is named like a section of the
  // other, or like the beginning of one.
  lemma CollideIff(a: string, b: string)
    requires a != b
    ensures ShareName(a, b) <==> Collide(a, b)
  {
    if Shadows(a, b) { ShadowShares(a, b); }
    if Shadows(b, a) { ShadowShares(b, a); }
    if ShareName(a, b) {
      var k, l :| SectionName(a, k) == SectionName(b, l);
      if |a| < |b| {
        LongerShadows(a, k, b, l);
      } else if |b| < |a| {
        LongerShadows(b, l, a, k);
      } else {
        SameLength(a, k, b, l);
      }
    }
  }

  // Names without underscores collide with nothing.
  lemma PlainCollides(a: string, b: string)
    requires Plain(a) && Plain(b) && a != b
    ensures !Collide(a, b)
  {
    if Collide(a, b) {
      CollideIff(a, b);
      var k, l :| SectionName(a, k) == SectionName(b, l);
      SectionNameInjective(a, k, b, l);
    }
  }

  // What each section of an interface is for.
  predicate HasKind(i: Interface, k: Kind) {
    (k.RouteNo? ==> k.n < |Routes(i)|) && (k.PeerNamed? ==> k.peer in Peers(i))
  }

  lemma NamesHaveKinds(iface: string, i: Interface, s: string) returns (k: Kind)
    requires s in SectionNames(iface, i)
    ensures HasKind(i, k) && SectionName(iface, k) == s
  {
    if s == iface {
      k := Itself;
    } else if s in RouteNames(iface, i.routes) {
      var n :| 0 <= n < |RouteNames(iface, i.routes)| && RouteNames(iface, i.routes)[n] == s;
      k := RouteNo(n);
    } else {
      var n :| 0 <= n < |PeerNames(iface, i.peers)| && PeerNames(iface, i.peers)[n] == s;
      assert PeerKeys(i.peers)[n] in PeerKeys(i.peers);
      k := PeerNamed(PeerKeys(i.peers)[n]);
    }
  }

  lemma Sharing(a: string, k: Kind, b: string, l: Kind)
    requires SectionName(a, k) == SectionName(b, l)
    ensures ShareName(a, b)
  {
  }

  // Interfaces whose names do not collide share no section name, whatever they contain.
  lemma NamesDisjoint(a: string, ia: Interface, b: string, ib: Interface)
    requires a != b && !Collide(a, b)
    ensures SectionNames(a, ia) !! SectionNames(b, ib)
  {
    CollideIff(a, b);
    forall s | s in SectionNames(a, ia) ensures s !in SectionNames(b, ib) {
      var k := NamesHaveKinds(a, ia, s);
      if s in SectionNames(b, ib) {
        var l := NamesHaveKinds(b, ib, s);
        Sharing(a, k, b, l);
      }
    }
  }

  // ----- values -----

  function RouteFamily(net: Net, cidr: string): string {
    match net.parseCIDR(cidr)
    case Some(v4) => if v4 then "route" else "route6"
    case None => if ':' in cidr then "route6" else "route"
  }

  datatype Endpoint = Endpoint(host: string, port: Option<string>)

  function ParseEndpoint(net: Net, s: string): Endpoint {
    match net.splitHostPort(s)
    case Some((host, port)) => Endpoint(host, Some(port))
    case None =>
      if |s| >= 2 && s[0] == '[' && s[|s| - 1] == ']' then Endpoint(s[1..|s| - 1], None) else Endpoint(s, None)
  }

  function ItoaOpt(o: Option<int>): Option<string> { if o.Some? then Some(Itoa(o.value)) else None }

  function Fwmark(o: Option<int>): Option<string> {
    if o.None? then None
    else Some("0x" + if o.value < 0 then "-" + Hex(-o.value) else Hex(o.value))
  }

  function TableOf(t: Option<RoutingTable>, v6: bool): Option<string> {
    if t.None? then None else if v6 then t.value.ipv6 else t.value.ipv4
  }

  function ListItems(o: Option<seq<string>>): seq<string> { if o.Some? then o.value else [] }

  function Flag(b: bool): string { if b then "1" else "0" }

  function EndpointHost(net: Net, o: Option<string>): Option<string> {
    if o.None? then None else Some(ParseEndpoint(net, o.value).host)
  }

  function EndpointPort(net: Net, o: Option<string>): Option<string> {
    if o.None? then None else ParseEndpoint(net, o.value).port
  }

  // ----- writes -----

  function OptWrite(o: string, v: Option<string>): seq<Write> { if v.Some? then [SetTo(o, v.value)] else [] }

  function AppendWrites(o: string, xs: seq<string>): seq<Write> {
    seq(|xs|, k requires 0 <= k < |xs| => Append(o, xs[k]))
  }

  function CustomWrites(options: map<string, string>, keys: seq<string>): seq<Write>
    requires forall k :: k in keys ==> k in options
  {
    seq(|keys|, k requires 0 <= k < |keys| => SetTo(keys[k], options[keys[k]]))
  }

  function OptionWrites(options: Option<map<string, string>>): seq<Write> {
    if options.None? then [] else CustomWrites(options.value, Sorted(options.value.Keys))
  }

  function InterfaceWrites(i: Interface): seq<Write> {
    [SetTo("proto", "wireguard"), SetTo("private_key", i.privateKey)]
    + OptWrite("listen_port", ItoaOpt(i.listenPort))
    + AppendWrites("addresses", ListItems(i.addresses))
    + OptWrite("mtu", ItoaOpt(i.mtu))
    + OptWrite("fwmark", Fwmark(i.fwmark))
    + OptWrite("ip4table", TableOf(i.routingTable, false))
    + OptWrite("ip6table", TableOf(i.routingTable, true))
    + OptionWrites(i.options)
  }

  function RouteWrites(iface: string, r: Route): seq<Write> {
    [SetTo("interface", iface), SetTo("target", r.cidr)]
    + OptWrite("gateway", r.gateway)
    + OptWrite("metric", ItoaOpt(r.metric))
  }

  function PeerWrites(net: Net, peer: string, p: Peer, routeAllowedIPs: string): seq<Write> {
    [SetTo("description", peer), SetTo("public_key", p.publicKey)]
    + OptWrite("preshared_key", p.presharedKey)
    + AppendWrites("allowed_ips", ListItems(p.allowedIPs))
    + OptWrite("endpoint_host", EndpointHost(net, p.endpoint))
    + OptWrite("endpoint_port", EndpointPort(net, p.endpoint))
    + OptWrite("persistent_keepalive", ItoaOpt(p.persistentKeepalive))
    + [SetTo("route_allowed_ips", routeAllowedIPs)]
    + OptionWrites(p.options)
  }

  function RouteProgram(net: Net, iface: string, n: nat, r: Route): Program {
    Program(RouteSectionName(iface, n), RouteFamily(net, r.cidr), RouteWrites(iface, r))
  }

  function PeerProgram(net: Net, iface: string, peer: string, p: Peer, flag: string): Program {
    Program(PeerSectionName(iface, peer), "wireguard_" + iface, PeerWrites(net, peer, p, flag))
  }

  function RoutePrograms(net: Net, iface: string, routes: seq<Route>): (ps: seq<Program>)
    ensures |ps| == |routes|
    ensures forall n :: 0 <= n < |ps| ==> ps[n] == RouteProgram(net, iface, n, routes[n])
  {
    seq(|routes|, n requires 0 <= n < |routes| => RouteProgram(net, iface, n, routes[n]))
  }

  function PeerPrograms(net: Net, iface: string, peers: map<string, Peer>, keys: seq<string>,
                        flag: string): (ps: seq<Program>)
    requires forall k :: k in keys ==> k in peers
    ensures |ps| == |keys|
    ensures forall k :: 0 <= k < |ps| ==>
      keys[k] in peers && ps[k] == PeerProgram(net, iface, keys[k], peers[keys[k]], flag)
  {
    seq(|keys|, k requires 0 <= k < |keys| => PeerProgram(net, iface, keys[k], peers[keys[k]], flag))
  }

  function Routes(i: Interface): seq<Route> { if i.routes.Some? then i.routes.value else [] }

  function Peers(i: Interface): map<string, Peer> { if i.peers.Some? then i.peers.value else map[] }

  function InterfaceProgram(name: string, i: Interface): Program { Program(name, "interface", InterfaceWrites(i)) }

  // The sections of an interface, each with the writes that fill it, in batch order.
  function Programs(net: Net, name: string, i: Interface): seq<Program> {
    [InterfaceProgram(name, i)]
    + RoutePrograms(net, name, Routes(i))
    + PeerPrograms(net, name, Peers(i), Sorted(Peers(i).Keys), Flag(RouteAllowedIPsOrDefault(i)))
  }

  // The list options the batch appends to.
  function ListPaths(name: string, i: Interface): seq<Path> {
    [OptionPath(name, "addresses")] + PeerListPaths(name, Sorted(Peers(i).Keys))
  }

  function PeerListPaths(name: string, keys: seq<string>): seq<Path> {
    seq(|keys|, k requires 0 <= k < |keys| => OptionPath(PeerSectionName(name, keys[k]), "allowed_ips"))
  }

  // ----- the batch, built command by command -----

  lemma WriteCommandsConcat(section: string, a: seq<Write>, b: seq<Write>)
    ensures WriteCommands(section, a + b) == WriteCommands(section, a) + WriteCommands(section, b)
  {
  }

  lemma NextWrite(section: string, ws: seq<Write>, k: nat)
    requires k < |ws|
    ensures WriteCommands(section, ws[..k + 1]) == WriteCommands(section, ws[..k]) + [WriteCommand(section, ws[k])]
  {
  }

  method OptionCommands(section: string, options: Option<map<string, string>>) returns (b: seq<Command>)
    ensures b == WriteCommands(section, OptionWrites(options))
  {
    b := [];
    if options.None? {
      return;
    }
    var keys := SortedKeys(options.value.Keys);
    ghost var ws := OptionWrites(options);
    for k := 0 to |keys|
      invariant b == WriteCommands(section, ws[..k])
    {
      NextWrite(section, ws, k);
      b := b + [Set(section, keys[k], options.value[keys[k]])];
    }
    assert ws[..|ws|] == ws;
  }

  method OptCommand(section: string, option: string, v: Option<string>) returns (b: seq<Command>)
    ensures b == WriteCommands(section, OptWrite(option, v))
  {
    if v.Some? {
      b := [Set(section, option, v.value)];
    } else {
      b := [];
    }
  }

  method AddListCommands(section: string, option: string, xs: seq<string>) returns (b: seq<Command>)
    ensures b == WriteCommands(section, AppendWrites(option, xs))
  {
    b := [];
    ghost var ws := AppendWrites(option, xs);
    for k := 0 to |xs|
      invariant b == WriteCommands(section, ws[..k])
    {
      NextWrite(section, ws, k);
      b := b + [AddList(section, option, xs[k])];
    }
    assert ws[..|ws|] == ws;
  }

  method BuildRoute(net: Net, iface: string, n: nat, route: Route) returns (b: seq<Command>)
    ensures b == ProgramCommands(RouteProgram(net, iface, n, route))
  {
    var section := RouteSectionName(iface, n);
    ghost var ws := [SetTo("interface", iface), SetTo("target", route.cidr)];
    b := [Create(section, RouteFamily(net, route.cidr)), Set(section, "interface", iface),
          Set(section, "target", route.cidr)];
    var gateway := OptCommand(section, "gateway", route.gateway);
    WriteCommandsConcat(section, ws, OptWrite("gateway", route.gateway));
    ws := ws + OptWrite("gateway", route.gateway);
    var metric := OptCommand(section, "metric", ItoaOpt(route.metric));
    WriteCommandsConcat(section, ws, OptWrite("metric", ItoaOpt(route.metric)));
    b := b + gateway + metric;
  }

  method BuildPeer(net: Net, iface: string, peer: string, p: Peer, routeAllowedIPs: string) returns (b: seq<Command>)
    ensures b == ProgramCommands(PeerProgram(net, iface, peer, p, routeAllowedIPs))
  {
    var section := PeerSectionName(iface, peer);
    var piece: seq<Command>;
    ghost var ws := [SetTo("description", peer), SetTo("public_key", p.publicKey)];
    var w := [Set(section, "description", peer), Set(section, "public_key", p.publicKey)];
    assert w == WriteCommands(section, ws);

    piece := OptCommand(section, "preshared_key", p.presharedKey);
    w, ws := Extend(section, w, ws, piece, OptWrite("preshared_key", p.presharedKey));
    piece := AddListCommands(section, "allowed_ips", ListItems(p.allowedIPs));
    w, ws := Extend(section, w, ws, piece, AppendWrites("allowed_ips", ListItems(p.allowedIPs)));
    piece := OptCommand(section, "endpoint_host", EndpointHost(net, p.endpoint));
    w, ws := Extend(section, w, ws, piece, OptWrite("endpoint_host", EndpointHost(net, p.endpoint)));
    piece := OptCommand(section, "endpoint_port", EndpointPort(net, p.endpoint));
    w, ws := Extend(section, w, ws, piece, OptWrite("endpoint_port", EndpointPort(net, p.endpoint)));
    piece := OptCommand(section, "persistent_keepalive", ItoaOpt(p.persistentKeepalive));
    w, ws := Extend(section, w, ws, piece, OptWrite("persistent_keepalive", ItoaOpt(p.persistentKeepalive)));
    w, ws := Extend(section, w, ws, [Set(section, "route_allowed_ips", routeAllowedIPs)],
                    [SetTo("route_allowed_ips", routeAllowedIPs)]);
    piece := OptionCommands(section, p.options);
    w, ws := Extend(section, w, ws, piece, OptionWrites(p.options));
    b := [Create(section, "wireguard_" + iface)] + w;
  }

  // append, with the writes the commands stand for
  method Extend(section: string, b: seq<Command>, ghost ws: seq<Write>, piece: seq<Command>, ghost more: seq<Write>)
    returns (b': seq<Command>, ghost ws': seq<Write>)
    requires b == WriteCommands(section, ws) && piece == WriteCommands(section, more)
    ensures b' == b + piece && ws' == ws + more && b' == WriteCommands(section, ws')
  {
    WriteCommandsConcat(section, ws, more);
    b' := b + piece;
    ws' := ws + more;
  }

  method BuildInterfaceSection(name: string, i: Interface) returns (b: seq<Command>)
    ensures b == ProgramCommands(InterfaceProgram(name, i))
  {
    var piece: seq<Command>;
    ghost var ws := [SetTo("proto", "wireguard"), SetTo("private_key", i.privateKey)];
    var w := [Set(name, "proto", "wireguard"), Set(name, "private_key", i.privateKey)];
    assert w == WriteCommands(name, ws);

    piece := OptCommand(name, "listen_port", ItoaOpt(i.listenPort));
    w, ws := Extend(name, w, ws, piece, OptWrite("listen_port", ItoaOpt(i.listenPort)));
    piece := AddListCommands(name, "addresses", ListItems(i.addresses));
    w, ws := Extend(name, w, ws, piece, AppendWrites("addresses", ListItems(i.addresses)));
    piece := OptCommand(name, "mtu", ItoaOpt(i.mtu));
    w, ws := Extend(name, w, ws, piece, OptWrite("mtu", ItoaOpt(i.mtu)));
    piece := OptCommand(name, "fwmark", Fwmark(i.fwmark));
    w, ws := Extend(name, w, ws, piece, OptWrite("fwmark", Fwmark(i.fwmark)));
    piece := OptCommand(name, "ip4table", TableOf(i.routingTable, false));
    w, ws := Extend(name, w, ws, piece, OptWrite("ip4table", TableOf(i.routingTable, false)));
    piece := OptCommand(name, "ip6table", TableOf(i.routingTable, true));
    w, ws := Extend(name, w, ws, piece, OptWrite("ip6table", TableOf(i.routingTable, true)));
    piece := OptionCommands(name, i.options);
    w, ws := Extend(name, w, ws, piece, OptionWrites(i.options));
    b := [Create(name, "interface")] + w;
  }

  lemma NextProgram(ps: seq<Program>, k: nat)
    requires k < |ps|
    ensures Batch(ps[..k + 1]) == Batch(ps[..k]) + ProgramCommands(ps[k])
  {
    assert ps[..k + 1] == ps[..k] + [ps[k]];
    BatchConcat(ps[..k], [ps[k]]);
    assert Batch([ps[k]]) == ProgramCommands(ps[k]) + Batch([]);
  }

  method BuildRoutes(net: Net, name: string, routes: seq<Route>) returns (b: seq<Command>)
    ensures b == Batch(RoutePrograms(net, name, routes))
  {
    b := [];
    ghost var ps := RoutePrograms(net, name, routes);
    for n := 0 to |routes|
      invariant b == Batch(ps[..n])
    {
      var route := BuildRoute(net, name, n, routes[n]);
      NextProgram(ps, n);
      b := b + route;
    }
    assert ps[..|ps|] == ps;
  }

  method BuildPeers(net: Net, name: string, peers: map<string, Peer>, flag: string) returns (b: seq<Command>)
    ensures b == Batch(PeerPrograms(net, name, peers, Sorted(peers.Keys), flag))
  {
    b := [];
    var keys := SortedKeys(peers.Keys);
    ghost var ps := PeerPrograms(net, name, peers, keys, flag);
    for k := 0 to |keys|
      invariant b == Batch(ps[..k])
    {
      var peer := BuildPeer(net, name, keys[k], peers[keys[k]], flag);
      NextProgram(ps, k);
      b := b + peer;
    }
    assert ps[..|ps|] == ps;
  }

  method BuildInterface(net: Net, name: string, i: Interface) returns (b: seq<Command>)
    ensures b == Batch(Programs(net, name, i))
  {
    var section := BuildInterfaceSection(name, i);
    var routes := BuildRoutes(net, name, Routes(i));
    var flag := Flag(RouteAllowedIPsOrDefault(i));
    var peers := BuildPeers(net, name, Peers(i), flag);
    b := section + routes + peers;
    BatchOfThree(InterfaceProgram(name, i), RoutePrograms(net, name, Routes(i)),
                 PeerPrograms(net, name, Peers(i), Sorted(Peers(i).Keys), flag));
  }

  lemma BatchOfThree(p: Program, rs: seq<Program>, qs: seq<Program>)
    ensures Batch([p] + rs + qs) == ProgramCommands(p) + Batch(rs) + Batch(qs)
  {
    BatchConcat([p] + rs, qs);
    BatchConcat([p], rs);
    assert Batch([p]) == ProgramCommands(p) + Batch([]);
  }

  method PeerListOptions(name: string, keys: seq<string>) returns (paths: seq<Path>)
    ensures paths == PeerListPaths(name, keys)
  {
    paths := [];
    for k := 0 to |keys|
      invariant paths == PeerListPaths(name, keys)[..k]
    {
      paths := paths + [OptionPath(PeerSectionName(name, keys[k]), "allowed_ips")];
    }
  }

  method ListOptions(name: string, i: Interface) returns (paths: seq<Path>)
    ensures paths == ListPaths(name, i)
  {
    var keys := SortedKeys(Peers(i).Keys);
    var peers := PeerListOptions(name, keys);
    paths := [OptionPath(name, "addresses")] + peers;
  }

  method RouteSectionNames(name: string, routes: Option<seq<Route>>) returns (names: seq<string>)
    ensures names == RouteNames(name, routes)
  {
    names := [];
    if routes.Some? {
      for n := 0 to |routes.value|
        invariant names == RouteNames(name, routes)[..n]
      {
        names := names + [RouteSectionName(name, n)];
      }
    }
  }

  method NamePeers(name: string, keys: seq<string>) returns (names: seq<string>)
    ensures names == NamesOfPeers(name, keys)
  {
    names := [];
    for k := 0 to |keys|
      invariant names == NamesOfPeers(name, keys)[..k]
    {
      names := names + [PeerSectionName(name, keys[k])];
    }
  }

  method PeerSectionNames(name: string, peers: Option<map<string, Peer>>) returns (names: seq<string>)
    ensures names == PeerNames(name, peers)
  {
    var keys: seq<string> := [];
    if peers.Some? {
      keys := SortedKeys(peers.value.Keys);
    }
    names := NamePeers(name, keys);
  }

  // ----- what the batch makes -----

  function Kinds(routes: nat, keys: seq<string>): seq<Kind> {
    [Itself] + seq(routes, n requires 0 <= n < routes => RouteNo(n))
             + seq(|keys|, k requires 0 <= k < |keys| => PeerNamed(keys[k]))
  }

  // What each program of the batch is for.
  function ProgramKinds(i: Interface): seq<Kind> { Kinds(|Routes(i)|, Sorted(Peers(i).Keys)) }

  function ProgramFor(net: Net, name: string, i: Interface, k: Kind): (p: Program)
    requires HasKind(i, k)
    ensures p.section == SectionName(name, k)
  {
    match k
    case Itself => InterfaceProgram(name, i)
    case RouteNo(n) => RouteProgram(net, name, n, Routes(i)[n])
    case PeerNamed(p) => PeerProgram(net, name, p, Peers(i)[p], Flag(RouteAllowedIPsOrDefault(i)))
  }

  lemma ThreePartIndex<T>(a: seq<T>, b: seq<T>, c: seq<T>, n: nat)
    requires n < |a| + |b| + |c|
    ensures (a + b + c)[n] == if n < |a| then a[n] else if n < |a| + |b| then b[n - |a|] else c[n - |a| - |b|]
  {
  }

  lemma KindAt(routes: nat, keys: seq<string>, n: nat)
    requires n < 1 + routes + |keys|
    ensures |Kinds(routes, keys)| == 1 + routes + |keys|
    ensures Kinds(routes, keys)[n] ==
      if n == 0 then Itself else if n <= routes then RouteNo(n - 1) else PeerNamed(keys[n - 1 - routes])
  {
    ThreePartIndex([Itself], seq(routes, n requires 0 <= n < routes => RouteNo(n)),
                   seq(|keys|, k requires 0 <= k < |keys| => PeerNamed(keys[k])), n);
  }

  lemma KindFits(i: Interface, keys: seq<string>, n: nat)
    requires (forall k :: k in keys ==> k in Peers(i)) && n < 1 + |Routes(i)| + |keys|
    ensures |Kinds(|Routes(i)|, keys)| == 1 + |Routes(i)| + |keys|
    ensures HasKind(i, Kinds(|Routes(i)|, keys)[n])
  {
    KindAt(|Routes(i)|, keys, n);
    if n > |Routes(i)| { assert keys[n - 1 - |Routes(i)|] in keys; }
  }

  lemma RoutePiece(net: Net, name: string, i: Interface, a: Program, c: seq<Program>, n: nat)
    requires n < |Routes(i)|
    ensures ([a] + RoutePrograms(net, name, Routes(i)) + c)[1 + n] == ProgramFor(net, name, i, RouteNo(n))
  {
    ThreePartIndex([a], RoutePrograms(net, name, Routes(i)), c, 1 + n);
  }

  lemma PeerPiece(net: Net, name: string, i: Interface, keys: seq<string>, a: Program, b: seq<Program>, n: nat)
    requires (forall k :: k in keys ==> k in Peers(i)) && n < |keys| && keys[n] in Peers(i)
    ensures ([a] + b + PeerPrograms(net, name, Peers(i), keys, Flag(RouteAllowedIPsOrDefault(i))))[1 + |b| + n]
         == ProgramFor(net, name, i, PeerNamed(keys[n]))
  {
    ThreePartIndex([a], b, PeerPrograms(net, name, Peers(i), keys, Flag(RouteAllowedIPsOrDefault(i))), 1 + |b| + n);
  }

  lemma PieceAt(net: Net, name: string, i: Interface, keys: seq<string>, n: nat)
    requires forall k :: k in keys ==> k in Peers(i)
    requires n < 1 + |Routes(i)| + |keys|
    ensures |Kinds(|Routes(i)|, keys)| == 1 + |Routes(i)| + |keys|
    ensures HasKind(i, Kinds(|Routes(i)|, keys)[n])
    ensures ([InterfaceProgram(name, i)]
             + RoutePrograms(net, name, Routes(i))
             + PeerPrograms(net, name, Peers(i), keys, Flag(RouteAllowedIPsOrDefault(i))))[n]
         == ProgramFor(net, name, i, Kinds(|Routes(i)|, keys)[n])
  {
    KindAt(|Routes(i)|, keys, n);
    KindFits(i, keys, n);
    var a, b := InterfaceProgram(name, i), RoutePrograms(net, name, Routes(i));
    var c := PeerPrograms(net, name, Peers(i), keys, Flag(RouteAllowedIPsOrDefault(i)));
    if n == 0 {
      ThreePartIndex([a], b, c, 0);
    } else if n <= |Routes(i)| {
      RoutePiece(net, name, i, a, c, n - 1);
    } else {
      PeerPiece(net, name, i, keys, a, b, n - 1 - |Routes(i)|);
    }
  }

  lemma ProgramAt(net: Net, name: string, i: Interface, n: nat)
    requires n < |Programs(net, name, i)|
    ensures |ProgramKinds(i)| == |Programs(net, name, i)|
    ensures HasKind(i, ProgramKinds(i)[n]) && Programs(net, name, i)[n] == ProgramFor(net, name, i, ProgramKinds(i)[n])
  {
    PieceAt(net, name, i, Sorted(Peers(i).Keys), n);
  }

  lemma ProgramKindsDistinct(i: Interface, m: nat, n: nat)
    requires m < n < |ProgramKinds(i)|
    ensures ProgramKinds(i)[m] != ProgramKinds(i)[n]
  {
    var keys := Sorted(Peers(i).Keys);
    KindAt(|Routes(i)|, keys, m);
    KindAt(|Routes(i)|, keys, n);
    IncreasingDistinct(keys);
  }

  lemma ProgramsDistinct(net: Net, name: string, i: Interface)
    ensures Distinct(Programs(net, name, i))
  {
    var ps := Programs(net, name, i);
    forall m, n | 0 <= m < n < |ps| ensures ps[m].section != ps[n].section {
      ProgramAt(net, name, i, m);
      ProgramAt(net, name, i, n);
      ProgramKindsDistinct(i, m, n);
      if ps[m].section == ps[n].section { KindInjective(name, ProgramKinds(i)[m], ProgramKinds(i)[n]); }
    }
  }

  // The position of the program for k.
  lemma KindProgram(i: Interface, k: Kind) returns (n: nat)
    requires HasKind(i, k)
    ensures n < |ProgramKinds(i)| && ProgramKinds(i)[n] == k
  {
    var keys := Sorted(Peers(i).Keys);
    match k {
      case Itself => n := 0;
      case RouteNo(m) => n := m + 1;
      case PeerNamed(p) =>
        assert p in keys;
        var m :| 0 <= m < |keys| && keys[m] == p;
        n := 1 + |Routes(i)| + m;
    }
    KindAt(|Routes(i)|, keys, n);
  }
}
