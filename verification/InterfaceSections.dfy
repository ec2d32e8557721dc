/** What an interface looks like in UCI: a description of its sections, independent of the
    commands, and the proof that the batch makes exactly these sections.
  */
module InterfaceSections {
  import opened Text
  import opened Bundle
  import opened Uci
  import opened InterfaceBatch

  // ----- the description -----

  function OptValue(o: string, v: Option<string>): map<string, Value> {
    if v.Some? then map[o := Scalar(v.value)] else map[]
  }

  function ListValue(o: string, xs: seq<string>): map<string, Value> {
    if xs == [] then map[] else map[o := ListOf(xs)]
  }

  // Custom options win over everything before them.
  function CustomValues(options: Option<map<string, string>>): map<string, Value> {
    if options.None? then map[] else map k | k in options.value :: Scalar(options.value[k])
  }

  function InterfaceOptions(i: Interface): map<string, Value> {
    map["proto" := Scalar("wireguard"), "private_key" := Scalar(i.privateKey)]
    + OptValue("listen_port", ItoaOpt(i.listenPort))
    + ListValue("addresses", ListItems(i.addresses))
    + OptValue("mtu", ItoaOpt(i.mtu))
    + OptValue("fwmark", Fwmark(i.fwmark))
    + OptValue("ip4table", TableOf(i.routingTable, false))
    + OptValue("ip6table", TableOf(i.routingTable, true))
    + CustomValues(i.options)
  }

  function RouteOptions(iface: string, r: Route): map<string, Value> {
    map["interface" := Scalar(iface), "target" := Scalar(r.cidr)]
    + OptValue("gateway", r.gateway)
    + OptValue("metric", ItoaOpt(r.metric))
  }

  function PeerOptions(net: Net, peer: string, p: Peer, flag: string): map<string, Value> {
    map["description" := Scalar(peer), "public_key" := Scalar(p.publicKey)]
    + OptValue("preshared_key", p.presharedKey)
    + ListValue("allowed_ips", ListItems(p.allowedIPs))
    + OptValue("endpoint_host", EndpointHost(net, p.endpoint))
    + OptValue("endpoint_port", EndpointPort(net, p.endpoint))
    + OptValue("persistent_keepalive", ItoaOpt(p.persistentKeepalive))
    + map["route_allowed_ips" := Scalar(flag)]
    + CustomValues(p.options)
  }

  // The section an interface should have for one of its purposes, if it should have it.
  function SectionWanted(net: Net, name: string, i: Interface, k: Kind): Option<Section> {
    match k
    case Itself => Some(Section("interface", InterfaceOptions(i)))
    case RouteNo(n) =>
      if n < |Routes(i)|
      then Some(Section(RouteFamily(net, Routes(i)[n].cidr), RouteOptions(name, Routes(i)[n]))) else None
    case PeerNamed(p) =>
      if p in Peers(i) then
        Some(Section("wireguard_" + name, PeerOptions(net, p, Peers(i)[p], Flag(RouteAllowedIPsOrDefault(i)))))
      else None
  }

  // ----- each program makes the described section -----

  lemma FoldOpt(a: seq<Write>, o: string, v: Option<string>, m: map<string, Value>, d: map<string, Value>)
    requires Fold(a, m) == d
    ensures Fold(a + OptWrite(o, v), m) == d + OptValue(o, v)
  {
    FoldConcat(a, OptWrite(o, v), m);
    assert v.Some? ==> OptWrite(o, v)[1..] == [];
  }

  lemma {:induction false} FoldList(o: string, xs: seq<string>, m: map<string, Value>, done: seq<string>)
    requires if done == [] then o !in m else o in m && m[o] == ListOf(done)
    ensures Fold(AppendWrites(o, xs), m) == if xs == [] then m else m[o := ListOf(done + xs)]
  {
    var ws := AppendWrites(o, xs);
    if xs != [] {
      assert ws[1..] == AppendWrites(o, xs[1..]);
      assert done == [] ==> done + [xs[0]] == [xs[0]];
      var m' := m[o := ListOf(done + [xs[0]])];
      assert Written(ws[0], m) == m';
      FoldList(o, xs[1..], m', done + [xs[0]]);
      assert done + [xs[0]] + xs[1..] == done + xs;
      assert m'[o := ListOf(done + xs)] == m[o := ListOf(done + xs)];
      assert xs[1..] == [] ==> done + [xs[0]] == done + xs;
    }
  }

  lemma FoldAppends(a: seq<Write>, o: string, xs: seq<string>, m: map<string, Value>, d: map<string, Value>)
    requires Fold(a, m) == d && o !in d
    ensures Fold(a + AppendWrites(o, xs), m) == d + ListValue(o, xs)
  {
    FoldConcat(a, AppendWrites(o, xs), m);
    FoldList(o, xs, d, []);
    assert [] + xs == xs;
  }

  lemma {:induction false} FoldCustom(options: map<string, string>, keys: seq<string>, m: map<string, Value>)
    requires forall k :: k in keys ==> k in options
    ensures Fold(CustomWrites(options, keys), m) == m + map k | k in keys :: Scalar(options[k])
  {
    if keys != [] {
      var ws := CustomWrites(options, keys);
      assert ws[1..] == CustomWrites(options, keys[1..]);
      FoldCustom(options, keys[1..], m[keys[0] := Scalar(options[keys[0]])]);
      CustomCons(options, keys, m);
    }
  }

  lemma CustomCons(options: map<string, string>, keys: seq<string>, m: map<string, Value>)
    requires keys != [] && forall k :: k in keys ==> k in options
    ensures m[keys[0] := Scalar(options[keys[0]])] + (map k | k in keys[1..] :: Scalar(options[k]))
         == m + map k | k in keys :: Scalar(options[k])
  {
    assert keys == [keys[0]] + keys[1..];
  }

  lemma FoldOptions(a: seq<Write>, options: Option<map<string, string>>, m: map<string, Value>, d: map<string, Value>)
    requires Fold(a, m) == d
    ensures Fold(a + OptionWrites(options), m) == d + CustomValues(options)
  {
    FoldConcat(a, OptionWrites(options), m);
    if options.Some? {
      FoldCustom(options.value, Sorted(options.value.Keys), d);
      assert (map k | k in Sorted(options.value.Keys) :: Scalar(options.value[k])) == CustomValues(options);
    }
  }

  lemma FoldTwo(o1: string, v1: string, o2: string, v2: string)
    ensures Fold([SetTo(o1, v1), SetTo(o2, v2)], map[]) == map[o1 := Scalar(v1), o2 := Scalar(v2)]
  {
    var ws := [SetTo(o1, v1), SetTo(o2, v2)];
    assert ws[1..] == [SetTo(o2, v2)] && ws[1..][1..] == [];
    var m: map<string, Value> := map[][o1 := Scalar(v1)];
    assert Fold(ws, map[]) == Fold(ws[1..], m) == Fold([], m[o2 := Scalar(v2)]);
  }

  lemma InterfaceFold(i: Interface)
    ensures Fold(InterfaceWrites(i), map[]) == InterfaceOptions(i)
  {
    var ws := [SetTo("proto", "wireguard"), SetTo("private_key", i.privateKey)];
    var d: map<string, Value> := map["proto" := Scalar("wireguard"), "private_key" := Scalar(i.privateKey)];
    FoldTwo("proto", "wireguard", "private_key", i.privateKey);
    FoldOpt(ws, "listen_port", ItoaOpt(i.listenPort), map[], d);
    ws, d := ws + OptWrite("listen_port", ItoaOpt(i.listenPort)), d + OptValue("listen_port", ItoaOpt(i.listenPort));
    FoldAppends(ws, "addresses", ListItems(i.addresses), map[], d);
    ws, d := ws + AppendWrites("addresses", ListItems(i.addresses)), d + ListValue("addresses", ListItems(i.addresses));
    FoldOpt(ws, "mtu", ItoaOpt(i.mtu), map[], d);
    ws, d := ws + OptWrite("mtu", ItoaOpt(i.mtu)), d + OptValue("mtu", ItoaOpt(i.mtu));
    FoldOpt(ws, "fwmark", Fwmark(i.fwmark), map[], d);
    ws, d := ws + OptWrite("fwmark", Fwmark(i.fwmark)), d + OptValue("fwmark", Fwmark(i.fwmark));
    FoldOpt(ws, "ip4table", TableOf(i.routingTable, false), map[], d);
    var v4 := TableOf(i.routingTable, false);
    ws, d := ws + OptWrite("ip4table", v4), d + OptValue("ip4table", v4);
    FoldOpt(ws, "ip6table", TableOf(i.routingTable, true), map[], d);
    var v6 := TableOf(i.routingTable, true);
    ws, d := ws + OptWrite("ip6table", v6), d + OptValue("ip6table", v6);
    FoldOptions(ws, i.options, map[], d);
  }

  lemma RouteFold(iface: string, r: Route)
    ensures Fold(RouteWrites(iface, r), map[]) == RouteOptions(iface, r)
  {
    var ws := [SetTo("interface", iface), SetTo("target", r.cidr)];
    var d: map<string, Value> := map["interface" := Scalar(iface), "target" := Scalar(r.cidr)];
    FoldTwo("interface", iface, "target", r.cidr);
    FoldOpt(ws, "gateway", r.gateway, map[], d);
    ws, d := ws + OptWrite("gateway", r.gateway), d + OptValue("gateway", r.gateway);
    FoldOpt(ws, "metric", ItoaOpt(r.metric), map[], d);
  }

  lemma PeerFold(net: Net, peer: string, p: Peer, flag: string)
    ensures Fold(PeerWrites(net, peer, p, flag), map[]) == PeerOptions(net, peer, p, flag)
  {
    var host, port := EndpointHost(net, p.endpoint), EndpointPort(net, p.endpoint);
    var alive := ItoaOpt(p.persistentKeepalive);
    var ws := [SetTo("description", peer), SetTo("public_key", p.publicKey)];
    var d: map<string, Value> := map["description" := Scalar(peer), "public_key" := Scalar(p.publicKey)];
    FoldTwo("description", peer, "public_key", p.publicKey);
    FoldOpt(ws, "preshared_key", p.presharedKey, map[], d);
    ws, d := ws + OptWrite("preshared_key", p.presharedKey), d + OptValue("preshared_key", p.presharedKey);
    FoldAppends(ws, "allowed_ips", ListItems(p.allowedIPs), map[], d);
    var allowed := ListItems(p.allowedIPs);
    ws, d := ws + AppendWrites("allowed_ips", allowed), d + ListValue("allowed_ips", allowed);
    FoldOpt(ws, "endpoint_host", host, map[], d);
    ws, d := ws + OptWrite("endpoint_host", host), d + OptValue("endpoint_host", host);
    FoldOpt(ws, "endpoint_port", port, map[], d);
    ws, d := ws + OptWrite("endpoint_port", port), d + OptValue("endpoint_port", port);
    FoldOpt(ws, "persistent_keepalive", alive, map[], d);
    ws, d := ws + OptWrite("persistent_keepalive", alive), d + OptValue("persistent_keepalive", alive);
    FoldOpt(ws, "route_allowed_ips", Some(flag), map[], d);
    ws, d := ws + [SetTo("route_allowed_ips", flag)], d + map["route_allowed_ips" := Scalar(flag)];
    FoldOptions(ws, p.options, map[], d);
  }

  // ----- the sections of an interface -----

  // The sections of the interface, built from nothing.
  function Built(net: Net, name: string, i: Interface): Config { MadeAll(Programs(net, name, i)) }

  lemma ProgramCount(net: Net, name: string, i: Interface)
    ensures |Programs(net, name, i)| == |ProgramKinds(i)|
  {
    KindAt(|Routes(i)|, Sorted(Peers(i).Keys), 0);
  }

  // The programs make exactly the wanted sections.
  lemma BuiltIsWanted(net: Net, name: string, i: Interface, k: Kind)
    ensures var s := SectionName(name, k);
      (s in Built(net, name, i) <==> SectionWanted(net, name, i, k).Some?) &&
      (s in Built(net, name, i) ==> Built(net, name, i)[s] == SectionWanted(net, name, i, k).value)
  {
    if SectionWanted(net, name, i, k).Some? { WantedIsBuilt(net, name, i, k); }
    if SectionName(name, k) in Built(net, name, i) { BuiltHasProgram(net, name, i, k); }
  }

  lemma WantedIsBuilt(net: Net, name: string, i: Interface, k: Kind)
    requires SectionWanted(net, name, i, k).Some?
    ensures SectionName(name, k) in Built(net, name, i)
  {
    var n := KindProgram(i, k);
    ProgramCount(net, name, i);
    ProgramAt(net, name, i, n);
    MadeAllKeys(Programs(net, name, i));
  }

  lemma BuiltHasProgram(net: Net, name: string, i: Interface, k: Kind)
    requires SectionName(name, k) in Built(net, name, i)
    ensures SectionWanted(net, name, i, k) == Some(Built(net, name, i)[SectionName(name, k)])
  {
    var s := SectionName(name, k);
    var ps := Programs(net, name, i);
    MadeAllKeys(ps);
    var n :| 0 <= n < |ps| && ps[n].section == s;
    ProgramAt(net, name, i, n);
    KindInjective(name, k, ProgramKinds(i)[n]);
    ProgramsDistinct(net, name, i);
    MadeAllAt(ps, n);
    ProgramMakes(net, name, i, k);
  }

  lemma ProgramMakes(net: Net, name: string, i: Interface, k: Kind)
    requires HasKind(i, k)
    ensures SectionWanted(net, name, i, k) == Some(Made(ProgramFor(net, name, i, k)))
  {
    match k {
      case Itself => InterfaceFold(i);
      case RouteNo(n) => RouteFold(name, Routes(i)[n]);
      case PeerNamed(p) => PeerFold(net, p, Peers(i)[p], Flag(RouteAllowedIPsOrDefault(i)));
    }
  }

  // ----- names and list options -----

  lemma KindHasName(name: string, i: Interface, k: Kind)
    requires HasKind(i, k)
    ensures SectionName(name, k) in SectionNames(name, i)
  {
    match k {
      case Itself =>
      case RouteNo(n) => assert RouteNames(name, i.routes)[n] == SectionName(name, k);
      case PeerNamed(p) =>
        var keys := PeerKeys(i.peers);
        assert p in keys;
        var m :| 0 <= m < |keys| && keys[m] == p;
        assert PeerNames(name, i.peers)[m] == SectionName(name, k);
    }
  }

  // Recording and building use the same names.
  lemma BuiltNames(net: Net, name: string, i: Interface)
    ensures Built(net, name, i).Keys == SectionNames(name, i)
  {
    var ps := Programs(net, name, i);
    MadeAllKeys(ps);
    forall s | s in Built(net, name, i) ensures s in SectionNames(name, i) {
      var n :| 0 <= n < |ps| && ps[n].section == s;
      ProgramAt(net, name, i, n);
      KindHasName(name, i, ProgramKinds(i)[n]);
    }
    forall s | s in SectionNames(name, i) ensures s in Built(net, name, i) {
      var k := NamesHaveKinds(name, i, s);
      WantedIsBuilt(net, name, i, k);
    }
  }

  predicate OnlyAppends(ws: seq<Write>, list: string) {
    forall n :: 0 <= n < |ws| && ws[n].Append? ==> ws[n].option == list
  }

  lemma OnlyConcat(a: seq<Write>, b: seq<Write>, list: string)
    requires OnlyAppends(a, list) && OnlyAppends(b, list)
    ensures OnlyAppends(a + b, list)
  {
  }

  lemma InterfaceAppends(i: Interface, o: string)
    requires Appends(InterfaceWrites(i), o)
    ensures o == "addresses"
  {
    var ws := [SetTo("proto", "wireguard"), SetTo("private_key", i.privateKey)];
    OnlyConcat(ws, OptWrite("listen_port", ItoaOpt(i.listenPort)), "addresses");
    ws := ws + OptWrite("listen_port", ItoaOpt(i.listenPort));
    OnlyConcat(ws, AppendWrites("addresses", ListItems(i.addresses)), "addresses");
    ws := ws + AppendWrites("addresses", ListItems(i.addresses));
    OnlyConcat(ws, OptWrite("mtu", ItoaOpt(i.mtu)), "addresses");
    ws := ws + OptWrite("mtu", ItoaOpt(i.mtu));
    OnlyConcat(ws, OptWrite("fwmark", Fwmark(i.fwmark)), "addresses");
    ws := ws + OptWrite("fwmark", Fwmark(i.fwmark));
    OnlyConcat(ws, OptWrite("ip4table", TableOf(i.routingTable, false)), "addresses");
    ws := ws + OptWrite("ip4table", TableOf(i.routingTable, false));
    OnlyConcat(ws, OptWrite("ip6table", TableOf(i.routingTable, true)), "addresses");
    ws := ws + OptWrite("ip6table", TableOf(i.routingTable, true));
    OnlyConcat(ws, OptionWrites(i.options), "addresses");
  }

  lemma PeerAppends(net: Net, peer: string, p: Peer, flag: string, o: string)
    requires Appends(PeerWrites(net, peer, p, flag), o)
    ensures o == "allowed_ips"
  {
    var host, port := EndpointHost(net, p.endpoint), EndpointPort(net, p.endpoint);
    var alive := ItoaOpt(p.persistentKeepalive);
    var ws := [SetTo("description", peer), SetTo("public_key", p.publicKey)];
    OnlyConcat(ws, OptWrite("preshared_key", p.presharedKey), "allowed_ips");
    ws := ws + OptWrite("preshared_key", p.presharedKey);
    OnlyConcat(ws, AppendWrites("allowed_ips", ListItems(p.allowedIPs)), "allowed_ips");
    ws := ws + AppendWrites("allowed_ips", ListItems(p.allowedIPs));
    OnlyConcat(ws, OptWrite("endpoint_host", host), "allowed_ips");
    ws := ws + OptWrite("endpoint_host", host);
    OnlyConcat(ws, OptWrite("endpoint_port", port), "allowed_ips");
    ws := ws + OptWrite("endpoint_port", port);
    OnlyConcat(ws, OptWrite("persistent_keepalive", alive), "allowed_ips");
    ws := ws + OptWrite("persistent_keepalive", alive);
    OnlyConcat(ws, [SetTo("route_allowed_ips", flag)], "allowed_ips");
    ws := ws + [SetTo("route_allowed_ips", flag)];
    OnlyConcat(ws, OptionWrites(p.options), "allowed_ips");
  }

  lemma RouteAppendsNothing(iface: string, r: Route, o: string)
    ensures !Appends(RouteWrites(iface, r), o)
  {
  }

  // Every list option a program appends to is one that ListOptions names.
  lemma AppendsListed(net: Net, name: string, i: Interface, k: Kind, o: string)
    requires HasKind(i, k) && Appends(ProgramFor(net, name, i, k).writes, o)
    ensures OptionPath(SectionName(name, k), o) in ListPaths(name, i)
  {
    match k {
      case Itself => InterfaceAppends(i, o);
      case RouteNo(n) => RouteAppendsNothing(name, Routes(i)[n], o);
      case PeerNamed(p) =>
        PeerAppends(net, p, Peers(i)[p], Flag(RouteAllowedIPsOrDefault(i)), o);
        PeerListed(name, i, p);
    }
  }

  lemma PeerListed(name: string, i: Interface, p: string)
    requires p in Peers(i)
    ensures OptionPath(PeerSectionName(name, p), "allowed_ips") in ListPaths(name, i)
  {
    var keys := Sorted(Peers(i).Keys);
    assert p in keys;
    var m :| 0 <= m < |keys| && keys[m] == p;
    assert ListPaths(name, i)[1 + m] == OptionPath(PeerSectionName(name, p), "allowed_ips");
  }

  // And it names no other path than the interface's addresses and each peer's allowed_ips.
  lemma ListedIff(name: string, i: Interface, path: Path)
    ensures path in ListPaths(name, i) <==>
      || path == OptionPath(name, "addresses")
      || (i.peers.Some? && exists p :: p in i.peers.value && path == OptionPath(name + "_p_" + p, "allowed_ips"))
  {
    var keys := Sorted(Peers(i).Keys);
    var paths := PeerListPaths(name, keys);
    if path in paths {
      var n :| 0 <= n < |paths| && paths[n] == path;
      assert keys[n] in keys;
    }
    if i.peers.Some? && exists p :: p in i.peers.value && path == OptionPath(name + "_p_" + p, "allowed_ips") {
      var p :| p in i.peers.value && path == OptionPath(name + "_p_" + p, "allowed_ips");
      assert p in keys;
      var n :| 0 <= n < |keys| && keys[n] == p;
      assert paths[n] == path;
    }
  }

  lemma ListedPathsOwned(name: string, i: Interface, n: nat)
    requires n < |ListPaths(name, i)|
    ensures ListPaths(name, i)[n].OptionPath? && ListPaths(name, i)[n].section in SectionNames(name, i)
  {
    var path := ListPaths(name, i)[n];
    assert path in ListPaths(name, i);
    ListedIff(name, i, path);
    if path == OptionPath(name, "addresses") {
      KindHasName(name, i, Itself);
    } else {
      var p :| p in i.peers.value && path == OptionPath(name + "_p_" + p, "allowed_ips");
      KindHasName(name, i, PeerNamed(p));
    }
  }
}
