/** What strict decoding accepts: checkRaw and checkNumber, and the converse of the encoding.

    Main result: the only JSON value that decodes to a valid bundle is the bundle's own encoding --
    no unknown key at any level, no null, no other spelling of a number.
  */
module Strict {
  import opened Text
  import opened Json
  import opened JsonRoundTrip
  import opened Bundle
  import opened Marshal

  // checkNumber
  predicate PlainInteger(literal: string) {
    && (forall c :: c in literal ==> c != '.' && c != 'e' && c != 'E')
    && !(|literal| >= 2 && literal[0] == '-' && literal[1] == '0')
    && ParseInt(literal).Some? && InInt64(ParseInt(literal).value)
  }

  // checkRaw: no null and no number but plain integers, at any depth.
  predicate RawOk(j: Json)
    decreases j
  {
    match j
    case Null => false
    case Number(literal) => PlainInteger(literal)
    case Array(items) => forall i :: 0 <= i < |items| ==> RawOk(items[i])
    case Object(members) => forall k :: k in members ==> RawOk(members[k])
    case _ => true
  }

  // Passes the raw check and is proper JSON.
  ghost predicate Plain(j: Json) { RawOk(j) && WellFormed(j) }

  // ----- numbers -----

  // The digits of a number without leading zeros are its decimal spelling.
  lemma {:induction false} DigitsBack(s: string)
    requires AllDigits(s) && (s[0] != '0' || |s| == 1)
    ensures Digits(DigitsValue(s)) == s
    decreases |s|
  {
    var front, last := s[..|s| - 1], s[|s| - 1];
    assert s == front + [last];
    assert last in s;
    if |s| == 1 {
      OneDigit(last);
    } else {
      assert forall c :: c in front ==> c in s;
      assert front[0] == s[0];
      DigitsBack(front);
      PositiveValue(front);
      OneMoreDigit(front, last);
    }
  }

  lemma OneDigit(c: char)
    requires IsDigit(c)
    ensures Digits(DigitsValue([c])) == [c]
  {
    assert [c][..0] == [];
    assert DigitsValue([]) == 0;
  }

  lemma OneMoreDigit(front: string, last: char)
    requires AllDigits(front) && Digits(DigitsValue(front)) == front && DigitsValue(front) > 0 && IsDigit(last)
    ensures AllDigits(front + [last]) && Digits(DigitsValue(front + [last])) == front + [last]
  {
    assert (front + [last])[..|front|] == front;
    LastDigit(DigitsValue(front), last as int - '0' as int);
  }

  lemma PositiveValue(s: string)
    requires AllDigits(s) && s[0] != '0' && Digits(DigitsValue(s)) == s
    ensures DigitsValue(s) > 0
  {
  }

  lemma LastDigit(v: nat, d: nat)
    requires v > 0 && d < 10
    ensures Digits(10 * v + d) == Digits(v) + [Digit(d)]
  {
    assert (10 * v + d) / 10 == v && (10 * v + d) % 10 == d;
  }

  // A number of JSON without fraction and exponent has no leading zeros.
  lemma NoLeadingZero(literal: string)
    requires IsNumber(literal) && forall c :: c in literal ==> c != '.' && c != 'e' && c != 'E'
    ensures var sign := if literal != "" && literal[0] == '-' then 1 else 0;
      |literal| > sign && (literal[sign] == '0' ==> |literal| == sign + 1)
  {
    var i := Integer(literal, |literal|);
    var tail := literal[i..];
    assert forall c :: c in tail ==> c in literal;
    NoTail(tail);
  }

  lemma NoTail(tail: string)
    requires forall c :: c in tail ==> c != '.' && c != 'e' && c != 'E'
    ensures TailLength(tail) == Some(0)
  {
    assert tail[0..] == tail;
    if tail != [] { assert tail[0] in tail; }
  }

  lemma NegativeBack(digits: string)
    requires AllDigits(digits) && digits[0] != '0'
    ensures "-" + digits == Itoa(0 - DigitsValue(digits))
  {
    DigitsBack(digits);
    assert DigitsValue(digits) != 0 by { assert Digits(DigitsValue(digits))[0] != '0'; }
  }

  lemma NumberBack(literal: string)
    requires IsNumber(literal) && PlainInteger(literal)
    ensures literal == Itoa(ParseInt(literal).value)
  {
    NoLeadingZero(literal);
    if AllDigits(literal) {
      DigitsBack(literal);
    } else {
      NegativeBack(literal[1..]);
      assert literal == "-" + literal[1..];
    }
  }

  // ----- one field -----

  ghost predicate AllPlain(m: map<string, Json>) { forall k :: k in m ==> Plain(m[k]) }

  lemma TextBack(m: map<string, Json>, key: string)
    requires AllPlain(m) && !TextField(m, key).Bad?
    ensures Lookup(m, key) == OptText(TextField(m, key).ToOption())
  {
    if key in m { assert Plain(m[key]); }
  }

  lemma BoolBack(m: map<string, Json>, key: string)
    requires AllPlain(m) && !BoolField(m, key).Bad?
    ensures Lookup(m, key) == OptBool(BoolField(m, key).ToOption())
  {
    if key in m { assert Plain(m[key]); }
  }

  lemma Int64Back(m: map<string, Json>, key: string)
    requires AllPlain(m) && !Int64Field(m, key).Bad?
    ensures Lookup(m, key) == OptInt(Int64Field(m, key).ToOption())
  {
    if key in m {
      assert Plain(m[key]);
      if m[key].Number? { NumberBack(m[key].literal); }
    }
  }

  lemma IntBack(m: map<string, Json>, key: string, w: Word)
    requires AllPlain(m) && !IntField(m, key, w).Bad?
    ensures Lookup(m, key) == OptInt(IntField(m, key, w).ToOption())
  {
    Int64Back(m, key);
  }

  lemma StringsBack(m: map<string, Json>, key: string)
    requires AllPlain(m) && StringsField(m, key).Present?
    ensures Lookup(m, key) == SliceJson(StringsField(m, key).ToOption())
  {
    assert StringsJson(StringsField(m, key).value).items == m[key].items;
  }

  lemma TextMapBack(m: map<string, Json>, key: string)
    requires AllPlain(m) && !TextMapField(m, key).Bad?
    ensures Lookup(m, key) == OptTextMap(TextMapField(m, key).ToOption())
  {
    if key in m {
      assert Plain(m[key]);
      assert TextMapJson(TextMapField(m, key).value).members == m[key].members;
    }
  }

  // ----- routes and tables -----

  lemma RouteBack(j: Json, r: Route)
    requires Plain(j) && DecodeRoute(j) == Some(r) && r.cidr != ""
    ensures RouteJson(r) == j
  {
    RouteMembersBack(j.members, r);
    RouteSame(j.members, r);
  }

  lemma RouteSame(m: map<string, Json>, r: Route)
    requires m.Keys <= ROUTE_KEYS
    requires Lookup(m, "cidr") == Some(String(r.cidr)) && Lookup(m, "gateway") == OptText(r.gateway)
    requires Lookup(m, "metric") == OptInt(r.metric)
    ensures RouteJson(r).members == m
  {
    forall k | k in ROUTE_KEYS ensures Lookup(m, k) == RouteMember(r, k) {}
  }

  lemma RouteMembersBack(m: map<string, Json>, r: Route)
    requires AllPlain(m) && DecodeRoute(Object(m)) == Some(r) && r.cidr != ""
    ensures Lookup(m, "cidr") == Some(String(r.cidr)) && Lookup(m, "gateway") == OptText(r.gateway)
    ensures Lookup(m, "metric") == OptInt(r.metric)
  {
    TextBack(m, "cidr");
    TextBack(m, "gateway");
    Int64Back(m, "metric");
  }

  lemma RoutesBack(m: map<string, Json>, key: string)
    requires AllPlain(m) && !RoutesField(m, key).Bad?
    requires var o := RoutesField(m, key).ToOption();
      o.Some? ==> forall n :: 0 <= n < |o.value| ==> ValidRoute(o.value[n])
    ensures Lookup(m, key) == OptRoutes(RoutesField(m, key).ToOption())
  {
    if key in m {
      assert Plain(m[key]);
      var items, rs := m[key].items, RoutesField(m, key).value;
      forall n | 0 <= n < |items| ensures RouteJson(rs[n]) == items[n] {
        assert Plain(items[n]) && ValidRoute(rs[n]);
        RouteBack(items[n], rs[n]);
      }
      assert OptRoutes(Some(rs)).value.items == items;
    }
  }

  lemma TableBack(m: map<string, Json>, key: string)
    requires AllPlain(m) && !TableField(m, key).Bad?
    ensures Lookup(m, key) == OptTable(TableField(m, key).ToOption())
  {
    if key in m {
      assert Plain(m[key]);
      var t, inner := TableField(m, key).value, m[key].members;
      assert AllPlain(inner);
      TextBack(inner, "ipv4");
      TextBack(inner, "ipv6");
      forall k | k in TABLE_KEYS ensures Lookup(inner, k) == TableMember(t, k) {}
      assert OptTable(Some(t)).value.members == inner;
    }
  }

  // ----- peers and interfaces -----

  lemma PeerMembersBack(m: map<string, Json>, p: Peer, w: Word, key: string)
    requires AllPlain(m) && DecodePeer(Object(m), w) == Some(p) && ValidPeer(p) && key in PEER_KEYS
    ensures Lookup(m, key) == PeerMember(p, key)
  {
    if key == "public_key" || key == "preshared_key" || key == "endpoint" {
      TextBack(m, key);
    } else if key == "allowed_ips" {
      StringsBack(m, key);
    } else if key == "persistent_keepalive" {
      IntBack(m, key, w);
    } else {
      TextMapBack(m, key);
    }
  }

  lemma PeerBack(j: Json, p: Peer, w: Word)
    requires Plain(j) && DecodePeer(j, w) == Some(p) && ValidPeer(p)
    ensures PeerJson(p) == j
  {
    forall k | k in PEER_KEYS ensures Lookup(j.members, k) == PeerMember(p, k) { PeerMembersBack(j.members, p, w, k); }
    assert PeerJson(p).members == j.members;
  }

  lemma PeerAtBack(m: map<string, Json>, key: string, w: Word, p: string)
    requires PeersField(m, key, w).Present? && Plain(m[key]) && p in m[key].members
    requires ValidPeer(PeersField(m, key, w).value[p])
    ensures PeerJson(PeersField(m, key, w).value[p]) == m[key].members[p]
  {
    assert Plain(m[key].members[p]);
    PeerBack(m[key].members[p], PeersField(m, key, w).value[p], w);
  }

  lemma PeersBack(m: map<string, Json>, key: string, w: Word)
    requires AllPlain(m) && PeersField(m, key, w).Present?
    requires var ps := PeersField(m, key, w).value; forall p :: p in ps ==> ValidPeer(ps[p])
    ensures Lookup(m, key) == OptPeers(PeersField(m, key, w).ToOption())
  {
    assert Plain(m[key]);
    var inner, ps := m[key].members, PeersField(m, key, w).value;
    forall p | p in inner ensures PeerJson(ps[p]) == inner[p] { PeerAtBack(m, key, w, p); }
    assert OptPeers(Some(ps)).value.members == inner;
  }

  lemma ContainersBack(m: map<string, Json>, i: Interface, w: Word)
    requires AllPlain(m) && DecodeInterface(Object(m), w) == Some(i) && ValidInterface(i)
    ensures Lookup(m, "addresses") == SliceJson(i.addresses)
    ensures Lookup(m, "routing_table") == OptTable(i.routingTable) && Lookup(m, "routes") == OptRoutes(i.routes)
    ensures Lookup(m, "options") == OptTextMap(i.options) && Lookup(m, "peers") == OptPeers(i.peers)
  {
    StringsBack(m, "addresses");
    TableBack(m, "routing_table");
    RoutesBack(m, "routes");
    TextMapBack(m, "options");
    PeersBack(m, "peers", w);
  }

  lemma ScalarsBack(m: map<string, Json>, i: Interface, w: Word)
    requires AllPlain(m) && DecodeInterface(Object(m), w) == Some(i) && ValidInterface(i)
    ensures Lookup(m, "private_key") == Some(String(i.privateKey))
    ensures Lookup(m, "listen_port") == OptInt(i.listenPort) && Lookup(m, "mtu") == OptInt(i.mtu)
    ensures Lookup(m, "route_allowed_ips") == OptBool(i.routeAllowedIPs) && Lookup(m, "fwmark") == OptInt(i.fwmark)
  {
    TextBack(m, "private_key");
    IntBack(m, "listen_port", w);
    IntBack(m, "mtu", w);
    BoolBack(m, "route_allowed_ips");
    Int64Back(m, "fwmark");
  }

  lemma SameMembers(m: map<string, Json>, i: Interface)
    requires m.Keys <= INTERFACE_KEYS && forall k :: k in INTERFACE_KEYS ==> Lookup(m, k) == InterfaceMember(i, k)
    ensures InterfaceJson(i) == Object(m)
  {
    assert InterfaceJson(i).members == m;
  }

  lemma TenMembers(m: map<string, Json>, i: Interface)
    requires Lookup(m, "addresses") == SliceJson(i.addresses)
    requires Lookup(m, "routing_table") == OptTable(i.routingTable) && Lookup(m, "routes") == OptRoutes(i.routes)
    requires Lookup(m, "options") == OptTextMap(i.options) && Lookup(m, "peers") == OptPeers(i.peers)
    requires Lookup(m, "private_key") == Some(String(i.privateKey))
    requires Lookup(m, "listen_port") == OptInt(i.listenPort) && Lookup(m, "mtu") == OptInt(i.mtu)
    requires Lookup(m, "route_allowed_ips") == OptBool(i.routeAllowedIPs) && Lookup(m, "fwmark") == OptInt(i.fwmark)
    ensures forall k :: k in INTERFACE_KEYS ==> Lookup(m, k) == InterfaceMember(i, k)
  {
  }

  lemma InterfaceMembersBack(m: map<string, Json>, i: Interface, w: Word)
    requires AllPlain(m) && DecodeInterface(Object(m), w) == Some(i) && ValidInterface(i)
    ensures forall k :: k in INTERFACE_KEYS ==> Lookup(m, k) == InterfaceMember(i, k)
  {
    ContainersBack(m, i, w);
    ScalarsBack(m, i, w);
    TenMembers(m, i);
  }

  lemma InterfaceBack(j: Json, i: Interface, w: Word)
    requires Plain(j) && DecodeInterface(j, w) == Some(i) && ValidInterface(i)
    ensures InterfaceJson(i) == j
  {
    InterfaceMembersBack(j.members, i, w);
    SameMembers(j.members, i);
  }

  lemma InterfaceAtBack(m: map<string, Json>, key: string, w: Word, name: string)
    requires InterfacesField(m, key, w).Present? && Plain(m[key]) && name in m[key].members
    requires ValidInterface(InterfacesField(m, key, w).value[name])
    ensures InterfaceJson(InterfacesField(m, key, w).value[name]) == m[key].members[name]
  {
    assert Plain(m[key].members[name]);
    InterfaceBack(m[key].members[name], InterfacesField(m, key, w).value[name], w);
  }

  lemma InterfacesBack(m: map<string, Json>, key: string, w: Word)
    requires AllPlain(m) && InterfacesField(m, key, w).Present?
    requires var found := InterfacesField(m, key, w).value; forall name :: name in found ==> ValidInterface(found[name])
    ensures Lookup(m, key) == OptInterfaces(InterfacesField(m, key, w).ToOption())
  {
    assert Plain(m[key]);
    var inner, found := m[key].members, InterfacesField(m, key, w).value;
    forall name | name in inner ensures InterfaceJson(found[name]) == inner[name] {
      InterfaceAtBack(m, key, w, name);
    }
    assert OptInterfaces(Some(found)).value.members == inner;
  }

  // ----- the bundle -----

  lemma HeaderBack(m: map<string, Json>, b: Bundle, w: Word, namespace: string, nodeID: string)
    requires AllPlain(m) && DecodeBundle(Object(m), w) == Some(b) && Valid(b, namespace, nodeID)
    requires namespace != "" && nodeID != ""
    ensures Lookup(m, "version") == Some(IntJson(b.version)) && Lookup(m, "timestamp") == Some(IntJson(b.timestamp))
    ensures Lookup(m, "namespace") == Some(String(b.namespace)) && Lookup(m, "node_id") == Some(String(b.nodeID))
    ensures Lookup(m, "stunmesh") == OptText(b.stunmesh)
  {
    IntBack(m, "version", w);
    Int64Back(m, "timestamp");
    TextBack(m, "namespace");
    TextBack(m, "node_id");
    TextBack(m, "stunmesh");
  }

  lemma WgBack(m: map<string, Json>, b: Bundle, w: Word, namespace: string, nodeID: string)
    requires AllPlain(m) && DecodeBundle(Object(m), w) == Some(b) && Valid(b, namespace, nodeID)
    ensures Lookup(m, "wg") == OptInterfaces(b.wg)
  {
    InterfacesBack(m, "wg", w);
  }

  lemma SixMembers(m: map<string, Json>, b: Bundle)
    requires Lookup(m, "version") == Some(IntJson(b.version)) && Lookup(m, "timestamp") == Some(IntJson(b.timestamp))
    requires Lookup(m, "namespace") == Some(String(b.namespace)) && Lookup(m, "node_id") == Some(String(b.nodeID))
    requires Lookup(m, "wg") == OptInterfaces(b.wg) && Lookup(m, "stunmesh") == OptText(b.stunmesh)
    ensures forall k :: k in BUNDLE_KEYS ==> Lookup(m, k) == BundleMember(b, k)
  {
  }

  // The one JSON value that decodes to a valid bundle is its encoding.
  lemma BundleBack(j: Json, b: Bundle, w: Word, namespace: string, nodeID: string)
    requires Plain(j) && DecodeBundle(j, w) == Some(b) && Valid(b, namespace, nodeID) && namespace != "" && nodeID != ""
    ensures BundleJson(b) == j
  {
    HeaderBack(j.members, b, w, namespace, nodeID);
    WgBack(j.members, b, w, namespace, nodeID);
    SixMembers(j.members, b);
    assert BundleJson(b).members == j.members;
  }
}
