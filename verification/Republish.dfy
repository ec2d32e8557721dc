/** The republish loop's books: what it caches, what it has put, and when it publishes.

    Module Books gives every step of the loop on values and proves what the cache promises;
    module RepublishLoop is the loop itself.
  */
module Books {
  import opened Text
  import opened Bundle
  import opened CanonicalForm
  import opened Marshal
  import opened Box
  import opened Schedule
  import opened SizeBound

  datatype NodeKey = NodeKey(namespace: string, nodeID: string)

  // One node's directory: files that do not make a bundle, or their content.
  datatype Files = Broken | Files(wg: map<string, Interface>, stunmesh: string, identity: Public)

  datatype NodeList = NoDirectory | Unlistable | Listed(nodes: map<string, Files>)

  datatype Space = Malformed | Deployment(interval: int, controller: Secret, hasBackend: bool, nodes: NodeList)

  type Tree = map<string, Space>

  datatype Entry = Entry(bundle: Bundle, identity: Public, sealed: Value)

  // A put reaches every proxy, only some of them, or none; only the first is a success.
  datatype Delivery = Everywhere | Somewhere | Nowhere

  // What a put was for: the bundle built, and the two keys that it has to open for.
  datatype Sent = Sent(bundle: Bundle, pair: set<Public>)

  // The values of a node for two keys, the node's identity key and the controller's.
  datatype Slot = Slot(node: NodeKey, pair: set<Public>)

  function Pair(identity: Public, controller: Secret): set<Public> { {identity, PublicOf(controller)} }

  // What the loop remembers and what the DHT has seen: for every node all values ever put,
  // oldest first, and what the latest of them was for; and for every two keys the bundle of
  // the value sealed last of those that reached some proxy.
  datatype Books = Books(cache: map<NodeKey, Entry>, dht: map<NodeKey, seq<Value>>, sent: map<NodeKey, Sent>,
                         newest: map<Slot, Bundle>, nonces: nat, puts: nat)

  const MAX_INNER_BUNDLE_SIZE := 3 * (57344 / 4) - 40

  // ----- preparing a node -----

  function Assembled(k: NodeKey, f: Files, now: int): Bundle
    requires f.Files?
  {
    Bundle(1, k.namespace, k.nodeID, now / SECOND, Some(f.wg), Some(f.stunmesh))
  }

  // buildBundle: validated, and not too large for its DHT value.
  function Prepare(k: NodeKey, f: Files, now: int): Option<Bundle> {
    if f.Broken? then None
    else
      var b := Assembled(k, f, now);
      if Valid(b, k.namespace, k.nodeID) && |MarshalBundle(b)| <= MAX_INNER_BUNDLE_SIZE then Some(b) else None
  }

  // The bundle, sealed and base64-encoded, is no longer than a value of the DHT may be.
  ghost predicate FitsValue(b: Bundle) {
    forall sealed: Bytes :: |sealed| == |MarshalBundle(b)| + 40 ==> |Encode64(sealed)| <= 57344
  }

  lemma FitsWhen(b: Bundle)
    ensures FitsValue(b) <==> |MarshalBundle(b)| <= MAX_INNER_BUNDLE_SIZE
  {
    var size := |MarshalBundle(b)|;
    forall sealed: Bytes | |sealed| == size + 40
      ensures |Encode64(sealed)| <= 57344 <==> size <= MAX_INNER_BUNDLE_SIZE
    {
      FitsIff(sealed, size, 57344);
    }
    var zeros: Bytes := seq(size + 40, _ => 0 as char);
    assert |zeros| == size + 40 && (|Encode64(zeros)| <= 57344 <==> size <= MAX_INNER_BUNDLE_SIZE);
  }

  // ----- publishing a node -----

  function Puts(bk: Books, k: NodeKey): seq<Value> { if k in bk.dht then bk.dht[k] else [] }

  function Put(outcome: nat -> Delivery, bk: Books, k: NodeKey, v: Value, s: Sent): Books {
    var counted := bk.(puts := bk.puts + 1);
    if outcome(bk.puts) == Nowhere then counted
    else counted.(dht := bk.dht[k := Puts(bk, k) + [v]], sent := bk.sent[k := s])
  }

  // The cached value may be put again: same identity key and same content.
  predicate Reusable(bk: Books, k: NodeKey, b: Bundle, identity: Public) {
    k in bk.cache && bk.cache[k].identity == identity && SameContent(b, bk.cache[k].bundle)
  }

  function SealFor(bk: Books, b: Bundle, identity: Public, controller: Secret): Value {
    Seal(MarshalBundle(b), identity, controller, bk.nonces)
  }

  // What the loop keeps of a value it has sealed and put.
  function Noted(bk: Books, k: NodeKey, e: Entry, delivery: Delivery): Books {
    match delivery
    case Nowhere => bk
    case Somewhere => bk.(newest := bk.newest[Slot(k, SharedOf(e.sealed)) := e.bundle])
    case Everywhere => bk.(newest := bk.newest[Slot(k, SharedOf(e.sealed)) := e.bundle], cache := bk.cache[k := e])
  }

  function SealAndPut(outcome: nat -> Delivery, bk: Books, k: NodeKey, controller: Secret, b: Bundle,
                      identity: Public): Books {
    var v := SealFor(bk, b, identity, controller);
    var after := Put(outcome, bk.(nonces := bk.nonces + 1), k, v, Sent(b, Pair(identity, controller)));
    Noted(after, k, Entry(b, identity, v), outcome(bk.puts))
  }

  function PublishNode(outcome: nat -> Delivery, bk: Books, k: NodeKey, controller: Secret, f: Files, now: int): Books {
    match Prepare(k, f, now)
    case None => bk
    case Some(b) =>
      if Reusable(bk, k, b, f.identity) then
        Put(outcome, bk, k, bk.cache[k].sealed, Sent(b, Pair(f.identity, controller)))
      else SealAndPut(outcome, bk, k, controller, b, f.identity)
  }

  // ----- the cache agrees with resealing -----

  // Sealed for this recipient by this sender.
  ghost predicate SealedBy(v: Value, text: Bytes, to: Public, sender: Secret) {
    exists nonce: nat :: v == Seal(text, to, sender, nonce)
  }

  ghost predicate EntryOk(k: NodeKey, e: Entry, controller: Secret) {
    Valid(e.bundle, k.namespace, k.nodeID) && SealedBy(e.sealed, MarshalBundle(e.bundle), e.identity, controller)
  }

  // Which controller key each namespace uses.
  type Controllers = string -> Secret

  ghost predicate CacheOk(bk: Books, keys: Controllers) {
    forall k :: k in bk.cache ==> EntryOk(k, bk.cache[k], keys(k.namespace))
  }

  lemma SealedCache(outcome: nat -> Delivery, bk: Books, k: NodeKey, controller: Secret, b: Bundle, identity: Public)
    ensures var cache := SealAndPut(outcome, bk, k, controller, b, identity).cache;
      cache == bk.cache || cache == bk.cache[k := Entry(b, identity, SealFor(bk, b, identity, controller))]
  {
  }

  lemma PublishedCache(outcome: nat -> Delivery, bk: Books, k: NodeKey, controller: Secret, f: Files, now: int)
    ensures var cache, p := PublishNode(outcome, bk, k, controller, f, now).cache, Prepare(k, f, now);
      || cache == bk.cache
      || (p.Some? && cache == bk.cache[k := Entry(p.value, f.identity, SealFor(bk, p.value, f.identity, controller))])
  {
    var p := Prepare(k, f, now);
    if p.Some? { SealedCache(outcome, bk, k, controller, p.value, f.identity); }
  }

  lemma FreshEntryOk(bk: Books, k: NodeKey, controller: Secret, f: Files, now: int)
    requires Prepare(k, f, now).Some?
    ensures var b := Prepare(k, f, now).value;
      EntryOk(k, Entry(b, f.identity, SealFor(bk, b, f.identity, controller)), controller)
  {
  }

  lemma CacheKeeps(cache: map<NodeKey, Entry>, k: NodeKey, e: Entry, keys: Controllers)
    requires (forall i :: i in cache ==> EntryOk(i, cache[i], keys(i.namespace))) && EntryOk(k, e, keys(k.namespace))
    ensures forall i :: i in cache[k := e] ==> EntryOk(i, cache[k := e][i], keys(i.namespace))
  {
  }

  lemma PublishKeepsCache(outcome: nat -> Delivery, bk: Books, k: NodeKey, keys: Controllers, f: Files, now: int)
    requires CacheOk(bk, keys)
    ensures CacheOk(PublishNode(outcome, bk, k, keys(k.namespace), f, now), keys)
  {
    PublishedCache(outcome, bk, k, keys(k.namespace), f, now);
    if Prepare(k, f, now).Some? {
      var b := Prepare(k, f, now).value;
      FreshEntryOk(bk, k, keys(k.namespace), f, now);
      CacheKeeps(bk.cache, k, Entry(b, f.identity, SealFor(bk, b, f.identity, keys(k.namespace))), keys);
    }
  }

  // The node that holds the identity key opens the value to a bundle with this content.
  ghost predicate OpensTo(v: Value, k: NodeKey, controller: Public, identity: Secret, b: Bundle) {
    var text := Open(v, controller, identity);
    text.Some? && forall w: Word ::
      var r := ParseBundle(text.value, w);
      r.Ok? && Valid(r.bundle, k.namespace, k.nodeID) && SameContent(r.bundle, b)
  }

  lemma SealedOpens(v: Value, k: NodeKey, controller: Secret, identity: Secret, e: Bundle, b: Bundle)
    requires Valid(e, k.namespace, k.nodeID) && SealedBy(v, MarshalBundle(e), PublicOf(identity), controller)
    requires SameContent(b, e)
    ensures OpensTo(v, k, PublicOf(controller), identity, b)
  {
    var nonce: nat :| v == Seal(MarshalBundle(e), PublicOf(identity), controller, nonce);
    OpensIff(MarshalBundle(e), identity, controller, nonce, PublicOf(controller), identity);
    forall w: Word ensures ParseBundle(MarshalBundle(e), w) == Ok(e) { WireRoundTrip(e, k.namespace, k.nodeID, w); }
  }

  // Whatever a round puts for a node, cached or fresh, opens for its current identity key to
  // the content of the bundle built this round.
  lemma PutOpens(outcome: nat -> Delivery, bk: Books, k: NodeKey, keys: Controllers, f: Files, now: int,
                 identity: Secret)
    requires CacheOk(bk, keys) && f.Files? && f.identity == PublicOf(identity)
    requires Prepare(k, f, now).Some? && outcome(bk.puts) != Nowhere
    ensures var vs := Puts(PublishNode(outcome, bk, k, keys(k.namespace), f, now), k);
      && |vs| == |Puts(bk, k)| + 1 && vs[..|Puts(bk, k)|] == Puts(bk, k)
      && OpensTo(vs[|vs| - 1], k, PublicOf(keys(k.namespace)), identity, Prepare(k, f, now).value)
  {
    var b := Prepare(k, f, now).value;
    if Reusable(bk, k, b, f.identity) {
      assert EntryOk(k, bk.cache[k], keys(k.namespace));
      SealedOpens(bk.cache[k].sealed, k, keys(k.namespace), identity, bk.cache[k].bundle, b);
    } else {
      var v := SealFor(bk, b, f.identity, keys(k.namespace));
      assert SealedBy(v, MarshalBundle(b), f.identity, keys(k.namespace));
      SealedOpens(v, k, keys(k.namespace), identity, b, b);
    }
  }

  // A cached value put again after the controller key was replaced opens if and only if the
  // replacement is the key it was sealed with: the cache does not look at the controller key.
  lemma RotationBreaksCache(bk: Books, k: NodeKey, before: Secret, after: Secret, b: Bundle, identity: Secret)
    requires Reusable(bk, k, b, PublicOf(identity)) && EntryOk(k, bk.cache[k], before)
    ensures OpensTo(bk.cache[k].sealed, k, PublicOf(after), identity, b) <==> after == before
  {
    var e := bk.cache[k];
    var nonce: nat :| e.sealed == Seal(MarshalBundle(e.bundle), e.identity, before, nonce);
    OpensIff(MarshalBundle(e.bundle), identity, before, nonce, PublicOf(after), identity);
    if after == before { SealedOpens(e.sealed, k, before, identity, e.bundle, b); }
  }
}
