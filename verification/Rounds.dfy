/** Rounds of the republish loop on values, and what they keep. */
module Rounds {
  import opened Text
  import opened Bundle
  import opened CanonicalForm
  import opened Marshal
  import opened Box
  import opened Schedule
  import opened Books

  // ----- one round -----

  // The nodes of one namespace, in order.
  function PublishAll(outcome: nat -> Delivery, bk: Books, ns: string, controller: Secret,
                      nodes: map<string, Files>, ids: seq<string>, now: int): Books
    requires forall id :: id in ids ==> id in nodes
  {
    if ids == [] then bk
    else
      var id, front := ids[|ids| - 1], ids[..|ids| - 1];
      PublishNode(outcome, PublishAll(outcome, bk, ns, controller, nodes, front, now), NodeKey(ns, id), controller,
                  nodes[id], now)
  }

  function PublishSpace(outcome: nat -> Delivery, bk: Books, ns: string, s: Space, now: int): Books
    requires s.Deployment?
  {
    if s.nodes.Listed? && s.hasBackend then
      PublishAll(outcome, bk, ns, s.controller, s.nodes.nodes, Sorted(s.nodes.nodes.Keys), now)
    else bk
  }

  predicate Turn(due: map<string, int>, tree: Tree, ns: string, now: int) {
    ns in tree && tree[ns].Deployment? && IsDue(due, now, ns)
  }

  function PublishSpaces(outcome: nat -> Delivery, bk: Books, due: map<string, int>, tree: Tree, names: seq<string>,
                         now: int): Books
    requires forall ns :: ns in names ==> ns in tree
  {
    if names == [] then bk
    else
      var ns, front := names[|names| - 1], names[..|names| - 1];
      var before := PublishSpaces(outcome, bk, due, tree, front, now);
      if Turn(due, tree, ns, now) then PublishSpace(outcome, before, ns, tree[ns], now) else before
  }

  function Prune(bk: Books, tree: Tree): Books {
    bk.(cache := map k | k in bk.cache && k.namespace in tree :: bk.cache[k])
  }

  function Round(outcome: nat -> Delivery, bk: Books, due: map<string, int>, tree: Tree, now: int): Books {
    Prune(PublishSpaces(outcome, bk, due, tree, Sorted(tree.Keys), now), tree)
  }

  function PeriodsOf(tree: Tree): Periods {
    map ns | ns in tree :: if tree[ns].Malformed? then Unreadable else Every(tree[ns].interval)
  }

  // The namespaces that publish are those the schedule says.
  lemma TurnIsScheduled(due: map<string, int>, tree: Tree, ns: string, now: int)
    ensures Turn(due, tree, ns, now) <==> Publishes(due, now, PeriodsOf(tree), ns)
  {
  }

  // ----- the cache over rounds -----

  // The controller keys in the tree are these.
  ghost predicate Keyed(tree: Tree, keys: Controllers) {
    forall ns :: ns in tree && tree[ns].Deployment? ==> tree[ns].controller == keys(ns)
  }

  lemma {:induction false} AllKeepCache(outcome: nat -> Delivery, bk: Books, ns: string, keys: Controllers,
                                        nodes: map<string, Files>, ids: seq<string>, now: int)
    requires CacheOk(bk, keys) && forall id :: id in ids ==> id in nodes
    ensures CacheOk(PublishAll(outcome, bk, ns, keys(ns), nodes, ids, now), keys)
    decreases |ids|
  {
    if ids != [] {
      var id, front := ids[|ids| - 1], ids[..|ids| - 1];
      AllKeepCache(outcome, bk, ns, keys, nodes, front, now);
      PublishKeepsCache(outcome, PublishAll(outcome, bk, ns, keys(ns), nodes, front, now), NodeKey(ns, id), keys,
                        nodes[id], now);
    }
  }

  lemma {:induction false} SpacesKeepCache(outcome: nat -> Delivery, bk: Books, due: map<string, int>, tree: Tree,
                                           keys: Controllers, names: seq<string>, now: int)
    requires CacheOk(bk, keys) && Keyed(tree, keys) && forall ns :: ns in names ==> ns in tree
    ensures CacheOk(PublishSpaces(outcome, bk, due, tree, names, now), keys)
    decreases |names|
  {
    if names != [] {
      var ns, front := names[|names| - 1], names[..|names| - 1];
      SpacesKeepCache(outcome, bk, due, tree, keys, front, now);
      var before := PublishSpaces(outcome, bk, due, tree, front, now);
      if Turn(due, tree, ns, now) && tree[ns].nodes.Listed? {
        AllKeepCache(outcome, before, ns, keys, tree[ns].nodes.nodes, Sorted(tree[ns].nodes.nodes.Keys), now);
      }
    }
  }

  // Over every round, with edits, additions, removals, failed preparations and failed puts,
  // every cached value stays what sealing its bundle for its identity key would give.
  lemma RoundKeepsCache(outcome: nat -> Delivery, bk: Books, due: map<string, int>, tree: Tree, keys: Controllers,
                        now: int)
    requires CacheOk(bk, keys) && Keyed(tree, keys)
    ensures CacheOk(Round(outcome, bk, due, tree, now), keys)
  {
    SpacesKeepCache(outcome, bk, due, tree, keys, Sorted(tree.Keys), now);
  }

  // ----- runs -----

  datatype Input = Input(tree: Tree, now: int)

  datatype Loop = Loop(books: Books, due: map<string, int>)

  function AfterRound(outcome: nat -> Delivery, l: Loop, i: Input): Loop {
    Loop(Round(outcome, l.books, l.due, i.tree, i.now), NextDue(l.due, i.now, PeriodsOf(i.tree)))
  }

  function AfterRounds(outcome: nat -> Delivery, l: Loop, rounds: seq<Input>): Loop
    decreases |rounds|
  {
    if rounds == [] then l else AfterRounds(outcome, AfterRound(outcome, l, rounds[0]), rounds[1..])
  }

  // ----- what a round leaves in the cache -----

  // Only entries of namespaces in the tree, and all of those that were there before.
  lemma RoundPrunes(outcome: nat -> Delivery, bk: Books, due: map<string, int>, tree: Tree, now: int)
    ensures forall k :: k in Round(outcome, bk, due, tree, now).cache ==> k.namespace in tree
    ensures forall k :: k in bk.cache && k.namespace in tree ==> k in Round(outcome, bk, due, tree, now).cache
  {
    SpacesGrowCache(outcome, bk, due, tree, Sorted(tree.Keys), now);
  }

  lemma {:induction false} AllGrowCache(outcome: nat -> Delivery, bk: Books, ns: string, controller: Secret,
                                        nodes: map<string, Files>, ids: seq<string>, now: int)
    requires forall id :: id in ids ==> id in nodes
    ensures bk.cache.Keys <= PublishAll(outcome, bk, ns, controller, nodes, ids, now).cache.Keys
    decreases |ids|
  {
    if ids != [] {
      var id, front := ids[|ids| - 1], ids[..|ids| - 1];
      var before := PublishAll(outcome, bk, ns, controller, nodes, front, now);
      AllGrowCache(outcome, bk, ns, controller, nodes, front, now);
      PublishedCache(outcome, before, NodeKey(ns, id), controller, nodes[id], now);
    }
  }

  lemma {:induction false} SpacesGrowCache(outcome: nat -> Delivery, bk: Books, due: map<string, int>, tree: Tree,
                                           names: seq<string>, now: int)
    requires forall ns :: ns in names ==> ns in tree
    ensures bk.cache.Keys <= PublishSpaces(outcome, bk, due, tree, names, now).cache.Keys
    decreases |names|
  {
    if names != [] {
      var ns, front := names[|names| - 1], names[..|names| - 1];
      var before := PublishSpaces(outcome, bk, due, tree, front, now);
      SpacesGrowCache(outcome, bk, due, tree, front, now);
      if Turn(due, tree, ns, now) && tree[ns].nodes.Listed? {
        var nodes := tree[ns].nodes.nodes;
        AllGrowCache(outcome, before, ns, tree[ns].controller, nodes, Sorted(nodes.Keys), now);
      }
    }
  }

  // ----- controller keys over rounds -----

  // Keys that are the same for every namespace in the tree.
  ghost predicate SameKeys(tree: Tree, keys: Controllers, next: Controllers) {
    forall ns :: ns in tree ==> next(ns) == keys(ns)
  }

  // The keys of each round: those in its tree, and another key than before only for a namespace
  // that was not in the tree of the round before.
  ghost predicate Ring(rounds: seq<Input>, ring: seq<Controllers>) {
    && |ring| == |rounds|
    && (forall n :: 0 <= n < |rounds| ==> Keyed(rounds[n].tree, ring[n]))
    && (forall n :: 0 <= n < |rounds| - 1 ==> SameKeys(rounds[n].tree, ring[n], ring[n + 1]))
  }

  lemma RestOfRing(rounds: seq<Input>, ring: seq<Controllers>)
    requires Ring(rounds, ring) && rounds != []
    ensures Ring(rounds[1..], ring[1..])
    ensures Keyed(rounds[0].tree, ring[0]) && (|rounds| > 1 ==> SameKeys(rounds[0].tree, ring[0], ring[1]))
  {
    forall n | 0 <= n < |rounds[1..]| ensures Keyed(rounds[1..][n].tree, ring[1..][n]) {
      assert rounds[1..][n] == rounds[n + 1] && ring[1..][n] == ring[n + 1];
    }
    forall n | 0 <= n < |rounds[1..]| - 1 ensures SameKeys(rounds[1..][n].tree, ring[1..][n], ring[1..][n + 1]) {
      assert rounds[1..][n] == rounds[n + 1] && ring[1..][n] == ring[n + 1] && ring[1..][n + 1] == ring[n + 2];
    }
  }

  // After a round without a namespace its key may be another one.
  lemma RekeyCache(bk: Books, tree: Tree, keys: Controllers, next: Controllers)
    requires CacheOk(bk, keys) && SameKeys(tree, keys, next) && forall k :: k in bk.cache ==> k.namespace in tree
    ensures CacheOk(bk, next)
  {
  }

  lemma {:induction false} RunKeepsCache(outcome: nat -> Delivery, l: Loop, rounds: seq<Input>, ring: seq<Controllers>)
    requires Ring(rounds, ring) && rounds != [] && CacheOk(l.books, ring[0])
    ensures CacheOk(AfterRounds(outcome, l, rounds).books, ring[|ring| - 1])
    decreases |rounds|
  {
    var r := rounds[0];
    RestOfRing(rounds, ring);
    RoundKeepsCache(outcome, l.books, l.due, r.tree, ring[0], r.now);
    RoundPrunes(outcome, l.books, l.due, r.tree, r.now);
    if |rounds| > 1 {
      RekeyCache(AfterRound(outcome, l, r).books, r.tree, ring[0], ring[1]);
      RunKeepsCache(outcome, AfterRound(outcome, l, r), rounds[1..], ring[1..]);
    } else {
      assert rounds[1..] == [];
    }
  }

  // After a round without the namespace, whatever is next put for one of its nodes opens under
  // the controller key then in force, whatever the key was before.
  lemma RecreatedOpens(outcome: nat -> Delivery, bk: Books, due: map<string, int>, without: Tree, keys: Controllers,
                       now: int, k: NodeKey, next: Controllers, f: Files, later: int, identity: Secret)
    requires CacheOk(bk, keys) && Keyed(without, keys) && k.namespace !in without && SameKeys(without, keys, next)
    requires f.Files? && f.identity == PublicOf(identity) && Prepare(k, f, later).Some?
    requires outcome(Round(outcome, bk, due, without, now).puts) != Nowhere
    ensures var mid := Round(outcome, bk, due, without, now);
      var vs := Puts(PublishNode(outcome, mid, k, next(k.namespace), f, later), k);
      vs != [] && OpensTo(LastOf(vs), k, PublicOf(next(k.namespace)), identity, Prepare(k, f, later).value)
  {
    var mid := Round(outcome, bk, due, without, now);
    RoundKeepsCache(outcome, bk, due, without, keys, now);
    RoundPrunes(outcome, bk, due, without, now);
    RekeyCache(mid, without, keys, next);
    PutOpens(outcome, mid, k, next, f, later, identity);
  }

  // ----- what the DHT holds of a node -----

  // A sealing of this bundle for these two keys.
  ghost predicate Carries(v: Value, pair: set<Public>, e: Bundle) {
    v.Sealed? && v.shared == pair && v.text == MarshalBundle(e)
  }

  // A sealing of a bundle of this node with an earlier timestamp.
  ghost predicate Older(v: Value, k: NodeKey, time: int) {
    v.Sealed? && exists e :: Valid(e, k.namespace, k.nodeID) && v.text == MarshalBundle(e) && e.timestamp < time
  }

  // Bundle e is the newest of the values sealed for these two keys.
  ghost predicate NewestIs(vs: seq<Value>, k: NodeKey, pair: set<Public>, e: Bundle) {
    && Valid(e, k.namespace, k.nodeID)
    && (exists v :: v in vs && Carries(v, pair, e))
    && forall v :: v in vs ==> v.Sealed? && (v.shared != pair || Carries(v, pair, e) || Older(v, k, e.timestamp))
  }

  // What the books take for the newest value of every pair of keys is the newest.
  ghost predicate SlotOk(bk: Books, k: NodeKey, pair: set<Public>) {
    if Slot(k, pair) in bk.newest then NewestIs(Puts(bk, k), k, pair, bk.newest[Slot(k, pair)])
    else forall v :: v in Puts(bk, k) ==> v.Sealed? && v.shared != pair
  }

  // What is cached was put and is among the values of its keys.
  ghost predicate CachedPut(bk: Books, k: NodeKey, controller: Secret) {
    k in bk.cache ==>
      && EntryOk(k, bk.cache[k], controller) && bk.cache[k].sealed in Puts(bk, k)
      && Slot(k, Pair(bk.cache[k].identity, controller)) in bk.newest
  }

  function LastOf(vs: seq<Value>): Value { if vs == [] then Junk([]) else vs[|vs| - 1] }

  // If every put reaches every proxy, the cached bundle and the content sent last are the newest
  // of their keys, and the value put last is the newest one.
  ghost predicate SentNewest(bk: Books, k: NodeKey) {
    && (k in bk.cache && Slot(k, SharedOf(bk.cache[k].sealed)) in bk.newest ==>
          bk.newest[Slot(k, SharedOf(bk.cache[k].sealed))] == bk.cache[k].bundle)
    && (k in bk.sent && Slot(k, bk.sent[k].pair) in bk.newest ==>
          var e := bk.newest[Slot(k, bk.sent[k].pair)];
          && SameContent(bk.sent[k].bundle, e) && Puts(bk, k) != []
          && Carries(LastOf(Puts(bk, k)), bk.sent[k].pair, e))
  }

  ghost predicate NodeFresh(bk: Books, k: NodeKey, controller: Secret, delivered: bool) {
    && (forall pair :: SlotOk(bk, k, pair)) && CachedPut(bk, k, controller)
    && (k in bk.sent ==> Slot(k, bk.sent[k].pair) in bk.newest)
    && (delivered ==> SentNewest(bk, k))
  }

  ghost predicate AllOlder(vs: seq<Value>, k: NodeKey, time: int) { forall v :: v in vs ==> Older(v, k, time) }

  // If this round has to seal the node anew, its second is later than all before.
  ghost predicate Ready(bk: Books, k: NodeKey, f: Files, now: int) {
    var p := Prepare(k, f, now);
    p.Some? ==> Reusable(bk, k, p.value, f.identity) || AllOlder(Puts(bk, k), k, now / SECOND)
  }

  // What the books say of one node.
  ghost predicate SameNode(a: Books, b: Books, k: NodeKey) {
    && (k in a.cache <==> k in b.cache) && (k in a.cache ==> a.cache[k] == b.cache[k])
    && (k in a.sent <==> k in b.sent) && (k in a.sent ==> a.sent[k] == b.sent[k])
    && SameSlots(a.newest, b.newest, k) && Puts(a, k) == Puts(b, k)
  }

  ghost predicate SameSlots(a: map<Slot, Bundle>, b: map<Slot, Bundle>, k: NodeKey) {
    && (forall pair :: Slot(k, pair) in a <==> Slot(k, pair) in b)
    && (forall pair :: Slot(k, pair) in a ==> a[Slot(k, pair)] == b[Slot(k, pair)])
  }

  lemma PutElsewhere(outcome: nat -> Delivery, bk: Books, k: NodeKey, v: Value, s: Sent, other: NodeKey)
    requires other != k
    ensures SameNode(Put(outcome, bk, k, v, s), bk, other)
  {
  }

  lemma NoteElsewhere(after: Books, bk: Books, k: NodeKey, e: Entry, delivery: Delivery, other: NodeKey)
    requires other != k && SameNode(after, bk, other)
    ensures SameNode(Noted(after, k, e, delivery), bk, other)
  {
  }

  // A put, with its nonce counted.
  lemma CountedElsewhere(outcome: nat -> Delivery, bk: Books, k: NodeKey, v: Value, s: Sent, other: NodeKey)
    requires other != k
    ensures SameNode(Put(outcome, bk.(nonces := bk.nonces + 1), k, v, s), bk, other)
  {
  }

  lemma NotedElsewhere(outcome: nat -> Delivery, bk: Books, k: NodeKey, s: Sent, e: Entry, other: NodeKey)
    requires other != k
    ensures SameNode(Noted(Put(outcome, bk.(nonces := bk.nonces + 1), k, e.sealed, s), k, e, outcome(bk.puts)), bk,
                     other)
  {
    CountedElsewhere(outcome, bk, k, e.sealed, s, other);
    NoteElsewhere(Put(outcome, bk.(nonces := bk.nonces + 1), k, e.sealed, s), bk, k, e, outcome(bk.puts), other);
  }

  lemma SealElsewhere(outcome: nat -> Delivery, bk: Books, k: NodeKey, controller: Secret, b: Bundle, identity: Public,
                      other: NodeKey)
    requires other != k
    ensures SameNode(SealAndPut(outcome, bk, k, controller, b, identity), bk, other)
  {
    var e := Entry(b, identity, SealFor(bk, b, identity, controller));
    NotedElsewhere(outcome, bk, k, Sent(b, Pair(identity, controller)), e, other);
  }

  lemma PublishElsewhere(outcome: nat -> Delivery, bk: Books, k: NodeKey, controller: Secret, f: Files, now: int,
                         other: NodeKey)
    requires other != k
    ensures SameNode(PublishNode(outcome, bk, k, controller, f, now), bk, other)
  {
    var p := Prepare(k, f, now);
    if p.Some? {
      if Reusable(bk, k, p.value, f.identity) {
        PutElsewhere(outcome, bk, k, bk.cache[k].sealed, Sent(p.value, Pair(f.identity, controller)), other);
      } else {
        SealElsewhere(outcome, bk, k, controller, p.value, f.identity, other);
      }
    }
  }

  ghost predicate AllDelivered(outcome: nat -> Delivery) { forall n :: outcome(n) == Everywhere }

  lemma ReputSlot(a: Books, b: Books, k: NodeKey, pair: set<Public>)
    requires SlotOk(a, k, pair) && b.newest == a.newest
    requires forall v :: v in Puts(b, k) <==> v in Puts(a, k)
    ensures SlotOk(b, k, pair)
  {
    if Slot(k, pair) in a.newest {
      var v :| v in Puts(a, k) && Carries(v, pair, a.newest[Slot(k, pair)]);
      assert v in Puts(b, k);
    }
  }

  lemma ReputFresh(outcome: nat -> Delivery, bk: Books, k: NodeKey, controller: Secret, b: Bundle, delivered: bool)
    requires (delivered ==> AllDelivered(outcome)) && NodeFresh(bk, k, controller, delivered)
    requires k in bk.cache && Reusable(bk, k, b, bk.cache[k].identity)
    ensures var sent := Sent(b, Pair(bk.cache[k].identity, controller));
      NodeFresh(Put(outcome, bk, k, bk.cache[k].sealed, sent), k, controller, delivered)
  {
    var after := Put(outcome, bk, k, bk.cache[k].sealed, Sent(b, Pair(bk.cache[k].identity, controller)));
    forall pair ensures SlotOk(after, k, pair) { ReputSlot(bk, after, k, pair); }
  }

  // A value sealed now is the newest of its keys and no matter to the others.
  lemma SealedSlot(a: Books, b: Books, k: NodeKey, e: Bundle, v: Value, pair: set<Public>, other: set<Public>)
    requires SlotOk(a, k, other) && Valid(e, k.namespace, k.nodeID)
    requires Carries(v, pair, e) && AllOlder(Puts(a, k), k, e.timestamp)
    requires b.newest == a.newest[Slot(k, pair) := e] && Puts(b, k) == Puts(a, k) + [v]
    ensures SlotOk(b, k, other)
  {
    if other != pair && Slot(k, other) in a.newest {
      var u :| u in Puts(a, k) && Carries(u, other, a.newest[Slot(k, other)]);
      assert u in Puts(b, k);
    } else if other == pair {
      assert v in Puts(b, k);
    }
  }

  // The books after sealing a bundle anew, with a later second than all before.
  lemma ResealSlots(outcome: nat -> Delivery, bk: Books, k: NodeKey, controller: Secret, b: Bundle, identity: Public,
                    pair: set<Public>)
    requires SlotOk(bk, k, pair) && Valid(b, k.namespace, k.nodeID)
    requires AllOlder(Puts(bk, k), k, b.timestamp)
    ensures SlotOk(SealAndPut(outcome, bk, k, controller, b, identity), k, pair)
  {
    var v, after := SealFor(bk, b, identity, controller), SealAndPut(outcome, bk, k, controller, b, identity);
    if outcome(bk.puts) != Nowhere {
      assert Puts(after, k) == Puts(bk, k) + [v];
      SealedSlot(bk, after, k, b, v, Pair(identity, controller), pair);
    } else {
      ReputSlot(bk, after, k, pair);
    }
  }

  lemma ResealRest(outcome: nat -> Delivery, bk: Books, k: NodeKey, controller: Secret, b: Bundle, identity: Public,
                   delivered: bool)
    requires (delivered ==> AllDelivered(outcome)) && NodeFresh(bk, k, controller, delivered)
    requires Valid(b, k.namespace, k.nodeID)
    ensures var after := SealAndPut(outcome, bk, k, controller, b, identity);
      && CachedPut(after, k, controller) && (k in after.sent ==> Slot(k, after.sent[k].pair) in after.newest)
      && (delivered ==> SentNewest(after, k))
  {
    var v := SealFor(bk, b, identity, controller);
    assert SealedBy(v, MarshalBundle(b), identity, controller);
  }

  lemma ResealFresh(outcome: nat -> Delivery, bk: Books, k: NodeKey, controller: Secret, f: Files, now: int,
                    delivered: bool)
    requires (delivered ==> AllDelivered(outcome)) && NodeFresh(bk, k, controller, delivered)
    requires Prepare(k, f, now).Some? && AllOlder(Puts(bk, k), k, now / SECOND)
    requires !Reusable(bk, k, Prepare(k, f, now).value, f.identity)
    ensures NodeFresh(PublishNode(outcome, bk, k, controller, f, now), k, controller, delivered)
  {
    var b := Prepare(k, f, now).value;
    forall pair ensures SlotOk(PublishNode(outcome, bk, k, controller, f, now), k, pair) {
      ResealSlots(outcome, bk, k, controller, b, f.identity, pair);
    }
    ResealRest(outcome, bk, k, controller, b, f.identity, delivered);
  }

  lemma PublishFresh(outcome: nat -> Delivery, bk: Books, k: NodeKey, controller: Secret, f: Files, now: int,
                     delivered: bool)
    requires (delivered ==> AllDelivered(outcome)) && NodeFresh(bk, k, controller, delivered)
    requires Ready(bk, k, f, now)
    ensures NodeFresh(PublishNode(outcome, bk, k, controller, f, now), k, controller, delivered)
  {
    var p := Prepare(k, f, now);
    if p.Some? {
      if Reusable(bk, k, p.value, f.identity) {
        ReputFresh(outcome, bk, k, controller, p.value, delivered);
      } else {
        ResealFresh(outcome, bk, k, controller, f, now, delivered);
      }
    }
  }

  lemma SameSlot(a: Books, b: Books, k: NodeKey, pair: set<Public>)
    requires SameNode(a, b, k) && SlotOk(b, k, pair)
    ensures SlotOk(a, k, pair)
  {
  }

  lemma SameFresh(a: Books, b: Books, k: NodeKey, controller: Secret, delivered: bool)
    requires SameNode(a, b, k) && NodeFresh(b, k, controller, delivered)
    ensures NodeFresh(a, k, controller, delivered)
  {
    forall pair ensures SlotOk(a, k, pair) { SameSlot(a, b, k, pair); }
  }

  lemma SameReady(a: Books, b: Books, k: NodeKey, f: Files, now: int)
    requires SameNode(a, b, k) && Ready(b, k, f, now)
    ensures Ready(a, k, f, now)
  {
  }

  lemma SameTrans(a: Books, b: Books, c: Books, k: NodeKey)
    requires SameNode(a, b, k) && SameNode(b, c, k)
    ensures SameNode(a, c, k)
  {
  }

  ghost predicate AllFresh(bk: Books, keys: Controllers, delivered: bool) {
    forall k: NodeKey :: NodeFresh(bk, k, keys(k.namespace), delivered)
  }

  lemma PublishAllFresh(outcome: nat -> Delivery, bk: Books, k: NodeKey, keys: Controllers, f: Files, now: int,
                        delivered: bool)
    requires (delivered ==> AllDelivered(outcome)) && AllFresh(bk, keys, delivered)
    requires Ready(bk, k, f, now)
    ensures AllFresh(PublishNode(outcome, bk, k, keys(k.namespace), f, now), keys, delivered)
  {
    PublishFresh(outcome, bk, k, keys(k.namespace), f, now, delivered);
    var after := PublishNode(outcome, bk, k, keys(k.namespace), f, now);
    forall other: NodeKey ensures NodeFresh(after, other, keys(other.namespace), delivered) {
      if other != k {
        PublishElsewhere(outcome, bk, k, keys(k.namespace), f, now, other);
        SameFresh(after, bk, other, keys(other.namespace), delivered);
      }
    }
  }

  // ----- one namespace -----

  ghost predicate SpaceReady(bk: Books, ns: string, nodes: map<string, Files>, now: int) {
    forall id :: id in nodes ==> Ready(bk, NodeKey(ns, id), nodes[id], now)
  }

  lemma {:induction false} AllElsewhere(outcome: nat -> Delivery, bk: Books, ns: string, controller: Secret,
                                        nodes: map<string, Files>, ids: seq<string>, now: int, other: NodeKey)
    requires (forall id :: id in ids ==> id in nodes) && (other.namespace != ns || other.nodeID !in ids)
    ensures SameNode(PublishAll(outcome, bk, ns, controller, nodes, ids, now), bk, other)
    decreases |ids|
  {
    if ids != [] {
      var id, front := ids[|ids| - 1], ids[..|ids| - 1];
      var before := PublishAll(outcome, bk, ns, controller, nodes, front, now);
      AllElsewhere(outcome, bk, ns, controller, nodes, front, now, other);
      PublishElsewhere(outcome, before, NodeKey(ns, id), controller, nodes[id], now, other);
      SameTrans(PublishAll(outcome, bk, ns, controller, nodes, ids, now), before, bk, other);
    }
  }

  lemma {:induction false} NamespaceFresh(outcome: nat -> Delivery, bk: Books, ns: string, keys: Controllers,
                                          nodes: map<string, Files>, ids: seq<string>, now: int, delivered: bool)
    requires (delivered ==> AllDelivered(outcome)) && AllFresh(bk, keys, delivered)
    requires SpaceReady(bk, ns, nodes, now)
    requires (forall id :: id in ids ==> id in nodes) && forall i, j :: 0 <= i < j < |ids| ==> ids[i] != ids[j]
    ensures AllFresh(PublishAll(outcome, bk, ns, keys(ns), nodes, ids, now), keys, delivered)
    decreases |ids|
  {
    if ids != [] {
      var id, front := ids[|ids| - 1], ids[..|ids| - 1];
      var before := PublishAll(outcome, bk, ns, keys(ns), nodes, front, now);
      NamespaceFresh(outcome, bk, ns, keys, nodes, front, now, delivered);
      AllElsewhere(outcome, bk, ns, keys(ns), nodes, front, now, NodeKey(ns, id));
      SameReady(before, bk, NodeKey(ns, id), nodes[id], now);
      PublishAllFresh(outcome, before, NodeKey(ns, id), keys, nodes[id], now, delivered);
    }
  }

  // ----- the whole round -----

  // A deployment whose nodes can be listed and put.
  predicate Sends(s: Space) { s.Deployment? && s.nodes.Listed? && s.hasBackend }

  ghost predicate RoundReady(bk: Books, due: map<string, int>, tree: Tree, now: int) {
    forall ns :: Turn(due, tree, ns, now) && Sends(tree[ns]) ==> SpaceReady(bk, ns, tree[ns].nodes.nodes, now)
  }

  lemma SpaceElsewhere(outcome: nat -> Delivery, bk: Books, ns: string, s: Space, now: int, other: NodeKey)
    requires s.Deployment? && other.namespace != ns
    ensures SameNode(PublishSpace(outcome, bk, ns, s, now), bk, other)
  {
    if s.nodes.Listed? {
      AllElsewhere(outcome, bk, ns, s.controller, s.nodes.nodes, Sorted(s.nodes.nodes.Keys), now, other);
    }
  }

  lemma {:induction false} SpacesElsewhere(outcome: nat -> Delivery, bk: Books, due: map<string, int>, tree: Tree,
                                           names: seq<string>, now: int, other: NodeKey)
    requires (forall ns :: ns in names ==> ns in tree) && other.namespace !in names
    ensures SameNode(PublishSpaces(outcome, bk, due, tree, names, now), bk, other)
    decreases |names|
  {
    if names != [] {
      var ns, front := names[|names| - 1], names[..|names| - 1];
      var before := PublishSpaces(outcome, bk, due, tree, front, now);
      SpacesElsewhere(outcome, bk, due, tree, front, now, other);
      assert ns in names;
      if Turn(due, tree, ns, now) { SpaceElsewhere(outcome, before, ns, tree[ns], now, other); }
      SameTrans(PublishSpaces(outcome, bk, due, tree, names, now), before, bk, other);
    }
  }

  lemma SpaceFresh(outcome: nat -> Delivery, bk: Books, ns: string, s: Space, keys: Controllers, now: int,
                   delivered: bool)
    requires (delivered ==> AllDelivered(outcome)) && AllFresh(bk, keys, delivered) && s.Deployment?
    requires s.controller == keys(ns)
    requires Sends(s) ==> SpaceReady(bk, ns, s.nodes.nodes, now)
    ensures AllFresh(PublishSpace(outcome, bk, ns, s, now), keys, delivered)
  {
    if Sends(s) {
      var ids := Sorted(s.nodes.nodes.Keys);
      IncreasingDistinct(ids);
      NamespaceFresh(outcome, bk, ns, keys, s.nodes.nodes, ids, now, delivered);
    }
  }

  lemma StillReady(outcome: nat -> Delivery, bk: Books, due: map<string, int>, tree: Tree, names: seq<string>, now: int,
                   ns: string)
    requires RoundReady(bk, due, tree, now) && Turn(due, tree, ns, now) && Sends(tree[ns])
    requires (forall n :: n in names ==> n in tree) && ns !in names
    ensures SpaceReady(PublishSpaces(outcome, bk, due, tree, names, now), ns, tree[ns].nodes.nodes, now)
  {
    var nodes := tree[ns].nodes.nodes;
    forall id | id in nodes
      ensures Ready(PublishSpaces(outcome, bk, due, tree, names, now), NodeKey(ns, id), nodes[id], now)
    {
      SpacesElsewhere(outcome, bk, due, tree, names, now, NodeKey(ns, id));
      SameReady(PublishSpaces(outcome, bk, due, tree, names, now), bk, NodeKey(ns, id), nodes[id], now);
    }
  }

  lemma {:induction false} SpacesFresh(outcome: nat -> Delivery, bk: Books, due: map<string, int>, tree: Tree,
                                       keys: Controllers, names: seq<string>, now: int, delivered: bool)
    requires (delivered ==> AllDelivered(outcome)) && AllFresh(bk, keys, delivered) && Keyed(tree, keys)
    requires RoundReady(bk, due, tree, now)
    requires (forall ns :: ns in names ==> ns in tree) && forall i, j :: 0 <= i < j < |names| ==> names[i] != names[j]
    ensures AllFresh(PublishSpaces(outcome, bk, due, tree, names, now), keys, delivered)
    decreases |names|
  {
    if names != [] {
      var ns, front := names[|names| - 1], names[..|names| - 1];
      SpacesFresh(outcome, bk, due, tree, keys, front, now, delivered);
      if Turn(due, tree, ns, now) {
        if Sends(tree[ns]) { StillReady(outcome, bk, due, tree, front, now, ns); }
        SpaceFresh(outcome, PublishSpaces(outcome, bk, due, tree, front, now), ns, tree[ns], keys, now, delivered);
      }
    }
  }

  lemma PruneNode(bk: Books, tree: Tree, k: NodeKey, controller: Secret, delivered: bool)
    requires NodeFresh(bk, k, controller, delivered)
    ensures NodeFresh(Prune(bk, tree), k, controller, delivered)
  {
    forall pair ensures SlotOk(Prune(bk, tree), k, pair) { ReputSlot(bk, Prune(bk, tree), k, pair); }
  }

  lemma PruneFresh(bk: Books, tree: Tree, keys: Controllers, delivered: bool)
    requires AllFresh(bk, keys, delivered)
    ensures AllFresh(Prune(bk, tree), keys, delivered)
  {
    forall k: NodeKey ensures NodeFresh(Prune(bk, tree), k, keys(k.namespace), delivered) {
      PruneNode(bk, tree, k, keys(k.namespace), delivered);
    }
  }

  // A round keeps track of the newest value of every node and identity key, whatever puts fail,
  // provided that whatever it has to seal anew gets a later second than everything put for that
  // node before; and if every put reaches every proxy, the newest is what was sent last.
  lemma RoundFresh(outcome: nat -> Delivery, bk: Books, due: map<string, int>, tree: Tree, keys: Controllers, now: int,
                   delivered: bool)
    requires (delivered ==> AllDelivered(outcome)) && AllFresh(bk, keys, delivered) && Keyed(tree, keys)
    requires RoundReady(bk, due, tree, now)
    ensures AllFresh(Round(outcome, bk, due, tree, now), keys, delivered)
  {
    IncreasingDistinct(Sorted(tree.Keys));
    SpacesFresh(outcome, bk, due, tree, keys, Sorted(tree.Keys), now, delivered);
    PruneFresh(PublishSpaces(outcome, bk, due, tree, Sorted(tree.Keys), now), tree, keys, delivered);
  }

  // ----- freshness over runs -----

  ghost predicate RunReady(outcome: nat -> Delivery, l: Loop, rounds: seq<Input>)
    decreases |rounds|
  {
    rounds == [] ||
    (&& RoundReady(l.books, l.due, rounds[0].tree, rounds[0].now)
     && RunReady(outcome, AfterRound(outcome, l, rounds[0]), rounds[1..]))
  }

  lemma RekeyFresh(bk: Books, tree: Tree, keys: Controllers, next: Controllers, delivered: bool)
    requires AllFresh(bk, keys, delivered) && SameKeys(tree, keys, next)
    requires forall k :: k in bk.cache ==> k.namespace in tree
    ensures AllFresh(bk, next, delivered)
  {
    forall k: NodeKey ensures NodeFresh(bk, k, next(k.namespace), delivered) {
      assert NodeFresh(bk, k, keys(k.namespace), delivered);
    }
  }

  lemma {:induction false} RunFresh(outcome: nat -> Delivery, l: Loop, rounds: seq<Input>, ring: seq<Controllers>,
                                    delivered: bool)
    requires (delivered ==> AllDelivered(outcome)) && Ring(rounds, ring) && rounds != []
    requires AllFresh(l.books, ring[0], delivered) && RunReady(outcome, l, rounds)
    ensures AllFresh(AfterRounds(outcome, l, rounds).books, ring[|ring| - 1], delivered)
    decreases |rounds|
  {
    var r := rounds[0];
    RestOfRing(rounds, ring);
    RoundFresh(outcome, l.books, l.due, r.tree, ring[0], r.now, delivered);
    RoundPrunes(outcome, l.books, l.due, r.tree, r.now);
    if |rounds| > 1 {
      RekeyFresh(AfterRound(outcome, l, r).books, r.tree, ring[0], ring[1], delivered);
      RunFresh(outcome, AfterRound(outcome, l, r), rounds[1..], ring[1..], delivered);
    } else {
      assert rounds[1..] == [];
    }
  }
}
