/** cmd/stunmesh-provd: the republish loop, updating its cache and its due times in place. */
module RepublishLoop {
  import opened Text
  import opened Bundle
  import opened Marshal
  import C = CanonicalForm
  import opened Box
  import opened Schedule
  import opened Books
  import opened Rounds
  import opened SizeBound

  class Controller {
    // How each put, in order, goes.
    const outcome: nat -> Delivery

    var cache: map<NodeKey, Entry>
    var due: map<string, int>
    var dht: map<NodeKey, seq<Value>>
    var nonces: nat
    var puts: nat
    ghost var sent: map<NodeKey, Sent>
    ghost var newest: map<Slot, Bundle>

    ghost function State(): Books
      reads this
    {
      Books(cache, dht, sent, newest, nonces, puts)
    }

    // Only validated bundles are cached.
    ghost predicate Valid()
      reads this
    {
      CacheValid(cache)
    }

    constructor (outcome: nat -> Delivery)
      ensures this.outcome == outcome && Valid() && due == map[] && State() == Books(map[], map[], map[], map[], 0, 0)
    {
      this.outcome := outcome;
      cache, due, dht, nonces, puts := map[], map[], map[], 0, 0;
      sent, newest := map[], map[];
    }

    // ----- one node -----

    method PutSealed(k: NodeKey, v: Value, ghost s: Sent) returns (ok: bool)
      modifies `dht, `puts, `sent
      ensures State() == Put(outcome, old(State()), k, v, s)
      ensures ok <==> outcome(old(puts)) == Everywhere
    {
      var delivery := outcome(puts);
      puts := puts + 1;
      if delivery != Nowhere {
        var before := if k in dht then dht[k] else [];
        dht := dht[k := before + [v]];
        sent := sent[k := s];
      }
      ok := delivery == Everywhere;
    }

    method CanReuse(k: NodeKey, b: Bundle, identity: Public) returns (reuse: bool)
      requires Valid() && ValidBundle(b, k)
      ensures reuse <==> Reusable(State(), k, b, identity)
    {
      if k !in cache || cache[k].identity != identity {
        return false;
      }
      reuse := C.Equal(b, cache[k].bundle);
      C.EqualIsSameContent(b, cache[k].bundle);
    }

    method SealAndPutNode(k: NodeKey, controller: Secret, b: Bundle, identity: Public) returns (ok: bool)
      requires Valid() && ValidBundle(b, k)
      modifies `cache, `dht, `nonces, `puts, `sent, `newest
      ensures Valid() && State() == SealAndPut(outcome, old(State()), k, controller, b, identity)
      ensures ok <==> outcome(old(puts)) == Everywhere
    {
      var v := Seal(C.MarshalBundle(b), identity, controller, nonces);
      nonces := nonces + 1;
      if outcome(puts) != Nowhere {
        newest := newest[Slot(k, SharedOf(v)) := b];
      }
      ok := PutSealed(k, v, Sent(b, Pair(identity, controller)));
      if ok {
        cache := cache[k := Entry(b, identity, v)];
      }
    }

    // ok: the bundle was built and put everywhere.
    method PublishNodeCached(k: NodeKey, controller: Secret, f: Files, now: int) returns (ok: bool)
      requires Valid()
      modifies `cache, `dht, `nonces, `puts, `sent, `newest
      ensures Valid() && State() == PublishNode(outcome, old(State()), k, controller, f, now)
      ensures ok <==> Prepare(k, f, now).Some? && outcome(old(puts)) == Everywhere
      ensures Prepare(k, f, now).None? ==> State() == old(State())
      ensures Prepare(k, f, now).Some? && k in old(cache) && old(cache)[k].identity == f.identity
              && C.SameContent(Prepare(k, f, now).value, old(cache)[k].bundle) ==>
        && nonces == old(nonces) && cache == old(cache)
        && (outcome(old(puts)) != Nowhere ==> Puts(State(), k) == Puts(old(State()), k) + [old(cache)[k].sealed])
    {
      var p := PrepareNode(k, f, now);
      if p.None? {
        return false;
      }
      var reuse := CanReuse(k, p.value, f.identity);
      if reuse {
        ok := PutSealed(k, cache[k].sealed, Sent(p.value, Pair(f.identity, controller)));
      } else {
        ok := SealAndPutNode(k, controller, p.value, f.identity);
      }
    }

    // Prepared is the bundle written out here, exactly if every interface is valid, the clock
    // is right and the sealed and encoded bundle fits a value; it reads back unchanged at every
    // agent.
    method PrepareNode(k: NodeKey, f: Files, now: int) returns (p: Option<Bundle>)
      ensures p == Prepare(k, f, now)
      ensures f.Broken? ==> p.None?
      ensures f.Files? ==>
        var b := Bundle(1, k.namespace, k.nodeID, now / 1_000_000_000, Some(f.wg), Some(f.stunmesh));
        p == if (forall name :: name in f.wg ==> ValidInterface(f.wg[name]))
                && 0 < now / 1_000_000_000 <= 9_007_199_254_740_991 && FitsValue(b) then Some(b) else None
      ensures p.Some? ==> forall w: Word :: C.ParseBundle(C.MarshalBundle(p.value), w) == C.Ok(p.value)
    {
      if Prepare(k, f, now).Some? {
        forall w: Word { C.WireRoundTrip(Prepare(k, f, now).value, k.namespace, k.nodeID, w); }
      }
      if f.Files? { FitsWhen(Assembled(k, f, now)); }
      if f.Broken? {
        return None;
      }
      var b := Assembled(k, f, now);
      var problem := Validate(b, k.namespace, k.nodeID);
      if problem.Some? || |C.MarshalBundle(b)| > MAX_INNER_BUNDLE_SIZE {
        return None;
      }
      p := Some(b);
    }

    // ----- one namespace -----

    method PublishEach(ns: string, controller: Secret, nodes: map<string, Files>, ids: seq<string>, now: int)
      requires Valid() && forall id :: id in ids ==> id in nodes
      modifies `cache, `dht, `nonces, `puts, `sent, `newest
      ensures Valid() && State() == PublishAll(outcome, old(State()), ns, controller, nodes, ids, now)
    {
      ghost var start := State();
      for n := 0 to |ids|
        invariant forall id :: id in ids[..n] ==> id in nodes
        invariant Valid() && State() == PublishAll(outcome, start, ns, controller, nodes, ids[..n], now)
      {
        assert ids[n] in ids && ids[..n + 1][..n] == ids[..n];
        var ok := PublishNodeCached(NodeKey(ns, ids[n]), controller, nodes[ids[n]], now);
      }
      assert ids[..|ids|] == ids;
    }

    method PublishNamespaceCached(ns: string, s: Space, now: int)
      requires Valid() && s.Deployment?
      modifies `cache, `dht, `nonces, `puts, `sent, `newest
      ensures Valid() && State() == PublishSpace(outcome, old(State()), ns, s, now)
    {
      if !s.nodes.Listed? || !s.hasBackend {
        return;
      }
      var ids := SortedKeys(s.nodes.nodes.Keys);
      PublishEach(ns, s.controller, s.nodes.nodes, ids, now);
    }

    // ----- one round -----

    method PruneCache(tree: Tree)
      requires Valid()
      modifies `cache
      ensures Valid() && State() == Prune(old(State()), tree)
      ensures forall k :: k in cache <==> k in old(cache) && k.namespace in tree
      ensures forall k :: k in cache ==> cache[k] == old(cache)[k]
    {
      cache := Pruned(cache, tree);
    }

    // Publish the namespace if it is due; its next turn either way.
    method Visit(ns: string, s: Space, now: int) returns (runsAt: int)
      requires Valid() && s.Deployment?
      modifies `cache, `dht, `nonces, `puts, `sent, `newest
      ensures Valid()
      ensures State() == if IsDue(due, now, ns) then PublishSpace(outcome, old(State()), ns, s, now) else old(State())
      ensures runsAt == RunsAt(due, now, ns, s.interval)
    {
      if ns !in due || due[ns] <= now {
        PublishNamespaceCached(ns, s, now);
        runsAt := now + s.interval;
      } else {
        runsAt := due[ns];
      }
    }

    // The pass over the namespaces, before the due times take effect.
    method VisitAll(tree: Tree, names: seq<string>, now: int)
      returns (nextDue: map<string, int>, wait: int, haveNodes: bool, anyEmpty: bool)
      requires Valid() && forall ns :: ns in names ==> ns in tree
      modifies `cache, `dht, `nonces, `puts, `sent, `newest
      ensures Valid() && State() == PublishSpaces(outcome, old(State()), due, tree, names, now)
      ensures Pass(nextDue, wait, haveNodes, anyEmpty) == PassOver(due, now, tree, names)
    {
      ghost var start := State();
      nextDue, wait, haveNodes, anyEmpty := map[], FALLBACK, false, false;
      for n := 0 to |names|
        invariant forall ns :: ns in names[..n] ==> ns in tree
        invariant Valid() && State() == PublishSpaces(outcome, start, due, tree, names[..n], now)
        invariant Pass(nextDue, wait, haveNodes, anyEmpty) == PassOver(due, now, tree, names[..n])
      {
        assert names[n] in names && names[..n + 1][..n] == names[..n];
        var ns := names[n];
        var s := tree[ns];
        if s.Malformed? {
          nextDue := nextDue[ns := now + FALLBACK];
          continue;
        }
        haveNodes := haveNodes || HasNodes(s);
        anyEmpty := anyEmpty || IsEmpty(s);
        var runsAt := Visit(ns, s, now);
        nextDue := nextDue[ns := runsAt];
        if runsAt - now < wait {
          wait := runsAt - now;
        }
      }
      assert names[..|names|] == names;
    }

    // One round.  nothing: the diagnostic that there is nothing to publish.
    method RunRound(tree: Tree, now: int) returns (wait: int, nothing: bool)
      requires Valid()
      modifies this
      ensures Valid() && State() == Round(outcome, old(State()), old(due), tree, now)
      ensures due == NextDue(old(due), now, PeriodsOf(tree))
      ensures wait == Wait(old(due), now, PeriodsOf(tree))
      ensures nothing <==> NothingToPublish(tree)
      ensures forall k :: k in cache ==> k.namespace in tree
      ensures forall k :: k in old(cache) && k.namespace in tree ==> k in cache
    {
      RoundPrunes(outcome, State(), due, tree, now);
      var names := SortedKeys(tree.Keys);
      var nextDue, haveNodes, anyEmpty;
      nextDue, wait, haveNodes, anyEmpty := VisitAll(tree, names, now);
      PassIs(due, now, tree);
      due := nextDue;
      PruneCache(tree);
      nothing := names == [] || (!haveNodes && anyEmpty);
      if wait < 0 {
        wait := 0;
      }
    }

    // ----- the loop -----

    // Round after round, until shutdown ends the sleep after the last of them.
    method Run(rounds: seq<Input>)
      requires Valid()
      modifies this
      ensures Valid() && Loop(State(), due) == AfterRounds(outcome, old(Loop(State(), due)), rounds)
    {
      ghost var start := Loop(State(), due);
      for n := 0 to |rounds|
        invariant Valid()
        invariant AfterRounds(outcome, start, rounds) == AfterRounds(outcome, Loop(State(), due), rounds[n..])
      {
        assert rounds[n..][1..] == rounds[n + 1..];
        var wait, nothing := RunRound(rounds[n].tree, rounds[n].now);
      }
    }
  }

  ghost predicate CacheValid(cache: map<NodeKey, Entry>) {
    forall k :: k in cache ==> Valid(cache[k].bundle, k.namespace, k.nodeID)
  }

  predicate ValidBundle(b: Bundle, k: NodeKey) { Valid(b, k.namespace, k.nodeID) }

  method Pruned(cache: map<NodeKey, Entry>, tree: Tree) returns (kept: map<NodeKey, Entry>)
    ensures kept == map k | k in cache && k.namespace in tree :: cache[k]
  {
    kept := cache;
    var todo := cache.Keys;
    while todo != {}
      invariant todo <= cache.Keys
      invariant forall k :: k in kept <==> k in cache && (k in todo || k.namespace in tree)
      invariant forall k :: k in kept ==> kept[k] == cache[k]
      decreases |todo|
    {
      var k :| k in todo;
      todo := todo - {k};
      if k.namespace !in tree {
        kept := kept - {k};
      }
    }
  }

  // A readable namespace with at least one node, or one whose node list cannot be read.
  predicate HasNodes(s: Space) { s.Deployment? && (s.nodes.Unlistable? || (s.nodes.Listed? && s.nodes.nodes != map[])) }

  predicate IsEmpty(s: Space) { s.Deployment? && !HasNodes(s) }

  // Readable, and no node in it: no directory of nodes, or an empty one.
  predicate Vacant(s: Space) { s != Malformed && (s.nodes == NoDirectory || s.nodes == Listed(map[])) }

  // No namespace at all, or none with nodes and at least one without.
  ghost predicate NothingToPublish(tree: Tree) {
    || tree == map[]
    || ((exists ns :: ns in tree && Vacant(tree[ns]))
        && forall ns :: ns in tree ==> tree[ns] == Malformed || Vacant(tree[ns]))
  }

  // What a round has worked out after some of the namespaces.
  datatype Pass = Pass(nextDue: map<string, int>, wait: int, haveNodes: bool, anyEmpty: bool)

  function PassOver(due: map<string, int>, now: int, tree: Tree, names: seq<string>): Pass
    requires forall ns :: ns in names ==> ns in tree
  {
    if names == [] then Pass(map[], FALLBACK, false, false)
    else
      var ns := names[|names| - 1];
      var p, s := PassOver(due, now, tree, names[..|names| - 1]), tree[ns];
      if s.Malformed? then p.(nextDue := p.nextDue[ns := now + FALLBACK])
      else
        var runsAt := RunsAt(due, now, ns, s.interval);
        Pass(p.nextDue[ns := runsAt], if runsAt - now < p.wait then runsAt - now else p.wait,
             p.haveNodes || HasNodes(s), p.anyEmpty || IsEmpty(s))
  }

  lemma {:induction false} PassDue(due: map<string, int>, now: int, tree: Tree, names: seq<string>)
    requires forall ns :: ns in names ==> ns in tree
    ensures var p := PassOver(due, now, tree, names);
      && (forall ns :: ns in p.nextDue <==> ns in names)
      && (forall ns :: ns in p.nextDue ==> ns in tree && p.nextDue[ns] == NextAt(due, now, PeriodsOf(tree), ns))
    decreases |names|
  {
    if names != [] {
      var ns, front := names[|names| - 1], names[..|names| - 1];
      assert names == front + [ns];
      PassDue(due, now, tree, front);
    }
  }

  lemma {:induction false} PassWait(due: map<string, int>, now: int, tree: Tree, names: seq<string>)
    requires forall ns :: ns in names ==> ns in tree
    ensures PassOver(due, now, tree, names).wait == WaitOver(due, now, PeriodsOf(tree), names)
    decreases |names|
  {
    if names != [] { PassWait(due, now, tree, names[..|names| - 1]); }
  }

  lemma {:induction false} PassNodes(due: map<string, int>, now: int, tree: Tree, names: seq<string>)
    requires forall ns :: ns in names ==> ns in tree
    ensures PassOver(due, now, tree, names).haveNodes <==> exists ns :: ns in names && HasNodes(tree[ns])
    ensures PassOver(due, now, tree, names).anyEmpty <==> exists ns :: ns in names && IsEmpty(tree[ns])
    decreases |names|
  {
    if names != [] {
      var ns, front := names[|names| - 1], names[..|names| - 1];
      assert forall x :: x in names <==> x in front || x == ns by { assert names == front + [ns]; }
      PassNodes(due, now, tree, front);
    }
  }

  lemma NothingIs(tree: Tree)
    ensures NothingToPublish(tree) <==>
      || tree == map[]
      || (!(exists ns :: ns in tree && HasNodes(tree[ns])) && exists ns :: ns in tree && IsEmpty(tree[ns]))
  {
    assert forall s: Space :: HasNodes(s) <==> s != Malformed && !Vacant(s);
    assert forall s: Space :: IsEmpty(s) <==> Vacant(s);
  }

  lemma PassIs(due: map<string, int>, now: int, tree: Tree)
    ensures var p, names := PassOver(due, now, tree, Sorted(tree.Keys)), Sorted(tree.Keys);
      && p.nextDue == NextDue(due, now, PeriodsOf(tree))
      && (if p.wait < 0 then 0 else p.wait) == Wait(due, now, PeriodsOf(tree))
      && (names == [] || (!p.haveNodes && p.anyEmpty) <==> NothingToPublish(tree))
  {
    var names := Sorted(tree.Keys);
    PassDue(due, now, tree, names);
    PassWait(due, now, tree, names);
    PassNodes(due, now, tree, names);
    NothingIs(tree);
    assert PeriodsOf(tree).Keys == tree.Keys;
    assert names == [] <==> tree == map[] by {
      if names != [] { assert names[0] in names; }
      if tree != map[] {
        var ns :| ns in tree;
        assert ns in names;
      }
    }
  }
}
