/** From an edit of a node's files to the bundle its agent selects. */
module Freshness {
  import opened Text
  import opened Bundle
  import opened CanonicalForm
  import opened Marshal
  import opened Box
  import opened Schedule
  import opened Books
  import opened Rounds
  import opened Select

  // ----- strictly increasing seconds -----

  // Every value ever put carries an earlier second than this.
  ghost predicate PutsBefore(bk: Books, time: int) { forall k: NodeKey :: AllOlder(Puts(bk, k), k, time) }

  lemma OlderLater(v: Value, k: NodeKey, time: int, later: int)
    requires Older(v, k, time) && time <= later
    ensures Older(v, k, later)
  {
    var e :| Valid(e, k.namespace, k.nodeID) && v.text == MarshalBundle(e) && e.timestamp < time;
  }

  lemma PutsBeforeLater(bk: Books, time: int, later: int)
    requires PutsBefore(bk, time) && time <= later
    ensures PutsBefore(bk, later)
  {
    forall k: NodeKey, v | v in Puts(bk, k) ensures Older(v, k, later) {
      assert AllOlder(Puts(bk, k), k, time);
      OlderLater(v, k, time, later);
    }
  }

  lemma ReadyBySecond(bk: Books, due: map<string, int>, tree: Tree, now: int)
    requires PutsBefore(bk, now / SECOND)
    ensures RoundReady(bk, due, tree, now)
  {
    forall ns, id | Turn(due, tree, ns, now) && tree[ns].nodes.Listed? && id in tree[ns].nodes.nodes
      ensures Ready(bk, NodeKey(ns, id), tree[ns].nodes.nodes[id], now)
    {
      assert AllOlder(Puts(bk, NodeKey(ns, id)), NodeKey(ns, id), now / SECOND);
    }
  }

  // What a put adds for its own node.
  lemma PublishAdds(outcome: nat -> Delivery, bk: Books, k: NodeKey, controller: Secret, f: Files, now: int, v: Value)
    requires v in Puts(PublishNode(outcome, bk, k, controller, f, now), k) && v !in Puts(bk, k)
    ensures Prepare(k, f, now).Some?
    ensures var b := Prepare(k, f, now).value;
      v == if Reusable(bk, k, b, f.identity) then bk.cache[k].sealed else SealFor(bk, b, f.identity, controller)
  {
  }

  lemma PublishBefore(outcome: nat -> Delivery, bk: Books, k: NodeKey, keys: Controllers, f: Files, now: int,
                      delivered: bool)
    requires AllFresh(bk, keys, delivered) && PutsBefore(bk, now / SECOND + 1)
    ensures PutsBefore(PublishNode(outcome, bk, k, keys(k.namespace), f, now), now / SECOND + 1)
  {
    var after := PublishNode(outcome, bk, k, keys(k.namespace), f, now);
    forall i: NodeKey, v | v in Puts(after, i) ensures Older(v, i, now / SECOND + 1) {
      assert AllOlder(Puts(bk, i), i, now / SECOND + 1);
      if i != k {
        PublishElsewhere(outcome, bk, k, keys(k.namespace), f, now, i);
      } else if v !in Puts(bk, k) {
        PublishAdds(outcome, bk, k, keys(k.namespace), f, now, v);
        AddedOlder(bk, k, keys, f, now, delivered);
      }
    }
  }

  lemma AddedOlder(bk: Books, k: NodeKey, keys: Controllers, f: Files, now: int, delivered: bool)
    requires AllFresh(bk, keys, delivered) && Prepare(k, f, now).Some? && PutsBefore(bk, now / SECOND + 1)
    ensures var b := Prepare(k, f, now).value;
      var anew := SealFor(bk, b, f.identity, keys(k.namespace));
      var v := if Reusable(bk, k, b, f.identity) then bk.cache[k].sealed else anew;
      Older(v, k, now / SECOND + 1)
  {
    var b := Prepare(k, f, now).value;
    if Reusable(bk, k, b, f.identity) {
      assert NodeFresh(bk, k, keys(k.namespace), delivered);
      assert bk.cache[k].sealed in Puts(bk, k);
      assert AllOlder(Puts(bk, k), k, now / SECOND + 1);
    }
  }

  // Fresh, and nothing put later than this round.
  ghost predicate Current(bk: Books, keys: Controllers, now: int, delivered: bool) {
    AllFresh(bk, keys, delivered) && PutsBefore(bk, now / SECOND + 1)
  }

  lemma {:induction false} NamespaceCurrent(outcome: nat -> Delivery, bk: Books, ns: string, keys: Controllers,
                                            nodes: map<string, Files>, ids: seq<string>, now: int, delivered: bool)
    requires (delivered ==> AllDelivered(outcome)) && Current(bk, keys, now, delivered)
    requires SpaceReady(bk, ns, nodes, now)
    requires (forall id :: id in ids ==> id in nodes) && forall i, j :: 0 <= i < j < |ids| ==> ids[i] != ids[j]
    ensures Current(PublishAll(outcome, bk, ns, keys(ns), nodes, ids, now), keys, now, delivered)
    decreases |ids|
  {
    NamespaceFresh(outcome, bk, ns, keys, nodes, ids, now, delivered);
    if ids != [] {
      var id, front := ids[|ids| - 1], ids[..|ids| - 1];
      NamespaceCurrent(outcome, bk, ns, keys, nodes, front, now, delivered);
      PublishBefore(outcome, PublishAll(outcome, bk, ns, keys(ns), nodes, front, now), NodeKey(ns, id), keys, nodes[id],
                    now, delivered);
    }
  }

  lemma {:induction false} SpacesCurrent(outcome: nat -> Delivery, bk: Books, due: map<string, int>, tree: Tree,
                                         keys: Controllers, names: seq<string>, now: int, delivered: bool)
    requires (delivered ==> AllDelivered(outcome)) && Current(bk, keys, now, delivered) && Keyed(tree, keys)
    requires RoundReady(bk, due, tree, now)
    requires (forall ns :: ns in names ==> ns in tree) && forall i, j :: 0 <= i < j < |names| ==> names[i] != names[j]
    ensures Current(PublishSpaces(outcome, bk, due, tree, names, now), keys, now, delivered)
    decreases |names|
  {
    if names != [] {
      var ns, front := names[|names| - 1], names[..|names| - 1];
      SpacesCurrent(outcome, bk, due, tree, keys, front, now, delivered);
      if Turn(due, tree, ns, now) && Sends(tree[ns]) {
        var nodes := tree[ns].nodes.nodes;
        StillReady(outcome, bk, due, tree, front, now, ns);
        IncreasingDistinct(Sorted(nodes.Keys));
        NamespaceCurrent(outcome, PublishSpaces(outcome, bk, due, tree, front, now), ns, keys, nodes,
                         Sorted(nodes.Keys), now, delivered);
      }
    }
  }

  lemma PruneCurrent(bk: Books, tree: Tree, keys: Controllers, now: int, delivered: bool)
    requires Current(bk, keys, now, delivered)
    ensures Current(Prune(bk, tree), keys, now, delivered)
  {
    PruneFresh(bk, tree, keys, delivered);
    forall k: NodeKey ensures AllOlder(Puts(Prune(bk, tree), k), k, now / SECOND + 1) {
      assert AllOlder(Puts(bk, k), k, now / SECOND + 1);
      assert Puts(Prune(bk, tree), k) == Puts(bk, k);
    }
  }

  lemma RoundCurrent(outcome: nat -> Delivery, bk: Books, due: map<string, int>, tree: Tree, keys: Controllers,
                     now: int, delivered: bool)
    requires (delivered ==> AllDelivered(outcome)) && AllFresh(bk, keys, delivered)
    requires PutsBefore(bk, now / SECOND) && Keyed(tree, keys)
    ensures Current(Round(outcome, bk, due, tree, now), keys, now, delivered)
  {
    PutsBeforeLater(bk, now / SECOND, now / SECOND + 1);
    ReadyBySecond(bk, due, tree, now);
    IncreasingDistinct(Sorted(tree.Keys));
    SpacesCurrent(outcome, bk, due, tree, keys, Sorted(tree.Keys), now, delivered);
    PruneCurrent(PublishSpaces(outcome, bk, due, tree, Sorted(tree.Keys), now), tree, keys, now, delivered);
  }

  // Each round starts in a later second than the round before.
  predicate LaterSeconds(rounds: seq<Input>) {
    |rounds| <= 1 || (rounds[0].now / SECOND < rounds[1].now / SECOND && LaterSeconds(rounds[1..]))
  }

  lemma {:induction false} RunCurrent(outcome: nat -> Delivery, l: Loop, rounds: seq<Input>, ring: seq<Controllers>,
                                      delivered: bool)
    requires (delivered ==> AllDelivered(outcome)) && LaterSeconds(rounds) && Ring(rounds, ring)
    requires rounds != [] ==> AllFresh(l.books, ring[0], delivered) && PutsBefore(l.books, rounds[0].now / SECOND)
    ensures RunReady(outcome, l, rounds)
    decreases |rounds|
  {
    if rounds != [] {
      var r := rounds[0];
      var after := AfterRound(outcome, l, r);
      RestOfRing(rounds, ring);
      ReadyBySecond(l.books, l.due, r.tree, r.now);
      RoundCurrent(outcome, l.books, l.due, r.tree, ring[0], r.now, delivered);
      if |rounds| > 1 {
        PutsBeforeLater(after.books, r.now / SECOND + 1, rounds[1].now / SECOND);
        RoundPrunes(outcome, l.books, l.due, r.tree, r.now);
        RekeyFresh(after.books, r.tree, ring[0], ring[1], delivered);
      }
      RunCurrent(outcome, after, rounds[1..], ring[1..], delivered);
    }
  }

  // ----- selection -----

  ghost predicate Asks(a: Asker, k: NodeKey) { a.namespace == k.namespace && a.nodeID == k.nodeID }

  // The keys that a value has to be sealed for if the asker is to open it.
  function PairOf(a: Asker): set<Public> { {a.sender, PublicOf(a.identity)} }

  // A sealed bundle is judged usable if and only if it was sealed for the asker's keys.
  lemma SealedJudged(v: Value, k: NodeKey, a: Asker, e: Bundle)
    requires Asks(a, k) && Valid(e, k.namespace, k.nodeID) && v.Sealed? && v.text == MarshalBundle(e)
    ensures Judge(v, a) == if v.shared == PairOf(a) then Usable(e) else Undecrypted
  {
    WireRoundTrip(e, k.namespace, k.nodeID, a.word);
  }

  lemma OlderJudged(v: Value, k: NodeKey, a: Asker, time: int)
    requires Asks(a, k) && Older(v, k, time)
    ensures Judge(v, a).Usable? ==> Judge(v, a).bundle.timestamp < time
  {
    var e :| Valid(e, k.namespace, k.nodeID) && v.text == MarshalBundle(e) && e.timestamp < time;
    SealedJudged(v, k, a, e);
  }

  // All that the agent can open are values put for this node, in any order, with any junk in
  // between.
  ghost predicate Received(values: seq<Value>, vs: seq<Value>, a: Asker) {
    forall v :: v in values ==> v in vs || Open(v, a.sender, a.identity).None?
  }

  // A value that seals this bundle for the asker is among them.
  ghost predicate Reaches(values: seq<Value>, a: Asker, e: Bundle) {
    exists v :: v in values && Carries(v, PairOf(a), e)
  }

  // Whatever the asker can use of its values is the newest bundle, or older.
  lemma UsableNotNewer(vs: seq<Value>, k: NodeKey, e: Bundle, a: Asker, v: Value)
    requires NewestIs(vs, k, PairOf(a), e) && Asks(a, k)
    requires v in vs || Open(v, a.sender, a.identity).None?
    ensures Judge(v, a).Usable? ==>
      (Judge(v, a) == Usable(e) && Carries(v, PairOf(a), e)) || Judge(v, a).bundle.timestamp < e.timestamp
  {
    if v in vs && v.shared == PairOf(a) {
      if Carries(v, PairOf(a), e) {
        SealedJudged(v, k, a, e);
      } else {
        OlderJudged(v, k, a, e.timestamp);
      }
    }
  }

  // Something is selected, and it has this content.
  ghost predicate Selects(values: seq<Value>, a: Asker, b: Bundle) {
    && (exists i :: UsableAt(values, a, i))
    && forall i :: IsBest(values, a, i) ==> SameContent(Judge(values[i], a).bundle, b)
  }

  // The bundle itself is selected, timestamp and all.
  ghost predicate SelectsExactly(values: seq<Value>, a: Asker, e: Bundle) {
    exists i :: IsBest(values, a, i) && Judge(values[i], a) == Usable(e)
  }

  lemma NewestIsBest(vs: seq<Value>, k: NodeKey, e: Bundle, values: seq<Value>, a: Asker, i: int)
    requires NewestIs(vs, k, PairOf(a), e) && Asks(a, k)
    requires Received(values, vs, a) && Reaches(values, a, e) && IsBest(values, a, i)
    ensures Judge(values[i], a) == Usable(e)
  {
    var v :| v in values && Carries(v, PairOf(a), e);
    SealedJudged(v, k, a, e);
    var j :| 0 <= j < |values| && values[j] == v;
    assert UsableAt(values, a, j);
    assert values[i] in values;
    UsableNotNewer(vs, k, e, a, values[i]);
  }

  lemma {:induction false} SelectedUpTo(values: seq<Value>, n: nat, a: Asker) returns (best: Option<Bundle>, at: int)
    requires n <= |values|
    ensures Selected(values[..n], a, best, at)
  {
    if n == 0 {
      best, at := None, -1;
      assert values[..0] == [];
    } else {
      best, at := SelectedUpTo(values, n - 1, a);
      best, at := SelectedOneMore(values, n - 1, a, best, at);
    }
  }

  lemma SelectedOneMore(values: seq<Value>, n: nat, a: Asker, best: Option<Bundle>, at: int)
    returns (best': Option<Bundle>, at': int)
    requires n < |values| && Selected(values[..n], a, best, at)
    ensures Selected(values[..n + 1], a, best', at')
  {
    SelectedNext(values, n, a, best, at);
    var v := Judge(values[n], a);
    if Better(v, best) { best', at' := Some(v.bundle), n; } else { best', at' := best, at; }
  }

  // If anything is usable, something is best.
  lemma BestExists(values: seq<Value>, a: Asker, i: int) returns (best: int)
    requires UsableAt(values, a, i)
    ensures IsBest(values, a, best)
  {
    var b, at := SelectedUpTo(values, |values|, a);
    assert values[..|values|] == values;
    best := at;
  }

  // The newest bundle of the asker is selected if and only if a value of it is received.
  lemma NewestSelectedIff(vs: seq<Value>, k: NodeKey, e: Bundle, values: seq<Value>, a: Asker)
    requires NewestIs(vs, k, PairOf(a), e) && Asks(a, k) && Received(values, vs, a)
    ensures SelectsExactly(values, a, e) <==> Reaches(values, a, e)
  {
    if Reaches(values, a, e) {
      var v :| v in values && Carries(v, PairOf(a), e);
      SealedJudged(v, k, a, e);
      var j :| 0 <= j < |values| && values[j] == v;
      var i := BestExists(values, a, j);
      NewestIsBest(vs, k, e, values, a, i);
    }
    if SelectsExactly(values, a, e) {
      var i :| IsBest(values, a, i) && Judge(values[i], a) == Usable(e);
      assert values[i] in values;
      UsableNotNewer(vs, k, e, a, values[i]);
    }
  }

  // And then a bundle has the content of the selection exactly if it has that of the newest.
  lemma SelectsNewestIff(vs: seq<Value>, k: NodeKey, e: Bundle, values: seq<Value>, a: Asker, b: Bundle)
    requires NewestIs(vs, k, PairOf(a), e) && Asks(a, k) && Received(values, vs, a) && Reaches(values, a, e)
    ensures Selects(values, a, b) <==> SameContent(e, b)
  {
    NewestSelectedIff(vs, k, e, values, a);
    var i :| IsBest(values, a, i) && Judge(values[i], a) == Usable(e);
    forall j | IsBest(values, a, j) ensures Judge(values[j], a) == Usable(e) {
      NewestIsBest(vs, k, e, values, a, j);
    }
  }

  // The bundle of the newest value for the asker.
  function SlotOf(k: NodeKey, a: Asker): Slot { Slot(k, PairOf(a)) }

  // The latest put of the node was for the asker's keys.
  ghost predicate SentTo(bk: Books, k: NodeKey, a: Asker) { k in bk.sent && bk.sent[k].pair == PairOf(a) }

  // Over any deliveries: what is selected has the content sent last if and only if no value
  // with other content was sealed for the asker, and reached some proxy, after the one put last.
  lemma SelectedIsLatestIff(bk: Books, k: NodeKey, controller: Secret, values: seq<Value>, a: Asker, delivered: bool)
    requires NodeFresh(bk, k, controller, delivered) && Asks(a, k)
    requires Received(values, Puts(bk, k), a) && SentTo(bk, k, a)
    ensures SlotOf(k, a) in bk.newest
    ensures Reaches(values, a, bk.newest[SlotOf(k, a)]) ==>
      (Selects(values, a, bk.sent[k].bundle) <==> SameContent(bk.newest[SlotOf(k, a)], bk.sent[k].bundle))
  {
    assert SlotOk(bk, k, PairOf(a));
    var e := bk.newest[SlotOf(k, a)];
    if Reaches(values, a, e) { SelectsNewestIff(Puts(bk, k), k, e, values, a, bk.sent[k].bundle); }
  }

  // ----- a stale value put again -----

  lemma AllReach(vs: seq<Value>, k: NodeKey, e: Bundle, a: Asker, b: Bundle)
    requires NewestIs(vs, k, PairOf(a), e) && Asks(a, k)
    ensures Selects(vs, a, b) <==> SameContent(e, b)
  {
    assert Reaches(vs, a, e);
    SelectsNewestIff(vs, k, e, vs, a, b);
  }

  // The edit to new content is sealed and reaches only some proxies, so it is not cached.
  lemma EditNotCached(outcome: nat -> Delivery, bk: Books, k: NodeKey, controller: Secret, f: Files, now: int)
    requires NodeFresh(bk, k, controller, false) && Ready(bk, k, f, now) && Prepare(k, f, now).Some?
    requires !Reusable(bk, k, Prepare(k, f, now).value, f.identity) && outcome(bk.puts) == Somewhere
    ensures var after := PublishNode(outcome, bk, k, controller, f, now);
      && NodeFresh(after, k, controller, false) && after.cache == bk.cache && after.puts == bk.puts + 1
      && after.newest == bk.newest[Slot(k, Pair(f.identity, controller)) := Prepare(k, f, now).value]
  {
    PublishFresh(outcome, bk, k, controller, f, now, false);
  }

  // The edit back to the cached content puts the older value again.
  lemma BackIsReput(outcome: nat -> Delivery, bk: Books, k: NodeKey, controller: Secret, f: Files, now: int)
    requires NodeFresh(bk, k, controller, false) && Prepare(k, f, now).Some?
    requires Reusable(bk, k, Prepare(k, f, now).value, f.identity) && outcome(bk.puts) != Nowhere
    ensures var after := PublishNode(outcome, bk, k, controller, f, now);
      && NodeFresh(after, k, controller, false) && after.newest == bk.newest
      && k in after.sent && after.sent[k] == Sent(Prepare(k, f, now).value, Pair(f.identity, controller))
  {
    PublishFresh(outcome, bk, k, controller, f, now, false);
  }

  // Content is cached; an edit away from it reaches only some proxies; the edit is undone.  The
  // asker goes on selecting the edit, from all values ever put.
  lemma StaleAfterUndo(outcome: nat -> Delivery, bk: Books, k: NodeKey, controller: Secret, edited: Files,
                       editedAt: int, undone: Files, now: int, a: Asker)
    requires NodeFresh(bk, k, controller, false) && Asks(a, k) && a.sender == PublicOf(controller)
    requires Prepare(k, edited, editedAt).Some? && Prepare(k, undone, now).Some?
    requires edited.identity == PublicOf(a.identity) && undone.identity == PublicOf(a.identity)
    requires !SameContent(Prepare(k, edited, editedAt).value, Prepare(k, undone, now).value)
    requires Reusable(bk, k, Prepare(k, undone, now).value, undone.identity)
    requires Ready(bk, k, edited, editedAt)
    requires outcome(bk.puts) == Somewhere && outcome(bk.puts + 1) != Nowhere
    ensures var after := PublishNode(outcome, PublishNode(outcome, bk, k, controller, edited, editedAt), k, controller,
                                     undone, now);
      && k in after.sent && after.sent[k].bundle == Prepare(k, undone, now).value
      && !Selects(Puts(after, k), a, after.sent[k].bundle)
      && Selects(Puts(after, k), a, Prepare(k, edited, editedAt).value)
  {
    var mid := PublishNode(outcome, bk, k, controller, edited, editedAt);
    EditNotCached(outcome, bk, k, controller, edited, editedAt);
    BackIsReput(outcome, mid, k, controller, undone, now);
    var after := PublishNode(outcome, mid, k, controller, undone, now);
    var e := Prepare(k, edited, editedAt).value;
    assert Pair(edited.identity, controller) == PairOf(a);
    assert SlotOk(after, k, PairOf(a));
    AllReach(Puts(after, k), k, e, a, e);
    AllReach(Puts(after, k), k, e, a, Prepare(k, undone, now).value);
  }

  // ----- the value put last -----

  // The value put last is among them.
  ghost predicate GotLast(values: seq<Value>, vs: seq<Value>) { vs != [] ==> LastOf(vs) in values }

  // With all puts delivered: if the latest put was for the asker, what it selects has the
  // content of that put's bundle.
  lemma SelectedIsLatest(bk: Books, k: NodeKey, controller: Secret, values: seq<Value>, a: Asker)
    requires NodeFresh(bk, k, controller, true) && Asks(a, k)
    requires Received(values, Puts(bk, k), a) && GotLast(values, Puts(bk, k)) && SentTo(bk, k, a)
    ensures Selects(values, a, bk.sent[k].bundle)
  {
    SelectedIsLatestIff(bk, k, controller, values, a, true);
  }

  // ----- what was sent last -----

  function SentOf(bk: Books, k: NodeKey): Option<Sent> { if k in bk.sent then Some(bk.sent[k]) else None }

  // After a round in which the node has these files and its namespace this controller key.
  function SentFor(before: Option<Sent>, k: NodeKey, controller: Secret, f: Files, now: int): Option<Sent> {
    var p := Prepare(k, f, now);
    if p.Some? then Some(Sent(p.value, Pair(f.identity, controller))) else before
  }

  lemma NodeSends(outcome: nat -> Delivery, bk: Books, k: NodeKey, controller: Secret, f: Files, now: int)
    requires AllDelivered(outcome)
    ensures SentOf(PublishNode(outcome, bk, k, controller, f, now), k) == SentFor(SentOf(bk, k), k, controller, f, now)
  {
  }

  lemma {:induction false} NamespaceSends(outcome: nat -> Delivery, bk: Books, ns: string, controller: Secret,
                                          nodes: map<string, Files>, ids: seq<string>, now: int, id: string)
    requires AllDelivered(outcome) && (forall i :: i in ids ==> i in nodes) && id in ids
    requires forall i, j :: 0 <= i < j < |ids| ==> ids[i] != ids[j]
    ensures SentOf(PublishAll(outcome, bk, ns, controller, nodes, ids, now), NodeKey(ns, id))
         == SentFor(SentOf(bk, NodeKey(ns, id)), NodeKey(ns, id), controller, nodes[id], now)
    decreases |ids|
  {
    var last, front := ids[|ids| - 1], ids[..|ids| - 1];
    var before := PublishAll(outcome, bk, ns, controller, nodes, front, now);
    if last != id {
      assert ids == front + [last];
      NamespaceSends(outcome, bk, ns, controller, nodes, front, now, id);
      PublishElsewhere(outcome, before, NodeKey(ns, last), controller, nodes[last], now, NodeKey(ns, id));
    } else {
      AllElsewhere(outcome, bk, ns, controller, nodes, front, now, NodeKey(ns, id));
      NodeSends(outcome, before, NodeKey(ns, id), controller, nodes[id], now);
    }
  }

  // The files that this round reads for the node, if its turn has come and it is put at all.
  function FilesOf(due: map<string, int>, i: Input, k: NodeKey): Files {
    if Turn(due, i.tree, k.namespace, i.now) && Sends(i.tree[k.namespace])
       && k.nodeID in i.tree[k.namespace].nodes.nodes
    then i.tree[k.namespace].nodes.nodes[k.nodeID] else Broken
  }

  // The controller key of the node's namespace, if it can be read.
  function KeyOf(tree: Tree, k: NodeKey): Secret {
    if k.namespace in tree && tree[k.namespace].Deployment? then tree[k.namespace].controller else 0
  }

  // After a round.
  function SentIn(before: Option<Sent>, due: map<string, int>, i: Input, k: NodeKey): Option<Sent> {
    SentFor(before, k, KeyOf(i.tree, k), FilesOf(due, i, k), i.now)
  }

  lemma SpaceSends(outcome: nat -> Delivery, bk: Books, ns: string, s: Space, now: int, k: NodeKey)
    requires AllDelivered(outcome) && s.Deployment? && k.namespace == ns
    ensures var f := if Sends(s) && k.nodeID in s.nodes.nodes then s.nodes.nodes[k.nodeID] else Broken;
      SentOf(PublishSpace(outcome, bk, ns, s, now), k) == SentFor(SentOf(bk, k), k, s.controller, f, now)
  {
    if Sends(s) {
      var nodes := s.nodes.nodes;
      IncreasingDistinct(Sorted(nodes.Keys));
      if k.nodeID in nodes {
        NamespaceSends(outcome, bk, ns, s.controller, nodes, Sorted(nodes.Keys), now, k.nodeID);
      } else {
        AllElsewhere(outcome, bk, ns, s.controller, nodes, Sorted(nodes.Keys), now, k);
      }
    }
  }

  lemma {:induction false} SpacesSend(outcome: nat -> Delivery, bk: Books, due: map<string, int>, i: Input,
                                      names: seq<string>, k: NodeKey)
    requires AllDelivered(outcome) && (forall ns :: ns in names ==> ns in i.tree) && k.namespace in names
    requires forall m, n :: 0 <= m < n < |names| ==> names[m] != names[n]
    ensures SentOf(PublishSpaces(outcome, bk, due, i.tree, names, i.now), k)
      == SentIn(SentOf(bk, k), due, i, k)
    decreases |names|
  {
    var last, front := names[|names| - 1], names[..|names| - 1];
    var before := PublishSpaces(outcome, bk, due, i.tree, front, i.now);
    if last != k.namespace {
      assert names == front + [last];
      SpacesSend(outcome, bk, due, i, front, k);
      if Turn(due, i.tree, last, i.now) { SpaceElsewhere(outcome, before, last, i.tree[last], i.now, k); }
    } else {
      SpacesElsewhere(outcome, bk, due, i.tree, front, i.now, k);
      if Turn(due, i.tree, last, i.now) { SpaceSends(outcome, before, last, i.tree[last], i.now, k); }
    }
  }

  // The latest put of a node is for the files it had in the last round that could publish it.
  lemma RoundSends(outcome: nat -> Delivery, bk: Books, due: map<string, int>, i: Input, k: NodeKey)
    requires AllDelivered(outcome)
    ensures SentOf(Round(outcome, bk, due, i.tree, i.now), k) == SentIn(SentOf(bk, k), due, i, k)
  {
    IncreasingDistinct(Sorted(i.tree.Keys));
    if k.namespace in i.tree {
      SpacesSend(outcome, bk, due, i, Sorted(i.tree.Keys), k);
    } else {
      SpacesElsewhere(outcome, bk, due, i.tree, Sorted(i.tree.Keys), i.now, k);
    }
  }

  // The same over rounds, told from the trees and the due times alone.
  function LastSent(before: Option<Sent>, due: map<string, int>, rounds: seq<Input>, k: NodeKey): Option<Sent>
    decreases |rounds|
  {
    if rounds == [] then before
    else
      var i := rounds[0];
      LastSent(SentIn(before, due, i, k), NextDue(due, i.now, PeriodsOf(i.tree)), rounds[1..], k)
  }

  lemma {:induction false} RunSends(outcome: nat -> Delivery, l: Loop, rounds: seq<Input>, k: NodeKey)
    requires AllDelivered(outcome)
    ensures SentOf(AfterRounds(outcome, l, rounds).books, k) == LastSent(SentOf(l.books, k), l.due, rounds, k)
    decreases |rounds|
  {
    if rounds != [] {
      RoundSends(outcome, l.books, l.due, rounds[0], k);
      RunSends(outcome, AfterRound(outcome, l, rounds[0]), rounds[1..], k);
    }
  }

  // ----- end to end -----

  const NOTHING_YET := Books(map[], map[], map[], map[], 0, 0)

  function BooksAfter(outcome: nat -> Delivery, rounds: seq<Input>): Books {
    AfterRounds(outcome, Loop(NOTHING_YET, map[]), rounds).books
  }

  lemma NothingFresh(keys: Controllers, delivered: bool)
    ensures AllFresh(NOTHING_YET, keys, delivered)
  {
  }

  // What is known of a node after rounds from nothing.
  lemma NodeAfter(outcome: nat -> Delivery, rounds: seq<Input>, ring: seq<Controllers>, k: NodeKey, delivered: bool)
    requires (delivered ==> AllDelivered(outcome)) && RunReady(outcome, Loop(NOTHING_YET, map[]), rounds)
    requires Ring(rounds, ring) && rounds != []
    ensures NodeFresh(BooksAfter(outcome, rounds), k, ring[|ring| - 1](k.namespace), delivered)
  {
    var start := Loop(NOTHING_YET, map[]);
    NothingFresh(ring[0], delivered);
    RunFresh(outcome, start, rounds, ring, delivered);
    FreshAt(AfterRounds(outcome, start, rounds).books, ring[|ring| - 1], k, delivered);
  }

  lemma FreshAt(bk: Books, keys: Controllers, k: NodeKey, delivered: bool)
    requires AllFresh(bk, keys, delivered)
    ensures NodeFresh(bk, k, keys(k.namespace), delivered)
  {
  }

  lemma SentAfter(outcome: nat -> Delivery, rounds: seq<Input>, k: NodeKey)
    requires AllDelivered(outcome) && LastSent(None, map[], rounds, k).Some?
    ensures rounds != [] && k in BooksAfter(outcome, rounds).sent
    ensures BooksAfter(outcome, rounds).sent[k] == LastSent(None, map[], rounds, k).value
  {
    RunSends(outcome, Loop(NOTHING_YET, map[]), rounds, k);
  }

  // With all puts delivered and a later second whenever a node is sealed anew, after any rounds
  // over any edits of the tree, the controller key of a namespace changing only while it is out
  // of the tree: if the latest put of a node was for the asker's keys, then what the asker
  // selects -- from all the values ever put for the node, in any order and mixed with junk -- has
  // the content of the files last published.
  lemma EndToEnd(outcome: nat -> Delivery, rounds: seq<Input>, ring: seq<Controllers>, k: NodeKey, values: seq<Value>,
                 a: Asker)
    requires AllDelivered(outcome) && RunReady(outcome, Loop(NOTHING_YET, map[]), rounds) && Ring(rounds, ring)
    requires Asks(a, k)
    requires var vs := Puts(BooksAfter(outcome, rounds), k); Received(values, vs, a) && GotLast(values, vs)
    requires var s := LastSent(None, map[], rounds, k); s.Some? && s.value.pair == PairOf(a)
    ensures Selects(values, a, LastSent(None, map[], rounds, k).value.bundle)
  {
    SentAfter(outcome, rounds, k);
    NodeAfter(outcome, rounds, ring, k, true);
    SelectedIsLatest(BooksAfter(outcome, rounds), k, ring[|ring| - 1](k.namespace), values, a);
  }

  // The newest value for the asker is among these.
  ghost predicate GotNewest(values: seq<Value>, bk: Books, k: NodeKey, a: Asker) {
    SlotOf(k, a) in bk.newest ==> Reaches(values, a, bk.newest[SlotOf(k, a)])
  }

  // The same without any assumption on deliveries, exactly: what the asker selects has the
  // content put last if and only if the newest value that was sealed for it and reached some
  // proxy has that content.
  lemma EndToEndIff(outcome: nat -> Delivery, rounds: seq<Input>, ring: seq<Controllers>, k: NodeKey,
                    values: seq<Value>, a: Asker)
    requires RunReady(outcome, Loop(NOTHING_YET, map[]), rounds) && Ring(rounds, ring) && Asks(a, k)
    requires SentTo(BooksAfter(outcome, rounds), k, a) && Received(values, Puts(BooksAfter(outcome, rounds), k), a)
    requires GotNewest(values, BooksAfter(outcome, rounds), k, a)
    ensures var bk := BooksAfter(outcome, rounds);
      && SlotOf(k, a) in bk.newest
      && (Selects(values, a, bk.sent[k].bundle) <==> SameContent(bk.newest[SlotOf(k, a)], bk.sent[k].bundle))
  {
    NodeAfter(outcome, rounds, ring, k, false);
    SelectedIsLatestIff(BooksAfter(outcome, rounds), k, ring[|ring| - 1](k.namespace), values, a, false);
  }

  // A later second for every round is more than enough.
  lemma LaterSecondsSuffice(outcome: nat -> Delivery, rounds: seq<Input>, ring: seq<Controllers>)
    requires LaterSeconds(rounds) && Ring(rounds, ring)
    ensures RunReady(outcome, Loop(NOTHING_YET, map[]), rounds)
  {
    RunCurrent(outcome, Loop(NOTHING_YET, map[]), rounds, ring, false);
  }

  lemma {:induction false} LastSentAppend(before: Option<Sent>, due: map<string, int>, rounds: seq<Input>, i: Input,
                                          k: NodeKey)
    ensures LastSent(before, due, rounds + [i], k)
         == SentIn(LastSent(before, due, rounds, k), DueAfter(due, rounds), i, k)
    decreases |rounds|
  {
    if rounds == [] {
      assert [] + [i] == [i];
    } else {
      assert (rounds + [i])[1..] == rounds[1..] + [i];
      LastSentAppend(SentIn(before, due, rounds[0], k), NextDue(due, rounds[0].now, PeriodsOf(rounds[0].tree)),
                     rounds[1..], i, k);
    }
  }

  function DueAfter(due: map<string, int>, rounds: seq<Input>): map<string, int>
    decreases |rounds|
  {
    if rounds == [] then due else DueAfter(NextDue(due, rounds[0].now, PeriodsOf(rounds[0].tree)), rounds[1..])
  }

  // After a round that publishes the node with files f, its agent selects the content of f.
  lemma PublishedIsSelected(outcome: nat -> Delivery, rounds: seq<Input>, i: Input, ring: seq<Controllers>, k: NodeKey,
                            values: seq<Value>, a: Asker)
    requires AllDelivered(outcome) && RunReady(outcome, Loop(NOTHING_YET, map[]), rounds + [i])
    requires Ring(rounds + [i], ring) && Asks(a, k)
    requires var vs := Puts(BooksAfter(outcome, rounds + [i]), k); Received(values, vs, a) && GotLast(values, vs)
    requires var f := FilesOf(DueAfter(map[], rounds), i, k);
      Prepare(k, f, i.now).Some? && {f.identity, PublicOf(KeyOf(i.tree, k))} == {PublicOf(a.identity), a.sender}
    ensures Selects(values, a, Prepare(k, FilesOf(DueAfter(map[], rounds), i, k), i.now).value)
  {
    LastSentAppend(None, map[], rounds, i, k);
    EndToEnd(outcome, rounds + [i], ring, k, values, a);
  }

  // ----- from the node's directory to its agent -----

  lemma PreparedAs(k: NodeKey, f: Files, now: int)
    requires f.Files? && (forall name :: name in f.wg ==> ValidInterface(f.wg[name]))
    requires 0 < now / 1_000_000_000 <= 9_007_199_254_740_991
    requires FitsValue(Bundle(1, k.namespace, k.nodeID, now / 1_000_000_000, Some(f.wg), Some(f.stunmesh)))
    ensures Prepare(k, f, now) ==
      Some(Bundle(1, k.namespace, k.nodeID, now / 1_000_000_000, Some(f.wg), Some(f.stunmesh)))
  {
    FitsWhen(Bundle(1, k.namespace, k.nodeID, now / 1_000_000_000, Some(f.wg), Some(f.stunmesh)));
  }

  lemma FilesServed(due: map<string, int>, i: Input, k: NodeKey)
    requires k.namespace in i.tree && i.tree[k.namespace].Deployment?
    requires k.namespace !in due || due[k.namespace] <= i.now
    requires var s := i.tree[k.namespace]; s.hasBackend && s.nodes.Listed? && k.nodeID in s.nodes.nodes
    ensures FilesOf(due, i, k) == i.tree[k.namespace].nodes.nodes[k.nodeID]
    ensures KeyOf(i.tree, k) == i.tree[k.namespace].controller
  {
  }

  // A readable namespace whose turn has come serves every node whose files make a valid bundle
  // that fits a value: after a round in which all puts were delivered, its agent selects the
  // bundle written out here, whatever the rounds before.
  lemma NodeServed(outcome: nat -> Delivery, rounds: seq<Input>, i: Input, ring: seq<Controllers>, k: NodeKey,
                   f: Files, values: seq<Value>, a: Asker)
    requires AllDelivered(outcome) && RunReady(outcome, Loop(NOTHING_YET, map[]), rounds + [i])
    requires Ring(rounds + [i], ring) && Asks(a, k)
    requires k.namespace in i.tree && i.tree[k.namespace].Deployment?
    requires var at := DueAfter(map[], rounds); k.namespace !in at || at[k.namespace] <= i.now
    requires var s := i.tree[k.namespace];
      && s.hasBackend && s.nodes.Listed? && k.nodeID in s.nodes.nodes && s.nodes.nodes[k.nodeID] == f
      && a.sender == PublicOf(s.controller)
    requires f.Files? && f.identity == PublicOf(a.identity)
    requires (forall name :: name in f.wg ==> ValidInterface(f.wg[name]))
    requires 0 < i.now / 1_000_000_000 <= 9_007_199_254_740_991
    requires FitsValue(Bundle(1, k.namespace, k.nodeID, i.now / 1_000_000_000, Some(f.wg), Some(f.stunmesh)))
    requires var vs := Puts(BooksAfter(outcome, rounds + [i]), k); Received(values, vs, a) && GotLast(values, vs)
    ensures Selects(values, a, Bundle(1, k.namespace, k.nodeID, i.now / 1_000_000_000, Some(f.wg), Some(f.stunmesh)))
  {
    PreparedAs(k, f, i.now);
    FilesServed(DueAfter(map[], rounds), i, k);
    PublishedIsSelected(outcome, rounds, i, ring, k, values, a);
  }
}
