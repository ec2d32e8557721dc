/** Freshness through a proxy that hands out no more values than its client's cap. */
module ProxyFreshness {
  import opened Text
  import opened Bundle
  import opened Box
  import opened Schedule
  import opened Books
  import opened Rounds
  import opened Select
  import opened Freshness
  import opened SizeBound
  import D = DhtProxy
  import P = PutGet

  // The boxes that the stored bytes are.
  function Boxes(read: Bytes -> Value, raw: seq<Bytes>): (values: seq<Value>)
    ensures |values| == |raw| && forall n :: 0 <= n < |raw| ==> values[n] == read(raw[n])
  {
    seq(|raw|, n requires 0 <= n < |raw| => read(raw[n]))
  }

  // What a client makes of a response with one line for every stored value.
  function Fetched(c: D.Client, read: Bytes -> Value, raw: seq<Bytes>): seq<Value> {
    Boxes(read, D.ResultFor(c, D.Body(P.Body(raw), false)).values)
  }

  // The first values up to the cap.
  lemma FetchedAreFirst(c: D.Client, read: Bytes -> Value, raw: seq<Bytes>)
    requires c.decode == D.LineValue && P.AllStorable(c, raw)
    ensures Fetched(c, read, raw) == D.First(Boxes(read, raw), c.maxValues)
  {
    P.PutThenGet(c, raw);
  }

  lemma FirstReceived(values: seq<Value>, cap: nat, vs: seq<Value>, a: Asker)
    requires Received(values, vs, a)
    ensures Received(D.First(values, cap), vs, a)
  {
    forall v | v in D.First(values, cap) ensures v in values {
      var n :| 0 <= n < |D.First(values, cap)| && D.First(values, cap)[n] == v;
      assert values[n] == v;
    }
  }

  // Through the proxy, over any deliveries: the newest bundle for the asker is selected if and
  // only if a value of it is among the first up to the cap.
  lemma CappedSelectionIff(c: D.Client, read: Bytes -> Value, raw: seq<Bytes>, bk: Books, k: NodeKey,
                           controller: Secret, a: Asker, delivered: bool)
    requires c.decode == D.LineValue && P.AllStorable(c, raw)
    requires NodeFresh(bk, k, controller, delivered) && Asks(a, k) && SlotOf(k, a) in bk.newest
    requires Received(Boxes(read, raw), Puts(bk, k), a)
    ensures SelectsExactly(Fetched(c, read, raw), a, bk.newest[SlotOf(k, a)])
      <==> Reaches(D.First(Boxes(read, raw), c.maxValues), a, bk.newest[SlotOf(k, a)])
  {
    FetchedAreFirst(c, read, raw);
    FirstReceived(Boxes(read, raw), c.maxValues, Puts(bk, k), a);
    assert SlotOk(bk, k, PairOf(a));
    NewestSelectedIff(Puts(bk, k), k, bk.newest[SlotOf(k, a)], Fetched(c, read, raw), a);
  }

  // End to end through the proxy: with all puts delivered, the content of the files last
  // published is selected whenever the value put last is among the first up to the cap.
  lemma EndToEndThroughProxy(c: D.Client, read: Bytes -> Value, raw: seq<Bytes>, outcome: nat -> Delivery,
                             rounds: seq<Input>, ring: seq<Controllers>, k: NodeKey, a: Asker)
    requires c.decode == D.LineValue && P.AllStorable(c, raw)
    requires AllDelivered(outcome) && RunReady(outcome, Loop(NOTHING_YET, map[]), rounds) && Ring(rounds, ring)
    requires Asks(a, k) && Received(Boxes(read, raw), Puts(BooksAfter(outcome, rounds), k), a)
    requires GotLast(D.First(Boxes(read, raw), c.maxValues), Puts(BooksAfter(outcome, rounds), k))
    requires var s := LastSent(None, map[], rounds, k); s.Some? && s.value.pair == PairOf(a)
    ensures Selects(Fetched(c, read, raw), a, LastSent(None, map[], rounds, k).value.bundle)
  {
    FetchedAreFirst(c, read, raw);
    FirstReceived(Boxes(read, raw), c.maxValues, Puts(BooksAfter(outcome, rounds), k), a);
    EndToEnd(outcome, rounds, ring, k, Fetched(c, read, raw), a);
  }
}
