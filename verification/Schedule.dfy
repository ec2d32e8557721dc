/** When the republish loop publishes which namespace.

    Time is in nanoseconds.  Main results: every wait is positive and at most the fallback
    interval; consecutive publishes of a namespace are at least its interval apart; and when
    sleeping is exact they fall exactly on start + k * interval, whatever else is in the tree.
  */
module Schedule {
  import opened Text

  const SECOND := 1_000_000_000
  const FALLBACK := 300 * SECOND

  // A namespace whose provd.yaml cannot be read, or the positive interval it asks for.
  datatype Period = Unreadable | Every(interval: int)

  type Periods = map<string, Period>

  predicate Positive(tree: Periods) { forall n :: n in tree && tree[n].Every? ==> tree[n].interval > 0 }

  predicate IsDue(due: map<string, int>, now: int, n: string) { n !in due || due[n] <= now }

  // Published this round.
  predicate Publishes(due: map<string, int>, now: int, tree: Periods, n: string) {
    n in tree && tree[n].Every? && IsDue(due, now, n)
  }

  function RunsAt(due: map<string, int>, now: int, n: string, interval: int): int {
    if IsDue(due, now, n) then now + interval else due[n]
  }

  function NextAt(due: map<string, int>, now: int, tree: Periods, n: string): int
    requires n in tree
  {
    match tree[n]
    case Unreadable => now + FALLBACK
    case Every(interval) => RunsAt(due, now, n, interval)
  }

  function NextDue(due: map<string, int>, now: int, tree: Periods): map<string, int> {
    map n | n in tree :: NextAt(due, now, tree, n)
  }

  function Min(a: int, b: int): int { if a < b then a else b }

  // What is left of the wait after the namespaces seen so far.
  function WaitOver(due: map<string, int>, now: int, tree: Periods, names: seq<string>): int
    requires forall n :: n in names ==> n in tree
  {
    if names == [] then FALLBACK
    else
      var n := names[|names| - 1];
      var wait := WaitOver(due, now, tree, names[..|names| - 1]);
      if tree[n].Every? then Min(wait, NextAt(due, now, tree, n) - now) else wait
  }

  // wait, after it is clamped at zero.
  function Wait(due: map<string, int>, now: int, tree: Periods): int {
    var wait := WaitOver(due, now, tree, Sorted(tree.Keys));
    if wait < 0 then 0 else wait
  }

  // ----- no spin -----

  lemma {:induction false} WaitOverBounds(due: map<string, int>, now: int, tree: Periods, names: seq<string>)
    requires Positive(tree) && forall n :: n in names ==> n in tree
    ensures var wait := WaitOver(due, now, tree, names);
      && 0 < wait <= FALLBACK
      && (forall n :: n in names && tree[n].Every? ==> now + wait <= NextAt(due, now, tree, n))
      && (wait == FALLBACK || exists n :: n in names && tree[n].Every? && now + wait == NextAt(due, now, tree, n))
  {
    if names != [] {
      var n, front := names[|names| - 1], names[..|names| - 1];
      assert names == front + [n];
      assert n in names;
      WaitOverBounds(due, now, tree, front);
      var before, wait := WaitOver(due, now, tree, front), WaitOver(due, now, tree, names);
      assert tree[n].Every? ==> NextAt(due, now, tree, n) > now;
      if wait != FALLBACK && !(tree[n].Every? && now + wait == NextAt(due, now, tree, n)) {
        assert wait == before;
        var m :| m in front && tree[m].Every? && now + wait == NextAt(due, now, tree, m);
        assert m in names;
      }
    }
  }

  // The loop never spins and never oversleeps: it wakes at the earliest due time of a readable
  // namespace, and after the fallback interval at the latest.
  lemma WaitBounds(due: map<string, int>, now: int, tree: Periods)
    requires Positive(tree)
    ensures 0 < Wait(due, now, tree) <= FALLBACK
    ensures forall n :: n in tree && tree[n].Every? ==> now + Wait(due, now, tree) <= NextDue(due, now, tree)[n]
    ensures Wait(due, now, tree) == FALLBACK
      || exists n :: n in tree && tree[n].Every? && now + Wait(due, now, tree) == NextDue(due, now, tree)[n]
  {
    WaitOverBounds(due, now, tree, Sorted(tree.Keys));
    var wait := Wait(due, now, tree);
    if wait != FALLBACK {
      var n :| n in Sorted(tree.Keys) && tree[n].Every? && now + wait == NextAt(due, now, tree, n);
      assert n in tree && now + wait == NextDue(due, now, tree)[n];
    }
  }

  // ----- runs -----

  datatype Wakeup = Wakeup(now: int, tree: Periods)

  // When namespace n is published.
  function PublishTimes(due: map<string, int>, rounds: seq<Wakeup>, n: string): seq<int>
    decreases |rounds|
  {
    if rounds == [] then []
    else
      var r := rounds[0];
      (if Publishes(due, r.now, r.tree, n) then [r.now] else [])
      + PublishTimes(NextDue(due, r.now, r.tree), rounds[1..], n)
  }

  predicate ReadableIn(r: Wakeup, n: string) { n in r.tree && r.tree[n].Every? && r.tree[n].interval > 0 }

  predicate AlwaysReadable(rounds: seq<Wakeup>, n: string) {
    rounds == [] || (ReadableIn(rounds[0], n) && AlwaysReadable(rounds[1..], n))
  }

  // Every interval in force for n is at least this long.
  predicate IntervalsFrom(rounds: seq<Wakeup>, n: string, low: int) {
    rounds == [] ||
    (&& (n in rounds[0].tree && rounds[0].tree[n].Every? ==> rounds[0].tree[n].interval >= low)
     && IntervalsFrom(rounds[1..], n, low))
  }

  // The first publish falls in the first of the rounds that starts at this time or later; if none
  // does, there is no publish.
  predicate FirstFrom(times: seq<int>, rounds: seq<Wakeup>, at: int) {
    if rounds == [] then times == []
    else if rounds[0].now >= at then times != [] && times[0] == rounds[0].now
    else FirstFrom(times, rounds[1..], at)
  }

  // Once due at some time, a readable namespace is published then, and not before.
  lemma {:induction false} PublishedWhenDue(due: map<string, int>, rounds: seq<Wakeup>, n: string)
    requires AlwaysReadable(rounds, n) && n in due
    ensures FirstFrom(PublishTimes(due, rounds, n), rounds, due[n])
    decreases |rounds|
  {
    if rounds != [] {
      var r := rounds[0];
      var later := PublishTimes(NextDue(due, r.now, r.tree), rounds[1..], n);
      if Publishes(due, r.now, r.tree, n) {
        assert PublishTimes(due, rounds, n) == [r.now] + later;
      } else {
        PublishedWhenDue(NextDue(due, r.now, r.tree), rounds[1..], n);
        assert PublishTimes(due, rounds, n) == later;
      }
    }
  }

  lemma {:induction false} FirstNotBefore(times: seq<int>, rounds: seq<Wakeup>, at: int)
    requires FirstFrom(times, rounds, at) && times != []
    ensures times[0] >= at
    decreases |rounds|
  {
    if rounds != [] && rounds[0].now < at { FirstNotBefore(times, rounds[1..], at); }
  }

  // The interval in force at a round decides when the next publish comes: in the first round
  // that is at least that interval later.
  lemma NextPublishSpaced(due: map<string, int>, r: Wakeup, rest: seq<Wakeup>, n: string)
    requires AlwaysReadable([r] + rest, n) && Publishes(due, r.now, r.tree, n)
    ensures var times := PublishTimes(NextDue(due, r.now, r.tree), rest, n);
      && FirstFrom(times, rest, r.now + r.tree[n].interval)
      && (times != [] ==> times[0] >= r.now + r.tree[n].interval)
  {
    assert ([r] + rest)[1..] == rest;
    var next := NextDue(due, r.now, r.tree);
    PublishedWhenDue(next, rest, n);
    if PublishTimes(next, rest, n) != [] { FirstNotBefore(PublishTimes(next, rest, n), rest, next[n]); }
  }

  // A namespace that could not be read in one round and can be from then on is published in the
  // first round that starts five minutes later or more.
  lemma RepairedIsPublished(due: map<string, int>, r: Wakeup, rest: seq<Wakeup>, n: string)
    requires n in r.tree && r.tree[n].Unreadable? && AlwaysReadable(rest, n)
    ensures !Publishes(due, r.now, r.tree, n)
    ensures FirstFrom(PublishTimes(NextDue(due, r.now, r.tree), rest, n), rest, r.now + 5 * 60 * 1_000_000_000)
  {
    PublishedWhenDue(NextDue(due, r.now, r.tree), rest, n);
  }

  // One that is seen for the first time, or again after a round without it, is published at once.
  lemma NewIsPublished(due: map<string, int>, without: Wakeup, r: Wakeup, n: string)
    requires n !in without.tree && ReadableIn(r, n)
    ensures Publishes(NextDue(due, without.now, without.tree), r.now, r.tree, n)
    ensures Publishes(map[], r.now, r.tree, n)
  {
  }

  // Over a whole run, consecutive publishes are at least the shortest interval apart.
  lemma {:induction false} PublishesSpaced(due: map<string, int>, rounds: seq<Wakeup>, n: string, low: int)
    requires AlwaysReadable(rounds, n) && IntervalsFrom(rounds, n, low)
    ensures var times := PublishTimes(due, rounds, n); forall k :: 0 < k < |times| ==> times[k] >= times[k - 1] + low
    decreases |rounds|
  {
    if rounds != [] {
      var r := rounds[0];
      var next := NextDue(due, r.now, r.tree);
      var later := PublishTimes(next, rounds[1..], n);
      PublishesSpaced(next, rounds[1..], n, low);
      if Publishes(due, r.now, r.tree, n) {
        assert [r] + rounds[1..] == rounds;
        NextPublishSpaced(due, r, rounds[1..], n);
        var times := PublishTimes(due, rounds, n);
        assert times == [r.now] + later;
        assert forall k :: 0 < k < |times| ==> times[k] == later[k - 1];
      }
    }
  }

  // ----- no drift -----

  // Sleeping is exact and publishing takes no time: each round starts when the wait is over.
  predicate ExactSleep(due: map<string, int>, rounds: seq<Wakeup>)
    decreases |rounds|
  {
    |rounds| <= 1 ||
    (&& rounds[1].now == rounds[0].now + Wait(due, rounds[0].now, rounds[0].tree)
     && ExactSleep(NextDue(due, rounds[0].now, rounds[0].tree), rounds[1..]))
  }

  predicate AllPositive(rounds: seq<Wakeup>) { rounds == [] || (Positive(rounds[0].tree) && AllPositive(rounds[1..])) }

  // The namespace is readable in every round, always with this interval.
  predicate Constant(rounds: seq<Wakeup>, n: string, interval: int) {
    rounds == [] || (n in rounds[0].tree && rounds[0].tree[n] == Every(interval) && Constant(rounds[1..], n, interval))
  }

  // Due at `at` and not past it: the publishes to come are at + k * interval, and they keep up
  // with the clock.
  lemma {:induction false} ExactFrom(due: map<string, int>, rounds: seq<Wakeup>, n: string, interval: int, at: int)
    requires interval > 0 && Constant(rounds, n, interval) && AllPositive(rounds) && ExactSleep(due, rounds)
    requires rounds != [] ==> rounds[0].now <= at && (if n in due then due[n] == at else rounds[0].now == at)
    ensures var times := PublishTimes(due, rounds, n);
      && (forall k :: 0 <= k < |times| ==> times[k] == at + k * interval)
      && (rounds != [] ==> rounds[|rounds| - 1].now < at + |times| * interval)
    decreases |rounds|
  {
    if rounds != [] {
      var r := rounds[0];
      var next := NextDue(due, r.now, r.tree);
      var until := next[n];
      var later := PublishTimes(next, rounds[1..], n);
      WaitBounds(due, r.now, r.tree);
      assert until == if Publishes(due, r.now, r.tree, n) then at + interval else at;
      ExactFrom(next, rounds[1..], n, interval, until);
      var times := PublishTimes(due, rounds, n);
      assert |rounds| > 1 ==> rounds[|rounds| - 1] == rounds[1..][|rounds| - 2];
      if Publishes(due, r.now, r.tree, n) {
        Shifted(times, later, at, interval);
      }
    }
  }

  lemma Shifted(times: seq<int>, later: seq<int>, at: int, interval: int)
    requires times == [at] + later && forall k :: 0 <= k < |later| ==> later[k] == at + interval + k * interval
    ensures forall k :: 0 <= k < |times| ==> times[k] == at + k * interval
    ensures at + interval + |later| * interval == at + |times| * interval
  {
    forall k | 0 <= k < |times| ensures times[k] == at + k * interval {
      if k > 0 {
        assert later[k - 1] == at + interval + (k - 1) * interval;
        assert interval + (k - 1) * interval == k * interval;
      }
    }
    assert interval + |later| * interval == (|later| + 1) * interval;
  }

  // From a fresh start the k-th publish is at start + k * interval, and none is missed.
  lemma NoDrift(rounds: seq<Wakeup>, n: string, interval: int)
    requires rounds != [] && interval > 0 && Constant(rounds, n, interval) && AllPositive(rounds)
    requires ExactSleep(map[], rounds)
    ensures var times := PublishTimes(map[], rounds, n);
      && (forall k :: 0 <= k < |times| ==> times[k] == rounds[0].now + k * interval)
      && rounds[|rounds| - 1].now < rounds[0].now + |times| * interval
  {
    ExactFrom(map[], rounds, n, interval, rounds[0].now);
  }
}
