/** decryptAndSelect of cmd/stunmesh-agent. */
module Select {
  import opened Text
  import opened Bundle
  import opened Marshal
  import opened CanonicalForm
  import opened Box

  // What the agent makes of one value.
  datatype Verdict = Undecrypted | Unparsed | Rejected | Usable(bundle: Bundle)

  // Who is asking: the controller's public key, the node's identity, the node's name.
  datatype Asker = Asker(sender: Public, identity: Secret, namespace: string, nodeID: string, word: Word)

  function Judge(v: Value, a: Asker): Verdict {
    var plain := Open(v, a.sender, a.identity);
    if plain.None? then Undecrypted
    else
      match ParseBundle(plain.value, a.word)
      case Rejected(_) => Unparsed
      case Ok(b) => if Valid(b, a.namespace, a.nodeID) then Usable(b) else Verdict.Rejected
  }

  datatype Stats = Stats(undecrypted: nat, unparsed: nat, rejected: nat)

  predicate Sort(v: Verdict, w: Verdict) { (v.Usable? && w.Usable?) || v == w }

  // How many values got this verdict.
  function Count(values: seq<Value>, a: Asker, v: Verdict): nat {
    if values == [] then 0 else (if Sort(Judge(values[0], a), v) then 1 else 0) + Count(values[1..], a, v)
  }

  lemma {:induction false} CountAppend(values: seq<Value>, more: Value, a: Asker, v: Verdict)
    ensures Count(values + [more], a, v) == Count(values, a, v) + if Sort(Judge(more, a), v) then 1 else 0
  {
    if values == [] {
      assert [] + [more] == [more];
    } else {
      assert (values + [more])[1..] == values[1..] + [more];
      CountAppend(values[1..], more, a, v);
    }
  }

  predicate UsableAt(values: seq<Value>, a: Asker, i: int) { 0 <= i < |values| && Judge(values[i], a).Usable? }

  // The usable value with the largest timestamp, the first of them on a tie.
  ghost predicate IsBest(values: seq<Value>, a: Asker, i: int) {
    && UsableAt(values, a, i)
    && forall j :: UsableAt(values, a, j) ==>
         var t, best := Judge(values[j], a).bundle.timestamp, Judge(values[i], a).bundle.timestamp;
         t < best || (t == best && i <= j)
  }

  lemma BestUnique(values: seq<Value>, a: Asker, i: int, j: int)
    requires IsBest(values, a, i) && IsBest(values, a, j)
    ensures i == j
  {
    assert UsableAt(values, a, i) && UsableAt(values, a, j);
  }

  ghost predicate Selected(values: seq<Value>, a: Asker, best: Option<Bundle>, at: int) {
    if best.None? then forall i :: !UsableAt(values, a, i)
    else IsBest(values, a, at) && Judge(values[at], a) == Usable(best.value)
  }

  predicate Better(v: Verdict, best: Option<Bundle>) {
    v.Usable? && (best.None? || v.bundle.timestamp > best.value.timestamp)
  }

  lemma UsableAppend(values: seq<Value>, more: Value, a: Asker, i: int)
    ensures UsableAt(values + [more], a, i) <==> UsableAt(values, a, i) || (i == |values| && Judge(more, a).Usable?)
  {
  }

  lemma SelectedKept(values: seq<Value>, more: Value, a: Asker, best: Option<Bundle>, at: int)
    requires Selected(values, a, best, at) && !Better(Judge(more, a), best)
    ensures Selected(values + [more], a, best, at)
  {
    forall i { UsableAppend(values, more, a, i); }
    if best.Some? {
      assert forall j :: UsableAt(values, a, j) ==> (values + [more])[j] == values[j];
    }
  }

  lemma SelectedTaken(values: seq<Value>, more: Value, a: Asker, best: Option<Bundle>, at: int)
    requires Selected(values, a, best, at) && Better(Judge(more, a), best)
    ensures Selected(values + [more], a, Some(Judge(more, a).bundle), |values|)
  {
    forall i { UsableAppend(values, more, a, i); }
    assert forall j :: UsableAt(values, a, j) ==> (values + [more])[j] == values[j];
  }

  function Counts(values: seq<Value>, a: Asker): Stats {
    Stats(Count(values, a, Undecrypted), Count(values, a, Unparsed), Count(values, a, Verdict.Rejected))
  }

  function Counted(stats: Stats, v: Verdict): Stats {
    match v
    case Undecrypted => stats.(undecrypted := stats.undecrypted + 1)
    case Unparsed => stats.(unparsed := stats.unparsed + 1)
    case Rejected => stats.(rejected := stats.rejected + 1)
    case Usable(_) => stats
  }

  lemma CountsAppend(values: seq<Value>, more: Value, a: Asker)
    ensures Counts(values + [more], a) == Counted(Counts(values, a), Judge(more, a))
  {
    CountAppend(values, more, a, Undecrypted);
    CountAppend(values, more, a, Unparsed);
    CountAppend(values, more, a, Verdict.Rejected);
  }

  // The controller sealed this bundle for the asker.
  ghost predicate SealedFor(v: Value, a: Asker, e: Bundle) {
    exists controller, nonce: nat ::
      a.sender == PublicOf(controller) && v == Seal(MarshalBundle(e), PublicOf(a.identity), controller, nonce)
  }

  lemma SealedIsUsable(v: Value, a: Asker, e: Bundle)
    requires SealedFor(v, a, e) && Valid(e, a.namespace, a.nodeID)
    ensures Judge(v, a) == Usable(e)
  {
    WireRoundTrip(e, a.namespace, a.nodeID, a.word);
  }

  // The checks of one value, in order: every valid bundle that the controller sealed for the
  // asker is usable, and nothing is but what a holder of their two keys sealed and what is
  // valid for the asker.
  method Check(v: Value, a: Asker) returns (verdict: Verdict)
    ensures verdict == Judge(v, a)
    ensures forall e :: SealedFor(v, a, e) && Valid(e, a.namespace, a.nodeID) ==> verdict == Usable(e)
    ensures verdict.Usable? ==> Valid(verdict.bundle, a.namespace, a.nodeID)
    ensures verdict.Undecrypted? <==> !(v.Sealed? && v.shared == {a.sender, PublicOf(a.identity)})
    ensures !verdict.Undecrypted? ==>
      var parsed := ParseBundle(v.text, a.word);
      && (verdict.Unparsed? <==> !parsed.Ok?)
      && (verdict.Rejected? <==> parsed.Ok? && !Valid(parsed.bundle, a.namespace, a.nodeID))
  {
    forall e | SealedFor(v, a, e) && Valid(e, a.namespace, a.nodeID) ensures Judge(v, a) == Usable(e) {
      SealedIsUsable(v, a, e);
    }
    var plain := Open(v, a.sender, a.identity);
    if plain.None? {
      return Undecrypted;
    }
    var parsed := Parse(plain.value, a.word);
    if !parsed.Ok? {
      return Unparsed;
    }
    var problem := Validate(parsed.bundle, a.namespace, a.nodeID);
    if problem.Some? {
      return Verdict.Rejected;
    }
    verdict := Usable(parsed.bundle);
  }

  lemma TakeNext(values: seq<Value>, n: nat)
    requires n < |values|
    ensures values[..n + 1] == values[..n] + [values[n]]
  {
  }

  // What becomes of the selection with one more value.
  lemma SelectedNext(values: seq<Value>, n: nat, a: Asker, best: Option<Bundle>, at: int)
    requires n < |values| && Selected(values[..n], a, best, at)
    ensures var v := Judge(values[n], a);
      if Better(v, best) then Selected(values[..n + 1], a, Some(v.bundle), n)
      else Selected(values[..n + 1], a, best, at)
  {
    TakeNext(values, n);
    if Better(Judge(values[n], a), best) {
      SelectedTaken(values[..n], values[n], a, best, at);
    } else {
      SelectedKept(values[..n], values[n], a, best, at);
    }
  }

  // What is selected is the newest usable value, the first of them on a tie, so that no
  // rejected value ever displaces a good one; every other verdict is counted.
  method DecryptAndSelect(values: seq<Value>, a: Asker) returns (best: Option<Bundle>, stats: Stats)
    ensures best.None? ==> forall i :: !UsableAt(values, a, i)
    ensures best.Some? ==> exists i :: IsBest(values, a, i) && Judge(values[i], a) == Usable(best.value)
    ensures stats == Counts(values, a)
  {
    best, stats := None, Stats(0, 0, 0);
    ghost var at := -1;
    for n := 0 to |values|
      invariant Selected(values[..n], a, best, at)
      invariant stats == Counts(values[..n], a)
    {
      TakeNext(values, n);
      CountsAppend(values[..n], values[n], a);
      var verdict := Check(values[n], a);
      stats := Counted(stats, verdict);
      SelectedNext(values, n, a, best, at);
      if Better(verdict, best) {
        best, at := Some(verdict.bundle), n;
      }
    }
    assert values[..|values|] == values;
  }

  lemma {:induction false} CountsAddUp(values: seq<Value>, a: Asker, b: Bundle)
    ensures |values| == Count(values, a, Undecrypted) + Count(values, a, Unparsed)
                      + Count(values, a, Verdict.Rejected) + Count(values, a, Usable(b))
  {
    if values != [] { CountsAddUp(values[1..], a, b); }
  }
}
