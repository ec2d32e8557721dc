/** internal/dhtproxy: the values of a response, and the answer of several proxies. */
module DhtProxy {
  import opened Text
  import opened Lines
  import opened LineReader
  import opened Json
  import opened JsonRoundTrip
  import opened SizeBound

  // values, the count of lines that are no value, the count of values past the cap.
  datatype Result = Result(values: seq<Bytes>, skipped: nat, dropped: nat)

  const NO_VALUES := Result([], 0, 0)

  const BUFFER_SIZE := 0x1_0000

  // A client: its caps, and what it makes of one line of JSON and base64.
  datatype Client = Client(maxValues: nat, maxLineSize: nat, decode: Bytes -> Option<Bytes>)

  // ----- a line of the wire -----

  // A JSON object with the value as base64 under "data"; other members do not matter.
  function LineValue(line: Bytes): Option<Bytes> {
    match ParseDocument(line)
    case None => None
    case Some(p) =>
      if p.value.Object? && "data" in p.value.members && p.value.members["data"].String?
      then Decode64(p.value.members["data"].text) else None
  }

  // What Put posts for a value.
  function Payload(data: Bytes): Bytes { Print(Wire, Object(map["data" := String(Encode64(data))])) }

  // A line decodes to a value if its "data" holds the value's base64, whatever else it holds
  // and however the JSON is spelled.
  lemma LineDecodes(style: Style, j: Json, data: Bytes)
    requires WellFormed(j) && j.Object? && "data" in j.members && j.members["data"] == String(Encode64(data))
    requires forall k :: 0 <= k < |data| ==> IsByte(data[k])
    ensures LineValue(Print(style, j)) == Some(data)
  {
    DocumentRoundTrip(style, j);
    EncodedUnbroken(data);
    NothingStripped(Encode64(data));
    EncodeDecode(data, Encode64(data));
  }

  // Any line: one that is no JSON has no value, and a JSON document has exactly the value of its
  // member "data", if it is an object with that member, a text in base64.
  lemma LineRead(line: Bytes, style: Style, j: Json)
    ensures ParseDocument(line).None? ==> LineValue(line).None?
    ensures WellFormed(j) ==>
      LineValue(Print(style, j)) ==
        if j.Object? && "data" in j.members && j.members["data"].String?
           && IsBase64(WithoutBreaks(j.members["data"].text))
        then Decode64(j.members["data"].text) else None
  {
    if WellFormed(j) { DocumentRoundTrip(style, j); }
    if j.Object? && "data" in j.members && j.members["data"].String? { DecodesIff(j.members["data"].text, 0); }
  }

  // What Put posts, Get takes for the value.
  lemma PayloadIsValue(c: Client, data: Bytes)
    requires c.decode == LineValue
    requires forall k :: 0 <= k < |data| ==> IsByte(data[k])
    ensures ValueOf(c, Line(Payload(data), false)) == Some(data)
  {
    LineDecodes(Wire, Object(map["data" := String(Encode64(data))]), data);
  }

  // ----- lines and values -----

  predicate Blank(line: Line) { !line.oversized && line.text == [] }

  function ValueOf(c: Client, line: Line): Option<Bytes> { if line.oversized then None else c.decode(line.text) }

  // ----- the plain reading of a body -----

  // All values of the lines, with no cap.
  function ValuesOf(c: Client, lines: seq<Line>): seq<Bytes> {
    if lines == [] then []
    else
      var v := ValueOf(c, lines[0]);
      (if !Blank(lines[0]) && v.Some? then [v.value] else []) + ValuesOf(c, lines[1..])
  }

  // Lines with something in them that is no value, the oversized ones among them.
  function SkippedOf(c: Client, lines: seq<Line>): nat {
    if lines == [] then 0
    else (if !Blank(lines[0]) && ValueOf(c, lines[0]).None? then 1 else 0) + SkippedOf(c, lines[1..])
  }

  function NonBlank(lines: seq<Line>): nat {
    if lines == [] then 0 else (if Blank(lines[0]) then 0 else 1) + NonBlank(lines[1..])
  }

  lemma {:induction false} EveryLineCounted(c: Client, lines: seq<Line>)
    ensures |ValuesOf(c, lines)| + SkippedOf(c, lines) == NonBlank(lines)
  {
    if lines != [] { EveryLineCounted(c, lines[1..]); }
  }

  function First<T>(xs: seq<T>, n: nat): seq<T> { if n <= |xs| then xs[..n] else xs }

  // The first maxValues values in order; the others are dropped.
  function ResultOf(c: Client, lines: seq<Line>): Result {
    var values := ValuesOf(c, lines);
    Result(First(values, c.maxValues), SkippedOf(c, lines), |values| - |First(values, c.maxValues)|)
  }

  // Values, skipped and dropped account for every line with something in it.
  lemma Accounting(c: Client, lines: seq<Line>)
    ensures var r := ResultOf(c, lines);
      && |r.values| + r.dropped + r.skipped == NonBlank(lines)
      && |r.values| <= c.maxValues && (r.dropped > 0 ==> |r.values| == c.maxValues)
  {
    EveryLineCounted(c, lines);
  }

  lemma {:induction false} ValuesAppend(c: Client, lines: seq<Line>, more: Line)
    ensures ValuesOf(c, lines + [more]) == ValuesOf(c, lines) + ValuesOf(c, [more])
    ensures SkippedOf(c, lines + [more]) == SkippedOf(c, lines) + SkippedOf(c, [more])
  {
    if lines == [] {
      assert [] + [more] == [more];
    } else {
      assert (lines + [more])[1..] == lines[1..] + [more];
      ValuesAppend(c, lines[1..], more);
    }
  }

  lemma OneLine(c: Client, line: Line)
    ensures ValuesOf(c, [line]) == if !Blank(line) && ValueOf(c, line).Some? then [ValueOf(c, line).value] else []
    ensures SkippedOf(c, [line]) == if !Blank(line) && ValueOf(c, line).None? then 1 else 0
  {
    assert [line][1..] == [];
  }

  // ----- parseValues -----

  method DecodeLine(c: Client, line: Bytes, r: Result) returns (next: Result)
    ensures next == match c.decode(line)
      case None => r.(skipped := r.skipped + 1)
      case Some(v) => if |r.values| >= c.maxValues then r.(dropped := r.dropped + 1) else r.(values := r.values + [v])
  {
    var v := c.decode(line);
    if v.None? {
      return r.(skipped := r.skipped + 1);
    }
    if |r.values| >= c.maxValues {
      return r.(dropped := r.dropped + 1);
    }
    next := r.(values := r.values + [v.value]);
  }

  method CountLine(c: Client, line: Line, r: Result, ghost seen: seq<Line>) returns (next: Result)
    requires r == ResultOf(c, seen)
    ensures next == ResultOf(c, seen + [line])
    ensures line.oversized ==> next == Result(r.values, r.skipped + 1, r.dropped)
    ensures !line.oversized && line.text == [] ==> next == r
    ensures !line.oversized && line.text != [] ==>
      match c.decode(line.text)
      case None => next == Result(r.values, r.skipped + 1, r.dropped)
      case Some(v) => next == if |r.values| < c.maxValues then Result(r.values + [v], r.skipped, r.dropped)
                              else Result(r.values, r.skipped, r.dropped + 1)
  {
    ValuesAppend(c, seen, line);
    OneLine(c, line);
    if line.oversized {
      next := r.(skipped := r.skipped + 1);
    } else if |line.text| > 0 {
      next := DecodeLine(c, line.text, r);
    } else {
      next := r;
    }
  }

  // The lines seen and the lines still in the reader are all lines of the body.
  ghost predicate Reading(seen: seq<Line>, rest: Bytes, maxLen: nat, all: seq<Line>) {
    seen + LinesOf(Split(rest), maxLen) == all
  }

  lemma NextRead(seen: seq<Line>, rest: Bytes, maxLen: nat, all: seq<Line>)
    requires Reading(seen, rest, maxLen, all) && Newline(rest) < |rest|
    ensures Reading(seen + [LineOf(rest[..Newline(rest)], true, maxLen)], rest[Newline(rest) + 1..], maxLen, all)
  {
    var n := Newline(rest);
    LinesAfterFirst(rest, n, maxLen);
    Regroup(seen, LineOf(rest[..n], true, maxLen), LinesOf(Split(rest[n + 1..]), maxLen));
  }

  lemma LastRead(seen: seq<Line>, rest: Bytes, maxLen: nat, all: seq<Line>)
    requires Reading(seen, rest, maxLen, all) && Newline(rest) == |rest|
    ensures seen + [LineOf(rest, false, maxLen)] == all
  {
    LinesOfLast(rest, maxLen);
  }

  // A body that ends well gives the plain reading of its lines, whatever the buffer size and
  // however the source hands out its bytes; a broken one gives nothing.
  method ParseValues(c: Client, body: Bytes, size: nat, endWithData: bool, broken: bool)
    returns (result: Option<Result>)
    requires size > 0
    ensures result == if broken then None else Some(ResultOf(c, LinesOf(Split(body), c.maxLineSize)))
  {
    var r := new Reader(body, size, endWithData, broken);
    var count := NO_VALUES;
    ghost var all := LinesOf(Split(body), c.maxLineSize);
    ghost var seen: seq<Line> := [];
    var done := false;
    while !done
      invariant r.Valid() && r.broken == broken
      invariant count == ResultOf(c, seen)
      invariant if done then !broken && seen == all else Reading(seen, r.rest, c.maxLineSize, all)
      decreases !done, |r.rest|
    {
      ghost var rest := r.rest;
      var line, e;
      ghost var peak;
      line, e, peak := ReadLine(r, c.maxLineSize);
      if e == Broken {
        return None;
      }
      if e == EOF {
        LastRead(seen, rest, c.maxLineSize, all);
        done := true;
      } else {
        NextRead(seen, rest, c.maxLineSize, all);
      }
      count := CountLine(c, line, count, seen);
      seen := seen + [line];
    }
    result := Some(count);
  }

  lemma Regroup(a: seq<Line>, x: Line, b: seq<Line>)
    ensures a + ([x] + b) == (a + [x]) + b
  {
  }

  // ----- several proxies -----

  // What one proxy did: fail, answer 404, answer with another status, or answer with a body.
  datatype Answer = Unreachable | NotFound | BadStatus | Body(bytes: Bytes, broken: bool)

  // found: values, and which proxy gave them; empty: every answer was empty; partial: some
  // answers were empty and the other proxies failed; failed: nobody answered.
  datatype Got =
    | Found(result: Result, at: nat)
    | Empty(at: nat, result: Result)
    | Partial(at: nat, result: Result, failures: nat)
    | AllFailed

  predicate Failing(a: Answer) { a.Unreachable? || a.BadStatus? || (a.Body? && a.broken) }

  function ResultFor(c: Client, a: Answer): Result {
    if a.Body? then ResultOf(c, LinesOf(Split(a.bytes), c.maxLineSize)) else NO_VALUES
  }

  predicate HasValues(c: Client, a: Answer) { !Failing(a) && ResultFor(c, a).values != [] }

  function Failures(answers: seq<Answer>): nat {
    if answers == [] then 0 else Failures(answers[..|answers| - 1]) + if Failing(answers[|answers| - 1]) then 1 else 0
  }

  // One proxy's answer: nothing if it failed.
  method Ask(c: Client, a: Answer) returns (r: Option<Result>)
    ensures r == if Failing(a) then None else Some(ResultFor(c, a))
  {
    match a {
      case Unreachable => r := None;
      case BadStatus => r := None;
      case NotFound => r := Some(NO_VALUES);
      case Body(bytes, broken) => r := ParseValues(c, bytes, BUFFER_SIZE, false, broken);
    }
  }

  predicate AllFailing(answers: seq<Answer>, from: nat, to: nat) {
    forall i :: from <= i < to && i < |answers| ==> Failing(answers[i])
  }

  predicate NoneFound(c: Client, answers: seq<Answer>, to: nat) {
    forall i :: 0 <= i < to && i < |answers| ==> !HasValues(c, answers[i])
  }

  // The last proxy that answered, before some point; it had nothing.
  predicate LastEmpty(c: Client, answers: seq<Answer>, at: nat, r: Result, to: nat) {
    && at < to && at < |answers| && !Failing(answers[at])
    && r == ResultFor(c, answers[at]) && AllFailing(answers, at + 1, to)
  }

  // The first proxy with values decides; without one, the last empty answer does, and the
  // failures tell an outage from nothing being published.
  predicate Answered(c: Client, answers: seq<Answer>, got: Got) {
    match got
    case Found(r, at) =>
      at < |answers| && HasValues(c, answers[at]) && r == ResultFor(c, answers[at]) && NoneFound(c, answers, at)
    case Empty(at, r) =>
      NoneFound(c, answers, |answers|) && LastEmpty(c, answers, at, r, |answers|) && Failures(answers) == 0
    case Partial(at, r, failures) =>
      NoneFound(c, answers, |answers|) && LastEmpty(c, answers, at, r, |answers|) && failures == Failures(answers) > 0
    case AllFailed => AllFailing(answers, 0, |answers|)
  }

  // What the loop knows after n proxies, none of which had values.
  predicate Searching(c: Client, answers: seq<Answer>, n: nat, failures: nat, at: nat, empty: Option<Result>) {
    && n <= |answers| && failures == Failures(answers[..n]) && NoneFound(c, answers, n)
    && if empty.Some? then LastEmpty(c, answers, at, empty.value, n) else AllFailing(answers, 0, n)
  }

  lemma SearchFailed(c: Client, answers: seq<Answer>, n: nat, failures: nat, at: nat, empty: Option<Result>)
    requires n < |answers| && Searching(c, answers, n, failures, at, empty) && Failing(answers[n])
    ensures Searching(c, answers, n + 1, failures + 1, at, empty)
  {
    assert answers[..n + 1][..n] == answers[..n];
  }

  lemma SearchEmpty(c: Client, answers: seq<Answer>, n: nat, failures: nat, at: nat, empty: Option<Result>)
    requires n < |answers| && Searching(c, answers, n, failures, at, empty)
    requires !Failing(answers[n]) && !HasValues(c, answers[n])
    ensures Searching(c, answers, n + 1, failures, n, Some(ResultFor(c, answers[n])))
  {
    assert answers[..n + 1][..n] == answers[..n];
  }

  method Get(c: Client, answers: seq<Answer>) returns (got: Got)
    ensures Answered(c, answers, got)
  {
    var failures: nat := 0;
    var at: nat, empty: Option<Result> := 0, None;
    for n := 0 to |answers|
      invariant Searching(c, answers, n, failures, at, empty)
    {
      var r := Ask(c, answers[n]);
      if r.None? {
        SearchFailed(c, answers, n, failures, at, empty);
        failures := failures + 1;
      } else if |r.value.values| == 0 {
        SearchEmpty(c, answers, n, failures, at, empty);
        at, empty := n, r;
      } else {
        return Found(r.value, n);
      }
    }
    assert answers[..|answers|] == answers;
    if empty.Some? {
      if failures > 0 {
        return Partial(at, empty.value, failures);
      }
      return Empty(at, empty.value);
    }
    got := AllFailed;
  }

  // The outcome is determined by the answers: values if some proxy has them, an error if all
  // fail, and otherwise an empty result that is an error exactly when some proxy failed.
  lemma GetOutcome(c: Client, answers: seq<Answer>, got: Got)
    requires Answered(c, answers, got)
    ensures got.Found? <==> !NoneFound(c, answers, |answers|)
    ensures got.AllFailed? <==> AllFailing(answers, 0, |answers|)
    ensures got.Partial? ==> Failures(answers) > 0
    ensures got.Empty? <==> answers != [] && AllAnswered(answers) && NoneFound(c, answers, |answers|)
  {
    FailuresCount(answers);
    if answers != [] && AllAnswered(answers) { assert !Failing(answers[|answers| - 1]); }
    if got.Found? { assert HasValues(c, answers[got.at]); }
  }

  // A 404 is an empty answer; no answer and any other status are failures.
  lemma StatusOutcome(c: Client, answers: seq<Answer>, got: Got)
    requires Answered(c, answers, got) && answers != []
    ensures (forall i :: 0 <= i < |answers| ==> answers[i] == NotFound) ==>
      got == Empty(|answers| - 1, Result([], 0, 0))
    ensures got.AllFailed? <==> forall i :: 0 <= i < |answers| ==> NoAnswer(answers[i])
    ensures got.Empty? ==> forall i :: 0 <= i < |answers| ==> !NoAnswer(answers[i])
    ensures got.Found? ==> answers[got.at].Body? && !answers[got.at].broken
  {
    GetOutcome(c, answers, got);
    assert forall a: Answer :: NoAnswer(a) <==> Failing(a);
  }

  // No connection, a status other than 200 and 404, or a body that broke off.
  predicate NoAnswer(a: Answer) { a == Unreachable || a == BadStatus || (a.Body? && a.broken) }

  predicate AllAnswered(answers: seq<Answer>) { forall i :: 0 <= i < |answers| ==> !Failing(answers[i]) }

  lemma {:induction false} FailuresCount(answers: seq<Answer>)
    ensures Failures(answers) == 0 <==> AllAnswered(answers)
  {
    if answers != [] {
      var front := answers[..|answers| - 1];
      FailuresCount(front);
      assert forall i :: 0 <= i < |front| ==> front[i] == answers[i];
    }
  }

  // ----- putting to several proxies -----

  datatype PutResult = PutOk | PutPartial(failures: nat) | PutFailed(failures: nat)

  function Bad(accepted: seq<bool>): nat {
    if accepted == [] then 0 else Bad(accepted[..|accepted| - 1]) + if accepted[|accepted| - 1] then 0 else 1
  }

  // One POST per proxy: a success only if all of them accept.
  method PutAll(accepted: seq<bool>) returns (r: PutResult)
    requires accepted != []
    ensures r.PutOk? <==> forall i :: 0 <= i < |accepted| ==> accepted[i]
    ensures r.PutFailed? <==> forall i :: 0 <= i < |accepted| ==> !accepted[i]
    ensures !r.PutOk? ==> r.failures == Bad(accepted)
  {
    var failures, successes := 0, 0;
    for n := 0 to |accepted|
      invariant failures == Bad(accepted[..n]) && successes + failures == n
      invariant failures == 0 <==> forall i :: 0 <= i < n ==> accepted[i]
      invariant successes == 0 <==> forall i :: 0 <= i < n ==> !accepted[i]
    {
      assert accepted[..n + 1][..n] == accepted[..n];
      if accepted[n] {
        successes := successes + 1;
      } else {
        failures := failures + 1;
      }
    }
    assert accepted[..|accepted|] == accepted;
    if failures == 0 {
      return PutOk;
    }
    r := if successes > 0 then PutPartial(failures) else PutFailed(failures);
  }
}
