/** From what Put posts to what Get returns, through JSON, base64 and the line reader. */
module PutGet {
  import opened Text
  import opened Utf8
  import opened Json
  import opened JsonRoundTrip
  import opened SizeBound
  import opened Lines
  import opened DhtProxy

  predicate OneLine(s: Bytes) { forall k :: 0 <= k < |s| ==> s[k] != '\n' }

  lemma RuneOnOneLine(style: Style, c: char)
    ensures OneLine(EscapeRune(style, c))
  {
  }

  // Printed text holds no raw newline, whatever the text.
  lemma {:induction false} TextOnOneLine(style: Style, s: string)
    ensures OneLine(EscapeText(style, s))
  {
    if s != [] {
      RuneOnOneLine(style, s[0]);
      TextOnOneLine(style, s[1..]);
    }
  }

  lemma PayloadSpelled(data: Bytes)
    ensures Payload(data) == "{" + (Quote(Wire, "data") + ":" + Quote(Wire, Encode64(data))) + "}"
  {
    var j := Object(map["data" := String(Encode64(data))]);
    SortedUnique(Sorted(j.members.Keys), ["data"]);
    assert PrintMembers(Wire, j, ["data"]) == PrintMember(Wire, j, "data");
  }

  predicate Braced(s: Bytes) { |s| >= 2 && s[0] == '{' && s[|s| - 1] == '}' }

  lemma QuoteOnOneLine(s: string)
    ensures OneLine(Quote(Wire, s))
  {
    TextOnOneLine(Wire, s);
  }

  lemma MemberOnOneLine(key: Bytes, value: Bytes)
    requires OneLine(key) && OneLine(value)
    ensures OneLine("{" + (key + ":" + value) + "}") && Braced("{" + (key + ":" + value) + "}")
  {
    assert OneLine(key + ":" + value);
  }

  lemma PayloadOnOneLine(data: Bytes)
    ensures OneLine(Payload(data)) && Braced(Payload(data))
  {
    PayloadSpelled(data);
    QuoteOnOneLine("data");
    QuoteOnOneLine(Encode64(data));
    MemberOnOneLine(Quote(Wire, "data"), Quote(Wire, Encode64(data)));
  }

  lemma SpaceEdges(x: Bytes)
    requires SpaceBytes(x)
    ensures x != [] && x[0] != '{' && x[|x| - 1] != '}'
  {
  }

  lemma NoEdgeSpace(s: Bytes, n: nat)
    requires Braced(s)
    ensures !LeadingSpace(s, n) && !TrailingSpace(s, n)
  {
    if LeadingSpace(s, n) { SpaceEdges(s[..n]); }
    if TrailingSpace(s, n) { SpaceEdges(s[|s| - n..]); }
  }

  lemma BracedUntrimmed(s: Bytes)
    requires Braced(s)
    ensures TrimSpace(s) == s
  {
    forall n: nat { NoEdgeSpace(s, n); }
  }

  lemma PayloadLine(data: Bytes, maxLen: nat)
    requires |Payload(data)| <= maxLen
    ensures LineOf(Payload(data), true, maxLen) == Line(Payload(data), false)
  {
    PayloadOnOneLine(data);
    BracedUntrimmed(Payload(data));
  }

  // A response with one posted line for every value.
  function Body(values: seq<Bytes>): Bytes {
    if values == [] then [] else Payload(values[0]) + ['\n'] + Body(values[1..])
  }

  ghost predicate Storable(c: Client, v: Bytes) {
    (forall k :: 0 <= k < |v| ==> IsByte(v[k])) && |Payload(v)| <= c.maxLineSize
  }

  lemma BodyLines(values: seq<Bytes>, maxLen: nat)
    requires values != [] && |Payload(values[0])| <= maxLen
    ensures LinesOf(Split(Body(values)), maxLen)
      == [Line(Payload(values[0]), false)] + LinesOf(Split(Body(values[1..])), maxLen)
  {
    PayloadOnOneLine(values[0]);
    SplitHead(Payload(values[0]), Body(values[1..]));
    LinesCons(Payload(values[0]), Split(Body(values[1..])), maxLen);
    PayloadLine(values[0], maxLen);
  }

  lemma FirstLine(c: Client, line: Line, rest: seq<Line>)
    requires !Blank(line) && ValueOf(c, line).Some?
    ensures ValuesOf(c, [line] + rest) == [ValueOf(c, line).value] + ValuesOf(c, rest)
    ensures SkippedOf(c, [line] + rest) == SkippedOf(c, rest)
  {
    assert ([line] + rest)[1..] == rest;
  }

  lemma EmptyBody(c: Client, maxLen: nat)
    ensures ValuesOf(c, LinesOf(Split([]), maxLen)) == [] && SkippedOf(c, LinesOf(Split([]), maxLen)) == 0
  {
    var line := LineOf([], false, maxLen);
    assert Blank(line);
    assert [line][1..] == [];
    assert LinesOf([[]], maxLen) == [line];
  }

  ghost predicate Yields(c: Client, lines: seq<Line>, values: seq<Bytes>) {
    ValuesOf(c, lines) == values && SkippedOf(c, lines) == 0
  }

  lemma PayloadFirst(c: Client, data: Bytes, rest: seq<Line>, values: seq<Bytes>)
    requires c.decode == LineValue && Storable(c, data) && Yields(c, rest, values)
    ensures Yields(c, [Line(Payload(data), false)] + rest, [data] + values)
  {
    PayloadIsValue(c, data);
    PayloadOnOneLine(data);
    FirstLine(c, Line(Payload(data), false), rest);
  }

  ghost predicate AllStorable(c: Client, values: seq<Bytes>) {
    forall k :: 0 <= k < |values| ==> Storable(c, values[k])
  }

  lemma RestStorable(c: Client, values: seq<Bytes>)
    requires AllStorable(c, values) && values != []
    ensures Storable(c, values[0]) && AllStorable(c, values[1..])
  {
    forall k | 0 <= k < |values[1..]| ensures Storable(c, values[1..][k]) { assert values[1..][k] == values[k + 1]; }
  }

  lemma BodyStep(c: Client, values: seq<Bytes>)
    requires c.decode == LineValue && values != [] && Storable(c, values[0])
    requires Yields(c, LinesOf(Split(Body(values[1..])), c.maxLineSize), values[1..])
    ensures Yields(c, LinesOf(Split(Body(values)), c.maxLineSize), values)
  {
    BodyLines(values, c.maxLineSize);
    PayloadFirst(c, values[0], LinesOf(Split(Body(values[1..])), c.maxLineSize), values[1..]);
    assert values == [values[0]] + values[1..];
  }

  lemma {:induction false} BodyValues(c: Client, values: seq<Bytes>)
    requires c.decode == LineValue && AllStorable(c, values)
    ensures Yields(c, LinesOf(Split(Body(values)), c.maxLineSize), values)
    decreases |values|
  {
    if values == [] {
      EmptyBody(c, c.maxLineSize);
    } else {
      RestStorable(c, values);
      BodyValues(c, values[1..]);
      BodyStep(c, values);
    }
  }

  // What was put is got back, in order, up to the cap; nothing is skipped, and the rest are
  // counted as dropped.
  lemma PutThenGet(c: Client, values: seq<Bytes>)
    requires c.decode == LineValue && AllStorable(c, values)
    ensures var r := ResultFor(c, DhtProxy.Body(Body(values), false));
      r.values == First(values, c.maxValues) && r.skipped == 0 && |r.values| + r.dropped == |values|
  {
    BodyValues(c, values);
  }
}
