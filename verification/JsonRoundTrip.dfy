/** Parsing undoes printing, in every style and whatever follows the printed value. */
module JsonRoundTrip {
  import opened Text
  import opened Utf8
  import opened Json

  // ----- regrouping concatenations -----

  lemma Regroup(a: Bytes, b: Bytes, c: Bytes)
    ensures a + b + c == a + (b + c)
  {
  }

  lemma DropPrefix(d: Bytes, rest: Bytes, i: nat)
    requires i <= |d|
    ensures (d + rest)[i..] == d[i..] + rest
  {
  }

  // The head of a printed list, separated from everything that follows it.
  lemma RegroupList(head: Bytes, more: Bytes, close: Bytes, rest: Bytes)
    ensures head + close + rest == head + (close + rest)
    ensures head + "," + more + close + rest == head + ("," + (more + close + rest))
  {
  }

  lemma RegroupText(rune: Bytes, text: Bytes, rest: Bytes)
    ensures rune + text + "\"" + rest == rune + (text + "\"" + rest)
    ensures (rune + (text + "\"" + rest))[|rune|..] == text + "\"" + rest
  {
  }

  lemma RegroupMember(key: Bytes, value: Bytes, rest: Bytes)
    ensures ("\"" + key + "\"" + ":" + value + rest)[1..] == key + "\"" + (":" + (value + rest))
  {
  }

  lemma RegroupBrackets(open: Bytes, body: Bytes, close: Bytes, rest: Bytes)
    requires |open| == 1
    ensures (open + body + close + rest)[1..] == body + close + rest
  {
  }

  // ----- strings -----

  lemma HexDigitValue(n: int)
    requires 0 <= n < 16
    ensures HexValue(HexDigit(n)) == Some(n)
  {
  }

  // What stands for a character after a single backslash (RFC 8259, section 7).
  predicate ShortFor(letter: char, c: char) {
    || (letter == c && (c == '\"' || c == '\\' || c == '/'))
    || (letter == 'b' && c as int == 8) || (letter == 't' && c as int == 9) || (letter == 'n' && c as int == 10)
    || (letter == 'f' && c as int == 12) || (letter == 'r' && c as int == 13)
  }

  // Every short escape is read, and no other letter after a backslash but the u of a number.
  lemma ShortReads(letter: char, rest: Bytes)
    requires letter != 'u'
    ensures match NextPiece(['\\', letter] + rest)
      case Some(p) => ShortFor(letter, p.value) && p.width == 2 && !p.unpaired
      case None => forall c :: !ShortFor(letter, c)
  {
    assert (['\\', letter] + rest)[1] == letter;
  }

  // A control character is printed by its short escape, if it has one, and else by number.
  lemma ControlPrinted(style: Style, c: char)
    requires c < ' '
    ensures var e := EscapeRune(style, c);
      || (|e| == 2 && e[0] == '\\' && ShortFor(e[1], c))
      || ((forall letter :: !ShortFor(letter, c))
          && |e| == 6 && e[..4] == "\\u00" && HexAt(e[4], c as int / 16) && HexAt(e[5], c as int % 16))
  {
    HexPrinted(c as int / 16);
    HexPrinted(c as int % 16);
  }

  lemma HexPrinted(n: int)
    requires 0 <= n < 16
    ensures HexAt(HexDigit(n), n)
  {
  }

  // A pair of escapes reads as the character beyond the basic plane that it stands for.
  lemma PairReads(c: char, d: Bytes)
    requires c as int >= 0x10000 && |d| >= 12
    requires UnicodeEscape(d) == Some(0xD800 + (c as int - 0x10000) / 0x400)
    requires UnicodeEscape(d[6..]) == Some(0xDC00 + (c as int - 0x10000) % 0x400)
    ensures NextPiece(d) == Some(Piece(c, 12, false))
  {
    var n := c as int - 0x10000;
    assert n == n / 0x400 * 0x400 + n % 0x400;
  }

  lemma PieceRoundTrip(style: Style, c: char, rest: Bytes)
    ensures EscapeRune(style, c)[0] != '\"'
    ensures NextPiece(EscapeRune(style, c) + rest) == Some(Piece(c, |EscapeRune(style, c)|, false))
  {
    var e := EscapeRune(style, c);
    var d := e + rest;
    assert d[0] == e[0];
    if e[0] != '\\' {
      assert e == EncodeRune(c);
      DecodeEncoded(c, rest);
    } else if |e| == 2 {
      assert d[1] == e[1];
    } else {
      UnicodePiece(style, c, rest);
    }
  }

  lemma UnicodePiece(style: Style, c: char, rest: Bytes)
    requires |EscapeRune(style, c)| == 6 && EscapeRune(style, c)[0] == '\\'
    ensures NextPiece(EscapeRune(style, c) + rest) == Some(Piece(c, 6, false))
  {
    var e := EscapeRune(style, c);
    var d := e + rest;
    assert d[0] == e[0] && d[1] == e[1] && d[2] == e[2] && d[3] == e[3] && d[4] == e[4] && d[5] == e[5];
    assert d[2..6] == [d[2], d[3], d[4], d[5]];
    assert UnicodeEscape(d) == Some(c as int) by {
      HexDigitValue(c as int / 16 % 16);
      HexDigitValue(c as int % 16);
    }
  }

  lemma TextStep(d: Bytes, p: Piece, l: Literal)
    requires d != [] && d[0] != '\"' && NextPiece(d) == Some(p) && ParseText(d[p.width..]) == Some(l)
    ensures ParseText(d) == Some(Literal([p.value] + l.text, p.unpaired || l.unpaired, l.rest))
  {
  }

  lemma {:induction false} TextRoundTrip(style: Style, s: string, rest: Bytes)
    ensures ParseText(EscapeText(style, s) + "\"" + rest) == Some(Literal(s, false, rest))
  {
    if s == [] {
      assert EscapeText(style, s) + "\"" + rest == "\"" + rest;
    } else {
      var e := EscapeRune(style, s[0]);
      var tail := EscapeText(style, s[1..]) + "\"" + rest;
      RegroupText(e, EscapeText(style, s[1..]), rest);
      PieceRoundTrip(style, s[0], tail);
      TextRoundTrip(style, s[1..], rest);
      TextStep(e + tail, Piece(s[0], |e|, false), Literal(s[1..], false, rest));
      assert s == [s[0]] + s[1..];
    }
  }

  // ----- numbers -----

  predicate IsNumber(literal: string) { NumberLength(literal) == Some(|literal|) }

  // What may follow a number without becoming part of it.
  predicate NumberEnd(rest: Bytes) {
    rest == [] || !(IsDigit(rest[0]) || rest[0] == '.' || rest[0] == 'e' || rest[0] == 'E')
  }

  lemma {:induction false} DigitRunEnds(d: Bytes, rest: Bytes)
    requires rest == [] || !IsDigit(rest[0])
    ensures DigitRun(d + rest) == DigitRun(d)
  {
    if d == [] {
      assert d + rest == rest;
    } else {
      DropPrefix(d, rest, 1);
      DigitRunEnds(d[1..], rest);
    }
  }

  lemma IntegerEnds(d: Bytes, rest: Bytes)
    requires IntegerLength(d).Some? && NumberEnd(rest)
    ensures IntegerLength(d + rest) == IntegerLength(d)
  {
    var sign := if d[0] == '-' then 1 else 0;
    DropPrefix(d, rest, sign);
    DigitRunEnds(d[sign..], rest);
  }

  lemma FractionEnds(d: Bytes, rest: Bytes)
    requires FractionLength(d).Some? && NumberEnd(rest)
    ensures FractionLength(d + rest) == FractionLength(d)
  {
    if d != [] {
      DropPrefix(d, rest, 1);
      DigitRunEnds(d[1..], rest);
    } else {
      assert d + rest == rest;
    }
  }

  lemma ExponentEnds(d: Bytes, rest: Bytes)
    requires ExponentLength(d) == Some(|d|) && NumberEnd(rest)
    ensures ExponentLength(d + rest) == Some(|d|)
  {
    if d != [] {
      var sign := if |d| >= 2 && (d[1] == '+' || d[1] == '-') then 2 else 1;
      DropPrefix(d, rest, sign);
      DigitRunEnds(d[sign..], rest);
    } else {
      assert d + rest == rest;
    }
  }

  lemma TailEnds(d: Bytes, rest: Bytes)
    requires TailLength(d) == Some(|d|) && NumberEnd(rest)
    ensures TailLength(d + rest) == Some(|d|)
  {
    var f := FractionLength(d).value;
    FractionEnds(d, rest);
    DropPrefix(d, rest, f);
    ExponentEnds(d[f..], rest);
  }

  // Where the integer part of a number ends.
  lemma Integer(d: Bytes, n: nat) returns (i: nat)
    requires NumberLength(d) == Some(n)
    ensures i <= n <= |d| && IntegerLength(d) == Some(i) && TailLength(d[i..]) == Some(n - i)
  {
    i := IntegerLength(d).value;
  }

  lemma IntegerThenTail(d: Bytes, i: nat, t: nat)
    requires IntegerLength(d) == Some(i) && TailLength(d[i..]) == Some(t)
    ensures NumberLength(d) == Some(i + t)
  {
  }

  lemma NumberEnds(literal: string, rest: Bytes)
    requires IsNumber(literal) && NumberEnd(rest)
    ensures NumberLength(literal + rest) == Some(|literal|)
  {
    var i := Integer(literal, |literal|);
    IntegerEnds(literal, rest);
    DropPrefix(literal, rest, i);
    TailEnds(literal[i..], rest);
    IntegerThenTail(literal + rest, i, |literal| - i);
  }

  predicate IsNumberByte(c: char) { IsDigit(c) || c in "-+.eE" }

  predicate NumberBytesTo(d: Bytes, n: nat) { n <= |d| && forall k :: 0 <= k < n ==> IsNumberByte(d[k]) }

  lemma IntegerBytes(d: Bytes, n: nat)
    requires IntegerLength(d) == Some(n)
    ensures NumberBytesTo(d, n)
  {
    var sign := if d[0] == '-' then 1 else 0;
    assert forall k :: sign <= k < n ==> d[k] == d[sign..][k - sign];
  }

  lemma FractionBytes(d: Bytes, n: nat)
    requires FractionLength(d) == Some(n)
    ensures NumberBytesTo(d, n)
  {
    assert forall k :: 1 <= k < n ==> d[k] == d[1..][k - 1];
  }

  lemma ExponentBytes(d: Bytes, n: nat)
    requires ExponentLength(d) == Some(n)
    ensures NumberBytesTo(d, n)
  {
    var sign := if |d| >= 2 && (d[1] == '+' || d[1] == '-') then 2 else 1;
    assert forall k :: sign <= k < n ==> d[k] == d[sign..][k - sign];
  }

  lemma TailBytes(d: Bytes, n: nat)
    requires TailLength(d) == Some(n)
    ensures NumberBytesTo(d, n)
  {
    var f := FractionLength(d).value;
    FractionBytes(d, f);
    ExponentBytes(d[f..], n - f);
    assert forall k :: f <= k < n ==> d[k] == d[f..][k - f];
  }

  lemma BytesJoined(d: Bytes, i: nat, n: nat)
    requires i <= n && NumberBytesTo(d, i) && NumberBytesTo(d[i..], n - i)
    ensures NumberBytesTo(d, n)
  {
    assert forall k :: i <= k < n ==> d[k] == d[i..][k - i];
  }

  lemma NumberBytes(d: Bytes, n: nat)
    requires NumberLength(d) == Some(n)
    ensures NumberBytesTo(d, n)
  {
    var i := Integer(d, n);
    IntegerBytes(d, i);
    TailBytes(d[i..], n - i);
    BytesJoined(d, i, n);
  }

  lemma NumberHead(literal: string)
    requires IsNumber(literal)
    ensures literal != [] && (IsDigit(literal[0]) || literal[0] == '-')
  {
  }

  lemma {:induction false} AllDigitsRun(s: string)
    requires forall c :: c in s ==> IsDigit(c)
    ensures DigitRun(s) == |s|
  {
    if s != [] {
      assert forall c :: c in s[1..] ==> c in s;
      assert IsDigit(s[0]);
      AllDigitsRun(s[1..]);
    }
  }

  lemma ItoaIsNumber(n: int)
    ensures IsNumber(Itoa(n))
  {
    var s := Itoa(n);
    var digits := if n < 0 then Digits(-n) else Digits(n);
    var sign := if n < 0 then 1 else 0;
    assert s[sign..] == digits && IsDigit(digits[0]);
    assert s[sign] == digits[0];
    AllDigitsRun(digits);
    assert IntegerLength(s) == Some(|s|);
    assert s[|s|..] == [];
  }

  // ----- values -----

  ghost predicate WellFormed(j: Json)
    decreases j
  {
    match j
    case Number(literal) => IsNumber(literal)
    case Array(items) => forall i :: 0 <= i < |items| ==> WellFormed(items[i])
    case Object(members) => forall k :: k in members ==> WellFormed(members[k])
    case _ => true
  }

  lemma PrintHead(style: Style, j: Json)
    requires WellFormed(j)
    ensures var p := Print(style, j); p != [] && !IsSpace(p[0]) && p[0] != ']'
  {
  }

  // What ParseValue does with each kind of first byte.

  lemma StringValue(d: Bytes, l: Literal)
    requires d != [] && d[0] == '\"' && ParseText(d[1..]) == Some(l)
    ensures ParseValue(d) == Some(Parsed(String(l.text), l.unpaired, l.rest))
  {
    assert Skip(d) == d;
  }

  lemma QuoteRoundTrip(style: Style, s: string, rest: Bytes)
    ensures ParseValue(Quote(style, s) + rest) == Some(Parsed(String(s), false, rest))
  {
    var d := Quote(style, s) + rest;
    assert d[1..] == EscapeText(style, s) + "\"" + rest;
    TextRoundTrip(style, s, rest);
    StringValue(d, Literal(s, false, rest));
  }

  lemma ArrayValue(d: Bytes)
    requires |d| >= 2 && d[0] == '[' && !IsSpace(d[1])
    ensures ParseValue(d) ==
      if d[1] == ']' then Some(Parsed(Array([]), false, d[2..])) else ParseItems(d[1..], [], false)
  {
    assert Skip(d) == d && Skip(d[1..]) == d[1..];
  }

  lemma ObjectValue(d: Bytes)
    requires |d| >= 2 && d[0] == '{' && !IsSpace(d[1])
    ensures ParseValue(d) ==
      if d[1] == '}' then Some(Parsed(Object(map[]), false, d[2..])) else ParseMembers(d[1..], map[], false)
  {
    assert Skip(d) == d && Skip(d[1..]) == d[1..];
  }

  lemma AtomValue(d: Bytes)
    requires d != [] && !IsSpace(d[0]) && d[0] != '\"' && d[0] != '[' && d[0] != '{'
    ensures ParseValue(d) == ParseAtom(d)
  {
    assert Skip(d) == d;
  }

  lemma AtomNumber(d: Bytes, n: nat)
    requires d != [] && (IsDigit(d[0]) || d[0] == '-')
    requires n <= |d| && NumberLength(d) == Some(n)
    ensures ParseAtom(d) == Some(Parsed(Number(d[..n]), false, d[n..]))
  {
  }

  lemma NumberValue(literal: string, rest: Bytes)
    requires IsNumber(literal) && NumberEnd(rest)
    ensures ParseValue(literal + rest) == Some(Parsed(Number(literal), false, rest))
  {
    var d := literal + rest;
    NumberHead(literal);
    assert d[0] == literal[0];
    AtomValue(d);
    assert ParseAtom(d) == Some(Parsed(Number(d[..|literal|]), false, d[|literal|..])) by {
      NumberEnds(literal, rest);
      AtomNumber(d, |literal|);
    }
  }

  lemma WordValue(word: string, rest: Bytes)
    requires word == "null" || word == "true" || word == "false"
    ensures ParseValue(word + rest)
         == Some(Parsed(if word == "null" then Null else Bool(word == "true"), false, rest))
  {
    var d := word + rest;
    assert d[0] == word[0];
    AtomValue(d);
    assert d[..|word|] == word && d[|word|..] == rest;
  }

  lemma {:induction false} ValueRoundTrip(style: Style, j: Json, rest: Bytes)
    requires WellFormed(j) && NumberEnd(rest)
    ensures ParseValue(Print(style, j) + rest) == Some(Parsed(j, false, rest))
    decreases j, 3, 0
  {
    match j {
      case Null => WordValue("null", rest);
      case Bool(b) => WordValue(if b then "true" else "false", rest);
      case Number(literal) => NumberValue(literal, rest);
      case String(s) => QuoteRoundTrip(style, s, rest);
      case Array(items) => ArrayRoundTrip(style, items, rest);
      case Object(_) => ObjectRoundTrip(style, j, rest);
    }
  }

  lemma {:induction false} ArrayRoundTrip(style: Style, items: seq<Json>, rest: Bytes)
    requires forall i :: 0 <= i < |items| ==> WellFormed(items[i])
    ensures ParseValue("[" + PrintItems(style, items) + "]" + rest) == Some(Parsed(Array(items), false, rest))
    decreases items, 1, 0
  {
    var d := "[" + PrintItems(style, items) + "]" + rest;
    if items == [] {
      ArrayValue(d);
      assert d[2..] == rest;
    } else {
      ItemsHead(style, items);
      assert d[1] == PrintItems(style, items)[0];
      ArrayValue(d);
      RegroupBrackets("[", PrintItems(style, items), "]", rest);
      ItemsRoundTrip(style, items, [], rest);
      assert [] + items == items;
    }
  }

  lemma {:induction false} ObjectRoundTrip(style: Style, j: Json, rest: Bytes)
    requires j.Object? && WellFormed(j)
    ensures ParseValue(Print(style, j) + rest) == Some(Parsed(j, false, rest))
    decreases j, 2, 0
  {
    var keys := Sorted(j.members.Keys);
    if keys == [] {
      assert j.members.Keys == {};
      assert j == Object(map[]);
      EmptyObject(style, rest);
    } else {
      var body := PrintMembers(style, j, keys);
      var d := "{" + body + "}" + rest;
      assert d[1] == '\"' by { MembersHead(style, j, keys); }
      ObjectValue(d);
      RegroupBrackets("{", body, "}", rest);
      MembersRoundTrip(style, j, keys, map[], rest);
      RestrictAll(j.members, keys);
    }
  }

  lemma EmptyObject(style: Style, rest: Bytes)
    ensures ParseValue(Print(style, Object(map[])) + rest) == Some(Parsed(Object(map[]), false, rest))
  {
    var j := Object(map[]);
    var d := "{" + [] + "}" + rest;
    assert Sorted(j.members.Keys) == [];
    ObjectValue(d);
    assert d[2..] == rest;
  }

  lemma MembersHead(style: Style, j: Json, keys: seq<string>)
    requires j.Object? && keys != [] && forall k :: k in keys ==> k in j.members
    ensures var p := PrintMembers(style, j, keys); p != [] && p[0] == '\"'
  {
  }

  lemma ItemsHead(style: Style, items: seq<Json>)
    requires items != [] && forall i :: 0 <= i < |items| ==> WellFormed(items[i])
    ensures var p := PrintItems(style, items); p != [] && !IsSpace(p[0]) && p[0] != ']'
  {
    PrintHead(style, items[0]);
  }

  lemma {:induction false} ItemsRoundTrip(style: Style, items: seq<Json>, done: seq<Json>, rest: Bytes)
    requires items != [] && forall i :: 0 <= i < |items| ==> WellFormed(items[i])
    ensures ParseItems(PrintItems(style, items) + "]" + rest, done, false)
      == Some(Parsed(Array(done + items), false, rest))
    decreases items, 0, 0
  {
    var d := PrintItems(style, items) + "]" + rest;
    DoneCons(done, items);
    if |items| == 1 {
      ValueRoundTrip(style, items[0], "]" + rest);
      RegroupList(Print(style, items[0]), [], "]", rest);
      ItemsStep(d, done, items[0], "]" + rest);
      assert ("]" + rest)[1..] == rest;
    } else {
      var tail := PrintItems(style, items[1..]) + "]" + rest;
      ValueRoundTrip(style, items[0], "," + tail);
      RegroupList(Print(style, items[0]), PrintItems(style, items[1..]), "]", rest);
      ItemsStep(d, done, items[0], "," + tail);
      assert ("," + tail)[1..] == tail;
      ItemsRoundTrip(style, items[1..], done + [items[0]], rest);
    }
  }

  lemma DoneCons(done: seq<Json>, items: seq<Json>)
    requires items != []
    ensures done + items == if |items| == 1 then done + [items[0]] else done + [items[0]] + items[1..]
  {
  }

  lemma ItemsStep(d: Bytes, done: seq<Json>, item: Json, rest: Bytes)
    requires ParseValue(d) == Some(Parsed(item, false, rest)) && rest != []
    ensures rest[0] == ']' ==> ParseItems(d, done, false) == Some(Parsed(Array(done + [item]), false, rest[1..]))
    ensures rest[0] == ',' ==> ParseItems(d, done, false) == ParseItems(rest[1..], done + [item], false)
  {
    assert !IsSpace(rest[0]) ==> Skip(rest) == rest;
  }

  function Restrict(members: map<string, Json>, keys: seq<string>): map<string, Json>
    requires forall k :: k in keys ==> k in members
  {
    map k | k in keys :: members[k]
  }

  lemma RestrictAll(members: map<string, Json>, keys: seq<string>)
    requires forall k :: k in keys <==> k in members
    ensures map[] + Restrict(members, keys) == members
  {
  }

  lemma RestrictCons(members: map<string, Json>, keys: seq<string>, done: map<string, Json>)
    requires keys != [] && forall k :: k in keys ==> k in members
    ensures var done' := done[keys[0] := members[keys[0]]];
      done + Restrict(members, keys) == if |keys| == 1 then done' else done' + Restrict(members, keys[1..])
  {
    assert keys == [keys[0]] + keys[1..];
  }

  lemma MembersStep(d: Bytes, done: map<string, Json>, key: string, colon: Bytes, value: Json, rest: Bytes)
    requires d != [] && d[0] == '\"' && ParseText(d[1..]) == Some(Literal(key, false, colon))
    requires colon != [] && colon[0] == ':' && ParseValue(colon[1..]) == Some(Parsed(value, false, rest))
    requires rest != []
    ensures rest[0] == '}' ==>
      ParseMembers(d, done, false) == Some(Parsed(Object(done[key := value]), false, rest[1..]))
    ensures rest[0] == ',' ==> ParseMembers(d, done, false) == ParseMembers(rest[1..], done[key := value], false)
  {
    assert Skip(d) == d && Skip(colon) == colon;
    assert !IsSpace(rest[0]) ==> Skip(rest) == rest;
  }

  lemma {:induction false} MembersRoundTrip(style: Style, j: Json, keys: seq<string>, done: map<string, Json>,
                                            rest: Bytes)
    requires j.Object? && WellFormed(j)
    requires keys != [] && forall k :: k in keys ==> k in j.members
    ensures ParseMembers(PrintMembers(style, j, keys) + "}" + rest, done, false)
         == Some(Parsed(Object(done + Restrict(j.members, keys)), false, rest))
    decreases j, 1, |keys|
  {
    var k := keys[0];
    var d := PrintMembers(style, j, keys) + "}" + rest;
    var done' := done[k := j.members[k]];
    RestrictCons(j.members, keys, done);
    if |keys| == 1 {
      MemberRoundTrip(style, j, k, done, "}" + rest);
      RegroupList(PrintMember(style, j, k), [], "}", rest);
      assert ("}" + rest)[1..] == rest;
    } else {
      var tail := PrintMembers(style, j, keys[1..]) + "}" + rest;
      MemberRoundTrip(style, j, k, done, "," + tail);
      RegroupList(PrintMember(style, j, k), PrintMembers(style, j, keys[1..]), "}", rest);
      assert ("," + tail)[1..] == tail;
      MembersRoundTrip(style, j, keys[1..], done', rest);
    }
  }

  lemma {:induction false} MemberRoundTrip(style: Style, j: Json, k: string, done: map<string, Json>, rest: Bytes)
    requires j.Object? && WellFormed(j) && k in j.members
    requires rest != [] && (rest[0] == '}' || rest[0] == ',')
    ensures var d := PrintMember(style, j, k) + rest; var done' := done[k := j.members[k]];
      ParseMembers(d, done, false) ==
      if rest[0] == '}' then Some(Parsed(Object(done'), false, rest[1..])) else ParseMembers(rest[1..], done', false)
    decreases j, 0, 0
  {
    var d := PrintMember(style, j, k) + rest;
    var value := Print(style, j.members[k]) + rest;
    RegroupMember(EscapeText(style, k), Print(style, j.members[k]), rest);
    TextRoundTrip(style, k, ":" + value);
    assert (":" + value)[1..] == value;
    ValueRoundTrip(style, j.members[k], rest);
    MembersStep(d, done, k, ":" + value, j.members[k], rest);
  }

  // Whatever the style, a printed document parses back to the value it was printed from.
  lemma DocumentRoundTrip(style: Style, j: Json)
    requires WellFormed(j)
    ensures ParseDocument(Print(style, j)) == Some(Parsed(j, false, []))
  {
    ValueRoundTrip(style, j, []);
    assert Print(style, j) + [] == Print(style, j);
  }

  // Printing is unambiguous.
  lemma PrintInjective(style: Style, a: Json, b: Json)
    requires WellFormed(a) && WellFormed(b) && Print(style, a) == Print(style, b)
    ensures a == b
  {
    DocumentRoundTrip(style, a);
    DocumentRoundTrip(style, b);
  }
}
