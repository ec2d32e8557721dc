/** The byte scanners of internal/bundle.

    unescapeLineSeparators and checkSurrogates look at raw bytes and tell an escape from
    escaped text by the parity of the backslashes before it.  Here each scanner is proved to
    do, on every input, what a left-to-right reading of escape tokens does; and on JSON that
    token reading is proved to mean what it should.
  */
module Escapes {
  import opened Text
  import opened Utf8
  import opened Json
  import opened JsonRoundTrip

  // ----- which backslashes start an escape -----

  // The number of consecutive backslashes right before position i.
  function RunBefore(d: Bytes, i: nat): nat
    requires i <= |d|
  {
    if i > 0 && d[i - 1] == '\\' then 1 + RunBefore(d, i - 1) else 0
  }

  method IsRealEscape(data: Bytes, i: nat) returns (genuine: bool)
    requires i < |data|
    ensures genuine <==> RunBefore(data, i) % 2 == 0
  {
    var n: nat := 0;
    var j: nat := i;
    while j > 0 && data[j - 1] == '\\'
      invariant j <= i
      invariant n + RunBefore(data, j) == RunBefore(data, i)
    {
      n := n + 1;
      j := j - 1;
    }
    genuine := n % 2 == 0;
  }

  // What is left to read at position i: inside an escape pair the second byte is literal.
  function Remaining(d: Bytes, i: nat): Bytes
    requires i <= |d|
  {
    if i < |d| && RunBefore(d, i) % 2 == 1 then d[i + 1..] else d[i..]
  }

  // ----- line separators and DEL -----

  predicate IsSeparator(d: Bytes) {
    |d| >= 6 && d[0] == '\\' && (d[1..6] == "u2028" || d[1..6] == "u2029")
  }

  function RawSeparator(d: Bytes): Bytes
    requires IsSeparator(d)
  {
    if d[5] == '8' then EncodeRune('\U{2028}') else EncodeRune('\U{2029}')
  }

  // Read escape tokens from the left: \u2028 and \u2029 become raw characters, any other
  // backslash is kept together with the byte it escapes.
  function Unescape(d: Bytes): Bytes {
    if d == [] then []
    else if IsSeparator(d) then RawSeparator(d) + Unescape(d[6..])
    else if d[0] == '\\' && |d| >= 2 then d[..2] + Unescape(d[2..])
    else [d[0]] + Unescape(d[1..])
  }

  function EscapeDel(d: Bytes): Bytes {
    if d == [] then [] else (if d[0] == 0x7F as char then "\\u007f" else [d[0]]) + EscapeDel(d[1..])
  }

  function Normalize(d: Bytes): Bytes { EscapeDel(Unescape(d)) }

  // The rest of the output when position i has been reached.
  function UnescapeFrom(d: Bytes, i: nat): Bytes
    requires i <= |d|
  {
    if i < |d| && RunBefore(d, i) % 2 == 1 then [d[i]] + Unescape(d[i + 1..]) else Unescape(d[i..])
  }

  lemma SeparatorStep(d: Bytes, i: nat)
    requires i < |d| && RunBefore(d, i) % 2 == 0 && IsSeparator(d[i..])
    ensures i + 6 <= |d| && UnescapeFrom(d, i) == RawSeparator(d[i..]) + UnescapeFrom(d, i + 6)
  {
    assert d[i + 5] == d[i..][1..6][4];
    assert RunBefore(d, i + 6) == 0;
    assert d[i..][6..] == d[i + 6..];
  }

  lemma UnescapePair(s: Bytes)
    requires |s| >= 2 && s[0] == '\\' && !IsSeparator(s)
    ensures Unescape(s) == [s[0]] + ([s[1]] + Unescape(s[2..]))
  {
    assert s[..2] == [s[0]] + [s[1]];
    Regroup([s[0]], [s[1]], Unescape(s[2..]));
  }

  lemma PairStep(d: Bytes, i: nat)
    requires i + 1 < |d| && RunBefore(d, i) % 2 == 0 && d[i] == '\\' && !IsSeparator(d[i..])
    ensures UnescapeFrom(d, i) == [d[i]] + UnescapeFrom(d, i + 1)
  {
    assert RunBefore(d, i + 1) % 2 == 1;
    UnescapePair(d[i..]);
    assert d[i..][2..] == d[i + 2..];
  }

  lemma UnescapeHead(d: Bytes)
    requires d != [] && d[0] != '\\'
    ensures Unescape(d) == [d[0]] + Unescape(d[1..])
  {
  }

  lemma LiteralStep(d: Bytes, i: nat)
    requires i < |d| && RunBefore(d, i) % 2 == 1
    ensures UnescapeFrom(d, i) == [d[i]] + UnescapeFrom(d, i + 1)
  {
    assert RunBefore(d, i + 1) % 2 == 0;
  }

  lemma PlainStep(d: Bytes, i: nat)
    requires i < |d| && RunBefore(d, i) % 2 == 0 && d[i] != '\\'
    ensures UnescapeFrom(d, i) == [d[i]] + UnescapeFrom(d, i + 1)
  {
    assert RunBefore(d, i + 1) == 0;
    UnescapeHead(d[i..]);
    assert d[i..][1..] == d[i + 1..];
  }

  lemma LastStep(d: Bytes, i: nat)
    requires i + 1 == |d| && RunBefore(d, i) % 2 == 0 && d[i] == '\\'
    ensures UnescapeFrom(d, i) == [d[i]] + UnescapeFrom(d, i + 1)
  {
    assert d[i..] == [d[i]];
    assert d[i + 1..] == [];
  }

  // Every byte that starts no separator escape is copied.
  lemma CopyStep(d: Bytes, i: nat)
    requires i < |d| && !(RunBefore(d, i) % 2 == 0 && IsSeparator(d[i..]))
    ensures UnescapeFrom(d, i) == [d[i]] + UnescapeFrom(d, i + 1)
  {
    if RunBefore(d, i) % 2 == 1 {
      LiteralStep(d, i);
    } else if d[i] != '\\' {
      PlainStep(d, i);
    } else if i + 1 == |d| {
      LastStep(d, i);
    } else {
      PairStep(d, i);
    }
  }

  lemma SeparatorAt(d: Bytes, i: nat)
    requires i + 6 <= |d| && d[i] == '\\'
    ensures IsSeparator(d[i..]) <==> d[i + 1..i + 6] == "u2028" || d[i + 1..i + 6] == "u2029"
    ensures IsSeparator(d[i..]) ==>
      RawSeparator(d[i..]) == if d[i + 5] == '8' then ['\U{E2}', '\U{80}', '\U{A8}'] else ['\U{E2}', '\U{80}', '\U{A9}']
  {
    assert d[i..][1..6] == d[i + 1..i + 6];
  }

  method StartsSeparator(data: Bytes, i: nat) returns (starts: bool)
    requires i < |data|
    ensures starts <==> RunBefore(data, i) % 2 == 0 && IsSeparator(data[i..])
  {
    if data[i] != '\\' || i + 6 > |data| {
      return false;
    }
    SeparatorAt(data, i);
    var text := data[i + 1..i + 6];
    if text != "u2028" && text != "u2029" {
      return false;
    }
    starts := IsRealEscape(data, i);
  }

  method UnescapeLineSeparators(data: Bytes) returns (out: Bytes)
    ensures out == Unescape(data)
  {
    out := [];
    var i := 0;
    while i < |data|
      invariant i <= |data|
      invariant out + UnescapeFrom(data, i) == Unescape(data)
    {
      var separator := StartsSeparator(data, i);
      if separator {
        SeparatorStep(data, i);
        SeparatorAt(data, i);
        Regroup(out, RawSeparator(data[i..]), UnescapeFrom(data, i + 6));
        out := out + if data[i + 5] == '8' then ['\U{E2}', '\U{80}', '\U{A8}'] else ['\U{E2}', '\U{80}', '\U{A9}'];
        i := i + 6;
      } else {
        CopyStep(data, i);
        Regroup(out, [data[i]], UnescapeFrom(data, i + 1));
        out := out + [data[i]];
        i := i + 1;
      }
    }
  }

  lemma {:induction false} EscapeDelConcat(a: Bytes, b: Bytes)
    ensures EscapeDel(a + b) == EscapeDel(a) + EscapeDel(b)
  {
    if a == [] {
      assert a + b == b;
    } else {
      assert (a + b)[1..] == a[1..] + b;
      EscapeDelConcat(a[1..], b);
    }
  }

  method EscapeRawDel(data: Bytes) returns (out: Bytes)
    ensures out == EscapeDel(data)
  {
    out := [];
    for i := 0 to |data|
      invariant out == EscapeDel(data[..i])
    {
      assert data[..i + 1] == data[..i] + [data[i]];
      EscapeDelConcat(data[..i], [data[i]]);
      if data[i] == 0x7F as char {
        out := out + "\\u007f";
      } else {
        out := out + [data[i]];
      }
    }
    assert data[..|data|] == data;
  }

  // Of every document in the spelling of encoding/json it makes the canonical spelling.
  method NormalizeEscapes(data: Bytes) returns (out: Bytes)
    ensures out == Normalize(data)
    ensures forall j :: WellFormed(j) && data == Print(Plain, j) ==> out == Print(Style.Canonical, j)
  {
    out := UnescapeLineSeparators(data);
    out := EscapeRawDel(out);
    forall j | WellFormed(j) && data == Print(Plain, j) ensures out == Print(Style.Canonical, j) { PrintNormalizes(j); }
  }

  // ----- what normalizing a printed document amounts to -----

  // Escape tokens do not straddle the end of a.
  ghost predicate Closed(a: Bytes) {
    forall rest: Bytes :: Unescape(a + rest) == Unescape(a) + Unescape(rest)
  }

  // a is a run of whole tokens, and b is its normal form.
  ghost predicate Normalizes(a: Bytes, b: Bytes) { Closed(a) && Normalize(a) == b }

  lemma NormalizesConcat(a: Bytes, a': Bytes, b: Bytes, b': Bytes)
    requires Normalizes(a, a') && Normalizes(b, b')
    ensures Normalizes(a + b, a' + b')
  {
    forall rest: Bytes ensures Unescape(a + b + rest) == Unescape(a + b) + Unescape(rest) {
      Regroup(a, b, rest);
      Regroup(Unescape(a), Unescape(b), Unescape(rest));
    }
    EscapeDelConcat(Unescape(a), Unescape(b));
  }

  predicate Unaffected(a: Bytes) {
    forall i :: 0 <= i < |a| ==> a[i] != '\\' && a[i] != 0x7F as char
  }

  lemma {:induction false} UnaffectedScan(a: Bytes, rest: Bytes)
    requires Unaffected(a)
    ensures Unescape(a + rest) == a + Unescape(rest)
    ensures EscapeDel(a) == a
  {
    if a == [] {
      assert a + rest == rest;
    } else {
      DropPrefix(a, rest, 1);
      UnaffectedScan(a[1..], rest);
      UnescapeHead(a + rest);
      Regroup([a[0]], a[1..], Unescape(rest));
      assert a == [a[0]] + a[1..];
    }
  }

  lemma UnaffectedNormalizes(a: Bytes)
    requires Unaffected(a)
    ensures Normalizes(a, a)
  {
    forall rest: Bytes ensures Unescape(a + rest) == a + Unescape(rest) { UnaffectedScan(a, rest); }
    UnaffectedScan(a, []);
    assert a + [] == a;
  }

  // A two-byte escape, alone or as the start of a \u00XX escape.
  lemma PairScan(e: Bytes, rest: Bytes)
    requires |e| == 2 && e[0] == '\\'
    requires e[1] != 'u' || (rest != [] && rest[0] == '0')
    ensures Unescape(e + rest) == e + Unescape(rest)
  {
    var d := e + rest;
    assert |d| >= 6 ==> d[1..6][0] == e[1];
    assert |d| >= 6 && e[1] == 'u' ==> d[1..6][1] == '0';
    assert !IsSeparator(d);
    assert d[..2] == e && d[2..] == rest;
  }

  lemma PairNormalizes(e: Bytes)
    requires |e| == 2 && e[0] == '\\' && e[1] != 'u' && e[1] != 0x7F as char
    ensures Normalizes(e, e)
  {
    forall rest: Bytes ensures Unescape(e + rest) == e + Unescape(rest) { PairScan(e, rest); }
    PairScan(e, []);
    assert e + [] == e;
    assert e == [e[0]] + [e[1]] && EscapeDel([e[1]]) == [e[1]];
  }

  lemma ControlNormalizes(hex: Bytes)
    requires |hex| == 4 && hex[0] == '0' && Unaffected(hex)
    ensures Normalizes("\\u" + hex, "\\u" + hex)
  {
    var e := "\\u" + hex;
    forall rest: Bytes ensures Unescape(e + rest) == e + Unescape(rest) {
      assert e + rest == "\\u" + (hex + rest);
      PairScan("\\u", hex + rest);
      UnaffectedScan(hex, rest);
      Regroup("\\u", hex, Unescape(rest));
    }
    assert e + [] == e && Unescape([]) == [];
    EscapeDelConcat("\\u", hex);
    UnaffectedScan(hex, []);
    assert "\\u" == ['\\'] + ['u'] && EscapeDel(['u']) == ['u'];
  }

  lemma SeparatorNormalizes(e: Bytes)
    requires |e| == 6 && IsSeparator(e)
    ensures Normalizes(e, RawSeparator(e))
  {
    forall rest: Bytes ensures Unescape(e + rest) == RawSeparator(e) + Unescape(rest) {
      var d := e + rest;
      assert d[1..6] == e[1..6] && d[5] == e[5] && d[6..] == rest;
    }
    assert Unescape(e + []) == RawSeparator(e) + Unescape([]);
    assert e + [] == e && RawSeparator(e) + [] == RawSeparator(e);
    UnaffectedScan(RawSeparator(e), []);
  }

  lemma DelNormalizes(e: Bytes)
    requires e == [0x7F as char]
    ensures Normalizes(e, "\\u007f")
  {
    forall rest: Bytes ensures Unescape(e + rest) == e + Unescape(rest) {
      assert (e + rest)[1..] == rest;
    }
    assert Unescape(e) == e;
    assert EscapeDel(e) == "\\u007f" + EscapeDel([]);
  }

  lemma RuneNormalizes(c: char)
    ensures Normalizes(EscapeRune(Plain, c), EscapeRune(Style.Canonical, c))
  {
    var e := EscapeRune(Plain, c);
    if e[0] == '\\' && |e| == 2 {
      PairNormalizes(e);
    } else if c < ' ' {
      assert e == "\\u" + e[2..];
      ControlNormalizes(e[2..]);
    } else if c == '\U{2028}' || c == '\U{2029}' {
      SeparatorNormalizes(e);
    } else if c == 0x7F as char {
      DelNormalizes(e);
    } else {
      UnaffectedNormalizes(e);
    }
  }

  lemma {:induction false} TextNormalizes(s: string)
    ensures Normalizes(EscapeText(Plain, s), EscapeText(Style.Canonical, s))
  {
    if s == [] {
      UnaffectedNormalizes([]);
    } else {
      RuneNormalizes(s[0]);
      TextNormalizes(s[1..]);
      NormalizesConcat(EscapeRune(Plain, s[0]), EscapeRune(Style.Canonical, s[0]),
                       EscapeText(Plain, s[1..]), EscapeText(Style.Canonical, s[1..]));
    }
  }

  // Unaffected bytes may be put around what normalizes.
  lemma Wrap(open: Bytes, a: Bytes, b: Bytes, close: Bytes)
    requires Unaffected(open) && Unaffected(close) && Normalizes(a, b)
    ensures Normalizes(open + a + close, open + b + close)
  {
    UnaffectedNormalizes(open);
    UnaffectedNormalizes(close);
    NormalizesConcat(open, open, a, b);
    NormalizesConcat(open + a, open + b, close, close);
  }

  lemma QuoteNormalizes(s: string)
    ensures Normalizes(Quote(Plain, s), Quote(Style.Canonical, s))
  {
    TextNormalizes(s);
    Wrap("\"", EscapeText(Plain, s), EscapeText(Style.Canonical, s), "\"");
  }

  lemma NumberUnaffected(literal: string)
    requires IsNumber(literal)
    ensures Unaffected(literal)
  {
    NumberBytes(literal, |literal|);
  }

  // The rewrite turns encoding/json's spelling of a document into the canonical spelling:
  // it converts every genuine escape and no text that only looks like one.
  lemma {:induction false} PrintNormalizes(j: Json)
    requires WellFormed(j)
    ensures Normalizes(Print(Plain, j), Print(Style.Canonical, j))
    decreases j, 2, 0
  {
    match j {
      case Null => UnaffectedNormalizes("null");
      case Bool(b) => UnaffectedNormalizes(if b then "true" else "false");
      case Number(literal) => NumberUnaffected(literal); UnaffectedNormalizes(literal);
      case String(s) => QuoteNormalizes(s);
      case Array(items) =>
        ItemsNormalize(items);
        Wrap("[", PrintItems(Plain, items), PrintItems(Style.Canonical, items), "]");
      case Object(members) =>
        var keys := Sorted(members.Keys);
        MembersNormalize(j, keys);
        Wrap("{", PrintMembers(Plain, j, keys), PrintMembers(Style.Canonical, j, keys), "}");
    }
  }

  lemma {:induction false} ItemsNormalize(items: seq<Json>)
    requires forall i :: 0 <= i < |items| ==> WellFormed(items[i])
    ensures Normalizes(PrintItems(Plain, items), PrintItems(Style.Canonical, items))
    decreases items, 0, 0
  {
    if items == [] {
      UnaffectedNormalizes([]);
    } else if |items| == 1 {
      PrintNormalizes(items[0]);
    } else {
      PrintNormalizes(items[0]);
      UnaffectedNormalizes(",");
      NormalizesConcat(Print(Plain, items[0]), Print(Style.Canonical, items[0]), ",", ",");
      ItemsNormalize(items[1..]);
      NormalizesConcat(Print(Plain, items[0]) + ",", Print(Style.Canonical, items[0]) + ",",
                       PrintItems(Plain, items[1..]), PrintItems(Style.Canonical, items[1..]));
    }
  }

  lemma {:induction false} MemberNormalizes(j: Json, key: string)
    requires j.Object? && WellFormed(j) && key in j.members
    ensures Normalizes(PrintMember(Plain, j, key), PrintMember(Style.Canonical, j, key))
    decreases j, 0, 0
  {
    QuoteNormalizes(key);
    UnaffectedNormalizes(":");
    NormalizesConcat(Quote(Plain, key), Quote(Style.Canonical, key), ":", ":");
    PrintNormalizes(j.members[key]);
    NormalizesConcat(Quote(Plain, key) + ":", Quote(Style.Canonical, key) + ":",
                     Print(Plain, j.members[key]), Print(Style.Canonical, j.members[key]));
  }

  lemma {:induction false} MembersNormalize(j: Json, keys: seq<string>)
    requires j.Object? && WellFormed(j) && forall k :: k in keys ==> k in j.members
    ensures Normalizes(PrintMembers(Plain, j, keys), PrintMembers(Style.Canonical, j, keys))
    decreases j, 1, |keys|
  {
    if keys == [] {
      UnaffectedNormalizes([]);
    } else {
      var k := keys[0];
      MemberNormalizes(j, k);
      if |keys| > 1 {
        UnaffectedNormalizes(",");
        NormalizesConcat(PrintMember(Plain, j, k), PrintMember(Style.Canonical, j, k), ",", ",");
        MembersNormalize(j, keys[1..]);
        NormalizesConcat(PrintMember(Plain, j, k) + ",", PrintMember(Style.Canonical, j, k) + ",",
                         PrintMembers(Plain, j, keys[1..]), PrintMembers(Style.Canonical, j, keys[1..]));
      }
    }
  }
}
