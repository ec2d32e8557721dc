/** JSON documents: the printers of encoding/json and of the canonical form, a parser for
    the grammar of RFC 8259, and the proof that the parser undoes every printer.

    Strings follow section 7 of RFC 8259, numbers section 6.  An object is a map, as in Go's
    map[string]any: of two members with one key the later counts, and printing sorts the keys.
  */
module Json {
  import opened Text
  import opened Utf8

  datatype Json =
    | Null
    | Bool(value: bool)
    | Number(literal: string)
    | String(text: string)
    | Array(items: seq<Json>)
    | Object(members: map<string, Json>)

  // Wire is json.Marshal, Plain is json.Encoder without HTML escaping, and Canonical is
  // the spelling that internal/bundle rewrites Plain output to.
  datatype Style = Wire | Plain | Canonical

  // ----- printing -----

  function EscapeRune(style: Style, c: char): Bytes {
    if c == '\"' then "\\\""
    else if c == '\\' then "\\\\"
    else if c == 8 as char then "\\b"
    else if c == 12 as char then "\\f"
    else if c == '\n' then "\\n"
    else if c == '\r' then "\\r"
    else if c == '\t' then "\\t"
    else if c < ' ' then "\\u00" + [HexDigit(c as int / 16), HexDigit(c as int % 16)]
    else if style == Wire && (c == '<' || c == '>' || c == '&') then
      "\\u00" + [HexDigit(c as int / 16), HexDigit(c as int % 16)]
    else if style == Canonical && c == 0x7F as char then "\\u007f"
    else if style != Canonical && c == '\U{2028}' then "\\u2028"
    else if style != Canonical && c == '\U{2029}' then "\\u2029"
    else EncodeRune(c)
  }

  function EscapeText(style: Style, s: string): Bytes {
    if s == [] then [] else EscapeRune(style, s[0]) + EscapeText(style, s[1..])
  }

  function Quote(style: Style, s: string): Bytes {
    "\"" + EscapeText(style, s) + "\""
  }

  function Print(style: Style, j: Json): Bytes
    decreases j, 2, 0
  {
    match j
    case Null => "null"
    case Bool(b) => if b then "true" else "false"
    case Number(literal) => literal
    case String(s) => Quote(style, s)
    case Array(items) => "[" + PrintItems(style, items) + "]"
    case Object(members) => "{" + PrintMembers(style, j, Sorted(members.Keys)) + "}"
  }

  function PrintItems(style: Style, items: seq<Json>): Bytes
    decreases items, 0, 0
  {
    if items == [] then []
    else if |items| == 1 then Print(style, items[0])
    else Print(style, items[0]) + "," + PrintItems(style, items[1..])
  }

  function PrintMember(style: Style, j: Json, key: string): Bytes
    requires j.Object? && key in j.members
    decreases j, 0, 0
  {
    Quote(style, key) + ":" + Print(style, j.members[key])
  }

  function PrintMembers(style: Style, j: Json, keys: seq<string>): Bytes
    requires j.Object? && forall k :: k in keys ==> k in j.members
    decreases j, 1, |keys|
  {
    if keys == [] then []
    else if |keys| == 1 then PrintMember(style, j, keys[0])
    else PrintMember(style, j, keys[0]) + "," + PrintMembers(style, j, keys[1..])
  }

  // ----- string literals -----

  // One character of a string literal: what it decodes to, how many bytes it takes, and
  // whether it is a high-surrogate escape that no low-surrogate escape follows.
  datatype Piece = Piece(value: char, width: nat, unpaired: bool)

  function HexValue(c: char): Option<nat> {
    if '0' <= c <= '9' then Some(c as int - '0' as int)
    else if 'a' <= c <= 'f' then Some(c as int - 'a' as int + 10)
    else if 'A' <= c <= 'F' then Some(c as int - 'A' as int + 10)
    else None
  }

  // c is the hex digit of value d, in either case.
  predicate HexAt(c: char, d: int) { 0 <= d < 16 && (c == "0123456789abcdef"[d] || c == "0123456789ABCDEF"[d]) }

  lemma HexValueIff(c: char, d: nat)
    ensures HexValue(c) == Some(d) <==> HexAt(c, d)
  {
  }

  // The value of four hex digits, in either case.
  function Hex4(d: Bytes): (v: Option<nat>)
    ensures v.Some? ==> |d| >= 4 && v.value < 0x10000
  {
    if |d| < 4 then None
    else
      match (HexValue(d[0]), HexValue(d[1]), HexValue(d[2]), HexValue(d[3]))
      case (Some(a), Some(b), Some(c), Some(e)) =>
        assert a < 16 && b < 16 && c < 16 && e < 16;
        Some(a * 4096 + b * 256 + c * 16 + e)
      case _ => None
  }

  // The value of a \uXXXX escape at the start of d.
  function UnicodeEscape(d: Bytes): (v: Option<nat>)
    ensures v.Some? ==> |d| >= 6 && v.value < 0x10000
  {
    if |d| >= 6 && d[0] == '\\' && d[1] == 'u' then Hex4(d[2..6]) else None
  }

  predicate IsHigh(v: nat) { 0xD800 <= v <= 0xDBFF }

  predicate IsLow(v: nat) { 0xDC00 <= v <= 0xDFFF }

  predicate LowFollows(d: Bytes) {
    var v := UnicodeEscape(d);
    v.Some? && IsLow(v.value)
  }

  function SimpleEscape(c: char): Option<char> {
    if c == '\"' || c == '\\' || c == '/' then Some(c)
    else if c == 'b' then Some(8 as char)
    else if c == 'f' then Some(12 as char)
    else if c == 'n' then Some('\n')
    else if c == 'r' then Some('\r')
    else if c == 't' then Some('\t')
    else None
  }

  // The first character of a string literal's body.
  function NextPiece(d: Bytes): (p: Option<Piece>)
    requires d != [] && d[0] != '\"'
    ensures p.Some? ==> 1 <= p.value.width <= |d|
  {
    if d[0] == '\\' then
      if |d| >= 2 && d[1] == 'u' then
        match UnicodeEscape(d)
        case None => None
        case Some(v) =>
          if IsHigh(v) then
            if LowFollows(d[6..]) then
              var low := UnicodeEscape(d[6..]).value;
              Some(Piece((0x10000 + (v - 0xD800) * 0x400 + (low - 0xDC00)) as char, 12, false))
            else Some(Piece(REPLACEMENT, 6, true))
          else if IsLow(v) then Some(Piece(REPLACEMENT, 6, false))
          else Some(Piece(v as char, 6, false))
      else if |d| >= 2 && SimpleEscape(d[1]).Some? then Some(Piece(SimpleEscape(d[1]).value, 2, false))
      else None
    else if d[0] < ' ' then None
    else
      var r := DecodeRune(d);
      Some(Piece(r.value, r.width, false))
  }

  datatype Literal = Literal(text: string, unpaired: bool, rest: Bytes)

  // The body of a string literal, after its opening quote.
  function ParseText(d: Bytes): (l: Option<Literal>)
    ensures l.Some? ==> |l.value.rest| < |d|
    decreases |d|
  {
    if d == [] then None
    else if d[0] == '\"' then Some(Literal("", false, d[1..]))
    else
      match NextPiece(d)
      case None => None
      case Some(p) =>
        match ParseText(d[p.width..])
        case None => None
        case Some(l) => Some(Literal([p.value] + l.text, p.unpaired || l.unpaired, l.rest))
  }

  // ----- numbers -----

  function DigitRun(d: Bytes): (n: nat)
    ensures n <= |d|
    ensures forall i :: 0 <= i < n ==> IsDigit(d[i])
    ensures n < |d| ==> !IsDigit(d[n])
  {
    if d == [] || !IsDigit(d[0]) then 0 else 1 + DigitRun(d[1..])
  }

  function IntegerLength(d: Bytes): (n: Option<nat>)
    ensures n.Some? ==> 1 <= n.value <= |d|
  {
    var sign := if d != [] && d[0] == '-' then 1 else 0;
    if |d| <= sign || !IsDigit(d[sign]) then None
    else if d[sign] == '0' then Some(sign + 1)
    else Some(sign + DigitRun(d[sign..]))
  }

  function FractionLength(d: Bytes): (n: Option<nat>)
    ensures n.Some? ==> n.value <= |d|
  {
    if d == [] || d[0] != '.' then Some(0)
    else if DigitRun(d[1..]) == 0 then None
    else Some(1 + DigitRun(d[1..]))
  }

  function ExponentLength(d: Bytes): (n: Option<nat>)
    ensures n.Some? ==> n.value <= |d|
  {
    if d == [] || (d[0] != 'e' && d[0] != 'E') then Some(0)
    else
      var sign := if |d| >= 2 && (d[1] == '+' || d[1] == '-') then 2 else 1;
      if DigitRun(d[sign..]) == 0 then None else Some(sign + DigitRun(d[sign..]))
  }

  // A fraction and an exponent, either of which may be missing.
  function TailLength(d: Bytes): (n: Option<nat>)
    ensures n.Some? ==> n.value <= |d|
  {
    match FractionLength(d)
    case None => None
    case Some(f) =>
      match ExponentLength(d[f..])
      case None => None
      case Some(e) => Some(f + e)
  }

  function NumberLength(d: Bytes): (n: Option<nat>)
    ensures n.Some? ==> 1 <= n.value <= |d|
  {
    match IntegerLength(d)
    case None => None
    case Some(i) =>
      match TailLength(d[i..])
      case None => None
      case Some(t) => Some(i + t)
  }

  // ----- values -----

  datatype Parsed = Parsed(value: Json, unpaired: bool, rest: Bytes)

  predicate IsSpace(c: char) { c == ' ' || c == '\t' || c == '\n' || c == '\r' }

  function Skip(d: Bytes): (r: Bytes)
    ensures |r| <= |d|
    ensures r != [] ==> !IsSpace(r[0])
  {
    if d != [] && IsSpace(d[0]) then Skip(d[1..]) else d
  }

  // null, a boolean or a number.
  function ParseAtom(s: Bytes): (p: Option<Parsed>)
    requires s != []
    ensures p.Some? ==> |p.value.rest| < |s|
  {
    if s[0] == 'n' then (if "null" <= s then Some(Parsed(Null, false, s[4..])) else None)
    else if s[0] == 't' then (if "true" <= s then Some(Parsed(Bool(true), false, s[4..])) else None)
    else if s[0] == 'f' then (if "false" <= s then Some(Parsed(Bool(false), false, s[5..])) else None)
    else
      match NumberLength(s)
      case None => None
      case Some(n) => Some(Parsed(Number(s[..n]), false, s[n..]))
  }

  // The first value of d.  `unpaired` says whether some string literal of that value, be it
  // a value or an object key, holds an unpaired high-surrogate escape.
  function ParseValue(d: Bytes): (p: Option<Parsed>)
    ensures p.Some? ==> |p.value.rest| < |d|
    decreases |d|, 0
  {
    var s := Skip(d);
    if s == [] then None
    else if s[0] == '\"' then
      match ParseText(s[1..])
      case None => None
      case Some(l) => Some(Parsed(String(l.text), l.unpaired, l.rest))
    else if s[0] == '[' then
      var t := Skip(s[1..]);
      if t != [] && t[0] == ']' then Some(Parsed(Array([]), false, t[1..])) else ParseItems(s[1..], [], false)
    else if s[0] == '{' then
      var t := Skip(s[1..]);
      if t != [] && t[0] == '}' then Some(Parsed(Object(map[]), false, t[1..])) else ParseMembers(s[1..], map[], false)
    else ParseAtom(s)
  }

  // The elements of an array up to its closing bracket; `done` holds those already read.
  function ParseItems(d: Bytes, done: seq<Json>, unpaired: bool): (p: Option<Parsed>)
    ensures p.Some? ==> |p.value.rest| < |d|
    decreases |d|, 1
  {
    match ParseValue(d)
    case None => None
    case Some(v) =>
      var items := done + [v.value];
      var bad := unpaired || v.unpaired;
      var t := Skip(v.rest);
      if t == [] then None
      else if t[0] == ']' then Some(Parsed(Array(items), bad, t[1..]))
      else if t[0] == ',' then ParseItems(t[1..], items, bad)
      else None
  }

  // The members of an object up to its closing brace.
  function ParseMembers(d: Bytes, done: map<string, Json>, unpaired: bool): (p: Option<Parsed>)
    ensures p.Some? ==> |p.value.rest| < |d|
    decreases |d|, 1
  {
    var s := Skip(d);
    if s == [] || s[0] != '\"' then None
    else
      match ParseText(s[1..])
      case None => None
      case Some(k) =>
        var c := Skip(k.rest);
        if c == [] || c[0] != ':' then None
        else
          match ParseValue(c[1..])
          case None => None
          case Some(v) =>
            var members := done[k.text := v.value];
            var bad := unpaired || k.unpaired || v.unpaired;
            var t := Skip(v.rest);
            if t == [] then None
            else if t[0] == '}' then Some(Parsed(Object(members), bad, t[1..]))
            else if t[0] == ',' then ParseMembers(t[1..], members, bad)
            else None
  }

  // A whole JSON text: one value with nothing but white space around it.
  function ParseDocument(d: Bytes): Option<Parsed> {
    match ParseValue(d)
    case None => None
    case Some(p) => if Skip(p.rest) == [] then Some(p) else None
  }
}
