/** encoding/json escapes what HTML would read as markup: on the wire no raw '<', '>' or '&'
    occurs, nor a line separator, whatever the texts of a document hold.
  */
module HtmlSafe {
  import opened Text
  import opened Utf8
  import opened Json
  import opened JsonRoundTrip
  import opened Bundle
  import opened Marshal
  import C = CanonicalForm

  predicate Markup(c: char) { c == '<' || c == '>' || c == '&' }

  predicate Safe(d: Bytes) { forall k :: 0 <= k < |d| ==> !Markup(d[k]) }

  lemma RuneSafe(c: char)
    ensures Safe(EscapeRune(Wire, c))
  {
    if c as int >= 0x80 && EscapeRune(Wire, c) == EncodeRune(c) {
      assert forall k :: 0 <= k < |EncodeRune(c)| ==> EncodeRune(c)[k] as int >= 0x80;
    }
  }

  lemma {:induction false} TextSafe(s: string)
    ensures Safe(EscapeText(Wire, s))
  {
    if s != [] {
      RuneSafe(s[0]);
      TextSafe(s[1..]);
    }
  }

  lemma QuoteSafe(s: string)
    ensures Safe(Quote(Wire, s))
  {
    TextSafe(s);
  }

  lemma NumberSafe(literal: string)
    requires IsNumber(literal)
    ensures Safe(literal)
  {
    NumberBytes(literal, |literal|);
  }

  lemma Enclosed(open: char, body: Bytes, close: char)
    requires Safe(body) && !Markup(open) && !Markup(close)
    ensures Safe([open] + body + [close])
  {
  }

  lemma {:induction false} PrintSafe(j: Json)
    requires WellFormed(j)
    ensures Safe(Print(Wire, j))
    decreases j, 2, 0
  {
    match j {
      case Null =>
      case Bool(_) =>
      case Number(literal) => NumberSafe(literal);
      case String(s) => QuoteSafe(s);
      case Array(items) =>
        ItemsSafe(items);
        Enclosed('[', PrintItems(Wire, items), ']');
      case Object(members) =>
        MembersSafe(j, Sorted(members.Keys));
        Enclosed('{', PrintMembers(Wire, j, Sorted(members.Keys)), '}');
    }
  }

  lemma {:induction false} ItemsSafe(items: seq<Json>)
    requires forall i :: 0 <= i < |items| ==> WellFormed(items[i])
    ensures Safe(PrintItems(Wire, items))
    decreases items, 0, 0
  {
    if items != [] {
      PrintSafe(items[0]);
      ItemsSafe(items[1..]);
    }
  }

  lemma {:induction false} MembersSafe(j: Json, keys: seq<string>)
    requires j.Object? && WellFormed(j) && forall k :: k in keys ==> k in j.members
    ensures Safe(PrintMembers(Wire, j, keys))
    decreases j, 1, |keys|
  {
    if keys != [] {
      QuoteSafe(keys[0]);
      PrintSafe(j.members[keys[0]]);
      MembersSafe(j, keys[1..]);
    }
  }

  // What the controller puts on the wire holds no markup.
  lemma WireIsSafe(b: Bundle)
    ensures Safe(C.MarshalBundle(b))
  {
    BundleWellFormed(b);
    PrintSafe(BundleJson(b));
  }
}
