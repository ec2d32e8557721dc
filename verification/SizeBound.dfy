/** Base64, and the size of a sealed bundle as a DHT value (docs/format.md section 4). */
module SizeBound {
  import opened Text

  const MAX_DHT_VALUE_SIZE := 57344
  const BOX_OVERHEAD := 40

  // The base64 alphabet (RFC 4648 section 4).
  function Symbol(d: nat): char
    requires d < 64
  {
    if d < 26 then ('A' as int + d) as char
    else if d < 52 then ('a' as int + d - 26) as char
    else if d < 62 then ('0' as int + d - 52) as char
    else if d == 62 then '+' else '/'
  }

  function Digit64(c: char): Option<nat> {
    if 'A' <= c <= 'Z' then Some(c as int - 'A' as int)
    else if 'a' <= c <= 'z' then Some(c as int - 'a' as int + 26)
    else if '0' <= c <= '9' then Some(c as int - '0' as int + 52)
    else if c == '+' then Some(62)
    else if c == '/' then Some(63)
    else None
  }

  lemma DigitOfSymbol(d: nat)
    requires d < 64
    ensures Digit64(Symbol(d)) == Some(d) && Symbol(d) != '='
  {
  }

  predicate IsByte(c: char) { c as int < 256 }

  // A character as a byte; byte strings hold no others.
  function Octet(c: char): (n: nat)
    ensures n < 256 && (IsByte(c) ==> n as char == c)
  {
    if IsByte(c) then c as int else 0
  }

  // The four six-bit digits of three bytes.
  function Digits4(x: nat, y: nat, z: nat): (nat, nat, nat, nat) {
    (x / 4, x % 4 * 16 + y / 16, y % 16 * 4 + z / 64, z % 64)
  }

  function Symbols(x: nat, y: nat, z: nat): Bytes
    requires x < 256 && y < 256 && z < 256
  {
    var d := Digits4(x, y, z);
    [Symbol(d.0), Symbol(d.1), Symbol(d.2), Symbol(d.3)]
  }

  function Group1(a: char): (g: Bytes)
    ensures |g| == 4
  {
    Symbols(Octet(a), 0, 0)[..2] + ['=', '=']
  }

  function Group2(a: char, b: char): (g: Bytes)
    ensures |g| == 4
  {
    Symbols(Octet(a), Octet(b), 0)[..3] + ['=']
  }

  function Group3(a: char, b: char, c: char): (g: Bytes)
    ensures |g| == 4
  {
    Symbols(Octet(a), Octet(b), Octet(c))
  }

  // Standard base64: three bytes at a time, the last group padded.
  function Encode64(data: Bytes): Bytes {
    if data == [] then []
    else if |data| == 1 then Group1(data[0])
    else if |data| == 2 then Group2(data[0], data[1])
    else Group3(data[0], data[1], data[2]) + Encode64(data[3..])
  }

  // The bytes of four digits.
  function Bytes3(p: nat, q: nat, r: nat, t: nat): Bytes
    requires p < 64 && q < 64 && r < 64 && t < 64
  {
    [(p * 4 + q / 16) as char, (q % 16 * 16 + r / 4) as char, (r % 4 * 64 + t) as char]
  }

  lemma DigitsUndone(x: nat, y: nat, z: nat)
    requires x < 256 && y < 256 && z < 256
    ensures var d := Digits4(x, y, z);
      && d.0 < 64 && d.1 < 64 && d.2 < 64 && d.3 < 64
      && Bytes3(d.0, d.1, d.2, d.3) == [x as char, y as char, z as char]
      && (y == 0 ==> d.1 % 16 == 0) && (z == 0 ==> d.2 % 4 == 0)
  {
    var d := Digits4(x, y, z);
    assert d.1 / 16 == x % 4 && d.1 % 16 == y / 16;
    assert d.2 / 4 == y % 16 && d.2 % 4 == z / 64;
  }

  // One group of four symbols; unused bits are ignored.
  function DecodeGroup(g: Bytes): Option<Bytes>
    requires |g| == 4
  {
    var p, q, r, t := Digit64(g[0]), Digit64(g[1]), Digit64(g[2]), Digit64(g[3]);
    if p.None? || q.None? then None
    else if g[2] == '=' && g[3] == '=' then Some(Bytes3(p.value, q.value, 0, 0)[..1])
    else if r.None? then None
    else if g[3] == '=' then Some(Bytes3(p.value, q.value, r.value, 0)[..2])
    else if t.None? then None
    else Some(Bytes3(p.value, q.value, r.value, t.value))
  }

  // Only the last group may be padded.
  function DecodeGroups(text: Bytes): Option<Bytes> {
    if text == [] then Some([])
    else if |text| < 4 then None
    else
      var head := DecodeGroup(text[..4]);
      if head.None? || |text| == 4 then head
      else if |head.value| < 3 then None
      else
        var rest := DecodeGroups(text[4..]);
        if rest.None? then None else Some(head.value + rest.value)
  }

  function WithoutBreaks(text: Bytes): Bytes {
    if text == [] then [] else (if text[0] == '\r' || text[0] == '\n' then [] else [text[0]]) + WithoutBreaks(text[1..])
  }

  // Line breaks may stand anywhere.
  function Decode64(text: Bytes): Option<Bytes> { DecodeGroups(WithoutBreaks(text)) }

  lemma SymbolsDecode(x: nat, y: nat, z: nat)
    requires x < 256 && y < 256 && z < 256
    ensures DecodeGroup(Symbols(x, y, z)) == Some([x as char, y as char, z as char])
  {
    var d := Digits4(x, y, z);
    DigitsUndone(x, y, z);
    DigitOfSymbol(d.0);
    DigitOfSymbol(d.1);
    DigitOfSymbol(d.2);
    DigitOfSymbol(d.3);
  }

  lemma PaddedOnceDecodes(x: nat, y: nat)
    requires x < 256 && y < 256
    ensures DecodeGroup(Symbols(x, y, 0)[..3] + ['=']) == Some([x as char, y as char])
  {
    var d := Digits4(x, y, 0);
    DigitsUndone(x, y, 0);
    DigitOfSymbol(d.0);
    DigitOfSymbol(d.1);
    DigitOfSymbol(d.2);
    assert Bytes3(d.0, d.1, d.2, 0)[..2] == [x as char, y as char];
  }

  lemma PaddedTwiceDecodes(x: nat)
    requires x < 256
    ensures DecodeGroup(Symbols(x, 0, 0)[..2] + ['=', '=']) == Some([x as char])
  {
    var d := Digits4(x, 0, 0);
    DigitsUndone(x, 0, 0);
    DigitOfSymbol(d.0);
    DigitOfSymbol(d.1);
    assert Bytes3(d.0, d.1, 0, 0)[..1] == [x as char];
  }

  lemma DecodeCons(group: Bytes, rest: Bytes, bytes: Bytes, more: Bytes)
    requires |group| == 4 && |bytes| == 3 && DecodeGroup(group) == Some(bytes) && DecodeGroups(rest) == Some(more)
    ensures DecodeGroups(group + rest) == Some(bytes + more)
  {
    assert (group + rest)[..4] == group && (group + rest)[4..] == rest;
    assert rest == [] ==> bytes + more == bytes;
  }

  lemma LastDecodes(group: Bytes, bytes: Bytes)
    requires |group| == 4 && DecodeGroup(group) == Some(bytes)
    ensures DecodeGroups(group) == Some(bytes)
  {
    assert group[..4] == group;
  }

  lemma Group1Decodes(a: char)
    requires IsByte(a)
    ensures DecodeGroup(Group1(a)) == Some([a])
  {
    PaddedTwiceDecodes(Octet(a));
  }

  lemma Group2Decodes(a: char, b: char)
    requires IsByte(a) && IsByte(b)
    ensures DecodeGroup(Group2(a, b)) == Some([a, b])
  {
    PaddedOnceDecodes(Octet(a), Octet(b));
  }

  lemma Group3Decodes(a: char, b: char, c: char)
    requires IsByte(a) && IsByte(b) && IsByte(c)
    ensures DecodeGroup(Group3(a, b, c)) == Some([a, b, c])
  {
    SymbolsDecode(Octet(a), Octet(b), Octet(c));
  }

  lemma Rejoined(data: Bytes)
    requires |data| >= 3
    ensures [data[0], data[1], data[2]] + data[3..] == data
  {
  }

  lemma {:induction false} GroupsDecode(data: Bytes)
    requires forall k :: 0 <= k < |data| ==> IsByte(data[k])
    ensures DecodeGroups(Encode64(data)) == Some(data)
    decreases |data|
  {
    if |data| == 1 {
      Group1Decodes(data[0]);
      assert data == [data[0]];
      LastDecodes(Group1(data[0]), data);
    } else if |data| == 2 {
      Group2Decodes(data[0], data[1]);
      assert data == [data[0], data[1]];
      LastDecodes(Group2(data[0], data[1]), data);
    } else if |data| >= 3 {
      GroupsDecode(data[3..]);
      Group3Decodes(data[0], data[1], data[2]);
      DecodeCons(Group3(data[0], data[1], data[2]), Encode64(data[3..]), [data[0], data[1], data[2]], data[3..]);
      Rejoined(data);
    }
  }

  predicate NoBreaks(text: Bytes) { forall k :: 0 <= k < |text| ==> text[k] != '\r' && text[k] != '\n' }

  lemma {:induction false} NothingStripped(text: Bytes)
    requires NoBreaks(text)
    ensures WithoutBreaks(text) == text
  {
    if text != [] {
      assert forall k :: 0 <= k < |text[1..]| ==> text[1..][k] == text[k + 1];
      NothingStripped(text[1..]);
    }
  }

  lemma SymbolsUnbroken(x: nat, y: nat, z: nat)
    requires x < 256 && y < 256 && z < 256
    ensures NoBreaks(Symbols(x, y, z))
  {
  }

  lemma GroupsUnbroken(a: char, b: char, c: char)
    ensures NoBreaks(Group1(a)) && NoBreaks(Group2(a, b)) && NoBreaks(Group3(a, b, c))
  {
    SymbolsUnbroken(Octet(a), Octet(b), Octet(c));
    PaddedUnbroken(Octet(a), 0, 2);
    PaddedUnbroken(Octet(a), Octet(b), 3);
  }

  lemma PaddedUnbroken(x: nat, y: nat, n: nat)
    requires x < 256 && y < 256 && n <= 4
    ensures NoBreaks(Symbols(x, y, 0)[..n] + ['=', '=']) && NoBreaks(Symbols(x, y, 0)[..n] + ['='])
  {
    SymbolsUnbroken(x, y, 0);
  }

  lemma {:induction false} EncodedUnbroken(data: Bytes)
    ensures NoBreaks(Encode64(data))
    decreases |data|
  {
    if |data| >= 3 {
      GroupsUnbroken(data[0], data[1], data[2]);
      EncodedUnbroken(data[3..]);
    } else if data != [] {
      GroupsUnbroken(data[0], data[|data| - 1], data[0]);
    }
  }

  // Decoding undoes the encoding, wherever line breaks were put in.
  lemma EncodeDecode(data: Bytes, text: Bytes)
    requires (forall k :: 0 <= k < |data| ==> IsByte(data[k])) && WithoutBreaks(text) == Encode64(data)
    ensures Decode64(text) == Some(data) && Decode64(Encode64(data)) == Some(data)
  {
    GroupsDecode(data);
    EncodedUnbroken(data);
    NothingStripped(Encode64(data));
  }

  // ----- what decodes, and to what -----

  predicate IsSymbol(c: char) {
    'A' <= c <= 'Z' || 'a' <= c <= 'z' || '0' <= c <= '9' || c == '+' || c == '/'
  }

  // Whole groups of symbols, of which the last two at most are padding.
  predicate Padded(text: Bytes, pad: nat) {
    && |text| % 4 == 0 && pad <= 2 && pad <= |text|
    && (forall n :: 0 <= n < |text| - pad ==> IsSymbol(text[n]))
    && forall n :: |text| - pad <= n < |text| ==> text[n] == '='
  }

  ghost predicate IsBase64(text: Bytes) { exists pad: nat :: Padded(text, pad) }

  lemma GroupDecodesIff(g: Bytes)
    requires |g| == 4
    ensures Padded(g, 0) ==> DecodeGroup(g).Some? && |DecodeGroup(g).value| == 3
    ensures Padded(g, 1) ==> DecodeGroup(g).Some? && |DecodeGroup(g).value| == 2
    ensures Padded(g, 2) ==> DecodeGroup(g).Some? && |DecodeGroup(g).value| == 1
    ensures DecodeGroup(g).Some? ==> Padded(g, 3 - |DecodeGroup(g).value|)
  {
  }

  lemma PaddedRest(text: Bytes, pad: nat)
    requires |text| > 4
    ensures Padded(text, pad) <==> Padded(text[..4], 0) && Padded(text[4..], pad)
  {
    var first, rest := text[..4], text[4..];
    if Padded(first, 0) && Padded(rest, pad) {
      forall n | 0 <= n < |text| - pad ensures IsSymbol(text[n]) {
        if n < 4 { assert text[n] == first[n]; } else { assert text[n] == rest[n - 4]; }
      }
      forall n | |text| - pad <= n < |text| ensures text[n] == '=' { assert text[n] == rest[n - 4]; }
    }
    if Padded(text, pad) {
      assert forall n :: 0 <= n < |rest| ==> rest[n] == text[n + 4];
    }
  }

  // How much of the text is padding, if it is base64 at all.
  lemma {:induction false} GroupsDecodeIff(text: Bytes, pad: nat)
    ensures Padded(text, pad) ==> DecodeGroups(text).Some? && |DecodeGroups(text).value| == |text| / 4 * 3 - pad
    ensures DecodeGroups(text).Some? ==> IsBase64(text)
    decreases |text|
  {
    if text == [] {
      assert Padded(text, 0);
    } else if |text| == 4 {
      assert text[..4] == text;
      GroupDecodesIff(text);
      assert pad <= 2 ==> pad == 0 || pad == 1 || pad == 2;
    } else if |text| > 4 {
      PaddedRest(text, pad);
      GroupDecodesIff(text[..4]);
      GroupsDecodeIff(text[4..], pad);
      if DecodeGroups(text).Some? {
        var p: nat :| Padded(text[4..], p);
        PaddedRest(text, p);
      }
    }
  }

  lemma SymbolOfDigit(c: char)
    requires IsSymbol(c)
    ensures Digit64(c).Some? && Digit64(c).value < 64 && Symbol(Digit64(c).value) == c
  {
  }

  lemma BytesUndone(p: nat, q: nat, r: nat, t: nat)
    requires p < 64 && q < 64 && r < 64 && t < 64
    ensures var b := Bytes3(p, q, r, t);
      && IsByte(b[0]) && IsByte(b[1]) && IsByte(b[2])
      && Digits4(b[0] as int, b[1] as int, b[2] as int) == (p, q, r, t)
  {
    var x, y, z := p * 4 + q / 16, q % 16 * 16 + r / 4, r % 4 * 64 + t;
    assert x / 4 == p && x % 4 == q / 16;
    assert y / 16 == q % 16 && y % 16 == r / 4;
    assert z / 64 == r % 4 && z % 64 == t;
    assert x as char as int == x && y as char as int == y && z as char as int == z;
  }

  // Encoding gives the text back, up to the bits that the padding leaves unused.
  ghost predicate Agrees(text: Bytes, pad: nat, data: Bytes) {
    && |Encode64(data)| == |text| && pad <= |text|
    && forall n :: 0 <= n < |text| - pad - (if pad > 0 then 1 else 0) ==> Encode64(data)[n] == text[n]
  }

  lemma WholeGroupAgrees(g: Bytes)
    requires |g| == 4 && Padded(g, 0)
    ensures DecodeGroup(g).Some? && var b := DecodeGroup(g).value; |b| == 3 && Group3(b[0], b[1], b[2]) == g
  {
    assert IsSymbol(g[0]) && IsSymbol(g[1]) && IsSymbol(g[2]) && IsSymbol(g[3]);
    SymbolOfDigit(g[0]);
    SymbolOfDigit(g[1]);
    SymbolOfDigit(g[2]);
    SymbolOfDigit(g[3]);
    BytesUndone(Digit64(g[0]).value, Digit64(g[1]).value, Digit64(g[2]).value, Digit64(g[3]).value);
  }

  lemma OnePadAgrees(g: Bytes)
    requires |g| == 4 && Padded(g, 1)
    ensures DecodeGroup(g).Some? && Agrees(g, 1, DecodeGroup(g).value)
  {
    assert IsSymbol(g[0]) && IsSymbol(g[1]) && IsSymbol(g[2]) && g[3] == '=';
    SymbolOfDigit(g[0]);
    SymbolOfDigit(g[1]);
    SymbolOfDigit(g[2]);
    var p, q, r := Digit64(g[0]).value, Digit64(g[1]).value, Digit64(g[2]).value;
    BytesUndone(p, q, r, 0);
    var b := DecodeGroup(g).value;
    assert Encode64(b) == Group2(b[0], b[1]);
    assert Digits4(b[0] as int, b[1] as int, 0).1 == q;
  }

  lemma TwoPadsAgree(g: Bytes)
    requires |g| == 4 && Padded(g, 2)
    ensures DecodeGroup(g).Some? && Agrees(g, 2, DecodeGroup(g).value)
  {
    assert IsSymbol(g[0]) && IsSymbol(g[1]) && g[2] == '=' && g[3] == '=';
    SymbolOfDigit(g[0]);
    SymbolOfDigit(g[1]);
    BytesUndone(Digit64(g[0]).value, Digit64(g[1]).value, 0, 0);
    var b := DecodeGroup(g).value;
    assert Encode64(b) == Group1(b[0]);
  }

  lemma AgreesCons(text: Bytes, pad: nat, head: Bytes, rest: Bytes)
    requires |text| > 4 && |head| == 3 && Group3(head[0], head[1], head[2]) == text[..4]
    requires Agrees(text[4..], pad, rest)
    ensures Agrees(text, pad, head + rest)
  {
    var data := head + rest;
    assert data[3..] == rest && data[0] == head[0] && data[1] == head[1] && data[2] == head[2];
    assert Encode64(data) == text[..4] + Encode64(rest);
  }

  lemma OneGroupAgrees(g: Bytes, pad: nat)
    requires |g| == 4 && Padded(g, pad)
    ensures DecodeGroup(g).Some? && Agrees(g, pad, DecodeGroup(g).value)
  {
    if pad == 0 {
      WholeGroupAgrees(g);
      LastGroupAgrees(g);
    } else if pad == 1 {
      OnePadAgrees(g);
    } else {
      TwoPadsAgree(g);
    }
  }

  lemma {:induction false} DecodedAgrees(text: Bytes, pad: nat)
    requires Padded(text, pad)
    ensures DecodeGroups(text).Some? && Agrees(text, pad, DecodeGroups(text).value)
    decreases |text|
  {
    if |text| == 4 {
      assert text[..4] == text;
      OneGroupAgrees(text, pad);
    } else if |text| > 4 {
      PaddedRest(text, pad);
      WholeGroupAgrees(text[..4]);
      DecodedAgrees(text[4..], pad);
      var head, rest := DecodeGroup(text[..4]).value, DecodeGroups(text[4..]).value;
      DecodeCons(text[..4], text[4..], head, rest);
      assert text == text[..4] + text[4..];
      AgreesCons(text, pad, head, rest);
    }
  }

  lemma LastGroupAgrees(g: Bytes)
    requires |g| == 4 && DecodeGroup(g).Some? && |DecodeGroup(g).value| == 3
    requires var b := DecodeGroup(g).value; Group3(b[0], b[1], b[2]) == g
    ensures Agrees(g, 0, DecodeGroup(g).value)
  {
    var b := DecodeGroup(g).value;
    assert Encode64(b) == Group3(b[0], b[1], b[2]) + Encode64([]);
    assert b[3..] == [];
  }

  // A text decodes if and only if, without its line breaks, it is whole groups of symbols with
  // at most two of padding at the end; and then encoding what it decodes to gives it back, up
  // to the unused bits of the last symbol before the padding.
  lemma DecodesIff(text: Bytes, pad: nat)
    ensures Decode64(text).Some? <==> IsBase64(WithoutBreaks(text))
    ensures Padded(WithoutBreaks(text), pad) ==>
      Decode64(text).Some? && Agrees(WithoutBreaks(text), pad, Decode64(text).value)
  {
    var t := WithoutBreaks(text);
    if IsBase64(t) {
      var p: nat :| Padded(t, p);
      GroupsDecodeIff(t, p);
    }
    GroupsDecodeIff(t, pad);
    if Padded(t, pad) { DecodedAgrees(t, pad); }
  }

  // A line break makes no difference wherever it stands.
  lemma {:induction false} BreakIgnored(before: Bytes, c: char, after: Bytes)
    requires c == '\r' || c == '\n'
    ensures WithoutBreaks(before + [c] + after) == WithoutBreaks(before + after)
    ensures Decode64(before + [c] + after) == Decode64(before + after)
  {
    if before == [] {
      assert before + [c] + after == [c] + after && ([c] + after)[1..] == after && before + after == after;
    } else {
      BreakIgnored(before[1..], c, after);
      assert (before + [c] + after)[1..] == before[1..] + [c] + after;
      assert (before + after)[1..] == before[1..] + after;
    }
  }

  lemma GroupLengths(data: Bytes)
    ensures |Encode64(data)| == if data == [] then 0 else if |data| < 3 then 4 else 4 + |Encode64(data[3..])|
  {
  }

  // How many groups n bytes make.
  function Groups(n: nat): nat { (n + 2) / 3 }

  lemma OneGroupMore(n: nat, rest: nat, whole: nat)
    requires n >= 3 && rest == 4 * Groups(n - 3) && whole == 4 + rest
    ensures whole == 4 * Groups(n)
  {
  }

  lemma LastGroups(n: nat)
    requires n < 3
    ensures 4 * Groups(n) == if n == 0 then 0 else 4
  {
  }

  // Four symbols for every three bytes begun.
  lemma {:induction false} EncodedLength(data: Bytes)
    ensures |Encode64(data)| == 4 * Groups(|data|)
    decreases |data|
  {
    GroupLengths(data);
    if |data| < 3 {
      LastGroups(|data|);
    } else {
      EncodedLength(data[3..]);
      OneGroupMore(|data|, |Encode64(data[3..])|, |Encode64(data)|);
    }
  }

  // A plain text of n bytes, sealed and encoded, fits the limit if and only if n is within the
  // bound that undoes both layers -- for every limit, a multiple of four or not.
  lemma FitsIff(sealed: Bytes, n: nat, limit: nat)
    requires |sealed| == n + BOX_OVERHEAD
    ensures |Encode64(sealed)| <= limit <==> n <= 3 * (limit / 4) - BOX_OVERHEAD
  {
    EncodedLength(sealed);
    var q := limit / 4;
    assert Groups(|sealed|) <= q <==> |sealed| <= 3 * q;
  }
}
