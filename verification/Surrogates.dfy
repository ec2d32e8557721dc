/** checkSurrogates: a scan of raw bytes that finds exactly the JSON texts in which some
    string literal holds a high-surrogate escape without a low-surrogate escape after it.
  */
module Surrogates {
  import opened Text
  import opened Json
  import opened JsonRoundTrip
  import opened Escapes

  // An escape token at the start of d that is an unpaired high surrogate.
  predicate UnpairedAt(d: Bytes) {
    var v := UnicodeEscape(d);
    v.Some? && IsHigh(v.value) && !LowFollows(d[6..])
  }

  // Read escape tokens from the left until an unpaired high surrogate turns up.
  predicate HasUnpaired(d: Bytes) {
    d != [] &&
    if d[0] == '\\' && |d| >= 2 then UnpairedAt(d) || HasUnpaired(d[2..]) else HasUnpaired(d[1..])
  }

  // ----- the scan -----

  function AddHexDigit(v: Option<nat>, c: char): Option<nat> {
    if v.Some? && HexValue(c).Some? then Some(v.value * 16 + HexValue(c).value) else None
  }

  // The value of the hex digits of b.
  function HexDigits(b: Bytes): Option<nat> {
    if b == [] then Some(0) else AddHexDigit(HexDigits(b[..|b| - 1]), b[|b| - 1])
  }

  lemma HexDigitsOfFour(b: Bytes)
    requires |b| == 4
    ensures HexDigits(b) == Hex4(b)
  {
    assert b[..1][..0] == [] && b[..2][..1] == b[..1] && b[..3][..2] == b[..2];
    assert HexDigits(b[..1]) == AddHexDigit(Some(0), b[0]);
    assert HexDigits(b[..2]) == AddHexDigit(HexDigits(b[..1]), b[1]);
    assert HexDigits(b[..3]) == AddHexDigit(HexDigits(b[..2]), b[2]);
  }

  ghost predicate HexCharacter(c: char) { exists d :: HexAt(c, d) }

  // The four digits have these values.
  predicate HexFour(b: Bytes, p: int, q: int, r: int, s: int)
    requires |b| == 4
  {
    HexAt(b[0], p) && HexAt(b[1], q) && HexAt(b[2], r) && HexAt(b[3], s)
  }

  lemma FourHexValue(b: Bytes, p: int, q: int, r: int, s: int)
    requires |b| == 4 && HexFour(b, p, q, r, s)
    ensures Hex4(b) == Some(p * 4096 + q * 256 + r * 16 + s)
  {
    HexValueIff(b[0], p);
    HexValueIff(b[1], q);
    HexValueIff(b[2], r);
    HexValueIff(b[3], s);
  }

  lemma HexCharacterIff(c: char)
    ensures HexCharacter(c) <==> HexValue(c).Some?
  {
    if HexValue(c).Some? { HexValueIff(c, HexValue(c).value); }
    if d :| HexAt(c, d) { HexValueIff(c, d); }
  }

  lemma AllHexIff(b: Bytes)
    requires |b| == 4
    ensures Hex4(b).Some? <==> forall k :: 0 <= k < 4 ==> HexCharacter(b[k])
  {
    HexCharacterIff(b[0]);
    HexCharacterIff(b[1]);
    HexCharacterIff(b[2]);
    HexCharacterIff(b[3]);
  }

  // The number of four hex digits, or nothing if there is another character among them.
  ghost predicate HexRead(b: Bytes, v: Option<nat>)
    requires |b| == 4
  {
    && (v.Some? <==> forall k :: 0 <= k < 4 ==> HexCharacter(b[k]))
    && forall p, q, r, s :: HexFour(b, p, q, r, s) ==> v == Some(p * 4096 + q * 256 + r * 16 + s)
  }

  lemma HexMeans(b: Bytes)
    requires |b| == 4
    ensures HexRead(b, Hex4(b))
  {
    AllHexIff(b);
    forall p, q, r, s | HexFour(b, p, q, r, s) ensures Hex4(b) == Some(p * 4096 + q * 256 + r * 16 + s) {
      FourHexValue(b, p, q, r, s);
    }
  }

  method ParseHex4(b: Bytes) returns (v: nat, ok: bool)
    ensures ok <==> |b| == 4 && Hex4(b).Some?
    ensures ok ==> Hex4(b) == Some(v)
  {
    if |b| != 4 {
      return 0, false;
    }
    HexDigitsOfFour(b);
    v := 0;
    for k := 0 to 4
      invariant HexDigits(b[..k]) == Some(v)
    {
      assert b[..k + 1][..k] == b[..k];
      match HexValue(b[k]) {
        case None =>
          NotHex(b, k);
          return 0, false;
        case Some(d) => v := v * 16 + d;
      }
    }
    assert b[..4] == b;
    ok := true;
  }

  lemma NotHex(b: Bytes, k: nat)
    requires |b| == 4 && k < 4 && HexValue(b[k]) == None
    ensures Hex4(b) == None
  {
  }

  method FollowedByLowSurrogate(data: Bytes, i: nat) returns (low: bool)
    requires i <= |data|
    ensures low <==> LowFollows(data[i..])
  {
    if i + 6 > |data| || data[i] != '\\' || data[i + 1] != 'u' {
      return false;
    }
    var v, ok := ParseHex4(data[i + 2..i + 6]);
    assert data[i..][2..6] == data[i + 2..i + 6];
    low := ok && 0xDC00 <= v <= 0xDFFF;
  }

  // Whether the scan from position i onwards fails.
  predicate UnpairedFrom(d: Bytes, i: nat)
    requires i <= |d|
  {
    HasUnpaired(Remaining(d, i))
  }

  lemma PairUnpaired(s: Bytes)
    requires |s| >= 2 && s[0] == '\\'
    ensures HasUnpaired(s) == (UnpairedAt(s) || HasUnpaired(s[2..]))
  {
  }

  lemma GenuineStep(d: Bytes, i: nat)
    requires i + 1 < |d| && d[i] == '\\' && RunBefore(d, i) % 2 == 0
    ensures UnpairedFrom(d, i) == (UnpairedAt(d[i..]) || UnpairedFrom(d, i + 1))
  {
    assert RunBefore(d, i + 1) % 2 == 1;
    PairUnpaired(d[i..]);
    assert d[i..][2..] == d[i + 2..];
  }

  lemma OtherStep(d: Bytes, i: nat)
    requires i < |d| && (d[i] != '\\' || RunBefore(d, i) % 2 == 1)
    ensures UnpairedFrom(d, i) == UnpairedFrom(d, i + 1)
  {
    assert RunBefore(d, i + 1) % 2 == 0;
    assert d[i..][1..] == d[i + 1..];
  }

  lemma {:induction false} TooShort(d: Bytes)
    requires |d| < 6
    ensures !HasUnpaired(d)
    decreases |d|
  {
    if d != [] {
      TooShort(d[1..]);
      if |d| >= 2 { TooShort(d[2..]); }
    }
  }

  method CheckSurrogates(data: Bytes) returns (unpaired: bool)
    ensures unpaired <==> HasUnpaired(data)
  {
    assert Remaining(data, 0) == data;
    var i := 0;
    while i + 6 <= |data|
      invariant i <= |data|
      invariant HasUnpaired(data) == UnpairedFrom(data, i)
    {
      var genuine := IsRealEscape(data, i);
      if data[i] == '\\' && genuine {
        GenuineStep(data, i);
      } else {
        OtherStep(data, i);
      }
      if data[i] != '\\' || data[i + 1] != 'u' || !genuine {
        i := i + 1;
        continue;
      }
      var v, ok := ParseHex4(data[i + 2..i + 6]);
      assert data[i..][2..6] == data[i + 2..i + 6] && data[i..][6..] == data[i + 6..];
      if ok && 0xD800 <= v <= 0xDBFF {
        var low := FollowedByLowSurrogate(data, i + 6);
        if !low {
          return true;
        }
      }
      i := i + 1;
    }
    TooShort(Remaining(data, i));
    unpaired := false;
  }

  // ----- what the scan means on JSON -----

  lemma {:induction false} SkipPlain(d: Bytes, n: nat)
    requires n <= |d| && forall i :: 0 <= i < n ==> d[i] != '\\'
    ensures HasUnpaired(d) == HasUnpaired(d[n..])
  {
    if n > 0 {
      SkipPlain(d[1..], n - 1);
      assert d[1..][n - 1..] == d[n..];
    } else {
      assert d[0..] == d;
    }
  }

  lemma {:induction false} SkipSpace(d: Bytes)
    ensures HasUnpaired(Skip(d)) == HasUnpaired(d)
    decreases |d|
  {
    if d != [] && IsSpace(d[0]) { SkipSpace(d[1..]); }
  }

  // A \uXXXX escape: its four digits are plain bytes.
  lemma UnicodeStep(d: Bytes)
    requires UnicodeEscape(d).Some?
    ensures HasUnpaired(d) == (UnpairedAt(d) || HasUnpaired(d[6..]))
  {
    assert d[2..6] == [d[2], d[3], d[4], d[5]];
    SkipPlain(d[2..], 4);
    assert d[2..][4..] == d[6..];
  }

  lemma PieceScan(d: Bytes)
    requires d != [] && d[0] != '\"' && NextPiece(d).Some?
    ensures var p := NextPiece(d).value; HasUnpaired(d) == (p.unpaired || HasUnpaired(d[p.width..]))
  {
    var p := NextPiece(d).value;
    if d[0] == '\\' && d[1] == 'u' {
      UnicodeStep(d);
      if p.width == 12 {
        UnicodeStep(d[6..]);
        assert d[6..][6..] == d[12..];
      }
    } else if d[0] == '\\' {
      assert !UnpairedAt(d);
    } else {
      RuneBytes(d);
      SkipPlain(d, p.width);
    }
  }

  lemma RuneBytes(d: Bytes)
    requires d != [] && d[0] != '\\'
    ensures var r := Utf8.DecodeRune(d); forall i :: 0 <= i < r.width ==> d[i] != '\\'
  {
  }

  lemma {:induction false} TextScan(d: Bytes)
    requires ParseText(d).Some?
    ensures var l := ParseText(d).value; HasUnpaired(d) == (l.unpaired || HasUnpaired(l.rest))
    decreases |d|
  {
    if d[0] == '\"' {
      SkipPlain(d, 1);
    } else {
      PieceScan(d);
      TextScan(d[NextPiece(d).value.width..]);
    }
  }

  lemma AtomScan(d: Bytes)
    requires d != [] && ParseAtom(d).Some?
    ensures HasUnpaired(d) == HasUnpaired(ParseAtom(d).value.rest)
    ensures !ParseAtom(d).value.unpaired
  {
    if d[0] == 'n' {
      WordScan(d, "null");
    } else if d[0] == 't' {
      WordScan(d, "true");
    } else if d[0] == 'f' {
      WordScan(d, "false");
    } else {
      var n := NumberLength(d).value;
      NumberBytes(d, n);
      SkipPlain(d, n);
    }
  }

  lemma WordScan(d: Bytes, word: Bytes)
    requires word <= d && forall i :: 0 <= i < |word| ==> word[i] != '\\'
    ensures HasUnpaired(d) == HasUnpaired(d[|word|..])
  {
    assert forall i :: 0 <= i < |word| ==> d[i] == word[i];
    SkipPlain(d, |word|);
  }

  lemma SkipByte(d: Bytes)
    requires d != [] && d[0] != '\\'
    ensures HasUnpaired(d) == HasUnpaired(d[1..])
  {
  }

  lemma {:induction false} ValueScan(d: Bytes)
    requires ParseValue(d).Some?
    ensures var p := ParseValue(d).value; HasUnpaired(d) == (p.unpaired || HasUnpaired(p.rest))
    decreases |d|, 0
  {
    var s := Skip(d);
    SkipSpace(d);
    if s[0] == '\"' {
      SkipByte(s);
      TextScan(s[1..]);
    } else if s[0] == '[' || s[0] == '{' {
      SkipByte(s);
      var t := Skip(s[1..]);
      SkipSpace(s[1..]);
      if t != [] && t[0] == (if s[0] == '[' then ']' else '}') {
        SkipByte(t);
      } else if s[0] == '[' {
        ItemsScan(s[1..], [], false);
      } else {
        MembersScan(s[1..], map[], false);
      }
    } else {
      AtomScan(s);
    }
  }

  lemma {:induction false} ItemsScan(d: Bytes, done: seq<Json>, unpaired: bool)
    requires ParseItems(d, done, unpaired).Some?
    ensures var p := ParseItems(d, done, unpaired).value;
      (unpaired || HasUnpaired(d)) == (p.unpaired || HasUnpaired(p.rest))
    decreases |d|, 1
  {
    ValueScan(d);
    var v := ParseValue(d).value;
    var t := Skip(v.rest);
    SkipSpace(v.rest);
    SkipByte(t);
    if t[0] == ',' { ItemsScan(t[1..], done + [v.value], unpaired || v.unpaired); }
  }

  lemma {:induction false} MembersScan(d: Bytes, done: map<string, Json>, unpaired: bool)
    requires ParseMembers(d, done, unpaired).Some?
    ensures var p := ParseMembers(d, done, unpaired).value;
      (unpaired || HasUnpaired(d)) == (p.unpaired || HasUnpaired(p.rest))
    decreases |d|, 1
  {
    var s := Skip(d);
    SkipSpace(d);
    SkipByte(s);
    TextScan(s[1..]);
    var k := ParseText(s[1..]).value;
    var c := Skip(k.rest);
    SkipSpace(k.rest);
    SkipByte(c);
    ValueScan(c[1..]);
    var v := ParseValue(c[1..]).value;
    var t := Skip(v.rest);
    SkipSpace(v.rest);
    SkipByte(t);
    if t[0] == ',' {
      MembersScan(t[1..], done[k.text := v.value], unpaired || k.unpaired || v.unpaired);
    }
  }

  // On a JSON text the scan fails exactly when a string literal holds an unpaired escape.
  lemma DocumentScan(d: Bytes)
    requires ParseDocument(d).Some?
    ensures HasUnpaired(d) <==> ParseDocument(d).value.unpaired
  {
    ValueScan(d);
    SkipSpace(ParseValue(d).value.rest);
  }
}
