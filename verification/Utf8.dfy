/** UTF-8 as section 3 of RFC 3629 defines it, and as Go's utf8.EncodeRune and
    utf8.DecodeRune implement it.  A byte is a `char` below 256.
  */
module Utf8 {
  import opened Text

  const REPLACEMENT := '\U{FFFD}'

  datatype Rune = Rune(value: char, width: nat)

  function Byte(n: int): (b: char)
    requires 0 <= n < 256
    ensures b as int == n
  {
    n as char
  }

  function EncodeRune(c: char): (e: Bytes)
    ensures 1 <= |e| <= 4
    ensures c as int < 0x80 ==> e == [c]
    ensures c as int >= 0x80 ==> forall i :: 0 <= i < |e| ==> 0x80 <= e[i] as int < 0x100
  {
    var n := c as int;
    if n < 0x80 then [c]
    else if n < 0x800 then [Byte(0xC0 + n / 64), Byte(0x80 + n % 64)]
    else if n < 0x10000 then
      [Byte(0xE0 + n / 4096), Byte(0x80 + n / 64 % 64), Byte(0x80 + n % 64)]
    else
      [Byte(0xF0 + n / 262144), Byte(0x80 + n / 4096 % 64), Byte(0x80 + n / 64 % 64), Byte(0x80 + n % 64)]
  }

  predicate Continuation(b: char) { 0x80 <= b as int < 0xC0 }

  // The lowest and highest second byte that may follow the lead byte b.
  function SecondByteRange(b: int): (int, int) {
    if b == 0xE0 then (0xA0, 0xBF)
    else if b == 0xED then (0x80, 0x9F)
    else if b == 0xF0 then (0x90, 0xBF)
    else if b == 0xF4 then (0x80, 0x8F)
    else (0x80, 0xBF)
  }

  // The first rune of d; a byte that starts no valid sequence reads as U+FFFD.
  function DecodeRune(d: Bytes): (r: Rune)
    requires d != []
    ensures 1 <= r.width <= |d| && r.width <= 4
  {
    var invalid := Rune(REPLACEMENT, 1);
    var b0 := d[0] as int;
    if b0 < 0x80 then Rune(d[0], 1)
    else if |d| < 2 then invalid
    else
      var b1 := d[1] as int;
      var (lo, hi) := SecondByteRange(b0);
      if b1 < lo || b1 > hi then invalid
      else if 0xC2 <= b0 <= 0xDF then Rune(((b0 - 0xC0) * 64 + (b1 - 0x80)) as char, 2)
      else if |d| < 3 || !Continuation(d[2]) then invalid
      else
        var b2 := d[2] as int;
        if 0xE0 <= b0 <= 0xEF then Rune(((b0 - 0xE0) * 4096 + (b1 - 0x80) * 64 + (b2 - 0x80)) as char, 3)
        else if |d| < 4 || !Continuation(d[3]) then invalid
        else
          var b3 := d[3] as int;
          if 0xF0 <= b0 <= 0xF4 then
            Rune(((b0 - 0xF0) * 262144 + (b1 - 0x80) * 4096 + (b2 - 0x80) * 64 + (b3 - 0x80)) as char, 4)
          else invalid
  }

  // The base-64 digits of a scalar value.
  lemma Sextets(n: nat)
    ensures n == (n / 64) * 64 + n % 64
    ensures n == (n / 4096) * 4096 + (n / 64 % 64) * 64 + n % 64
    ensures n == (n / 262144) * 262144 + (n / 4096 % 64) * 4096 + (n / 64 % 64) * 64 + n % 64
  {
    var m := n / 64;
    assert m / 64 == n / 4096 && m / 4096 == n / 262144;
    assert m == (m / 64) * 64 + m % 64;
    var k := m / 64;
    assert k == (k / 64) * 64 + k % 64;
  }

  lemma DecodeTwo(c: char, d: Bytes)
    requires 0x80 <= c as int < 0x800 && EncodeRune(c) <= d
    ensures DecodeRune(d) == Rune(c, 2)
  {
    var n := c as int;
    Sextets(n);
    assert d[0] == EncodeRune(c)[0] && d[1] == EncodeRune(c)[1];
  }

  lemma DecodeThree(c: char, d: Bytes)
    requires 0x800 <= c as int < 0x10000 && EncodeRune(c) <= d
    ensures DecodeRune(d) == Rune(c, 3)
  {
    var n := c as int;
    var x, y, z := n / 4096, n / 64 % 64, n % 64;
    Sextets(n);
    assert d[0] == EncodeRune(c)[0] && d[1] == EncodeRune(c)[1] && d[2] == EncodeRune(c)[2];
    assert d[0] as int == 0xE0 + x && d[1] as int == 0x80 + y && d[2] as int == 0x80 + z;
    assert x == 0 ==> y >= 32;
    assert x == 13 ==> y < 32;
  }

  lemma DecodeFour(c: char, d: Bytes)
    requires 0x10000 <= c as int && EncodeRune(c) <= d
    ensures DecodeRune(d) == Rune(c, 4)
  {
    var n := c as int;
    var w, x, y, z := n / 262144, n / 4096 % 64, n / 64 % 64, n % 64;
    Sextets(n);
    assert d[0] == EncodeRune(c)[0] && d[1] == EncodeRune(c)[1] && d[2] == EncodeRune(c)[2] && d[3] == EncodeRune(c)[3];
    assert d[0] as int == 0xF0 + w && d[1] as int == 0x80 + x && d[2] as int == 0x80 + y && d[3] as int == 0x80 + z;
    assert w == 0 ==> x >= 16;
    assert w == 4 ==> x < 16;
  }

  lemma DecodeEncoded(c: char, rest: Bytes)
    ensures DecodeRune(EncodeRune(c) + rest) == Rune(c, |EncodeRune(c)|)
  {
    var n := c as int;
    if n < 0x80 {
    } else if n < 0x800 {
      DecodeTwo(c, EncodeRune(c) + rest);
    } else if n < 0x10000 {
      DecodeThree(c, EncodeRune(c) + rest);
    } else {
      DecodeFour(c, EncodeRune(c) + rest);
    }
  }
}
