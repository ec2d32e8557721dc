/** Byte strings, their order, sorted key lists and decimal numbers.

    A Go string is a byte string.  Text that Go has already decoded is modelled as a Dafny
    `string`, one Unicode scalar value per element; encoded text is `Bytes`, one byte per
    element.  Byte order and scalar-value order agree on UTF-8, so one order serves both.
  */
module Text {
  datatype Option<+T> = None | Some(value: T)

  type Bytes = seq<char>

  // ----- order on strings, as sort.Strings uses it -----

  predicate Less(a: string, b: string) {
    b != [] && (a == [] || a[0] < b[0] || (a[0] == b[0] && Less(a[1..], b[1..])))
  }

  lemma {:induction false} LessIrreflexive(a: string)
    ensures !Less(a, a)
  {
    if a != [] { LessIrreflexive(a[1..]); }
  }

  lemma {:induction false} LessTransitive(a: string, b: string, c: string)
    requires Less(a, b) && Less(b, c)
    ensures Less(a, c)
  {
    if a != [] && a[0] == b[0] && b[0] == c[0] { LessTransitive(a[1..], b[1..], c[1..]); }
  }

  lemma {:induction false} LessTotal(a: string, b: string)
    ensures a == b || Less(a, b) || Less(b, a)
  {
    if a != [] && b != [] && a[0] == b[0] {
      LessTotal(a[1..], b[1..]);
      assert a == [a[0]] + a[1..] && b == [b[0]] + b[1..];
    }
  }

  // The strings agree up to n, where the first one ends or holds the smaller character.
  predicate SmallerAt(a: string, b: string, n: nat) {
    n <= |a| && n < |b| && a[..n] == b[..n] && (n == |a| || a[n] < b[n])
  }

  lemma AgreeAtFirst(a: string, b: string, n: nat)
    requires SmallerAt(a, b, n)
    ensures n > 0 ==> a[0] == b[0]
  {
    if n > 0 { assert a[0] == a[..n][0] && b[0] == b[..n][0]; }
  }

  lemma SmallerInRest(a: string, b: string, n: nat)
    requires a != [] && b != [] && a[0] == b[0] && SmallerAt(a, b, n)
    ensures n > 0 && SmallerAt(a[1..], b[1..], n - 1)
  {
    assert a[1..][..n - 1] == a[..n][1..] && b[1..][..n - 1] == b[..n][1..];
  }

  // Character by character, and a beginning of a string is less than the string.
  lemma {:induction false} LessIff(a: string, b: string)
    ensures Less(a, b) <==> exists n: nat :: SmallerAt(a, b, n)
  {
    if a != [] && b != [] && a[0] == b[0] {
      LessIff(a[1..], b[1..]);
      if Less(a[1..], b[1..]) {
        var n: nat :| SmallerAt(a[1..], b[1..], n);
        assert SmallerAt(a, b, n + 1) by {
          assert a[..n + 1] == [a[0]] + a[1..][..n] && b[..n + 1] == [b[0]] + b[1..][..n];
        }
      }
      if n: nat :| SmallerAt(a, b, n) { SmallerInRest(a, b, n); }
    } else {
      if Less(a, b) { assert SmallerAt(a, b, 0); }
      if n: nat :| SmallerAt(a, b, n) { AgreeAtFirst(a, b, n); }
    }
  }

  // ----- sorted key lists -----

  ghost predicate Increasing(ks: seq<string>) {
    forall i, j :: 0 <= i < j < |ks| ==> Less(ks[i], ks[j])
  }

  predicate IsLeast(m: string, s: set<string>) {
    m in s && forall k :: k in s && k != m ==> Less(m, k)
  }

  lemma {:induction false} LeastExists(s: set<string>)
    requires s != {}
    ensures exists m :: IsLeast(m, s)
    decreases |s|
  {
    var x :| x in s;
    if s == {x} {
      assert IsLeast(x, s);
    } else {
      var t := s - {x};
      assert s == {x} + t;
      LeastExists(t);
      var m :| IsLeast(m, t);
      LessTotal(x, m);
      if Less(m, x) {
        assert IsLeast(m, s);
      } else {
        forall k | k in s && k != x ensures Less(x, k) {
          if k != m { LessTransitive(x, m, k); }
        }
        assert IsLeast(x, s);
      }
    }
  }

  lemma LeastUnique(a: string, b: string, s: set<string>)
    requires IsLeast(a, s) && IsLeast(b, s)
    ensures a == b
  {
    if a != b {
      LessTransitive(a, b, a);
      LessIrreflexive(a);
    }
  }

  function Least(s: set<string>): (m: string)
    requires s != {}
    ensures IsLeast(m, s)
  {
    LeastExists(s);
    assert forall a, b :: IsLeast(a, s) && IsLeast(b, s) ==> a == b by {
      forall a, b | IsLeast(a, s) && IsLeast(b, s) ensures a == b { LeastUnique(a, b, s); }
    }
    var m :| m in s && IsLeast(m, s);
    m
  }

  // What sort.Strings makes of the keys of a map: every key once, in increasing order.
  function Sorted(s: set<string>): (ks: seq<string>)
    ensures Increasing(ks)
    ensures forall k :: k in ks <==> k in s
    ensures |ks| == |s|
    decreases |s|
  {
    if s == {} then []
    else
      var m := Least(s);
      var rest := Sorted(s - {m});
      assert forall k :: k in s <==> k == m || k in s - {m};
      [m] + rest
  }

  lemma {:induction false} SortedUnique(a: seq<string>, b: seq<string>)
    requires Increasing(a) && Increasing(b)
    requires forall k :: k in a <==> k in b
    ensures a == b
  {
    assert a != [] ==> a[0] in b;
    assert b != [] ==> b[0] in a;
    if a != [] {
      HeadIsLeast(a);
      HeadIsLeast(b);
      if a[0] != b[0] {
        assert a[0] in b && b[0] in a;
        LessTransitive(a[0], b[0], a[0]);
        LessIrreflexive(a[0]);
      }
      forall k ensures k in a[1..] <==> k in b[1..] {
        TailMember(a, k);
        TailMember(b, k);
      }
      SortedUnique(a[1..], b[1..]);
      assert a == [a[0]] + a[1..] && b == [b[0]] + b[1..];
    }
  }

  lemma HeadIsLeast(a: seq<string>)
    requires Increasing(a) && a != []
    ensures forall k :: k in a && k != a[0] ==> Less(a[0], k)
  {
  }

  lemma TailMember(a: seq<string>, k: string)
    requires Increasing(a) && a != []
    ensures k in a[1..] <==> k in a && k != a[0]
  {
    LessIrreflexive(a[0]);
    if k in a && k != a[0] {
      var i :| 0 <= i < |a| && a[i] == k;
      assert a[1..][i - 1] == k;
    }
  }

  lemma IncreasingDistinct(a: seq<string>)
    requires Increasing(a)
    ensures forall i, j :: 0 <= i < j < |a| ==> a[i] != a[j]
  {
    forall i, j | 0 <= i < j < |a| ensures a[i] != a[j] { LessIrreflexive(a[i]); }
  }

  // Append the keys in whatever order the map yields them, each at its place.
  method SortedKeys(keys: set<string>) returns (ks: seq<string>)
    ensures ks == Sorted(keys)
  {
    ks := [];
    var todo := keys;
    while todo != {}
      invariant todo <= keys
      invariant Increasing(ks)
      invariant forall k :: k in ks <==> k in keys - todo
      decreases |todo|
    {
      var k :| k in todo;
      ks := Insert(ks, k);
      todo := todo - {k};
    }
    SortedUnique(ks, Sorted(keys));
  }

  method Insert(ks: seq<string>, k: string) returns (r: seq<string>)
    requires Increasing(ks) && k !in ks
    ensures Increasing(r)
    ensures forall x :: x in r <==> x == k || x in ks
  {
    var i := 0;
    while i < |ks| && Less(ks[i], k)
      invariant 0 <= i <= |ks|
      invariant forall j :: 0 <= j < i ==> Less(ks[j], k)
    {
      i := i + 1;
    }
    forall j | i <= j < |ks| ensures Less(k, ks[j]) {
      LessTotal(k, ks[i]);
      if i < j { LessTransitive(k, ks[i], ks[j]); }
    }
    r := ks[..i] + [k] + ks[i..];
    assert ks == ks[..i] + ks[i..];
    assert forall x :: x in r <==> x in ks[..i] || x == k || x in ks[i..];
  }

  // ----- decimal numbers, as strconv.Itoa writes them -----

  predicate IsDigit(c: char) { '0' <= c <= '9' }

  function Digit(n: int): (c: char)
    requires 0 <= n < 10
    ensures IsDigit(c) && c as int - '0' as int == n
  {
    ('0' as int + n) as char
  }

  function Digits(n: nat): (s: string)
    ensures s != [] && forall c :: c in s ==> IsDigit(c)
    ensures s[0] == '0' ==> n == 0 && s == "0"
  {
    if n < 10 then [Digit(n)] else Digits(n / 10) + [Digit(n % 10)]
  }

  function Itoa(n: int): string {
    if n < 0 then "-" + Digits(-n) else Digits(n)
  }

  function DigitsValue(s: string): nat
    requires forall c :: c in s ==> IsDigit(c)
  {
    if s == [] then 0
    else
      assert IsDigit(s[|s| - 1]);
      10 * DigitsValue(s[..|s| - 1]) + (s[|s| - 1] as int - '0' as int)
  }

  lemma {:induction false} DigitsRoundTrip(n: nat)
    ensures DigitsValue(Digits(n)) == n
  {
    if n >= 10 {
      DigitsRoundTrip(n / 10);
      assert Digits(n)[..|Digits(n)| - 1] == Digits(n / 10);
    } else {
      assert Digits(n)[..0] == [];
    }
  }

  lemma DigitsInjective(m: nat, n: nat)
    requires Digits(m) == Digits(n)
    ensures m == n
  {
    DigitsRoundTrip(m);
    DigitsRoundTrip(n);
  }

  // fmt's "%x" of a non-negative number.
  function HexDigit(n: int): (c: char)
    requires 0 <= n < 16
  {
    if n < 10 then ('0' as int + n) as char else ('a' as int + (n - 10)) as char
  }

  function Hex(n: nat): string {
    if n < 16 then [HexDigit(n)] else Hex(n / 16) + [HexDigit(n % 16)]
  }
}
