/** Integers through a float64, as json.Unmarshal into `any` and json.Encoder pass them: rounded to
    53 bits, and printed with the fewest digits that read back as the same float64.
  */
module Doubles {
  import opened Text

  const TWO_52 := 4503599627370496
  const TWO_53 := 9007199254740992

  // How often m must be halved to fit the 53 bits of a float64.
  function Excess(m: nat): nat { if m < TWO_53 then 0 else 1 + Excess(m / 2) }

  function Pow2(n: nat): (p: nat)
    ensures p > 0
  {
    if n == 0 then 1 else 2 * Pow2(n - 1)
  }

  // The nearest multiple of u, ties to even.
  function RoundTo(m: nat, u: nat): nat
    requires u > 0
  {
    var q, r := m / u, m % u;
    if 2 * r < u || (2 * r == u && q % 2 == 0) then q * u else (q + 1) * u
  }

  // The float64 nearest to m.
  function RoundMagnitude(m: nat): nat { RoundTo(m, Pow2(Excess(m))) }

  function RoundToDouble(n: int): int {
    if n < 0 then 0 - RoundMagnitude(-n) else RoundMagnitude(n)
  }

  // A multiple of p that reads back as the float64 m: the nearer of the two around m if both do.
  function Candidate(m: nat, p: nat): Option<nat>
    requires p > 0
  {
    var low, high := m / p * p, m / p * p + p;
    var lower, upper := RoundMagnitude(low) == m, RoundMagnitude(high) == m;
    if lower && upper then Some(RoundTo(m, p))
    else if lower then Some(low)
    else if upper then Some(high)
    else None
  }

  // The decimal with the fewest digits before its zeros that reads back as the float64 m.
  function Shortest(m: nat, p: nat): nat
    requires p > 0
    decreases if p <= m then m - p + 1 else 0
  {
    if p <= m && Candidate(m, 10 * p).Some? then Shortest(m, 10 * p)
    else match Candidate(m, p) case Some(s) => s case None => m
  }

  // What is printed for the float64 d, an integer below 10^21.
  function Spelled(d: int): int { if d < 0 then 0 - Shortest(-d, 1) else Shortest(d, 1) }

  lemma RoundSmall(m: nat)
    requires m <= TWO_53
    ensures RoundMagnitude(m) == m
  {
    if m == TWO_53 {
      assert m / 2 < TWO_53 && m % 2 == 0;
      assert Excess(m / 2) == 0 && Excess(m) == 1;
      assert Pow2(1) == 2 * Pow2(0);
    } else {
      assert Pow2(0) == 1;
    }
  }

  // ----- rounding twice -----

  lemma {:induction false} ExcessBounds(m: nat)
    requires m >= TWO_53
    ensures Pow2(Excess(m)) >= 2 && TWO_52 * Pow2(Excess(m)) <= m < TWO_53 * Pow2(Excess(m))
  {
    assert Pow2(Excess(m)) == 2 * Pow2(Excess(m / 2));
    if m / 2 < TWO_53 {
      assert Pow2(0) == 1;
    } else {
      ExcessBounds(m / 2);
    }
  }

  lemma ProductsOrdered(a: nat, b: nat, d: nat)
    requires a <= b
    ensures a * d <= b * d
  {
  }

  lemma DivisionBounds(m: nat, d: nat)
    requires d > 0
    ensures m / d * d <= m < (m / d + 1) * d
  {
    assert m == m / d * d + m % d;
  }

  lemma Quotient(m: nat, ulp: nat)
    requires ulp > 0 && TWO_52 * ulp <= m < TWO_53 * ulp
    ensures TWO_52 <= m / ulp < TWO_53
  {
    var q := m / ulp;
    DivisionBounds(m, ulp);
    if q < TWO_52 { ProductsOrdered(q + 1, TWO_52, ulp); }
    if q >= TWO_53 { ProductsOrdered(TWO_53, q, ulp); }
  }

  lemma Doubled(half: nat)
    requires half >= TWO_52
    ensures Excess(2 * half) == 1 + Excess(half)
  {
  }

  lemma TwiceAsMuch(q: nat, p: nat)
    ensures q * (2 * p) == 2 * (q * p)
  {
  }

  lemma {:induction false} ExcessOfMultiple(q: nat, e: nat)
    requires TWO_52 <= q < TWO_53
    ensures Excess(q * Pow2(e)) == e
    decreases e
  {
    if e > 0 {
      var p := Pow2(e - 1);
      TwiceAsMuch(q, p);
      ProductsOrdered(1, p, q);
      ExcessOfMultiple(q, e - 1);
      Doubled(q * p);
    }
  }

  lemma DivideOut(q: nat, ulp: nat)
    requires ulp > 0
    ensures q * ulp / ulp == q && q * ulp % ulp == 0
  {
    var q' := q * ulp / ulp;
    DivisionBounds(q * ulp, ulp);
    if q' < q { ProductsOrdered(q' + 1, q, ulp); }
    if q' > q { ProductsOrdered(q + 1, q', ulp); }
    assert q * ulp == q' * ulp + q * ulp % ulp;
  }

  lemma MultipleStays(q: nat, e: nat)
    requires TWO_52 <= q < TWO_53
    ensures RoundMagnitude(q * Pow2(e)) == q * Pow2(e)
  {
    ExcessOfMultiple(q, e);
    DivideOut(q, Pow2(e));
  }

  lemma NextMultipleStays(q: nat, e: nat)
    requires TWO_52 <= q <= TWO_53
    ensures RoundMagnitude(q * Pow2(e)) == q * Pow2(e)
  {
    if q == TWO_53 {
      assert Pow2(e + 1) == 2 * Pow2(e);
      assert TWO_53 * Pow2(e) == TWO_52 * Pow2(e + 1);
      MultipleStays(TWO_52, e + 1);
    } else {
      MultipleStays(q, e);
    }
  }

  // The distance from m to d is at most half of u; at exactly half, d is an even multiple of u.
  predicate Nearest(m: nat, d: nat, u: nat)
    requires u > 0
  {
    d % u == 0 && 2 * (m - d) <= u && 2 * (d - m) <= u && (2 * (m - d) == u || 2 * (d - m) == u ==> d / u % 2 == 0)
  }

  lemma RoundToNearest(m: nat, u: nat)
    requires u > 0
    ensures Nearest(m, RoundTo(m, u), u)
  {
    var q, r := m / u, m % u;
    assert m == q * u + r;
    if 2 * r < u || (2 * r == u && q % 2 == 0) { DownIsNearest(m, q, r, u); } else { UpIsNearest(m, q, r, u); }
  }

  // Rounding goes to the nearest multiple of the unit that leaves 53 bits, ties to even.
  lemma RoundsToNearest(m: nat, u: nat)
    requires m >= TWO_53 && u == Pow2(Excess(m))
    ensures TWO_52 * u <= m < TWO_53 * u && Nearest(m, RoundMagnitude(m), u)
  {
    ExcessBounds(m);
    RoundToNearest(m, u);
  }

  lemma DownIsNearest(m: nat, q: nat, r: nat, u: nat)
    requires u > 0 && m == q * u + r && (2 * r < u || (2 * r == u && q % 2 == 0))
    ensures Nearest(m, q * u, u)
  {
    DivideOut(q, u);
  }

  lemma UpIsNearest(m: nat, q: nat, r: nat, u: nat)
    requires u > 0 && m == q * u + r && r < u && (2 * r > u || (2 * r == u && q % 2 == 1))
    ensures Nearest(m, (q + 1) * u, u)
  {
    DivideOut(q + 1, u);
    assert (q + 1) * u == q * u + u;
    assert q % 2 == 1 ==> (q + 1) % 2 == 0;
  }

  // What is rounded once is a float64.
  lemma RoundTwice(m: nat)
    ensures RoundMagnitude(RoundMagnitude(m)) == RoundMagnitude(m)
  {
    if m < TWO_53 {
      RoundSmall(m);
    } else {
      ExcessBounds(m);
      Quotient(m, Pow2(Excess(m)));
      NextMultipleStays(m / Pow2(Excess(m)), Excess(m));
      NextMultipleStays(m / Pow2(Excess(m)) + 1, Excess(m));
    }
  }

  lemma LargeStaysLarge(m: nat)
    requires m >= TWO_53
    ensures RoundMagnitude(m) >= TWO_53
  {
    var ulp := Pow2(Excess(m));
    ExcessBounds(m);
    Quotient(m, ulp);
    AtLeast(m / ulp, ulp);
    AtLeast(m / ulp + 1, ulp);
  }

  lemma AtLeast(q: nat, ulp: nat)
    requires q >= TWO_52 && ulp >= 2
    ensures q * ulp >= TWO_53
  {
    assert q * ulp >= q * 2;
  }

  // ----- the shortest spelling -----

  lemma RoundToEither(m: nat, p: nat)
    requires p > 0
    ensures RoundTo(m, p) == m / p * p || RoundTo(m, p) == m / p * p + p
  {
    assert (m / p + 1) * p == m / p * p + p;
  }

  ghost predicate Around(m: nat, p: nat, s: nat)
    requires p > 0
  {
    exists k: nat :: (k == m / p || k == m / p + 1) && s == k * p
  }

  lemma CandidateEither(m: nat, p: nat)
    requires p > 0 && Candidate(m, p).Some?
    ensures Around(m, p, Candidate(m, p).value) && RoundMagnitude(Candidate(m, p).value) == m
  {
    RoundToEither(m, p);
    AroundBoth(m, p);
  }

  lemma AroundBoth(m: nat, p: nat)
    requires p > 0
    ensures Around(m, p, m / p * p) && Around(m, p, m / p * p + p)
  {
    assert m / p * p + p == (m / p + 1) * p;
  }

  // It reads back as the float64 it spells.
  lemma {:induction false} ShortestReads(m: nat, p: nat)
    requires p > 0 && RoundMagnitude(m) == m
    ensures RoundMagnitude(Shortest(m, p)) == m
    decreases if p <= m then m - p + 1 else 0
  {
    if p <= m && Candidate(m, 10 * p).Some? {
      ShortestReads(m, 10 * p);
    } else if Candidate(m, p).Some? {
      CandidateEither(m, p);
    }
  }

  lemma ReadsSmall(s: nat, m: nat)
    requires m < TWO_53 && RoundMagnitude(s) == m
    ensures s == m
  {
    if s < TWO_53 { RoundSmall(s); } else { LargeStaysLarge(s); }
  }

  lemma CandidateSmall(m: nat, p: nat)
    requires m < TWO_53 && p > 0 && Candidate(m, p).Some?
    ensures Candidate(m, p).value == m
  {
    CandidateEither(m, p);
    ReadsSmall(Candidate(m, p).value, m);
  }

  lemma {:induction false} ShortestSmall(m: nat, p: nat)
    requires m < TWO_53 && p > 0
    ensures Shortest(m, p) == m
    decreases if p <= m then m - p + 1 else 0
  {
    if p <= m && Candidate(m, 10 * p).Some? {
      ShortestSmall(m, 10 * p);
    } else if Candidate(m, p).Some? {
      CandidateSmall(m, p);
    }
  }

  lemma ShortestLimit()
    ensures Shortest(TWO_53, 1) == TWO_53
  {
    var high := 9007199254741000;
    RoundSmall(9007199254740990);
    assert Excess(high) == 1 + Excess(high / 2) && Excess(high / 2) == 0;
    assert Pow2(1) == 2 * Pow2(0) && Pow2(0) == 1;
    assert RoundMagnitude(high) == high;
    assert TWO_53 / 10 * 10 == 9007199254740990;
    assert Candidate(TWO_53, 10) == None;
    RoundSmall(TWO_53);
    assert TWO_53 / 1 * 1 == TWO_53;
  }

  // Exact integers are printed as they are.
  lemma SpelledExact(n: int)
    requires -TWO_53 <= n <= TWO_53
    ensures Spelled(RoundToDouble(n)) == n
  {
    var m := if n < 0 then -n else n;
    RoundSmall(m);
    if m == TWO_53 { ShortestLimit(); } else { ShortestSmall(m, 1); }
  }

  // Different float64 are printed differently.
  lemma SpelledReads(n: int)
    ensures RoundToDouble(Spelled(RoundToDouble(n))) == RoundToDouble(n)
  {
    var m: nat := if n < 0 then 0 - n else n;
    MagnitudeReads(m);
    RoundSmall(0);
  }

  lemma MagnitudeReads(m: nat)
    ensures RoundMagnitude(Shortest(RoundMagnitude(m), 1)) == RoundMagnitude(m)
  {
    RoundTwice(m);
    ShortestReads(RoundMagnitude(m), 1);
  }

  // ----- and no shorter one does -----

  lemma {:induction false} ExcessMonotone(a: nat, b: nat)
    requires a <= b
    ensures Excess(a) <= Excess(b)
    decreases b
  {
    if a >= TWO_53 { ExcessMonotone(a / 2, b / 2); }
  }

  lemma {:induction false} Pow2Monotone(a: nat, b: nat)
    requires a <= b
    ensures Pow2(a) <= Pow2(b)
    decreases b
  {
    if a < b { Pow2Monotone(a, b - 1); }
  }

  lemma RoundToBounds(m: nat, u: nat)
    requires u > 0
    ensures m / u * u <= RoundTo(m, u) <= (m / u + 1) * u
  {
    ProductsOrdered(m / u, m / u + 1, u);
  }

  lemma DivisionMonotone(a: nat, b: nat, u: nat)
    requires a <= b && u > 0
    ensures a / u <= b / u
  {
    DivisionBounds(a, u);
    DivisionBounds(b, u);
    if b / u < a / u { ProductsOrdered(b / u + 1, a / u, u); }
  }

  lemma RemaindersOrdered(a: nat, b: nat, u: nat)
    requires a <= b && u > 0 && a / u == b / u
    ensures a % u <= b % u
  {
    assert a == a / u * u + a % u && b == b / u * u + b % u;
  }

  // One of two values, by the remainder; at half, by the quotient.
  function Chosen(q: nat, r: nat, u: nat, low: nat, high: nat): nat {
    if 2 * r < u || (2 * r == u && q % 2 == 0) then low else high
  }

  lemma RoundToIsChosen(m: nat, u: nat)
    requires u > 0
    ensures RoundTo(m, u) == Chosen(m / u, m % u, u, m / u * u, (m / u + 1) * u)
  {
  }

  lemma ChosenMonotone(q: nat, r: nat, r': nat, u: nat, low: nat, high: nat)
    requires r <= r' && low <= high
    ensures Chosen(q, r, u, low, high) <= Chosen(q, r', u, low, high)
  {
  }

  lemma ChosenOrdered(a: nat, b: nat, u: nat, low: nat, high: nat)
    requires a <= b && u > 0 && a / u == b / u && low <= high
    ensures Chosen(a / u, a % u, u, low, high) <= Chosen(b / u, b % u, u, low, high)
  {
    RemaindersOrdered(a, b, u);
    ChosenMonotone(a / u, a % u, b % u, u, low, high);
  }

  lemma SameQuotient(a: nat, b: nat, u: nat)
    requires a <= b && u > 0 && a / u == b / u
    ensures RoundTo(a, u) <= RoundTo(b, u)
  {
    var low, high := a / u * u, (a / u + 1) * u;
    ProductsOrdered(a / u, a / u + 1, u);
    ChosenOrdered(a, b, u, low, high);
    RoundToIsChosen(a, u);
    RoundToIsChosen(b, u);
  }

  // Rounding to multiples of one unit keeps the order.
  lemma RoundToMonotone(a: nat, b: nat, u: nat)
    requires a <= b && u > 0
    ensures RoundTo(a, u) <= RoundTo(b, u)
  {
    DivisionMonotone(a, b, u);
    if a / u < b / u {
      RoundToBounds(a, u);
      RoundToBounds(b, u);
      ProductsOrdered(a / u + 1, b / u, u);
    } else {
      SameQuotient(a, b, u);
    }
  }

  // Up to the next power of two, and from it on.
  lemma RoundWithin(m: nat)
    requires m >= TWO_53
    ensures TWO_52 * Pow2(Excess(m)) <= RoundMagnitude(m) <= TWO_53 * Pow2(Excess(m))
  {
    var u := Pow2(Excess(m));
    ExcessBounds(m);
    Quotient(m, u);
    RoundToBounds(m, u);
    ProductsOrdered(TWO_52, m / u, u);
    ProductsOrdered(m / u + 1, TWO_53, u);
  }

  lemma UnitsApart(a: nat, b: nat)
    requires a < b
    ensures TWO_53 * Pow2(a) <= TWO_52 * Pow2(b)
  {
    Pow2Monotone(a + 1, b);
    assert Pow2(a + 1) == 2 * Pow2(a);
  }

  lemma RoundMonotone(a: nat, b: nat)
    requires a <= b
    ensures RoundMagnitude(a) <= RoundMagnitude(b)
  {
    if a < TWO_53 {
      RoundSmall(a);
      if b < TWO_53 { RoundSmall(b); } else { LargeStaysLarge(b); }
    } else {
      ExcessMonotone(a, b);
      if Excess(a) == Excess(b) {
        RoundToMonotone(a, b, Pow2(Excess(a)));
      } else {
        RoundWithin(a);
        RoundWithin(b);
        UnitsApart(Excess(a), Excess(b));
      }
    }
  }

  // What reads back as m lies at most at twice m.
  lemma RoundAtLeastHalf(x: nat)
    ensures 2 * RoundMagnitude(x) >= x
  {
    if x < TWO_53 {
      RoundSmall(x);
    } else {
      ExcessBounds(x);
      RoundWithin(x);
    }
  }

  lemma NextToMultiple(m: nat, x: nat, p: nat)
    requires p > 0 && x % p == 0
    ensures if x <= m then x <= m / p * p <= m else m < m / p * p + p <= x
  {
    DivisionBounds(m, p);
    assert x == x / p * p;
    if x <= m {
      DivisionMonotone(x, m, p);
      ProductsOrdered(x / p, m / p, p);
    } else {
      DivisionMonotone(m, x, p);
      assert x / p > m / p;
      ProductsOrdered(m / p + 1, x / p, p);
    }
  }

  // If any multiple of p reads back as m, so does one of the two around m.
  lemma CandidateExists(m: nat, x: nat, p: nat)
    requires p > 0 && x % p == 0 && RoundMagnitude(m) == m && RoundMagnitude(x) == m
    ensures Candidate(m, p).Some?
  {
    var low, high := m / p * p, m / p * p + p;
    NextToMultiple(m, x, p);
    if x <= m {
      RoundMonotone(x, low);
      RoundMonotone(low, m);
    } else {
      RoundMonotone(m, high);
      RoundMonotone(high, x);
    }
  }

  lemma AroundMultiple(m: nat, p: nat, s: nat)
    requires p > 0 && Around(m, p, s)
    ensures s % p == 0
  {
    var k: nat :| (k == m / p || k == m / p + 1) && s == k * p;
    DivideOut(k, p);
  }

  lemma CandidateMultiple(m: nat, p: nat)
    requires p > 0 && Candidate(m, p).Some?
    ensures Candidate(m, p).value % p == 0
  {
    CandidateEither(m, p);
    AroundMultiple(m, p, Candidate(m, p).value);
  }

  lemma MultipleOfTen(x: nat, p: nat)
    requires p > 0 && x % (10 * p) == 0
    ensures x % p == 0
  {
    var k := x / (10 * p);
    assert x == k * (10 * p) == (10 * k) * p;
    DivideOut(10 * k, p);
  }

  lemma {:induction false} ShortestMultiple(m: nat, p: nat)
    requires p > 0 && Candidate(m, p).Some?
    ensures Shortest(m, p) % p == 0
    decreases if p <= m then m - p + 1 else 0
  {
    CandidateMultiple(m, p);
    if p <= m && Candidate(m, 10 * p).Some? {
      ShortestMultiple(m, 10 * p);
      MultipleOfTen(Shortest(m, 10 * p), p);
    }
  }

  function Pow10(k: nat): (p: nat)
    ensures p > 0
  {
    if k == 0 then 1 else 10 * Pow10(k - 1)
  }

  lemma {:induction false} MultipleOfLess(x: nat, i: nat, k: nat)
    requires i <= k && x % Pow10(k) == 0
    ensures x % Pow10(i) == 0
    decreases k
  {
    if i < k {
      MultipleOfTen(x, Pow10(k - 1));
      MultipleOfLess(x, i, k - 1);
    }
  }

  lemma {:induction false} SearchGoesOn(m: nat, x: nat, i: nat, k: nat)
    requires i <= k && x % Pow10(k) == 0 && m > 0 && RoundMagnitude(m) == m && RoundMagnitude(x) == m
    ensures Shortest(m, Pow10(i)) % Pow10(k) == 0
    decreases k - i
  {
    MultipleOfLess(x, i, k);
    CandidateExists(m, x, Pow10(i));
    if i == k {
      ShortestMultiple(m, Pow10(i));
    } else {
      MultipleOfLess(x, i + 1, k);
      CandidateExists(m, x, Pow10(i + 1));
      LargeEnough(m, x, Pow10(i));
      SearchGoesOn(m, x, i + 1, k);
    }
  }

  lemma AtLeastOnce(x: nat, p: nat)
    requires x > 0 && p > 0 && x % p == 0
    ensures x >= p
  {
  }

  lemma LargeEnough(m: nat, x: nat, p: nat)
    requires p > 0 && m > 0 && x % (10 * p) == 0 && RoundMagnitude(x) == m
    ensures p <= m
  {
    RoundSmall(0);
    RoundAtLeastHalf(x);
    AtLeastOnce(x, 10 * p);
  }

  // No decimal that reads back as the same float64 has more zeros at its end than what is
  // printed for it: the printed digits are the fewest.
  lemma FewestDigits(m: nat, x: nat, k: nat)
    requires m > 0 && RoundMagnitude(m) == m && RoundMagnitude(x) == m && x % Pow10(k) == 0
    ensures Spelled(m) % Pow10(k) == 0
  {
    SearchGoesOn(m, x, 0, k);
  }

  // Of the two around m, if both read back as m, the nearer one is taken, ties to even.
  lemma CandidateNearest(m: nat, p: nat)
    requires p > 0 && RoundMagnitude(m / p * p) == m && RoundMagnitude(m / p * p + p) == m
    ensures Candidate(m, p).Some? && Nearest(m, Candidate(m, p).value, p)
  {
    RoundToNearest(m, p);
  }
}
