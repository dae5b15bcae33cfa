/** Positional numerals: digit strings, their values, and which of them are canonical. */
module Numerals {
  import opened Bits

  // Products are kept behind Times, so that proofs use only the laws they name.

  function Times(a: nat, b: nat): nat {
    a * b
  }

  lemma TimesDistributes(a: nat, b: nat, c: nat)
    ensures Times(a + b, c) == Times(a, c) + Times(b, c)
  {
  }

  lemma TimesAssociates(a: nat, b: nat, c: nat)
    ensures Times(Times(a, b), c) == Times(a, Times(b, c))
  {
    assert (a * b) * c == a * (b * c);
  }

  lemma TimesMonotone(a: nat, b: nat, c: nat)
    requires a <= b
    ensures Times(a, c) <= Times(b, c) && Times(c, a) <= Times(c, b)
  {
    ProductNonnegative(b - a, c);
    assert (b - a) * c == b * c - a * c;
  }

  lemma TimesUnit(a: nat)
    ensures Times(a, 1) == a == Times(1, a) && Times(0, a) == 0 == Times(a, 0)
  {
  }

  lemma TimesCommutes(a: nat, b: nat)
    ensures Times(a, b) == Times(b, a)
  {
  }

  /** x = x / m * m + x % m. */
  lemma Division(x: nat, m: nat)
    requires m >= 1
    ensures x == Times(x / m, m) + x % m && x / m >= 0 && 0 <= x % m < m
  {
  }

  lemma DivisionUnique(q: nat, r: nat, m: nat)
    requires r < m
    ensures (Times(q, m) + r) / m == q && (Times(q, m) + r) % m == r
  {
    DivModUnique(q * m + r, m, q, r);
  }

  lemma QuotientBelow(x: nat, m: nat, p: nat)
    requires m >= 1
    ensures x / m < p <==> x < Times(p, m)
  {
    hide Times;
    Division(x, m);
    if x / m < p {
      TimesMonotone(x / m + 1, p, m);
      TimesDistributes(x / m, 1, m);
      TimesUnit(m);
    } else {
      TimesMonotone(p, x / m, m);
    }
  }

  // ----- Powers

  function Power(base: nat, k: nat): nat {
    if k == 0 then 1 else Times(Power(base, k - 1), base)
  }

  lemma {:induction false} PowerPositive(base: nat, k: nat)
    requires base >= 1
    ensures Power(base, k) >= 1 && (k >= 1 ==> Power(base, k) >= base)
  {
    hide Times;
    if k > 0 {
      PowerPositive(base, k - 1);
      TimesMonotone(1, Power(base, k - 1), base);
      TimesUnit(base);
    }
  }

  lemma {:induction false} PowerAdd(base: nat, i: nat, j: nat)
    ensures Power(base, i + j) == Times(Power(base, i), Power(base, j))
  {
    hide Times;
    if j == 0 {
      TimesUnit(Power(base, i));
    } else {
      PowerAdd(base, i, j - 1);
      TimesAssociates(Power(base, i), Power(base, j - 1), base);
    }
  }

  // ----- Digit strings

  /** The value of a digit string, most significant digit first. */
  function Value(ds: seq<nat>, base: nat): nat {
    if ds == [] then 0 else Times(Value(ds[..|ds| - 1], base), base) + ds[|ds| - 1]
  }

  /** Every digit is below the base and there is no superfluous leading zero. */
  predicate Canonical(ds: seq<nat>, base: nat) {
    && |ds| >= 1
    && (forall i :: 0 <= i < |ds| ==> ds[i] < base)
    && (|ds| > 1 ==> ds[0] != 0)
  }

  /** The digit string of a number. */
  function Digits(num: nat, base: nat): (ds: seq<nat>)
    requires base >= 2
  {
    if num < base then [num]
    else
      QuotientSmaller(num, base);
      Digits(num / base, base) + [num % base]
  }

  lemma QuotientSmaller(num: nat, base: nat)
    requires base >= 2 && num >= base
    ensures 1 <= num / base < num
  {
    hide Times;
    QuotientBelow(num, base, 1);
    TimesUnit(base);
    Division(num, base);
    TimesMonotone(2, base, num / base);
    TimesDistributes(1, 1, num / base);
    TimesUnit(num / base);
    TimesCommutes(num / base, base);
  }

  lemma ValueSnoc(ds: seq<nat>, d: nat, base: nat)
    ensures Value(ds + [d], base) == Times(Value(ds, base), base) + d
  {
    hide Times;
    assert (ds + [d])[..|ds|] == ds;
  }

  /** The digits of a number are canonical and spell it. */
  lemma {:induction false} DigitsCorrect(num: nat, base: nat)
    requires base >= 2
    ensures Canonical(Digits(num, base), base) && Value(Digits(num, base), base) == num
    ensures num >= 1 ==> Digits(num, base)[0] != 0
  {
    hide Times;
    if num < base {
      ValueSnoc([], num, base);
      assert [] + [num] == [num];
      TimesUnit(base);
    } else {
      QuotientSmaller(num, base);
      DigitsCorrect(num / base, base);
      ValueSnoc(Digits(num / base, base), num % base, base);
      Division(num, base);
    }
  }

  lemma {:induction false} ValuePositive(ds: seq<nat>, base: nat)
    requires base >= 2 && |ds| >= 1 && ds[0] != 0
    ensures Value(ds, base) >= 1
  {
    hide Times;
    if |ds| > 1 {
      ValuePositive(ds[..|ds| - 1], base);
      TimesMonotone(1, Value(ds[..|ds| - 1], base), base);
      TimesUnit(base);
    }
  }

  lemma LastDigit(ds: seq<nat>, base: nat)
    requires base >= 2 && Canonical(ds, base)
    ensures Value(ds, base) % base == ds[|ds| - 1] && Value(ds, base) / base == Value(ds[..|ds| - 1], base)
    ensures |ds| > 1 <==> Value(ds, base) >= base
  {
    hide Times;
    var high, low := Value(ds[..|ds| - 1], base), ds[|ds| - 1];
    DivisionUnique(high, low, base);
    if |ds| > 1 {
      ValuePositive(ds[..|ds| - 1], base);
      TimesMonotone(1, high, base);
      TimesUnit(base);
    } else {
      assert ds[..0] == [];
      TimesUnit(base);
    }
  }

  /** A number has one canonical digit string. */
  lemma {:induction false} CanonicalUnique(ds: seq<nat>, es: seq<nat>, base: nat)
    requires base >= 2 && Canonical(ds, base) && Canonical(es, base) && Value(ds, base) == Value(es, base)
    ensures ds == es
  {
    hide Times, Value;
    LastDigit(ds, base);
    LastDigit(es, base);
    assert ds == ds[..|ds| - 1] + [ds[|ds| - 1]];
    assert es == es[..|es| - 1] + [es[|es| - 1]];
    if |ds| > 1 {
      CanonicalUnique(ds[..|ds| - 1], es[..|es| - 1], base);
    }
  }

  /** A number has at most k digits iff it is below base^k. */
  lemma {:induction false} DigitsLength(num: nat, base: nat, k: nat)
    requires base >= 2 && k >= 1
    ensures |Digits(num, base)| <= k <==> num < Power(base, k)
  {
    hide Times;
    if num < base {
      PowerPositive(base, k);
    } else if k == 1 {
      QuotientSmaller(num, base);
      DigitsCorrect(num / base, base);
      assert Power(base, 1) == Times(Power(base, 0), base);
      TimesUnit(base);
    } else {
      QuotientSmaller(num, base);
      DigitsLength(num / base, base, k - 1);
      QuotientBelow(num, base, Power(base, k - 1));
    }
  }

  // ----- Digits from the most significant end

  /** The m low digits of num, most significant first. */
  function Padded(num: nat, base: nat, m: nat): (ds: seq<nat>)
    requires base >= 1
    ensures |ds| == m
  {
    if m == 0 then []
    else
      PowerPositive(base, m - 1);
      [Quotient(num, Power(base, m - 1))] + Padded(Rest(num, Power(base, m - 1)), base, m - 1)
  }

  lemma {:induction false} ValueCons(d: nat, ds: seq<nat>, base: nat)
    ensures Value([d] + ds, base) == Times(d, Power(base, |ds|)) + Value(ds, base)
  {
    hide Times;
    if ds == [] {
      assert [d] + ds == [] + [d];
      ValueSnoc([], d, base);
      TimesUnit(base);
      TimesUnit(d);
    } else {
      var init, last := ds[..|ds| - 1], ds[|ds| - 1];
      assert [d] + ds == ([d] + init) + [last];
      ValueSnoc([d] + init, last, base);
      ValueCons(d, init, base);
      TimesDistributes(Times(d, Power(base, |init|)), Value(init, base), base);
      TimesAssociates(d, Power(base, |init|), base);
    }
  }

  lemma {:induction false} PaddedCorrect(num: nat, base: nat, m: nat)
    requires base >= 2 && num < Power(base, m)
    ensures Value(Padded(num, base, m), base) == num
    ensures forall i :: 0 <= i < m ==> Padded(num, base, m)[i] < base
  {
    hide Times;
    if m > 0 {
      PowerPositive(base, m - 1);
      var p := Power(base, m - 1);
      Division(num, p);
      PaddedCorrect(num % p, base, m - 1);
      ValueCons(num / p, Padded(num % p, base, m - 1), base);
      QuotientBelow(num, p, base);
      TimesCommutes(p, base);
    }
  }

  /** With as many digits as num has, padding adds nothing. */
  lemma PaddedIsDigits(num: nat, base: nat, m: nat)
    requires base >= 2 && m >= 1 && num < Power(base, m) && (m == 1 || num >= Power(base, m - 1))
    ensures Padded(num, base, m) == Digits(num, base)
  {
    hide Times;
    PaddedCorrect(num, base, m);
    DigitsCorrect(num, base);
    if m > 1 {
      PowerPositive(base, m - 1);
      QuotientBelow(num, Power(base, m - 1), 1);
      TimesUnit(Power(base, m - 1));
    }
    CanonicalUnique(Padded(num, base, m), Digits(num, base), base);
  }

  /** Leading zeros do not change a value. */
  lemma {:induction false} LeadingZeros(n: nat, ds: seq<nat>, base: nat)
    ensures Value(seq(n, _ => 0) + ds, base) == Value(ds, base)
  {
    hide Times;
    if n == 0 {
      assert seq(0, _ => 0) + ds == ds;
    } else {
      assert seq(n, _ => 0) + ds == [0] + (seq(n - 1, _ => 0) + ds);
      LeadingZeros(n - 1, ds, base);
      ValueCons(0, seq(n - 1, _ => 0) + ds, base);
      TimesUnit(Power(base, |seq(n - 1, _ => 0) + ds|));
    }
  }
}
