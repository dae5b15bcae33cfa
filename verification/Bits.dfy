/** Bit operations on natural numbers, defined bit by bit, and the few facts about
    shifts and masks on which page-table indices and descriptors rest. */
module Bits {

  function Pow2(k: nat): (r: nat)
    ensures r >= 1
  {
    if k == 0 then 1 else 2 * Pow2(k - 1)
  }

  function BitAnd(a: nat, b: nat): nat {
    if a == 0 || b == 0 then 0 else (a % 2) * (b % 2) + 2 * BitAnd(a / 2, b / 2)
  }

  function BitOr(a: nat, b: nat): nat
    decreases a + b
  {
    if a == 0 then b else if b == 0 then a
    else (if a % 2 == 1 || b % 2 == 1 then 1 else 0) + 2 * BitOr(a / 2, b / 2)
  }

  function Quotient(a: nat, m: nat): nat
    requires m >= 1
  {
    a / m
  }

  function Rest(a: nat, m: nat): (r: nat)
    requires m >= 1
    ensures r < m
  {
    a % m
  }

  function Shr(a: nat, k: nat): nat {
    Quotient(a, Pow2(k))
  }

  /** By induction, since the product of two variables is out of the solver's depth. */
  lemma {:induction false} ProductNonnegative(a: nat, b: nat)
    ensures a * b >= 0
  {
    if a > 0 {
      ProductNonnegative(a - 1, b);
      assert a * b == (a - 1) * b + b;
    }
  }

  /** A nonzero multiple of m is at least m away from zero. */
  lemma MultipleGap(x: int, m: int)
    requires m > 0
    ensures x >= 1 ==> x * m >= m
    ensures x <= -1 ==> x * m <= -m
  {
    if x >= 1 {
      ProductNonnegative(x - 1, m);
      assert (x - 1) * m == x * m - m;
    } else if x <= -1 {
      ProductNonnegative(-1 - x, m);
      assert (-1 - x) * m == -m - x * m;
    }
  }

  /** Euclidean division is unique. */
  lemma DivModUnique(a: int, m: int, q: int, r: int)
    requires 0 <= r < m
    requires a == q * m + r
    ensures a / m == q && a % m == r
  {
    var q', r' := a / m, a % m;
    assert a == q' * m + r' && 0 <= r' < m;
    assert (q - q') * m == r' - r;
    MultipleGap(q - q', m);
  }

  /** Halving commutes with division and remainder by a power of two. */
  lemma Halve(a: nat, m: nat)
    requires m >= 1
    ensures a / (2 * m) == (a / 2) / m
    ensures a % (2 * m) == a % 2 + 2 * ((a / 2) % m)
  {
    var q, r := (a / 2) / m, (a / 2) % m;
    assert a / 2 == q * m + r;
    assert a == q * (2 * m) + (2 * r + a % 2);
    DivModUnique(a, 2 * m, q, 2 * r + a % 2);
  }

  lemma AndOdd(a: nat, b: nat)
    ensures BitAnd(a, 2 * b + 1) == a % 2 + 2 * BitAnd(a / 2, b)
  {
    assert (2 * b + 1) / 2 == b && (2 * b + 1) % 2 == 1;
  }

  /** x & (2^k - 1) is the remainder modulo 2^k. */
  lemma {:induction false} AndLow(a: nat, k: nat)
    ensures BitAnd(a, Pow2(k) - 1) == a % Pow2(k)
  {
    if k > 0 {
      var m := Pow2(k - 1);
      AndOdd(a, m - 1);
      AndLow(a / 2, k - 1);
      Halve(a, m);
    }
  }

  /** x & (2^n - 2^k) clears the low k bits of an n-bit x. */
  lemma {:induction false} AndHigh(a: nat, n: nat, k: nat)
    requires k <= n && a < Pow2(n)
    ensures Pow2(k) <= Pow2(n)
    ensures BitAnd(a, Pow2(n) - Pow2(k)) == a - a % Pow2(k)
  {
    if k == 0 {
      AndLow(a, n);
      DivModUnique(a, Pow2(n), 0, a);
    } else {
      AndHigh(a / 2, n - 1, k - 1);
      Halve(a, Pow2(k - 1));
      assert (Pow2(n) - Pow2(k)) / 2 == Pow2(n - 1) - Pow2(k - 1);
    }
  }

  /** x | y is x + y when y fits below the zero low bits of x. */
  lemma {:induction false} OrDisjoint(a: nat, b: nat, k: nat)
    requires a % Pow2(k) == 0 && b < Pow2(k)
    ensures BitOr(a, b) == a + b
  {
    if k > 0 && a > 0 && b > 0 {
      Halve(a, Pow2(k - 1));
      OrDisjoint(a / 2, b / 2, k - 1);
    }
  }

  lemma {:induction false} OrBound(a: nat, b: nat, n: nat)
    requires a < Pow2(n) && b < Pow2(n)
    ensures BitOr(a, b) < Pow2(n)
  {
    if a > 0 && b > 0 {
      OrBound(a / 2, b / 2, n - 1);
    }
  }

  lemma {:induction false} Pow2Add(i: nat, j: nat)
    ensures Pow2(i + j) == Pow2(i) * Pow2(j)
  {
    if i > 0 {
      Pow2Add(i - 1, j);
    }
  }

  lemma Pow2Values()
    ensures Pow2(9) == 512 && Pow2(12) == 0x1000 && Pow2(18) == 0x4_0000 && Pow2(21) == 0x20_0000
    ensures Pow2(27) == 0x800_0000 && Pow2(30) == 0x4000_0000 && Pow2(36) == 0x10_0000_0000
    ensures Pow2(39) == 0x80_0000_0000 && Pow2(64) == 0x1_0000_0000_0000_0000
  {
    assert Pow2(3) == 8;
    Pow2Add(3, 6);
    Pow2Add(3, 9);
    Pow2Add(9, 9);
    Pow2Add(9, 12);
    Pow2Add(9, 18);
    Pow2Add(9, 21);
    Pow2Add(9, 27);
    Pow2Add(18, 21);
    Pow2Add(36, 27);
    Pow2Add(1, 63);
  }
}
