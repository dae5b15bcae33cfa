/** The number printing and parsing of printf.c. */
module Printf {
  import opened Bits
  import opened Numerals

  const UINT_LIMIT: nat := 0x1_0000_0000

  type UInt32 = n: nat | n < UINT_LIMIT
  type Int32 = n: int | -0x8000_0000 <= n < 0x8000_0000

  /** The low 32 bits of n, as an unsigned and as a signed number. */
  function ToUnsigned(n: int): UInt32 {
    n % UINT_LIMIT
  }

  function ToSigned(n: int): Int32 {
    (n + 0x8000_0000) % UINT_LIMIT - 0x8000_0000
  }

  // ----- Printing

  function DigitChar(d: nat, uc: bool): char
    requires d < 16
  {
    if d < 10 then ('0' as int + d) as char else ((if uc then 'A' else 'a') as int - 10 + d) as char
  }

  function Spell(ds: seq<nat>, uc: bool): (s: string)
    requires forall i :: 0 <= i < |ds| ==> ds[i] < 16
    ensures |s| == |ds| && forall i :: 0 <= i < |ds| ==> s[i] == DigitChar(ds[i], uc)
  {
    seq(|ds|, i requires 0 <= i < |ds| => DigitChar(ds[i], uc))
  }

  /** The canonical numeral of a number. */
  function Numeral(num: nat, base: nat, uc: bool): (s: string)
    requires 2 <= base <= 16
  {
    DigitsCorrect(num, base);
    Spell(Digits(num, base), uc)
  }

  function Decimal(i: int): string {
    if i < 0 then ['-'] + Numeral(-i, 10, false) else Numeral(i, 10, false)
  }

  const SMALL: string := "0123456789abcdef"
  const CAPITAL: string := "0123456789ABCDEF"

  /** The characters that ui2a writes, as a table; the letters are capitals iff uc is set. */
  lemma DigitTable(d: nat, uc: bool)
    requires d < 16
    ensures DigitChar(d, uc) == (if uc then CAPITAL else SMALL)[d]
  {
  }

  /** Every character of a numeral is a digit or a letter of the case asked for; up to base 10
      there are no letters, and the case makes no difference. */
  lemma NumeralLetters(num: nat, base: nat, uc: bool)
    requires 2 <= base <= 16
    ensures forall i :: 0 <= i < |Numeral(num, base, uc)| ==>
      var c := Numeral(num, base, uc)[i];
      '0' <= c <= '9' || (base > 10 && if uc then 'A' <= c <= 'F' else 'a' <= c <= 'f')
    ensures base <= 10 ==> Numeral(num, base, true) == Numeral(num, base, false)
  {
    hide Digits;
    DigitsCorrect(num, base);
  }

  /** A 32-bit number has at most 10 decimal and 8 hexadecimal digits. */
  lemma NumeralFits(num: UInt32)
    ensures |Numeral(num, 10, false)| <= 10 && |Numeral(num, 16, false)| <= 8 && |Numeral(num, 16, true)| <= 8
  {
    DigitsLength(num, 10, 10);
    DigitsLength(num, 16, 8);
    PowerAdd(10, 5, 5);
    PowerAdd(16, 4, 4);
    assert Power(10, 5) == 100000 && Power(16, 4) == 0x1_0000;
  }

  /** The leading power: the first loop of ui2a. */
  method LeadingPower(num: UInt32, base: nat) returns (d: UInt32, ghost m: nat)
    requires 2 <= base <= 16
    ensures m >= 1 && d == Power(base, m - 1) >= 1 && num < Power(base, m) && (m == 1 || num >= d)
  {
    d, m := 1, 1;
    while num / d >= base
      invariant m >= 1 && d == Power(base, m - 1) >= 1 && (m == 1 || num >= d)
      decreases num - d
    {
      QuotientBelow(num, d, base);
      TimesCommutes(base, d);
      TimesMonotone(2, base, d);
      d := d * base;
      m := m + 1;
    }
    QuotientBelow(num, d, base);
    TimesCommutes(base, d);
  }

  /** bf holds s and a terminator from index at on, and is otherwise as before. */
  ghost predicate Holds(now: seq<char>, before: seq<char>, at: nat, s: string) {
    && |now| == |before| && at + |s| < |now|
    && now[..at] == before[..at]
    && now[at..at + |s|] == s
    && now[at + |s|] == '\0'
    && now[at + |s| + 1..] == before[at + |s| + 1..]
  }

  /** The m digits of num still to be written. */
  function Remaining(num: nat, base: nat, m: nat, uc: bool): (s: string)
    requires 2 <= base <= 16 && num < Power(base, m)
    ensures |s| == m
  {
    PaddedCorrect(num, base, m);
    Spell(Padded(num, base, m), uc)
  }

  lemma TopDigit(num: nat, base: nat, m: nat)
    requires 2 <= base && m >= 1 && num < Power(base, m)
    ensures var d := Power(base, m - 1);
      && d >= 1 && num / d < base && num % d < d
      && d / base == (if m == 1 then 0 else Power(base, m - 2))
  {
    hide Times;
    var d := Power(base, m - 1);
    PowerPositive(base, m - 1);
    QuotientBelow(num, d, base);
    TimesCommutes(base, d);
    Division(num, d);
    if m > 1 {
      DivisionUnique(Power(base, m - 2), 0, base);
    }
  }

  lemma RemainingStep(num: nat, base: nat, m: nat, uc: bool)
    requires 2 <= base <= 16 && m >= 1 && num < Power(base, m)
    ensures var d := Power(base, m - 1);
      && d >= 1 && Quotient(num, d) < base && Rest(num, d) < d
      && Remaining(num, base, m, uc) == [DigitChar(Quotient(num, d), uc)] + Remaining(Rest(num, d), base, m - 1, uc)
  {
    hide Times, Power;
    TopDigit(num, base, m);
    PaddedCorrect(num, base, m);
    PaddedCorrect(Rest(num, Power(base, m - 1)), base, m - 1);
  }

  lemma RemainingIsNumeral(num: nat, base: nat, m: nat, uc: bool)
    requires 2 <= base <= 16 && m >= 1 && num < Power(base, m) && (m == 1 || num >= Power(base, m - 1))
    ensures Remaining(num, base, m, uc) == Numeral(num, base, uc)
  {
    PaddedIsDigits(num, base, m);
  }

  lemma NonzeroQuotient(num: nat, d: nat)
    requires d >= 1
    ensures num >= d ==> num / d > 0
  {
    hide Times;
    QuotientBelow(num, d, 1);
    TimesUnit(d);
  }

  /** One turn of ui2a's second loop: dgt = num / d, num %= d, d /= base. */
  method SplitDigit(num: nat, d: nat, base: nat, ghost m: nat, ghost uc: bool) returns (dgt: nat, num': nat, d': nat)
    requires 2 <= base <= 16 && m >= 1 && num < Power(base, m) && d == Power(base, m - 1)
    ensures dgt < 16 && num' < Power(base, m - 1) && d' == (if m == 1 then 0 else Power(base, m - 2))
    ensures (m > 1 ==> d' >= 1) && (num >= d ==> dgt > 0)
    ensures Remaining(num, base, m, uc) == [DigitChar(dgt, uc)] + Remaining(num', base, m - 1, uc)
  {
    hide Times, Remaining, Power, DigitChar;
    TopDigit(num, base, m);
    RemainingStep(num, base, m, uc);
    if m > 1 {
      PowerPositive(base, m - 2);
    }
    NonzeroQuotient(num, d);
    dgt, num', d' := num / d, num % d, d / base;
  }

  /** ui2a: writes the canonical numeral of num and a terminator at index at. */
  method Ui2a(num: UInt32, base: nat, uc: bool, bf: array<char>, at: nat)
    requires 2 <= base <= 16 && at + |Numeral(num, base, uc)| < bf.Length
    modifies bf
    ensures Holds(bf[..], old(bf[..]), at, Numeral(num, base, uc))
  {
    hide *;
    var n, p := 0, at;
    var rest: nat := num;
    var d: nat, m := LeadingPower(num, base);
    RemainingIsNumeral(num, base, m, uc);
    ghost var written := [];
    NothingWritten(bf[..], at);
    while d != 0
      invariant n + m == |Numeral(num, base, uc)| && p == at + n && |written| == n
      invariant rest < Power(base, m) && d == (if m == 0 then 0 else Power(base, m - 1))
      invariant m >= 1 ==> d >= 1
      invariant n == 0 ==> m == 1 || rest >= d
      invariant written + Remaining(rest, base, m, uc) == Numeral(num, base, uc)
      invariant Written(bf[..], old(bf[..]), at, written)
      decreases m
    {
      var dgt;
      dgt, rest, d := SplitDigit(rest, d, base, m, uc);
      if n != 0 || dgt > 0 || d == 0 {
        WriteOne(bf[..], old(bf[..]), at, written, DigitChar(dgt, uc));
        bf[p] := DigitChar(dgt, uc);
        written := written + [DigitChar(dgt, uc)];
        p := p + 1;
        n := n + 1;
      }
      m := m - 1;
    }
    assert m == 0;
    assert written == Numeral(num, base, uc);
    WriteOne(bf[..], old(bf[..]), at, written, '\0');
    bf[p] := '\0';
  }

  lemma NothingWritten(now: seq<char>, at: nat)
    requires at <= |now|
    ensures Written(now, now, at, [])
  {
  }

  /** bf holds w from index at on and is otherwise as before. */
  ghost predicate Written(now: seq<char>, before: seq<char>, at: nat, w: string) {
    |now| == |before| && at + |w| <= |now| && now == before[..at] + w + before[at + |w|..]
  }

  lemma WriteOne(now: seq<char>, before: seq<char>, at: nat, w: string, c: char)
    requires Written(now, before, at, w) && at + |w| < |now|
    ensures Written(now[at + |w| := c], before, at, w + [c])
    ensures c == '\0' ==> Holds(now[at + |w| := c], before, at, w)
  {
    assert now[at + |w| := c] == before[..at] + (w + [c]) + before[at + |w| + 1..];
  }

  /** i2a: a minus sign for a negative number, then its absolute value, computed in 32-bit
      two's complement; with the terminator it always fits tfp_format's 12-byte buffer. */
  method I2a(num: Int32, bf: array<char>)
    requires bf.Length >= 12
    modifies bf
    ensures Holds(bf[..], old(bf[..]), 0, Decimal(num)) && |Decimal(num)| <= 11
  {
    var value: int, at := num, 0;
    if value < 0 {
      value := ToSigned(-value);
      bf[at] := '-';
      at := at + 1;
    }
    ghost var magnitude: UInt32 := if num < 0 then -(num as int) else num;
    assert ToUnsigned(value) == magnitude;
    NumeralFits(magnitude);
    Ui2a(ToUnsigned(value), 10, false, bf, at);
    assert bf[..at + |Numeral(magnitude, 10, false)|] == Decimal(num);
  }

  // ----- Parsing

  function A2d(ch: char): (d: int)
    ensures d == -1 || 0 <= d < 16
  {
    if '0' <= ch <= '9' then ch as int - '0' as int
    else if 'a' <= ch <= 'f' then ch as int - 'a' as int + 10
    else if 'A' <= ch <= 'F' then ch as int - 'A' as int + 10
    else -1
  }

  /** What a2i takes as a digit; the comparison is digit > base, so base itself passes. */
  predicate Accepted(ch: char, base: nat) {
    0 <= A2d(ch) <= base
  }

  /** The length of the longest accepted prefix. */
  function RunLength(s: string, base: nat): (r: nat)
    ensures r <= |s| && (forall i :: 0 <= i < r ==> Accepted(s[i], base)) && (r < |s| ==> !Accepted(s[r], base))
  {
    if s == [] || !Accepted(s[0], base) then 0 else 1 + RunLength(s[1..], base)
  }

  function Read(s: string, base: nat): (ds: seq<nat>)
    requires forall i :: 0 <= i < |s| ==> Accepted(s[i], base)
    ensures |ds| == |s| && forall i :: 0 <= i < |s| ==> ds[i] == A2d(s[i])
  {
    seq(|s|, i requires 0 <= i < |s| => DigitOf(s[i], base))
  }

  function DigitOf(ch: char, base: nat): nat
    requires Accepted(ch, base)
  {
    A2d(ch)
  }

  /** num * base + digit in 32-bit arithmetic. */
  function AddDigit(num: Int32, base: nat, d: nat): Int32 {
    ToSigned(num * base + d)
  }

  lemma WrapStep(a: nat, base: nat, d: nat)
    ensures AddDigit(ToSigned(a), base, d) == ToSigned(Times(a, base) + d)
  {
    var k := (a + 0x8000_0000) / UINT_LIMIT;
    assert a == k * UINT_LIMIT + ToSigned(a);
    assert a * base == k * base * UINT_LIMIT + ToSigned(a) * base;
    WrapPeriod(ToSigned(a) * base + d, k * base);
  }

  lemma WrapPeriod(a: int, k: int)
    ensures ToSigned(a + k * UINT_LIMIT) == ToSigned(a)
  {
    var b := a + 0x8000_0000;
    DivModUnique(b + k * UINT_LIMIT, UINT_LIMIT, b / UINT_LIMIT + k, b % UINT_LIMIT);
  }

  /** a2i on the string that starts with ch and goes on at index from of s: the value of the
      longest run of accepted digits, in 32-bit arithmetic, the character after the run, and the
      index after that character. */
  method A2i(first: char, s: string, from: nat, base: nat) returns (ch: char, next: nat, num: Int32)
    requires from <= |s| && Terminated(s[from..])
    ensures Terminated([first] + s[from..]) && from <= next <= |s|
    ensures (ch, next - from, num) == Parse([first] + s[from..], base)
  {
    hide *;
    ghost var text := [first] + s[from..];
    ghost var k := TextTerminated(first, s[from..], base);
    ch, next, num := first, from, 0;
    NothingRead(text, base);
    while Accepted(ch, base)
      invariant from <= next <= |s| && next - from <= k && ch == text[next - from]
      invariant forall i :: 0 <= i < next - from ==> Accepted(text[i], base)
      invariant num == ReadPrefix(text, next - from, base)
      decreases |s| - next + 1
    {
      ReadMore(text, next - from, base);
      num := AddDigit(num, base, DigitOf(ch, base));
      ch := s[next];
      next := next + 1;
    }
    RunIs(text, base, next - from);
    ParseIs(text, next - from, base);
  }

  predicate Terminated(s: string) {
    exists k :: 0 <= k < |s| && s[k] == '\0'
  }

  lemma TextTerminated(first: char, rest: string, base: nat) returns (k: nat)
    requires Terminated(rest)
    ensures 0 < k <= |rest| && ([first] + rest)[k] == '\0' && !Accepted('\0', base)
    ensures Terminated([first] + rest)
  {
    var j :| 0 <= j < |rest| && rest[j] == '\0';
    k := j + 1;
    assert ([first] + rest)[k] == '\0';
  }

  /** The 32-bit value of the first r characters. */
  function ReadPrefix(text: string, r: nat, base: nat): Int32
    requires r <= |text| && forall i :: 0 <= i < r ==> Accepted(text[i], base)
  {
    ToSigned(Value(Read(text[..r], base), base))
  }

  /** What a2i, started on the first character of text, comes back with: the character after
      the run of digits, how far it went, and the value. */
  function Parse(text: string, base: nat): (char, nat, Int32)
    requires Terminated(text)
  {
    RunEnds(text, base);
    var r := RunLength(text, base);
    (text[r], r, ToSigned(Value(Read(text[..r], base), base)))
  }

  lemma RunEnds(text: string, base: nat)
    requires Terminated(text)
    ensures RunLength(text, base) < |text|
  {
  }

  lemma ParseIs(text: string, r: nat, base: nat)
    requires Terminated(text) && r < |text| && r == RunLength(text, base)
    ensures Parse(text, base) == (text[r], r, ReadPrefix(text, r, base))
  {
  }

  lemma NothingRead(text: string, base: nat)
    ensures ReadPrefix(text, 0, base) == 0
  {
    assert Value([], base) == 0;
  }

  lemma ReadMore(text: string, r: nat, base: nat)
    requires r < |text| && forall i :: 0 <= i < r + 1 ==> Accepted(text[i], base)
    ensures ReadPrefix(text, r + 1, base) == AddDigit(ReadPrefix(text, r, base), base, DigitOf(text[r], base))
  {
    hide Value, A2d, AddDigit, Times, ToSigned;
    var ds, d := Read(text[..r], base), DigitOf(text[r], base);
    assert Read(text[..r + 1], base) == ds + [d];
    ValueSnoc(ds, d, base);
    WrapStep(Value(ds, base), base, d);
  }

  lemma {:induction false} RunIs(s: string, base: nat, r: nat)
    requires r < |s| && (forall i :: 0 <= i < r ==> Accepted(s[i], base)) && !Accepted(s[r], base)
    ensures RunLength(s, base) == r
  {
    if r > 0 {
      RunIs(s[1..], base, r - 1);
    }
  }

  // ----- Reading back what was printed

  lemma DigitReads(d: nat, uc: bool)
    requires d < 16
    ensures A2d(DigitChar(d, uc)) == d
  {
  }

  /** The characters that have a digit value, and their values. */
  lemma DigitValues(ch: char)
    ensures A2d(ch) == -1 <==> ch !in SMALL && ch !in CAPITAL
    ensures A2d(ch) != -1 ==> ch == SMALL[A2d(ch)] || ch == CAPITAL[A2d(ch)]
  {
    if A2d(ch) != -1 {
      assert ch == SMALL[A2d(ch)] || ch == CAPITAL[A2d(ch)];
    } else {
      forall i | 0 <= i < 16 ensures SMALL[i] != ch && CAPITAL[i] != ch {
        TableValues(i);
      }
    }
  }

  /** a2i in base b takes the first b + 1 characters of the tables, one too many; from base 15 on
      it takes all. */
  lemma AcceptedCharacters(ch: char, base: nat)
    ensures var n := if base < 16 then base + 1 else 16;
      Accepted(ch, base) <==> ch in SMALL[..n] || ch in CAPITAL[..n]
  {
    var n := if base < 16 then base + 1 else 16;
    DigitValues(ch);
    if Accepted(ch, base) {
      assert ch == SMALL[..n][A2d(ch)] || ch == CAPITAL[..n][A2d(ch)];
    }
    if ch in SMALL[..n] {
      var i :| 0 <= i < n && SMALL[..n][i] == ch;
      TableValues(i);
    }
    if ch in CAPITAL[..n] {
      var i :| 0 <= i < n && CAPITAL[..n][i] == ch;
      TableValues(i);
    }
  }

  lemma TableValues(i: nat)
    requires i < 16
    ensures A2d(SMALL[i]) == i == A2d(CAPITAL[i])
  {
  }

  /** Reading the digits of a canonical numeral gives the number back. */
  lemma NumeralReads(num: nat, base: nat, uc: bool)
    requires 2 <= base <= 16
    ensures forall i :: 0 <= i < |Numeral(num, base, uc)| ==> Accepted(Numeral(num, base, uc)[i], base)
    ensures Value(Read(Numeral(num, base, uc), base), base) == num
  {
    hide Digits, Value;
    DigitsCorrect(num, base);
    var ds := Digits(num, base);
    forall i | 0 <= i < |ds| ensures A2d(DigitChar(ds[i], uc)) == ds[i] {
      DigitReads(ds[i], uc);
    }
    assert Read(Numeral(num, base, uc), base) == ds;
  }

  lemma SmallUnwrapped(num: nat)
    requires num < 0x8000_0000
    ensures ToSigned(num) == num
  {
  }

  /** a2i in base b, on a printed numeral followed by more text, stops right after the numeral iff
      the next character has no digit value up to b; then it returns the number, wrapped to 32 bits,
      which is the number itself up to INT_MAX. In base 10 the characters to avoid are the digits, a
      and A. */
  lemma NumeralReadsBack(num: nat, base: nat, uc: bool, rest: string)
    requires 2 <= base <= 16 && Terminated(rest)
    ensures Terminated(Numeral(num, base, uc) + rest)
    ensures var (ch, r, value) := Parse(Numeral(num, base, uc) + rest, base);
      && (r == |Numeral(num, base, uc)| <==> !Accepted(rest[0], base))
      && (!Accepted(rest[0], base) ==> ch == rest[0] && value == ToSigned(num))
    ensures num < 0x8000_0000 ==> ToSigned(num) == num
    ensures base == 10 ==>
      (Accepted(rest[0], base) <==> '0' <= rest[0] <= '9' || rest[0] == 'a' || rest[0] == 'A')
  {
    hide Numeral, Value, ToSigned;
    var s := Numeral(num, base, uc);
    var text := s + rest;
    var k :| 0 <= k < |rest| && rest[k] == '\0';
    assert text[|s| + k] == '\0';
    NumeralReads(num, base, uc);
    if num < 0x8000_0000 {
      SmallUnwrapped(num);
    }
    assert forall i :: 0 <= i < |s| ==> text[i] == s[i];
    assert text[|s|] == rest[0];
    assert text[..|s|] == s;
    if !Accepted(rest[0], base) {
      RunIs(text, base, |s|);
    } else if RunLength(text, base) == |s| {
      assert false;
    }
  }

  /** The absolute value. */
  function Magnitude(i: int): nat {
    if i < 0 then -i else i
  }

  /** The text of i2a, for every number: a minus sign iff it is negative, and then decimal digits,
      the one canonical numeral of its magnitude, that spell the magnitude. */
  lemma DecimalText(i: int)
    ensures Decimal(i) != [] && (Decimal(i)[0] == '-' <==> i < 0)
    ensures var digits := if i < 0 then Decimal(i)[1..] else Decimal(i);
      && digits == Numeral(Magnitude(i), 10, false) && digits != []
      && (forall k :: 0 <= k < |digits| ==> '0' <= digits[k] <= '9' && Accepted(digits[k], 10))
      && (|digits| > 1 ==> digits[0] != '0')
      && Value(Read(digits, 10), 10) == Magnitude(i)
  {
    hide Numeral, Value;
    var n := Magnitude(i);
    NumeralReads(n, 10, false);
    NumeralLetters(n, 10, false);
    NumeralStarts(n);
    assert i < 0 ==> Decimal(i)[1..] == Numeral(n, 10, false);
  }

  lemma NumeralStarts(n: nat)
    ensures Numeral(n, 10, false) != []
    ensures |Numeral(n, 10, false)| > 1 ==> Numeral(n, 10, false)[0] != '0'
  {
    hide Digits;
    DigitsCorrect(n, 10);
  }

  /** No two numbers have the same text. */
  lemma DecimalInjective(i: int, j: int)
    requires Decimal(i) == Decimal(j)
    ensures i == j
  {
    hide Decimal, Value, Numeral;
    DecimalText(i);
    DecimalText(j);
  }

  /** a2i, started behind the sign of a printed number, reads the magnitude, where it is at most
      INT_MAX and the text goes on with a character that is not accepted. */
  lemma DecimalReadsBack(i: int, rest: string)
    requires Magnitude(i) < 0x8000_0000 && Terminated(rest) && !Accepted(rest[0], 10)
    ensures var text := (if i < 0 then Decimal(i)[1..] else Decimal(i)) + rest;
      Terminated(text) && Parse(text, 10) == (rest[0], |text| - |rest|, Magnitude(i))
  {
    hide Numeral, Parse;
    DecimalText(i);
    NumeralReadsBack(Magnitude(i), 10, false, rest);
  }

  /** a2i does not read the sign: in front of a character that is not accepted it reads nothing,
      and gives 0. */
  lemma NothingAccepted(text: string, base: nat)
    requires Terminated(text) && !Accepted(text[0], base)
    ensures Parse(text, base) == (text[0], 0, 0)
  {
    assert Value([], base) == 0;
  }

  /** The slip in the comparison: in base 10, "1a" reads as 20. */
  lemma TenIsADigit()
    ensures Terminated("1a\0") && Parse("1a\0", 10) == ('\0', 2, 20)
  {
    var text := "1a\0";
    assert text[2] == '\0';
    assert Accepted(text[0], 10) && Accepted(text[1], 10) && !Accepted(text[2], 10);
    RunIs(text, 10, 2);
    assert Read(text[..2], 10) == [1, 10];
    assert [1, 10][..1] == [1] && [1][..0] == [];
    assert Value([], 10) == 0 && Value([1], 10) == 1 && Value([1, 10], 10) == 20;
  }

  // ----- Padding

  function Fill(n: int, fc: char): (s: string)
    ensures |s| == (if n <= 0 then 0 else n) && forall i :: 0 <= i < |s| ==> s[i] == fc
  {
    if n <= 0 then [] else seq(n, _ => fc)
  }

  /** Where putf sends its characters. */
  class Sink {
    var out: string

    method Putf(ch: char)
      modifies this
      ensures out == old(out) + [ch]
    {
      out := out + [ch];
    }
  }

  /** putchw: the string in bf, padded on the left to width n. */
  method Putchw(sink: Sink, n: int, zeros: bool, bf: array<char>, ghost s: string)
    requires |s| < bf.Length && bf[..|s|] == s && bf[|s|] == '\0' && '\0' !in s
    modifies sink
    ensures sink.out == old(sink.out) + Fill(n - |s|, if zeros then '0' else ' ') + s
  {
    var fc, left, p := if zeros then '0' else ' ', n, 0;
    while bf[p] != '\0' && left > 0
      invariant 0 <= p <= |s| && left == n - p && (p > 0 ==> left >= 0)
      decreases left
    {
      assert p < |s|;
      p, left := p + 1, left - 1;
    }
    assert left > 0 ==> p == |s|;
    ghost var pad := n - |s|;
    assert Fill(left, fc) == Fill(pad, fc) by {
      if p < |s| {
        assert left <= 0 && pad <= 0;
      }
    }
    ghost var k := 0;
    while left > 0
      invariant k + left == (if pad > 0 then pad else left) && k >= 0
      invariant sink.out == old(sink.out) + Fill(k, fc)
      invariant pad > 0 ==> left >= 0
      invariant pad <= 0 ==> left <= 0 && k == 0
      decreases left
    {
      sink.Putf(fc);
      assert Fill(k + 1, fc) == Fill(k, fc) + [fc];
      left, k := left - 1, k + 1;
    }
    assert Fill(k, fc) == Fill(pad, fc);
    var q := 0;
    while bf[q] != '\0'
      invariant 0 <= q <= |s| && sink.out == old(sink.out) + Fill(pad, fc) + s[..q]
      decreases |s| - q
    {
      assert q < |s|;
      sink.Putf(bf[q]);
      assert s[..q + 1] == s[..q] + [s[q]];
      q := q + 1;
    }
    assert s[..q] == s;
  }

  lemma FieldAccepted(zeros: string, s: string)
    requires forall i :: 0 <= i < |zeros| ==> zeros[i] == '0'
    requires forall i :: 0 <= i < |s| ==> Accepted(s[i], 10)
    ensures forall i :: 0 <= i < |zeros + s| ==> Accepted((zeros + s)[i], 10)
    ensures Read(zeros + s, 10) == seq(|zeros|, _ => 0) + Read(s, 10)
  {
  }

  /** A numeral padded with zeros to any width still reads as its number. */
  lemma PaddedReadsBack(num: nat, n: int, rest: string)
    requires num < 0x8000_0000 && Terminated(rest) && !Accepted(rest[0], 10)
    ensures var field := Fill(n - |Numeral(num, 10, false)|, '0') + Numeral(num, 10, false);
      && |field| >= n && Terminated(field + rest)
      && Parse(field + rest, 10) == (rest[0], |field|, num)
  {
    hide Numeral, Value, ToSigned, A2d;
    var s := Numeral(num, 10, false);
    var zeros := Fill(n - |s|, '0');
    var field := zeros + s;
    var text := field + rest;
    var k :| 0 <= k < |rest| && rest[k] == '\0';
    assert text[|field| + k] == '\0';
    NumeralReads(num, 10, false);
    SmallUnwrapped(num);
    FieldAccepted(zeros, s);
    assert forall i :: 0 <= i < |field| ==> text[i] == field[i];
    assert text[|field|] == rest[0];
    RunIs(text, 10, |field|);
    assert text[..|field|] == field;
    LeadingZeros(|zeros|, Read(s, 10), 10);
  }
}
