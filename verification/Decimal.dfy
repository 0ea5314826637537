/** Decimal numerals: how the program prints unsigned numbers and how the C library reads them back. */
module Decimal {

  predicate IsDigit(c: char) {
    '0' <= c <= '9'
  }

  predicate AllDigits(s: string) {
    forall i | 0 <= i < |s| :: IsDigit(s[i])
  }

  function DigitValue(c: char): (d: nat)
    requires IsDigit(c)
    ensures d < 10
  {
    c as int - '0' as int
  }

  function DigitChar(d: nat): (c: char)
    requires d < 10
    ensures IsDigit(c) && DigitValue(c) == d
  {
    ('0' as int + d) as char
  }

  /** The number a digit string denotes, most significant digit first; the empty string denotes 0. */
  function Value(s: string): nat
    requires AllDigits(s)
  {
    if s == "" then 0 else Value(s[..|s| - 1]) * 10 + DigitValue(s[|s| - 1])
  }

  /** The shortest numeral of n. */
  function Print(n: nat): string {
    if n < 10 then [DigitChar(n)] else Print(n / 10) + [DigitChar(n % 10)]
  }

  predicate Canonical(s: string) {
    s != "" && AllDigits(s) && (|s| > 1 ==> s[0] != '0')
  }

  lemma {:induction false} PrintThenValue(n: nat)
    ensures Canonical(Print(n)) && Value(Print(n)) == n
    ensures n > 0 ==> Print(n)[0] != '0'
  {
    if n >= 10 {
      PrintThenValue(n / 10);
      assert Print(n)[..|Print(n)| - 1] == Print(n / 10);
    }
  }

  lemma {:induction false} ValueThenPrint(s: string)
    requires Canonical(s)
    ensures Print(Value(s)) == s
  {
    if |s| > 1 {
      var front := s[..|s| - 1];
      assert Canonical(front);
      var last := DigitValue(s[|s| - 1]);
      LeadingDigitCounts(front);
      QuotientAndRemainder(Value(front), last);
      ValueThenPrint(front);
      assert s == front + [DigitChar(last)];
    } else {
      assert s[..0] == "";
      assert s == [s[0]];
    }
  }

  lemma QuotientAndRemainder(q: nat, d: nat)
    requires d < 10
    ensures (q * 10 + d) / 10 == q && (q * 10 + d) % 10 == d
  {
  }

  lemma {:induction false} LeadingDigitCounts(s: string)
    requires AllDigits(s) && s != "" && s[0] != '0'
    ensures Value(s) >= 1
  {
    if |s| > 1 {
      LeadingDigitCounts(s[..|s| - 1]);
    } else {
      assert s[..0] == "";
    }
  }

  // ------------------------------------------------------------------
  // strtoul, strtol and atoi: leading white space, an optional sign, then
  // the longest run of digits; results saturate at the type's bounds.
  // ------------------------------------------------------------------

  const ULONG_MAX: nat := 0xFFFF_FFFF_FFFF_FFFF
  const LONG_MAX: nat := 0x7FFF_FFFF_FFFF_FFFF

  predicate IsSpace(c: char) {
    c == ' ' || '\t' <= c <= '\r'
  }

  function SkipSpaces(s: string): string {
    if s != "" && IsSpace(s[0]) then SkipSpaces(s[1..]) else s
  }

  function DigitRun(s: string): (run: string)
    ensures AllDigits(run) && run <= s
    ensures |run| < |s| ==> !IsDigit(s[|run|])
  {
    if s != "" && IsDigit(s[0]) then [s[0]] + DigitRun(s[1..]) else ""
  }

  function Negative(s: string): bool {
    s != "" && s[0] == '-'
  }

  function Unsigned(s: string): string {
    if s != "" && (s[0] == '-' || s[0] == '+') then s[1..] else s
  }

  /** C's strtoul in base 10 on a 64-bit `unsigned long`. A minus sign negates modulo 2^64. */
  function StrToUnsigned(s: string): (n: nat)
    ensures n <= ULONG_MAX
  {
    var t := SkipSpaces(s);
    var magnitude := Value(DigitRun(Unsigned(t)));
    if magnitude > ULONG_MAX then ULONG_MAX
    else if Negative(t) && magnitude > 0 then ULONG_MAX + 1 - magnitude
    else magnitude
  }

  /** C's strtol in base 10 on a 64-bit `long`. */
  function StrToLong(s: string): (n: int)
    ensures -(LONG_MAX as int) - 1 <= n <= LONG_MAX
  {
    var t := SkipSpaces(s);
    var magnitude := Value(DigitRun(Unsigned(t)));
    if Negative(t) then (if magnitude > LONG_MAX then -(LONG_MAX as int) - 1 else -(magnitude as int))
    else if magnitude > LONG_MAX then LONG_MAX else magnitude
  }

  /** atoi: strtol, then the conversion from 64-bit `long` to 32-bit `int`. */
  function Atoi(s: string): int {
    ToInt32(StrToLong(s))
  }

  function ToInt32(n: int): int {
    var low := n % 0x1_0000_0000;
    if low >= 0x8000_0000 then low - 0x1_0000_0000 else low
  }

  lemma ToInt32OfSmall(n: int)
    requires -0x8000_0000 <= n < 0x8000_0000
    ensures ToInt32(n) == n
  {
  }

  /** What std::to_string and operator<< print for a signed number. */
  function PrintSigned(n: int): string {
    if n < 0 then "-" + Print(-n) else Print(n)
  }

  lemma {:induction false} DigitRunOfDigits(digits: string, rest: string)
    requires AllDigits(digits)
    requires rest == "" || !IsDigit(rest[0])
    ensures DigitRun(digits + rest) == digits
  {
    if digits == "" {
      assert digits + rest == rest;
    } else {
      DigitRunOfDigits(digits[1..], rest);
      assert (digits + rest)[1..] == digits[1..] + rest;
      assert digits == [digits[0]] + digits[1..];
    }
  }

  lemma UnsignedReadsBack(n: nat)
    requires n <= ULONG_MAX
    ensures StrToUnsigned(Print(n)) == n
  {
    PrintThenValue(n);
    DigitRunOfDigits(Print(n), "");
    assert Print(n) + "" == Print(n);
    assert IsDigit(Print(n)[0]);
  }

  lemma LongOfDigits(digits: string)
    requires digits != "" && AllDigits(digits)
    ensures StrToLong(digits) == if Value(digits) > LONG_MAX then LONG_MAX else Value(digits)
  {
    DigitRunOfDigits(digits, "");
    assert digits + "" == digits;
    assert IsDigit(digits[0]);
  }

  lemma AtoiOfSmall(digits: string)
    requires digits != "" && AllDigits(digits) && Value(digits) < 0x8000_0000
    ensures Atoi(digits) == Value(digits)
  {
    LongOfDigits(digits);
    ToInt32OfSmall(Value(digits));
  }

  lemma LongReadsBack(n: nat)
    ensures StrToLong(Print(n)) == if n > LONG_MAX then LONG_MAX else n
  {
    PrintThenValue(n);
    LongOfDigits(Print(n));
  }

  // ------------------------------------------------------------------
  // Numerals with leading zeros.
  // ------------------------------------------------------------------

  function Zeros(k: nat): string {
    if k == 0 then "" else ['0'] + Zeros(k - 1)
  }

  /** Zeros, and then the number as it is printed. */
  ghost predicate IsNumeral(text: string, n: nat) {
    exists k :: text == Zeros(k) + Print(n)
  }

  lemma {:induction false} LeadingZero(s: string)
    requires AllDigits(s)
    ensures AllDigits(['0'] + s) && Value(['0'] + s) == Value(s)
  {
    var t := ['0'] + s;
    if s == "" {
      assert t[..0] == "";
    } else {
      LeadingZero(s[..|s| - 1]);
      assert t[..|t| - 1] == ['0'] + s[..|s| - 1];
    }
  }

  lemma OneZero(k: nat, s: string)
    ensures Zeros(k) + s == if k == 0 then s else ['0'] + (Zeros(k - 1) + s)
  {
  }

  lemma {:induction false} LeadingZeros(k: nat, s: string)
    requires AllDigits(s)
    ensures AllDigits(Zeros(k) + s) && Value(Zeros(k) + s) == Value(s)
  {
    OneZero(k, s);
    if k > 0 {
      LeadingZeros(k - 1, s);
      LeadingZero(Zeros(k - 1) + s);
    }
  }

  lemma {:induction false} ZerosThenNumeral(s: string) returns (k: nat)
    requires AllDigits(s) && s != ""
    ensures s == Zeros(k) + Print(Value(s))
  {
    if s[0] == '0' && |s| > 1 {
      LeadingZero(s[1..]);
      assert s == ['0'] + s[1..];
      var k' := ZerosThenNumeral(s[1..]);
      k := k' + 1;
    } else {
      ValueThenPrint(s);
      k := 0;
    }
    OneZero(k, Print(Value(s)));
  }

  /** A text of digits denotes exactly the number that it prints behind its zeros. */
  lemma NumeralExactly(text: string, n: nat)
    ensures text != "" && AllDigits(text) && Value(text) == n <==> IsNumeral(text, n)
  {
    PrintThenValue(n);
    if text != "" && AllDigits(text) && Value(text) == n {
      var k := ZerosThenNumeral(text);
    }
    if IsNumeral(text, n) {
      var k :| text == Zeros(k) + Print(n);
      LeadingZeros(k, Print(n));
    }
  }

  // ------------------------------------------------------------------
  // What the C library makes of any text.
  // ------------------------------------------------------------------

  ghost predicate AllSpace(s: string) {
    forall i | 0 <= i < |s| :: IsSpace(s[i])
  }

  lemma {:induction false} SkipSpacesOf(spaces: string, rest: string)
    requires AllSpace(spaces) && (rest != "" ==> !IsSpace(rest[0]))
    ensures SkipSpaces(spaces + rest) == rest
  {
    if spaces == "" {
      assert spaces + rest == rest;
    } else {
      assert (spaces + rest)[1..] == spaces[1..] + rest;
      SkipSpacesOf(spaces[1..], rest);
    }
  }

  lemma SignedRun(sign: string, digits: string, rest: string)
    requires sign in {"", "+", "-"} && AllDigits(digits) && digits != "" && (rest != "" ==> !IsDigit(rest[0]))
    ensures var t := sign + (digits + rest);
            && t != "" && !IsSpace(t[0]) && DigitRun(Unsigned(t)) == digits && (Negative(t) <==> sign == "-")
  {
    var t := sign + (digits + rest);
    DigitRunOfDigits(digits, rest);
    assert IsDigit(digits[0]) && (digits + rest)[0] == digits[0];
    if sign == "" {
      assert t == digits + rest;
    } else {
      assert t[1..] == digits + rest && t[0] == sign[0];
    }
  }

  /** White space, a sign, digits, and anything else behind them: the value, cut off at the type's bounds. */
  lemma LongOfText(spaces: string, sign: string, digits: string, rest: string)
    requires AllSpace(spaces) && sign in {"", "+", "-"} && AllDigits(digits) && digits != ""
    requires rest != "" ==> !IsDigit(rest[0])
    ensures var n := if sign == "-" then -(Value(digits) as int) else Value(digits);
            StrToLong(spaces + (sign + (digits + rest)))
              == if n > LONG_MAX then LONG_MAX else if n < -(LONG_MAX as int) - 1 then -(LONG_MAX as int) - 1 else n
  {
    SignedRun(sign, digits, rest);
    SkipSpacesOf(spaces, sign + (digits + rest));
  }

  lemma Negated(v: nat, modulus: nat)
    requires v < modulus
    ensures (modulus - v) % modulus == if v == 0 then 0 else modulus - v
  {
    if v == 0 {
      assert modulus == 1 * modulus + 0;
    }
  }

  /** The same for unsigned numbers; a minus sign negates modulo 2^64. */
  lemma UnsignedOfText(spaces: string, sign: string, digits: string, rest: string)
    requires AllSpace(spaces) && sign in {"", "+", "-"} && AllDigits(digits) && digits != ""
    requires rest != "" ==> !IsDigit(rest[0])
    ensures StrToUnsigned(spaces + (sign + (digits + rest))) ==
      if Value(digits) > ULONG_MAX then ULONG_MAX
      else if sign == "-" then (ULONG_MAX + 1 - Value(digits)) % (ULONG_MAX + 1)
      else Value(digits)
  {
    SignedRun(sign, digits, rest);
    SkipSpacesOf(spaces, sign + (digits + rest));
    if Value(digits) <= ULONG_MAX {
      Negated(Value(digits), ULONG_MAX + 1);
    }
  }
}
