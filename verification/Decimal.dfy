/** Decimal numbers as `%d` prints them and `atoi` reads them. */
module Decimal {

  predicate IsDigit(c: char) {
    '0' <= c <= '9'
  }

  predicate AllDigits(s: string) {
    forall i :: 0 <= i < |s| ==> IsDigit(s[i])
  }

  function DigitChar(d: nat): char
    requires d < 10
  {
    '0' + d as char
  }

  function DigitValue(c: char): nat
    requires IsDigit(c)
  {
    c as int - '0' as int
  }

  /** The digits of a natural number. */
  function Digits(n: nat): (s: string)
    ensures s != "" && AllDigits(s)
  {
    if n < 10 then [DigitChar(n)] else Digits(n / 10) + [DigitChar(n % 10)]
  }

  /** The value of a string of digits. */
  function Value(s: string): nat
    requires AllDigits(s)
  {
    if s == "" then 0 else 10 * Value(s[..|s| - 1]) + DigitValue(s[|s| - 1])
  }

  lemma {:induction false} ValueOfDigits(n: nat)
    ensures Value(Digits(n)) == n
  {
    if n >= 10 {
      ValueOfDigits(n / 10);
      var s := Digits(n);
      assert s[..|s| - 1] == Digits(n / 10) && s[|s| - 1] == DigitChar(n % 10);
    }
  }

  /** Only the number 0 is printed with a 0 in front. */
  lemma {:induction false} NoLeadingZero(n: nat)
    ensures Digits(n)[0] == '0' <==> n == 0
    ensures n == 0 ==> Digits(n) == "0"
  {
    if n >= 10 {
      NoLeadingZero(n / 10);
      assert Digits(n)[0] == Digits(n / 10)[0];
    }
  }

  /** What `%d` prints. */
  function Print(n: int): (s: string)
    ensures s != ""
  {
    if n < 0 then "-" + Digits(-n) else Digits(n)
  }

  lemma {:induction false} DigitsLength(n: nat, width: nat)
    requires 1 <= width && n < Power10(width)
    ensures |Digits(n)| <= width
    decreases width
  {
    if n >= 10 {
      DigitsLength(n / 10, width - 1);
    }
  }

  function Power10(k: nat): nat {
    if k == 0 then 1 else 10 * Power10(k - 1)
  }

  // ----- reading -----

  /** The digits at the start of a text. */
  function LeadingDigits(s: string): (d: string)
    ensures AllDigits(d) && d <= s
  {
    if s == "" || !IsDigit(s[0]) then "" else [s[0]] + LeadingDigits(s[1..])
  }

  predicate IsSpace(c: char) {
    c == ' ' || '\t' <= c <= '\r'
  }

  function SkipSpaces(s: string): string {
    if s != "" && IsSpace(s[0]) then SkipSpaces(s[1..]) else s
  }

  /** `atoi` on a text whose number is in range: leading white space, an optional sign, then digits. */
  function Atoi(s: string): int {
    var t := SkipSpaces(s);
    if t != "" && t[0] == '-' then -(Value(LeadingDigits(t[1..])) as int)
    else if t != "" && t[0] == '+' then Value(LeadingDigits(t[1..]))
    else Value(LeadingDigits(t))
  }

  lemma {:induction false} SpacesAreSkipped(sp: string, s: string)
    requires (forall i :: 0 <= i < |sp| ==> IsSpace(sp[i])) && (s == "" || !IsSpace(s[0]))
    ensures SkipSpaces(sp + s) == s
  {
    if sp == "" {
      assert sp + s == s;
    } else {
      assert (sp + s)[1..] == sp[1..] + s;
      SpacesAreSkipped(sp[1..], s);
    }
  }

  lemma {:induction false} DigitsLead(d: string, rest: string)
    requires AllDigits(d) && (rest == "" || !IsDigit(rest[0]))
    ensures LeadingDigits(d + rest) == d
  {
    if d == "" {
      assert d + rest == rest;
    } else {
      assert (d + rest)[1..] == d[1..] + rest;
      DigitsLead(d[1..], rest);
    }
  }

  /** What is read: behind white space, the value of the digits up to the next other character, with their sign; 0 if
      there are none. */
  lemma AtoiReads(sp: string, sign: string, d: string, rest: string)
    requires forall i :: 0 <= i < |sp| ==> IsSpace(sp[i])
    requires (sign == "" && (d != "" || rest == "" || !(IsSpace(rest[0]) || rest[0] == '-' || rest[0] == '+')))
             || sign == "-" || sign == "+"
    requires AllDigits(d) && (rest == "" || !IsDigit(rest[0]))
    ensures Atoi(sp + (sign + (d + rest))) == if sign == "-" then -(Value(d) as int) else Value(d)
  {
    var t := sign + (d + rest);
    DigitsLead(d, rest);
    SignedReads(sign, d + rest, t);
    SpacesAreSkipped(sp, t);
    SpacesAreSkipped("", t);
    assert "" + t == t;
  }

  lemma SignedReads(sign: string, digits: string, t: string)
    requires sign == "" || sign == "-" || sign == "+"
    requires t == sign + digits && SkipSpaces(t) == t
    requires sign == "" ==> digits == "" || (digits[0] != '-' && digits[0] != '+')
    ensures Atoi(t) == if sign == "-" then -(Value(LeadingDigits(digits)) as int) else Value(LeadingDigits(digits))
  {
    if sign == "" {
      assert t == digits;
    } else {
      assert t[1..] == digits;
    }
  }

  lemma {:induction false} AllAreLeading(s: string)
    requires AllDigits(s)
    ensures LeadingDigits(s) == s
  {
    if s != "" {
      AllAreLeading(s[1..]);
    }
  }

  /** Reading a printed number gives it back, and it contains only digits and a minus sign. */
  lemma AtoiOfPrint(n: int)
    ensures Atoi(Print(n)) == n
    ensures forall i :: 0 <= i < |Print(n)| ==> IsDigit(Print(n)[i]) || Print(n)[i] == '-'
  {
    var d := Digits(if n < 0 then -n else n);
    AllAreLeading(d);
    ValueOfDigits(if n < 0 then -n else n);
    assert IsDigit(d[0]);
    assert SkipSpaces(Print(n)) == Print(n);
    if n < 0 {
      assert Print(n)[1..] == d;
    }
  }
}
