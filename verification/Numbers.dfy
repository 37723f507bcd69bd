/** Decimal numbers as `std::to_string` prints them and `std::strtoull(.., 10)` reads them. */
module Numbers {

  const ULLONG_MAX: nat := 0xFFFF_FFFF_FFFF_FFFF

  predicate IsDigit(c: char) { '0' <= c <= '9' }

  predicate IsSpace(c: char) {
    c == ' ' || c == '\t' || c == '\n' || c == '\r' || c as int == 11 || c as int == 12
  }

  function DigitValue(c: char): nat
    requires IsDigit(c)
  {
    c as int - '0' as int
  }

  function Digit(d: nat): (c: char)
    requires d < 10
    ensures IsDigit(c) && DigitValue(c) == d
  {
    ('0' as int + d) as char
  }

  function SkipSpaces(s: string): string {
    if s != "" && IsSpace(s[0]) then SkipSpaces(s[1..]) else s
  }

  /** Value of the digits at the front of `s`, read behind digits worth `v`. */
  function ReadDigits(s: string, v: nat): nat {
    if s != "" && IsDigit(s[0]) then ReadDigits(s[1..], 10 * v + DigitValue(s[0])) else v
  }

  /** Blanks, an optional sign, then digits; saturates; a minus sign negates modulo 2^64. */
  function Strtoull(s: string): (r: nat)
    ensures r <= ULLONG_MAX
  {
    var t := SkipSpaces(s);
    var signed := t != "" && (t[0] == '-' || t[0] == '+');
    var v := ReadDigits(if signed then t[1..] else t, 0);
    if v > ULLONG_MAX then ULLONG_MAX
    else if signed && t[0] == '-' then (ULLONG_MAX + 1 - v) % (ULLONG_MAX + 1)
    else v
  }

  function Decimal(n: nat): (r: string)
    ensures r != "" && forall i :: 0 <= i < |r| ==> IsDigit(r[i])
  {
    if n < 10 then [Digit(n)] else Decimal(n / 10) + [Digit(n % 10)]
  }

  lemma {:induction false} ReadDecimal(n: nat, rest: string)
    ensures ReadDigits(Decimal(n) + rest, 0) == ReadDigits(rest, n)
  {
    if n < 10 {
      assert (Decimal(n) + rest)[1..] == rest;
    } else {
      var d := [Digit(n % 10)];
      ReadDecimal(n / 10, d + rest);
      assert Decimal(n) + rest == Decimal(n / 10) + (d + rest);
      assert (d + rest)[1..] == rest;
    }
  }

  /** Reading undoes printing up to the width of `size_t`, and saturates beyond it. */
  lemma {:induction false} StrtoullDecimal(n: nat)
    ensures Strtoull(Decimal(n)) == if n > ULLONG_MAX then ULLONG_MAX else n
  {
    ReadDecimal(n, "");
    assert Decimal(n) + "" == Decimal(n);
    assert IsDigit(Decimal(n)[0]);
  }

  /** A minus sign negates modulo 2^64. */
  lemma {:induction false} StrtoullNegative(n: nat)
    requires 0 < n <= ULLONG_MAX
    ensures Strtoull("-" + Decimal(n)) == ULLONG_MAX + 1 - n
  {
    ReadDecimal(n, "");
    assert Decimal(n) + "" == Decimal(n);
    assert ("-" + Decimal(n))[1..] == Decimal(n);
  }

  ghost predicate AllSpaces(s: string) {
    forall c :: c in s ==> c == ' ' || c == '\t' || c == '\n' || c == '\r' || c as int == 11 || c as int == 12
  }

  lemma {:induction false} SkipSpacesMeaning(blanks: string, s: string)
    requires AllSpaces(blanks) && (s == "" || !IsSpace(s[0]))
    ensures SkipSpaces(blanks + s) == s
    decreases |blanks|
  {
    if blanks == "" {
      assert blanks + s == s;
    } else {
      assert (blanks + s)[1..] == blanks[1..] + s && (blanks + s)[0] == blanks[0] && blanks[0] in blanks;
      assert forall c :: c in blanks[1..] ==> c in blanks;
      SkipSpacesMeaning(blanks[1..], s);
    }
  }

  lemma {:induction false} LeadingZeros(k: nat, s: string)
    ensures ReadDigits(seq(k, _ => '0') + s, 0) == ReadDigits(s, 0)
  {
    var zeros := seq(k, _ => '0');
    if k == 0 {
      assert zeros + s == s;
    } else {
      assert (zeros + s)[1..] == seq(k - 1, _ => '0') + s;
      LeadingZeros(k - 1, s);
    }
  }

  function Saturated(n: nat): nat { if n > ULLONG_MAX then ULLONG_MAX else n }

  /** No digit where one is looked for. */
  ghost predicate NoDigitFirst(s: string) { s == "" || s[0] < '0' || s[0] > '9' }

  /** The digits of a number, behind any zeros and in front of what is no digit. */
  lemma ReadNumber(zeros: nat, n: nat, rest: string)
    requires NoDigitFirst(rest)
    ensures var s := seq(zeros, _ => '0') + (Decimal(n) + rest);
            ReadDigits(s, 0) == n && s != "" && IsDigit(s[0])
  {
    LeadingZeros(zeros, Decimal(n) + rest);
    ReadDecimal(n, rest);
  }

  /**
    What is read: the number behind any white space, an optional sign and any zeros, up to the first
    character that is no digit; saturated, and negated modulo 2^64 behind a minus sign.
  */
  lemma {:induction false} StrtoullMeaning(blanks: string, zeros: nat, n: nat, rest: string)
    requires AllSpaces(blanks) && NoDigitFirst(rest)
    ensures var s := seq(zeros, _ => '0') + (Decimal(n) + rest);
            && Strtoull(blanks + s) == Saturated(n)
            && Strtoull(blanks + ("+" + s)) == Saturated(n)
            && Strtoull(blanks + ("-" + s)) == if n > ULLONG_MAX then ULLONG_MAX else if n == 0 then 0 else ULLONG_MAX + 1 - n
  {
    hide SkipSpaces, ReadDigits, Decimal;
    var s := seq(zeros, _ => '0') + (Decimal(n) + rest);
    ReadNumber(zeros, n, rest);
    SkipSpacesMeaning(blanks, s);
    SkipSpacesMeaning(blanks, "+" + s);
    SkipSpacesMeaning(blanks, "-" + s);
    assert ("+" + s)[1..] == s && ("-" + s)[1..] == s;
  }

  /** Where no digit stands behind white space and sign, the number is 0. */
  lemma StrtoullNothing(blanks: string, rest: string)
    requires AllSpaces(blanks) && NoDigitFirst(rest)
    requires rest == "" || (!IsSpace(rest[0]) && rest[0] != '+' && rest[0] != '-')
    ensures Strtoull(blanks + rest) == 0
    ensures Strtoull(blanks + ("+" + rest)) == 0 && Strtoull(blanks + ("-" + rest)) == 0
  {
    SkipSpacesMeaning(blanks, rest);
    SkipSpacesMeaning(blanks, "+" + rest);
    SkipSpacesMeaning(blanks, "-" + rest);
    assert ("+" + rest)[1..] == rest && ("-" + rest)[1..] == rest;
  }
}
