/** Decimal printing of unsigned numbers, and the library scanner `std::stoul` that reads them back. */
module Decimal {
  import opened Text

  /** One more than the largest value of `unsigned long` and of `std::size_t`. */
  const WORD_LIMIT := 0x1_0000_0000_0000_0000

  predicate IsDigit(c: char) {
    '0' <= c <= '9'
  }

  predicate AllDigits(s: string) {
    forall i :: 0 <= i < |s| ==> IsDigit(s[i])
  }

  function DigitValue(c: char): nat
    requires IsDigit(c)
  {
    c as int - '0' as int
  }

  /** Printing with `operator<<`, `std::to_string` or `boost::lexical_cast`. */
  function ToDecimal(n: nat): (s: string)
    ensures s != "" && AllDigits(s)
  {
    var last := ('0' as int + n % 10) as char;
    if n < 10 then [last] else ToDecimal(n / 10) + [last]
  }

  /** The number denoted by a digit string, most significant digit first. */
  function ValueOf(s: string): nat
    requires AllDigits(s)
  {
    if s == "" then 0 else 10 * ValueOf(s[..|s| - 1]) + DigitValue(s[|s| - 1])
  }

  lemma {:induction false} ValueOfToDecimal(n: nat)
    ensures ValueOf(ToDecimal(n)) == n
  {
    var s := ToDecimal(n);
    if n < 10 {
      assert s[..0] == "";
    } else {
      ValueOfToDecimal(n / 10);
      assert s[..|s| - 1] == ToDecimal(n / 10);
    }
  }

  lemma ToDecimalInjective(m: nat, n: nat)
    ensures ToDecimal(m) == ToDecimal(n) ==> m == n
  {
    ValueOfToDecimal(m);
    ValueOfToDecimal(n);
  }

  predicate IsSpace(c: char) {
    c == ' ' || 9 <= c as int <= 13
  }

  function SkipSpace(s: string): string {
    if s != "" && IsSpace(s[0]) then SkipSpace(s[1..]) else s
  }

  function LeadingDigits(s: string): (d: string)
    ensures AllDigits(d) && d <= s
  {
    if s != "" && IsDigit(s[0]) then [s[0]] + LeadingDigits(s[1..]) else ""
  }

  /**
   * `std::stoul` in base 10: white space, an optional sign, then as many digits as there are. It
   * throws (None) without a digit or when the digits exceed the type; a minus sign negates modulo
   * the type.
   */
  function Stoul(s: string): (r: Option<nat>)
    ensures r.Some? ==> r.value < WORD_LIMIT
  {
    var t := SkipSpace(s);
    var signed := t != "" && (t[0] == '-' || t[0] == '+');
    var digits := LeadingDigits(if signed then t[1..] else t);
    if digits == "" || WORD_LIMIT <= ValueOf(digits) then None
    else if signed && t[0] == '-' then Some((WORD_LIMIT - ValueOf(digits)) % WORD_LIMIT)
    else Some(ValueOf(digits))
  }

  lemma {:induction false} LeadingDigitsOfDigits(s: string)
    requires AllDigits(s)
    ensures LeadingDigits(s) == s
  {
    if s != "" {
      LeadingDigitsOfDigits(s[1..]);
    }
  }

  /** Scanning undoes printing for every value of the type, and only for those. */
  lemma StoulToDecimal(n: nat)
    ensures Stoul(ToDecimal(n)) == if n < 18446744073709551616 then Some(n) else None
  {
    var s := ToDecimal(n);
    ValueOfToDecimal(n);
    LeadingDigitsOfDigits(s);
    assert IsDigit(s[0]);
    assert SkipSpace(s) == s;
  }

  // ---------------------------------------------------------------------------------------------
  // What the scanner reads, for every text
  // ---------------------------------------------------------------------------------------------

  /** White space in the C locale: space, tab, line feed, vertical tab, form feed and carriage return. */
  predicate IsBlank(s: string) {
    forall i :: 0 <= i < |s| ==> s[i] as int in {32, 9, 10, 11, 12, 13}
  }

  lemma {:induction false} SkipBlanks(blanks: string, t: string)
    requires IsBlank(blanks) && (t == "" || !IsSpace(t[0]))
    ensures SkipSpace(blanks + t) == t
  {
    if blanks == "" {
      assert blanks + t == t;
    } else {
      SkipBlanks(blanks[1..], t);
      assert (blanks + t)[1..] == blanks[1..] + t;
    }
  }

  lemma {:induction false} LeadingDigitsBefore(digits: string, rest: string)
    requires AllDigits(digits) && (rest == "" || !IsDigit(rest[0]))
    ensures LeadingDigits(digits + rest) == digits
  {
    if digits == "" {
      assert digits + rest == rest;
    } else {
      LeadingDigitsBefore(digits[1..], rest);
      assert (digits + rest)[1..] == digits[1..] + rest;
    }
  }

  /** Blanks, a sign or none, and digits up to the end or to some other character. */
  predicate IsNumeral(blanks: string, sign: string, digits: string, rest: string) {
    && IsBlank(blanks) && (sign == "" || sign == "+" || sign == "-")
    && digits != "" && AllDigits(digits) && (rest == "" || !('0' <= rest[0] <= '9'))
  }

  /** The value of every such text: the digits count up to 2^64, and a minus sign negates modulo 2^64. */
  lemma StoulReads(blanks: string, sign: string, digits: string, rest: string)
    requires IsNumeral(blanks, sign, digits, rest)
    ensures Stoul(blanks + (sign + (digits + rest))) ==
            if ValueOf(digits) >= 18446744073709551616 then None
            else if sign == "-" then Some((18446744073709551616 - ValueOf(digits)) % 18446744073709551616)
            else Some(ValueOf(digits))
  {
    hide SkipSpace, LeadingDigits, ValueOf;
    var u := digits + rest;
    var t := sign + u;
    assert u[0] == digits[0];
    SkipBlanks(blanks, t);
    LeadingDigitsBefore(digits, rest);
    if sign == "" {
      assert t == u;
    } else {
      assert t[0] == sign[0] && t[1..] == u;
    }
  }

  lemma {:induction false} SkipSpaceSplit(s: string) returns (blanks: string)
    ensures s == blanks + SkipSpace(s) && IsBlank(blanks)
    ensures SkipSpace(s) == "" || !IsSpace(SkipSpace(s)[0])
  {
    blanks := "";
    if s != "" && IsSpace(s[0]) {
      var more := SkipSpaceSplit(s[1..]);
      blanks := [s[0]] + more;
      assert s == [s[0]] + s[1..];
    }
  }

  lemma {:induction false} LeadingDigitsSplit(s: string) returns (rest: string)
    ensures s == LeadingDigits(s) + rest && (rest == "" || !IsDigit(rest[0]))
  {
    rest := s;
    if s != "" && IsDigit(s[0]) {
      rest := LeadingDigitsSplit(s[1..]);
      assert s == [s[0]] + s[1..];
    } else {
      assert "" + rest == rest;
    }
  }

  /** And a value is read from no other text. */
  lemma StoulReadsOnly(s: string) returns (blanks: string, sign: string, digits: string, rest: string)
    requires Stoul(s).Some?
    ensures s == blanks + (sign + (digits + rest)) && IsNumeral(blanks, sign, digits, rest)
  {
    hide SkipSpace, LeadingDigits, ValueOf;
    blanks := SkipSpaceSplit(s);
    var t := SkipSpace(s);
    var signed := t != "" && (t[0] == '-' || t[0] == '+');
    var u := if signed then t[1..] else t;
    sign := if signed then [t[0]] else "";
    digits := LeadingDigits(u);
    rest := LeadingDigitsSplit(u);
    assert t == sign + u;
  }
}
