/** Decoding of percent-encoded request targets. */
module UrlCodec {
  import opened Text
  import opened Decimal

  // ---------------------------------------------------------------------------------------------
  // Reading a number the way `std::istringstream >> std::hex >> int` does
  // ---------------------------------------------------------------------------------------------

  function HexValue(c: char): (v: Option<nat>)
    ensures v.Some? ==> v.value < 16
  {
    if '0' <= c <= '9' then Some(c as int - '0' as int)
    else if 'a' <= c <= 'f' then Some(c as int - 'a' as int + 10)
    else if 'A' <= c <= 'F' then Some(c as int - 'A' as int + 10)
    else None
  }

  /**
   * The value of two characters: white space is skipped, one sign is allowed, reading stops at the
   * first other character, and a prefix 0x without a digit fails.
   */
  function ScanHex(a: char, b: char): Option<int> {
    match (HexValue(a), HexValue(b))
    case (Some(x), Some(y)) => Some(16 * x + y)
    case (Some(x), None) => if a == '0' && (b == 'x' || b == 'X') then None else Some(x)
    case (None, Some(y)) =>
      if IsSpace(a) || a == '+' then Some(y) else if a == '-' then (var v: int := -(y as int); Some(v)) else None
    case (None, None) => None
  }

  /** `static_cast<char>`, as the byte it stores. */
  function ToChar(value: int): char {
    (value % 256) as char
  }

  // ---------------------------------------------------------------------------------------------
  // Decoding
  // ---------------------------------------------------------------------------------------------

  /** `url_decode`: None when it returns false. */
  function UrlDecode(s: string): Option<string> {
    if s == "" then Some("")
    else if s[0] == '%' then
      if |s| < 3 then None
      else
        match (ScanHex(s[1], s[2]), UrlDecode(s[3..]))
        case (Some(value), Some(rest)) => Some([ToChar(value)] + rest)
        case _ => None
    else
      var rest := UrlDecode(s[1..]);
      if rest.None? then None
      else Some([if s[0] == '+' then ' ' else s[0]] + rest.value)
  }

  function PrependText(a: string, b: Option<string>): Option<string> {
    if b.None? then None else Some(a + b.value)
  }

  lemma UrlDecodeNext(input: string, i: nat, output: string)
    requires i < |input|
    ensures var c := input[i];
      PrependText(output, UrlDecode(input[i..])) ==
      if c != '%' then PrependText(output + [if c == '+' then ' ' else c], UrlDecode(input[i + 1..]))
      else if i + 3 > |input| || ScanHex(input[i + 1], input[i + 2]).None? then None
      else PrependText(output + [ToChar(ScanHex(input[i + 1], input[i + 2]).value)], UrlDecode(input[i + 3..]))
  {
    var s := input[i..];
    assert s[1..] == input[i + 1..];
    if i + 3 <= |input| {
      assert s[3..] == input[i + 3..];
    }
    forall c: char, rest: string
      ensures output + ([c] + rest) == output + [c] + rest
    {
    }
  }

  method Decode(input: string) returns (ok: bool, output: string)
    ensures UrlDecode(input) == if ok then Some(output) else None
  {
    hide UrlDecode;
    output := "";
    var i := 0;
    UrlDecodeStart(input);
    while i < |input|
      invariant 0 <= i <= |input|
      invariant UrlDecode(input) == PrependText(output, UrlDecode(input[i..]))
    {
      UrlDecodeNext(input, i, output);
      if input[i] == '%' {
        if i + 3 <= |input| {
          var value := ScanHex(input[i + 1], input[i + 2]);
          if value.Some? {
            output := output + [ToChar(value.value)];
            i := i + 2;
          } else {
            return false, output;
          }
        } else {
          return false, output;
        }
      } else if input[i] == '+' {
        output := output + [' '];
      } else {
        output := output + [input[i]];
      }
      i := i + 1;
    }
    UrlDecodeEnd(output);
    assert input[i..] == "";
    ok := true;
  }

  lemma UrlDecodeStart(input: string)
    ensures UrlDecode(input) == PrependText("", UrlDecode(input[0..]))
  {
    assert input[0..] == input;
    if UrlDecode(input).Some? {
      assert "" + UrlDecode(input).value == UrlDecode(input).value;
    }
  }

  lemma UrlDecodeEnd(output: string)
    ensures PrependText(output, UrlDecode("")) == Some(output)
  {
    assert output + "" == output;
  }

  // ---------------------------------------------------------------------------------------------
  // The two characters of an escape, as the stream reads them
  // ---------------------------------------------------------------------------------------------

  /** The digits, in either case, and no other character. */
  lemma HexValueExact(c: char, i: nat)
    requires i < 16
    ensures HexValue(c) == Some(i) <==> "0123456789abcdef"[i] == c || "0123456789ABCDEF"[i] == c
  {
  }

  lemma HexValueNone(c: char)
    ensures HexValue(c) == None <==> c !in "0123456789abcdef" && c !in "0123456789ABCDEF"
  {
    hide HexValue;
    forall i: nat | i < 16
      ensures HexValue(c) == Some(i) <==> "0123456789abcdef"[i] == c || "0123456789ABCDEF"[i] == c
    {
      HexValueExact(c, i);
    }
  }

  function LeadingHex(s: string): (d: string)
    ensures forall i :: 0 <= i < |d| ==> HexValue(d[i]).Some?
  {
    if s != "" && HexValue(s[0]).Some? then [s[0]] + LeadingHex(s[1..]) else ""
  }

  function HexNumber(s: string): nat
    requires forall i :: 0 <= i < |s| ==> HexValue(s[i]).Some?
  {
    if s == "" then 0 else 16 * HexNumber(s[..|s| - 1]) + HexValue(s[|s| - 1]).value
  }

  /**
   * What the stream reads from a text: white space is skipped, then a sign and a prefix 0x are
   * allowed, and then there must be digits; what follows them is left.
   */
  function ReadHex(s: string): Option<int> {
    var t := SkipSpace(s);
    var signed := t != "" && (t[0] == '-' || t[0] == '+');
    var u := if signed then t[1..] else t;
    var prefixed := |u| >= 2 && u[0] == '0' && (u[1] == 'x' || u[1] == 'X');
    var digits := LeadingHex(if prefixed then u[2..] else u);
    if digits == "" then None
    else if signed && t[0] == '-' then Some(-(HexNumber(digits) as int))
    else Some(HexNumber(digits))
  }

  lemma OneDigit(c: char)
    ensures LeadingHex([c]) == (if HexValue(c).Some? then [c] else "")
    ensures HexValue(c).Some? ==> HexNumber([c]) == HexValue(c).value
    ensures SkipSpace([c]) == if IsSpace(c) then "" else [c]
  {
    assert [c][1..] == "" && [c][..0] == "";
    assert HexNumber("") == 0;
  }

  lemma TwoCharacters(a: char, b: char)
    ensures SkipSpace([a, b]) == if IsSpace(a) then SkipSpace([b]) else [a, b]
    ensures LeadingHex([a, b]) == if HexValue(a).Some? then [a] + LeadingHex([b]) else ""
    ensures HexValue(a).Some? && HexValue(b).Some? ==>
              HexNumber([a, b]) == 16 * HexNumber([a]) + HexValue(b).value
  {
    assert [a, b][1..] == [b] && [a, b][..1] == [a];
  }

  /** The value of two characters is what the stream reads from them. */
  lemma ScanHexReads(a: char, b: char)
    ensures ScanHex(a, b) == ReadHex([a, b])
  {
    if HexValue(a).Some? {
      ScanDigit(a, b);
    } else {
      ScanOther(a, b);
    }
  }

  lemma ScanDigit(a: char, b: char)
    requires HexValue(a).Some?
    ensures ScanHex(a, b) == ReadHex([a, b])
  {
    hide SkipSpace, LeadingHex, HexNumber;
    OneDigit(a);
    OneDigit(b);
    TwoCharacters(a, b);
    NothingRead();
    assert [a, b][2..] == "" && [a] + [b] == [a, b] && [a] + "" == [a];
  }

  lemma ScanOther(a: char, b: char)
    requires HexValue(a).None?
    ensures ScanHex(a, b) == ReadHex([a, b])
  {
    hide SkipSpace, LeadingHex, HexNumber;
    OneDigit(b);
    TwoCharacters(a, b);
    NothingRead();
    assert [a, b][1..] == [b] && [b][1..] == "";
  }

  lemma NothingRead()
    ensures LeadingHex("") == ""
  {
  }

  /** An escape without a digit is refused, whatever comes after it. */
  lemma NoDigitRefused(a: char, b: char, rest: string)
    requires a !in "0123456789abcdef" && a !in "0123456789ABCDEF"
    requires b !in "0123456789abcdef" && b !in "0123456789ABCDEF"
    ensures UrlDecode(['%', a, b] + rest) == None
  {
    hide HexValue;
    HexValueNone(a);
    HexValueNone(b);
  }

  /**
   * A target and what it stands for: two characters must follow every `%`, and what the stream reads
   * from them is stored in a byte; a `+` is a space; everything else stands for itself.
   */
  predicate StandsFor(e: string, p: string)
    decreases |e|
  {
    if e == "" then p == ""
    else if e[0] == '%' then
      && |e| >= 3 && p != "" && ReadHex(e[1..3]).Some? && p[0] as int == ReadHex(e[1..3]).value % 256
      && StandsFor(e[3..], p[1..])
    else
      p != "" && p[0] == (if e[0] == '+' then ' ' else e[0]) && StandsFor(e[1..], p[1..])
  }

  /** Every target, with complete escapes or not: what it is decoded to, or else it is refused. */
  lemma {:induction false} UrlDecodeExact(e: string, p: string)
    ensures UrlDecode(e) == Some(p) <==> StandsFor(e, p)
    decreases |e|
  {
    hide ReadHex, ScanHex;
    if e != "" {
      var k := if e[0] == '%' then 3 else 1;
      if |e| >= k {
        if p != "" {
          UrlDecodeExact(e[k..], p[1..]);
          FirstAndRest(p);
        }
        if e[0] == '%' {
          ScanHexReads(e[1], e[2]);
          assert e[1..3] == [e[1], e[2]];
        }
      }
    }
  }

  lemma FirstAndRest(p: string)
    requires p != ""
    ensures forall c: char, rest: string :: [c] + rest == p <==> c == p[0] && rest == p[1..]
  {
    assert p == [p[0]] + p[1..];
    forall c: char, rest: string
      ensures [c] + rest == p <==> c == p[0] && rest == p[1..]
    {
      if [c] + rest == p {
        assert p[0] == c && p[1..] == rest;
      }
    }
  }

  // ---------------------------------------------------------------------------------------------
  // Decoding against encoding
  // ---------------------------------------------------------------------------------------------

  /** `a` and `b` are the two hexadecimal digits of the byte `c`, in either case. */
  predicate HexDigitsOf(a: char, b: char, c: char) {
    HexValue(a).Some? && HexValue(b).Some? && 16 * HexValue(a).value + HexValue(b).value == c as int
  }

  /** One byte of `p` as `%` and two digits, as itself unless it is `%` or `+`, or a space as `+`. */
  predicate IsEncodingOf(e: string, p: string)
    decreases |p|
  {
    if p == "" then e == ""
    else
      || (|e| >= 3 && e[0] == '%' && HexDigitsOf(e[1], e[2], p[0]) && IsEncodingOf(e[3..], p[1..]))
      || (|e| >= 1 && e[0] != '%' && e[0] != '+' && e[0] == p[0] && IsEncodingOf(e[1..], p[1..]))
      || (|e| >= 1 && e[0] == '+' && p[0] == ' ' && IsEncodingOf(e[1..], p[1..]))
  }

  /** Every `%` is followed by two hexadecimal digits. */
  predicate EscapesComplete(e: string) {
    if e == "" then true
    else if e[0] == '%' then |e| >= 3 && HexValue(e[1]).Some? && HexValue(e[2]).Some? && EscapesComplete(e[3..])
    else EscapesComplete(e[1..])
  }

  function Escapes(e: string): nat {
    if e == "" then 0
    else if e[0] == '%' && |e| >= 3 then 1 + Escapes(e[3..])
    else Escapes(e[1..])
  }

  /** Decoding gives p back from each of its encodings. */
  lemma {:induction false} DecodeEncoding(e: string, p: string)
    requires IsEncodingOf(e, p)
    ensures UrlDecode(e) == Some(p) && EscapesComplete(e) && |p| == |e| - 2 * Escapes(e)
    decreases |p|
  {
    if p != "" {
      var rest := p[1..];
      assert p == [p[0]] + rest;
      if e[0] == '%' {
        DecodeEncoding(e[3..], rest);
      } else {
        DecodeEncoding(e[1..], rest);
      }
    }
  }

  /** And a target with complete escapes is an encoding of what it decodes to, and of nothing else. */
  lemma {:induction false} DecodedIsEncoding(e: string)
    requires EscapesComplete(e)
    ensures UrlDecode(e).Some? && IsEncodingOf(e, UrlDecode(e).value)
    decreases |e|
  {
    if e != "" {
      if e[0] == '%' {
        DecodedIsEncoding(e[3..]);
        var rest := UrlDecode(e[3..]).value;
        var p := UrlDecode(e).value;
        assert p == [ToChar(ScanHex(e[1], e[2]).value)] + rest;
        assert p[1..] == rest;
      } else {
        DecodedIsEncoding(e[1..]);
        var p := UrlDecode(e).value;
        assert p[1..] == UrlDecode(e[1..]).value;
      }
    }
  }

  /** Decoding is exactly the inverse of encoding on the targets whose escapes are complete. */
  lemma DecodeIffEncoding(e: string, p: string)
    ensures IsEncodingOf(e, p) <==> UrlDecode(e) == Some(p) && EscapesComplete(e)
  {
    if EscapesComplete(e) {
      DecodedIsEncoding(e);
    }
    if IsEncodingOf(e, p) {
      DecodeEncoding(e, p);
    }
  }

  /** An incomplete escape can be accepted all the same: its second character is dropped. */
  lemma IncompleteEscapeAccepted()
    ensures !EscapesComplete("%4g") && UrlDecode("%4g") == Some([4 as char])
    ensures !EscapesComplete("%-1") && UrlDecode("%-1") == Some([255 as char])
  {
    assert "%4g"[3..] == "" && "%-1"[3..] == "";
    assert [4 as char] + "" == [4 as char] && [255 as char] + "" == [255 as char];
  }
}
