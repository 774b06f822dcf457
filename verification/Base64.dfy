/** Base64 in both alphabets, with and without line breaks. */
module Base64 {
  import opened Text

  type Byte = x: int | 0 <= x < 256

  // ---------------------------------------------------------------------------------------------
  // The alphabets. They differ in their last two symbols and in the padding character.
  // ---------------------------------------------------------------------------------------------

  function Symbol(i: nat, url: bool): char
    requires i < 64
  {
    if i < 26 then ('A' as int + i) as char
    else if i < 52 then ('a' as int + i - 26) as char
    else if i < 62 then ('0' as int + i - 52) as char
    else if i == 62 then if url then '-' else '+'
    else if url then '_' else '/'
  }

  function Padding(url: bool): char {
    if url then '.' else '='
  }

  predicate IsPadding(c: char) {
    c == '=' || c == '.'
  }

  /** `pos_of_char`: it knows both alphabets, and throws (None) on anything else. */
  function PosOfChar(c: char): (r: Option<nat>)
    ensures r.Some? ==> r.value < 64
  {
    if 'A' <= c <= 'Z' then Some(c as int - 'A' as int)
    else if 'a' <= c <= 'z' then Some(c as int - 'a' as int + ('Z' as int - 'A' as int) + 1)
    else if '0' <= c <= '9' then
      Some(c as int - '0' as int + ('Z' as int - 'A' as int) + ('z' as int - 'a' as int) + 2)
    else if c == '+' || c == '-' then Some(62)
    else if c == '/' || c == '_' then Some(63)
    else None
  }

  predicate IsSymbol(c: char, url: bool) {
    PosOfChar(c).Some? && Symbol(PosOfChar(c).value, url) == c
  }

  lemma PosOfSymbol(i: nat, url: bool)
    requires i < 64
    ensures PosOfChar(Symbol(i, url)) == Some(i) && !IsPadding(Symbol(i, url))
  {
  }

  // ---------------------------------------------------------------------------------------------
  // Specification
  // ---------------------------------------------------------------------------------------------

  /** The text of the first group of at most three bytes. */
  function EncodeGroup(s: seq<Byte>, url: bool): (t: string)
    requires s != []
    ensures |t| == 4
  {
    var first := Symbol(s[0] / 4, url);
    if |s| == 1 then [first, Symbol(s[0] % 4 * 16, url), Padding(url), Padding(url)]
    else
      var second := Symbol(s[0] % 4 * 16 + s[1] / 16, url);
      if |s| == 2 then [first, second, Symbol(s[1] % 16 * 4, url), Padding(url)]
      else [first, second, Symbol(s[1] % 16 * 4 + s[2] / 64, url), Symbol(s[2] % 64, url)]
  }

  function Encode(s: seq<Byte>, url: bool): string {
    if s == [] then ""
    else if |s| <= 3 then EncodeGroup(s, url)
    else EncodeGroup(s, url) + Encode(s[3..], url)
  }

  /** Indexing a `std::string`: the position of its length holds the terminator. */
  function CharAt(t: string, i: nat): char
    requires i <= |t|
  {
    if i < |t| then t[i] else 0 as char
  }

  /** The bytes of the group at position pos, or None when a character is in no alphabet. */
  function DecodeGroup(t: string, pos: nat): (r: Option<seq<Byte>>)
    requires pos < |t|
    ensures r.Some? ==> 1 <= |r.value| <= 3 && pos + 3 <= |t|
  {
    match (PosOfChar(CharAt(t, pos + 1)), PosOfChar(t[pos]))
    case (Some(p1), Some(p0)) =>
      var b0 := p0 * 4 + p1 / 16;
      if IsPadding(CharAt(t, pos + 2)) then Some([b0])
      else (
        match PosOfChar(CharAt(t, pos + 2))
        case None => None
        case Some(p2) =>
          var b1 := p1 % 16 * 16 + p2 / 4;
          if IsPadding(CharAt(t, pos + 3)) then Some([b0, b1])
          else (
            match PosOfChar(CharAt(t, pos + 3))
            case None => None
            case Some(p3) => Some([b0, b1, p2 % 4 * 64 + p3])))
    case _ => None
  }

  /** Decoding from position pos to the end. */
  function DecodeFrom(t: string, pos: nat): Option<seq<Byte>>
    decreases |t| - pos
  {
    if |t| <= pos then Some([])
    else
      var group := DecodeGroup(t, pos);
      if group.None? then None else Prepend(group.value, DecodeFrom(t, pos + 4))
  }

  function Decode(t: string): Option<seq<Byte>> {
    DecodeFrom(t, 0)
  }

  // ---------------------------------------------------------------------------------------------
  // Round trip
  // ---------------------------------------------------------------------------------------------

  /** What a group decodes to, given the positions of its characters (None for padding). */
  lemma DecodeGroupValue(t: string, pos: nat, p0: nat, p1: nat, p2: Option<nat>, p3: Option<nat>)
    requires pos + 4 <= |t| && PosOfChar(t[pos]) == Some(p0) && PosOfChar(t[pos + 1]) == Some(p1)
    requires if p2.None? then IsPadding(t[pos + 2]) else !IsPadding(t[pos + 2]) && PosOfChar(t[pos + 2]) == p2
    requires if p3.None? then IsPadding(t[pos + 3]) else !IsPadding(t[pos + 3]) && PosOfChar(t[pos + 3]) == p3
    ensures DecodeGroup(t, pos) ==
            if p2.None? then Some([p0 * 4 + p1 / 16])
            else if p3.None? then Some([p0 * 4 + p1 / 16, p1 % 16 * 16 + p2.value / 4])
            else Some([p0 * 4 + p1 / 16, p1 % 16 * 16 + p2.value / 4, p2.value % 4 * 64 + p3.value])
  {
  }

  lemma EightBitArithmetic(b0: Byte, b1: Byte, b2: Byte)
    ensures b0 / 4 * 4 + (b0 % 4 * 16) / 16 == b0 && b0 % 4 * 16 < 64
    ensures b0 / 4 * 4 + (b0 % 4 * 16 + b1 / 16) / 16 == b0 && b0 % 4 * 16 + b1 / 16 < 64
    ensures (b0 % 4 * 16 + b1 / 16) % 16 * 16 + (b1 % 16 * 4) / 4 == b1 && b1 % 16 * 4 < 64
    ensures (b0 % 4 * 16 + b1 / 16) % 16 * 16 + (b1 % 16 * 4 + b2 / 64) / 4 == b1 && b1 % 16 * 4 + b2 / 64 < 64
    ensures (b1 % 16 * 4 + b2 / 64) % 4 * 64 + b2 % 64 == b2
  {
  }

  lemma DecodeOneByte(b0: Byte, url: bool, t: string, pos: nat)
    requires pos + 4 <= |t| && t[pos..pos + 4] == EncodeGroup([b0], url)
    ensures DecodeGroup(t, pos) == Some([b0])
  {
    FourAt(t, pos);
    EightBitArithmetic(b0, 0, 0);
    PosOfSymbol(b0 / 4, url);
    PosOfSymbol(b0 % 4 * 16, url);
    DecodeGroupValue(t, pos, b0 / 4, b0 % 4 * 16, None, None);
  }

  lemma DecodeTwoBytes(b0: Byte, b1: Byte, url: bool, t: string, pos: nat)
    requires pos + 4 <= |t| && t[pos..pos + 4] == EncodeGroup([b0, b1], url)
    ensures DecodeGroup(t, pos) == Some([b0, b1])
  {
    FourAt(t, pos);
    EightBitArithmetic(b0, b1, 0);
    var p1 := b0 % 4 * 16 + b1 / 16;
    PosOfSymbol(b0 / 4, url);
    PosOfSymbol(p1, url);
    PosOfSymbol(b1 % 16 * 4, url);
    DecodeGroupValue(t, pos, b0 / 4, p1, Some(b1 % 16 * 4), None);
  }

  lemma DecodeThreeBytes(b0: Byte, b1: Byte, b2: Byte, url: bool, t: string, pos: nat)
    requires pos + 4 <= |t| && t[pos..pos + 4] == EncodeGroup([b0, b1, b2], url)
    ensures DecodeGroup(t, pos) == Some([b0, b1, b2])
  {
    FourAt(t, pos);
    EightBitArithmetic(b0, b1, b2);
    var p1, p2 := b0 % 4 * 16 + b1 / 16, b1 % 16 * 4 + b2 / 64;
    PosOfSymbol(b0 / 4, url);
    PosOfSymbol(p1, url);
    PosOfSymbol(p2, url);
    PosOfSymbol(b2 % 64, url);
    DecodeGroupValue(t, pos, b0 / 4, p1, Some(p2), Some(b2 % 64));
  }

  lemma FourAt(t: string, pos: nat)
    requires pos + 4 <= |t|
    ensures var g := t[pos..pos + 4];
      t[pos] == g[0] && t[pos + 1] == g[1] && t[pos + 2] == g[2] && t[pos + 3] == g[3]
  {
  }

  lemma DecodeGroupOf(s: seq<Byte>, url: bool, t: string, pos: nat)
    requires s != [] && pos + 4 <= |t| && t[pos..pos + 4] == EncodeGroup(s, url)
    ensures DecodeGroup(t, pos) == Some(s[..if |s| <= 3 then |s| else 3])
  {
    if |s| == 1 {
      assert s[..1] == [s[0]];
      DecodeOneByte(s[0], url, t, pos);
    } else if |s| == 2 {
      assert s[..2] == [s[0], s[1]];
      DecodeTwoBytes(s[0], s[1], url, t, pos);
    } else {
      assert s[..3] == [s[0], s[1], s[2]];
      DecodeThreeBytes(s[0], s[1], s[2], url, t, pos);
    }
  }

  /** Only symbols of one alphabet, and its padding. */
  predicate InAlphabet(t: string, url: bool) {
    forall i :: 0 <= i < |t| ==> IsSymbol(t[i], url) || t[i] == Padding(url)
  }

  lemma InAlphabetConcat(a: string, b: string, url: bool)
    requires InAlphabet(a, url) && InAlphabet(b, url)
    ensures InAlphabet(a + b, url)
  {
  }

  lemma EncodeGroupInAlphabet(s: seq<Byte>, url: bool)
    requires s != []
    ensures InAlphabet(EncodeGroup(s, url), url)
  {
    PosOfSymbol(s[0] / 4, url);
    if |s| == 1 {
      PosOfSymbol(s[0] % 4 * 16, url);
    } else {
      PosOfSymbol(s[0] % 4 * 16 + s[1] / 16, url);
      if |s| == 2 {
        PosOfSymbol(s[1] % 16 * 4, url);
      } else {
        PosOfSymbol(s[1] % 16 * 4 + s[2] / 64, url);
        PosOfSymbol(s[2] % 64, url);
      }
    }
  }

  lemma LongEncodeShape(g: string, rest: string, n: nat, url: bool)
    requires |g| == 4 && InAlphabet(g, url) && InAlphabet(rest, url)
    requires n > 3 && |rest| == (n - 3 + 2) / 3 * 4
    ensures |g + rest| == (n + 2) / 3 * 4 && InAlphabet(g + rest, url)
  {
    InAlphabetConcat(g, rest, url);
  }

  lemma NothingInAlphabet(url: bool)
    ensures InAlphabet("", url)
  {
  }

  /** The encoding of n bytes is (n + 2) / 3 groups of four characters of the alphabet. */
  lemma {:induction false} EncodeShape(s: seq<Byte>, url: bool)
    ensures |Encode(s, url)| == (|s| + 2) / 3 * 4
    ensures InAlphabet(Encode(s, url), url)
    decreases |s|
  {
    hide EncodeGroup, InAlphabet;
    if s == [] {
      NothingInAlphabet(url);
    } else {
      EncodeGroupInAlphabet(s, url);
      if |s| > 3 {
        EncodeShape(s[3..], url);
        LongEncodeShape(EncodeGroup(s, url), Encode(s[3..], url), |s|, url);
      }
    }
  }

  lemma {:induction false} DecodeEncodeFrom(s: seq<Byte>, url: bool, t: string, pos: nat)
    requires pos <= |t| && t[pos..] == Encode(s, url)
    ensures DecodeFrom(t, pos) == Some(s)
    decreases |s|
  {
    if s == [] {
      assert |t[pos..]| == 0;
    } else {
      var g := EncodeGroup(s, url);
      var rest := if |s| <= 3 then [] else s[3..];
      assert Encode(s, url) == g + Encode(rest, url);
      assert t[pos..pos + 4] == t[pos..][..4] == g;
      DecodeGroupOf(s, url, t, pos);
      assert t[pos + 4..] == t[pos..][4..] == Encode(rest, url);
      DecodeEncodeFrom(rest, url, t, pos + 4);
      assert s == s[..if |s| <= 3 then |s| else 3] + rest;
    }
  }

  /** Decoding undoes encoding, in both alphabets. */
  lemma DecodeEncode(s: seq<Byte>, url: bool)
    ensures Decode(Encode(s, url)) == Some(s)
  {
    DecodeEncodeFrom(s, url, Encode(s, url), 0);
  }

  lemma EncodeInjective(s: seq<Byte>, r: seq<Byte>, url: bool)
    ensures Encode(s, url) == Encode(r, url) ==> s == r
  {
    DecodeEncode(s, url);
    DecodeEncode(r, url);
  }

  // ---------------------------------------------------------------------------------------------
  // Canonical texts
  // ---------------------------------------------------------------------------------------------

  /**
   * Whole groups of symbols of one alphabet; padding only in the last one or two places; and no
   * bit set in the last symbol beyond the bytes it completes (section 3.5 of RFC 4648).
   */
  predicate Canonical(t: string, url: bool) {
    var n := |t|;
    && n % 4 == 0
    && InAlphabet(t, url)
    && (forall i :: 0 <= i < n - 2 ==> t[i] != Padding(url))
    && (n > 0 && t[n - 2] == Padding(url) ==>
          t[n - 1] == Padding(url) && PosOfChar(t[n - 3]).Some? && PosOfChar(t[n - 3]).value % 16 == 0)
    && (n > 0 && t[n - 2] != Padding(url) && t[n - 1] == Padding(url) ==>
          PosOfChar(t[n - 2]).Some? && PosOfChar(t[n - 2]).value % 4 == 0)
  }

  lemma {:induction false} EncodeCanonical(s: seq<Byte>, url: bool)
    ensures Canonical(Encode(s, url), url)
  {
    if s != [] {
      EncodeShape(s, url);
      var g := EncodeGroup(s, url);
      if |s| == 1 {
        PosOfSymbol(s[0] / 4, url);
        PosOfSymbol(s[0] % 4 * 16, url);
      } else if |s| == 2 {
        PosOfSymbol(s[0] / 4, url);
        PosOfSymbol(s[0] % 4 * 16 + s[1] / 16, url);
        PosOfSymbol(s[1] % 16 * 4, url);
      } else {
        FullGroup(s, url);
        if |s| > 3 {
          EncodeCanonical(s[3..], url);
          CanonicalAfterGroup(g, Encode(s[3..], url), url);
        }
      }
    }
  }

  lemma FullGroup(s: seq<Byte>, url: bool)
    requires |s| >= 3
    ensures InAlphabet(EncodeGroup(s, url), url)
    ensures forall i :: 0 <= i < 4 ==> EncodeGroup(s, url)[i] != Padding(url)
  {
    EncodeGroupInAlphabet(s, url);
    PosOfSymbol(s[0] / 4, url);
    PosOfSymbol(s[0] % 4 * 16 + s[1] / 16, url);
    PosOfSymbol(s[1] % 16 * 4 + s[2] / 64, url);
    PosOfSymbol(s[2] % 64, url);
  }

  lemma CanonicalAfterGroup(g: string, rest: string, url: bool)
    requires |g| == 4 && InAlphabet(g, url) && (forall i :: 0 <= i < 4 ==> g[i] != Padding(url))
    requires rest != "" && Canonical(rest, url)
    ensures Canonical(g + rest, url)
  {
    var t := g + rest;
    var n := |rest|;
    InAlphabetConcat(g, rest, url);
    assert t[n + 3] == rest[n - 1] && t[n + 2] == rest[n - 2] && t[n + 1] == rest[n - 3];
  }

  lemma CanonicalSplit(t: string, url: bool)
    requires |t| > 4 && Canonical(t, url)
    ensures InAlphabet(t[..4], url) && (forall i :: 0 <= i < 4 ==> t[..4][i] != Padding(url))
    ensures Canonical(t[..4], url) && Canonical(t[4..], url)
  {
    var g, rest, n := t[..4], t[4..], |t|;
    assert forall i :: 0 <= i < 4 ==> g[i] == t[i];
    assert forall i :: 0 <= i < n - 4 ==> rest[i] == t[4 + i];
    assert rest[n - 5] == t[n - 1] && rest[n - 6] == t[n - 2] && rest[n - 7] == t[n - 3];
  }

  lemma SixBitArithmetic(p0: nat, p1: nat, p2: nat, p3: nat)
    requires p0 < 64 && p1 < 64 && p2 < 64 && p3 < 64
    ensures (p0 * 4 + p1 / 16) / 4 == p0 && p0 * 4 + p1 / 16 < 256
    ensures (p0 * 4 + p1 / 16) % 4 * 16 + p1 % 16 == p1
    ensures (p1 % 16 * 16 + p2 / 4) / 16 == p1 % 16 && p1 % 16 * 16 + p2 / 4 < 256
    ensures (p1 % 16 * 16 + p2 / 4) % 16 * 4 + p2 % 4 == p2
    ensures (p2 % 4 * 64 + p3) / 64 == p2 % 4 && p2 % 4 * 64 + p3 < 256
    ensures (p2 % 4 * 64 + p3) % 64 == p3
  {
  }

  lemma OneByteGroup(p0: nat, p1: nat, url: bool)
    requires p0 < 64 && p1 < 64 && p1 % 16 == 0
    ensures p0 * 4 + p1 / 16 < 256
    ensures EncodeGroup([p0 * 4 + p1 / 16], url) == [Symbol(p0, url), Symbol(p1, url), Padding(url), Padding(url)]
  {
    SixBitArithmetic(p0, p1, 0, 0);
  }

  lemma TwoByteGroup(p0: nat, p1: nat, p2: nat, url: bool)
    requires p0 < 64 && p1 < 64 && p2 < 64 && p2 % 4 == 0
    ensures p0 * 4 + p1 / 16 < 256 && p1 % 16 * 16 + p2 / 4 < 256
    ensures EncodeGroup([p0 * 4 + p1 / 16, p1 % 16 * 16 + p2 / 4], url) ==
            [Symbol(p0, url), Symbol(p1, url), Symbol(p2, url), Padding(url)]
  {
    SixBitArithmetic(p0, p1, p2, 0);
  }

  lemma ThreeByteGroup(p0: nat, p1: nat, p2: nat, p3: nat, url: bool)
    requires p0 < 64 && p1 < 64 && p2 < 64 && p3 < 64
    ensures p0 * 4 + p1 / 16 < 256 && p1 % 16 * 16 + p2 / 4 < 256 && p2 % 4 * 64 + p3 < 256
    ensures EncodeGroup([p0 * 4 + p1 / 16, p1 % 16 * 16 + p2 / 4, p2 % 4 * 64 + p3], url) ==
            [Symbol(p0, url), Symbol(p1, url), Symbol(p2, url), Symbol(p3, url)]
  {
    SixBitArithmetic(p0, p1, p2, p3);
  }

  lemma SymbolIsNoPadding(c: char, url: bool)
    requires IsSymbol(c, url)
    ensures !IsPadding(c) && Symbol(PosOfChar(c).value, url) == c
  {
    PosOfSymbol(PosOfChar(c).value, url);
  }

  lemma CanonicalSymbols(t: string, i: nat, url: bool)
    requires Canonical(t, url) && i < |t| && t[i] != Padding(url)
    ensures IsSymbol(t[i], url) && !IsPadding(t[i]) && Symbol(PosOfChar(t[i]).value, url) == t[i]
  {
    SymbolIsNoPadding(t[i], url);
  }

  lemma TwicePadded(t: string, url: bool)
    requires |t| == 4 && Canonical(t, url) && t[2] == Padding(url)
    ensures DecodeGroup(t, 0).Some? && EncodeGroup(DecodeGroup(t, 0).value, url) == t
  {
    CanonicalSymbols(t, 0, url);
    CanonicalSymbols(t, 1, url);
    var p0, p1 := PosOfChar(t[0]).value, PosOfChar(t[1]).value;
    DecodeGroupValue(t, 0, p0, p1, None, None);
    OneByteGroup(p0, p1, url);
    FourCharacters(t, t[0], t[1], Padding(url), Padding(url));
  }

  lemma OncePadded(t: string, url: bool)
    requires |t| == 4 && Canonical(t, url) && t[2] != Padding(url) && t[3] == Padding(url)
    ensures DecodeGroup(t, 0).Some? && EncodeGroup(DecodeGroup(t, 0).value, url) == t
  {
    CanonicalSymbols(t, 0, url);
    CanonicalSymbols(t, 1, url);
    CanonicalSymbols(t, 2, url);
    var p0, p1, p2 := PosOfChar(t[0]).value, PosOfChar(t[1]).value, PosOfChar(t[2]).value;
    DecodeGroupValue(t, 0, p0, p1, Some(p2), None);
    TwoByteGroup(p0, p1, p2, url);
    FourCharacters(t, t[0], t[1], t[2], Padding(url));
  }

  lemma Unpadded(t: string, url: bool)
    requires |t| == 4 && Canonical(t, url) && t[2] != Padding(url) && t[3] != Padding(url)
    ensures DecodeGroup(t, 0).Some? && EncodeGroup(DecodeGroup(t, 0).value, url) == t
    ensures |DecodeGroup(t, 0).value| == 3
  {
    hide EncodeGroup, DecodeGroup, Symbol, PosOfChar;
    CanonicalSymbols(t, 0, url);
    CanonicalSymbols(t, 1, url);
    CanonicalSymbols(t, 2, url);
    CanonicalSymbols(t, 3, url);
    var p0, p1, p2, p3 :=
      PosOfChar(t[0]).value, PosOfChar(t[1]).value, PosOfChar(t[2]).value, PosOfChar(t[3]).value;
    DecodeGroupValue(t, 0, p0, p1, Some(p2), Some(p3));
    ThreeByteGroup(p0, p1, p2, p3, url);
    FourCharacters(t, t[0], t[1], t[2], t[3]);
  }

  /** A canonical text of one group is the text of its bytes. */
  lemma CanonicalGroup(t: string, url: bool)
    requires |t| == 4 && Canonical(t, url)
    ensures DecodeGroup(t, 0).Some? && EncodeGroup(DecodeGroup(t, 0).value, url) == t
    ensures t[2] != Padding(url) && t[3] != Padding(url) ==> |DecodeGroup(t, 0).value| == 3
  {
    if t[2] == Padding(url) {
      TwicePadded(t, url);
    } else if t[3] == Padding(url) {
      OncePadded(t, url);
    } else {
      Unpadded(t, url);
    }
  }

  lemma FourCharacters(t: string, a: char, b: char, c: char, d: char)
    requires |t| == 4 && t[0] == a && t[1] == b && t[2] == c && t[3] == d
    ensures t == [a, b, c, d]
  {
  }

  lemma DecodeFromTail(t: string, k: nat)
    requires k <= |t|
    ensures DecodeFrom(t, k) == Decode(t[k..])
  {
    DecodeFromShift(t, k, 0);
  }

  lemma {:induction false} DecodeFromShift(t: string, k: nat, pos: nat)
    requires k <= |t|
    ensures DecodeFrom(t, k + pos) == DecodeFrom(t[k..], pos)
    decreases |t| - pos
  {
    if k + pos < |t| {
      assert DecodeGroup(t, k + pos) == DecodeGroup(t[k..], pos);
      DecodeFromShift(t, k, pos + 4);
    }
  }

  lemma EncodeAfterGroup(bytes: seq<Byte>, more: seq<Byte>, url: bool)
    requires |bytes| == 3 && more != []
    ensures Encode(bytes + more, url) == EncodeGroup(bytes, url) + Encode(more, url)
  {
    assert (bytes + more)[3..] == more;
  }

  lemma {:induction false} CanonicalRoundTrip(t: string, url: bool)
    requires Canonical(t, url)
    ensures Decode(t).Some? && Encode(Decode(t).value, url) == t
    ensures t != "" ==> Decode(t).value != []
    decreases |t|
  {
    if |t| == 4 {
      CanonicalGroup(t, url);
      DecodeOneGroup(t);
    } else if |t| > 4 {
      var g, rest := t[..4], t[4..];
      CanonicalSplit(t, url);
      CanonicalGroup(g, url);
      CanonicalRoundTrip(rest, url);
      DecodeFirst(t);
      EncodeAfterGroup(DecodeGroup(g, 0).value, Decode(rest).value, url);
      assert t == g + rest;
    }
  }

  lemma DecodeOneGroup(t: string)
    requires |t| == 4 && DecodeGroup(t, 0).Some?
    ensures Decode(t) == DecodeGroup(t, 0)
    ensures forall url :: Encode(Decode(t).value, url) == EncodeGroup(Decode(t).value, url)
  {
    var bytes := DecodeGroup(t, 0).value;
    assert DecodeFrom(t, 4) == Some([]);
    assert bytes + [] == bytes;
  }

  lemma DecodeFirst(t: string)
    requires |t| > 4 && DecodeGroup(t[..4], 0).Some? && Decode(t[4..]).Some?
    ensures Decode(t) == Some(DecodeGroup(t[..4], 0).value + Decode(t[4..]).value)
  {
    assert DecodeGroup(t, 0) == DecodeGroup(t[..4], 0);
    DecodeFromTail(t, 4);
  }

  /** Encoding undoes decoding exactly on the canonical texts. */
  lemma EncodeDecodeIffCanonical(t: string, url: bool)
    ensures Decode(t).Some? && Encode(Decode(t).value, url) == t <==> Canonical(t, url)
  {
    if Canonical(t, url) {
      CanonicalRoundTrip(t, url);
    } else if Decode(t).Some? {
      EncodeCanonical(Decode(t).value, url);
    }
  }

  /** Neither the dash of a boundary, nor a quote, nor a line end, nor another control character. */
  predicate IsPlain(t: string) {
    forall i :: 0 <= i < |t| ==> t[i] != '-' && t[i] != '"' && 32 < t[i] as int < 127
  }

  lemma AlphabetIsPlain(t: string)
    requires InAlphabet(t, false)
    ensures IsPlain(t)
  {
    forall i | 0 <= i < |t|
      ensures t[i] != '-' && t[i] != '"' && 32 < t[i] as int < 127
    {
      assert IsSymbol(t[i], false) || t[i] == Padding(false);
    }
  }

  lemma StandardTextIsPlain(s: seq<Byte>)
    ensures IsPlain(Encode(s, false))
  {
    EncodeShape(s, false);
    AlphabetIsPlain(Encode(s, false));
  }

  // ---------------------------------------------------------------------------------------------
  // The loops
  // ---------------------------------------------------------------------------------------------

  /** One more than the largest value of `unsigned int`, the type of the encoder's position. */
  const POSITION_LIMIT := 0x1_0000_0000

  /** What is left to encode from position pos. */
  function EncodeFrom(bytes: seq<Byte>, pos: nat, url: bool): string {
    if pos < |bytes| then Encode(bytes[pos..], url) else ""
  }

  lemma NoWrap(pos: nat, inLen: nat)
    requires pos % 3 == 0 && pos < inLen < POSITION_LIMIT
    ensures (pos + 3) % POSITION_LIMIT == pos + 3 && (pos + 3) % 3 == 0
  {
    assert POSITION_LIMIT - 1 == 3 * 0x5555_5555;
  }

  /** `base64_encode`: the position wraps around at 2^32, so longer inputs are never finished. */
  method EncodeText(bytes: seq<Byte>, url: bool) returns (ret: string)
    requires |bytes| < POSITION_LIMIT
    ensures ret == Encode(bytes, url)
  {
    var inLen := |bytes|;
    ret := "";
    var pos: nat := 0;
    assert bytes[0..] == bytes;
    while pos < inLen
      invariant pos % 3 == 0 && pos < POSITION_LIMIT
      invariant Encode(bytes, url) == ret + EncodeFrom(bytes, pos, url)
      decreases inLen - pos
    {
      ret := EncodeOneGroup(bytes, pos, url, ret);
      NoWrap(pos, inLen);
      pos := (pos + 3) % POSITION_LIMIT;
    }
    assert ret + "" == ret;
  }

  /** One round of the encoder's loop. */
  method EncodeOneGroup(bytes: seq<Byte>, pos: nat, url: bool, before: string) returns (ret: string)
    requires pos < |bytes|
    ensures ret + EncodeFrom(bytes, pos + 3, url) == before + EncodeFrom(bytes, pos, url)
  {
    var inLen := |bytes|;
    GroupPushed(bytes, pos, url, before);
    ret := before + [Symbol(bytes[pos] / 4, url)];
    if pos + 1 < inLen {
      ret := ret + [Symbol(bytes[pos] % 4 * 16 + bytes[pos + 1] / 16, url)];
      if pos + 2 < inLen {
        ret := ret + [Symbol(bytes[pos + 1] % 16 * 4 + bytes[pos + 2] / 64, url)];
        ret := ret + [Symbol(bytes[pos + 2] % 64, url)];
      } else {
        ret := ret + [Symbol(bytes[pos + 1] % 16 * 4, url)];
        ret := ret + [Padding(url)];
      }
    } else {
      ret := ret + [Symbol(bytes[pos] % 4 * 16, url)];
      ret := ret + [Padding(url)];
      ret := ret + [Padding(url)];
    }
  }

  /** Pushing the characters of one group one by one. */
  lemma GroupPushed(bytes: seq<Byte>, pos: nat, url: bool, before: string)
    requires pos < |bytes|
    ensures var b0, n := bytes[pos], |bytes|;
      before + EncodeFrom(bytes, pos, url) ==
      (if n <= pos + 1 then
         before + [Symbol(b0 / 4, url)] + [Symbol(b0 % 4 * 16, url)] + [Padding(url)] + [Padding(url)]
       else if n <= pos + 2 then
         before + [Symbol(b0 / 4, url)] + [Symbol(b0 % 4 * 16 + bytes[pos + 1] / 16, url)]
         + [Symbol(bytes[pos + 1] % 16 * 4, url)] + [Padding(url)]
       else
         before + [Symbol(b0 / 4, url)] + [Symbol(b0 % 4 * 16 + bytes[pos + 1] / 16, url)]
         + [Symbol(bytes[pos + 1] % 16 * 4 + bytes[pos + 2] / 64, url)] + [Symbol(bytes[pos + 2] % 64, url)])
      + EncodeFrom(bytes, pos + 3, url)
  {
    var g, tail := EncodeGroup(bytes[pos..], url), EncodeFrom(bytes, pos + 3, url);
    assert pos + 3 < |bytes| ==> bytes[pos..][3..] == bytes[pos + 3..];
    assert Encode(bytes[pos..], url) == g + tail;
    FourPushed(before, g[0], g[1], g[2], g[3], tail);
    FourCharacters(g, g[0], g[1], g[2], g[3]);
  }

  lemma FourPushed(before: string, a: char, b: char, c: char, d: char, tail: string)
    ensures before + ([a, b, c, d] + tail) == before + [a] + [b] + [c] + [d] + tail
  {
  }

  /** Some number of steps of three brings the wrapping position to n exactly when n fits. */
  lemma EncoderTerminates(n: nat)
    ensures n < 4294967296 <==> exists k: nat :: PositionAfter(k) >= n
  {
    if n < POSITION_LIMIT {
      assert PositionAfter(0x5555_5555) == POSITION_LIMIT - 1;
    }
  }

  /** The encoder's position after k steps. */
  function PositionAfter(k: nat): nat {
    3 * k % POSITION_LIMIT
  }

  /**
   * `decode` without line breaks: None when `pos_of_char` throws. Indexing never goes beyond the
   * terminator of the string, whatever the text.
   */
  method DecodeText(encoded: string) returns (r: Option<seq<Byte>>)
    ensures r == Decode(encoded)
  {
    hide DecodeGroup;
    var inLen := |encoded|;
    if inLen == 0 {
      return Some([]);
    }
    var pos: nat := 0;
    var ret: seq<Byte> := [];
    assert forall s: seq<Byte> :: [] + s == s;
    while pos < inLen
      invariant Decode(encoded) == Prepend(ret, DecodeFrom(encoded, pos))
      decreases inLen - pos
    {
      ghost var before := ret;
      var ok;
      ok, ret := DecodeRound(encoded, pos, ret);
      if !ok {
        return None;
      }
      PrependTwice(before, DecodeGroup(encoded, pos).value, DecodeFrom(encoded, pos + 4));
      pos := pos + 4;
    }
    assert ret + [] == ret;
    r := Some(ret);
  }

  /** One round of the loop: up to three bytes are pushed, or the exception leaves. */
  method DecodeRound(encoded: string, pos: nat, before: seq<Byte>) returns (ok: bool, ret: seq<Byte>)
    requires pos < |encoded|
    ensures match DecodeGroup(encoded, pos)
      case None => !ok
      case Some(group) => ok && ret == before + group
  {
    ok, ret := false, before;
    var pos1 := PosOfChar(CharAt(encoded, pos + 1));
    if pos1.None? {
      return;
    }
    var pos0 := PosOfChar(CharAt(encoded, pos));
    if pos0.None? {
      return;
    }
    ret := ret + [pos0.value * 4 + pos1.value / 16];
    if CharAt(encoded, pos + 2) != '=' && CharAt(encoded, pos + 2) != '.' {
      var pos2 := PosOfChar(CharAt(encoded, pos + 2));
      if pos2.None? {
        return;
      }
      ret := ret + [pos1.value % 16 * 16 + pos2.value / 4];
      if CharAt(encoded, pos + 3) != '=' && CharAt(encoded, pos + 3) != '.' {
        var pos3 := PosOfChar(CharAt(encoded, pos + 3));
        if pos3.None? {
          return;
        }
        ret := ret + [pos2.value % 4 * 64 + pos3.value];
      }
    }
    ok := true;
  }

  function Prepend(a: seq<Byte>, b: Option<seq<Byte>>): Option<seq<Byte>> {
    if b.None? then None else Some(a + b.value)
  }

  lemma PrependTwice(a: seq<Byte>, b: seq<Byte>, c: Option<seq<Byte>>)
    ensures Prepend(a, Prepend(b, c)) == Prepend(a + b, c)
  {
    if c.Some? {
      assert a + (b + c.value) == a + b + c.value;
    }
  }
}
