/** Base64 against its two tables, character by character (sections 4 and 5 of RFC 4648). */
module Base64Bytes {
  import opened Text
  import opened Base64

  // ---------------------------------------------------------------------------------------------
  // The tables
  // ---------------------------------------------------------------------------------------------

  function Table(last: string): string {
    "ABCDEFGHIJKLMNOPQRSTUVWXYZ" + "abcdefghijklmnopqrstuvwxyz" + "0123456789" + last
  }

  /** `base64_chars`. */
  function Alphabet(url: bool): string {
    if url then Table("-_") else Table("+/")
  }

  /** The character at a place of four strings one after another. */
  lemma InFour(a: string, b: string, c: string, d: string, i: nat)
    requires |a| == |b| == 26 && |c| == 10 && |d| == 2 && i < 64
    ensures |a + b + c + d| == 64
    ensures (a + b + c + d)[i] ==
            if i < 26 then a[i] else if i < 52 then b[i - 26] else if i < 62 then c[i - 52] else d[i - 62]
  {
  }

  lemma Letter(i: nat)
    requires i < 26
    ensures "ABCDEFGHIJKLMNOPQRSTUVWXYZ"[i] == ('A' as int + i) as char
    ensures "abcdefghijklmnopqrstuvwxyz"[i] == ('a' as int + i) as char
  {
  }

  lemma Numeral(i: nat)
    requires i < 10
    ensures "0123456789"[i] == ('0' as int + i) as char
  {
  }

  lemma TableAt(last: string, i: nat)
    requires |last| == 2 && i < 64
    ensures |Table(last)| == 64
    ensures Table(last)[i] == if i < 26 then ('A' as int + i) as char else if i < 52 then ('a' as int + i - 26) as char
                              else if i < 62 then ('0' as int + i - 52) as char else last[i - 62]
  {
    var a, b, c := "ABCDEFGHIJKLMNOPQRSTUVWXYZ", "abcdefghijklmnopqrstuvwxyz", "0123456789";
    assert Table(last) == a + b + c + last;
    InFour(a, b, c, last, i);
    if i < 26 {
      Letter(i);
    } else if i < 52 {
      Letter(i - 26);
    } else if i < 62 {
      Numeral(i - 52);
    }
  }

  /** The symbol of a six-bit number is the character at its place in the table. */
  lemma SymbolInTable(i: nat, url: bool)
    requires i < 64
    ensures |Alphabet(url)| == 64 && Symbol(i, url) == Alphabet(url)[i]
  {
    hide Table;
    TableAt(if url then "-_" else "+/", i);
  }

  /** `pos_of_char` finds a character's place in either table, and nothing for any other character. */
  lemma PosOfCharExact(c: char, i: nat)
    requires i < 64
    ensures |Alphabet(false)| == |Alphabet(true)| == 64
    ensures PosOfChar(c) == Some(i) <==> Alphabet(false)[i] == c || Alphabet(true)[i] == c
  {
    hide Table, Alphabet;
    SymbolInTable(i, false);
    SymbolInTable(i, true);
  }

  lemma PosOfCharNone(c: char)
    ensures PosOfChar(c) == None <==> c !in Alphabet(false) && c !in Alphabet(true)
  {
    hide Alphabet, PosOfChar;
    if PosOfChar(c).Some? {
      PosOfCharExact(c, PosOfChar(c).value);
    }
    forall i: nat | i < 64
      ensures |Alphabet(false)| == |Alphabet(true)| == 64
      ensures PosOfChar(c) == Some(i) <==> Alphabet(false)[i] == c || Alphabet(true)[i] == c
    {
      PosOfCharExact(c, i);
    }
    PosOfCharExact(c, 0);
  }

  // ---------------------------------------------------------------------------------------------
  // Encoding: 24 bits to a group, six bits to a character
  // ---------------------------------------------------------------------------------------------

  /** The byte at a place, or zero bits after the end. */
  function ByteAt(s: seq<Byte>, k: nat): nat {
    if k < |s| then s[k] else 0
  }

  /** The 24 bits of a group of three bytes. */
  function Bits(s: seq<Byte>, group: nat): nat {
    65536 * ByteAt(s, 3 * group) + 256 * ByteAt(s, 3 * group + 1) + ByteAt(s, 3 * group + 2)
  }

  /** One of the four six-bit numbers of 24 bits, from the left. */
  function Sextet(bits: nat, k: nat): (n: nat)
    ensures n < 64
  {
    if k == 0 then bits / 262144 % 64
    else if k == 1 then bits / 4096 % 64
    else if k == 2 then bits / 64 % 64
    else bits % 64
  }

  /** The character at a place of the encoding: a symbol as long as it holds bits of the bytes. */
  function Character(s: seq<Byte>, url: bool, j: nat): (c: char) {
    SymbolInTable(Sextet(Bits(s, j / 4), j % 4), url);
    if 6 * j < 8 * |s| then Alphabet(url)[Sextet(Bits(s, j / 4), j % 4)]
    else if url then '.' else '='
  }

  lemma By64(n: nat, q: nat, r: nat)
    requires n == 64 * q + r && r < 64
    ensures n / 64 == q && n % 64 == r
  {
  }

  lemma By256(n: nat, q: nat, r: nat)
    requires n == 256 * q + r && r < 256
    ensures n / 256 == q && n % 256 == r
  {
  }

  lemma By4096(n: nat, q: nat, r: nat)
    requires n == 4096 * q + r && r < 4096
    ensures n / 4096 == q
  {
  }

  lemma By65536(n: nat, q: nat, r: nat)
    requires n == 65536 * q + r && r < 65536
    ensures n / 65536 == q
  {
  }

  lemma By262144(n: nat, q: nat, r: nat)
    requires n == 262144 * q + r && r < 262144
    ensures n / 262144 == q
  {
  }

  /** Four six-bit numbers make up 24 bits. */
  lemma Sextets(p0: nat, p1: nat, p2: nat, p3: nat)
    requires p0 < 64 && p1 < 64 && p2 < 64 && p3 < 64
    ensures var bits := 262144 * p0 + 4096 * p1 + 64 * p2 + p3;
      Sextet(bits, 0) == p0 && Sextet(bits, 1) == p1 && Sextet(bits, 2) == p2 && Sextet(bits, 3) == p3
  {
    var bits := 262144 * p0 + 4096 * p1 + 64 * p2 + p3;
    By262144(bits, p0, 4096 * p1 + 64 * p2 + p3);
    By4096(bits, 64 * p0 + p1, 64 * p2 + p3);
    By64(bits, 4096 * p0 + 64 * p1 + p2, p3);
    By64(p0, 0, p0);
    By64(64 * p0 + p1, p0, p1);
    By64(4096 * p0 + 64 * p1 + p2, 64 * p0 + p1, p2);
  }

  lemma FirstSextets(b0: Byte, b1: Byte, b2: Byte)
    ensures var bits := 65536 * b0 + 256 * b1 + b2;
      && Sextet(bits, 0) == b0 / 4 && Sextet(bits, 1) == b0 % 4 * 16 + b1 / 16
      && Sextet(bits, 2) == b1 % 16 * 4 + b2 / 64 && Sextet(bits, 3) == b2 % 64
  {
    hide Sextet;
    Sextets(b0 / 4, b0 % 4 * 16 + b1 / 16, b1 % 16 * 4 + b2 / 64, b2 % 64);
    SameBits(b0, b0 / 4, b0 % 4, b1, b1 / 16, b1 % 16, b2, b2 / 64, b2 % 64);
  }

  lemma SameBits(b0: nat, h0: nat, l0: nat, b1: nat, h1: nat, l1: nat, b2: nat, h2: nat, l2: nat)
    requires b0 == 4 * h0 + l0 && b1 == 16 * h1 + l1 && b2 == 64 * h2 + l2
    ensures 262144 * h0 + 4096 * (l0 * 16 + h1) + 64 * (l1 * 4 + h2) + l2 == 65536 * b0 + 256 * b1 + b2
  {
  }

  lemma CharacterIsSymbol(s: seq<Byte>, url: bool, j: nat)
    ensures Character(s, url, j) ==
            if 6 * j < 8 * |s| then Symbol(Sextet(Bits(s, j / 4), j % 4), url) else Padding(url)
  {
    hide Alphabet, Symbol, Sextet, Bits;
    SymbolInTable(Sextet(Bits(s, j / 4), j % 4), url);
  }

  lemma GroupCharacters(s: seq<Byte>, url: bool, j: nat)
    requires s != [] && j < 4
    ensures EncodeGroup(s, url)[j] == Character(s, url, j)
  {
    hide Alphabet, Symbol, Sextet, Character, Padding;
    CharacterIsSymbol(s, url, j);
    FirstSextets(s[0], ByteAt(s, 1), ByteAt(s, 2));
    assert Bits(s, 0) == 65536 * s[0] + 256 * ByteAt(s, 1) + ByteAt(s, 2);
    assert j / 4 == 0 && j % 4 == j;
    if |s| == 1 {
      assert ByteAt(s, 1) == 0 && ByteAt(s, 2) == 0;
    } else if |s| == 2 {
      assert ByteAt(s, 1) == s[1] && ByteAt(s, 2) == 0;
    } else {
      assert ByteAt(s, 1) == s[1] && ByteAt(s, 2) == s[2];
    }
  }

  lemma CharactersShift(s: seq<Byte>, url: bool, j: nat)
    requires |s| > 3 && j >= 4
    ensures Character(s, url, j) == Character(s[3..], url, j - 4)
  {
    hide Alphabet, Sextet;
    assert j / 4 == (j - 4) / 4 + 1 && j % 4 == (j - 4) % 4;
    var g := (j - 4) / 4;
    assert ByteAt(s, 3 * g + 3) == ByteAt(s[3..], 3 * g);
    assert ByteAt(s, 3 * g + 4) == ByteAt(s[3..], 3 * g + 1);
    assert ByteAt(s, 3 * g + 5) == ByteAt(s[3..], 3 * g + 2);
  }

  /** Every character of an encoding, from the bytes and the table. */
  lemma {:induction false} EncodeExact(s: seq<Byte>, url: bool)
    ensures |Encode(s, url)| == (|s| + 2) / 3 * 4
    ensures forall j :: 0 <= j < |Encode(s, url)| ==> Encode(s, url)[j] == Character(s, url, j)
    decreases |s|
  {
    hide EncodeGroup, Character;
    EncodeShape(s, url);
    if s != [] {
      var g := EncodeGroup(s, url);
      var rest := if |s| <= 3 then "" else Encode(s[3..], url);
      assert Encode(s, url) == g + rest;
      if |s| > 3 {
        EncodeExact(s[3..], url);
      }
      forall j | 0 <= j < |Encode(s, url)|
        ensures Encode(s, url)[j] == Character(s, url, j)
      {
        if j < 4 {
          GroupCharacters(s, url, j);
        } else {
          CharactersShift(s, url, j);
        }
      }
    }
  }

  /** The first bytes of a JPEG file. */
  lemma JpegStart()
    ensures Encode([255, 216, 255], false) == "/9j/" && Encode([255, 216, 255], true) == "_9j_"
  {
  }

  // ---------------------------------------------------------------------------------------------
  // Decoding: every text, canonical or not
  // ---------------------------------------------------------------------------------------------

  predicate InTables(c: char) {
    c in Alphabet(false) || c in Alphabet(true)
  }

  /**
   * Two symbols, then two more or padding. After padding in the third place the fourth is not looked
   * at, and it need not be there.
   */
  predicate GroupReadable(t: string, group: nat) {
    var pos := 4 * group;
    && pos + 2 < |t| && InTables(t[pos]) && InTables(t[pos + 1])
    && (t[pos + 2] in "=."
        || (InTables(t[pos + 2]) && pos + 3 < |t| && (t[pos + 3] in "=." || InTables(t[pos + 3]))))
  }

  ghost predicate Readable(t: string) {
    forall group: nat :: 4 * group < |t| ==> GroupReadable(t, group)
  }

  /** The number of a character, as the tables have it; padding stands for zero bits. */
  function Number(c: char): (n: nat)
    ensures n < 64
  {
    if PosOfChar(c).None? then 0 else PosOfChar(c).value
  }

  /** The three bytes of the 24 bits of four six-bit numbers. */
  function Octets(p0: nat, p1: nat, p2: nat, p3: nat): (bytes: seq<Byte>)
    requires p0 < 64 && p1 < 64 && p2 < 64 && p3 < 64
    ensures |bytes| == 3
  {
    var bits := 262144 * p0 + 4096 * p1 + 64 * p2 + p3;
    [bits / 65536, bits / 256 % 256, bits % 256]
  }

  /** The bytes of a group, without those that padding stands for. */
  function GroupBytes(t: string, group: nat): (bytes: seq<Byte>)
    requires 4 * group + 3 <= |t|
  {
    var pos := 4 * group;
    var third, fourth := t[pos + 2], CharAt(t, pos + 3);
    Octets(Number(t[pos]), Number(t[pos + 1]), Number(third), Number(fourth))
      [..if third in "=." then 1 else if fourth in "=." then 2 else 3]
  }

  ghost function BytesFrom(t: string, group: nat): seq<Byte>
    requires Readable(t)
    decreases |t| - group
  {
    if |t| <= 4 * group then []
    else
      assert GroupReadable(t, group);
      GroupBytes(t, group) + BytesFrom(t, group + 1)
  }

  lemma FirstBytes(p0: nat, p1: nat, p2: nat, p3: nat)
    requires p0 < 64 && p1 < 64 && p2 < 64 && p3 < 64
    ensures Octets(p0, p1, p2, p3) == [p0 * 4 + p1 / 16, p1 % 16 * 16 + p2 / 4, p2 % 4 * 64 + p3]
  {
    var a, b, c := p0 * 4 + p1 / 16, p1 % 16 * 16 + p2 / 4, p2 % 4 * 64 + p3;
    var bits := 262144 * p0 + 4096 * p1 + 64 * p2 + p3;
    assert bits == 65536 * a + 256 * b + c;
    By65536(bits, a, 256 * b + c);
    By256(bits, 256 * a + b, c);
    By256(256 * a + b, a, b);
  }

  lemma GroupExact(t: string, group: nat)
    requires 4 * group < |t|
    ensures DecodeGroup(t, 4 * group) == if GroupReadable(t, group) then Some(GroupBytes(t, group)) else None
  {
    if GroupReadable(t, group) {
      GroupRead(t, group);
    } else {
      GroupRefused(t, group);
    }
  }

  lemma GroupRead(t: string, group: nat)
    requires GroupReadable(t, group)
    ensures DecodeGroup(t, 4 * group) == Some(GroupBytes(t, group))
  {
    hide PosOfChar, InTables, Octets;
    var pos := 4 * group;
    InTablesExact(t[pos]);
    InTablesExact(t[pos + 1]);
    InTablesExact(t[pos + 2]);
    InTablesExact(CharAt(t, pos + 3));
    FirstBytes(Number(t[pos]), Number(t[pos + 1]), Number(t[pos + 2]), Number(CharAt(t, pos + 3)));
    FirstOfThree(Octets(Number(t[pos]), Number(t[pos + 1]), Number(t[pos + 2]), Number(CharAt(t, pos + 3))));
  }

  lemma FirstOfThree(b: seq<Byte>)
    requires |b| == 3
    ensures b[..1] == [b[0]] && b[..2] == [b[0], b[1]] && b[..3] == [b[0], b[1], b[2]]
  {
  }

  lemma GroupRefused(t: string, group: nat)
    requires 4 * group < |t| && !GroupReadable(t, group)
    ensures DecodeGroup(t, 4 * group) == None
  {
    hide PosOfChar, InTables;
    var pos := 4 * group;
    NulIsNoSymbol();
    InTablesExact(t[pos]);
    InTablesExact(CharAt(t, pos + 1));
    if pos + 2 <= |t| {
      InTablesExact(CharAt(t, pos + 2));
    }
    if pos + 3 <= |t| {
      InTablesExact(CharAt(t, pos + 3));
    }
  }

  lemma InTablesExact(c: char)
    ensures InTables(c) <==> PosOfChar(c).Some?
  {
    hide PosOfChar, Alphabet;
    PosOfCharNone(c);
  }

  lemma NulIsNoSymbol()
    ensures PosOfChar(0 as char) == None && !IsPadding(0 as char)
  {
  }

  lemma {:induction false} DecodeFromExact(t: string, group: nat)
    requires forall k: nat :: k < group && 4 * k < |t| ==> GroupReadable(t, k)
    ensures DecodeFrom(t, 4 * group) == if Readable(t) then Some(BytesFrom(t, group)) else None
    decreases |t| - group
  {
    hide GroupReadable, GroupBytes, DecodeGroup;
    if 4 * group < |t| {
      GroupExact(t, group);
      if GroupReadable(t, group) {
        DecodeFromExact(t, group + 1);
        assert 4 * (group + 1) == 4 * group + 4;
      }
    }
  }

  /** What a text decodes to, and which texts are refused. */
  lemma DecodeExact(t: string)
    ensures Decode(t) == if Readable(t) then Some(BytesFrom(t, 0)) else None
  {
    DecodeFromExact(t, 0);
  }

  /** Only texts of whole groups are read, or of groups of which the last lacks the character after its padding. */
  lemma ReadableLength(t: string)
    requires Decode(t).Some?
    ensures |t| % 4 == 0 || (|t| % 4 == 3 && t[|t| - 1] in "=.")
  {
    hide InTables, GroupBytes;
    DecodeExact(t);
    if |t| % 4 != 0 {
      assert GroupReadable(t, |t| / 4);
    }
  }
}
