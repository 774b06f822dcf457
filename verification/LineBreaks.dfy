/** Line breaks in Base64 text: inserting them for PEM and MIME, and removing them before decoding. */
module LineBreaks {
  import opened Text
  import opened Base64

  // ---------------------------------------------------------------------------------------------
  // Specification
  // ---------------------------------------------------------------------------------------------

  /** A line feed after every `distance` characters, but not at the end. */
  function Broken(s: string, distance: nat): string
    requires distance > 0
  {
    if |s| <= distance then s else s[..distance] + "\n" + Broken(s[distance..], distance)
  }

  function WithoutLineFeeds(s: string): string {
    if s == "" then ""
    else if s[0] == '\n' then WithoutLineFeeds(s[1..])
    else [s[0]] + WithoutLineFeeds(s[1..])
  }

  predicate HasNoLineFeed(s: string) {
    forall i :: 0 <= i < |s| ==> s[i] != '\n'
  }

  /** The lines of a text: what lies between its line feeds. */
  function SplitLines(s: string): (ls: seq<string>)
    ensures ls != []
  {
    if s == "" then [""]
    else
      var rest := SplitLines(s[1..]);
      if s[0] == '\n' then [""] + rest else [[s[0]] + rest[0]] + rest[1..]
  }

  // ---------------------------------------------------------------------------------------------
  // The loops
  // ---------------------------------------------------------------------------------------------

  /** `insert_linebreaks`: the string grows while the position moves towards its end. */
  method InsertLinebreaks(text: string, distance: nat) returns (str: string)
    requires distance > 0
    ensures str == Broken(text, distance)
  {
    str := text;
    if |str| == 0 {
      return;
    }
    var pos := distance;
    ghost var done := "";
    assert done + Broken(str, distance) == Broken(str, distance);
    while pos < |str|
      invariant |done| == pos - distance <= |str| && str[..pos - distance] == done
      invariant Broken(text, distance) == done + Broken(str[pos - distance..], distance)
      decreases |str| - (pos - distance)
    {
      ghost var rest := str[pos - distance..];
      ghost var before := str;
      str := str[..pos] + "\n" + str[pos..];
      pos := pos + distance + 1;
      BreakInserted(done, rest, distance, before, str);
      done := done + rest[..distance] + "\n";
    }
    assert Broken(str[pos - distance..], distance) == str[pos - distance..];
    assert str == done + str[pos - distance..];
  }

  lemma BreakInserted(done: string, rest: string, distance: nat, before: string, after: string)
    requires distance > 0 && |rest| > distance && before == done + rest
    requires after == before[..|done| + distance] + "\n" + before[|done| + distance..]
    ensures var step := done + rest[..distance] + "\n";
      && |step| == |done| + distance + 1 <= |after| && after[..|step|] == step
      && after[|step|..] == rest[distance..]
      && done + Broken(rest, distance) == step + Broken(after[|step|..], distance)
  {
    var step := done + rest[..distance] + "\n";
    assert after == step + rest[distance..];
    var tail := Broken(rest[distance..], distance);
    assert done + (rest[..distance] + "\n" + tail) == step + tail;
  }

  /** The loop of `decode` that erases every line feed from a copy of its input. */
  method RemoveLinebreaks(encoded: string) returns (copy: string)
    ensures copy == WithoutLineFeeds(encoded)
  {
    copy := encoded;
    var pos := 0;
    var found := Find(copy, "\n", pos);
    while found.Some?
      invariant pos <= |copy|
      invariant found == Find(copy, "\n", pos)
      invariant HasNoLineFeed(copy[..pos])
      invariant WithoutLineFeeds(copy) == WithoutLineFeeds(encoded)
      decreases |copy|
    {
      FoundLineFeed(copy, pos);
      pos := found.value;
      ghost var before := copy;
      copy := copy[..pos] + copy[pos + 1..];
      LineFeedErased(before, pos);
      assert copy[..pos] == before[..pos];
      found := Find(copy, "\n", pos);
    }
    FoundLineFeed(copy, pos);
    NothingToErase(copy);
  }

  lemma FoundLineFeed(s: string, from: nat)
    requires from <= |s| && HasNoLineFeed(s[..from])
    ensures var r := Find(s, "\n", from);
      if r.None? then HasNoLineFeed(s) else s[r.value] == '\n' && HasNoLineFeed(s[..r.value])
  {
    FindFirst(s, "\n", from);
    var r := Find(s, "\n", from);
    var end := if r.None? then |s| else r.value;
    forall i: nat | i < end
      ensures s[i] != '\n'
    {
      if i < from {
        assert s[i] == s[..from][i];
      } else {
        assert !OccursAt(s, "\n", i);
        assert s[i..i + 1] == [s[i]];
      }
    }
    if r.Some? {
      assert s[r.value] == s[r.value..r.value + 1][0];
    }
  }

  lemma {:induction false} LineFeedErased(s: string, pos: nat)
    requires pos < |s| && s[pos] == '\n'
    ensures WithoutLineFeeds(s[..pos] + s[pos + 1..]) == WithoutLineFeeds(s)
    decreases pos
  {
    var t := s[..pos] + s[pos + 1..];
    if pos == 0 {
      assert t == s[1..];
    } else {
      LineFeedErased(s[1..], pos - 1);
      assert t[1..] == s[1..][..pos - 1] + s[1..][pos..];
    }
  }

  lemma {:induction false} NothingToErase(s: string)
    requires HasNoLineFeed(s)
    ensures WithoutLineFeeds(s) == s
  {
    if s != "" {
      NothingToErase(s[1..]);
    }
  }

  /** `base64_decode` with `remove_linebreaks`. */
  function DecodeLines(encoded: string): Option<seq<Byte>> {
    Decode(WithoutLineFeeds(encoded))
  }

  method DecodeTextLines(encoded: string) returns (r: Option<seq<Byte>>)
    ensures r == DecodeLines(encoded)
  {
    if |encoded| == 0 {
      return Some([]);
    }
    var copy := RemoveLinebreaks(encoded);
    r := DecodeText(copy);
  }

  /** `base64_encode_pem` and `base64_encode_mime` break lines after 64 and 76 characters. */
  method EncodeWithLineBreaks(bytes: seq<Byte>, lineLength: nat) returns (str: string)
    requires |bytes| < POSITION_LIMIT && lineLength > 0
    ensures str == Broken(Encode(bytes, false), lineLength)
  {
    var text := EncodeText(bytes, false);
    str := InsertLinebreaks(text, lineLength);
  }

  // ---------------------------------------------------------------------------------------------
  // The lines are as long as they should be, and removing the breaks gives the text back
  // ---------------------------------------------------------------------------------------------

  lemma {:induction false} SplitFirstLine(l: string, rest: string)
    requires HasNoLineFeed(l)
    ensures SplitLines(l + "\n" + rest) == [l] + SplitLines(rest)
    ensures SplitLines(l) == [l]
  {
    var s := l + "\n" + rest;
    if l == "" {
      assert s[1..] == rest;
    } else {
      SplitFirstLine(l[1..], rest);
      assert s[1..] == l[1..] + "\n" + rest;
      assert [l[0]] + l[1..] == l;
    }
  }

  /** All lines but the last have exactly the given length, the last between 1 and that many. */
  lemma {:induction false} BrokenLines(s: string, distance: nat)
    requires distance > 0 && s != "" && HasNoLineFeed(s)
    ensures var ls := SplitLines(Broken(s, distance));
      && (forall i :: 0 <= i < |ls| - 1 ==> |ls[i]| == distance)
      && 1 <= |ls[|ls| - 1]| <= distance
      && Concat(ls) == s
    decreases |s|
  {
    hide SplitLines, HasNoLineFeed, Broken, Concat;
    BrokenFirst(s, distance);
    if |s| <= distance {
      SplitFirstLine(s, "");
      ConcatFirst([s]);
    } else {
      var first, rest := s[..distance], s[distance..];
      SplitFirstLine(first, Broken(rest, distance));
      BrokenLines(rest, distance);
      var more := SplitLines(Broken(rest, distance));
      ConcatFirst([first] + more);
      assert ([first] + more)[1..] == more;
      assert first + rest == s;
    }
  }

  lemma BrokenFirst(s: string, distance: nat)
    requires distance > 0 && HasNoLineFeed(s)
    ensures |s| <= distance ==> Broken(s, distance) == s
    ensures |s| > distance ==>
      && Broken(s, distance) == s[..distance] + "\n" + Broken(s[distance..], distance)
      && HasNoLineFeed(s[..distance]) && HasNoLineFeed(s[distance..])
  {
  }

  lemma {:induction false} EraseConcat(a: string, b: string)
    ensures WithoutLineFeeds(a + b) == WithoutLineFeeds(a) + WithoutLineFeeds(b)
  {
    if a == "" {
      assert a + b == b;
    } else {
      assert (a + b)[1..] == a[1..] + b;
      EraseConcat(a[1..], b);
    }
  }

  lemma {:induction false} BreaksRemoved(s: string, distance: nat)
    requires distance > 0 && HasNoLineFeed(s)
    ensures WithoutLineFeeds(Broken(s, distance)) == s
    decreases |s|
  {
    if |s| <= distance {
      NothingToErase(s);
    } else {
      var first, rest := s[..distance], s[distance..];
      EraseConcat(first + "\n", Broken(rest, distance));
      EraseConcat(first, "\n");
      assert WithoutLineFeeds("\n") == WithoutLineFeeds("") == "";
      NothingToErase(first);
      BreaksRemoved(rest, distance);
      assert first + rest == s;
    }
  }

  /** Decoding with line breaks removed undoes encoding with line breaks, for PEM, MIME and any other. */
  lemma DecodeBrokenEncode(bytes: seq<Byte>, lineLength: nat)
    requires lineLength > 0
    ensures DecodeLines(Broken(Encode(bytes, false), lineLength)) == Some(bytes)
    ensures DecodeLines(Encode(bytes, false)) == Some(bytes)
  {
    var text := Encode(bytes, false);
    StandardTextIsPlain(bytes);
    PlainHasNoLineFeed(text);
    BreaksRemoved(text, lineLength);
    NothingToErase(text);
    DecodeEncode(bytes, false);
  }

  lemma PlainHasNoLineFeed(t: string)
    requires IsPlain(t)
    ensures HasNoLineFeed(t)
  {
  }
}
