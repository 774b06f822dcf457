/**
 * Splitting of any body whatever, against what the text itself holds: its pieces between delimiters,
 * and in every piece a quoted name and the line after a blank line.
 */
module MultipartPieces {
  import opened Text
  import opened Multipart
  import opened MultipartBody

  // ---------------------------------------------------------------------------------------------
  // One part
  // ---------------------------------------------------------------------------------------------

  /** `r` stands between the first `open` in the text and the first `close` after that. */
  predicate StandsBetween(s: string, open: string, r: string, close: string, i: nat) {
    && OccursAt(s, open, i) && OccursAt(s, close, i + |open| + |r|) && s[i + |open|..i + |open| + |r|] == r
    && (forall j: nat :: j < i ==> !OccursAt(s, open, j))
    && forall j: nat :: i + |open| <= j < i + |open| + |r| ==> !OccursAt(s, close, j)
  }

  lemma BetweenExact(s: string, open: string, r: string, close: string)
    ensures Between(s, open, close) == Some(r) <==> exists i: nat :: StandsBetween(s, open, r, close, i)
  {
    hide Find, OccursAt;
    FindFirst(s, open, 0);
    var found := Find(s, open, 0);
    if found.Some? {
      FindFirst(s, close, found.value + |open|);
      if Between(s, open, close) == Some(r) {
        assert StandsBetween(s, open, r, close, found.value);
      }
    }
    forall i: nat | StandsBetween(s, open, r, close, i)
      ensures Between(s, open, close) == Some(r)
    {
      FirstOne(s, open, i, 0);
      FirstOne(s, close, i + |open| + |r|, i + |open|);
    }
  }

  lemma FirstOne(s: string, pattern: string, k: nat, from: nat)
    requires from <= k && OccursAt(s, pattern, k) && forall j: nat :: from <= j < k ==> !OccursAt(s, pattern, j)
    ensures Find(s, pattern, from) == Some(k)
  {
    hide Find, OccursAt;
    FindFirst(s, pattern, from);
  }

  /** What is read from a part, for every text. */
  lemma EntryExact(part: string, name: string, content: string)
    ensures EntryIn(part) == Some(Entry(name, content))
            <==> && (exists i: nat :: StandsBetween(part, "filename=\"", name, "\"", i))
                 && (exists i: nat :: StandsBetween(part, "\r\n\r\n", content, "\r\n", i))
  {
    hide Between, StandsBetween;
    BetweenExact(part, "filename=\"", name, "\"");
    BetweenExact(part, "\r\n\r\n", content, "\r\n");
  }

  // ---------------------------------------------------------------------------------------------
  // The whole body
  // ---------------------------------------------------------------------------------------------

  function Joined(pieces: seq<string>, d: string): string
    requires pieces != []
  {
    if |pieces| == 1 then pieces[0] else pieces[0] + (d + Joined(pieces[1..], d))
  }

  /** The text between delimiters, cut at the first delimiter, then at the first one after it, and so on. */
  function Pieces(text: string, d: string): (pieces: seq<string>)
    requires d != ""
    ensures pieces != []
    decreases |text|
  {
    match Find(text, d, 0)
    case None => [text]
    case Some(i) => [text[..i]] + Pieces(text[i + |d|..], d)
  }

  /** The pieces make up the text, and no delimiter begins in any of them. */
  lemma {:induction false} PiecesExact(text: string, d: string)
    requires d != ""
    ensures Joined(Pieces(text, d), d) == text
    ensures var ps := Pieces(text, d);
      var last := ps[|ps| - 1];
      && (forall i, j: nat :: 0 <= i < |ps| - 1 && j < |ps[i]| ==> !OccursAt(ps[i] + d, d, j))
      && forall j: nat :: !OccursAt(last, d, j)
    decreases |text|
  {
    hide Find, OccursAt;
    FindFirst(text, d, 0);
    var found := Find(text, d, 0);
    if found.Some? {
      var k := found.value;
      var rest := text[k + |d|..];
      PiecesExact(rest, d);
      CutAt(text, d, k);
      assert Pieces(text, d)[1..] == Pieces(rest, d);
      forall j: nat | j < k
        ensures !OccursAt(text[..k] + d, d, j)
      {
        InPrefix(text, text[..k] + d, d, j);
      }
    }
  }

  lemma CutAt(text: string, d: string, k: nat)
    requires OccursAt(text, d, k)
    ensures text == text[..k] + (d + text[k + |d|..])
    ensures text[..k] + d <= text
  {
    assert text[k..k + |d|] == d;
  }

  lemma InPrefix(text: string, prefix: string, d: string, j: nat)
    requires prefix <= text && !OccursAt(text, d, j)
    ensures !OccursAt(prefix, d, j)
  {
    if j + |d| <= |prefix| {
      assert prefix[j..j + |d|] == text[j..j + |d|];
    }
  }

  /**
   * A piece as the loop reads it: with the first dash of the delimiter after it, and the last one up to
   * the first dash of the closing delimiter, if there is one.
   */
  function PartOf(pieces: seq<string>, i: nat, close: string): string
    requires i < |pieces|
  {
    if i < |pieces| - 1 then pieces[i] + "-"
    else
      match Find(pieces[i], close, 0)
      case None => pieces[i]
      case Some(e) => pieces[i][..e] + "-"
  }

  lemma PartOfRest(pieces: seq<string>, i: nat, close: string)
    requires 0 < i < |pieces|
    ensures PartOf(pieces, i, close) == PartOf(pieces[1..], i - 1, close)
  {
  }

  /** One round of the loop, in pieces. */
  lemma RoundInPieces(d: string, close: string, text: string, found: map<string, string>)
    requires d != "" && close != "" && d[0] == close[0] == '-'
    ensures var ps := Pieces(text, d);
      var entry := EntryIn(PartOf(ps, 0, close));
      ImagesAfter(d, close, text, found) ==
      if entry.None? then None
      else if |ps| == 1 then Some(found[entry.value.name := entry.value.content])
      else ImagesAfter(d, close, Joined(ps[1..], d), found[entry.value.name := entry.value.content])
    ensures |Pieces(text, d)| > 1 ==>
      && |Joined(Pieces(text, d)[1..], d)| < |text|
      && Pieces(Joined(Pieces(text, d)[1..], d), d) == Pieces(text, d)[1..]
  {
    hide Find, OccursAt, EntryIn, ImagesAfter;
    var next := Find(text, d, 0);
    FindFirst(text, d, 0);
    if next.Some? {
      var k := next.value;
      var rest := text[k + |d|..];
      PiecesExact(rest, d);
      assert Pieces(text, d)[1..] == Pieces(rest, d);
      DashAt(text, d, k);
      ImagesAfterRound(d, close, text, found, next, text[..k] + "-", rest);
    } else {
      var end := Find(text, close, 0);
      FindFirst(text, close, 0);
      if end.Some? {
        DashAt(text, close, end.value);
      }
      ImagesAfterRound(d, close, text, found, next, PartUpTo(text, end), "");
    }
  }

  lemma DashAt(text: string, d: string, k: nat)
    requires d != "" && d[0] == '-' && OccursAt(text, d, k)
    ensures Through(text, 0, k) == text[..k] + "-"
  {
    assert text[k..k + |d|][0] == text[k];
  }

  lemma {:induction false} PiecesRead(d: string, close: string, text: string, found: map<string, string>,
                                      entries: seq<Part>)
    requires d != "" && close != "" && d[0] == close[0] == '-'
    requires |entries| == |Pieces(text, d)|
    requires forall i :: 0 <= i < |entries| ==> EntryIn(PartOf(Pieces(text, d), i, close)) == Some(entries[i])
    ensures ImagesAfter(d, close, text, found) == Some(FileMap(found, entries))
    decreases |text|
  {
    hide Find, EntryIn, ImagesAfter, Pieces, Joined, PartOf;
    var ps := Pieces(text, d);
    RoundInPieces(d, close, text, found);
    var e, rest := entries[0], entries[1..];
    if |ps| == 1 {
      assert rest == [];
    } else {
      forall i | 0 <= i < |rest|
        ensures EntryIn(PartOf(ps[1..], i, close)) == Some(rest[i])
      {
        PartOfRest(ps, i + 1, close);
      }
      PiecesRead(d, close, Joined(ps[1..], d), found[e.name := e.content], rest);
    }
  }

  lemma {:induction false} PieceUnreadable(d: string, close: string, text: string, found: map<string, string>, i: nat)
    requires d != "" && close != "" && d[0] == close[0] == '-'
    requires i < |Pieces(text, d)| && EntryIn(PartOf(Pieces(text, d), i, close)) == None
    ensures ImagesAfter(d, close, text, found) == None
    decreases |text|
  {
    hide Find, EntryIn, ImagesAfter, Pieces, Joined, PartOf;
    var ps := Pieces(text, d);
    RoundInPieces(d, close, text, found);
    if i > 0 {
      var first := EntryIn(PartOf(ps, 0, close));
      if first.Some? {
        PartOfRest(ps, i, close);
        PieceUnreadable(d, close, Joined(ps[1..], d), found[first.value.name := first.value.content], i - 1);
      }
    }
  }

  /**
   * Any body: what stands before its first delimiter is ignored, every further piece must be a part,
   * and then the files are those of the parts, the last of a name winning.
   */
  lemma ImagesExact(boundary: string, text: string, entries: seq<Part>)
    requires var ps := Pieces(text, "--" + boundary + "\r\n");
      && |entries| == |ps| - 1
      && forall i :: 0 <= i < |entries| ==>
           EntryIn(PartOf(ps, i + 1, "--" + boundary + "--" + "\r\n")) == Some(entries[i])
    ensures ImagesIn(boundary, text) == if entries == [] then None else Some(FileMap(map[], entries))
  {
    hide EntryIn, ImagesAfter, PartOf, Find;
    var d, close := Delimiter(boundary), CloseDelimiter(boundary);
    var ps := Pieces(text, d);
    if entries != [] {
      var rest := text[Find(text, d, 0).value + |d|..];
      assert ps[1..] == Pieces(rest, d);
      forall i | 0 <= i < |entries|
        ensures EntryIn(PartOf(Pieces(rest, d), i, close)) == Some(entries[i])
      {
        PartOfRest(ps, i + 1, close);
      }
      PiecesRead(d, close, rest, map[], entries);
    }
  }

  /** And a body is refused if and only if it has no delimiter or one of these pieces is no part. */
  lemma RefusedExactly(boundary: string, text: string)
    ensures var ps := Pieces(text, "--" + boundary + "\r\n");
      ImagesIn(boundary, text) == None
      <==> || |ps| == 1
           || exists i :: 1 <= i < |ps| && EntryIn(PartOf(ps, i, "--" + boundary + "--" + "\r\n")) == None
  {
    hide EntryIn, ImagesAfter, PartOf, Find, FileMap;
    var d, close := Delimiter(boundary), CloseDelimiter(boundary);
    var ps := Pieces(text, d);
    if |ps| > 1 {
      if i :| 1 <= i < |ps| && EntryIn(PartOf(ps, i, close)) == None {
        var rest := text[Find(text, d, 0).value + |d|..];
        assert ps[1..] == Pieces(rest, d);
        PartOfRest(ps, i, close);
        PieceUnreadable(d, close, rest, map[], i - 1);
      } else {
        var entries := seq(|ps| - 1, i requires 0 <= i < |ps| - 1 => EntryIn(PartOf(ps, i + 1, close)).value);
        ImagesExact(boundary, text, entries);
      }
    }
  }
}
