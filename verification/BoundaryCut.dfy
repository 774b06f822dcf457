/**
 * Bodies that are read under another boundary than the one they are written with, which is what
 * happens when the boundary in the header has one of the letters "/r ;" in it.
 */
module BoundaryCut {
  import opened Text
  import opened UrlCodec
  import opened RequestParser
  import opened Multipart
  import opened MultipartBody
  import opened RequestHandler

  // ---------------------------------------------------------------------------------------------
  // What the header names
  // ---------------------------------------------------------------------------------------------

  lemma StopLetters(c: char)
    ensures c in "/r ;" <==> c == '/' || c == 'r' || c == ' ' || c == ';'
  {
  }

  /** No letter of "/r ;" stops the search: the boundary is the rest of the header. */
  lemma BoundaryWhole(prefix: string, rest: string)
    requires IsBoundaryPrefix(prefix) && forall i :: 0 <= i < |rest| ==> rest[i] !in "/r ;"
    ensures BoundaryIn(prefix + rest) == Some(rest)
  {
    hide BoundaryIn, IsBoundaryPrefix;
    forall i | 0 <= i < |rest|
      ensures !IsStop(rest[i])
    {
      StopLetters(rest[i]);
    }
    BoundaryExact(prefix, rest);
  }

  /** Otherwise the boundary goes up to and includes the first of these letters. */
  lemma BoundaryCutAt(prefix: string, rest: string, k: nat)
    requires IsBoundaryPrefix(prefix) && k < |rest| && rest[k] in "/r ;"
    requires forall i :: 0 <= i < k ==> rest[i] !in "/r ;"
    ensures BoundaryIn(prefix + rest) == Some(rest[..k + 1])
  {
    hide BoundaryIn, IsBoundaryPrefix, FirstStop;
    BoundaryRead(prefix, rest);
    forall i | 0 <= i <= k
      ensures IsStop(rest[i]) <==> rest[i] in "/r ;"
    {
      StopLetters(rest[i]);
    }
    assert FirstStop(rest, 0) == k;
    assert rest[0..k + 1] == rest[..k + 1];
  }

  // ---------------------------------------------------------------------------------------------
  // A body read under another boundary
  // ---------------------------------------------------------------------------------------------

  /** A line, and not one that a header line with a file name or the closing delimiter could end in. */
  predicate IsOther(other: string) {
    IsLine(other) && other != "" && other[|other| - 1] != '"' && other[|other| - 1] != '-'
  }

  lemma PartSafe(t: Template, other: string, e: Part)
    requires TemplateOk(t) && EntryOk(e) && IsOther(other)
    ensures forall i :: 0 <= i < 4 ==> IsLine(PartLines(t, e)[i])
    ensures forall i :: 0 <= i < 4 ==> !HasSuffix(PartLines(t, e)[i], "--" + other)
    ensures forall i :: 0 <= i < 4 ==> !HasSuffix(PartLines(t, e)[i], "--" + other + "--")
  {
    hide HasSuffix, PartLines;
    SuffixEnd(NameLine(t, e.name), "--" + other);
    PartLinesSafe(t, other, e, "--" + other);
    PartLinesSafe(t, other, e, "--" + other + "--");
  }

  lemma {:induction false} NoLineEndsSo(t: Template, boundary: string, entries: seq<Part>, other: string)
    requires TemplateOk(t) && IsLine(boundary) && EntriesOk(entries) && IsOther(other)
    requires !HasSuffix("--" + boundary, "--" + other)
    ensures forall i :: 0 <= i < |BodyLines(t, boundary, entries)| ==>
      IsLine(BodyLines(t, boundary, entries)[i]) && !HasSuffix(BodyLines(t, boundary, entries)[i], "--" + other)
    decreases |entries|
  {
    hide HasSuffix, NameLine;
    if entries == [] {
      SuffixEnd("--" + boundary + "--", "--" + other);
    } else {
      PartSafe(t, other, entries[0]);
      NoLineEndsSo(t, boundary, entries[1..], other);
    }
  }

  /** The last part: whatever comes after it, its file is read. */
  lemma LastPartUnder(t: Template, boundary: string, e: Part, other: string, found: map<string, string>)
    requires TemplateOk(t) && IsLine(boundary) && EntryOk(e) && IsOther(other)
    ensures ImagesAfter(Delimiter(other), CloseDelimiter(other),
                        Lines(PartLines(t, e)) + CloseDelimiter(boundary), found) ==
            Some(found[Clip(e.name) := e.content])
  {
    hide Find, EntryIn, ImagesAfter, Lines, EntryOk, HasSuffix, TemplateOk, Clip;
    var head, last := Lines(PartLines(t, e)), CloseDelimiter(boundary);
    var d, close, x := Delimiter(other), CloseDelimiter(other), "--" + other;
    var text := head + last;
    PartSafe(t, other, e);
    FindAfterLines(PartLines(t, e), last, x);
    FindAfterLines(PartLines(t, e), last, x + "--");
    SuffixEnd("--" + boundary + "--", x);
    assert last + "" == last;
    FindLineEnd("--" + boundary + "--", "", x);
    NothingToFind(d);
    var end := Find(text, close, 0);
    var more := PartUpTo(last, if end.None? then None else Some(end.value - |head|));
    PartAfterHead(head, last, end);
    EntryOfPart(t, e, more);
    ImagesAfterRound(d, close, text, found, None, head + more, "");
  }

  lemma PartAfterHead(head: string, last: string, end: Option<nat>)
    requires end.Some? ==> |head| <= end.value <= |head + last|
    ensures PartUpTo(head + last, end) ==
            head + PartUpTo(last, if end.None? then None else Some(end.value - |head|))
  {
  }

  /** A part before another one. */
  lemma PartUnder(t: Template, boundary: string, e: Part, other: string, more: string, found: map<string, string>)
    requires TemplateOk(t) && IsLine(boundary) && EntryOk(e) && IsOther(other)
    requires HasSuffix("--" + boundary, "--" + other)
    ensures ImagesAfter(Delimiter(other), CloseDelimiter(other),
                        Lines(PartLines(t, e)) + (Delimiter(boundary) + more), found) ==
            ImagesAfter(Delimiter(other), CloseDelimiter(other), more, found[Clip(e.name) := e.content])
  {
    hide Find, EntryIn, ImagesAfter, Lines, EntryOk, HasSuffix, TemplateOk, Clip;
    var head, line, x := Lines(PartLines(t, e)), "--" + boundary, "--" + other;
    var d, next := Delimiter(other), Delimiter(boundary) + more;
    PartSafe(t, other, e);
    FindAfterLines(PartLines(t, e), next, x);
    FindLineEnd(line, more, x);
    LongerLine(line, x);
    var k := |line| - |x|;
    CutInside(head, line, x, more);
    EntryOfPart(t, e, line[..k + 1]);
    ImagesAfterRound(d, CloseDelimiter(other), head + next, found, Some(|head| + k), head + line[..k + 1], more);
  }

  lemma LongerLine(line: string, x: string)
    requires HasSuffix(line, x)
    ensures |x| <= |line|
  {
  }

  lemma CutInside(head: string, line: string, x: string, more: string)
    requires x != "" && |x| <= |line|
    ensures var k, text := |line| - |x|, head + (line + CRLF + more);
      && |head| + k < |text|
      && text[0..|head| + k + 1] == head + line[..k + 1]
      && text[|head| + k + |x + CRLF|..] == more
  {
  }

  lemma {:induction false} FilesUnder(t: Template, boundary: string, entries: seq<Part>, other: string,
                                      found: map<string, string>)
    requires TemplateOk(t) && IsLine(boundary) && entries != [] && EntriesOk(entries) && IsOther(other)
    requires HasSuffix("--" + boundary, "--" + other)
    ensures ImagesAfter(Delimiter(other), CloseDelimiter(other), AfterDelimiter(t, boundary, entries), found) ==
            Some(FileMap(found, Clipped(entries)))
    decreases |entries|
  {
    hide Find, EntryIn, ImagesAfter, HasSuffix, Lines, PartLines, Clip, EntryOk, TemplateOk;
    var e, rest := entries[0], entries[1..];
    if rest == [] {
      CloseText(boundary);
      LastPartUnder(t, boundary, e, other, found);
    } else {
      BodyFirst(t, boundary, rest);
      PartUnder(t, boundary, e, other, AfterDelimiter(t, boundary, rest), found);
      FilesUnder(t, boundary, rest, other, found[Clip(e.name) := e.content]);
    }
  }

  /**
   * A body written with one boundary and read under another: its files come back if and only if
   * every delimiter line ends like a delimiter of the other boundary.
   */
  lemma ReadUnderOther(t: Template, boundary: string, entries: seq<Part>, other: string)
    requires TemplateOk(t) && IsLine(boundary) && entries != [] && EntriesOk(entries) && IsOther(other)
    ensures ImagesIn(other, Lines(BodyLines(t, boundary, entries))) ==
            if HasSuffix("--" + boundary, "--" + other) then Some(FileMap(map[], Clipped(entries))) else None
  {
    hide Find, EntryIn, ImagesAfter, BodyLines, FileMap, Clipped, Lines, HasSuffix, TemplateOk, EntriesOk;
    var body, line, x := Lines(BodyLines(t, boundary, entries)), "--" + boundary, "--" + other;
    if HasSuffix(line, x) {
      var after := AfterDelimiter(t, boundary, entries);
      BodyFirst(t, boundary, entries);
      FindLineEnd(line, after, x);
      LongerLine(line, x);
      CutInside("", line, x, after);
      assert "" + (line + CRLF + after) == body;
      FilesUnder(t, boundary, entries, other, map[]);
    } else {
      NoLineEndsSo(t, boundary, entries, other);
      FindAfterLines(BodyLines(t, boundary, entries), "", x);
      NothingToFind(x + CRLF);
      assert body + "" == body;
    }
  }

  // ---------------------------------------------------------------------------------------------
  // A boundary that is cut
  // ---------------------------------------------------------------------------------------------

  /**
   * A boundary with one of the letters "/r ;" in it: it is read up to the first of these, and the
   * files come back if and only if the delimiter lines end in what is read.
   */
  lemma CutBoundaryExact(t: Template, prefix: string, boundary: string, k: nat, entries: seq<Part>)
    requires IsBoundaryPrefix(prefix) && k < |boundary| && boundary[k] in "/r ;"
    requires forall i :: 0 <= i < k ==> boundary[i] !in "/r ;"
    requires TemplateOk(t) && IsLine(boundary) && entries != [] && EntriesOk(entries)
    ensures BoundaryIn(prefix + boundary) == Some(boundary[..k + 1])
    ensures ImagesIn(boundary[..k + 1], Lines(BodyLines(t, boundary, entries))) ==
            if HasSuffix("--" + boundary, "--" + boundary[..k + 1]) then Some(FileMap(map[], Clipped(entries)))
            else None
  {
    hide BoundaryIn, ImagesIn, BodyLines, FileMap, Clipped, Lines, HasSuffix, TemplateOk, EntriesOk, IsBoundaryPrefix;
    BoundaryCutAt(prefix, boundary, k);
    StopLetters(boundary[k]);
    assert boundary[..k + 1][k] == boundary[k];
    ReadUnderOther(t, boundary, entries, boundary[..k + 1]);
  }

  /** So every body is refused whose boundary has such a letter, but not as its last. */
  lemma CutBoundaryRefuses(t: Template, prefix: string, boundary: string, k: nat, entries: seq<Part>)
    requires IsBoundaryPrefix(prefix) && k < |boundary| && boundary[k] in "/r ;"
    requires forall i :: 0 <= i < k ==> boundary[i] !in "/r ;"
    requires boundary[|boundary| - 1] !in "/r ;"
    requires TemplateOk(t) && IsLine(boundary) && entries != [] && EntriesOk(entries)
    ensures BoundaryIn(prefix + boundary) == Some(boundary[..k + 1])
    ensures ImagesIn(boundary[..k + 1], Lines(BodyLines(t, boundary, entries))) == None
  {
    hide BoundaryIn, ImagesIn, BodyLines, FileMap, Clipped, Lines, HasSuffix, TemplateOk, EntriesOk, IsBoundaryPrefix;
    CutBoundaryExact(t, prefix, boundary, k, entries);
    SuffixEnd("--" + boundary, "--" + boundary[..k + 1]);
  }

  /** The last Content-Type header has this value. */
  predicate LastType(headers: seq<Header>, value: string) {
    exists i :: 0 <= i < |headers| && headers[i].name == "Content-Type" && headers[i].value == value
                && forall j :: i < j < |headers| ==> headers[j].name != "Content-Type"
  }

  /** And a request with such a body is refused. */
  lemma CutBoundaryRoute(req: RequestData, t: Template, prefix: string, boundary: string, k: nat, entries: seq<Part>)
    requires IsBoundaryPrefix(prefix) && k < |boundary| && boundary[k] in "/r ;"
    requires forall i :: 0 <= i < k ==> boundary[i] !in "/r ;"
    requires boundary[|boundary| - 1] !in "/r ;"
    requires TemplateOk(t) && IsLine(boundary) && entries != [] && EntriesOk(entries)
    requires LastType(req.headers, prefix + boundary) && req.jsonData == Lines(BodyLines(t, boundary, entries))
    requires UrlDecode(req.uri) != Some("/history")
    ensures RouteOf(req) == Refuse
  {
    hide BoundaryIn, ImagesIn, BodyLines, Lines, TemplateOk, EntriesOk, IsBoundaryPrefix, RouteOf, UrlDecode;
    CutBoundaryRefuses(t, prefix, boundary, k, entries);
    RouteExact(req);
  }

  const BROWSER_BOUNDARY: string := "----WebKitFo" + "rmBoundary7MA4YWxkTrZu0gW"

  /** A boundary as browsers make them is read as `----WebKitFor`, and every upload with it is refused. */
  lemma BrowserBoundaryRefused(t: Template, prefix: string, entries: seq<Part>)
    requires IsBoundaryPrefix(prefix) && TemplateOk(t) && entries != [] && EntriesOk(entries)
    ensures BoundaryIn(prefix + BROWSER_BOUNDARY) == Some("----WebKitFor")
    ensures ImagesIn("----WebKitFor", Lines(BodyLines(t, BROWSER_BOUNDARY, entries))) == None
  {
    hide BoundaryIn, ImagesIn, BodyLines, Lines, TemplateOk, EntriesOk, IsBoundaryPrefix;
    BrowserBoundary();
    CutBoundaryRefuses(t, prefix, BROWSER_BOUNDARY, 12, entries);
  }

  lemma BrowserBoundary()
    ensures IsLine(BROWSER_BOUNDARY) && |BROWSER_BOUNDARY| == 37
    ensures BROWSER_BOUNDARY[..13] == "----WebKitFor" && BROWSER_BOUNDARY[12] == 'r'
    ensures forall i :: 0 <= i < 12 ==> BROWSER_BOUNDARY[i] !in "/r ;"
    ensures BROWSER_BOUNDARY[|BROWSER_BOUNDARY| - 1] == 'W'
  {
    BoundaryStart();
    BoundaryRest();
    TwoPieces("----WebKitFo", "rmBoundary7MA4YWxkTrZu0gW");
    assert "----WebKitFo" + "r" == "----WebKitFor";
  }

  lemma BoundaryStart()
    ensures IsLine("----WebKitFo")
    ensures forall i :: 0 <= i < 12 ==> "----WebKitFo"[i] !in "/r ;"
  {
    forall i | 0 <= i < 12
      ensures "----WebKitFo"[i] !in "/r ;"
    {
      StopLetters("----WebKitFo"[i]);
    }
  }

  lemma BoundaryRest()
    ensures IsLine("rmBoundary7MA4YWxkTrZu0gW")
  {
  }

  lemma TwoPieces(a: string, b: string)
    requires b != ""
    ensures (a + b)[..|a| + 1] == a + [b[0]] && (a + b)[|a + b| - 1] == b[|b| - 1]
    ensures IsLine(a) && IsLine(b) ==> IsLine(a + b)
    ensures forall i :: 0 <= i < |a| ==> (a + b)[i] == a[i]
  {
  }
}
