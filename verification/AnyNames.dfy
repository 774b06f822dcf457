/**
 * Splitting bodies whose names are arbitrary texts, line ends included: exactly what is read from them.
 * No delimiter reaches across a quote, so what a name contains and what surrounds it can be told apart.
 */
module AnyNames {
  import opened Text
  import opened Multipart
  import opened MultipartBody

  predicate Contains(s: string, pattern: string) {
    Find(s, pattern, 0).Some?
  }

  /** The line after the first blank line of a name, with the quote that ends the name. */
  function LineInside(name: string): string
    requires Contains(name, BLANK_LINE)
  {
    var rest := name[Find(name, BLANK_LINE, 0).value + 4..] + QUOTE;
    match Find(rest, CRLF, 0)
    case None => rest
    case Some(q) => rest[..q]
  }

  /** What is read for the content: a blank line in the name comes before the one after the headers. */
  function Seen(e: Part): Part {
    Entry(e.name, if Contains(e.name, BLANK_LINE) then LineInside(e.name) else e.content)
  }

  function SeenAll(entries: seq<Part>): (r: seq<Part>)
    ensures |r| == |entries| && forall i :: 0 <= i < |entries| ==> r[i] == Seen(entries[i])
  {
    if entries == [] then [] else [Seen(entries[0])] + SeenAll(entries[1..])
  }

  /** No name contains a delimiter, nor the last one a closing delimiter. */
  predicate Undivided(boundary: string, entries: seq<Part>)
    requires entries != []
  {
    && (forall i :: 0 <= i < |entries| ==> !Contains(entries[i].name, Delimiter(boundary)))
    && !Contains(entries[|entries| - 1].name, CloseDelimiter(boundary))
  }

  predicate BoundaryFit(boundary: string) {
    IsLine(boundary) && Free(boundary, '"') && !AllDashes(boundary)
  }

  /** Any name without a quote, and a content as Base64 gives it. */
  predicate Unquoted(e: Part) {
    Free(e.name, '"') && IsLine(e.content) && Free(e.content, '-')
  }

  // ---------------------------------------------------------------------------------------------
  // Searching a part
  // ---------------------------------------------------------------------------------------------

  /** A pattern that has a carriage return and no quote. */
  predicate Crosses(x: string) {
    Free(x, '"') && exists i :: 0 <= i < |x| && x[i] == '\r'
  }

  lemma BlankLineCrosses()
    ensures Crosses(BLANK_LINE)
  {
    assert BLANK_LINE[0] == '\r';
  }

  lemma DelimitersCross(boundary: string)
    requires BoundaryFit(boundary)
    ensures Crosses(Delimiter(boundary)) && Crosses(CloseDelimiter(boundary))
  {
    assert Delimiter(boundary)[|boundary| + 2] == '\r';
    assert CloseDelimiter(boundary)[|boundary| + 4] == '\r';
  }

  /** An occurrence has no quote in it. */
  lemma NoQuoteInside(s: string, x: string, j: nat, q: nat)
    requires Free(x, '"') && q < |s| && s[q] == '"' && OccursAt(s, x, j)
    ensures q < j || j + |x| <= q
  {
    assert forall k :: j <= k < j + |x| ==> s[k] == s[j..j + |x|][k - j] == x[k - j];
  }

  lemma OccursInside(a: string, b: string, c: string, x: string, j: nat)
    requires |a| <= j && j + |x| <= |a| + |b|
    ensures OccursAt(a + b + c, x, j) <==> OccursAt(b, x, j - |a|)
  {
    assert (a + b + c)[j..j + |x|] == b[j - |a|..j - |a| + |x|];
  }

  lemma NotInLine(s: string, more: string, x: string, j: nat)
    requires IsLine(s) && Crosses(x) && j + |x| <= |s|
    ensures !OccursAt(s + more, x, j)
  {
    var i :| 0 <= i < |x| && x[i] == '\r';
    assert (s + more)[j + i] == s[j + i];
    Differs(s + more, x, j, i);
  }

  lemma OccursInPart(start: string, name: string, tail: string, x: string, j: nat)
    requires IsLine(start) && start != "" && start[|start| - 1] == '"' && Crosses(x)
    requires j <= |start| + |name|
    ensures OccursAt(start + name + (QUOTE + tail), x, j) <==> |start| <= j && OccursAt(name, x, j - |start|)
  {
    var s, n := start + name + (QUOTE + tail), |start| + |name|;
    assert s[|start| - 1] == '"' && s[n] == '"';
    if OccursAt(s, x, j) {
      NoQuoteInside(s, x, j, |start| - 1);
      NoQuoteInside(s, x, j, n);
      if j < |start| {
        ThreeParts(start, name, QUOTE + tail);
        NotInLine(start, name + (QUOTE + tail), x, j);
      } else {
        OccursInside(start, name, QUOTE + tail, x, j);
      }
    }
    if |start| <= j && OccursAt(name, x, j - |start|) {
      OccursInside(start, name, QUOTE + tail, x, j);
    }
  }

  /** The text of a part, up to its name and after it. */
  predicate IsPart(s: string, start: string, name: string, tail: string) {
    && s == start + name + (QUOTE + tail)
    && IsLine(start) && start != "" && start[|start| - 1] == '"'
  }

  lemma OccursInWhole(s: string, start: string, name: string, tail: string, x: string, j: nat)
    requires IsPart(s, start, name, tail) && Crosses(x) && j <= |start| + |name|
    ensures OccursAt(s, x, j) <==> |start| <= j && OccursAt(name, x, j - |start|)
  {
    OccursInPart(start, name, tail, x, j);
  }

  lemma AfterName(s: string, start: string, name: string, tail: string)
    requires IsPart(s, start, name, tail)
    ensures |start| + |name| + 1 <= |s| && s[|start| + |name| + 1..] == tail
  {
  }

  lemma SkipTo(s: string, x: string, k: nat, tail: string)
    requires k <= |s| && s[k..] == tail && forall j: nat :: j < k ==> !OccursAt(s, x, j)
    ensures Find(s, x, 0) == Later(k, Find(tail, x, 0))
  {
    hide Find, OccursAt;
    FindSkip(s, x, 0, k);
    FindFrom(s, x, k);
  }

  lemma SkipName(s: string, start: string, name: string, tail: string, x: string)
    requires IsPart(s, start, name, tail) && Crosses(x)
    requires forall j: nat :: !OccursAt(name, x, j)
    ensures Find(s, x, 0) == Later(|start| + |name| + 1, Find(tail, x, 0))
  {
    hide Find, OccursAt, Crosses, IsPart;
    forall j: nat | j < |start| + |name| + 1
      ensures !OccursAt(s, x, j)
    {
      OccursInWhole(s, start, name, tail, x, j);
    }
    AfterName(s, start, name, tail);
    SkipTo(s, x, |start| + |name| + 1, tail);
  }

  lemma FoundInName(s: string, start: string, name: string, tail: string, x: string, k: nat)
    requires IsPart(s, start, name, tail) && Crosses(x)
    requires k <= |name| && OccursAt(name, x, k) && forall j: nat :: j < k ==> !OccursAt(name, x, j)
    ensures Find(s, x, 0) == Some(|start| + k)
  {
    hide Find, OccursAt, Crosses, IsPart;
    OccursInWhole(s, start, name, tail, x, |start| + k);
    forall j: nat | j < |start| + k
      ensures !OccursAt(s, x, j)
    {
      OccursInWhole(s, start, name, tail, x, j);
    }
    FoundAt(s, x, |start| + k);
  }

  /** Where a pattern occurs in the part: inside its name, or after it. */
  lemma FindInPart(s: string, start: string, name: string, tail: string, x: string)
    requires IsPart(s, start, name, tail) && Crosses(x)
    ensures Find(s, x, 0) ==
            match Find(name, x, 0)
            case Some(k) => Some(|start| + k)
            case None => Later(|start| + |name| + 1, Find(tail, x, 0))
  {
    hide Find, OccursAt, IsPart, Crosses;
    FindFirst(name, x, 0);
    match Find(name, x, 0)
    case Some(k) => FoundInName(s, start, name, tail, x, k);
    case None => SkipName(s, start, name, tail, x);
  }

  lemma BetweenShift(prefix: string, s: string, open: string, close: string)
    requires Find(prefix + s, open, 0) == Later(|prefix|, Find(s, open, 0))
    ensures Between(prefix + s, open, close) == Between(s, open, close)
  {
    hide Find;
    var all := prefix + s;
    match Find(s, open, 0)
    case None =>
    case Some(i) =>
      var k := i + |open|;
      FindFrom(all, close, |prefix| + k);
      FindFrom(s, close, k);
      assert all[|prefix| + k..] == s[k..];
      var j := Find(s, close, k);
      assert j.Some? ==> all[|prefix| + k..|prefix| + j.value] == s[k..j.value];
  }

  lemma LineEndInFirst(r: string, more: string, j: nat)
    requires r != "" && r[|r| - 1] == '"' && j < |r|
    ensures OccursAt(r + (CRLF + more), CRLF, j) <==> OccursAt(r, CRLF, j)
  {
    var s := r + (CRLF + more);
    if j + 2 <= |r| {
      assert s[j..j + 2] == r[j..j + 2];
    } else {
      assert s[j] == '"';
      Differs(s, CRLF, j, 0);
    }
  }

  /** The first line end of a text that ends in a quote, with a line end after it. */
  lemma FirstLine(r: string, more: string)
    requires r != "" && r[|r| - 1] == '"'
    ensures Find(r + (CRLF + more), CRLF, 0) == match Find(r, CRLF, 0) case None => Some(|r|) case found => found
  {
    hide Find, OccursAt;
    var s := r + (CRLF + more);
    FindFirst(r, CRLF, 0);
    LineEndAfter(r, more);
    var end := match Find(r, CRLF, 0) case None => |r| case Some(q) => q;
    if end < |r| {
      LineEndInFirst(r, more, end);
    }
    forall j: nat | j < end
      ensures !OccursAt(s, CRLF, j)
    {
      LineEndInFirst(r, more, j);
    }
    FoundAt(s, CRLF, end);
  }

  lemma LineEndAfter(r: string, more: string)
    ensures OccursAt(r + (CRLF + more), CRLF, |r|)
  {
    assert (r + (CRLF + more))[|r|..|r| + 2] == CRLF;
  }

  // ---------------------------------------------------------------------------------------------
  // One part
  // ---------------------------------------------------------------------------------------------

  /** A part after its name, and what follows it. */
  function Tail(t: Template, content: string, more: string): string {
    CRLF + (t.kind + CRLF + (CRLF + (content + CRLF + more)))
  }

  lemma PartWithTail(t: Template, e: Part, more: string)
    ensures Lines(PartLines(t, e)) + more == t.start + e.name + (QUOTE + Tail(t, e.content, more))
  {
    var rest := t.kind + CRLF + (CRLF + (e.content + CRLF + more));
    PartText(t, e, more);
    assert NameLine(t, e.name) + CRLF + rest == t.start + e.name + (QUOTE + (CRLF + rest));
  }

  lemma StartOk(t: Template)
    requires TemplateOk(t)
    ensures IsLine(t.start) && t.start != "" && t.start[|t.start| - 1] == '"'
  {
    var n := |t.start|;
    assert t.start[n - 10..n] == FILENAME;
    assert t.start[n - 10..n][9] == '"';
  }

  lemma ImageInTail(t: Template, content: string, more: string)
    requires TemplateOk(t) && IsLine(content)
    ensures ImageIn(Tail(t, content, more)) == Some(content)
  {
    hide Find;
    ImageOfPart("", t.kind, content, more);
    assert "" + CRLF == CRLF;
  }

  /** The image of a part with any name. */
  lemma ImageOfAnyName(t: Template, e: Part, more: string)
    requires TemplateOk(t) && Unquoted(e)
    ensures ImageIn(t.start + e.name + (QUOTE + Tail(t, e.content, more))) == Some(Seen(e).content)
  {
    hide Find, Tail, TemplateOk;
    var start, name, tail := t.start, e.name, Tail(t, e.content, more);
    var s := start + name + (QUOTE + tail);
    StartOk(t);
    BlankLineCrosses();
    FindInPart(s, start, name, tail, BLANK_LINE);
    match Find(name, BLANK_LINE, 0)
    case None =>
      ImageInTail(t, e.content, more);
      ThreeParts(start + name, QUOTE, tail);
      BetweenShift(start + name + QUOTE, tail, BLANK_LINE, CRLF);
    case Some(b) =>
      ImageInName(t, e, more, b);
  }

  lemma ImageInName(t: Template, e: Part, more: string, b: nat)
    requires TemplateOk(t) && Find(e.name, BLANK_LINE, 0) == Some(b)
    requires Find(t.start + e.name + (QUOTE + Tail(t, e.content, more)), BLANK_LINE, 0) == Some(|t.start| + b)
    ensures ImageIn(t.start + e.name + (QUOTE + Tail(t, e.content, more))) == Some(LineInside(e.name))
  {
    hide Find, TemplateOk;
    var s := t.start + e.name + (QUOTE + Tail(t, e.content, more));
    var r := e.name[b + 4..] + QUOTE;
    var i := |t.start| + b + 4;
    var rest := t.kind + CRLF + (CRLF + (e.content + CRLF + more));
    AfterBlankLine(t.start, e.name, b, CRLF + rest);
    FirstLine(r, rest);
    FindFrom(s, CRLF, i);
    var q := match Find(r, CRLF, 0) case None => |r| case Some(q) => q;
    assert s[i..i + q] == (r + (CRLF + rest))[..q] == r[..q];
    assert r[..|r|] == r;
  }

  lemma AfterBlankLine(start: string, name: string, b: nat, tail: string)
    requires b + 4 <= |name|
    ensures (start + name + (QUOTE + tail))[|start| + b + 4..] == name[b + 4..] + QUOTE + tail
  {
  }

  lemma EntryOfAnyName(t: Template, e: Part, more: string)
    requires TemplateOk(t) && Unquoted(e)
    ensures EntryIn(Lines(PartLines(t, e)) + more) == Some(Seen(e))
  {
    hide Find, FilenameIn, ImageIn, Tail, TemplateOk;
    PartWithTail(t, e, more);
    var tail := Tail(t, e.content, more);
    ImageOfAnyName(t, e, more);
    FilenameOfPart(t, e.name, tail);
    assert NameLine(t, e.name) + tail == t.start + e.name + (QUOTE + tail);
    ClipNothing(e.name);
  }

  lemma ClipNothing(name: string)
    requires Free(name, '"')
    ensures Clip(name) == name
  {
  }

  /** A part cut inside its name has no file name. */
  lemma CutInName(t: Template, cut: string)
    requires TemplateOk(t) && Free(cut, '"')
    ensures EntryIn(t.start + cut) == None
  {
    hide Find;
    var s, n := t.start + cut, |t.start|;
    assert s[n - 10..n] == t.start[n - 10..n];
    forall j: nat | j < n - 10
      ensures !OccursAt(s, FILENAME, j)
    {
      assert s[j..j + 10] == t.start[j..j + 10];
      assert !OccursAt(t.start, FILENAME, j);
    }
    FoundAt(s, FILENAME, n - 10);
    FindFirst(s, QUOTE, n);
    forall j: nat | n <= j
      ensures !OccursAt(s, QUOTE, j)
    {
      if j < |s| {
        assert s[j] == cut[j - n];
        Differs(s, QUOTE, j, 0);
      }
    }
  }

  // ---------------------------------------------------------------------------------------------
  // The whole body
  // ---------------------------------------------------------------------------------------------

  /** The two delimiters without their line ends. */
  predicate IsMark(boundary: string, x: string) {
    x == "--" + boundary || x == "--" + boundary + "--"
  }

  lemma TailOnLines(t: Template, e: Part, more: string)
    ensures Tail(t, e.content, more) == Lines(["", t.kind, "", e.content]) + more
    ensures |t.start| + |e.name| + 1 + |Lines(["", t.kind, "", e.content])| == |Lines(PartLines(t, e))|
  {
    var ls := ["", t.kind, "", e.content];
    assert ls[1..] == PartLines(t, e)[1..];
    LinesFirst(ls, more);
    LinesFirst(PartLines(t, e), "");
    assert ls[1..] == [t.kind, "", e.content] && ls[1..][1..] == ["", e.content];
    assert ls[1..][1..][1..] == [e.content];
    LinesFirst(ls[1..], more);
    LinesFirst(["", e.content], more);
    LinesFirst([e.content], more);
    assert "" + CRLF == CRLF;
    assert Lines([]) + more == more;
  }

  lemma FindMark(t: Template, boundary: string, e: Part, more: string, x: string)
    requires TemplateOk(t) && BoundaryFit(boundary) && Unquoted(e) && IsMark(boundary, x)
    ensures Find(Lines(PartLines(t, e)) + more, x + CRLF, 0) ==
            match Find(e.name, x + CRLF, 0)
            case Some(k) => Some(|t.start| + k)
            case None => Later(|Lines(PartLines(t, e))|, Find(more, x + CRLF, 0))
  {
    hide Find, TemplateOk, Lines, PartLines, Tail, Crosses;
    var s, tail, ls := Lines(PartLines(t, e)) + more, Tail(t, e.content, more), ["", t.kind, "", e.content];
    PartWithTail(t, e, more);
    StartOk(t);
    DelimitersCross(boundary);
    FindInPart(s, t.start, e.name, tail, x + CRLF);
    TailOnLines(t, e, more);
    MarkSafe(t, boundary, e, x);
    FindAfterLines(ls, more, x);
    LaterTwice(|t.start| + |e.name| + 1, |Lines(ls)|, Find(more, x + CRLF, 0));
  }

  lemma MarkSafe(t: Template, boundary: string, e: Part, x: string)
    requires TemplateOk(t) && BoundaryFit(boundary) && Unquoted(e) && IsMark(boundary, x)
    ensures IsLine(x) && x != "" && IsLine(t.kind) && IsLine(e.content)
    ensures !HasSuffix("", x) && !HasSuffix(t.kind, x) && !HasSuffix(e.content, x)
  {
    KindSafe(t, x);
    SuffixStart(e.content, x);
  }

  /** A name with a delimiter in it: the part is cut there. */
  lemma NameCut(t: Template, boundary: string, e: Part, more: string, x: string, k: nat)
    requires TemplateOk(t) && Unquoted(e) && IsMark(boundary, x) && Find(e.name, x + CRLF, 0) == Some(k)
    ensures |t.start| + k <= |Lines(PartLines(t, e)) + more|
    ensures EntryIn(PartUpTo(Lines(PartLines(t, e)) + more, Some(|t.start| + k))) == None
  {
    hide Find, TemplateOk, Lines, PartLines, Tail, EntryIn;
    PartWithTail(t, e, more);
    CutText(t.start, e.name, QUOTE + Tail(t, e.content, more), k);
    CutInName(t, e.name[..k + 1]);
  }

  lemma CutText(start: string, name: string, rest: string, k: nat)
    requires k < |name|
    ensures Through(start + name + rest, 0, |start| + k) == start + name[..k + 1]
  {
  }

  /** The splitting of a part before another one. */
  lemma AnyPartThenDelimiter(t: Template, boundary: string, e: Part, more: string, found: map<string, string>)
    requires TemplateOk(t) && BoundaryFit(boundary) && Unquoted(e)
    ensures ImagesAfter(Delimiter(boundary), CloseDelimiter(boundary),
                        Lines(PartLines(t, e)) + (Delimiter(boundary) + more), found) ==
            if Contains(e.name, Delimiter(boundary)) then None
            else ImagesAfter(Delimiter(boundary), CloseDelimiter(boundary), more, found[e.name := Seen(e).content])
  {
    hide Find, EntryIn, ImagesAfter, TemplateOk, Lines, PartLines, Seen;
    var d, head, x := Delimiter(boundary), Lines(PartLines(t, e)), "--" + boundary;
    FindMark(t, boundary, e, d + more, x);
    FindPrefix(d, more);
    if Contains(e.name, d) {
      var k := Find(e.name, d, 0).value;
      NameCut(t, boundary, e, d + more, x, k);
      ImagesAfterRound(d, CloseDelimiter(boundary), head + (d + more), found, Some(|t.start| + k),
                       PartUpTo(head + (d + more), Some(|t.start| + k)), (head + (d + more))[|t.start| + k + |d|..]);
    } else {
      EntryOfAnyName(t, e, "-");
      CutAtDelimiter(head, d, more);
      ImagesAfterRound(d, CloseDelimiter(boundary), head + (d + more), found, Some(|head|), head + "-", more);
      SeenName(e);
    }
  }

  lemma SeenName(e: Part)
    ensures Seen(e).name == e.name
  {
  }

  lemma CloseHasNoDelimiter(boundary: string)
    requires BoundaryFit(boundary)
    ensures Find(CloseDelimiter(boundary), Delimiter(boundary), 0) == None
    ensures Find(CloseDelimiter(boundary), CloseDelimiter(boundary), 0) == Some(0)
  {
    hide Find;
    var x, close := "--" + boundary, CloseDelimiter(boundary);
    CloseLineClash(boundary);
    assert close + "" == close;
    FindLineEnd(x + "--", "", x);
    NothingToFind(Delimiter(boundary));
    FindPrefix(close, "");
  }

  /** The splitting of the last part. */
  lemma AnyLastPart(t: Template, boundary: string, e: Part, found: map<string, string>)
    requires TemplateOk(t) && BoundaryFit(boundary) && Unquoted(e)
    ensures ImagesAfter(Delimiter(boundary), CloseDelimiter(boundary),
                        Lines(PartLines(t, e)) + CloseDelimiter(boundary), found) ==
            if Contains(e.name, Delimiter(boundary)) || Contains(e.name, CloseDelimiter(boundary)) then None
            else Some(found[e.name := Seen(e).content])
  {
    hide Find, EntryIn, ImagesAfter, TemplateOk, Lines, PartLines, Seen;
    var d, close, head, x := Delimiter(boundary), CloseDelimiter(boundary), Lines(PartLines(t, e)), "--" + boundary;
    var text := head + close;
    FindMark(t, boundary, e, close, x);
    FindMark(t, boundary, e, close, x + "--");
    CloseHasNoDelimiter(boundary);
    if Contains(e.name, d) {
      var k := Find(e.name, d, 0).value;
      NameCut(t, boundary, e, close, x, k);
      ImagesAfterRound(d, close, text, found, Some(|t.start| + k), PartUpTo(text, Some(|t.start| + k)),
                       text[|t.start| + k + |d|..]);
    } else if Contains(e.name, close) {
      var k := Find(e.name, close, 0).value;
      NameCut(t, boundary, e, close, x + "--", k);
      ImagesAfterRound(d, close, text, found, None, PartUpTo(text, Some(|t.start| + k)), "");
    } else {
      EntryOfAnyName(t, e, "-");
      assert text[..|head| + 1] == head + "-";
      ImagesAfterRound(d, close, text, found, None, head + "-", "");
      SeenName(e);
    }
  }

  predicate AllUnquoted(entries: seq<Part>) {
    forall i :: 0 <= i < |entries| ==> Unquoted(entries[i])
  }

  lemma {:induction false} ImagesAfterAnyNames(t: Template, boundary: string, entries: seq<Part>,
                                               found: map<string, string>)
    requires TemplateOk(t) && BoundaryFit(boundary) && entries != [] && AllUnquoted(entries)
    ensures ImagesAfter(Delimiter(boundary), CloseDelimiter(boundary), AfterDelimiter(t, boundary, entries), found) ==
            if Undivided(boundary, entries) then Some(FileMap(found, SeenAll(entries))) else None
    decreases |entries|
  {
    hide Find, EntryIn, ImagesAfter, TemplateOk, Lines, PartLines, Seen, Unquoted, BoundaryFit, Undivided,
         AfterDelimiter, FileMap, SeenAll;
    var e, rest := entries[0], entries[1..];
    FirstUndivided(boundary, entries);
    SeenFirst(entries, found);
    if rest == [] {
      LastText(t, boundary, entries);
      AnyLastPart(t, boundary, e, found);
    } else {
      FirstText(t, boundary, entries);
      assert AllUnquoted(rest);
      AnyPartThenDelimiter(t, boundary, e, AfterDelimiter(t, boundary, rest), found);
      ImagesAfterAnyNames(t, boundary, rest, found[e.name := Seen(e).content]);
    }
  }

  lemma LastText(t: Template, boundary: string, entries: seq<Part>)
    requires |entries| == 1
    ensures AfterDelimiter(t, boundary, entries) == Lines(PartLines(t, entries[0])) + CloseDelimiter(boundary)
  {
    hide Lines, PartLines;
    CloseText(boundary);
  }

  lemma FirstText(t: Template, boundary: string, entries: seq<Part>)
    requires |entries| > 1
    ensures AfterDelimiter(t, boundary, entries) ==
            Lines(PartLines(t, entries[0])) + (Delimiter(boundary) + AfterDelimiter(t, boundary, entries[1..]))
  {
    hide Lines, PartLines, BodyLines;
    BodyFirst(t, boundary, entries[1..]);
  }

  lemma FirstUndivided(boundary: string, entries: seq<Part>)
    requires entries != []
    ensures |entries| == 1 ==>
      (Undivided(boundary, entries) <==>
       !Contains(entries[0].name, Delimiter(boundary)) && !Contains(entries[0].name, CloseDelimiter(boundary)))
    ensures |entries| > 1 ==>
      (Undivided(boundary, entries) <==>
       !Contains(entries[0].name, Delimiter(boundary)) && Undivided(boundary, entries[1..]))
  {
    hide Contains;
    var rest := entries[1..];
    assert forall i :: 1 <= i < |entries| ==> entries[i] == rest[i - 1];
  }

  lemma SeenFirst(entries: seq<Part>, found: map<string, string>)
    requires entries != []
    ensures var e := entries[0];
      FileMap(found, SeenAll(entries)) == FileMap(found[e.name := Seen(e).content], SeenAll(entries[1..]))
    ensures FileMap(found, SeenAll([])) == found
    ensures |entries| == 1 ==> entries[1..] == []
    ensures FileMap(found[entries[0].name := Seen(entries[0]).content], SeenAll([])) ==
            found[entries[0].name := Seen(entries[0]).content]
  {
    assert SeenAll(entries)[1..] == SeenAll(entries[1..]);
  }

  /**
   * Splitting a body whose names have no quotes, whatever else is in them: every entry is read as it is
   * seen, if no name contains a delimiter, nor the last one a closing delimiter; otherwise nothing is.
   */
  lemma SplittingAnyNames(t: Template, boundary: string, entries: seq<Part>)
    requires TemplateOk(t) && BoundaryFit(boundary) && entries != [] && AllUnquoted(entries)
    ensures ImagesIn(boundary, Lines(BodyLines(t, boundary, entries))) ==
            if Undivided(boundary, entries) then Some(FileMap(map[], SeenAll(entries))) else None
  {
    hide Find, EntryIn, ImagesAfter, Lines, AfterDelimiter, BodyLines;
    var d, after := Delimiter(boundary), AfterDelimiter(t, boundary, entries);
    BodyFirst(t, boundary, entries);
    FindPrefix(d, after);
    assert (d + after)[|d|..] == after;
    ImagesAfterAnyNames(t, boundary, entries, map[]);
  }

  // ---------------------------------------------------------------------------------------------
  // Names with quotes never come back
  // ---------------------------------------------------------------------------------------------

  lemma FilenameHasNoQuote(part: string)
    ensures FilenameIn(part).Some? ==> Free(FilenameIn(part).value, '"')
  {
    hide Find;
    var start := Find(part, FILENAME, 0);
    if start.Some? {
      var k := start.value + |FILENAME|;
      FindFirst(part, QUOTE, k);
      forall j | k <= j < |part| && part[j] == '"'
        ensures OccursAt(part, QUOTE, j)
      {
        assert part[j..j + 1] == QUOTE;
      }
    }
  }

  predicate KeysFree(found: map<string, string>) {
    forall name :: name in found ==> Free(name, '"')
  }

  lemma {:induction false} ImagesAfterKeysFree(delimiter: string, close: string, text: string,
                                               found: map<string, string>)
    requires delimiter != "" && KeysFree(found)
    ensures var r := ImagesAfter(delimiter, close, text, found); r.Some? ==> KeysFree(r.value)
    decreases |text|
  {
    hide Find, FilenameIn, ImageIn;
    var next := Find(text, delimiter, 0);
    var part := PartUpTo(text, if next.Some? then next else Find(text, close, 0));
    FilenameHasNoQuote(part);
    if next.Some? && EntryIn(part).Some? {
      var e := EntryIn(part).value;
      ImagesAfterKeysFree(delimiter, close, text[next.value + |delimiter|..], found[e.name := e.content]);
    }
  }

  /** Whatever is split, no name that is found has a quote. */
  lemma ImagesKeysFree(boundary: string, text: string)
    ensures ImagesIn(boundary, text).Some? ==> KeysFree(ImagesIn(boundary, text).value)
  {
    hide Find, ImagesAfter;
    var d := Delimiter(boundary);
    var first := Find(text, d, 0);
    if first.Some? {
      ImagesAfterKeysFree(d, CloseDelimiter(boundary), text[first.value + |d|..], map[]);
    }
  }
}
