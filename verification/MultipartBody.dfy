/** Multipart bodies as the client writes them, and exactly when splitting gives their files back. */
module MultipartBody {
  import opened Text
  import opened Multipart

  // ---------------------------------------------------------------------------------------------
  // Bodies
  // ---------------------------------------------------------------------------------------------

  /** The fixed text of a part: the header line up to the file name, and the second header line. */
  datatype Template = Template(start: string, kind: string)

  function NameLine(t: Template, name: string): string {
    t.start + name + "\""
  }

  function PartLines(t: Template, e: Part): seq<string> {
    [NameLine(t, e.name), t.kind, "", e.content]
  }

  function BodyLines(t: Template, boundary: string, entries: seq<Part>): seq<string> {
    if entries == [] then ["--" + boundary + "--"]
    else ["--" + boundary] + PartLines(t, entries[0]) + BodyLines(t, boundary, entries[1..])
  }

  /** The files under their names; of several files with one name, the last. */
  function FileMap<T>(found: map<string, T>, entries: seq<Entry<T>>): map<string, T>
    decreases |entries|
  {
    if entries == [] then found else FileMap(found[entries[0].name := entries[0].content], entries[1..])
  }

  lemma {:induction false} FileMapLastWins<T>(found: map<string, T>, entries: seq<Entry<T>>, name: string)
    ensures name in FileMap(found, entries)
            <==> name in found || exists i :: 0 <= i < |entries| && entries[i].name == name
    ensures forall i :: 0 <= i < |entries| && entries[i].name == name
                        && (forall j :: i < j < |entries| ==> entries[j].name != name)
                        ==> FileMap(found, entries)[name] == entries[i].content
    ensures (forall i :: 0 <= i < |entries| ==> entries[i].name != name) && name in found
            ==> FileMap(found, entries)[name] == found[name]
    decreases |entries|
  {
    if entries != [] {
      var rest := entries[1..];
      FileMapLastWins(found[entries[0].name := entries[0].content], rest, name);
      assert forall i :: 0 <= i < |rest| ==> rest[i] == entries[i + 1];
      assert forall i :: 1 <= i < |entries| ==> entries[i] == rest[i - 1];
    }
  }

  // ---------------------------------------------------------------------------------------------
  // What bodies are made of
  // ---------------------------------------------------------------------------------------------

  predicate Free(s: string, c: char) {
    forall i :: 0 <= i < |s| ==> s[i] != c
  }

  predicate AllDashes(s: string) {
    forall i :: 0 <= i < |s| ==> s[i] == '-'
  }

  /** `filename="` ends the first header line, and the second has no two dashes at its end. */
  predicate TemplateOk(t: Template) {
    && IsLine(t.start) && |t.start| >= 10 && OccursAt(t.start, FILENAME, |t.start| - 10)
    && (forall j: nat :: j < |t.start| - 10 ==> !OccursAt(t.start, FILENAME, j))
    && IsLine(t.kind) && |t.kind| >= 2
    && (forall i :: 0 <= i < |t.kind| - 1 ==> t.kind[i] != '-' || t.kind[i + 1] != '-')
    && t.kind[|t.kind| - 1] != '-'
  }

  /** A name and a content that each fit on a line, and a content without dashes. */
  predicate EntryOk(e: Part) {
    IsLine(e.name) && IsLine(e.content) && Free(e.content, '-')
  }

  /** A name up to its first quote. */
  function Clip(name: string): (r: string)
    ensures r <= name && Free(r, '"') && (r == name || name[|r|] == '"')
  {
    if name == "" || name[0] == '"' then "" else [name[0]] + Clip(name[1..])
  }

  function Clipped<T>(entries: seq<Entry<T>>): seq<Entry<T>> {
    if entries == [] then []
    else [Entry(Clip(entries[0].name), entries[0].content)] + Clipped(entries[1..])
  }

  predicate EntriesOk(entries: seq<Part>) {
    forall i :: 0 <= i < |entries| ==> EntryOk(entries[i])
  }

  /** The header line with this name ends like a delimiter line. */
  predicate NameClash(t: Template, boundary: string, e: Part) {
    HasSuffix(NameLine(t, e.name), "--" + boundary)
  }

  // ---------------------------------------------------------------------------------------------
  // One part
  // ---------------------------------------------------------------------------------------------

  lemma FilenameOfPart(t: Template, name: string, more: string)
    requires TemplateOk(t)
    ensures FilenameIn(NameLine(t, name) + more) == Some(Clip(name))
  {
    hide Find, Clip;
    var s, n := NameLine(t, name) + more, |t.start|;
    assert s[n..] == name + "\"" + more;
    assert s[n - 10..n] == t.start[n - 10..n];
    forall j: nat | j < n - 10
      ensures !OccursAt(s, FILENAME, j)
    {
      assert s[j..j + 10] == t.start[j..j + 10];
      assert !OccursAt(t.start, FILENAME, j);
    }
    FoundAt(s, FILENAME, n - 10);
    FindQuote(name, more);
    FindFrom(s, QUOTE, n);
    var k := |Clip(name)|;
    assert s[n..n + k] == (name + "\"" + more)[..k] == name[..k] == Clip(name);
  }

  lemma FindQuote(name: string, more: string)
    ensures Find(name + "\"" + more, QUOTE, 0) == Some(|Clip(name)|)
  {
    hide Find, Clip;
    var s, n := name + "\"" + more, |Clip(name)|;
    assert s[n] == '"';
    assert s[n..n + 1] == QUOTE;
    forall j: nat | j < n
      ensures !OccursAt(s, QUOTE, j)
    {
      assert s[j] == name[j] == Clip(name)[j];
      Differs(s, QUOTE, j, 0);
    }
    FoundAt(s, QUOTE, n);
  }

  lemma ImageOfPart(first: string, second: string, content: string, more: string)
    requires IsLine(first) && IsLine(second) && second != "" && IsLine(content)
    ensures ImageIn(first + CRLF + (second + CRLF + (CRLF + (content + CRLF + more)))) == Some(content)
  {
    hide Find;
    var tail := content + CRLF + more;
    var lower := second + CRLF + (CRLF + tail);
    var s := first + CRLF + lower;
    var i := |first| + 2 + |second|;
    FindBlankLine(second, tail);
    SkipLine(first, lower);
    assert Find(s, BLANK_LINE, 0) == Some(i);
    assert s[i + 4..] == tail;
    FindCrlf(content, more);
    FindFrom(s, CRLF, i + 4);
    assert s[i + 4..i + 4 + |content|] == content;
  }

  lemma PartText(t: Template, e: Part, more: string)
    ensures Lines(PartLines(t, e)) + more ==
            NameLine(t, e.name) + CRLF + (t.kind + CRLF + (CRLF + (e.content + CRLF + more)))
  {
    var ls := PartLines(t, e);
    assert ls[1..] == [t.kind, "", e.content] && ls[1..][1..] == ["", e.content];
    assert ls[1..][1..][1..] == [e.content];
    LinesFirst(ls, more);
    LinesFirst(ls[1..], more);
    LinesFirst(["", e.content], more);
    LinesFirst([e.content], more);
    assert "" + CRLF == CRLF;
    assert Lines([]) + more == more;
  }

  /** What follows a part in the body does not change what is read from it. */
  lemma EntryOfPart(t: Template, e: Part, more: string)
    requires TemplateOk(t) && EntryOk(e)
    ensures EntryIn(Lines(PartLines(t, e)) + more) == Some(Entry(Clip(e.name), e.content))
  {
    hide Find, FilenameIn, ImageIn;
    var line := NameLine(t, e.name);
    var rest := t.kind + CRLF + (CRLF + (e.content + CRLF + more));
    PartText(t, e, more);
    NameLineIsLine(t, e.name);
    ThreeParts(line, CRLF, rest);
    FilenameOfPart(t, e.name, CRLF + rest);
    ImageOfPart(line, t.kind, e.content, more);
  }

  lemma NameLineIsLine(t: Template, name: string)
    requires TemplateOk(t) && IsLine(name)
    ensures IsLine(NameLine(t, name))
  {
  }

  /** A text without a line end has no content. */
  lemma NoEntryInLine(s: string)
    requires IsLine(s)
    ensures EntryIn(s) == None
  {
    hide Find;
    forall j: nat
      ensures !OccursAt(s, BLANK_LINE, j)
    {
      if j < |s| {
        Differs(s, BLANK_LINE, j, 0);
      }
    }
    FindFirst(s, BLANK_LINE, 0);
  }

  // ---------------------------------------------------------------------------------------------
  // The whole body
  // ---------------------------------------------------------------------------------------------

  /** What a caller can check beforehand: no line of the body but the delimiters ends like one. */
  predicate Separable(t: Template, boundary: string, entries: seq<Part>) {
    !AllDashes(boundary) && forall i :: 0 <= i < |entries| ==> !NameClash(t, boundary, entries[i])
  }

  /** The body after its first delimiter line. */
  function AfterDelimiter(t: Template, boundary: string, entries: seq<Part>): string
    requires entries != []
  {
    Lines(PartLines(t, entries[0])) + Lines(BodyLines(t, boundary, entries[1..]))
  }

  lemma BodyFirst(t: Template, boundary: string, entries: seq<Part>)
    requires entries != []
    ensures Lines(BodyLines(t, boundary, entries)) ==
            "--" + boundary + CRLF + AfterDelimiter(t, boundary, entries)
  {
    var x, parts, rest := "--" + boundary, PartLines(t, entries[0]), BodyLines(t, boundary, entries[1..]);
    LinesConcat([x] + parts, rest);
    LinesConcat([x], parts);
    assert Lines([x]) == x + CRLF + "" == x + CRLF;
    ThreeParts(x + CRLF, Lines(parts), Lines(rest));
  }

  /** The word equation behind the closing delimiter: "--" before and after only agree for dashes. */
  lemma {:induction false} DashesCommute(boundary: string)
    ensures "--" + boundary == boundary + "--" <==> AllDashes(boundary)
    decreases |boundary|
  {
    var left, right := "--" + boundary, boundary + "--";
    if |boundary| >= 2 {
      var shorter := boundary[2..];
      DashesCommute(shorter);
      assert left == right ==> boundary[0] == left[0] && boundary[1] == left[1];
      assert boundary[0] == boundary[1] == '-' ==> boundary == "--" + shorter;
      assert left == right ==> left[2..] == right[2..];
      assert right[2..] == shorter + "--";
    } else if |boundary| == 1 {
      assert left[0] == '-' && right[0] == boundary[0];
    } else {
      assert boundary == "";
    }
  }

  lemma CloseLineClash(boundary: string)
    ensures HasSuffix("--" + boundary + "--", "--" + boundary) <==> AllDashes(boundary)
  {
    DashesCommute(boundary);
    var s := "--" + boundary + "--";
    assert s[2..] == boundary + "--";
  }

  /** The lines of a part other than the first one never end like a delimiter. */
  lemma PartLinesSafe(t: Template, boundary: string, e: Part, x: string)
    requires TemplateOk(t) && EntryOk(e) && IsLine(boundary)
    requires (x == "--" + boundary && !HasSuffix(NameLine(t, e.name), x)) || x == "--" + boundary + "--"
    ensures IsLine(x) && x != ""
    ensures forall i :: 0 <= i < 4 ==> IsLine(PartLines(t, e)[i]) && !HasSuffix(PartLines(t, e)[i], x)
  {
    NameLineIsLine(t, e.name);
    SuffixEnd(NameLine(t, e.name), x);
    KindSafe(t, x);
    SuffixStart(e.content, x);
  }

  lemma SuffixEnd(s: string, x: string)
    requires s != "" && x != ""
    ensures HasSuffix(s, x) ==> s[|s| - 1] == x[|x| - 1]
  {
    if HasSuffix(s, x) {
      assert s[|s| - |x|..][|x| - 1] == s[|s| - 1];
    }
  }

  lemma SuffixStart(s: string, x: string)
    requires Free(s, '-') && |x| >= 2 && x[0] == '-'
    ensures !HasSuffix(s, x)
  {
    if |x| <= |s| {
      assert s[|s| - |x|..][0] == s[|s| - |x|];
    }
  }

  lemma KindSafe(t: Template, x: string)
    requires TemplateOk(t) && |x| >= 2 && x[0] == x[1] == '-'
    ensures !HasSuffix(t.kind, x)
  {
    if |x| <= |t.kind| {
      var k := |t.kind| - |x|;
      assert t.kind[k..][0] == t.kind[k] && t.kind[k..][1] == t.kind[k + 1];
    }
  }

  /** A file name that makes its line end like a delimiter: the part is cut there and has no content. */
  lemma ClashFails(t: Template, boundary: string, e: Part, more: string, found: map<string, string>)
    requires TemplateOk(t) && EntryOk(e) && IsLine(boundary) && NameClash(t, boundary, e)
    ensures ImagesAfter(Delimiter(boundary), CloseDelimiter(boundary), Lines(PartLines(t, e)) + more, found) == None
  {
    hide Find, EntryIn;
    var line, x := NameLine(t, e.name), "--" + boundary;
    var rest := t.kind + CRLF + (CRLF + (e.content + CRLF + more));
    var text := line + CRLF + rest;
    PartText(t, e, more);
    NameLineIsLine(t, e.name);
    FindLineEnd(line, rest, x);
    var k := |line| - |x|;
    assert text[..k + 1] == line[..k + 1];
    NoEntryInLine(text[..k + 1]);
  }

  /** A part before another one: the part is read, and the rest of the body remains. */
  lemma PartThenDelimiter(t: Template, boundary: string, e: Part, more: string, found: map<string, string>)
    requires TemplateOk(t) && EntryOk(e) && IsLine(boundary) && !NameClash(t, boundary, e)
    ensures ImagesAfter(Delimiter(boundary), CloseDelimiter(boundary),
                        Lines(PartLines(t, e)) + (Delimiter(boundary) + more), found) ==
            ImagesAfter(Delimiter(boundary), CloseDelimiter(boundary), more, found[Clip(e.name) := e.content])
  {
    hide Find, EntryIn, ImagesAfter;
    var d, head := Delimiter(boundary), Lines(PartLines(t, e));
    PartLinesSafe(t, boundary, e, "--" + boundary);
    FindAfterLines(PartLines(t, e), d + more, "--" + boundary);
    FindPrefix(d, more);
    EntryOfPart(t, e, "-");
    CutAtDelimiter(head, d, more);
    ImagesAfterRound(d, CloseDelimiter(boundary), head + (d + more), found, Some(|head|), head + "-", more);
  }

  lemma CutAtDelimiter(head: string, d: string, more: string)
    requires d != "" && d[0] == '-'
    ensures var text := head + (d + more);
      |head| < |text| && text[0..|head| + 1] == head + "-" && text[|head| + |d|..] == more
  {
  }

  lemma FindPrefix(p: string, more: string)
    ensures Find(p + more, p, 0) == Some(0)
  {
    assert (p + more)[0..|p|] == p;
  }

  lemma NothingToFind(p: string)
    requires p != ""
    ensures Find("", p, 0) == None
  {
  }

  /** The last part, before the closing delimiter. */
  lemma LastPart(t: Template, boundary: string, e: Part, found: map<string, string>)
    requires TemplateOk(t) && EntryOk(e) && IsLine(boundary) && !NameClash(t, boundary, e) && !AllDashes(boundary)
    ensures ImagesAfter(Delimiter(boundary), CloseDelimiter(boundary),
                        Lines(PartLines(t, e)) + CloseDelimiter(boundary), found) ==
            Some(found[Clip(e.name) := e.content])
  {
    hide Find, EntryIn, ImagesAfter, Lines, EntryOk;
    var d, close, head := Delimiter(boundary), CloseDelimiter(boundary), Lines(PartLines(t, e));
    var x := "--" + boundary;
    var text := head + close;
    PartLinesSafe(t, boundary, e, x);
    PartLinesSafe(t, boundary, e, x + "--");
    FindAfterLines(PartLines(t, e), close, x);
    FindAfterLines(PartLines(t, e), close, x + "--");
    CloseLineClash(boundary);
    assert close + "" == close;
    FindLineEnd(x + "--", "", x);
    NothingToFind(d);
    FindPrefix(close, "");
    assert text[..|head| + 1] == head + "-";
    EntryOfPart(t, e, "-");
    ImagesAfterRound(d, close, text, found, None, head + "-", "");
  }

  /** With a boundary of dashes only, the closing delimiter is taken for one more delimiter. */
  lemma DashesFail(t: Template, boundary: string, e: Part, found: map<string, string>)
    requires TemplateOk(t) && EntryOk(e) && IsLine(boundary) && !NameClash(t, boundary, e) && AllDashes(boundary)
    ensures ImagesAfter(Delimiter(boundary), CloseDelimiter(boundary),
                        Lines(PartLines(t, e)) + CloseDelimiter(boundary), found) == None
  {
    hide Find, EntryIn;
    var d, close, head := Delimiter(boundary), CloseDelimiter(boundary), Lines(PartLines(t, e));
    var x := "--" + boundary;
    var text := head + close;
    PartLinesSafe(t, boundary, e, x);
    FindAfterLines(PartLines(t, e), close, x);
    CloseLineClash(boundary);
    assert close + "" == close;
    FindLineEnd(x + "--", "", x);
    assert Find(text, d, 0) == Some(|head| + 2);
    assert text[|head| + 2 + |d|..] == "";
    NothingToFind(d);
    NothingToFind(close);
    NoEntryInLine("");
  }

  lemma {:induction false} ImagesAfterBody(t: Template, boundary: string, entries: seq<Part>,
                                           found: map<string, string>)
    requires TemplateOk(t) && IsLine(boundary) && entries != [] && EntriesOk(entries)
    ensures ImagesAfter(Delimiter(boundary), CloseDelimiter(boundary), AfterDelimiter(t, boundary, entries), found) ==
            if Separable(t, boundary, entries) then Some(FileMap(found, Clipped(entries))) else None
    decreases |entries|
  {
    hide Find, EntryIn, ImagesAfter;
    var e, rest := entries[0], entries[1..];
    assert forall i :: 1 <= i < |entries| ==> entries[i] == rest[i - 1];
    if NameClash(t, boundary, e) {
      ClashFails(t, boundary, e, Lines(BodyLines(t, boundary, rest)), found);
    } else if rest == [] {
      CloseText(boundary);
      if AllDashes(boundary) {
        DashesFail(t, boundary, e, found);
      } else {
        LastPart(t, boundary, e, found);
      }
    } else {
      BodyFirst(t, boundary, rest);
      PartThenDelimiter(t, boundary, e, AfterDelimiter(t, boundary, rest), found);
      ImagesAfterBody(t, boundary, rest, found[Clip(e.name) := e.content]);
      assert Separable(t, boundary, entries) <==> Separable(t, boundary, rest);
    }
  }

  lemma CloseText(boundary: string)
    ensures Lines(["--" + boundary + "--"]) == CloseDelimiter(boundary)
  {
    assert CloseDelimiter(boundary) + "" == CloseDelimiter(boundary);
  }

  /**
   * Splitting a body written for at least one file gives exactly its files, under their names up to
   * a quote, if the body is separable, and nothing at all otherwise.
   */
  lemma SplittingExact(t: Template, boundary: string, entries: seq<Part>)
    requires TemplateOk(t) && IsLine(boundary) && entries != [] && EntriesOk(entries)
    ensures ImagesIn(boundary, Lines(BodyLines(t, boundary, entries))) ==
            if Separable(t, boundary, entries) then Some(FileMap(map[], Clipped(entries))) else None
  {
    hide Find, EntryIn, ImagesAfter;
    var d, after := Delimiter(boundary), AfterDelimiter(t, boundary, entries);
    BodyFirst(t, boundary, entries);
    FindPrefix(d, after);
    assert (d + after)[|d|..] == after;
    ImagesAfterBody(t, boundary, entries, map[]);
  }

  lemma {:induction false} ClippedNames<T>(entries: seq<Entry<T>>)
    ensures |Clipped(entries)| == |entries|
    ensures forall i :: 0 <= i < |entries| ==>
              Clipped(entries)[i] == Entry(Clip(entries[i].name), entries[i].content)
    ensures (forall i :: 0 <= i < |entries| ==> Free(entries[i].name, '"')) ==> Clipped(entries) == entries
  {
    if entries != [] {
      ClippedNames(entries[1..]);
      assert Free(entries[0].name, '"') ==> Clip(entries[0].name) == entries[0].name;
      assert entries == [entries[0]] + entries[1..];
    }
  }

  /** Clipping changes the map of the files exactly if some name has a quote. */
  lemma ClippingExact<T>(entries: seq<Entry<T>>)
    ensures FileMap(map[], Clipped(entries)) == FileMap(map[], entries)
            <==> forall i :: 0 <= i < |entries| ==> Free(entries[i].name, '"')
  {
    ClippedNames(entries);
    if FileMap(map[], Clipped(entries)) == FileMap(map[], entries) {
      forall i | 0 <= i < |entries|
        ensures Free(entries[i].name, '"')
      {
        FileMapLastWins(map[], entries, entries[i].name);
        FileMapLastWins(map[], Clipped(entries), entries[i].name);
      }
    }
  }

  /**
   * Splitting is exact: from a body written for at least one file, the request handler gets exactly
   * the files written if and only if the body is separable and no name has a quote.
   */
  lemma SplittingGivesFiles(t: Template, boundary: string, entries: seq<Part>)
    requires TemplateOk(t) && IsLine(boundary) && entries != [] && EntriesOk(entries)
    ensures ImagesIn(boundary, Lines(BodyLines(t, boundary, entries))) == Some(FileMap(map[], entries))
            <==> Separable(t, boundary, entries) && forall i :: 0 <= i < |entries| ==> Free(entries[i].name, '"')
  {
    hide ImagesIn, FileMap, Clipped;
    SplittingExact(t, boundary, entries);
    ClippingExact(entries);
  }

  // ---------------------------------------------------------------------------------------------
  // Bodies whose closing delimiter is missing or cut
  // ---------------------------------------------------------------------------------------------

  /** A body after its first delimiter line, with this instead of the closing delimiter. */
  function OpenText(t: Template, boundary: string, entries: seq<Part>, tail: string): string
    requires entries != []
  {
    Lines(PartLines(t, entries[0]))
    + (if |entries| == 1 then tail else Delimiter(boundary) + OpenText(t, boundary, entries[1..], tail))
  }

  lemma NoLineEndInLine(tail: string, x: string)
    requires IsLine(tail)
    ensures Find(tail, x + CRLF, 0) == None
  {
    hide Find;
    forall j: nat
      ensures !OccursAt(tail, x + CRLF, j)
    {
      if j + |x| < |tail| {
        assert (x + CRLF)[|x|] == '\r';
        Differs(tail, x + CRLF, j, |x|);
      }
    }
    FindFirst(tail, x + CRLF, 0);
  }

  lemma LastPartOpen(t: Template, boundary: string, e: Part, tail: string, found: map<string, string>)
    requires TemplateOk(t) && EntryOk(e) && IsLine(boundary) && !NameClash(t, boundary, e) && IsLine(tail)
    ensures ImagesAfter(Delimiter(boundary), CloseDelimiter(boundary), Lines(PartLines(t, e)) + tail, found) ==
            Some(found[Clip(e.name) := e.content])
  {
    hide Find, EntryIn, ImagesAfter, Lines, EntryOk, TemplateOk;
    var x, head := "--" + boundary, Lines(PartLines(t, e));
    PartLinesSafe(t, boundary, e, x);
    PartLinesSafe(t, boundary, e, x + "--");
    FindAfterLines(PartLines(t, e), tail, x);
    FindAfterLines(PartLines(t, e), tail, x + "--");
    NoLineEndInLine(tail, x);
    NoLineEndInLine(tail, x + "--");
    EntryOfPart(t, e, tail);
    ImagesAfterRound(Delimiter(boundary), CloseDelimiter(boundary), head + tail, found, None, head + tail, "");
  }

  lemma {:induction false} OpenParts(t: Template, boundary: string, entries: seq<Part>, tail: string,
                                     found: map<string, string>)
    requires TemplateOk(t) && IsLine(boundary) && entries != [] && EntriesOk(entries) && IsLine(tail)
    requires forall i :: 0 <= i < |entries| ==> !NameClash(t, boundary, entries[i])
    ensures ImagesAfter(Delimiter(boundary), CloseDelimiter(boundary), OpenText(t, boundary, entries, tail), found) ==
            Some(FileMap(found, Clipped(entries)))
    decreases |entries|
  {
    hide Find, EntryIn, ImagesAfter, Lines, EntryOk, TemplateOk, NameClash, Clip;
    var e, rest := entries[0], entries[1..];
    if rest == [] {
      LastPartOpen(t, boundary, e, tail, found);
    } else {
      PartThenDelimiter(t, boundary, e, OpenText(t, boundary, rest, tail), found);
      OpenParts(t, boundary, rest, tail, found[Clip(e.name) := e.content]);
    }
  }

  /**
   * The closing delimiter is not needed: if the body ends after its last part, or anywhere in the line
   * that follows it, the files are read all the same, and then even under a boundary of dashes only.
   */
  lemma OpenBodyAccepted(t: Template, boundary: string, entries: seq<Part>, tail: string)
    requires TemplateOk(t) && IsLine(boundary) && entries != [] && EntriesOk(entries) && IsLine(tail)
    requires forall i :: 0 <= i < |entries| ==> !NameClash(t, boundary, entries[i])
    ensures ImagesIn(boundary, Delimiter(boundary) + OpenText(t, boundary, entries, tail)) ==
            Some(FileMap(map[], Clipped(entries)))
  {
    hide Find, EntryIn, ImagesAfter, OpenText, FileMap, Clipped, TemplateOk, NameClash;
    var d, after := Delimiter(boundary), OpenText(t, boundary, entries, tail);
    FindPrefix(d, after);
    assert (d + after)[|d|..] == after;
    OpenParts(t, boundary, entries, tail, map[]);
  }

  /** A body without files has none, whatever the boundary. */
  lemma EmptyBody(t: Template, boundary: string)
    requires IsLine(boundary)
    ensures ImagesIn(boundary, Lines(BodyLines(t, boundary, []))) == None
  {
    hide Find, EntryIn;
    var x, close, d := "--" + boundary, CloseDelimiter(boundary), Delimiter(boundary);
    CloseText(boundary);
    assert close + "" == close;
    FindLineEnd(x + "--", "", x);
    NothingToFind(d);
    NothingToFind(close);
    NoEntryInLine("");
    assert HasSuffix(x + "--", x) ==> close[2 + |d|..] == "";
  }

  /** A boundary that neither consists of dashes nor ends in a quote separates any files. */
  lemma SeparableBoundary(t: Template, boundary: string, entries: seq<Part>)
    requires !AllDashes(boundary) && boundary[|boundary| - 1] != '"'
    ensures Separable(t, boundary, entries)
  {
    forall i | 0 <= i < |entries|
      ensures !NameClash(t, boundary, entries[i])
    {
      SuffixEnd(NameLine(t, entries[i].name), "--" + boundary);
    }
  }

  // ---------------------------------------------------------------------------------------------
  // The boundary parameter
  // ---------------------------------------------------------------------------------------------

  /** The text of a Content-Type header up to the boundary. */
  predicate IsBoundaryPrefix(prefix: string) {
    && |prefix| >= 9 && OccursAt(prefix, "boundary=", |prefix| - 9)
    && forall j: nat :: j < |prefix| - 9 ==> !OccursAt(prefix, "boundary=", j)
  }

  lemma {:induction false} FirstStopShift(s: string, k: nat, from: nat)
    requires k + from <= |s|
    ensures FirstStop(s, k + from) == k + FirstStop(s[k..], from)
    decreases |s| - from
  {
    if k + from < |s| && !IsStop(s[k + from]) {
      FirstStopShift(s, k, from + 1);
    }
  }

  /** The handler reads the boundary up to and including the first of the letters "/r ;". */
  lemma BoundaryRead(prefix: string, rest: string)
    requires IsBoundaryPrefix(prefix)
    ensures BoundaryIn(prefix + rest) == Some(Through(rest, 0, FirstStop(rest, 0)))
  {
    hide Find;
    var s, n := prefix + rest, |prefix|;
    assert s[n - 9..n] == prefix[n - 9..n];
    forall j: nat | j < n - 9
      ensures !OccursAt(s, "boundary=", j)
    {
      assert s[j..j + 9] == prefix[j..j + 9];
      assert !OccursAt(prefix, "boundary=", j);
    }
    FoundAt(s, "boundary=", n - 9);
    assert s[n..] == rest;
    FirstStopShift(s, n, 0);
    var end := FirstStop(rest, 0);
    assert Through(s, n, n + end) == Through(rest, 0, end);
  }

  /** A boundary at the end of the header is read exactly if no letter but its last is one of "/r ;". */
  lemma BoundaryExact(prefix: string, boundary: string)
    requires IsBoundaryPrefix(prefix)
    ensures BoundaryIn(prefix + boundary) == Some(boundary)
            <==> forall i :: 0 <= i < |boundary| - 1 ==> !IsStop(boundary[i])
  {
    BoundaryRead(prefix, boundary);
    var end := FirstStop(boundary, 0);
    if end < |boundary| - 1 {
      assert |Through(boundary, 0, end)| < |boundary|;
    } else {
      assert Through(boundary, 0, end) == boundary[0..|boundary|] == boundary;
    }
  }

  /** When another parameter follows, the separator becomes part of the boundary. */
  lemma BoundaryBeforeParameter(prefix: string, boundary: string, parameters: string)
    requires IsBoundaryPrefix(prefix) && forall i :: 0 <= i < |boundary| ==> !IsStop(boundary[i])
    ensures BoundaryIn(prefix + (boundary + ";" + parameters)) == Some(boundary + ";")
  {
    var rest := boundary + ";" + parameters;
    BoundaryRead(prefix, rest);
    assert rest[|boundary|] == ';';
    assert forall i :: 0 <= i < |boundary| ==> rest[i] == boundary[i];
    assert FirstStop(rest, 0) == |boundary|;
    assert rest[..|boundary| + 1] == boundary + ";";
  }

  /** Before another parameter, a boundary is read exactly if it ends in a stop character and has no other. */
  lemma BoundaryBeforeParameterExact(prefix: string, boundary: string, parameters: string)
    requires IsBoundaryPrefix(prefix)
    ensures BoundaryIn(prefix + (boundary + ";" + parameters)) == Some(boundary)
            <==> && boundary != "" && IsStop(boundary[|boundary| - 1])
                 && forall i :: 0 <= i < |boundary| - 1 ==> !IsStop(boundary[i])
  {
    var rest := boundary + ";" + parameters;
    BoundaryRead(prefix, rest);
    assert rest[|boundary|] == ';';
    assert forall i :: 0 <= i < |boundary| ==> rest[i] == boundary[i];
    var end := FirstStop(rest, 0);
    assert end <= |boundary|;
    assert rest[..|boundary|] == boundary;
  }

  /** No line of a body ends like the delimiter with the separator in it. */
  lemma {:induction false} NoLineWithSeparator(t: Template, boundary: string, entries: seq<Part>)
    requires TemplateOk(t) && IsLine(boundary) && EntriesOk(entries)
    ensures var x := "--" + (boundary + ";");
      forall i :: 0 <= i < |BodyLines(t, boundary, entries)| ==>
        IsLine(BodyLines(t, boundary, entries)[i]) && !HasSuffix(BodyLines(t, boundary, entries)[i], x)
    decreases |entries|
  {
    var x := "--" + (boundary + ";");
    if entries == [] {
      SuffixEnd("--" + boundary + "--", x);
    } else {
      SuffixEnd(NameLine(t, entries[0].name), x);
      PartLinesSafe(t, boundary + ";", entries[0], x);
      NoLineWithSeparator(t, boundary, entries[1..]);
    }
  }

  /**
   * A request whose boundary is followed by another parameter is refused: the boundary is read with
   * the separator, and no line of the body ends in that.
   */
  lemma ParameterRefuses(t: Template, prefix: string, boundary: string, parameters: string, entries: seq<Part>)
    requires IsBoundaryPrefix(prefix) && forall i :: 0 <= i < |boundary| ==> !IsStop(boundary[i])
    requires TemplateOk(t) && IsLine(boundary) && EntriesOk(entries)
    ensures BoundaryIn(prefix + (boundary + ";" + parameters)) == Some(boundary + ";")
    ensures ImagesIn(boundary + ";", Lines(BodyLines(t, boundary, entries))) == None
  {
    hide Find, EntryIn, ImagesAfter, BodyLines, Lines;
    BoundaryBeforeParameter(prefix, boundary, parameters);
    NoLineWithSeparator(t, boundary, entries);
    var lines, x := BodyLines(t, boundary, entries), "--" + (boundary + ";");
    FindAfterLines(lines, "", x);
    NothingToFind(x + CRLF);
    assert Lines(lines) + "" == Lines(lines);
  }
}
