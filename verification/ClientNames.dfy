/** Which file names the server can take at all: exactly when the client's request is accepted. */
module ClientNames {
  import opened Text
  import opened Decimal
  import opened Base64
  import opened RequestParser
  import opened RequestGrammar
  import opened RequestSoundness
  import opened Multipart
  import opened MultipartBody
  import opened Client
  import opened EndToEnd
  import opened AnyNames
  import opened LineBreaks
  import opened RequestHandler

  // ---------------------------------------------------------------------------------------------
  // Which bodies are framed
  // ---------------------------------------------------------------------------------------------

  /** Two texts meet without making a pair of a CR and an LF that are alone. */
  predicate Meet(a: string, b: string) {
    a == "" || b == "" || a[|a| - 1] != '\r' || b[0] != '\n'
  }

  lemma FramedLeft(a: string, b: string)
    requires Meet(a, b) && Framed(a + b)
    ensures Framed(a)
  {
    forall i | 0 <= i < |a|
      ensures PairedAt(a, i)
    {
      assert PairedAt(a + b, i);
      assert i + 1 < |a| ==> (a + b)[i + 1] == a[i + 1];
    }
  }

  lemma FramedRight(a: string, b: string)
    requires Meet(a, b) && Framed(a + b)
    ensures Framed(b)
  {
    forall i | 0 <= i < |b|
      ensures PairedAt(b, i)
    {
      assert PairedAt(a + b, |a| + i);
    }
  }

  lemma FramedBoth(a: string, b: string)
    requires Framed(a) && Framed(b)
    ensures Framed(a + b)
  {
    forall i | 0 <= i < |a + b|
      ensures PairedAt(a + b, i)
    {
      if i < |a| {
        assert PairedAt(a, i);
      } else {
        assert PairedAt(b, i - |a|);
      }
    }
  }

  lemma FramedConcat(a: string, b: string)
    requires Meet(a, b)
    ensures Framed(a + b) <==> Framed(a) && Framed(b)
  {
    if Framed(a + b) {
      FramedLeft(a, b);
      FramedRight(a, b);
    }
    if Framed(a) && Framed(b) {
      FramedBoth(a, b);
    }
  }

  /** The text of a part around its name. */
  function BeforeName(t: Template, boundary: string): string {
    "--" + boundary + CRLF + t.start
  }

  function AfterName(t: Template, content: string): string {
    "\"" + CRLF + (t.kind + CRLF + (CRLF + (content + CRLF)))
  }

  lemma {:induction false} BodyAroundNames(t: Template, boundary: string, entries: seq<Part>)
    requires entries != []
    ensures Lines(BodyLines(t, boundary, entries)) ==
            BeforeName(t, boundary) + (entries[0].name
            + (AfterName(t, entries[0].content) + Lines(BodyLines(t, boundary, entries[1..]))))
  {
    hide Lines, BodyLines;
    var e, rest := entries[0], BodyLines(t, boundary, entries[1..]);
    var l := PartLines(t, e);
    BodyOfFirst(t, boundary, entries);
    LinesConcat(["--" + boundary] + l, rest);
    PartOnLines("--" + boundary, l[0], l[1], l[3]);
    AroundName("--" + boundary, t.start, e.name, AfterName(t, e.content), t.kind, e.content, Lines(rest));
  }

  lemma BodyOfFirst(t: Template, boundary: string, entries: seq<Part>)
    requires entries != []
    ensures BodyLines(t, boundary, entries) ==
            ["--" + boundary] + PartLines(t, entries[0]) + BodyLines(t, boundary, entries[1..])
  {
  }

  lemma PartOnLines(a: string, b: string, c: string, e: string)
    ensures Lines([a] + [b, c, "", e]) == a + CRLF + (b + CRLF + (c + CRLF + (CRLF + (e + CRLF))))
  {
    hide Lines;
    assert [a] + [b, c, "", e] == [a] + ([b] + ([c] + ([""] + ([e] + []))));
    LinesOf(a, [b] + ([c] + ([""] + ([e] + []))));
    LinesOf(b, [c] + ([""] + ([e] + [])));
    LinesOf(c, [""] + ([e] + []));
    LinesOf("", [e] + []);
    LinesOf(e, []);
    NoLines();
    assert e + CRLF + "" == e + CRLF && "" + CRLF == CRLF;
  }

  lemma LinesOf(first: string, more: seq<string>)
    ensures Lines([first] + more) == first + CRLF + Lines(more)
  {
    assert ([first] + more)[1..] == more;
  }

  lemma AroundName(a: string, start: string, name: string, after: string, kind: string, content: string, rest: string)
    requires after == "\"" + CRLF + (kind + CRLF + (CRLF + (content + CRLF)))
    ensures a + CRLF + (start + name + "\"" + CRLF + (kind + CRLF + (CRLF + (content + CRLF)))) + rest ==
            a + CRLF + start + (name + (after + rest))
  {
    var x := kind + CRLF + (CRLF + (content + CRLF));
    assert start + name + "\"" + CRLF + x == start + name + ("\"" + CRLF + x);
  }

  lemma FixedTextFramed(t: Template, boundary: string, content: string)
    requires Printable(t.start) && Printable(t.kind) && Printable(boundary) && Printable(content)
    ensures Framed(BeforeName(t, boundary)) && Framed(AfterName(t, content))
  {
    hide Framed;
    PrintableFramed(t.start);
    PrintableFramed("");
    assert content + CRLF + "" == content + CRLF;
    assert "" + CRLF + (content + CRLF) == CRLF + (content + CRLF);
    FramedLine("--" + boundary, t.start);
    FramedLine(content, "");
    FramedLine("", content + CRLF);
    FramedLine(t.kind, CRLF + (content + CRLF));
    FramedLine("\"", t.kind + CRLF + (CRLF + (content + CRLF)));
  }

  lemma PrintableFramed(s: string)
    requires Printable(s)
    ensures Framed(s)
  {
  }

  /** A body of printable contents is framed exactly when all its names are. */
  lemma {:induction false} BodyFramed(t: Template, boundary: string, entries: seq<Part>)
    requires Printable(t.start) && t.start != "" && Printable(t.kind) && Printable(boundary)
    requires forall i :: 0 <= i < |entries| ==> Printable(entries[i].content)
    ensures Framed(Lines(BodyLines(t, boundary, entries)))
            <==> forall i :: 0 <= i < |entries| ==> Framed(entries[i].name)
    decreases |entries|
  {
    hide Lines, Framed, BodyLines;
    if entries == [] {
      CloseFramed(t, boundary);
    } else {
      var e, rest := entries[0], Lines(BodyLines(t, boundary, entries[1..]));
      BodyFramed(t, boundary, entries[1..]);
      FixedTextFramed(t, boundary, e.content);
      BodyAroundNames(t, boundary, entries);
      FramedConcat(BeforeName(t, boundary), e.name + (AfterName(t, e.content) + rest));
      FramedConcat(e.name, AfterName(t, e.content) + rest);
      FramedConcat(AfterName(t, e.content), rest);
      assert entries == [e] + entries[1..];
    }
  }

  lemma CloseFramed(t: Template, boundary: string)
    requires Printable(boundary)
    ensures Framed(Lines(BodyLines(t, boundary, [])))
  {
    LinesFramed(["--" + boundary + "--"]);
  }

  // ---------------------------------------------------------------------------------------------
  // Which requests are accepted
  // ---------------------------------------------------------------------------------------------

  /** A well-formed message with the same head: one line of dashes for a body. */
  function Stand(length: nat): Message
    requires length >= 2
  {
    Message("POST", "/predict", "1", "0", PredictFields(length), [seq(length - 2, _ => '-')])
  }

  lemma StandWellFormed(length: nat)
    requires 2 <= length < WORD_LIMIT
    ensures WellFormed(Stand(length)) && DeclaredLength(HeadersOf(Stand(length).fields)) == length
  {
    hide Lines, FieldOk, DeclaredLength, Tokens, UriText, AllDigits, PredictFields;
    var body := Stand(length).body;
    OneLine(body[0]);
    WholeBodyOk(body);
    RequestWordsOk();
    PredictFieldsOk(length);
    PredictFieldCount(length);
    PredictHeadersRead(length);
    PredictLengthDeclared(length);
  }

  lemma OneLine(line: string)
    ensures |Lines([line])| == |line| + 2
  {
    assert Lines([line]) == line + CRLF + "";
  }

  /** The parser once it has read the head of a prediction request. */
  function AtBody(length: nat): Config
    requires length >= 2
  {
    AtHeaders(AfterRequestLine(Stand(length)), HeadersOf(PredictFields(length))).(state := BodyNormal)
  }

  function Head(length: nat): string
    requires length >= 2
  {
    PrintRequestLine(Stand(length)) + PrintFields(PredictFields(length)) + CRLF
  }

  lemma HeadTaken(start: Config, length: nat)
    requires IsStart(start) && 2 <= length < WORD_LIMIT
    ensures AtBody(length).expected == length && Takes(start, Head(length), AtBody(length))
  {
    hide Feed, PrintRequestLine, PrintFields, HeadersOf, DeclaredLength, Takes;
    var m := Stand(length);
    var c1 := AfterRequestLine(m);
    var c2 := AtHeaders(c1, HeadersOf(m.fields));
    StandWellFormed(length);
    TakesRequestLine(start, m);
    AfterRequestLineReady(start, m);
    TakesFields(c1, m.fields);
    assert [] + HeadersOf(m.fields) == HeadersOf(m.fields);
    TakesTwo(c2, '\r', '\n', AtBody(length));
    TakesBoth(start, PrintRequestLine(m), c1, PrintFields(m.fields), c2);
    TakesBoth(start, PrintRequestLine(m) + PrintFields(m.fields), c2, CRLF, AtBody(length));
  }

  lemma PredictHead(files: seq<File>)
    ensures |Lines(BodyOf(files))| >= 2
    ensures Print(PredictMessage(files)) == Head(|Lines(BodyOf(files))|) + Lines(BodyOf(files))
  {
    hide Lines, PredictFields;
    BodyLinesNotEmpty(FilePart(), BOUNDARY, EntriesOf(files));
    LinesEnd(BodyOf(files));
  }

  /** The request that the server has read, if it accepts. */
  function AsSent(files: seq<File>): RequestData
    requires |Lines(BodyOf(files))| >= 2
  {
    AtBody(|Lines(BodyOf(files))|).request.(jsonData := Lines(BodyOf(files)))
  }

  /** The body as the parser takes it, whatever follows. */
  lemma BodyTaken(files: seq<File>, after: string)
    requires 2 <= |Lines(BodyOf(files))| < WORD_LIMIT
    ensures var body := Lines(BodyOf(files));
      var report := Feed(AtBody(|body|), body + after);
      && (report.verdict == Accepted <==> Framed(body))
      && (report.verdict == Accepted ==> report.used == |body| && report.config.request == AsSent(files))
  {
    hide Lines, Feed, Framed, PredictFields, BodyLines, EntriesOf, HeadersOf, DeclaredLength;
    var body := Lines(BodyOf(files));
    var c, s, k := AtBody(|body|), body + after, |body|;
    PredictBodyConfig(k);
    BodyLinesNotEmpty(FilePart(), BOUNDARY, EntriesOf(files));
    LinesEnd(BodyOf(files));
    assert EndsLine(s, k) by {
      assert s[k - 2] == body[k - 2] && s[k - 1] == body[k - 1];
    }
    BodyFraming(c, s, k);
    BodyFraming(c, s, Feed(c, s).used);
    assert s[..k] == body;
  }

  lemma PredictBodyConfig(length: nat)
    requires 2 <= length < WORD_LIMIT
    ensures var c := AtBody(length);
      c.state == BodyNormal && c.expected == length && c.counter == 0 && c.request.jsonData == ""
  {
    hide DeclaredLength, HeadersOf, PredictFields;
    StandWellFormed(length);
  }

  /**
   * The client's request is accepted, at its own end, if and only if control characters occur in the
   * names of files only as CR LF pairs, however it is cut into reads and whatever follows it.
   */
  lemma PredictAcceptedExactly(start: Config, files: seq<File>, chunks: seq<string>, after: string)
    requires IsStart(start) && |Lines(BodyOf(files))| < WORD_LIMIT
    requires Concat(chunks) == Print(PredictMessage(files)) + after
    ensures |Lines(BodyOf(files))| >= 2
    ensures FeedChunks(start, chunks).verdict == Accepted <==> forall i :: 0 <= i < |files| ==> Framed(files[i].name)
    ensures FeedChunks(start, chunks).verdict == Accepted ==>
      && FeedChunks(start, chunks).used == |Print(PredictMessage(files))|
      && FeedChunks(start, chunks).config.request == AsSent(files)
  {
    hide Lines, Feed, FeedChunks, Framed, Print, PredictFields, BodyLines, EntriesOf, AsSent, AtBody, Head;
    var body := Lines(BodyOf(files));
    PredictHead(files);
    SegmentationIndependence(start, chunks);
    HeadTaken(start, |body|);
    ThreeParts(Head(|body|), body, after);
    assert Feed(start, Head(|body|) + (body + after)) == Shift(|Head(|body|)|, Feed(AtBody(|body|), body + after));
    BodyTaken(files, after);
    ContentsPrintable(files);
    BodyFramed(FilePart(), BOUNDARY, EntriesOf(files));
  }

  lemma ContentsPrintable(files: seq<File>)
    ensures Printable(DISPOSITION) && DISPOSITION != "" && Printable(PART_TYPE) && Printable(BOUNDARY)
    ensures forall i :: 0 <= i < |files| ==> Printable(EntriesOf(files)[i].content)
  {
    hide Encode;
    DispositionParts();
    DispositionPrintable();
    FilePartPrintable();
    BoundaryOk();
    forall i | 0 <= i < |files|
      ensures Printable(EntriesOf(files)[i].content)
    {
      StandardTextIsPlain(files[i].content);
      PlainIsPrintable(Encode(files[i].content, false));
    }
  }

  // ---------------------------------------------------------------------------------------------
  // Which files arrive
  // ---------------------------------------------------------------------------------------------

  /** The server has exactly these files: the last of several with one name. */
  predicate Delivered(req: RequestData, files: seq<File>) {
    var route := RouteOf(req);
    route.Predict? && DecodeAll(route.images) == Some(FileMap(map[], files))
  }

  predicate IsLastOfName<T>(entries: seq<Entry<T>>, i: nat)
    requires i < |entries|
  {
    forall j :: i < j < |entries| ==> entries[j].name != entries[i].name
  }

  /**
   * A blank line in a name does no harm exactly if the line after it is Base64 of the file itself, or
   * another file of that name follows.
   */
  predicate BlankLineOk(files: seq<File>, i: nat)
    requires i < |files|
  {
    Contains(files[i].name, BLANK_LINE) && IsLastOfName(files, i) ==>
      DecodeLines(LineInside(files[i].name)) == Some(files[i].content)
  }

  /** What the client can check beforehand, from the names of its files. */
  predicate NamesFit(files: seq<File>) {
    && files != []
    && (forall i :: 0 <= i < |files| ==>
          && Free(files[i].name, '"') && !Contains(files[i].name, Delimiter(BOUNDARY))
          && BlankLineOk(files, i))
    && !Contains(files[|files| - 1].name, CloseDelimiter(BOUNDARY))
  }

  lemma EntriesUnquoted(files: seq<File>)
    requires forall i :: 0 <= i < |files| ==> Free(files[i].name, '"')
    ensures AllUnquoted(EntriesOf(files))
  {
    hide Encode;
    forall i | 0 <= i < |files|
      ensures Unquoted(EntriesOf(files)[i])
    {
      StandardTextIsPlain(files[i].content);
      PlainIsPrintable(Encode(files[i].content, false));
    }
  }

  lemma BoundaryFits()
    ensures BoundaryFit(BOUNDARY)
  {
    BoundaryOk();
    PrintableIsLine(BOUNDARY);
    BoundaryHasNoQuote();
  }

  lemma BoundaryHasNoQuote()
    ensures Free(BOUNDARY, '"')
  {
  }

  /** The content that is seen decodes to the file exactly if a blank line in its name does no harm. */
  lemma SeenDecodes(f: File)
    ensures var seen := Seen(Entry(f.name, Encode(f.content, false)));
      DecodeLines(seen.content) == Some(f.content)
      <==> (Contains(f.name, BLANK_LINE) ==> DecodeLines(LineInside(f.name)) == Some(f.content))
  {
    hide Encode, DecodeLines;
    DecodeBrokenEncode(f.content, 76);
  }

  /** The texts that are seen decode to the files if and only if the last text of each name does. */
  lemma SeenFiles(files: seq<File>)
    ensures var texts := FileMap(map[], SeenAll(EntriesOf(files)));
      DecodeAll(texts) == Some(FileMap(map[], files)) <==> forall i :: 0 <= i < |files| ==> BlankLineOk(files, i)
  {
    hide DecodeLines, Encode, DecodeAll, FileMap, SeenAll, EntriesOf, Seen, LineInside, Contains;
    var seen := SeenAll(EntriesOf(files));
    var texts, bytes := FileMap(map[], seen), FileMap(map[], files);
    SeenNames(files);
    forall i | 0 <= i < |files|
      ensures files[i].name in texts && files[i].name in bytes
      ensures IsLastOfName(files, i) ==>
        && texts[files[i].name] == seen[i].content && bytes[files[i].name] == files[i].content
        && (DecodeLines(texts[files[i].name]) == Some(bytes[files[i].name]) <==> BlankLineOk(files, i))
    {
      FileMapLastWins(map[], seen, files[i].name);
      FileMapLastWins(map[], files, files[i].name);
      SeenDecodes(files[i]);
    }
    forall name
      ensures name in texts <==> name in bytes
      ensures name in bytes ==> exists i :: 0 <= i < |files| && files[i].name == name && IsLastOfName(files, i)
    {
      FileMapLastWins(map[], seen, name);
      FileMapLastWins(map[], files, name);
      if name in bytes {
        var i := LastOfName(files, name);
      }
    }
    DecodesExactly(texts, bytes);
  }

  lemma LastOfName(files: seq<File>, name: string) returns (i: nat)
    requires exists k :: 0 <= k < |files| && files[k].name == name
    ensures i < |files| && files[i].name == name && IsLastOfName(files, i)
  {
    i := |files| - 1;
    while files[i].name != name
      invariant i < |files| && forall j :: i < j < |files| ==> files[j].name != name
      decreases i
    {
      i := i - 1;
    }
  }

  lemma SeenNames(files: seq<File>)
    ensures |SeenAll(EntriesOf(files))| == |files|
    ensures forall i :: 0 <= i < |files| ==>
      && SeenAll(EntriesOf(files))[i] == Seen(Entry(files[i].name, Encode(files[i].content, false)))
      && SeenAll(EntriesOf(files))[i].name == files[i].name
  {
    hide Encode;
  }

  lemma DecodesExactly(texts: map<string, string>, bytes: map<string, seq<Byte>>)
    requires texts.Keys == bytes.Keys
    ensures DecodeAll(texts) == Some(bytes)
            <==> forall name :: name in bytes ==> DecodeLines(texts[name]) == Some(bytes[name])
  {
    hide DecodeLines;
    if forall name :: name in bytes ==> DecodeLines(texts[name]) == Some(bytes[name]) {
      assert bytes == map name | name in texts :: DecodeLines(texts[name]).value;
    }
  }

  /** The route and the files, for a request that has been accepted. */
  lemma SentDelivered(files: seq<File>)
    requires 2 <= |Lines(BodyOf(files))| < WORD_LIMIT
    ensures Delivered(AsSent(files), files) <==> NamesFit(files)
  {
    hide Lines, BodyLines, EntriesOf, RouteOf, ImagesIn, DecodeAll, FileMap, SeenAll, Undivided,
         AllUnquoted, BlankLineOk;
    var entries, length := EntriesOf(files), |Lines(BodyOf(files))|;
    SentHead(files);
    RoutedByBody(AsSent(files), length);
    FilePartOk();
    BoundaryFits();
    if files == [] {
      NoEntries();
      EmptyBody(FilePart(), BOUNDARY);
    } else if forall i :: 0 <= i < |files| ==> Free(files[i].name, '"') {
      EntriesUnquoted(files);
      SplittingAnyNames(FilePart(), BOUNDARY, entries);
      SeenFiles(files);
      UndividedNames(files);
    } else {
      QuotedNotDelivered(files, Lines(BodyOf(files)));
    }
  }

  lemma NoEntries()
    ensures EntriesOf([]) == []
  {
  }

  lemma UndividedNames(files: seq<File>)
    requires files != []
    ensures EntriesOf(files) != []
    ensures Undivided(BOUNDARY, EntriesOf(files))
            <==> && (forall i :: 0 <= i < |files| ==> !Contains(files[i].name, Delimiter(BOUNDARY)))
                 && !Contains(files[|files| - 1].name, CloseDelimiter(BOUNDARY))
  {
    hide Contains;
  }

  lemma SentHead(files: seq<File>)
    requires 2 <= |Lines(BodyOf(files))| < WORD_LIMIT
    ensures var req := AsSent(files);
      && req.uri == "/predict" && req.headers == PredictHeaders(|Lines(BodyOf(files))|)
      && req.jsonData == Lines(BodyOf(files))
  {
    hide Lines, HeadersOf, PredictFields, PredictHeaders, DeclaredLength;
    RequestWordsOk();
    PredictHeadersRead(|Lines(BodyOf(files))|);
  }

  lemma QuotedNotDelivered(files: seq<File>, body: string)
    requires !forall i :: 0 <= i < |files| ==> Free(files[i].name, '"')
    ensures ImagesIn(BOUNDARY, body).Some? ==> DecodeAll(ImagesIn(BOUNDARY, body).value) != Some(FileMap(map[], files))
  {
    hide ImagesIn, FileMap, DecodeLines;
    ImagesKeysFree(BOUNDARY, body);
    var i :| 0 <= i < |files| && !Free(files[i].name, '"');
    FileMapLastWins(map[], files, files[i].name);
    assert files[i].name in FileMap(map[], files);
  }

  /**
   * For arbitrary names, however the request is cut into reads and whatever follows it: the server
   * accepts the request and gets exactly the files that were sent if and only if there are files, and
   * no name has a quote, a control character that is not half of a CR LF pair, or a delimiter, the last
   * one no closing delimiter either, and a blank line only where what follows it is the file itself.
   */
  lemma DeliveredExactly(start: Config, files: seq<File>, chunks: seq<string>, after: string)
    requires IsStart(start) && |Lines(BodyOf(files))| < WORD_LIMIT
    requires Concat(chunks) == Print(PredictMessage(files)) + after
    ensures var report := FeedChunks(start, chunks);
      report.verdict == Accepted && Delivered(report.config.request, files)
      <==> NamesFit(files) && forall i :: 0 <= i < |files| ==> Framed(files[i].name)
  {
    hide Lines, FeedChunks, Framed, Print, Delivered, NamesFit, AsSent, BodyLines, EntriesOf;
    PredictAcceptedExactly(start, files, chunks, after);
    SentDelivered(files);
  }

  /** A blank line in a name that does no harm: the line after it is the file, read up to its padding. */
  lemma BlankLineHarmless()
    ensures var name := "\r\n\r\nQQ=";
      && Contains(name, BLANK_LINE) && Free(name, '"')
      && DecodeLines(LineInside(name)) == Some([65])
  {
    var name, rest := "\r\n\r\nQQ=", "QQ=\"";
    assert name[0..4] == BLANK_LINE;
    assert name[4..] + QUOTE == rest;
    forall j: nat
      ensures !OccursAt(rest, CRLF, j)
    {
      if j < |rest| {
        Differs(rest, CRLF, j, 0);
      }
    }
    FindFirst(rest, CRLF, 0);
    NothingToErase(rest);
    DecodeOneGroup(rest);
    assert DecodeGroup(rest, 0) == Some([65]);
  }
}
