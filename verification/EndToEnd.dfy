/** From the client's files to the server's files: printing, parsing, splitting and decoding in one. */
module EndToEnd {
  import opened Text
  import opened Decimal
  import opened Base64
  import opened LineBreaks
  import opened RequestParser
  import opened RequestGrammar
  import opened UrlCodec
  import opened Multipart
  import opened MultipartBody
  import opened RequestHandler
  import opened Client

  // ---------------------------------------------------------------------------------------------
  // The client's constants
  // ---------------------------------------------------------------------------------------------

  const NAME_FIELD: string := "Content-Disposition: form-data; name="

  lemma DispositionParts()
    ensures DISPOSITION == NAME_FIELD + "\"datafile\"" + "; filename=\""
    ensures |DISPOSITION| == 59 && |NAME_FIELD| == 37
  {
  }

  lemma NameFieldOk()
    ensures Free(NAME_FIELD, '"') && IsLine(NAME_FIELD)
  {
  }

  lemma NameAndFilenameOk()
    ensures Free("datafile", '"') && Free("; filename=", '"')
    ensures IsLine("\"datafile\"") && IsLine("; filename=\"")
  {
  }

  /** The quotes of the header line up to the file name. */
  lemma DispositionQuotes(k: nat)
    requires k < 58 && k != 37 && k != 46
    ensures DISPOSITION[k] != '"'
  {
    DispositionParts();
    NameFieldOk();
    NameAndFilenameOk();
    if k < 37 {
      assert DISPOSITION[k] == NAME_FIELD[k];
    } else if k < 46 {
      assert DISPOSITION[k] == "datafile"[k - 38];
    } else {
      assert DISPOSITION[k] == "; filename="[k - 47];
    }
  }

  lemma FilenameOnlyAtEnd(j: nat)
    requires j < 49
    ensures !OccursAt(DISPOSITION, FILENAME, j)
  {
    DispositionParts();
    if j == 28 {
      assert DISPOSITION[31] == ' ';
      Differs(DISPOSITION, FILENAME, j, 3);
    } else if j == 37 {
      assert DISPOSITION[45] == 'e';
      Differs(DISPOSITION, FILENAME, j, 8);
    } else {
      DispositionQuotes(j + 9);
      Differs(DISPOSITION, FILENAME, j, 9);
    }
  }

  lemma DispositionIsLine()
    ensures IsLine(DISPOSITION)
  {
    DispositionParts();
    NameFieldOk();
    NameAndFilenameOk();
  }

  lemma PartTypeOk()
    ensures IsLine(PART_TYPE) && |PART_TYPE| >= 2 && PART_TYPE[|PART_TYPE| - 1] != '-'
    ensures forall i :: 0 <= i < |PART_TYPE| - 1 ==> PART_TYPE[i] != '-' || PART_TYPE[i + 1] != '-'
  {
  }

  lemma FilePartOk()
    ensures TemplateOk(FilePart())
  {
    DispositionParts();
    DispositionIsLine();
    PartTypeOk();
    assert DISPOSITION[49..59] == FILENAME;
    forall j: nat | j < 49
      ensures !OccursAt(DISPOSITION, FILENAME, j)
    {
      FilenameOnlyAtEnd(j);
    }
  }

  lemma BoundaryOk()
    ensures BOUNDARY != "" && Printable(BOUNDARY) && !AllDashes(BOUNDARY) && BOUNDARY[|BOUNDARY| - 1] != '"'
    ensures forall i :: 0 <= i < |BOUNDARY| ==> !IsStop(BOUNDARY[i])
  {
    assert BOUNDARY[0] == '7';
  }

  lemma FormTypeOk()
    ensures IsBoundaryPrefix(FORM_TYPE) && Printable(FORM_TYPE)
  {
    assert FORM_TYPE[21..30] == "boundary=";
    forall j: nat | j < 21
      ensures !OccursAt(FORM_TYPE, "boundary=", j)
    {
      Differs(FORM_TYPE, "boundary=", j, 0);
    }
  }

  lemma PrintableIsLine(s: string)
    requires Printable(s)
    ensures IsLine(s)
  {
  }

  lemma PlainIsPrintable(s: string)
    requires IsPlain(s)
    ensures Printable(s) && Free(s, '-') && IsLine(s)
  {
  }

  // ---------------------------------------------------------------------------------------------
  // The client's message is well formed
  // ---------------------------------------------------------------------------------------------

  predicate NamesPrintable(files: seq<File>) {
    forall i :: 0 <= i < |files| ==> Printable(files[i].name)
  }

  lemma EntriesPrintable(files: seq<File>)
    requires NamesPrintable(files)
    ensures EntriesOk(EntriesOf(files))
    ensures forall i :: 0 <= i < |files| ==>
              Printable(EntriesOf(files)[i].name) && Printable(EntriesOf(files)[i].content)
  {
    hide Encode;
    forall i | 0 <= i < |files|
      ensures EntryOk(EntriesOf(files)[i]) && Printable(EntriesOf(files)[i].content)
    {
      StandardTextIsPlain(files[i].content);
      PlainIsPrintable(Encode(files[i].content, false));
      PrintableIsLine(files[i].name);
    }
  }

  predicate AllPrintable(lines: seq<string>) {
    forall i :: 0 <= i < |lines| ==> Printable(lines[i])
  }

  lemma {:induction false} BodyPrintable(t: Template, boundary: string, entries: seq<Part>)
    requires Printable(t.start) && Printable(t.kind) && Printable(boundary)
    requires forall i :: 0 <= i < |entries| ==> Printable(entries[i].name) && Printable(entries[i].content)
    ensures AllPrintable(BodyLines(t, boundary, entries))
  {
    if entries == [] {
      assert Printable("--" + boundary + "--");
    } else {
      BodyPrintable(t, boundary, entries[1..]);
      assert Printable("--" + boundary) && Printable(NameLine(t, entries[0].name));
      PrintableConcat(["--" + boundary] + PartLines(t, entries[0]), BodyLines(t, boundary, entries[1..]));
    }
  }

  lemma PrintableConcat(a: seq<string>, b: seq<string>)
    requires AllPrintable(a) && AllPrintable(b)
    ensures AllPrintable(a + b)
  {
  }

  /** A body declared with its own length is complete at its last line and no earlier. */
  lemma WholeBodyOk(body: seq<string>)
    requires body != [] && AllPrintable(body)
    ensures BodyOk(body, |Lines(body)|)
  {
    var before, last := body[..|body| - 1], body[|body| - 1];
    assert body == before + [last];
    LinesConcat(before, [last]);
    assert Lines([last]) == last + CRLF + "";
  }

  lemma BodyLinesNotEmpty(t: Template, boundary: string, entries: seq<Part>)
    ensures BodyLines(t, boundary, entries) != []
  {
  }

  lemma FilePartPrintable()
    ensures Printable(NAME_FIELD) && Printable("\"datafile\"") && Printable("; filename=\"")
    ensures Printable(PART_TYPE)
  {
    NameFieldPrintable();
    PartTypePrintable();
  }

  lemma NameFieldPrintable()
    ensures Printable(NAME_FIELD)
  {
  }

  lemma PartTypePrintable()
    ensures Printable(PART_TYPE)
  {
  }

  lemma DispositionPrintable()
    ensures Printable(DISPOSITION)
  {
    DispositionParts();
    FilePartPrintable();
  }

  lemma HeaderWordsOk()
    ensures Tokens("Accept") && Tokens("Content-Length") && Tokens("Content-Type") && Tokens("Connection")
  {
    LengthWordOk();
    TypeWordOk();
    ShortWordsOk();
  }

  lemma TypeWordOk()
    ensures Tokens("Content-Type")
  {
  }

  lemma LengthWordOk()
    ensures Tokens("Content-Length")
  {
  }

  lemma ShortWordsOk()
    ensures Tokens("Accept") && Tokens("Connection")
  {
  }

  lemma ValueWordsOk()
    ensures Printable("*/*") && Printable("close")
  {
  }

  lemma RequestWordsOk()
    ensures Tokens("POST") && Tokens("GET") && UriText("/predict") && UriText("/history")
    ensures AllDigits("1") && AllDigits("0")
  {
  }

  lemma HeaderNamesDiffer()
    ensures "Accept" != "Content-Length" && "Content-Type" != "Content-Length" && "Connection" != "Content-Length"
    ensures "Accept" != "Content-Type" && "Content-Length" != "Content-Type" && "Connection" != "Content-Type"
  {
    assert |"Accept"| == 6 && |"Content-Length"| == 14 && |"Content-Type"| == 12 && |"Connection"| == 10;
  }

  lemma DigitsPrintable(s: string)
    requires AllDigits(s)
    ensures Printable(s)
  {
  }

  lemma PredictFieldsOk(length: nat)
    requires length < WORD_LIMIT
    ensures forall i :: 0 <= i < 4 ==> FieldOk(PredictFields(length)[i])
  {
    hide Stoul, ToDecimal, IsToken, IsCtl;
    HeaderWordsOk();
    ValueWordsOk();
    HeaderNamesDiffer();
    StoulToDecimal(length);
    DigitsPrintable(ToDecimal(length));
    FormTypeOk();
    BoundaryOk();
    assert Printable(FORM_TYPE + BOUNDARY);
  }

  /** The headers that the server reads from a prediction request. */
  function PredictHeaders(length: nat): seq<Header> {
    [ Header("Accept", "*/*"), Header("Content-Length", ToDecimal(length)),
      Header("Content-Type", FORM_TYPE + BOUNDARY), Header("Connection", "close") ]
  }

  lemma PlainHeaderOf(name: string, value: string)
    ensures HeaderOf(Field(name, value, [])) == Header(name, value)
  {
  }

  lemma PredictHeadersRead(length: nat)
    ensures HeadersOf(PredictFields(length)) == PredictHeaders(length)
  {
    hide HeadersOf, HeaderOf, ToDecimal;
    var f := PredictFields(length);
    assert f == [f[0]] + ([f[1]] + ([f[2]] + ([f[3]] + [])));
    HeadersOfFirst(f[0], [f[1]] + ([f[2]] + ([f[3]] + [])));
    HeadersOfFirst(f[1], [f[2]] + ([f[3]] + []));
    HeadersOfFirst(f[2], [f[3]] + []);
    HeadersOfFirst(f[3], []);
    NoHeaders();
    PlainHeaderOf("Accept", "*/*");
    PlainHeaderOf("Content-Length", ToDecimal(length));
    PlainHeaderOf("Content-Type", FORM_TYPE + BOUNDARY);
    PlainHeaderOf("Connection", "close");
  }

  lemma NoHeaders()
    ensures HeadersOf([]) == []
  {
  }

  lemma DeclaredLast(before: seq<Header>, h: Header)
    ensures h.name != "Content-Length" ==> DeclaredLength(before + [h]) == DeclaredLength(before)
    ensures h.name == "Content-Length" && Stoul(h.value).Some? ==>
              DeclaredLength(before + [h]) == Stoul(h.value).value
  {
    assert (before + [h])[..|before|] == before;
  }

  lemma PredictLengthDeclared(length: nat)
    requires length < WORD_LIMIT
    ensures DeclaredLength(PredictHeaders(length)) == length
  {
    hide Stoul, ToDecimal, DeclaredLength;
    var h := PredictHeaders(length);
    HeaderNamesDiffer();
    StoulToDecimal(length);
    assert h == [h[0]] + [h[1]] + [h[2]] + [h[3]];
    DeclaredLast([h[0]] + [h[1]] + [h[2]], h[3]);
    DeclaredLast([h[0]] + [h[1]], h[2]);
    DeclaredLast([h[0]], h[1]);
  }

  lemma PredictWellFormed(files: seq<File>)
    requires NamesPrintable(files) && |Lines(BodyOf(files))| < WORD_LIMIT
    ensures WellFormed(PredictMessage(files))
  {
    hide Lines, BodyLines, EntriesOf, FieldOk, DeclaredLength, Tokens, UriText, AllDigits, PredictFields;
    var body := BodyOf(files);
    var length := |Lines(body)|;
    EntriesPrintable(files);
    DispositionPrintable();
    FilePartPrintable();
    BoundaryOk();
    BodyPrintable(FilePart(), BOUNDARY, EntriesOf(files));
    BodyLinesNotEmpty(FilePart(), BOUNDARY, EntriesOf(files));
    WholeBodyOk(body);
    RequestWordsOk();
    PredictFieldsOk(length);
    PredictFieldCount(length);
    PredictHeadersRead(length);
    PredictLengthDeclared(length);
  }

  lemma PredictFieldCount(length: nat)
    ensures |PredictFields(length)| == 4
  {
  }

  // ---------------------------------------------------------------------------------------------
  // The server takes the same route and reads the same files
  // ---------------------------------------------------------------------------------------------

  lemma {:induction false} PlainTarget(s: string)
    requires Free(s, '%') && Free(s, '+')
    ensures IsEncodingOf(s, s)
    decreases |s|
  {
    if s != "" {
      PlainTarget(s[1..]);
    }
  }

  lemma TargetsDecode()
    ensures UrlDecode("/predict") == Some("/predict") && UrlDecode("/history") == Some("/history")
  {
    hide UrlDecode, IsEncodingOf;
    PlainTarget("/predict");
    PlainTarget("/history");
    DecodeIffEncoding("/predict", "/predict");
    DecodeIffEncoding("/history", "/history");
  }

  lemma PredictBoundaryRead(length: nat)
    ensures BoundaryFrom(PredictHeaders(length), "") == Some(BOUNDARY)
  {
    hide BoundaryIn, ToDecimal;
    var h := PredictHeaders(length);
    HeaderNamesDiffer();
    FormTypeOk();
    BoundaryOk();
    BoundaryExact(FORM_TYPE, BOUNDARY);
    assert h[1..] == [h[1], h[2], h[3]] && h[1..][1..] == [h[2], h[3]] && h[1..][1..][1..] == [h[3]];
    BoundaryStep(h, "");
    BoundaryStep(h[1..], "");
    BoundaryStep(h[1..][1..], "");
    BoundaryStep(h[1..][1..][1..], BOUNDARY);
  }

  lemma BoundaryStep(headers: seq<Header>, boundary: string)
    requires headers != []
    ensures BoundaryFrom([], boundary) == Some(boundary)
    ensures headers[0].name != "Content-Type" ==>
              BoundaryFrom(headers, boundary) == BoundaryFrom(headers[1..], boundary)
    ensures headers[0].name == "Content-Type" && BoundaryIn(headers[0].value).Some? ==>
              BoundaryFrom(headers, boundary) == BoundaryFrom(headers[1..], BoundaryIn(headers[0].value).value)
  {
  }

  lemma {:induction false} ClippedEntries(files: seq<File>)
    ensures Clipped(EntriesOf(files)) == EntriesOf(Clipped(files))
  {
    hide Encode, Clip;
    if files != [] {
      ClippedEntries(files[1..]);
      assert EntriesOf(files)[1..] == EntriesOf(files[1..]);
      assert Clipped(files)[1..] == Clipped(files[1..]);
    }
  }

  predicate Decodes(texts: map<string, string>, bytes: map<string, seq<Byte>>) {
    texts.Keys == bytes.Keys && forall name :: name in texts ==> DecodeLines(texts[name]) == Some(bytes[name])
  }

  lemma {:induction false} FilesDecode(texts: map<string, string>, bytes: map<string, seq<Byte>>, files: seq<File>)
    requires Decodes(texts, bytes)
    ensures Decodes(FileMap(texts, EntriesOf(files)), FileMap(bytes, files))
    decreases |files|
  {
    hide DecodeLines, Encode;
    if files != [] {
      var f := files[0];
      DecodeBrokenEncode(f.content, 76);
      assert EntriesOf(files)[1..] == EntriesOf(files[1..]);
      FilesDecode(texts[f.name := Encode(f.content, false)], bytes[f.name := f.content], files[1..]);
    }
  }

  lemma DecodeAllIs(texts: map<string, string>, bytes: map<string, seq<Byte>>)
    requires Decodes(texts, bytes)
    ensures DecodeAll(texts) == Some(bytes)
  {
    hide DecodeLines;
    assert bytes == map name | name in texts :: DecodeLines(texts[name]).value;
  }

  /** A request with the client's head takes the prediction route exactly if its body can be split. */
  lemma RoutedByBody(req: RequestData, length: nat)
    requires req.uri == "/predict" && req.headers == PredictHeaders(length)
    ensures RouteOf(req) ==
            match ImagesIn(BOUNDARY, req.jsonData) case None => Refuse case Some(images) => Predict(images)
  {
    hide UrlDecode, BoundaryFrom, ImagesIn, Find, PathOk, PredictHeaders;
    TargetsDecode();
    PathsOk();
    PredictBoundaryRead(length);
    BoundaryOk();
  }

  /** What the handler makes of the request that the client's message denotes. */
  lemma PredictRouted(files: seq<File>)
    requires files != [] && NamesPrintable(files) && |Lines(BodyOf(files))| < WORD_LIMIT
    ensures var route := RouteOf(Denote(PredictMessage(files)));
      route.Predict? && DecodeAll(route.images) == Some(FileMap(map[], Clipped(files)))
  {
    hide Lines, BodyLines, EntriesOf, RouteOf, ImagesIn, DecodeAll, Separable, FileMap, Clipped,
         PredictFields, Printable;
    var entries := EntriesOf(files);
    var length := |Lines(BodyOf(files))|;
    RequestWordsOk();
    PredictHeadersRead(length);
    RoutedByBody(Denote(PredictMessage(files)), length);
    FilePartOk();
    BoundaryOk();
    PrintableIsLine(BOUNDARY);
    EntriesPrintable(files);
    SplittingExact(FilePart(), BOUNDARY, entries);
    SeparableBoundary(FilePart(), BOUNDARY, entries);
    ClippedEntries(files);
    FilesDecode(map[], map[], Clipped(files));
    DecodeAllIs(FileMap(map[], EntriesOf(Clipped(files))), FileMap(map[], Clipped(files)));
  }

  /**
   * End to end: whatever files with printable names the client sends, and however its bytes are cut
   * into reads, the server accepts exactly the request, takes the prediction route, and decodes every
   * image. The files it gets are exactly those sent if and only if no name has a quote.
   */
  lemma PredictEndToEnd(start: Config, files: seq<File>, chunks: seq<string>, after: string)
    requires IsStart(start) && files != [] && NamesPrintable(files) && |Lines(BodyOf(files))| < WORD_LIMIT
    requires Concat(chunks) == Print(PredictMessage(files)) + after
    ensures var report := FeedChunks(start, chunks);
      && report.verdict == Accepted && report.used == |Print(PredictMessage(files))|
      && var route := RouteOf(report.config.request);
        && route.Predict?
        && DecodeAll(route.images) == Some(FileMap(map[], Clipped(files)))
        && (DecodeAll(route.images) == Some(FileMap(map[], files))
            <==> forall i :: 0 <= i < |files| ==> Free(files[i].name, '"'))
  {
    hide Lines, RouteOf, DecodeAll, FileMap, Clipped, Feed, FeedChunks, Printable, Print, WellFormed;
    SegmentationIndependence(start, chunks);
    PredictWellFormed(files);
    WellFormedAccepted(start, PredictMessage(files));
    PredictRouted(files);
    ClippingExact(files);
  }

  lemma HistoryHeadersRead()
    ensures HeadersOf(HistoryMessage().fields) == [Header("Accept", "*/*"), Header("Connection", "close")]
  {
    hide HeadersOf, HeaderOf;
    var f := HistoryMessage().fields;
    assert f == [f[0]] + ([f[1]] + []);
    HeadersOfFirst(f[0], [f[1]] + []);
    HeadersOfFirst(f[1], []);
    NoHeaders();
    PlainHeaderOf("Accept", "*/*");
    PlainHeaderOf("Connection", "close");
  }

  lemma HistoryLengthDeclared()
    ensures DeclaredLength([Header("Accept", "*/*"), Header("Connection", "close")]) == 0
  {
    hide Stoul, DeclaredLength;
    var a, b := Header("Accept", "*/*"), Header("Connection", "close");
    HeaderNamesDiffer();
    DeclaredLast([a], b);
    DeclaredLast([], a);
    assert [] + [a] == [a] && [a] + [b] == [a, b];
    DeclaredNone();
  }

  lemma DeclaredNone()
    ensures DeclaredLength([]) == 0
  {
  }

  lemma HistoryFieldsOk()
    ensures forall i :: 0 <= i < 2 ==> FieldOk(HistoryMessage().fields[i])
  {
    hide Stoul, IsToken, IsCtl;
    HeaderWordsOk();
    ValueWordsOk();
    HeaderNamesDiffer();
  }

  /** The client's history request is accepted at its end and lists the history. */
  lemma HistoryEndToEnd(start: Config, chunks: seq<string>, after: string)
    requires IsStart(start) && Concat(chunks) == Print(HistoryMessage()) + after
    ensures var report := FeedChunks(start, chunks);
      && report.verdict == Accepted && report.used == |Print(HistoryMessage())|
      && RouteOf(report.config.request) == ListHistory
  {
    hide Lines, FieldOk, DeclaredLength, HeadersOf, Tokens, UriText, UrlDecode, Find, Feed, FeedChunks, Print, PathOk,
         BoundaryFrom, ImagesIn;
    var m := HistoryMessage();
    RequestWordsOk();
    HistoryFieldsOk();
    HistoryHeadersRead();
    HistoryLengthDeclared();
    NoLines();
    assert WellFormed(m);
    SegmentationIndependence(start, chunks);
    WellFormedAccepted(start, m);
    TargetsDecode();
    PathsOk();
  }
}
