/** The requests that the client sends. */
module Client {
  import opened Text
  import opened Decimal
  import opened Base64
  import opened RequestGrammar
  import opened Multipart
  import opened MultipartBody

  /** A file: the last component of its path, and its bytes. */
  type File = Entry<seq<Byte>>

  const BOUNDARY: string := "77580b83-390b-4c34-8393-4eac360c7b42"
  const DISPOSITION: string := "Content-Disposition: form-data; name=\"datafile\"; filename=\""
  const PART_TYPE: string := "Content-Type: image/jpeg"
  const FORM_TYPE: string := "multipart/form-data; boundary="

  function FilePart(): Template {
    Template(DISPOSITION, PART_TYPE)
  }

  /** The files as they appear in a body: under their names, in Base64. */
  function EntriesOf(files: seq<File>): (entries: seq<Part>)
    ensures |entries| == |files|
    ensures forall i :: 0 <= i < |files| ==> entries[i] == Entry(files[i].name, Encode(files[i].content, false))
  {
    if files == [] then []
    else [Entry(files[0].name, Encode(files[0].content, false))] + EntriesOf(files[1..])
  }

  function BodyOf(files: seq<File>): seq<string> {
    BodyLines(FilePart(), BOUNDARY, EntriesOf(files))
  }

  function PredictFields(length: nat): seq<Field> {
    [ Field("Accept", "*/*", []),
      Field("Content-Length", ToDecimal(length), []),
      Field("Content-Type", FORM_TYPE + BOUNDARY, []),
      Field("Connection", "close", []) ]
  }

  /** What the client sends for files, as a message. */
  function PredictMessage(files: seq<File>): Message {
    Message("POST", "/predict", "1", "0", PredictFields(|Lines(BodyOf(files))|), BodyOf(files))
  }

  function HistoryMessage(): Message {
    Message("GET", "/history", "1", "0", [Field("Accept", "*/*", []), Field("Connection", "close", [])], [])
  }

  // ---------------------------------------------------------------------------------------------
  // Writing the request
  // ---------------------------------------------------------------------------------------------

  lemma AppendLine(ls: seq<string>, l: string)
    ensures Lines(ls) + (l + CRLF) == Lines(ls + [l])
  {
    LinesConcat(ls, [l]);
    assert Lines([l]) == l + CRLF + "" == l + CRLF;
  }

  /** The body that `sendRequest` builds, one file after the other. */
  method WriteBody(part: Template, boundary: string, files: seq<File>) returns (msgBody: string)
    requires forall i :: 0 <= i < |files| ==> |files[i].content| < POSITION_LIMIT
    ensures msgBody == Lines(BodyLines(part, boundary, EntriesOf(files)))
  {
    hide Lines, Encode, EntriesOf;
    ghost var entries := EntriesOf(files);
    ghost var lines: seq<string> := [];
    msgBody := "";
    NoLines();
    for i := 0 to |files|
      invariant msgBody == Lines(lines)
      invariant lines + BodyLines(part, boundary, entries[i..]) == BodyLines(part, boundary, entries)
    {
      var base64 := EncodeText(files[i].content, false);
      msgBody := msgBody + ("--" + boundary + CRLF);
      AppendLine(lines, "--" + boundary);
      ghost var l1 := lines + ["--" + boundary];
      msgBody := msgBody + (part.start + files[i].name + "\"" + CRLF);
      AppendLine(l1, NameLine(part, files[i].name));
      ghost var l2 := l1 + [NameLine(part, files[i].name)];
      msgBody := msgBody + (part.kind + CRLF);
      AppendLine(l2, part.kind);
      ghost var l3 := l2 + [part.kind];
      msgBody := msgBody + CRLF;
      AppendLine(l3, "");
      assert "" + CRLF == CRLF;
      ghost var l4 := l3 + [""];
      msgBody := msgBody + (base64 + CRLF);
      AppendLine(l4, base64);
      PartAppended(part, boundary, entries, i, lines);
      lines := l4 + [base64];
    }
    assert entries[|files|..] == [];
    msgBody := msgBody + ("--" + boundary + "--" + CRLF);
    AppendLine(lines, "--" + boundary + "--");
  }

  lemma NoLines()
    ensures Lines([]) == ""
    ensures forall ls: seq<string> :: [] + ls == ls
  {
  }

  lemma PartAppended(t: Template, boundary: string, entries: seq<Part>, i: nat, lines: seq<string>)
    requires i < |entries|
    ensures var e := entries[i];
      lines + BodyLines(t, boundary, entries[i..]) ==
      lines + ["--" + boundary] + [NameLine(t, e.name)] + [t.kind] + [""] + [e.content]
      + BodyLines(t, boundary, entries[i + 1..])
  {
    hide NameLine;
    var rest := BodyLines(t, boundary, entries[i + 1..]);
    assert entries[i..][1..] == entries[i + 1..];
    FiveLines(lines, "--" + boundary, NameLine(t, entries[i].name), t.kind, "", entries[i].content, rest);
  }

  lemma FiveLines(lines: seq<string>, a: string, b: string, c: string, d: string, e: string, rest: seq<string>)
    ensures lines + ([a] + [b, c, d, e] + rest) == lines + [a] + [b] + [c] + [d] + [e] + rest
  {
  }

  /** The bytes sent for a prediction request. */
  method SendPredict(files: seq<File>) returns (request: string)
    requires forall i :: 0 <= i < |files| ==> |files[i].content| < POSITION_LIMIT
    ensures request == Print(PredictMessage(files))
  {
    hide Lines, BodyLines, EntriesOf;
    var body := WriteBody(FilePart(), BOUNDARY, files);
    var contentType := FORM_TYPE + BOUNDARY;
    request := "POST " + "/predict" + " HTTP/1.0\r\n";
    request := request + "Accept: */*\r\n";
    request := request + ("Content-Length: " + ToDecimal(|body|) + CRLF);
    request := request + ("Content-Type: " + contentType + CRLF);
    request := request + "Connection: close\r\n\r\n";
    request := request + body;
    PredictWritten(|body|, contentType, BodyOf(files));
  }

  /** The bytes sent for a history request. */
  method SendHistory() returns (request: string)
    ensures request == Print(HistoryMessage())
  {
    request := "GET " + "/history" + " HTTP/1.0\r\n";
    request := request + "Accept: */*\r\n";
    request := request + "Connection: close\r\n\r\n";
    HistoryWritten();
  }

  function PlainField(name: string, value: string): string {
    name + ": " + value + CRLF
  }

  lemma PrintPlainField(name: string, value: string)
    ensures PrintField(Field(name, value, [])) == PlainField(name, value)
  {
    assert PrintFolds([]) == "";
  }

  lemma PrintPredictFields(length: string, contentType: string)
    ensures PrintFields([Field("Accept", "*/*", []), Field("Content-Length", length, []),
                         Field("Content-Type", contentType, []), Field("Connection", "close", [])]) ==
            PlainField("Accept", "*/*") + (PlainField("Content-Length", length)
            + (PlainField("Content-Type", contentType) + PlainField("Connection", "close")))
  {
    hide PlainField, PrintField, PrintFields;
    var f1, f2 := Field("Accept", "*/*", []), Field("Content-Length", length, []);
    var f3, f4 := Field("Content-Type", contentType, []), Field("Connection", "close", []);
    assert [f1, f2, f3, f4] == [f1] + ([f2] + ([f3] + ([f4] + [])));
    PrintFieldsFirst(f1, [f2] + ([f3] + ([f4] + [])));
    PrintFieldsFirst(f2, [f3] + ([f4] + []));
    PrintFieldsFirst(f3, [f4] + []);
    PrintFieldsFirst(f4, []);
    PrintPlainField("Accept", "*/*");
    PrintPlainField("Content-Length", length);
    PrintPlainField("Content-Type", contentType);
    PrintPlainField("Connection", "close");
    NoFields();
    assert PlainField("Connection", "close") + "" == PlainField("Connection", "close");
  }

  lemma NoFields()
    ensures PrintFields([]) == ""
  {
  }

  lemma PrintHistoryFields()
    ensures PrintFields(HistoryMessage().fields) == PlainField("Accept", "*/*") + PlainField("Connection", "close")
  {
    hide PlainField, PrintField, PrintFields;
    var f1, f2 := Field("Accept", "*/*", []), Field("Connection", "close", []);
    assert [f1, f2] == [f1] + ([f2] + []);
    PrintFieldsFirst(f1, [f2] + []);
    PrintFieldsFirst(f2, []);
    PrintPlainField("Accept", "*/*");
    PrintPlainField("Connection", "close");
    NoFields();
    assert PlainField("Connection", "close") + "" == PlainField("Connection", "close");
  }

  lemma RequestLines()
    ensures "POST " + "/predict" + " HTTP/1.0\r\n" == "POST" + " " + "/predict" + " HTTP/" + "1" + "." + "0" + CRLF
    ensures "GET " + "/history" + " HTTP/1.0\r\n" == "GET" + " " + "/history" + " HTTP/" + "1" + "." + "0" + CRLF
  {
  }

  lemma FixedFields()
    ensures "Accept: */*\r\n" == PlainField("Accept", "*/*")
    ensures "Connection: close\r\n\r\n" == PlainField("Connection", "close") + CRLF
  {
  }

  lemma LengthAndType(length: string, contentType: string)
    ensures "Content-Length: " + length + CRLF == PlainField("Content-Length", length)
    ensures "Content-Type: " + contentType + CRLF == PlainField("Content-Type", contentType)
  {
    assert "Content-Length: " == "Content-Length" + ": ";
    assert "Content-Type: " == "Content-Type" + ": ";
  }

  lemma PredictAssembled(line: string, a: string, b: string, c: string, d: string, body: string)
    ensures line + a + b + c + (d + CRLF) + body == line + (a + (b + (c + d))) + CRLF + body
  {
  }

  lemma PredictWritten(length: nat, contentType: string, body: seq<string>)
    ensures "POST " + "/predict" + " HTTP/1.0\r\n" + "Accept: */*\r\n"
            + ("Content-Length: " + ToDecimal(length) + CRLF) + ("Content-Type: " + contentType + CRLF)
            + "Connection: close\r\n\r\n" + Lines(body) ==
            Print(Message("POST", "/predict", "1", "0",
                          [Field("Accept", "*/*", []), Field("Content-Length", ToDecimal(length), []),
                           Field("Content-Type", contentType, []), Field("Connection", "close", [])], body))
  {
    hide PlainField, PrintFields, Lines, ToDecimal;
    RequestLines();
    FixedFields();
    LengthAndType(ToDecimal(length), contentType);
    PrintPredictFields(ToDecimal(length), contentType);
    PredictAssembled("POST" + " " + "/predict" + " HTTP/" + "1" + "." + "0" + CRLF,
                     PlainField("Accept", "*/*"), PlainField("Content-Length", ToDecimal(length)),
                     PlainField("Content-Type", contentType), PlainField("Connection", "close"), Lines(body));
  }

  lemma HistoryWritten()
    ensures "GET " + "/history" + " HTTP/1.0\r\n" + "Accept: */*\r\n" + "Connection: close\r\n\r\n" ==
            Print(HistoryMessage())
  {
    hide PlainField, PrintFields, Lines;
    RequestLines();
    FixedFields();
    PrintHistoryFields();
    NoLines();
    HistoryAssembled("GET" + " " + "/history" + " HTTP/" + "1" + "." + "0" + CRLF,
                     PlainField("Accept", "*/*"), PlainField("Connection", "close"));
  }

  lemma HistoryAssembled(line: string, a: string, b: string)
    ensures line + a + (b + CRLF) == line + (a + b) + CRLF + ""
  {
  }
}
