/** The bytes of the client's two requests, written out. */
module ClientBytes {
  import opened Text
  import opened Decimal
  import opened Base64
  import opened RequestGrammar
  import opened MultipartBody
  import opened Client

  /** The body: for every file a delimiter line, two header lines, a blank line and the text of its bytes. */
  function BodyText(files: seq<File>): string {
    if files == [] then "--" + "77580b83-390b-4c34-8393-4eac360c7b42" + "--" + "\r\n"
    else
      "--" + "77580b83-390b-4c34-8393-4eac360c7b42" + "\r\n"
      + ("Content-Disposition: form-data; name=\"datafile\"; filename=\"" + files[0].name + "\"" + "\r\n")
      + ("Content-Type: image/jpeg" + "\r\n")
      + "\r\n"
      + (Encode(files[0].content, false) + "\r\n")
      + BodyText(files[1..])
  }

  lemma PartBytes(a: string, b: string, c: string, e: string, rest: seq<string>)
    ensures Lines([a] + [b, c, "", e] + rest) ==
            a + "\r\n" + (b + "\r\n") + (c + "\r\n") + "\r\n" + (e + "\r\n") + Lines(rest)
  {
    hide Lines;
    assert [a] + [b, c, "", e] + rest == [a] + ([b] + ([c] + ([""] + ([e] + rest))));
    NextLine(a, [b] + ([c] + ([""] + ([e] + rest))));
    NextLine(b, [c] + ([""] + ([e] + rest)));
    NextLine(c, [""] + ([e] + rest));
    NextLine("", [e] + rest);
    NextLine(e, rest);
    assert "" + "\r\n" == "\r\n";
    FiveParts(a + "\r\n", b + "\r\n", c + "\r\n", "\r\n", e + "\r\n", Lines(rest));
  }

  lemma NextLine(l: string, rest: seq<string>)
    ensures Lines([l] + rest) == l + "\r\n" + Lines(rest)
  {
    assert ([l] + rest)[1..] == rest;
  }

  lemma FiveParts(a: string, b: string, c: string, d: string, e: string, f: string)
    ensures a + (b + (c + (d + (e + f)))) == a + b + c + d + e + f
  {
  }

  /** The body that the client sends. */
  lemma {:induction false} BodyBytes(files: seq<File>)
    ensures Lines(BodyOf(files)) == BodyText(files)
  {
    hide Lines, Encode;
    if files == [] {
      CloseText(BOUNDARY);
    } else {
      BodyBytes(files[1..]);
      var entries := EntriesOf(files);
      assert entries[1..] == EntriesOf(files[1..]);
      PartBytes("--" + BOUNDARY, NameLine(FilePart(), files[0].name), PART_TYPE, Encode(files[0].content, false),
                BodyOf(files[1..]));
    }
  }

  /** The whole prediction request. */
  lemma PredictBytes(files: seq<File>)
    ensures Print(PredictMessage(files)) ==
            "POST " + "/predict" + " HTTP/1.0\r\n"
            + "Accept: */*\r\n"
            + ("Content-Length: " + ToDecimal(|BodyText(files)|) + "\r\n")
            + ("Content-Type: " + ("multipart/form-data; boundary=" + "77580b83-390b-4c34-8393-4eac360c7b42") + "\r\n")
            + "Connection: close\r\n\r\n"
            + BodyText(files)
  {
    hide Lines, Print, BodyOf, BodyText, ToDecimal;
    BodyBytes(files);
    PredictWritten(|BodyText(files)|, FORM_TYPE + BOUNDARY, BodyOf(files));
  }

  /** The whole history request. */
  lemma HistoryBytes()
    ensures Print(HistoryMessage()) ==
            "GET " + "/history" + " HTTP/1.0\r\n" + "Accept: */*\r\n" + "Connection: close\r\n\r\n"
  {
    hide Print;
    HistoryWritten();
  }
}
