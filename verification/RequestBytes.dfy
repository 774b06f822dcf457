/**
 * Which bytes the request parser takes where, in the bytes' own numbers and letters: the character
 * classes of section 2.2 of RFC 1945, without reference to the program's tables.
 */
module RequestBytes {
  import opened Text
  import opened Decimal
  import opened RequestParser
  import opened RequestGrammar

  /** A byte of a method or header name: printable ASCII, and none of these characters. */
  predicate TokenByte(ch: char) {
    33 <= ch as int <= 126 && ch !in "()<>@,;:\\\"/[]?={}"
  }

  predicate ControlByte(ch: char) {
    ch as int < 32 || ch as int == 127
  }

  lemma TokenBytes(ch: char)
    ensures IsToken(ch) <==> TokenByte(ch)
    ensures IsCtl(ch) <==> ControlByte(ch)
  {
    assert ch in "()<>@,;:\\\"/[]?={}" <==>
      || ch == '(' || ch == ')' || ch == '<' || ch == '>' || ch == '@' || ch == ',' || ch == ';' || ch == ':'
      || ch == '\\' || ch == '"' || ch == '/' || ch == '[' || ch == ']' || ch == '?' || ch == '='
      || ch == '{' || ch == '}';
  }

  /** The method: token bytes, then a space; every other byte is refused. */
  lemma MethodBytes(c: Config, ch: char)
    ensures c.state == MethodStart ==>
      Step(c, ch) == if TokenByte(ch) then
        (c.(state := Method, request := c.request.(method_ := c.request.method_ + [ch])), NeedMore)
      else (c, Rejected)
    ensures c.state == Method ==>
      Step(c, ch) == if ch == ' ' then (c.(state := Uri), NeedMore)
      else if TokenByte(ch) then (c.(request := c.request.(method_ := c.request.method_ + [ch])), NeedMore)
      else (c, Rejected)
  {
    hide IsToken, IsTspecial;
    TokenBytes(ch);
  }

  /** The target: anything but control bytes, up to a space. */
  lemma UriBytes(c: Config, ch: char)
    requires c.state == Uri
    ensures Step(c, ch) == if ch == ' ' then (c.(state := VersionH), NeedMore)
      else if ControlByte(ch) then (c, Rejected)
      else (c.(request := c.request.(uri := c.request.uri + [ch])), NeedMore)
  {
    hide IsToken;
  }

  /** The version: only these letters, digits, the dot, and the end of the line. */
  lemma VersionBytes(c: Config, ch: char)
    ensures c.state == VersionH ==>
      Step(c, ch) == if ch == 'H' then (c.(state := VersionT1), NeedMore) else (c, Rejected)
    ensures c.state == VersionT1 ==>
      Step(c, ch) == if ch == 'T' then (c.(state := VersionT2), NeedMore) else (c, Rejected)
    ensures c.state == VersionT2 ==>
      Step(c, ch) == if ch == 'T' then (c.(state := VersionP), NeedMore) else (c, Rejected)
    ensures c.state == VersionP ==>
      Step(c, ch) == if ch == 'P' then (c.(state := VersionSlash), NeedMore) else (c, Rejected)
    ensures c.state == MajorStart || c.state == MinorStart ==>
      (Step(c, ch).1 == NeedMore <==> 48 <= ch as int <= 57) && (Step(c, ch).1 == Rejected || Step(c, ch).1 == NeedMore)
    ensures c.state == Major && !(48 <= ch as int <= 57) ==>
      Step(c, ch) == if ch == '.' then (c.(state := MinorStart), NeedMore) else (c, Rejected)
    ensures c.state == Minor && !(48 <= ch as int <= 57) ==>
      Step(c, ch) == if ch == '\r' then (c.(state := ExpectingNewline1), NeedMore) else (c, Rejected)
  {
    hide IsToken;
  }

  /** The beginning of a header line, and a header name. */
  lemma HeaderNameBytes(c: Config, ch: char)
    requires Safe(c)
    ensures c.state == HeaderLineStart ==>
      Step(c, ch) == if ch == '\r' then (c.(state := ExpectingNewline3), NeedMore)
      else if c.request.headers != [] && (ch == ' ' || ch == '\t') then (c.(state := HeaderLws), NeedMore)
      else if TokenByte(ch) then
        (c.(state := HeaderName, request := c.request.(headers := c.request.headers + [Header([ch], "")])), NeedMore)
      else (c, Rejected)
    ensures c.state == HeaderName ==>
      Step(c, ch) == if ch == ':' then (c.(state := SpaceBeforeHeaderValue), NeedMore)
      else if TokenByte(ch) then (c.(request := AddToName(c.request, [ch])), NeedMore)
      else (c, Rejected)
  {
    hide IsToken, IsTspecial, AddToName;
    TokenBytes(ch);
  }

  /** Header values and continuation lines: anything but control bytes, up to the end of the line. */
  lemma HeaderValueBytes(c: Config, ch: char)
    requires Safe(c)
    ensures c.state == SpaceBeforeHeaderValue ==>
      Step(c, ch) == if ch == ' ' then (c.(state := HeaderValue), NeedMore) else (c, Rejected)
    ensures c.state == HeaderLws && ch != '\r' && ch != ' ' && ch != '\t' ==>
      Step(c, ch) == if ControlByte(ch) then (c, Rejected)
      else (c.(state := HeaderValue, request := AddToValue(c.request, [ch])), NeedMore)
    ensures c.state == HeaderValue && ch != '\r' ==>
      Step(c, ch) == if ControlByte(ch) then (c, Rejected)
      else (c.(request := AddToValue(c.request, [ch])), NeedMore)
  {
    hide IsToken, AddToValue, Stoul;
  }

  /** The body: anything but control bytes, except that a line feed must follow a carriage return. */
  lemma BodyBytes(c: Config, ch: char)
    ensures c.state == BodyNormal && ControlByte(ch) && ch != '\r' ==> Step(c, ch) == (c, Rejected)
    ensures c.state == BodyNormal && !ControlByte(ch) ==> Step(c, ch) == (AddToBody(c, [ch]), NeedMore)
    ensures c.state == BodyNormal && ch == '\r' ==>
      Step(c, ch) == (AddToBody(c, "\r").(state := BodyExpectNewline), NeedMore)
    ensures c.state == BodyExpectNewline && ch != '\n' ==> Step(c, ch) == (c, Rejected)
  {
    hide IsToken, AddToBody;
  }

  // ---------------------------------------------------------------------------------------------
  // Requests with one header of any name
  // ---------------------------------------------------------------------------------------------

  lemma HeaderMessage(name: string, value: string)
    requires name != "" && name != "Content-Length"
    requires forall i :: 0 <= i < |name| ==> TokenByte(name[i])
    requires forall i :: 0 <= i < |value| ==> !ControlByte(value[i])
    ensures var m := Message("GET", "/history", "1", "0", [Field(name, value, [])], []);
      && WellFormed(m)
      && Denote(m) == RequestData("GET", "/history", 1, 0, [Header(name, value)], "")
      && Print(m) == "GET /history HTTP/1.0\r\n" + name + ": " + value + "\r\n\r\n"
  {
    hide Stoul, IsToken, IsCtl, TokenByte, ControlByte;
    GetWords();
    forall i | 0 <= i < |name|
      ensures IsToken(name[i])
    {
      TokenBytes(name[i]);
    }
    forall i | 0 <= i < |value|
      ensures !IsCtl(value[i])
    {
      TokenBytes(value[i]);
    }
    var f := Field(name, value, []);
    HeaderOfOne(f, name, value);
    PrintOne(f, name, value);
  }

  lemma HeaderOfOne(f: Field, name: string, value: string)
    requires f == Field(name, value, []) && name != "Content-Length"
    ensures HeadersOf([f]) == [Header(name, value)]
    ensures DeclaredLength([Header(name, value)]) == 0
  {
    assert [Header(name, value)][..0] == [];
    assert [f][1..] == [];
  }

  lemma PrintOne(f: Field, name: string, value: string)
    requires f == Field(name, value, [])
    ensures Print(Message("GET", "/history", "1", "0", [f], [])) ==
            "GET /history HTTP/1.0\r\n" + name + ": " + value + "\r\n\r\n"
  {
    hide PrintFields, PrintField, Lines, PrintRequestLine;
    var line := "GET /history HTTP/1.0\r\n";
    RequestLineText();
    FieldText(f, name, value);
    assert Lines([]) == "" by {
      NoLinesText();
    }
    OnePrinted(line, name, value);
    assert CRLF + CRLF == "\r\n\r\n";
  }

  lemma RequestLineText()
    ensures forall fields ::
              PrintRequestLine(Message("GET", "/history", "1", "0", fields, [])) == "GET /history HTTP/1.0\r\n"
  {
    assert "GET" + " " + "/history" + " HTTP/" + "1" + "." + "0" + CRLF == "GET /history HTTP/1.0\r\n";
  }

  lemma NoLinesText()
    ensures Lines([]) == ""
  {
  }

  lemma FieldText(f: Field, name: string, value: string)
    requires f == Field(name, value, [])
    ensures PrintFields([f]) == name + ": " + value + CRLF
  {
    assert [f][1..] == [];
    assert PrintFolds([]) == "" && PrintFields([]) == "";
    assert name + ": " + value + CRLF + "" == name + ": " + value + CRLF;
  }

  lemma OnePrinted(line: string, name: string, value: string)
    ensures line + (name + ": " + value + CRLF) + CRLF + "" == line + name + ": " + value + (CRLF + CRLF)
  {
  }

  lemma GetWords()
    ensures Tokens("GET") && UriText("/history") && AllDigits("1") && AllDigits("0")
    ensures ValueOf("1") == 1 && ValueOf("0") == 0
  {
    assert "1"[..0] == "" && "0"[..0] == "";
  }

  /** A request with a header of any name of token bytes is accepted, with that header. */
  lemma HeaderAccepted(start: Config, name: string, value: string, after: string)
    requires IsStart(start) && name != "" && name != "Content-Length"
    requires forall i :: 0 <= i < |name| ==> TokenByte(name[i])
    requires forall i :: 0 <= i < |value| ==> !ControlByte(value[i])
    ensures var text := "GET /history HTTP/1.0\r\n" + name + ": " + value + "\r\n\r\n";
      var report := Feed(start, text + after);
      && report.verdict == Accepted && report.used == |text|
      && report.config.request == RequestData("GET", "/history", 1, 0, [Header(name, value)], "")
  {
    hide Feed, WellFormed, Denote, Print, TokenByte, ControlByte;
    HeaderMessage(name, value);
    WellFormedAccepted(start, Message("GET", "/history", "1", "0", [Field(name, value, [])], []));
  }

  /** What every browser sends is accepted. */
  lemma HostAccepted(start: Config, after: string)
    requires IsStart(start)
    ensures var text := "GET /history HTTP/1.0\r\nHost: localhost\r\n\r\n";
      var report := Feed(start, text + after);
      && report.verdict == Accepted && report.used == |text|
      && report.config.request == RequestData("GET", "/history", 1, 0, [Header("Host", "localhost")], "")
  {
    hide Feed, TokenByte, ControlByte;
    HostBytes();
    HeaderAccepted(start, "Host", "localhost", after);
    HostText();
  }

  lemma HostBytes()
    ensures forall i :: 0 <= i < |"Host"| ==> TokenByte("Host"[i])
    ensures forall i :: 0 <= i < |"localhost"| ==> !ControlByte("localhost"[i])
    ensures "Host" != "Content-Length"
  {
    assert "Host"[0] != "Content-Length"[0];
  }

  lemma HostText()
    ensures "GET /history HTTP/1.0\r\n" + "Host" + ": " + "localhost" + "\r\n\r\n" ==
            "GET /history HTTP/1.0\r\nHost: localhost\r\n\r\n"
  {
  }
}
