/** The bytes of replies, by the numbers of their statuses (sections 6.1 and 9 of RFC 1945). */
module ReplyBytes {
  import opened Text
  import opened Decimal
  import opened RequestParser
  import opened Reply

  /** The numbers of `reply::status_type`. */
  function Code(status: Status): nat {
    match status
    case Ok => 200
    case Created => 201
    case AcceptedStatus => 202
    case NoContent => 204
    case MultipleChoices => 300
    case MovedPermanently => 301
    case MovedTemporarily => 302
    case NotModified => 304
    case BadRequest => 400
    case Unauthorized => 401
    case Forbidden => 403
    case NotFound => 404
    case InternalServerError => 500
    case NotImplemented => 501
    case BadGateway => 502
    case ServiceUnavailable => 503
  }

  /** The reason phrase that belongs to a number. */
  function Reason(code: nat): string {
    if code < 300 then
      if code == 200 then "OK" else if code == 201 then "Created"
      else if code == 202 then "Accepted" else "No Content"
    else if code < 400 then
      if code == 300 then "Multiple Choices" else if code == 301 then "Moved Permanently"
      else if code == 302 then "Moved Temporarily" else "Not Modified"
    else if code < 500 then
      if code == 400 then "Bad Request" else if code == 401 then "Unauthorized"
      else if code == 403 then "Forbidden" else "Not Found"
    else
      if code == 500 then "Internal Server Error" else if code == 501 then "Not Implemented"
      else if code == 502 then "Bad Gateway" else "Service Unavailable"
  }

  lemma CodesDiffer(s: Status, t: Status)
    ensures Code(s) == Code(t) ==> s == t
    ensures 200 <= Code(s) < 600
  {
  }

  /** The three digits of such a number. */
  function Digits(code: nat): string
    requires 100 <= code < 1000
  {
    ["0123456789"[code / 100], "0123456789"[code / 10 % 10], "0123456789"[code % 10]]
  }

  lemma DigitLetter(d: nat)
    requires d < 10
    ensures "0123456789"[d] == ('0' as int + d) as char
  {
  }

  lemma DigitsDecimal(code: nat)
    requires 100 <= code < 1000
    ensures ToDecimal(code) == Digits(code)
  {
    DigitLetter(code / 100);
    DigitLetter(code / 10 % 10);
    DigitLetter(code % 10);
    assert code / 10 / 10 == code / 100;
    assert ToDecimal(code / 100) == ["0123456789"[code / 100]];
    assert ToDecimal(code / 10) == ToDecimal(code / 100) + ["0123456789"[code / 10 % 10]];
  }

  lemma SuccessDigits()
    ensures Digits(200) == "200" && Digits(201) == "201" && Digits(202) == "202" && Digits(204) == "204"
  {
  }

  lemma RedirectionDigits()
    ensures Digits(300) == "300" && Digits(301) == "301" && Digits(302) == "302" && Digits(304) == "304"
  {
  }

  lemma ClientErrorDigits()
    ensures Digits(400) == "400" && Digits(401) == "401" && Digits(403) == "403" && Digits(404) == "404"
  {
  }

  lemma ServerErrorDigits()
    ensures Digits(500) == "500" && Digits(501) == "501" && Digits(502) == "502" && Digits(503) == "503"
  {
  }

  lemma SuccessLines()
    ensures "HTTP/1.0 " + "200" + " " + "OK" == "HTTP/1.0 200 OK"
    ensures "HTTP/1.0 " + "201" + " " + "Created" == "HTTP/1.0 201 Created"
    ensures "HTTP/1.0 " + "202" + " " + "Accepted" == "HTTP/1.0 202 Accepted"
    ensures "HTTP/1.0 " + "204" + " " + "No Content" == "HTTP/1.0 204 No Content"
  {
  }

  lemma RedirectionLines()
    ensures "HTTP/1.0 " + "300" + " " + "Multiple Choices" == "HTTP/1.0 300 Multiple Choices"
    ensures "HTTP/1.0 " + "304" + " " + "Not Modified" == "HTTP/1.0 304 Not Modified"
  {
  }

  lemma MovedLines()
    ensures "HTTP/1.0 " + "301" + " " + "Moved Permanently" == "HTTP/1.0 301 Moved Permanently"
    ensures "HTTP/1.0 " + "302" + " " + "Moved Temporarily" == "HTTP/1.0 302 Moved Temporarily"
  {
  }

  lemma ClientErrorLines()
    ensures "HTTP/1.0 " + "400" + " " + "Bad Request" == "HTTP/1.0 400 Bad Request"
    ensures "HTTP/1.0 " + "401" + " " + "Unauthorized" == "HTTP/1.0 401 Unauthorized"
    ensures "HTTP/1.0 " + "403" + " " + "Forbidden" == "HTTP/1.0 403 Forbidden"
    ensures "HTTP/1.0 " + "404" + " " + "Not Found" == "HTTP/1.0 404 Not Found"
  {
  }

  lemma ServerErrorLines()
    ensures "HTTP/1.0 " + "500" + " " + "Internal Server Error" == "HTTP/1.0 500 Internal Server Error"
    ensures "HTTP/1.0 " + "501" + " " + "Not Implemented" == "HTTP/1.0 501 Not Implemented"
  {
  }

  lemma GatewayErrorLines()
    ensures "HTTP/1.0 " + "502" + " " + "Bad Gateway" == "HTTP/1.0 502 Bad Gateway"
    ensures "HTTP/1.0 " + "503" + " " + "Service Unavailable" == "HTTP/1.0 503 Service Unavailable"
  {
  }

  /** The status line: the protocol, the number and the reason. */
  lemma StatusLine(status: Status)
    ensures 100 <= Code(status) < 1000
    ensures StatusText(status) == "HTTP/1.0 " + Digits(Code(status)) + " " + Reason(Code(status))
  {
    hide Digits;
    if Code(status) < 300 {
      SuccessDigits();
      SuccessLines();
    } else if Code(status) < 400 {
      RedirectionDigits();
      RedirectionLines();
      MovedLines();
    } else if Code(status) < 500 {
      ClientErrorDigits();
      ClientErrorLines();
    } else {
      ServerErrorDigits();
      ServerErrorLines();
      GatewayErrorLines();
    }
  }

  /** The page of a stock reply shows the number and the reason; for 204 only part of it. */
  lemma StockPage(status: Status)
    ensures 100 <= Code(status) < 1000
    ensures StockContent(status) ==
            if Code(status) == 200 then ""
            else "<html><head><title>" + Reason(Code(status)) + "</title></head><body><h1>" + Digits(Code(status)) + " "
                 + (if Code(status) == 204 then "Content" else Reason(Code(status))) + "</h1></body></html>"
  {
    hide Reason, Digits, StockContent, Page;
    PageHeading(status);
    if Code(status) != 200 {
      PageText(Reason(Code(status)), Digits(Code(status)),
               if Code(status) == 204 then "Content" else Reason(Code(status)));
    }
  }

  lemma PageText(title: string, number: string, words: string)
    ensures Page(title, number + " " + words) ==
            "<html><head><title>" + title + "</title></head><body><h1>" + number + " " + words + "</h1></body></html>"
  {
    ThreeParts("<html><head><title>" + title + "</title></head><body><h1>", number + " ", words);
    ThreeParts("<html><head><title>" + title + "</title></head><body><h1>", number, " ");
  }

  lemma SuccessHeadings()
    ensures "201" + " " + "Created" == "201 Created"
    ensures "202" + " " + "Accepted" == "202 Accepted"
    ensures "204" + " " + "Content" == "204 Content"
  {
  }

  lemma RedirectionHeadings()
    ensures "300" + " " + "Multiple Choices" == "300 Multiple Choices"
    ensures "304" + " " + "Not Modified" == "304 Not Modified"
  {
  }

  lemma MovedHeadings()
    ensures "301" + " " + "Moved Permanently" == "301 Moved Permanently"
    ensures "302" + " " + "Moved Temporarily" == "302 Moved Temporarily"
  {
  }

  lemma ClientErrorHeadings()
    ensures "400" + " " + "Bad Request" == "400 Bad Request"
    ensures "401" + " " + "Unauthorized" == "401 Unauthorized"
    ensures "403" + " " + "Forbidden" == "403 Forbidden"
    ensures "404" + " " + "Not Found" == "404 Not Found"
  {
  }

  lemma ServerErrorHeadings()
    ensures "500" + " " + "Internal Server Error" == "500 Internal Server Error"
    ensures "501" + " " + "Not Implemented" == "501 Not Implemented"
  {
  }

  lemma GatewayErrorHeadings()
    ensures "502" + " " + "Bad Gateway" == "502 Bad Gateway"
    ensures "503" + " " + "Service Unavailable" == "503 Service Unavailable"
  {
  }

  lemma PageHeading(status: Status)
    ensures 100 <= Code(status) < 1000
    ensures Code(status) == 200 <==> status == Ok
    ensures StockContent(status) ==
            if status == Ok then ""
            else Page(Reason(Code(status)),
                      Digits(Code(status)) + " " + (if Code(status) == 204 then "Content" else Reason(Code(status))))
  {
    hide Page, Digits;
    if Code(status) < 300 {
      SuccessDigits();
      SuccessHeadings();
    } else if Code(status) < 400 {
      RedirectionDigits();
      RedirectionHeadings();
      MovedHeadings();
    } else if Code(status) < 500 {
      ClientErrorDigits();
      ClientErrorHeadings();
    } else {
      ServerErrorDigits();
      ServerErrorHeadings();
      GatewayErrorHeadings();
    }
  }

  /** All bytes of a reply with a length. */
  lemma WireBytes(status: Status, content: string, mediaType: string)
    ensures 100 <= Code(status) < 1000
    ensures Wire(WithLength(status, content, mediaType)) ==
            "HTTP/1.0 " + Digits(Code(status)) + " " + Reason(Code(status))
            + "\r\nContent-Length: " + ToDecimal(|content|) + "\r\nContent-Type: " + mediaType + "\r\n\r\n" + content
  {
    hide StatusText, Digits, Reason, ToDecimal, Code;
    StatusLine(status);
    WireOfLines(status, content, mediaType);
    WireAssembled(StatusText(status), ToDecimal(|content|), mediaType, content);
  }

  lemma WireOfLines(status: Status, content: string, mediaType: string)
    ensures Wire(WithLength(status, content, mediaType)) ==
            StatusText(status) + CRLF + ("Content-Length: " + ToDecimal(|content|)) + CRLF
            + ("Content-Type: " + mediaType) + CRLF + CRLF + content
  {
    hide StatusText, ToDecimal, Lines, HeaderLine, HeadLines;
    var length := ToDecimal(|content|);
    var r := WithLength(status, content, mediaType);
    assert r.headers[0] == Header("Content-Length", length) && r.headers[1] == Header("Content-Type", mediaType);
    HeadOfTwo(r);
    LengthLines(length, mediaType);
    ThreeLines(StatusText(status), "Content-Length: " + length, "Content-Type: " + mediaType);
  }

  lemma HeadOfTwo(r: ReplyData)
    requires |r.headers| == 2
    ensures HeadLines(r) == [StatusText(r.status), HeaderLine(r.headers[0]), HeaderLine(r.headers[1])]
  {
    hide StatusText, HeaderLine;
  }

  lemma LengthLines(length: string, mediaType: string)
    ensures HeaderLine(Header("Content-Length", length)) == "Content-Length: " + length
    ensures HeaderLine(Header("Content-Type", mediaType)) == "Content-Type: " + mediaType
  {
    assert "Content-Length" + ": " == "Content-Length: ";
    assert "Content-Type" + ": " == "Content-Type: ";
  }

  lemma ThreeLines(a: string, b: string, c: string)
    ensures Lines([a, b, c]) == a + CRLF + b + CRLF + c + CRLF
  {
    assert [a, b, c][1..] == [b, c] && [b, c][1..] == [c] && [c][1..] == [];
    assert Lines([c]) == c + CRLF + "" == c + CRLF;
    assert Lines([b, c]) == b + CRLF + (c + CRLF);
  }

  lemma WireAssembled(line: string, length: string, mediaType: string, content: string)
    ensures line + CRLF + ("Content-Length: " + length) + CRLF + ("Content-Type: " + mediaType) + CRLF
            + CRLF + content ==
            line + "\r\nContent-Length: " + length + "\r\nContent-Type: " + mediaType + "\r\n\r\n" + content
  {
    assert CRLF + "Content-Length: " == "\r\nContent-Length: ";
    assert CRLF + "Content-Type: " == "\r\nContent-Type: ";
    assert CRLF + CRLF == "\r\n\r\n";
    assert line + CRLF + ("Content-Length: " + length) == line + (CRLF + "Content-Length: ") + length;
    var a := line + "\r\nContent-Length: " + length;
    assert a + CRLF + ("Content-Type: " + mediaType) == a + (CRLF + "Content-Type: ") + mediaType;
    var b := a + "\r\nContent-Type: " + mediaType;
    assert b + CRLF + CRLF == b + (CRLF + CRLF);
  }

  lemma WireStart(r: ReplyData)
    ensures StatusText(r.status) + CRLF <= Wire(r)
  {
    hide StatusText;
    LinesFirst(HeadLines(r), CRLF + r.content);
    ThreeParts(Lines(HeadLines(r)), CRLF, r.content);
  }

  /** A reader that takes the three digits after the protocol gets the number of the status. */
  lemma CodeRead(r: ReplyData)
    ensures var w := Wire(r);
      && |w| > 12 && w[..9] == "HTTP/1.0 " && AllDigits(w[9..12]) && ValueOf(w[9..12]) == Code(r.status)
  {
    hide StatusText, Reason, Wire;
    WireStart(r);
    StatusLine(r.status);
    var w, line := Wire(r), StatusText(r.status);
    DigitsDecimal(Code(r.status));
    ValueOfToDecimal(Code(r.status));
    assert w[..|line|] == line;
    assert w[..9] == line[..9] && w[9..12] == line[9..12] == Digits(Code(r.status));
  }

  /** Replies of different statuses are read differently. */
  lemma StatusRead(r: ReplyData, s: ReplyData)
    ensures |Wire(r)| > 12 && |Wire(s)| > 12
    ensures Wire(r)[..12] == Wire(s)[..12] <==> r.status == s.status
  {
    hide StatusText, Reason, Wire;
    CodeRead(r);
    CodeRead(s);
    CodesDiffer(r.status, s.status);
    var w, v := Wire(r), Wire(s);
    assert w[..12] == w[..9] + w[9..12] && v[..12] == v[..9] + v[9..12];
    assert w[..12][9..12] == w[9..12] && v[..12][9..12] == v[9..12];
    if r.status == s.status {
      WireStart(r);
      WireStart(s);
      LineLength(r.status);
    }
  }

  lemma LineLength(status: Status)
    ensures |StatusText(status)| >= 12
  {
    StatusLine(status);
  }

  /** The first lines of the two kinds of reply that the request handler makes. */
  lemma FirstLines(r: ReplyData)
    ensures r.status == Ok ==> "HTTP/1.0 200 OK\r\n" <= Wire(r)
    ensures r.status == BadRequest ==> "HTTP/1.0 400 Bad Request\r\n" <= Wire(r)
  {
    hide Wire;
    WireStart(r);
    assert "HTTP/1.0 200 OK" + CRLF == "HTTP/1.0 200 OK\r\n";
    assert "HTTP/1.0 400 Bad Request" + CRLF == "HTTP/1.0 400 Bad Request\r\n";
  }

  /** All bytes of a reply that serves a text. */
  function Served(text: string): string {
    "HTTP/1.0 200 OK" + "\r\n" + ("Content-Length: " + ToDecimal(|text|)) + "\r\n"
    + ("Content-Type: " + "application/json") + "\r\n" + "\r\n" + text
  }

  lemma ServedBytes(text: string)
    ensures Wire(WithLength(Ok, text, "application/json")) == Served(text)
  {
    hide Wire, WithLength, ToDecimal;
    WireOfLines(Ok, text, "application/json");
  }

  /** All bytes of the reply that refuses a request. */
  lemma RefusalBytes()
    ensures Wire(StockReply(BadRequest)) ==
            "HTTP/1.0 400 Bad Request" + "\r\n" + ("Content-Length: " + "89") + "\r\n"
            + ("Content-Type: " + "text/html") + "\r\n" + "\r\n"
            + ("<html><head><title>" + "Bad Request" + "</title></head><body><h1>" + "400 Bad Request"
               + "</h1></body></html>")
  {
    hide Wire, WithLength, ToDecimal, Page;
    WireOfLines(BadRequest, StockContent(BadRequest), "text/html");
    RefusalPage();
    EightyNine();
  }

  lemma RefusalPage()
    ensures StockContent(BadRequest) ==
            "<html><head><title>" + "Bad Request" + "</title></head><body><h1>" + "400 Bad Request"
            + "</h1></body></html>"
    ensures |StockContent(BadRequest)| == 89
  {
  }

  lemma EightyNine()
    ensures ToDecimal(89) == "89"
  {
    assert ToDecimal(8) == "8";
    assert "8" + "9" == "89";
  }
}
