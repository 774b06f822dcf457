/** Replies: their stock contents, how they are written out, and how their content is found again. */
module Reply {
  import opened Text
  import opened Decimal
  import opened RequestParser

  datatype Status =
    | Ok | Created | AcceptedStatus | NoContent
    | MultipleChoices | MovedPermanently | MovedTemporarily | NotModified
    | BadRequest | Unauthorized | Forbidden | NotFound
    | InternalServerError | NotImplemented | BadGateway | ServiceUnavailable

  /** The contents of a `reply`. */
  datatype ReplyData = ReplyData(status: Status, headers: seq<Header>, content: string)

  // ---------------------------------------------------------------------------------------------
  // The tables
  // ---------------------------------------------------------------------------------------------

  /** The status line, without its line end. */
  function StatusText(status: Status): string {
    match status
    case Ok => "HTTP/1.0 200 OK"
    case Created => "HTTP/1.0 201 Created"
    case AcceptedStatus => "HTTP/1.0 202 Accepted"
    case NoContent => "HTTP/1.0 204 No Content"
    case MultipleChoices => "HTTP/1.0 300 Multiple Choices"
    case MovedPermanently => "HTTP/1.0 301 Moved Permanently"
    case MovedTemporarily => "HTTP/1.0 302 Moved Temporarily"
    case NotModified => "HTTP/1.0 304 Not Modified"
    case BadRequest => "HTTP/1.0 400 Bad Request"
    case Unauthorized => "HTTP/1.0 401 Unauthorized"
    case Forbidden => "HTTP/1.0 403 Forbidden"
    case NotFound => "HTTP/1.0 404 Not Found"
    case InternalServerError => "HTTP/1.0 500 Internal Server Error"
    case NotImplemented => "HTTP/1.0 501 Not Implemented"
    case BadGateway => "HTTP/1.0 502 Bad Gateway"
    case ServiceUnavailable => "HTTP/1.0 503 Service Unavailable"
  }

  function Page(title: string, heading: string): string {
    "<html><head><title>" + title + "</title></head><body><h1>" + heading + "</h1></body></html>"
  }

  function StockContent(status: Status): string {
    match status
    case Ok => ""
    case Created => Page("Created", "201 Created")
    case AcceptedStatus => Page("Accepted", "202 Accepted")
    case NoContent => Page("No Content", "204 Content")
    case MultipleChoices => Page("Multiple Choices", "300 Multiple Choices")
    case MovedPermanently => Page("Moved Permanently", "301 Moved Permanently")
    case MovedTemporarily => Page("Moved Temporarily", "302 Moved Temporarily")
    case NotModified => Page("Not Modified", "304 Not Modified")
    case BadRequest => Page("Bad Request", "400 Bad Request")
    case Unauthorized => Page("Unauthorized", "401 Unauthorized")
    case Forbidden => Page("Forbidden", "403 Forbidden")
    case NotFound => Page("Not Found", "404 Not Found")
    case InternalServerError => Page("Internal Server Error", "500 Internal Server Error")
    case NotImplemented => Page("Not Implemented", "501 Not Implemented")
    case BadGateway => Page("Bad Gateway", "502 Bad Gateway")
    case ServiceUnavailable => Page("Service Unavailable", "503 Service Unavailable")
  }

  // ---------------------------------------------------------------------------------------------
  // Specification
  // ---------------------------------------------------------------------------------------------

  /** A reply with the two headers that every reply of the server has. */
  function WithLength(status: Status, content: string, mediaType: string): ReplyData {
    ReplyData(status,
              [Header("Content-Length", ToDecimal(|content|)), Header("Content-Type", mediaType)],
              content)
  }

  function StockReply(status: Status): ReplyData {
    WithLength(status, StockContent(status), "text/html")
  }

  /** How a call of the request handler ends. */
  datatype Answer = Refused | Completed(text: string) | Threw

  /** What a call of the request handler makes of the reply. */
  function Answered(reply: ReplyData, answer: Answer): ReplyData {
    match answer
    case Refused => StockReply(BadRequest)
    case Completed(text) => WithLength(Ok, reply.content + text, "application/json")
    case Threw => reply
  }

  function HeaderLine(h: Header): string {
    h.name + ": " + h.value
  }

  function HeadLines(r: ReplyData): seq<string> {
    [StatusText(r.status)] + seq(|r.headers|, i requires 0 <= i < |r.headers| => HeaderLine(r.headers[i]))
  }

  /** The bytes that are sent. */
  function Wire(r: ReplyData): string {
    Lines(HeadLines(r)) + CRLF + r.content
  }

  // ---------------------------------------------------------------------------------------------
  // The reply object
  // ---------------------------------------------------------------------------------------------

  class ReplyObject {
    var status: Status
    var headers: seq<Header>
    var content: string

    constructor ()
      ensures headers == [] && content == ""
    {
      headers, content := [], "";
    }

    function Data(): ReplyData
      reads this
    {
      ReplyData(status, headers, content)
    }

    /** `rep = reply::stock_reply(status)`. */
    method SetStockReply(newStatus: Status)
      modifies this
      ensures Data() == StockReply(newStatus)
    {
      status := newStatus;
      content := StockContent(newStatus);
      headers := [Header("Content-Length", ToDecimal(|content|)), Header("Content-Type", "text/html")];
    }

    /** The end of a successful route: text is appended to the content before its length is taken. */
    method Complete(text: string)
      modifies this
      ensures Data() == WithLength(Ok, old(content) + text, "application/json")
    {
      content := content + text;
      status := Ok;
      headers := [Header("Content-Length", ToDecimal(|content|)), Header("Content-Type", "application/json")];
    }

    method ToBuffers() returns (buffers: seq<string>)
      ensures Concat(buffers) == Wire(Data())
    {
      hide StatusText;
      buffers := [StatusText(status) + CRLF];
      HeadStart(Data());
      for i := 0 to |headers|
        invariant Concat(buffers) == Lines(HeadLines(Data())[..i + 1])
      {
        var h := headers[i];
        HeadGrows(Data(), i);
        ConcatLast(buffers, [h.name, ": ", h.value, CRLF]);
        FourBuffers(h);
        buffers := buffers + [h.name, ": ", h.value, CRLF];
      }
      assert HeadLines(Data())[..|headers| + 1] == HeadLines(Data());
      ConcatLast(buffers, [CRLF, content]);
      TwoBuffers(CRLF, content);
      ThreeParts(Concat(buffers), CRLF, content);
      buffers := buffers + [CRLF, content];
    }
  }

  lemma HeadStart(r: ReplyData)
    ensures Concat([StatusText(r.status) + CRLF]) == Lines(HeadLines(r)[..1])
  {
    assert HeadLines(r)[..1] == [StatusText(r.status)];
  }

  lemma HeadGrows(r: ReplyData, i: nat)
    requires i < |r.headers|
    ensures Lines(HeadLines(r)[..i + 2]) == Lines(HeadLines(r)[..i + 1]) + (HeaderLine(r.headers[i]) + CRLF)
  {
    hide StatusText, HeaderLine;
    var ls := HeadLines(r);
    assert ls[..i + 2] == ls[..i + 1] + [ls[i + 1]];
    LinesConcat(ls[..i + 1], [ls[i + 1]]);
    assert Lines([ls[i + 1]]) == ls[i + 1] + CRLF + "" == ls[i + 1] + CRLF;
  }

  lemma FourBuffers(h: Header)
    ensures Concat([h.name, ": ", h.value, CRLF]) == HeaderLine(h) + CRLF
  {
    hide Concat;
    var b := [h.name, ": ", h.value, CRLF];
    assert b[1..] == [": ", h.value, CRLF] && b[1..][1..] == [h.value, CRLF] && b[1..][1..][1..] == [CRLF];
    ConcatFirst(b);
    ConcatFirst(b[1..]);
    ConcatFirst(b[1..][1..]);
    ConcatFirst(b[1..][1..][1..]);
    assert h.name + (": " + (h.value + CRLF)) == HeaderLine(h) + CRLF;
  }

  lemma TwoBuffers(a: string, b: string)
    ensures Concat([a, b]) == a + b
  {
    hide Concat;
    assert [a, b][1..] == [b];
    ConcatFirst([a, b]);
    ConcatFirst([b]);
  }

  // ---------------------------------------------------------------------------------------------
  // Framing
  // ---------------------------------------------------------------------------------------------

  /** What a client takes for the content: everything after the first blank line. */
  function ContentOf(wire: string): Option<string> {
    match Find(wire, BLANK_LINE, 0)
    case None => None
    case Some(i) => Some(wire[i + 4..])
  }

  lemma SuccessTextIsLine(status: Status)
    requires status.Ok? || status.Created? || status.AcceptedStatus? || status.NoContent?
    ensures IsLine(StatusText(status)) && StatusText(status) != ""
  {
  }

  lemma RedirectionTextIsLine(status: Status)
    requires status.MultipleChoices? || status.NotModified?
    ensures IsLine(StatusText(status)) && StatusText(status) != ""
  {
  }

  lemma MovedTextIsLine(status: Status)
    requires status.MovedPermanently? || status.MovedTemporarily?
    ensures IsLine(StatusText(status)) && StatusText(status) != ""
  {
  }

  lemma ClientErrorTextIsLine(status: Status)
    requires status.BadRequest? || status.Unauthorized? || status.Forbidden? || status.NotFound?
    ensures IsLine(StatusText(status)) && StatusText(status) != ""
  {
  }

  lemma ServerErrorTextIsLine(status: Status)
    requires status.InternalServerError? || status.NotImplemented?
    ensures IsLine(StatusText(status)) && StatusText(status) != ""
  {
  }

  lemma GatewayErrorTextIsLine(status: Status)
    requires status.BadGateway? || status.ServiceUnavailable?
    ensures IsLine(StatusText(status)) && StatusText(status) != ""
  {
  }

  lemma StatusTextIsLine(status: Status)
    ensures IsLine(StatusText(status)) && StatusText(status) != ""
  {
    hide StatusText;
    if status.Ok? || status.Created? || status.AcceptedStatus? || status.NoContent? {
      SuccessTextIsLine(status);
    } else if status.MultipleChoices? || status.NotModified? {
      RedirectionTextIsLine(status);
    } else if status.MovedPermanently? || status.MovedTemporarily? {
      MovedTextIsLine(status);
    } else if status.BadRequest? || status.Unauthorized? || status.Forbidden? || status.NotFound? {
      ClientErrorTextIsLine(status);
    } else if status.InternalServerError? || status.NotImplemented? {
      ServerErrorTextIsLine(status);
    } else {
      GatewayErrorTextIsLine(status);
    }
  }

  /** Header lines without line ends in them. */
  predicate HeadersOk(headers: seq<Header>) {
    forall i :: 0 <= i < |headers| ==> IsLine(headers[i].name) && IsLine(headers[i].value)
  }

  lemma {:induction false} FindHeadEnd(ls: seq<string>, content: string)
    requires ls != [] && forall i :: 0 <= i < |ls| ==> IsLine(ls[i]) && ls[i] != ""
    ensures Find(Lines(ls) + (CRLF + content), BLANK_LINE, 0) == Some(|Lines(ls)| - 2)
    ensures |Lines(ls)| >= 2
  {
    hide Find;
    LinesFirst(ls, CRLF + content);
    if |ls| == 1 {
      assert Lines(ls[1..]) + (CRLF + content) == CRLF + content;
      FindBlankLine(ls[0], content);
    } else {
      FindHeadEnd(ls[1..], content);
      LinesFirst(ls[1..], CRLF + content);
      SkipLine(ls[0], Lines(ls[1..]) + (CRLF + content));
    }
  }

  /** The content of a reply is what follows the first blank line of its bytes. */
  lemma ContentRecovered(r: ReplyData)
    requires HeadersOk(r.headers)
    ensures ContentOf(Wire(r)) == Some(r.content)
  {
    hide Find, StatusText;
    var ls := HeadLines(r);
    StatusTextIsLine(r.status);
    assert forall i :: 0 <= i < |ls| ==> IsLine(ls[i]) && ls[i] != "";
    FindHeadEnd(ls, r.content);
    ThreeParts(Lines(ls), CRLF, r.content);
    assert Wire(r)[|Lines(ls)| + 2..] == r.content;
  }

  /**
   * Every reply that the server makes states its length, and a client that looks for the first
   * blank line and for that length finds the content.
   */
  lemma ReplyFramed(status: Status, content: string, mediaType: string, after: string)
    requires IsLine(mediaType) && |content| < WORD_LIMIT
    ensures var r := WithLength(status, content, mediaType);
      && r.headers[0].name == "Content-Length"
      && Stoul(r.headers[0].value) == Some(|content|)
      && ContentOf(Wire(r)) == Some(content)
      && (ContentOf(Wire(r) + after).Some? && content <= ContentOf(Wire(r) + after).value)
  {
    hide Find, StatusText, Stoul, Lines;
    var r := WithLength(status, content, mediaType);
    StoulToDecimal(|content|);
    DigitsAreLine(ToDecimal(|content|));
    ContentRecovered(r);
    var longer := r.(content := content + after);
    ContentRecovered(longer);
    ThreeParts(Lines(HeadLines(r)) + CRLF, content, after);
    assert HeadLines(longer) == HeadLines(r);
    assert content <= content + after;
  }

  lemma DigitsAreLine(s: string)
    requires AllDigits(s)
    ensures IsLine(s)
  {
  }

  lemma PageLength(title: string, heading: string)
    ensures |Page(title, heading)| <= |title| + |heading| + 100
  {
  }

  lemma StockContentShort(status: Status)
    ensures |StockContent(status)| < WORD_LIMIT
  {
    hide Page;
    match status {
      case Ok =>
      case Created => PageLength("Created", "201 Created");
      case AcceptedStatus => PageLength("Accepted", "202 Accepted");
      case NoContent => PageLength("No Content", "204 Content");
      case MultipleChoices => PageLength("Multiple Choices", "300 Multiple Choices");
      case MovedPermanently => PageLength("Moved Permanently", "301 Moved Permanently");
      case MovedTemporarily => PageLength("Moved Temporarily", "302 Moved Temporarily");
      case NotModified => PageLength("Not Modified", "304 Not Modified");
      case BadRequest => PageLength("Bad Request", "400 Bad Request");
      case Unauthorized => PageLength("Unauthorized", "401 Unauthorized");
      case Forbidden => PageLength("Forbidden", "403 Forbidden");
      case NotFound => PageLength("Not Found", "404 Not Found");
      case InternalServerError => PageLength("Internal Server Error", "500 Internal Server Error");
      case NotImplemented => PageLength("Not Implemented", "501 Not Implemented");
      case BadGateway => PageLength("Bad Gateway", "502 Bad Gateway");
      case ServiceUnavailable => PageLength("Service Unavailable", "503 Service Unavailable");
    }
  }

  /** Every stock reply states the length of its content, and the content is found again. */
  lemma StockRepliesFramed(status: Status)
    ensures var r := StockReply(status);
      Stoul(r.headers[0].value) == Some(|r.content|) && ContentOf(Wire(r)) == Some(r.content)
  {
    hide Stoul, ContentOf, Wire, StockContent;
    StockContentShort(status);
    assert IsLine("text/html");
    ReplyFramed(status, StockContent(status), "text/html", "");
  }
}
