/** The incremental request parser: one character at a time, and one buffer at a time. */
module RequestParser {
  import opened Text
  import opened Decimal

  // ---------------------------------------------------------------------------------------------
  // Requests and parser configurations
  // ---------------------------------------------------------------------------------------------

  datatype Header = Header(name: string, value: string)

  /** The contents of a `request`. */
  datatype RequestData = RequestData(
    method_: string,
    uri: string,
    major: int,
    minor: int,
    headers: seq<Header>,
    jsonData: string)

  datatype State =
    | MethodStart | Method | Uri
    | VersionH | VersionT1 | VersionT2 | VersionP | VersionSlash
    | MajorStart | Major | MinorStart | Minor
    | ExpectingNewline1
    | HeaderLineStart | HeaderLws | HeaderName | SpaceBeforeHeaderValue | HeaderValue
    | ExpectingNewline2 | ExpectingNewline3
    | BodyNormal | BodyExpectNewline

  /** A parser together with the request it fills. */
  datatype Config = Config(state: State, expected: nat, counter: nat, request: RequestData)

  /** The three values of `boost::tribool`, and the exception that `std::stoul` can throw. */
  datatype Verdict = Accepted | Rejected | NeedMore | Thrown

  // ---------------------------------------------------------------------------------------------
  // Character classes. A `char` is signed, so bytes from 128 on are negative: neither characters
  // nor control characters.
  // ---------------------------------------------------------------------------------------------

  predicate IsChar(c: char) {
    c as int <= 127
  }

  predicate IsCtl(c: char) {
    c as int <= 31 || c as int == 127
  }

  predicate IsTspecial(c: char) {
    || c == '(' || c == ')' || c == '<' || c == '>' || c == '@'
    || c == ',' || c == ';' || c == ':' || c == '\\' || c == '"'
    || c == '/' || c == '[' || c == ']' || c == '?' || c == '='
    || c == '{' || c == '}' || c == ' ' || c == '\t'
  }

  /** The characters of methods and header names. */
  predicate IsToken(c: char) {
    IsChar(c) && !IsCtl(c) && !IsTspecial(c)
  }

  // ---------------------------------------------------------------------------------------------
  // The specification of one step
  // ---------------------------------------------------------------------------------------------

  /** The states whose transitions use the last header. */
  predicate UsesLastHeader(s: State) {
    s.HeaderLws? || s.HeaderName? || s.SpaceBeforeHeaderValue? || s.HeaderValue?
  }

  predicate Safe(c: Config) {
    UsesLastHeader(c.state) ==> c.request.headers != []
  }

  function LastHeader(r: RequestData): Header
    requires r.headers != []
  {
    r.headers[|r.headers| - 1]
  }

  function SetLastHeader(r: RequestData, h: Header): RequestData
    requires r.headers != []
  {
    r.(headers := r.headers[..|r.headers| - 1] + [h])
  }

  function AddToName(r: RequestData, word: string): RequestData
    requires r.headers != []
  {
    SetLastHeader(r, Header(LastHeader(r).name + word, LastHeader(r).value))
  }

  function AddToValue(r: RequestData, word: string): RequestData
    requires r.headers != []
  {
    SetLastHeader(r, Header(LastHeader(r).name, LastHeader(r).value + word))
  }

  function Stay(c: Config, r: RequestData): (Config, Verdict) {
    (c.(request := r), NeedMore)
  }

  function Goto(c: Config, s: State): (Config, Verdict) {
    (c.(state := s), NeedMore)
  }

  function Fail(c: Config): (Config, Verdict) {
    (c, Rejected)
  }

  function RequestLineStep(c: Config, ch: char): (Config, Verdict) {
    var r := c.request;
    match c.state
    case MethodStart =>
      if IsToken(ch) then (c.(state := Method, request := r.(method_ := r.method_ + [ch])), NeedMore)
      else Fail(c)
    case Method =>
      if ch == ' ' then Goto(c, Uri)
      else if IsToken(ch) then Stay(c, r.(method_ := r.method_ + [ch]))
      else Fail(c)
    case Uri =>
      if ch == ' ' then Goto(c, VersionH)
      else if IsCtl(ch) then Fail(c)
      else Stay(c, r.(uri := r.uri + [ch]))
    case VersionH => if ch == 'H' then Goto(c, VersionT1) else Fail(c)
    case VersionT1 => if ch == 'T' then Goto(c, VersionT2) else Fail(c)
    case VersionT2 => if ch == 'T' then Goto(c, VersionP) else Fail(c)
    case VersionP => if ch == 'P' then Goto(c, VersionSlash) else Fail(c)
    case VersionSlash =>
      if ch == '/' then (c.(state := MajorStart, request := r.(major := 0, minor := 0)), NeedMore)
      else Fail(c)
    case MajorStart =>
      if IsDigit(ch) then (c.(state := Major, request := r.(major := 10 * r.major + DigitValue(ch))), NeedMore)
      else Fail(c)
    case Major =>
      if ch == '.' then Goto(c, MinorStart)
      else if IsDigit(ch) then Stay(c, r.(major := 10 * r.major + DigitValue(ch)))
      else Fail(c)
    case MinorStart =>
      if IsDigit(ch) then (c.(state := Minor, request := r.(minor := 10 * r.minor + DigitValue(ch))), NeedMore)
      else Fail(c)
    case Minor =>
      if ch == '\r' then Goto(c, ExpectingNewline1)
      else if IsDigit(ch) then Stay(c, r.(minor := 10 * r.minor + DigitValue(ch)))
      else Fail(c)
    case ExpectingNewline1 => if ch == '\n' then Goto(c, HeaderLineStart) else Fail(c)
    case _ => Fail(c)
  }

  function HeaderStep(c: Config, ch: char): (Config, Verdict)
    requires Safe(c)
  {
    var r := c.request;
    match c.state
    case HeaderLineStart =>
      if ch == '\r' then Goto(c, ExpectingNewline3)
      else if r.headers != [] && (ch == ' ' || ch == '\t') then Goto(c, HeaderLws)
      else if IsToken(ch) then
        (c.(state := HeaderName, request := r.(headers := r.headers + [Header([ch], "")])), NeedMore)
      else Fail(c)
    case HeaderLws =>
      if ch == '\r' then Goto(c, ExpectingNewline2)
      else if ch == ' ' || ch == '\t' then Stay(c, r)
      else if IsCtl(ch) then Fail(c)
      else (c.(state := HeaderValue, request := AddToValue(r, [ch])), NeedMore)
    case HeaderName =>
      if ch == ':' then Goto(c, SpaceBeforeHeaderValue)
      else if IsToken(ch) then Stay(c, AddToName(r, [ch]))
      else Fail(c)
    case SpaceBeforeHeaderValue => if ch == ' ' then Goto(c, HeaderValue) else Fail(c)
    case HeaderValue =>
      if ch == '\r' then
        if LastHeader(r).name != "Content-Length" then Goto(c, ExpectingNewline2)
        else
          var length := Stoul(LastHeader(r).value);
          if length.None? then (c.(state := ExpectingNewline2), Thrown)
          else (c.(state := ExpectingNewline2, expected := length.value), NeedMore)
      else if IsCtl(ch) then Fail(c)
      else Stay(c, AddToValue(r, [ch]))
    case ExpectingNewline2 => if ch == '\n' then Goto(c, HeaderLineStart) else Fail(c)
    case ExpectingNewline3 =>
      if ch != '\n' then Fail(c)
      else if c.expected == 0 then (c, Accepted)
      else Goto(c, BodyNormal)
    case _ => Fail(c)
  }

  function AddToBody(c: Config, word: string): Config {
    c.(counter := c.counter + |word|, request := c.request.(jsonData := c.request.jsonData + word))
  }

  function BodyStep(c: Config, ch: char): (Config, Verdict) {
    match c.state
    case BodyNormal =>
      if ch == '\r' then Goto(AddToBody(c, [ch]), BodyExpectNewline)
      else if IsCtl(ch) then Fail(c)
      else (AddToBody(c, [ch]), NeedMore)
    case BodyExpectNewline =>
      if ch != '\n' then Fail(c)
      else
        var d := AddToBody(c, [ch]);
        if d.counter >= d.expected then (d, Accepted) else Goto(d, BodyNormal)
    case _ => Fail(c)
  }

  predicate InHeaders(s: State) {
    UsesLastHeader(s) || s.HeaderLineStart? || s.ExpectingNewline2? || s.ExpectingNewline3?
  }

  predicate InBody(s: State) {
    s.BodyNormal? || s.BodyExpectNewline?
  }

  /** `request_parser::consume` as a function. */
  function Step(c: Config, ch: char): (r: (Config, Verdict))
    requires Safe(c)
    ensures Safe(r.0)
  {
    if InHeaders(c.state) then HeaderStep(c, ch)
    else if InBody(c.state) then BodyStep(c, ch)
    else RequestLineStep(c, ch)
  }

  // ---------------------------------------------------------------------------------------------
  // Feeding a whole buffer
  // ---------------------------------------------------------------------------------------------

  /** What `parse` reports, how much of the buffer it used, and where it leaves the parser. */
  datatype Report = Report(verdict: Verdict, used: nat, config: Config)

  function Shift(n: nat, r: Report): Report {
    r.(used := n + r.used)
  }

  /** `request_parser::parse` as a function. */
  function Feed(c: Config, s: string): (r: Report)
    requires Safe(c)
    ensures Safe(r.config) && r.used <= |s|
    ensures r.verdict == NeedMore ==> r.used == |s|
    decreases |s|
  {
    if s == "" then Report(NeedMore, 0, c)
    else
      var (d, verdict) := Step(c, s[0]);
      if verdict == NeedMore then Shift(1, Feed(d, s[1..])) else Report(verdict, 1, d)
  }

  /** Feeding a buffer in two pieces is feeding it in one, and nothing after a verdict matters. */
  lemma {:induction false} FeedConcat(c: Config, a: string, b: string)
    requires Safe(c)
    ensures Feed(c, a + b) ==
            var first := Feed(c, a);
            if first.verdict == NeedMore then Shift(|a|, Feed(first.config, b)) else first
    decreases |a|
  {
    if a == "" {
      assert a + b == b;
    } else {
      assert (a + b)[1..] == a[1..] + b;
      FeedConcat(Step(c, a[0]).0, a[1..], b);
    }
  }

  /** Reads one after another, as a connection makes them: it stops reading at a verdict. */
  function FeedChunks(c: Config, chunks: seq<string>): Report
    requires Safe(c)
    decreases |chunks|
  {
    if chunks == [] then Report(NeedMore, 0, c)
    else
      var first := Feed(c, chunks[0]);
      if first.verdict == NeedMore then Shift(|chunks[0]|, FeedChunks(first.config, chunks[1..])) else first
  }

  /** However the stream is cut into reads, the parser reaches the same verdict at the same byte. */
  lemma {:induction false} SegmentationIndependence(c: Config, chunks: seq<string>)
    requires Safe(c)
    ensures FeedChunks(c, chunks) == Feed(c, Concat(chunks))
    decreases |chunks|
  {
    if chunks != [] {
      FeedConcat(c, chunks[0], Concat(chunks[1..]));
      SegmentationIndependence(Feed(c, chunks[0]).config, chunks[1..]);
    }
  }

  // ---------------------------------------------------------------------------------------------
  // What every reachable configuration satisfies
  // ---------------------------------------------------------------------------------------------

  /** A new parser on a new request; the version numbers of a new request are uninitialised. */
  predicate IsStart(c: Config) {
    && c.state == MethodStart && c.expected == 0 && c.counter == 0
    && c.request == RequestData("", "", c.request.major, c.request.minor, [], "")
  }

  /** The number denoted by the last header named exactly Content-Length, 0 without one. */
  function DeclaredLength(headers: seq<Header>): nat {
    if headers == [] then 0
    else
      var last := headers[|headers| - 1];
      if last.name == "Content-Length" && Stoul(last.value).Some? then Stoul(last.value).value
      else DeclaredLength(headers[..|headers| - 1])
  }

  /** Every Content-Length header holds a number, and the parser expects the last of them. */
  predicate Settled(headers: seq<Header>, expected: nat) {
    && (forall i :: 0 <= i < |headers| && headers[i].name == "Content-Length" ==> Stoul(headers[i].value).Some?)
    && expected == DeclaredLength(headers)
  }

  predicate HeadersInvariant(state: State, expected: nat, headers: seq<Header>)
    requires UsesLastHeader(state) ==> headers != []
  {
    if state.HeaderName? || state.SpaceBeforeHeaderValue? then
      headers[|headers| - 1].value == "" && Settled(headers[..|headers| - 1], expected)
    else if state.HeaderValue? then
      var before := headers[..|headers| - 1];
      Settled(before, if headers[|headers| - 1].name == "Content-Length" then DeclaredLength(before) else expected)
    else
      Settled(headers, expected)
  }

  /** The body counter is the length of the body, and the expected length is the declared one. */
  predicate Invariant(c: Config) {
    && Safe(c)
    && c.counter == |c.request.jsonData|
    && HeadersInvariant(c.state, c.expected, c.request.headers)
    && (!InBody(c.state) ==> c.request.jsonData == "")
    && (InBody(c.state) ==> c.expected > 0)
    && (!InHeaders(c.state) && !InBody(c.state) ==> c.request.headers == [])
  }

  /** One more complete header. */
  lemma SettledAppend(before: seq<Header>, h: Header, expected: nat)
    ensures Settled(before + [h], expected) <==>
            var own := h.name == "Content-Length";
            && Settled(before, if own then DeclaredLength(before) else expected)
            && (own ==> Stoul(h.value) == Some(expected))
  {
    var all := before + [h];
    assert all[..|before|] == before;
    assert forall i :: 0 <= i < |before| ==> all[i] == before[i];
    assert all[|before|] == h;
  }

  /** While a value is read, only the end of a line settles what its field says. */
  lemma ValueStepInvariant(c: Config, ch: char)
    requires Invariant(c) && c.state.HeaderValue? && HeaderStep(c, ch).1 == NeedMore
    ensures Invariant(HeaderStep(c, ch).0)
  {
    var d := HeaderStep(c, ch).0;
    var headers, after := c.request.headers, d.request.headers;
    var before, last := headers[..|headers| - 1], headers[|headers| - 1];
    assert headers == before + [last];
    if ch == '\r' {
      SettledAppend(before, last, d.expected);
    } else {
      assert after[..|after| - 1] == before && after[|after| - 1].name == last.name;
    }
  }

  /** A continuation line goes on with the value of the last header. */
  lemma FoldStepInvariant(c: Config, ch: char)
    requires Invariant(c) && c.state.HeaderLws? && HeaderStep(c, ch).1 == NeedMore
    ensures Invariant(HeaderStep(c, ch).0)
  {
    var d := HeaderStep(c, ch).0;
    var headers, after := c.request.headers, d.request.headers;
    if d.state.HeaderValue? {
      ReopenLast(headers, after, c.expected);
    } else {
      assert after == headers;
    }
  }

  lemma ReopenLast(headers: seq<Header>, after: seq<Header>, expected: nat)
    requires headers != [] && |after| == |headers| && Settled(headers, expected)
    requires after[..|after| - 1] == headers[..|headers| - 1]
    requires after[|after| - 1].name == headers[|headers| - 1].name
    ensures HeadersInvariant(HeaderValue, expected, after)
  {
    var before, last := headers[..|headers| - 1], headers[|headers| - 1];
    assert headers == before + [last];
    SettledAppend(before, last, expected);
  }

  lemma NameStepInvariant(c: Config, ch: char)
    requires Invariant(c) && (c.state.HeaderName? || c.state.SpaceBeforeHeaderValue?)
    requires HeaderStep(c, ch).1 == NeedMore
    ensures Invariant(HeaderStep(c, ch).0)
  {
    var headers, after := c.request.headers, HeaderStep(c, ch).0.request.headers;
    assert after[..|after| - 1] == headers[..|headers| - 1];
  }

  lemma LineStartStep(c: Config, ch: char)
    requires Safe(c) && c.state.HeaderLineStart? && HeaderStep(c, ch).1 == NeedMore
    ensures var d, r := HeaderStep(c, ch).0, c.request;
      || d == c.(state := ExpectingNewline3)
      || (d == c.(state := HeaderLws) && r.headers != [])
      || d == c.(state := HeaderName, request := r.(headers := r.headers + [Header([ch], "")]))
  {
    hide IsToken;
  }

  lemma LineStartStepInvariant(c: Config, ch: char)
    requires Invariant(c) && c.state.HeaderLineStart? && HeaderStep(c, ch).1 == NeedMore
    ensures Invariant(HeaderStep(c, ch).0)
  {
    hide HeaderStep, Settled;
    LineStartStep(c, ch);
    WithoutLast(c.request.headers, Header([ch], ""));
  }

  lemma WithoutLast(headers: seq<Header>, h: Header)
    ensures (headers + [h])[..|headers + [h]| - 1] == headers
  {
  }

  lemma HeaderStepInvariant(c: Config, ch: char)
    requires Invariant(c) && InHeaders(c.state) && HeaderStep(c, ch).1 == NeedMore
    ensures Invariant(HeaderStep(c, ch).0)
  {
    match c.state {
      case HeaderValue => ValueStepInvariant(c, ch);
      case HeaderLws => FoldStepInvariant(c, ch);
      case HeaderName => NameStepInvariant(c, ch);
      case SpaceBeforeHeaderValue => NameStepInvariant(c, ch);
      case HeaderLineStart => LineStartStepInvariant(c, ch);
      case _ =>
    }
  }

  lemma StepInvariant(c: Config, ch: char)
    requires Invariant(c) && Step(c, ch).1 == NeedMore
    ensures Invariant(Step(c, ch).0)
  {
    if InHeaders(c.state) {
      HeaderStepInvariant(c, ch);
    }
  }

  lemma RefusalKeeps(c: Config, ch: char)
    requires Safe(c) && Step(c, ch).1 == Rejected
    ensures Step(c, ch).0 == c
  {
  }

  lemma AcceptedStepInvariant(c: Config, ch: char)
    requires Invariant(c) && Step(c, ch).1 == Accepted
    ensures Invariant(Step(c, ch).0)
  {
    hide Settled;
    assert c.state.ExpectingNewline3? || c.state.BodyExpectNewline?;
  }

  lemma ThrownStepInvariant(c: Config, ch: char)
    requires Invariant(c) && Step(c, ch).1 == Thrown
    ensures !Invariant(Step(c, ch).0)
  {
    hide DeclaredLength, Stoul;
    assert c.state.HeaderValue?;
    var headers := c.request.headers;
    assert headers[|headers| - 1].name == "Content-Length" && Stoul(headers[|headers| - 1].value).None?;
  }

  /** A step that accepts or refuses keeps the invariant; one that throws leaves a length unread. */
  lemma FinalStepInvariant(c: Config, ch: char)
    requires Invariant(c) && Step(c, ch).1 != NeedMore
    ensures Invariant(Step(c, ch).0) <==> Step(c, ch).1 != Thrown
  {
    hide HeadersInvariant, Step;
    match Step(c, ch).1 {
      case Accepted => AcceptedStepInvariant(c, ch);
      case Rejected => RefusalKeeps(c, ch);
      case Thrown => ThrownStepInvariant(c, ch);
      case NeedMore => assert false;
    }
  }

  /** From a configuration that satisfies the invariant, all that is reached satisfies it, unless it threw. */
  lemma {:induction false} FeedInvariant(c: Config, s: string)
    requires Invariant(c)
    ensures Invariant(Feed(c, s).config) <==> Feed(c, s).verdict != Thrown
    decreases |s|
  {
    hide HeadersInvariant, Step;
    if s == "" {
    } else if Step(c, s[0]).1 == NeedMore {
      StepInvariant(c, s[0]);
      FeedInvariant(Step(c, s[0]).0, s[1..]);
    } else {
      FinalStepInvariant(c, s[0]);
    }
  }

  lemma StartInvariant(c: Config)
    requires IsStart(c)
    ensures Invariant(c)
  {
  }

  /**
   * Every configuration that a new parser reaches satisfies the invariant, whether it accepts,
   * refuses or needs more; only the exception leaves a Content-Length that is no number.
   */
  lemma ReachableInvariant(c: Config, s: string)
    requires IsStart(c)
    ensures Invariant(Feed(c, s).config) <==> Feed(c, s).verdict != Thrown
  {
    StartInvariant(c);
    FeedInvariant(c, s);
  }

  // ---------------------------------------------------------------------------------------------
  // The parser object, which changes itself and the request in place
  // ---------------------------------------------------------------------------------------------

  class Request {
    var method_: string
    var uri: string
    var major: int
    var minor: int
    var headers: seq<Header>
    var jsonData: string

    /** A new request: empty strings, no headers, and whatever the version numbers hold. */
    constructor ()
      ensures Data() == RequestData("", "", major, minor, [], "")
    {
      method_, uri, headers, jsonData := "", "", [], "";
    }

    function Data(): RequestData
      reads this
    {
      RequestData(method_, uri, major, minor, headers, jsonData)
    }

    method PushToName(c: char)
      requires headers != []
      modifies this`headers
      ensures Data() == AddToName(old(Data()), [c])
    {
      var last := headers[|headers| - 1];
      headers := headers[..|headers| - 1] + [Header(last.name + [c], last.value)];
    }

    method PushToValue(c: char)
      requires headers != []
      modifies this`headers
      ensures Data() == AddToValue(old(Data()), [c])
    {
      var last := headers[|headers| - 1];
      headers := headers[..|headers| - 1] + [Header(last.name, last.value + [c])];
    }
  }

  class Parser {
    var state: State
    var contentLength: nat
    var expectedContentLength: nat
    var contentCtr: nat

    constructor ()
      ensures state == MethodStart && expectedContentLength == 0 && contentCtr == 0
    {
      state, contentLength, expectedContentLength, contentCtr := MethodStart, 0, 0, 0;
    }

    /** This parser together with the request it is filling. */
    ghost function View(req: Request): Config
      reads this, req
    {
      Config(state, expectedContentLength, contentCtr, req.Data())
    }

    /** Only the state goes back to the beginning: neither counter does. */
    method Reset()
      modifies this`state
      ensures state == MethodStart
    {
      state := MethodStart;
    }

    method ConsumeRequestLine(req: Request, input: char) returns (verdict: Verdict)
      requires !InHeaders(state) && !InBody(state)
      modifies this, req
      ensures (View(req), verdict) == RequestLineStep(old(View(req)), input)
    {
      verdict := NeedMore;
      match state {
        case MethodStart =>
          if !IsChar(input) || IsCtl(input) || IsTspecial(input) {
            verdict := Rejected;
          } else {
            state := Method;
            req.method_ := req.method_ + [input];
          }
        case Method =>
          if input == ' ' {
            state := Uri;
          } else if !IsChar(input) || IsCtl(input) || IsTspecial(input) {
            verdict := Rejected;
          } else {
            req.method_ := req.method_ + [input];
          }
        case Uri =>
          if input == ' ' {
            state := VersionH;
          } else if IsCtl(input) {
            verdict := Rejected;
          } else {
            req.uri := req.uri + [input];
          }
        case VersionH =>
          if input == 'H' { state := VersionT1; } else { verdict := Rejected; }
        case VersionT1 =>
          if input == 'T' { state := VersionT2; } else { verdict := Rejected; }
        case VersionT2 =>
          if input == 'T' { state := VersionP; } else { verdict := Rejected; }
        case VersionP =>
          if input == 'P' { state := VersionSlash; } else { verdict := Rejected; }
        case VersionSlash =>
          if input == '/' {
            req.major, req.minor := 0, 0;
            state := MajorStart;
          } else {
            verdict := Rejected;
          }
        case MajorStart =>
          if IsDigit(input) {
            req.major := req.major * 10 + DigitValue(input);
            state := Major;
          } else {
            verdict := Rejected;
          }
        case Major =>
          if input == '.' {
            state := MinorStart;
          } else if IsDigit(input) {
            req.major := req.major * 10 + DigitValue(input);
          } else {
            verdict := Rejected;
          }
        case MinorStart =>
          if IsDigit(input) {
            req.minor := req.minor * 10 + DigitValue(input);
            state := Minor;
          } else {
            verdict := Rejected;
          }
        case Minor =>
          if input == '\r' {
            state := ExpectingNewline1;
          } else if IsDigit(input) {
            req.minor := req.minor * 10 + DigitValue(input);
          } else {
            verdict := Rejected;
          }
        case ExpectingNewline1 =>
          if input == '\n' { state := HeaderLineStart; } else { verdict := Rejected; }
        case _ =>
          assert false;
      }
    }

    method ConsumeHeaders(req: Request, input: char) returns (verdict: Verdict)
      requires InHeaders(state) && Safe(View(req))
      modifies this, req
      ensures (View(req), verdict) == HeaderStep(old(View(req)), input)
    {
      verdict := NeedMore;
      match state {
        case HeaderLineStart =>
          if input == '\r' {
            state := ExpectingNewline3;
          } else if req.headers != [] && (input == ' ' || input == '\t') {
            state := HeaderLws;
          } else if !IsChar(input) || IsCtl(input) || IsTspecial(input) {
            verdict := Rejected;
          } else {
            req.headers := req.headers + [Header([input], "")];
            state := HeaderName;
          }
        case HeaderLws =>
          if input == '\r' {
            state := ExpectingNewline2;
          } else if input == ' ' || input == '\t' {
          } else if IsCtl(input) {
            verdict := Rejected;
          } else {
            state := HeaderValue;
            req.PushToValue(input);
          }
        case HeaderName =>
          if input == ':' {
            state := SpaceBeforeHeaderValue;
          } else if !IsChar(input) || IsCtl(input) || IsTspecial(input) {
            verdict := Rejected;
          } else {
            req.PushToName(input);
          }
        case SpaceBeforeHeaderValue =>
          if input == ' ' { state := HeaderValue; } else { verdict := Rejected; }
        case HeaderValue =>
          if input == '\r' {
            state := ExpectingNewline2;
            var last := req.headers[|req.headers| - 1];
            if last.name == "Content-Length" {
              var length := Stoul(last.value);
              if length.None? {
                return Thrown;
              }
              expectedContentLength := length.value;
            }
          } else if IsCtl(input) {
            verdict := Rejected;
          } else {
            req.PushToValue(input);
          }
        case ExpectingNewline2 =>
          if input == '\n' { state := HeaderLineStart; } else { verdict := Rejected; }
        case ExpectingNewline3 =>
          if input == '\n' {
            if expectedContentLength == 0 {
              verdict := Accepted;
            } else {
              state := BodyNormal;
            }
          } else {
            verdict := Rejected;
          }
        case _ =>
          assert false;
      }
    }

    method ConsumeBody(req: Request, input: char) returns (verdict: Verdict)
      requires InBody(state)
      modifies this, req
      ensures (View(req), verdict) == BodyStep(old(View(req)), input)
    {
      verdict := NeedMore;
      match state {
        case BodyNormal =>
          if input == '\r' {
            req.jsonData := req.jsonData + [input];
            state := BodyExpectNewline;
            contentCtr := contentCtr + 1;
          } else if IsCtl(input) {
            verdict := Rejected;
          } else {
            req.jsonData := req.jsonData + [input];
            contentCtr := contentCtr + 1;
          }
        case BodyExpectNewline =>
          if input == '\n' {
            req.jsonData := req.jsonData + [input];
            contentCtr := contentCtr + 1;
            if contentCtr >= expectedContentLength {
              verdict := Accepted;
            } else {
              state := BodyNormal;
            }
          } else {
            verdict := Rejected;
          }
        case _ =>
          assert false;
      }
    }

    method Consume(req: Request, input: char) returns (verdict: Verdict)
      requires Safe(View(req))
      modifies this, req
      ensures (View(req), verdict) == Step(old(View(req)), input)
    {
      if InHeaders(state) {
        verdict := ConsumeHeaders(req, input);
      } else if InBody(state) {
        verdict := ConsumeBody(req, input);
      } else {
        verdict := ConsumeRequestLine(req, input);
      }
    }

    /** Consumes the buffer until a verdict or its end. */
    method Parse(req: Request, buffer: string) returns (verdict: Verdict, used: nat)
      requires Safe(View(req))
      modifies this, req
      ensures Report(verdict, used, View(req)) == Feed(old(View(req)), buffer)
    {
      used := 0;
      while used != |buffer|
        invariant used <= |buffer| && Safe(View(req))
        invariant Feed(old(View(req)), buffer) == Shift(used, Feed(View(req), buffer[used..]))
        decreases |buffer| - used
      {
        ghost var before := View(req);
        assert buffer[used..][1..] == buffer[used + 1..];
        verdict := Consume(req, buffer[used]);
        used := used + 1;
        if verdict == Accepted || verdict == Rejected || verdict == Thrown {
          assert Feed(before, buffer[used - 1..]) == Report(verdict, 1, View(req));
          return;
        }
      }
      verdict := NeedMore;
    }
  }
}
