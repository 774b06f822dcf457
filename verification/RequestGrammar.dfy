/** The language the request parser accepts: a declarative grammar, and its agreement with the parser. */
module RequestGrammar {
  import opened Text
  import opened Decimal
  import opened RequestParser

  // ---------------------------------------------------------------------------------------------
  // Messages, how they are written, and which of them are well formed
  // ---------------------------------------------------------------------------------------------

  /** A continuation line of a header field. */
  datatype Fold = Fold(indent: string, text: string)

  datatype Field = Field(name: string, text: string, folds: seq<Fold>)

  datatype Message = Message(
    method_: string,
    uri: string,
    major: string,
    minor: string,
    fields: seq<Field>,
    body: seq<string>)

  function PrintFolds(folds: seq<Fold>): string {
    if folds == [] then "" else folds[0].indent + folds[0].text + CRLF + PrintFolds(folds[1..])
  }

  function PrintField(f: Field): string {
    f.name + ": " + f.text + CRLF + PrintFolds(f.folds)
  }

  function PrintFields(fields: seq<Field>): string {
    if fields == [] then "" else PrintField(fields[0]) + PrintFields(fields[1..])
  }

  function PrintRequestLine(m: Message): string {
    m.method_ + " " + m.uri + " HTTP/" + m.major + "." + m.minor + CRLF
  }

  function Print(m: Message): string {
    PrintRequestLine(m) + PrintFields(m.fields) + CRLF + Lines(m.body)
  }

  predicate Tokens(s: string) {
    forall i :: 0 <= i < |s| ==> IsToken(s[i])
  }

  /** Free of control characters. */
  predicate Printable(s: string) {
    forall i :: 0 <= i < |s| ==> !IsCtl(s[i])
  }

  predicate UriText(s: string) {
    Printable(s) && forall i :: 0 <= i < |s| ==> s[i] != ' '
  }

  predicate Blank(s: string) {
    forall i :: 0 <= i < |s| ==> s[i] == ' ' || s[i] == '\t'
  }

  predicate FoldOk(f: Fold) {
    f.indent != "" && Blank(f.indent) && Printable(f.text) && (f.text != "" ==> f.text[0] != ' ')
  }

  /** What a field that is called Content-Length must satisfy at the end of each non-blank line. */
  predicate Readable(name: string, value: string) {
    name == "Content-Length" ==> Stoul(value).Some?
  }

  /** Continuation lines of the field `name`, whose value was `value` before them. */
  predicate FoldsOk(name: string, value: string, folds: seq<Fold>)
    decreases |folds|
  {
    folds != [] ==>
      && FoldOk(folds[0])
      && (folds[0].text != "" ==> Readable(name, value + folds[0].text))
      && FoldsOk(name, value + folds[0].text, folds[1..])
  }

  predicate FieldOk(f: Field) {
    f.name != "" && Tokens(f.name) && Printable(f.text) && Readable(f.name, f.text) && FoldsOk(f.name, f.text, f.folds)
  }

  /** The value of a field: continuation lines are joined without their indentation. */
  function Unfold(value: string, folds: seq<Fold>): string
    decreases |folds|
  {
    if folds == [] then value else Unfold(value + folds[0].text, folds[1..])
  }

  function HeaderOf(f: Field): Header {
    Header(f.name, Unfold(f.text, f.folds))
  }

  function HeadersOf(fields: seq<Field>): seq<Header> {
    if fields == [] then [] else [HeaderOf(fields[0])] + HeadersOf(fields[1..])
  }

  /** The body is as many whole lines as it takes to reach the declared length. */
  predicate BodyOk(body: seq<string>, length: nat) {
    if length == 0 then body == []
    else
      && body != []
      && (forall i :: 0 <= i < |body| ==> Printable(body[i]))
      && |Lines(body[..|body| - 1])| < length <= |Lines(body)|
  }

  predicate WellFormed(m: Message) {
    && m.method_ != "" && Tokens(m.method_)
    && UriText(m.uri)
    && m.major != "" && AllDigits(m.major) && m.minor != "" && AllDigits(m.minor)
    && (forall i :: 0 <= i < |m.fields| ==> FieldOk(m.fields[i]))
    && BodyOk(m.body, DeclaredLength(HeadersOf(m.fields)))
  }

  function Denote(m: Message): RequestData
    requires AllDigits(m.major) && AllDigits(m.minor)
  {
    RequestData(m.method_, m.uri, ValueOf(m.major), ValueOf(m.minor), HeadersOf(m.fields), Lines(m.body))
  }

  // ---------------------------------------------------------------------------------------------
  // Completeness, piece by piece
  // ---------------------------------------------------------------------------------------------

  /** The parser takes all of s without a verdict and goes on from d. */
  ghost predicate Takes(c: Config, s: string, d: Config)
    requires Safe(c)
  {
    Safe(d) && forall rest: string :: Feed(c, s + rest) == Shift(|s|, Feed(d, rest))
  }

  lemma TakesNothing(c: Config)
    requires Safe(c)
    ensures Takes(c, "", c)
  {
    forall rest: string
      ensures Feed(c, "" + rest) == Shift(0, Feed(c, rest))
    {
      assert "" + rest == rest;
    }
  }

  lemma TakesOne(c: Config, ch: char)
    requires Safe(c) && Step(c, ch).1 == NeedMore
    ensures Takes(c, [ch], Step(c, ch).0)
  {
    forall rest: string
      ensures Feed(c, [ch] + rest) == Shift(1, Feed(Step(c, ch).0, rest))
    {
      assert ([ch] + rest)[1..] == rest;
    }
  }

  lemma TakesBoth(c: Config, a: string, d: Config, b: string, e: Config)
    requires Safe(c) && Takes(c, a, d) && Takes(d, b, e)
    ensures Takes(c, a + b, e)
  {
    hide Feed;
    forall rest: string
      ensures Feed(c, a + b + rest) == Shift(|a + b|, Feed(e, rest))
    {
      ThreeParts(a, b, rest);
    }
  }

  /** What has been taken can be read off the parser's report. */
  lemma TakenReport(c: Config, s: string, d: Config)
    requires Safe(c) && Takes(c, s, d)
    ensures Feed(c, s) == Report(NeedMore, |s|, d)
  {
    assert s + "" == s;
  }

  lemma TakesTwo(c: Config, a: char, b: char, e: Config)
    requires Safe(c) && Step(c, a).1 == NeedMore && Step(Step(c, a).0, b) == (e, NeedMore)
    ensures Takes(c, [a, b], e)
  {
    TakesOne(c, a);
    TakesOne(Step(c, a).0, b);
    TakesBoth(c, [a], Step(c, a).0, [b], e);
    assert [a] + [b] == [a, b];
  }

  /** A word, after its first character. */
  lemma TakesWord(c: Config, w: string, d: Config)
    requires w != "" && Safe(c) && Step(c, w[0]).1 == NeedMore && Takes(Step(c, w[0]).0, w[1..], d)
    ensures Takes(c, w, d)
  {
    TakesOne(c, w[0]);
    TakesBoth(c, [w[0]], Step(c, w[0]).0, w[1..], d);
    assert [w[0]] + w[1..] == w;
  }

  // The request line.

  lemma {:induction false} TakesMethod(c: Config, w: string)
    requires c.state == Method && Tokens(w)
    ensures Takes(c, w, c.(request := c.request.(method_ := c.request.method_ + w)))
    decreases |w|
  {
    var m := c.request.method_;
    if w == "" {
      assert m + w == m;
      TakesNothing(c);
    } else {
      TakesMethod(Step(c, w[0]).0, w[1..]);
      assert m + [w[0]] + w[1..] == m + w;
      TakesWord(c, w, c.(request := c.request.(method_ := m + w)));
    }
  }

  lemma {:induction false} TakesUri(c: Config, w: string)
    requires c.state == Uri && UriText(w)
    ensures Takes(c, w, c.(request := c.request.(uri := c.request.uri + w)))
    decreases |w|
  {
    var u := c.request.uri;
    if w == "" {
      assert u + w == u;
      TakesNothing(c);
    } else {
      TakesUri(Step(c, w[0]).0, w[1..]);
      assert u + [w[0]] + w[1..] == u + w;
      TakesWord(c, w, c.(request := c.request.(uri := u + w)));
    }
  }

  /** Reading digits from the left, as the parser does. */
  function Accumulate(n: int, digits: string): int
    requires AllDigits(digits)
    decreases |digits|
  {
    if digits == "" then n else Accumulate(10 * n + DigitValue(digits[0]), digits[1..])
  }

  lemma {:induction false} AccumulateLast(n: int, digits: string)
    requires digits != "" && AllDigits(digits)
    ensures Accumulate(n, digits) ==
            10 * Accumulate(n, digits[..|digits| - 1]) + DigitValue(digits[|digits| - 1])
    decreases |digits|
  {
    if |digits| > 1 {
      AccumulateLast(10 * n + DigitValue(digits[0]), digits[1..]);
      assert digits[1..][..|digits| - 2] == digits[..|digits| - 1][1..];
    }
  }

  lemma {:induction false} AccumulateIsValue(digits: string)
    requires AllDigits(digits)
    ensures Accumulate(0, digits) == ValueOf(digits)
    decreases |digits|
  {
    if digits != "" {
      AccumulateLast(0, digits);
      AccumulateIsValue(digits[..|digits| - 1]);
    }
  }

  lemma {:induction false} TakesMajor(c: Config, w: string)
    requires c.state == Major && AllDigits(w)
    ensures Takes(c, w, c.(request := c.request.(major := Accumulate(c.request.major, w))))
    decreases |w|
  {
    hide Feed, Takes;
    if w == "" {
      TakesNothing(c);
    } else {
      TakesMajor(Step(c, w[0]).0, w[1..]);
      TakesWord(c, w, c.(request := c.request.(major := Accumulate(c.request.major, w))));
    }
  }

  lemma {:induction false} TakesMinor(c: Config, w: string)
    requires c.state == Minor && AllDigits(w)
    ensures Takes(c, w, c.(request := c.request.(minor := Accumulate(c.request.minor, w))))
    decreases |w|
  {
    hide Feed, Takes;
    if w == "" {
      TakesNothing(c);
    } else {
      TakesMinor(Step(c, w[0]).0, w[1..]);
      TakesWord(c, w, c.(request := c.request.(minor := Accumulate(c.request.minor, w))));
    }
  }

  lemma TakesVersionPrefix(c: Config)
    requires c.state == Uri
    ensures Takes(c, " HTTP/", c.(state := MajorStart, request := c.request.(major := 0, minor := 0)))
  {
    hide Feed, Takes, Step;
    var c2, c4 := c.(state := VersionT1), c.(state := VersionP);
    var c6 := c.(state := MajorStart, request := c.request.(major := 0, minor := 0));
    VersionPrefixSteps(c);
    TakesTwo(c, ' ', 'H', c2);
    TakesTwo(c2, 'T', 'T', c4);
    TakesTwo(c4, 'P', '/', c6);
    TakesBoth(c2, ['T', 'T'], c4, ['P', '/'], c6);
    TakesBoth(c, [' ', 'H'], c2, ['T', 'T'] + ['P', '/'], c6);
    VersionPrefixLetters();
  }

  lemma VersionPrefixSteps(c: Config)
    requires c.state == Uri
    ensures Step(c, ' ') == (c.(state := VersionH), NeedMore)
    ensures Step(c.(state := VersionH), 'H') == (c.(state := VersionT1), NeedMore)
    ensures Step(c.(state := VersionT1), 'T') == (c.(state := VersionT2), NeedMore)
    ensures Step(c.(state := VersionT2), 'T') == (c.(state := VersionP), NeedMore)
    ensures Step(c.(state := VersionP), 'P') == (c.(state := VersionSlash), NeedMore)
    ensures Step(c.(state := VersionSlash), '/') ==
            (c.(state := MajorStart, request := c.request.(major := 0, minor := 0)), NeedMore)
  {
    hide Step;
    FirstPrefixSteps(c);
    LastPrefixSteps(c);
  }

  lemma FirstPrefixSteps(c: Config)
    requires c.state == Uri
    ensures Step(c, ' ') == (c.(state := VersionH), NeedMore)
    ensures Step(c.(state := VersionH), 'H') == (c.(state := VersionT1), NeedMore)
    ensures Step(c.(state := VersionT1), 'T') == (c.(state := VersionT2), NeedMore)
  {
  }

  lemma LastPrefixSteps(c: Config)
    ensures Step(c.(state := VersionT2), 'T') == (c.(state := VersionP), NeedMore)
    ensures Step(c.(state := VersionP), 'P') == (c.(state := VersionSlash), NeedMore)
    ensures Step(c.(state := VersionSlash), '/') ==
            (c.(state := MajorStart, request := c.request.(major := 0, minor := 0)), NeedMore)
  {
  }

  lemma VersionPrefixLetters()
    ensures [' ', 'H'] + (['T', 'T'] + ['P', '/']) == " HTTP/"
  {
  }

  lemma TakesMajorWord(c: Config, w: string)
    requires c.state == MajorStart && c.request.major == 0 && w != "" && AllDigits(w)
    ensures Takes(c, w, c.(state := Major, request := c.request.(major := Accumulate(0, w))))
  {
    hide Feed, Takes;
    TakesMajor(Step(c, w[0]).0, w[1..]);
    TakesWord(c, w, c.(state := Major, request := c.request.(major := Accumulate(0, w))));
  }

  lemma TakesMinorWord(c: Config, w: string)
    requires c.state == MinorStart && c.request.minor == 0 && w != "" && AllDigits(w)
    ensures Takes(c, w, c.(state := Minor, request := c.request.(minor := Accumulate(0, w))))
  {
    hide Feed, Takes;
    TakesMinor(Step(c, w[0]).0, w[1..]);
    TakesWord(c, w, c.(state := Minor, request := c.request.(minor := Accumulate(0, w))));
  }

  /** The configuration at the start of the header lines. */
  function AfterRequestLine(m: Message): Config
    requires AllDigits(m.major) && AllDigits(m.minor)
  {
    Config(HeaderLineStart, 0, 0, RequestData(m.method_, m.uri, ValueOf(m.major), ValueOf(m.minor), [], ""))
  }

  lemma TakesMethodWord(c: Config, w: string)
    requires IsStart(c) && w != "" && Tokens(w)
    ensures Takes(c, w, c.(state := Method, request := c.request.(method_ := w)))
  {
    TakesMethod(Step(c, w[0]).0, w[1..]);
    assert "" + [w[0]] + w[1..] == w;
    TakesWord(c, w, c.(state := Method, request := c.request.(method_ := w)));
  }

  lemma TakesUriWord(c: Config, w: string)
    requires c.state == Uri && c.request.uri == "" && UriText(w)
    ensures Takes(c, w, c.(request := c.request.(uri := w)))
  {
    TakesUri(c, w);
    assert "" + w == w;
  }

  lemma TakesMethodAndUri(c: Config, m: Message)
    requires IsStart(c) && WellFormed(m)
    ensures Takes(c, m.method_ + " " + m.uri,
                  c.(state := Uri, request := c.request.(method_ := m.method_, uri := m.uri)))
  {
    hide Feed, Takes;
    var c1 := c.(state := Method, request := c.request.(method_ := m.method_));
    var c2 := c1.(state := Uri);
    TakesMethodWord(c, m.method_);
    TakesOne(c1, ' ');
    TakesBoth(c, m.method_, c1, " ", c2);
    TakesUriWord(c2, m.uri);
    TakesBoth(c, m.method_ + " ", c2, m.uri, c2.(request := c2.request.(uri := m.uri)));
  }

  lemma TakesVersionNumbers(c: Config, major: string, minor: string)
    requires c.state == MajorStart && c.request.major == c.request.minor == 0
    requires major != "" && AllDigits(major) && minor != "" && AllDigits(minor)
    ensures Takes(c, major + "." + minor,
                  c.(state := Minor, request := c.request.(major := ValueOf(major), minor := ValueOf(minor))))
  {
    hide Feed, Takes;
    var c1 := c.(state := Major, request := c.request.(major := Accumulate(0, major)));
    var c2 := c1.(state := MinorStart);
    var c3 := c2.(state := Minor, request := c2.request.(minor := Accumulate(0, minor)));
    AccumulateIsValue(major);
    AccumulateIsValue(minor);
    TakesMajorWord(c, major);
    TakesOne(c1, '.');
    TakesBoth(c, major, c1, ".", c2);
    TakesMinorWord(c2, minor);
    TakesBoth(c, major + ".", c2, minor, c3);
  }

  lemma TakesRequestLine(c: Config, m: Message)
    requires IsStart(c) && WellFormed(m)
    ensures Takes(c, PrintRequestLine(m), AfterRequestLine(m))
  {
    hide Feed, Takes, Step, BodyOk, FieldOk, Tokens, UriText, AllDigits;
    var c1 := c.(state := Uri, request := c.request.(method_ := m.method_, uri := m.uri));
    var c2 := c1.(state := MajorStart, request := c1.request.(major := 0, minor := 0));
    var end := AfterRequestLine(m);
    var c3 := end.(state := Minor);
    var left, numbers := m.method_ + " " + m.uri, m.major + "." + m.minor;
    TakesMethodAndUri(c, m);
    TakesVersionPrefix(c1);
    TakesVersionNumbers(c2, m.major, m.minor);
    LineEndSteps(c3);
    TakesTwo(c3, '\r', '\n', end);
    TakesFour(c, left, c1, " HTTP/", c2, numbers, c3, CRLF, end);
    RequestLineParts(left + " HTTP/", m.major, m.minor);
  }

  lemma LineEndSteps(c: Config)
    requires c.state == Minor
    ensures Step(c, '\r') == (c.(state := ExpectingNewline1), NeedMore)
    ensures Step(c.(state := ExpectingNewline1), '\n') == (c.(state := HeaderLineStart), NeedMore)
  {
  }

  lemma TakesFour(c: Config, s1: string, c1: Config, s2: string, c2: Config, s3: string, c3: Config,
                  s4: string, c4: Config)
    requires Safe(c) && Takes(c, s1, c1) && Takes(c1, s2, c2) && Takes(c2, s3, c3) && Takes(c3, s4, c4)
    ensures Takes(c, s1 + s2 + s3 + s4, c4)
  {
    TakesBoth(c, s1, c1, s2, c2);
    TakesBoth(c, s1 + s2, c2, s3, c3);
    TakesBoth(c, s1 + s2 + s3, c3, s4, c4);
  }

  lemma RequestLineParts(left: string, major: string, minor: string)
    ensures left + (major + "." + minor) + CRLF == left + major + "." + minor + CRLF
  {
  }

  // The header fields.

  lemma AddToNameStep(r: RequestData, w: string)
    requires r.headers != [] && w != ""
    ensures AddToName(AddToName(r, [w[0]]), w[1..]) == AddToName(r, w)
  {
    var name := LastHeader(r).name;
    assert name + [w[0]] + w[1..] == name + w;
    assert AddToName(AddToName(r, [w[0]]), w[1..]).headers == AddToName(r, w).headers;
  }

  lemma AddToValueStep(r: RequestData, w: string)
    requires r.headers != [] && w != ""
    ensures AddToValue(AddToValue(r, [w[0]]), w[1..]) == AddToValue(r, w)
  {
    var value := LastHeader(r).value;
    assert value + [w[0]] + w[1..] == value + w;
    assert AddToValue(AddToValue(r, [w[0]]), w[1..]).headers == AddToValue(r, w).headers;
  }

  lemma AddNothing(r: RequestData)
    requires r.headers != []
    ensures AddToName(r, "") == AddToValue(r, "") == r
  {
    var last := LastHeader(r);
    assert last.name + "" == last.name && last.value + "" == last.value;
    assert AddToName(r, "").headers == AddToValue(r, "").headers == r.headers;
  }

  lemma {:induction false} TakesName(c: Config, w: string)
    requires c.state == HeaderName && Safe(c) && Tokens(w)
    ensures Takes(c, w, c.(request := AddToName(c.request, w)))
    decreases |w|
  {
    if w == "" {
      AddNothing(c.request);
      TakesNothing(c);
    } else {
      TakesName(Step(c, w[0]).0, w[1..]);
      AddToNameStep(c.request, w);
      TakesWord(c, w, c.(request := AddToName(c.request, w)));
    }
  }

  lemma {:induction false} TakesValue(c: Config, w: string)
    requires c.state == HeaderValue && Safe(c) && Printable(w)
    ensures Takes(c, w, c.(request := AddToValue(c.request, w)))
    decreases |w|
  {
    if w == "" {
      AddNothing(c.request);
      TakesNothing(c);
    } else {
      TakesValue(Step(c, w[0]).0, w[1..]);
      AddToValueStep(c.request, w);
      TakesWord(c, w, c.(request := AddToValue(c.request, w)));
    }
  }

  lemma {:induction false} TakesIndent(c: Config, w: string)
    requires c.state == HeaderLws && Safe(c) && Blank(w)
    ensures Takes(c, w, c)
    decreases |w|
  {
    if w == "" {
      TakesNothing(c);
    } else {
      TakesIndent(c, w[1..]);
      TakesWord(c, w, c);
    }
  }

  /** The configuration at the start of a header line, after these headers. */
  function AtHeaders(c: Config, headers: seq<Header>): Config {
    c.(state := HeaderLineStart, expected := DeclaredLength(headers), request := c.request.(headers := headers))
  }

  predicate Ready(c: Config) {
    Invariant(c) && c.state == HeaderLineStart
  }

  /** A configuration reached at the start of a header line expects what its headers declare. */
  lemma TakesToHeaders(c: Config, s: string, d: Config)
    requires Ready(c) && Takes(c, s, d) && d.state == HeaderLineStart
    ensures Ready(d) && d == AtHeaders(d, d.request.headers)
  {
    TakenReport(c, s, d);
    FeedInvariant(c, s);
  }

  /** The end of a header line whose value is being read. */
  lemma TakesValueEnd(c: Config)
    requires c.state == HeaderValue && Safe(c) && Readable(LastHeader(c.request).name, LastHeader(c.request).value)
    ensures var d := Step(c, '\r').0;
      Takes(c, CRLF, d.(state := HeaderLineStart)) && d.request == c.request && d.counter == c.counter
  {
    var d := Step(c, '\r').0;
    TakesTwo(c, '\r', '\n', d.(state := HeaderLineStart));
  }

  lemma NewHeader(r: RequestData, name: string)
    requires name != ""
    ensures AddToName(r.(headers := r.headers + [Header([name[0]], "")]), name[1..]) ==
            r.(headers := r.headers + [Header(name, "")])
  {
    assert [name[0]] + name[1..] == name;
    assert (r.headers + [Header([name[0]], "")])[..|r.headers|] == r.headers;
  }

  lemma FirstValue(r: RequestData, name: string, text: string)
    ensures AddToValue(r.(headers := r.headers + [Header(name, "")]), text) ==
            r.(headers := r.headers + [Header(name, text)])
  {
    assert "" + text == text;
    assert (r.headers + [Header(name, "")])[..|r.headers|] == r.headers;
  }

  lemma TakesNameWord(c: Config, name: string)
    requires Ready(c) && name != "" && Tokens(name)
    ensures Takes(c, name, c.(state := HeaderName,
                              request := c.request.(headers := c.request.headers + [Header(name, "")])))
  {
    TakesName(Step(c, name[0]).0, name[1..]);
    NewHeader(c.request, name);
    TakesWord(c, name, c.(state := HeaderName,
                          request := c.request.(headers := c.request.headers + [Header(name, "")])));
  }

  lemma TakesFieldName(c: Config, name: string)
    requires Ready(c) && name != "" && Tokens(name)
    ensures Takes(c, name + ": ", c.(state := HeaderValue,
                                     request := c.request.(headers := c.request.headers + [Header(name, "")])))
  {
    hide Feed, Takes;
    var c1 := c.(state := HeaderName, request := c.request.(headers := c.request.headers + [Header(name, "")]));
    TakesNameWord(c, name);
    TakesTwo(c1, ':', ' ', c1.(state := HeaderValue));
    TakesBoth(c, name, c1, ": ", c1.(state := HeaderValue));
  }

  lemma TakesFieldLine(c: Config, name: string, text: string)
    requires Ready(c) && name != "" && Tokens(name) && Printable(text) && Readable(name, text)
    ensures var d := AtHeaders(c, c.request.headers + [Header(name, text)]);
      Ready(d) && Takes(c, name + ": " + text + CRLF, d)
  {
    var headers := c.request.headers;
    var c1 := c.(state := HeaderValue, request := c.request.(headers := headers + [Header(name, "")]));
    var c2 := c1.(request := c.request.(headers := headers + [Header(name, text)]));
    TakesFieldName(c, name);
    TakesValue(c1, text);
    FirstValue(c.request, name, text);
    TakesBoth(c, name + ": ", c1, text, c2);
    var d := Step(c2, '\r').0.(state := HeaderLineStart);
    TakesValueEnd(c2);
    TakesBoth(c, name + ": " + text, c2, CRLF, d);
    TakesToHeaders(c, name + ": " + text + CRLF, d);
  }

  lemma TakesFoldIndent(c: Config, indent: string)
    requires Ready(c) && c.request.headers != [] && indent != "" && Blank(indent)
    ensures Takes(c, indent, c.(state := HeaderLws))
  {
    var d := c.(state := HeaderLws);
    TakesIndent(d, indent[1..]);
    TakesWord(c, indent, d);
  }

  lemma TakesBlankFold(c: Config, indent: string)
    requires Ready(c) && c.request.headers != [] && indent != "" && Blank(indent)
    ensures Takes(c, indent + CRLF, c)
  {
    hide Feed, Takes;
    var c1 := c.(state := HeaderLws);
    TakesFoldIndent(c, indent);
    TakesTwo(c1, '\r', '\n', c);
    TakesBoth(c, indent, c1, CRLF, c);
  }

  lemma TakesFoldText(c: Config, text: string)
    requires c.state == HeaderLws && c.request.headers != []
    requires text != "" && Printable(text) && text[0] != ' '
    ensures Takes(c, text, c.(state := HeaderValue, request := AddToValue(c.request, text)))
  {
    TakesValue(Step(c, text[0]).0, text[1..]);
    AddToValueStep(c.request, text);
    TakesWord(c, text, c.(state := HeaderValue, request := AddToValue(c.request, text)));
  }

  lemma TakesTextFold(c: Config, indent: string, text: string)
    requires Ready(c) && c.request.headers != [] && indent != "" && Blank(indent)
    requires text != "" && Printable(text) && text[0] != ' '
    requires Readable(LastHeader(c.request).name, LastHeader(c.request).value + text)
    ensures var d := AtHeaders(c, AddToValue(c.request, text).headers);
      Ready(d) && Takes(c, indent + text + CRLF, d)
  {
    hide Feed, Takes;
    var c1 := c.(state := HeaderLws);
    var c2 := c.(state := HeaderValue, request := AddToValue(c.request, text));
    TakesFoldIndent(c, indent);
    TakesFoldText(c1, text);
    TakesBoth(c, indent, c1, text, c2);
    var d := Step(c2, '\r').0.(state := HeaderLineStart);
    TakesValueEnd(c2);
    TakesBoth(c, indent + text, c2, CRLF, d);
    TakesToHeaders(c, indent + text + CRLF, d);
  }

  lemma TakesFold(c: Config, f: Fold)
    requires Ready(c) && c.request.headers != [] && FoldOk(f)
    requires var last := LastHeader(c.request); f.text != "" ==> Readable(last.name, last.value + f.text)
    ensures var d := AtHeaders(c, AddToValue(c.request, f.text).headers);
      Ready(d) && Takes(c, f.indent + f.text + CRLF, d)
  {
    if f.text == "" {
      TakesBlankFold(c, f.indent);
      assert f.indent + f.text == f.indent;
      AddNothing(c.request);
      TakesToHeaders(c, f.indent + CRLF, c);
    } else {
      TakesTextFold(c, f.indent, f.text);
    }
  }

  lemma {:induction false} TakesFolds(c: Config, name: string, value: string, folds: seq<Fold>)
    requires Ready(c) && c.request.headers != [] && LastHeader(c.request) == Header(name, value)
    requires FoldsOk(name, value, folds)
    ensures var before := c.request.headers[..|c.request.headers| - 1];
      var d := AtHeaders(c, before + [Header(name, Unfold(value, folds))]);
      Ready(d) && Takes(c, PrintFolds(folds), d)
    decreases |folds|
  {
    hide Feed, Takes;
    var headers := c.request.headers;
    var before := headers[..|headers| - 1];
    assert headers == before + [Header(name, value)];
    if folds == [] {
      TakesNothing(c);
      TakesToHeaders(c, "", c);
    } else {
      var f := folds[0];
      var d := AtHeaders(c, AddToValue(c.request, f.text).headers);
      TakesFold(c, f);
      assert d.request.headers == before + [Header(name, value + f.text)];
      assert d.request.headers[..|d.request.headers| - 1] == before;
      TakesFolds(d, name, value + f.text, folds[1..]);
      TakesBoth(c, f.indent + f.text + CRLF, d, PrintFolds(folds[1..]),
                AtHeaders(c, before + [Header(name, Unfold(value, folds))]));
    }
  }

  lemma TakesField(c: Config, f: Field)
    requires Ready(c) && FieldOk(f)
    ensures var d := AtHeaders(c, c.request.headers + [HeaderOf(f)]);
      Ready(d) && Takes(c, PrintField(f), d)
  {
    var headers := c.request.headers;
    var c1 := AtHeaders(c, headers + [Header(f.name, f.text)]);
    TakesFieldLine(c, f.name, f.text);
    TakesFolds(c1, f.name, f.text, f.folds);
    assert c1.request.headers[..|headers|] == headers;
    TakesBoth(c, f.name + ": " + f.text + CRLF, c1, PrintFolds(f.folds), AtHeaders(c, headers + [HeaderOf(f)]));
  }

  lemma HeadersOfFirst(f: Field, more: seq<Field>)
    ensures HeadersOf([f] + more) == [HeaderOf(f)] + HeadersOf(more)
  {
    assert ([f] + more)[1..] == more;
  }

  lemma PrintFieldsFirst(f: Field, more: seq<Field>)
    ensures PrintFields([f] + more) == PrintField(f) + PrintFields(more)
  {
    assert ([f] + more)[1..] == more;
  }

  lemma HeadersWithFirst(headers: seq<Header>, fields: seq<Field>)
    ensures fields == [] ==> headers + HeadersOf(fields) == headers
    ensures fields != [] ==> headers + [HeaderOf(fields[0])] + HeadersOf(fields[1..]) == headers + HeadersOf(fields)
  {
  }

  lemma {:induction false} TakesFields(c: Config, fields: seq<Field>)
    requires Ready(c) && forall i :: 0 <= i < |fields| ==> FieldOk(fields[i])
    ensures var d := AtHeaders(c, c.request.headers + HeadersOf(fields));
      Ready(d) && Takes(c, PrintFields(fields), d)
    decreases |fields|
  {
    hide Feed, Takes;
    var headers := c.request.headers;
    if fields == [] {
      HeadersWithFirst(headers, fields);
      TakesNothing(c);
      TakesToHeaders(c, "", c);
    } else {
      var d := AtHeaders(c, headers + [HeaderOf(fields[0])]);
      TakesField(c, fields[0]);
      TakesFields(d, fields[1..]);
      HeadersWithFirst(headers, fields);
      TakesBoth(c, PrintField(fields[0]), d, PrintFields(fields[1..]), AtHeaders(c, headers + HeadersOf(fields)));
    }
  }

  // The body, and the whole message.

  /** The parser takes all of s and accepts at its end, whatever follows. */
  ghost predicate Accepts(c: Config, s: string, d: Config)
    requires Safe(c)
  {
    forall rest: string :: Feed(c, s + rest) == Report(Accepted, |s|, d)
  }

  lemma TakesThenAccepts(c: Config, a: string, d: Config, b: string, e: Config)
    requires Safe(c) && Takes(c, a, d) && Accepts(d, b, e)
    ensures Accepts(c, a + b, e)
  {
    forall rest: string
      ensures Feed(c, a + b + rest) == Report(Accepted, |a + b|, e)
    {
      assert a + b + rest == a + (b + rest);
    }
  }

  lemma AcceptsOne(c: Config, ch: char)
    requires Safe(c) && Step(c, ch).1 == Accepted
    ensures Accepts(c, [ch], Step(c, ch).0)
  {
  }

  lemma AddToBodyTwice(c: Config, a: string, b: string)
    ensures AddToBody(AddToBody(c, a), b) == AddToBody(c, a + b)
  {
    assert c.request.jsonData + a + b == c.request.jsonData + (a + b);
  }

  lemma {:induction false} TakesBodyText(c: Config, w: string)
    requires c.state == BodyNormal && Printable(w)
    ensures Takes(c, w, AddToBody(c, w))
    decreases |w|
  {
    hide Feed, Takes;
    if w == "" {
      assert c.request.jsonData + w == c.request.jsonData;
      TakesNothing(c);
    } else {
      TakesBodyText(Step(c, w[0]).0, w[1..]);
      AddToBodyTwice(c, [w[0]], w[1..]);
      assert [w[0]] + w[1..] == w;
      TakesWord(c, w, AddToBody(c, w));
    }
  }

  /** The end of a body line: the message ends here once the declared length is reached. */
  lemma BodyLineEnd(c: Config, line: string)
    requires c.state == BodyNormal && Printable(line)
    ensures var d := AddToBody(c, line + CRLF);
      if d.counter >= d.expected then Accepts(c, line + CRLF, d.(state := BodyExpectNewline))
      else Takes(c, line + CRLF, d)
  {
    hide Feed, Takes;
    var c1 := AddToBody(c, line);
    var c2 := AddToBody(c1, "\r").(state := BodyExpectNewline);
    TakesBodyText(c, line);
    TakesOne(c1, '\r');
    AddToBodyTwice(c1, "\r", "\n");
    AddToBodyTwice(c, line, CRLF);
    assert "\r" + "\n" == CRLF;
    TakesBoth(c, line, c1, "\r", c2);
    assert line + "\r" + "\n" == line + CRLF;
    var d := AddToBody(c, line + CRLF);
    if d.counter >= d.expected {
      AcceptsOne(c2, '\n');
      TakesThenAccepts(c, line + "\r", c2, "\n", d.(state := BodyExpectNewline));
    } else {
      TakesOne(c2, '\n');
      TakesBoth(c, line + "\r", c2, "\n", d);
    }
  }

  lemma LinesOfFirst(body: seq<string>)
    requires body != []
    ensures Lines(body) == body[0] + CRLF + Lines(body[1..])
    ensures |body| == 1 ==> Lines(body) == body[0] + CRLF && Lines(body[..0]) == ""
    ensures |body| > 1 ==> Lines(body[..|body| - 1]) == body[0] + CRLF + Lines(body[1..][..|body| - 2])
  {
    if |body| > 1 {
      assert body[..|body| - 1][1..] == body[1..][..|body| - 2];
    }
  }

  lemma {:induction false} AcceptsBody(c: Config, body: seq<string>)
    requires c.state == BodyNormal && body != []
    requires forall i :: 0 <= i < |body| ==> Printable(body[i])
    requires |Lines(body[..|body| - 1])| < c.expected - c.counter <= |Lines(body)|
    ensures Accepts(c, Lines(body), AddToBody(c, Lines(body)).(state := BodyExpectNewline))
    decreases |body|
  {
    hide Feed, Takes;
    var line := body[0] + CRLF;
    LinesOfFirst(body);
    BodyLineEnd(c, body[0]);
    if |body| > 1 {
      var d := AddToBody(c, line);
      AcceptsBody(d, body[1..]);
      AddToBodyTwice(c, line, Lines(body[1..]));
      TakesThenAccepts(c, line, d, Lines(body[1..]), AddToBody(c, Lines(body)).(state := BodyExpectNewline));
    }
  }

  /** Where the parser stops on a well-formed message. */
  function FinalConfig(m: Message): Config
    requires WellFormed(m)
  {
    var length := DeclaredLength(HeadersOf(m.fields));
    Config(if length == 0 then ExpectingNewline3 else BodyExpectNewline, length, |Lines(m.body)|, Denote(m))
  }

  lemma AcceptsWithoutBody(c: Config)
    requires c.state == HeaderLineStart && c.expected == 0
    ensures Accepts(c, CRLF, c.(state := ExpectingNewline3))
  {
    var c1 := c.(state := ExpectingNewline3);
    TakesOne(c, '\r');
    AcceptsOne(c1, '\n');
    TakesThenAccepts(c, "\r", c1, "\n", c1);
    assert "\r" + "\n" == CRLF;
  }

  lemma AcceptsWithBody(c: Config, body: seq<string>)
    requires c.state == HeaderLineStart && c.expected > 0 && c.counter == 0 && BodyOk(body, c.expected)
    ensures Accepts(c, CRLF + Lines(body), AddToBody(c, Lines(body)).(state := BodyExpectNewline))
  {
    hide Feed, Takes;
    var c2 := c.(state := BodyNormal);
    TakesTwo(c, '\r', '\n', c2);
    AcceptsBody(c2, body);
    TakesThenAccepts(c, CRLF, c2, Lines(body), AddToBody(c, Lines(body)).(state := BodyExpectNewline));
  }

  lemma AcceptsEnd(c: Config, m: Message)
    requires WellFormed(m) && c == AtHeaders(AfterRequestLine(m), HeadersOf(m.fields))
    ensures Accepts(c, CRLF + Lines(m.body), FinalConfig(m))
  {
    hide Feed, Takes;
    assert "" + Lines(m.body) == Lines(m.body);
    if c.expected == 0 {
      AcceptsWithoutBody(c);
      assert CRLF + "" == CRLF;
    } else {
      AcceptsWithBody(c, m.body);
    }
  }

  lemma AfterRequestLineReady(c: Config, m: Message)
    requires IsStart(c) && WellFormed(m)
    ensures Ready(AfterRequestLine(m))
  {
  }

  /** Completeness: a well-formed message is accepted exactly at its end, with what it denotes. */
  lemma WellFormedAccepted(c: Config, m: Message)
    requires IsStart(c) && WellFormed(m)
    ensures Accepts(c, Print(m), FinalConfig(m))
  {
    hide Feed, Takes;
    var c1 := AfterRequestLine(m);
    var headers := HeadersOf(m.fields);
    var c2 := AtHeaders(c1, headers);
    TakesRequestLine(c, m);
    AfterRequestLineReady(c, m);
    TakesFields(c1, m.fields);
    assert [] + headers == headers;
    AcceptsEnd(c2, m);
    PrintParts(PrintRequestLine(m), PrintFields(m.fields), Lines(m.body));
    TakesBoth(c, PrintRequestLine(m), c1, PrintFields(m.fields), c2);
    TakesThenAccepts(c, PrintRequestLine(m) + PrintFields(m.fields), c2, CRLF + Lines(m.body), FinalConfig(m));
  }

  lemma PrintParts(line: string, fields: string, body: string)
    ensures line + fields + (CRLF + body) == line + fields + CRLF + body
  {
  }
}
