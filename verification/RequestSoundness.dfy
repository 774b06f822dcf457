/** Soundness: whatever the parser accepts is a well-formed message. With it, the grammar is exact. */
module RequestSoundness {
  import opened Text
  import opened Decimal
  import opened RequestParser
  import opened RequestGrammar

  /** The parser accepts somewhere in s. */
  predicate Succeeds(c: Config, s: string)
    requires Safe(c)
  {
    Feed(c, s).verdict == Accepted
  }

  /** The length of the longest prefix of s whose characters all satisfy p. */
  function Span(s: string, p: char -> bool): (n: nat)
    ensures n <= |s|
    ensures forall i :: 0 <= i < n ==> p(s[i])
    ensures n < |s| ==> !p(s[n])
  {
    if s != "" && p(s[0]) then 1 + Span(s[1..], p) else 0
  }

  /** A parser that succeeds moves on with its next character, or accepts it. */
  lemma SucceedsNext(c: Config, s: string)
    requires Safe(c) && Succeeds(c, s)
    ensures s != "" && (Step(c, s[0]).1 == NeedMore || Step(c, s[0]).1 == Accepted)
    ensures Step(c, s[0]).1 == NeedMore ==> Succeeds(Step(c, s[0]).0, s[1..])
  {
  }

  lemma SucceedsAfter(c: Config, a: string, d: Config, rest: string)
    requires Safe(c) && Takes(c, a, d) && Succeeds(c, a + rest)
    ensures Succeeds(d, rest)
  {
  }

  lemma SplitAt(s: string, n: nat)
    requires n <= |s|
    ensures s == s[..n] + s[n..]
  {
  }

  // The request line.

  lemma MethodSound(c: Config, s: string) returns (w: string, rest: string)
    requires IsStart(c) && Succeeds(c, s)
    ensures w != "" && Tokens(w) && s == w + " " + rest
    ensures Succeeds(c.(state := Uri, request := c.request.(method_ := w)), rest)
  {
    hide Feed;
    SucceedsNext(c, s);
    var n := Span(s, IsToken);
    w, rest := s[..n], s[n..];
    var d := c.(state := Method, request := c.request.(method_ := w));
    TakesMethodWord(c, w);
    SplitAt(s, n);
    SucceedsAfter(c, w, d, rest);
    SucceedsNext(d, rest);
    WordAndSpace(w, rest);
    rest := rest[1..];
  }

  lemma WordAndSpace(w: string, rest: string)
    requires rest != "" && rest[0] == ' '
    ensures w + rest == w + " " + rest[1..]
  {
  }

  lemma UriSound(c: Config, s: string) returns (w: string, rest: string)
    requires c.state == Uri && c.request.uri == "" && Succeeds(c, s)
    ensures UriText(w) && s == w + rest && rest != "" && rest[0] == ' '
    ensures Succeeds(c.(request := c.request.(uri := w)), rest)
  {
    hide Feed;
    var n := Span(s, (ch: char) => !IsCtl(ch) && ch != ' ');
    w, rest := s[..n], s[n..];
    var d := c.(request := c.request.(uri := w));
    TakesUriWord(c, w);
    SplitAt(s, n);
    SucceedsAfter(c, w, d, rest);
    SucceedsNext(d, rest);
  }

  lemma HttpSound(c: Config, s: string) returns (rest: string)
    requires c.state == VersionH && Succeeds(c, s)
    ensures s == ['H'] + (['T'] + (['T'] + rest)) && Succeeds(c.(state := VersionP), rest)
  {
    var t1 := SucceedsWith(c, 'H', c.(state := VersionT1), s);
    var t2 := SucceedsWith(c.(state := VersionT1), 'T', c.(state := VersionT2), t1);
    rest := SucceedsWith(c.(state := VersionT2), 'T', c.(state := VersionP), t2);
  }

  lemma SlashSound(c: Config, s: string) returns (rest: string)
    requires c.state == VersionP && Succeeds(c, s)
    ensures s == ['P'] + (['/'] + rest)
    ensures Succeeds(c.(state := MajorStart, request := c.request.(major := 0, minor := 0)), rest)
  {
    var slash := SucceedsWith(c, 'P', c.(state := VersionSlash), s);
    rest := SucceedsWith(c.(state := VersionSlash), '/',
                         c.(state := MajorStart, request := c.request.(major := 0, minor := 0)), slash);
  }

  lemma VersionPrefixSound(c: Config, s: string) returns (rest: string)
    requires c.state == Uri && Succeeds(c, s) && s != "" && s[0] == ' '
    ensures s == " HTTP/" + rest
    ensures Succeeds(c.(state := MajorStart, request := c.request.(major := 0, minor := 0)), rest)
  {
    var h := SucceedsWith(c, ' ', c.(state := VersionH), s);
    var p := HttpSound(c.(state := VersionH), h);
    rest := SlashSound(c.(state := VersionP), p);
    VersionPrefixParts(rest);
  }

  lemma VersionPrefixParts(rest: string)
    ensures [' '] + (['H'] + (['T'] + (['T'] + (['P'] + (['/'] + rest))))) == " HTTP/" + rest
  {
  }

  /** A state that, on the given text, can only succeed by reading one particular character. */
  lemma SucceedsWith(c: Config, ch: char, d: Config, s: string) returns (rest: string)
    requires Safe(c) && Safe(d) && Succeeds(c, s) && Step(c, ch) == (d, NeedMore)
    requires s != "" && s[0] != ch ==> Step(c, s[0]).1 == Rejected
    ensures s == [ch] + rest && Succeeds(d, rest)
  {
    SucceedsNext(c, s);
    rest := s[1..];
  }

  lemma MajorSound(c: Config, s: string) returns (w: string, rest: string)
    requires c.state == MajorStart && c.request.major == 0 && Succeeds(c, s)
    ensures w != "" && AllDigits(w) && s == w + rest
    ensures rest != "" && rest[0] == '.'
    ensures Succeeds(c.(state := Major, request := c.request.(major := ValueOf(w))), rest)
  {
    hide Feed, Takes;
    SucceedsNext(c, s);
    var n := Span(s, IsDigit);
    w, rest := s[..n], s[n..];
    SplitAt(s, n);
    var d := c.(state := Major, request := c.request.(major := Accumulate(0, w)));
    TakesMajorWord(c, w);
    SucceedsAfter(c, w, d, rest);
    SucceedsNext(d, rest);
    AccumulateIsValue(w);
  }

  lemma MinorSound(c: Config, s: string) returns (w: string, rest: string)
    requires c.state == MinorStart && c.request.minor == 0 && Succeeds(c, s)
    ensures w != "" && AllDigits(w) && s == w + rest
    ensures rest != "" && rest[0] == '\r'
    ensures Succeeds(c.(state := Minor, request := c.request.(minor := ValueOf(w))), rest)
  {
    hide Feed, Takes;
    SucceedsNext(c, s);
    var n := Span(s, IsDigit);
    w, rest := s[..n], s[n..];
    SplitAt(s, n);
    var d := c.(state := Minor, request := c.request.(minor := Accumulate(0, w)));
    TakesMinorWord(c, w);
    SucceedsAfter(c, w, d, rest);
    SucceedsNext(d, rest);
    AccumulateIsValue(w);
  }

  lemma VersionSound(c: Config, s: string) returns (major: string, minor: string, rest: string)
    requires c.state == MajorStart && c.request.major == c.request.minor == 0 && Succeeds(c, s)
    ensures major != "" && AllDigits(major) && minor != "" && AllDigits(minor)
    ensures s == major + "." + minor + CRLF + rest
  {
    hide Feed;
    var rest1, rest2;
    major, rest1 := MajorSound(c, s);
    var c1 := c.(state := Major, request := c.request.(major := ValueOf(major)));
    var c2 := c1.(state := MinorStart);
    rest1 := SucceedsWith(c1, '.', c2, rest1);
    minor, rest2 := MinorSound(c2, rest1);
    var c3 := c2.(state := Minor, request := c2.request.(minor := ValueOf(minor)));
    rest := LineEndSound(c3, c3.(state := ExpectingNewline1), rest2);
    VersionParts(major, minor, rest);
  }

  lemma VersionParts(major: string, minor: string, rest: string)
    ensures major + ("." + (minor + (CRLF + rest))) == major + "." + minor + CRLF + rest
  {
  }

  /** A state that can only go on with CR LF. */
  lemma LineEndSound(c: Config, d: Config, s: string) returns (rest: string)
    requires Safe(c) && Safe(d) && Succeeds(c, s) && s != "" && s[0] == '\r' && Step(c, '\r') == (d, NeedMore)
    requires d.state.ExpectingNewline1? || d.state.ExpectingNewline2?
    ensures s == CRLF + rest && Succeeds(d.(state := HeaderLineStart), rest)
  {
    var tail := SucceedsWith(c, '\r', d, s);
    rest := SucceedsWith(d, '\n', d.(state := HeaderLineStart), tail);
    assert ['\r'] + (['\n'] + rest) == CRLF + rest;
  }

  lemma RequestLineSound(c: Config, s: string)
    returns (name: string, uri: string, major: string, minor: string, rest: string)
    requires IsStart(c) && Succeeds(c, s)
    ensures name != "" && Tokens(name) && UriText(uri)
    ensures major != "" && AllDigits(major) && minor != "" && AllDigits(minor)
    ensures s == name + " " + uri + " HTTP/" + major + "." + minor + CRLF + rest
  {
    hide Feed;
    var rest1, rest2, rest3;
    name, rest1 := MethodSound(c, s);
    var c1 := c.(state := Uri, request := c.request.(method_ := name));
    uri, rest2 := UriSound(c1, rest1);
    var c2 := c1.(request := c1.request.(uri := uri));
    rest3 := VersionPrefixSound(c2, rest2);
    var c3 := c2.(state := MajorStart, request := c2.request.(major := 0, minor := 0));
    major, minor, rest := VersionSound(c3, rest3);
    RequestLineAssembled(name + " ", uri, major + "." + minor + CRLF, rest);
    RequestLineParts(name + " " + uri + " HTTP/", major, minor);
  }

  lemma RequestLineAssembled(method_: string, uri: string, version: string, rest: string)
    ensures method_ + (uri + (" HTTP/" + (version + rest))) == method_ + uri + " HTTP/" + version + rest
  {
  }

  // The header fields.

  /** A line of header text, up to its end. */
  lemma ValueSound(c: Config, s: string) returns (w: string, rest: string)
    requires c.state == HeaderValue && Safe(c) && Succeeds(c, s)
    ensures Printable(w) && s == w + CRLF + rest
    ensures var last := LastHeader(c.request); Readable(last.name, last.value + w)
  {
    hide Feed, Takes;
    var n := Span(s, (ch: char) => !IsCtl(ch));
    w, rest := s[..n], s[n..];
    var d := c.(request := AddToValue(c.request, w));
    TakesValue(c, w);
    SplitAt(s, n);
    SucceedsAfter(c, w, d, rest);
    SucceedsNext(d, rest);
    rest := LineEndSound(d, Step(d, '\r').0, rest);
    ThreeParts(w, CRLF, rest);
  }

  lemma ColonSpace(name: string, rest: string)
    ensures name + ([':'] + ([' '] + rest)) == name + ": " + rest
  {
  }

  /** The colon and the space after a header name. */
  lemma ColonSpaceSound(d: Config, name: string, s: string) returns (rest: string)
    requires d.state == HeaderName && Safe(d) && Succeeds(d, s) && (s != "" ==> !IsToken(s[0]))
    ensures name + s == name + ": " + rest && Succeeds(d.(state := HeaderValue), rest)
  {
    hide Feed, IsToken;
    var rest1 := SucceedsWith(d, ':', d.(state := SpaceBeforeHeaderValue), s);
    rest := SucceedsWith(d.(state := SpaceBeforeHeaderValue), ' ', d.(state := HeaderValue), rest1);
    ColonSpace(name, rest);
  }

  lemma FirstTokenSound(c: Config, s: string)
    requires Ready(c) && Succeeds(c, s) && s[0] != '\r'
    requires c.request.headers == [] || (s[0] != ' ' && s[0] != '\t')
    ensures s != "" && IsToken(s[0])
  {
    hide Feed, IsToken, Invariant;
    SucceedsNext(c, s);
  }

  lemma FieldNameSound(c: Config, s: string) returns (name: string, rest: string)
    requires Ready(c) && Succeeds(c, s) && s[0] != '\r'
    requires c.request.headers == [] || (s[0] != ' ' && s[0] != '\t')
    ensures name != "" && Tokens(name) && s == name + ": " + rest
    ensures Succeeds(c.(state := HeaderValue,
                        request := c.request.(headers := c.request.headers + [Header(name, "")])), rest)
  {
    hide Feed, IsToken, Invariant, Takes;
    FirstTokenSound(c, s);
    var n := Span(s, IsToken);
    name, rest := s[..n], s[n..];
    SplitAt(s, n);
    var d := c.(state := HeaderName, request := c.request.(headers := c.request.headers + [Header(name, "")]));
    TakesNameWord(c, name);
    SucceedsAfter(c, name, d, rest);
    rest := ColonSpaceSound(d, name, rest);
  }

  lemma FieldLineSound(c: Config, s: string) returns (name: string, text: string, rest: string)
    requires Ready(c) && Succeeds(c, s) && s[0] != '\r'
    requires c.request.headers == [] || (s[0] != ' ' && s[0] != '\t')
    ensures name != "" && Tokens(name) && Printable(text) && Readable(name, text)
    ensures s == name + ": " + text + CRLF + rest
  {
    hide Feed;
    var rest1;
    name, rest1 := FieldNameSound(c, s);
    text, rest := ValueSound(c.(state := HeaderValue,
                                request := c.request.(headers := c.request.headers + [Header(name, "")])), rest1);
    assert "" + text == text;
    FieldLineParts(name + ": ", text, rest);
  }

  lemma FieldLineParts(start: string, text: string, rest: string)
    ensures start + (text + CRLF + rest) == start + text + CRLF + rest
  {
  }

  lemma FoldIndentSound(c: Config, s: string) returns (indent: string, rest: string)
    requires Ready(c) && c.request.headers != [] && Succeeds(c, s) && (s[0] == ' ' || s[0] == '\t')
    ensures indent != "" && Blank(indent) && s == indent + rest
    ensures Succeeds(c.(state := HeaderLws), rest) && rest != "" && rest[0] != ' ' && rest[0] != '\t'
  {
    SucceedsNext(c, s);
    var n := Span(s, (ch: char) => ch == ' ' || ch == '\t');
    indent, rest := s[..n], s[n..];
    SplitAt(s, n);
    TakesFoldIndent(c, indent);
    SucceedsAfter(c, indent, c.(state := HeaderLws), rest);
    SucceedsNext(c.(state := HeaderLws), rest);
  }

  lemma FoldTextSound(c: Config, s: string) returns (text: string, rest: string)
    requires c.state == HeaderLws && c.request.headers != [] && Succeeds(c, s)
    requires s != "" && s[0] != ' ' && s[0] != '\t'
    ensures Printable(text) && s == text + CRLF + rest && (text != "" ==> text[0] != ' ')
    ensures var last := LastHeader(c.request); text != "" ==> Readable(last.name, last.value + text)
  {
    hide Feed;
    SucceedsNext(c, s);
    if s[0] == '\r' {
      text := "";
      rest := LineEndSound(c, c.(state := ExpectingNewline2), s);
      assert s == text + CRLF + rest;
    } else {
      var d := Step(c, s[0]).0;
      var tail;
      tail, rest := ValueSound(d, s[1..]);
      text := [s[0]] + tail;
      assert s == [s[0]] + s[1..];
      FieldLineParts([s[0]], tail, rest);
      assert LastHeader(c.request).value + [s[0]] + tail == LastHeader(c.request).value + text;
    }
  }

  lemma FoldSound(c: Config, s: string) returns (f: Fold, rest: string)
    requires Ready(c) && c.request.headers != [] && Succeeds(c, s) && (s[0] == ' ' || s[0] == '\t')
    ensures FoldOk(f) && s == f.indent + f.text + CRLF + rest
    ensures var last := LastHeader(c.request); f.text != "" ==> Readable(last.name, last.value + f.text)
  {
    hide Feed;
    var indent, rest1 := FoldIndentSound(c, s);
    var text;
    text, rest := FoldTextSound(c.(state := HeaderLws), rest1);
    f := Fold(indent, text);
    FieldLineParts(indent, text, rest);
  }

  lemma HeadersSound(c: Config, s: string) returns (folds: seq<Fold>, fields: seq<Field>, rest: string)
    requires Ready(c) && Succeeds(c, s)
    ensures s == PrintFolds(folds) + PrintFields(fields) + rest && rest != "" && rest[0] == '\r'
    ensures forall i :: 0 <= i < |fields| ==> FieldOk(fields[i])
    ensures c.request.headers == [] ==> folds == []
    ensures c.request.headers != [] ==>
              FoldsOk(LastHeader(c.request).name, LastHeader(c.request).value, folds)
    decreases |s|, 1
  {
    hide Feed, FieldOk, FoldsOk, PrintFolds, PrintFields, Invariant;
    SucceedsNext(c, s);
    if s[0] == '\r' {
      folds, fields, rest := [], [], s;
      NothingPrinted(s);
      if c.request.headers != [] {
        NoFolds(LastHeader(c.request).name, LastHeader(c.request).value);
      }
    } else if c.request.headers != [] && (s[0] == ' ' || s[0] == '\t') {
      folds, fields, rest := FoldedHeadersSound(c, s);
    } else {
      fields, rest := FieldHeadersSound(c, s);
      folds := [];
      assert PrintFolds([]) + PrintFields(fields) + rest == s by {
        NothingPrinted("");
        assert "" + PrintFields(fields) == PrintFields(fields);
      }
      if c.request.headers != [] {
        NoFolds(LastHeader(c.request).name, LastHeader(c.request).value);
      }
    }
  }

  lemma FoldedHeadersSound(c: Config, s: string) returns (folds: seq<Fold>, fields: seq<Field>, rest: string)
    requires Ready(c) && c.request.headers != [] && Succeeds(c, s) && (s[0] == ' ' || s[0] == '\t')
    ensures s == PrintFolds(folds) + PrintFields(fields) + rest && rest != "" && rest[0] == '\r'
    ensures forall i :: 0 <= i < |fields| ==> FieldOk(fields[i])
    ensures FoldsOk(LastHeader(c.request).name, LastHeader(c.request).value, folds)
    decreases |s|, 0
  {
    hide Feed, Takes, FoldOk, FieldOk, FoldsOk, PrintFolds, PrintFields, Readable, DeclaredLength, Invariant;
    var f, rest1 := FoldSound(c, s);
    var line, last := f.indent + f.text + CRLF, LastHeader(c.request);
    TakesFold(c, f);
    var d := AtHeaders(c, AddToValue(c.request, f.text).headers);
    SucceedsAfter(c, line, d, rest1);
    AddedLast(c.request, f.text);
    var more;
    more, fields, rest := HeadersSound(d, rest1);
    folds := [f] + more;
    FoldsFirst(last.name, last.value, f, more);
    PrintFoldsFirst(f, more);
    PartsAssembled(line, PrintFolds(more), PrintFields(fields), rest);
  }

  lemma AddedLast(r: RequestData, text: string)
    requires r.headers != []
    ensures AddToValue(r, text).headers != []
    ensures LastHeader(AddToValue(r, text)) == Header(LastHeader(r).name, LastHeader(r).value + text)
  {
  }

  lemma FieldHeadersSound(c: Config, s: string) returns (fields: seq<Field>, rest: string)
    requires Ready(c) && Succeeds(c, s) && s[0] != '\r'
    requires c.request.headers == [] || (s[0] != ' ' && s[0] != '\t')
    ensures s == PrintFields(fields) + rest && rest != "" && rest[0] == '\r'
    ensures forall i :: 0 <= i < |fields| ==> FieldOk(fields[i])
    decreases |s|, 0
  {
    hide Feed, Takes, FoldOk, FieldOk, FoldsOk, PrintFolds, PrintFields, Readable, DeclaredLength, Invariant;
    var name, text, rest1 := FieldLineSound(c, s);
    var line := name + ": " + text + CRLF;
    TakesFieldLine(c, name, text);
    var d := AtHeaders(c, c.request.headers + [Header(name, text)]);
    SucceedsAfter(c, line, d, rest1);
    var own, more;
    own, more, rest := HeadersSound(d, rest1);
    var field := Field(name, text, own);
    fields := [field] + more;
    FieldOfFolds(name, text, own);
    PrintFieldsFirst(field, more);
    PrintedFields(name, text, own, more);
    PartsAssembled(line, PrintFolds(own), PrintFields(more), rest);
  }

  lemma NothingPrinted(s: string)
    ensures PrintFolds([]) + PrintFields([]) + s == s
  {
  }

  lemma NoFolds(name: string, value: string)
    ensures FoldsOk(name, value, [])
  {
  }

  lemma FoldsFirst(name: string, value: string, f: Fold, more: seq<Fold>)
    requires FoldOk(f) && (f.text != "" ==> Readable(name, value + f.text)) && FoldsOk(name, value + f.text, more)
    ensures FoldsOk(name, value, [f] + more)
  {
    assert ([f] + more)[1..] == more;
  }

  lemma FieldOfFolds(name: string, text: string, folds: seq<Fold>)
    requires name != "" && Tokens(name) && Printable(text) && Readable(name, text) && FoldsOk(name, text, folds)
    ensures FieldOk(Field(name, text, folds))
  {
  }

  lemma PrintedFields(name: string, text: string, folds: seq<Fold>, more: seq<Field>)
    ensures PrintField(Field(name, text, folds)) + PrintFields(more) ==
            name + ": " + text + CRLF + PrintFolds(folds) + PrintFields(more)
  {
  }

  lemma PrintFoldsFirst(f: Fold, more: seq<Fold>)
    ensures PrintFolds([f] + more) == f.indent + f.text + CRLF + PrintFolds(more)
  {
    assert ([f] + more)[1..] == more;
  }

  lemma PartsAssembled(line: string, folds: string, fields: string, rest: string)
    ensures line + (folds + fields + rest) == line + folds + fields + rest
  {
  }

  // The body.

  lemma BodyLineSound(c: Config, s: string) returns (line: string, rest: string)
    requires c.state == BodyNormal && Succeeds(c, s)
    ensures Printable(line) && s == line + CRLF + rest
  {
    hide Feed;
    var n := Span(s, (ch: char) => !IsCtl(ch));
    line, rest := s[..n], s[n..];
    var d := AddToBody(c, line);
    TakesBodyText(c, line);
    SplitAt(s, n);
    SucceedsAfter(c, line, d, rest);
    SucceedsNext(d, rest);
    var e := AddToBody(d, "\r").(state := BodyExpectNewline);
    SucceedsNext(e, rest[1..]);
    assert rest == CRLF + rest[2..];
    rest := rest[2..];
    ThreeParts(line, CRLF, rest);
  }

  lemma BodySound(c: Config, s: string) returns (body: seq<string>, rest: string)
    requires c.state == BodyNormal && Succeeds(c, s) && c.counter < c.expected
    ensures body != [] && s == Lines(body) + rest
    ensures forall i :: 0 <= i < |body| ==> Printable(body[i])
    ensures |Lines(body[..|body| - 1])| < c.expected - c.counter <= |Lines(body)|
    decreases |s|
  {
    hide Feed;
    var line, rest1 := BodyLineSound(c, s);
    BodyLineEnd(c, line);
    var d := AddToBody(c, line + CRLF);
    if d.counter >= d.expected {
      body, rest := [line], rest1;
      LinesOfFirst(body);
    } else {
      SucceedsAfter(c, line + CRLF, d, rest1);
      var more;
      more, rest := BodySound(d, rest1);
      body := [line] + more;
      assert body[1..] == more;
      LinesOfFirst(body);
      ThreeParts(line + CRLF, Lines(more), rest);
    }
  }

  /** After the last header field: the blank line, and the body that the headers announce. */
  lemma EndSound(c: Config, s: string) returns (body: seq<string>, rest: string)
    requires Ready(c) && Succeeds(c, s) && s != "" && s[0] == '\r'
    ensures BodyOk(body, c.expected) && s == CRLF + Lines(body) + rest
  {
    hide Feed;
    SucceedsNext(c, s);
    var d := c.(state := ExpectingNewline3);
    SucceedsNext(d, s[1..]);
    rest := s[2..];
    assert s == CRLF + rest;
    if c.expected == 0 {
      body := [];
      assert CRLF + "" + rest == CRLF + rest;
    } else {
      body, rest := BodySound(c.(state := BodyNormal), rest);
      ThreeParts(CRLF, Lines(body), rest);
    }
  }

  // ---------------------------------------------------------------------------------------------
  // The parser and the grammar agree
  // ---------------------------------------------------------------------------------------------

  /** Soundness: an accepted input starts with a well-formed message. */
  lemma AcceptedWellFormed(c: Config, s: string) returns (m: Message, rest: string)
    requires IsStart(c) && Succeeds(c, s)
    ensures WellFormed(m) && s == Print(m) + rest
  {
    hide Feed;
    var name, uri, major, minor, rest1 := RequestLineSound(c, s);
    var bare := Message(name, uri, major, minor, [], []);
    assert WellFormed(bare);
    var line := PrintRequestLine(bare);
    TakesRequestLine(c, bare);
    var c1 := AfterRequestLine(bare);
    AfterRequestLineReady(c, bare);
    SucceedsAfter(c, line, c1, rest1);
    var folds, fields, rest2 := HeadersSound(c1, rest1);
    assert PrintFolds(folds) + PrintFields(fields) == PrintFields(fields);
    TakesFields(c1, fields);
    assert [] + HeadersOf(fields) == HeadersOf(fields);
    var c2 := AtHeaders(c1, HeadersOf(fields));
    SucceedsAfter(c1, PrintFields(fields), c2, rest2);
    var body;
    body, rest := EndSound(c2, rest2);
    m := bare.(fields := fields, body := body);
    MessageAssembled(line, PrintFields(fields), CRLF, Lines(body), rest);
  }

  lemma MessageAssembled(line: string, fields: string, blank: string, body: string, rest: string)
    ensures line + (fields + (blank + body + rest)) == line + fields + blank + body + rest
  {
  }

  /**
   * The parser is exact: it accepts at position k if and only if the first k characters are a
   * well-formed message, and then it has read the request that this message denotes.
   */
  lemma ParserExact(c: Config, s: string, k: nat)
    requires IsStart(c) && k <= |s|
    ensures Feed(c, s).verdict == Accepted && Feed(c, s).used == k
            <==> exists m :: WellFormed(m) && Print(m) == s[..k]
    ensures forall m :: WellFormed(m) && Print(m) == s[..k] ==> Feed(c, s).config.request == Denote(m)
  {
    hide Feed, WellFormed, Print, Denote;
    forall m | WellFormed(m) && Print(m) == s[..k]
      ensures Feed(c, s) == Report(Accepted, k, FinalConfig(m))
    {
      WellFormedAccepted(c, m);
      assert s == Print(m) + s[k..];
    }
    if Feed(c, s).verdict == Accepted && Feed(c, s).used == k {
      var m, rest := AcceptedWellFormed(c, s);
      WellFormedAccepted(c, m);
      assert Feed(c, Print(m) + rest).used == |Print(m)|;
      assert s[..k] == Print(m);
    }
  }

  /** No message is the beginning of another one, and equal texts denote equal requests. */
  lemma MessagesPrefixFree(m: Message, n: Message, rest: string)
    requires WellFormed(m) && WellFormed(n) && Print(n) == Print(m) + rest
    ensures rest == "" && Denote(m) == Denote(n)
  {
    var c := Config(MethodStart, 0, 0, RequestData("", "", 0, 0, [], ""));
    WellFormedAccepted(c, m);
    WellFormedAccepted(c, n);
    assert Print(n) + "" == Print(n);
  }

  /** A request that has been refused cannot become a message, whatever is read after it. */
  lemma RefusedForever(c: Config, s: string, m: Message, rest: string)
    requires IsStart(c) && WellFormed(m) && Print(m) == s + rest
    ensures Feed(c, s).verdict != Rejected && Feed(c, s).verdict != Thrown
  {
    WellFormedAccepted(c, m);
    assert Print(m) + "" == Print(m);
    FeedConcat(c, s, rest);
  }

  // ---------------------------------------------------------------------------------------------
  // Using a parser again
  // ---------------------------------------------------------------------------------------------

  /** A parser that has been reset, with a new request. */
  function AfterReset(c: Config, fresh_: RequestData): Config {
    c.(state := MethodStart, request := fresh_)
  }

  function NewParser(fresh_: RequestData): Config {
    Config(MethodStart, 0, 0, fresh_)
  }

  /** The smallest request line, from any counters. */
  lemma TakesSmallRequestLine(c: Config)
    requires IsStart(NewParser(c.request)) && c.state == MethodStart
    ensures Takes(c, "G / HTTP/1.0\r\n",
                  c.(state := HeaderLineStart, request := RequestData("G", "/", 1, 0, [], "")))
  {
    hide Feed, Takes, Step, IsToken;
    var c1 := c.(state := Uri, request := c.request.(method_ := "G"));
    var c2 := c1.(request := c1.request.(uri := "/"));
    var c3 := c2.(state := MajorStart, request := c2.request.(major := 0, minor := 0));
    var c4 := c3.(state := Minor, request := RequestData("G", "/", 1, 0, [], ""));
    SmallWords(c);
    TakesTwo(c, 'G', ' ', c1);
    TakesOne(c1, '/');
    TakesVersionPrefix(c2);
    SmallVersion();
    TakesVersionNumbers(c3, "1", "0");
    TakesFour(c, ['G', ' '], c1, ['/'], c2, " HTTP/", c3, "1" + "." + "0", c4);
    LineEndSteps(c4);
    TakesTwo(c4, '\r', '\n', c4.(state := HeaderLineStart));
    TakesBoth(c, ['G', ' '] + ['/'] + " HTTP/" + ("1" + "." + "0"), c4, ['\r', '\n'], c4.(state := HeaderLineStart));
    assert ['G', ' '] + ['/'] + " HTTP/" + ("1" + "." + "0") + ['\r', '\n'] == "G / HTTP/1.0\r\n";
  }

  lemma SmallWords(c: Config)
    requires IsStart(NewParser(c.request)) && c.state == MethodStart
    ensures var c0 := c.(state := Method, request := c.request.(method_ := "G"));
      Step(c, 'G') == (c0, NeedMore) && Step(c0, ' ') == (c0.(state := Uri), NeedMore)
    ensures var c1 := c.(state := Uri, request := c.request.(method_ := "G"));
      Step(c1, '/') == (c1.(request := c1.request.(uri := "/")), NeedMore)
  {
    assert "" + ['G'] == "G" && "" + ['/'] == "/";
  }

  lemma SmallVersion()
    ensures AllDigits("1") && AllDigits("0") && ValueOf("1") == 1 && ValueOf("0") == 0
  {
    assert "1"[..0] == "" && "0"[..0] == "";
  }

  /** Whether the smallest request is complete after its blank line depends on the expected length. */
  lemma SmallRequest(c: Config)
    requires IsStart(NewParser(c.request)) && c.state == MethodStart
    ensures Feed(c, "G / HTTP/1.0\r\n" + CRLF).verdict == if c.expected == 0 then Accepted else NeedMore
  {
    hide Feed, Takes, Accepts;
    var d := c.(state := HeaderLineStart, request := RequestData("G", "/", 1, 0, [], ""));
    TakesSmallRequestLine(c);
    if c.expected == 0 {
      AcceptsWithoutBody(d);
      TakesThenAccepts(c, "G / HTTP/1.0\r\n", d, CRLF, d.(state := ExpectingNewline3));
      AcceptedReport(c, "G / HTTP/1.0\r\n" + CRLF, d.(state := ExpectingNewline3));
    } else {
      TakesTwo(d, '\r', '\n', d.(state := BodyNormal));
      TakesBoth(c, "G / HTTP/1.0\r\n", d, CRLF, d.(state := BodyNormal));
      TakenReport(c, "G / HTTP/1.0\r\n" + CRLF, d.(state := BodyNormal));
    }
  }

  lemma AcceptedReport(c: Config, s: string, d: Config)
    requires Safe(c) && Accepts(c, s, d)
    ensures Feed(c, s) == Report(Accepted, |s|, d)
  {
    assert s + "" == s;
  }

  /**
   * A parser that is reset and given a new request behaves like a new parser, on every text, if and
   * only if it expected no body: `reset` keeps the expected length.
   */
  lemma ResetExact(c: Config, fresh_: RequestData)
    requires Invariant(c) && IsStart(NewParser(fresh_))
    ensures (forall s :: Feed(AfterReset(c, fresh_), s).verdict == Feed(NewParser(fresh_), s).verdict)
            <==> c.expected == 0
  {
    hide Feed, Invariant;
    if c.expected == 0 {
      ResetToNew(c, fresh_);
    } else {
      SmallRequest(AfterReset(c, fresh_));
      SmallRequest(NewParser(fresh_));
    }
  }

  lemma ResetToNew(c: Config, fresh_: RequestData)
    requires Invariant(c) && c.expected == 0
    ensures AfterReset(c, fresh_) == NewParser(fresh_)
  {
  }

  // ---------------------------------------------------------------------------------------------
  // Body framing
  // ---------------------------------------------------------------------------------------------

  predicate EndsLine(s: string, j: nat) {
    2 <= j <= |s| && s[j - 2] == '\r' && s[j - 1] == '\n'
  }

  /** Position i holds no control character, or one half of a CR LF pair. */
  predicate PairedAt(t: string, i: nat)
    requires i < |t|
  {
    IsCtl(t[i]) ==>
      || (t[i] == '\r' && i + 1 < |t| && t[i + 1] == '\n')
      || (t[i] == '\n' && i > 0 && t[i - 1] == '\r')
  }

  /** The only control characters are those of CR LF pairs. */
  predicate Framed(t: string) {
    forall i :: 0 <= i < |t| ==> PairedAt(t, i)
  }

  lemma {:induction false} LinesFramed(body: seq<string>)
    requires forall i :: 0 <= i < |body| ==> Printable(body[i])
    ensures Framed(Lines(body))
  {
    if body != [] {
      var line, rest := body[0], Lines(body[1..]);
      LinesFramed(body[1..]);
      FramedLine(line, rest);
    }
  }

  lemma FramedLine(line: string, rest: string)
    requires Printable(line) && Framed(rest)
    ensures Framed(line + CRLF + rest)
  {
    var t := line + CRLF + rest;
    var n := |line|;
    assert t[n] == '\r' && t[n + 1] == '\n';
    forall i | 0 <= i < |t|
      ensures PairedAt(t, i)
    {
      if i >= n + 2 {
        assert PairedAt(rest, i - n - 2);
      }
    }
  }

  /** A framed text that ends a line is a sequence of lines. */
  lemma {:induction false} FramedLines(t: string) returns (body: seq<string>)
    requires Framed(t) && (t == "" || EndsLine(t, |t|))
    ensures Lines(body) == t && forall i :: 0 <= i < |body| ==> Printable(body[i])
    decreases |t|
  {
    if t == "" {
      body := [];
    } else {
      var n := Span(t, (ch: char) => !IsCtl(ch));
      FirstControl(t, n);
      var line, rest := t[..n], t[n + 2..];
      FramedRest(t, n + 2);
      var more := FramedLines(rest);
      body := [line] + more;
      assert body[1..] == more;
      assert t == line + CRLF + rest;
    }
  }

  lemma FirstControl(t: string, n: nat)
    requires Framed(t) && EndsLine(t, |t|) && n <= |t|
    requires forall i :: 0 <= i < n ==> !IsCtl(t[i])
    requires n < |t| ==> IsCtl(t[n])
    ensures EndsLine(t, n + 2)
  {
    assert t[|t| - 1] == '\n';
    assert n < |t|;
    assert PairedAt(t, n);
  }

  lemma FramedRest(t: string, k: nat)
    requires Framed(t) && EndsLine(t, |t|) && EndsLine(t, k)
    ensures Framed(t[k..]) && (t[k..] == "" || EndsLine(t[k..], |t[k..]|))
  {
    var rest := t[k..];
    forall i | 0 <= i < |rest|
      ensures PairedAt(rest, i)
    {
      assert PairedAt(t, k + i);
    }
    assert t[|t| - 2] == '\r' && t[k - 1] == '\n';
  }

  /** The last line of a body is the only one that ends past the lines before it. */
  lemma LastLineEnd(body: seq<string>, j: nat)
    requires body != [] && forall i :: 0 <= i < |body| ==> Printable(body[i])
    requires |Lines(body[..|body| - 1])| < j
    ensures EndsLine(Lines(body), j) ==> j == |Lines(body)|
  {
    var before, last := body[..|body| - 1], body[|body| - 1];
    assert body == before + [last];
    LinesConcat(before, [last]);
    assert Lines([last]) == last + CRLF + "" == last + CRLF;
    var t, n := Lines(body), |Lines(before)|;
    if j <= |t| {
      assert t[j - 1] == (last + CRLF)[j - 1 - n];
      assert j - 1 - n < |last| ==> t[j - 1] == last[j - 1 - n];
    }
  }

  lemma LinesEnd(body: seq<string>)
    requires body != []
    ensures EndsLine(Lines(body), |Lines(body)|)
  {
    var before, last := body[..|body| - 1], body[|body| - 1];
    assert body == before + [last];
    LinesConcat(before, [last]);
    assert Lines([last]) == last + CRLF + "" == last + CRLF;
  }

  /**
   * After headers that announce N > 0 bytes, the parser accepts at k if and only if k is the first
   * line end at or past N and the first k bytes have no control characters except in line ends; it
   * has then stored exactly these k bytes.
   */
  lemma BodyFraming(c: Config, s: string, k: nat)
    requires c.state == BodyNormal && c.counter == 0 && c.request.jsonData == "" && c.expected > 0
    requires k <= |s|
    ensures Feed(c, s).verdict == Accepted && Feed(c, s).used == k
            <==> && Framed(s[..k]) && c.expected <= k && EndsLine(s, k)
                 && forall j: nat :: c.expected <= j < k ==> !EndsLine(s, j)
    ensures Feed(c, s).verdict == Accepted ==>
              Feed(c, s).config.request == c.request.(jsonData := s[..Feed(c, s).used])
  {
    if Succeeds(c, s) {
      BodyFramingSound(c, s);
      BodyFramingUnique(c, s, Feed(c, s).used, k);
    }
    if Framed(s[..k]) && c.expected <= k && EndsLine(s, k) && forall j: nat :: c.expected <= j < k ==> !EndsLine(s, j) {
      BodyFramingComplete(c, s, k);
    }
  }

  lemma BodyFramingUnique(c: Config, s: string, j: nat, k: nat)
    requires c.expected <= j && EndsLine(s, j) && forall i: nat :: c.expected <= i < j ==> !EndsLine(s, i)
    ensures c.expected <= k && EndsLine(s, k) && (forall i: nat :: c.expected <= i < k ==> !EndsLine(s, i)) ==> j == k
  {
  }

  lemma BodyFramingSound(c: Config, s: string)
    requires c.state == BodyNormal && c.counter == 0 && c.request.jsonData == "" && c.expected > 0
    requires Succeeds(c, s)
    ensures var k := Feed(c, s).used;
      && Framed(s[..k]) && c.expected <= k && EndsLine(s, k)
      && (forall j: nat :: c.expected <= j < k ==> !EndsLine(s, j))
      && Feed(c, s).config.request == c.request.(jsonData := s[..k])
  {
    var body, rest := BodySound(c, s);
    var t := Lines(body);
    AcceptsBody(c, body);
    assert Feed(c, t + rest).used == |t|;
    assert "" + t == t;
    LinesFramed(body);
    LinesEnd(body);
    FirstLineEnd(s, t, rest, body, c.expected);
  }

  lemma FirstLineEnd(s: string, t: string, rest: string, body: seq<string>, length: nat)
    requires body != [] && (forall i :: 0 <= i < |body| ==> Printable(body[i])) && t == Lines(body) && s == t + rest
    requires |Lines(body[..|body| - 1])| < length <= |t| && EndsLine(t, |t|)
    ensures s[..|t|] == t && EndsLine(s, |t|)
    ensures forall j: nat :: length <= j < |t| ==> !EndsLine(s, j)
  {
    forall j: nat | length <= j < |t|
      ensures !EndsLine(s, j)
    {
      LastLineEnd(body, j);
    }
  }

  lemma BodyFramingComplete(c: Config, s: string, k: nat)
    requires c.state == BodyNormal && c.counter == 0 && c.request.jsonData == "" && c.expected > 0
    requires k <= |s| && Framed(s[..k]) && c.expected <= k && EndsLine(s, k)
    requires forall j: nat :: c.expected <= j < k ==> !EndsLine(s, j)
    ensures Feed(c, s).verdict == Accepted && Feed(c, s).used == k
  {
    hide Feed, Framed, EndsLine, Lines;
    var t := s[..k];
    PrefixEnds(s, k);
    var body := FramedLines(t);
    BodyNotEmpty(body, c.expected);
    BeforeTooShort(s, k, body, c.expected);
    AcceptsBody(c, body);
    SplitAt(s, k);
    AcceptedThen(c, t, AddToBody(c, Lines(body)).(state := BodyExpectNewline), s[k..]);
  }

  lemma PrefixEnds(s: string, k: nat)
    requires EndsLine(s, k)
    ensures EndsLine(s[..k], |s[..k]|)
  {
  }

  lemma BodyNotEmpty(body: seq<string>, length: nat)
    requires 0 < length <= |Lines(body)|
    ensures body != []
  {
  }

  lemma AcceptedThen(c: Config, a: string, d: Config, rest: string)
    requires Safe(c) && Accepts(c, a, d)
    ensures Feed(c, a + rest) == Report(Accepted, |a|, d)
  {
  }

  /** The lines before the last one end before the length is reached, or the body would end with them. */
  lemma BeforeTooShort(s: string, k: nat, body: seq<string>, length: nat)
    requires k <= |s| && body != [] && Lines(body) == s[..k] && 0 < length <= k
    requires forall j: nat :: length <= j < k ==> !EndsLine(s, j)
    ensures |Lines(body[..|body| - 1])| < length
  {
    hide EndsLine, Lines;
    var before := body[..|body| - 1];
    LinesButLast(body);
    if before != [] {
      LinesEnd(before);
      EndsInside(s, Lines(before), k);
      assert |Lines(before)| < k;
    } else {
      NoBodyLines();
    }
  }

  lemma NoBodyLines()
    ensures Lines([]) == ""
  {
  }

  lemma LinesButLast(body: seq<string>)
    requires body != []
    ensures Lines(body[..|body| - 1]) < Lines(body)
  {
    hide Lines;
    var before, last := body[..|body| - 1], body[|body| - 1];
    assert body == before + [last];
    LinesConcat(before, [last]);
    OneLine(last);
  }

  lemma OneLine(l: string)
    ensures |Lines([l])| == |l| + 2
  {
    assert [l][1..] == [];
  }

  lemma EndsInside(s: string, t: string, k: nat)
    requires |t| <= k <= |s| && s[..|t|] == t && EndsLine(t, |t|)
    ensures EndsLine(s, |t|)
  {
    assert s[|t| - 1] == t[|t| - 1] && s[|t| - 2] == t[|t| - 2];
  }
}
