/** Splitting a multipart body into its files, and the bodies for which that gives the files back. */
module Multipart {
  import opened Text

  // ---------------------------------------------------------------------------------------------
  // What the request handler extracts, as functions
  // ---------------------------------------------------------------------------------------------

  /** The characters that `retrieveMultipartBoundary` stops at: the letters of "/r ;". */
  predicate IsStop(c: char) {
    c == '/' || c == 'r' || c == ' ' || c == ';'
  }

  /** `find_first_of("/r ;", from)`, or the length of the string. */
  function FirstStop(s: string, from: nat): (end: nat)
    requires from <= |s|
    ensures from <= end <= |s|
    ensures forall i :: from <= i < end ==> !IsStop(s[i])
    ensures end < |s| ==> IsStop(s[end])
    decreases |s| - from
  {
    if from == |s| || IsStop(s[from]) then from else FirstStop(s, from + 1)
  }

  /** `substr(from, to - from + 1)`: the character at `to` is part of the result when there is one. */
  function Through(s: string, from: nat, to: nat): string
    requires from <= to <= |s|
  {
    s[from..if to < |s| then to + 1 else to]
  }

  function BoundaryIn(value: string): Option<string> {
    match Find(value, "boundary=", 0)
    case None => None
    case Some(i) => Some(Through(value, i + 9, FirstStop(value, i + 9)))
  }

  /** The text between the end of the first `open` and the next `close` after it. */
  function Between(s: string, open: string, close: string): Option<string> {
    match Find(s, open, 0)
    case None => None
    case Some(i) =>
      match Find(s, close, i + |open|)
      case None => None
      case Some(j) => Some(s[i + |open|..j])
  }

  const FILENAME: string := "filename=\""
  const QUOTE: string := "\""

  function FilenameIn(part: string): Option<string> {
    Between(part, FILENAME, QUOTE)
  }

  function ImageIn(part: string): Option<string> {
    Between(part, BLANK_LINE, CRLF)
  }

  /** Something under a name. */
  datatype Entry<T> = Entry(name: string, content: T)

  type Part = Entry<string>

  function EntryIn(part: string): Option<Part> {
    match (FilenameIn(part), ImageIn(part))
    case (Some(name), Some(content)) => Some(Entry(name, content))
    case _ => None
  }

  function Delimiter(boundary: string): string {
    "--" + boundary + CRLF
  }

  function CloseDelimiter(boundary: string): string {
    "--" + boundary + "--" + CRLF
  }

  /** The part that ends where `end` says, with one character too many, or at the end of the text. */
  function PartUpTo(text: string, end: Option<nat>): string
    requires end.Some? ==> end.value <= |text|
  {
    match end
    case None => text
    case Some(e) => Through(text, 0, e)
  }

  /** The files in the text after a delimiter, added to those found before. */
  function ImagesAfter(delimiter: string, close: string, text: string, found: map<string, string>)
    : Option<map<string, string>>
    requires delimiter != ""
    decreases |text|
  {
    var next := Find(text, delimiter, 0);
    var end := if next.Some? then next else Find(text, close, 0);
    match EntryIn(PartUpTo(text, end))
    case None => None
    case Some(e) =>
      var all := found[e.name := e.content];
      if next.None? then Some(all)
      else ImagesAfter(delimiter, close, text[next.value + |delimiter|..], all)
  }

  /** `retrieveImages`: None when it returns false. */
  function ImagesIn(boundary: string, text: string): Option<map<string, string>> {
    var delimiter := Delimiter(boundary);
    match Find(text, delimiter, 0)
    case None => None
    case Some(i) => ImagesAfter(delimiter, CloseDelimiter(boundary), text[i + |delimiter|..], map[])
  }

  // ---------------------------------------------------------------------------------------------
  // The methods of the request handler
  // ---------------------------------------------------------------------------------------------

  method RetrieveMultipartBoundary(input: string) returns (ok: bool, output: string)
    ensures BoundaryIn(input) == if ok then Some(output) else None
  {
    output := "";
    var start := Find(input, "boundary=", 0);
    if start.None? {
      return false, output;
    }
    var startIdx := start.value + 9;
    var endIdx := FirstStop(input, startIdx);
    output := Through(input, startIdx, endIdx);
    ok := true;
  }

  method RetrieveFilename(input: string) returns (ok: bool, output: string)
    ensures FilenameIn(input) == if ok then Some(output) else None
  {
    output := "";
    var start := Find(input, FILENAME, 0);
    if start.None? {
      return false, output;
    }
    var startIdx := start.value + 10;
    var end := Find(input, QUOTE, startIdx);
    if end.None? {
      return false, output;
    }
    output := input[startIdx..end.value];
    ok := true;
  }

  method RetrieveImage(input: string) returns (ok: bool, output: string)
    ensures ImageIn(input) == if ok then Some(output) else None
  {
    output := "";
    var start := Find(input, BLANK_LINE, 0);
    if start.None? {
      return false, output;
    }
    var startIdx := start.value + 4;
    var end := Find(input, CRLF, startIdx);
    if end.None? {
      return false, output;
    }
    output := input[startIdx..end.value];
    ok := true;
  }

  method RetrieveEntry(part: string) returns (ok: bool, name: string, content: string)
    ensures EntryIn(part) == if ok then Some(Entry(name, content)) else None
  {
    content := "";
    ok, name := RetrieveFilename(part);
    if ok {
      ok, content := RetrieveImage(part);
    }
  }

  lemma SliceOfSlice(s: string, j: nat, k: nat)
    requires j <= k <= |s|
    ensures s[j..][k - j..] == s[k..]
  {
  }

  lemma PartAt(s: string, j: nat, end: Option<nat>)
    requires j <= |s| && (end.Some? ==> j <= end.value <= |s|)
    ensures PartUpTo(s[j..], if end.None? then None else Some(end.value - j)) ==
            if end.None? then s[j..] else Through(s, j, end.value)
  {
  }

  /** One round of the splitting loop, with its part and the text after it. */
  lemma ImagesAfterRound(delimiter: string, close: string, text: string, found: map<string, string>,
                         next: Option<nat>, part: string, rest: string)
    requires delimiter != "" && next == Find(text, delimiter, 0)
    requires part == PartUpTo(text, if next.Some? then next else Find(text, close, 0))
    requires next.Some? ==> rest == text[next.value + |delimiter|..]
    ensures var entry := EntryIn(part);
      ImagesAfter(delimiter, close, text, found) ==
      if entry.None? then None
      else if next.None? then Some(found[entry.value.name := entry.value.content])
      else ImagesAfter(delimiter, close, rest, found[entry.value.name := entry.value.content])
  {
    hide Find, EntryIn;
  }

  /** One round of the splitting loop, in positions of the whole text. */
  lemma ImagesAfterAt(delimiter: string, close: string, input: string, current: nat, found: map<string, string>)
    requires delimiter != "" && current <= |input|
    ensures var next := Find(input, delimiter, current);
      var end := if next.Some? then next else Find(input, close, current);
      var entry := EntryIn(if end.None? then input[current..] else Through(input, current, end.value));
      ImagesAfter(delimiter, close, input[current..], found) ==
      if entry.None? then None
      else if next.None? then Some(found[entry.value.name := entry.value.content])
      else ImagesAfter(delimiter, close, input[next.value + |delimiter|..],
                       found[entry.value.name := entry.value.content])
  {
    hide Find, EntryIn, ImagesAfter;
    FindFrom(input, delimiter, current);
    FindFrom(input, close, current);
    var text, next := input[current..], Find(input, delimiter, current);
    var end := if next.Some? then next else Find(input, close, current);
    var part := if end.None? then text else Through(input, current, end.value);
    PartAt(input, current, end);
    if next.Some? {
      SliceOfSlice(input, current, next.value + |delimiter|);
      ImagesAfterRound(delimiter, close, text, found, Find(text, delimiter, 0), part,
                       input[next.value + |delimiter|..]);
    } else {
      ImagesAfterRound(delimiter, close, text, found, None, part, "");
    }
  }

  method RetrieveImages(boundary: string, input: string) returns (ok: bool, output: map<string, string>)
    ensures ImagesIn(boundary, input) == if ok then Some(output) else None
  {
    hide Find, ImagesAfter;
    output := map[];
    var delimiter := Delimiter(boundary);
    var closeDelimiter := CloseDelimiter(boundary);
    var first := Find(input, delimiter, 0);
    if first.None? {
      return false, output;
    }
    ok, output := RetrieveParts(delimiter, closeDelimiter, input, first.value + |delimiter|);
  }

  /** The loop of `retrieveImages`, from the end of the first delimiter on. */
  method RetrieveParts(delimiter: string, closeDelimiter: string, input: string, start: nat)
    returns (ok: bool, output: map<string, string>)
    requires delimiter != "" && start <= |input|
    ensures ImagesAfter(delimiter, closeDelimiter, input[start..], map[]) == if ok then Some(output) else None
  {
    hide Find, EntryIn, ImagesAfter;
    output := map[];
    var currentIdx := start;
    var partEnd := Find(input, delimiter, currentIdx);
    while partEnd.Some?
      invariant currentIdx <= |input|
      invariant partEnd == Find(input, delimiter, currentIdx)
      invariant ImagesAfter(delimiter, closeDelimiter, input[start..], map[]) ==
                ImagesAfter(delimiter, closeDelimiter, input[currentIdx..], output)
      decreases |input| - currentIdx
    {
      ImagesAfterAt(delimiter, closeDelimiter, input, currentIdx, output);
      var part := Through(input, currentIdx, partEnd.value);
      var name, content;
      ok, name, content := RetrieveEntry(part);
      if !ok {
        return;
      }
      output := output[name := content];
      currentIdx := partEnd.value + |delimiter|;
      partEnd := Find(input, delimiter, currentIdx);
    }
    ImagesAfterAt(delimiter, closeDelimiter, input, currentIdx, output);
    partEnd := Find(input, closeDelimiter, currentIdx);
    var lastPart := if partEnd.None? then input[currentIdx..] else Through(input, currentIdx, partEnd.value);
    var name, content;
    ok, name, content := RetrieveEntry(lastPart);
    if ok {
      output := output[name := content];
    }
  }
}
