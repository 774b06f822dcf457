/** Searching byte strings, and the CRLF line structure shared by requests, bodies and replies. */
module Text {

  datatype Option<+T> = None | Some(value: T)

  const CRLF: string := "\r\n"

  predicate OccursAt(s: string, pattern: string, i: nat) {
    i + |pattern| <= |s| && s[i..i + |pattern|] == pattern
  }

  /** `std::string::find`: the first occurrence of `pattern` that starts at or after `from`. */
  function Find(s: string, pattern: string, from: nat): (r: Option<nat>)
    ensures r.Some? ==> from <= r.value && r.value + |pattern| <= |s|
    decreases |s| - from
  {
    if |s| < from + |pattern| then None
    else if OccursAt(s, pattern, from) then Some(from)
    else if from == |s| then None
    else Find(s, pattern, from + 1)
  }

  /** What is found is an occurrence, there is none before it, and none at all if nothing is found. */
  lemma {:induction false} FindFirst(s: string, pattern: string, from: nat)
    ensures var r := Find(s, pattern, from);
      && (r.Some? ==> OccursAt(s, pattern, r.value))
      && forall j: nat :: from <= j && (r.Some? ==> j < r.value) ==> !OccursAt(s, pattern, j)
    decreases |s| - from
  {
    if from + |pattern| <= |s| && !OccursAt(s, pattern, from) && from < |s| {
      FindFirst(s, pattern, from + 1);
    }
  }

  /** A position counted from k further left. */
  function Later(k: nat, position: Option<nat>): Option<nat> {
    match position
    case None => None
    case Some(i) => Some(k + i)
  }

  /** Positions without an occurrence can be skipped. */
  lemma FindSkip(s: string, pattern: string, from: nat, to: nat)
    requires from <= to
    requires forall j: nat :: from <= j < to ==> !OccursAt(s, pattern, j)
    ensures Find(s, pattern, from) == Find(s, pattern, to)
  {
    hide Find;
    FindFirst(s, pattern, from);
    FindFirst(s, pattern, to);
    var a := Find(s, pattern, from);
    assert a.Some? ==> to <= a.value;
  }

  /** Searching from position k is searching the rest of the string. */
  lemma FindFrom(s: string, pattern: string, k: nat)
    requires k <= |s|
    ensures Find(s, pattern, k) == Later(k, Find(s[k..], pattern, 0))
  {
    hide Find;
    forall j: nat | k <= j
      ensures OccursAt(s, pattern, j) <==> OccursAt(s[k..], pattern, j - k)
    {
      if j + |pattern| <= |s| {
        assert s[k..][j - k..j - k + |pattern|] == s[j..j + |pattern|];
      }
    }
    FindFirst(s, pattern, k);
    FindFirst(s[k..], pattern, 0);
    var whole := Find(s, pattern, k);
    assert whole.Some? ==> OccursAt(s[k..], pattern, whole.value - k);
    var rest := Find(s[k..], pattern, 0);
    assert rest.Some? ==> OccursAt(s, pattern, rest.value + k);
  }

  predicate HasSuffix(s: string, x: string) {
    |x| <= |s| && s[|s| - |x|..] == x
  }

  /** No carriage return and no line feed: a string that can stand between two line ends. */
  predicate IsLine(s: string) {
    forall i :: 0 <= i < |s| ==> s[i] != '\r' && s[i] != '\n'
  }

  /** Every line followed by CRLF. */
  function Lines(ls: seq<string>): string {
    if ls == [] then "" else ls[0] + CRLF + Lines(ls[1..])
  }

  lemma LinesFirst(ls: seq<string>, rest: string)
    requires ls != []
    ensures Lines(ls) + rest == ls[0] + CRLF + (Lines(ls[1..]) + rest)
    ensures |Lines(ls)| == |ls[0]| + 2 + |Lines(ls[1..])|
  {
    ThreeParts(ls[0] + CRLF, Lines(ls[1..]), rest);
  }

  lemma ThreeParts(a: string, b: string, c: string)
    ensures a + (b + c) == a + b + c
  {
  }

  /** Texts one after another. */
  function Concat(parts: seq<string>): string {
    if parts == [] then "" else parts[0] + Concat(parts[1..])
  }

  lemma {:induction false} ConcatLast(a: seq<string>, b: seq<string>)
    ensures Concat(a + b) == Concat(a) + Concat(b)
  {
    if a == [] {
      assert a + b == b;
    } else {
      assert (a + b)[1..] == a[1..] + b;
      ConcatLast(a[1..], b);
      ThreeParts(a[0], Concat(a[1..]), Concat(b));
    }
  }

  lemma ConcatFirst(parts: seq<string>)
    requires parts != []
    ensures Concat(parts) == parts[0] + Concat(parts[1..])
    ensures |parts| == 1 ==> Concat(parts) == parts[0]
  {
    assert |parts| == 1 ==> Concat(parts[1..]) == "";
  }

  lemma {:induction false} LinesConcat(a: seq<string>, b: seq<string>)
    ensures Lines(a + b) == Lines(a) + Lines(b)
  {
    if a == [] {
      assert a + b == b;
    } else {
      LinesConcat(a[1..], b);
      assert (a + b)[1..] == a[1..] + b;
      ThreeParts(a[0] + CRLF, Lines(a[1..]), Lines(b));
    }
  }

  /** A pattern `x CRLF` with a non-empty one-line x can only sit at the end of a line. */
  lemma OccursInFirstLine(l: string, rest: string, x: string, j: nat)
    requires IsLine(l) && IsLine(x) && x != ""
    ensures j < |l| + 2 && OccursAt(l + CRLF + rest, x + CRLF, j) ==> HasSuffix(l, x) && j == |l| - |x|
    ensures HasSuffix(l, x) ==> OccursAt(l + CRLF + rest, x + CRLF, |l| - |x|)
  {
    var s, p := l + CRLF + rest, x + CRLF;
    assert s[|l|] == '\r' && s[|l| + 1] == '\n';
    if j < |l| + 2 && OccursAt(s, p, j) {
      var window := s[j..j + |p|];
      assert window == p;
      assert s[j] == window[0] == x[0];
      assert s[j + |x|] == window[|x|] == '\r';
      assert forall i :: j <= i < j + |x| ==> s[i] == window[i - j] == x[i - j];
      assert forall i :: 0 <= i < |l| ==> s[i] == l[i];
      assert j + |x| == |l|;
      assert l[j..] == x;
    }
    if HasSuffix(l, x) {
      var q := |l| - |x|;
      assert s[q..q + |p|] == l[q..] + CRLF;
    }
  }

  lemma LineEndFound(l: string, rest: string, x: string)
    requires IsLine(l) && IsLine(x) && x != "" && HasSuffix(l, x)
    ensures Find(l + CRLF + rest, x + CRLF, 0) == Some(|l| - |x|)
  {
    hide Find, OccursAt, IsLine;
    var s, p := l + CRLF + rest, x + CRLF;
    OccursInFirstLine(l, rest, x, 0);
    forall j: nat | j < |l| - |x|
      ensures !OccursAt(s, p, j)
    {
      OccursInFirstLine(l, rest, x, j);
    }
    FoundAt(s, p, |l| - |x|);
  }

  lemma LineEndSkipped(l: string, rest: string, x: string)
    requires IsLine(l) && IsLine(x) && x != "" && !HasSuffix(l, x)
    ensures Find(l + CRLF + rest, x + CRLF, 0) == Later(|l| + 2, Find(rest, x + CRLF, 0))
  {
    hide Find, OccursAt, HasSuffix, IsLine;
    var s, p := l + CRLF + rest, x + CRLF;
    forall j: nat | j < |l| + 2
      ensures !OccursAt(s, p, j)
    {
      OccursInFirstLine(l, rest, x, j);
    }
    FindSkip(s, p, 0, |l| + 2);
    FindFrom(s, p, |l| + 2);
    assert s[|l| + 2..] == rest;
  }

  /** Where the first line end of the form `x CRLF` is, one line at a time. */
  lemma FindLineEnd(l: string, rest: string, x: string)
    requires IsLine(l) && IsLine(x) && x != ""
    ensures HasSuffix(l, x) ==> Find(l + CRLF + rest, x + CRLF, 0) == Some(|l| - |x|)
    ensures !HasSuffix(l, x) ==>
      Find(l + CRLF + rest, x + CRLF, 0) == Later(|l| + 2, Find(rest, x + CRLF, 0))
  {
    hide Find, OccursAt;
    if HasSuffix(l, x) {
      LineEndFound(l, rest, x);
    } else {
      LineEndSkipped(l, rest, x);
    }
  }

  /** Lines without a delimiter at their end can be skipped when looking for one. */
  lemma {:induction false} FindAfterLines(ls: seq<string>, rest: string, x: string)
    requires IsLine(x) && x != ""
    requires forall i :: 0 <= i < |ls| ==> IsLine(ls[i]) && !HasSuffix(ls[i], x)
    ensures Find(Lines(ls) + rest, x + CRLF, 0) == Later(|Lines(ls)|, Find(rest, x + CRLF, 0))
  {
    hide Find;
    if ls == [] {
      assert Lines(ls) + rest == rest;
    } else {
      var l, tail := ls[0], Lines(ls[1..]) + rest;
      FindAfterLines(ls[1..], rest, x);
      FindLineEnd(l, tail, x);
      LinesFirst(ls, rest);
      SameFind(Lines(ls) + rest, l + CRLF + tail, x + CRLF);
      LaterTwice(|l| + 2, |Lines(ls[1..])|, Find(rest, x + CRLF, 0));
    }
  }

  lemma SameFind(s: string, t: string, pattern: string)
    requires s == t
    ensures Find(s, pattern, 0) == Find(t, pattern, 0)
  {
  }

  lemma LaterTwice(j: nat, k: nat, position: Option<nat>)
    ensures Later(j, Later(k, position)) == Later(j + k, position)
  {
  }

  /** One differing character rules out an occurrence. */
  lemma Differs(s: string, pattern: string, j: nat, i: nat)
    requires i < |pattern| && j + i < |s| && s[j + i] != pattern[i]
    ensures !OccursAt(s, pattern, j)
  {
    if j + |pattern| <= |s| {
      assert s[j..j + |pattern|][i] == s[j + i];
    }
  }

  /** The only occurrence that matters is the first one. */
  lemma FoundAt(s: string, pattern: string, k: nat)
    requires OccursAt(s, pattern, k) && forall j: nat :: j < k ==> !OccursAt(s, pattern, j)
    ensures Find(s, pattern, 0) == Some(k)
  {
    hide Find;
    FindFirst(s, pattern, 0);
  }

  /** The first line end of a text that begins with a line. */
  lemma FindCrlf(l: string, rest: string)
    requires IsLine(l)
    ensures Find(l + CRLF + rest, CRLF, 0) == Some(|l|)
  {
    hide Find;
    var s := l + CRLF + rest;
    assert s[|l|..|l| + 2] == CRLF;
    forall j: nat | j < |l|
      ensures !OccursAt(s, CRLF, j)
    {
      assert s[j] == l[j];
      Differs(s, CRLF, j, 0);
    }
    FoundAt(s, CRLF, |l|);
  }

  const BLANK_LINE: string := "\r\n\r\n"

  lemma NoBlankLineInside(l: string, rest: string, j: nat)
    requires IsLine(l) && (j < |l| || j == |l| + 1)
    ensures !OccursAt(l + CRLF + rest, BLANK_LINE, j)
  {
    var s := l + CRLF + rest;
    assert j < |l| ==> s[j] == l[j];
    assert s[|l| + 1] == '\n';
    Differs(s, BLANK_LINE, j, 0);
  }

  /** The first blank line of a text that begins with a line. */
  lemma FindBlankLine(l: string, rest: string)
    requires IsLine(l)
    ensures Find(l + CRLF + (CRLF + rest), BLANK_LINE, 0) == Some(|l|)
    ensures rest != "" && rest[0] != '\r' ==>
              Find(l + CRLF + rest, BLANK_LINE, 0) == Later(|l| + 2, Find(rest, BLANK_LINE, 0))
  {
    hide Find;
    var s := l + CRLF + (CRLF + rest);
    assert s[|l|..|l| + 4] == BLANK_LINE;
    forall j: nat | j < |l|
      ensures !OccursAt(s, BLANK_LINE, j)
    {
      NoBlankLineInside(l, CRLF + rest, j);
    }
    FoundAt(s, BLANK_LINE, |l|);
    if rest != "" && rest[0] != '\r' {
      SkipLine(l, rest);
    }
  }

  lemma SkipLine(l: string, rest: string)
    requires IsLine(l) && rest != "" && rest[0] != '\r'
    ensures Find(l + CRLF + rest, BLANK_LINE, 0) == Later(|l| + 2, Find(rest, BLANK_LINE, 0))
  {
    hide Find;
    var s := l + CRLF + rest;
    assert s[|l| + 2] == rest[0];
    forall j: nat | j < |l| + 2
      ensures !OccursAt(s, BLANK_LINE, j)
    {
      if j == |l| {
        Differs(s, BLANK_LINE, j, 2);
      } else {
        NoBlankLineInside(l, rest, j);
      }
    }
    FindSkip(s, BLANK_LINE, 0, |l| + 2);
    FindFrom(s, BLANK_LINE, |l| + 2);
    assert s[|l| + 2..] == rest;
  }
}
