/** Lines, white space and fixed patterns, as the Go standard library treats them. */
module Text {

  function IndexOf(s: string, c: char, i: nat): (k: nat)
    requires i <= |s|
    ensures i <= k <= |s|
    ensures forall j :: i <= j < k ==> s[j] != c
    ensures k < |s| ==> s[k] == c
    decreases |s| - i
  {
    if i == |s| || s[i] == c then i else IndexOf(s, c, i + 1)
  }

  /** strings.Split with a one-character separator. */
  function Split(s: string, sep: char): (parts: seq<string>)
    ensures |parts| > 0
    decreases |s|
  {
    var k := IndexOf(s, sep, 0);
    if k == |s| then [s] else [s[..k]] + Split(s[k + 1..], sep)
  }

  function Join(parts: seq<string>, sep: char): string
    requires |parts| > 0
  {
    if |parts| == 1 then parts[0] else parts[0] + [sep] + Join(parts[1..], sep)
  }

  predicate Without(s: string, c: char) {
    forall i :: 0 <= i < |s| ==> s[i] != c
  }

  predicate AllWithout(parts: seq<string>, c: char) {
    forall i :: 0 <= i < |parts| ==> Without(parts[i], c)
  }

  lemma {:induction false} JoinSplit(s: string, sep: char)
    ensures AllWithout(Split(s, sep), sep)
    ensures Join(Split(s, sep), sep) == s
    decreases |s|
  {
    var k := IndexOf(s, sep, 0);
    if k < |s| {
      JoinSplit(s[k + 1..], sep);
      assert s == s[..k] + [sep] + s[k + 1..];
      assert Split(s, sep)[1..] == Split(s[k + 1..], sep);
    }
  }

  lemma {:induction false} SplitJoin(parts: seq<string>, sep: char)
    requires |parts| > 0
    requires AllWithout(parts, sep)
    ensures Split(Join(parts, sep), sep) == parts
  {
    var s := Join(parts, sep);
    var k := IndexOf(s, sep, 0);
    if |parts| == 1 {
      assert s == parts[0];
    } else {
      var rest := Join(parts[1..], sep);
      SplitJoin(parts[1..], sep);
      assert s[|parts[0]|] == sep;
      assert forall i :: 0 <= i < |parts[0]| ==> s[i] == parts[0][i];
      assert k == |parts[0]|;
      assert s[..k] == parts[0] && s[k + 1..] == rest;
      assert parts == [parts[0]] + parts[1..];
    }
  }

  /** unicode.IsSpace. */
  predicate IsSpace(c: char) {
    || '\U{9}' <= c <= '\U{d}' || c == ' ' || c == '\U{85}' || c == '\U{a0}' || c == '\U{1680}'
    || '\U{2000}' <= c <= '\U{200a}' || c == '\U{2028}' || c == '\U{2029}' || c == '\U{202f}'
    || c == '\U{205f}' || c == '\U{3000}'
  }

  /** The class \s of package regexp: ASCII only, and without vertical tab. */
  predicate IsPatternSpace(c: char) {
    c == '\t' || c == '\n' || c == '\U{c}' || c == '\r' || c == ' '
  }

  predicate AllPatternSpace(s: string) {
    forall i :: 0 <= i < |s| ==> IsPatternSpace(s[i])
  }

  predicate IsWhite(s: string) {
    forall i :: 0 <= i < |s| ==> IsSpace(s[i])
  }

  function TrimLeft(s: string): string {
    if |s| > 0 && IsSpace(s[0]) then TrimLeft(s[1..]) else s
  }

  function TrimRight(s: string): string {
    if |s| > 0 && IsSpace(s[|s| - 1]) then TrimRight(s[..|s| - 1]) else s
  }

  /** strings.TrimSpace. */
  function TrimSpace(s: string): string {
    TrimRight(TrimLeft(s))
  }

  lemma {:induction false} TrimEmptyIff(s: string)
    ensures TrimSpace(s) == "" <==> IsWhite(s)
  {
    if |s| > 0 && IsSpace(s[0]) {
      TrimEmptyIff(s[1..]);
      assert TrimSpace(s) == TrimSpace(s[1..]);
      assert IsWhite(s) <==> IsWhite(s[1..]);
    } else if |s| > 0 {
      TrimRightKeepsFirst(s);
    }
  }

  /** White space is taken from both ends, and nothing else. */
  lemma {:induction false} TrimSpaceExact(s: string) returns (x: string, y: string)
    ensures s == x + TrimSpace(s) + y && IsWhite(x) && IsWhite(y)
    ensures var t := TrimSpace(s); t != "" ==> !IsSpace(t[0]) && !IsSpace(t[|t| - 1])
  {
    var left := TrimLeft(s);
    x := TrimLeftExact(s);
    y := TrimRightExact(left);
    if TrimSpace(s) != "" {
      TrimRightKeepsFirst(left);
    }
    assert x + left == x + (TrimSpace(s) + y);
  }

  lemma {:induction false} TrimLeftExact(s: string) returns (x: string)
    ensures s == x + TrimLeft(s) && IsWhite(x)
    ensures TrimLeft(s) != "" ==> !IsSpace(TrimLeft(s)[0])
  {
    x := "";
    if |s| > 0 && IsSpace(s[0]) {
      var rest := TrimLeftExact(s[1..]);
      x := [s[0]] + rest;
    }
  }

  lemma {:induction false} TrimRightExact(s: string) returns (y: string)
    ensures s == TrimRight(s) + y && IsWhite(y)
    ensures TrimRight(s) != "" ==> !IsSpace(TrimRight(s)[|TrimRight(s)| - 1])
  {
    y := "";
    if |s| > 0 && IsSpace(s[|s| - 1]) {
      var rest := TrimRightExact(s[..|s| - 1]);
      y := rest + [s[|s| - 1]];
    }
  }

  /** White space around a trimmed text is taken off again. */
  lemma {:induction false} TrimPadded(x: string, t: string, y: string)
    requires IsWhite(x) && IsWhite(y) && TrimSpace(t) == t
    ensures TrimSpace(x + t + y) == t
  {
    if |x| > 0 {
      TrimPadded(x[1..], t, y);
      assert (x + t + y)[1..] == x[1..] + t + y;
    } else {
      assert x + t + y == t + y;
      if t == "" {
        TrimEmptyIff(y);
        assert t + y == y;
      } else {
        var a, b := TrimSpaceExact(t);
        TrimRightPadded(t, y);
      }
    }
  }

  lemma {:induction false} TrimRightPadded(t: string, y: string)
    requires t != "" && !IsSpace(t[|t| - 1]) && IsWhite(y)
    ensures TrimRight(t + y) == t
  {
    if |y| == 0 {
      assert t + y == t;
    } else {
      TrimRightPadded(t, y[..|y| - 1]);
      assert (t + y)[..|t + y| - 1] == t + y[..|y| - 1];
    }
  }

  lemma SpaceIffListed(c: char)
    ensures IsSpace(c) <==>
            || c in {'\t', '\n', '\U{b}', '\U{c}', '\r', ' ', '\U{85}', '\U{a0}', '\U{1680}'}
            || c in {'\U{2000}', '\U{2001}', '\U{2002}', '\U{2003}', '\U{2004}', '\U{2005}', '\U{2006}'}
            || c in {'\U{2007}', '\U{2008}', '\U{2009}', '\U{200a}', '\U{2028}', '\U{2029}', '\U{202f}'}
            || c in {'\U{205f}', '\U{3000}'}
    ensures IsPatternSpace(c) <==> c in {'\t', '\n', '\U{c}', '\r', ' '}
  {}

  lemma {:induction false} TrimRightKeepsFirst(s: string)
    requires |s| > 0 && !IsSpace(s[0])
    ensures |TrimRight(s)| > 0 && TrimRight(s)[0] == s[0]
  {
    if |s| > 1 && IsSpace(s[|s| - 1]) {
      TrimRightKeepsFirst(s[..|s| - 1]);
    }
  }

  /** strings.TrimRight(s, "\r"). */
  function TrimCarriageReturns(s: string): (t: string)
    ensures t <= s
    ensures |t| > 0 ==> t[|t| - 1] != '\r'
    ensures forall i :: |t| <= i < |s| ==> s[i] == '\r'
  {
    if |s| > 0 && s[|s| - 1] == '\r' then TrimCarriageReturns(s[..|s| - 1]) else s
  }

  /** bufio.ScanLines removes one carriage return before the end of a line. */
  function DropCR(s: string): string {
    if |s| > 0 && s[|s| - 1] == '\r' then s[..|s| - 1] else s
  }

  // ---------- bufio.Scanner ----------

  /** bufio.MaxScanTokenSize. */
  const MAX_TOKEN := 64 * 1024

  /** The length of a string in UTF-8. */
  function ByteLength(s: string): nat {
    if |s| == 0 then 0
    else
      var c := s[|s| - 1];
      ByteLength(s[..|s| - 1]) +
      (if c < '\U{80}' then 1 else if c < '\U{800}' then 2 else if c < '\U{10000}' then 3 else 4)
  }

  /** UTF-8 takes one to four bytes for a character, whatever stands beside it. */
  lemma {:induction false} ByteLengthExact(s: string, c: char)
    ensures ByteLength(s + [c]) ==
            ByteLength(s) +
            (if c as int < 128 then 1 else if c as int < 2048 then 2 else if c as int < 65536 then 3 else 4)
  {
    assert (s + [c])[..|s|] == s;
  }

  /** The scanner stops for good at the first line that does not fit its buffer. */
  function Scanned(raw: seq<string>): (lines: seq<string>)
    ensures |lines| <= |raw|
    ensures forall i :: 0 <= i < |lines| ==> lines[i] == DropCR(raw[i])
  {
    if |raw| == 0 || ByteLength(raw[0]) >= MAX_TOKEN then []
    else [DropCR(raw[0])] + Scanned(raw[1..])
  }

  /** The raw lines of a text; an empty piece after the last newline is no line. */
  function RawLines(text: string): seq<string> {
    var raw := Split(text, '\n');
    if raw[|raw| - 1] == "" then raw[..|raw| - 1] else raw
  }

  function ScannerLines(text: string): (lines: seq<string>)
    ensures |lines| <= |RawLines(text)|
    ensures forall i :: 0 <= i < |lines| ==> lines[i] == DropCR(RawLines(text)[i])
  {
    Scanned(RawLines(text))
  }

  // ---------- Fixed patterns ----------

  predicate HasAt(s: string, i: int, pattern: string) {
    0 <= i && i + |pattern| <= |s| && s[i..i + |pattern|] == pattern
  }

  predicate Contains(s: string, pattern: string) {
    exists i :: 0 <= i <= |s| && HasAt(s, i, pattern)
  }

  /** The case folding of package regexp, restricted to what folds to an ASCII lower-case letter. */
  function Fold(c: char): char {
    if 'A' <= c <= 'Z' then c - 'A' + 'a'
    else if c == '\U{17f}' then 's'
    else if c == '\U{212a}' then 'k'
    else c
  }

  /** A match of a lower-case pattern under the flag (?i). */
  predicate FoldsAt(s: string, i: int, pattern: string) {
    0 <= i && i + |pattern| <= |s| && forall j :: 0 <= j < |pattern| ==> Fold(s[i + j]) == pattern[j]
  }

  /** strings.ToLower as far as it produces ASCII letters other than i and k. */
  function Lower(c: char): char {
    if 'A' <= c <= 'Z' then c - 'A' + 'a' else c
  }

  function ToLower(s: string): (t: string)
    ensures |t| == |s|
    ensures forall i :: 0 <= i < |s| ==> t[i] == Lower(s[i])
  {
    seq(|s|, i requires 0 <= i < |s| => Lower(s[i]))
  }
}
