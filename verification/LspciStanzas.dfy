/** Splitting lspci output into stanzas at blank lines. */
module LspciStanzas {
  import opened Text

  predicate Blank(c: char) {
    c == ' ' || c == '\t'
  }

  predicate AllBlank(s: string) {
    forall i :: 0 <= i < |s| ==> Blank(s[i])
  }

  /** The length of a line end "\n" or "\r\n" at the start of s, or 0. */
  function LineEnd(s: string): nat {
    if |s| > 0 && s[0] == '\n' then 1
    else if |s| > 1 && s[0] == '\r' && s[1] == '\n' then 2
    else 0
  }

  function SkipBlanks(s: string): string {
    if |s| > 0 && Blank(s[0]) then SkipBlanks(s[1..]) else s
  }

  /**
   The text after the separator at the start of s: two or more line ends with nothing but blanks
   between consecutive ones, as many of them as possible.
   */
  datatype Match = NoMatch | Rest(text: string)

  function Separator(s: string): Match
    decreases |s|
  {
    if LineEnd(s) == 0 then NoMatch
    else
      SkipBlanksShortens(s[LineEnd(s)..]);
      var t := SkipBlanks(s[LineEnd(s)..]);
      if LineEnd(t) == 0 then NoMatch
      else if Separator(t).Rest? then Separator(t)
      else Rest(t[LineEnd(t)..])
  }

  lemma {:induction false} SkipBlanksShortens(s: string)
    ensures |SkipBlanks(s)| <= |s|
  {
    if |s| > 0 && Blank(s[0]) {
      SkipBlanksShortens(s[1..]);
    }
  }

  lemma {:induction false} SeparatorShortens(s: string)
    requires Separator(s).Rest?
    ensures |Separator(s).text| < |s|
    decreases |s|
  {
    SkipBlanksShortens(s[LineEnd(s)..]);
    var t := SkipBlanks(s[LineEnd(s)..]);
    if Separator(t).Rest? {
      SeparatorShortens(t);
    }
  }

  /** The pieces of s between separators: each character either ends a piece or belongs to one. */
  function Parts(s: string): (parts: seq<string>)
    ensures |parts| > 0
    decreases |s|
  {
    if |s| == 0 then [""]
    else if Separator(s).Rest? then
      SeparatorShortens(s);
      [""] + Parts(Separator(s).text)
    else
      Attach([s[0]], Parts(s[1..]))
  }

  function Attach(front: string, parts: seq<string>): (r: seq<string>)
    requires |parts| > 0
    ensures |r| == |parts|
  {
    [front + parts[0]] + parts[1..]
  }

  function NonWhite(parts: seq<string>): seq<string> {
    if |parts| == 0 then []
    else NonWhite(parts[..|parts| - 1]) +
         (if TrimSpace(parts[|parts| - 1]) != "" then [parts[|parts| - 1]] else [])
  }

  method SplitByBlankLines(s: string) returns (stanzas: seq<string>)
    ensures stanzas == NonWhite(Parts(s))
  {
    var parts := Parts(s);
    stanzas := [];
    for i := 0 to |parts|
      invariant stanzas == NonWhite(parts[..i])
    {
      assert parts[..i + 1][..i] == parts[..i];
      if |TrimSpace(parts[i])| > 0 {
        stanzas := stanzas + [parts[i]];
      }
    }
    assert parts[..|parts|] == parts;
  }

  // ---------- The same split, seen as lines ----------

  /** A line that separates stanzas when a line comes before it and it is not the unfinished last one. */
  predicate BlankLine(line: string) {
    AllBlank(DropCR(line))
  }

  /** Spaces and tabs, and perhaps a carriage return after them. */
  lemma BlankLineIff(line: string)
    ensures BlankLine(line) <==>
            exists b :: (line == b || line == b + "\r") && forall i :: 0 <= i < |b| ==> b[i] in {' ', '\t'}
  {
    if BlankLine(line) {
      var b := DropCR(line);
      assert line == b || line == b + "\r";
      assert forall i :: 0 <= i < |b| ==> Blank(b[i]);
    }
    forall b | (line == b || line == b + "\r") && forall i :: 0 <= i < |b| ==> b[i] in {' ', '\t'}
      ensures BlankLine(line)
    {
      if line == b + "\r" {
        assert line[..|b|] == b;
      }
    }
  }

  /** Leading blank lines are dropped, except for the last line of a text. */
  function DropBlankLines(lines: seq<string>): (rest: seq<string>)
    requires |lines| > 0
    ensures 0 < |rest| <= |lines|
    ensures |rest| == 1 || !BlankLine(rest[0])
  {
    if |lines| > 1 && BlankLine(lines[0]) then DropBlankLines(lines[1..]) else lines
  }

  lemma {:induction false} DropKeepsWithout(lines: seq<string>, c: char)
    requires |lines| > 0 && AllWithout(lines, c)
    ensures AllWithout(DropBlankLines(lines), c)
  {
    if |lines| > 1 && BlankLine(lines[0]) {
      DropKeepsWithout(lines[1..], c);
    }
  }

  /** The stanzas of a text given by its lines. The line before a blank line loses one carriage return. */
  function Groups(lines: seq<string>): (groups: seq<seq<string>>)
    requires |lines| > 0
    ensures |groups| > 0 && forall g :: 0 <= g < |groups| ==> |groups[g]| > 0
    decreases |lines|
  {
    if |lines| == 1 then [lines]
    else if |lines| > 2 && BlankLine(lines[1]) then
      [[DropCR(lines[0])]] + Groups(DropBlankLines(lines[2..]))
    else
      var rest := Groups(lines[1..]);
      [[lines[0]] + rest[0]] + rest[1..]
  }

  function JoinAll(groups: seq<seq<string>>): (parts: seq<string>)
    requires forall g :: 0 <= g < |groups| ==> |groups[g]| > 0
    ensures |parts| == |groups|
  {
    if |groups| == 0 then [] else [Join(groups[0], '\n')] + JoinAll(groups[1..])
  }

  lemma {:induction false} SkipBlanksExact(blanks: string, rest: string)
    requires AllBlank(blanks)
    requires |rest| > 0 ==> !Blank(rest[0])
    ensures SkipBlanks(blanks + rest) == rest
  {
    if |blanks| == 0 {
      assert blanks + rest == rest;
    } else {
      SkipBlanksExact(blanks[1..], rest);
      assert (blanks + rest)[1..] == blanks[1..] + rest;
    }
  }

  /** After the blanks at its start, a line that is not blank does not begin with a line end. */
  lemma {:induction false} NoLineEndInside(line: string, after: string)
    requires Without(line, '\n')
    requires !BlankLine(line) || after == ""
    requires after == "" || after[0] == '\n'
    ensures LineEnd(SkipBlanks(line + after)) == 0
  {
    if |line| > 0 && Blank(line[0]) {
      assert (line + after)[1..] == line[1..] + after;
      assert |DropCR(line)| > 0 && DropCR(line)[0] == line[0] && DropCR(line)[1..] == DropCR(line[1..]);
      NoLineEndInside(line[1..], after);
    } else if |line| == 1 && line[0] == '\r' {
      assert DropCR(line) == "";
    } else if |line| == 0 {
      assert DropCR(line) == "";
    }
  }

  /** A separator starts at a line end exactly when the next line is blank and finished. */
  lemma {:induction false} SeparatorAtLineEnd(cr: string, lines: seq<string>)
    requires cr == "" || cr == "\r"
    requires |lines| > 0 && AllWithout(lines, '\n')
    ensures var m := Separator(cr + "\n" + Join(lines, '\n'));
      if |lines| > 1 && BlankLine(lines[0]) then m == Rest(Join(DropBlankLines(lines[1..]), '\n')) else m == NoMatch
    decreases |lines|
  {
    var s := cr + "\n" + Join(lines, '\n');
    var after := if |lines| == 1 then "" else "\n" + Join(lines[1..], '\n');
    assert s[LineEnd(s)..] == lines[0] + after;
    if |lines| > 1 && BlankLine(lines[0]) {
      var blanks := DropCR(lines[0]);
      var end := lines[0][|blanks|..];
      var t := end + "\n" + Join(lines[1..], '\n');
      assert lines[0] + after == blanks + t;
      SkipBlanksExact(blanks, t);
      SeparatorAtLineEnd(end, lines[1..]);
      assert t[LineEnd(t)..] == Join(lines[1..], '\n');
      if |lines| == 2 || !BlankLine(lines[1]) {
        assert DropBlankLines(lines[1..]) == lines[1..];
      } else {
        assert DropBlankLines(lines[1..]) == DropBlankLines(lines[1..][1..]);
      }
    } else {
      NoLineEndInside(lines[0], after);
    }
  }

  /** Characters before the end of a line start no separator. */
  lemma {:induction false} PartsOfLine(front: string, rest: string)
    requires Without(front, '\n')
    requires |rest| > 0 ==> rest[0] == '\n' || rest[0] == '\r'
    requires |front| > 0 && front[|front| - 1] == '\r' ==> |rest| == 0 || rest[0] != '\n'
    ensures Parts(front + rest) == Attach(front, Parts(rest))
  {
    if |front| == 0 {
      assert front + rest == rest;
      assert "" + Parts(rest)[0] == Parts(rest)[0];
    } else {
      PartsOfLine(front[1..], rest);
      var s := front + rest;
      assert s[1..] == front[1..] + rest;
      assert LineEnd(s) == 0;
      assert [s[0]] + (front[1..] + Parts(rest)[0]) == front + Parts(rest)[0];
    }
  }

  /** The carriage return that `DropCR` removes. */
  function EndCR(line: string): string {
    if |line| > 0 && line[|line| - 1] == '\r' then "\r" else ""
  }

  lemma LineIsBodyAndCR(line: string)
    ensures line == DropCR(line) + EndCR(line)
  {}

  lemma JoinFirst(lines: seq<string>)
    requires |lines| > 1
    ensures Join(lines, '\n') == DropCR(lines[0]) + (EndCR(lines[0]) + "\n" + Join(lines[1..], '\n'))
    ensures Join(lines, '\n') == lines[0] + "\n" + Join(lines[1..], '\n')
  {
    LineIsBodyAndCR(lines[0]);
    Regroup(lines[0], DropCR(lines[0]), EndCR(lines[0]), Join(lines[1..], '\n'));
  }

  lemma Regroup(line: string, body: string, cr: string, text: string)
    requires line == body + cr
    ensures line + "\n" + text == body + (cr + "\n" + text)
    ensures line + "\n" == body + (cr + "\n")
  {}

  /** A piece ends where a separator starts. */
  lemma PartsCut(line: string, text: string, more: seq<string>)
    requires Without(line, '\n')
    requires Parts(EndCR(line) + "\n" + text) == [""] + more
    ensures Parts(DropCR(line) + (EndCR(line) + "\n" + text)) == [DropCR(line)] + more
  {
    var body := DropCR(line);
    PartsOfLine(body, EndCR(line) + "\n" + text);
    assert body + "" == body;
    assert ([""] + more)[1..] == more;
  }

  lemma PartsAtSeparator(cr: string, lines: seq<string>)
    requires cr == "" || cr == "\r"
    requires |lines| > 1 && AllWithout(lines, '\n') && BlankLine(lines[0])
    ensures Parts(cr + "\n" + Join(lines, '\n')) == [""] + JoinAll(Groups(DropBlankLines(lines[1..])))
    decreases |lines|
  {
    SeparatorAtLineEnd(cr, lines);
    DropKeepsWithout(lines[1..], '\n');
    PartsAreGroups(DropBlankLines(lines[1..]));
  }

  lemma GroupsCut(lines: seq<string>)
    requires |lines| > 2 && BlankLine(lines[1])
    ensures JoinAll(Groups(lines)) == [DropCR(lines[0])] + JoinAll(Groups(DropBlankLines(lines[1..][1..])))
  {
    assert lines[1..][1..] == lines[2..];
    JoinAllCons([DropCR(lines[0])], Groups(DropBlankLines(lines[2..])));
  }

  lemma JoinAllCons(group: seq<string>, groups: seq<seq<string>>)
    requires |group| > 0 && forall g :: 0 <= g < |groups| ==> |groups[g]| > 0
    ensures JoinAll([group] + groups) == [Join(group, '\n')] + JoinAll(groups)
  {
    assert ([group] + groups)[1..] == groups;
  }

  lemma PartsBeforeSeparator(lines: seq<string>)
    requires |lines| > 2 && AllWithout(lines, '\n') && BlankLine(lines[1])
    ensures Parts(Join(lines, '\n')) == JoinAll(Groups(lines))
    decreases |lines|, 0
  {
    PartsAtSeparator(EndCR(lines[0]), lines[1..]);
    PartsCut(lines[0], Join(lines[1..], '\n'), JoinAll(Groups(DropBlankLines(lines[1..][1..]))));
    JoinFirst(lines);
    GroupsCut(lines);
  }

  lemma GroupsExtend(lines: seq<string>)
    requires |lines| > 1 && !(|lines| > 2 && BlankLine(lines[1]))
    ensures JoinAll(Groups(lines)) == Attach(lines[0] + "\n", JoinAll(Groups(lines[1..])))
  {
    var rest := Groups(lines[1..]);
    assert rest == [rest[0]] + rest[1..];
    JoinExtended(lines[0], rest[0], rest[1..]);
  }

  lemma JoinExtended(line: string, group: seq<string>, groups: seq<seq<string>>)
    requires |group| > 0 && forall g :: 0 <= g < |groups| ==> |groups[g]| > 0
    ensures JoinAll([[line] + group] + groups) == Attach(line + "\n", JoinAll([group] + groups))
  {
    assert ([line] + group)[1..] == group;
    JoinAllCons([line] + group, groups);
    JoinAllCons(group, groups);
  }

  lemma PartsInsideGroup(lines: seq<string>)
    requires |lines| > 1 && AllWithout(lines, '\n') && !(|lines| > 2 && BlankLine(lines[1]))
    ensures Parts(Join(lines, '\n')) == JoinAll(Groups(lines))
    decreases |lines|, 0
  {
    PartsAreGroups(lines[1..]);
    SeparatorAtLineEnd("", lines[1..]);
    SeparatorAtLineEnd(EndCR(lines[0]), lines[1..]);
    JoinFirst(lines);
    assert "" + "\n" == "\n";
    PartsWithoutSeparator(lines[0], Join(lines[1..], '\n'));
    GroupsExtend(lines);
  }

  /** Splitting a text at its separators is grouping its lines. */
  lemma {:induction false} PartsAreGroups(lines: seq<string>)
    requires |lines| > 0 && AllWithout(lines, '\n')
    ensures Parts(Join(lines, '\n')) == JoinAll(Groups(lines))
    decreases |lines|
  {
    if |lines| == 1 {
      PartsOfLine(lines[0], "");
      assert lines[0] + "" == lines[0];
      assert JoinAll([lines]) == [Join(lines, '\n')];
    } else if |lines| > 2 && BlankLine(lines[1]) {
      PartsBeforeSeparator(lines);
    } else {
      PartsInsideGroup(lines);
    }
  }

  lemma AttachTwice(a: string, b: string, parts: seq<string>)
    requires |parts| > 0
    ensures Attach(a, Attach(b, parts)) == Attach(a + b, parts)
  {
    assert a + (b + parts[0]) == a + b + parts[0];
  }

  lemma PartsAtLineEnd(cr: string, text: string)
    requires cr == "" || cr == "\r"
    requires Separator(cr + "\n" + text) == NoMatch && Separator("\n" + text) == NoMatch
    ensures Parts(cr + "\n" + text) == Attach(cr + "\n", Parts(text))
  {
    var t := "\n" + text;
    assert t[1..] == text && Parts(t) == Attach("\n", Parts(text));
    if cr == "\r" {
      var s := cr + "\n" + text;
      assert s[1..] == t && Parts(s) == Attach("\r", Parts(t));
      AttachTwice("\r", "\n", Parts(text));
    } else {
      assert cr + "\n" + text == t;
      assert cr + "\n" == "\n";
    }
  }

  lemma PartsWithoutSeparator(line: string, text: string)
    requires Without(line, '\n')
    requires Separator(EndCR(line) + "\n" + text) == NoMatch
    requires Separator("\n" + text) == NoMatch
    ensures Parts(line + "\n" + text) == Attach(line + "\n", Parts(text))
  {
    var body, cr := DropCR(line), EndCR(line);
    PartsAtLineEnd(cr, text);
    PartsOfLine(body, cr + "\n" + text);
    AttachTwice(body, cr + "\n", Parts(text));
    LineIsBodyAndCR(line);
    Regroup(line, body, cr, text);
  }
}
