/** What the scan of a container's log records, read off the characters of the log. */
module LogText {
  import opened Text
  import opened PciAddress
  import opened RasLog
  import opened RasWatcher

  // ---------- From the text to its lines ----------

  /** The line is written as it is or with a carriage return at its end, in less than 64 KiB. */
  predicate WrittenAs(raw: string, line: string) {
    && Without(line, '\n')
    && (|line| > 0 ==> line[|line| - 1] != '\r')
    && (raw == line || raw == line + "\r")
    && ByteLength(raw) < 65536
  }

  predicate AllWritten(raw: seq<string>, lines: seq<string>) {
    |raw| == |lines| && forall i :: 0 <= i < |raw| ==> WrittenAs(raw[i], lines[i])
  }

  lemma {:induction false} ScansWritten(raw: seq<string>, lines: seq<string>, rest: seq<string>)
    requires AllWritten(raw, lines)
    requires rest == [] || ByteLength(rest[0]) >= 65536
    ensures Scanned(raw + rest) == lines
  {
    if |raw| == 0 {
      assert raw + rest == rest;
    } else {
      ScansWritten(raw[1..], lines[1..], rest);
      assert (raw + rest)[1..] == raw[1..] + rest;
      DropsCR(raw[0], lines[0]);
      assert lines == [lines[0]] + lines[1..];
    }
  }

  lemma DropsCR(raw: string, line: string)
    requires WrittenAs(raw, line)
    ensures DropCR(raw) == line
  {
    assert (line + "\r")[..|line|] == line;
  }

  lemma WrittenWithout(raw: seq<string>, lines: seq<string>)
    requires AllWritten(raw, lines)
    ensures AllWithout(raw, '\n')
  {
    forall i | 0 <= i < |raw|
      ensures Without(raw[i], '\n')
    {
      OneWithout(raw[i], lines[i]);
    }
  }

  lemma OneWithout(raw: string, line: string)
    requires WrittenAs(raw, line)
    ensures Without(raw, '\n')
  {}

  /** The text consists of the given lines; the last one may lack its newline. */
  predicate IsText(raw: seq<string>, text: string) {
    || text == Join(raw + [""], '\n')
    || (|raw| > 0 && raw[|raw| - 1] != "" && text == Join(raw, '\n'))
  }

  lemma LinesOfText(raw: seq<string>, text: string)
    requires AllWithout(raw, '\n') && IsText(raw, text)
    ensures RawLines(text) == raw
  {
    if text == Join(raw + [""], '\n') {
      SplitJoin(raw + [""], '\n');
      assert (raw + [""])[..|raw|] == raw;
    } else {
      SplitJoin(raw, '\n');
    }
  }

  /** The scanner gives back the lines of a text, whether they end in a newline or in "\r\n". */
  lemma ScannerReadsLines(raw: seq<string>, lines: seq<string>, text: string)
    requires AllWritten(raw, lines) && IsText(raw, text)
    ensures ScannerLines(text) == lines
  {
    WrittenWithout(raw, lines);
    LinesOfText(raw, text);
    ScansWritten(raw, lines, []);
    assert raw + [] == raw;
  }

  /** At the first line of 64 KiB or more the scanner stops, whatever follows. */
  lemma ScannerStopsAtLongLine(raw: seq<string>, lines: seq<string>, long: string, rest: seq<string>, text: string)
    requires AllWritten(raw, lines) && ByteLength(long) >= 65536
    requires Without(long, '\n') && AllWithout(rest, '\n') && IsText(raw + ([long] + rest), text)
    ensures ScannerLines(text) == lines
  {
    WrittenWithout(raw, lines);
    LinesOfText(raw + ([long] + rest), text);
    ScansWritten(raw, lines, [long] + rest);
  }

  // ---------- From a line to what it says ----------

  ghost predicate Holds(line: string, part: string) {
    exists x, y :: line == x + part + y
  }

  lemma ContainsIff(line: string, part: string)
    ensures Contains(line, part) <==> Holds(line, part)
  {
    if i :| 0 <= i <= |line| && HasAt(line, i, part) {
      assert line == line[..i] + part + line[i + |part|..];
    }
    if x, y :| line == x + part + y {
      assert line[|x|..|x| + |part|] == part;
      assert HasAt(line, |x|, part);
    }
  }

  /** A RAS error: both markers stand somewhere in the line. */
  ghost predicate IsRasError(line: string) {
    Holds(line, "\"name\":\"RAS::") && Holds(line, "\"severity\":\"ERROR\"")
  }

  lemma RasErrorIff(line: string)
    ensures ContainsRasError(line) <==> IsRasError(line)
  {
    ContainsIff(line, "\"name\":\"RAS::");
    ContainsIff(line, "\"severity\":\"ERROR\"");
  }

  /** After x the line has the marker and the lower-case address a. */
  ghost predicate MarksDevice(line: string, x: string, a: string) {
    (ShortChars(a, false) || FullChars(a, false)) && exists y :: MarksAt(line, x, a, y)
  }

  predicate MarksAt(line: string, x: string, a: string, y: string) {
    line == x + "SEN:VFIO:TYPE1:" + a + y
  }

  /** The line carries p: p is the first marked address in it, with domain 0000 if it has none. */
  ghost predicate NamesDevice(line: string, p: string) {
    exists x, a ::
      && MarksDevice(line, x, a)
      && (forall x', a' :: MarksDevice(line, x', a') ==> |x| <= |x'|)
      && p == if |a| == 7 then "0000:" + a else a
  }

  lemma SenAtMarked(line: string, x: string, a: string)
    requires MarksDevice(line, x, a)
    ensures |x| <= |line| && SenAt(line, |x|) == a
  {
    PciIffChars(a, false);
    var y :| MarksAt(line, x, a, y);
    var m := |x| + |SEN|;
    assert line[|x|..m] == SEN && line[m..m + |a|] == a;
    MatchPciComplete(line, m, a, false);
  }

  lemma MarkedAtSen(line: string, k: nat)
    requires k <= |line| && SenAt(line, k) != ""
    ensures MarksDevice(line, line[..k], SenAt(line, k)) && |line[..k]| == k
  {
    var a := SenAt(line, k);
    PciIffChars(a, false);
    var m := k + |SEN|;
    assert line[k..m] == "SEN:VFIO:TYPE1:" && line[m..m + |a|] == a;
    assert MarksAt(line, line[..k], a, line[m + |a|..]);
  }

  /** The position of the leftmost match from i on, or the end of the line. */
  function FirstMatch(line: string, i: nat): (k: nat)
    requires i <= |line|
    ensures i <= k <= |line|
    decreases |line| - i
  {
    if SenAt(line, i) != "" || i == |line| then i else FirstMatch(line, i + 1)
  }

  lemma {:induction false} FirstMatchHits(line: string, i: nat)
    requires i <= |line| && SenFrom(line, i) != ""
    ensures var k := FirstMatch(line, i); SenAt(line, k) != "" && SenFrom(line, i) == Normalise(SenAt(line, k))
    decreases |line| - i
  {
    if SenAt(line, i) == "" {
      FirstMatchHits(line, i + 1);
    }
  }

  lemma {:induction false} BeforeFirstMatch(line: string, i: nat, j: nat)
    requires i <= |line| && i <= j < FirstMatch(line, i)
    ensures SenAt(line, j) == ""
    decreases j - i
  {
    if i < j {
      BeforeFirstMatch(line, i + 1, j);
    }
  }

  lemma NamesWhatIsExtracted(line: string)
    requires ExtractSen(line) != ""
    ensures NamesDevice(line, ExtractSen(line))
  {
    var k := FirstMatch(line, 0);
    FirstMatchHits(line, 0);
    MarkedAtSen(line, k);
    forall x, b | MarksDevice(line, x, b)
      ensures k <= |x|
    {
      NotBeforeFirst(line, x, b);
    }
  }

  lemma NotBeforeFirst(line: string, x: string, b: string)
    requires MarksDevice(line, x, b)
    ensures FirstMatch(line, 0) <= |x|
  {
    SenAtMarked(line, x, b);
    PciIffChars(b, false);
    if |x| < FirstMatch(line, 0) {
      BeforeFirstMatch(line, 0, |x|);
    }
  }

  lemma ExtractsWhatIsNamed(line: string, p: string)
    requires NamesDevice(line, p)
    ensures ExtractSen(line) == p && p != ""
  {
    var x, a :|
      && MarksDevice(line, x, a)
      && (forall x', a' :: MarksDevice(line, x', a') ==> |x| <= |x'|)
      && p == if |a| == 7 then "0000:" + a else a;
    SenAtMarked(line, x, a);
    PciIffChars(a, false);
    forall j: nat | j < |x|
      ensures SenAt(line, j) == ""
    {
      if SenAt(line, j) != "" {
        MarkedAtSen(line, j);
      }
    }
    ExtractsLeftmost(line, 0, |x|);
  }

  /** What the scanner takes from a line, character by character. */
  lemma ExtractIff(line: string, p: string)
    ensures ExtractSen(line) == p && p != "" <==> NamesDevice(line, p)
    ensures ExtractSen(line) == "" <==> forall q :: !NamesDevice(line, q)
  {
    if ExtractSen(line) != "" {
      NamesWhatIsExtracted(line);
    }
    forall q | NamesDevice(line, q)
      ensures ExtractSen(line) == q && q != ""
    {
      ExtractsWhatIsNamed(line, q);
    }
  }

  // ---------- From the text to the addresses ----------

  /** Line i is a RAS error, and line j is the last one up to it that carries an address; it carries p. */
  ghost predicate BlamesDevice(lines: seq<string>, j: int, i: int, p: string) {
    && 0 <= j <= i < |lines|
    && IsRasError(lines[i]) && NamesDevice(lines[j], p)
    && forall k, q :: j < k <= i ==> !NamesDevice(lines[k], q)
  }

  ghost predicate Blamed(lines: seq<string>, i: int, p: string) {
    exists j :: BlamesDevice(lines, j, i, p)
  }

  lemma BlamesDeviceIff(lines: seq<string>, i: int, p: string)
    ensures BlamesLine(lines, i, p) <==> Blamed(lines, i, p)
  {
    if 0 <= i < |lines| {
      RasErrorIff(lines[i]);
      forall j
        ensures ContainsRasError(lines[i]) && p != "" && Carries(lines, j, i, p) <==> BlamesDevice(lines, j, i, p)
      {
        if 0 <= j <= i {
          ExtractIff(lines[j], p);
          forall k | j < k <= i
            ensures ExtractSen(lines[k]) == "" <==> forall q :: !NamesDevice(lines[k], q)
          {
            ExtractIff(lines[k], p);
          }
        }
      }
    }
  }

  /**
   A log that is fetched contributes exactly the addresses p for which some line is a RAS error and the last
   line up to it that carries an address carries p. Its lines may end in "\n" or in "\r\n" and are each
   shorter than 64 KiB; with a longer line, the same holds of the lines before it.
   */
  lemma LogGives(raw: seq<string>, lines: seq<string>, text: string, p: string)
    requires AllWritten(raw, lines) && IsText(raw, text)
    ensures p in ReplyAddrs(LogReply.LogText(text)) <==> exists i :: Blamed(lines, i, p)
  {
    ScannerReadsLines(raw, lines, text);
    LinesGive(lines, p);
  }

  lemma CutLogGives(raw: seq<string>, lines: seq<string>, long: string, rest: seq<string>, text: string, p: string)
    requires AllWritten(raw, lines) && ByteLength(long) >= 65536
    requires Without(long, '\n') && AllWithout(rest, '\n') && IsText(raw + ([long] + rest), text)
    ensures p in ReplyAddrs(LogReply.LogText(text)) <==> exists i :: Blamed(lines, i, p)
  {
    ScannerStopsAtLongLine(raw, lines, long, rest, text);
    LinesGive(lines, p);
  }

  lemma LinesGive(lines: seq<string>, p: string)
    ensures p in Recorded(Marks(lines)) <==> exists i :: Blamed(lines, i, p)
  {
    TextExact(lines, p);
    forall i
      ensures BlamesLine(lines, i, p) <==> Blamed(lines, i, p)
    {
      BlamesDeviceIff(lines, i, p);
    }
  }
}
