/** The two-marker scanner for RAS errors in the log of a workload container. */
module RasLog {
  import opened Text
  import opened PciAddress

  const SEN := "SEN:VFIO:TYPE1:"
  const RAS_NAME := "\"name\":\"RAS::"
  const RAS_SEVERITY := "\"severity\":\"ERROR\""

  predicate ContainsRasError(line: string) {
    Contains(line, RAS_NAME) && Contains(line, RAS_SEVERITY)
  }

  /** The address matched at position i as written in the line, or "" when the pattern does not match there. */
  function SenAt(line: string, i: nat): string
    requires i <= |line|
  {
    if HasAt(line, i, SEN) then
      var n := MatchPci(line, i + |SEN|, false);
      line[i + |SEN|..i + |SEN| + n]
    else ""
  }

  function SenFrom(line: string, i: nat): string
    requires i <= |line|
    decreases |line| - i
  {
    if SenAt(line, i) != "" then Normalise(SenAt(line, i))
    else if i == |line| then ""
    else SenFrom(line, i + 1)
  }

  /** The normalised address of the leftmost match in the line, or "". */
  function ExtractSen(line: string): string {
    SenFrom(line, 0)
  }

  lemma {:induction false} ExtractsLeftmost(line: string, i: nat, k: nat)
    requires i <= k <= |line|
    requires SenAt(line, k) != "" && forall j: nat :: i <= j < k ==> SenAt(line, j) == ""
    ensures SenFrom(line, i) == Normalise(SenAt(line, k))
    decreases k - i
  {
    if i < k {
      ExtractsLeftmost(line, i + 1, k);
    }
  }

  lemma {:induction false} NothingAt(line: string, i: nat, j: nat)
    requires i <= j <= |line| && SenFrom(line, i) == ""
    ensures SenAt(line, j) == ""
    decreases j - i
  {
    if i < j {
      NothingAt(line, i + 1, j);
    }
  }

  lemma {:induction false} SomethingAt(line: string, i: nat) returns (k: nat)
    requires i <= |line| && SenFrom(line, i) != ""
    ensures i <= k <= |line| && SenAt(line, k) != ""
    decreases |line| - i
  {
    k := i;
    if SenAt(line, i) == "" {
      k := SomethingAt(line, i + 1);
    }
  }

  lemma ExtractsNothing(line: string, i: nat)
    requires i <= |line|
    ensures SenFrom(line, i) == "" <==> forall j: nat :: i <= j <= |line| ==> SenAt(line, j) == ""
  {
    if SenFrom(line, i) == "" {
      forall j: nat | i <= j <= |line|
        ensures SenAt(line, j) == ""
      {
        NothingAt(line, i, j);
      }
    } else {
      var k := SomethingAt(line, i);
    }
  }

  // ---------- The scanner and its carried address ----------

  /** What the scanner takes from a line: the address it carries, or "", and whether it is a RAS error. */
  datatype Mark = Mark(pci: string, error: bool)

  function MarkOf(line: string): Mark {
    Mark(ExtractSen(line), ContainsRasError(line))
  }

  function Marks(lines: seq<string>): (marks: seq<Mark>)
    ensures |marks| == |lines|
    ensures forall i :: 0 <= i < |lines| ==> marks[i] == MarkOf(lines[i])
  {
    seq(|lines|, i requires 0 <= i < |lines| => MarkOf(lines[i]))
  }

  /** The address in force after some marks, when `carry` was in force before them. */
  function LastPci(carry: string, marks: seq<Mark>): string {
    if |marks| == 0 then carry
    else
      var n := |marks| - 1;
      if marks[n].pci != "" then marks[n].pci else LastPci(carry, marks[..n])
  }

  /** The addresses recorded while scanning some marks, line by line. */
  function RecordedFrom(carry: string, marks: seq<Mark>): set<string> {
    if |marks| == 0 then {}
    else
      var n := |marks| - 1;
      RecordedFrom(carry, marks[..n]) +
      (if marks[n].error && LastPci(carry, marks) != "" then {LastPci(carry, marks)} else {})
  }

  function Recorded(marks: seq<Mark>): set<string> {
    RecordedFrom("", marks)
  }

  lemma RecordedAppend(carry: string, marks: seq<Mark>, mark: Mark)
    ensures LastPci(carry, marks + [mark]) ==
            if mark.pci != "" then mark.pci else LastPci(carry, marks)
    ensures RecordedFrom(carry, marks + [mark]) == RecordedFrom(carry, marks) +
            (if mark.error && LastPci(carry, marks + [mark]) != ""
             then {LastPci(carry, marks + [mark])} else {})
  {
    assert (marks + [mark])[..|marks|] == marks;
  }

  lemma RecordedStep(marks: seq<Mark>, i: nat)
    requires i < |marks|
    ensures LastPci("", marks[..i + 1]) == if marks[i].pci != "" then marks[i].pci else LastPci("", marks[..i])
    ensures var pci := LastPci("", marks[..i + 1]);
      Recorded(marks[..i + 1]) == Recorded(marks[..i]) + (if marks[i].error && pci != "" then {pci} else {})
  {
    RecordedAppend("", marks[..i], marks[i]);
    assert marks[..i] + [marks[i]] == marks[..i + 1];
  }

  /** Line j carries an address and no line after it up to line i does. */
  ghost predicate Governs(marks: seq<Mark>, j: int, i: int) {
    && 0 <= j <= i < |marks|
    && marks[j].pci != ""
    && forall k :: j < k <= i ==> marks[k].pci == ""
  }

  /** Line i is a RAS error and its nearest address line at or before it carries p. */
  ghost predicate Blames(marks: seq<Mark>, i: int, p: string) {
    && 0 <= i < |marks|
    && marks[i].error
    && exists j :: Governs(marks, j, i) && marks[j].pci == p
  }

  lemma {:induction false} LastPciExact(marks: seq<Mark>, p: string)
    requires |marks| > 0
    ensures LastPci("", marks) == p && p != "" <==>
            exists j :: Governs(marks, j, |marks| - 1) && marks[j].pci == p
  {
    var n := |marks| - 1;
    if marks[n].pci != "" {
      assert Governs(marks, n, n);
    } else if n > 0 {
      LastPciExact(marks[..n], p);
      forall j | 0 <= j < n
        ensures Governs(marks[..n], j, n - 1) <==> Governs(marks, j, n)
      {
        assert forall k :: 0 <= k < n ==> marks[..n][k] == marks[k];
      }
    }
  }

  /** The scan records exactly the addresses blamed by some line. */
  lemma {:induction false} ScanExact(marks: seq<Mark>, p: string)
    ensures p in Recorded(marks) <==> exists i :: Blames(marks, i, p)
  {
    if |marks| > 0 {
      var n := |marks| - 1;
      ScanExact(marks[..n], p);
      BlamesAtEnd(marks, p);
      BlamedMore(marks, p);
    }
  }

  lemma BlamesAtEnd(marks: seq<Mark>, p: string)
    requires |marks| > 0
    ensures Blames(marks, |marks| - 1, p) <==> marks[|marks| - 1].error && LastPci("", marks) == p && p != ""
  {
    LastPciExact(marks, p);
  }

  lemma BlamedMore(marks: seq<Mark>, p: string)
    requires |marks| > 0
    ensures var n := |marks| - 1;
      (exists i :: Blames(marks, i, p)) <==> (exists i :: Blames(marks[..n], i, p)) || Blames(marks, n, p)
  {
    var n := |marks| - 1;
    forall i | 0 <= i < n
      ensures Blames(marks[..n], i, p) <==> Blames(marks, i, p)
    {
      BlamesPrefix(marks, n, i, p);
    }
  }

  lemma BlamesPrefix(marks: seq<Mark>, n: int, i: int, p: string)
    requires 0 <= i < n <= |marks|
    ensures Blames(marks[..n], i, p) <==> Blames(marks, i, p)
  {
    forall j
      ensures Governs(marks[..n], j, i) <==> Governs(marks, j, i)
    {
      if 0 <= j <= i {
        assert forall k :: 0 <= k < n ==> marks[..n][k] == marks[k];
      }
    }
    if Blames(marks, i, p) {
      var j :| Governs(marks, j, i) && marks[j].pci == p;
      assert Governs(marks[..n], j, i);
    }
  }

  /** Scanning a concatenation is scanning the parts with the last address carried over. */
  lemma {:induction false} ScanConcat(carry: string, xs: seq<Mark>, ys: seq<Mark>)
    ensures LastPci(carry, xs + ys) == LastPci(LastPci(carry, xs), ys)
    ensures RecordedFrom(carry, xs + ys) == RecordedFrom(carry, xs) + RecordedFrom(LastPci(carry, xs), ys)
  {
    if |ys| == 0 {
      assert xs + ys == xs;
    } else {
      var n := |ys| - 1;
      ScanConcat(carry, xs, ys[..n]);
      assert xs + ys == xs + ys[..n] + [ys[n]];
      RecordedAppend(carry, xs + ys[..n], ys[n]);
    }
  }

  // ---------- Windows of a log ----------

  /** Some RAS error line comes before every address line. */
  ghost predicate Orphan(marks: seq<Mark>) {
    exists i :: 0 <= i < |marks| && marks[i].error && forall k :: 0 <= k <= i ==> marks[k].pci == ""
  }

  lemma {:induction false} CarryInForce(carry: string, marks: seq<Mark>)
    ensures LastPci(carry, marks) == if LastPci("", marks) != "" then LastPci("", marks) else carry
    ensures LastPci("", marks) == "" <==> forall k :: 0 <= k < |marks| ==> marks[k].pci == ""
  {
    if |marks| > 0 {
      var n := |marks| - 1;
      CarryInForce(carry, marks[..n]);
      assert forall k :: 0 <= k < n ==> marks[..n][k] == marks[k];
    }
  }

  lemma OrphanAppend(marks: seq<Mark>, mark: Mark)
    ensures Orphan(marks + [mark]) <==>
            Orphan(marks) || (mark.error && LastPci("", marks + [mark]) == "")
  {
    var all := marks + [mark];
    CarryInForce("", all);
    if Orphan(marks) {
      var i :| 0 <= i < |marks| && marks[i].error && forall k :: 0 <= k <= i ==> marks[k].pci == "";
      assert all[i].error && forall k :: 0 <= k <= i ==> all[k].pci == marks[k].pci;
    }
    if Orphan(all) {
      var i :| 0 <= i < |all| && all[i].error && forall k :: 0 <= k <= i ==> all[k].pci == "";
      if i < |marks| {
        assert marks[i].error && forall k :: 0 <= k <= i ==> all[k].pci == marks[k].pci;
      }
    }
  }

  /** Starting with an address in force adds just that address, and only for an orphaned error line. */
  lemma {:induction false} CarryMatters(carry: string, marks: seq<Mark>)
    requires carry != ""
    ensures RecordedFrom(carry, marks) == Recorded(marks) + (if Orphan(marks) then {carry} else {})
  {
    if |marks| > 0 {
      var n := |marks| - 1;
      CarryMatters(carry, marks[..n]);
      assert marks == marks[..n] + [marks[n]];
      OrphanAppend(marks[..n], marks[n]);
      CarryInForce(carry, marks);
    }
  }

  /** What the error marks of the window blame when the whole log is taken into account. */
  function RecordedWithin(marks: seq<Mark>, a: nat, b: nat): set<string>
    requires a <= b <= |marks|
  {
    RecordedFrom(LastPci("", marks[..a]), marks[a..b])
  }

  lemma WithinStep(marks: seq<Mark>, a: nat, b: nat, p: string)
    requires a < b <= |marks|
    ensures p in RecordedWithin(marks, a, b) <==> p in RecordedWithin(marks, a, b - 1) || Blames(marks, b - 1, p)
  {
    assert marks[a..b] == marks[a..b - 1] + [marks[b - 1]];
    RecordedAppend(LastPci("", marks[..a]), marks[a..b - 1], marks[b - 1]);
    ScanConcat("", marks[..a], marks[a..b]);
    assert marks[..a] + marks[a..b] == marks[..b];
    BlamesLast(marks, b, p);
  }

  ghost predicate BlamedWithin(marks: seq<Mark>, a: int, b: int, p: string) {
    exists i :: a <= i < b && Blames(marks, i, p)
  }

  lemma {:induction false} RecordedWithinExact(marks: seq<Mark>, a: nat, b: nat, p: string)
    requires a <= b <= |marks|
    ensures p in RecordedWithin(marks, a, b) <==> BlamedWithin(marks, a, b, p)
    decreases b
  {
    if a < b {
      RecordedWithinExact(marks, a, b - 1, p);
      WithinStep(marks, a, b, p);
      BlamedStep(marks, a, b, p);
    }
  }

  lemma BlamedStep(marks: seq<Mark>, a: nat, b: nat, p: string)
    requires a < b <= |marks|
    ensures BlamedWithin(marks, a, b, p) <==> BlamedWithin(marks, a, b - 1, p) || Blames(marks, b - 1, p)
  {}

  lemma BlamesLast(marks: seq<Mark>, b: nat, p: string)
    requires 0 < b <= |marks|
    ensures Blames(marks, b - 1, p) <==>
            marks[b - 1].error && LastPci("", marks[..b]) == p && p != ""
  {
    BlamesAtEnd(marks[..b], p);
    BlamesPrefix(marks, b, b - 1, p);
  }

  /** Scanning a window is scanning it with the address in force at the cut left out. */
  lemma WindowByCut(marks: seq<Mark>, a: nat, b: nat)
    requires a <= b <= |marks|
    ensures var cut := LastPci("", marks[..a]);
      RecordedWithin(marks, a, b) ==
      Recorded(marks[a..b]) + (if cut != "" && Orphan(marks[a..b]) then {cut} else {})
  {
    var cut := LastPci("", marks[..a]);
    if cut != "" {
      CarryMatters(cut, marks[a..b]);
    }
  }

  lemma WithinWhole(marks: seq<Mark>, a: nat, b: nat)
    requires a <= b <= |marks|
    ensures RecordedWithin(marks, a, b) <= Recorded(marks)
  {
    ScanConcat("", marks[..a], marks[a..b]);
    assert marks[..a] + marks[a..b] == marks[..b];
    ScanConcat("", marks[..b], marks[b..]);
    assert marks[..b] + marks[b..] == marks;
  }

  /**
   A scan of any window records a subset of what the whole log would give, and of what the window's
   own error lines stand for it misses at most one address: the one in force where the window was cut.
   Nothing is missed exactly when no error line in the window precedes its first address line, or no
   address was in force at the cut, or some other error line of the window carries that address on its own.
   */
  lemma WindowSound(marks: seq<Mark>, a: nat, b: nat)
    requires a <= b <= |marks|
    ensures Recorded(marks[a..b]) <= RecordedWithin(marks, a, b) <= Recorded(marks)
    ensures RecordedWithin(marks, a, b) - Recorded(marks[a..b]) <= {LastPci("", marks[..a])}
    ensures Recorded(marks[a..b]) == RecordedWithin(marks, a, b) <==>
            MissesNothing(marks[a..b], LastPci("", marks[..a]))
  {
    WindowByCut(marks, a, b);
    WithinWhole(marks, a, b);
    ScanExact(marks[a..b], LastPci("", marks[..a]));
  }

  /** A window misses nothing of what its error lines stand for when `cut` was in force before it. */
  ghost predicate MissesNothing(window: seq<Mark>, cut: string) {
    cut == "" || !Orphan(window) || exists i :: Blames(window, i, cut)
  }

  // ---------- Back to the text of a log ----------

  /** Line i is a RAS error and the nearest line at or before it that carries an address carries p. */
  ghost predicate BlamesLine(lines: seq<string>, i: int, p: string) {
    && 0 <= i < |lines|
    && ContainsRasError(lines[i])
    && p != ""
    && exists j :: Carries(lines, j, i, p)
  }

  ghost predicate Carries(lines: seq<string>, j: int, i: int, p: string) {
    && 0 <= j <= i < |lines|
    && ExtractSen(lines[j]) == p
    && forall k :: j < k <= i ==> ExtractSen(lines[k]) == ""
  }

  lemma BlamesText(lines: seq<string>, i: int, p: string)
    ensures Blames(Marks(lines), i, p) <==> BlamesLine(lines, i, p)
  {
    forall j
      ensures p != "" ==> (Carries(lines, j, i, p) <==> Governs(Marks(lines), j, i) && Marks(lines)[j].pci == p)
    {
      if 0 <= j <= i < |lines| {
        forall k | 0 <= k < |lines|
          ensures Marks(lines)[k].pci == ExtractSen(lines[k])
        {}
      }
    }
  }

  /** The scan records exactly the addresses blamed by a line of the text. */
  lemma TextExact(lines: seq<string>, p: string)
    ensures p in Recorded(Marks(lines)) <==> exists i :: BlamesLine(lines, i, p)
  {
    ScanExact(Marks(lines), p);
    forall i
      ensures Blames(Marks(lines), i, p) <==> BlamesLine(lines, i, p)
    {
      BlamesText(lines, i, p);
    }
  }

  /** A scan of the marks from a to b of a log, as `WindowSound` has it. */
  ghost predicate SoundScan(window: seq<Mark>, marks: seq<Mark>, a: nat, b: nat) {
    && a <= b <= |marks|
    && Recorded(window) <= RecordedWithin(marks, a, b) <= Recorded(marks)
    && RecordedWithin(marks, a, b) - Recorded(window) <= {LastPci("", marks[..a])}
    && (Recorded(window) == RecordedWithin(marks, a, b) <==> MissesNothing(window, LastPci("", marks[..a])))
  }

  lemma SoundWindow(window: seq<Mark>, marks: seq<Mark>, a: nat, b: nat)
    requires a <= b <= |marks| && window == marks[a..b]
    ensures SoundScan(window, marks, a, b)
  {
    WindowSound(marks, a, b);
  }

  /**
   The text handed to the scanner is the end of a log, from line a on, and the scan stops at the first
   line that is too long. It records a subset of what the whole log stands for, misses, of what its
   own error lines stand for, at most the address in force at line a, and misses nothing exactly under
   the condition of `WindowSound`.
   */
  lemma TailSound(raw: seq<string>, a: nat, text: string, marks: seq<Mark>, window: seq<Mark>)
    requires a <= |raw| && RawLines(text) == raw[a..]
    requires |marks| == |raw| && forall i :: 0 <= i < |raw| ==> marks[i] == MarkOf(DropCR(raw[i]))
    requires window == Marks(ScannerLines(text))
    ensures SoundScan(window, marks, a, a + |window|)
  {
    TailWindow(raw, a, text, marks, window);
    SoundWindow(window, marks, a, a + |window|);
  }

  lemma TailWindow(raw: seq<string>, a: nat, text: string, marks: seq<Mark>, window: seq<Mark>)
    requires a <= |raw| && RawLines(text) == raw[a..]
    requires |marks| == |raw| && forall i :: 0 <= i < |raw| ==> marks[i] == MarkOf(DropCR(raw[i]))
    requires window == Marks(ScannerLines(text))
    ensures a + |window| <= |marks| && window == marks[a..a + |window|]
  {
    forall i | 0 <= i < |window|
      ensures window[i] == marks[a + i]
    {
      assert RawLines(text)[i] == raw[a + i];
    }
  }

  lemma MarksAppend(lines: seq<string>, line: string)
    ensures Marks(lines + [line]) == Marks(lines) + [MarkOf(line)]
  {}
}
