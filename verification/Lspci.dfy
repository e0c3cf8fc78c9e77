/** Parsing the whole lspci output into device states. */
module Lspci {
  import opened Devices
  import opened Text
  import opened PciAddress
  import opened LspciHeader
  import opened LspciStanzas
  import opened LspciDetails

  const PF_ID := "1014:06a7"
  const VF_ID := "1014:06a8"

  function FirstNonEmpty(lines: seq<string>): string {
    if |lines| == 0 then ""
    else if TrimSpace(lines[0]) != "" then TrimCarriageReturns(lines[0])
    else FirstNonEmpty(lines[1..])
  }

  function FirstNonEmptyLine(stanza: string): string {
    FirstNonEmpty(Split(stanza, '\n'))
  }

  /** The device state for captured header fields: none or one. Revision 01 is left out, ff is an error. */
  function CapturedDevice(p: Parsed): seq<Device> {
    match p
    case NoHeader => []
    case Captured(pci, id, rev) =>
      if rev == "01" || (ToLower(id) != PF_ID && ToLower(id) != VF_ID) then []
      else
        [Device(Normalise(pci), if ToLower(id) == PF_ID then PF else VF,
                if ToLower(rev) == "ff" then InError else Online, "", 0)]
  }

  function HeadDevice(head: string): seq<Device> {
    CapturedDevice(ParseHeader(head))
  }

  function FlatMap<S, T>(f: S -> seq<T>, xs: seq<S>): seq<T> {
    if |xs| == 0 then [] else f(xs[0]) + FlatMap(f, xs[1..])
  }

  lemma {:induction false} FlatMapConcat<S, T>(f: S -> seq<T>, xs: seq<S>, ys: seq<S>)
    ensures FlatMap(f, xs + ys) == FlatMap(f, xs) + FlatMap(f, ys)
  {
    if |xs| == 0 {
      assert xs + ys == ys;
    } else {
      FlatMapConcat(f, xs[1..], ys);
      assert (xs + ys)[1..] == xs[1..] + ys;
    }
  }

  lemma FlatMapCons<S, T>(f: S -> seq<T>, x: S, xs: seq<S>)
    ensures FlatMap(f, [x] + xs) == f(x) + FlatMap(f, xs)
  {
    assert ([x] + xs)[1..] == xs;
  }

  /** Replacing the first element by one that contributes `more` in front. */
  lemma FlatMapFirst<S, T>(f: S -> seq<T>, x: S, more: seq<T>, xs: seq<S>)
    requires |xs| > 0 && f(x) == more + f(xs[0])
    ensures FlatMap(f, [x] + xs[1..]) == more + FlatMap(f, xs)
  {
    FlatMapCons(f, x, xs[1..]);
    var rest := FlatMap(f, xs[1..]);
    assert FlatMap(f, xs) == f(xs[0]) + rest;
    Associative(more, f(xs[0]), rest);
  }

  lemma Associative<T>(a: seq<T>, b: seq<T>, c: seq<T>)
    ensures a + b + c == a + (b + c)
  {}

  lemma FlatMapLast<S, T>(f: S -> seq<T>, xs: seq<S>)
    requires |xs| > 0
    ensures FlatMap(f, xs) == FlatMap(f, xs[..|xs| - 1]) + f(xs[|xs| - 1])
  {
    FlatMapAppend(f, xs[..|xs| - 1], xs[|xs| - 1]);
    assert xs == xs[..|xs| - 1] + [xs[|xs| - 1]];
  }

  lemma FlatMapAppend<S, T>(f: S -> seq<T>, xs: seq<S>, x: S)
    ensures FlatMap(f, xs + [x]) == FlatMap(f, xs) + f(x)
  {
    FlatMapConcat(f, xs, [x]);
    assert FlatMap(f, [x]) == f(x) + FlatMap(f, []);
  }

  /** The header lines of stanzas, one each. */
  function HeadsOf(stanzas: seq<string>): (heads: seq<string>)
    ensures |heads| == |stanzas|
  {
    seq(|stanzas|, i requires 0 <= i < |stanzas| => FirstNonEmptyLine(stanzas[i]))
  }

  function DevicesOf(output: string): seq<Device> {
    FlatMap(HeadDevice, HeadsOf(NonWhite(Parts(output))))
  }

  method ParseDeviceStanza(stanza: string) returns (di: DeviceInfo)
    ensures fresh(di)
    ensures match ParseHeader(FirstNonEmptyLine(stanza))
            case NoHeader => di.IsZero()
            case Captured(pci, id, rev) =>
              if rev == "01" then di.IsZero()
              else di.pciAddress == Normalise(pci) && di.vendorDevice == ToLower(id) && di.revision == ToLower(rev)
  {
    di := new DeviceInfo();
    match ParseHeader(FirstNonEmptyLine(stanza)) {
      case NoHeader =>
      case Captured(pci, id, rev) =>
        if rev != "01" {
          di.pciAddress := if |pci| == 7 then "0000:" + pci else pci;
          di.vendorDevice := ToLower(id);
          di.revision := ToLower(rev);
          di.ParseDetails(stanza);
        }
    }
  }

  lemma CapturedAddressNotEmpty(line: string)
    requires ParseHeader(line).Captured?
    ensures Normalise(ParseHeader(line).pci) != ""
  {}

  /** The device of one stanza: whatever the body put into the record, the record is not the zero record. */
  method ParseStanza(stanza: string) returns (found: seq<Device>)
    ensures found == HeadDevice(FirstNonEmptyLine(stanza))
  {
    var di := ParseDeviceStanza(stanza);
    if ParseHeader(FirstNonEmptyLine(stanza)).Captured? {
      CapturedAddressNotEmpty(FirstNonEmptyLine(stanza));
    }
    if di.IsZero() {
      return [];
    }
    if di.vendorDevice != PF_ID && di.vendorDevice != VF_ID {
      return [];
    }
    var state := if di.revision == "ff" then InError else Online;
    var kind := if di.vendorDevice == PF_ID then PF else VF;
    return [Device(di.pciAddress, kind, state, "", 0)];
  }

  lemma DevicesStep(heads: seq<string>, i: nat)
    requires i < |heads|
    ensures FlatMap(HeadDevice, heads[..i + 1]) == FlatMap(HeadDevice, heads[..i]) + HeadDevice(heads[i])
  {
    assert heads[..i + 1] == heads[..i] + [heads[i]];
    FlatMapAppend(HeadDevice, heads[..i], heads[i]);
  }

  method ParseLspci(output: string) returns (states: seq<Device>)
    ensures states == DevicesOf(output)
  {
    var stanzas := SplitByBlankLines(output);
    states := [];
    ghost var heads := HeadsOf(stanzas);
    for i := 0 to |stanzas|
      invariant states == FlatMap(HeadDevice, heads[..i])
    {
      DevicesStep(heads, i);
      var found := ParseStanza(stanzas[i]);
      states := states + found;
    }
    assert heads[..|stanzas|] == heads;
  }

  // ---------- The same result, read off the lines of the output ----------

  /**
   The header lines of an output: the first line that is not white space, at the start and after every
   blank line.
   */
  function Heads(lines: seq<string>, waiting: bool): seq<string> {
    if |lines| == 0 then []
    else if BlankLine(lines[0]) then Heads(lines[1..], true)
    else if waiting && TrimSpace(lines[0]) != "" then [TrimCarriageReturns(lines[0])] + Heads(lines[1..], false)
    else Heads(lines[1..], waiting)
  }

  lemma BlankLineIsWhite(line: string)
    requires BlankLine(line)
    ensures TrimSpace(line) == ""
  {
    TrimEmptyIff(line);
    assert forall i :: 0 <= i < |line| ==> IsSpace(line[i]) by {
      assert forall i :: 0 <= i < |DropCR(line)| ==> Blank(DropCR(line)[i]);
    }
  }

  /** The header line of a group of lines: none or one. */
  function GroupHead(group: seq<string>): seq<string> {
    if |group| == 0 then []
    else if TrimSpace(group[0]) != "" then [TrimCarriageReturns(group[0])]
    else GroupHead(group[1..])
  }

  function GroupHeads(groups: seq<seq<string>>): seq<string> {
    FlatMap(GroupHead, groups)
  }

  lemma {:induction false} TrimDropCR(line: string)
    ensures TrimCarriageReturns(DropCR(line)) == TrimCarriageReturns(line)
    ensures TrimSpace(DropCR(line)) == "" <==> TrimSpace(line) == ""
  {
    TrimEmptyIff(line);
    TrimEmptyIff(DropCR(line));
    if DropCR(line) != line {
      var n := |line| - 1;
      assert line == line[..n] + [line[n]];
      assert IsWhite(line) <==> IsWhite(line[..n]);
    }
  }

  /** Walking over the lines finds the first line of each group. */
  lemma {:induction false} HeadsAreGroupHeads(lines: seq<string>)
    requires |lines| > 0
    ensures Heads(lines, true) == GroupHeads(Groups(lines))
    ensures |lines| == 1 || !BlankLine(lines[0]) ==> Heads(lines, false) == GroupHeads(Groups(lines)[1..])
    decreases |lines|
  {
    TrimDropCR(lines[0]);
    if BlankLine(lines[0]) {
      BlankLineIsWhite(lines[0]);
    }
    if |lines| == 1 {
      assert [] + [lines] == [lines];
      FlatMapAppend(GroupHead, [], lines);
    } else if |lines| > 2 && BlankLine(lines[1]) {
      var rest := DropBlankLines(lines[2..]);
      HeadsAreGroupHeads(rest);
      HeadsSkipBlankLines(lines[2..]);
      assert lines[1..][1..] == lines[2..];
      HeadOfFirstLine(lines);
    } else {
      HeadsOfLongGroup(lines);
    }
  }

  /** The groups of lines whose first line is followed by a blank one. */
  lemma HeadOfFirstLine(lines: seq<string>)
    requires |lines| > 2 && BlankLine(lines[1])
    ensures var rest := Groups(DropBlankLines(lines[2..]));
      && Groups(lines)[1..] == rest
      && GroupHeads(Groups(lines)) ==
         (if TrimSpace(lines[0]) != "" then [TrimCarriageReturns(lines[0])] else []) + GroupHeads(rest)
  {
    TrimDropCR(lines[0]);
    assert GroupHead([DropCR(lines[0])][1..]) == [];
  }

  lemma HeadsOfLongGroup(lines: seq<string>)
    requires |lines| > 1 && !(|lines| > 2 && BlankLine(lines[1]))
    requires BlankLine(lines[0]) ==> TrimSpace(lines[0]) == ""
    ensures Heads(lines, true) == GroupHeads(Groups(lines))
    ensures !BlankLine(lines[0]) ==> Heads(lines, false) == GroupHeads(Groups(lines)[1..])
    decreases |lines|, 0
  {
    var rest := Groups(lines[1..]);
    HeadsAreGroupHeads(lines[1..]);
    var first := [lines[0]] + rest[0];
    assert Groups(lines) == [first] + rest[1..];
    assert first[1..] == rest[0];
    assert Groups(lines)[1..] == rest[1..];
    assert rest == [rest[0]] + rest[1..];
    assert GroupHeads(rest) == GroupHead(rest[0]) + GroupHeads(rest[1..]);
  }

  lemma {:induction false} HeadsSkipBlankLines(lines: seq<string>)
    requires |lines| > 0
    ensures Heads(lines, true) == Heads(DropBlankLines(lines), true)
  {
    if |lines| > 1 && BlankLine(lines[0]) {
      HeadsSkipBlankLines(lines[1..]);
    }
  }

  lemma {:induction false} AllWithoutGroups(lines: seq<string>)
    requires |lines| > 0 && AllWithout(lines, '\n')
    ensures forall g :: 0 <= g < |Groups(lines)| ==> AllWithout(Groups(lines)[g], '\n')
    decreases |lines|
  {
    if |lines| > 1 {
      if |lines| > 2 && BlankLine(lines[1]) {
        DropKeepsWithout(lines[2..], '\n');
        AllWithoutGroups(DropBlankLines(lines[2..]));
      } else {
        AllWithoutGroups(lines[1..]);
        var rest := Groups(lines[1..]);
        assert AllWithout([lines[0]] + rest[0], '\n');
      }
    }
  }

  lemma {:induction false} GroupHeadIsFirst(group: seq<string>)
    ensures GroupHead(group) == if |GroupHead(group)| == 0 then [] else [FirstNonEmpty(group)]
    ensures |GroupHead(group)| == 0 <==> forall i :: 0 <= i < |group| ==> TrimSpace(group[i]) == ""
  {
    if |group| > 0 && TrimSpace(group[0]) == "" {
      GroupHeadIsFirst(group[1..]);
    }
  }

  lemma {:induction false} WhiteJoin(lines: seq<string>)
    requires |lines| > 0
    ensures TrimSpace(Join(lines, '\n')) == "" <==> forall i :: 0 <= i < |lines| ==> TrimSpace(lines[i]) == ""
  {
    TrimEmptyIff(Join(lines, '\n'));
    TrimEmptyIff(lines[0]);
    if |lines| > 1 {
      var rest := Join(lines[1..], '\n');
      WhiteJoin(lines[1..]);
      TrimEmptyIff(rest);
      WhiteConcat(lines[0], rest);
    }
  }

  lemma WhiteConcat(a: string, b: string)
    ensures IsWhite(a + ['\n'] + b) <==> IsWhite(a) && IsWhite(b)
  {
    var s := a + ['\n'] + b;
    assert forall i :: 0 <= i < |a| ==> s[i] == a[i];
    assert forall i :: 0 <= i < |b| ==> b[i] == s[i + |a| + 1];
  }

  /** A stanza is kept exactly when its group has a header line, which is then the stanza's. */
  lemma KeptHead(group: seq<string>)
    requires |group| > 0 && AllWithout(group, '\n')
    ensures var stanza := Join(group, '\n');
      GroupHead(group) == if TrimSpace(stanza) != "" then [FirstNonEmptyLine(stanza)] else []
  {
    WhiteJoin(group);
    GroupHeadIsFirst(group);
    SplitJoin(group, '\n');
  }

  /** The header lines of the stanzas that are kept are those of the groups. */
  lemma {:induction false} KeptHeads(groups: seq<seq<string>>)
    requires forall g :: 0 <= g < |groups| ==> |groups[g]| > 0 && AllWithout(groups[g], '\n')
    ensures HeadsOf(NonWhite(JoinAll(groups))) == GroupHeads(groups)
    decreases |groups|
  {
    if |groups| > 0 {
      var n := |groups| - 1;
      var init := groups[..n];
      KeptHeads(init);
      KeptHead(groups[n]);
      assert groups == init + [groups[n]];
      FlatMapAppend(GroupHead, init, groups[n]);
      JoinAllLast(groups);
      NonWhiteAppend(JoinAll(init), Join(groups[n], '\n'));
    }
  }

  lemma NonWhiteAppend(parts: seq<string>, part: string)
    ensures HeadsOf(NonWhite(parts + [part])) ==
            HeadsOf(NonWhite(parts)) + (if TrimSpace(part) != "" then [FirstNonEmptyLine(part)] else [])
  {
    assert (parts + [part])[..|parts|] == parts;
    if TrimSpace(part) != "" {
      HeadsOfAppend(NonWhite(parts), part);
    }
  }

  lemma HeadsOfAppend(stanzas: seq<string>, stanza: string)
    ensures HeadsOf(stanzas + [stanza]) == HeadsOf(stanzas) + [FirstNonEmptyLine(stanza)]
  {}

  /**
   For every output, well formed or not: the parser reports the devices of exactly the lines that are
   the first non-white line at the start or after a blank line, in order.
   */
  lemma ParseByLines(output: string)
    ensures DevicesOf(output) == FlatMap(HeadDevice, Heads(Split(output, '\n'), true))
  {
    var lines := Split(output, '\n');
    JoinSplit(output, '\n');
    PartsAreGroups(lines);
    AllWithoutGroups(lines);
    KeptHeads(Groups(lines));
    HeadsAreGroupHeads(lines);
  }

  // ---------- No line is lost ----------

  /** The lines that are not white space, without carriage returns at their end. */
  function Kept(lines: seq<string>): seq<string> {
    FlatMap(KeptLine, lines)
  }

  function KeptLine(line: string): seq<string> {
    if TrimSpace(line) != "" then [TrimCarriageReturns(line)] else []
  }

  function KeptLines(text: string): seq<string> {
    Kept(Split(text, '\n'))
  }

  lemma {:induction false} KeptDropBlankLines(lines: seq<string>)
    requires |lines| > 0
    ensures Kept(DropBlankLines(lines)) == Kept(lines)
  {
    if |lines| > 1 && BlankLine(lines[0]) {
      KeptDropBlankLines(lines[1..]);
      BlankLineIsWhite(lines[0]);
      SplitFirst(lines);
    }
  }

  lemma {:induction false} GroupsKeepLines(lines: seq<string>)
    requires |lines| > 0
    ensures FlatMap(Kept, Groups(lines)) == Kept(lines)
    decreases |lines|
  {
    if |lines| == 1 {
      FlatMapCons(Kept, lines, []);
      assert [lines] + [] == [lines];
    } else if |lines| > 2 && BlankLine(lines[1]) {
      var rest := DropBlankLines(lines[2..]);
      GroupsKeepLines(rest);
      KeptDropBlankLines(lines[2..]);
      SplitFirstTwo(lines);
      FirstGroupKeeps(lines[0], Groups(rest));
    } else {
      GroupsKeepLines(lines[1..]);
      LongGroupKeeps(lines[0], Groups(lines[1..]));
      SplitFirst(lines);
    }
  }

  lemma SplitFirst(lines: seq<string>)
    requires |lines| > 0
    ensures Kept(lines) == KeptLine(lines[0]) + Kept(lines[1..])
  {}

  lemma SplitFirstTwo(lines: seq<string>)
    requires |lines| > 2 && BlankLine(lines[1])
    ensures Kept(lines) == KeptLine(lines[0]) + Kept(lines[2..])
  {
    SplitFirst(lines);
    SplitFirst(lines[1..]);
    BlankLineIsWhite(lines[1]);
    assert lines[1..][1..] == lines[2..];
  }

  lemma FirstGroupKeeps(line: string, groups: seq<seq<string>>)
    ensures FlatMap(Kept, [[DropCR(line)]] + groups) == KeptLine(line) + FlatMap(Kept, groups)
  {
    TrimDropCR(line);
    SplitFirst([DropCR(line)]);
    FlatMapCons(Kept, [DropCR(line)], groups);
  }

  lemma LongGroupKeeps(line: string, groups: seq<seq<string>>)
    requires |groups| > 0
    ensures FlatMap(Kept, [[line] + groups[0]] + groups[1..]) == KeptLine(line) + FlatMap(Kept, groups)
  {
    FlatMapCons(KeptLine, line, groups[0]);
    FlatMapFirst(Kept, [line] + groups[0], KeptLine(line), groups);
  }

  /** A group keeps the lines of its stanza, and none if the stanza is white space. */
  lemma KeptStanza(group: seq<string>)
    requires |group| > 0 && AllWithout(group, '\n')
    ensures var stanza := Join(group, '\n');
      KeptLines(stanza) == Kept(group) && (TrimSpace(stanza) == "" ==> Kept(group) == [])
  {
    SplitJoin(group, '\n');
    WhiteJoin(group);
    if TrimSpace(Join(group, '\n')) == "" {
      WhiteKeepsNothing(group);
    }
  }

  lemma {:induction false} KeptStanzas(groups: seq<seq<string>>)
    requires forall g :: 0 <= g < |groups| ==> |groups[g]| > 0 && AllWithout(groups[g], '\n')
    ensures FlatMap(KeptLines, NonWhite(JoinAll(groups))) == FlatMap(Kept, groups)
    decreases |groups|
  {
    if |groups| > 0 {
      var n := |groups| - 1;
      var init, stanza := groups[..n], Join(groups[n], '\n');
      KeptStanzas(init);
      KeptStanza(groups[n]);
      FlatMapLast(Kept, groups);
      JoinAllLast(groups);
      KeptAppend(JoinAll(init), stanza);
    }
  }

  lemma {:induction false} JoinAllLast(groups: seq<seq<string>>)
    requires |groups| > 0 && forall g :: 0 <= g < |groups| ==> |groups[g]| > 0
    ensures JoinAll(groups) == JoinAll(groups[..|groups| - 1]) + [Join(groups[|groups| - 1], '\n')]
  {
    if |groups| > 1 {
      JoinAllLast(groups[1..]);
      assert groups[1..][..|groups| - 2] == groups[..|groups| - 1][1..];
    }
  }

  lemma KeptAppend(parts: seq<string>, part: string)
    ensures FlatMap(KeptLines, NonWhite(parts + [part])) ==
            FlatMap(KeptLines, NonWhite(parts)) + (if TrimSpace(part) != "" then KeptLines(part) else [])
  {
    assert (parts + [part])[..|parts|] == parts;
    if TrimSpace(part) != "" {
      FlatMapAppend(KeptLines, NonWhite(parts), part);
    } else {
      assert NonWhite(parts) + [] == NonWhite(parts);
    }
  }

  lemma {:induction false} WhiteKeepsNothing(lines: seq<string>)
    requires forall i :: 0 <= i < |lines| ==> TrimSpace(lines[i]) == ""
    ensures Kept(lines) == []
  {
    if |lines| > 0 {
      WhiteKeepsNothing(lines[1..]);
    }
  }

  /** Splitting loses and reorders no line that is not white space. */
  lemma StanzaConservation(output: string)
    ensures FlatMap(KeptLines, NonWhite(Parts(output))) == KeptLines(output)
  {
    var lines := Split(output, '\n');
    JoinSplit(output, '\n');
    PartsAreGroups(lines);
    AllWithoutGroups(lines);
    KeptStanzas(Groups(lines));
    GroupsKeepLines(lines);
  }

  // ---------- Round trip ----------

  /** A stanza as it is written: its first line, a body, and the blank lines after it. */
  datatype Stanza = Stanza(head: string, body: seq<string>, gap: seq<string>)

  predicate WellFormedStanza(s: Stanza) {
    && Without(s.head, '\n') && TrimSpace(s.head) != ""
    && AllWithout(s.body, '\n') && (forall i :: 0 <= i < |s.body| ==> !BlankLine(s.body[i]))
    && AllWithout(s.gap, '\n') && (forall i :: 0 <= i < |s.gap| ==> BlankLine(s.gap[i]))
  }

  /** Stanzas are separated by at least one blank line; the last one may end the output. */
  predicate WellFormedOutput(stanzas: seq<Stanza>) {
    && (forall i :: 0 <= i < |stanzas| ==> WellFormedStanza(stanzas[i]))
    && (forall i :: 0 <= i < |stanzas| - 1 ==> |stanzas[i].gap| > 0)
  }

  function StanzaLines(stanzas: seq<Stanza>): seq<string> {
    if |stanzas| == 0 then []
    else [stanzas[0].head] + stanzas[0].body + stanzas[0].gap + StanzaLines(stanzas[1..])
  }

  /** The printed output; every line is ended by a newline. */
  function PrintAll(stanzas: seq<Stanza>): string {
    Join(StanzaLines(stanzas) + [""], '\n')
  }

  /** The first lines of the stanzas, as the header parser is given them. */
  function StanzaHeads(stanzas: seq<Stanza>): (heads: seq<string>)
    ensures |heads| == |stanzas|
    ensures forall i :: 0 <= i < |stanzas| ==> heads[i] == TrimCarriageReturns(stanzas[i].head)
  {
    if |stanzas| == 0 then [] else [TrimCarriageReturns(stanzas[0].head)] + StanzaHeads(stanzas[1..])
  }

  lemma {:induction false} HeadsOverBody(body: seq<string>, rest: seq<string>)
    requires forall i :: 0 <= i < |body| ==> !BlankLine(body[i])
    ensures Heads(body + rest, false) == Heads(rest, false)
  {
    if |body| == 0 {
      assert body + rest == rest;
    } else {
      HeadsOverBody(body[1..], rest);
      assert (body + rest)[1..] == body[1..] + rest;
    }
  }

  lemma {:induction false} HeadsOverGap(gap: seq<string>, rest: seq<string>, waiting: bool)
    requires forall i :: 0 <= i < |gap| ==> BlankLine(gap[i])
    ensures Heads(gap + rest, waiting) == Heads(rest, waiting || |gap| > 0)
  {
    if |gap| == 0 {
      assert gap + rest == rest;
    } else {
      HeadsOverGap(gap[1..], rest, true);
      assert (gap + rest)[1..] == gap[1..] + rest;
    }
  }

  lemma {:induction false} HeadsOfPrinted(stanzas: seq<Stanza>)
    requires WellFormedOutput(stanzas)
    ensures Heads(StanzaLines(stanzas) + [""], true) == StanzaHeads(stanzas)
  {
    if |stanzas| == 0 {
      assert StanzaLines(stanzas) + [""] == [""];
      assert BlankLine("");
    } else {
      HeadsOfPrinted(stanzas[1..]);
      HeadsOfStanza(stanzas);
    }
  }

  lemma HeadsAfterHeader(s: Stanza, rest: seq<string>, last: bool)
    requires WellFormedStanza(s)
    requires if last then rest == [""] else |s.gap| > 0
    ensures Heads([s.head] + (s.body + (s.gap + rest)), true) == [TrimCarriageReturns(s.head)] + Heads(rest, true)
  {
    HeadsOverBody(s.body, s.gap + rest);
    HeadsOverGap(s.gap, rest, false);
    if last {
      assert BlankLine(rest[0]);
    }
    HeadsCons(s.head, s.body + (s.gap + rest));
  }

  lemma HeadsCons(line: string, lines: seq<string>)
    requires TrimSpace(line) != ""
    ensures Heads([line] + lines, true) == [TrimCarriageReturns(line)] + Heads(lines, false)
  {
    assert ([line] + lines)[1..] == lines;
    if BlankLine(line) {
      BlankLineIsWhite(line);
    }
  }

  lemma LinesOfStanza(stanzas: seq<Stanza>)
    requires |stanzas| > 0
    ensures StanzaLines(stanzas) + [""] ==
            [stanzas[0].head] +
            (stanzas[0].body + (stanzas[0].gap + (StanzaLines(stanzas[1..]) + [""])))
  {
    Reassociate([stanzas[0].head], stanzas[0].body, stanzas[0].gap, StanzaLines(stanzas[1..]), [""]);
  }

  lemma Reassociate(a: seq<string>, b: seq<string>, c: seq<string>, d: seq<string>, e: seq<string>)
    ensures a + b + c + d + e == a + (b + (c + (d + e)))
  {}

  lemma HeadsOfStanza(stanzas: seq<Stanza>)
    requires |stanzas| > 0 && WellFormedOutput(stanzas)
    ensures Heads(StanzaLines(stanzas) + [""], true) ==
            [TrimCarriageReturns(stanzas[0].head)] + Heads(StanzaLines(stanzas[1..]) + [""], true)
  {
    var rest := StanzaLines(stanzas[1..]) + [""];
    HeadsAfterHeader(stanzas[0], rest, |stanzas| == 1);
    LinesOfStanza(stanzas);
  }

  lemma {:induction false} PrintedWithout(stanzas: seq<Stanza>)
    requires WellFormedOutput(stanzas)
    ensures AllWithout(StanzaLines(stanzas), '\n')
  {
    if |stanzas| > 0 {
      PrintedWithout(stanzas[1..]);
    }
  }

  /** What is parsed from stanzas is what their first lines say, in order. */
  lemma PrintedHeads(stanzas: seq<Stanza>)
    requires WellFormedOutput(stanzas)
    ensures DevicesOf(PrintAll(stanzas)) == FlatMap(HeadDevice, StanzaHeads(stanzas))
  {
    HeadsOfPrinted(stanzas);
    PrintedWithout(stanzas);
    SplitJoin(StanzaLines(stanzas) + [""], '\n');
    ParseByLines(PrintAll(stanzas));
  }

  /** The bodies and the blank lines of an output never change what is parsed from it. */
  lemma BodyIndependence(one: seq<Stanza>, other: seq<Stanza>)
    requires WellFormedOutput(one) && WellFormedOutput(other)
    requires |one| == |other| && forall i :: 0 <= i < |one| ==> one[i].head == other[i].head
    ensures DevicesOf(PrintAll(one)) == DevicesOf(PrintAll(other))
  {
    PrintedHeads(one);
    PrintedHeads(other);
    assert StanzaHeads(one) == StanzaHeads(other);
  }

  /** A Spyre device of any revision but 01. */
  predicate Wanted(h: Header) {
    h.vendorDevice in {"1014:06a7", "1014:06A7", "1014:06a8", "1014:06A8"} && h.rev != "01"
  }

  /** The state of a device whose header is wanted; revision ff, in either case, is an error. */
  function Report(h: Header): Device {
    Device(if |h.pci| == 7 then "0000:" + h.pci else h.pci,
           if h.vendorDevice in {"1014:06a8", "1014:06A8"} then VF else PF,
           if h.rev in {"ff", "fF", "Ff", "FF"} then InError else Online, "", 0)
  }

  /** What printed headers stand for: the devices of the wanted ones, in order. */
  function Expected(headers: seq<Header>): seq<Device> {
    if |headers| == 0 then []
    else (if Wanted(headers[0]) then [Report(headers[0])] else []) + Expected(headers[1..])
  }

  lemma CapturedIsReported(h: Header)
    requires WellFormed(h)
    ensures CapturedDevice(Captures(h)) == if Wanted(h) then [Report(h)] else []
  {
    LowerId(h.vendorDevice);
    var low := ToLower(h.rev);
    assert low == [Lower(h.rev[0]), Lower(h.rev[1])] && h.rev == [h.rev[0], h.rev[1]];
    assert low == "ff" <==> h.rev in {"ff", "fF", "Ff", "FF"};
  }

  lemma LowerId(id: string)
    requires IsVendorDevice(id)
    ensures ToLower(id) == PF_ID <==> id in {"1014:06a7", "1014:06A7"}
    ensures ToLower(id) == VF_ID <==> id in {"1014:06a8", "1014:06A8"}
  {
    assert id == id[..4] + [id[4]] + id[5..];
    var low := ToLower(id);
    assert low == [low[0], low[1], low[2], low[3], low[4], low[5], low[6], low[7], low[8]];
    assert id == [id[0], id[1], id[2], id[3], id[4], id[5], id[6], id[7], id[8]];
  }

  /** The header without the carriage returns at its end. */
  lemma TrimHeader(h: Header) returns (trimmed: Header)
    requires WellFormed(h)
    ensures WellFormed(trimmed) && Captures(trimmed) == Captures(h)
    ensures Print(trimmed) == TrimCarriageReturns(Print(h))
  {
    trimmed := h.(tail := TrimCarriageReturns(h.tail));
    var front := Named(h) + h.revGap + h.keyword + h.keywordGap + h.rev + ")";
    TrimFront(front, h.tail);
  }

  lemma {:induction false} TrimFront(front: string, tail: string)
    requires |front| > 0 && front[|front| - 1] != '\r'
    ensures TrimCarriageReturns(front + tail) == front + TrimCarriageReturns(tail)
  {
    if |tail| == 0 {
      assert front + tail == front;
    } else if tail[|tail| - 1] == '\r' {
      TrimFront(front, tail[..|tail| - 1]);
      assert (front + tail)[..|front + tail| - 1] == front + tail[..|tail| - 1];
    }
  }

  lemma HeaderDevice(h: Header)
    requires WellFormed(h)
    ensures HeadDevice(TrimCarriageReturns(Print(h))) == if Wanted(h) then [Report(h)] else []
  {
    var trimmed := TrimHeader(h);
    PrintParse(trimmed);
    CapturedIsReported(h);
  }

  lemma {:induction false} HeaderDevices(headers: seq<Header>, heads: seq<string>)
    requires |heads| == |headers|
    requires forall i :: 0 <= i < |headers| ==>
               WellFormed(headers[i]) && heads[i] == TrimCarriageReturns(Print(headers[i]))
    ensures FlatMap(HeadDevice, heads) == Expected(headers)
  {
    if |headers| > 0 {
      HeaderDevice(headers[0]);
      HeaderDevices(headers[1..], heads[1..]);
    }
  }

  /** Printing and parsing gives back exactly the Spyre devices, for any descriptions, bodies and gaps. */
  lemma RoundTrip(headers: seq<Header>, stanzas: seq<Stanza>)
    requires WellFormedOutput(stanzas) && |headers| == |stanzas|
    requires forall i :: 0 <= i < |headers| ==> WellFormed(headers[i]) && stanzas[i].head == Print(headers[i])
    ensures DevicesOf(PrintAll(stanzas)) == Expected(headers)
  {
    PrintedHeads(stanzas);
    HeaderDevices(headers, StanzaHeads(stanzas));
  }

  /** Every header without newlines in its gaps may begin a stanza. */
  lemma HeaderBeginsStanza(h: Header)
    requires WellFormed(h) && Without(Print(h), '\n')
    ensures WellFormedStanza(Stanza(Print(h), [], []))
  {
    var line := Print(h);
    assert line[0] == h.pci[0];
    assert Hex(line[0], true) by {
      assert h.pci[..2][0] == h.pci[0] && (|h.pci| == 12 ==> h.pci[..4][0] == h.pci[0]);
    }
    TrimEmptyIff(line);
  }

  /** A parsed device is a PF or a VF, and healthy or in error. */
  lemma ParsedDevice(output: string, d: Device)
    requires d in DevicesOf(output)
    ensures d.kind in {PF, VF} && d.state in {Online, InError}
  {
    HeadDevicesOk(HeadsOf(NonWhite(Parts(output))), d);
  }

  lemma {:induction false} HeadDevicesOk(heads: seq<string>, d: Device)
    requires d in FlatMap(HeadDevice, heads)
    ensures d.kind in {PF, VF} && d.state in {Online, InError}
  {
    if d !in HeadDevice(heads[0]) {
      HeadDevicesOk(heads[1..], d);
    }
  }
}
