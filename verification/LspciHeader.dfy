/** The first line of an lspci stanza: its grammar and a matcher anchored at both ends. */
module LspciHeader {
  import opened Text
  import opened PciAddress

  /** The parts of a header line in the order in which they are written. */
  datatype Header = Header(
    pci: string, description: string, gap: string,
    open: string, vendorDevice: string, close: string, revGap: string,
    keyword: string, keywordGap: string, rev: string, tail: string)

  predicate IsVendorDevice(s: string) {
    |s| == 9 && AllHex(s[..4], true) && s[4] == ':' && AllHex(s[5..], true)
  }

  predicate IsKeyword(s: string) {
    |s| == 4 && FoldsAt(s, 0, "(rev")
  }

  predicate Gap(s: string) {
    |s| > 0 && AllPatternSpace(s)
  }

  /** The header pattern; any description is allowed as long as the header is one line. */
  predicate WellFormed(h: Header) {
    && IsPci(h.pci, true)
    && Without(h.description, '\n')
    && Gap(h.gap)
    && (h.open == "" || h.open == "[")
    && IsVendorDevice(h.vendorDevice)
    && (h.close == "" || h.close == "]")
    && Gap(h.revGap)
    && IsKeyword(h.keyword)
    && Gap(h.keywordGap)
    && |h.rev| == 2 && AllHex(h.rev, true)
    && AllPatternSpace(h.tail)
  }

  /** The part of a header before the vendor and device numbers. */
  function Front(h: Header): string {
    h.pci + h.description + h.gap
  }

  /** The part of a header before the gap that precedes the revision. */
  function Named(h: Header): string {
    Front(h) + h.open + h.vendorDevice + h.close
  }

  /** The whole line. */
  function Print(h: Header): string {
    Named(h) + h.revGap + h.keyword + h.keywordGap + h.rev + ")" + h.tail
  }

  datatype Parsed = NoHeader | Captured(pci: string, vendorDevice: string, rev: string)

  function Captures(h: Header): Parsed {
    Captured(h.pci, h.vendorDevice, h.rev)
  }

  // ---------- Matching from the right ----------

  function StripRight(s: string): (t: string)
    ensures t <= s && AllPatternSpace(s[|t|..])
    ensures |t| > 0 ==> !IsPatternSpace(t[|t| - 1])
  {
    if |s| > 0 && IsPatternSpace(s[|s| - 1]) then StripRight(s[..|s| - 1]) else s
  }

  function Before(s: string, n: nat): string
    requires n <= |s|
  {
    s[..|s| - n]
  }

  function Last(s: string, n: nat): string
    requires n <= |s|
  {
    s[|s| - n..]
  }

  /** The text up to the white space before the opening parenthesis of "(rev hh)", with the revision. */
  datatype RevPart = NoRev | Rev(rest: string, rev: string)

  function MatchRev(line: string): RevPart {
    var t := StripRight(line);
    if |t| < 3 || t[|t| - 1] != ')' then NoRev
    else
      var rev := Last(Before(t, 1), 2);
      var u := Before(t, 3);
      var v := StripRight(u);
      if !AllHex(rev, true) || |v| == |u| || |v| < 4 || !IsKeyword(Last(v, 4)) then NoRev
      else
        var w := Before(v, 4);
        var x := StripRight(w);
        if |x| == |w| then NoRev else Rev(x, rev)
  }

  /** The text before the vendor and device numbers and their optional brackets. */
  datatype IdPart = NoId | Id(rest: string, vendorDevice: string)

  /** The text without the character c at its end, if it is there. */
  function WithoutLast(s: string, c: char): string {
    if |s| > 0 && s[|s| - 1] == c then Before(s, 1) else s
  }

  function MatchId(s: string): IdPart {
    var t := WithoutLast(s, ']');
    if |t| < 9 || !IsVendorDevice(Last(t, 9)) then NoId
    else Id(WithoutLast(Before(t, 9), '['), Last(t, 9))
  }

  /** The address and the numbers of the device from the text before the revision. */
  datatype NamePart = NoName | Name(pci: string, vendorDevice: string)

  function MatchName(s: string): NamePart {
    match MatchId(s)
    case NoId => NoName
    case Id(front, vendorDevice) =>
      var n := MatchPci(front, 0, true);
      if n == 0 || n == |front| || !IsPatternSpace(front[|front| - 1]) then NoName
      else Name(front[..n], vendorDevice)
  }

  function ParseHeader(line: string): Parsed {
    match MatchRev(line)
    case NoRev => NoHeader
    case Rev(rest, rev) =>
      match MatchName(rest)
      case NoName => NoHeader
      case Name(pci, vendorDevice) => Captured(pci, vendorDevice, rev)
  }

  // ---------- The matcher decides the grammar ----------

  lemma {:induction false} StripRightExact(a: string, w: string)
    requires AllPatternSpace(w)
    requires |a| > 0 ==> !IsPatternSpace(a[|a| - 1])
    ensures StripRight(a + w) == a
  {
    var n := |w| - 1;
    if n < 0 {
      assert a + w == a;
    } else {
      StripRightExact(a, w[..n]);
      assert (a + w)[..|a + w| - 1] == a + w[..n];
      assert (a + w)[|a + w| - 1] == w[n];
    }
  }

  lemma RevComplete(front: string, revGap: string, keyword: string, keywordGap: string, rev: string, tail: string)
    requires Gap(revGap) && IsKeyword(keyword) && Gap(keywordGap)
    requires |rev| == 2 && AllHex(rev, true) && AllPatternSpace(tail)
    requires |front| > 0 && !IsPatternSpace(front[|front| - 1])
    ensures MatchRev(front + revGap + keyword + keywordGap + rev + ")" + tail) == Rev(front, rev)
  {
    var w := front + revGap;
    var v := w + keyword;
    var u := v + keywordGap;
    var t := u + rev + ")";
    StripRightExact(t, tail);
    assert Before(t, 1) == u + rev;
    assert t[|t| - 1] == ')' && Last(Before(t, 1), 2) == rev && Before(t, 3) == u;
    assert "(rev"[3] == 'v' && Fold(keyword[0 + 3]) == "(rev"[3];
    StripRightExact(v, keywordGap);
    assert Last(v, 4) == keyword && Before(v, 4) == w;
    StripRightExact(front, revGap);
  }

  lemma WithoutLastExact(s: string, c: char, end: string)
    requires end == "" || end == [c]
    requires |s| > 0 && s[|s| - 1] != c
    ensures WithoutLast(s + end, c) == s
  {
    if end == "" {
      assert s + end == s;
    }
  }

  lemma IdComplete(front: string, open: string, vendorDevice: string, close: string)
    requires |front| > 0 && IsPatternSpace(front[|front| - 1])
    requires open == "" || open == "["
    requires close == "" || close == "]"
    requires IsVendorDevice(vendorDevice)
    ensures MatchId(front + open + vendorDevice + close) == Id(front, vendorDevice)
  {
    var u := front + open;
    var t := u + vendorDevice;
    assert t[|t| - 1] == vendorDevice[5..][3];
    WithoutLastExact(t, ']', close);
    assert Last(t, 9) == vendorDevice && Before(t, 9) == u;
    WithoutLastExact(front, '[', open);
  }

  lemma FrontParse(h: Header)
    requires WellFormed(h)
    ensures var front := Front(h);
      && MatchPci(front, 0, true) == |h.pci| < |front| && front[..|h.pci|] == h.pci
      && IsPatternSpace(front[|front| - 1])
  {
    var front := Front(h);
    assert front == h.pci + (h.description + h.gap);
    MatchPciComplete(front, 0, h.pci, true);
    assert front[|front| - 1] == h.gap[|h.gap| - 1];
  }

  lemma NamedParse(h: Header)
    requires WellFormed(h)
    ensures MatchName(Named(h)) == Name(h.pci, h.vendorDevice)
    ensures |Named(h)| > 0 && !IsPatternSpace(Named(h)[|Named(h)| - 1])
  {
    FrontParse(h);
    IdComplete(Front(h), h.open, h.vendorDevice, h.close);
    IdEndsNamed(Front(h) + h.open, h.vendorDevice, h.close);
  }

  lemma IdEndsNamed(front: string, vendorDevice: string, close: string)
    requires IsVendorDevice(vendorDevice) && (close == "" || close == "]")
    ensures var named := front + vendorDevice + close; |named| > 0 && !IsPatternSpace(named[|named| - 1])
  {
    var named := front + vendorDevice + close;
    assert vendorDevice[5..][3] == vendorDevice[8];
    if close == "" {
      assert named == front + vendorDevice;
    }
  }

  /** Every header that is written is read back, whatever its description says. */
  lemma PrintParse(h: Header)
    requires WellFormed(h)
    ensures ParseHeader(Print(h)) == Captures(h)
  {
    NamedParse(h);
    RevComplete(Named(h), h.revGap, h.keyword, h.keywordGap, h.rev, h.tail);
  }

  /** The pieces of a line on which the matcher succeeds. */
  lemma RevSound(line: string) returns (revGap: string, keyword: string, keywordGap: string, tail: string)
    requires MatchRev(line).Rev?
    ensures var m := MatchRev(line);
      && Gap(revGap) && IsKeyword(keyword) && Gap(keywordGap)
      && |m.rev| == 2 && AllHex(m.rev, true) && AllPatternSpace(tail)
      && line == m.rest + revGap + keyword + keywordGap + m.rev + ")" + tail && m.rest <= line
  {
    var t := StripRight(line);
    tail := line[|t|..];
    var u := Before(t, 3);
    var v := StripRight(u);
    keywordGap := u[|v|..];
    keyword := Last(v, 4);
    var w := Before(v, 4);
    var x := StripRight(w);
    revGap := w[|x|..];
    var rev := Last(Before(t, 1), 2);
    assert t == u + rev + ")";
    assert u == v + keywordGap;
    assert v == w + keyword;
    assert w == x + revGap;
  }

  lemma WithoutLastSound(s: string, c: char) returns (end: string)
    ensures (end == "" || end == [c]) && s == WithoutLast(s, c) + end && WithoutLast(s, c) <= s
  {
    end := s[|WithoutLast(s, c)|..];
  }

  lemma IdSound(s: string) returns (open: string, close: string)
    requires MatchId(s).Id?
    ensures var m := MatchId(s);
      && (open == "" || open == "[") && (close == "" || close == "]") && IsVendorDevice(m.vendorDevice)
      && s == m.rest + open + m.vendorDevice + close && m.rest <= s
  {
    close := WithoutLastSound(s, ']');
    var t := WithoutLast(s, ']');
    var u := Before(t, 9);
    open := WithoutLastSound(u, '[');
    assert t == u + Last(t, 9);
  }

  lemma FrontSound(front: string) returns (description: string, gap: string)
    requires Without(front, '\n')
    requires 0 < MatchPci(front, 0, true) < |front| && IsPatternSpace(front[|front| - 1])
    ensures front == front[..MatchPci(front, 0, true)] + description + gap
    ensures Without(description, '\n') && Gap(gap)
  {
    var n, last := MatchPci(front, 0, true), |front| - 1;
    description, gap := front[n..last], front[last..];
    assert front == front[..n] + front[n..last] + front[last..];
  }

  /** The name part of a line, without the parts that `rest` supplies. */
  lemma NameSound(s: string, rest: Header) returns (h: Header)
    requires MatchName(s).Name? && Without(s, '\n')
    ensures Named(h) == s && h.pci == MatchName(s).pci && h.vendorDevice == MatchName(s).vendorDevice
    ensures IsPci(h.pci, true) && Without(h.description, '\n') && Gap(h.gap)
    ensures (h.open == "" || h.open == "[") && (h.close == "" || h.close == "]") && IsVendorDevice(h.vendorDevice)
    ensures h.revGap == rest.revGap && h.keyword == rest.keyword && h.keywordGap == rest.keywordGap
    ensures h.rev == rest.rev && h.tail == rest.tail
  {
    var open, close := IdSound(s);
    var front := MatchId(s).rest;
    assert Without(front, '\n') by {
      assert forall i :: 0 <= i < |front| ==> front[i] == s[i];
    }
    var description, gap := FrontSound(front);
    h := rest.(pci := front[..MatchPci(front, 0, true)], description := description, gap := gap,
               open := open, vendorDevice := MatchId(s).vendorDevice, close := close);
    assert Front(h) == front;
  }

  lemma ParseSound(line: string) returns (h: Header)
    requires ParseHeader(line).Captured? && Without(line, '\n')
    ensures WellFormed(h) && Print(h) == line && Captures(h) == ParseHeader(line)
  {
    var revGap, keyword, keywordGap, tail := RevSound(line);
    var m := MatchRev(line);
    assert forall i :: 0 <= i < |m.rest| ==> m.rest[i] == line[i];
    h := NameSound(m.rest, Header("", "", "", "", "", "", revGap, keyword, keywordGap, m.rev, tail));
  }

  /** A line parses to given captures exactly when it is written from a header with those parts. */
  lemma ParseIffPrinted(line: string, p: Parsed)
    requires p.Captured? && Without(line, '\n')
    ensures ParseHeader(line) == p <==> exists h :: WellFormed(h) && Print(h) == line && Captures(h) == p
  {
    if ParseHeader(line) == p {
      var h := ParseSound(line);
    }
    forall h | WellFormed(h) && Print(h) == line && Captures(h) == p
      ensures ParseHeader(line) == p
    {
      PrintParse(h);
    }
  }

  // ---------- The characters of a header ----------

  predicate Spaces(s: string) {
    forall i :: 0 <= i < |s| ==> s[i] in {' ', '\t', '\n', '\U{c}', '\r'}
  }

  lemma SpacesIff(s: string)
    ensures AllPatternSpace(s) <==> Spaces(s)
  {
    forall i | 0 <= i < |s|
      ensures IsPatternSpace(s[i]) <==> s[i] in {' ', '\t', '\n', '\U{c}', '\r'}
    {
      SpaceIffListed(s[i]);
    }
  }

  predicate RevWord(s: string) {
    |s| == 4 && s[0] == '(' && s[1] in {'r', 'R'} && s[2] in {'e', 'E'} && s[3] in {'v', 'V'}
  }

  lemma KeywordIff(s: string)
    ensures IsKeyword(s) <==> RevWord(s)
  {
    if |s| == 4 {
      var p := "(rev";
      assert p[0] == '(' && p[1] == 'r' && p[2] == 'e' && p[3] == 'v';
      assert FoldsAt(s, 0, p) <==>
             Fold(s[0 + 0]) == p[0] && Fold(s[0 + 1]) == p[1] && Fold(s[0 + 2]) == p[2] && Fold(s[0 + 3]) == p[3];
    }
  }

  predicate IdChars(s: string) {
    && |s| == 9 && s[4] == ':'
    && HexDigit(s[0], true) && HexDigit(s[1], true) && HexDigit(s[2], true) && HexDigit(s[3], true)
    && HexDigit(s[5], true) && HexDigit(s[6], true) && HexDigit(s[7], true) && HexDigit(s[8], true)
  }

  lemma FourHexIff(s: string)
    requires |s| == 4
    ensures AllHex(s, true) <==>
            HexDigit(s[0], true) && HexDigit(s[1], true) && HexDigit(s[2], true) && HexDigit(s[3], true)
  {
    AllHexTwo(s, 0, true);
    AllHexTwo(s, 2, true);
    AllHexConcat(s[0..2], s[2..4], true);
    assert s == s[0..2] + s[2..4];
  }

  lemma VendorDeviceIff(s: string)
    ensures IsVendorDevice(s) <==> IdChars(s)
  {
    if |s| == 9 {
      FourHexIff(s[..4]);
      FourHexIff(s[5..]);
    }
  }

  /**
   The grammar of a header in its characters: an address, anything, white space, the two ids in optional
   brackets, white space, "(rev" in any case, white space, two hexadecimal digits, ")", and white space.
   */
  lemma GrammarIff(h: Header)
    ensures WellFormed(h) <==>
            && (ShortChars(h.pci, true) || FullChars(h.pci, true))
            && Without(h.description, '\n')
            && |h.gap| > 0 && Spaces(h.gap)
            && h.open in {"", "["} && IdChars(h.vendorDevice) && h.close in {"", "]"}
            && |h.revGap| > 0 && Spaces(h.revGap) && RevWord(h.keyword) && |h.keywordGap| > 0 && Spaces(h.keywordGap)
            && |h.rev| == 2 && HexDigit(h.rev[0], true) && HexDigit(h.rev[1], true) && Spaces(h.tail)
    ensures Print(h) == h.pci + h.description + h.gap + h.open + h.vendorDevice + h.close +
                        h.revGap + h.keyword + h.keywordGap + h.rev + ")" + h.tail
  {
    PciIffChars(h.pci, true);
    SpacesIff(h.gap);
    SpacesIff(h.revGap);
    SpacesIff(h.keywordGap);
    SpacesIff(h.tail);
    VendorDeviceIff(h.vendorDevice);
    KeywordIff(h.keyword);
    if |h.rev| == 2 {
      AllHexTwo(h.rev, 0, true);
      assert h.rev[0..2] == h.rev;
    }
  }
}
