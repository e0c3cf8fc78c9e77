/** The body of an lspci stanza: error flags, power state, fatal errors and the kernel driver. */
module LspciDetails {
  import opened Options
  import opened Text

  datatype Flag = PERR | SERR | TAbort | MAbort

  datatype BitValue = BitValue(present: bool, enabled: bool)

  function NameOf(f: Flag): string {
    match f
    case PERR => "perr"
    case SERR => "serr"
    case TAbort => "tabort"
    case MAbort => "mabort"
  }

  predicate StatusLine(line: string) {
    HasAt(ToLower(TrimSpace(line)), 0, "status:")
  }

  predicate DevStaLine(line: string) {
    Contains(ToLower(line), "devsta:")
  }

  // ---------- Error tokens ----------

  /** The name of a flag followed by its sign. */
  predicate TokenAt(line: string, k: int, f: Flag, on: bool) {
    && FoldsAt(line, k, NameOf(f))
    && k + |NameOf(f)| < |line|
    && line[k + |NameOf(f)|] == (if on then '+' else '-')
  }

  datatype Token = NoToken | Token(flag: Flag, on: bool)

  function TokenHere(line: string, k: int): (t: Token)
    ensures t.Token? ==> TokenAt(line, k, t.flag, t.on)
    ensures forall f, on :: TokenAt(line, k, f, on) ==> t == Token(f, on)
  {
    TokenUnique(line, k);
    if TokenAt(line, k, PERR, true) then Token(PERR, true)
    else if TokenAt(line, k, PERR, false) then Token(PERR, false)
    else if TokenAt(line, k, SERR, true) then Token(SERR, true)
    else if TokenAt(line, k, SERR, false) then Token(SERR, false)
    else if TokenAt(line, k, TAbort, true) then Token(TAbort, true)
    else if TokenAt(line, k, TAbort, false) then Token(TAbort, false)
    else if TokenAt(line, k, MAbort, true) then Token(MAbort, true)
    else if TokenAt(line, k, MAbort, false) then Token(MAbort, false)
    else NoToken
  }

  lemma FirstLetter(line: string, k: int, f: Flag)
    requires FoldsAt(line, k, NameOf(f))
    ensures Fold(line[k]) == NameOf(f)[0]
  {
    assert Fold(line[k + 0]) == NameOf(f)[0];
  }

  lemma SecondLetter(line: string, k: int, f: Flag)
    requires FoldsAt(line, k, NameOf(f))
    ensures Fold(line[k + 1]) == NameOf(f)[1]
  {}

  lemma TokenUnique(line: string, k: int)
    ensures forall f, on, g, up :: TokenAt(line, k, f, on) && TokenAt(line, k, g, up) ==> f == g && on == up
  {
    forall f, on, g, up | TokenAt(line, k, f, on) && TokenAt(line, k, g, up)
      ensures f == g && on == up
    {
      FirstLetter(line, k, f);
      FirstLetter(line, k, g);
    }
  }

  /** No token starts inside another one or at its sign. */
  lemma TokensApart(line: string, k: int, f: Flag, on: bool, l: int, g: Flag, up: bool)
    requires TokenAt(line, k, f, on) && TokenAt(line, l, g, up)
    ensures !(k < l <= k + |NameOf(f)|)
  {
    if k < l < k + |NameOf(f)| {
      FirstLetter(line, l, g);
      assert Fold(line[k + (l - k)]) == NameOf(f)[l - k];
      if f == TAbort || f == MAbort {
        SecondLetter(line, l, g);
      }
    } else if l == k + |NameOf(f)| {
      FirstLetter(line, l, g);
    }
  }

  /** All matches of the token pattern, which may start at an angle bracket, from left to right. */
  function Tokens(line: string, i: nat): seq<Token>
    decreases |line| - i
  {
    if i >= |line| then []
    else
      var k := NameStart(line, i);
      match TokenHere(line, k)
      case Token(f, on) => [Token(f, on)] + Tokens(line, k + |NameOf(f)| + 1)
      case NoToken => Tokens(line, i + 1)
  }

  function NextStart(line: string, i: nat): (n: nat)
    requires i < |line|
    ensures n > i
  {
    var k := NameStart(line, i);
    var t := TokenHere(line, k);
    if t.Token? then k + |NameOf(t.flag)| + 1 else i + 1
  }

  lemma TokensUnfold(line: string, i: nat)
    requires i < |line|
    ensures var t := TokenHere(line, NameStart(line, i));
      Tokens(line, i) == (if t.Token? then [t] else []) + Tokens(line, NextStart(line, i))
  {}

  ghost predicate HasFrom(line: string, i: int, f: Flag, on: bool) {
    exists k :: i <= k && TokenAt(line, k, f, on)
  }

  ghost predicate HasToken(line: string, f: Flag, on: bool) {
    HasFrom(line, 0, f, on)
  }

  lemma SkipToken(line: string, k: nat, t: Token, f: Flag, on: bool)
    requires t.Token? && TokenAt(line, k, t.flag, t.on)
    ensures HasFrom(line, k, f, on) <==> Token(f, on) == t || HasFrom(line, k + |NameOf(t.flag)| + 1, f, on)
  {
    if HasFrom(line, k, f, on) {
      var l :| k <= l && TokenAt(line, l, f, on);
      TokensApart(line, k, t.flag, t.on, l, f, on);
      TokenUnique(line, k);
    }
  }

  lemma SkipOther(line: string, i: nat, f: Flag, on: bool)
    requires i < |line|
    requires line[i] == '<' || line[i] == '>' || TokenHere(line, i) == NoToken
    ensures HasFrom(line, i, f, on) <==> HasFrom(line, i + 1, f, on)
  {
    if TokenAt(line, i, f, on) {
      FirstLetter(line, i, f);
      assert false;
    }
  }

  /** Where the next match of the token pattern starts its name, seen from position i. */
  function NameStart(line: string, i: nat): nat
    requires i < |line|
  {
    if line[i] == '<' || line[i] == '>' then i + 1 else i
  }

  lemma TokensStep(line: string, i: nat, f: Flag, on: bool)
    requires i < |line|
    ensures HasFrom(line, i, f, on) <==>
            Token(f, on) == TokenHere(line, NameStart(line, i)) || HasFrom(line, NextStart(line, i), f, on)
  {
    var k := NameStart(line, i);
    var t := TokenHere(line, k);
    if k > i || t == NoToken {
      SkipOther(line, i, f, on);
    }
    if t.Token? {
      SkipToken(line, k, t, f, on);
    }
  }

  lemma {:induction false} TokensExact(line: string, i: nat, f: Flag, on: bool)
    ensures Token(f, on) in Tokens(line, i) <==> HasFrom(line, i, f, on)
    decreases |line| - i
  {
    if i < |line| {
      TokensStep(line, i, f, on);
      TokensUnfold(line, i);
      TokensExact(line, NextStart(line, i), f, on);
    }
  }

  /** Some status line has the flag with the given sign. */
  ghost predicate Reported(lines: seq<string>, f: Flag, on: bool) {
    exists l :: 0 <= l < |lines| && StatusLine(lines[l]) && HasToken(lines[l], f, on)
  }

  ghost predicate Seen(lines: seq<string>, f: Flag, on: bool) {
    |lines| > 0 &&
    (Seen(lines[..|lines| - 1], f, on) || (StatusLine(lines[|lines| - 1]) && HasToken(lines[|lines| - 1], f, on)))
  }

  // ---------- Power state, fatal error and driver ----------

  predicate Word(c: char) {
    '0' <= c <= '9' || 'A' <= c <= 'Z' || 'a' <= c <= 'z' || c == '_'
  }

  predicate Digit(c: char) {
    '0' <= c <= '9'
  }

  /** The assertion \b before position k. */
  predicate Boundary(line: string, k: nat)
    requires k <= |line|
  {
    (k > 0 && Word(line[k - 1])) != (k < |line| && Word(line[k]))
  }

  function SkipSpaces(line: string, k: nat): (j: nat)
    requires k <= |line|
    ensures k <= j <= |line|
    decreases |line| - k
  {
    if k < |line| && IsPatternSpace(line[k]) then SkipSpaces(line, k + 1) else k
  }

  function SkipDigits(line: string, k: nat): (j: nat)
    requires k <= |line|
    ensures k <= j <= |line|
    decreases |line| - k
  {
    if k < |line| && Digit(line[k]) then SkipDigits(line, k + 1) else k
  }

  function SkipNonSpaces(line: string, k: nat): (j: nat)
    requires k <= |line|
    ensures k <= j <= |line|
    decreases |line| - k
  {
    if k < |line| && !IsPatternSpace(line[k]) then SkipNonSpaces(line, k + 1) else k
  }

  /** The power state matched at position k, or "". */
  function PowerAt(line: string, k: nat): string
    requires k <= |line|
  {
    if !FoldsAt(line, k, "status:") || !Boundary(line, k) then ""
    else
      var d := SkipSpaces(line, k + 7);
      if d == |line| || Fold(line[d]) != 'd' then ""
      else
        var e := SkipDigits(line, d + 1);
        if e == d + 1 || !Boundary(line, e) then "" else line[d..e]
  }

  function PowerFrom(line: string, k: nat): string
    requires k <= |line|
    decreases |line| - k
  {
    if PowerAt(line, k) != "" || k == |line| then PowerAt(line, k) else PowerFrom(line, k + 1)
  }

  /** The power state of a line that is a status line and has one. */
  function Power(line: string): Option<string> {
    if StatusLine(line) && PowerFrom(line, 0) != "" then Some(PowerFrom(line, 0)) else None
  }

  /** The sign of the fatal error bit matched at position k. */
  function FatalAt(line: string, k: nat): Option<bool>
    requires k <= |line|
  {
    if FoldsAt(line, k, "fatalerr") && Boundary(line, k) && k + 8 < |line| && (line[k + 8] == '+' || line[k + 8] == '-')
    then Some(line[k + 8] == '+')
    else None
  }

  function FatalFrom(line: string, k: nat): Option<bool>
    requires k <= |line|
    decreases |line| - k
  {
    if FatalAt(line, k).Some? || k == |line| then FatalAt(line, k) else FatalFrom(line, k + 1)
  }

  function Fatal(line: string): Option<bool> {
    if DevStaLine(line) then FatalFrom(line, 0) else None
  }

  function Driver(line: string): Option<string> {
    var k := SkipSpaces(line, 0);
    if !FoldsAt(line, k, "kernel driver in use:") then None
    else
      var d := SkipSpaces(line, k + 21);
      var e := SkipNonSpaces(line, d);
      if d == e then None else Some(TrimSpace(line[d..e]))
  }

  /** `now` is the value found by f on the first line that has one, or else `before`. */
  ghost predicate FirstFound<T>(lines: seq<string>, f: string -> Option<T>, before: T, now: T) {
    || (now == before && forall l :: 0 <= l < |lines| ==> f(lines[l]) == None)
    || exists l :: FindsAt(lines, f, l, now) && forall m :: 0 <= m < l ==> f(lines[m]) == None
  }

  /** `now` is the value found by f on the last line that has one, or else `before`. */
  ghost predicate LastFound<T>(lines: seq<string>, f: string -> Option<T>, before: T, now: T) {
    || (now == before && forall l :: 0 <= l < |lines| ==> f(lines[l]) == None)
    || exists l :: FindsAt(lines, f, l, now) && forall m :: l < m < |lines| ==> f(lines[m]) == None
  }

  ghost predicate FindsAt<T>(lines: seq<string>, f: string -> Option<T>, l: int, now: T) {
    0 <= l < |lines| && f(lines[l]) == Some(now)
  }

  ghost function LastValue<T>(lines: seq<string>, f: string -> Option<T>, before: T): T {
    if |lines| == 0 then before
    else
      var n := |lines| - 1;
      if f(lines[n]).Some? then f(lines[n]).value else LastValue(lines[..n], f, before)
  }

  /** The first value that is not empty, or "". */
  ghost function FirstValue(lines: seq<string>, f: string -> Option<string>): string {
    if |lines| == 0 then ""
    else
      var n := |lines| - 1;
      var earlier := FirstValue(lines[..n], f);
      if earlier == "" && f(lines[n]).Some? then f(lines[n]).value else earlier
  }

  lemma {:induction false} LastValueFound<T>(lines: seq<string>, f: string -> Option<T>, before: T)
    ensures LastFound(lines, f, before, LastValue(lines, f, before))
  {
    if |lines| > 0 {
      var n := |lines| - 1;
      LastValueFound(lines[..n], f, before);
      var now := LastValue(lines[..n], f, before);
      if f(lines[n]).Some? {
        assert FindsAt(lines, f, n, f(lines[n]).value);
      } else if l :| FindsAt(lines[..n], f, l, now) && forall m :: l < m < n ==> f(lines[..n][m]) == None {
        assert FindsAt(lines, f, l, now);
        assert forall m :: l < m < n ==> f(lines[m]) == f(lines[..n][m]);
      }
    }
  }

  lemma {:induction false} FirstValueFound(lines: seq<string>, f: string -> Option<string>)
    requires forall x :: f(x) != Some("")
    ensures FirstFound(lines, f, "", FirstValue(lines, f))
  {
    if |lines| > 0 {
      var n := |lines| - 1;
      FirstValueFound(lines[..n], f);
      var now := FirstValue(lines[..n], f);
      if l :| FindsAt(lines[..n], f, l, now) && forall m :: 0 <= m < l ==> f(lines[..n][m]) == None {
        assert FindsAt(lines, f, l, now);
        assert forall m :: 0 <= m < l ==> f(lines[m]) == f(lines[..n][m]);
      } else if f(lines[n]).Some? {
        assert FindsAt(lines, f, n, f(lines[n]).value);
        assert forall m :: 0 <= m < n ==> f(lines[m]) == f(lines[..n][m]);
      }
    }
  }

  // ---------- The record filled from a stanza ----------

  class DeviceInfo {
    var pciAddress: string
    var vendorDevice: string
    var revision: string
    var perr: BitValue
    var serr: BitValue
    var tAbort: BitValue
    var mAbort: BitValue
    var dState: string
    var fatal: bool
    var driver: string

    constructor ()
      ensures IsZero()
    {
      pciAddress, vendorDevice, revision := "", "", "";
      perr, serr := BitValue(false, false), BitValue(false, false);
      tAbort, mAbort := BitValue(false, false), BitValue(false, false);
      dState, fatal, driver := "", false, "";
    }

    function Bit(f: Flag): BitValue
      reads this`perr, this`serr, this`tAbort, this`mAbort
    {
      match f
      case PERR => perr
      case SERR => serr
      case TAbort => tAbort
      case MAbort => mAbort
    }

    predicate IsZero()
      reads this
    {
      && pciAddress == "" && vendorDevice == "" && revision == "" && dState == "" && driver == ""
      && !fatal && forall f: Flag :: Bit(f) == BitValue(false, false)
    }

    method Report(f: Flag, sign: bool)
      modifies this`perr, this`serr, this`tAbort, this`mAbort
      ensures forall g :: Bit(g) == if g == f then BitValue(true, old(Bit(f).enabled) || sign) else old(Bit(g))
    {
      match f {
        case PERR => perr := BitValue(true, perr.enabled || sign);
        case SERR => serr := BitValue(true, serr.enabled || sign);
        case TAbort => tAbort := BitValue(true, tAbort.enabled || sign);
        case MAbort => mAbort := BitValue(true, mAbort.enabled || sign);
      }
    }

    /** The error tokens of one status line. */
    method ReportTokens(line: string)
      modifies this`perr, this`serr, this`tAbort, this`mAbort
      ensures forall f :: Bit(f).present == (old(Bit(f).present) || HasToken(line, f, true) || HasToken(line, f, false))
      ensures forall f :: Bit(f).enabled == (old(Bit(f).enabled) || HasToken(line, f, true))
    {
      var tokens := Tokens(line, 0);
      for t := 0 to |tokens|
        invariant forall f :: Bit(f).present ==
                    (old(Bit(f).present) || Token(f, true) in tokens[..t] || Token(f, false) in tokens[..t])
        invariant forall f :: Bit(f).enabled == (old(Bit(f).enabled) || Token(f, true) in tokens[..t])
      {
        assert tokens[..t + 1] == tokens[..t] + [tokens[t]];
        match tokens[t] {
          case Token(f, on) => Report(f, on);
          case NoToken =>
        }
      }
      assert tokens[..|tokens|] == tokens;
      forall f, on
        ensures Token(f, on) in tokens <==> HasToken(line, f, on)
      {
        TokensExact(line, 0, f, on);
      }
    }

    method ParseStatus(line: string)
      modifies this`perr, this`serr, this`tAbort, this`mAbort, this`dState
      ensures forall f :: Bit(f).present ==
                (old(Bit(f).present) || (StatusLine(line) && (HasToken(line, f, true) || HasToken(line, f, false))))
      ensures forall f :: Bit(f).enabled == (old(Bit(f).enabled) || (StatusLine(line) && HasToken(line, f, true)))
      ensures dState == if old(dState) == "" && Power(line).Some? then Power(line).value else old(dState)
    {
      if StatusLine(line) {
        ReportTokens(line);
        if dState == "" {
          dState := PowerFrom(line, 0);
        }
      }
    }

    method ParseFatal(line: string)
      modifies this`fatal
      ensures fatal == if Fatal(line).Some? then Fatal(line).value else old(fatal)
    {
      if DevStaLine(line) {
        match FatalFrom(line, 0) {
          case Some(plus) => fatal := plus;
          case None =>
        }
      }
    }

    method ParseDriver(line: string)
      modifies this`driver
      ensures driver == if Driver(line).Some? then Driver(line).value else old(driver)
    {
      match Driver(line) {
        case Some(name) => driver := name;
        case None =>
      }
    }

    /** One line of the body. */
    method ParseLine(line: string)
      modifies this
      ensures pciAddress == old(pciAddress) && vendorDevice == old(vendorDevice) && revision == old(revision)
      ensures forall f :: Bit(f).present ==
                (old(Bit(f).present) || (StatusLine(line) && (HasToken(line, f, true) || HasToken(line, f, false))))
      ensures forall f :: Bit(f).enabled == (old(Bit(f).enabled) || (StatusLine(line) && HasToken(line, f, true)))
      ensures dState == if old(dState) == "" && Power(line).Some? then Power(line).value else old(dState)
      ensures fatal == if Fatal(line).Some? then Fatal(line).value else old(fatal)
      ensures driver == if Driver(line).Some? then Driver(line).value else old(driver)
    {
      ParseStatus(line);
      ParseFatal(line);
      ParseDriver(line);
    }

    /**
     The body of a stanza. Each error flag is the disjunction over all its tokens on status lines, the
     power state is the first match, and the fatal flag and the driver are the last match.
     */
    method ParseDetails(stanza: string)
      modifies this
      ensures pciAddress == old(pciAddress) && vendorDevice == old(vendorDevice) && revision == old(revision)
      ensures var lines := ScannerLines(stanza); forall f ::
        && Bit(f).present == (old(Bit(f).present) || Reported(lines, f, true) || Reported(lines, f, false))
        && Bit(f).enabled == (old(Bit(f).enabled) || Reported(lines, f, true))
      ensures if old(dState) != "" then dState == old(dState) else FirstFound(ScannerLines(stanza), Power, "", dState)
      ensures LastFound(ScannerLines(stanza), Fatal, old(fatal), fatal)
      ensures LastFound(ScannerLines(stanza), Driver, old(driver), driver)
    {
      var lines := ScannerLines(stanza);
      ParseLines(lines);
      SeenIsReported(lines);
      FirstValueFound(lines, Power);
      LastValueFound(lines, Fatal, old(fatal));
      LastValueFound(lines, Driver, old(driver));
    }

    method ParseLines(lines: seq<string>)
      modifies this
      ensures pciAddress == old(pciAddress) && vendorDevice == old(vendorDevice) && revision == old(revision)
      ensures forall f :: Bit(f).present == (old(Bit(f).present) || Seen(lines, f, true) || Seen(lines, f, false))
      ensures forall f :: Bit(f).enabled == (old(Bit(f).enabled) || Seen(lines, f, true))
      ensures dState == if old(dState) != "" then old(dState) else FirstValue(lines, Power)
      ensures fatal == LastValue(lines, Fatal, old(fatal))
      ensures driver == LastValue(lines, Driver, old(driver))
    {
      for i := 0 to |lines|
        invariant pciAddress == old(pciAddress) && vendorDevice == old(vendorDevice) && revision == old(revision)
        invariant forall f :: Bit(f).present ==
                    (old(Bit(f).present) || Seen(lines[..i], f, true) || Seen(lines[..i], f, false))
        invariant forall f :: Bit(f).enabled == (old(Bit(f).enabled) || Seen(lines[..i], f, true))
        invariant dState == if old(dState) != "" then old(dState) else FirstValue(lines[..i], Power)
        invariant fatal == LastValue(lines[..i], Fatal, old(fatal))
        invariant driver == LastValue(lines[..i], Driver, old(driver))
      {
        assert lines[..i + 1][..i] == lines[..i];
        ParseLine(lines[i]);
      }
      assert lines[..|lines|] == lines;
    }
  }

  lemma {:induction false} SeenIsReported(lines: seq<string>)
    ensures forall f, on :: Seen(lines, f, on) <==> Reported(lines, f, on)
  {
    if |lines| > 0 {
      var n := |lines| - 1;
      SeenIsReported(lines[..n]);
      assert lines == lines[..n] + [lines[n]];
      ReportedAppend(lines[..n], lines[n]);
    }
  }

  lemma ReportedAppend(lines: seq<string>, line: string)
    ensures forall f, on ::
      Reported(lines + [line], f, on) <==> Reported(lines, f, on) || (StatusLine(line) && HasToken(line, f, on))
  {
    var all := lines + [line];
    forall f, on
      ensures Reported(all, f, on) <==> Reported(lines, f, on) || (StatusLine(line) && HasToken(line, f, on))
    {
      if Reported(lines, f, on) {
        var l :| 0 <= l < |lines| && StatusLine(lines[l]) && HasToken(lines[l], f, on);
        assert all[l] == lines[l];
      }
      assert all[|lines|] == line;
    }
  }

  // ---------- As lspci writes it ----------

  lemma WrittenToken(x: string, word: string, sign: char, y: string, f: Flag)
    requires FoldsAt(word, 0, NameOf(f)) && |word| == |NameOf(f)| && (sign == '+' || sign == '-')
    ensures HasToken(x + word + [sign] + y, f, sign == '+')
  {
    var line := x + word + [sign] + y;
    forall j | 0 <= j < |NameOf(f)|
      ensures Fold(line[|x| + j]) == NameOf(f)[j]
    {
      assert line[|x| + j] == word[0 + j];
    }
    assert TokenAt(line, |x|, f, sign == '+');
  }

  /** The error flags of a status line, with what may stand around them. */
  lemma WrittenTokens(x: string, sign: char, y: string)
    requires sign == '+' || sign == '-'
    ensures HasToken(x + "PERR" + [sign] + y, PERR, sign == '+')
    ensures HasToken(x + "SERR" + [sign] + y, SERR, sign == '+')
    ensures HasToken(x + "TAbort" + [sign] + y, TAbort, sign == '+')
    ensures HasToken(x + "MAbort" + [sign] + y, MAbort, sign == '+')
  {
    WrittenToken(x, "PERR", sign, y, PERR);
    WrittenToken(x, "SERR", sign, y, SERR);
    WrittenToken(x, "TAbort", sign, y, TAbort);
    WrittenToken(x, "MAbort", sign, y, MAbort);
  }

  /** The power state, the fatal flag and the driver, each on a line of its own. */
  lemma WrittenPower(line: string, digit: char)
    requires Digit(digit) && line == "Status: D" + [digit]
    ensures PowerFrom(line, 0) == "D" + [digit]
  {
    StatusFolds(line);
    assert SkipSpaces(line, 8) == 8 && SkipSpaces(line, 7) == 8;
    assert SkipDigits(line, 10) == 10 && SkipDigits(line, 9) == 10;
    assert line[8..10] == "D" + [digit];
  }

  lemma StatusFolds(line: string)
    requires "Status:" <= line
    ensures FoldsAt(line, 0, "status:")
  {
    var p := "status:";
    forall j | 0 <= j < |p|
      ensures Fold(line[0 + j]) == p[j]
    {
      assert line[j] == "Status:"[j];
    }
  }

  lemma WrittenFatal()
    ensures FatalFrom("FatalErr+", 0) == Some(true) && FatalFrom("FatalErr-", 0) == Some(false)
  {}

  /** A status line begins with its word after white space; a device status line has its word anywhere. */
  lemma WrittenLines(w: string, x: string, y: string)
    requires IsWhite(w) && TrimSpace("Status:" + y) == "Status:" + y
    ensures StatusLine(w + "Status:" + y)
    ensures DevStaLine(x + "DevSta:" + y)
  {
    var line := "Status:" + y;
    TrimPadded(w, line, "");
    assert w + line + "" == w + "Status:" + y;
    LowerAt("", "Status:", y);
    assert "" + "Status:" + y == line;
    LowerAt(x, "DevSta:", y);
    assert ToLower("Status:") == "status:" && ToLower("DevSta:") == "devsta:";
  }

  lemma LowerAt(x: string, word: string, y: string)
    ensures HasAt(ToLower(x + word + y), |x|, ToLower(word))
  {
    var low := ToLower(x + word + y);
    assert low[|x|..|x| + |word|] == ToLower(word);
  }
}
