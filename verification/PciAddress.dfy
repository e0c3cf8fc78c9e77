/** PCI addresses: hhhh:hh:hh.o, or hh:hh.o with the domain left out. */
module PciAddress {
  import opened Text

  /** A hexadecimal digit; the log pattern accepts lower case only, the lspci pattern both. */
  predicate Hex(c: char, anyCase: bool) {
    '0' <= c <= '9' || 'a' <= c <= 'f' || (anyCase && 'A' <= c <= 'F')
  }

  predicate AllHex(s: string, anyCase: bool) {
    forall i :: 0 <= i < |s| ==> Hex(s[i], anyCase)
  }

  predicate Short(s: string, anyCase: bool) {
    |s| == 7 && AllHex(s[..2], anyCase) && s[2] == ':' && AllHex(s[3..5], anyCase) && s[5] == '.' && '0' <= s[6] <= '7'
  }

  predicate Full(s: string, anyCase: bool) {
    |s| == 12 && AllHex(s[..4], anyCase) && s[4] == ':' && Short(s[5..], anyCase)
  }

  predicate IsPci(s: string, anyCase: bool) {
    Short(s, anyCase) || Full(s, anyCase)
  }

  /** The length of the address pattern's match at position i, 0 when it does not match there. */
  function MatchPci(s: string, i: nat, anyCase: bool): (n: nat)
    requires i <= |s|
    ensures n == 0 || (i + n <= |s| && IsPci(s[i..i + n], anyCase) && n == |s[i..i + n]|)
  {
    if i + 12 <= |s| && Full(s[i..i + 12], anyCase) then 12
    else if i + 7 <= |s| && Short(s[i..i + 7], anyCase) then 7
    else 0
  }

  /** An address that starts at position i is matched whole, whatever follows it. */
  lemma MatchPciComplete(s: string, i: nat, pci: string, anyCase: bool)
    requires IsPci(pci, anyCase)
    requires HasAt(s, i, pci)
    ensures MatchPci(s, i, anyCase) == |pci|
  {
    if |pci| == 7 && i + 12 <= |s| {
      assert s[i..i + 12][..4][2] == s[i..i + 7][2];
    }
  }

  /** Both readers of addresses prepend the default domain to a short address. */
  function Normalise(a: string): string {
    if |a| == 7 then "0000:" + a else a
  }

  /** Domain, bus, device and function of an address. */
  function Fields(a: string): (string, string, string, char)
    requires IsPci(a, true)
  {
    var t := a[|a| - 7..];
    (if |a| == 7 then "0000" else a[..4], t[..2], t[3..5], t[6])
  }

  /**
   Normalisation yields a full address, is idempotent, and identifies exactly the addresses that
   agree in domain (0000 when left out), bus, device and function.
   */
  lemma NormaliseIdentifies(a: string, b: string)
    requires IsPci(a, true) && IsPci(b, true)
    ensures Full(Normalise(a), true) && Normalise(Normalise(a)) == Normalise(a)
    ensures IsPci(a, false) ==> Full(Normalise(a), false)
    ensures Fields(Normalise(a)) == Fields(a)
    ensures Normalise(a) == Normalise(b) <==> Fields(a) == Fields(b)
  {
    NormaliseFull(a, true);
    NormaliseFull(b, true);
    if IsPci(a, false) {
      NormaliseFull(a, false);
    }
    if Fields(a) == Fields(b) {
      FullFromFields(Normalise(a));
      FullFromFields(Normalise(b));
    }
  }

  lemma NormaliseFull(a: string, anyCase: bool)
    requires IsPci(a, anyCase)
    ensures Full(Normalise(a), anyCase)
    ensures IsPci(a, true)
    ensures Fields(Normalise(a)) == Fields(a)
  {
    var n := Normalise(a);
    if |a| == 7 {
      assert n[..4] == "0000" && n[5..] == a;
    }
    assert n[|n| - 7..] == a[|a| - 7..];
  }

  /** A full address is rebuilt from its fields. */
  lemma FullFromFields(a: string)
    requires Full(a, true)
    ensures var f := Fields(a); a == f.0 + ":" + f.1 + ":" + f.2 + "." + [f.3]
  {
    assert a == a[..4] + [a[4]] + a[5..];
    var t := a[5..];
    assert t == t[..2] + [t[2]] + t[3..5] + [t[5]] + [t[6]];
  }

  // ---------- The characters of an address ----------

  predicate HexDigit(c: char, anyCase: bool) {
    || c in {'0', '1', '2', '3', '4', '5', '6', '7', '8', '9', 'a', 'b', 'c', 'd', 'e', 'f'}
    || (anyCase && c in {'A', 'B', 'C', 'D', 'E', 'F'})
  }

  lemma HexIff(c: char, anyCase: bool)
    ensures Hex(c, anyCase) <==> HexDigit(c, anyCase)
  {}

  predicate ShortChars(s: string, anyCase: bool) {
    && |s| == 7
    && HexDigit(s[0], anyCase) && HexDigit(s[1], anyCase) && s[2] == ':'
    && HexDigit(s[3], anyCase) && HexDigit(s[4], anyCase) && s[5] == '.'
    && s[6] in {'0', '1', '2', '3', '4', '5', '6', '7'}
  }

  predicate FullChars(s: string, anyCase: bool) {
    && |s| == 12
    && HexDigit(s[0], anyCase) && HexDigit(s[1], anyCase) && HexDigit(s[2], anyCase) && HexDigit(s[3], anyCase)
    && s[4] == ':' && ShortChars(s[5..], anyCase)
  }

  lemma AllHexTwo(s: string, i: nat, anyCase: bool)
    requires i + 2 <= |s|
    ensures AllHex(s[i..i + 2], anyCase) <==> HexDigit(s[i], anyCase) && HexDigit(s[i + 1], anyCase)
  {
    var t := s[i..i + 2];
    HexIff(s[i], anyCase);
    HexIff(s[i + 1], anyCase);
    assert t[0] == s[i] && t[1] == s[i + 1];
  }

  lemma AllHexConcat(s: string, t: string, anyCase: bool)
    ensures AllHex(s + t, anyCase) <==> AllHex(s, anyCase) && AllHex(t, anyCase)
  {
    assert forall i :: 0 <= i < |s| ==> (s + t)[i] == s[i];
    assert forall i :: 0 <= i < |t| ==> (s + t)[|s| + i] == t[i];
  }

  lemma ShortIffChars(s: string, anyCase: bool)
    ensures Short(s, anyCase) <==> ShortChars(s, anyCase)
  {
    if |s| == 7 {
      AllHexTwo(s, 0, anyCase);
      AllHexTwo(s, 3, anyCase);
      assert s[0..2] == s[..2];
    }
  }

  /** An address is hh:hh.o or hhhh:hh:hh.o, character by character. */
  lemma PciIffChars(s: string, anyCase: bool)
    ensures IsPci(s, anyCase) <==> ShortChars(s, anyCase) || FullChars(s, anyCase)
  {
    ShortIffChars(s, anyCase);
    if |s| == 12 {
      ShortIffChars(s[5..], anyCase);
      AllHexTwo(s, 0, anyCase);
      AllHexTwo(s, 2, anyCase);
      AllHexConcat(s[0..2], s[2..4], anyCase);
      assert s[..4] == s[0..2] + s[2..4];
    }
  }
}
