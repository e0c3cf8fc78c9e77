/** The log scanner and the lspci parser give one device one key. */
module AddressAgreement {
  import opened Text
  import opened PciAddress
  import opened RasLog
  import opened LspciHeader
  import opened Lspci

  /** The log pattern at the leftmost position where it matches, followed by the address a. */
  ghost predicate NamesDevice(line: string, k: nat, a: string) {
    && HasAt(line, k, SEN + a)
    && forall j: nat :: j < k ==> SenAt(line, j) == ""
  }

  lemma SenAtAddress(line: string, k: nat, a: string)
    requires IsPci(a, false) && HasAt(line, k, SEN + a)
    ensures SenAt(line, k) == a
  {
    var m := k + |SEN|;
    var t := line[k..k + |SEN + a|];
    assert t == SEN + a;
    assert line[k..m] == t[..|SEN|] == SEN;
    assert line[m..m + |a|] == t[|SEN|..] == a;
    MatchPciComplete(line, m, a, false);
  }

  /** A log line that names a lower-case address gives the key under which lspci reports that address. */
  lemma SameKey(line: string, k: nat, h: Header)
    requires WellFormed(h) && IsPci(h.pci, false)
    requires NamesDevice(line, k, h.pci)
    ensures ExtractSen(line) == Normalise(h.pci) && |ExtractSen(line)| == 12
    ensures forall d :: d in HeadDevice(Print(h)) ==> d.addr == ExtractSen(line)
  {
    SenAtAddress(line, k, h.pci);
    ExtractsLeftmost(line, 0, k);
    NormaliseFull(h.pci, false);
    PrintParse(h);
  }

  lemma {:induction false} SenIsLowerCase(line: string, i: nat)
    requires i <= |line| && SenFrom(line, i) != ""
    ensures Full(SenFrom(line, i), false)
    decreases |line| - i
  {
    if SenAt(line, i) != "" {
      NormaliseFull(SenAt(line, i), false);
    } else {
      SenIsLowerCase(line, i + 1);
    }
  }

  lemma NormalisedCase(a: string)
    requires IsPci(a, true) && Full(Normalise(a), false)
    ensures IsPci(a, false)
  {
    if |a| == 7 {
      assert Normalise(a)[5..] == a;
    }
  }

  /** Some log line can meet an address that lspci prints exactly when lspci prints it in lower case. */
  lemma MeetsIffLowerCase(a: string)
    requires IsPci(a, true)
    ensures (exists line :: ExtractSen(line) == Normalise(a)) <==> IsPci(a, false)
  {
    if IsPci(a, false) {
      var line := SEN + a;
      assert line[0..0 + |SEN + a|] == SEN + a;
      SenAtAddress(line, 0, a);
      ExtractsLeftmost(line, 0, 0);
      assert ExtractSen(line) == Normalise(a);
    }
    forall line | ExtractSen(line) == Normalise(a)
      ensures IsPci(a, false)
    {
      SenIsLowerCase(line, 0);
      NormalisedCase(a);
    }
  }
}
