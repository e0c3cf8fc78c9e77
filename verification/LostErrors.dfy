/** Errors that are lost or forgotten, each with answers of a node that lead to it. */
module LostErrors {
  import opened Options
  import opened Devices
  import opened Text
  import opened PciAddress
  import opened LspciHeader
  import opened Merging
  import opened HealthCheck
  import opened Reporters
  import opened Collecting
  import opened Verdicts
  import Lspci
  import Slots = Cardmgmt

  // ---------- A node with one card ----------

  function CardHeader(a: string, rev: string): Header {
    Header(a, " Spyre", " ", "[", Lspci.PF_ID, "]", " ", "(rev", " ", rev, "")
  }

  /** What lspci prints for one card. */
  function CardText(a: string, rev: string): string {
    Lspci.PrintAll([Lspci.Stanza(Print(CardHeader(a, rev)), [], [])])
  }

  lemma CardHeaderFits(a: string, rev: string)
    requires Full(a, true) && rev in {"02", "ff"}
    ensures WellFormed(CardHeader(a, rev)) && Lspci.Wanted(CardHeader(a, rev))
  {
    assert Lspci.PF_ID[..4] == "1014" && Lspci.PF_ID[5..] == "06a7";
    assert ToLower(Lspci.PF_ID) == Lspci.PF_ID;
  }

  lemma AddressLine(a: string)
    requires Full(a, true)
    ensures Without(a, '\n')
  {
    FullFromFields(a);
    var f := Fields(a);
    assert Without(f.0, '\n') && Without(f.1, '\n') && Without(f.2, '\n');
  }

  lemma WithoutConcat(x: string, y: string, c: char)
    requires Without(x, c) && Without(y, c)
    ensures Without(x + y, c)
  {}

  lemma CardLine(a: string, rev: string)
    requires Full(a, true) && rev in {"02", "ff"}
    ensures Without(Print(CardHeader(a, rev)), '\n')
  {
    var h := CardHeader(a, rev);
    AddressLine(a);
    WithoutConcat(h.pci, h.description, '\n');
    WithoutConcat(h.pci + h.description, h.gap, '\n');
    WithoutConcat(Front(h), h.open, '\n');
    WithoutConcat(Front(h) + h.open, h.vendorDevice, '\n');
    WithoutConcat(Front(h) + h.open + h.vendorDevice, h.close, '\n');
    WithoutEnd(Named(h), rev);
  }

  lemma WithoutEnd(named: string, rev: string)
    requires Without(named, '\n') && rev in {"02", "ff"}
    ensures Without(named + " " + "(rev" + " " + rev + ")" + "", '\n')
  {
    var end := " " + "(rev" + " " + rev + ")" + "";
    assert named + " " + "(rev" + " " + rev + ")" + "" == named + end;
    WithoutConcat(named, end, '\n');
  }

  lemma CardReported(h: Header, a: string, rev: string)
    requires |a| == 12 && rev in {"02", "ff"} && h.pci == a && h.vendorDevice == "1014:06a7" && h.rev == rev
    ensures Lspci.Expected([h]) == [Device(a, PF, if rev == "ff" then InError else Online, "", 0)]
  {
    assert Lspci.Wanted(h);
    assert "1014:06a7" != "1014:06a8" && "1014:06a7" != "1014:06A8";
    assert Lspci.Expected([h][1..]) == [];
  }

  lemma CardTextParses(a: string, rev: string)
    requires Full(a, true) && rev in {"02", "ff"}
    ensures Lspci.DevicesOf(CardText(a, rev)) == [Device(a, PF, if rev == "ff" then InError else Online, "", 0)]
  {
    var h := CardHeader(a, rev);
    CardHeaderFits(a, rev);
    CardLine(a, rev);
    Lspci.HeaderBeginsStanza(h);
    Lspci.RoundTrip([h], [Lspci.Stanza(Print(h), [], [])]);
    CardReported(h, a, rev);
  }

  lemma CardTextLiteral(a: string)
    ensures CardText(a, "02") == a + " Spyre [1014:06a7] (rev 02)\n"
    ensures CardText(a, "ff") == a + " Spyre [1014:06a7] (rev ff)\n"
  {
    PrintedCard(a, "02");
    PrintedCard(a, "ff");
  }

  lemma PrintedCard(a: string, rev: string)
    ensures CardText(a, rev) == a + " Spyre [1014:06a7] (rev " + rev + ")\n"
  {
    var line := Print(CardHeader(a, rev));
    PrintedLine(line);
    PrintedHeader(a, rev);
    assert a + " Spyre [1014:06a7] (rev " + rev + ")" + "\n" == a + " Spyre [1014:06a7] (rev " + rev + ")\n";
  }

  lemma PrintedHeader(a: string, rev: string)
    ensures Print(CardHeader(a, rev)) == a + " Spyre [1014:06a7] (rev " + rev + ")"
  {
    var front := " Spyre" + " " + "[" + "1014:06a7" + "]" + " " + "(rev" + " ";
    assert front == " Spyre [1014:06a7] (rev ";
    assert Print(CardHeader(a, rev)) == a + front + rev + ")";
  }

  lemma PrintedLine(line: string)
    ensures Lspci.PrintAll([Lspci.Stanza(line, [], [])]) == line + "\n"
  {
    var s := Lspci.Stanza(line, [], []);
    assert Lspci.StanzaLines([s]) == [line] + [] + [] + Lspci.StanzaLines([s][1..]) == [line];
    assert [line] + [""] == [line, ""] && [line, ""][1..] == [""];
    assert Join([""], '\n') == "" && Join([line, ""], '\n') == line + ['\n'] + "";
  }

  /** What lspci and the sidecar say about the card at a agrees. */
  function CardNode(a: string, healthy: bool): Node {
    Node(Some(CardText(a, if healthy then "02" else "ff")), true,
         i => Slots.Response(None, if healthy then "healthy" else "failed"), [])
  }

  function EmptyNode(): Node {
    Node(Some(""), true, i => Slots.Response(None, "healthy"), [])
  }

  function StateOf(healthy: bool): Health {
    if healthy then Online else InError
  }

  lemma CardFound(a: string, healthy: bool)
    requires Full(a, true)
    ensures Found(CardNode(a, healthy)) == [Device(a, PF, StateOf(healthy), "", 0)]
  {
    CardTextParses(a, if healthy then "02" else "ff");
  }

  lemma NothingFound()
    ensures Found(EmptyNode()) == []
  {
    assert Lspci.PrintAll([]) == "" by {
      assert Lspci.StanzaLines([]) + [""] == [""];
    }
    Lspci.RoundTrip([], []);
  }

  lemma CardCollects(r: Reporter, a: string, healthy: bool)
    requires Full(a, true) && (r == Lspci || r == Cardmgmt)
    ensures Collects(r, {}, CardNode(a, healthy), Ok([Entry(r, a, StateOf(healthy))]))
  {
    CardFound(a, healthy);
    OneDevice(r, CardNode(a, healthy), a, healthy);
  }

  lemma FirstAnswered(reply: nat -> Slots.Reply)
    requires Slots.Answers(reply(0))
    ensures Slots.Answered([0], reply, 1)
  {}

  lemma OneAnswer(node: Node, d: Device, picks: seq<nat>)
    requires Found(node) == [d] && d.kind == PF && d.source == "" && d.priority == 0
    requires Slots.Answers(node.slotReply(0)) && Slots.Reported(node.slotReply(0)) == d.state
    requires picks == [0]
    ensures Picked(node, picks, [Stamp(d, "cardmgmt", PRIORITY_CARDMGMT)])
  {
    FirstAnswered(node.slotReply);
  }

  lemma OneDevice(r: Reporter, node: Node, a: string, healthy: bool)
    requires r == Lspci || r == Cardmgmt
    requires node.lspciOutput.Some? && Found(node) == [Device(a, PF, StateOf(healthy), "", 0)]
    requires r == Cardmgmt ==>
               node.sidecarConnected &&
               node.slotReply(0) == Slots.Response(None, if healthy then "healthy" else "failed")
    ensures Collects(r, {}, node, Ok([Entry(r, a, StateOf(healthy))]))
  {
    if r == Lspci {
      assert Stamped(Found(node), Lspci) == [Entry(r, a, StateOf(healthy))];
    } else {
      OneAnswer(node, Device(a, PF, StateOf(healthy), "", 0), [0]);
    }
  }

  lemma NothingCollected(r: Reporter)
    requires r == Lspci || r == Cardmgmt
    ensures Collects(r, {}, EmptyNode(), Ok([]))
  {
    NothingFound();
    assert Slots.Answered([], EmptyNode().slotReply, 0);
    assert Picked(EmptyNode(), [], []);
  }

  lemma NoRasErrors(node: Node)
    ensures Collects(Ras, {}, node, Ok([]))
  {
    assert Addrs([]) == {};
  }

  // ---------- Errors lost in the merge ----------

  lemma HardwareOnly(names: string)
    ensures var rs := Enabled(names, false); forall k :: 0 <= k < |rs| - 1 ==> rs[k] == Lspci || rs[k] == Cardmgmt
    ensures RasLast(Enabled(names, false))
  {}

  /** The card is healthy while reporter i collects, in error while reporter j does, and absent otherwise. */
  function Flickering(i: nat, j: nat, a: string): nat -> Node {
    k => if k == i then CardNode(a, true) else if k == j then CardNode(a, false) else EmptyNode()
  }

  lemma OneOfDisagreement(rs: seq<Reporter>, i: nat, j: nat, a: string, k: nat)
    requires Full(a, true) && i < j < |rs| - 1 && k < |rs| && rs[|rs| - 1] == Ras
    requires k < |rs| - 1 ==> rs[k] == Lspci || rs[k] == Cardmgmt
    ensures Collects(rs[k], {}, Flickering(i, j, a)(k), Disagreement(rs, i, j, a)[k])
  {
    if k == |rs| - 1 {
      NoRasErrors(EmptyNode());
    } else if k == i || k == j {
      CardCollects(rs[k], a, k == i);
    } else {
      NothingCollected(rs[k]);
    }
  }

  lemma DisagreementHappens(names: string, i: nat, j: nat, a: string)
    requires Full(a, true) && i < j < |Enabled(names, false)| - 1
    ensures CollectedFrom(Enabled(names, false), {}, Flickering(i, j, a), Disagreement(Enabled(names, false), i, j, a))
  {
    var rs := Enabled(names, false);
    HardwareOnly(names);
    forall k: nat | k < |rs|
      ensures Collects(rs[k], {}, Flickering(i, j, a)(k), Disagreement(rs, i, j, a)[k])
    {
      OneOfDisagreement(rs, i, j, a, k);
    }
  }

  /** lspci never prints an address twice. */
  ghost predicate EachOnce(nodes: nat -> Node) {
    forall k: nat :: Distinct(Found(nodes(k)))
  }

  lemma FlickeringOnce(i: nat, j: nat, a: string)
    requires Full(a, true)
    ensures EachOnce(Flickering(i, j, a))
  {
    CardFound(a, true);
    CardFound(a, false);
    NothingFound();
  }

  lemma DistinctCollected(names: string, recorded: set<string>, nodes: nat -> Node, collected: seq<Collected>)
    requires CollectedFrom(Enabled(names, false), recorded, nodes, collected)
    requires EachOnce(nodes)
    ensures DistinctReports(collected)
  {
    var rs := Enabled(names, false);
    HardwareOnly(names);
    forall k: nat | k < |rs| && collected[k].Ok?
      ensures Distinct(collected[k].states)
    {
      assert Collects(rs[k], recorded, nodes(k), collected[k]);
      if rs[k] != Ras {
        ReportsDistinct(nodes(k), collected[k]);
      }
    }
  }

  /**
   On nodes where lspci prints each address once, the enabled hardware reporters never lose an error of
   the card at a, whatever the node answers, exactly when they are in strictly ascending priority.
   */
  lemma NoErrorLostOnNodesIff(names: string, a: string)
    requires Full(a, true)
    ensures AscendingReporters(Enabled(names, false)) <==>
            forall recorded, nodes: nat -> Node, collected ::
              EachOnce(nodes) && CollectedFrom(Enabled(names, false), recorded, nodes, collected) ==>
                KeepsError(Entries(collected), a)
  {
    var rs := Enabled(names, false);
    HardwareOnly(names);
    if AscendingReporters(rs) {
      forall recorded, nodes: nat -> Node, collected | EachOnce(nodes) && CollectedFrom(rs, recorded, nodes, collected)
        ensures KeepsError(Entries(collected), a)
      {
        CollectedFromBy(rs, recorded, nodes, collected);
        DistinctCollected(names, recorded, nodes, collected);
        AscendingKeepsError(rs, recorded, collected, a);
      }
    } else {
      var i, j :| 0 <= i < j < |rs| && PriorityOf(rs[i]) >= PriorityOf(rs[j]);
      DisagreementHappens(names, i, j, a);
      FlickeringOnce(i, j, a);
      DisagreementLosesError(rs, i, j, a);
    }
  }

  // ---------- Errors forgotten by the next update ----------

  /** All hardware reporters list just the card at a, in the same state. */
  function Unanimous(rs: seq<Reporter>, a: string, state: Health): seq<Collected> {
    seq(|rs|, k requires 0 <= k < |rs| => if rs[k] == Ras then Ok([]) else Ok([Entry(rs[k], a, state)]))
  }

  lemma UnanimousHappens(names: string, a: string, healthy: bool)
    requires Full(a, true)
    ensures CollectedFrom(Enabled(names, false), {}, k => CardNode(a, healthy),
                          Unanimous(Enabled(names, false), a, StateOf(healthy)))
  {
    var rs := Enabled(names, false);
    HardwareOnly(names);
    forall k: nat | k < |rs|
      ensures Collects(rs[k], {}, CardNode(a, healthy), Unanimous(rs, a, StateOf(healthy))[k])
    {
      if rs[k] == Ras {
        NoRasErrors(CardNode(a, healthy));
      } else {
        CardCollects(rs[k], a, healthy);
      }
    }
  }

  /** The card is published in the state that all reporters agree on. */
  lemma UnanimousShown(rs: seq<Reporter>, a: string, state: Health, accessible: string -> bool, published: seq<Device>)
    requires RasLast(rs) && accessible(a)
    requires Lists(published, CheckedMap(Best(Entries(Unanimous(rs, a, state))), accessible))
    ensures a in Addrs(published)
    ensures forall i :: 0 <= i < |published| && published[i].addr == a ==> published[i].state == state
  {
    var c := Unanimous(rs, a, state);
    var entries := Entries(c);
    var d := Entry(rs[0], a, state);
    assert Listed(c, 0, d);
    EntryOrigin(c, d);
    MergeClosedForm(entries, a);
    BestIsCollected(entries, a);
    EntryOrigin(c, Best(entries)[a]);
  }

  /**
   The error of a card that every source has called in error is forgotten by the update after every
   source calls it healthy: for all configurations of hardware reporters and all cards.
   */
  lemma ErrorForgotten(names: string, a: string, accessible: string -> bool, before: seq<Device>, after: seq<Device>)
    requires Full(a, true) && accessible(a)
    requires Follows(Tick(Unanimous(Enabled(names, false), a, InError), accessible), [], before)
    requires Follows(Tick(Unanimous(Enabled(names, false), a, Online), accessible), before, after)
    ensures CollectedFrom(Enabled(names, false), {}, k => CardNode(a, false),
                          Unanimous(Enabled(names, false), a, InError))
    ensures CollectedFrom(Enabled(names, false), {}, k => CardNode(a, true),
                          Unanimous(Enabled(names, false), a, Online))
    ensures Unhealthy(before, a) && a in Addrs(after) && !Unhealthy(after, a)
  {
    var rs := Enabled(names, false);
    HardwareOnly(names);
    UnanimousHappens(names, a, false);
    UnanimousHappens(names, a, true);
    UnanimousShown(rs, a, InError, accessible, before);
    UnanimousShown(rs, a, Online, accessible, after);
  }

  // ---------- Reports lost with a failed update ----------

  /** lspci finds the card at a, but the sidecar that would be asked about it is not connected. */
  function LoneNode(a: string): Node {
    CardNode(a, true).(sidecarConnected := false)
  }

  function LoneReport(a: string): seq<Collected> {
    [Ok([Entry(Lspci, a, Online)]), Failed, Ok([])]
  }

  lemma LoneReportHappens(a: string)
    requires Full(a, true)
    ensures CollectedFrom([Lspci, Cardmgmt, Ras], {}, k => LoneNode(a), LoneReport(a))
  {
    LoneCard(a);
    NoRasErrors(LoneNode(a));
    var rs, c := [Lspci, Cardmgmt, Ras], LoneReport(a);
    forall k: nat | k < 3
      ensures Collects(rs[k], {}, LoneNode(a), c[k])
    {}
  }

  lemma LoneCard(a: string)
    requires Full(a, true)
    ensures Collects(Lspci, {}, LoneNode(a), Ok([Entry(Lspci, a, Online)]))
    ensures Collects(Cardmgmt, {}, LoneNode(a), Failed)
  {
    CardFound(a, true);
    assert Found(LoneNode(a)) == Found(CardNode(a, true));
    OneDevice(Lspci, LoneNode(a), a, true);
  }

  /** A healthy card that lspci reports is not published, because the other reporter fails. */
  lemma ReportLost(names: string, a: string, accessible: string -> bool, after: seq<Device>)
    requires names == "lspci,cardmgmt" && Full(a, true)
    requires Follows(Tick(LoneReport(a), accessible), [], after)
    ensures CollectedFrom(Enabled(names, false), {}, k => LoneNode(a), LoneReport(a))
    ensures a in Addrs(Entries(LoneReport(a))) && a !in Addrs(after)
  {
    BothEnabled(names);
    LoneReportHappens(a);
    var c := LoneReport(a);
    assert Listed(c, 0, Entry(Lspci, a, Online));
    EntryOrigin(c, Entry(Lspci, a, Online));
    assert c[1] == Failed;
  }
}
