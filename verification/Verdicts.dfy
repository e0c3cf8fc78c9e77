/** What is published for given answers of the node: lspci output, sidecar replies and RAS errors. */
module Verdicts {
  import opened Devices
  import opened Merging
  import opened HealthCheck
  import opened Reporters
  import opened RasWatcher
  import opened Collecting
  import Lspci
  import Slots = Cardmgmt

  // ---------- The configuration with lspci and the card management service ----------

  /** The sidecar answers for the slot of a. */
  ghost predicate SlotAnswers(node: Node, i: nat, a: string) {
    i < |Found(node)| && Found(node)[i].addr == a && Slots.Answers(node.slotReply(i))
  }

  /** The sidecar's first answer for a is that for slot i. */
  ghost predicate FirstAnswer(node: Node, i: nat, a: string) {
    SlotAnswers(node, i, a) && forall j: nat :: j < i ==> !SlotAnswers(node, j, a)
  }

  /** The first device that lspci prints at a, if there is any, is healthy. */
  ghost predicate LspciHealthy(node: Node, a: string) {
    forall i :: FirstFor(Found(node), i, a) ==> Found(node)[i].state == Online
  }

  /** The sidecar's first answer for a, if there is any, is healthy. */
  ghost predicate SidecarHealthy(node: Node, a: string) {
    forall i: nat :: FirstAnswer(node, i, a) ==> node.slotReply(i).health == "healthy"
  }

  /** A report lists d. */
  predicate Reports(c: Collected, d: Device) {
    c.Ok? && d in c.states
  }

  ghost predicate Names(c: Collected, a: string) {
    exists d :: Reports(c, d) && d.addr == a
  }

  predicate Clears(c: Collected, a: string) {
    c.Ok? ==> FirstOnline(c.states, a)
  }

  lemma StampedEntries(found: seq<Device>, r: Reporter, a: string)
    ensures var states := Stamped(found, r);
      && (a in Addrs(states) <==> a in Addrs(found))
      && forall i :: FirstFor(states, i, a) <==> FirstFor(found, i, a)
  {
    var states := Stamped(found, r);
    if i :| 0 <= i < |found| && found[i].addr == a {
      assert states[i] in states;
    }
    if i :| 0 <= i < |states| && states[i].addr == a {
      assert found[i] in found;
    }
  }

  lemma LspciReports(node: Node, a: string)
    requires node.lspciOutput.Some?
    ensures Names(LspciReport(node), a) <==> a in Addrs(Found(node))
    ensures Clears(LspciReport(node), a) <==> LspciHealthy(node, a)
  {
    var states := LspciReport(node).states;
    StampedEntries(Found(node), Lspci, a);
    FirstOnlineIff(states, a);
    assert Names(LspciReport(node), a) <==> a in Addrs(states) by {
      assert forall d :: Reports(LspciReport(node), d) <==> d in states;
    }
  }

  /** Entry k of the card management report is the answer for slot picks[k]. */
  lemma CardEntry(node: Node, picks: seq<nat>, states: seq<Device>, k: nat)
    requires Picked(node, picks, states) && k < |states|
    ensures SlotAnswers(node, picks[k], states[k].addr)
    ensures states[k].state == Online <==> node.slotReply(picks[k]).health == "healthy"
  {}

  lemma CardSlot(node: Node, picks: seq<nat>, states: seq<Device>, i: nat, a: string) returns (k: nat)
    requires Picked(node, picks, states) && SlotAnswers(node, i, a)
    ensures k < |states| && picks[k] == i && states[k].addr == a
  {
    assert i in picks;
    k :| 0 <= k < |picks| && picks[k] == i;
  }

  lemma CardCovers(node: Node, picks: seq<nat>, c: Collected, a: string)
    requires c.Ok? && Picked(node, picks, c.states)
    ensures Names(c, a) <==> exists i :: SlotAnswers(node, i, a)
  {
    if i :| SlotAnswers(node, i, a) {
      var k := CardSlot(node, picks, c.states, i, a);
      assert Reports(c, c.states[k]);
    }
    if d :| Reports(c, d) && d.addr == a {
      var k: nat :| k < |c.states| && c.states[k] == d;
      CardEntry(node, picks, c.states, k);
    }
  }

  lemma FirstIsFirstAnswer(node: Node, picks: seq<nat>, states: seq<Device>, k: nat, a: string)
    requires Picked(node, picks, states) && k < |states|
    ensures FirstFor(states, k, a) <==> FirstAnswer(node, picks[k], a)
  {
    CardEntry(node, picks, states, k);
    EarlierSlots(node, picks, states, k, a);
    assert states[k].addr == a <==> SlotAnswers(node, picks[k], a);
  }

  /** Entries for a before entry k are answers for a before its slot. */
  lemma EarlierSlots(node: Node, picks: seq<nat>, states: seq<Device>, k: nat, a: string)
    requires Picked(node, picks, states) && k < |states|
    ensures (exists l :: 0 <= l < k && states[l].addr == a) <==>
            exists j: nat :: j < picks[k] && SlotAnswers(node, j, a)
  {
    if j: nat :| j < picks[k] && SlotAnswers(node, j, a) {
      var l := EarlierEntry(node, picks, states, k, j, a);
    }
    if l: nat :| l < k && states[l].addr == a {
      EarlierAnswer(node, picks, states, k, l);
    }
  }

  lemma EarlierEntry(node: Node, picks: seq<nat>, states: seq<Device>, k: nat, j: nat, a: string) returns (l: nat)
    requires Picked(node, picks, states) && k < |states| && j < picks[k] && SlotAnswers(node, j, a)
    ensures l < k && states[l].addr == a
  {
    l := CardSlot(node, picks, states, j, a);
    PicksIncrease(node, picks, states, k, l);
  }

  lemma PicksIncrease(node: Node, picks: seq<nat>, states: seq<Device>, k: nat, l: nat)
    requires Picked(node, picks, states) && k < |states| && l < |states|
    ensures k <= l ==> picks[k] <= picks[l]
  {
    if k <= l {
      Slots.IncreasingAt(picks, k, l);
    }
  }

  lemma EarlierAnswer(node: Node, picks: seq<nat>, states: seq<Device>, k: nat, l: nat)
    requires Picked(node, picks, states) && l < k < |states|
    ensures picks[l] < picks[k] && SlotAnswers(node, picks[l], states[l].addr)
  {
    CardEntry(node, picks, states, l);
  }

  lemma CardVerdict(node: Node, picks: seq<nat>, c: Collected, a: string)
    requires c.Ok? && Picked(node, picks, c.states)
    ensures Clears(c, a) <==> SidecarHealthy(node, a)
  {
    FirstOnlineIff(c.states, a);
    forall k: nat | k < |c.states|
      ensures FirstFor(c.states, k, a) <==> FirstAnswer(node, picks[k], a)
      ensures c.states[k].state == Online <==> node.slotReply(picks[k]).health == "healthy"
    {
      FirstIsFirstAnswer(node, picks, c.states, k, a);
      CardEntry(node, picks, c.states, k);
    }
    forall i: nat | FirstAnswer(node, i, a)
      ensures exists k: nat :: k < |c.states| && picks[k] == i
    {
      var k := CardSlot(node, picks, c.states, i, a);
    }
  }

  lemma CardDistinct(node: Node, picks: seq<nat>, states: seq<Device>)
    requires Picked(node, picks, states) && Distinct(Found(node))
    ensures Distinct(states)
  {
    forall k, l | 0 <= k < l < |states|
      ensures states[k].addr != states[l].addr
    {
      CardEntry(node, picks, states, k);
      CardEntry(node, picks, states, l);
      assert picks[k] < picks[l];
    }
  }

  lemma CardReports(node: Node, c: Collected, a: string)
    requires CardReport(node, c) && c.Ok?
    ensures Names(c, a) <==> exists i :: SlotAnswers(node, i, a)
    ensures Clears(c, a) <==> SidecarHealthy(node, a)
  {
    var picks :| Picked(node, picks, c.states);
    CardCovers(node, picks, c, a);
    CardVerdict(node, picks, c, a);
  }

  lemma ReportsDistinct(node: Node, c: Collected)
    requires c == LspciReport(node) || CardReport(node, c)
    requires c.Ok? && Distinct(Found(node))
    ensures Distinct(c.states)
  {
    if c != LspciReport(node) {
      var picks :| Picked(node, picks, c.states);
      CardDistinct(node, picks, c.states);
    }
  }

  lemma RasReports(recorded: set<string>, c: Collected, a: string)
    requires c.Ok? && Lists(c.states, RasEntries(recorded))
    ensures Names(c, a) <==> a in recorded
    ensures Clears(c, a) <==> a !in recorded
  {
    FirstOnlineIff(c.states, a);
    if a in recorded {
      var i := ListedAt(c.states, RasEntries(recorded), a);
      assert Reports(c, c.states[i]) && FirstFor(c.states, i, a);
    }
    forall d | Reports(c, d)
      ensures d.addr in recorded
    {
      assert d.addr in Addrs(c.states);
    }
  }

  lemma CardFailsIff(node: Node, c: Collected)
    requires CardReport(node, c)
    ensures c == Failed <==> node.lspciOutput.None? || (Found(node) != [] && !node.sidecarConnected)
  {}

  lemma OneOfThree(collected: seq<Collected>)
    requires |collected| == 3
    ensures Failed in collected <==> collected[0] == Failed || collected[1] == Failed || collected[2] == Failed
  {}

  /** An update fails exactly when lspci does, either time, or a sidecar that is needed is not connected. */
  lemma NodeFailsIff(recorded: set<string>, nodes: nat -> Node, collected: seq<Collected>)
    requires CollectedFrom([Lspci, Cardmgmt, Ras], recorded, nodes, collected)
    ensures Failed in collected <==>
            || nodes(0).lspciOutput.None?
            || nodes(1).lspciOutput.None?
            || (Found(nodes(1)) != [] && !nodes(1).sidecarConnected)
  {
    ThreeCollected(recorded, nodes, collected);
    CardFailsIff(nodes(1), collected[1]);
    OneOfThree(collected);
  }

  lemma ThreeCollected(recorded: set<string>, nodes: nat -> Node, collected: seq<Collected>)
    requires CollectedFrom([Lspci, Cardmgmt, Ras], recorded, nodes, collected)
    ensures |collected| == 3
    ensures collected[0] == LspciReport(nodes(0))
    ensures CardReport(nodes(1), collected[1])
    ensures collected[2].Ok? && Lists(collected[2].states, RasEntries(recorded))
  {
    assert Collects(Lspci, recorded, nodes(0), collected[0]);
    assert Collects(Cardmgmt, recorded, nodes(1), collected[1]);
    assert Collects(Ras, recorded, nodes(2), collected[2]);
  }

  /** Some source lists a. */
  ghost predicate Known(recorded: set<string>, nodes: nat -> Node, a: string) {
    a in Addrs(Found(nodes(0))) || (exists i :: SlotAnswers(nodes(1), i, a)) || a in recorded
  }

  /** No source has anything against a, as far as its first word about a goes. */
  ghost predicate Cleared(recorded: set<string>, nodes: nat -> Node, a: string) {
    LspciHealthy(nodes(0), a) && SidecarHealthy(nodes(1), a) && a !in recorded
  }

  lemma ThreeReports(recorded: set<string>, nodes: nat -> Node, collected: seq<Collected>, a: string)
    requires CollectedFrom([Lspci, Cardmgmt, Ras], recorded, nodes, collected) && Failed !in collected
    ensures (exists k, d :: Listed(collected, k, d) && d.addr == a) <==> Known(recorded, nodes, a)
    ensures FirstsOnline(collected, a) <==> Cleared(recorded, nodes, a)
  {
    ThreeCollected(recorded, nodes, collected);
    OneOfThree(collected);
    var c0, c1, c2 := collected[0], collected[1], collected[2];
    LspciReports(nodes(0), a);
    CardReports(nodes(1), c1, a);
    RasReports(recorded, c2, a);
    ListedByThree(collected, a);
    ClearedByThree(collected, a);
    assert Known(recorded, nodes, a) <==> Names(c0, a) || Names(c1, a) || Names(c2, a);
    assert Cleared(recorded, nodes, a) <==> Clears(c0, a) && Clears(c1, a) && Clears(c2, a);
  }

  lemma ListedByThree(collected: seq<Collected>, a: string)
    requires |collected| == 3
    ensures (exists k, d :: Listed(collected, k, d) && d.addr == a) <==>
            Names(collected[0], a) || Names(collected[1], a) || Names(collected[2], a)
  {
    forall k, d
      ensures Listed(collected, k, d) <==> 0 <= k < 3 && Reports(collected[k], d)
    {}
    forall k | 0 <= k < 3 && Names(collected[k], a)
      ensures exists d :: Listed(collected, k, d) && d.addr == a
    {
      var d :| Reports(collected[k], d) && d.addr == a;
      assert Listed(collected, k, d);
    }
  }

  lemma ClearedByThree(collected: seq<Collected>, a: string)
    requires |collected| == 3
    ensures FirstsOnline(collected, a) <==>
            Clears(collected[0], a) && Clears(collected[1], a) && Clears(collected[2], a)
  {}

  /**
   With lspci and the card management service enabled: an update fails exactly when lspci does, either
   time, or the sidecar that is needed is not connected. Otherwise the published addresses are those that
   lspci prints, that the sidecar answers for, or that a RAS error was recorded for. One of them is ONLINE
   exactly when its driver is accessible, the first device that lspci prints there does not have revision
   ff, the sidecar's first answer for it is healthy, and no RAS error was recorded; a source that does not
   know the address does not count.
   */
  lemma NodeVerdict(names: string, recorded: set<string>, nodes: nat -> Node, collected: seq<Collected>,
                    accessible: string -> bool, published: seq<Device>, a: string)
    requires names == "lspci,cardmgmt"
    requires CollectedFrom(Enabled(names, false), recorded, nodes, collected) && Failed !in collected
    requires Lists(published, CheckedMap(Best(Entries(collected)), accessible))
    ensures a in Addrs(published) <==> Known(recorded, nodes, a)
    ensures forall i :: 0 <= i < |published| && published[i].addr == a ==>
              (published[i].state == Online <==> accessible(a) && Cleared(recorded, nodes, a))
  {
    BothEnabled(names);
    ReportsVerdict([Lspci, Cardmgmt, Ras], recorded, nodes, collected, accessible, published, a);
    ThreeReports(recorded, nodes, collected, a);
  }

  lemma ReportsVerdict(rs: seq<Reporter>, recorded: set<string>, nodes: nat -> Node, collected: seq<Collected>,
                       accessible: string -> bool, published: seq<Device>, a: string)
    requires AscendingReporters(rs) && forall k :: 0 <= k < |rs| ==> rs[k] != Pseudo
    requires CollectedFrom(rs, recorded, nodes, collected)
    requires Lists(published, CheckedMap(Best(Entries(collected)), accessible))
    ensures a in Addrs(published) <==> exists k, d :: Listed(collected, k, d) && d.addr == a
    ensures forall i :: 0 <= i < |published| && published[i].addr == a ==>
              (published[i].state == Online <==> accessible(a) && FirstsOnline(collected, a))
  {
    CollectedFromBy(rs, recorded, nodes, collected);
    PublishedIffListed(collected, accessible, published, a);
    forall i: nat | i < |published| && published[i].addr == a
      ensures published[i].state == Online <==> accessible(a) && FirstsOnline(collected, a)
    {
      ExactVerdict(rs, recorded, collected, accessible, published, i);
    }
  }

  // ---------- Output that prints each address once ----------

  /** lspci and the sidecar have only good to say about a. */
  ghost predicate AllHealthy(nodes: nat -> Node, a: string) {
    && (forall i :: 0 <= i < |Found(nodes(0))| && Found(nodes(0))[i].addr == a ==> Found(nodes(0))[i].state == Online)
    && (forall i: nat :: SlotAnswers(nodes(1), i, a) ==> nodes(1).slotReply(i).health == "healthy")
  }

  /** Where lspci prints each address once, the first word of a source is its only one. */
  lemma ClearedWhenDistinct(recorded: set<string>, nodes: nat -> Node, a: string)
    requires Distinct(Found(nodes(0))) && Distinct(Found(nodes(1)))
    ensures Cleared(recorded, nodes, a) <==> AllHealthy(nodes, a) && a !in recorded
  {
    var found := Found(nodes(0));
    assert forall i :: 0 <= i < |found| && found[i].addr == a ==> FirstFor(found, i, a);
    forall i: nat | SlotAnswers(nodes(1), i, a)
      ensures FirstAnswer(nodes(1), i, a)
    {}
  }

  // ---------- The whole entry ----------

  /** The sidecar's word about a counts: it answers, and lspci has nothing worse to say than it. */
  ghost predicate CardSpeaks(nodes: nat -> Node, a: string) {
    && (exists i :: SlotAnswers(nodes(1), i, a))
    && (|| a !in Addrs(Found(nodes(0)))
        || LspciHealthy(nodes(0), a)
        || Outweighs(nodes(1), a, false))
  }

  /** Some answer of the sidecar for a outweighs a device in error, or any answer does if it is not. */
  ghost predicate Outweighs(node: Node, a: string, online: bool) {
    exists i: nat :: SlotAnswers(node, i, a) && (online || node.slotReply(i).health != "healthy")
  }

  lemma AnswerOutweighs(node: Node, picks: seq<nat>, c: Collected, a: string, h: Device, i: nat)
    requires c.Ok? && Picked(node, picks, c.states) && SlotAnswers(node, i, a)
    requires h.state == Online || node.slotReply(i).health != "healthy"
    ensures GivesWay(h, For(c.states, a))
  {
    var k := CardSlot(node, picks, c.states, i, a);
    CardEntry(node, picks, c.states, k);
    ForIsSubsequence(c.states, a, c.states[k]);
  }

  lemma EntryOutweighs(node: Node, picks: seq<nat>, c: Collected, a: string, h: Device, g: Device)
    requires c.Ok? && Picked(node, picks, c.states) && g in For(c.states, a)
    requires h.state == Online || g.state != Online
    ensures Outweighs(node, a, h.state == Online)
  {
    ForIsSubsequence(c.states, a, g);
    var k: nat :| k < |c.states| && c.states[k] == g;
    CardEntry(node, picks, c.states, k);
    assert SlotAnswers(node, picks[k], a);
  }

  lemma GivesWayToAnswer(node: Node, c: Collected, a: string, h: Device)
    requires CardReport(node, c) && c.Ok? && GivesWay(h, For(c.states, a))
    ensures Outweighs(node, a, h.state == Online)
  {
    var picks :| Picked(node, picks, c.states);
    var g :| g in For(c.states, a) && (h.state == Online || g.state != Online);
    EntryOutweighs(node, picks, c, a, h, g);
  }

  lemma AnswerGivesWay(node: Node, c: Collected, a: string, h: Device)
    requires CardReport(node, c) && c.Ok? && Outweighs(node, a, h.state == Online)
    ensures GivesWay(h, For(c.states, a))
  {
    var picks :| Picked(node, picks, c.states);
    var i: nat :| SlotAnswers(node, i, a) && (h.state == Online || node.slotReply(i).health != "healthy");
    AnswerOutweighs(node, picks, c, a, h, i);
  }

  lemma CardGivesWay(node: Node, c: Collected, a: string, h: Device, gives: bool, outweighs: bool)
    requires CardReport(node, c) && c.Ok?
    requires gives <==> GivesWay(h, For(c.states, a))
    requires outweighs <==> Outweighs(node, a, h.state == Online)
    ensures gives == outweighs
  {
    if gives {
      GivesWayToAnswer(node, c, a, h);
    }
    if outweighs {
      AnswerGivesWay(node, c, a, h);
    }
  }

  lemma CardListsIff(node: Node, c: Collected, a: string)
    requires CardReport(node, c) && c.Ok?
    ensures |For(c.states, a)| > 0 <==> exists i :: SlotAnswers(node, i, a)
  {
    CardReports(node, c, a);
    NamesIff(c, a);
  }

  lemma NamesIff(c: Collected, a: string)
    requires c.Ok?
    ensures Names(c, a) <==> |For(c.states, a)| > 0
  {
    if d :| Reports(c, d) && d.addr == a {
      ForIsSubsequence(c.states, a, d);
    }
    if |For(c.states, a)| > 0 {
      var d := For(c.states, a)[0];
      ForIsSubsequence(c.states, a, d);
      assert Reports(c, d);
    }
  }

  lemma EntriesOfThree(collected: seq<Collected>, a: string)
    requires |collected| == 3 && collected[0].Ok? && collected[1].Ok? && collected[2].Ok?
    ensures For(Entries(collected), a) ==
            For(collected[0].states, a) + For(collected[1].states, a) + For(collected[2].states, a)
  {
    var c0, c1, c2 := collected[0].states, collected[1].states, collected[2].states;
    assert collected[..0] == [] && collected[..3] == collected;
    EntriesStep(collected, 0);
    EntriesStep(collected, 1);
    EntriesStep(collected, 2);
    assert Entries(collected) == [] + c0 + c1 + c2 == c0 + c1 + c2;
    ForConcat(c0, c1, a);
    ForConcat(c0 + c1, c2, a);
  }

  lemma PrioritiesOfThree(recorded: set<string>, nodes: nat -> Node, collected: seq<Collected>, a: string)
    requires CollectedFrom([Lspci, Cardmgmt, Ras], recorded, nodes, collected) && Failed !in collected
    ensures |collected| == 3 && collected[0].Ok? && collected[1].Ok? && collected[2].Ok?
    ensures forall d :: d in For(collected[0].states, a) ==> d.priority == 1 && d.source == "lspci"
    ensures forall d :: d in For(collected[1].states, a) ==> d.priority == 5 && d.source == "cardmgmt" && d.kind == PF
    ensures forall d :: d in For(collected[2].states, a) ==> d == RasDevice(a) && d.priority == 10
    ensures |For(collected[2].states, a)| > 0 <==> a in recorded
  {
    ThreeCollected(recorded, nodes, collected);
    OneOfThree(collected);
    CollectedFromBy([Lspci, Cardmgmt, Ras], recorded, nodes, collected);
    var rs := [Lspci, Cardmgmt, Ras];
    assert Outcome(rs[0], recorded, collected[0]) && Outcome(rs[1], recorded, collected[1]);
    forall k, d | 0 <= k < 3 && d in For(collected[k].states, a)
      ensures d in collected[k].states && d.addr == a
    {
      ForIsSubsequence(collected[k].states, a, d);
    }
    CardKinds(nodes(1), collected[1]);
    RasReports(recorded, collected[2], a);
    NamesIff(collected[2], a);
  }

  lemma CardKinds(node: Node, c: Collected)
    requires CardReport(node, c) && c.Ok?
    ensures forall d :: d in c.states ==> d.kind == PF && d.state in {Online, InError}
  {
    var picks :| Picked(node, picks, c.states);
  }

  /** The first device that lspci prints at a, as it is stamped. */
  lemma LspciFirst(node: Node, a: string) returns (j: nat)
    requires node.lspciOutput.Some? && |For(LspciReport(node).states, a)| > 0
    ensures FirstFor(Found(node), j, a)
    ensures var d := For(LspciReport(node).states, a)[0];
      d.kind == Found(node)[j].kind && d.state == Found(node)[j].state
  {
    var states := LspciReport(node).states;
    ForHead(states, a);
    StampedEntries(Found(node), Lspci, a);
    var i :| FirstFor(states, i, a) && states[i] == For(states, a)[0];
    j := i;
  }

  /** Which hardware report wins for an address without a RAS error: the sidecar's if its word counts, or lspci's. */
  lemma WinningReport(recorded: set<string>, nodes: nat -> Node, collected: seq<Collected>, a: string,
                            speaks: bool)
    requires CollectedFrom([Lspci, Cardmgmt, Ras], recorded, nodes, collected) && Failed !in collected
    requires a in Best(Entries(collected)) && a !in recorded
    requires speaks <==> CardSpeaks(nodes, a)
    ensures |collected| == 3 && collected[0].Ok? && collected[1].Ok?
    ensures speaks ==> Best(Entries(collected))[a] in For(collected[1].states, a)
    ensures !speaks ==>
              |For(collected[0].states, a)| > 0 && Best(Entries(collected))[a] == For(collected[0].states, a)[0]
  {
    ThreeCollected(recorded, nodes, collected);
    OneOfThree(collected);
    HeldWithoutRas(recorded, nodes, collected, a);
    PrioritiesOfThree(recorded, nodes, collected, a);
    var x, y := For(collected[0].states, a), For(collected[1].states, a);
    var takes := |y| > 0 && (|x| == 0 || GivesWay(x[0], y));
    SpeaksIff(nodes, collected[1], x, y, a, speaks, takes);
    HeldOfTwo(x, y, takes);
  }

  lemma HeldWithoutRas(recorded: set<string>, nodes: nat -> Node, collected: seq<Collected>, a: string)
    requires CollectedFrom([Lspci, Cardmgmt, Ras], recorded, nodes, collected) && Failed !in collected
    requires a in Best(Entries(collected)) && a !in recorded
    ensures |collected| == 3 && collected[0].Ok? && collected[1].Ok?
    ensures var es := For(collected[0].states, a) + For(collected[1].states, a);
      |es| > 0 && Best(Entries(collected))[a] == Held(es)
  {
    PrioritiesOfThree(recorded, nodes, collected, a);
    EntriesOfThree(collected, a);
    BestIsHeld(Entries(collected), a);
    var es := For(collected[0].states, a) + For(collected[1].states, a);
    assert For(collected[2].states, a) == [] && es + [] == es;
  }

  /** What is held after the entries of two priorities. */
  lemma HeldOfTwo(x: seq<Device>, y: seq<Device>, takes: bool)
    requires forall d :: d in x ==> d.priority == 1
    requires forall d :: d in y ==> d.priority == 5
    requires |x + y| > 0 && (takes <==> |y| > 0 && (|x| == 0 || GivesWay(x[0], y)))
    ensures if takes then Held(x + y) in y else |x| > 0 && Held(x + y) == x[0]
  {
    if |x| == 0 {
      assert x + y == y;
      HeldEqual(y, 5);
    } else {
      HeldEqual(x, 1);
      HeldGroup(x, y, 5);
    }
  }

  lemma SpeaksIff(nodes: nat -> Node, c: Collected, x: seq<Device>, y: seq<Device>, a: string,
                  speaks: bool, takes: bool)
    requires nodes(0).lspciOutput.Some? && x == For(LspciReport(nodes(0)).states, a)
    requires CardReport(nodes(1), c) && c.Ok? && y == For(c.states, a)
    requires speaks <==> CardSpeaks(nodes, a)
    requires takes <==> |y| > 0 && (|x| == 0 || GivesWay(x[0], y))
    ensures speaks == takes
  {
    LspciReports(nodes(0), a);
    NamesIff(LspciReport(nodes(0)), a);
    CardListsIff(nodes(1), c, a);
    if |x| > 0 {
      CardGivesWay(nodes(1), c, a, x[0], GivesWay(x[0], y), Outweighs(nodes(1), a, x[0].state == Online));
      OnlineOutweighed(nodes(1), a);
    }
  }

  lemma OnlineOutweighed(node: Node, a: string)
    ensures Outweighs(node, a, true) <==> exists i :: SlotAnswers(node, i, a)
    ensures Outweighs(node, a, false) ==> exists i :: SlotAnswers(node, i, a)
  {}

  /**
   The whole entry that is published for a, in the configuration with lspci and the card management service.
   It is ONLINE as `NodeVerdict` has it and IN_ERROR otherwise. Its type is PF, unless the entry is lspci's;
   then it is that of the first device lspci prints there.
   */
  lemma NodeEntry(names: string, recorded: set<string>, nodes: nat -> Node, collected: seq<Collected>,
                  accessible: string -> bool, published: seq<Device>, i: nat)
    returns (j: nat)
    requires names == "lspci,cardmgmt"
    requires CollectedFrom(Enabled(names, false), recorded, nodes, collected) && Failed !in collected
    requires Lists(published, CheckedMap(Best(Entries(collected)), accessible)) && i < |published|
    ensures var d := published[i];
      && d.state == (if accessible(d.addr) && Cleared(recorded, nodes, d.addr) then Online else InError)
      && d.source == (if d.addr in recorded then "ras" else if CardSpeaks(nodes, d.addr) then "cardmgmt" else "lspci")
      && (d.source != "lspci" ==> d.kind == PF)
      && (d.source == "lspci" ==> FirstFor(Found(nodes(0)), j, d.addr) && d.kind == Found(nodes(0))[j].kind)
  {
    BothEnabled(names);
    var d := published[i];
    var w := Best(Entries(collected))[d.addr];
    assert d == Checked(w, accessible);
    j := Winner(recorded, nodes, collected, d.addr, CardSpeaks(nodes, d.addr));
    NodeVerdict(names, recorded, nodes, collected, accessible, published, d.addr);
    assert d.state in {Online, InError};
  }

  lemma RasWins(recorded: set<string>, nodes: nat -> Node, collected: seq<Collected>, a: string)
    requires CollectedFrom([Lspci, Cardmgmt, Ras], recorded, nodes, collected) && a in recorded
    ensures a in Best(Entries(collected)) && Best(Entries(collected))[a] == RasDevice(a)
  {
    CollectedFromBy([Lspci, Cardmgmt, Ras], recorded, nodes, collected);
    RasDominates([Lspci, Cardmgmt, Ras], recorded, collected, a);
  }

  /** The winning entry: its source, its state, and its type. */
  lemma Winner(recorded: set<string>, nodes: nat -> Node, collected: seq<Collected>, a: string, speaks: bool)
    returns (j: nat)
    requires CollectedFrom([Lspci, Cardmgmt, Ras], recorded, nodes, collected) && Failed !in collected
    requires a in Best(Entries(collected)) && (speaks <==> CardSpeaks(nodes, a))
    ensures var w := Best(Entries(collected))[a];
      && w.state in {Online, InError}
      && w.source == (if a in recorded then "ras" else if speaks then "cardmgmt" else "lspci")
      && (w.source != "lspci" ==> w.kind == PF)
      && (w.source == "lspci" ==> FirstFor(Found(nodes(0)), j, a) && w.kind == Found(nodes(0))[j].kind)
  {
    j := 0;
    if a in recorded {
      RasWins(recorded, nodes, collected, a);
    } else {
      j := HardwareEntry(recorded, nodes, collected, a, speaks);
    }
  }

  lemma HardwareEntry(recorded: set<string>, nodes: nat -> Node, collected: seq<Collected>, a: string, speaks: bool)
    returns (j: nat)
    requires CollectedFrom([Lspci, Cardmgmt, Ras], recorded, nodes, collected) && Failed !in collected
    requires a in Best(Entries(collected)) && a !in recorded
    requires speaks <==> CardSpeaks(nodes, a)
    ensures var w := Best(Entries(collected))[a];
      && w.state in {Online, InError}
      && w.source == (if speaks then "cardmgmt" else "lspci")
      && (speaks ==> w.kind == PF)
      && (!speaks ==> FirstFor(Found(nodes(0)), j, a) && w.kind == Found(nodes(0))[j].kind)
  {
    WinningReport(recorded, nodes, collected, a, speaks);
    PrioritiesOfThree(recorded, nodes, collected, a);
    ThreeCollected(recorded, nodes, collected);
    CardKinds(nodes(1), collected[1]);
    if speaks {
      ForIsSubsequence(collected[1].states, a, Best(Entries(collected))[a]);
      j := 0;
    } else {
      j := LspciFirst(nodes(0), a);
      Lspci.ParsedDevice(nodes(0).lspciOutput.value, Found(nodes(0))[j]);
    }
  }

  /**
   What a client that opens a plain stream after a successful update is told about a, in its first message:
   something exactly if some source knows a, and then the state and the type that `NodeEntry` gives.
   */
  lemma ClientVerdict(names: string, recorded: set<string>, nodes: nat -> Node, collected: seq<Collected>,
                      accessible: string -> bool, published: seq<Device>, a: string)
    requires names == "lspci,cardmgmt"
    requires CollectedFrom(Enabled(names, false), recorded, nodes, collected) && Failed !in collected
    requires Lists(published, CheckedMap(Best(Entries(collected)), accessible))
    ensures (exists k :: 0 <= k < |ToPb(published)| && ToPb(published)[k].addr == a) <==> Known(recorded, nodes, a)
    ensures forall k :: 0 <= k < |ToPb(published)| && ToPb(published)[k].addr == a ==>
              var pb := ToPb(published)[k];
              && pb.state == (if accessible(a) && Cleared(recorded, nodes, a) then Online else InError)
              && (if a in recorded || CardSpeaks(nodes, a) then pb.kind == PF
                  else exists j :: FirstFor(Found(nodes(0)), j, a) && pb.kind == Found(nodes(0))[j].kind)
  {
    NodeVerdict(names, recorded, nodes, collected, accessible, published, a);
    if a in Addrs(published) {
      var k: nat :| k < |published| && published[k].addr == a;
      assert ToPb(published)[k].addr == a;
    }
    forall k: nat | k < |published| && published[k].addr == a
      ensures var pb := ToPb(published)[k];
        && pb.state == (if accessible(a) && Cleared(recorded, nodes, a) then Online else InError)
        && (if a in recorded || CardSpeaks(nodes, a) then pb.kind == PF
            else exists j :: FirstFor(Found(nodes(0)), j, a) && pb.kind == Found(nodes(0))[j].kind)
    {
      var j := NodeEntry(names, recorded, nodes, collected, accessible, published, k);
    }
  }

  /** The sidecar answers for a in the words of its reply: a health, and no error or one without a code. */
  lemma SlotAnswersIff(node: Node, i: nat, a: string)
    ensures SlotAnswers(node, i, a) <==>
            && i < |Found(node)| && Found(node)[i].addr == a
            && exists health :: Slots.Says(node.slotReply(i), health)
  {
    Slots.AnswersIff(a, node.slotReply(i));
  }
}
