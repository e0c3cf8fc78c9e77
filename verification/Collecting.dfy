/** Running the enabled reporters, one after the other, against whatever the node answers. */
module Collecting {
  import opened Options
  import opened Devices
  import opened Merging
  import opened HealthCheck
  import opened Reporters
  import opened RasWatcher
  import Lspci
  import Slots = Cardmgmt

  /** The answers of the node while one reporter collects. */
  datatype Node = Node(
    lspciOutput: Option<string>,
    sidecarConnected: bool,
    slotReply: nat -> Slots.Reply,
    pseudoDevices: seq<Device>)

  function Stamped(states: seq<Device>, r: Reporter): (stamped: seq<Device>)
    ensures |stamped| == |states|
    ensures forall i :: 0 <= i < |states| ==> stamped[i] == Stamp(states[i], NameOf(r), PriorityOf(r))
  {
    seq(|states|, i requires 0 <= i < |states| => Stamp(states[i], NameOf(r), PriorityOf(r)))
  }

  /** The devices in the node's lspci output. */
  function Found(node: Node): seq<Device> {
    match node.lspciOutput
    case None => []
    case Some(output) => Lspci.DevicesOf(output)
  }

  function LspciReport(node: Node): Collected {
    if node.lspciOutput.None? then Failed else Ok(Stamped(Found(node), Reporter.Lspci))
  }

  /** Nothing is asked when lspci fails or finds nothing. Otherwise exactly the answered slots are listed. */
  ghost predicate CardReport(node: Node, c: Collected) {
    if node.lspciOutput.None? then c == Failed
    else if Found(node) != [] && !node.sidecarConnected then c == Failed
    else c.Ok? && exists picks :: Picked(node, picks, c.states)
  }

  ghost predicate Picked(node: Node, picks: seq<nat>, states: seq<Device>) {
    && Slots.Answered(picks, node.slotReply, |Found(node)|) && |picks| == |states|
    && forall k :: 0 <= k < |states| ==>
         states[k] == Stamp(Device(Found(node)[picks[k]].addr, PF, Slots.Reported(node.slotReply(picks[k])), "", 0),
                            "cardmgmt", PRIORITY_CARDMGMT)
  }

  /** What a reporter collects for the node's answers and the recorded RAS errors. */
  ghost predicate Collects(r: Reporter, recorded: set<string>, node: Node, c: Collected) {
    match r
    case Lspci => c == LspciReport(node)
    case Cardmgmt => CardReport(node, c)
    case Pseudo => c == Ok(Stamped(node.pseudoDevices, Pseudo))
    case Ras => c.Ok? && Lists(c.states, RasEntries(recorded))
  }

  /** Each reporter may see a different node, as its collection takes time. */
  ghost predicate CollectedFrom(rs: seq<Reporter>, recorded: set<string>, nodes: nat -> Node,
                                collected: seq<Collected>) {
    |collected| == |rs| && forall i: nat :: i < |rs| ==> Collects(rs[i], recorded, nodes(i), collected[i])
  }

  lemma CollectsOutcome(r: Reporter, recorded: set<string>, node: Node, c: Collected)
    requires Collects(r, recorded, node, c)
    ensures Outcome(r, recorded, c)
  {
    if r == Ras {
      forall d | d in c.states
        ensures d.source == "ras" && d.priority == PRIORITY_RAS
      {
        assert d == RasEntries(recorded)[d.addr];
      }
    }
  }

  lemma CollectedFromBy(rs: seq<Reporter>, recorded: set<string>, nodes: nat -> Node, collected: seq<Collected>)
    requires CollectedFrom(rs, recorded, nodes, collected)
    ensures CollectedBy(rs, recorded, collected)
  {
    forall i: nat | i < |rs|
      ensures Outcome(rs[i], recorded, collected[i])
    {
      CollectsOutcome(rs[i], recorded, nodes(i), collected[i]);
    }
  }

  method StampedCopy(states: seq<Device>, r: Reporter) returns (stamped: seq<Device>)
    ensures stamped == Stamped(states, r)
  {
    var a := new Device[|states|](i requires 0 <= i < |states| => states[i]);
    StampAll(a, NameOf(r), PriorityOf(r));
    stamped := a[..];
  }

  method CollectLspci(node: Node) returns (c: Collected)
    ensures c == LspciReport(node)
  {
    match node.lspciOutput {
      case None => c := Failed;
      case Some(output) =>
        var states := Lspci.ParseLspci(output);
        var stamped := StampedCopy(states, Reporter.Lspci);
        c := Ok(stamped);
    }
  }

  method CollectCardmgmt(node: Node) returns (c: Collected)
    ensures CardReport(node, c)
  {
    var discovered := CollectLspci(node);
    ghost var picks;
    c, picks := Slots.Collect(discovered, node.sidecarConnected, node.slotReply);
    if c.Ok? {
      assert Picked(node, picks, c.states);
    }
  }

  /** Every reporter reports exactly what the node's answers and the RAS map say. */
  method CollectFrom(r: Reporter, ras: RasReporter, node: Node) returns (c: Collected)
    requires ras.Valid()
    ensures Collects(r, ras.errors.Keys, node, c)
  {
    match r {
      case Lspci =>
        c := CollectLspci(node);
      case Cardmgmt =>
        c := CollectCardmgmt(node);
      case Pseudo =>
        var stamped := StampedCopy(node.pseudoDevices, Pseudo);
        c := Ok(stamped);
      case Ras =>
        var states := ras.Collect();
        c := Ok(states[..]);
    }
  }

  /** All reporters in order. */
  method CollectAll(rs: seq<Reporter>, ras: RasReporter, nodes: nat -> Node) returns (collected: seq<Collected>)
    requires ras.Valid()
    ensures CollectedFrom(rs, ras.errors.Keys, nodes, collected)
  {
    collected := [];
    for i := 0 to |rs|
      invariant |collected| == i
      invariant forall k: nat :: k < i ==> Collects(rs[k], ras.errors.Keys, nodes(k), collected[k])
    {
      var c := CollectFrom(rs[i], ras, nodes(i));
      collected := collected + [c];
    }
  }

  /**
   One update of the vitals with the enabled reporters. It fails when one of them does. Otherwise the
   published snapshot lists exactly the checked result of merging what they collected, and every recorded
   RAS error in it is the RAS reporter's entry.
   */
  method Update(vitals: Vitals, names: string, pseudoMode: bool, ras: RasReporter, nodes: nat -> Node,
                accessible: string -> bool)
    returns (failed: bool, ghost collected: seq<Collected>)
    requires ras.Valid()
    modifies vitals`states
    ensures CollectedFrom(Enabled(names, pseudoMode), ras.errors.Keys, nodes, collected)
    ensures failed <==> Failed in collected
    ensures !failed ==> Lists(vitals.states[..], CheckedMap(Best(Entries(collected)), accessible))
    ensures failed ==> vitals.states == old(vitals.states)
    ensures !failed ==> fresh(vitals.states) && Distinct(vitals.states[..])
    ensures !failed ==> forall p :: p in ras.errors ==> RasDevice(p) in vitals.states[..]
    ensures old(vitals.states)[..] == old(vitals.states[..])
  {
    var rs := BuildReporters(names, pseudoMode);
    var reports := CollectAll(rs, ras, nodes);
    collected := reports;
    failed := vitals.UpdateStates(reports, accessible);
    CollectedFromBy(rs, ras.errors.Keys, nodes, collected);
    if !failed {
      RasPublished(rs, ras.errors.Keys, collected, accessible, vitals.states[..]);
    }
  }

  lemma RasPublished(rs: seq<Reporter>, recorded: set<string>, collected: seq<Collected>, accessible: string -> bool,
                     published: seq<Device>)
    requires RasLast(rs) && CollectedBy(rs, recorded, collected)
    requires Lists(published, CheckedMap(Best(Entries(collected)), accessible))
    ensures forall p :: p in recorded ==> RasDevice(p) in published
  {
    forall p | p in recorded
      ensures RasDevice(p) in published
    {
      RasEntriesPublished(rs, recorded, collected, accessible, p);
      var i := ListedAt(published, CheckedMap(Best(Entries(collected)), accessible), p);
    }
  }
}
