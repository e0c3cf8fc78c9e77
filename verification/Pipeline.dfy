/**
 The whole pipeline as interleaved steps: the log scanner records RAS errors, main merges, publishes
 and submits snapshots, and stream handlers send messages made from them.
 */
module Pipeline {
  import opened Devices
  import opened Merging
  import opened HealthCheck
  import opened HealthStreams
  import opened RasLog
  import opened Reporters
  import opened RasWatcher
  import opened Unions
  import Channel = UpdateChannel

  /** Published states, and the RAS errors that were recorded when the RAS reporter was asked for them. */
  datatype Snapshot = Snapshot(states: seq<Device>, ras: set<string>)

  /** The update made while the server is created, the first one of main, and the periodic ones. */
  datatype Round = Boot | First | Periodic

  /** Where main is in an update; a position is that of a snapshot in publication order. */
  datatype Main = Idle | MergedStates(snapshot: Snapshot) | Failing | Reading | Holding(v: nat) | Submitting(v: nat)

  /** A message, with the position of the snapshot it is made from. */
  datatype Message = Message(v: nat, devices: seq<Device>)

  /** A stream has a message to send, has yet to raise the flag, waits for an update, or has ended. */
  datatype Phase = Ready(next: Message) | Unflagged | Waiting | Closed

  /** A stream with the devices its client named and the addresses tracked now; both are empty without tracking. */
  datatype Stream = Stream(tracking: bool, initial: set<string>, tracked: set<string>, phase: Phase, sent: seq<Message>)

  datatype State = State(
    logs: seq<seq<string>>,
    recorded: set<string>,
    published: seq<Snapshot>,
    round: Round,
    main: Main,
    chan: Channel.State<nat>,
    streams: map<nat, Stream>)

  datatype Step =
    | NewLog
    | ScanLine(line: string)
    | Merge(collected: seq<Collected>, states: seq<Device>, accessible: string -> bool)
    | Publish
    | Skip
    | Read
    | Submit
    | Check
    | Return
    | Open(h: nat, tracking: bool, initial: set<string>, devices: seq<Device>)
    | Raise(h: nat)
    | Send(h: nat, ok: bool)
    | Receive(h: nat, devices: seq<Device>)
    | Leave(h: nat)

  function Initial(): State {
    State([], {}, [Snapshot([], {})], Boot, Idle, Channel.Initial(), map[])
  }

  function Scan(s: State, line: string): State
    requires |s.logs| > 0
  {
    var last := |s.logs| - 1;
    var lines := s.logs[last] + [line];
    var pci := LastPci("", Marks(lines));
    s.(logs := s.logs[last := lines],
       recorded := s.recorded + (if ContainsRasError(line) && pci != "" then {pci} else {}))
  }

  function NextRound(r: Round): Round {
    if r == Boot then First else Periodic
  }

  /** The steps of the scanner and of main, apart from its use of the channel. */
  ghost predicate UpdateStep(rs: seq<Reporter>, s: State, t: State, step: Step)
    requires |s.published| > 0
  {
    match step
    case NewLog => s.round != Boot && t == s.(logs := s.logs + [[]])
    case ScanLine(line) => s.round != Boot && |s.logs| > 0 && t == Scan(s, line)
    case Merge(collected, states, accessible) =>
      && s.main == Idle
      && CollectedBy(rs, s.recorded, collected)
      && if Failed in collected then t == s.(main := Failing)
         else Lists(states, CheckedMap(Best(Entries(collected)), accessible)) &&
              t == s.(main := MergedStates(Snapshot(states, s.recorded)))
    case Publish =>
      && s.main.MergedStates?
      && t == s.(published := s.published + [s.main.snapshot],
                 main := if s.round == Boot then Idle else Reading,
                 round := if s.round == Boot then First else s.round)
    case Skip =>
      && s.main == Failing
      && t == s.(main := if s.round == Periodic then Reading else Idle, round := NextRound(s.round))
    case Read => s.main == Reading && t == s.(main := Holding(|s.published| - 1))
    case _ => false
  }

  /** The steps of main inside UpdateHealths. */
  ghost predicate SubmitStep(s: State, t: State, step: Step) {
    match step
    case Submit =>
      && s.main.Holding? && Channel.Can(s.chan, Channel.Enter(s.main.v))
      && t == s.(main := Submitting(s.main.v), chan := Channel.Do(s.chan, Channel.Enter(s.main.v)))
    case Check =>
      && s.main.Submitting? && Channel.Can(s.chan, Channel.Check)
      && t == s.(chan := Channel.Do(s.chan, Channel.Check))
    case Return =>
      && s.main.Submitting? && Channel.Can(s.chan, Channel.Leave)
      && t == s.(main := Idle, round := NextRound(s.round), chan := Channel.Do(s.chan, Channel.Leave))
    case _ => false
  }

  /** The steps of a stream handler. */
  ghost predicate StreamStep(s: State, t: State, step: Step)
    requires |s.published| > 0
  {
    match step
    case Open(h, tracking, initial, devices) =>
      var v := |s.published| - 1;
      && s.round != Boot && h !in s.streams && (!tracking ==> initial == {})
      && IsMessage(s.published[v].states, initial, devices)
      && t == s.(streams := s.streams[h := Stream(tracking, initial, initial, Ready(Message(v, devices)), [])])
    case Raise(h) =>
      && h in s.streams && Channel.Can(s.chan, Channel.Start(h))
      && var st := s.streams[h];
      && (if st.tracking then st.phase.Ready? else st.phase == Unflagged)
      && t == s.(streams := s.streams[h := st.(phase := if st.tracking then st.phase else Waiting)],
                 chan := Channel.Do(s.chan, Channel.Start(h)))
    case Send(h, ok) =>
      && h in s.streams && s.streams[h].phase.Ready?
      && var st := s.streams[h];
      && (st.tracking ==> h in s.chan.live)
      && if ok then
           t == s.(streams := s.streams[h := st.(sent := st.sent + [st.phase.next],
                                                 phase := if h in s.chan.live then Waiting else Unflagged)])
         else
           t == s.(streams := s.streams[h := st.(phase := Closed)],
                   chan := if h in s.chan.live then Channel.Do(s.chan, Channel.End(h)) else s.chan)
    case Receive(h, devices) =>
      && h in s.streams && s.streams[h].phase == Waiting && Channel.Can(s.chan, Channel.Receive(h))
      && var st := s.streams[h];
      && var v := s.chan.submitted[|s.chan.submitted| - 1];
      && v < |s.published| && IsMessage(s.published[v].states, st.tracked, devices)
      && t == s.(streams := s.streams[h := st.(phase := Ready(Message(v, devices)),
                   tracked := if st.tracking then st.tracked + Addrs(s.published[v].states) else st.tracked)],
                 chan := Channel.Do(s.chan, Channel.Receive(h)))
    case Leave(h) =>
      && h in s.streams && s.streams[h].phase == Waiting && Channel.Can(s.chan, Channel.End(h))
      && t == s.(streams := s.streams[h := s.streams[h].(phase := Closed)], chan := Channel.Do(s.chan, Channel.End(h)))
    case _ => false
  }

  ghost predicate Next(rs: seq<Reporter>, s: State, t: State, step: Step) {
    |s.published| > 0 && (UpdateStep(rs, s, t, step) || SubmitStep(s, t, step) || StreamStep(s, t, step))
  }

  ghost predicate Run(rs: seq<Reporter>, states: seq<State>, steps: seq<Step>) {
    && |states| == |steps| + 1
    && states[0] == Initial()
    && forall i :: 0 <= i < |steps| ==> Next(rs, states[i], states[i + 1], steps[i])
  }

  // ---------- The invariant ----------

  /** A snapshot shows each RAS error it was made from, and no other entry for it or from that source. */
  ghost predicate Faithful(sn: Snapshot) {
    && (forall p :: p in sn.ras ==> RasDevice(p) in sn.states)
    && (forall i :: 0 <= i < |sn.states| && sn.states[i].addr in sn.ras ==>
          sn.states[i] == RasDevice(sn.states[i].addr))
    && (forall i :: 0 <= i < |sn.states| && sn.states[i].source == "ras" ==> sn.states[i].addr in sn.ras)
  }

  ghost predicate PublishedOk(published: seq<Snapshot>, recorded: set<string>) {
    && |published| > 0
    && (forall i :: 0 <= i < |published| ==> Faithful(published[i]) && published[i].ras <= recorded)
    && (forall i, j :: 0 <= i <= j < |published| ==> published[i].ras <= published[j].ras)
  }

  ghost predicate MainOk(s: State)
    requires |s.published| > 0
  {
    var last := |s.published| - 1;
    match s.main
    case MergedStates(sn) =>
      Faithful(sn) && s.published[last].ras <= sn.ras <= s.recorded && s.chan.mutex == Channel.Free
    case Holding(v) => v == last && s.chan.mutex == Channel.Free
    case Submitting(v) =>
      && v == last && s.chan.mutex != Channel.Free
      && |s.chan.submitted| > 0 && s.chan.submitted[|s.chan.submitted| - 1] == v
    case _ => s.chan.mutex == Channel.Free
  }

  /** The message is made from the snapshot it names. */
  ghost predicate Backed(published: seq<Snapshot>, m: Message) {
    m.v < |published| && exists tracked :: IsMessage(published[m.v].states, tracked, m.devices)
  }

  /** The messages of a stream, including the one to be sent next. */
  function Outgoing(st: Stream): seq<Message> {
    if st.phase.Ready? then st.sent + [st.phase.next] else st.sent
  }

  /** Messages are made from published snapshots, never from an older one than before. */
  ghost predicate MessagesOk(published: seq<Snapshot>, ms: seq<Message>) {
    && (forall i :: 0 <= i < |ms| ==> Backed(published, ms[i]))
    && (forall i, j :: 0 <= i <= j < |ms| ==> ms[i].v <= ms[j].v)
  }

  ghost predicate StreamsOk(s: State) {
    forall h :: h in s.streams ==> MessagesOk(s.published, Outgoing(s.streams[h]))
  }

  /** The recorded errors are exactly those of the logs read so far. */
  ghost predicate RecordedOk(s: State) {
    s.recorded == BigUnion(LogSets(s.logs))
  }

  function LogSets(logs: seq<seq<string>>): (sets: seq<set<string>>)
    ensures |sets| == |logs| && forall l :: 0 <= l < |logs| ==> sets[l] == Recorded(Marks(logs[l]))
  {
    seq(|logs|, l requires 0 <= l < |logs| => Recorded(Marks(logs[l])))
  }

  ghost predicate Inv(s: State) {
    && PublishedOk(s.published, s.recorded)
    && MainOk(s)
    && StreamsOk(s)
    && RecordedOk(s)
    && Channel.Conserved(s.chan)
  }

  // ---------- Each step keeps it ----------

  /** What the merge and the driver check produce shows exactly the recorded RAS errors as RAS errors. */
  lemma MergeIsFaithful(rs: seq<Reporter>, recorded: set<string>, collected: seq<Collected>, states: seq<Device>,
                        accessible: string -> bool)
    requires RasLast(rs) && CollectedBy(rs, recorded, collected)
    requires Lists(states, CheckedMap(Best(Entries(collected)), accessible))
    ensures Faithful(Snapshot(states, recorded))
  {
    var checked := CheckedMap(Best(Entries(collected)), accessible);
    forall p | p in recorded
      ensures p in checked && checked[p] == RasDevice(p)
    {
      RasEntriesPublished(rs, recorded, collected, accessible, p);
    }
    forall a | a in checked && checked[a].source == "ras"
      ensures a in recorded
    {
      RasOnlyIfRecorded(rs, recorded, collected, a);
    }
    ListingIsFaithful(recorded, checked, states);
  }

  lemma ListingIsFaithful(recorded: set<string>, checked: map<string, Device>, states: seq<Device>)
    requires Lists(states, checked)
    requires forall p :: p in recorded ==> p in checked && checked[p] == RasDevice(p)
    requires forall a :: a in checked && checked[a].source == "ras" ==> a in recorded
    ensures Faithful(Snapshot(states, recorded))
  {
    forall p | p in recorded
      ensures RasDevice(p) in states
    {
      var i := ListedAt(states, checked, p);
    }
  }

  lemma ScanKeepsRecorded(s: State, line: string)
    requires RecordedOk(s) && |s.logs| > 0
    ensures RecordedOk(Scan(s, line)) && s.recorded <= Scan(s, line).recorded
  {
    var t, last, sets := Scan(s, line), |s.logs| - 1, LogSets(s.logs);
    var pci := LastPci("", Marks(s.logs[last] + [line]));
    var more := if ContainsRasError(line) && pci != "" then {pci} else {};
    MarksAppend(s.logs[last], line);
    RecordedAppend("", Marks(s.logs[last]), MarkOf(line));
    assert LogSets(t.logs) == sets[last := sets[last] + more];
    UnionGrowLast(sets, more);
  }

  lemma NewLogKeepsRecorded(s: State, t: State)
    requires RecordedOk(s) && t == s.(logs := s.logs + [[]])
    ensures RecordedOk(t)
  {
    assert Recorded(Marks([])) == {};
    assert LogSets(t.logs) == LogSets(s.logs) + [{}];
    UnionAppend(LogSets(s.logs), {});
  }

  lemma PublishKeepsStreams(s: State, sn: Snapshot)
    requires StreamsOk(s)
    ensures StreamsOk(s.(published := s.published + [sn]))
  {
    var t := s.(published := s.published + [sn]);
    forall h | h in t.streams
      ensures MessagesOk(t.published, Outgoing(t.streams[h]))
    {
      var ms := Outgoing(s.streams[h]);
      assert MessagesOk(s.published, ms);
      forall i | 0 <= i < |ms|
        ensures Backed(t.published, ms[i])
      {
        assert Backed(s.published, ms[i]);
        assert t.published[ms[i].v] == s.published[ms[i].v];
      }
    }
  }

  lemma MergeKeeps(rs: seq<Reporter>, s: State, t: State, step: Step)
    requires RasLast(rs) && Inv(s) && step.Merge? && UpdateStep(rs, s, t, step)
    ensures Inv(t)
  {
    if Failed !in step.collected {
      MergeIsFaithful(rs, s.recorded, step.collected, step.states, step.accessible);
    }
  }

  lemma PublishKeeps(rs: seq<Reporter>, s: State, t: State)
    requires Inv(s) && UpdateStep(rs, s, t, Publish)
    ensures Inv(t)
  {
    PublishKeepsStreams(s, s.main.snapshot);
    assert StreamsOk(t) by {
      assert t.streams == s.streams && t.published == s.published + [s.main.snapshot];
    }
  }

  lemma UpdateStepKeeps(rs: seq<Reporter>, s: State, t: State, step: Step)
    requires RasLast(rs) && Inv(s) && UpdateStep(rs, s, t, step)
    ensures Inv(t)
  {
    match step {
      case NewLog => LogStepKeeps(rs, s, t, step);
      case ScanLine(_) => LogStepKeeps(rs, s, t, step);
      case Merge(_, _, _) => MergeKeeps(rs, s, t, step);
      case Publish => PublishKeeps(rs, s, t);
      case _ => SkipOrReadKeeps(rs, s, t, step);
    }
  }

  lemma LogStepKeeps(rs: seq<Reporter>, s: State, t: State, step: Step)
    requires Inv(s) && UpdateStep(rs, s, t, step) && (step.NewLog? || step.ScanLine?)
    ensures Inv(t)
  {
    if step.NewLog? {
      NewLogKeepsRecorded(s, t);
    } else {
      ScanKeepsRecorded(s, step.line);
    }
    assert t.published == s.published && t.streams == s.streams && t.main == s.main && t.chan == s.chan;
  }

  lemma SkipOrReadKeeps(rs: seq<Reporter>, s: State, t: State, step: Step)
    requires Inv(s) && UpdateStep(rs, s, t, step) && (step.Skip? || step.Read?)
    ensures Inv(t)
  {
    assert t.published == s.published && t.streams == s.streams && t.recorded == s.recorded && t.logs == s.logs;
  }

  lemma SubmitStepKeeps(s: State, t: State, step: Step)
    requires Inv(s) && SubmitStep(s, t, step)
    ensures Inv(t)
  {
    match step {
      case Submit => Channel.ConservedByStep(s.chan, Channel.Enter(s.main.v));
      case Check => Channel.ConservedByStep(s.chan, Channel.Check);
      case Return => Channel.ConservedByStep(s.chan, Channel.Leave);
      case _ =>
    }
  }

  /** Changing one stream keeps the others. */
  lemma OneStream(s: State, t: State, h: nat)
    requires StreamsOk(s) && t.published == s.published
    requires h in t.streams && t.streams == s.streams[h := t.streams[h]]
    requires MessagesOk(s.published, Outgoing(t.streams[h]))
    ensures StreamsOk(t)
  {}

  lemma StreamStepKeeps(s: State, t: State, step: Step)
    requires Inv(s) && StreamStep(s, t, step)
    ensures Inv(t)
  {
    match step {
      case Open(h, _, initial, devices) =>
        assert Backed(s.published, Message(|s.published| - 1, devices));
        OneStream(s, t, h);
      case Raise(h) =>
        assert MessagesOk(s.published, Outgoing(s.streams[h]));
        OneStream(s, t, h);
        Channel.ConservedByStep(s.chan, Channel.Start(h));
      case Send(h, ok) =>
        SendKeeps(s, t, h, ok);
      case Receive(h, devices) =>
        ReceiveKeeps(s, t, h, devices);
      case Leave(h) =>
        assert MessagesOk(s.published, Outgoing(s.streams[h]));
        OneStream(s, t, h);
        Channel.ConservedByStep(s.chan, Channel.End(h));
      case _ =>
    }
  }

  lemma SendKeeps(s: State, t: State, h: nat, ok: bool)
    requires Inv(s) && StreamStep(s, t, Send(h, ok))
    ensures Inv(t)
  {
    if ok {
      assert MessagesOk(s.published, Outgoing(s.streams[h]));
      assert Outgoing(t.streams[h]) == Outgoing(s.streams[h]);
      OneStream(s, t, h);
    } else {
      FailedSendKeeps(s, t, h);
    }
  }

  lemma FailedSendKeeps(s: State, t: State, h: nat)
    requires Inv(s) && StreamStep(s, t, Send(h, false))
    ensures Inv(t)
  {
    var ms := Outgoing(s.streams[h]);
    assert MessagesOk(s.published, ms);
    assert Outgoing(t.streams[h]) == ms[..|ms| - 1];
    PrefixOk(s.published, ms, |ms| - 1);
    OneStream(s, t, h);
    if h in s.chan.live {
      Channel.ConservedByStep(s.chan, Channel.End(h));
    }
  }

  lemma PrefixOk(published: seq<Snapshot>, ms: seq<Message>, n: nat)
    requires MessagesOk(published, ms) && n <= |ms|
    ensures MessagesOk(published, ms[..n])
  {
    forall i | 0 <= i < n
      ensures Backed(published, ms[..n][i])
    {
      assert Backed(published, ms[i]);
    }
  }

  /** A received snapshot is the last one published, so no older than any sent before. */
  lemma ReceivesNewest(s: State, t: State, h: nat, devices: seq<Device>) returns (m: Message)
    requires Inv(s) && StreamStep(s, t, Receive(h, devices))
    ensures m.v + 1 == |s.published| && Backed(s.published, m)
    ensures h in s.streams && h in t.streams && Outgoing(t.streams[h]) == Outgoing(s.streams[h]) + [m]
  {
    m := Message(s.chan.submitted[|s.chan.submitted| - 1], devices);
    assert Outgoing(s.streams[h]) == s.streams[h].sent;
  }

  lemma ReceiveKeeps(s: State, t: State, h: nat, devices: seq<Device>)
    requires Inv(s) && StreamStep(s, t, Receive(h, devices))
    ensures Inv(t)
  {
    var m := ReceivesNewest(s, t, h, devices);
    assert MessagesOk(s.published, Outgoing(s.streams[h]));
    NextOk(s.published, Outgoing(s.streams[h]), m);
    OneStream(s, t, h);
    Channel.ConservedByStep(s.chan, Channel.Receive(h));
  }

  lemma NextOk(published: seq<Snapshot>, ms: seq<Message>, m: Message)
    requires MessagesOk(published, ms) && Backed(published, m) && m.v + 1 == |published|
    ensures MessagesOk(published, ms + [m])
  {
    forall i | 0 <= i < |ms|
      ensures ms[i].v <= m.v
    {
      assert Backed(published, ms[i]);
    }
  }

  lemma InitialInv()
    ensures Inv(Initial())
  {}

  lemma StepKeeps(rs: seq<Reporter>, s: State, t: State, step: Step)
    requires RasLast(rs) && Inv(s) && Next(rs, s, t, step)
    ensures Inv(t)
  {
    if UpdateStep(rs, s, t, step) {
      UpdateStepKeeps(rs, s, t, step);
    } else if SubmitStep(s, t, step) {
      SubmitStepKeeps(s, t, step);
    } else {
      StreamStepKeeps(s, t, step);
    }
  }

  /** The invariant holds in every state of every run. */
  lemma {:induction false} Reachable(rs: seq<Reporter>, states: seq<State>, steps: seq<Step>, i: nat)
    requires RasLast(rs) && Run(rs, states, steps) && i <= |steps|
    ensures Inv(states[i])
  {
    if i == 0 {
      InitialInv();
    } else {
      Reachable(rs, states, steps, i - 1);
      StepKeeps(rs, states[i - 1], states[i], steps[i - 1]);
    }
  }

  // ---------- What a client sees ----------

  /** The message names the RAS reporter as the source of an entry for p. */
  ghost predicate ShowsRas(m: Message, p: string) {
    exists i :: 0 <= i < |m.devices| && m.devices[i].addr == p && m.devices[i].source == "ras"
  }

  /** A client that receives the message finds p, and finds it only as a PF in error. */
  ghost predicate ClientSeesError(devices: seq<PbDevice>, p: string) {
    && (exists i :: 0 <= i < |devices| && devices[i].addr == p)
    && forall i :: 0 <= i < |devices| && devices[i].addr == p ==> devices[i] == PbDevice(p, PF, InError)
  }

  lemma MessageEntry(states: seq<Device>, tracked: set<string>, message: seq<Device>, i: nat)
    requires IsMessage(states, tracked, message) && i < |message|
    ensures if i < |states| then message[i] == states[i]
            else message[i] == RemovedEntry(message[i].addr) && message[i].addr !in Addrs(states)
  {
    var tail := message[|states|..];
    assert message == states + tail;
    if i >= |states| {
      assert message[i] == tail[i - |states|] && tail[i - |states|].addr in Addrs(tail);
    }
  }

  lemma RasShownIsRecorded(published: seq<Snapshot>, recorded: set<string>, m: Message, p: string)
    requires PublishedOk(published, recorded) && Backed(published, m) && ShowsRas(m, p)
    ensures p in published[m.v].ras
  {
    var states := published[m.v].states;
    var tracked :| IsMessage(states, tracked, m.devices);
    var i :| 0 <= i < |m.devices| && m.devices[i].addr == p && m.devices[i].source == "ras";
    assert Faithful(published[m.v]);
    MessageEntry(states, tracked, m.devices, i);
  }

  lemma RecordedIsShown(published: seq<Snapshot>, recorded: set<string>, m: Message, p: string)
    requires PublishedOk(published, recorded) && Backed(published, m) && p in published[m.v].ras
    ensures ClientSeesError(ToPb(m.devices), p)
  {
    var states := published[m.v].states;
    var tracked :| IsMessage(states, tracked, m.devices);
    assert Faithful(published[m.v]);
    var k :| 0 <= k < |states| && states[k] == RasDevice(p);
    MessageEntry(states, tracked, m.devices, k);
    assert states[k] in states && p in Addrs(states);
    assert ToPb(m.devices)[k].addr == p;
    forall i | 0 <= i < |m.devices| && m.devices[i].addr == p
      ensures m.devices[i].state == InError && m.devices[i].kind == PF
    {
      MessageEntry(states, tracked, m.devices, i);
    }
  }

  /**
   Once a message on a stream shows an address as a RAS error, every later message on that stream shows
   it in error: in every state of every run, for every configuration and every interleaving.
   */
  lemma RasErrorsStick(rs: seq<Reporter>, states: seq<State>, steps: seq<Step>,
                       i: nat, h: nat, m: nat, n: nat, p: string)
    requires RasLast(rs) && Run(rs, states, steps) && i <= |steps|
    requires h in states[i].streams && m <= n < |states[i].streams[h].sent|
    requires ShowsRas(states[i].streams[h].sent[m], p)
    ensures ClientSeesError(ToPb(states[i].streams[h].sent[n].devices), p)
  {
    var s := states[i];
    Reachable(rs, states, steps, i);
    var ms := Outgoing(s.streams[h]);
    assert MessagesOk(s.published, ms);
    assert ms[m] == s.streams[h].sent[m] && ms[n] == s.streams[h].sent[n];
    assert Backed(s.published, ms[m]) && Backed(s.published, ms[n]);
    RasShownIsRecorded(s.published, s.recorded, ms[m], p);
    RecordedIsShown(s.published, s.recorded, ms[n], p);
  }

  /** Whatever a stream shows as a RAS error is blamed by a line of some log that was scanned. */
  lemma ShownRasErrorsAreBlamed(rs: seq<Reporter>, states: seq<State>, steps: seq<Step>,
                                i: nat, h: nat, m: nat, p: string)
    requires RasLast(rs) && Run(rs, states, steps) && i <= |steps|
    requires h in states[i].streams && m < |states[i].streams[h].sent|
    requires ShowsRas(states[i].streams[h].sent[m], p)
    ensures exists l, k :: 0 <= l < |states[i].logs| && BlamesLine(states[i].logs[l], k, p)
  {
    var s := states[i];
    Reachable(rs, states, steps, i);
    var ms := Outgoing(s.streams[h]);
    assert MessagesOk(s.published, ms);
    assert ms[m] == s.streams[h].sent[m] && Backed(s.published, ms[m]);
    RasShownIsRecorded(s.published, s.recorded, ms[m], p);
    InBigUnion(LogSets(s.logs), p);
    var l :| 0 <= l < |s.logs| && p in LogSets(s.logs)[l];
    TextExact(s.logs[l], p);
  }

  // ---------- Streams that are opened later ----------

  /** All messages of stream g are made from snapshot v or a later one. */
  ghost predicate NoOlderThan(s: State, g: nat, v: nat) {
    g in s.streams ==> forall k :: 0 <= k < |Outgoing(s.streams[g])| ==> Outgoing(s.streams[g])[k].v >= v
  }

  lemma StreamStepKeepsAge(s: State, t: State, step: Step, g: nat, v: nat)
    requires Inv(s) && StreamStep(s, t, step)
    requires v < |s.published| && NoOlderThan(s, g, v)
    ensures t.published == s.published && NoOlderThan(t, g, v)
  {
    match step {
      case Send(h, ok) => SendKeepsAge(s, t, h, ok, g, v);
      case Receive(h, devices) => ReceiveKeepsAge(s, t, h, devices, g, v);
      case _ =>
    }
  }

  lemma SendKeepsAge(s: State, t: State, h: nat, ok: bool, g: nat, v: nat)
    requires |s.published| > 0 && StreamStep(s, t, Send(h, ok)) && NoOlderThan(s, g, v)
    ensures t.published == s.published && NoOlderThan(t, g, v)
  {
    if h == g {
      var ms := Outgoing(s.streams[g]);
      assert Outgoing(t.streams[g]) == if ok then ms else ms[..|ms| - 1];
    }
  }

  lemma ReceiveKeepsAge(s: State, t: State, h: nat, devices: seq<Device>, g: nat, v: nat)
    requires Inv(s) && StreamStep(s, t, Receive(h, devices))
    requires v < |s.published| && NoOlderThan(s, g, v)
    ensures t.published == s.published && NoOlderThan(t, g, v)
  {
    if h == g {
      assert t.streams[g].phase.next.v == |s.published| - 1;
      assert Outgoing(t.streams[g]) == Outgoing(s.streams[g]) + [t.streams[g].phase.next];
    }
  }

  /** Snapshots are only added, and the messages of a stream only get younger. */
  lemma StepKeepsAge(rs: seq<Reporter>, s: State, t: State, step: Step, g: nat, v: nat)
    requires Inv(s) && Next(rs, s, t, step)
    requires v < |s.published| && NoOlderThan(s, g, v)
    ensures s.published <= t.published && NoOlderThan(t, g, v)
  {
    if StreamStep(s, t, step) {
      StreamStepKeepsAge(s, t, step, g, v);
    }
  }

  lemma {:induction false} RunKeepsAge(rs: seq<Reporter>, states: seq<State>, steps: seq<Step>,
                                       i: nat, j: nat, g: nat, v: nat)
    requires RasLast(rs) && Run(rs, states, steps) && i <= j <= |steps|
    requires g !in states[i].streams && v < |states[i].published|
    ensures states[i].published <= states[j].published && NoOlderThan(states[j], g, v)
    decreases j
  {
    if i < j {
      RunKeepsAge(rs, states, steps, i, j - 1, g, v);
      RunStepKeepsAge(rs, states, steps, j - 1, g, v);
    }
  }

  lemma RunStepKeepsAge(rs: seq<Reporter>, states: seq<State>, steps: seq<Step>, k: nat, g: nat, v: nat)
    requires RasLast(rs) && Run(rs, states, steps) && k < |steps|
    requires v < |states[k].published| && NoOlderThan(states[k], g, v)
    ensures states[k].published <= states[k + 1].published && NoOlderThan(states[k + 1], g, v)
  {
    Reachable(rs, states, steps, k);
    StepKeepsAge(rs, states[k], states[k + 1], steps[k], g, v);
  }

  /** A message made from a snapshot that shows p makes the client see the error. */
  lemma MessageShows(rs: seq<Reporter>, states: seq<State>, steps: seq<Step>, j: nat, g: nat, n: nat, p: string)
    requires RasLast(rs) && Run(rs, states, steps) && j <= |steps|
    requires g in states[j].streams && n < |states[j].streams[g].sent|
    requires var v := states[j].streams[g].sent[n].v; v < |states[j].published| ==> p in states[j].published[v].ras
    ensures ClientSeesError(ToPb(states[j].streams[g].sent[n].devices), p)
  {
    var t := states[j];
    Reachable(rs, states, steps, j);
    var ns := Outgoing(t.streams[g]);
    assert MessagesOk(t.published, ns);
    assert ns[n] == t.streams[g].sent[n] && Backed(t.published, ns[n]);
    RecordedIsShown(t.published, t.recorded, ns[n], p);
  }

  lemma {:induction false} PublishedGrows(rs: seq<Reporter>, states: seq<State>, steps: seq<Step>, i: nat, j: nat)
    requires Run(rs, states, steps) && i <= j <= |steps|
    ensures states[i].published <= states[j].published
    decreases j
  {
    if i < j {
      PublishedGrows(rs, states, steps, i, j - 1);
      assert Next(rs, states[j - 1], states[j], steps[j - 1]);
    }
  }

  /**
   A published RAS error is shown by every message that is made from its snapshot or from a later one,
   and by every message of every stream that is opened afterwards.
   */
  lemma PublishedIsSeen(rs: seq<Reporter>, states: seq<State>, steps: seq<Step>, i: nat, j: nat,
                        v: nat, g: nat, n: nat, p: string)
    requires RasLast(rs) && Run(rs, states, steps) && i <= j <= |steps|
    requires v < |states[i].published| && p in states[i].published[v].ras
    requires g in states[j].streams && n < |states[j].streams[g].sent|
    requires g !in states[i].streams || states[j].streams[g].sent[n].v >= v
    ensures ClientSeesError(ToPb(states[j].streams[g].sent[n].devices), p)
  {
    var s, t := states[i], states[j];
    Reachable(rs, states, steps, j);
    PublishedGrows(rs, states, steps, i, j);
    if g !in s.streams {
      RunKeepsAge(rs, states, steps, i, j, g, |s.published| - 1);
      assert Outgoing(t.streams[g])[n] == t.streams[g].sent[n];
    }
    assert t.published[v] == s.published[v];
    MessageShows(rs, states, steps, j, g, n, p);
  }

  /** In particular a RAS error that any stream has shown is shown by all streams opened later. */
  lemma LaterStreamsSeeIt(rs: seq<Reporter>, states: seq<State>, steps: seq<Step>, i: nat, j: nat,
                          h: nat, m: nat, g: nat, n: nat, p: string)
    requires RasLast(rs) && Run(rs, states, steps) && i <= j <= |steps|
    requires h in states[i].streams && m < |states[i].streams[h].sent| && ShowsRas(states[i].streams[h].sent[m], p)
    requires g !in states[i].streams && g in states[j].streams && n < |states[j].streams[g].sent|
    ensures ClientSeesError(ToPb(states[j].streams[g].sent[n].devices), p)
  {
    var s := states[i];
    Reachable(rs, states, steps, i);
    var ms := Outgoing(s.streams[h]);
    assert MessagesOk(s.published, ms);
    assert ms[m] == s.streams[h].sent[m] && Backed(s.published, ms[m]);
    RasShownIsRecorded(s.published, s.recorded, ms[m], p);
    PublishedIsSeen(rs, states, steps, i, j, ms[m].v, g, n, p);
  }

  // ---------- What a client cannot miss ----------

  /** The first snapshot whose merge is still to come; one that is merged already is published before. */
  function FirstNew(s: State): nat {
    |s.published| + (if s.main.MergedStates? then 1 else 0)
  }

  /** Error p is recorded, and every snapshot from n on shows it, also one that is about to be published. */
  ghost predicate ShownFrom(s: State, n: nat, p: string) {
    && p in s.recorded
    && (s.main.MergedStates? && |s.published| >= n ==> p in s.main.snapshot.ras)
    && forall v: nat :: n <= v < |s.published| ==> p in s.published[v].ras
  }

  lemma {:induction false} RecordedIsPublished(rs: seq<Reporter>, states: seq<State>, steps: seq<Step>,
                                               i: nat, j: nat, p: string)
    requires Run(rs, states, steps) && i <= j <= |steps| && p in states[i].recorded
    ensures ShownFrom(states[j], FirstNew(states[i]), p)
    decreases j
  {
    if i < j {
      RecordedIsPublished(rs, states, steps, i, j - 1, p);
      StepKeepsShown(rs, states[j - 1], states[j], steps[j - 1], FirstNew(states[i]), p);
    }
  }

  lemma StepKeepsShown(rs: seq<Reporter>, s: State, t: State, step: Step, n: nat, p: string)
    requires Next(rs, s, t, step) && ShownFrom(s, n, p)
    ensures ShownFrom(t, n, p)
  {
    if StreamStep(s, t, step) {
      assert t.published == s.published && t.main == s.main && t.recorded == s.recorded;
    } else if SubmitStep(s, t, step) {
      assert t.published == s.published && !t.main.MergedStates? && t.recorded == s.recorded;
    }
  }

  /**
   Once an error is recorded, every message made from a snapshot that is merged afterwards shows it, on
   every stream, whether or not any stream has shown it before.
   */
  lemma RecordedIsSeen(rs: seq<Reporter>, states: seq<State>, steps: seq<Step>,
                       i: nat, j: nat, g: nat, n: nat, p: string)
    requires RasLast(rs) && Run(rs, states, steps) && i <= j <= |steps| && p in states[i].recorded
    requires g in states[j].streams && n < |states[j].streams[g].sent|
    requires states[j].streams[g].sent[n].v >= FirstNew(states[i])
    ensures ClientSeesError(ToPb(states[j].streams[g].sent[n].devices), p)
  {
    RecordedIsPublished(rs, states, steps, i, j, p);
    MessageShows(rs, states, steps, j, g, n, p);
  }

  // ---------- Errors do reach clients ----------

  /** Only the RAS reporter has something to say. */
  function Quiet(rs: seq<Reporter>, ras: seq<Device>): seq<Collected> {
    seq(|rs|, i requires 0 <= i < |rs| => if rs[i] == Ras then Ok(ras) else Ok([]))
  }

  lemma {:induction false} QuietEntries(rs: seq<Reporter>, ras: seq<Device>, n: nat)
    requires RasLast(rs) && n < |rs|
    ensures Entries(Quiet(rs, ras)[..n]) == []
  {
    if n > 0 {
      QuietEntries(rs, ras, n - 1);
      assert Quiet(rs, ras)[..n][..n - 1] == Quiet(rs, ras)[..n - 1];
    }
  }

  lemma BestOfOne(d: Device)
    ensures Best([d]) == map[d.addr := d]
  {
    assert [d][..0] == [];
    assert Best([d]) == Insert(Best([]), d);
  }

  lemma QuietListing(ds: seq<Device>)
    requires ds == [] || (|ds| == 1 && ds[0] == RasDevice(ds[0].addr))
    ensures Lists(ds, RasEntries(Addrs(ds)))
    ensures Best(ds) == RasEntries(Addrs(ds))
  {
    if |ds| == 1 {
      BestOfOne(ds[0]);
      assert ds == [ds[0]];
      assert Addrs(ds) == {ds[0].addr};
    }
  }

  lemma QuietCollected(rs: seq<Reporter>, ds: seq<Device>)
    requires RasLast(rs) && Lists(ds, RasEntries(Addrs(ds)))
    ensures CollectedBy(rs, Addrs(ds), Quiet(rs, ds)) && Failed !in Quiet(rs, ds)
  {
    forall i | 0 <= i < |rs|
      ensures Outcome(rs[i], Addrs(ds), Quiet(rs, ds)[i])
    {
      if rs[i] == Ras {
        RasStamped(Addrs(ds), ds);
      }
    }
  }

  lemma RasStamped(recorded: set<string>, ds: seq<Device>)
    requires Lists(ds, RasEntries(recorded))
    ensures forall d :: d in ds ==> d == RasDevice(d.addr)
  {}

  lemma QuietEntriesAll(rs: seq<Reporter>, ds: seq<Device>)
    requires RasLast(rs)
    ensures Entries(Quiet(rs, ds)) == ds
  {
    QuietEntries(rs, ds, |rs| - 1);
    assert [] + ds == ds;
  }

  /** A quiet round publishes the RAS errors alone; there is at most one here. */
  lemma QuietRound(rs: seq<Reporter>, ds: seq<Device>, accessible: string -> bool)
    requires RasLast(rs)
    requires ds == [] || (|ds| == 1 && ds[0] == RasDevice(ds[0].addr))
    ensures var c := Quiet(rs, ds);
      && CollectedBy(rs, Addrs(ds), c) && Failed !in c
      && Lists(ds, CheckedMap(Best(Entries(c)), accessible))
  {
    QuietListing(ds);
    QuietCollected(rs, ds);
    QuietEntriesAll(rs, ds);
    RasEntriesChecked(Addrs(ds), accessible);
  }

  lemma RasEntriesChecked(recorded: set<string>, accessible: string -> bool)
    ensures CheckedMap(RasEntries(recorded), accessible) == RasEntries(recorded)
  {}

  /** One successful update from the state s, up to the publication of its snapshot. */
  lemma PublishRound(rs: seq<Reporter>, s: State, collected: seq<Collected>, ds: seq<Device>,
                     accessible: string -> bool)
    returns (m: State, t: State)
    requires |s.published| > 0 && s.main == Idle
    requires CollectedBy(rs, s.recorded, collected) && Failed !in collected
    requires Lists(ds, CheckedMap(Best(Entries(collected)), accessible))
    ensures Next(rs, s, m, Merge(collected, ds, accessible)) && Next(rs, m, t, Publish)
    ensures t == s.(published := s.published + [Snapshot(ds, s.recorded)],
                    main := if s.round == Boot then Idle else Reading,
                    round := if s.round == Boot then First else s.round)
  {
    m := s.(main := MergedStates(Snapshot(ds, s.recorded)));
    t := s.(published := s.published + [Snapshot(ds, s.recorded)],
            main := if s.round == Boot then Idle else Reading,
            round := if s.round == Boot then First else s.round);
    assert UpdateStep(rs, s, m, Merge(collected, ds, accessible));
    assert UpdateStep(rs, m, t, Publish);
  }

  lemma QuietUpdate(rs: seq<Reporter>, s: State, ds: seq<Device>, accessible: string -> bool)
    returns (m: State, t: State)
    requires RasLast(rs) && |s.published| > 0 && s.main == Idle
    requires ds == [] || (|ds| == 1 && ds[0] == RasDevice(ds[0].addr))
    requires s.recorded == Addrs(ds)
    ensures Next(rs, s, m, Merge(Quiet(rs, ds), ds, accessible)) && Next(rs, m, t, Publish)
    ensures t == s.(published := s.published + [Snapshot(ds, Addrs(ds))],
                    main := if s.round == Boot then Idle else Reading,
                    round := if s.round == Boot then First else s.round)
  {
    QuietRound(rs, ds, accessible);
    m, t := PublishRound(rs, s, Quiet(rs, ds), ds, accessible);
  }

  lemma FirstLine(rs: seq<Reporter>, s: State, line: string) returns (m: State, t: State)
    requires ContainsRasError(line) && ExtractSen(line) != ""
    requires |s.published| > 0 && s.round != Boot && s.logs == [] && s.recorded == {}
    ensures Next(rs, s, m, NewLog) && Next(rs, m, t, ScanLine(line))
    ensures t == s.(logs := [[line]], recorded := {ExtractSen(line)})
  {
    RecordedAppend("", [], MarkOf(line));
    assert [] + [line] == [line] && Marks([line]) == [] + [MarkOf(line)];
    m := s.(logs := [[]]);
    t := s.(logs := [[line]], recorded := {ExtractSen(line)});
    assert Scan(m, line) == t;
    assert UpdateStep(rs, s, m, NewLog) && UpdateStep(rs, m, t, ScanLine(line));
  }

  lemma FirstStream(rs: seq<Reporter>, s: State) returns (m: State, t: State)
    requires |s.published| > 0 && s.round != Boot && s.streams == map[] && s.chan.live == {}
    ensures var v := |s.published| - 1; var ds := s.published[v].states;
      && Next(rs, s, m, Open(0, false, {}, ds)) && Next(rs, m, t, Send(0, true))
      && 0 in t.streams && t.streams[0].sent == [Message(v, ds)]
  {
    var v := |s.published| - 1;
    var ds := s.published[v].states;
    var st := Stream(false, {}, {}, Ready(Message(v, ds)), []);
    m := s.(streams := s.streams[0 := st]);
    t := m.(streams := m.streams[0 := st.(phase := Unflagged, sent := st.sent + [Message(v, ds)])]);
    assert AreRemovals({}, ds[|ds|..]) && {} - Addrs(ds) == {};
    assert IsMessage(ds, {}, ds);
    assert StreamStep(s, m, Open(0, false, {}, ds)) && StreamStep(m, t, Send(0, true));
  }

  /** Every line that names a device in a RAS error can make a client see that device in error. */
  lemma ErrorsReachClients(rs: seq<Reporter>, line: string)
    requires RasLast(rs) && ContainsRasError(line) && ExtractSen(line) != ""
    ensures exists states: seq<State>, steps: seq<Step> ::
      && Run(rs, states, steps)
      && 0 in states[|steps|].streams && |states[|steps|].streams[0].sent| > 0
      && ShowsRas(states[|steps|].streams[0].sent[0], ExtractSen(line))
  {
    var p := ExtractSen(line);
    var d := RasDevice(p);
    var yes: string -> bool := a => true;
    assert Addrs([]) == {} && Addrs([d]) == {p} by {
      assert d in [d];
    }
    var states, steps := [Initial()], [];
    var s1, s2 := QuietUpdate(rs, Initial(), [], yes);
    states, steps := TwoSteps(rs, states, steps, s1, s2, Merge(Quiet(rs, []), [], yes), Publish);
    var s3, s4 := FirstLine(rs, s2, line);
    states, steps := TwoSteps(rs, states, steps, s3, s4, NewLog, ScanLine(line));
    var s5, s6 := QuietUpdate(rs, s4, [d], yes);
    states, steps := TwoSteps(rs, states, steps, s5, s6, Merge(Quiet(rs, [d]), [d], yes), Publish);
    var s7, s8 := FirstStream(rs, s6);
    states, steps := TwoSteps(rs, states, steps, s7, s8, Open(0, false, {}, [d]), Send(0, true));
    assert s8.streams[0].sent[0].devices[0] == d;
    assert ShowsRas(s8.streams[0].sent[0], p);
  }

  lemma TwoSteps(rs: seq<Reporter>, states: seq<State>, steps: seq<Step>, m: State, t: State, one: Step, two: Step)
    returns (states': seq<State>, steps': seq<Step>)
    requires Run(rs, states, steps)
    requires Next(rs, states[|steps|], m, one) && Next(rs, m, t, two)
    ensures Run(rs, states', steps') && states'[|steps'|] == t
  {
    states', steps' := states + [m, t], steps + [one, two];
    forall i | 0 <= i < |steps'|
      ensures Next(rs, states'[i], states'[i + 1], steps'[i])
    {
      if i < |steps| {
        assert states'[i] == states[i] && states'[i + 1] == states[i + 1];
      }
    }
  }
}
