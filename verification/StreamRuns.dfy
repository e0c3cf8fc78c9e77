/** What each stream sends over a whole run of the pipeline, in terms of the updates it received. */
module StreamRuns {
  import opened Devices
  import opened HealthStreams
  import opened Reporters
  import opened Pipeline

  /** The positions in an inbox are those of submitted updates, which are positions of snapshots. */
  ghost predicate Bounded(published: seq<Snapshot>, submitted: seq<nat>, inbox: seq<nat>) {
    forall k :: 0 <= k < |inbox| ==> inbox[k] < |submitted| && submitted[inbox[k]] < |published|
  }

  /** The snapshots that an inbox stands for. */
  ghost function Received(published: seq<Snapshot>, submitted: seq<nat>, inbox: seq<nat>): (updates: seq<seq<Device>>)
    requires Bounded(published, submitted, inbox)
    ensures |updates| == |inbox|
    ensures forall k :: 0 <= k < |inbox| ==> updates[k] == published[submitted[inbox[k]]].states
  {
    seq(|inbox|, k requires 0 <= k < |inbox| => published[submitted[inbox[k]]].states)
  }

  function Bodies(ms: seq<Message>): (bodies: seq<seq<Device>>)
    ensures |bodies| == |ms| && forall k :: 0 <= k < |ms| ==> bodies[k] == ms[k].devices
  {
    seq(|ms|, k requires 0 <= k < |ms| => ms[k].devices)
  }

  function InboxOf(s: State, h: nat): seq<nat> {
    if h in s.chan.inbox then s.chan.inbox[h] else []
  }

  /** Message 0 is made from the snapshot read at the start, message k from the k-th received update. */
  ghost predicate Follows(published: seq<Snapshot>, submitted: seq<nat>, inbox: seq<nat>, ms: seq<Message>) {
    && Bounded(published, submitted, inbox)
    && |ms| <= |inbox| + 1
    && (forall k :: 0 <= k < |ms| ==> ms[k].v < |published|)
    && (forall k :: 1 <= k < |ms| ==> ms[k].v == submitted[inbox[k - 1]])
  }

  /** A tracking stream's messages form a history; a plain stream's messages are the snapshots. */
  ghost predicate Tells(published: seq<Snapshot>, updates: seq<seq<Device>>, st: Stream, ms: seq<Message>)
    requires forall k :: 0 <= k < |ms| ==> ms[k].v < |published|
  {
    if st.tracking then |ms| > 0 ==> History(st.initial, published[ms[0].v].states, updates, Bodies(ms))
    else forall k :: 0 <= k < |ms| ==> ms[k].devices == published[ms[k].v].states
  }

  ghost predicate Linked(published: seq<Snapshot>, submitted: seq<nat>, inbox: seq<nat>, st: Stream) {
    && Follows(published, submitted, inbox, Outgoing(st))
    && (st.phase != Closed ==> |Outgoing(st)| == |inbox| + 1)
    && Tells(published, Received(published, submitted, inbox), st, Outgoing(st))
    && st.tracked == if st.tracking then Tracked(st.initial, Received(published, submitted, inbox)) else {}
  }

  ghost predicate SubmittedOk(published: seq<Snapshot>, submitted: seq<nat>) {
    forall i :: 0 <= i < |submitted| ==> submitted[i] < |published|
  }

  ghost predicate LinkedAt(s: State, h: nat) {
    h in s.streams ==> Linked(s.published, s.chan.submitted, InboxOf(s, h), s.streams[h])
  }

  ghost predicate AllLinked(s: State) {
    && SubmittedOk(s.published, s.chan.submitted)
    && s.chan.inbox.Keys <= s.streams.Keys
    && forall h :: h in s.streams ==> LinkedAt(s, h)
  }

  // ---------- Each step keeps it ----------

  lemma LinkedGrows(published: seq<Snapshot>, submitted: seq<nat>, inbox: seq<nat>, st: Stream,
                    published': seq<Snapshot>, submitted': seq<nat>)
    requires Linked(published, submitted, inbox, st)
    requires published <= published' && submitted <= submitted'
    ensures Linked(published', submitted', inbox, st)
  {
    forall k | 0 <= k < |inbox|
      ensures inbox[k] < |submitted'| && submitted'[inbox[k]] == submitted[inbox[k]] < |published'|
    {}
    assert Received(published', submitted', inbox) == Received(published, submitted, inbox);
  }

  /** A step that leaves all streams and inboxes as they are. */
  lemma OthersKeepLinks(s: State, t: State)
    requires AllLinked(s) && t.streams == s.streams && t.chan.inbox == s.chan.inbox
    requires s.published <= t.published && s.chan.submitted <= t.chan.submitted
    requires SubmittedOk(t.published, t.chan.submitted)
    ensures AllLinked(t)
  {
    forall h | h in t.streams
      ensures LinkedAt(t, h)
    {
      assert LinkedAt(s, h);
      LinkedGrows(s.published, s.chan.submitted, InboxOf(s, h), s.streams[h], t.published, t.chan.submitted);
    }
  }

  lemma SubmitKeepsLinks(s: State, t: State, step: Step)
    requires Inv(s) && AllLinked(s) && SubmitStep(s, t, step)
    ensures AllLinked(t)
  {
    OthersKeepLinks(s, t);
  }

  /** Only stream h and its inbox change. */
  lemma OneLink(s: State, t: State, h: nat)
    requires AllLinked(s) && t.published == s.published && t.chan.submitted == s.chan.submitted
    requires h in t.streams && t.streams == s.streams[h := t.streams[h]]
    requires forall g :: g != h ==> (g in t.chan.inbox <==> g in s.chan.inbox)
    requires forall g :: g != h && g in s.chan.inbox ==> t.chan.inbox[g] == s.chan.inbox[g]
    requires Linked(t.published, t.chan.submitted, InboxOf(t, h), t.streams[h])
    ensures AllLinked(t)
  {
    forall g | g in t.streams
      ensures LinkedAt(t, g)
    {
      assert g != h ==> LinkedAt(s, g) && InboxOf(t, g) == InboxOf(s, g);
    }
  }

  lemma FirstMessageLinked(published: seq<Snapshot>, submitted: seq<nat>, v: nat, tracking: bool, initial: set<string>,
                           devices: seq<Device>)
    requires v < |published| && IsMessage(published[v].states, initial, devices)
    requires !tracking ==> initial == {}
    ensures Linked(published, submitted, [], Stream(tracking, initial, initial, Ready(Message(v, devices)), []))
  {
    var st := Stream(tracking, initial, initial, Ready(Message(v, devices)), []);
    assert Outgoing(st) == [Message(v, devices)];
    assert Received(published, submitted, []) == [];
    if !tracking {
      PlainMessage(published[v].states, devices);
    }
  }

  /** Without tracked devices a message is the snapshot. */
  lemma PlainMessage(states: seq<Device>, devices: seq<Device>)
    requires IsMessage(states, {}, devices)
    ensures devices == states
  {
    var tail := devices[|states|..];
    DistinctCount(tail);
    assert Addrs(tail) == {};
  }

  lemma LastDropped(published: seq<Snapshot>, submitted: seq<nat>, inbox: seq<nat>, st: Stream)
    requires Linked(published, submitted, inbox, st) && st.phase.Ready?
    ensures Linked(published, submitted, inbox, st.(phase := Closed))
  {
    assert Bodies(st.sent) == Bodies(Outgoing(st))[..|st.sent|];
    assert Outgoing(st)[..|st.sent|] == st.sent;
  }

  lemma NextMessageLinked(published: seq<Snapshot>, submitted: seq<nat>, inbox: seq<nat>, st: Stream, last: nat,
                          devices: seq<Device>)
    requires Linked(published, submitted, inbox, st) && st.phase == Waiting
    requires last < |submitted| && submitted[last] < |published|
    requires IsMessage(published[submitted[last]].states, st.tracked, devices)
    ensures var states := published[submitted[last]].states;
      Linked(published, submitted, inbox + [last],
             st.(phase := Ready(Message(submitted[last], devices)),
                 tracked := if st.tracking then st.tracked + Addrs(states) else st.tracked))
  {
    var v := submitted[last];
    var updates := Received(published, submitted, inbox);
    var more := Received(published, submitted, inbox + [last]);
    assert more == updates + [published[v].states];
    var ms := st.sent;
    var all := ms + [Message(v, devices)];
    assert Follows(published, submitted, inbox + [last], all);
    if st.tracking {
      TrackedMore(st.initial, updates, published[v].states);
      HistoryMore(st.initial, published[ms[0].v].states, updates, published[v].states, Bodies(ms), devices);
      assert Bodies(all) == Bodies(ms) + [devices];
    } else {
      PlainMessage(published[v].states, devices);
    }
  }

  lemma TrackedMore(initial: set<string>, updates: seq<seq<Device>>, states: seq<Device>)
    ensures Tracked(initial, updates + [states]) == Tracked(initial, updates) + Addrs(states)
  {
    assert (updates + [states])[..|updates|] == updates;
  }

  lemma HistoryMore(initial: set<string>, s0: seq<Device>, updates: seq<seq<Device>>, states: seq<Device>,
                    sent: seq<seq<Device>>, m: seq<Device>)
    requires History(initial, s0, updates, sent) && |sent| == |updates| + 1
    requires IsMessage(states, Tracked(initial, updates), m)
    ensures History(initial, s0, updates + [states], sent + [m])
  {
    var all := updates + [states];
    assert forall k :: 0 <= k <= |updates| ==> all[..k] == updates[..k];
    assert updates[..|updates|] == updates;
    forall k | 1 <= k < |sent| + 1
      ensures IsMessage(all[k - 1], Tracked(initial, all[..k - 1]), (sent + [m])[k])
    {
      if k < |sent| {
        assert IsMessage(updates[k - 1], Tracked(initial, updates[..k - 1]), sent[k]);
      }
    }
  }

  lemma RaiseKeepsLinks(s: State, t: State, h: nat)
    requires |s.published| > 0 && AllLinked(s) && StreamStep(s, t, Raise(h))
    ensures AllLinked(t)
  {
    assert LinkedAt(s, h);
    assert InboxOf(t, h) == InboxOf(s, h) == [];
    assert Outgoing(t.streams[h]) == Outgoing(s.streams[h]);
    OneLink(s, t, h);
  }

  lemma SentKeepsLinks(s: State, t: State, h: nat)
    requires |s.published| > 0 && AllLinked(s) && StreamStep(s, t, Send(h, true))
    ensures AllLinked(t)
  {
    assert LinkedAt(s, h);
    assert Outgoing(t.streams[h]) == Outgoing(s.streams[h]);
    OneLink(s, t, h);
  }

  lemma UnsentKeepsLinks(s: State, t: State, h: nat)
    requires |s.published| > 0 && AllLinked(s) && StreamStep(s, t, Send(h, false))
    ensures AllLinked(t)
  {
    assert LinkedAt(s, h);
    LastDropped(s.published, s.chan.submitted, InboxOf(s, h), s.streams[h]);
    OneLink(s, t, h);
  }

  lemma OpenKeepsLinks(s: State, t: State, h: nat, tracking: bool, initial: set<string>, devices: seq<Device>)
    requires |s.published| > 0 && AllLinked(s) && StreamStep(s, t, Open(h, tracking, initial, devices))
    ensures AllLinked(t)
  {
    FirstMessageLinked(s.published, s.chan.submitted, |s.published| - 1, tracking, initial, devices);
    OneLink(s, t, h);
  }

  lemma LeaveKeepsLinks(s: State, t: State, h: nat)
    requires |s.published| > 0 && AllLinked(s) && StreamStep(s, t, Leave(h))
    ensures AllLinked(t)
  {
    assert LinkedAt(s, h);
    OneLink(s, t, h);
  }

  /** What handler h finds when it receives the update at position last, and the part of the state it changes. */
  ghost predicate ReceiveEffect(s: State, t: State, h: nat, last: nat, devices: seq<Device>) {
    && h in s.streams && s.streams[h].phase == Waiting
    && last < |s.chan.submitted| && s.chan.submitted[last] < |s.published|
    && var st, v := s.streams[h], s.chan.submitted[last];
    && IsMessage(s.published[v].states, st.tracked, devices)
    && t.published == s.published && t.chan.submitted == s.chan.submitted
    && t.chan.inbox == s.chan.inbox[h := InboxOf(s, h) + [last]]
    && t.streams == s.streams[h := st.(phase := Ready(Message(v, devices)),
         tracked := if st.tracking then st.tracked + Addrs(s.published[v].states) else st.tracked)]
  }

  lemma ReceiveHasEffect(s: State, t: State, h: nat, devices: seq<Device>) returns (last: nat)
    requires |s.published| > 0 && StreamStep(s, t, Receive(h, devices))
    ensures ReceiveEffect(s, t, h, last, devices)
  {
    last := |s.chan.submitted| - 1;
  }

  lemma ReceiveKeepsLinks(s: State, t: State, h: nat, last: nat, devices: seq<Device>)
    requires AllLinked(s) && ReceiveEffect(s, t, h, last, devices)
    ensures AllLinked(t)
  {
    assert LinkedAt(s, h);
    NextMessageLinked(s.published, s.chan.submitted, InboxOf(s, h), s.streams[h], last, devices);
    OneLink(s, t, h);
  }

  lemma StreamKeepsLinks(s: State, t: State, step: Step)
    requires |s.published| > 0 && AllLinked(s) && StreamStep(s, t, step)
    ensures AllLinked(t)
  {
    match step {
      case Open(h, tracking, initial, devices) => OpenKeepsLinks(s, t, h, tracking, initial, devices);
      case Raise(h) => RaiseKeepsLinks(s, t, h);
      case Send(h, ok) =>
        if ok {
          SentKeepsLinks(s, t, h);
        } else {
          UnsentKeepsLinks(s, t, h);
        }
      case Receive(h, devices) =>
        var last := ReceiveHasEffect(s, t, h, devices);
        ReceiveKeepsLinks(s, t, h, last, devices);
      case Leave(h) => LeaveKeepsLinks(s, t, h);
      case _ =>
    }
  }

  lemma UpdateEffect(rs: seq<Reporter>, s: State, t: State, step: Step)
    requires |s.published| > 0 && UpdateStep(rs, s, t, step)
    ensures t.streams == s.streams && t.chan == s.chan && s.published <= t.published
  {}

  lemma StepKeepsLinks(rs: seq<Reporter>, s: State, t: State, step: Step)
    requires Inv(s) && AllLinked(s) && Next(rs, s, t, step)
    ensures AllLinked(t)
  {
    if UpdateStep(rs, s, t, step) {
      UpdateEffect(rs, s, t, step);
      OthersKeepLinks(s, t);
    } else if SubmitStep(s, t, step) {
      SubmitKeepsLinks(s, t, step);
    } else {
      StreamKeepsLinks(s, t, step);
    }
  }

  lemma {:induction false} AlwaysLinked(rs: seq<Reporter>, states: seq<State>, steps: seq<Step>, i: nat)
    requires RasLast(rs) && Run(rs, states, steps) && i <= |steps|
    ensures AllLinked(states[i])
  {
    if i > 0 {
      AlwaysLinked(rs, states, steps, i - 1);
      Reachable(rs, states, steps, i - 1);
      StepKeepsLinks(rs, states[i - 1], states[i], steps[i - 1]);
    }
  }

  // ---------- What a stream sends ----------

  /**
   In every run, message k of a stream is made from the k-th update that its handler received. A plain
   stream's messages are those snapshots; the messages of a tracking stream form the history that starts
   from its client's list and the first snapshot.
   */
  lemma StreamTells(rs: seq<Reporter>, states: seq<State>, steps: seq<Step>, i: nat, h: nat)
    requires RasLast(rs) && Run(rs, states, steps) && i <= |steps| && h in states[i].streams
    ensures var s := states[i]; var st, inbox := s.streams[h], InboxOf(s, h);
      && Follows(s.published, s.chan.submitted, inbox, st.sent)
      && Tells(s.published, Received(s.published, s.chan.submitted, inbox), st, st.sent)
  {
    AlwaysLinked(rs, states, steps, i);
    var s := states[i];
    assert LinkedAt(s, h);
    if s.streams[h].phase.Ready? {
      LastDropped(s.published, s.chan.submitted, InboxOf(s, h), s.streams[h]);
    }
  }

  /** In every run, no address vanishes from a tracking stream after its message 1. */
  lemma NothingVanishesInRuns(rs: seq<Reporter>, states: seq<State>, steps: seq<Step>, i: nat, h: nat, j: nat, k: nat)
    requires RasLast(rs) && Run(rs, states, steps) && i <= |steps| && h in states[i].streams
    requires states[i].streams[h].tracking && 1 <= j <= k < |states[i].streams[h].sent|
    ensures Addrs(states[i].streams[h].sent[j].devices) <= Addrs(states[i].streams[h].sent[k].devices)
  {
    StreamTells(rs, states, steps, i, h);
    var s := states[i];
    var st := s.streams[h];
    NothingVanishes(st.initial, s.published[st.sent[0].v].states,
                    Received(s.published, s.chan.submitted, InboxOf(s, h)), Bodies(st.sent), j, k);
  }

  // ---------- No address twice ----------

  ghost predicate DistinctOk(s: State) {
    && (forall i :: 0 <= i < |s.published| ==> Distinct(s.published[i].states))
    && (s.main.MergedStates? ==> Distinct(s.main.snapshot.states))
  }

  lemma StepKeepsDistinct(rs: seq<Reporter>, s: State, t: State, step: Step)
    requires Next(rs, s, t, step) && DistinctOk(s)
    ensures DistinctOk(t)
  {
    if UpdateStep(rs, s, t, step) {
      UpdateKeepsDistinct(rs, s, t, step);
    } else if StreamStep(s, t, step) {
      assert t.published == s.published && t.main == s.main;
    } else {
      assert t.published == s.published && !t.main.MergedStates?;
    }
  }

  lemma UpdateKeepsDistinct(rs: seq<Reporter>, s: State, t: State, step: Step)
    requires |s.published| > 0 && UpdateStep(rs, s, t, step) && DistinctOk(s)
    ensures DistinctOk(t)
  {
    match step {
      case Publish => assert t.published == s.published + [s.main.snapshot];
      case _ => assert t.published == s.published;
    }
  }

  lemma {:induction false} AlwaysDistinct(rs: seq<Reporter>, states: seq<State>, steps: seq<Step>, i: nat)
    requires Run(rs, states, steps) && i <= |steps|
    ensures DistinctOk(states[i])
  {
    if i > 0 {
      AlwaysDistinct(rs, states, steps, i - 1);
      StepKeepsDistinct(rs, states[i - 1], states[i], steps[i - 1]);
    }
  }

  /** In every run, no message of any stream has an address twice. */
  lemma MessagesDistinct(rs: seq<Reporter>, states: seq<State>, steps: seq<Step>, i: nat, h: nat, k: nat)
    requires RasLast(rs) && Run(rs, states, steps) && i <= |steps| && h in states[i].streams
    requires k < |states[i].streams[h].sent|
    ensures Distinct(states[i].streams[h].sent[k].devices)
  {
    var s := states[i];
    Reachable(rs, states, steps, i);
    AlwaysDistinct(rs, states, steps, i);
    var ms := Outgoing(s.streams[h]);
    assert MessagesOk(s.published, ms) && ms[k] == s.streams[h].sent[k];
    assert Backed(s.published, ms[k]);
    var tracked :| IsMessage(s.published[ms[k].v].states, tracked, ms[k].devices);
    MessageDistinct(s.published[ms[k].v].states, tracked, ms[k].devices);
  }

  /** In every run, message k of a tracking stream has exactly one entry for each address tracked by then. */
  lemma MessageCount(rs: seq<Reporter>, states: seq<State>, steps: seq<Step>, i: nat, h: nat, k: nat)
    requires RasLast(rs) && Run(rs, states, steps) && i <= |steps| && h in states[i].streams
    requires states[i].streams[h].tracking && 1 <= k < |states[i].streams[h].sent|
    ensures var s := states[i]; var st, inbox := s.streams[h], InboxOf(s, h);
      && Bounded(s.published, s.chan.submitted, inbox) && k <= |inbox|
      && |st.sent[k].devices| == |Tracked(st.initial, Received(s.published, s.chan.submitted, inbox)[..k])|
  {
    StreamTells(rs, states, steps, i, h);
    AlwaysDistinct(rs, states, steps, i);
    var s := states[i];
    var st := s.streams[h];
    DistinctMessages(st.initial, s.published[st.sent[0].v].states,
                     Received(s.published, s.chan.submitted, InboxOf(s, h)), Bodies(st.sent), k);
  }

  // ---------- What a client receives ----------

  /** The addresses that a tracking stream compares message k with. */
  ghost function TrackedAt(s: State, h: nat, k: nat): set<string>
    requires h in s.streams
    requires k > 0 ==> Bounded(s.published, s.chan.submitted, InboxOf(s, h)) && k <= |InboxOf(s, h)| + 1
  {
    if k == 0 then s.streams[h].initial
    else Tracked(s.streams[h].initial, Received(s.published, s.chan.submitted, InboxOf(s, h))[..k - 1])
  }

  /** Message k of a stream is made from the snapshot that it names and from the addresses tracked before it. */
  lemma MessageMadeFrom(rs: seq<Reporter>, states: seq<State>, steps: seq<Step>, i: nat, h: nat, k: nat)
    requires RasLast(rs) && Run(rs, states, steps) && i <= |steps| && h in states[i].streams
    requires k < |states[i].streams[h].sent|
    ensures var s := states[i]; var st, inbox := s.streams[h], InboxOf(s, h); var m := st.sent[k];
      && Bounded(s.published, s.chan.submitted, inbox) && k <= |inbox| && m.v < |s.published|
      && IsMessage(s.published[m.v].states, if st.tracking then TrackedAt(s, h, k) else {}, m.devices)
  {
    StreamTells(rs, states, steps, i, h);
    var s := states[i];
    var st, updates := s.streams[h], Received(s.published, s.chan.submitted, InboxOf(s, h));
    if st.tracking {
      assert Bodies(st.sent)[k] == st.sent[k].devices;
      assert k > 0 ==> updates[k - 1] == s.published[st.sent[k].v].states;
    } else {
      var states := s.published[st.sent[k].v].states;
      assert AreRemovals({}, states[|states|..]) && {} - Addrs(states) == {};
      assert states[..|states|] == states;
    }
  }

  /**
   In every run the client of any stream receives, in message k, the devices of the snapshot it is made
   from with their types and states, and after them only tracked devices that the snapshot lacks, as
   removed devices of no type. So no device of the snapshot arrives as removed unless it says so itself.
   */
  lemma ClientReceives(rs: seq<Reporter>, states: seq<State>, steps: seq<Step>, i: nat, h: nat, k: nat, e: nat)
    requires RasLast(rs) && Run(rs, states, steps) && i <= |steps| && h in states[i].streams
    requires k < |states[i].streams[h].sent| && e < |ToPb(states[i].streams[h].sent[k].devices)|
    ensures var s := states[i]; var m := s.streams[h].sent[k]; var pb := ToPb(m.devices)[e];
      && m.v < |s.published| && |s.published[m.v].states| <= |ToPb(m.devices)|
      && var snapshot := s.published[m.v].states;
      if e < |snapshot| then
        pb.addr == snapshot[e].addr && pb.kind == snapshot[e].kind && pb.state == snapshot[e].state
      else
        s.streams[h].tracking && pb.kind == UnspecifiedType && pb.state == Removed && pb.addr !in Addrs(snapshot)
  {
    MessageMadeFrom(rs, states, steps, i, h, k);
    var s := states[i];
    var m := s.streams[h].sent[k];
    var tracked := if s.streams[h].tracking then TrackedAt(s, h, k) else {};
    ReceivedEntry(s.published[m.v].states, tracked, m.devices, e);
  }

  /** In every run a tracked device that the snapshot of a message lacks reaches the client as removed. */
  lemma MissingIsTold(rs: seq<Reporter>, states: seq<State>, steps: seq<Step>, i: nat, h: nat, k: nat, a: string)
    requires RasLast(rs) && Run(rs, states, steps) && i <= |steps| && h in states[i].streams
    requires states[i].streams[h].tracking && k < |states[i].streams[h].sent|
    ensures var s := states[i]; var m := s.streams[h].sent[k];
      && Bounded(s.published, s.chan.submitted, InboxOf(s, h)) && k <= |InboxOf(s, h)| && m.v < |s.published|
      && (a in TrackedAt(s, h, k) && a !in Addrs(s.published[m.v].states) ==>
            && (exists e :: 0 <= e < |ToPb(m.devices)| && ToPb(m.devices)[e] == PbDevice(a, UnspecifiedType, Removed))
            && forall e :: 0 <= e < |ToPb(m.devices)| && ToPb(m.devices)[e].addr == a ==>
                 ToPb(m.devices)[e] == PbDevice(a, UnspecifiedType, Removed))
  {
    MessageMadeFrom(rs, states, steps, i, h, k);
    var s := states[i];
    var m := s.streams[h].sent[k];
    if a in TrackedAt(s, h, k) && a !in Addrs(s.published[m.v].states) {
      MissingArrivesRemoved(s.published[m.v].states, TrackedAt(s, h, k), m.devices, a);
    }
  }
}
