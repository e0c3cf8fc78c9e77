/** A run in which a device of a tracking stream's first message vanishes without being called removed. */
module FirstStates {
  import opened Devices
  import opened Merging
  import opened HealthCheck
  import opened HealthStreams
  import opened Reporters
  import opened Pipeline
  import Channel = UpdateChannel

  // ---------- One device, reported by one reporter ----------

  function Single(rs: seq<Reporter>, d: Device): seq<Collected> {
    seq(|rs|, k requires 0 <= k < |rs| => if k == 0 then Ok([d]) else Ok([]))
  }

  lemma {:induction false} SingleEntries(rs: seq<Reporter>, d: Device, n: nat)
    requires 0 < n <= |rs|
    ensures Entries(Single(rs, d)[..n]) == [d]
  {
    var c := Single(rs, d);
    assert c[..n] == c[..n - 1] + [c[n - 1]];
    EntriesAppend(c[..n - 1], c[n - 1]);
    if n > 1 {
      SingleEntries(rs, d, n - 1);
    }
  }

  lemma SingleCollected(rs: seq<Reporter>, a: string)
    requires RasLast(rs)
    ensures CollectedBy(rs, {}, Single(rs, Entry(rs[0], a, Online))) && Failed !in Single(rs, Entry(rs[0], a, Online))
  {
    var c := Single(rs, Entry(rs[0], a, Online));
    forall k | 0 <= k < |rs|
      ensures Outcome(rs[k], {}, c[k])
    {
      if k > 0 {
        assert c[k] == Ok([]) && Addrs([]) == {};
      } else {
        assert c[k].states == [Entry(rs[0], a, Online)];
      }
    }
  }

  lemma SingleListed(rs: seq<Reporter>, d: Device, accessible: string -> bool)
    requires RasLast(rs) && accessible(d.addr)
    ensures Lists([d], CheckedMap(Best(Entries(Single(rs, d))), accessible))
  {
    SingleEntries(rs, d, |rs|);
    assert Single(rs, d)[..|rs|] == Single(rs, d);
    BestOfOne(d);
    OneListed(d, CheckedMap(map[d.addr := d], accessible));
  }

  lemma OneListed(d: Device, entries: map<string, Device>)
    requires entries.Keys == {d.addr} && entries[d.addr] == d
    ensures Lists([d], entries)
  {
    assert Addrs([d]) == {d.addr} by {
      assert [d] == [] + [d];
      AddrsAppend([], d);
    }
  }

  // ---------- The steps of the run ----------

  lemma Extend(rs: seq<Reporter>, states: seq<State>, steps: seq<Step>, t: State, step: Step)
    returns (states': seq<State>, steps': seq<Step>)
    requires Run(rs, states, steps) && Next(rs, states[|steps|], t, step)
    ensures Run(rs, states', steps') && states'[|steps'|] == t
  {
    states', steps' := states + [t], steps + [step];
    forall i | 0 <= i < |steps'|
      ensures Next(rs, states'[i], states'[i + 1], steps'[i])
    {
      if i < |steps| {
        assert states'[i] == states[i] && states'[i + 1] == states[i + 1];
      }
    }
  }

  /** A tracking stream is opened and sends its first message. */
  lemma Opens(rs: seq<Reporter>, states: seq<State>, steps: seq<Step>, b: string, first: seq<Device>)
    returns (states': seq<State>, steps': seq<Step>)
    requires Run(rs, states, steps)
    requires var s := states[|steps|];
      && |s.published| > 0 && s.round != Boot && s.streams == map[] && s.chan == Channel.Initial()
      && IsMessage(s.published[|s.published| - 1].states, {b}, first)
    ensures Run(rs, states', steps')
    ensures var s, t := states[|steps|], states'[|steps'|];
      t == s.(streams := map[0 := Stream(true, {b}, {b}, Waiting, [Message(|s.published| - 1, first)])],
              chan := Channel.Do(s.chan, Channel.Start(0)))
  {
    var s := states[|steps|];
    var m := Message(|s.published| - 1, first);
    var ready, waiting := Stream(true, {b}, {b}, Ready(m), []), Stream(true, {b}, {b}, Waiting, [m]);
    var t1 := s.(streams := s.streams[0 := ready]);
    assert StreamStep(s, t1, Open(0, true, {b}, first));
    states', steps' := Extend(rs, states, steps, t1, Open(0, true, {b}, first));
    var t2 := t1.(streams := t1.streams[0 := ready], chan := Channel.Do(s.chan, Channel.Start(0)));
    assert StreamStep(t1, t2, Raise(0));
    states', steps' := Extend(rs, states', steps', t2, Raise(0));
    var t3 := t2.(streams := t2.streams[0 := waiting]);
    assert [] + [m] == [m] && ready.(sent := [m], phase := Waiting) == waiting;
    assert StreamStep(t2, t3, Send(0, true));
    states', steps' := Extend(rs, states', steps', t3, Send(0, true));
    assert s.streams[0 := ready][0 := ready][0 := waiting] == map[0 := waiting];
  }

  /** The newest snapshot is handed to the waiting stream and sent. */
  lemma Delivers(rs: seq<Reporter>, states: seq<State>, steps: seq<Step>, next: seq<Device>)
    returns (states': seq<State>, steps': seq<Step>)
    requires Run(rs, states, steps)
    requires var s := states[|steps|];
      && |s.published| > 0 && s.main == Reading
      && s.chan == Channel.Do(Channel.Initial(), Channel.Start(0))
      && 0 in s.streams && s.streams[0].phase == Waiting && s.streams[0].tracking
      && IsMessage(s.published[|s.published| - 1].states, s.streams[0].tracked, next)
    ensures Run(rs, states', steps')
    ensures var s, t := states[|steps|], states'[|steps'|];
      && 0 in t.streams && t.streams[0].tracking && t.streams[0].initial == s.streams[0].initial
      && t.streams[0].sent == s.streams[0].sent + [Message(|s.published| - 1, next)]
  {
    var s := states[|steps|];
    var v: nat := |s.published| - 1;
    var t1 := s.(main := Holding(v));
    assert UpdateStep(rs, s, t1, Read);
    states', steps' := Extend(rs, states, steps, t1, Read);
    var t2 := t1.(main := Submitting(v), chan := Channel.Do(t1.chan, Channel.Enter(v)));
    assert SubmitStep(t1, t2, Submit);
    states', steps' := Extend(rs, states', steps', t2, Submit);
    var t3 := t2.(chan := Channel.Do(t2.chan, Channel.Check));
    assert SubmitStep(t2, t3, Check);
    states', steps' := Extend(rs, states', steps', t3, Check);
    states', steps' := Receives(rs, states', steps', v, next);
  }

  lemma Receives(rs: seq<Reporter>, states: seq<State>, steps: seq<Step>, v: nat, next: seq<Device>)
    returns (states': seq<State>, steps': seq<Step>)
    requires Run(rs, states, steps)
    requires var s := states[|steps|];
      && v < |s.published| && Channel.Can(s.chan, Channel.Receive(0))
      && s.chan.submitted[|s.chan.submitted| - 1] == v
      && 0 in s.streams && s.streams[0].phase == Waiting && s.streams[0].tracking
      && IsMessage(s.published[v].states, s.streams[0].tracked, next)
    ensures Run(rs, states', steps')
    ensures var s, t := states[|steps|], states'[|steps'|];
      && 0 in t.streams && t.streams[0].tracking && t.streams[0].initial == s.streams[0].initial
      && t.streams[0].sent == s.streams[0].sent + [Message(v, next)]
  {
    var s := states[|steps|];
    var st := s.streams[0];
    var t1 := s.(streams := s.streams[0 := st.(phase := Ready(Message(v, next)),
                                               tracked := st.tracked + Addrs(s.published[v].states))],
                 chan := Channel.Do(s.chan, Channel.Receive(0)));
    assert StreamStep(s, t1, Receive(0, next));
    states', steps' := Extend(rs, states, steps, t1, Receive(0, next));
    var t2 := t1.(streams := t1.streams[0 := t1.streams[0].(sent := st.sent + [Message(v, next)], phase := Waiting)]);
    assert StreamStep(t1, t2, Send(0, true));
    states', steps' := Extend(rs, states', steps', t2, Send(0, true));
  }

  // ---------- The run ----------

  /**
   For every configuration and any two addresses: a client that names b opens a tracking stream while the
   device at a is reported and then no longer is. Its first message shows a, its second one does not
   mention a at all, not even as removed, unlike b.
   */
  lemma FirstStatesVanishInRun(rs: seq<Reporter>, a: string, b: string)
    returns (states: seq<State>, steps: seq<Step>)
    requires RasLast(rs) && a != b
    ensures Run(rs, states, steps)
    ensures var s := states[|steps|];
      && 0 in s.streams && s.streams[0].tracking && s.streams[0].initial == {b} && |s.streams[0].sent| == 2
      && a in Addrs(s.streams[0].sent[0].devices) && a !in Addrs(s.streams[0].sent[1].devices)
      && RemovedEntry(b) in s.streams[0].sent[1].devices
  {
    var d := Entry(rs[0], a, Online);
    var yes: string -> bool := x => true;
    FirstStatesVanish(d, b);
    states, steps := [Initial()], [];
    SingleCollected(rs, a);
    SingleListed(rs, d, yes);
    var m1, s1 := PublishRound(rs, Initial(), Single(rs, d), [d], yes);
    states, steps := TwoSteps(rs, states, steps, m1, s1, Merge(Single(rs, d), [d], yes), Publish);
    VanishingMessages(d, b);
    states, steps := Opens(rs, states, steps, b, [d, RemovedEntry(b)]);
    var s2 := states[|steps|];
    assert Addrs([]) == {};
    var m3, s3 := QuietUpdate(rs, s2, [], yes);
    states, steps := TwoSteps(rs, states, steps, m3, s3, Merge(Quiet(rs, []), [], yes), Publish);
    states, steps := Delivers(rs, states, steps, [RemovedEntry(b)]);
  }

  lemma VanishingMessages(d: Device, b: string)
    requires b != d.addr
    ensures IsMessage([d], {b}, [d, RemovedEntry(b)]) && IsMessage([], {b}, [RemovedEntry(b)])
  {
    FirstStatesVanish(d, b);
    var updates: seq<seq<Device>> := [[]];
    assert updates[..0] == [] && Tracked({b}, updates[..0]) == {b};
    var sent := [[d, RemovedEntry(b)], [RemovedEntry(b)]];
    assert IsMessage(updates[1 - 1], Tracked({b}, updates[..1 - 1]), sent[1]);
  }
}
