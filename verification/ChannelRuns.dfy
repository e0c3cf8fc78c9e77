/** The channel inside the pipeline: what is proved of the channel alone holds in every run of the pipeline. */
module ChannelRuns {
  import opened Reporters
  import opened Pipeline
  import Channel = UpdateChannel

  /** The step of the channel that a step of the pipeline makes: none or one. */
  function ChannelStep(s: State, step: Step): seq<Channel.Step<nat>> {
    match step
    case Submit => if s.main.Holding? then [Channel.Enter(s.main.v)] else []
    case Check => [Channel.Check]
    case Return => [Channel.Leave]
    case Raise(h) => [Channel.Start(h)]
    case Send(h, ok) => if !ok && h in s.chan.live then [Channel.End(h)] else []
    case Receive(h, _) => [Channel.Receive(h)]
    case Leave(h) => [Channel.End(h)]
    case _ => []
  }

  /** The channel makes the given steps, none or one, from c to d. */
  ghost predicate Makes(c: Channel.State<nat>, steps: seq<Channel.Step<nat>>, d: Channel.State<nat>) {
    if steps == [] then d == c
    else |steps| == 1 && Channel.Can(c, steps[0]) && d == Channel.Do(c, steps[0])
  }

  lemma StepMakes(rs: seq<Reporter>, s: State, t: State, step: Step)
    requires Next(rs, s, t, step)
    ensures Makes(s.chan, ChannelStep(s, step), t.chan)
  {
    if UpdateStep(rs, s, t, step) {
      UpdateMakes(rs, s, t, step);
    } else if SubmitStep(s, t, step) {
      SubmitMakes(s, t, step);
    } else {
      StreamMakes(s, t, step);
    }
  }

  lemma UpdateMakes(rs: seq<Reporter>, s: State, t: State, step: Step)
    requires |s.published| > 0 && UpdateStep(rs, s, t, step)
    ensures Makes(s.chan, ChannelStep(s, step), t.chan)
  {}

  lemma SubmitMakes(s: State, t: State, step: Step)
    requires SubmitStep(s, t, step)
    ensures Makes(s.chan, ChannelStep(s, step), t.chan)
  {}

  lemma StreamMakes(s: State, t: State, step: Step)
    requires |s.published| > 0 && StreamStep(s, t, step)
    ensures Makes(s.chan, ChannelStep(s, step), t.chan)
  {}

  /** A run of the channel in which state pos[k] is that of the pipeline after k steps. */
  ghost predicate Projects(states: seq<State>, steps: seq<Step>, i: nat,
                           cs: seq<Channel.State<nat>>, ts: seq<Channel.Step<nat>>, pos: seq<nat>)
    requires i <= |steps| < |states|
  {
    && Channel.Run(cs, ts)
    && |pos| == i + 1 && pos[i] == |ts|
    && (forall k :: 0 <= k <= i ==> pos[k] <= |ts| && cs[pos[k]] == states[k].chan)
    && (forall k :: 0 <= k < i ==> pos[k] <= pos[k + 1] && ts[pos[k]..pos[k + 1]] == ChannelStep(states[k], steps[k]))
  }

  /** The channel part of every run of the pipeline is a run of the channel. */
  lemma {:induction false} Projection(rs: seq<Reporter>, states: seq<State>, steps: seq<Step>, i: nat)
    returns (cs: seq<Channel.State<nat>>, ts: seq<Channel.Step<nat>>, pos: seq<nat>)
    requires Run(rs, states, steps) && i <= |steps|
    ensures Projects(states, steps, i, cs, ts, pos)
  {
    if i == 0 {
      cs, ts, pos := [Channel.Initial()], [], [0];
    } else {
      cs, ts, pos := Projection(rs, states, steps, i - 1);
      StepMakes(rs, states[i - 1], states[i], steps[i - 1]);
      cs, ts, pos := ExtendProjection(states, steps, i - 1, cs, ts, pos);
    }
  }

  lemma ExtendProjection(states: seq<State>, steps: seq<Step>, i: nat,
                         cs: seq<Channel.State<nat>>, ts: seq<Channel.Step<nat>>, pos: seq<nat>)
    returns (cs': seq<Channel.State<nat>>, ts': seq<Channel.Step<nat>>, pos': seq<nat>)
    requires i < |steps| < |states| && Projects(states, steps, i, cs, ts, pos)
    requires Makes(states[i].chan, ChannelStep(states[i], steps[i]), states[i + 1].chan)
    ensures Projects(states, steps, i + 1, cs', ts', pos')
  {
    var made := ChannelStep(states[i], steps[i]);
    cs' := if made == [] then cs else cs + [states[i + 1].chan];
    ts' := ts + made;
    pos' := pos + [|ts'|];
    ExtendRun(cs, ts, made, states[i + 1].chan);
    forall k | 0 <= k < i + 1
      ensures pos'[k] <= pos'[k + 1] && ts'[pos'[k]..pos'[k + 1]] == ChannelStep(states[k], steps[k])
    {
      if k < i {
        SamePart(ts, made, pos[k], pos[k + 1]);
      } else {
        LastPart(ts, made);
      }
    }
    forall k | 0 <= k <= i
      ensures pos'[k] <= |ts'| && cs'[pos'[k]] == states[k].chan
    {
      assert cs'[pos[k]] == cs[pos[k]];
    }
  }

  lemma ExtendRun(cs: seq<Channel.State<nat>>, ts: seq<Channel.Step<nat>>, made: seq<Channel.Step<nat>>,
                  d: Channel.State<nat>)
    requires Channel.Run(cs, ts) && Makes(cs[|ts|], made, d)
    ensures var cs' := if made == [] then cs else cs + [d];
      Channel.Run(cs', ts + made) && cs'[|ts + made|] == d
  {
    if made == [] {
      assert ts + made == ts;
    } else {
      var cs', ts' := cs + [d], ts + made;
      forall k | 0 <= k < |ts'|
        ensures Channel.Can(cs'[k], ts'[k]) && cs'[k + 1] == Channel.Do(cs'[k], ts'[k])
      {
        assert k < |ts| ==> cs'[k] == cs[k] && cs'[k + 1] == cs[k + 1] && ts'[k] == ts[k];
      }
    }
  }

  lemma SamePart<T>(ts: seq<T>, made: seq<T>, a: nat, b: nat)
    requires a <= b <= |ts|
    ensures (ts + made)[a..b] == ts[a..b]
  {}

  lemma LastPart<T>(ts: seq<T>, made: seq<T>)
    ensures (ts + made)[|ts|..|ts + made|] == made
  {}

  /** The update at position id was submitted, and main is no longer inside UpdateHealths with it. */
  predicate Returned(s: State, id: nat) {
    id < |s.chan.submitted| && (id + 1 == |s.chan.submitted| ==> !s.main.Submitting?)
  }

  /** In every run, an update that has returned was dropped, or received by exactly one stream. */
  lemma ReturnedIsReceived(rs: seq<Reporter>, states: seq<State>, steps: seq<Step>, i: nat, id: nat)
    requires RasLast(rs) && Run(rs, states, steps) && i <= |steps| && Returned(states[i], id)
    ensures var c := states[i].chan;
      if id in c.dropped then forall h :: !Channel.Received(c, id, h)
      else exists h :: Channel.Received(c, id, h) && forall g :: Channel.Received(c, id, g) ==> g == h
  {
    Reachable(rs, states, steps, i);
    var c := states[i].chan;
    assert Channel.InOnePlace(c, id);
    assert !Channel.InFlight(c, id);
  }

  /** In every run, an update is dropped for good exactly when the flag is down when it is looked at. */
  lemma DroppedInRunIff(rs: seq<Reporter>, states: seq<State>, steps: seq<Step>, k: nat, i: nat)
    requires Run(rs, states, steps) && k < i <= |steps| && steps[k] == Step.Check
    ensures var id := |states[k].chan.submitted| - 1;
      0 <= id < |states[i].chan.submitted| && (id in states[i].chan.dropped <==> !states[k].chan.streaming)
  {
    var cs, ts, pos := Projection(rs, states, steps, i);
    PositionsGrow(pos, k + 1, i);
    assert ts[pos[k]..pos[k + 1]] == [Channel.Check];
    assert ts[pos[k]..pos[k + 1]][0] == ts[pos[k]];
    Channel.DroppedIff(cs, ts, pos[k], pos[i]);
    Channel.FlagExact(cs, ts, pos[k]);
    assert Channel.Can(cs[pos[k]], ts[pos[k]]);
  }

  lemma {:induction false} PositionsGrow(pos: seq<nat>, j: nat, k: nat)
    requires j <= k < |pos| && forall l :: 0 <= l < |pos| - 1 ==> pos[l] <= pos[l + 1]
    ensures pos[j] <= pos[k]
    decreases k
  {
    if j < k {
      PositionsGrow(pos, j, k - 1);
      assert pos[k - 1] <= pos[k - 1 + 1];
    }
  }

  // ---------- One stream ----------

  lemma {:induction false} OneHandlerFlag(cs: seq<Channel.State<nat>>, ts: seq<Channel.Step<nat>>, i: nat, h: nat)
    requires Channel.Run(cs, ts) && i <= |ts| && cs[i].inbox.Keys <= {h}
    ensures cs[i].streaming <==> h in cs[i].live
  {
    if i > 0 {
      assert cs[i] == Channel.Do(cs[i - 1], ts[i - 1]) && Channel.Can(cs[i - 1], ts[i - 1]);
      assert cs[i - 1].inbox.Keys <= cs[i].inbox.Keys;
      OneHandlerFlag(cs, ts, i - 1, h);
      Channel.Conservation(cs, ts, i - 1);
      match ts[i - 1] {
        case Start(g) => assert g in cs[i].inbox;
        case End(g) => assert g in cs[i - 1].inbox;
        case _ =>
      }
    }
  }

  lemma {:induction false} HandlersAreStreams(rs: seq<Reporter>, states: seq<State>, steps: seq<Step>, i: nat)
    requires Run(rs, states, steps) && i <= |steps|
    ensures states[i].chan.inbox.Keys <= states[i].streams.Keys
    ensures i > 0 ==> states[i - 1].streams.Keys <= states[i].streams.Keys
  {
    if i > 0 {
      HandlersAreStreams(rs, states, steps, i - 1);
      HandlersStep(rs, states[i - 1], states[i], steps[i - 1]);
    }
  }

  lemma HandlersStep(rs: seq<Reporter>, s: State, t: State, step: Step)
    requires Next(rs, s, t, step) && s.chan.inbox.Keys <= s.streams.Keys
    ensures t.chan.inbox.Keys <= t.streams.Keys && s.streams.Keys <= t.streams.Keys
  {}

  lemma {:induction false} StreamsGrow(rs: seq<Reporter>, states: seq<State>, steps: seq<Step>, k: nat, i: nat)
    requires Run(rs, states, steps) && k <= i <= |steps|
    ensures states[k].streams.Keys <= states[i].streams.Keys
    decreases i
  {
    if k < i {
      StreamsGrow(rs, states, steps, k, i - 1);
      HandlersAreStreams(rs, states, steps, i);
    }
  }

  /** As long as there is one stream, the flag tells whether it is live. */
  lemma OneStreamFlag(rs: seq<Reporter>, states: seq<State>, steps: seq<Step>, k: nat, h: nat)
    requires Run(rs, states, steps) && k <= |steps| && states[k].streams.Keys <= {h}
    ensures states[k].chan.streaming <==> h in states[k].chan.live
  {
    var cs, ts, pos := Projection(rs, states, steps, k);
    HandlersAreStreams(rs, states, steps, k);
    OneHandlerFlag(cs, ts, pos[k], h);
  }

  /**
   With one stream, an update that has returned was received by it exactly when the stream was live as the
   flag was looked at: nothing passes a single stream by.
   */
  lemma OneStreamReceives(rs: seq<Reporter>, states: seq<State>, steps: seq<Step>, k: nat, i: nat, h: nat)
    requires RasLast(rs) && Run(rs, states, steps) && k < i <= |steps| && steps[k] == Step.Check
    requires states[i].streams.Keys <= {h} && |states[k].chan.submitted| > 0
    requires Returned(states[i], |states[k].chan.submitted| - 1)
    ensures Channel.Received(states[i].chan, |states[k].chan.submitted| - 1, h) <==> h in states[k].chan.live
  {
    StreamsGrow(rs, states, steps, k, i);
    OneStreamFlag(rs, states, steps, k, h);
    DroppedInRunIff(rs, states, steps, k, i);
    ReturnedIsReceived(rs, states, steps, i, |states[k].chan.submitted| - 1);
    HandlersAreStreams(rs, states, steps, i);
  }

  // ---------- The flag and the streams ----------

  /**
   A waiting stream is live and a closed one is not. A plain stream raises the flag only when its first
   message is out, a tracking stream before.
   */
  ghost predicate FlagInStep(s: State, h: nat)
    requires h in s.streams
  {
    var st := s.streams[h];
    && (st.phase == Waiting ==> h in s.chan.live)
    && (st.phase == Closed ==> h !in s.chan.live)
    && (h in s.chan.live ==> h in s.chan.inbox)
    && (!st.tracking && h in s.chan.inbox ==> |st.sent| > 0)
    && (!st.tracking && st.phase == Unflagged ==> |st.sent| > 0)
    && (st.tracking && |st.sent| > 0 ==> h in s.chan.inbox)
  }

  ghost predicate FlagsInStep(s: State) {
    && s.chan.live <= s.chan.inbox.Keys <= s.streams.Keys
    && forall h :: h in s.streams ==> FlagInStep(s, h)
  }

  lemma OthersKeepFlags(s: State, t: State, h: nat)
    requires FlagsInStep(s) && h in t.streams && t.streams == s.streams[h := t.streams[h]]
    requires t.chan.live <= t.chan.inbox.Keys && t.chan.inbox.Keys <= t.streams.Keys
    requires forall g :: g != h ==> (g in t.chan.live <==> g in s.chan.live)
    requires forall g :: g != h ==> (g in t.chan.inbox <==> g in s.chan.inbox)
    requires FlagInStep(t, h)
    ensures FlagsInStep(t)
  {
    forall g | g in t.streams
      ensures FlagInStep(t, g)
    {
      assert g != h ==> FlagInStep(s, g);
    }
  }

  lemma StreamKeepsFlags(s: State, t: State, step: Step)
    requires |s.published| > 0 && StreamStep(s, t, step) && FlagsInStep(s)
    ensures FlagsInStep(t)
  {
    match step {
      case Open(h, _, _, _) => OthersKeepFlags(s, t, h);
      case Raise(h) =>
        assert FlagInStep(s, h);
        OthersKeepFlags(s, t, h);
      case Send(h, _) =>
        assert FlagInStep(s, h);
        OthersKeepFlags(s, t, h);
      case Receive(h, _) =>
        assert FlagInStep(s, h);
        OthersKeepFlags(s, t, h);
      case Leave(h) =>
        assert FlagInStep(s, h);
        OthersKeepFlags(s, t, h);
      case _ =>
    }
  }

  lemma StepKeepsFlags(rs: seq<Reporter>, s: State, t: State, step: Step)
    requires Next(rs, s, t, step) && FlagsInStep(s)
    ensures FlagsInStep(t)
  {
    if StreamStep(s, t, step) {
      StreamKeepsFlags(s, t, step);
    } else {
      SameFlags(rs, s, t, step);
      forall h | h in t.streams
        ensures FlagInStep(t, h)
      {
        assert FlagInStep(s, h);
      }
    }
  }

  lemma SameFlags(rs: seq<Reporter>, s: State, t: State, step: Step)
    requires Next(rs, s, t, step) && !StreamStep(s, t, step)
    ensures t.streams == s.streams && t.chan.live == s.chan.live && t.chan.inbox == s.chan.inbox
  {}

  /** In every state of every run each stream and the flag are in step. */
  lemma {:induction false} AlwaysInStep(rs: seq<Reporter>, states: seq<State>, steps: seq<Step>, i: nat)
    requires Run(rs, states, steps) && i <= |steps|
    ensures FlagsInStep(states[i])
  {
    if i > 0 {
      AlwaysInStep(rs, states, steps, i - 1);
      StepKeepsFlags(rs, states[i - 1], states[i], steps[i - 1]);
    }
  }

  // ---------- What is submitted ----------

  /** The updates submitted so far, and the one that the current round is yet to submit. */
  function Due(s: State): nat {
    |s.chan.submitted| +
    (if s.main.MergedStates? || s.main == Failing || s.main == Reading || s.main.Holding? then 1 else 0)
  }

  function Merges(steps: seq<Step>): nat {
    if |steps| == 0 then 0
    else Merges(steps[..|steps| - 1]) + (if steps[|steps| - 1].Merge? then 1 else 0)
  }

  lemma PeriodicStep(rs: seq<Reporter>, s: State, t: State, step: Step)
    requires Next(rs, s, t, step) && s.round == Periodic
    ensures t.round == Periodic && Due(t) == Due(s) + (if step.Merge? then 1 else 0)
  {
    if StreamStep(s, t, step) {
      assert t.main == s.main && t.round == s.round && t.chan.submitted == s.chan.submitted;
    }
  }

  lemma {:induction false} StaysPeriodic(rs: seq<Reporter>, states: seq<State>, steps: seq<Step>, i: nat, j: nat)
    requires Run(rs, states, steps) && i <= j <= |steps| && states[i].round == Periodic
    ensures states[j].round == Periodic
    decreases j
  {
    if i < j {
      StaysPeriodic(rs, states, steps, i, j - 1);
      RunPeriodicStep(rs, states, steps, j - 1);
    }
  }

  lemma {:induction false} CountMerges(due: seq<nat>, steps: seq<Step>, i: nat, j: nat)
    requires i <= j <= |steps| < |due|
    requires forall k :: i <= k < j ==> due[k + 1] == due[k] + (if steps[k].Merge? then 1 else 0)
    ensures due[j] == due[i] + Merges(steps[i..j])
    decreases j
  {
    if i < j {
      CountMerges(due, steps, i, j - 1);
      MergesStep(steps, i, j - 1);
      assert due[j - 1 + 1] == due[j - 1] + (if steps[j - 1].Merge? then 1 else 0);
    }
  }

  /** Each periodic update submits exactly one snapshot, whether it succeeds or fails. */
  lemma PeriodicUpdatesSubmit(rs: seq<Reporter>, states: seq<State>, steps: seq<Step>, i: nat, j: nat)
    requires Run(rs, states, steps) && i <= j <= |steps| && states[i].round == Periodic
    ensures states[j].round == Periodic && Due(states[j]) == Due(states[i]) + Merges(steps[i..j])
  {
    StaysPeriodic(rs, states, steps, i, j);
    var due: seq<nat> := seq(|states|, k requires 0 <= k < |states| => Due(states[k]));
    forall k | i <= k < j
      ensures due[k + 1] == due[k] + (if steps[k].Merge? then 1 else 0)
    {
      StaysPeriodic(rs, states, steps, i, k);
      RunPeriodicStep(rs, states, steps, k);
    }
    CountMerges(due, steps, i, j);
  }

  lemma RunPeriodicStep(rs: seq<Reporter>, states: seq<State>, steps: seq<Step>, k: nat)
    requires Run(rs, states, steps) && k < |steps| && states[k].round == Periodic
    ensures states[k + 1].round == Periodic
    ensures Due(states[k + 1]) == Due(states[k]) + (if steps[k].Merge? then 1 else 0)
  {
    PeriodicStep(rs, states[k], states[k + 1], steps[k]);
  }

  lemma MergesStep(steps: seq<Step>, i: nat, j: nat)
    requires i <= j < |steps|
    ensures Merges(steps[i..j + 1]) == Merges(steps[i..j]) + (if steps[j].Merge? then 1 else 0)
  {
    assert steps[i..j + 1][..j - i] == steps[i..j];
  }

  /** While the server is created and until the first update of main has succeeded, nothing is submitted. */
  ghost predicate SilentStart(s: State) {
    && (s.round == Boot ==> s.chan.submitted == [] && !s.main.Submitting? && !s.main.Holding? && s.main != Reading)
    && (s.round == First && !s.main.Submitting? ==> s.chan.submitted == [])
  }

  lemma StepKeepsSilence(rs: seq<Reporter>, s: State, t: State, step: Step)
    requires Next(rs, s, t, step) && SilentStart(s)
    ensures SilentStart(t)
  {
    if StreamStep(s, t, step) {
      assert t.main == s.main && t.round == s.round && t.chan.submitted == s.chan.submitted;
    }
  }

  lemma {:induction false} AlwaysSilentAtStart(rs: seq<Reporter>, states: seq<State>, steps: seq<Step>, i: nat)
    requires Run(rs, states, steps) && i <= |steps|
    ensures SilentStart(states[i])
  {
    if i > 0 {
      AlwaysSilentAtStart(rs, states, steps, i - 1);
      StepKeepsSilence(rs, states[i - 1], states[i], steps[i - 1]);
    }
  }
}
