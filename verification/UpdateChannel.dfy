/**
 The hand-over of updates from UpdateHealths to the stream handlers: a mutex, a flag shared by all
 handlers, and an unbuffered channel, as a state machine whose steps interleave freely.
 */
module UpdateChannel {

  /**
   What the goroutine holding the mutex is doing with the last submitted update: about to look at the
   flag, blocked in the channel send, or about to unlock.
   */
  datatype Mutex = Free | Checking | Sending | Leaving

  /**
   `submitted` holds all updates in the order in which their callers got the mutex. Updates are referred to by
   their position in it: `dropped` are those skipped at the flag check, and `inbox` those received by
   each handler ever started, in order of reception. `live` are the handlers that have raised the flag
   and not yet lowered it.
   */
  datatype State<T> = State(
    streaming: bool,
    live: set<nat>,
    mutex: Mutex,
    submitted: seq<T>,
    dropped: set<nat>,
    inbox: map<nat, seq<nat>>)

  datatype Step<T> =
    | Start(h: nat)
    | End(h: nat)
    | Enter(x: T)
    | Check
    | Receive(h: nat)
    | Leave

  function Initial<T>(): State<T> {
    State(false, {}, Free, [], {}, map[])
  }

  predicate Can<T>(s: State<T>, step: Step<T>) {
    match step
    case Start(h) => h !in s.inbox
    case End(h) => h in s.live
    case Enter(_) => s.mutex == Free
    case Check => s.mutex == Checking && |s.submitted| > 0
    case Receive(h) => h in s.live && h in s.inbox && s.mutex == Sending && |s.submitted| > 0
    case Leave => s.mutex == Leaving
  }

  function Do<T>(s: State<T>, step: Step<T>): State<T>
    requires Can(s, step)
  {
    var last := |s.submitted| - 1;
    match step
    case Start(h) => s.(streaming := true, live := s.live + {h}, inbox := s.inbox[h := []])
    case End(h) => s.(streaming := false, live := s.live - {h})
    case Enter(x) => s.(mutex := Checking, submitted := s.submitted + [x])
    case Check => if s.streaming then s.(mutex := Sending) else s.(mutex := Leaving, dropped := s.dropped + {last})
    case Receive(h) => s.(mutex := Leaving, inbox := s.inbox[h := s.inbox[h] + [last]])
    case Leave => s.(mutex := Free)
  }

  /** A run from the initial state; state i is reached after i steps. */
  ghost predicate Run<T>(states: seq<State<T>>, steps: seq<Step<T>>) {
    && |states| == |steps| + 1
    && states[0] == Initial()
    && forall i :: 0 <= i < |steps| ==> Can(states[i], steps[i]) && states[i + 1] == Do(states[i], steps[i])
  }

  // ---------- Conservation ----------

  /** Position id is in the inbox of h. */
  predicate Received<T>(s: State<T>, id: nat, h: nat) {
    h in s.inbox && id in s.inbox[h]
  }

  /** The update at id is still in the hands of the goroutine that holds the mutex. */
  predicate InFlight<T>(s: State<T>, id: nat) {
    id + 1 == |s.submitted| && (s.mutex == Checking || s.mutex == Sending)
  }

  /** Every submitted update is in exactly one place. */
  ghost predicate InOnePlace<T>(s: State<T>, id: nat) {
    if id in s.dropped then !InFlight(s, id) && forall h :: !Received(s, id, h)
    else if InFlight(s, id) then forall h :: !Received(s, id, h)
    else exists h :: Received(s, id, h) && forall g :: Received(s, id, g) ==> g == h
  }

  /** A handler receives updates in the order of their submission, each at most once. */
  ghost predicate InOrder(positions: seq<nat>, n: nat) {
    && (forall k, l :: 0 <= k < l < |positions| ==> positions[k] < positions[l])
    && (forall k :: 0 <= k < |positions| ==> positions[k] < n)
  }

  ghost predicate Conserved<T>(s: State<T>) {
    && (forall id: nat :: id < |s.submitted| ==> InOnePlace(s, id))
    && (forall id :: id in s.dropped ==> id < |s.submitted|)
    && (forall h :: h in s.inbox ==> InOrder(s.inbox[h], |s.submitted|))
    && (s.mutex != Free ==> |s.submitted| > 0)
    && s.live <= s.inbox.Keys
  }

  /** Whatever is in an inbox or dropped was submitted earlier. */
  lemma PlacesAreSubmitted<T>(s: State<T>, id: nat)
    requires Conserved(s)
    ensures id >= |s.submitted| ==> id !in s.dropped && forall h :: !Received(s, id, h)
  {
    forall h | Received(s, id, h)
      ensures id < |s.submitted|
    {
      var k :| 0 <= k < |s.inbox[h]| && s.inbox[h][k] == id;
      assert InOrder(s.inbox[h], |s.submitted|);
    }
  }

  /** An update stays where it is if nothing that decides its place changes. */
  lemma SamePlace<T>(s: State<T>, t: State<T>, id: nat)
    requires InOnePlace(s, id)
    requires InFlight(t, id) <==> InFlight(s, id)
    requires id in t.dropped <==> id in s.dropped
    requires forall h :: Received(t, id, h) <==> Received(s, id, h)
    ensures InOnePlace(t, id)
  {
    if id !in s.dropped && !InFlight(s, id) {
      var h :| Received(s, id, h) && forall g :: Received(s, id, g) ==> g == h;
      assert Received(t, id, h);
    }
  }

  lemma ConservedByHandlers<T>(s: State<T>, step: Step<T>)
    requires Conserved(s) && Can(s, step) && (step.Start? || step.End? || step.Leave?)
    ensures Conserved(Do(s, step))
  {
    var t := Do(s, step);
    assert t.submitted == s.submitted && t.dropped == s.dropped;
    assert step.Leave? || t.mutex == s.mutex;
    forall id: nat | id < |t.submitted|
      ensures InOnePlace(t, id)
    {
      SamePlace(s, t, id);
    }
    forall h | h in t.inbox
      ensures InOrder(t.inbox[h], |t.submitted|)
    {
      assert t.inbox[h] == [] || (h in s.inbox && t.inbox[h] == s.inbox[h]);
    }
  }

  lemma ConservedByEnter<T>(s: State<T>, step: Step<T>)
    requires Conserved(s) && Can(s, step) && step.Enter?
    ensures Conserved(Do(s, step))
  {
    var t := Do(s, step);
    var last := |s.submitted|;
    PlacesAreSubmitted(s, last);
    assert t.inbox == s.inbox && t.dropped == s.dropped && |t.submitted| == last + 1;
    forall id: nat | id < |t.submitted|
      ensures InOnePlace(t, id)
    {
      if id < last {
        SamePlace(s, t, id);
      } else {
        assert InFlight(t, id);
      }
    }
    forall h | h in t.inbox
      ensures InOrder(t.inbox[h], |t.submitted|)
    {
      assert InOrder(s.inbox[h], last);
    }
  }

  lemma ConservedByCheck<T>(s: State<T>, step: Step<T>)
    requires Conserved(s) && Can(s, step) && step.Check?
    ensures Conserved(Do(s, step))
  {
    var t := Do(s, step);
    var last := |s.submitted| - 1;
    assert t.inbox == s.inbox && t.submitted == s.submitted;
    assert InOnePlace(s, last) && InFlight(s, last);
    assert forall h :: Received(t, last, h) <==> Received(s, last, h);
    forall id: nat | id < |t.submitted|
      ensures InOnePlace(t, id)
    {
      if id < last {
        SamePlace(s, t, id);
      } else {
        assert id == last && (last in t.dropped || InFlight(t, last));
      }
    }
  }

  lemma PlacesAfterReceive<T>(s: State<T>, step: Step<T>)
    requires Conserved(s) && Can(s, step) && step.Receive?
    ensures forall id: nat :: id < |s.submitted| ==> InOnePlace(Do(s, step), id)
  {
    var t := Do(s, step);
    var last := |s.submitted| - 1;
    assert InOnePlace(s, last) && InFlight(s, last);
    assert t.submitted == s.submitted && t.dropped == s.dropped;
    forall id: nat, h: nat
      ensures Received(t, id, h) <==> Received(s, id, h) || (id == last && h == step.h)
    {
      ReceivedAfter(s, step, id, h);
    }
    forall id: nat | id < last
      ensures InOnePlace(t, id)
    {
      SamePlace(s, t, id);
    }
    assert InOnePlace(t, last) by {
      assert Received(t, last, step.h) && last !in t.dropped && !InFlight(t, last);
    }
  }

  lemma ReceivedAfter<T>(s: State<T>, step: Step<T>, id: nat, h: nat)
    requires Can(s, step) && step.Receive?
    ensures Received(Do(s, step), id, h) <==> Received(s, id, h) || (id + 1 == |s.submitted| && h == step.h)
  {
    if h == step.h && h in s.inbox {
      var last: nat := |s.submitted| - 1;
      assert Do(s, step).inbox[h] == s.inbox[h] + [last];
    }
  }

  lemma ConservedByReceive<T>(s: State<T>, step: Step<T>)
    requires Conserved(s) && Can(s, step) && step.Receive?
    ensures Conserved(Do(s, step))
  {
    var t := Do(s, step);
    var last := |s.submitted| - 1;
    PlacesAfterReceive(s, step);
    forall h | h in t.inbox
      ensures InOrder(t.inbox[h], |t.submitted|)
    {
      assert InOrder(s.inbox[h], |s.submitted|);
      if h == step.h {
        EarlierThanLast(s, h);
      }
    }
  }

  lemma EarlierThanLast<T>(s: State<T>, h: nat)
    requires Conserved(s) && h in s.inbox && s.mutex == Sending && |s.submitted| > 0
    ensures InOrder(s.inbox[h], |s.submitted| - 1)
  {
    assert InOrder(s.inbox[h], |s.submitted|);
    assert InOnePlace(s, |s.submitted| - 1) && InFlight(s, |s.submitted| - 1);
    forall k | 0 <= k < |s.inbox[h]|
      ensures s.inbox[h][k] < |s.submitted| - 1
    {
      assert Received(s, s.inbox[h][k], h);
    }
  }

  lemma ConservedByStep<T>(s: State<T>, step: Step<T>)
    requires Conserved(s) && Can(s, step)
    ensures Conserved(Do(s, step))
  {
    match step {
      case Enter(_) => ConservedByEnter(s, step);
      case Check => ConservedByCheck(s, step);
      case Receive(_) => ConservedByReceive(s, step);
      case Start(_) => ConservedByHandlers(s, step);
      case End(_) => ConservedByHandlers(s, step);
      case Leave => ConservedByHandlers(s, step);
    }
  }

  /** In every reachable state no update is lost, duplicated or reordered. */
  lemma {:induction false} Conservation<T>(states: seq<State<T>>, steps: seq<Step<T>>, i: nat)
    requires Run(states, steps) && i <= |steps|
    ensures Conserved(states[i])
  {
    if i > 0 {
      Conservation(states, steps, i - 1);
      ConservedByStep(states[i - 1], steps[i - 1]);
    }
  }

  /** The updates a handler has received are a subsequence of the submitted ones. */
  lemma ReceivedAreSubmitted<T>(states: seq<State<T>>, steps: seq<Step<T>>, i: nat, h: nat)
    requires Run(states, steps) && i <= |steps|
    requires h in states[i].inbox
    ensures InOrder(states[i].inbox[h], |states[i].submitted|)
    ensures |states[i].inbox[h]| <= |states[i].submitted|
  {
    Conservation(states, steps, i);
    IncreasingIsShort(states[i].inbox[h], |states[i].submitted|);
  }

  lemma {:induction false} IncreasingIsShort(positions: seq<nat>, n: nat)
    requires InOrder(positions, n)
    ensures |positions| <= n
  {
    if |positions| > 0 {
      var k := |positions| - 1;
      IncreasingIsShort(positions[..k], positions[k]);
    }
  }

  // ---------- The shared flag ----------

  /** The flag tells whether a stream is live. */
  ghost predicate FlagTells<T>(s: State<T>) {
    s.streaming <==> s.live != {}
  }

  /** A stream ends while another one is live. */
  ghost predicate LeavesOthers<T>(s: State<T>, step: Step<T>) {
    step.End? && s.live != {step.h}
  }

  /** The flag may be down although a stream is live, but never up without one. */
  lemma {:induction false} FlagIsSound<T>(states: seq<State<T>>, steps: seq<Step<T>>, i: nat)
    requires Run(states, steps) && i <= |steps|
    ensures states[i].streaming ==> states[i].live != {}
  {
    if i > 0 {
      FlagIsSound(states, steps, i - 1);
    }
  }

  /**
   All handlers share one flag, so a stream that ends silences the others. The flag tells in every state of a
   run whether some stream is live exactly when no stream ends while another one is live.
   */
  lemma FlagTellsIffNoOverlap<T>(states: seq<State<T>>, steps: seq<Step<T>>)
    requires Run(states, steps)
    ensures (forall i :: 0 <= i < |states| ==> FlagTells(states[i])) <==>
            (forall i :: 0 <= i < |steps| ==> !LeavesOthers(states[i], steps[i]))
  {
    if i :| 0 <= i < |steps| && LeavesOthers(states[i], steps[i]) {
      OverlapBreaksFlag(states[i], steps[i]);
      var j := i + 1;
      assert states[j] == Do(states[i], steps[i]) && !FlagTells(states[j]);
    } else {
      FlagTellsWithoutOverlap(states, steps, |steps|);
    }
  }

  lemma OverlapBreaksFlag<T>(s: State<T>, step: Step<T>)
    requires Can(s, step) && LeavesOthers(s, step)
    ensures !FlagTells(Do(s, step))
  {
    assert s.live == (s.live - {step.h}) + {step.h};
    var h :| h in s.live - {step.h};
    assert h in Do(s, step).live;
  }

  lemma {:induction false} FlagTellsWithoutOverlap<T>(states: seq<State<T>>, steps: seq<Step<T>>, n: nat)
    requires Run(states, steps) && n <= |steps|
    requires forall i :: 0 <= i < |steps| ==> !LeavesOthers(states[i], steps[i])
    ensures forall i :: 0 <= i <= n ==> FlagTells(states[i])
  {
    if n > 0 {
      FlagTellsWithoutOverlap(states, steps, n - 1);
      assert !LeavesOthers(states[n - 1], steps[n - 1]);
    }
  }

  // ---------- Which updates are dropped ----------

  /** Before step i some handler has raised the flag, and none has lowered it since. */
  ghost predicate Raised<T>(steps: seq<Step<T>>, i: int) {
    exists k :: 0 <= k < i <= |steps| && RaisedAt(steps, k, i)
  }

  ghost predicate RaisedAt<T>(steps: seq<Step<T>>, k: int, i: int)
    requires 0 <= k < i <= |steps|
  {
    steps[k].Start? && forall l :: k < l < i ==> !steps[l].End?
  }

  /** Handler h has started before step i and not ended since. */
  ghost predicate Alive<T>(steps: seq<Step<T>>, h: nat, i: int) {
    exists k :: 0 <= k < i <= |steps| && AliveSince(steps, h, k, i)
  }

  ghost predicate AliveSince<T>(steps: seq<Step<T>>, h: nat, k: int, i: int)
    requires 0 <= k < i <= |steps|
  {
    steps[k] == Start(h) && forall l :: k < l < i ==> steps[l] != End(h)
  }

  /** In every state of every run the flag is up exactly when no handler has ended since the last one started. */
  lemma {:induction false} FlagExact<T>(states: seq<State<T>>, steps: seq<Step<T>>, i: nat)
    requires Run(states, steps) && i <= |steps|
    ensures states[i].streaming <==> Raised(steps, i)
  {
    if i > 0 {
      FlagExact(states, steps, i - 1);
      if steps[i - 1].Start? {
        assert RaisedAt(steps, i - 1, i);
      } else if !steps[i - 1].End? {
        var n := i - 1;
        if k :| 0 <= k < n && RaisedAt(steps, k, n) {
          assert RaisedAt(steps, k, i);
        }
        if k :| 0 <= k < i && RaisedAt(steps, k, i) {
          assert k < n && RaisedAt(steps, k, n);
        }
      }
    }
  }

  lemma {:induction false} LiveExact<T>(states: seq<State<T>>, steps: seq<Step<T>>, i: nat, h: nat)
    requires Run(states, steps) && i <= |steps|
    ensures h in states[i].live <==> Alive(steps, h, i)
  {
    if i > 0 {
      LiveExact(states, steps, i - 1, h);
      if steps[i - 1] == Start(h) {
        assert AliveSince(steps, h, i - 1, i);
      } else if steps[i - 1] != End(h) {
        var n := i - 1;
        if k :| 0 <= k < n && AliveSince(steps, h, k, n) {
          assert AliveSince(steps, h, k, i);
        }
        if k :| 0 <= k < i && AliveSince(steps, h, k, i) {
          assert k < n && AliveSince(steps, h, k, n);
        }
      }
    }
  }

  /**
   The fate of each update is sealed when the flag is looked at: it is dropped, for the rest of the run,
   exactly when some handler has ended since the last one started, or none has started.
   */
  lemma {:induction false} DroppedIff<T>(states: seq<State<T>>, steps: seq<Step<T>>, i: nat, j: nat)
    requires Run(states, steps) && i < j <= |steps| && steps[i].Check?
    ensures var id := |states[i].submitted| - 1;
      && id < |states[j].submitted| && (states[j].mutex == Checking ==> id + 1 < |states[j].submitted|)
      && (id in states[j].dropped <==> !Raised(steps, i))
    decreases j
  {
    if j == i + 1 {
      FlagExact(states, steps, i);
      Conservation(states, steps, i);
      assert InOnePlace(states[i], |states[i].submitted| - 1);
    } else {
      DroppedIff(states, steps, i, j - 1);
    }
  }

  /** An update passes a live stream by exactly when some stream is live but one has ended since the last start. */
  lemma PassesLiveStreamIff<T>(states: seq<State<T>>, steps: seq<Step<T>>, i: nat, j: nat)
    requires Run(states, steps) && i < j <= |steps| && steps[i].Check?
    ensures |states[i].submitted| - 1 in states[j].dropped && states[i].live != {} <==>
            !Raised(steps, i) && exists h :: Alive(steps, h, i)
  {
    DroppedIff(states, steps, i, j);
    forall h
      ensures h in states[i].live <==> Alive(steps, h, i)
    {
      LiveExact(states, steps, i, h);
    }
  }

  /** With overlapping streams an update can pass a live one by. */
  lemma UpdatePassesLiveStream(x: int)
    ensures exists states: seq<State<int>>, steps ::
      Run(states, steps) && states[|steps|].live != {} && states[|steps|].dropped == {0}
  {
    var steps: seq<Step<int>> := [Start(0), Start(1), End(1), Enter(x), Check];
    var s0: State<int> := Initial();
    var s1 := Do(s0, Start(0));
    var s2 := Do(s1, Start(1));
    var s3 := Do(s2, End(1));
    var s4 := Do(s3, Enter(x));
    var s5 := Do(s4, Check);
    var states := [s0, s1, s2, s3, s4, s5];
    assert 0 in s5.live;
    assert Run(states, steps);
    assert states[|steps|].dropped == {0};
  }
}
