/** The stream handlers of the gRPC server, and the tracking of removed devices. */
module HealthStreams {
  import opened Options
  import opened Devices
  import opened HealthCheck

  function RemovedEntry(a: string): Device {
    Device(a, UnspecifiedType, Removed, "", 0)
  }

  /**
   A message made from some states: the states themselves, followed by one REMOVED entry for each
   tracked address that the states lack, in any order.
   */
  ghost predicate IsMessage(states: seq<Device>, tracked: set<string>, message: seq<Device>) {
    && |states| <= |message| && message[..|states|] == states
    && AreRemovals(tracked - Addrs(states), message[|states|..])
  }

  ghost predicate AreRemovals(missing: set<string>, tail: seq<Device>) {
    && Distinct(tail)
    && Addrs(tail) == missing
    && forall i :: 0 <= i < |tail| ==> tail[i] == RemovedEntry(tail[i].addr)
  }

  lemma RemovalsAppend(missing: set<string>, tail: seq<Device>, a: string)
    requires AreRemovals(missing, tail) && a !in missing
    ensures AreRemovals(missing + {a}, tail + [RemovedEntry(a)])
  {
    AddrsAppend(tail, RemovedEntry(a));
    assert forall i :: 0 <= i < |tail| ==> tail[i].addr in Addrs(tail);
  }

  /** What a client sends as the devices it knows; a device may come without an ID. */
  function InitialAddrs(initial: seq<Option<string>>): set<string> {
    set i | 0 <= i < |initial| && initial[i].Some? :: initial[i].value
  }

  /** The addresses tracked after some updates. */
  function Tracked(initial: set<string>, updates: seq<seq<Device>>): set<string> {
    if |updates| == 0 then initial
    else Tracked(initial, updates[..|updates| - 1]) + Addrs(updates[|updates| - 1])
  }

  /** What a tracking stream sends when it starts with states s0 and then receives some updates. */
  ghost predicate History(initial: set<string>, s0: seq<Device>, updates: seq<seq<Device>>, sent: seq<seq<Device>>) {
    && |sent| <= |updates| + 1
    && (|sent| > 0 ==> IsMessage(s0, initial, sent[0]))
    && forall k :: 1 <= k < |sent| ==> IsMessage(updates[k - 1], Tracked(initial, updates[..k - 1]), sent[k])
  }

  /** The number of messages that go out: sending stops at the first failure. */
  ghost predicate SentUntilFailure(n: nat, offered: nat, sendOk: nat -> bool) {
    && n <= offered
    && (forall k: nat :: k < n ==> sendOk(k))
    && (n < offered ==> !sendOk(n))
  }

  ghost function Contents(updates: seq<array<Device>>): (r: seq<seq<Device>>)
    reads updates
    ensures |r| == |updates| && forall i :: 0 <= i < |r| ==> r[i] == updates[i][..]
  {
    seq(|updates|, i requires 0 <= i < |updates| reads updates => updates[i][..])
  }

  /**
   Nothing that was published is written to: without tracked devices the snapshot itself is passed
   on, otherwise the message is a new slice.
   */
  method CheckForRemovedDevices(current: array<Device>, tracked: set<string>) returns (result: array<Device>)
    ensures IsMessage(current[..], tracked, result[..])
    ensures if tracked == {} then result == current else fresh(result)
  {
    if tracked == {} {
      assert AreRemovals({}, current[..][|current[..]|..]);
      return current;
    }
    var present: set<string> := {};
    for i := 0 to current.Length
      invariant present == Addrs(current[..i])
    {
      AddrsAppend(current[..i], current[i]);
      assert current[..i + 1] == current[..i] + [current[i]];
      present := present + {current[i].addr};
    }
    assert current[..current.Length] == current[..];
    var removed: seq<Device> := [];
    var rest := tracked;
    while rest != {}
      invariant rest <= tracked
      invariant AreRemovals(tracked - rest - present, removed)
    {
      var a :| a in rest;
      if a !in present {
        RemovalsAppend(tracked - rest - present, removed, a);
        assert tracked - (rest - {a}) - present == tracked - rest - present + {a};
        removed := removed + [RemovedEntry(a)];
      } else {
        assert tracked - (rest - {a}) - present == tracked - rest - present;
      }
      rest := rest - {a};
    }
    var all := current[..] + removed;
    result := new Device[|all|](i requires 0 <= i < |all| => all[i]);
    assert result[..] == all;
    assert all[|current[..]|..] == removed;
    assert tracked - rest - present == tracked - present;
  }

  class HealthServer {
    const vitals: Vitals
    var streaming: bool

    constructor (vitals: Vitals)
      ensures this.vitals == vitals && !streaming
    {
      this.vitals := vitals;
      streaming := false;
    }

    /**
     The plain stream, run against the updates it receives before its client goes away; `sendOk(k)` tells
     whether the k-th send succeeds. The flag is raised only after the first message has gone out.
     */
    method RegisterForEvents(updates: seq<array<Device>>, sendOk: nat -> bool)
      returns (messages: seq<seq<PbDevice>>)
      modifies this`streaming
      ensures SentUntilFailure(|messages|, |updates| + 1, sendOk)
      ensures |messages| > 0 ==> messages[0] == ToPb(vitals.states[..])
      ensures forall k :: 1 <= k < |messages| ==> messages[k] == ToPb(updates[k - 1][..])
      ensures streaming == if |messages| == 0 then old(streaming) else false
    {
      messages := [];
      var snapshot := vitals.GetVitalStates();
      if !sendOk(0) {
        return;
      }
      messages := [ToPb(snapshot[..])];
      streaming := true;
      for i := 0 to |updates|
        invariant |messages| == i + 1
        invariant forall k: nat :: k <= i ==> sendOk(k)
        invariant messages[0] == ToPb(vitals.states[..])
        invariant forall k :: 1 <= k < |messages| ==> messages[k] == ToPb(updates[k - 1][..])
      {
        if !sendOk(i + 1) {
          break;
        }
        messages := messages + [ToPb(updates[i][..])];
      }
      streaming := false;
    }

    /**
     The tracking stream. The flag is raised before the first message is sent. The states of the first
     message are compared with the client's list but never added to it.
     */
    method RegisterWithDevices(initial: seq<Option<string>>, updates: seq<array<Device>>, sendOk: nat -> bool)
      returns (messages: seq<seq<PbDevice>>, ghost sent: seq<seq<Device>>)
      modifies this`streaming
      ensures SentUntilFailure(|messages|, |updates| + 1, sendOk)
      ensures History(InitialAddrs(initial), vitals.states[..], Contents(updates), sent)
      ensures |sent| == |messages| && forall k :: 0 <= k < |messages| ==> messages[k] == ToPb(sent[k])
      ensures !streaming
    {
      var tracked := ReadInitial(initial);
      var snapshot := vitals.GetVitalStates();
      var toSend := CheckForRemovedDevices(snapshot, tracked);
      streaming := true;
      if sendOk(0) {
        messages, sent := SendUpdates(toSend[..], updates, tracked, sendOk, vitals.states[..]);
      } else {
        messages, sent := [], [];
      }
      streaming := false;
    }

    /** The stream from its first message on. */
    method SendUpdates(first: seq<Device>, updates: seq<array<Device>>, initial: set<string>, sendOk: nat -> bool,
                       ghost s0: seq<Device>)
      returns (messages: seq<seq<PbDevice>>, ghost sent: seq<seq<Device>>)
      requires IsMessage(s0, initial, first) && sendOk(0)
      ensures SentUntilFailure(|messages|, |updates| + 1, sendOk)
      ensures History(initial, s0, Contents(updates), sent)
      ensures |sent| == |messages| && forall k :: 0 <= k < |messages| ==> messages[k] == ToPb(sent[k])
    {
      ghost var us := Contents(updates);
      var tracked := initial;
      messages, sent := [ToPb(first)], [first];
      for i := 0 to |updates|
        invariant |messages| == |sent| == i + 1
        invariant forall k: nat :: k <= i ==> sendOk(k)
        invariant tracked == Tracked(initial, us[..i])
        invariant History(initial, s0, us, sent)
        invariant forall k :: 0 <= k < |messages| ==> messages[k] == ToPb(sent[k])
      {
        assert updates[i][..] == us[i];
        var message;
        message, tracked := HandleUpdate(updates[i], tracked);
        HistoryStep(initial, s0, us, sent, message);
        if !sendOk(i + 1) {
          break;
        }
        messages, sent := messages + [ToPb(message)], sent + [message];
      }
    }

    /** The work done on one received update before it is sent. */
    method HandleUpdate(states: array<Device>, tracked: set<string>) returns (message: seq<Device>, r: set<string>)
      ensures IsMessage(states[..], tracked, message)
      ensures r == tracked + Addrs(states[..])
    {
      var toSend := CheckForRemovedDevices(states, tracked);
      message := toSend[..];
      r := AddStates(states, tracked);
    }

    /** The lookup set built from the client's list. */
    method ReadInitial(initial: seq<Option<string>>) returns (tracked: set<string>)
      ensures tracked == InitialAddrs(initial)
    {
      tracked := {};
      for i := 0 to |initial|
        invariant tracked == InitialAddrs(initial[..i])
      {
        InitialAppend(initial[..i], initial[i]);
        assert initial[..i + 1] == initial[..i] + [initial[i]];
        if initial[i].Some? {
          tracked := tracked + {initial[i].value};
        }
      }
      assert initial[..|initial|] == initial;
    }

    /** The loop that adds the addresses of an update to the tracking map. */
    method AddStates(states: array<Device>, tracked: set<string>) returns (r: set<string>)
      ensures r == tracked + Addrs(states[..])
    {
      r := tracked;
      for i := 0 to states.Length
        invariant r == tracked + Addrs(states[..i])
      {
        AddrsAppend(states[..i], states[i]);
        assert states[..i + 1] == states[..i] + [states[i]];
        if states[i].addr !in r {
          r := r + {states[i].addr};
        }
      }
      assert states[..states.Length] == states[..];
    }
  }

  lemma HistoryStep(initial: set<string>, s0: seq<Device>, updates: seq<seq<Device>>, sent: seq<seq<Device>>,
                    m: seq<Device>)
    requires History(initial, s0, updates, sent) && 0 < |sent| <= |updates|
    requires var k := |sent| - 1; IsMessage(updates[k], Tracked(initial, updates[..k]), m)
    ensures History(initial, s0, updates, sent + [m])
    ensures var k := |sent| - 1;
      Tracked(initial, updates[..k + 1]) == Tracked(initial, updates[..k]) + Addrs(updates[k])
  {
    var k := |sent| - 1;
    assert updates[..k + 1][..k] == updates[..k];
  }

  lemma InitialAppend(initial: seq<Option<string>>, o: Option<string>)
    ensures InitialAddrs(initial + [o]) == InitialAddrs(initial) + (if o.Some? then {o.value} else {})
  {
    var all := initial + [o];
    assert all[|initial|] == o;
    forall a | a in InitialAddrs(initial)
      ensures a in InitialAddrs(all)
    {
      var i :| 0 <= i < |initial| && initial[i].Some? && initial[i].value == a;
      assert all[i] == initial[i];
    }
  }

  // ---------- What a client can conclude ----------

  lemma AddrsConcat(xs: seq<Device>, ys: seq<Device>)
    ensures Addrs(xs + ys) == Addrs(xs) + Addrs(ys)
  {
    assert forall d :: d in xs + ys <==> d in xs || d in ys;
    forall a | a in Addrs(xs) + Addrs(ys)
      ensures a in Addrs(xs + ys)
    {
      var d :| (d in xs || d in ys) && d.addr == a;
      assert d in xs + ys;
    }
  }

  lemma MessageCovers(states: seq<Device>, tracked: set<string>, message: seq<Device>)
    requires IsMessage(states, tracked, message)
    ensures Addrs(message) == Addrs(states) + tracked
  {
    assert message == states + message[|states|..];
    AddrsConcat(states, message[|states|..]);
  }

  lemma MessageDistinct(states: seq<Device>, tracked: set<string>, message: seq<Device>)
    requires IsMessage(states, tracked, message) && Distinct(states)
    ensures Distinct(message)
  {
    var n := |states|;
    var tail := message[n..];
    forall i, j | 0 <= i < j < |message|
      ensures message[i].addr != message[j].addr
    {
      if j < n {
        assert states[i].addr != states[j].addr;
      } else if i >= n {
        assert tail[i - n].addr != tail[j - n].addr;
      } else {
        assert states[i].addr in Addrs(states);
        assert tail[j - n].addr in Addrs(tail);
      }
    }
  }

  lemma {:induction false} DistinctCount(devices: seq<Device>)
    requires Distinct(devices)
    ensures |Addrs(devices)| == |devices|
  {
    if |devices| > 0 {
      var n := |devices| - 1;
      DistinctCount(devices[..n]);
      AddrsAppend(devices[..n], devices[n]);
      assert devices == devices[..n] + [devices[n]];
      assert devices[n].addr !in Addrs(devices[..n]);
    }
  }

  /** Message k covers exactly the client's list and the addresses of the first k updates. */
  lemma HistoryCovers(initial: set<string>, s0: seq<Device>, updates: seq<seq<Device>>, sent: seq<seq<Device>>, k: nat)
    requires History(initial, s0, updates, sent) && k < |sent|
    ensures Addrs(sent[k]) == if k == 0 then initial + Addrs(s0) else Tracked(initial, updates[..k])
  {
    if k == 0 {
      MessageCovers(s0, initial, sent[0]);
    } else {
      MessageCovers(updates[k - 1], Tracked(initial, updates[..k - 1]), sent[k]);
      assert updates[..k][..k - 1] == updates[..k - 1];
    }
  }

  lemma {:induction false} TrackedGrows(initial: set<string>, updates: seq<seq<Device>>, j: nat, k: nat)
    requires j <= k <= |updates|
    ensures Tracked(initial, updates[..j]) <= Tracked(initial, updates[..k])
    decreases k
  {
    if j < k {
      TrackedGrows(initial, updates, j, k - 1);
      assert updates[..k][..k - 1] == updates[..k - 1];
    }
  }

  /** From message 1 on no address vanishes from a tracking stream. */
  lemma NothingVanishes(initial: set<string>, s0: seq<Device>, updates: seq<seq<Device>>, sent: seq<seq<Device>>,
                        j: nat, k: nat)
    requires History(initial, s0, updates, sent) && 1 <= j <= k < |sent|
    ensures Addrs(sent[j]) <= Addrs(sent[k])
  {
    HistoryCovers(initial, s0, updates, sent, j);
    HistoryCovers(initial, s0, updates, sent, k);
    TrackedGrows(initial, updates, j, k);
  }

  /**
   Between message 0 and message 1 addresses can vanish, because the first states are not tracked: none
   does exactly when each of them is on the client's list or in the first update.
   */
  lemma FirstStatesKeptIff(initial: set<string>, s0: seq<Device>, updates: seq<seq<Device>>, sent: seq<seq<Device>>)
    requires History(initial, s0, updates, sent) && |sent| > 1
    ensures Addrs(sent[0]) <= Addrs(sent[1]) <==> Addrs(s0) <= initial + Addrs(updates[0])
  {
    HistoryCovers(initial, s0, updates, sent, 0);
    HistoryCovers(initial, s0, updates, sent, 1);
    assert updates[..1][..0] == [] && updates[..1][0] == updates[0];
    assert Tracked(initial, updates[..1]) == Tracked(initial, []) + Addrs(updates[0]);
  }

  /** A device of the first message that then vanishes without ever being called removed, unlike device b. */
  lemma FirstStatesVanish(d: Device, b: string)
    requires b != d.addr
    ensures var sent := [[d, RemovedEntry(b)], [RemovedEntry(b)]];
      && History({b}, [d], [[]], sent)
      && d.addr in Addrs(sent[0]) && d.addr !in Addrs(sent[1])
  {
    var removed := [RemovedEntry(b)];
    assert Addrs(removed) == {b} && Addrs([d]) == {d.addr} && Addrs([]) == {} by {
      assert removed == [] + [RemovedEntry(b)] && [d] == [] + [d];
      AddrsAppend([], RemovedEntry(b));
      AddrsAppend([], d);
    }
    assert {b} - {d.addr} == {b} && {b} - {} == {b};
    assert [d, RemovedEntry(b)][..1] == [d] && [d, RemovedEntry(b)][1..] == removed;
    assert removed[..0] == [] && removed[0..] == removed;
    assert AreRemovals({b}, removed);
    var updates: seq<seq<Device>> := [[]];
    assert updates[..0] == [] && Tracked({b}, updates[..0]) == {b};
    assert IsMessage([d], {b}, [d, RemovedEntry(b)]) && IsMessage([], {b}, removed);
    assert d in [d, RemovedEntry(b)];
  }

  /** An update without repetition gives a message with exactly one entry for each tracked address. */
  lemma DistinctMessages(initial: set<string>, s0: seq<Device>, updates: seq<seq<Device>>, sent: seq<seq<Device>>,
                         k: nat)
    requires History(initial, s0, updates, sent) && 1 <= k < |sent|
    requires Distinct(updates[k - 1])
    ensures Distinct(sent[k]) && |sent[k]| == |Tracked(initial, updates[..k])|
  {
    MessageDistinct(updates[k - 1], Tracked(initial, updates[..k - 1]), sent[k]);
    HistoryCovers(initial, s0, updates, sent, k);
    DistinctCount(sent[k]);
  }

  /** A REMOVED entry that an update does not contain itself stands for a tracked address it lacks. */
  lemma RemovedMeansMissing(states: seq<Device>, tracked: set<string>, message: seq<Device>, a: string)
    requires IsMessage(states, tracked, message)
    ensures RemovedEntry(a) in message && RemovedEntry(a) !in states <==> a in tracked && a !in Addrs(states)
  {
    var tail := message[|states|..];
    assert message == states + tail;
    if a in tracked && a !in Addrs(states) {
      assert a in Addrs(tail);
      var d :| d in tail && d.addr == a;
      assert d == RemovedEntry(a);
    }
    if RemovedEntry(a) in tail {
      assert a in Addrs(tail);
    }
  }

  // ---------- What a client receives ----------

  /** The tracked addresses are those of the client's list and of all updates so far. */
  lemma {:induction false} TrackedExact(initial: set<string>, updates: seq<seq<Device>>, a: string)
    ensures a in Tracked(initial, updates) <==>
            a in initial || exists k, d :: 0 <= k < |updates| && d in updates[k] && d.addr == a
  {
    if |updates| > 0 {
      var n := |updates| - 1;
      TrackedExact(initial, updates[..n], a);
      if k, d :| 0 <= k < |updates| && d in updates[k] && d.addr == a {
        assert k < n ==> d in updates[..n][k];
      }
      if k, d :| 0 <= k < n && d in updates[..n][k] && d.addr == a {
        assert d in updates[k];
      }
    }
  }

  /** Entry k of a message as the client receives it: a state unchanged, or a removed device. */
  lemma ReceivedEntry(states: seq<Device>, tracked: set<string>, message: seq<Device>, k: nat)
    requires IsMessage(states, tracked, message) && k < |message|
    ensures |ToPb(message)| == |message| >= |states|
    ensures var pb := ToPb(message)[k];
      if k < |states| then pb.addr == states[k].addr && pb.kind == states[k].kind && pb.state == states[k].state
      else pb.kind == UnspecifiedType && pb.state == Removed && pb.addr in tracked - Addrs(states)
  {
    var tail := message[|states|..];
    assert message == states + tail;
    if k >= |states| {
      var d := tail[k - |states|];
      assert message[k] == d && d.addr in Addrs(tail);
    }
  }

  /** A client receives a tracked device that the states lack as removed, and as nothing else. */
  lemma MissingArrivesRemoved(states: seq<Device>, tracked: set<string>, message: seq<Device>, a: string)
    requires IsMessage(states, tracked, message) && a in tracked && a !in Addrs(states)
    ensures exists k :: 0 <= k < |ToPb(message)| && ToPb(message)[k] == PbDevice(a, UnspecifiedType, Removed)
    ensures forall k :: 0 <= k < |ToPb(message)| && ToPb(message)[k].addr == a ==>
              ToPb(message)[k] == PbDevice(a, UnspecifiedType, Removed)
  {
    MessageCovers(states, tracked, message);
    assert forall k :: 0 <= k < |states| ==> states[k].addr in Addrs(states);
    assert a in Addrs(message);
    var m: nat :| m < |message| && message[m].addr == a;
    forall k: nat | k < |message| && message[k].addr == a
      ensures ToPb(message)[k] == PbDevice(a, UnspecifiedType, Removed)
    {
      ReceivedEntry(states, tracked, message, k);
    }
  }
}
