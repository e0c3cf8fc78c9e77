/** Which calls of the Kubernetes API follow one that was denied. */
module RasCalls {
  import opened Options
  import opened RasLog
  import opened RasWatcher
  import opened Text
  import opened Unions

  predicate Denied(call: Call) {
    (call.OpenWatch? && call.denied) || (call.ReadLog? && call.log.LogDenied?)
  }

  ghost predicate HasDenial(calls: seq<Call>) {
    exists k :: 0 <= k < |calls| && Denied(calls[k])
  }

  /** What the design asks for: a denied call is the last one. */
  ghost predicate StopsAtDenial(calls: seq<Call>) {
    forall k :: 0 <= k < |calls| - 1 ==> !Denied(calls[k])
  }

  lemma StopsConcat(xs: seq<Call>, ys: seq<Call>)
    ensures HasDenial(xs + ys) <==> HasDenial(xs) || HasDenial(ys)
    ensures StopsAtDenial(xs + ys) <==> StopsAtDenial(xs) && StopsAtDenial(ys) && (HasDenial(xs) ==> ys == [])
  {
    var all := xs + ys;
    assert forall k :: 0 <= k < |xs| ==> all[k] == xs[k];
    assert forall k :: 0 <= k < |ys| ==> all[|xs| + k] == ys[k];
    if HasDenial(xs) && ys != [] {
      var k :| 0 <= k < |xs| && Denied(xs[k]);
      assert Denied(all[k]);
    }
  }

  // ---------- One event ----------

  /** Claims are read one after the other, and no claim after the first Spyre one. */
  lemma ClaimsReadUpToSpyre(pod: Pod, reply: nat -> ClaimReply)
    ensures var names, calls := ClaimNames(pod), ClaimCalls(pod, reply);
      && |calls| <= |names|
      && (forall i: nat :: i < |calls| ==> calls[i] == ReadClaim(names[i], reply(i)))
      && (forall i: nat :: i + 1 < |calls| ==> !SpyreClaim(reply(i)))
      && (|calls| < |names| ==> |calls| > 0 && SpyreClaim(reply(|calls| - 1)))
  {}

  lemma FilterCallsStop(allowed: Option<set<string>>, ev: Event)
    ensures !HasDenial(FilterCalls(allowed, ev)) && StopsAtDenial(FilterCalls(allowed, ev))
    ensures FilterCalls(allowed, ev) != [] <==>
            Qualifies(allowed, ev) && !RequestsSpyre(ev.pod.value) && ClaimNames(ev.pod.value) != []
  {
    if Qualifies(allowed, ev) {
      ClaimsReadUpToSpyre(ev.pod.value, ev.claimReply);
    }
  }

  /** Among the first n containers, none is selected after one whose log is denied. */
  ghost predicate LastSelected(ev: Event, n: nat)
    requires ev.pod.Some? && n <= |ev.pod.value.containers|
  {
    forall c: nat, d: nat :: c < d < n && DeniedAt(ev, c) ==> !Selected(ev.pod.value, d)
  }

  lemma LastSelectedStep(ev: Event, n: nat)
    requires ev.pod.Some? && n < |ev.pod.value.containers|
    ensures LastSelected(ev, n + 1) <==> LastSelected(ev, n) && (Selected(ev.pod.value, n) ==> !DeniedUpTo(ev, n))
  {
    if !Selected(ev.pod.value, n) {
      assert LastSelected(ev, n) ==> LastSelected(ev, n + 1);
    } else if c: nat :| c < n && DeniedAt(ev, c) {
      assert !LastSelected(ev, n + 1);
    }
  }

  lemma {:induction false} LogCallsDenial(ev: Event, n: nat)
    requires ev.pod.Some? && n <= |ev.pod.value.containers|
    ensures HasDenial(LogCalls(ev, n)) <==> DeniedUpTo(ev, n)
  {
    if n > 0 {
      LogCallsDenial(ev, n - 1);
      DeniedUpToStep(ev, n - 1);
      LogCallStops(ev, n - 1);
      StopsConcat(LogCalls(ev, n - 1), LogCall(ev, n - 1));
    }
  }

  lemma {:induction false} LogCallsMade(ev: Event, n: nat)
    requires ev.pod.Some? && n <= |ev.pod.value.containers|
    ensures LogCalls(ev, n) != [] <==> SelectedUpTo(ev.pod.value, n)
  {
    if n > 0 {
      LogCallsMade(ev, n - 1);
      LogCallStops(ev, n - 1);
      SelectedUpToStep(ev.pod.value, n - 1);
    }
  }

  ghost predicate SelectedUpTo(pod: Pod, n: nat)
    requires n <= |pod.containers|
  {
    exists c: nat :: c < n && Selected(pod, c)
  }

  lemma SelectedUpToStep(pod: Pod, n: nat)
    requires n < |pod.containers|
    ensures SelectedUpTo(pod, n + 1) <==> SelectedUpTo(pod, n) || Selected(pod, n)
  {
    if c: nat :| c < n && Selected(pod, c) {
      assert SelectedUpTo(pod, n + 1);
    }
  }

  lemma LogCallStops(ev: Event, c: nat)
    requires ev.pod.Some? && c < |ev.pod.value.containers|
    ensures var calls := LogCall(ev, c);
      StopsAtDenial(calls) && (HasDenial(calls) <==> DeniedAt(ev, c)) && (calls != [] <==> Selected(ev.pod.value, c))
  {
    var calls := LogCall(ev, c);
    assert calls != [] ==> (HasDenial(calls) <==> Denied(calls[0]));
  }

  lemma {:induction false} LogCallsStop(ev: Event, n: nat)
    requires ev.pod.Some? && n <= |ev.pod.value.containers|
    ensures StopsAtDenial(LogCalls(ev, n)) <==> LastSelected(ev, n)
  {
    if n > 0 {
      LogCallsStop(ev, n - 1);
      LogCallsDenial(ev, n - 1);
      LogCallStops(ev, n - 1);
      StopsConcat(LogCalls(ev, n - 1), LogCall(ev, n - 1));
      LastSelectedStep(ev, n - 1);
    }
  }

  /** The event makes the watcher call the API. */
  ghost predicate Asks(allowed: Option<set<string>>, ev: Event) {
    && Qualifies(allowed, ev)
    && var pod := ev.pod.value;
    && (|| (!RequestsSpyre(pod) && ClaimNames(pod) != [])
        || (Handled(allowed, ev) && SelectedUpTo(pod, |pod.containers|)))
  }

  /** In the event's pod nothing is asked after a denied log. */
  ghost predicate EventStops(ev: Event) {
    ev.pod.Some? && LastSelected(ev, |ev.pod.value.containers|)
  }

  lemma EventCallsStop(allowed: Option<set<string>>, ev: Event)
    ensures HasDenial(EventCalls(allowed, ev)) <==> EventDenied(allowed, ev)
    ensures EventCalls(allowed, ev) != [] <==> Asks(allowed, ev)
    ensures StopsAtDenial(EventCalls(allowed, ev)) <==> (EventDenied(allowed, ev) ==> EventStops(ev))
  {
    FilterCallsStop(allowed, ev);
    if Handled(allowed, ev) {
      var n := |ev.pod.value.containers|;
      LogCallsDenial(ev, n);
      LogCallsMade(ev, n);
      LogCallsStop(ev, n);
      StopsConcat(FilterCalls(allowed, ev), LogCalls(ev, n));
    } else {
      assert FilterCalls(allowed, ev) + [] == FilterCalls(allowed, ev);
    }
  }

  // ---------- One watch ----------

  /** After an event with a denied log nothing is asked, neither for its own pod nor for a later event. */
  ghost predicate QuietAfter(allowed: Option<set<string>>, events: seq<Event>, e: int)
    requires 0 <= e < |events|
  {
    EventStops(events[e]) && forall f :: e < f < |events| ==> !Asks(allowed, events[f])
  }

  ghost predicate Quiet(allowed: Option<set<string>>, events: seq<Event>) {
    forall e :: 0 <= e < |events| && EventDenied(allowed, events[e]) ==> QuietAfter(allowed, events, e)
  }

  function Flatten(lists: seq<seq<Call>>): seq<Call> {
    if |lists| == 0 then [] else Flatten(lists[..|lists| - 1]) + lists[|lists| - 1]
  }

  ghost function EventLists(allowed: Option<set<string>>, events: seq<Event>): (lists: seq<seq<Call>>)
    ensures |lists| == |events| && forall e :: 0 <= e < |events| ==> lists[e] == EventCalls(allowed, events[e])
  {
    seq(|events|, e requires 0 <= e < |events| => EventCalls(allowed, events[e]))
  }

  ghost function CycleLists(allowed: Option<set<string>>, cycles: seq<Cycle>): (lists: seq<seq<Call>>)
    ensures |lists| == |cycles| && forall k :: 0 <= k < |cycles| ==> lists[k] == CycleCalls(allowed, cycles[k])
  {
    seq(|cycles|, k requires 0 <= k < |cycles| => CycleCalls(allowed, cycles[k]))
  }

  lemma {:induction false} EventsCallsFlat(allowed: Option<set<string>>, events: seq<Event>)
    ensures EventsCalls(allowed, events) == Flatten(EventLists(allowed, events))
  {
    if |events| > 0 {
      var n := |events| - 1;
      EventsCallsFlat(allowed, events[..n]);
      EventListsPrefix(allowed, events, n);
    }
  }

  lemma EventListsPrefix(allowed: Option<set<string>>, events: seq<Event>, n: nat)
    requires n <= |events|
    ensures EventLists(allowed, events)[..n] == EventLists(allowed, events[..n])
  {
    forall e | 0 <= e < n
      ensures EventLists(allowed, events)[e] == EventLists(allowed, events[..n])[e]
    {
      assert events[..n][e] == events[e];
    }
  }

  lemma {:induction false} RunCallsFlat(allowed: Option<set<string>>, cycles: seq<Cycle>)
    ensures RunCalls(allowed, cycles) == Flatten(CycleLists(allowed, cycles))
  {
    if |cycles| > 0 {
      var n := |cycles| - 1;
      RunCallsFlat(allowed, cycles[..n]);
      assert CycleLists(allowed, cycles)[..n] == CycleLists(allowed, cycles[..n]);
    }
  }

  /** The first denial in list e, if any, is the last call of all. */
  ghost predicate ListStops(lists: seq<seq<Call>>, e: int)
    requires 0 <= e < |lists|
  {
    StopsAtDenial(lists[e]) && (HasDenial(lists[e]) ==> forall f :: e < f < |lists| ==> lists[f] == [])
  }

  lemma {:induction false} FlattenDenial(lists: seq<seq<Call>>)
    ensures HasDenial(Flatten(lists)) <==> exists e :: 0 <= e < |lists| && HasDenial(lists[e])
  {
    if |lists| > 0 {
      var n := |lists| - 1;
      FlattenDenial(lists[..n]);
      StopsConcat(Flatten(lists[..n]), lists[n]);
      assert forall e :: 0 <= e < n ==> lists[..n][e] == lists[e];
    }
  }

  lemma {:induction false} FlattenStops(lists: seq<seq<Call>>)
    ensures StopsAtDenial(Flatten(lists)) <==> forall e :: 0 <= e < |lists| ==> ListStops(lists, e)
  {
    if |lists| > 0 {
      var n := |lists| - 1;
      var init := lists[..n];
      FlattenStops(init);
      FlattenDenial(init);
      StopsConcat(Flatten(init), lists[n]);
      forall e | 0 <= e < n
        ensures init[e] == lists[e]
        ensures ListStops(lists, e) <==> ListStops(init, e) && (HasDenial(lists[e]) ==> lists[n] == [])
      {
        assert forall f :: 0 <= f < n ==> init[f] == lists[f];
      }
      assert ListStops(lists, n) <==> StopsAtDenial(lists[n]);
    }
  }

  lemma EventsCallsDenial(allowed: Option<set<string>>, events: seq<Event>)
    ensures HasDenial(EventsCalls(allowed, events)) <==> EventsDenied(allowed, events)
  {
    EventsCallsFlat(allowed, events);
    FlattenDenial(EventLists(allowed, events));
    forall e | 0 <= e < |events|
      ensures HasDenial(EventLists(allowed, events)[e]) <==> EventDenied(allowed, events[e])
    {
      EventCallsStop(allowed, events[e]);
    }
  }

  lemma EventsCallsStop(allowed: Option<set<string>>, events: seq<Event>)
    ensures StopsAtDenial(EventsCalls(allowed, events)) <==> Quiet(allowed, events)
  {
    var lists := EventLists(allowed, events);
    EventsCallsFlat(allowed, events);
    FlattenStops(lists);
    forall e | 0 <= e < |events|
      ensures ListStops(lists, e) <==> (EventDenied(allowed, events[e]) ==> QuietAfter(allowed, events, e))
    {
      EventListStops(allowed, events, e);
    }
  }

  lemma EventListStops(allowed: Option<set<string>>, events: seq<Event>, e: int)
    requires 0 <= e < |events|
    ensures ListStops(EventLists(allowed, events), e) <==>
            (EventDenied(allowed, events[e]) ==> QuietAfter(allowed, events, e))
  {
    EventCallsStop(allowed, events[e]);
    forall f | 0 <= f < |events|
      ensures EventLists(allowed, events)[f] != [] <==> Asks(allowed, events[f])
    {
      EventCallsStop(allowed, events[f]);
    }
  }

  ghost predicate QuietWatch(allowed: Option<set<string>>, cycle: Cycle) {
    cycle.reply.Watching? ==> Quiet(allowed, cycle.reply.events)
  }

  /**
   The design wants no call to follow a denied one; a denial is what disables the reporter. A watch meets
   this exactly when after a denied log no further container of its pod is selected, and no later event is
   that of a failing pod in an allowed namespace with a claim to look up or a log to fetch.
   */
  lemma NoCallAfterDenialIff(allowed: Option<set<string>>, cycle: Cycle)
    ensures HasDenial(CycleCalls(allowed, cycle)) <==> CycleDisables(allowed, cycle)
    ensures StopsAtDenial(CycleCalls(allowed, cycle)) <==> QuietWatch(allowed, cycle)
  {
    var open := [OpenWatch(cycle.reply.WatchDenied?)];
    assert HasDenial(open) <==> Denied(open[0]);
    if cycle.reply.Watching? {
      EventsCallsStop(allowed, cycle.reply.events);
      EventsCallsDenial(allowed, cycle.reply.events);
      StopsConcat(open, EventsCalls(allowed, cycle.reply.events));
    } else {
      assert open + [] == open;
    }
  }

  /** For the whole run of a reporter, only its last watch can call the API after a denial. */
  lemma NoCallAfterDenialInRunIff(allowed: Option<set<string>>, cycles: seq<Cycle>)
    requires forall k :: 0 <= k < |cycles| - 1 ==> !CycleDisables(allowed, cycles[k])
    ensures StopsAtDenial(RunCalls(allowed, cycles)) <==>
            (|cycles| > 0 ==> QuietWatch(allowed, cycles[|cycles| - 1]))
  {
    var lists := CycleLists(allowed, cycles);
    RunCallsFlat(allowed, cycles);
    FlattenStops(lists);
    forall k | 0 <= k < |cycles|
      ensures ListStops(lists, k) <==> (k == |cycles| - 1 ==> QuietWatch(allowed, cycles[k]))
    {
      NoCallAfterDenialIff(allowed, cycles[k]);
      DenialIsLastCall(allowed, cycles[k]);
    }
  }

  /** A watch without any denial stops at none. */
  lemma DenialIsLastCall(allowed: Option<set<string>>, cycle: Cycle)
    ensures !CycleDisables(allowed, cycle) ==> StopsAtDenial(CycleCalls(allowed, cycle))
  {
    NoCallAfterDenialIff(allowed, cycle);
    var calls := CycleCalls(allowed, cycle);
    assert !HasDenial(calls) ==> forall k :: 0 <= k < |calls| ==> !Denied(calls[k]);
  }

  // ---------- A watch that goes on asking ----------

  /** A failed pod of one container that asked for a Spyre device. */
  function FailedPod(log: LogReply): Event {
    var container := Container("app", {SPYRE_RESOURCE_PREFIX + "pf"});
    Event(true, Some(Pod("default", POD_FAILED, [container], [], [], [], None)), i => Unreadable, (c, previous) => log)
  }

  lemma FailedPodCalls(log: LogReply)
    ensures var ev := FailedPod(log);
      && Handled(None, ev) && EventCalls(None, ev) == [ReadLog("app", false, log)]
      && EventAddrs(None, ev) == ReplyAddrs(log)
      && (EventDenied(None, ev) <==> log.LogDenied?)
  {
    FailedPodHandled(log);
    OneContainer(None, FailedPod(log));
  }

  /** The pod of a handled event with one container, which is selected, and a Spyre request. */
  lemma OneContainer(allowed: Option<set<string>>, ev: Event)
    requires Handled(allowed, ev) && RequestsSpyre(ev.pod.value)
    requires |ev.pod.value.containers| == 1 && Selected(ev.pod.value, 0)
    ensures var name, log := ev.pod.value.containers[0].name, ContainerLog(ev, 0);
      && EventCalls(allowed, ev) == [ReadLog(name, Crashing(ev.pod.value, name), log)]
      && EventAddrs(allowed, ev) == ReplyAddrs(log)
      && (EventDenied(allowed, ev) <==> log.LogDenied?)
  {
    OneContainerCalls(ev);
    OneContainerAddrs(ev);
    DeniedUpToStep(ev, 0);
    assert FilterCalls(allowed, ev) + LogCalls(ev, 1) == LogCalls(ev, 1);
  }

  lemma OneContainerCalls(ev: Event)
    requires ev.pod.Some? && |ev.pod.value.containers| == 1 && Selected(ev.pod.value, 0)
    ensures var name := ev.pod.value.containers[0].name;
      LogCalls(ev, 1) == [ReadLog(name, Crashing(ev.pod.value, name), ContainerLog(ev, 0))]
  {
    assert LogCalls(ev, 0) == [];
  }

  lemma OneContainerAddrs(ev: Event)
    requires ev.pod.Some? && |ev.pod.value.containers| == 1 && Selected(ev.pod.value, 0)
    ensures BigUnion(ContainerSets(ev)) == ReplyAddrs(ContainerLog(ev, 0))
  {
    var sets := ContainerSets(ev);
    assert sets[..0] == [] && sets[..1] == sets;
    UnionStep(sets, 0);
  }

  lemma FailedPodHandled(log: LogReply)
    ensures var ev := FailedPod(log); var pod := ev.pod.value;
      && Handled(None, ev) && RequestsSpyre(pod) && Selected(pod, 0)
      && pod.containers[0].name == "app" && !Crashing(pod, "app") && ContainerLog(ev, 0) == log
  {
    var ev := FailedPod(log);
    var pod := ev.pod.value;
    var resource := SPYRE_RESOURCE_PREFIX + "pf";
    assert resource in pod.containers[0].requests && SPYRE_RESOURCE_PREFIX <= resource;
  }

  /** After a denied log the watcher goes on to fetch and scan the log of the next failed pod. */
  lemma DenialIsNotTheEnd(text: string)
    ensures var cycle := Cycle(Watching([FailedPod(LogDenied), FailedPod(LogText(text))]), false);
      && CycleCalls(None, cycle) ==
         [OpenWatch(false), ReadLog("app", false, LogDenied), ReadLog("app", false, LogText(text))]
      && CycleAddrs(None, cycle) == Recorded(Marks(ScannerLines(text)))
      && CycleDisables(None, cycle) && !StopsAtDenial(CycleCalls(None, cycle))
  {
    var first, second := FailedPod(LogDenied), FailedPod(LogText(text));
    FailedPodCalls(LogDenied);
    FailedPodCalls(LogText(text));
    TwoEvents(None, first, second);
    ShownCalls([OpenWatch(false)], ReadLog("app", false, LogDenied), ReadLog("app", false, LogText(text)));
    DeniedFirst(None, first, second);
  }

  lemma ShownCalls(open: seq<Call>, denied: Call, next: Call)
    requires |open| == 1 && Denied(denied)
    ensures open + ([denied] + [next]) == [open[0], denied, next] && !StopsAtDenial([open[0], denied, next])
  {
    assert Denied([open[0], denied, next][1]);
  }

  lemma DeniedFirst(allowed: Option<set<string>>, first: Event, second: Event)
    requires EventDenied(allowed, first)
    ensures EventsDenied(allowed, [first, second])
  {
    assert EventDenied(allowed, [first, second][0]);
  }

  lemma TwoEvents(allowed: Option<set<string>>, first: Event, second: Event)
    ensures EventsCalls(allowed, [first, second]) == EventCalls(allowed, first) + EventCalls(allowed, second)
    ensures EventsAddrs(allowed, [first, second]) == EventAddrs(allowed, first) + EventAddrs(allowed, second)
  {
    var events := [first, second];
    EventsCallsFlat(allowed, events);
    assert EventLists(allowed, events) == [EventCalls(allowed, first), EventCalls(allowed, second)];
    TwoLists(EventCalls(allowed, first), EventCalls(allowed, second));
    assert EventSets(allowed, events) == [EventAddrs(allowed, first), EventAddrs(allowed, second)];
    TwoSets(EventAddrs(allowed, first), EventAddrs(allowed, second));
  }

  lemma TwoLists(xs: seq<Call>, ys: seq<Call>)
    ensures Flatten([xs, ys]) == xs + ys
  {
    assert [xs, ys][..1] == [xs] && [xs][..0] == [] && Flatten([xs]) == [] + xs;
  }

  lemma TwoSets(s: set<string>, t: set<string>)
    ensures BigUnion([s, t]) == s + t
  {
    assert [s, t][..1] == [s] && [s][..0] == [] && BigUnion([s]) == {} + s;
  }
}
