/** Which pods are scanned and which logs are fetched, in terms of what the API says about a pod. */
module PodFilter {
  import opened Options
  import opened RasWatcher
  import opened Unions

  // ---------- Pods ----------

  /** Some status of a container with this name waits in a crash loop. */
  ghost predicate WaitsInCrashLoop(pod: Pod, name: string) {
    exists i :: 0 <= i < |pod.statuses| && pod.statuses[i].name == name &&
      pod.statuses[i].waiting == Some("CrashLoopBackOff")
  }

  ghost predicate SomeCrashLoop(pod: Pod) {
    exists name :: WaitsInCrashLoop(pod, name)
  }

  /** Some container requests a resource whose name begins like those of the device plugin. */
  ghost predicate RequestsDevice(pod: Pod) {
    exists c, rest :: 0 <= c < |pod.containers| && "ibm.com/spyre_" + rest in pod.containers[c].requests
  }

  /** Some claim of the pod can be read and has a device of the Spyre driver. */
  ghost predicate ClaimsDevice(ev: Event)
    requires ev.pod.Some?
  {
    exists i: nat, d :: i < |ClaimNames(ev.pod.value)| && ev.claimReply(i) == Allocated(d) && "spyre.ibm.com" in d
  }

  lemma CrashingIff(pod: Pod, name: string)
    ensures Crashing(pod, name) <==> WaitsInCrashLoop(pod, name)
  {
    if i :| 0 <= i < |pod.statuses| && pod.statuses[i].name == name &&
            pod.statuses[i].waiting == Some("CrashLoopBackOff") {
      assert pod.statuses[i] == ContainerStatus(name, Some(CRASH_LOOP));
    }
  }

  lemma FailingIff(pod: Pod)
    ensures FailedOrCrashLooping(pod) <==> pod.phase == "Failed" || SomeCrashLoop(pod)
  {
    if i :| 0 <= i < |pod.statuses| && pod.statuses[i].waiting == Some("CrashLoopBackOff") {
      assert WaitsInCrashLoop(pod, pod.statuses[i].name);
    }
  }

  lemma RequestsIff(pod: Pod)
    ensures RequestsSpyre(pod) <==> RequestsDevice(pod)
  {
    if c, r :| 0 <= c < |pod.containers| && r in pod.containers[c].requests && SPYRE_RESOURCE_PREFIX <= r {
      var rest := r[|SPYRE_RESOURCE_PREFIX|..];
      assert "ibm.com/spyre_" + rest == r;
    }
    if c, rest :| 0 <= c < |pod.containers| && "ibm.com/spyre_" + rest in pod.containers[c].requests {
      assert SPYRE_RESOURCE_PREFIX <= "ibm.com/spyre_" + rest;
    }
  }

  /** The claims looked up are those of the spec, those of the status, and the extended one if it has a name. */
  lemma ClaimNamesIff(pod: Pod, name: string)
    ensures name in ClaimNames(pod) <==>
            || Some(name) in pod.claims
            || Some(name) in pod.claimStatuses
            || (pod.extendedClaim == Some(name) && name != "")
  {
    PresentIff(pod.claims, name);
    PresentIff(pod.claimStatuses, name);
  }

  lemma {:induction false} PresentIff(names: seq<Option<string>>, name: string)
    ensures name in Present(names) <==> Some(name) in names
  {
    if |names| > 0 {
      PresentIff(names[1..], name);
      assert names == [names[0]] + names[1..];
    }
  }

  /**
   The logs of an event's pod are fetched exactly when the pod was added or modified, has failed or has a
   container that waits in a crash loop, is in an allowed namespace, and requests a Spyre device or claims
   one.
   */
  lemma HandledIff(allowed: Option<set<string>>, ev: Event)
    ensures Handled(allowed, ev) <==>
            && ev.addedOrModified && ev.pod.Some?
            && (ev.pod.value.phase == "Failed" || SomeCrashLoop(ev.pod.value))
            && (allowed == None || ev.pod.value.namespace in allowed.value)
            && (RequestsDevice(ev.pod.value) || ClaimsDevice(ev))
  {
    if ev.pod.Some? {
      var pod := ev.pod.value;
      FailingIff(pod);
      RequestsIff(pod);
      ClaimsIff(ev);
    }
  }

  lemma ClaimsIff(ev: Event)
    requires ev.pod.Some?
    ensures UsesSpyreClaim(ev.pod.value, ev.claimReply) <==> ClaimsDevice(ev)
  {
    var pod := ev.pod.value;
    if i: nat :| i < |ClaimNames(pod)| && SpyreClaim(ev.claimReply(i)) {
      assert ev.claimReply(i) == Allocated(ev.claimReply(i).drivers);
    }
  }

  // ---------- Logs ----------

  /**
   The log of container c is fetched when its pod failed or it waits in a crash loop itself, and then from its
   previous run exactly if it waits.
   */
  ghost predicate LogFetched(ev: Event, c: nat, call: Call)
    requires ev.pod.Some? && c < |ev.pod.value.containers|
  {
    var pod := ev.pod.value;
    var name := pod.containers[c].name;
    var waits := WaitsInCrashLoop(pod, name);
    (pod.phase == "Failed" || waits) && call == ReadLog(name, waits, ev.logReply(c, waits))
  }

  lemma LogFetchedIff(ev: Event, c: nat, call: Call)
    requires ev.pod.Some? && c < |ev.pod.value.containers|
    ensures call in LogCall(ev, c) <==> LogFetched(ev, c, call)
  {
    CrashingIff(ev.pod.value, ev.pod.value.containers[c].name);
  }

  lemma {:induction false} LogCallsIff(ev: Event, n: nat, call: Call)
    requires ev.pod.Some? && n <= |ev.pod.value.containers|
    ensures call in LogCalls(ev, n) <==> exists c: nat :: c < n && LogFetched(ev, c, call)
  {
    if n > 0 {
      LogCallsIff(ev, n - 1, call);
      LogFetchedIff(ev, n - 1, call);
    }
  }

  /** The addresses in the logs that some calls fetched. */
  function GivenBy(calls: seq<Call>): set<string> {
    if |calls| == 0 then {}
    else
      var last := calls[|calls| - 1];
      GivenBy(calls[..|calls| - 1]) + (if last.ReadLog? then ReplyAddrs(last.log) else {})
  }

  lemma {:induction false} GivenConcat(xs: seq<Call>, ys: seq<Call>)
    ensures GivenBy(xs + ys) == GivenBy(xs) + GivenBy(ys)
  {
    if |ys| == 0 {
      assert xs + ys == xs;
    } else {
      GivenConcat(xs, ys[..|ys| - 1]);
      assert (xs + ys)[..|xs + ys| - 1] == xs + ys[..|ys| - 1];
    }
  }

  lemma {:induction false} ClaimsGiveNothing(calls: seq<Call>)
    requires forall r :: r in calls ==> r.ReadClaim?
    ensures GivenBy(calls) == {}
  {
    if |calls| > 0 {
      ClaimsGiveNothing(calls[..|calls| - 1]);
      assert calls[|calls| - 1] in calls;
    }
  }

  lemma LogCallGives(ev: Event, c: nat)
    requires ev.pod.Some? && c < |ev.pod.value.containers|
    ensures GivenBy(LogCall(ev, c)) == ContainerSets(ev)[c]
  {
    var calls := LogCall(ev, c);
    if calls != [] {
      assert calls[..0] == [] && GivenBy(calls) == {} + ReplyAddrs(calls[0].log);
    }
  }

  lemma LogCallsSplit(ev: Event, n: nat)
    requires ev.pod.Some? && n < |ev.pod.value.containers|
    ensures LogCalls(ev, n + 1) == LogCalls(ev, n) + LogCall(ev, n)
  {}

  lemma LogsGiveStep(ev: Event, n: nat)
    requires ev.pod.Some? && n < |ev.pod.value.containers|
    ensures GivenBy(LogCalls(ev, n + 1)) == GivenBy(LogCalls(ev, n)) + ContainerSets(ev)[n]
  {
    LogCallsSplit(ev, n);
    LogCallGives(ev, n);
    GivenConcat(LogCalls(ev, n), LogCall(ev, n));
  }

  lemma {:induction false} LogsGive(ev: Event, n: nat)
    requires ev.pod.Some? && n <= |ev.pod.value.containers|
    ensures GivenBy(LogCalls(ev, n)) == BigUnion(ContainerSets(ev)[..n])
  {
    if n > 0 {
      var m: nat := n - 1;
      LogsGive(ev, m);
      LogsGiveStep(ev, m);
      UnionStep(ContainerSets(ev), m);
    }
  }

  /** An event gives exactly the addresses in the logs that are fetched for it. */
  lemma EventGives(allowed: Option<set<string>>, ev: Event)
    ensures EventAddrs(allowed, ev) == GivenBy(EventCalls(allowed, ev))
  {
    var filter := FilterCalls(allowed, ev);
    ClaimsGiveNothing(filter);
    if Handled(allowed, ev) {
      var n := |ev.pod.value.containers|;
      LogsGive(ev, n);
      assert ContainerSets(ev)[..n] == ContainerSets(ev);
      GivenConcat(filter, LogCalls(ev, n));
    } else {
      assert filter + [] == filter;
    }
  }

  /** Exactly the logs of the selected containers of a handled event's pod are fetched. */
  lemma EventFetches(allowed: Option<set<string>>, ev: Event, call: Call)
    requires call.ReadLog?
    ensures call in EventCalls(allowed, ev) <==>
            Handled(allowed, ev) && exists c: nat :: c < |ev.pod.value.containers| && LogFetched(ev, c, call)
  {
    assert forall r :: r in FilterCalls(allowed, ev) ==> r.ReadClaim?;
    if Handled(allowed, ev) {
      LogCallsIff(ev, |ev.pod.value.containers|, call);
    }
  }

  // ---------- A pod in a crash loop ----------

  /** A running pod whose only container requests a Spyre device and waits in a crash loop. */
  function CrashLoopingPod(name: string, reply: (nat, bool) -> LogReply): Event {
    Event(true,
          Some(Pod("default", "Running", [Container(name, {"ibm.com/spyre_pf"})],
                   [ContainerStatus(name, Some("CrashLoopBackOff"))], [], [], None)),
          i => Unreadable, reply)
  }

  lemma CrashLoopingPodHandled(name: string, reply: (nat, bool) -> LogReply)
    ensures var ev := CrashLoopingPod(name, reply);
      Handled(None, ev) && RequestsSpyre(ev.pod.value) && Selected(ev.pod.value, 0) && Crashing(ev.pod.value, name)
  {
    var ev := CrashLoopingPod(name, reply);
    var pod := ev.pod.value;
    assert pod.statuses[0] == ContainerStatus(name, Some(CRASH_LOOP));
    assert "ibm.com/spyre_pf" in pod.containers[0].requests && SPYRE_RESOURCE_PREFIX <= "ibm.com/spyre_pf";
  }

  /** Exactly the log of its previous run is fetched, without any claim being read. */
  lemma CrashLoopIsScanned(name: string, reply: (nat, bool) -> LogReply)
    ensures var ev := CrashLoopingPod(name, reply);
      && EventCalls(None, ev) == [ReadLog(name, true, ev.logReply(0, true))]
      && EventAddrs(None, ev) == ReplyAddrs(ev.logReply(0, true))
  {
    var ev := CrashLoopingPod(name, reply);
    CrashLoopingPodHandled(name, reply);
    CrashLoopCalls(ev);
    assert FilterCalls(None, ev) == [];
    assert [] + LogCalls(ev, 1) == LogCalls(ev, 1);
  }

  lemma CrashLoopCalls(ev: Event)
    requires ev.pod.Some? && |ev.pod.value.containers| == 1 && Selected(ev.pod.value, 0)
    requires Crashing(ev.pod.value, ev.pod.value.containers[0].name)
    ensures LogCalls(ev, 1) == [ReadLog(ev.pod.value.containers[0].name, true, ev.logReply(0, true))]
    ensures BigUnion(ContainerSets(ev)) == ReplyAddrs(ev.logReply(0, true))
  {
    assert LogCalls(ev, 0) == [];
    var sets := ContainerSets(ev);
    assert sets[..0] == [] && sets[..1] == sets;
    UnionStep(sets, 0);
  }
}
