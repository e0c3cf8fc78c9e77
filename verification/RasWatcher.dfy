/** The RAS reporter: its error map, and the pod watcher that fills it. */
module RasWatcher {
  import opened Options
  import opened Devices
  import opened Merging
  import opened RasLog
  import opened Text
  import opened Unions

  const SPYRE_RESOURCE_PREFIX := "ibm.com/spyre_"
  const SPYRE_DRA_DRIVER := "spyre.ibm.com"
  const CRASH_LOOP := "CrashLoopBackOff"
  const POD_FAILED := "Failed"

  datatype ContainerStatus = ContainerStatus(name: string, waiting: Option<string>)
  datatype Container = Container(name: string, requests: set<string>)
  datatype Pod = Pod(
    namespace: string,
    phase: string,
    containers: seq<Container>,
    statuses: seq<ContainerStatus>,
    claims: seq<Option<string>>,
    claimStatuses: seq<Option<string>>,
    extendedClaim: Option<string>)

  /** Replies of the Kubernetes API; nothing is assumed about them. */
  datatype ClaimReply = Unreadable | Unallocated | Allocated(drivers: seq<string>)
  datatype LogReply = LogDenied | LogFailed | LogText(text: string)

  /**
   A watch event. `claimReply(i)` is the answer for the i-th claim name of the pod, and
   `logReply(c, previous)` the answer when the log of container c is fetched from its current or
   previous run.
   */
  datatype Event = Event(
    addedOrModified: bool,
    pod: Option<Pod>,
    claimReply: nat -> ClaimReply,
    logReply: (nat, bool) -> LogReply)

  datatype WatchReply = WatchDenied | WatchFailed | Watching(events: seq<Event>)

  /** One watch: the events handled until it ended, and whether the process is stopping by then. */
  datatype Cycle = Cycle(reply: WatchReply, cancelled: bool)

  function RasEntry(p: string): Device {
    Device(p, PF, InError, "", 0)
  }

  /** A recorded error as the reporter lists it. */
  function RasDevice(p: string): Device {
    Stamp(RasEntry(p), "ras", PRIORITY_RAS)
  }

  /** What the reporter hands to the merge for a set of recorded addresses. */
  function RasEntries(recorded: set<string>): (r: map<string, Device>)
    ensures r.Keys == recorded
    ensures forall p :: p in recorded ==> r[p] == RasDevice(p)
  {
    map p | p in recorded :: RasDevice(p)
  }

  // ---------- What one event stands for ----------

  predicate Crashing(pod: Pod, name: string) {
    exists i :: 0 <= i < |pod.statuses| && pod.statuses[i] == ContainerStatus(name, Some(CRASH_LOOP))
  }

  predicate FailedOrCrashLooping(pod: Pod) {
    || pod.phase == POD_FAILED
    || exists i :: 0 <= i < |pod.statuses| && pod.statuses[i].waiting == Some(CRASH_LOOP)
  }

  predicate RequestsSpyre(pod: Pod) {
    exists c :: 0 <= c < |pod.containers| &&
      exists r :: r in pod.containers[c].requests && SPYRE_RESOURCE_PREFIX <= r
  }

  function Present(names: seq<Option<string>>): seq<string> {
    if |names| == 0 then []
    else (if names[0].Some? then [names[0].value] else []) + Present(names[1..])
  }

  function ClaimNames(pod: Pod): seq<string> {
    Present(pod.claims) + Present(pod.claimStatuses) +
    (match pod.extendedClaim
     case Some(name) => if name != "" then [name] else []
     case None => [])
  }

  predicate SpyreClaim(reply: ClaimReply) {
    reply.Allocated? && SPYRE_DRA_DRIVER in reply.drivers
  }

  ghost predicate UsesSpyreClaim(pod: Pod, reply: nat -> ClaimReply) {
    exists i: nat :: i < |ClaimNames(pod)| && SpyreClaim(reply(i))
  }

  /** The events of failing pods in allowed namespaces. */
  predicate Qualifies(allowed: Option<set<string>>, ev: Event) {
    && ev.addedOrModified
    && ev.pod.Some?
    && FailedOrCrashLooping(ev.pod.value)
    && (allowed.Some? ==> ev.pod.value.namespace in allowed.value)
  }

  /** The events whose logs are fetched. */
  ghost predicate Handled(allowed: Option<set<string>>, ev: Event) {
    Qualifies(allowed, ev) && (RequestsSpyre(ev.pod.value) || UsesSpyreClaim(ev.pod.value, ev.claimReply))
  }

  predicate Selected(pod: Pod, c: nat)
    requires c < |pod.containers|
  {
    pod.phase == POD_FAILED || Crashing(pod, pod.containers[c].name)
  }

  /** The reply for container c: a crash-looping container's log is that of its previous run. */
  function ContainerLog(ev: Event, c: nat): LogReply
    requires ev.pod.Some? && c < |ev.pod.value.containers|
  {
    ev.logReply(c, Crashing(ev.pod.value, ev.pod.value.containers[c].name))
  }

  function ReplyAddrs(reply: LogReply): set<string> {
    if reply.LogText? then Recorded(Marks(ScannerLines(reply.text))) else {}
  }

  /** What each container of the pod contributes. */
  function ContainerSets(ev: Event): (sets: seq<set<string>>)
    requires ev.pod.Some?
    ensures |sets| == |ev.pod.value.containers|
    ensures forall c: nat :: c < |sets| ==>
              sets[c] == if Selected(ev.pod.value, c) then ReplyAddrs(ContainerLog(ev, c)) else {}
  {
    seq(|ev.pod.value.containers|, c requires 0 <= c < |ev.pod.value.containers| =>
      if Selected(ev.pod.value, c) then ReplyAddrs(ContainerLog(ev, c)) else {})
  }

  ghost function EventAddrs(allowed: Option<set<string>>, ev: Event): set<string> {
    if Handled(allowed, ev) then BigUnion(ContainerSets(ev)) else {}
  }

  /** Container c is selected and its log is denied. */
  predicate DeniedAt(ev: Event, c: nat)
    requires ev.pod.Some? && c < |ev.pod.value.containers|
  {
    Selected(ev.pod.value, c) && ContainerLog(ev, c).LogDenied?
  }

  ghost predicate DeniedUpTo(ev: Event, n: nat)
    requires ev.pod.Some? && n <= |ev.pod.value.containers|
  {
    exists c: nat :: c < n && DeniedAt(ev, c)
  }

  ghost predicate EventDenied(allowed: Option<set<string>>, ev: Event) {
    Handled(allowed, ev) && DeniedUpTo(ev, |ev.pod.value.containers|)
  }

  ghost function EventSets(allowed: Option<set<string>>, events: seq<Event>): (sets: seq<set<string>>)
    ensures |sets| == |events| && forall e :: 0 <= e < |events| ==> sets[e] == EventAddrs(allowed, events[e])
  {
    seq(|events|, e requires 0 <= e < |events| => EventAddrs(allowed, events[e]))
  }

  ghost function EventsAddrs(allowed: Option<set<string>>, events: seq<Event>): set<string> {
    BigUnion(EventSets(allowed, events))
  }

  ghost predicate EventsDenied(allowed: Option<set<string>>, events: seq<Event>) {
    exists e :: 0 <= e < |events| && EventDenied(allowed, events[e])
  }

  ghost function CycleAddrs(allowed: Option<set<string>>, cycle: Cycle): set<string> {
    if cycle.reply.Watching? then EventsAddrs(allowed, cycle.reply.events) else {}
  }

  ghost predicate CycleDisables(allowed: Option<set<string>>, cycle: Cycle) {
    || cycle.reply.WatchDenied?
    || (cycle.reply.Watching? && EventsDenied(allowed, cycle.reply.events))
  }

  ghost function CycleSets(allowed: Option<set<string>>, cycles: seq<Cycle>): (sets: seq<set<string>>)
    ensures |sets| == |cycles| && forall k :: 0 <= k < |cycles| ==> sets[k] == CycleAddrs(allowed, cycles[k])
  {
    seq(|cycles|, k requires 0 <= k < |cycles| => CycleAddrs(allowed, cycles[k]))
  }

  ghost function CyclesAddrs(allowed: Option<set<string>>, cycles: seq<Cycle>): set<string> {
    BigUnion(CycleSets(allowed, cycles))
  }

  // ---------- The calls of the Kubernetes API ----------

  /** A call with its answer; of a watch, only whether it was denied. */
  datatype Call =
    | OpenWatch(denied: bool)
    | ReadClaim(name: string, claim: ClaimReply)
    | ReadLog(container: string, previous: bool, log: LogReply)

  /** The first of n claims, from claim i on, that has a Spyre device; n if there is none. */
  function FirstSpyreClaim(reply: nat -> ClaimReply, i: nat, n: nat): (k: nat)
    requires i <= n
    ensures i <= k <= n
    ensures forall j: nat :: i <= j < k ==> !SpyreClaim(reply(j))
    ensures k < n ==> SpyreClaim(reply(k))
    decreases n - i
  {
    if i == n || SpyreClaim(reply(i)) then i else FirstSpyreClaim(reply, i + 1, n)
  }

  function Reads(names: seq<string>, reply: nat -> ClaimReply, n: nat): (calls: seq<Call>)
    requires n <= |names|
    ensures |calls| == n && forall i: nat :: i < n ==> calls[i] == ReadClaim(names[i], reply(i))
  {
    seq(n, i requires 0 <= i < n => ReadClaim(names[i], reply(i)))
  }

  /** Claims are read up to the first Spyre one. */
  function ClaimCalls(pod: Pod, reply: nat -> ClaimReply): seq<Call> {
    var names := ClaimNames(pod);
    var k := FirstSpyreClaim(reply, 0, |names|);
    Reads(names, reply, if k < |names| then k + 1 else k)
  }

  /** The call for container c, if it is selected. */
  function LogCall(ev: Event, c: nat): seq<Call>
    requires ev.pod.Some? && c < |ev.pod.value.containers|
  {
    var name := ev.pod.value.containers[c].name;
    if Selected(ev.pod.value, c) then [ReadLog(name, Crashing(ev.pod.value, name), ContainerLog(ev, c))] else []
  }

  function LogCalls(ev: Event, n: nat): seq<Call>
    requires ev.pod.Some? && n <= |ev.pod.value.containers|
  {
    if n == 0 then []
    else LogCalls(ev, n - 1) + LogCall(ev, n - 1)
  }

  /** The calls that decide whether the logs of the event's pod are fetched. */
  function FilterCalls(allowed: Option<set<string>>, ev: Event): seq<Call> {
    if Qualifies(allowed, ev) && !RequestsSpyre(ev.pod.value) then ClaimCalls(ev.pod.value, ev.claimReply) else []
  }

  ghost function EventCalls(allowed: Option<set<string>>, ev: Event): seq<Call> {
    FilterCalls(allowed, ev) + (if Handled(allowed, ev) then LogCalls(ev, |ev.pod.value.containers|) else [])
  }

  ghost function EventsCalls(allowed: Option<set<string>>, events: seq<Event>): seq<Call> {
    if |events| == 0 then []
    else
      var n := |events| - 1;
      EventsCalls(allowed, events[..n]) + EventCalls(allowed, events[n])
  }

  ghost function CycleCalls(allowed: Option<set<string>>, cycle: Cycle): seq<Call> {
    [OpenWatch(cycle.reply.WatchDenied?)] +
    (if cycle.reply.Watching? then EventsCalls(allowed, cycle.reply.events) else [])
  }

  ghost function RunCalls(allowed: Option<set<string>>, cycles: seq<Cycle>): seq<Call> {
    if |cycles| == 0 then []
    else
      var n := |cycles| - 1;
      RunCalls(allowed, cycles[..n]) + CycleCalls(allowed, cycles[n])
  }

  // ---------- The reporter ----------

  class RasReporter {
    var errors: map<string, Device>
    var disabled: bool
    var allowed: Option<set<string>>

    /** The calls made so far. */
    ghost var calls: seq<Call>

    ghost predicate Valid()
      reads this
    {
      forall p :: p in errors ==> errors[p] == RasEntry(p)
    }

    constructor ()
      ensures Valid() && errors == map[] && !disabled && allowed == None && calls == []
    {
      errors, disabled, allowed, calls := map[], false, None, [];
    }

    /** An empty list lifts the restriction. */
    method SetAllowedNamespaces(namespaces: seq<string>)
      modifies this`allowed
      ensures allowed == if namespaces == [] then None
                         else Some(set i | 0 <= i < |namespaces| :: TrimSpace(namespaces[i]))
    {
      if namespaces == [] {
        allowed := None;
        return;
      }
      var m: set<string> := {};
      for k := 0 to |namespaces|
        invariant m == set i | 0 <= i < k :: TrimSpace(namespaces[i])
      {
        m := m + {TrimSpace(namespaces[k])};
      }
      allowed := Some(m);
    }

    /** A fresh, stamped copy of the error map, in any order. */
    method Collect() returns (states: array<Device>)
      requires Valid()
      ensures fresh(states)
      ensures Lists(states[..], RasEntries(errors.Keys))
    {
      states := ListValues(errors);
      label listed:
      StampAll(states, "ras", PRIORITY_RAS);
      ghost var was := old@listed(states[..]);
      assert forall i :: 0 <= i < |was| ==> states[..][i] == RasDevice(was[i].addr);
      ListsEntrywise(was, errors, states[..], RasEntries(errors.Keys));
    }

    method AddRasError(p: string)
      requires Valid()
      modifies this`errors
      ensures Valid() && errors.Keys == old(errors.Keys) + {p}
    {
      errors := errors[p := RasEntry(p)];
    }

    /** The scanner's loop over what its lines carry. */
    method ScanMarks(marks: seq<Mark>)
      requires Valid()
      modifies this`errors
      ensures Valid() && errors.Keys == old(errors.Keys) + Recorded(marks)
    {
      var lastPci := "";
      for i := 0 to |marks|
        invariant Valid()
        invariant lastPci == LastPci("", marks[..i])
        invariant errors.Keys == old(errors.Keys) + Recorded(marks[..i])
      {
        RecordedStep(marks, i);
        if marks[i].pci != "" {
          lastPci := marks[i].pci;
        }
        if marks[i].error && lastPci != "" {
          AddRasError(lastPci);
        }
      }
      assert marks[..|marks|] == marks;
    }

    method ScanLines(text: string)
      requires Valid()
      modifies this`errors
      ensures Valid() && errors.Keys == old(errors.Keys) + Recorded(Marks(ScannerLines(text)))
    {
      ScanMarks(Marks(ScannerLines(text)));
    }

    method ScanContainerLog(container: string, previous: bool, reply: LogReply)
      requires Valid()
      modifies this`errors, this`disabled, this`calls
      ensures Valid() && errors.Keys == old(errors.Keys) + ReplyAddrs(reply)
      ensures disabled == (old(disabled) || reply.LogDenied?)
      ensures calls == old(calls) + [ReadLog(container, previous, reply)]
    {
      calls := calls + [ReadLog(container, previous, reply)];
      match reply {
        case LogDenied => disabled := true;
        case LogFailed =>
        case LogText(text) => ScanLines(text);
      }
    }

    method CrashLoopingContainers(pod: Pod) returns (names: set<string>)
      ensures forall name :: name in names <==> Crashing(pod, name)
    {
      names := {};
      for i := 0 to |pod.statuses|
        invariant forall name :: name in names <==>
                    exists k :: 0 <= k < i && pod.statuses[k] == ContainerStatus(name, Some(CRASH_LOOP))
      {
        if pod.statuses[i].waiting == Some(CRASH_LOOP) {
          assert pod.statuses[i] == ContainerStatus(pod.statuses[i].name, Some(CRASH_LOOP));
          names := names + {pod.statuses[i].name};
        }
      }
    }

    method FetchAndScanLogs(ev: Event)
      requires Valid() && ev.pod.Some?
      modifies this`errors, this`disabled, this`calls
      ensures Valid()
      ensures errors.Keys == old(errors.Keys) + BigUnion(ContainerSets(ev))
      ensures disabled == (old(disabled) || DeniedUpTo(ev, |ev.pod.value.containers|))
      ensures calls == old(calls) + LogCalls(ev, |ev.pod.value.containers|)
    {
      var pod := ev.pod.value;
      var crashLooping := CrashLoopingContainers(pod);
      ghost var sets := ContainerSets(ev);
      for c := 0 to |pod.containers|
        invariant Valid()
        invariant errors.Keys == old(errors.Keys) + BigUnion(sets[..c])
        invariant disabled == (old(disabled) || DeniedUpTo(ev, c))
        invariant calls == old(calls) + LogCalls(ev, c)
      {
        var isCrash := pod.containers[c].name in crashLooping;
        var isFailed := pod.phase == POD_FAILED;
        if isCrash || isFailed {
          ScanContainerLog(pod.containers[c].name, isCrash, ev.logReply(c, isCrash));
        }
        ContainerStep(ev, c, old(errors.Keys), old(calls));
      }
      assert sets[..|pod.containers|] == sets;
    }

    /** A claim that cannot be read is passed over. */
    method UsesSpyreDraClaim(pod: Pod, reply: nat -> ClaimReply) returns (uses: bool)
      modifies this`calls
      ensures uses <==> UsesSpyreClaim(pod, reply)
      ensures calls == old(calls) + ClaimCalls(pod, reply)
    {
      var names := ClaimNames(pod);
      for i := 0 to |names|
        invariant forall k: nat :: k < i ==> !SpyreClaim(reply(k))
        invariant calls == old(calls) + Reads(names, reply, i)
      {
        assert Reads(names, reply, i + 1) == Reads(names, reply, i) + [ReadClaim(names[i], reply(i))];
        calls := calls + [ReadClaim(names[i], reply(i))];
        match reply(i) {
          case Unreadable =>
          case Unallocated =>
          case Allocated(drivers) =>
            for d := 0 to |drivers|
              invariant SPYRE_DRA_DRIVER !in drivers[..d]
            {
              if drivers[d] == SPYRE_DRA_DRIVER {
                return true;
              }
            }
        }
      }
      return false;
    }

    method SkipPod(ev: Event) returns (skip: bool)
      requires ev.addedOrModified && ev.pod.Some?
      modifies this`calls
      ensures skip <==> !Handled(allowed, ev)
      ensures calls == old(calls) + FilterCalls(allowed, ev)
    {
      var pod := ev.pod.value;
      if !FailedOrCrashLooping(pod) {
        return true;
      }
      if allowed.Some? && pod.namespace !in allowed.value {
        return true;
      }
      if RequestsSpyre(pod) {
        return false;
      }
      var uses := UsesSpyreDraClaim(pod, ev.claimReply);
      return !uses;
    }

    method HandleEvent(ev: Event)
      requires Valid()
      modifies this`errors, this`disabled, this`calls
      ensures Valid()
      ensures errors.Keys == old(errors.Keys) + EventAddrs(allowed, ev)
      ensures disabled == (old(disabled) || EventDenied(allowed, ev))
      ensures calls == old(calls) + EventCalls(allowed, ev)
    {
      if ev.addedOrModified && ev.pod.Some? {
        var skip := SkipPod(ev);
        if !skip {
          FetchAndScanLogs(ev);
        }
        Chain(old(calls), FilterCalls(allowed, ev), if skip then [] else LogCalls(ev, |ev.pod.value.containers|));
      } else {
        Chain(old(calls), [], []);
      }
    }

    /** A permission failure on a log does not end the watch: the remaining events are still handled. */
    method HandleEvents(events: seq<Event>)
      requires Valid()
      modifies this`errors, this`disabled, this`calls
      ensures Valid()
      ensures errors.Keys == old(errors.Keys) + EventsAddrs(allowed, events)
      ensures disabled == (old(disabled) || EventsDenied(allowed, events))
      ensures calls == old(calls) + EventsCalls(allowed, events)
    {
      for e := 0 to |events|
        invariant Valid()
        invariant errors.Keys == old(errors.Keys) + EventsAddrs(allowed, events[..e])
        invariant disabled == (old(disabled) || EventsDenied(allowed, events[..e]))
        invariant calls == old(calls) + EventsCalls(allowed, events[..e])
      {
        HandleEvent(events[e]);
        EventsRunStep(allowed, events, e, old(errors.Keys), old(calls));
      }
      assert events[..|events|] == events;
    }

    method WatchPods(cycle: Cycle)
      requires Valid()
      modifies this`errors, this`disabled, this`calls
      ensures Valid()
      ensures errors.Keys == old(errors.Keys) + CycleAddrs(allowed, cycle)
      ensures disabled == (old(disabled) || CycleDisables(allowed, cycle))
      ensures calls == old(calls) + CycleCalls(allowed, cycle)
    {
      calls := calls + [OpenWatch(cycle.reply.WatchDenied?)];
      match cycle.reply {
        case WatchDenied => disabled := true;
        case WatchFailed =>
        case Watching(events) => HandleEvents(events);
      }
      Chain(old(calls), [OpenWatch(cycle.reply.WatchDenied?)],
            if cycle.reply.Watching? then EventsCalls(allowed, cycle.reply.events) else []);
    }

    /**
     The retry loop, run against any sequence of watches; `watches` is how many are started. No watch
     starts after one that left the reporter disabled or the process stopping, and the loop stops for
     no other reason.
     */
    method Start(cycles: seq<Cycle>) returns (watches: nat)
      requires Valid()
      modifies this`errors, this`disabled, this`calls
      ensures Valid() && watches <= |cycles|
      ensures errors.Keys == old(errors.Keys) + CyclesAddrs(allowed, cycles[..watches])
      ensures disabled <==> old(disabled) || exists k :: 0 <= k < watches && CycleDisables(allowed, cycles[k])
      ensures forall k :: 0 <= k < watches - 1 ==>
                !old(disabled) && !CycleDisables(allowed, cycles[k]) && !cycles[k].cancelled
      ensures watches < |cycles| ==> watches > 0 && (disabled || cycles[watches - 1].cancelled)
      ensures calls == old(calls) + RunCalls(allowed, cycles[..watches])
    {
      watches := 0;
      while watches < |cycles|
        invariant Valid() && watches <= |cycles|
        invariant errors.Keys == old(errors.Keys) + CyclesAddrs(allowed, cycles[..watches])
        invariant disabled == old(disabled)
        invariant Undisturbed(allowed, cycles, watches)
        invariant old(disabled) ==> watches == 0
        invariant calls == old(calls) + RunCalls(allowed, cycles[..watches])
      {
        WatchPods(cycles[watches]);
        RunStep(allowed, cycles, watches, old(errors.Keys), old(calls));
        DisturbedLast(allowed, cycles, watches);
        watches := watches + 1;
        if disabled {
          return;
        }
        if cycles[watches - 1].cancelled {
          return;
        }
      }
      UndisturbedIff(allowed, cycles, watches);
    }
  }

  /** The first n watches leave the reporter enabled and the process running. */
  ghost predicate Undisturbed(allowed: Option<set<string>>, cycles: seq<Cycle>, n: nat)
    requires n <= |cycles|
  {
    n > 0 ==>
      Undisturbed(allowed, cycles, n - 1) && !CycleDisables(allowed, cycles[n - 1]) && !cycles[n - 1].cancelled
  }

  lemma {:induction false} UndisturbedIff(allowed: Option<set<string>>, cycles: seq<Cycle>, n: nat)
    requires n <= |cycles|
    ensures Undisturbed(allowed, cycles, n) <==>
            forall k :: 0 <= k < n ==> !CycleDisables(allowed, cycles[k]) && !cycles[k].cancelled
  {
    if n > 0 {
      UndisturbedIff(allowed, cycles, n - 1);
    }
  }

  lemma DisturbedLast(allowed: Option<set<string>>, cycles: seq<Cycle>, n: nat)
    requires n < |cycles| && Undisturbed(allowed, cycles, n)
    ensures (exists k :: 0 <= k < n + 1 && CycleDisables(allowed, cycles[k])) <==> CycleDisables(allowed, cycles[n])
    ensures forall k :: 0 <= k < n ==> !CycleDisables(allowed, cycles[k]) && !cycles[k].cancelled
  {
    UndisturbedIff(allowed, cycles, n);
  }

  lemma Chain(before: seq<Call>, some: seq<Call>, more: seq<Call>)
    ensures before + some + more == before + (some + more)
    ensures before + [] == before
  {}

  /** The addresses that the log of container c gives, if it is selected. */
  function LogAddrs(ev: Event, c: nat): set<string>
    requires ev.pod.Some? && c < |ev.pod.value.containers|
  {
    if Selected(ev.pod.value, c) then ReplyAddrs(ContainerLog(ev, c)) else {}
  }

  /** One more container adds its own part to what the reporter had before and what earlier containers gave. */
  lemma ContainerStep(ev: Event, c: nat, keys: set<string>, calls: seq<Call>)
    requires ev.pod.Some? && c < |ev.pod.value.containers|
    ensures var sets := ContainerSets(ev);
      keys + BigUnion(sets[..c]) + LogAddrs(ev, c) == keys + BigUnion(sets[..c + 1])
    ensures DeniedUpTo(ev, c + 1) <==> DeniedUpTo(ev, c) || DeniedAt(ev, c)
    ensures calls + LogCalls(ev, c) + LogCall(ev, c) == calls + LogCalls(ev, c + 1)
  {
    UnionStep(ContainerSets(ev), c);
    DeniedUpToStep(ev, c);
    Chain(calls, LogCalls(ev, c), LogCall(ev, c));
  }

  lemma DeniedUpToStep(ev: Event, c: nat)
    requires ev.pod.Some? && c < |ev.pod.value.containers|
    ensures DeniedUpTo(ev, c + 1) <==> DeniedUpTo(ev, c) || DeniedAt(ev, c)
  {
    if DeniedAt(ev, c) {
      assert DeniedUpTo(ev, c + 1);
    }
  }

  /** One more event adds its own part to what the events before it do. */
  lemma EventsStep(allowed: Option<set<string>>, events: seq<Event>, n: nat)
    requires n < |events|
    ensures EventsAddrs(allowed, events[..n + 1]) == EventsAddrs(allowed, events[..n]) + EventAddrs(allowed, events[n])
    ensures EventsDenied(allowed, events[..n + 1]) <==>
            EventsDenied(allowed, events[..n]) || EventDenied(allowed, events[n])
    ensures EventsCalls(allowed, events[..n + 1]) == EventsCalls(allowed, events[..n]) + EventCalls(allowed, events[n])
  {
    EventsAddrsStep(allowed, events, n);
    EventsDeniedStep(allowed, events, n);
    assert events[..n + 1][..n] == events[..n];
  }

  lemma EventsRunStep(allowed: Option<set<string>>, events: seq<Event>, n: nat, keys: set<string>, calls: seq<Call>)
    requires n < |events|
    ensures keys + EventsAddrs(allowed, events[..n]) + EventAddrs(allowed, events[n]) ==
            keys + EventsAddrs(allowed, events[..n + 1])
    ensures EventsDenied(allowed, events[..n + 1]) <==>
            EventsDenied(allowed, events[..n]) || EventDenied(allowed, events[n])
    ensures calls + EventsCalls(allowed, events[..n]) + EventCalls(allowed, events[n]) ==
            calls + EventsCalls(allowed, events[..n + 1])
  {
    EventsStep(allowed, events, n);
    Chain(calls, EventsCalls(allowed, events[..n]), EventCalls(allowed, events[n]));
  }

  lemma EventsAddrsStep(allowed: Option<set<string>>, events: seq<Event>, n: nat)
    requires n < |events|
    ensures EventsAddrs(allowed, events[..n + 1]) == EventsAddrs(allowed, events[..n]) + EventAddrs(allowed, events[n])
  {
    assert EventSets(allowed, events[..n + 1]) == EventSets(allowed, events[..n]) + [EventAddrs(allowed, events[n])];
    UnionAppend(EventSets(allowed, events[..n]), EventAddrs(allowed, events[n]));
  }

  lemma EventsDeniedStep(allowed: Option<set<string>>, events: seq<Event>, n: nat)
    requires n < |events|
    ensures EventsDenied(allowed, events[..n + 1]) <==>
            EventsDenied(allowed, events[..n]) || EventDenied(allowed, events[n])
  {
    var some, more := events[..n], events[..n + 1];
    if e :| 0 <= e < |some| && EventDenied(allowed, some[e]) {
      assert more[e] == some[e];
    }
    assert more[n] == events[n];
    if e :| 0 <= e < |more| && EventDenied(allowed, more[e]) {
      assert e < n ==> some[e] == more[e];
    }
  }

  /** One more watch adds its own part to what the reporter had before the run and what earlier watches gave. */
  lemma RunStep(allowed: Option<set<string>>, cycles: seq<Cycle>, n: nat, keys: set<string>, calls: seq<Call>)
    requires n < |cycles|
    ensures keys + CyclesAddrs(allowed, cycles[..n]) + CycleAddrs(allowed, cycles[n]) ==
            keys + CyclesAddrs(allowed, cycles[..n + 1])
    ensures calls + RunCalls(allowed, cycles[..n]) + CycleCalls(allowed, cycles[n]) ==
            calls + RunCalls(allowed, cycles[..n + 1])
  {
    CyclesAppend(allowed, cycles, n);
    RunCallsStep(allowed, cycles, n);
    Chain(calls, RunCalls(allowed, cycles[..n]), CycleCalls(allowed, cycles[n]));
  }

  lemma RunCallsStep(allowed: Option<set<string>>, cycles: seq<Cycle>, n: nat)
    requires n < |cycles|
    ensures RunCalls(allowed, cycles[..n + 1]) == RunCalls(allowed, cycles[..n]) + CycleCalls(allowed, cycles[n])
  {
    assert cycles[..n + 1][..n] == cycles[..n];
  }

  lemma CyclesAppend(allowed: Option<set<string>>, cycles: seq<Cycle>, n: nat)
    requires n < |cycles|
    ensures CyclesAddrs(allowed, cycles[..n + 1]) == CyclesAddrs(allowed, cycles[..n]) + CycleAddrs(allowed, cycles[n])
  {
    assert CycleSets(allowed, cycles[..n + 1]) == CycleSets(allowed, cycles[..n]) + [CycleAddrs(allowed, cycles[n])];
    UnionAppend(CycleSets(allowed, cycles[..n]), CycleAddrs(allowed, cycles[n]));
  }

  // ---------- Where a recorded address comes from ----------

  /** Container c of the event's pod has a log in which line i blames p. */
  ghost predicate BlamedBy(allowed: Option<set<string>>, ev: Event, c: nat, i: int, p: string) {
    && Handled(allowed, ev)
    && c < |ev.pod.value.containers|
    && Selected(ev.pod.value, c)
    && ContainerLog(ev, c).LogText?
    && BlamesLine(ScannerLines(ContainerLog(ev, c).text), i, p)
  }

  ghost predicate LogBlames(allowed: Option<set<string>>, ev: Event, c: nat, p: string) {
    exists i :: BlamedBy(allowed, ev, c, i, p)
  }

  lemma LogProvenance(allowed: Option<set<string>>, ev: Event, c: nat, p: string)
    requires Handled(allowed, ev) && c < |ev.pod.value.containers|
    ensures p in ContainerSets(ev)[c] <==> LogBlames(allowed, ev, c, p)
  {
    if Selected(ev.pod.value, c) && ContainerLog(ev, c).LogText? {
      var lines := ScannerLines(ContainerLog(ev, c).text);
      TextExact(lines, p);
      if i :| BlamesLine(lines, i, p) {
        assert BlamedBy(allowed, ev, c, i, p);
      }
    }
  }

  lemma EventProvenance(allowed: Option<set<string>>, ev: Event, p: string)
    ensures p in EventAddrs(allowed, ev) <==> exists c: nat :: LogBlames(allowed, ev, c, p)
  {
    if Handled(allowed, ev) {
      InBigUnion(ContainerSets(ev), p);
      forall c: nat | c < |ev.pod.value.containers|
        ensures p in ContainerSets(ev)[c] <==> LogBlames(allowed, ev, c, p)
      {
        LogProvenance(allowed, ev, c, p);
      }
    }
  }

  ghost predicate CycleBlames(allowed: Option<set<string>>, cycle: Cycle, p: string) {
    cycle.reply.Watching? &&
    exists e, c: nat :: 0 <= e < |cycle.reply.events| && LogBlames(allowed, cycle.reply.events[e], c, p)
  }

  lemma CycleProvenance(allowed: Option<set<string>>, cycle: Cycle, p: string)
    ensures p in CycleAddrs(allowed, cycle) <==> CycleBlames(allowed, cycle, p)
  {
    if cycle.reply.Watching? {
      InBigUnion(EventSets(allowed, cycle.reply.events), p);
      forall e | 0 <= e < |cycle.reply.events|
        ensures p in EventAddrs(allowed, cycle.reply.events[e]) <==>
                exists c: nat :: LogBlames(allowed, cycle.reply.events[e], c, p)
      {
        EventProvenance(allowed, cycle.reply.events[e], p);
      }
    }
  }

  /**
   An address is recorded over a run of watches exactly when, in one of them, an event was handled for
   a failing Spyre pod in an allowed namespace and the log of a selected container blames it.
   */
  lemma Provenance(allowed: Option<set<string>>, cycles: seq<Cycle>, p: string)
    ensures p in CyclesAddrs(allowed, cycles) <==>
            exists k :: 0 <= k < |cycles| && CycleBlames(allowed, cycles[k], p)
  {
    InBigUnion(CycleSets(allowed, cycles), p);
    forall k | 0 <= k < |cycles|
      ensures p in CycleAddrs(allowed, cycles[k]) <==> CycleBlames(allowed, cycles[k], p)
    {
      CycleProvenance(allowed, cycles[k], p);
    }
  }
}
