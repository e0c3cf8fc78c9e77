/** The vital states of the node: merged reports, corrected by the driver check, published as a snapshot. */
module HealthCheck {
  import opened Devices
  import opened Merging

  const PSEUDO := "pseudo"

  /** The driver check on one device; `accessible` tells whether the driver path of an address answers in time. */
  function Checked(d: Device, accessible: string -> bool): Device {
    if d.source == PSEUDO || accessible(d.addr) then d else d.(state := InError)
  }

  function CheckedAll(devices: seq<Device>, accessible: string -> bool): (r: seq<Device>)
    ensures |r| == |devices|
    ensures forall i :: 0 <= i < |r| ==> r[i] == Checked(devices[i], accessible)
  {
    seq(|devices|, i requires 0 <= i < |devices| => Checked(devices[i], accessible))
  }

  method UpdateDriverStatus(states: array<Device>, accessible: string -> bool)
    modifies states
    ensures states[..] == CheckedAll(old(states[..]), accessible)
  {
    for i := 0 to states.Length
      invariant forall k :: 0 <= k < i ==> states[k] == Checked(old(states[k]), accessible)
      invariant forall k :: i <= k < states.Length ==> states[k] == old(states[k])
    {
      if states[i].source != PSEUDO && !accessible(states[i].addr) {
        states[i] := states[i].(state := InError);
      }
    }
    assert states[..] == CheckedAll(old(states[..]), accessible);
  }

  /** The entries published for merged entries. */
  function CheckedMap(best: map<string, Device>, accessible: string -> bool): (r: map<string, Device>)
    ensures r.Keys == best.Keys
    ensures forall a :: a in best ==> r[a] == Checked(best[a], accessible)
  {
    map a | a in best :: Checked(best[a], accessible)
  }

  lemma CheckedLists(devices: seq<Device>, best: map<string, Device>, accessible: string -> bool)
    requires Lists(devices, best)
    ensures Lists(CheckedAll(devices, accessible), CheckedMap(best, accessible))
  {
    var r := CheckedAll(devices, accessible);
    forall i | 0 <= i < |r|
      ensures r[i].addr == devices[i].addr
    {}
    ListsEntrywise(devices, best, r, CheckedMap(best, accessible));
  }

  class Vitals {
    var states: array<Device>

    constructor ()
      ensures fresh(states) && states.Length == 0
    {
      states := new Device[0];
    }

    /** Hands out the published snapshot itself, not a copy. */
    method GetVitalStates() returns (snapshot: array<Device>)
      ensures snapshot == states
    {
      snapshot := states;
    }

    /**
     A successful update publishes a snapshot that no one else holds; a failed one keeps the old snapshot
     and throws away what was merged. Only the field is modified: every snapshot handed out
     earlier keeps its contents.
     */
    method UpdateStates(collected: seq<Collected>, accessible: string -> bool) returns (failed: bool)
      modifies this`states
      ensures failed <==> Failed in collected
      ensures failed ==> states == old(states)
      ensures !failed ==> fresh(states) && Lists(states[..], CheckedMap(Best(Entries(collected)), accessible))
      ensures old(states)[..] == old(states[..])
    {
      var merged, bad := Merge(collected);
      failed := bad;
      if failed {
        return;
      }
      ghost var was := merged[..];
      UpdateDriverStatus(merged, accessible);
      CheckedLists(was, Best(Entries(collected)), accessible);
      states := merged;
    }
  }

  /** One tick of the periodic loop: what the reporters collect and what the driver check answers. */
  datatype Tick = Tick(collected: seq<Collected>, accessible: string -> bool)

  /** The contents of the snapshot after a tick. */
  ghost predicate Follows(tick: Tick, before: seq<Device>, after: seq<Device>) {
    if Failed in tick.collected then after == before
    else Lists(after, CheckedMap(Best(Entries(tick.collected)), tick.accessible))
  }

  /** The snapshot of a tick: a failed one has the very snapshot before it. */
  ghost predicate SnapshotOf(tick: Tick, before: array<Device>, snapshot: array<Device>)
    reads before, snapshot
  {
    (Failed in tick.collected ==> snapshot == before) && Follows(tick, before[..], snapshot[..])
  }

  /**
   The periodic loop. `snapshots` starts with the one published before; tick k submits snapshot k + 1,
   which after a failed update is the old one again. In the end every submitted slice, and any slice
   handed out before, still has the contents it was published with.
   */
  method RunTicker(vitals: Vitals, ticks: seq<Tick>, held: array<Device>) returns (snapshots: seq<array<Device>>)
    modifies vitals`states
    ensures |snapshots| == |ticks| + 1 && snapshots[0] == old(vitals.states) && snapshots[|ticks|] == vitals.states
    ensures forall k :: 0 <= k < |ticks| ==> SnapshotOf(ticks[k], snapshots[k], snapshots[k + 1])
    ensures held[..] == old(held[..])
  {
    snapshots := [vitals.states];
    for t := 0 to |ticks|
      invariant |snapshots| == t + 1 && snapshots[0] == old(vitals.states) && snapshots[t] == vitals.states
      invariant forall k :: 0 <= k < t ==> SnapshotOf(ticks[k], snapshots[k], snapshots[k + 1])
    {
      var failed := vitals.UpdateStates(ticks[t].collected, ticks[t].accessible);
      var states := vitals.GetVitalStates();
      assert SnapshotOf(ticks[t], snapshots[t], states);
      snapshots := snapshots + [states];
    }
  }

  // ---------- What is published ----------

  /** Entry d is published for the winning report w. */
  predicate PublishedFor(d: Device, w: Device, accessible: string -> bool) {
    && d.addr == w.addr && d.kind == w.kind && d.source == w.source && d.priority == w.priority
    && d.state == if w.source != "pseudo" && !accessible(w.addr) then InError else w.state
  }

  /**
   Every published entry is that of the report that wins for its address. Its state is the winner's, or
   IN_ERROR if the winner is not a pseudo device and the driver is not accessible.
   */
  lemma PublishedEntry(collected: seq<Collected>, accessible: string -> bool, published: seq<Device>, i: nat)
    returns (k: nat)
    requires Lists(published, CheckedMap(Best(Entries(collected)), accessible)) && i < |published|
    ensures var es := For(Entries(collected), published[i].addr);
      k < |es| && Wins(es, Struck(es), k) && PublishedFor(published[i], es[k], accessible)
  {
    var entries, a := Entries(collected), published[i].addr;
    var es := For(entries, a);
    WinnerIsBest(entries, a);
    BestIsCollected(entries, a);
    k :| k < |es| && Wins(es, Struck(es), k);
    assert published[i] == Checked(es[k], accessible);
  }

  // ---------- What survives an update ----------

  ghost predicate Unhealthy(states: seq<Device>, a: string) {
    exists i :: 0 <= i < |states| && states[i].addr == a && states[i].state != Online
  }

  /** The report that wins for a is not a pseudo one, and the driver of a is not accessible. */
  ghost predicate DriverFails(tick: Tick, a: string) {
    var es := For(Entries(tick.collected), a);
    !tick.accessible(a) && exists k: nat :: k < |es| && Wins(es, Struck(es), k) && es[k].source != PSEUDO
  }

  /**
   A published error is not remembered by the merge: it outlives a tick exactly when the update fails, or
   an error is reported anew and strikes, or the driver is not accessible.
   */
  lemma ErrorOutlivesIff(tick: Tick, before: seq<Device>, after: seq<Device>, a: string)
    requires Follows(tick, before, after) && Unhealthy(before, a)
    ensures Unhealthy(after, a) <==>
            Failed in tick.collected || Struck(For(Entries(tick.collected), a)) || DriverFails(tick, a)
  {
    if Failed !in tick.collected {
      var entries := Entries(tick.collected);
      MergeClosedForm(entries, a);
      BestIsHeld(entries, a);
      var checked := CheckedMap(Best(entries), tick.accessible);
      if a in Best(entries) {
        BestIsCollected(entries, a);
        WinnerIsBest(entries, a);
        var i := ListedAt(after, checked, a);
        assert after[i].state != Online <==> Unhealthy(after, a);
      }
    }
  }

  lemma WinnerIsBest(entries: seq<Device>, a: string)
    requires a in Best(entries)
    ensures var es := For(entries, a);
      forall k: nat :: k < |es| && Wins(es, Struck(es), k) ==> es[k] == Best(entries)[a]
    ensures var es := For(entries, a);
      exists k: nat :: k < |es| && Wins(es, Struck(es), k)
  {
    var es := For(entries, a);
    BestIsHeld(entries, a);
    var l := HeldWins(es);
    forall k: nat | k < |es| && Wins(es, Struck(es), k)
      ensures k == l
    {
      WinnerIsUnique(es, Struck(es), k, l);
    }
  }

  lemma MergedAddrs(entries: seq<Device>)
    ensures Best(entries).Keys == Addrs(entries)
  {
    forall a
      ensures a in Best(entries) <==> a in Addrs(entries)
    {
      MergeClosedForm(entries, a);
    }
  }

  /**
   The design wants the reports of the other reporters to be published when one fails. The reported
   addresses are published exactly when none failed, or the snapshot before happens to have them all.
   */
  lemma ReportsPublishedIff(tick: Tick, before: seq<Device>, after: seq<Device>)
    requires Follows(tick, before, after)
    ensures Addrs(Entries(tick.collected)) <= Addrs(after) <==>
            Failed !in tick.collected || Addrs(Entries(tick.collected)) <= Addrs(before)
  {
    MergedAddrs(Entries(tick.collected));
  }
}
