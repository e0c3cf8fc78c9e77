/** Stamping and merging of the device states collected by the reporters. */
module Merging {
  import opened Devices

  /** The outcome of one reporter's collection; the text of an error is not modelled. */
  datatype Collected = Ok(states: seq<Device>) | Failed

  /** The entries of all reporters that succeeded, in reporter order. */
  function Entries(collected: seq<Collected>): seq<Device> {
    if |collected| == 0 then []
    else
      var last := collected[|collected| - 1];
      Entries(collected[..|collected| - 1]) + (if last.Ok? then last.states else [])
  }

  /** The rule by which an incoming entry replaces the one already held for its address. */
  predicate Overrides(existing: Device, incoming: Device) {
    && incoming.priority > existing.priority
    && (existing.state == Online || incoming.state != Online)
  }

  function Insert(best: map<string, Device>, d: Device): map<string, Device> {
    if d.addr !in best || Overrides(best[d.addr], d) then best[d.addr := d] else best
  }

  function Best(entries: seq<Device>): map<string, Device> {
    if |entries| == 0 then map[]
    else
      var n := |entries| - 1;
      Insert(Best(entries[..n]), entries[n])
  }

  lemma {:induction false} BestIsCollected(entries: seq<Device>, a: string)
    requires a in Best(entries)
    ensures Best(entries)[a].addr == a && Best(entries)[a] in entries
  {
    var n := |entries| - 1;
    var held := Best(entries[..n]);
    assert entries[n] in entries;
    if a in held {
      BestIsCollected(entries[..n], a);
      assert held[a] in entries;
    }
    assert Best(entries) == Insert(held, entries[n]);
  }

  /** Overwrites source and priority in place. */
  method StampAll(states: array<Device>, source: string, priority: int)
    modifies states
    ensures forall i :: 0 <= i < states.Length ==> states[i] == Stamp(old(states[i]), source, priority)
  {
    for i := 0 to states.Length
      invariant forall k :: 0 <= k < i ==> states[k] == Stamp(old(states[k]), source, priority)
      invariant forall k :: i <= k < states.Length ==> states[k] == old(states[k])
    {
      states[i] := Stamp(states[i], source, priority);
    }
  }

  /** The inner loop of the merge: the entries of one reporter, in order. */
  method InsertAll(held: map<string, Device>, states: seq<Device>, ghost before: seq<Device>)
    returns (best: map<string, Device>)
    requires held == Best(before)
    ensures best == Best(before + states)
  {
    best := held;
    assert before + states[..0] == before;
    for k := 0 to |states|
      invariant best == Best(before + states[..k])
    {
      var s := states[k];
      BestAppend(before + states[..k], s);
      assert before + states[..k] + [s] == before + states[..k + 1];
      if s.addr !in best || Overrides(best[s.addr], s) {
        best := best[s.addr := s];
      }
    }
    assert states[..|states|] == states;
  }

  lemma BestAppend(entries: seq<Device>, d: Device)
    ensures Best(entries + [d]) == Insert(Best(entries), d)
  {
    assert (entries + [d])[..|entries|] == entries;
  }

  lemma EntriesAppend(collected: seq<Collected>, c: Collected)
    ensures Entries(collected + [c]) == Entries(collected) + (if c.Ok? then c.states else [])
  {
    assert (collected + [c])[..|collected|] == collected;
  }

  method Merge(collected: seq<Collected>) returns (result: array<Device>, failed: bool)
    ensures fresh(result)
    ensures Lists(result[..], Best(Entries(collected)))
    ensures failed <==> Failed in collected
  {
    var best: map<string, Device> := map[];
    failed := false;
    for r := 0 to |collected|
      invariant best == Best(Entries(collected[..r]))
      invariant failed <==> Failed in collected[..r]
    {
      EntriesAppend(collected[..r], collected[r]);
      assert collected[..r + 1] == collected[..r] + [collected[r]];
      match collected[r] {
        case Failed =>
          assert Entries(collected[..r + 1]) == Entries(collected[..r]);
          failed := true;
        case Ok(states) =>
          best := InsertAll(best, states, Entries(collected[..r]));
      }
    }
    assert collected[..|collected|] == collected;
    forall a | a in best
      ensures best[a].addr == a
    {
      BestIsCollected(Entries(collected), a);
    }
    result := ListValues(best);
  }

  // ---------- The closed form of the merge ----------

  /** The entries for one address, in the order they were collected. */
  function For(entries: seq<Device>, a: string): seq<Device> {
    if |entries| == 0 then []
    else
      var n := |entries| - 1;
      For(entries[..n], a) + (if entries[n].addr == a then [entries[n]] else [])
  }

  /** What the merge holds for an address after its entries, taken one by one. */
  function Held(es: seq<Device>): Device
    requires |es| > 0
  {
    var n := |es| - 1;
    if n == 0 then es[0]
    else
      var h := Held(es[..n]);
      if Overrides(h, es[n]) then es[n] else h
  }

  lemma {:induction false} BestIsHeld(entries: seq<Device>, a: string)
    ensures a in Best(entries) <==> |For(entries, a)| > 0
    ensures a in Best(entries) ==> Best(entries)[a] == Held(For(entries, a))
  {
    if |entries| > 0 {
      var n := |entries| - 1;
      BestIsHeld(entries[..n], a);
      assert For(entries[..n], a) + [] == For(entries[..n], a);
      if entries[n].addr == a {
        assert For(entries, a)[..|For(entries[..n], a)|] == For(entries[..n], a);
      }
    }
  }

  lemma {:induction false} ForIsSubsequence(entries: seq<Device>, a: string, d: Device)
    ensures d in For(entries, a) <==> d in entries && d.addr == a
  {
    if |entries| > 0 {
      var n := |entries| - 1;
      ForIsSubsequence(entries[..n], a, d);
      assert entries == entries[..n] + [entries[n]];
    }
  }

  /** Entry k is unhealthy and outranks every earlier entry. */
  ghost predicate Strikes(es: seq<Device>, k: nat)
    requires k < |es|
  {
    es[k].state != Online && forall j :: 0 <= j < k ==> es[j].priority < es[k].priority
  }

  ghost predicate Struck(es: seq<Device>) {
    exists k: nat :: k < |es| && Strikes(es, k)
  }

  /** Entry k is the first of the highest-priority competitors; once struck, only unhealthy entries compete. */
  ghost predicate Wins(es: seq<Device>, struck: bool, k: nat)
    requires k < |es|
  {
    && (struck ==> es[k].state != Online)
    && (forall j :: 0 <= j < k && (struck ==> es[j].state != Online) ==> es[j].priority < es[k].priority)
    && (forall j :: k < j < |es| && (struck ==> es[j].state != Online) ==> es[j].priority <= es[k].priority)
  }

  /** The winning entry is determined by `Wins`. */
  lemma WinnerIsUnique(es: seq<Device>, struck: bool, k: nat, l: nat)
    requires k < |es| && l < |es|
    requires Wins(es, struck, k) && Wins(es, struck, l)
    ensures k == l
  {
    var dk, dl := es[k], es[l];
    if k < l {
      assert false;
    }
    if l < k {
      assert false;
    }
  }

  lemma {:induction false} HeldWins(es: seq<Device>) returns (k: nat)
    requires |es| > 0
    ensures k < |es| && Wins(es, Struck(es), k) && Held(es) == es[k]
    ensures Struck(es) <==> es[k].state != Online
  {
    var n := |es| - 1;
    if n == 0 {
      k := 0;
      assert Strikes(es, 0) <==> es[0].state != Online;
    } else {
      var init, d := es[..n], es[n];
      var l := HeldWins(init);
      forall j: nat | j < n
        ensures Strikes(init, j) <==> Strikes(es, j)
      {}
      k := if Overrides(init[l], d) then n else l;
      if Struck(init) {
        var j: nat :| j < n && Strikes(init, j);
        assert Strikes(es, j);
      } else {
        assert Strikes(es, n) <==> d.state != Online && d.priority > init[l].priority;
        assert Struck(es) <==> Strikes(es, n);
      }
    }
  }

  lemma HeldIsIn(es: seq<Device>)
    requires |es| > 0
    ensures Held(es) in es
  {
    var k := HeldWins(es);
  }

  /** Of entries with one priority the first is held. */
  lemma {:induction false} HeldEqual(es: seq<Device>, priority: int)
    requires |es| > 0 && forall d :: d in es ==> d.priority == priority
    ensures Held(es) == es[0]
  {
    var n := |es| - 1;
    if n > 0 {
      assert es == es[..n] + [es[n]];
      HeldEqual(es[..n], priority);
      assert es[0] in es && es[n] in es;
    }
  }

  /** Entry h gives way to one of the entries of a higher priority. */
  ghost predicate GivesWay(h: Device, group: seq<Device>) {
    exists g :: g in group && (h.state == Online || g.state != Online)
  }

  /** Entries of one higher priority either take the place of what is held, or leave it. */
  lemma {:induction false} HeldGroup(es: seq<Device>, group: seq<Device>, priority: int)
    requires |es| > 0 && forall d :: d in es ==> d.priority < priority
    requires forall d :: d in group ==> d.priority == priority
    ensures if GivesWay(Held(es), group) then Held(es + group) in group else Held(es + group) == Held(es)
  {
    HeldIsIn(es);
    if |group| == 0 {
      assert es + group == es;
    } else {
      var n := |group| - 1;
      var g := group[n];
      assert group == group[..n] + [g];
      HeldGroup(es, group[..n], priority);
      assert (es + group)[..|es + group| - 1] == es + group[..n];
      GivesWayAppend(Held(es), group[..n], g);
    }
  }

  lemma GivesWayAppend(h: Device, group: seq<Device>, g: Device)
    ensures GivesWay(h, group + [g]) <==> GivesWay(h, group) || h.state == Online || g.state != Online
  {
    assert forall d :: d in group + [g] <==> d in group || d == g;
  }

  /** Merge in closed form, for any reporter order and any duplicates. */
  lemma MergeClosedForm(entries: seq<Device>, a: string)
    ensures a in Best(entries) <==> a in Addrs(entries)
    ensures a in Best(entries) ==>
              var es := For(entries, a);
              exists k: nat :: k < |es| && Wins(es, Struck(es), k) && Best(entries)[a] == es[k]
    ensures a in Best(entries) ==> (Struck(For(entries, a)) <==> Best(entries)[a].state != Online)
  {
    BestIsHeld(entries, a);
    var es := For(entries, a);
    if |es| > 0 {
      ForIsSubsequence(entries, a, es[0]);
      var k := HeldWins(es);
    } else if a in Addrs(entries) {
      var d :| d in entries && d.addr == a;
      ForIsSubsequence(entries, a, d);
    }
  }

  /** No reported error for a is hidden: the winner is unhealthy whenever some entry is. */
  ghost predicate KeepsError(entries: seq<Device>, a: string) {
    (exists d :: d in entries && d.addr == a && d.state != Online) ==>
      a in Best(entries) && Best(entries)[a].state != Online
  }

  /** A reported error survives the merge exactly when some unhealthy entry outranks all before it. */
  lemma ErrorKeptIff(entries: seq<Device>, a: string)
    ensures KeepsError(entries, a) <==>
            ((exists d :: d in entries && d.addr == a && d.state != Online) ==> Struck(For(entries, a)))
  {
    MergeClosedForm(entries, a);
    forall d | d in entries && d.addr == a
      ensures a in Addrs(entries)
    {}
  }

  /** Each later entry has a strictly higher priority. */
  ghost predicate Ascending(es: seq<Device>) {
    forall i, j :: 0 <= i < j < |es| ==> es[i].priority < es[j].priority
  }

  /** With ascending priorities the merged state is ONLINE exactly when every entry is. */
  lemma AscendingVerdict(entries: seq<Device>, a: string)
    requires Ascending(For(entries, a))
    requires a in Best(entries)
    ensures Best(entries)[a].state == Online <==> forall d :: d in entries && d.addr == a ==> d.state == Online
  {
    var es := For(entries, a);
    MergeClosedForm(entries, a);
    forall d | d in entries && d.addr == a && d.state != Online
      ensures Struck(es)
    {
      ForIsSubsequence(entries, a, d);
      var k: nat :| k < |es| && es[k] == d;
      assert Strikes(es, k);
    }
    if Best(entries)[a].state != Online {
      BestIsCollected(entries, a);
    }
  }
}
