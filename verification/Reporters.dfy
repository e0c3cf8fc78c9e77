/** Which reporters run, in which order, and what the merge of their reports can and cannot say. */
module Reporters {
  import opened Devices
  import opened Merging
  import opened HealthCheck
  import opened Text
  import opened RasWatcher

  datatype Reporter = Lspci | Cardmgmt | Pseudo | Ras

  function NameOf(r: Reporter): string {
    match r
    case Lspci => "lspci"
    case Cardmgmt => "cardmgmt"
    case Pseudo => PSEUDO
    case Ras => "ras"
  }

  function PriorityOf(r: Reporter): int {
    match r
    case Lspci => PRIORITY_LSPCI
    case Cardmgmt => PRIORITY_CARDMGMT
    case Pseudo => PRIORITY_LSPCI
    case Ras => PRIORITY_RAS
  }

  /** The reporters named by a list of names; an unknown name stands for none. */
  function Chosen(names: seq<string>): (rs: seq<Reporter>)
    ensures forall i :: 0 <= i < |rs| ==> rs[i] == Lspci || rs[i] == Cardmgmt
  {
    if |names| == 0 then []
    else
      var name := TrimSpace(names[|names| - 1]);
      Chosen(names[..|names| - 1]) +
      (if name == "lspci" then [Lspci] else if name == "cardmgmt" then [Cardmgmt] else [])
  }

  function Enabled(names: string, pseudoMode: bool): seq<Reporter> {
    if pseudoMode then [Pseudo, Ras]
    else
      var chosen := Chosen(Split(TrimSpace(names), ','));
      (if |chosen| == 0 then [Lspci] else chosen) + [Ras]
  }

  /** Position i of the names is that of a reporter, apart from white space around it. */
  predicate Names(names: seq<string>, i: nat, r: Reporter)
    requires i < |names|
  {
    (r == Lspci && TrimSpace(names[i]) == "lspci") || (r == Cardmgmt && TrimSpace(names[i]) == "cardmgmt")
  }

  /** Exactly the known names are taken, in their order. */
  lemma {:induction false} ChosenExact(names: seq<string>) returns (picks: seq<nat>)
    ensures |picks| == |Chosen(names)| && forall k, l :: 0 <= k < l < |picks| ==> picks[k] < picks[l]
    ensures forall k :: 0 <= k < |picks| ==> picks[k] < |names| && Names(names, picks[k], Chosen(names)[k])
    ensures forall i: nat, r :: i < |names| && Names(names, i, r) ==> i in picks
  {
    picks := [];
    if |names| > 0 {
      var n: nat := |names| - 1;
      picks := ChosenExact(names[..n]);
      forall i: nat, r | i < n
        ensures Names(names, i, r) <==> Names(names[..n], i, r)
      {}
      if TrimSpace(names[n]) == "lspci" || TrimSpace(names[n]) == "cardmgmt" {
        picks := picks + [n];
      }
    }
  }

  method BuildReporters(names: string, pseudoMode: bool) returns (rs: seq<Reporter>)
    ensures rs == Enabled(names, pseudoMode)
    ensures RasLast(rs)
  {
    if pseudoMode {
      return [Pseudo, Ras];
    }
    var parts := Split(TrimSpace(names), ',');
    rs := [];
    for i := 0 to |parts|
      invariant rs == Chosen(parts[..i])
    {
      assert parts[..i + 1][..i] == parts[..i];
      var name := TrimSpace(parts[i]);
      if name == "lspci" {
        rs := rs + [Lspci];
      } else if name == "cardmgmt" {
        rs := rs + [Cardmgmt];
      }
    }
    assert parts[..|parts|] == parts;
    if |rs| == 0 {
      rs := [Lspci];
    }
    rs := rs + [Ras];
  }

  /** The RAS reporter is the last of at least two, and the only one of its kind. */
  ghost predicate RasLast(rs: seq<Reporter>) {
    && |rs| >= 2
    && rs[|rs| - 1] == Ras
    && forall i :: 0 <= i < |rs| - 1 ==> rs[i] != Ras
  }

  /**
   The outcomes that running the reporters may have when `recorded` is the set of RAS errors: the RAS
   reporter never fails and lists the recorded errors, the pseudo reporter never fails, and every
   reporter stamps what it lists.
   */
  ghost predicate CollectedBy(rs: seq<Reporter>, recorded: set<string>, collected: seq<Collected>) {
    && |collected| == |rs|
    && forall i :: 0 <= i < |rs| ==> Outcome(rs[i], recorded, collected[i])
  }

  ghost predicate Outcome(r: Reporter, recorded: set<string>, c: Collected) {
    && (r == Ras ==> c.Ok? && Lists(c.states, RasEntries(recorded)))
    && (r == Pseudo ==> c.Ok?)
    && (c.Ok? ==> forall d :: d in c.states ==> d.source == NameOf(r) && d.priority == PriorityOf(r))
  }

  // ---------- Entries and the reporters they come from ----------

  /** The k-th reporter succeeded and lists d. */
  predicate Listed(collected: seq<Collected>, k: int, d: Device) {
    0 <= k < |collected| && collected[k].Ok? && d in collected[k].states
  }

  lemma {:induction false} EntryOrigin(collected: seq<Collected>, d: Device)
    ensures d in Entries(collected) <==> exists k :: Listed(collected, k, d)
  {
    if |collected| > 0 {
      var n := |collected| - 1;
      EntryOrigin(collected[..n], d);
      assert forall k :: k < n ==> (Listed(collected[..n], k, d) <==> Listed(collected, k, d));
      assert d in Entries(collected) <==> d in Entries(collected[..n]) || Listed(collected, n, d);
    }
  }

  lemma {:induction false} ForConcat(xs: seq<Device>, ys: seq<Device>, a: string)
    ensures For(xs + ys, a) == For(xs, a) + For(ys, a)
  {
    if |ys| == 0 {
      assert xs + ys == xs;
    } else {
      var n := |ys| - 1;
      ForConcat(xs, ys[..n], a);
      assert (xs + ys)[..|xs + ys| - 1] == xs + ys[..n];
    }
  }

  lemma {:induction false} ForDistinct(ys: seq<Device>, a: string)
    requires Distinct(ys)
    ensures |For(ys, a)| <= 1
    ensures a !in Addrs(ys) ==> For(ys, a) == []
    ensures forall i :: 0 <= i < |ys| && ys[i].addr == a ==> For(ys, a) == [ys[i]]
  {
    if |ys| > 0 {
      var n := |ys| - 1;
      ForDistinct(ys[..n], a);
      assert ys == ys[..n] + [ys[n]];
      AddrsAppend(ys[..n], ys[n]);
      if ys[n].addr == a {
        assert forall i :: 0 <= i < n ==> ys[..n][i].addr != a;
        assert a !in Addrs(ys[..n]);
      }
    }
  }

  // ---------- RAS dominance ----------

  /** The reporter behind an entry, whose name and priority the entry carries. */
  lemma EntryReporter(rs: seq<Reporter>, recorded: set<string>, collected: seq<Collected>, d: Device) returns (k: nat)
    requires CollectedBy(rs, recorded, collected) && d in Entries(collected)
    ensures k < |rs| && Listed(collected, k, d) && d.source == NameOf(rs[k]) && d.priority == PriorityOf(rs[k])
    ensures rs[k] == Ras ==> d.addr in recorded && d == RasDevice(d.addr)
  {
    EntryOrigin(collected, d);
    var l :| Listed(collected, l, d);
    assert Outcome(rs[l], recorded, collected[l]);
    k := l;
    if rs[k] == Ras {
      assert d.addr in Addrs(collected[k].states);
    }
  }

  /** Every entry for a is below a RAS entry, unless it is one. */
  lemma BeforeRas(rs: seq<Reporter>, recorded: set<string>, collected: seq<Collected>, d: Device)
    requires RasLast(rs) && CollectedBy(rs, recorded, collected)
    requires d in Entries(collected[..|rs| - 1])
    ensures d.priority < PRIORITY_RAS
  {
    var n := |rs| - 1;
    var k := EntryReporter(rs[..n], recorded, collected[..n], d);
  }

  /** Every recorded RAS error comes out of the merge as the RAS entry, whatever the others report. */
  lemma RasDominates(rs: seq<Reporter>, recorded: set<string>, collected: seq<Collected>, p: string)
    requires RasLast(rs) && CollectedBy(rs, recorded, collected)
    requires p in recorded
    ensures p in Best(Entries(collected)) && Best(Entries(collected))[p] == RasDevice(p)
  {
    var n := |rs| - 1;
    assert Outcome(rs[n], recorded, collected[n]);
    var before, ras := Entries(collected[..n]), collected[n].states;
    var i := ListedAt(ras, RasEntries(recorded), p);
    ForDistinct(ras, p);
    ForConcat(before, ras, p);
    BestIsHeld(before + ras, p);
    if |For(before, p)| > 0 {
      var k := HeldWins(For(before, p));
      ForIsSubsequence(before, p, For(before, p)[k]);
      BeforeRas(rs, recorded, collected, For(before, p)[k]);
    }
    HeldAppend(For(before, p), ras[i]);
  }

  /** The driver check leaves it as it is. */
  lemma RasEntriesPublished(rs: seq<Reporter>, recorded: set<string>, collected: seq<Collected>,
                            accessible: string -> bool, p: string)
    requires RasLast(rs) && CollectedBy(rs, recorded, collected) && p in recorded
    ensures var checked := CheckedMap(Best(Entries(collected)), accessible); p in checked && checked[p] == RasDevice(p)
  {
    RasDominates(rs, recorded, collected, p);
  }

  lemma HeldAppend(es: seq<Device>, d: Device)
    ensures Held(es + [d]) == if es == [] || Overrides(Held(es), d) then d else Held(es)
  {
    assert (es + [d])[..|es|] == es;
  }

  /** An entry that carries the RAS reporter's name stands for a recorded error. */
  lemma RasOnlyIfRecorded(rs: seq<Reporter>, recorded: set<string>, collected: seq<Collected>, a: string)
    requires CollectedBy(rs, recorded, collected)
    requires a in Best(Entries(collected)) && Best(Entries(collected))[a].source == "ras"
    ensures a in recorded
  {
    BestIsCollected(Entries(collected), a);
    var k := EntryReporter(rs, recorded, collected, Best(Entries(collected))[a]);
  }

  // ---------- Reporter order and lost errors ----------

  ghost predicate AscendingReporters(rs: seq<Reporter>) {
    forall i, j :: 0 <= i < j < |rs| ==> PriorityOf(rs[i]) < PriorityOf(rs[j])
  }

  /** No reporter lists an address twice. */
  ghost predicate DistinctReports(collected: seq<Collected>) {
    forall i :: 0 <= i < |collected| && collected[i].Ok? ==> Distinct(collected[i].states)
  }

  /** In an ascending configuration the entries of the last reporter are above all others. */
  lemma LastOutranks(rs: seq<Reporter>, recorded: set<string>, collected: seq<Collected>, a: string)
    requires CollectedBy(rs, recorded, collected) && AscendingReporters(rs)
    requires |rs| > 0 && collected[|rs| - 1].Ok?
    ensures var n := |rs| - 1;
      && (forall d :: d in For(Entries(collected[..n]), a) ==> d.priority < PriorityOf(rs[n]))
      && (forall d :: d in For(collected[n].states, a) ==> d.priority == PriorityOf(rs[n]))
  {
    var n := |rs| - 1;
    var before, last := Entries(collected[..n]), collected[n].states;
    forall d | d in For(before, a)
      ensures d.priority < PriorityOf(rs[n])
    {
      ForIsSubsequence(before, a, d);
      var k := EntryReporter(rs[..n], recorded, collected[..n], d);
    }
    forall d | d in For(last, a)
      ensures d.priority == PriorityOf(rs[n])
    {
      ForIsSubsequence(last, a, d);
      assert Outcome(rs[n], recorded, collected[n]);
    }
  }

  lemma {:induction false} AscendingEntries(rs: seq<Reporter>, recorded: set<string>, collected: seq<Collected>,
                                            a: string)
    requires CollectedBy(rs, recorded, collected)
    requires AscendingReporters(rs) && DistinctReports(collected)
    ensures Ascending(For(Entries(collected), a))
  {
    if |rs| > 0 {
      var n := |rs| - 1;
      var before := Entries(collected[..n]);
      AscendingEntries(rs[..n], recorded, collected[..n], a);
      if collected[n].Ok? {
        var last := collected[n].states;
        ForConcat(before, last, a);
        ForDistinct(last, a);
        LastOutranks(rs, recorded, collected, a);
        AscendingAppend(For(before, a), For(last, a), PriorityOf(rs[n]));
      } else {
        assert before + [] == before;
      }
    }
  }

  lemma AscendingAppend(es: seq<Device>, tail: seq<Device>, priority: int)
    requires Ascending(es) && |tail| <= 1
    requires forall d :: d in es ==> d.priority < priority
    requires forall d :: d in tail ==> d.priority == priority
    ensures Ascending(es + tail)
  {}

  function Entry(r: Reporter, a: string, state: Health): Device {
    Device(a, PF, state, NameOf(r), PriorityOf(r))
  }

  /** Reporter i calls device a healthy, reporter j calls it in error, and all others list nothing. */
  function Disagreement(rs: seq<Reporter>, i: nat, j: nat, a: string): seq<Collected>
    requires i < |rs| && j < |rs|
  {
    seq(|rs|, k requires 0 <= k < |rs| =>
      if k == i then Ok([Entry(rs[i], a, Online)])
      else if k == j then Ok([Entry(rs[j], a, InError)])
      else Ok([]))
  }

  lemma EntriesStep(collected: seq<Collected>, n: nat)
    requires n < |collected|
    ensures Entries(collected[..n + 1]) ==
            Entries(collected[..n]) + (if collected[n].Ok? then collected[n].states else [])
  {
    assert collected[..n + 1] == collected[..n] + [collected[n]];
    EntriesAppend(collected[..n], collected[n]);
  }

  lemma {:induction false} DisagreementEntries(rs: seq<Reporter>, i: nat, j: nat, a: string, m: nat)
    requires i < j < |rs| && m <= |rs|
    ensures Entries(Disagreement(rs, i, j, a)[..m]) ==
            (if i < m then [Entry(rs[i], a, Online)] else []) + (if j < m then [Entry(rs[j], a, InError)] else [])
  {
    if m > 0 {
      DisagreementEntries(rs, i, j, a, m - 1);
      EntriesStep(Disagreement(rs, i, j, a), m - 1);
    }
  }

  lemma DisagreementIsPossible(rs: seq<Reporter>, i: nat, j: nat, a: string)
    requires i < j < |rs| && rs[i] != Ras && rs[j] != Ras
    ensures CollectedBy(rs, {}, Disagreement(rs, i, j, a)) && DistinctReports(Disagreement(rs, i, j, a))
  {
    var c := Disagreement(rs, i, j, a);
    forall k | 0 <= k < |rs|
      ensures Outcome(rs[k], {}, c[k])
    {
      assert c[k].states ==
             if k == i then [Entry(rs[i], a, Online)] else if k == j then [Entry(rs[j], a, InError)] else [];
      if c[k].states == [] {
        assert Addrs([]) == {};
      }
    }
  }

  lemma SecondEntryDropped(d: Device, e: Device)
    requires d.addr == e.addr && !Overrides(d, e)
    ensures Best([d, e]) == map[d.addr := d]
  {
    assert [d, e][..1] == [d] && [d][..0] == [];
    assert Best([d]) == Insert(Best([]), d);
  }

  lemma DisagreementLosesError(rs: seq<Reporter>, i: nat, j: nat, a: string)
    requires i < j < |rs| && PriorityOf(rs[i]) >= PriorityOf(rs[j])
    ensures !KeepsError(Entries(Disagreement(rs, i, j, a)), a)
  {
    var c := Disagreement(rs, i, j, a);
    DisagreementEntries(rs, i, j, a, |rs|);
    assert c[..|rs|] == c;
    var d, e := Entry(rs[i], a, Online), Entry(rs[j], a, InError);
    SecondEntryDropped(d, e);
    assert e in [d, e] && Entries(c) == [d, e];
  }

  lemma AscendingKeepsError(rs: seq<Reporter>, recorded: set<string>, collected: seq<Collected>, a: string)
    requires AscendingReporters(rs) && CollectedBy(rs, recorded, collected) && DistinctReports(collected)
    ensures KeepsError(Entries(collected), a)
  {
    AscendingEntries(rs, recorded, collected, a);
    MergeClosedForm(Entries(collected), a);
    if a in Best(Entries(collected)) {
      AscendingVerdict(Entries(collected), a);
    }
    forall d | d in Entries(collected) && d.addr == a
      ensures a in Addrs(Entries(collected))
    {}
  }

  /**
   The design wants no reporter's error to be cleared by another. For each single device, that holds for
   all outcomes of a configuration exactly when its reporters are in strictly ascending order of priority.
   */
  lemma NoErrorLostIffAscending(rs: seq<Reporter>, a: string)
    requires RasLast(rs)
    ensures AscendingReporters(rs) <==>
            forall recorded, collected ::
              CollectedBy(rs, recorded, collected) && DistinctReports(collected) ==> KeepsError(Entries(collected), a)
  {
    if AscendingReporters(rs) {
      forall recorded, collected | CollectedBy(rs, recorded, collected) && DistinctReports(collected)
        ensures KeepsError(Entries(collected), a)
      {
        AscendingKeepsError(rs, recorded, collected, a);
      }
    } else {
      var i, j :| 0 <= i < j < |rs| && PriorityOf(rs[i]) >= PriorityOf(rs[j]);
      DisagreementIsPossible(rs, i, j, a);
      DisagreementLosesError(rs, i, j, a);
    }
  }

  /** The default order lspci before cardmgmt is ascending; the reverse order and repetitions are not. */
  lemma AscendingOrders(names: string)
    ensures AscendingReporters(Enabled(names, false)) <==>
            Enabled(names, false) in {[Lspci, Ras], [Cardmgmt, Ras], [Lspci, Cardmgmt, Ras]}
    ensures AscendingReporters(Enabled(names, true))
  {
    var rs := Enabled(names, false);
    var n := |rs| - 1;
    if n > 2 {
      var i := if PriorityOf(rs[0]) >= PriorityOf(rs[1]) then 0 else 1;
      assert PriorityOf(rs[i]) >= PriorityOf(rs[i + 1]);
    }
    if AscendingReporters(rs) {
      assert n > 1 ==> PriorityOf(rs[0]) < PriorityOf(rs[1]);
      assert rs == if n == 1 then [rs[0], Ras] else [rs[0], rs[1], Ras];
    }
  }

  lemma TrimNothing(s: string)
    requires |s| > 0 && !IsSpace(s[0]) && !IsSpace(s[|s| - 1])
    ensures TrimSpace(s) == s
  {}

  lemma TwoNames(one: string, two: string)
    requires one in {"lspci", "cardmgmt"} && two in {"lspci", "cardmgmt"}
    ensures Chosen([one, two]) ==
            [if one == "lspci" then Lspci else Cardmgmt, if two == "lspci" then Lspci else Cardmgmt]
  {
    TrimNothing(one);
    TrimNothing(two);
    assert [one, two][..1] == [one] && [one][..0] == [];
    assert Chosen([one]) == [if one == "lspci" then Lspci else Cardmgmt];
  }

  lemma EnabledTwo(list: string, one: string, two: string)
    requires one in {"lspci", "cardmgmt"} && two in {"lspci", "cardmgmt"}
    requires list == one + [','] + two
    ensures Enabled(list, false) ==
            [if one == "lspci" then Lspci else Cardmgmt, if two == "lspci" then Lspci else Cardmgmt, Ras]
  {
    SplitTwo(one, two);
    TrimNothing(list);
    TwoNames(one, two);
  }

  lemma SplitTwo(one: string, two: string)
    requires Without(one, ',') && Without(two, ',')
    ensures Split(one + [','] + two, ',') == [one, two]
  {
    assert [one, two][1..] == [two] && Join([two], ',') == two;
    SplitJoin([one, two], ',');
  }

  /** One name, or none that is known. */
  lemma EnabledOne(name: string)
    requires Without(name, ',') && TrimSpace(name) == name
    ensures Enabled(name, false) ==
            if name == "cardmgmt" then [Cardmgmt, Ras] else [Lspci, Ras]
    ensures Enabled(name, true) == [Pseudo, Ras]
  {
    SplitJoin([name], ',');
    assert Join([name], ',') == name;
    assert [name][..0] == [] && Chosen([name]) == Chosen([name][..0]) + Chosen1(name);
  }

  function Chosen1(name: string): seq<Reporter> {
    if TrimSpace(name) == "lspci" then [Lspci] else if TrimSpace(name) == "cardmgmt" then [Cardmgmt] else []
  }

  ghost predicate Padded(name: string, spaced: string) {
    TrimSpace(name) == name && exists x, y :: IsWhite(x) && IsWhite(y) && spaced == x + name + y
  }

  /** White space around the list and around its names does not matter. */
  lemma {:induction false} SpacesIgnored(names: seq<string>, spaced: seq<string>)
    requires |names| == |spaced|
    requires forall i :: 0 <= i < |names| ==> Padded(names[i], spaced[i])
    ensures Chosen(spaced) == Chosen(names)
  {
    if |names| > 0 {
      var n := |names| - 1;
      assert forall i :: 0 <= i < n ==> Padded(names[i], spaced[i]);
      SpacesIgnored(names[..n], spaced[..n]);
      assert Padded(names[n], spaced[n]);
      var x, y :| IsWhite(x) && IsWhite(y) && spaced[n] == x + names[n] + y;
      TrimPadded(x, names[n], y);
    }
  }

  /** The documented way to enable both hardware reporters gives the ascending order. */
  lemma BothEnabled(names: string)
    requires names == "lspci,cardmgmt"
    ensures Enabled(names, false) == [Lspci, Cardmgmt, Ras]
  {
    EnabledTwo(names, "lspci", "cardmgmt");
  }

  /** Naming them the other way round does not. */
  lemma ReverseEnabled(names: string)
    requires names == "cardmgmt,lspci"
    ensures Enabled(names, false) == [Cardmgmt, Lspci, Ras]
    ensures !AscendingReporters(Enabled(names, false))
  {
    EnabledTwo(names, "cardmgmt", "lspci");
    NotAscending(Enabled(names, false), 0);
  }

  lemma NotAscending(rs: seq<Reporter>, i: nat)
    requires i + 1 < |rs| && PriorityOf(rs[i]) >= PriorityOf(rs[i + 1])
    ensures !AscendingReporters(rs)
  {}

  // ---------- Verdicts of the published snapshot ----------

  /** The first entry for a in a report, if it has any, is ONLINE. */
  predicate FirstOnline(states: seq<Device>, a: string) {
    |For(states, a)| > 0 ==> For(states, a)[0].state == Online
  }

  ghost predicate FirstsOnline(collected: seq<Collected>, a: string) {
    forall k :: 0 <= k < |collected| && collected[k].Ok? ==> FirstOnline(collected[k].states, a)
  }

  /** Entry i is the first one for a. */
  ghost predicate FirstFor(states: seq<Device>, i: int, a: string) {
    0 <= i < |states| && states[i].addr == a && forall j :: 0 <= j < i ==> states[j].addr != a
  }

  lemma {:induction false} ForHead(states: seq<Device>, a: string)
    ensures |For(states, a)| == 0 ==> forall i :: 0 <= i < |states| ==> states[i].addr != a
    ensures |For(states, a)| > 0 ==> exists i :: FirstFor(states, i, a) && states[i] == For(states, a)[0]
  {
    if |states| > 0 {
      var n := |states| - 1;
      ForHead(states[..n], a);
      if |For(states[..n], a)| > 0 {
        var i :| FirstFor(states[..n], i, a) && states[..n][i] == For(states[..n], a)[0];
        assert FirstFor(states, i, a);
      } else if states[n].addr == a {
        assert FirstFor(states, n, a);
      }
    }
  }

  lemma FirstOnlineIff(states: seq<Device>, a: string)
    ensures FirstOnline(states, a) <==> forall i :: FirstFor(states, i, a) ==> states[i].state == Online
  {
    ForHead(states, a);
    forall i, j | FirstFor(states, i, a) && FirstFor(states, j, a)
      ensures i == j
    {}
  }

  lemma StruckAppend(es: seq<Device>, tail: seq<Device>, priority: int)
    requires forall d :: d in es ==> d.priority < priority
    requires forall d :: d in tail ==> d.priority == priority
    ensures Struck(es + tail) <==> Struck(es) || (|tail| > 0 && tail[0].state != Online)
  {
    var all := es + tail;
    forall k: nat | k < |es|
      ensures Strikes(all, k) <==> Strikes(es, k)
    {
      assert forall j :: 0 <= j <= k ==> all[j] == es[j];
    }
    if k: nat :| k < |es| && Strikes(es, k) {
      assert Strikes(all, k);
    }
    if |tail| > 0 {
      assert Strikes(all, |es|) <==> tail[0].state != Online;
    }
    forall k: nat | |es| < k < |all|
      ensures !Strikes(all, k)
    {
      assert all[|es|].priority == all[k].priority;
    }
  }

  /** In an ascending configuration only the first entry of a report can strike. */
  lemma {:induction false} StruckIff(rs: seq<Reporter>, recorded: set<string>, collected: seq<Collected>, a: string)
    requires CollectedBy(rs, recorded, collected) && AscendingReporters(rs)
    ensures Struck(For(Entries(collected), a)) <==> !FirstsOnline(collected, a)
  {
    if |rs| > 0 {
      var n := |rs| - 1;
      var before := Entries(collected[..n]);
      StruckIff(rs[..n], recorded, collected[..n], a);
      assert forall k :: 0 <= k < n ==> collected[..n][k] == collected[k];
      if collected[n].Ok? {
        var last := collected[n].states;
        LastOutranks(rs, recorded, collected, a);
        ForConcat(before, last, a);
        StruckAppend(For(before, a), For(last, a), PriorityOf(rs[n]));
      } else {
        assert before + [] == before;
      }
    }
  }

  /**
   In an ascending configuration of hardware reporters the merge says ONLINE when the first entry of
   each report does, whatever entries follow it in the same report.
   */
  lemma MergedVerdict(rs: seq<Reporter>, recorded: set<string>, collected: seq<Collected>, a: string)
    requires AscendingReporters(rs) && CollectedBy(rs, recorded, collected)
    requires forall i :: 0 <= i < |rs| ==> rs[i] != Pseudo
    requires a in Best(Entries(collected))
    ensures Best(Entries(collected))[a].state == Online <==> FirstsOnline(collected, a)
    ensures Best(Entries(collected))[a].addr == a && Best(Entries(collected))[a].source != PSEUDO
  {
    var es := Entries(collected);
    StruckIff(rs, recorded, collected, a);
    MergeClosedForm(es, a);
    BestIsCollected(es, a);
    var k := EntryReporter(rs, recorded, collected, Best(es)[a]);
  }

  /**
   In an ascending configuration of hardware reporters a published address is ONLINE exactly when the
   first entry for it in each report is ONLINE and its driver is accessible.
   */
  lemma ExactVerdict(rs: seq<Reporter>, recorded: set<string>, collected: seq<Collected>, accessible: string -> bool,
                     published: seq<Device>, i: nat)
    requires AscendingReporters(rs) && CollectedBy(rs, recorded, collected)
    requires forall k :: 0 <= k < |rs| ==> rs[k] != Pseudo
    requires Lists(published, CheckedMap(Best(Entries(collected)), accessible)) && i < |published|
    ensures published[i].state == Online <==>
            accessible(published[i].addr) && FirstsOnline(collected, published[i].addr)
  {
    MergedVerdict(rs, recorded, collected, published[i].addr);
  }

  /** No successful reporter lists a as anything but ONLINE. */
  ghost predicate AllOnline(collected: seq<Collected>, a: string) {
    forall k, d :: Listed(collected, k, d) && d.addr == a ==> d.state == Online
  }

  /** Where no report lists an address twice, its first entries are all there are. */
  lemma FirstsAreAll(collected: seq<Collected>, a: string)
    requires DistinctReports(collected)
    ensures FirstsOnline(collected, a) <==> AllOnline(collected, a)
  {
    forall k | 0 <= k < |collected| && collected[k].Ok?
      ensures FirstOnline(collected[k].states, a) <==>
              forall d :: Listed(collected, k, d) && d.addr == a ==> d.state == Online
    {
      var states := collected[k].states;
      ForDistinct(states, a);
      forall d: Device | d.addr == a
        ensures d in states <==> d in For(states, a)
      {
        ForIsSubsequence(states, a, d);
      }
      if |For(states, a)| > 0 {
        ForIsSubsequence(states, a, For(states, a)[0]);
        assert Listed(collected, k, For(states, a)[0]);
      }
    }
  }

  /** An address is published exactly when some successful reporter lists it. */
  lemma PublishedIffListed(collected: seq<Collected>, accessible: string -> bool, published: seq<Device>, a: string)
    requires Lists(published, CheckedMap(Best(Entries(collected)), accessible))
    ensures a in Addrs(published) <==> exists k, d :: Listed(collected, k, d) && d.addr == a
  {
    MergeClosedForm(Entries(collected), a);
    forall d
      ensures d in Entries(collected) <==> exists k :: Listed(collected, k, d)
    {
      EntryOrigin(collected, d);
    }
  }

  /** In pseudo mode the driver check changes nothing, whatever it answers. */
  lemma PseudoTransparent(names: string, recorded: set<string>, collected: seq<Collected>, accessible: string -> bool)
    requires CollectedBy(Enabled(names, true), recorded, collected)
    ensures CheckedMap(Best(Entries(collected)), accessible) == Best(Entries(collected))
  {
    var es := Entries(collected);
    forall a | a in Best(es)
      ensures Checked(Best(es)[a], accessible) == Best(es)[a]
    {
      BestIsCollected(es, a);
      PseudoEntry(names, recorded, collected, Best(es)[a]);
    }
  }

  lemma PseudoEntry(names: string, recorded: set<string>, collected: seq<Collected>, d: Device)
    requires CollectedBy(Enabled(names, true), recorded, collected) && d in Entries(collected)
    ensures d.source == PSEUDO || d.state == InError
  {
    var k := EntryReporter(Enabled(names, true), recorded, collected, d);
  }
}
