/** The card management reporter: one query per slot that lspci discovered. */
module Cardmgmt {
  import opened Options
  import opened Devices
  import opened Merging

  /** The sidecar's answer for a slot: an RPC error, or a response with an optional error and a health. */
  datatype Reply = RpcError(message: string) | Response(error: Option<SidecarError>, health: string)
  datatype SidecarError = SidecarError(code: string, message: string)

  datatype Queried = Rpc(message: string) | Sidecar(message: string) | State(device: Device)

  /** An error with an empty code counts as no error. */
  function QuerySlot(slot: string, reply: Reply): Queried {
    match reply
    case RpcError(message) => Rpc(message)
    case Response(error, health) =>
      if error.Some? && error.value.code != "" then
        Sidecar("code=" + error.value.code + " msg=" + error.value.message)
      else State(Device(slot, PF, if health == "healthy" then Online else InError, "", 0))
  }

  /** The slot was answered with a health and no error. */
  predicate Answers(reply: Reply) {
    reply.Response? && (reply.error.None? || reply.error.value.code == "")
  }

  function Reported(reply: Reply): Health
    requires Answers(reply)
  {
    if reply.health == "healthy" then Online else InError
  }

  function RpcErrorOf(reply: Reply): Option<string> {
    match reply
    case RpcError(message) => Some(message)
    case Response(_, _) => None
  }

  function SidecarErrorOf(reply: Reply): Option<string> {
    match reply
    case RpcError(_) => None
    case Response(error, _) =>
      if Answers(reply) then None else Some("code=" + error.value.code + " msg=" + error.value.message)
  }

  /** The first of n replies with an error of one sort, if there is any, has this one. */
  ghost predicate FirstError(errorOf: Reply -> Option<string>, reply: nat -> Reply, n: nat, first: Option<string>) {
    match first
    case None => forall i: nat :: i < n ==> errorOf(reply(i)) == None
    case Some(_) =>
      exists i: nat :: i < n && errorOf(reply(i)) == first && forall j: nat :: j < i ==> errorOf(reply(j)) == None
  }

  function FirstErrorIn(errorOf: Reply -> Option<string>, reply: nat -> Reply, n: nat): Option<string> {
    if n == 0 then None
    else
      var first := FirstErrorIn(errorOf, reply, n - 1);
      if first.None? then errorOf(reply(n - 1)) else first
  }

  lemma {:induction false} FirstErrorExact(errorOf: Reply -> Option<string>, reply: nat -> Reply, n: nat)
    ensures FirstError(errorOf, reply, n, FirstErrorIn(errorOf, reply, n))
  {
    if n > 0 {
      FirstErrorExact(errorOf, reply, n - 1);
    }
  }

  ghost predicate Increasing(picks: seq<nat>) {
    forall k, l :: 0 <= k < l < |picks| ==> picks[k] < picks[l]
  }

  lemma IncreasingAt(picks: seq<nat>, k: nat, l: nat)
    requires Increasing(picks) && k <= l < |picks|
    ensures picks[k] <= picks[l]
  {}

  /** The reply has this health, and no error or one with an empty code. */
  ghost predicate Says(reply: Reply, health: string) {
    reply == Response(None, health) || exists text :: reply == Response(Some(SidecarError("", text)), health)
  }

  /** An error counts unless its code is empty; without one the health decides. */
  lemma AnswersIff(slot: string, reply: Reply)
    ensures Answers(reply) <==> exists health :: Says(reply, health)
    ensures forall health :: Says(reply, health) ==>
              QuerySlot(slot, reply) == State(Device(slot, PF, if health == "healthy" then Online else InError, "", 0))
    ensures !Answers(reply) ==> !QuerySlot(slot, reply).State?
  {
    if Answers(reply) {
      if reply.error.Some? {
        assert reply == Response(Some(SidecarError("", reply.error.value.message)), reply.health);
      }
      assert Says(reply, reply.health);
    }
  }

  /** The answered ones among the first n slots, in order. */
  ghost predicate Answered(picks: seq<nat>, reply: nat -> Reply, n: nat) {
    && Increasing(picks)
    && (forall i: nat :: i in picks <==> i < n && Answers(reply(i)))
    && (forall k :: 0 <= k < |picks| ==> picks[k] < n && Answers(reply(picks[k])))
  }

  function Picks(reply: nat -> Reply, n: nat): seq<nat> {
    if n == 0 then [] else Picks(reply, n - 1) + (if Answers(reply(n - 1)) then [n - 1] else [])
  }

  lemma {:induction false} PicksExact(reply: nat -> Reply, n: nat)
    ensures Answered(Picks(reply, n), reply, n)
  {
    if n > 0 {
      PicksExact(reply, n - 1);
    }
  }

  /** The states of the picked slots. */
  ghost predicate StatesOf(states: seq<Device>, slots: seq<string>, reply: nat -> Reply, picks: seq<nat>) {
    && |picks| == |states|
    && forall k :: 0 <= k < |picks| ==>
         picks[k] < |slots| && Answers(reply(picks[k])) &&
         states[k] == Device(slots[picks[k]], PF, Reported(reply(picks[k])), "", 0)
  }

  function States(slots: seq<string>, reply: nat -> Reply, n: nat): seq<Device>
    requires n <= |slots|
  {
    if n == 0 then []
    else
      States(slots, reply, n - 1) +
      (if Answers(reply(n - 1)) then [Device(slots[n - 1], PF, Reported(reply(n - 1)), "", 0)] else [])
  }

  lemma {:induction false} StatesExact(slots: seq<string>, reply: nat -> Reply, n: nat)
    requires n <= |slots|
    ensures StatesOf(States(slots, reply, n), slots, reply, Picks(reply, n))
  {
    if n > 0 {
      StatesExact(slots, reply, n - 1);
    }
  }

  /**
   Exactly the answered slots give a state, in slot order; a state is ONLINE exactly when the answer says
   healthy. The first error of each sort is the one of the earliest slot that has one.
   */
  method CollectForSlots(slots: seq<string>, reply: nat -> Reply)
    returns (states: seq<Device>, firstRpc: Option<string>, firstSidecar: Option<string>, ghost picks: seq<nat>)
    ensures Answered(picks, reply, |slots|)
    ensures StatesOf(states, slots, reply, picks)
    ensures FirstError(RpcErrorOf, reply, |slots|, firstRpc)
    ensures FirstError(SidecarErrorOf, reply, |slots|, firstSidecar)
  {
    states, firstRpc, firstSidecar := [], None, None;
    for i := 0 to |slots|
      invariant states == States(slots, reply, i)
      invariant firstRpc == FirstErrorIn(RpcErrorOf, reply, i)
      invariant firstSidecar == FirstErrorIn(SidecarErrorOf, reply, i)
    {
      match QuerySlot(slots[i], reply(i)) {
        case Rpc(message) =>
          if firstRpc.None? {
            firstRpc := Some(message);
          }
        case Sidecar(message) =>
          if firstSidecar.None? {
            firstSidecar := Some(message);
          }
        case State(device) =>
          states := states + [device];
      }
    }
    picks := Picks(reply, |slots|);
    PicksExact(reply, |slots|);
    StatesExact(slots, reply, |slots|);
    FirstErrorExact(RpcErrorOf, reply, |slots|);
    FirstErrorExact(SidecarErrorOf, reply, |slots|);
  }

  /**
   The reporter's collection. Nothing is asked when lspci fails or finds nothing; exactly the answered
   slots are listed, so distinct slots give distinct states.
   */
  method Collect(discovered: Collected, connected: bool, reply: nat -> Reply)
    returns (c: Collected, ghost picks: seq<nat>)
    ensures c.Failed? <==> discovered.Failed? || (discovered.states != [] && !connected)
    ensures c.Ok? ==> |picks| == |c.states| && Answered(picks, reply, |discovered.states|)
    ensures c.Ok? ==> forall k :: 0 <= k < |c.states| ==>
              c.states[k] == Stamp(Device(discovered.states[picks[k]].addr, PF, Reported(reply(picks[k])), "", 0),
                                   "cardmgmt", PRIORITY_CARDMGMT)
    ensures c.Ok? && Distinct(discovered.states) ==> Distinct(c.states)
  {
    if discovered.Failed? {
      return Failed, [];
    }
    if discovered.states == [] {
      return Ok([]), [];
    }
    if !connected {
      return Failed, [];
    }
    var found := discovered.states;
    var slots := seq(|found|, i requires 0 <= i < |found| => found[i].addr);
    var states, firstRpc, firstSidecar;
    states, firstRpc, firstSidecar, picks := CollectForSlots(slots, reply);
    var a := new Device[|states|](i requires 0 <= i < |states| => states[i]);
    StampAll(a, "cardmgmt", PRIORITY_CARDMGMT);
    c := Ok(a[..]);
  }
}
