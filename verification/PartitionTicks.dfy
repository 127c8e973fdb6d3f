/** The system below the partition environment, known only through the calls made to it, and the
    ticks in which messages are delivered or dropped. */
module PartitionTicks {
  import opened MultisetBags
  import opened PartitionState

  datatype Call =
    | ResetCall
    | TickCall
    | Deliver(messages: seq<Message>)
    | Drop(messages: seq<Message>)
    | Receive(request: Request)
    | Stop(node: nat)
    | Start(node: nat)
    | BecomeByzantine(node: nat)

  /** Any system: what it answers is an arbitrary function of all calls made so far. */
  class SystemEnv {
    const respond: seq<Call> -> SystemState
    const byzantine: bool
    var calls: seq<Call>

    constructor (respond: seq<Call> -> SystemState, byzantine: bool)
      ensures this.respond == respond && this.byzantine == byzantine && calls == []
    {
      this.respond, this.byzantine, calls := respond, byzantine, [];
    }

    method Perform(c: Call) returns (s: SystemState)
      modifies this`calls
      ensures calls == old(calls) + [c] && s == respond(calls)
    {
      calls := calls + [c];
      s := respond(calls);
    }
  }

  // ----- one tick -----

  /** Whether the partition lets a message through. Messages of unknown nodes are not restricted. */
  predicate Allowed(pm: map<nat, nat>, active: set<nat>, m: Message) {
    (m.from !in pm || m.to !in pm || pm[m.from] == pm[m.to]) && m.to in active
  }

  /** Of the messages examined, in order, those whose fate is `allowed`. */
  function Sifted(pending: map<string, Message>, keys: seq<string>, pm: map<nat, nat>, active: set<nat>, allowed: bool): seq<Message> {
    if keys == [] then []
    else
      var l := |keys| - 1;
      var front := Sifted(pending, keys[..l], pm, active, allowed);
      if keys[l] in pending && Allowed(pm, active, pending[keys[l]]) == allowed then front + [pending[keys[l]]] else front
  }

  function Passing(pending: map<string, Message>, keys: seq<string>, pm: map<nat, nat>, active: set<nat>): seq<Message> {
    Sifted(pending, keys, pm, active, true)
  }

  function Blocked(pending: map<string, Message>, keys: seq<string>, pm: map<nat, nat>, active: set<nat>): seq<Message> {
    Sifted(pending, keys, pm, active, false)
  }

  /** The calls of a tick in which the messages `keys` are examined. */
  function TickCalls(pending: map<string, Message>, keys: seq<string>, pm: map<nat, nat>, active: set<nat>): seq<Call> {
    var pass, block := Passing(pending, keys, pm, active), Blocked(pending, keys, pm, active);
    (if pass == [] then [] else [Deliver(pass)]) + (if block == [] then [] else [Drop(block)]) + [TickCall]
  }

  /** As many different pending messages as the limit allows. */
  predicate Examined(pending: map<string, Message>, keys: seq<string>, max: int) {
    && Distinct(keys) && (forall k | k in keys :: k in pending)
    && |keys| == if max < 0 then 0 else if |pending| <= max then |pending| else max
  }

  // ----- all ticks of a step -----

  /** The calls made after the ticks in which `ticks` are examined. */
  function CallsAfter(respond: seq<Call> -> SystemState, before: seq<Call>, pending: map<string, Message>,
      ticks: seq<seq<string>>, pm: map<nat, nat>, active: set<nat>): seq<Call>
  {
    if ticks == [] then before
    else
      var l := |ticks| - 1;
      var calls := CallsAfter(respond, before, pending, ticks[..l], pm, active);
      calls + TickCalls(PendingAt(respond, calls, pending, l), ticks[l], pm, active)
  }

  /** In the first tick the messages kept from the last step, then those the system shows. */
  function PendingAt(respond: seq<Call> -> SystemState, calls: seq<Call>, pending: map<string, Message>, i: nat): map<string, Message> {
    if i == 0 then pending else respond(calls).pending
  }

  ghost predicate AllExamined(respond: seq<Call> -> SystemState, before: seq<Call>, pending: map<string, Message>,
      ticks: seq<seq<string>>, pm: map<nat, nat>, active: set<nat>, max: int)
  {
    forall i | 0 <= i < |ticks| ::
      Examined(PendingAt(respond, CallsAfter(respond, before, pending, ticks[..i], pm, active), pending, i), ticks[i], max)
  }

  /** The ticks so far and one more. */
  lemma OneMoreTick(respond: seq<Call> -> SystemState, before: seq<Call>, pending: map<string, Message>,
      ticks: seq<seq<string>>, keys: seq<string>, pm: map<nat, nat>, active: set<nat>, max: int)
    requires AllExamined(respond, before, pending, ticks, pm, active, max)
    requires var calls := CallsAfter(respond, before, pending, ticks, pm, active);
             Examined(PendingAt(respond, calls, pending, |ticks|), keys, max)
    ensures AllExamined(respond, before, pending, ticks + [keys], pm, active, max)
    ensures var calls := CallsAfter(respond, before, pending, ticks, pm, active);
            CallsAfter(respond, before, pending, ticks + [keys], pm, active)
            == calls + TickCalls(PendingAt(respond, calls, pending, |ticks|), keys, pm, active)
  {
    hide Examined, TickCalls, PendingAt;
    assert (ticks + [keys])[..|ticks|] == ticks;
    assert forall k | 0 <= k < |ticks| :: (ticks + [keys])[..k] == ticks[..k];
  }

  // ----- stopping and starting -----

  /** The call that stops or starts a node, and the nodes active after it. */
  ghost predicate PickedFor(st: Partition, a: Action, active: set<nat>, picked: seq<Call>)
    requires a.StopStart?
  {
    var stoppable := Colored(st.replicaColors, st.replicaColors.Keys, a.color);
    var startable := st.replicaColors.Keys - st.activeNodes;
    if a.action == "Stop" && stoppable != {} then
      exists n :: n in stoppable && active == st.activeNodes - {n} && picked == [Stop(n)]
    else if a.action == "Start" && startable != {} then
      exists n :: n in startable && active == st.activeNodes + {n} && picked == [Start(n)]
    else active == st.activeNodes && picked == []
  }

  lemma PickedActive(st: Partition, a: Action, next: Partition, picked: seq<Call>)
    requires a.StopStart? && PickedFor(st, a, next.activeNodes, picked)
    requires next.remainingCrashes == st.remainingCrashes - if a.action == "Stop" then 1 else 0
    ensures ActiveStep(st, a, next)
  {
  }

  // ----- isolation -----

  lemma {:induction false} SiftedFate(pending: map<string, Message>, keys: seq<string>, pm: map<nat, nat>, active: set<nat>, allowed: bool)
    ensures forall m | m in Sifted(pending, keys, pm, active, allowed) :: Allowed(pm, active, m) == allowed
  {
    if keys != [] {
      SiftedFate(pending, keys[..|keys| - 1], pm, active, allowed);
    }
  }

  function Fetch(pending: map<string, Message>, k: string): Message {
    if k in pending then pending[k] else Message(0, 0, "")
  }

  /** Every message examined is delivered or dropped, once. */
  lemma {:induction false} DeliveredOrDropped(pending: map<string, Message>, keys: seq<string>, pm: map<nat, nat>, active: set<nat>)
    requires forall k | k in keys :: k in pending
    ensures multiset(Passing(pending, keys, pm, active)) + multiset(Blocked(pending, keys, pm, active))
            == multiset(Map(k => Fetch(pending, k), keys))
  {
    hide Allowed, Sifted;
    if keys != [] {
      var l := |keys| - 1;
      DeliveredOrDropped(pending, keys[..l], pm, active);
      SiftedNext(pending, keys, pm, active, true);
      SiftedNext(pending, keys, pm, active, false);
      assert Map(k => Fetch(pending, k), keys) == Map(k => Fetch(pending, k), keys[..l]) + [pending[keys[l]]];
    } else {
      NothingSifted(pending, pm, active);
    }
  }

  lemma SiftedNext(pending: map<string, Message>, keys: seq<string>, pm: map<nat, nat>, active: set<nat>, allowed: bool)
    requires keys != [] && keys[|keys| - 1] in pending
    ensures var m := pending[keys[|keys| - 1]];
            multiset(Sifted(pending, keys, pm, active, allowed)) ==
            multiset(Sifted(pending, keys[..|keys| - 1], pm, active, allowed))
            + if Allowed(pm, active, m) == allowed then multiset{m} else multiset{}
  {
  }

  lemma NothingSifted(pending: map<string, Message>, pm: map<nat, nat>, active: set<nat>)
    ensures Sifted(pending, [], pm, active, true) == [] == Sifted(pending, [], pm, active, false)
  {
  }

  /** What a call may do under a partition. */
  predicate Isolates(c: Call, pm: map<nat, nat>, active: set<nat>) {
    && (c.Deliver? ==> c.messages != [] && forall m | m in c.messages :: Allowed(pm, active, m))
    && (c.Drop? ==> c.messages != [] && forall m | m in c.messages :: !Allowed(pm, active, m))
    && (c.Deliver? || c.Drop? || c.TickCall?)
  }

  lemma TickIsolates(pending: map<string, Message>, keys: seq<string>, pm: map<nat, nat>, active: set<nat>)
    ensures forall c | c in TickCalls(pending, keys, pm, active) :: Isolates(c, pm, active)
  {
    SiftedFate(pending, keys, pm, active, true);
    SiftedFate(pending, keys, pm, active, false);
  }

  /** In all ticks of a step, nothing is delivered that the partition does not let through, and
      nothing is dropped that it does. */
  lemma {:induction false} StepIsolates(respond: seq<Call> -> SystemState, before: seq<Call>, pending: map<string, Message>,
      ticks: seq<seq<string>>, pm: map<nat, nat>, active: set<nat>)
    ensures before <= CallsAfter(respond, before, pending, ticks, pm, active)
    ensures forall c | c in CallsAfter(respond, before, pending, ticks, pm, active)[|before|..] :: Isolates(c, pm, active)
  {
    hide Isolates, TickCalls;
    if ticks != [] {
      var l := |ticks| - 1;
      StepIsolates(respond, before, pending, ticks[..l], pm, active);
      var calls := CallsAfter(respond, before, pending, ticks[..l], pm, active);
      var last := TickCalls(PendingAt(respond, calls, pending, l), ticks[l], pm, active);
      TickIsolates(PendingAt(respond, calls, pending, l), ticks[l], pm, active);
      assert (calls + last)[|before|..] == calls[|before|..] + last;
    }
  }

  /** With the inactive nodes quarantined, a known node that is not active neither receives nor
      gets a message through. */
  lemma QuarantineHolds(ids: set<nat>, pm: map<nat, nat>, active: set<nat>, c: Call, m: Message)
    requires pm.Keys == ids && Quarantined(ids, active, pm) && active <= ids
    requires Isolates(c, pm, active) && c.Deliver? && m in c.messages
    ensures m.to in active && (m.from in ids ==> m.from in active && pm[m.from] == pm[m.to])
  {
    assert Allowed(pm, active, m);
  }

  /** Every message delivered goes to an active node, and one from a known node comes from an
      active node of the same part. */
  ghost predicate Confined(n: nat, st: Partition, calls: seq<Call>) {
    forall c, m | c in calls && c.Deliver? && m in c.messages ::
      && m.to in st.activeNodes
      && (m.from in Ids(n) ==> && m.from in st.activeNodes && m.to in st.partitionMap && m.from in st.partitionMap
                               && st.partitionMap[m.from] == st.partitionMap[m.to])
  }

  lemma TicksConfined(cfg: Config, st: Partition, respond: seq<Call> -> SystemState, before: seq<Call>,
      pending: map<string, Message>, ticks: seq<seq<string>>)
    requires Inv(cfg, st)
    ensures before <= CallsAfter(respond, before, pending, ticks, st.partitionMap, st.activeNodes)
    ensures Confined(cfg.numReplicas, st,
              CallsAfter(respond, before, pending, ticks, st.partitionMap, st.activeNodes)[|before|..])
  {
    hide Arranged, CallsAfter, Quarantined, Isolates;
    StepIsolates(respond, before, pending, ticks, st.partitionMap, st.activeNodes);
    var calls := CallsAfter(respond, before, pending, ticks, st.partitionMap, st.activeNodes)[|before|..];
    forall c, m | c in calls && c.Deliver? && m in c.messages
      ensures m.to in st.activeNodes
      ensures m.from in Ids(cfg.numReplicas) ==> m.from in st.activeNodes && st.partitionMap[m.from] == st.partitionMap[m.to]
    {
      QuarantineHolds(Ids(cfg.numReplicas), st.partitionMap, st.activeNodes, c, m);
    }
  }
}
