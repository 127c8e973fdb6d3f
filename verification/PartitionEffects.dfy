/** What a step of the partition environment comes to, said without the terms its handlers are
    described in: the calls the system below receives, and what the agent is shown. */
module PartitionEffects {
  import opened MultisetBags
  import opened PartitionState
  import opened PartitionTicks
  import opened PartitionRuns

  // ----- messages -----

  /** Nothing is dropped without a reason: the receiver is not active, or sender and receiver are known
      and in different parts. */
  ghost predicate Justified(st: Partition, calls: seq<Call>) {
    forall c, m | c in calls && c.Drop? && m in c.messages ::
      || m.to !in st.activeNodes
      || (m.from in st.partitionMap && m.to in st.partitionMap && st.partitionMap[m.from] != st.partitionMap[m.to])
  }

  lemma DropsJustified(st: Partition, respond: seq<Call> -> SystemState, before: seq<Call>,
      pending: map<string, Message>, ticks: seq<seq<string>>)
    ensures before <= CallsAfter(respond, before, pending, ticks, st.partitionMap, st.activeNodes)
    ensures Justified(st, CallsAfter(respond, before, pending, ticks, st.partitionMap, st.activeNodes)[|before|..])
  {
    hide CallsAfter;
    StepIsolates(respond, before, pending, ticks, st.partitionMap, st.activeNodes);
    var calls := CallsAfter(respond, before, pending, ticks, st.partitionMap, st.activeNodes)[|before|..];
    forall c, m | c in calls && c.Drop? && m in c.messages
      ensures m.to !in st.activeNodes
           || (m.from in st.partitionMap && m.to in st.partitionMap && st.partitionMap[m.from] != st.partitionMap[m.to])
    {
      assert Isolates(c, st.partitionMap, st.activeNodes);
    }
  }

  /** How many messages the calls hand over or take away. */
  function Handled(calls: seq<Call>): nat {
    if calls == [] then 0
    else Handled(calls[1..]) + match calls[0] case Deliver(ms) => |ms| case Drop(ms) => |ms| case _ => 0
  }

  lemma {:induction false} SiftedSizes(pending: map<string, Message>, keys: seq<string>, pm: map<nat, nat>, active: set<nat>)
    requires forall k | k in keys :: k in pending
    ensures |Passing(pending, keys, pm, active)| + |Blocked(pending, keys, pm, active)| == |keys|
  {
    hide Allowed;
    if keys != [] {
      SiftedSizes(pending, keys[..|keys| - 1], pm, active);
    }
  }

  /** A tick handles every pending message, or as many as its limit allows. */
  lemma TickHandles(pending: map<string, Message>, keys: seq<string>, pm: map<nat, nat>, active: set<nat>, max: int)
    requires Examined(pending, keys, max)
    ensures Handled(TickCalls(pending, keys, pm, active)) == if max < 0 then 0 else if |pending| <= max then |pending| else max
  {
    hide Sifted;
    SiftedSizes(pending, keys, pm, active);
    var pass, block := Passing(pending, keys, pm, active), Blocked(pending, keys, pm, active);
    var first, second := if pass == [] then [] else [Deliver(pass)], if block == [] then [] else [Drop(block)];
    HandledJoin(first, second);
    HandledJoin(first + second, [TickCall]);
  }

  lemma {:induction false} HandledJoin(c: seq<Call>, d: seq<Call>)
    ensures Handled(c + d) == Handled(c) + Handled(d)
  {
    if c == [] {
      assert c + d == d;
    } else {
      assert (c + d)[1..] == c[1..] + d;
      HandledJoin(c[1..], d);
    }
  }

  /** What was shown to be pending before call `k`: by the answer to the last tick since call `from`,
      or what was kept when there was none. */
  function ShownAt(respond: seq<Call> -> SystemState, kept: map<string, Message>, calls: seq<Call>, from: nat, k: nat): map<string, Message>
    requires k <= |calls|
  {
    if k <= from then kept
    else if calls[k - 1].TickCall? then respond(calls[..k]).pending
    else ShownAt(respond, kept, calls, from, k - 1)
  }

  /** Every message delivered or dropped was shown to be pending. */
  ghost predicate FromShown(respond: seq<Call> -> SystemState, kept: map<string, Message>, calls: seq<Call>, from: nat) {
    forall k, m | from <= k < |calls| && ((calls[k].Deliver? || calls[k].Drop?) && m in calls[k].messages) ::
      m in ShownAt(respond, kept, calls, from, k).Values
  }

  lemma {:induction false} ShownPrefix(respond: seq<Call> -> SystemState, kept: map<string, Message>, calls: seq<Call>, more: seq<Call>,
      from: nat, k: nat)
    requires k <= |calls|
    ensures ShownAt(respond, kept, calls + more, from, k) == ShownAt(respond, kept, calls, from, k)
  {
    if k > from {
      assert (calls + more)[..k] == calls[..k];
      ShownPrefix(respond, kept, calls, more, from, k - 1);
    }
  }

  lemma {:induction false} SiftedPending(pending: map<string, Message>, keys: seq<string>, pm: map<nat, nat>, active: set<nat>, allowed: bool)
    ensures forall m | m in Sifted(pending, keys, pm, active, allowed) :: m in pending.Values
  {
    if keys != [] {
      SiftedPending(pending, keys[..|keys| - 1], pm, active, allowed);
    }
  }

  /** A tick takes its messages from what is pending and ends with the tick itself. */
  predicate IsTick(pending: map<string, Message>, last: seq<Call>) {
    && last != [] && last[|last| - 1].TickCall?
    && forall k | 0 <= k < |last| - 1 ::
         (last[k].Deliver? || last[k].Drop?) && forall m | m in last[k].messages :: m in pending.Values
  }

  lemma TickIsTick(pending: map<string, Message>, keys: seq<string>, pm: map<nat, nat>, active: set<nat>)
    ensures IsTick(pending, TickCalls(pending, keys, pm, active))
  {
    hide Sifted;
    SiftedPending(pending, keys, pm, active, true);
    SiftedPending(pending, keys, pm, active, false);
  }

  lemma {:induction false} ShownWithin(respond: seq<Call> -> SystemState, kept: map<string, Message>, calls: seq<Call>, last: seq<Call>,
      pending: map<string, Message>, from: nat, k: nat)
    requires from <= |calls| && IsTick(pending, last) && k < |last|
    requires ShownAt(respond, kept, calls, from, |calls|) == pending
    ensures ShownAt(respond, kept, calls + last, from, |calls| + k) == pending
  {
    if k == 0 {
      ShownPrefix(respond, kept, calls, last, from, |calls|);
    } else {
      ShownWithin(respond, kept, calls, last, pending, from, k - 1);
      assert (calls + last)[|calls| + k - 1] == last[k - 1];
    }
  }

  /** One more tick on what the system shows. */
  lemma ShownNext(respond: seq<Call> -> SystemState, kept: map<string, Message>, calls: seq<Call>, last: seq<Call>,
      pending: map<string, Message>, from: nat)
    requires from <= |calls| && IsTick(pending, last) && FromShown(respond, kept, calls, from)
    requires ShownAt(respond, kept, calls, from, |calls|) == pending
    ensures FromShown(respond, kept, calls + last, from)
    ensures ShownAt(respond, kept, calls + last, from, |calls + last|) == respond(calls + last).pending
  {
    var all := calls + last;
    forall k, m | from <= k < |all| && ((all[k].Deliver? || all[k].Drop?) && m in all[k].messages)
      ensures m in ShownAt(respond, kept, all, from, k).Values
    {
      if k < |calls| {
        ShownPrefix(respond, kept, calls, last, from, k);
      } else {
        assert all[k] == last[k - |calls|];
        ShownWithin(respond, kept, calls, last, pending, from, k - |calls|);
      }
    }
    assert all[|all| - 1] == last[|last| - 1] && all[..|all|] == all;
  }

  /** In all ticks of a step, only messages shown to be pending are delivered or dropped. */
  lemma {:induction false} TicksFromShown(respond: seq<Call> -> SystemState, before: seq<Call>, pending: map<string, Message>,
      ticks: seq<seq<string>>, pm: map<nat, nat>, active: set<nat>)
    ensures var calls := CallsAfter(respond, before, pending, ticks, pm, active);
            && |before| <= |calls| && FromShown(respond, pending, calls, |before|)
            && ShownAt(respond, pending, calls, |before|, |calls|) == PendingAt(respond, calls, pending, |ticks|)
  {
    hide TickCalls, IsTick;
    if ticks != [] {
      var l := |ticks| - 1;
      TicksFromShown(respond, before, pending, ticks[..l], pm, active);
      var calls := CallsAfter(respond, before, pending, ticks[..l], pm, active);
      var shown := PendingAt(respond, calls, pending, l);
      TickIsTick(shown, ticks[l], pm, active);
      ShownNext(respond, pending, calls, TickCalls(shown, ticks[l], pm, active), shown, |before|);
    }
  }

  // ----- the calls of a step -----

  function Ticked(calls: seq<Call>): nat {
    if calls == [] then 0 else Ticked(calls[..|calls| - 1]) + if calls[|calls| - 1].TickCall? then 1 else 0
  }

  /** The calls that an offered action makes: ticks with their messages for a regrouping, one node
      stopped or started and one tick, the first pending request, or one node taken over. */
  ghost predicate Told(st: Partition, a: Action, able: bool, ticks: int, next: Partition, calls: seq<Call>) {
    match a
    case CreatePartition(_) => OnlyTicks(ticks, calls)
    case KeepSamePartition => OnlyTicks(ticks, calls)
    case StopStart(color, action) =>
      if action == "Stop" then
        exists n :: n in st.activeNodes && n in st.replicaColors && st.replicaColors[n] == color
          && next.activeNodes == st.activeNodes - {n} && calls == [Stop(n), TickCall]
      else
        exists n :: n in st.replicaColors && n !in st.activeNodes
          && next.activeNodes == st.activeNodes + {n} && calls == [Start(n), TickCall]
    case SendRequest => st.pendingRequests != [] && calls == [Receive(st.pendingRequests[0])]
    case Byzantine(color) =>
      if able then
        exists n :: n in st.activeNodes && n in st.replicaColors && n !in st.byzantineNodes && st.replicaColors[n] == color
          && next.byzantineNodes == st.byzantineNodes + {n} && calls == [BecomeByzantine(n)]
      else calls == []
  }

  ghost predicate OnlyTicks(ticks: int, calls: seq<Call>) {
    Ticked(calls) == ticks && forall c | c in calls :: c.Deliver? || c.Drop? || c.TickCall?
  }

  lemma {:induction false} TickedJoin(c: seq<Call>, d: seq<Call>)
    ensures Ticked(c + d) == Ticked(c) + Ticked(d)
  {
    if d == [] {
      assert c + d == c;
    } else {
      assert (c + d)[..|c + d| - 1] == c + d[..|d| - 1];
      TickedJoin(c, d[..|d| - 1]);
    }
  }

  lemma OneTickEach(pending: map<string, Message>, keys: seq<string>, pm: map<nat, nat>, active: set<nat>)
    ensures Ticked(TickCalls(pending, keys, pm, active)) == 1
  {
    var pass, block := Passing(pending, keys, pm, active), Blocked(pending, keys, pm, active);
    var first, second := if pass == [] then [] else [Deliver(pass)], if block == [] then [] else [Drop(block)];
    TickedJoin(first, second);
    TickedJoin(first + second, [TickCall]);
  }

  lemma {:induction false} TicksTicked(respond: seq<Call> -> SystemState, before: seq<Call>, pending: map<string, Message>,
      ticks: seq<seq<string>>, pm: map<nat, nat>, active: set<nat>)
    ensures before <= CallsAfter(respond, before, pending, ticks, pm, active)
    ensures Ticked(CallsAfter(respond, before, pending, ticks, pm, active)[|before|..]) == |ticks|
  {
    hide TickCalls;
    if ticks != [] {
      var l := |ticks| - 1;
      TicksTicked(respond, before, pending, ticks[..l], pm, active);
      var calls := CallsAfter(respond, before, pending, ticks[..l], pm, active);
      var last := TickCalls(PendingAt(respond, calls, pending, l), ticks[l], pm, active);
      OneTickEach(PendingAt(respond, calls, pending, l), ticks[l], pm, active);
      TickedJoin(calls[|before|..], last);
      assert (calls + last)[|before|..] == calls[|before|..] + last;
    }
  }

  /** A regrouping makes only the calls of its ticks. */
  lemma PartitionTold(st: Partition, a: Action, able: bool, next: Partition, respond: seq<Call> -> SystemState, before: seq<Call>,
      pending: map<string, Message>, ticks: seq<seq<string>>)
    requires a.CreatePartition? || a.KeepSamePartition?
    ensures var calls := CallsAfter(respond, before, pending, ticks, next.partitionMap, st.activeNodes);
            before <= calls && Told(st, a, able, |ticks|, next, calls[|before|..])
  {
    hide CallsAfter;
    StepIsolates(respond, before, pending, ticks, next.partitionMap, st.activeNodes);
    TicksTicked(respond, before, pending, ticks, next.partitionMap, st.activeNodes);
  }

  lemma StopStartTold(cfg: Config, st: Partition, a: Action, able: bool, next: Partition, picked: seq<Call>)
    requires Inv(cfg, st) && a.StopStart? && Offered(st, a) && PickedFor(st, a, next.activeNodes, picked)
    ensures Told(st, a, able, cfg.ticks, next, picked + [TickCall])
  {
    hide Arranged, IsInactiveColor, Quarantined;
    var ids := st.replicaColors.Keys;
    if a.action == "Stop" {
      var n :| n in st.replicaColors && n in st.activeNodes && st.replicaColors[n] == a.color;
      assert n in Colored(st.replicaColors, ids, a.color);
      var m :| m in Colored(st.replicaColors, ids, a.color) && next.activeNodes == st.activeNodes - {m} && picked == [Stop(m)];
      assert m in st.activeNodes;
      assert picked + [TickCall] == [Stop(m), TickCall];
    } else {
      InactiveCount(cfg, st);
      assert ids - st.activeNodes != {};
      var m :| m in ids - st.activeNodes && next.activeNodes == st.activeNodes + {m} && picked == [Start(m)];
      assert picked + [TickCall] == [Start(m), TickCall];
    }
  }

  lemma ByzantineTold(cfg: Config, st: Partition, a: Action, able: bool, next: Partition, calls: seq<Call>)
    requires Inv(cfg, st) && a.Byzantine? && Offered(st, a) && ByzantineStep(able, st, a, next)
    requires next == st ==> calls == []
    requires next != st ==> exists n :: next.byzantineNodes == st.byzantineNodes + {n} && calls == [BecomeByzantine(n)]
    ensures Told(st, a, able, cfg.ticks, next, calls)
  {
    hide Inv, Offered, ByzantineStep;
    if able {
      OfferedByzantine(cfg, st, a, next);
      AllKnown(cfg, st);
      var n :| n in st.activeNodes - st.byzantineNodes && st.replicaColors[n] == a.color
        && next == st.(remainingByzantine := st.remainingByzantine - 1, byzantineNodes := st.byzantineNodes + {n});
      var m :| next.byzantineNodes == st.byzantineNodes + {m} && calls == [BecomeByzantine(m)];
      assert n in next.byzantineNodes;
      assert m == n;
    } else {
      UnableStays(st, a, next);
    }
  }

  lemma AllKnown(cfg: Config, st: Partition)
    requires Inv(cfg, st)
    ensures forall n | n in st.activeNodes :: n in st.replicaColors
  {
  }

  lemma UnableStays(st: Partition, a: Action, next: Partition)
    requires a.Byzantine? && ByzantineStep(false, st, a, next)
    ensures next == st
  {
  }

  // ----- what the agent is shown -----

  /** The state of a node, and the color it is painted with: marked when the node is not active. */
  predicate Pictured(paint: ReplicaState -> Color, s: SystemState, st: Partition, n: nat) {
    && n in st.replicaStates && n in st.replicaColors
    && st.replicaStates[n] == (if n in s.replicas then s.replicas[n] else 0)
    && st.replicaColors[n] == (if n in st.activeNodes then "" else "Inactive_") + paint(st.replicaStates[n])
  }

  /** The agent is shown every node as the system has it, and the requests that wait. */
  ghost predicate Pictures(cfg: Config, paint: ReplicaState -> Color, s: SystemState, st: Partition) {
    && (forall n | 1 <= n <= cfg.numReplicas :: Pictured(paint, s, st, n))
    && st.pendingRequests == s.requests && st.canDeliverRequest == s.canDeliver
  }

  lemma ShowsPictures(cfg: Config, paint: ReplicaState -> Color, s: SystemState, st: Partition)
    requires Shows(cfg, paint, s, st)
    ensures Pictures(cfg, paint, s, st)
  {
    hide Arranged;
    forall n: nat | 1 <= n <= cfg.numReplicas ensures Pictured(paint, s, st, n) {
      assert n in Ids(cfg.numReplicas);
    }
  }

  predicate StaysActive(st: Partition, next: Partition, n: nat) {
    n in st.activeNodes && n in next.activeNodes
  }

  /** Nodes that stay active keep together, a node that starts is alone, and one that stops joins the
      other inactive ones. */
  ghost predicate KeepsTogether(st: Partition, next: Partition) {
    && next.partitionMap.Keys == st.partitionMap.Keys
    && (forall n, m | n in st.partitionMap && m in st.partitionMap && StaysActive(st, next, n) && StaysActive(st, next, m) ::
          next.partitionMap[n] == next.partitionMap[m] <==> st.partitionMap[n] == st.partitionMap[m])
    && (forall n, m | n in st.partitionMap && m in st.partitionMap && n in next.activeNodes && n !in st.activeNodes && m != n ::
          next.partitionMap[m] != next.partitionMap[n])
    && (forall n, m | n in st.partitionMap && m in st.partitionMap && n !in next.activeNodes ::
          next.partitionMap[m] == next.partitionMap[n] <==> m !in next.activeNodes)
  }

  lemma StopStartKeepsTogether(cfg: Config, paint: ReplicaState -> Color, st: Partition, a: Action, next: Partition, s: SystemState)
    requires Inv(cfg, st) && a.StopStart? && Offered(st, a) && StartStopStep(cfg, paint, st, a, next, s)
    ensures KeepsTogether(st, next)
  {
    hide Inv, Shows, ActiveStep, Offered, Replaced, KeepsTogether;
    OfferedStopStart(cfg, st, a, next);
    ReplacedKeepsTogether(st, next);
  }

  lemma ReplacedKeepsTogether(st: Partition, next: Partition)
    requires Replaced(st, next)
    requires forall n, m | n in next.activeNodes && n !in st.activeNodes && m in next.activeNodes && m !in st.activeNodes :: n == m
    ensures KeepsTogether(st, next)
  {
    hide PlaceOf;
    forall n | n in st.partitionMap
      ensures PlaceOf(st, next.activeNodes, n) ==
        if n !in next.activeNodes then Leaves else if n in st.activeNodes then Stays(st.partitionMap[n]) else Returns
    {
      PlaceIs(st, next.activeNodes, n);
    }
  }

  lemma PlaceIs(st: Partition, active: set<nat>, n: nat)
    requires n in st.partitionMap
    ensures PlaceOf(st, active, n) == if n !in active then Leaves else if n in st.activeNodes then Stays(st.partitionMap[n]) else Returns
  {
  }
}
