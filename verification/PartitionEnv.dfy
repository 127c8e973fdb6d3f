/** The partition environment: its handlers, each proved to make one of the steps described in
    `PartitionState`. */
module PartitionEnvironment {
  import opened MultisetBags
  import opened PartitionState
  import opened PartitionActions
  import opened PartitionGrouping
  import opened PartitionTicks
  import opened PartitionRuns
  import opened PartitionEffects

  datatype Option<T> = None | Some(value: T)

  /** Compares two partitions part by part and color by color. */
  method IsSamePartition(one: seq<seq<Color>>, two: seq<seq<Color>>) returns (same: bool)
    ensures same <==> one == two
  {
    if |one| != |two| {
      return false;
    }
    for i := 0 to |one|
      invariant one[..i] == two[..i]
    {
      if |one[i]| != |two[i]| {
        return false;
      }
      for j := 0 to |one[i]|
        invariant one[i][..j] == two[i][..j]
      {
        if one[i][j] != two[i][j] {
          return false;
        }
      }
      assert one[i][..|one[i]|] == one[i] && two[i][..|two[i]|] == two[i];
    }
    assert one[..|one|] == one && two[..|two|] == two;
    return true;
  }

  function Replicas(n: nat): (order: seq<nat>)
    ensures |order| == n && forall i | 0 <= i < n :: order[i] == i + 1
  {
    seq(n, i => i + 1)
  }

  lemma ReplicasAreIds(n: nat)
    ensures Members(Replicas(n)) == Ids(n)
  {
    forall id | 1 <= id <= n ensures id in Replicas(n) {
      assert Replicas(n)[id - 1] == id;
    }
  }

  class PartitionEnv {
    const config: Config
    const paint: ReplicaState -> Color
    const underlying: SystemEnv
    var cur: Partition
    var messages: map<string, Message>

    ghost predicate Valid()
      reads this
    {
      PainterOk(paint) && Inv(config, cur)
    }

    constructor (config: Config, paint: ReplicaState -> Color, underlying: SystemEnv)
      requires PainterOk(paint) && config.staySameStateUpto >= 0
      modifies underlying`calls
      ensures this.config == config && this.paint == paint && this.underlying == underlying
      ensures underlying.calls == old(underlying.calls) + [ResetCall]
      ensures Initial(config, paint, cur, underlying.respond(underlying.calls)) && Valid()
      ensures messages == underlying.respond(underlying.calls).pending
    {
      this.config, this.paint, this.underlying := config, paint, underlying;
      new;
      Reset();
    }

    /** Colors the nodes `order` from the system state. */
    method Recolor(order: seq<nat>, s: SystemState, active: set<nat>, colors: map<nat, Color>, states: map<nat, ReplicaState>)
      returns (colors': map<nat, Color>, states': map<nat, ReplicaState>)
      ensures colors' == colors + Repaint(paint, s, active, Members(order))
      ensures states' == states + Snapshot(s, Members(order))
    {
      colors', states' := colors, states;
      NothingPainted(paint, s, active, colors, states);
      hide Repaint, Snapshot;
      for i := 0 to |order|
        invariant colors' == colors + Repaint(paint, s, active, Members(order[..i]))
        invariant states' == states + Snapshot(s, Members(order[..i]))
      {
        assert Members(order[..i + 1]) == Members(order[..i]) + {order[i]};
        var id := order[i];
        PaintNext(paint, s, active, colors, states, Members(order[..i]), id);
        var rs := s.GetReplicaState(id);
        var color := paint(rs);
        if id !in active {
          color := INACTIVE + color;
        }
        colors', states' := colors'[id := color], states'[id := rs];
      }
      assert order[..|order|] == order;
    }

    method Reset()
      requires PainterOk(paint) && config.staySameStateUpto >= 0
      modifies this`cur, this`messages, underlying`calls
      ensures underlying.calls == old(underlying.calls) + [ResetCall]
      ensures Initial(config, paint, cur, underlying.respond(underlying.calls)) && Valid()
      ensures Pictures(config, paint, underlying.respond(underlying.calls), cur)
      ensures messages == underlying.respond(underlying.calls).pending
    {
      hide Arranged, MapLists, IsInactiveColor, Inv, Repaint, Snapshot, PainterOk, Pictures;
      var s := underlying.Perform(ResetCall);
      var ids := Ids(config.numReplicas);
      var order := Replicas(config.numReplicas);
      ReplicasAreIds(config.numReplicas);
      var colors, states := Recolor(order, s, ids, map[], map[]);
      Repainted(paint, s, ids, map[], map[], ids);
      var pm := map id | id in ids :: 0;
      DistinctReplicas(config.numReplicas);
      var partition := ShowParts([order], colors, pm);
      cur := Partition(colors, pm, states, partition, 0, s.requests, s.canDeliver, config.withCrashes, config.crashLimit,
        config.maxInactive, ids, {}, config.maxByzantine, config.withByzantine);
      messages := s.pending;
      InitialInv(config, paint, cur, s);
      InitialPictures(config, paint, s, cur);
    }

    /** Shows a new system state: recolors the nodes and regroups them. */
    method Show(order: seq<nat>, s: SystemState, st: Partition, parts: seq<seq<nat>>, pm: map<nat, nat>) returns (next: Partition)
      requires Members(order) == Ids(config.numReplicas) == st.replicaColors.Keys == st.replicaStates.Keys
      requires MapLists(parts, pm) && pm.Keys <= Ids(config.numReplicas)
      ensures Shows(config, paint, s, next) && |next.partition| == |parts|
      ensures next == st.(replicaColors := next.replicaColors, replicaStates := next.replicaStates, partitionMap := pm,
                          partition := next.partition, pendingRequests := s.requests, canDeliverRequest := s.canDeliver)
      ensures (forall part | part in parts :: part != []) ==> forall i | 0 <= i < |next.partition| :: next.partition[i] != []
    {
      hide Arranged, MapLists, Repaint, Snapshot;
      var ids := Ids(config.numReplicas);
      var colors, states := Recolor(order, s, st.activeNodes, st.replicaColors, st.replicaStates);
      Repainted(paint, s, st.activeNodes, st.replicaColors, st.replicaStates, ids);
      var partition := ShowParts(parts, colors, pm);
      next := st.(replicaColors := colors, replicaStates := states, partitionMap := pm, partition := partition,
                  pendingRequests := s.requests, canDeliverRequest := s.canDeliver);
    }

    method NextRepeatCount(st: Partition, partition: seq<seq<Color>>) returns (count: int)
      ensures count == NextRepeat(config, st, partition)
    {
      count := 0;
      var same := IsSamePartition(partition, st.partition);
      if same {
        count := st.repeatCount + 1;
        if count > config.staySameStateUpto {
          count := config.staySameStateUpto;
        }
      }
    }

    /** Shows a new system state and counts how often the partition shown has repeated. */
    method ShowNext(s: SystemState, st: Partition, parts: seq<seq<nat>>, pm: map<nat, nat>) returns (next: Partition)
      requires Ids(config.numReplicas) == st.replicaColors.Keys == st.replicaStates.Keys
      requires MapLists(parts, pm) && pm.Keys <= Ids(config.numReplicas)
      ensures Shows(config, paint, s, next) && |next.partition| == |parts|
      ensures next == st.(replicaColors := next.replicaColors, replicaStates := next.replicaStates, partitionMap := pm,
                          partition := next.partition, pendingRequests := s.requests, canDeliverRequest := s.canDeliver,
                          repeatCount := NextRepeat(config, cur, next.partition))
      ensures (forall part | part in parts :: part != []) ==> forall i | 0 <= i < |next.partition| :: next.partition[i] != []
    {
      hide Arranged, MapLists, Repaint, Snapshot;
      ReplicasAreIds(config.numReplicas);
      next := Show(Replicas(config.numReplicas), s, st, parts, pm);
      var count := NextRepeatCount(cur, next.partition);
      next := next.(repeatCount := count);
    }

    /** One tick: examines messages in any order, up to the limit. */
    method OneTick(pending: map<string, Message>, pm: map<nat, nat>, active: set<nat>) returns (s: SystemState, ghost keys: seq<string>)
      modifies underlying`calls
      ensures Examined(pending, keys, config.maxMessagesPerTick)
      ensures underlying.calls == old(underlying.calls) + TickCalls(pending, keys, pm, active)
      ensures s == underlying.respond(underlying.calls)
    {
      hide Distinct;
      var order := AnyOrder(pending.Keys);
      OrderLength(pending, order);
      var toExamine := if |order| <= config.maxMessagesPerTick then |order| else config.maxMessagesPerTick;
      var deliver: seq<Message>, drop: seq<Message> := [], [];
      var j := 0;
      while j < toExamine
        invariant 0 <= j <= |order| && (j <= toExamine || j == 0)
        invariant deliver == Passing(pending, order[..j], pm, active) && drop == Blocked(pending, order[..j], pm, active)
      {
        assert order[..j + 1][..j] == order[..j];
        var next := pending[order[j]];
        if (next.from !in pm || next.to !in pm || pm[next.from] == pm[next.to]) && next.to in active {
          deliver := deliver + [next];
        } else {
          drop := drop + [next];
        }
        j := j + 1;
      }
      keys := order[..j];
      PrefixDistinct(order, j);
      if |deliver| > 0 {
        s := underlying.Perform(Deliver(deliver));
      }
      if |drop| > 0 {
        s := underlying.Perform(Drop(drop));
      }
      s := underlying.Perform(TickCall);
    }

    /** The ticks between two partitions. */
    method RunTicks(pm: map<nat, nat>, active: set<nat>) returns (s: SystemState, ghost ticks: seq<seq<string>>)
      requires config.ticks >= 1
      modifies underlying`calls
      ensures |ticks| == config.ticks
      ensures AllExamined(underlying.respond, old(underlying.calls), messages, ticks, pm, active, config.maxMessagesPerTick)
      ensures underlying.calls == CallsAfter(underlying.respond, old(underlying.calls), messages, ticks, pm, active)
      ensures s == underlying.respond(underlying.calls)
    {
      NoTicks(underlying.respond, underlying.calls, messages, pm, active, config.maxMessagesPerTick);
      hide Examined, TickCalls, AllExamined, CallsAfter;
      var last: Option<SystemState> := None;
      ticks := [];
      for i := 0 to config.ticks
        invariant |ticks| == i
        invariant underlying.calls == CallsAfter(underlying.respond, old(underlying.calls), messages, ticks, pm, active)
        invariant AllExamined(underlying.respond, old(underlying.calls), messages, ticks, pm, active, config.maxMessagesPerTick)
        invariant last == if i == 0 then None else Some(underlying.respond(underlying.calls))
      {
        var pending := if last.None? then messages else last.value.pending;
        var next;
        ghost var keys;
        next, keys := OneTick(pending, pm, active);
        OneMoreTick(underlying.respond, old(underlying.calls), messages, ticks, keys, pm, active, config.maxMessagesPerTick);
        ticks := ticks + [keys];
        last := Some(next);
      }
      s := last.value;
    }

    /** The partition asked for, or the current one. */
    method ChoosePartition(a: Action) returns (parts: seq<seq<nat>>, pm: map<nat, nat>)
      requires Valid() && (a.CreatePartition? || a.KeepSamePartition?)
      requires a.CreatePartition? ==> Enough(cur.replicaColors, a.partition)
      ensures MapLists(parts, pm) && pm.Keys <= cur.replicaColors.Keys
      ensures a.CreatePartition? ==>
                && Regrouped(cur.replicaColors, a.partition, pm) && |parts| == |a.partition|
                && (UsesAll(cur.replicaColors, a.partition) ==> pm.Keys == cur.replicaColors.Keys)
      ensures a.KeepSamePartition? ==> pm == cur.partitionMap && |parts| == |cur.partition|
    {
      hide MapLists, UsesAll, Enough, PainterOk, Quarantined;
      if a.CreatePartition? {
        parts, pm := AssignReplicas(cur.replicaColors, a.partition);
        RegroupedKeys(cur.replicaColors, a.partition, pm);
      } else {
        pm := cur.partitionMap;
        parts := GroupNodes(pm, |cur.partition|);
      }
    }

    /** Creates a partition or keeps the current one, and lets the ticks pass under it. */
    method HandlePartition(a: Action) returns (next: Partition, ghost ticks: seq<seq<string>>)
      requires Valid() && config.ticks >= 1 && (a.CreatePartition? || a.KeepSamePartition?)
      requires a.CreatePartition? ==> Enough(cur.replicaColors, a.partition)
      modifies this`messages, underlying`calls
      ensures PartitionStep(config, paint, cur, a, next, underlying.respond(underlying.calls))
      ensures messages == underlying.respond(underlying.calls).pending
      ensures |ticks| == config.ticks
      ensures AllExamined(underlying.respond, old(underlying.calls), old(messages), ticks, next.partitionMap,
                          cur.activeNodes, config.maxMessagesPerTick)
      ensures underlying.calls == CallsAfter(underlying.respond, old(underlying.calls), old(messages), ticks,
                                             next.partitionMap, cur.activeNodes)
    {
      hide Arranged, MapLists, UsesAll, Enough, PainterOk, Inv, Regrouped, AllExamined, CallsAfter, Shows, NextRepeat;
      DomainsOf(config, cur);
      var parts, pm := ChoosePartition(a);
      var s;
      s, ticks := RunTicks(pm, cur.activeNodes);
      messages := s.pending;
      next := ShowNext(s, cur, parts, pm);
    }

    /** Stops a node of the color asked for, or starts an inactive one, if there is one. */
    method ChangeActive(a: Action) returns (active: set<nat>, ghost picked: seq<Call>)
      requires Valid() && a.StopStart?
      modifies underlying`calls
      ensures PickedFor(cur, a, active, picked) && underlying.calls == old(underlying.calls) + picked
    {
      hide Colored, Inv, PainterOk;
      active, picked := cur.activeNodes, [];
      if a.action == "Stop" {
        var stoppable := Colored(cur.replicaColors, cur.replicaColors.Keys, a.color);
        if |stoppable| > 0 {
          var node :| node in stoppable;
          var _ := underlying.Perform(Stop(node));
          active, picked := active - {node}, [Stop(node)];
        }
      } else if a.action == "Start" {
        var startable := cur.replicaColors.Keys - cur.activeNodes;
        if |startable| > 0 {
          var node :| node in startable;
          var _ := underlying.Perform(Start(node));
          active, picked := active + {node}, [Start(node)];
        }
      }
    }

    /** Groups the nodes that stay as before, then the returning ones, then the inactive ones. */
    method RegroupActive(active: set<nat>) returns (parts: seq<seq<nat>>, pm: map<nat, nat>)
      requires Valid()
      ensures MapLists(parts, pm) && pm.Keys == cur.partitionMap.Keys
      ensures forall part | part in parts :: part != []
      ensures forall n, m | n in pm && m in pm :: pm[n] == pm[m] <==> PlaceOf(cur, active, n) == PlaceOf(cur, active, m)
    {
      hide Arranged, MapLists, PainterOk, Quarantined, Kept;
      var k := |cur.partition|;
      InRangeOf(cur);
      var places := Places(cur, active, k);
      PlacesMean(cur, active, k);
      hide Places, PlaceOf;
      var all := GroupNodes(places, k + 2);
      parts := DropEmpty(all);
      ghost var kept :| Kept(parts, all, kept);
      pm := NumberParts(parts, cur.partitionMap, places, kept, all);
      KeptDistinct(parts, all, kept);
    }

    method HandleStartStop(a: Action) returns (next: Partition, ghost picked: seq<Call>)
      requires Valid() && a.StopStart?
      modifies this`messages, underlying`calls
      ensures StartStopStep(config, paint, cur, a, next, underlying.respond(underlying.calls))
      ensures messages == underlying.respond(underlying.calls).pending
      ensures PickedFor(cur, a, next.activeNodes, picked) && underlying.calls == old(underlying.calls) + picked + [TickCall]
    {
      hide Arranged, MapLists, PainterOk, Inv, Colored, PickedFor, ActiveStep, PlaceOf, Shows, NextRepeat;
      DomainsOf(config, cur);
      var remaining := cur.remainingCrashes;
      if a.action == "Stop" {
        remaining := remaining - 1;
      }
      var active;
      active, picked := ChangeActive(a);
      var s := underlying.Perform(TickCall);
      messages := s.pending;
      var parts, pm := RegroupActive(active);
      next := ShowNext(s, cur.(activeNodes := active, remainingCrashes := remaining), parts, pm);
      PickedActive(cur, a, next, picked);
    }

    /** Hands the first pending request to the system, if it can be delivered. */
    method HandleRequest() returns (next: Partition)
      requires Valid()
      modifies underlying`calls
      ensures RequestStep(config, paint, cur, next, underlying.respond(underlying.calls))
      ensures underlying.calls == old(underlying.calls)
                + if cur.canDeliverRequest && cur.pendingRequests != [] then [Receive(cur.pendingRequests[0])] else []
    {
      hide Arranged, MapLists, PainterOk, Inv, Shows;
      DomainsOf(config, cur);
      next := cur;
      if cur.canDeliverRequest && |cur.pendingRequests| > 0 {
        var s := underlying.Perform(Receive(cur.pendingRequests[0]));
        InRangeOf(cur);
        var parts := GroupNodes(cur.partitionMap, |cur.partition|);
        var order := AnyOrder(cur.partitionMap.Keys);
        next := Show(order, s, cur, parts, cur.partitionMap);
        StillShows(config, paint, s, next, 0);
        next := next.(repeatCount := 0);
      }
    }

    method HandleByzantine(a: Action) returns (next: Partition)
      requires Valid() && a.Byzantine?
      modifies underlying`calls
      ensures ByzantineStep(underlying.byzantine, cur, a, next)
      ensures next == cur ==> underlying.calls == old(underlying.calls)
      ensures next != cur ==> exists n ::
                next.byzantineNodes == cur.byzantineNodes + {n} && underlying.calls == old(underlying.calls) + [BecomeByzantine(n)]
    {
      hide Inv, PainterOk, Colored;
      next := cur;
      if underlying.byzantine {
        var candidates := Colored(cur.replicaColors, cur.replicaColors.Keys - cur.byzantineNodes, a.color);
        if |candidates| > 0 {
          var node :| node in candidates;
          var _ := underlying.Perform(BecomeByzantine(node));
          next := cur.(remainingByzantine := cur.remainingByzantine - 1, byzantineNodes := cur.byzantineNodes + {node});
        }
      }
    }

    /** One step of the environment. An offered action keeps the environment valid and makes the calls
        described. What it delivers stays within the parts of the new partition and away from inactive
        nodes, what it drops could not be delivered, and all of it was shown to be pending. The agent is
        shown every node as the system has it. */
    method Step(a: Action) returns (next: Partition)
      requires Valid() && config.ticks >= 1
      requires a.CreatePartition? ==> Enough(cur.replicaColors, a.partition)
      modifies this`cur, this`messages, underlying`calls
      ensures cur == next
      ensures StepOk(config, paint, underlying.byzantine, old(cur), a, next, underlying.respond(underlying.calls))
      ensures old(underlying.calls) <= underlying.calls
      ensures Offered(old(cur), a) ==> Valid()
      ensures Offered(old(cur), a) ==> Confined(config.numReplicas, next, underlying.calls[|old(underlying.calls)|..])
      ensures Justified(next, underlying.calls[|old(underlying.calls)|..])
      ensures FromShown(underlying.respond, old(messages), underlying.calls, |old(underlying.calls)|)
      ensures messages == if a.SendRequest? || a.Byzantine? then old(messages) else underlying.respond(underlying.calls).pending
      ensures Offered(old(cur), a) ==>
                Told(old(cur), a, underlying.byzantine, config.ticks, next, underlying.calls[|old(underlying.calls)|..])
      ensures Offered(old(cur), a) && !a.Byzantine? ==> Pictures(config, paint, underlying.respond(underlying.calls), next)
      ensures Offered(old(cur), a) && a.StopStart? ==> KeepsTogether(old(cur), next)
    {
      hide Inv, PainterOk, Offered, PartitionStep, StartStopStep, RequestStep, ByzantineStep, Enough, Confined, CallsAfter,
        AllExamined, PickedFor, Justified, FromShown, Told, Pictures, KeepsTogether;
      ghost var before, pending := underlying.calls, messages;
      ghost var ticks: seq<seq<string>> := [];
      ghost var added, picked: seq<Call> := [], [];
      match a {
        case Byzantine(_) =>
          next := HandleByzantine(a);
          if next != cur {
            ghost var n :| next.byzantineNodes == cur.byzantineNodes + {n} && underlying.calls == before + [BecomeByzantine(n)];
            added := [BecomeByzantine(n)];
          }
        case StopStart(_, _) =>
          next, picked := HandleStartStop(a);
          PickedQuiet(cur, a, next.activeNodes, picked);
          added := picked + [TickCall];
        case CreatePartition(_) => next, ticks := HandlePartition(a);
        case KeepSamePartition => next, ticks := HandlePartition(a);
        case SendRequest =>
          next := HandleRequest();
          added := underlying.calls[|before|..];
      }
      if a.CreatePartition? || a.KeepSamePartition? {
        SameActive(config, paint, cur, a, next, underlying.respond(underlying.calls));
        TicksEffects(config, cur, a, underlying.byzantine, next, underlying.respond, before, pending, ticks);
      } else {
        assert underlying.calls == before + added;
        assert underlying.calls[|before|..] == added;
        NothingDelivered(config.numReplicas, next, underlying.respond, pending, before, added);
      }
      if Offered(cur, a) {
        StepInv(config, paint, underlying.byzantine, cur, a, next, underlying.respond(underlying.calls));
        if a.CreatePartition? || a.KeepSamePartition? {
          TicksConfined(config, next, underlying.respond, before, pending, ticks);
        }
        OfferedEffects(config, paint, underlying.byzantine, cur, a, next, underlying.respond(underlying.calls), picked, added);
      }
      cur := next;
    }
  }

  /** An episode: the agent takes actions that are offered, as long as there are any and up to the
      horizon. What it goes through is a run, so everything proved of runs holds of it. */
  method RunEpisode(env: PartitionEnv, horizon: nat) returns (ghost states: seq<Partition>, ghost taken: seq<Action>)
    requires PainterOk(env.paint) && env.config.staySameStateUpto >= 0 && env.config.ticks >= 1
    modifies env`cur, env`messages, env.underlying`calls
    ensures Run(env.config, env.paint, env.underlying.byzantine, states, taken)
    ensures states[|taken|] == env.cur && env.Valid()
    ensures |taken| <= horizon && (|taken| < horizon ==> forall a :: !Offered(env.cur, a))
  {
    hide Inv, PainterOk, Offered, StepOk, Initial, OfferedPartition, Once;
    env.Reset();
    states, taken := [env.cur], [];
    assert Starts(env.config, env.paint, states[0]);
    for i := 0 to horizon
      invariant |taken| == i && |states| == i + 1 && states[i] == env.cur && env.Valid()
      invariant Run(env.config, env.paint, env.underlying.byzantine, states, taken)
    {
      var actions;
      ghost var creates;
      actions, creates := Actions(env.cur);
      if |actions| == 0 {
        NothingOn(env.cur, actions, creates);
        return;
      }
      assert actions[0] in actions;
      var a :| a in actions;
      if a.CreatePartition? {
        OfferedEnough(env.cur, a);
      }
      ghost var st := env.cur;
      var next := env.Step(a);
      assert StepsTo(env.config, env.paint, env.underlying.byzantine, st, a, next);
      OneMoreStep(env.config, env.paint, env.underlying.byzantine, states, taken, a, next);
      states, taken := states + [next], taken + [a];
    }
  }

  lemma NothingOn(st: Partition, actions: seq<Action>, creates: seq<seq<seq<Color>>>)
    requires actions == []
    requires forall a | Offered(st, a) && !a.CreatePartition? :: a in actions
    requires forall p | p in creates :: CreatePartition(p) in actions
    requires forall p | OfferedPartition(st, p) :: Once(creates, p)
    ensures forall a :: !Offered(st, a)
  {
    hide OfferedPartition;
    NothingCreated(actions, creates);
    assert forall p :: Once(creates, p) ==> creates != [];
    assert forall a :: Offered(st, a) ==> !a.CreatePartition?;
  }

  lemma NothingCreated(actions: seq<Action>, creates: seq<seq<seq<Color>>>)
    requires forall p | p in creates :: CreatePartition(p) in actions
    ensures creates != [] ==> actions != []
  {
    if creates != [] {
      assert CreatePartition(creates[0]) in actions;
    }
  }

  lemma OfferedEnough(st: Partition, a: Action)
    requires a.CreatePartition? && Offered(st, a)
    ensures Enough(st.replicaColors, a.partition)
  {
    hide OfferedPartition;
    OfferedUsesAll(st, a.partition);
  }

  lemma OneMoreStep(cfg: Config, paint: ReplicaState -> Color, able: bool, states: seq<Partition>, taken: seq<Action>,
      a: Action, next: Partition)
    requires Run(cfg, paint, able, states, taken)
    requires Offered(states[|taken|], a) && StepsTo(cfg, paint, able, states[|taken|], a, next)
    ensures Run(cfg, paint, able, states + [next], taken + [a])
  {
    hide Offered, StepsTo, Starts;
  }

  lemma SameActive(cfg: Config, paint: ReplicaState -> Color, st: Partition, a: Action, next: Partition, s: SystemState)
    requires PartitionStep(cfg, paint, st, a, next, s)
    ensures next.activeNodes == st.activeNodes
  {
  }

  lemma PickedQuiet(st: Partition, a: Action, active: set<nat>, picked: seq<Call>)
    requires a.StopStart? && PickedFor(st, a, active, picked)
    ensures forall c | c in picked :: !c.Deliver? && !c.Drop?
  {
  }

  lemma NothingDelivered(n: nat, st: Partition, respond: seq<Call> -> SystemState, kept: map<string, Message>,
      before: seq<Call>, added: seq<Call>)
    requires forall c | c in added :: !c.Deliver? && !c.Drop?
    ensures Confined(n, st, added) && Justified(st, added) && FromShown(respond, kept, before + added, |before|)
  {
    assert forall k | |before| <= k < |before + added| :: (before + added)[k] in added;
  }

  lemma InitialPictures(cfg: Config, paint: ReplicaState -> Color, s: SystemState, st: Partition)
    requires Initial(cfg, paint, st, s)
    ensures Pictures(cfg, paint, s, st)
  {
    hide Shows, Pictures;
    ShowsPictures(cfg, paint, s, st);
  }

  lemma TicksEffects(cfg: Config, st: Partition, a: Action, able: bool, next: Partition, respond: seq<Call> -> SystemState,
      before: seq<Call>, pending: map<string, Message>, ticks: seq<seq<string>>)
    requires (a.CreatePartition? || a.KeepSamePartition?) && next.activeNodes == st.activeNodes && |ticks| == cfg.ticks
    ensures var calls := CallsAfter(respond, before, pending, ticks, next.partitionMap, st.activeNodes);
            && before <= calls
            && Justified(next, calls[|before|..]) && FromShown(respond, pending, calls, |before|)
            && Told(st, a, able, cfg.ticks, next, calls[|before|..])
  {
    hide CallsAfter, Justified, FromShown, Told;
    DropsJustified(next, respond, before, pending, ticks);
    TicksFromShown(respond, before, pending, ticks, next.partitionMap, st.activeNodes);
    PartitionTold(st, a, able, next, respond, before, pending, ticks);
  }

  /** What else is proved of an offered action, from what its handler promises. */
  lemma OfferedEffects(cfg: Config, paint: ReplicaState -> Color, able: bool, st: Partition, a: Action, next: Partition, s: SystemState,
      picked: seq<Call>, added: seq<Call>)
    requires Inv(cfg, st) && Offered(st, a) && StepOk(cfg, paint, able, st, a, next, s)
    requires a.StopStart? ==> PickedFor(st, a, next.activeNodes, picked) && added == picked + [TickCall]
    requires a.Byzantine? ==> next == st ==> added == []
    requires a.Byzantine? && next != st ==> exists n :: next.byzantineNodes == st.byzantineNodes + {n} && added == [BecomeByzantine(n)]
    requires a.SendRequest? && st.canDeliverRequest && st.pendingRequests != [] ==> added == [Receive(st.pendingRequests[0])]
    ensures !a.Byzantine? ==> Pictures(cfg, paint, s, next)
    ensures a.StopStart? ==> KeepsTogether(st, next)
    ensures a.StopStart? || a.Byzantine? || a.SendRequest? ==> Told(st, a, able, cfg.ticks, next, added)
  {
    hide Inv, Shows, Pictures, KeepsTogether, PickedFor, ByzantineStep, Regrouped, UsesAll, ActiveStep, Replaced, OfferedPartition, StopsOffered;
    if !a.Byzantine? {
      ShowsPictures(cfg, paint, s, next);
    }
    match a
    case StopStart(_, _) =>
      StopStartKeepsTogether(cfg, paint, st, a, next, s);
      StopStartTold(cfg, st, a, able, next, picked);
    case Byzantine(_) => ByzantineTold(cfg, st, a, able, next, added);
    case _ =>
  }

  lemma DistinctReplicas(n: nat)
    ensures MapLists([Replicas(n)], map id | id in Ids(n) :: 0)
  {
    ReplicasAreIds(n);
    var order := Replicas(n);
    assert forall id | id in Ids(n) :: id in Members(order);
    assert forall id | id in order :: id in Members(order);
  }

  /** The part each node goes to when `k` parts exist: its own, the next one, or the one after. */
  function Places(st: Partition, active: set<nat>, k: nat): map<nat, nat> {
    map n | n in st.partitionMap ::
      if n in active && n in st.activeNodes then st.partitionMap[n] else if n in active then k else k + 1
  }

  lemma PlacesMean(st: Partition, active: set<nat>, k: nat)
    requires forall n | n in st.partitionMap :: st.partitionMap[n] < k
    ensures Places(st, active, k).Keys == st.partitionMap.Keys
    ensures forall n | n in st.partitionMap :: Places(st, active, k)[n] < k + 2
    ensures forall n, m | n in st.partitionMap && m in st.partitionMap ::
              Places(st, active, k)[n] == Places(st, active, k)[m] <==> PlaceOf(st, active, n) == PlaceOf(st, active, m)
  {
  }

  lemma NothingPainted(paint: ReplicaState -> Color, s: SystemState, active: set<nat>, colors: map<nat, Color>,
      states: map<nat, ReplicaState>)
    ensures colors == colors + Repaint(paint, s, active, Members([])) && states == states + Snapshot(s, Members([]))
  {
  }

  lemma PaintNext(paint: ReplicaState -> Color, s: SystemState, active: set<nat>, colors: map<nat, Color>, states: map<nat, ReplicaState>,
      ids: set<nat>, id: nat)
    ensures colors + Repaint(paint, s, active, ids + {id}) == (colors + Repaint(paint, s, active, ids))[id := Paint(paint, s, active, id)]
    ensures states + Snapshot(s, ids + {id}) == (states + Snapshot(s, ids))[id := s.GetReplicaState(id)]
  {
  }

  lemma Repainted(paint: ReplicaState -> Color, s: SystemState, active: set<nat>, colors: map<nat, Color>, states: map<nat, ReplicaState>,
      ids: set<nat>)
    requires colors.Keys <= ids && states.Keys <= ids
    ensures colors + Repaint(paint, s, active, ids) == Repaint(paint, s, active, ids)
    ensures states + Snapshot(s, ids) == Snapshot(s, ids)
    ensures Repaint(paint, s, active, ids).Keys == ids
  {
  }

  lemma NoTicks(respond: seq<Call> -> SystemState, before: seq<Call>, pending: map<string, Message>, pm: map<nat, nat>,
      active: set<nat>, max: int)
    ensures AllExamined(respond, before, pending, [], pm, active, max)
    ensures CallsAfter(respond, before, pending, [], pm, active) == before
  {
  }

  lemma OrderLength(pending: map<string, Message>, order: seq<string>)
    requires Distinct(order) && Members(order) == pending.Keys
    ensures |order| == |pending| && forall k | k in order :: k in pending
  {
    DistinctSize(order);
    assert |pending| == |pending.Keys|;
    assert forall k | k in order :: k in Members(order);
  }

  lemma PrefixDistinct(order: seq<string>, j: nat)
    requires Distinct(order) && j <= |order|
    ensures Distinct(order[..j]) && forall k | k in order[..j] :: k in order
  {
  }

  lemma RegroupedKeys(colors: map<nat, Color>, p: seq<seq<Color>>, pm: map<nat, nat>)
    requires Regrouped(colors, p, pm)
    ensures pm.Keys <= colors.Keys
  {
  }

  lemma DomainsOf(cfg: Config, st: Partition)
    requires Inv(cfg, st)
    ensures st.replicaColors.Keys == st.partitionMap.Keys == st.replicaStates.Keys == Ids(cfg.numReplicas)
    ensures Arranged(st.partition, st.replicaColors, st.partitionMap)
  {
  }

  lemma StillShows(cfg: Config, paint: ReplicaState -> Color, s: SystemState, st: Partition, count: int)
    requires Shows(cfg, paint, s, st)
    ensures Shows(cfg, paint, s, st.(repeatCount := count))
  {
  }

  lemma InRangeOf(st: Partition)
    requires Arranged(st.partition, st.replicaColors, st.partitionMap)
    ensures forall n | n in st.partitionMap :: st.partitionMap[n] < |st.partition|
  {
  }

  lemma KeptDistinct(parts: seq<seq<nat>>, all: seq<seq<nat>>, kept: seq<nat>)
    requires Kept(parts, all, kept)
    ensures Distinct(kept) && forall part | part in parts :: part != []
  {
  }
}
