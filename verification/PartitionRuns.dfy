/** What holds over every run of the partition environment: the agent takes offered actions, and
    the system below answers as it likes. */
module PartitionRuns {
  import opened MultisetBags
  import opened PartitionState

  ghost predicate StepsTo(cfg: Config, paint: ReplicaState -> Color, able: bool, st: Partition, a: Action, next: Partition) {
    exists s :: StepOk(cfg, paint, able, st, a, next, s)
  }

  ghost predicate Starts(cfg: Config, paint: ReplicaState -> Color, st: Partition) {
    exists s :: Initial(cfg, paint, st, s)
  }

  /** `states` are the states of a run in which the agent takes `actions`. */
  ghost predicate Run(cfg: Config, paint: ReplicaState -> Color, able: bool, states: seq<Partition>, actions: seq<Action>) {
    && |states| == |actions| + 1
    && Starts(cfg, paint, states[0])
    && forall i | 0 <= i < |actions| ::
         Offered(states[i], actions[i]) && StepsTo(cfg, paint, able, states[i], actions[i], states[i + 1])
  }

  lemma InactiveIsMarked(c: Color)
    ensures IsInactiveColor(INACTIVE + c)
  {
    assert (INACTIVE + c)[..|INACTIVE|] == INACTIVE;
  }

  /** Repainting marks exactly the inactive nodes. */
  lemma RepaintMarks(paint: ReplicaState -> Color, s: SystemState, active: set<nat>, ids: set<nat>)
    requires PainterOk(paint)
    ensures forall n | n in ids :: IsInactiveColor(Repaint(paint, s, active, ids)[n]) <==> n !in active
  {
    hide IsInactiveColor;
    forall n | n in ids ensures IsInactiveColor(Repaint(paint, s, active, ids)[n]) <==> n !in active {
      InactiveIsMarked(paint(s.GetReplicaState(n)));
    }
  }

  lemma InitialInv(cfg: Config, paint: ReplicaState -> Color, st: Partition, s: SystemState)
    requires Initial(cfg, paint, st, s) && PainterOk(paint) && cfg.staySameStateUpto >= 0
    ensures Inv(cfg, st)
  {
    hide Arranged, IsInactiveColor, PainterOk;
    RepaintMarks(paint, s, st.activeNodes, Ids(cfg.numReplicas));
    assert st.replicaColors.Keys - st.activeNodes == {};
  }

  /** Showing a system state keeps the environment consistent, whatever the system did. */
  lemma ShownConsistent(cfg: Config, paint: ReplicaState -> Color, next: Partition, s: SystemState)
    requires PainterOk(paint) && Shows(cfg, paint, s, next)
    requires next.partitionMap.Keys == Ids(cfg.numReplicas)
    requires next.activeNodes <= Ids(cfg.numReplicas) && next.byzantineNodes <= Ids(cfg.numReplicas)
    ensures Consistent(cfg, next)
  {
    hide Arranged, IsInactiveColor, PainterOk;
    RepaintMarks(paint, s, next.activeNodes, Ids(cfg.numReplicas));
  }

  // ----- changing the partition -----

  lemma CountIn(colors: map<nat, Color>, pm: map<nat, nat>, part: seq<Color>, i: nat, n: nat)
    requires PartIs(part, colors, pm, i) && n in pm && n in colors && pm[n] == i
    ensures colors[n] in part
  {
    var h := colors[n];
    assert n in NodesOf(colors, pm, i, h);
    assert multiset(part)[h] > 0;
  }

  lemma ColoredSplit(colors: map<nat, Color>, ids: set<nat>, active: set<nat>, h: Color)
    ensures |Colored(colors, ids, h)| == |Colored(colors, ids * active, h)| + |Colored(colors, ids - active, h)|
  {
    assert Colored(colors, ids, h) == Colored(colors, ids * active, h) + Colored(colors, ids - active, h);
  }

  /** An offered partition uses every node exactly once. */
  lemma OfferedUsesAll(st: Partition, p: seq<seq<Color>>)
    requires OfferedPartition(st, p)
    ensures UsesAll(st.replicaColors, p)
  {
    var n := |p| - 1;
    assert p == p[..n] + [p[n]];
    FlattenSnoc(p[..n], p[n]);
    forall h ensures multiset(Flatten(p))[h] == ColorCount(st.replicaColors, h) {
      ColoredSplit(st.replicaColors, st.replicaColors.Keys, st.activeNodes, h);
    }
  }

  lemma InPartOf(p: seq<seq<Color>>, i: nat, h: Color)
    requires i < |p| && h in p[i]
    ensures multiset(Flatten(p))[h] > 0
  {
    InFlatten(p, i, h);
  }

  /** Only the last part of an offered partition holds inactive colors, and it holds no others. */
  lemma OfferedColors(cfg: Config, st: Partition, p: seq<seq<Color>>, i: nat, h: Color)
    requires Consistent(cfg, st) && OfferedPartition(st, p) && i < |p| && h in p[i]
    ensures IsInactiveColor(h) <==> i == |p| - 1
  {
    hide Arranged, IsInactiveColor;
    var ids, n := st.replicaColors.Keys, |p| - 1;
    if i == n {
      assert multiset(p[n])[h] > 0;
      var m :| m in Colored(st.replicaColors, ids - st.activeNodes, h);
    } else {
      InPartOf(p[..n], i, h);
      var m :| m in Colored(st.replicaColors, ids * st.activeNodes, h);
    }
  }

  lemma CreateQuarantines(cfg: Config, st: Partition, p: seq<seq<Color>>, pm: map<nat, nat>)
    requires Consistent(cfg, st) && OfferedPartition(st, p) && Regrouped(st.replicaColors, p, pm)
    requires pm.Keys == Ids(cfg.numReplicas)
    ensures forall n | n in pm :: n !in st.activeNodes <==> pm[n] == |p| - 1
    ensures Quarantined(pm.Keys, st.activeNodes, pm)
  {
    hide Arranged, IsInactiveColor, PartIs, OfferedPartition;
    forall n | n in pm ensures n !in st.activeNodes <==> pm[n] == |p| - 1 {
      CountIn(st.replicaColors, pm, p[pm[n]], pm[n], n);
      OfferedColors(cfg, st, p, pm[n], st.replicaColors[n]);
    }
  }

  lemma RepeatBounded(cfg: Config, st: Partition, partition: seq<seq<Color>>)
    requires 0 <= st.repeatCount <= cfg.staySameStateUpto
    ensures 0 <= NextRepeat(cfg, st, partition) <= cfg.staySameStateUpto
  {
  }

  lemma PartitionStepInv(cfg: Config, paint: ReplicaState -> Color, st: Partition, a: Action, next: Partition, s: SystemState)
    requires Inv(cfg, st) && PainterOk(paint) && (a.CreatePartition? || a.KeepSamePartition?) && Offered(st, a)
    requires PartitionStep(cfg, paint, st, a, next, s)
    ensures Inv(cfg, next)
  {
    hide Arranged, IsInactiveColor, OfferedPartition, Regrouped, PainterOk, UsesAll;
    if a.CreatePartition? {
      OfferedUsesAll(st, a.partition);
      CreateQuarantines(cfg, st, a.partition, next.partitionMap);
    }
    ShownConsistent(cfg, paint, next, s);
    RepeatBounded(cfg, st, next.partition);
  }

  // ----- stopping and starting -----

  /** An offered stop takes away exactly one active node, an offered start brings back exactly one. */
  lemma OfferedStopStart(cfg: Config, st: Partition, a: Action, next: Partition)
    requires Inv(cfg, st) && a.StopStart? && Offered(st, a) && ActiveStep(st, a, next)
    ensures next.activeNodes <= Ids(cfg.numReplicas)
    ensures a.action == "Stop" ==>
              exists n :: n in st.activeNodes && st.replicaColors[n] == a.color && next.activeNodes == st.activeNodes - {n}
    ensures a.action != "Stop" ==>
              exists n :: n in Ids(cfg.numReplicas) - st.activeNodes && next.activeNodes == st.activeNodes + {n}
  {
    hide Arranged, IsInactiveColor, Quarantined;
    var ids := Ids(cfg.numReplicas);
    if a.action == "Stop" {
      var n :| n in st.replicaColors && n in st.activeNodes && st.replicaColors[n] == a.color;
      assert n in Colored(st.replicaColors, st.replicaColors.Keys, a.color);
      var m :| m in Colored(st.replicaColors, st.replicaColors.Keys, a.color) && next.activeNodes == st.activeNodes - {m};
      assert m in st.activeNodes;
    } else {
      InactiveCount(cfg, st);
      assert ids - st.activeNodes != {};
    }
  }

  lemma InactiveCount(cfg: Config, st: Partition)
    requires Consistent(cfg, st)
    ensures Inactive(st) == |st.replicaColors| - |st.activeNodes|
  {
    var ids := st.replicaColors.Keys;
    assert ids == (ids - st.activeNodes) + st.activeNodes;
    assert |st.replicaColors| == |ids|;
  }

  lemma ReplacedQuarantines(st: Partition, next: Partition)
    requires Replaced(st, next)
    ensures Quarantined(st.partitionMap.Keys, next.activeNodes, next.partitionMap)
  {
  }

  lemma OneMoreInactive(ids: set<nat>, active: set<nat>, n: nat)
    requires n in active && active <= ids
    ensures |ids - (active - {n})| == |ids - active| + 1
  {
    assert ids - (active - {n}) == (ids - active) + {n};
  }

  lemma OneLessInactive(ids: set<nat>, active: set<nat>, n: nat)
    requires n in ids - active
    ensures |ids - (active + {n})| == |ids - active| - 1
  {
    assert ids - active == (ids - (active + {n})) + {n};
  }

  lemma InactiveChange(cfg: Config, st: Partition, a: Action, next: Partition)
    requires Inv(cfg, st) && a.StopStart? && Offered(st, a) && ActiveStep(st, a, next)
    requires next.replicaColors.Keys == st.replicaColors.Keys
    ensures Inactive(next) == Inactive(st) + if a.action == "Stop" then 1 else -1
  {
    hide Arranged, IsInactiveColor, Quarantined, Offered, ActiveStep;
    var ids := Ids(cfg.numReplicas);
    OfferedStopStart(cfg, st, a, next);
    if a.action == "Stop" {
      var n :| n in st.activeNodes && st.replicaColors[n] == a.color && next.activeNodes == st.activeNodes - {n};
      OneMoreInactive(ids, st.activeNodes, n);
    } else {
      var n :| n in ids - st.activeNodes && next.activeNodes == st.activeNodes + {n};
      OneLessInactive(ids, st.activeNodes, n);
    }
  }

  lemma LimitsKept(cfg: Config, st: Partition, a: Action, next: Partition)
    requires Inv(cfg, st) && a.StopStart? && Offered(st, a) && SameSettings(st, next)
    requires Inactive(next) == Inactive(st) + if a.action == "Stop" then 1 else -1
    ensures WithinLimits(next)
  {
    hide Arranged, IsInactiveColor, Quarantined;
    InactiveCount(cfg, st);
  }

  lemma StartStopInv(cfg: Config, paint: ReplicaState -> Color, st: Partition, a: Action, next: Partition, s: SystemState)
    requires Inv(cfg, st) && PainterOk(paint) && a.StopStart? && Offered(st, a)
    requires StartStopStep(cfg, paint, st, a, next, s)
    ensures Inv(cfg, next)
    ensures Inactive(next) == Inactive(st) + if a.action == "Stop" then 1 else -1
  {
    hide Arranged, IsInactiveColor, Quarantined, PainterOk, Replaced, ActiveStep, Offered, WithinLimits, Inactive;
    OfferedStopStart(cfg, st, a, next);
    ReplacedKeys(st, next);
    ReplacedQuarantines(st, next);
    ShownConsistent(cfg, paint, next, s);
    RepeatBounded(cfg, st, next.partition);
    InactiveChange(cfg, st, a, next);
    LimitsKept(cfg, st, a, next);
  }

  lemma ReplacedKeys(st: Partition, next: Partition)
    requires Replaced(st, next)
    ensures next.partitionMap.Keys == st.partitionMap.Keys
  {
  }

  // ----- all steps -----

  lemma RequestInv(cfg: Config, paint: ReplicaState -> Color, st: Partition, next: Partition, s: SystemState)
    requires Inv(cfg, st) && PainterOk(paint) && RequestStep(cfg, paint, st, next, s)
    ensures Inv(cfg, next)
  {
    hide Arranged, IsInactiveColor, PainterOk;
    if next != st {
      ShownConsistent(cfg, paint, next, s);
    }
  }

  /** A byzantine action only ever marks a node that exists. */
  lemma ByzantineInv(cfg: Config, able: bool, st: Partition, a: Action, next: Partition)
    requires Inv(cfg, st) && a.Byzantine? && ByzantineStep(able, st, a, next)
    ensures Inv(cfg, next)
  {
    hide Arranged, IsInactiveColor, Quarantined;
  }

  /** Every offered action keeps the invariant, whatever the system below answers. */
  lemma StepInv(cfg: Config, paint: ReplicaState -> Color, able: bool, st: Partition, a: Action, next: Partition, s: SystemState)
    requires Inv(cfg, st) && PainterOk(paint) && Offered(st, a) && StepOk(cfg, paint, able, st, a, next, s)
    ensures Inv(cfg, next)
  {
    hide Inv, PainterOk, Offered, PartitionStep, StartStopStep, RequestStep, ByzantineStep;
    match a
    case CreatePartition(_) => PartitionStepInv(cfg, paint, st, a, next, s);
    case KeepSamePartition => PartitionStepInv(cfg, paint, st, a, next, s);
    case StopStart(_, _) => StartStopInv(cfg, paint, st, a, next, s);
    case SendRequest => RequestInv(cfg, paint, st, next, s);
    case Byzantine(_) => ByzantineInv(cfg, able, st, a, next);
  }

  lemma {:induction false} RunInv(cfg: Config, paint: ReplicaState -> Color, able: bool, states: seq<Partition>,
      actions: seq<Action>, i: nat)
    requires Run(cfg, paint, able, states, actions) && PainterOk(paint) && cfg.staySameStateUpto >= 0 && i < |states|
    ensures Inv(cfg, states[i])
  {
    hide Inv, PainterOk, Offered, StepOk, Initial;
    if i == 0 {
      var s :| Initial(cfg, paint, states[0], s);
      InitialInv(cfg, paint, states[0], s);
    } else {
      RunInv(cfg, paint, able, states, actions, i - 1);
      assert StepsTo(cfg, paint, able, states[i - 1], actions[i - 1], states[i - 1 + 1]);
      var s :| StepOk(cfg, paint, able, states[i - 1], actions[i - 1], states[i], s);
      StepInv(cfg, paint, able, states[i - 1], actions[i - 1], states[i], s);
    }
  }

  // ----- budgets -----

  function Stops(actions: seq<Action>): nat {
    if actions == [] then 0
    else Stops(actions[..|actions| - 1]) + if IsStop(actions[|actions| - 1]) then 1 else 0
  }

  function StartsTaken(actions: seq<Action>): nat {
    if actions == [] then 0
    else StartsTaken(actions[..|actions| - 1])
         + if actions[|actions| - 1].StopStart? && !IsStop(actions[|actions| - 1]) then 1 else 0
  }

  function Takeovers(actions: seq<Action>): nat {
    if actions == [] then 0
    else Takeovers(actions[..|actions| - 1]) + if actions[|actions| - 1].Byzantine? then 1 else 0
  }

  predicate IsStop(a: Action) {
    a.StopStart? && a.action == "Stop"
  }

  /** One step spends the crash budget exactly for what it stops, on any system. */
  lemma CrashStep(cfg: Config, paint: ReplicaState -> Color, able: bool, st: Partition, a: Action, next: Partition, s: SystemState)
    requires Inv(cfg, st) && PainterOk(paint) && Offered(st, a) && StepOk(cfg, paint, able, st, a, next, s)
    ensures next.remainingCrashes == st.remainingCrashes - if IsStop(a) then 1 else 0
    ensures IsStop(a) ==> next.remainingCrashes >= 0
    ensures Inactive(next) == Inactive(st) + if IsStop(a) then 1 else if a.StopStart? then -1 else 0
  {
    hide Arranged, IsInactiveColor, Quarantined, PainterOk, Replaced, OfferedPartition, Regrouped, UsesAll;
    if a.StopStart? {
      StartStopInv(cfg, paint, st, a, next, s);
    } else if !a.Byzantine? {
      SameNodes(cfg, paint, able, st, a, next, s);
    }
  }

  /** One step spends the byzantine budget exactly for the nodes it marks. A system that cannot
      make nodes byzantine spends nothing and has no node marked. */
  lemma ByzantineBudgetStep(cfg: Config, paint: ReplicaState -> Color, able: bool, st: Partition, a: Action, next: Partition, s: SystemState)
    requires Inv(cfg, st) && PainterOk(paint) && Offered(st, a) && StepOk(cfg, paint, able, st, a, next, s)
    ensures var marked := if able && a.Byzantine? then 1 else 0;
            && next.remainingByzantine == st.remainingByzantine - marked
            && |next.byzantineNodes| == |st.byzantineNodes| + marked
            && (marked == 1 ==> next.remainingByzantine >= 0)
            && st.byzantineNodes <= next.byzantineNodes
  {
    hide Arranged, IsInactiveColor, Quarantined, PainterOk, Replaced, OfferedPartition, Regrouped, UsesAll, ActiveStep;
    if a.Byzantine? {
      if able {
        OfferedByzantine(cfg, st, a, next);
      }
    } else if !a.StopStart? {
      SameNodes(cfg, paint, able, st, a, next, s);
    }
  }

  lemma OfferedByzantine(cfg: Config, st: Partition, a: Action, next: Partition)
    requires Inv(cfg, st) && a.Byzantine? && Offered(st, a) && ByzantineStep(true, st, a, next)
    ensures exists n :: n in st.activeNodes - st.byzantineNodes && st.replicaColors[n] == a.color
              && next == st.(remainingByzantine := st.remainingByzantine - 1, byzantineNodes := st.byzantineNodes + {n})
  {
    hide Arranged, IsInactiveColor, Quarantined;
    var n :| n in st.replicaColors && n in st.activeNodes && n !in st.byzantineNodes && st.replicaColors[n] == a.color;
    var candidates := Colored(st.replicaColors, st.replicaColors.Keys - st.byzantineNodes, a.color);
    assert n in candidates;
    var m :| m in candidates
      && next == st.(remainingByzantine := st.remainingByzantine - 1, byzantineNodes := st.byzantineNodes + {m});
    assert m in st.activeNodes;
  }

  lemma SameNodes(cfg: Config, paint: ReplicaState -> Color, able: bool, st: Partition, a: Action, next: Partition, s: SystemState)
    requires Consistent(cfg, st) && StepOk(cfg, paint, able, st, a, next, s) && !a.StopStart? && !a.Byzantine?
    ensures next.activeNodes == st.activeNodes && next.replicaColors.Keys == st.replicaColors.Keys
    ensures next.remainingCrashes == st.remainingCrashes && next.remainingByzantine == st.remainingByzantine
    ensures next.byzantineNodes == st.byzantineNodes
  {
    hide Arranged, IsInactiveColor, Regrouped, UsesAll;
  }

  /** The last step of a run, and the run before it. */
  lemma LastStep(cfg: Config, paint: ReplicaState -> Color, able: bool, states: seq<Partition>, actions: seq<Action>)
    returns (s: SystemState)
    requires Run(cfg, paint, able, states, actions) && PainterOk(paint) && cfg.staySameStateUpto >= 0 && actions != []
    ensures var i := |actions| - 1;
            && Run(cfg, paint, able, states[..i + 1], actions[..i])
            && Inv(cfg, states[i]) && Offered(states[i], actions[i])
            && StepOk(cfg, paint, able, states[i], actions[i], states[i + 1], s)
  {
    hide Inv, PainterOk, Offered, StepOk, Starts;
    var i := |actions| - 1;
    RunInv(cfg, paint, able, states, actions, i);
    assert StepsTo(cfg, paint, able, states[i], actions[i], states[i + 1]);
    s :| StepOk(cfg, paint, able, states[i], actions[i], states[i + 1], s);
  }

  /** The crash budget over a whole run, on any system. */
  lemma {:induction false} CrashBudget(cfg: Config, paint: ReplicaState -> Color, able: bool, states: seq<Partition>, actions: seq<Action>)
    requires Run(cfg, paint, able, states, actions) && PainterOk(paint) && cfg.staySameStateUpto >= 0
    ensures var last := states[|actions|];
            && Stops(actions) + last.remainingCrashes == cfg.crashLimit
            && (Stops(actions) > 0 ==> last.remainingCrashes >= 0)
            && Inactive(last) == Stops(actions) - StartsTaken(actions)
  {
    hide Inv, PainterOk, Offered, StepOk, Arranged;
    if actions == [] {
      var s :| Initial(cfg, paint, states[0], s);
      assert states[0].replicaColors.Keys - states[0].activeNodes == {};
    } else {
      var i := |actions| - 1;
      var s := LastStep(cfg, paint, able, states, actions);
      CrashBudget(cfg, paint, able, states[..i + 1], actions[..i]);
      CrashStep(cfg, paint, able, states[i], actions[i], states[i + 1], s);
    }
  }

  /** The byzantine budget over a whole run: every takeover marks one node and spends one unit on
      a system that can make nodes byzantine, and nothing ever happens on one that cannot. */
  lemma {:induction false} ByzantineBudget(cfg: Config, paint: ReplicaState -> Color, able: bool, states: seq<Partition>, actions: seq<Action>)
    requires Run(cfg, paint, able, states, actions) && PainterOk(paint) && cfg.staySameStateUpto >= 0
    ensures var last, marked := states[|actions|], if able then Takeovers(actions) else 0;
            && marked + last.remainingByzantine == cfg.maxByzantine
            && (marked > 0 ==> last.remainingByzantine >= 0)
            && |last.byzantineNodes| == marked
  {
    hide Inv, PainterOk, Offered, StepOk, Arranged;
    if actions == [] {
      var s :| Initial(cfg, paint, states[0], s);
    } else {
      var i := |actions| - 1;
      var s := LastStep(cfg, paint, able, states, actions);
      ByzantineBudget(cfg, paint, able, states[..i + 1], actions[..i]);
      ByzantineBudgetStep(cfg, paint, able, states[i], actions[i], states[i + 1], s);
    }
  }

  // ----- what is offered -----

  /** Whether the limits allow node `n` to crash: one more inactive node and one more crash. */
  predicate MayCrash(cfg: Config, st: Partition, n: nat) {
    && st.withCrashes && st.remainingCrashes - 1 >= 0
    && (st.maxInactive == 0 || |Ids(cfg.numReplicas) - (st.activeNodes - {n})| <= st.maxInactive)
  }

  lemma StopsWithinLimits(cfg: Config, st: Partition, n: nat)
    requires Inv(cfg, st) && n in st.activeNodes
    ensures MayCrash(cfg, st, n) <==> StopsOffered(st)
  {
    hide Arranged, IsInactiveColor, Quarantined;
    InactiveCount(cfg, st);
    OneMoreInactive(Ids(cfg.numReplicas), st.activeNodes, n);
  }

  /** A stop of a color is offered exactly when some active node of that color may crash within the limits. */
  lemma StopOffered(cfg: Config, st: Partition, c: Color)
    requires Inv(cfg, st)
    ensures Offered(st, StopStart(c, "Stop")) <==>
              exists n :: n in st.activeNodes && n in st.replicaColors && st.replicaColors[n] == c && MayCrash(cfg, st, n)
  {
    hide Inv, StopsOffered, MayCrash;
    if StopsOffered(st) && exists n :: n in st.replicaColors && n in st.activeNodes && st.replicaColors[n] == c {
      var n :| n in st.replicaColors && n in st.activeNodes && st.replicaColors[n] == c;
      StopsWithinLimits(cfg, st, n);
    }
    if n :| n in st.activeNodes && n in st.replicaColors && st.replicaColors[n] == c && MayCrash(cfg, st, n) {
      StopsWithinLimits(cfg, st, n);
    }
  }

  /** A start is offered exactly when crashes are on and some node is inactive. */
  lemma StartOffered(cfg: Config, st: Partition, c: Color)
    requires Inv(cfg, st)
    ensures Offered(st, StopStart(c, "Start")) <==>
              c == "" && st.withCrashes && exists n :: n in st.replicaColors && n !in st.activeNodes
  {
    hide Arranged, IsInactiveColor, Quarantined;
    var ids := Ids(cfg.numReplicas);
    InactiveCount(cfg, st);
    if |ids - st.activeNodes| > 0 {
      var n :| n in ids - st.activeNodes;
    }
    if n :| n in ids && n !in st.activeNodes {
      assert n in ids - st.activeNodes;
    }
  }

  /** Keeping the partition is offered exactly when a node is active, a request exactly when one waits and can
      be delivered, a takeover exactly while the budget lasts and an active node of the color is left. */
  lemma OthersOffered(cfg: Config, st: Partition, c: Color)
    requires Inv(cfg, st)
    ensures Offered(st, KeepSamePartition) <==> exists n :: n in st.activeNodes
    ensures Offered(st, SendRequest) <==> |st.pendingRequests| > 0 && st.canDeliverRequest
    ensures Offered(st, Byzantine(c)) <==>
              && st.withByzantine && st.remainingByzantine - 1 >= 0
              && exists n :: n in st.activeNodes - st.byzantineNodes && st.replicaColors[n] == c
  {
    hide Arranged, IsInactiveColor, Quarantined;
    if n :| n in st.activeNodes {
      assert n in st.activeNodes * st.replicaColors.Keys;
    }
    if Offered(st, Byzantine(c)) {
      var n :| n in st.replicaColors && n in st.activeNodes && n !in st.byzantineNodes && st.replicaColors[n] == c;
      assert n in st.activeNodes - st.byzantineNodes;
    }
  }

  // ----- the repeat count -----

  /** The repeat count never claims more than there is: the last states, as many as it says and one more,
      showed the same partition. */
  lemma {:induction false} RepeatMeans(cfg: Config, paint: ReplicaState -> Color, able: bool, states: seq<Partition>,
      actions: seq<Action>, i: nat, k: nat)
    requires Run(cfg, paint, able, states, actions) && PainterOk(paint) && cfg.staySameStateUpto >= 0
    requires i < |states| && k <= states[i].repeatCount
    ensures k <= i && states[i - k].partition == states[i].partition
    decreases i
  {
    hide Inv, PainterOk, Offered, StepOk, Initial;
    if i == 0 {
      var s :| Initial(cfg, paint, states[0], s);
      StartsAtZero(cfg, paint, states[0], s);
    } else if k > 0 {
      assert StepsTo(cfg, paint, able, states[i - 1], actions[i - 1], states[i - 1 + 1]);
      var s :| StepOk(cfg, paint, able, states[i - 1], actions[i - 1], states[i], s);
      RunInv(cfg, paint, able, states, actions, i - 1);
      RepeatStep(cfg, paint, able, states[i - 1], actions[i - 1], states[i], s);
      RepeatMeans(cfg, paint, able, states, actions, i - 1, k - 1);
    }
  }

  lemma StartsAtZero(cfg: Config, paint: ReplicaState -> Color, st: Partition, s: SystemState)
    requires Initial(cfg, paint, st, s)
    ensures st.repeatCount == 0
  {
  }

  /** One step either shows another partition, or counts at most one more repetition. */
  lemma RepeatStep(cfg: Config, paint: ReplicaState -> Color, able: bool, st: Partition, a: Action, next: Partition, s: SystemState)
    requires Inv(cfg, st) && StepOk(cfg, paint, able, st, a, next, s)
    ensures next.repeatCount > 0 ==> next.partition == st.partition && next.repeatCount <= st.repeatCount + 1
    ensures !a.SendRequest? && !a.Byzantine? && next.partition == st.partition ==>
              next.repeatCount == if st.repeatCount + 1 <= cfg.staySameStateUpto then st.repeatCount + 1 else cfg.staySameStateUpto
    ensures !a.SendRequest? && !a.Byzantine? && next.partition != st.partition ==> next.repeatCount == 0
  {
    hide Arranged, Shows, Regrouped, UsesAll, ActiveStep, Replaced, Quarantined, IsInactiveColor;
  }

  /** And it claims no less, up to its bound: while regroupings, stops and starts leave the partition shown
      as it is, every one of them counts. */
  lemma {:induction false} RepeatCounts(cfg: Config, paint: ReplicaState -> Color, able: bool, states: seq<Partition>,
      actions: seq<Action>, i: nat, j: nat)
    requires Run(cfg, paint, able, states, actions) && PainterOk(paint) && cfg.staySameStateUpto >= 0 && i <= j < |states|
    requires forall k | i <= k < j :: !actions[k].SendRequest? && !actions[k].Byzantine? && states[k].partition == states[i].partition
    requires states[j].partition == states[i].partition
    ensures var all := states[i].repeatCount + (j - i);
            states[j].repeatCount == if all <= cfg.staySameStateUpto then all else cfg.staySameStateUpto
    decreases j
  {
    hide Inv, PainterOk, Offered, StepOk, Initial;
    if i < j {
      RepeatCounts(cfg, paint, able, states, actions, i, j - 1);
      assert StepsTo(cfg, paint, able, states[j - 1], actions[j - 1], states[j - 1 + 1]);
      var s :| StepOk(cfg, paint, able, states[j - 1], actions[j - 1], states[j], s);
      RunInv(cfg, paint, able, states, actions, j - 1);
      RepeatStep(cfg, paint, able, states[j - 1], actions[j - 1], states[j], s);
    } else {
      RunInv(cfg, paint, able, states, actions, i);
      RepeatWithin(cfg, states[i]);
    }
  }

  lemma RepeatWithin(cfg: Config, st: Partition)
    requires Inv(cfg, st)
    ensures 0 <= st.repeatCount <= cfg.staySameStateUpto
  {
  }
}
