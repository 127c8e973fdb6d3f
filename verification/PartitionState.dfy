/** The state of the partition environment, what it offers, and how one action may change it. A
    color is known only by its hash, so a color is its hash here. */
module PartitionState {
  import opened MultisetBags
  import opened SortedStrings

  type Color = string
  type ReplicaState = int
  type Request = int

  const NIL: ReplicaState := 0

  datatype Message = Message(from: nat, to: nat, hash: string)

  /** What the system below the environment shows. */
  datatype SystemState = SystemState(
    replicas: map<nat, ReplicaState>,
    pending: map<string, Message>,
    requests: seq<Request>,
    canDeliver: bool)
  {
    function GetReplicaState(id: nat): ReplicaState {
      if id in replicas then replicas[id] else NIL
    }
  }

  datatype Config = Config(
    ticks: int,
    numReplicas: nat,
    maxMessagesPerTick: int,
    staySameStateUpto: int,
    withCrashes: bool,
    maxInactive: int,
    crashLimit: int,
    withByzantine: bool,
    maxByzantine: int)

  datatype Partition = Partition(
    replicaColors: map<nat, Color>,
    partitionMap: map<nat, nat>,
    replicaStates: map<nat, ReplicaState>,
    partition: seq<seq<Color>>,
    repeatCount: int,
    pendingRequests: seq<Request>,
    canDeliverRequest: bool,
    withCrashes: bool,
    remainingCrashes: int,
    maxInactive: int,
    activeNodes: set<nat>,
    byzantineNodes: set<nat>,
    remainingByzantine: int,
    withByzantine: bool)

  datatype Action =
    | CreatePartition(partition: seq<seq<Color>>)
    | KeepSamePartition
    | StopStart(color: Color, action: string)
    | SendRequest
    | Byzantine(color: Color)

  // ----- colors -----

  const INACTIVE := "Inactive_"

  predicate IsInactiveColor(c: Color) {
    INACTIVE <= c
  }

  /** The painter never produces a color that looks inactive. */
  ghost predicate PainterOk(paint: ReplicaState -> Color) {
    forall s :: !IsInactiveColor(paint(s))
  }

  function Paint(paint: ReplicaState -> Color, s: SystemState, active: set<nat>, id: nat): Color {
    var c := paint(s.GetReplicaState(id));
    if id in active then c else INACTIVE + c
  }

  /** The replicas are numbered from 1. */
  function Ids(n: nat): (ids: set<nat>)
    ensures forall id :: id in ids <==> 1 <= id <= n
  {
    if n == 0 then {} else Ids(n - 1) + {n}
  }

  function Repaint(paint: ReplicaState -> Color, s: SystemState, active: set<nat>, ids: set<nat>): map<nat, Color> {
    map id | id in ids :: Paint(paint, s, active, id)
  }

  function Snapshot(s: SystemState, ids: set<nat>): map<nat, ReplicaState> {
    map id | id in ids :: s.GetReplicaState(id)
  }

  // ----- grouping nodes -----

  /** The nodes in part `i` with color `h`. */
  function NodesOf(colors: map<nat, Color>, pm: map<nat, nat>, i: nat, h: Color): set<nat> {
    set n | n in pm && n in colors && pm[n] == i && colors[n] == h
  }

  function Colored(colors: map<nat, Color>, nodes: set<nat>, h: Color): set<nat> {
    set n | n in nodes && n in colors && colors[n] == h
  }

  /** `part` lists the colors of the nodes of part `i`, in some order. */
  ghost predicate PartIs(part: seq<Color>, colors: map<nat, Color>, pm: map<nat, nat>, i: nat) {
    forall h :: multiset(part)[h] == |NodesOf(colors, pm, i, h)|
  }

  predicate IsPermutation(perm: seq<nat>, n: nat) {
    |perm| == n && Distinct(perm) && forall i | 0 <= i < n :: perm[i] < n
  }

  ghost predicate ArrangedBy(partition: seq<seq<Color>>, colors: map<nat, Color>, pm: map<nat, nat>, perm: seq<nat>) {
    && IsPermutation(perm, |partition|)
    && forall i | 0 <= i < |partition| :: PartIs(partition[i], colors, pm, perm[i])
  }

  /** `partition` is the colors grouped by the map, up to the order of parts and within parts. */
  ghost predicate Arranged(partition: seq<seq<Color>>, colors: map<nat, Color>, pm: map<nat, nat>) {
    && (forall n | n in pm :: pm[n] < |partition|)
    && exists perm :: ArrangedBy(partition, colors, pm, perm)
  }

  // ----- the invariant -----

  /** The maps agree with each other and with the partition shown to the agent. */
  ghost predicate Consistent(cfg: Config, st: Partition) {
    var ids := Ids(cfg.numReplicas);
    && st.replicaColors.Keys == ids && st.partitionMap.Keys == ids && st.replicaStates.Keys == ids
    && st.activeNodes <= ids && st.byzantineNodes <= ids
    && Arranged(st.partition, st.replicaColors, st.partitionMap)
    && (forall n | n in ids :: IsInactiveColor(st.replicaColors[n]) <==> n !in st.activeNodes)
  }

  /** All inactive nodes share one part, which holds no active node. */
  predicate Quarantined(ids: set<nat>, active: set<nat>, pm: map<nat, nat>)
    requires pm.Keys == ids
  {
    forall n, m | n in ids && m in ids && n !in active :: pm[n] == pm[m] <==> m !in active
  }

  predicate Settings(cfg: Config, st: Partition) {
    && st.withCrashes == cfg.withCrashes && st.maxInactive == cfg.maxInactive && st.withByzantine == cfg.withByzantine
    && 0 <= st.repeatCount <= cfg.staySameStateUpto
  }

  function Inactive(st: Partition): nat {
    |st.replicaColors.Keys - st.activeNodes|
  }

  predicate WithinLimits(st: Partition) {
    && (st.maxInactive > 0 ==> Inactive(st) <= st.maxInactive)
    && (st.maxInactive < 0 ==> Inactive(st) == 0)
    && (!st.withCrashes ==> Inactive(st) == 0)
  }

  ghost predicate Inv(cfg: Config, st: Partition) {
    && Consistent(cfg, st)
    && Quarantined(Ids(cfg.numReplicas), st.activeNodes, st.partitionMap)
    && Settings(cfg, st) && WithinLimits(st)
  }

  // ----- what is offered -----

  /** A partition of the active nodes' colors into nonempty parts, followed by the inactive colors. */
  ghost predicate OfferedPartition(st: Partition, p: seq<seq<Color>>) {
    var ids, n := st.replicaColors.Keys, |p| - 1;
    && p != [] && st.activeNodes * ids != {}
    && (forall i | 0 <= i < n :: p[i] != [])
    && (forall h :: multiset(Flatten(p[..n]))[h] == |Colored(st.replicaColors, ids * st.activeNodes, h)|)
    && (forall h :: multiset(p[n])[h] == |Colored(st.replicaColors, ids - st.activeNodes, h)|)
  }

  predicate StopsOffered(st: Partition) {
    var inactive := |st.replicaColors| - |st.activeNodes|;
    st.withCrashes && st.remainingCrashes > 0 && (inactive < st.maxInactive || st.maxInactive == 0)
  }

  ghost predicate Offered(st: Partition, a: Action) {
    match a
    case CreatePartition(p) => OfferedPartition(st, p)
    case KeepSamePartition => st.activeNodes * st.replicaColors.Keys != {}
    case StopStart(color, action) =>
      || (action == "Stop" && StopsOffered(st)
          && exists n :: n in st.replicaColors && n in st.activeNodes && st.replicaColors[n] == color)
      || (action == "Start" && color == "" && st.withCrashes && |st.replicaColors| - |st.activeNodes| > 0)
    case SendRequest => st.canDeliverRequest && st.pendingRequests != []
    case Byzantine(color) =>
      && st.withByzantine && st.remainingByzantine > 0
      && exists n :: n in st.replicaColors && n in st.activeNodes && n !in st.byzantineNodes && st.replicaColors[n] == color
  }

  // ----- what an action may do -----

  /** The colors, states and requests are those of the system state `s`. */
  ghost predicate Shows(cfg: Config, paint: ReplicaState -> Color, s: SystemState, next: Partition) {
    && next.replicaColors == Repaint(paint, s, next.activeNodes, Ids(cfg.numReplicas))
    && next.replicaStates == Snapshot(s, Ids(cfg.numReplicas))
    && next.pendingRequests == s.requests && next.canDeliverRequest == s.canDeliver
    && Arranged(next.partition, next.replicaColors, next.partitionMap)
    && (forall part | part in next.partition :: Sorted(part))
  }

  predicate SameSettings(st: Partition, next: Partition) {
    next.withCrashes == st.withCrashes && next.maxInactive == st.maxInactive && next.withByzantine == st.withByzantine
  }

  /** The repeat count grows, up to its bound, while the partition shown stays the same. */
  function NextRepeat(cfg: Config, st: Partition, partition: seq<seq<Color>>): int {
    if partition != st.partition then 0
    else if st.repeatCount + 1 > cfg.staySameStateUpto then cfg.staySameStateUpto
    else st.repeatCount + 1
  }

  /** The old colors, grouped by the new map, are the parts asked for. */
  ghost predicate Regrouped(colors: map<nat, Color>, p: seq<seq<Color>>, pm: map<nat, nat>) {
    && (forall n | n in pm :: n in colors && pm[n] < |p|)
    && (forall i | 0 <= i < |p| :: PartIs(p[i], colors, pm, i))
  }

  /** How many nodes have color `h`. */
  function ColorCount(colors: map<nat, Color>, h: Color): nat {
    |Colored(colors, colors.Keys, h)|
  }

  /** There are enough nodes of every color. */
  ghost predicate Enough(colors: map<nat, Color>, p: seq<seq<Color>>) {
    forall h :: multiset(Flatten(p))[h] <= ColorCount(colors, h)
  }

  ghost predicate UsesAll(colors: map<nat, Color>, p: seq<seq<Color>>) {
    forall h :: multiset(Flatten(p))[h] == ColorCount(colors, h)
  }

  ghost predicate PartitionStep(cfg: Config, paint: ReplicaState -> Color, st: Partition, a: Action, next: Partition, s: SystemState) {
    && Shows(cfg, paint, s, next) && SameSettings(st, next)
    && next.activeNodes == st.activeNodes && next.remainingCrashes == st.remainingCrashes
    && next.byzantineNodes == st.byzantineNodes && next.remainingByzantine == st.remainingByzantine
    && next.repeatCount == NextRepeat(cfg, st, next.partition)
    && match a
       case CreatePartition(p) =>
         && Regrouped(st.replicaColors, p, next.partitionMap) && |next.partition| == |p|
         && (UsesAll(st.replicaColors, p) ==> next.partitionMap.Keys == st.replicaColors.Keys)
       case _ => next.partitionMap == st.partitionMap && |next.partition| == |st.partition|
  }

  /** How the active nodes change: a stop takes one node of the color away if there is one, a
      start brings back one inactive node if there is one. */
  ghost predicate ActiveStep(st: Partition, a: Action, next: Partition)
    requires a.StopStart?
  {
    var stoppable := Colored(st.replicaColors, st.replicaColors.Keys, a.color);
    var startable := st.replicaColors.Keys - st.activeNodes;
    if a.action == "Stop" then
      && next.remainingCrashes == st.remainingCrashes - 1
      && if stoppable == {} then next.activeNodes == st.activeNodes
         else exists n :: n in stoppable && next.activeNodes == st.activeNodes - {n}
    else
      && next.remainingCrashes == st.remainingCrashes
      && if a.action == "Start" && startable != {}
         then exists n :: n in startable && next.activeNodes == st.activeNodes + {n}
         else next.activeNodes == st.activeNodes
  }

  /** Where a node goes when nodes stop or start. */
  datatype Place = Stays(part: nat) | Returns | Leaves

  function PlaceOf(st: Partition, active: set<nat>, n: nat): Place
    requires n in st.partitionMap
  {
    if n in active && n in st.activeNodes then Stays(st.partitionMap[n])
    else if n in active then Returns
    else Leaves
  }

  /** The new parts are the nodes that stay together, the node that returns, and the inactive nodes. */
  ghost predicate Replaced(st: Partition, next: Partition) {
    && next.partitionMap.Keys == st.partitionMap.Keys
    && (forall n, m | n in st.partitionMap && m in st.partitionMap ::
          next.partitionMap[n] == next.partitionMap[m] <==>
          PlaceOf(st, next.activeNodes, n) == PlaceOf(st, next.activeNodes, m))
    && (forall i | 0 <= i < |next.partition| :: next.partition[i] != [])
  }

  ghost predicate StartStopStep(cfg: Config, paint: ReplicaState -> Color, st: Partition, a: Action, next: Partition, s: SystemState)
    requires a.StopStart?
  {
    && Shows(cfg, paint, s, next) && SameSettings(st, next)
    && ActiveStep(st, a, next) && Replaced(st, next)
    && next.byzantineNodes == st.byzantineNodes && next.remainingByzantine == st.remainingByzantine
    && next.repeatCount == NextRepeat(cfg, st, next.partition)
  }

  ghost predicate RequestStep(cfg: Config, paint: ReplicaState -> Color, st: Partition, next: Partition, s: SystemState) {
    if st.canDeliverRequest && st.pendingRequests != [] then
      && Shows(cfg, paint, s, next) && SameSettings(st, next)
      && next.partitionMap == st.partitionMap && |next.partition| == |st.partition|
      && next.activeNodes == st.activeNodes && next.remainingCrashes == st.remainingCrashes
      && next.byzantineNodes == st.byzantineNodes && next.remainingByzantine == st.remainingByzantine
      && next.repeatCount == 0
    else next == st
  }

  /** Whether the system below can make nodes byzantine is `able`. */
  ghost predicate ByzantineStep(able: bool, st: Partition, a: Action, next: Partition)
    requires a.Byzantine?
  {
    var candidates := Colored(st.replicaColors, st.replicaColors.Keys - st.byzantineNodes, a.color);
    if !able || candidates == {} then next == st
    else exists n ::
      n in candidates
      && next == st.(remainingByzantine := st.remainingByzantine - 1, byzantineNodes := st.byzantineNodes + {n})
  }

  ghost predicate StepOk(cfg: Config, paint: ReplicaState -> Color, able: bool,
      st: Partition, a: Action, next: Partition, s: SystemState)
  {
    match a
    case CreatePartition(_) => PartitionStep(cfg, paint, st, a, next, s)
    case KeepSamePartition => PartitionStep(cfg, paint, st, a, next, s)
    case StopStart(_, _) => StartStopStep(cfg, paint, st, a, next, s)
    case SendRequest => RequestStep(cfg, paint, st, next, s)
    case Byzantine(_) => ByzantineStep(able, st, a, next)
  }

  /** The state after a reset: everyone active, in one part. */
  ghost predicate Initial(cfg: Config, paint: ReplicaState -> Color, st: Partition, s: SystemState) {
    var ids := Ids(cfg.numReplicas);
    && Shows(cfg, paint, s, st)
    && st.activeNodes == ids && st.byzantineNodes == {}
    && st.partitionMap == (map id | id in ids :: 0) && |st.partition| == 1
    && st.remainingCrashes == cfg.crashLimit && st.remainingByzantine == cfg.maxByzantine
    && st.withCrashes == cfg.withCrashes && st.maxInactive == cfg.maxInactive && st.withByzantine == cfg.withByzantine
    && st.repeatCount == 0
  }
}
