/** Reward machines: the online tracker that cuts an episode into segments, the offline analyzer
    that reads recorded traces, and when the two agree. */
module RewardMachines {

  /** A state of the environment: predicates may look at all of it, statistics count its hash. */
  datatype State = State(hash: string, body: int)

  type Predicate = State -> bool

  datatype Transition = Transition(state: State, action: string, next: State)

  /** A transition in a segment, with whether the machine progressed and whether it moved. */
  datatype RmStep = RmStep(transition: Transition, reward: bool, outOfSpace: bool)

  type Segments = map<string, seq<RmStep>>

  const INIT := "Init"
  const FINAL := "Final"

  /** The states of a machine in order, each with the predicate that enters it. */
  datatype Machine = Machine(states: seq<string>, predicates: map<string, Predicate>)

  predicate Enters(m: Machine, i: nat, s: State)
    requires i < |m.states|
  {
    m.states[i] in m.predicates && m.predicates[m.states[i]](s)
  }

  /** The last position entered by `s`, or -1. */
  function Highest(m: Machine, s: State): (p: int)
    ensures -1 <= p < |m.states|
    ensures p >= 0 ==> Enters(m, p, s)
    ensures forall i | p < i < |m.states| :: !Enters(m, i, s)
  {
    HighestBelow(m, s, |m.states|)
  }

  function HighestBelow(m: Machine, s: State, n: nat): (p: int)
    requires n <= |m.states|
    ensures -1 <= p < n
    ensures p >= 0 ==> Enters(m, p, s)
    ensures forall i | p < i < n :: !Enters(m, i, s)
  {
    if n == 0 then -1 else if Enters(m, n - 1, s) then n - 1 else HighestBelow(m, s, n - 1)
  }

  lemma HighestIs(m: Machine, s: State, p: int)
    requires -1 <= p < |m.states| && (p >= 0 ==> Enters(m, p, s))
    requires forall i | p < i < |m.states| :: !Enters(m, i, s)
    ensures Highest(m, s) == p
  {
  }

  /** Some state is entered by everything. */
  ghost predicate Total(m: Machine) {
    forall s :: Highest(m, s) >= 0
  }

  predicate WellFormed(m: Machine) {
    && |m.states| >= 2 && m.states[0] == INIT && m.states[|m.states| - 1] == FINAL
    && (forall i, j | 0 <= i < j < |m.states| :: m.states[i] != m.states[j])
    && (forall i | 0 <= i < |m.states| :: m.states[i] in m.predicates)
  }

  ghost predicate InitAlways(m: Machine) {
    INIT in m.predicates && forall s :: m.predicates[INIT](s)
  }

  predicate TruePred(s: State) {
    true
  }

  class RewardMachine {
    var predicates: map<string, Predicate>
    var states: seq<string>

    function Model(): Machine
      reads this
    {
      Machine(states, predicates)
    }

    constructor (pred: Predicate)
      ensures WellFormed(Model()) && InitAlways(Model())
      ensures states == [INIT, FINAL] && predicates[FINAL] == pred
    {
      states := [INIT, FINAL];
      var always: Predicate := TruePred;
      var entered: map<string, Predicate> := map[INIT := always];
      predicates := entered[FINAL := pred];
    }

    /** Puts a new state right before the last one. */
    method AddState(pred: Predicate, name: string)
      requires |states| > 0
      modifies this
      ensures Model() == Added(old(Model()), pred, name)
    {
      var index := |states| - 1;
      states := states + [states[index]];
      states := states[index := name];
      predicates := predicates[name := pred];
    }
  }

  function Added(m: Machine, pred: Predicate, name: string): Machine
    requires |m.states| > 0
  {
    var l := |m.states| - 1;
    Machine(m.states[..l] + [name, m.states[l]], m.predicates[name := pred])
  }

  /** A fresh name keeps the machine well formed, and the new state is tried right before the last. */
  lemma AddedKeeps(m: Machine, pred: Predicate, name: string, s: State)
    requires WellFormed(m) && InitAlways(m) && name !in m.states
    ensures WellFormed(Added(m, pred, name)) && InitAlways(Added(m, pred, name))
    ensures var l := |m.states| - 1;
            Highest(Added(m, pred, name), s) ==
            if Highest(m, s) == l then l + 1 else if pred(s) then l else Highest(m, s)
  {
    var m', l := Added(m, pred, name), |m.states| - 1;
    assert forall i | 0 <= i < l :: m'.states[i] == m.states[i];
    assert m'.states[l] == name && m'.states[l + 1] == m.states[l];
    assert forall i | 0 <= i < l :: Enters(m', i, s) == Enters(m, i, s);
    assert Enters(m', l + 1, s) == Enters(m, l, s) && Enters(m', l, s) == pred(s);
    var p := if Highest(m, s) == l then l + 1 else if pred(s) then l else Highest(m, s);
    HighestIs(m', s, p);
  }

  /** A well-formed machine whose first state is entered by everything is total. */
  lemma InitMakesTotal(m: Machine)
    requires WellFormed(m) && InitAlways(m)
    ensures Total(m)
  {
    forall s ensures Highest(m, s) >= 0 {
      assert Enters(m, 0, s);
    }
  }

  // ----- positions along an episode -----

  /** The position the analyzer computes after `n` transitions: it stays where nothing is entered. */
  function Offline(m: Machine, trace: seq<Transition>, n: nat): (p: int)
    requires n <= |trace| && trace != [] && |m.states| > 0
    ensures 0 <= p < |m.states|
  {
    if n == 0 then if Highest(m, trace[0].state) >= 0 then Highest(m, trace[0].state) else 0
    else if Highest(m, trace[n - 1].next) >= 0 then Highest(m, trace[n - 1].next)
    else Offline(m, trace, n - 1)
  }

  /** Whether one of the first `n` transitions entered the last state. */
  predicate EnteredLast(m: Machine, trace: seq<Transition>, n: nat)
    requires n <= |trace|
  {
    n > 0 && (Highest(m, trace[n - 1].next) == |m.states| - 1 || EnteredLast(m, trace, n - 1))
  }

  /** The position the tracker holds after `n` transitions: it goes to the last state where nothing
      is entered, and a one-time machine stays there once a transition entered it. */
  function Online(m: Machine, oneTime: bool, trace: seq<Transition>, n: nat): (p: int)
    requires n <= |trace| && trace != [] && |m.states| > 0
    ensures 0 <= p < |m.states|
  {
    if n == 0 then if Highest(m, trace[0].state) >= 0 then Highest(m, trace[0].state) else 0
    else if oneTime && EnteredLast(m, trace, n - 1) then |m.states| - 1
    else if Highest(m, trace[n - 1].next) >= 0 then Highest(m, trace[n - 1].next)
    else |m.states| - 1
  }

  /** The state the episode is in after `k` transitions. */
  function StateAt(trace: seq<Transition>, k: nat): State
    requires k <= |trace| && trace != []
  {
    if k == 0 then trace[0].state else trace[k - 1].next
  }

  /** Position `p` is the last one that `s` enters. */
  predicate IsLastEntered(m: Machine, s: State, p: int) {
    0 <= p < |m.states| && Enters(m, p, s) && forall i | p < i < |m.states| :: !Enters(m, i, s)
  }

  predicate EntersNothing(m: Machine, s: State) {
    forall i | 0 <= i < |m.states| :: !Enters(m, i, s)
  }

  /** The analyzer's position is that of the latest state of the episode that enters anything, and the
      first one when there is none. */
  lemma {:induction false} OfflineMeans(m: Machine, trace: seq<Transition>, n: nat)
    requires n <= |trace| && trace != [] && |m.states| > 0
    ensures || (exists k :: 0 <= k <= n && IsLastEntered(m, StateAt(trace, k), Offline(m, trace, n))
                  && forall j | k < j <= n :: EntersNothing(m, StateAt(trace, j)))
            || (Offline(m, trace, n) == 0 && forall j | 0 <= j <= n :: EntersNothing(m, StateAt(trace, j)))
  {
    var top := Highest(m, StateAt(trace, n));
    if top >= 0 {
      assert IsLastEntered(m, StateAt(trace, n), Offline(m, trace, n));
    } else if n > 0 {
      OfflineMeans(m, trace, n - 1);
      assert EntersNothing(m, StateAt(trace, n));
    }
  }

  /** The tracker's position after a transition is the last one its next state enters, or the last of the
      machine when there is none; a one-time machine stays in the last one once it was entered. */
  lemma OnlineMeans(m: Machine, oneTime: bool, trace: seq<Transition>, n: nat)
    requires 0 < n <= |trace| && |m.states| > 0
    ensures var last, p := |m.states| - 1, Online(m, oneTime, trace, n);
            if oneTime && exists j :: 0 <= j < n - 1 && IsLastEntered(m, trace[j].next, last) then p == last
            else IsLastEntered(m, trace[n - 1].next, p) || (p == last && EntersNothing(m, trace[n - 1].next))
  {
    EnteredLastMeans(m, trace, n - 1);
  }

  lemma {:induction false} EnteredLastMeans(m: Machine, trace: seq<Transition>, n: nat)
    requires n <= |trace| && |m.states| > 0
    ensures EnteredLast(m, trace, n) <==> exists j :: 0 <= j < n && IsLastEntered(m, trace[j].next, |m.states| - 1)
  {
    if n > 0 {
      EnteredLastMeans(m, trace, n - 1);
      assert Highest(m, trace[n - 1].next) == |m.states| - 1 <==> IsLastEntered(m, trace[n - 1].next, |m.states| - 1);
    }
  }

  ghost predicate AlwaysAgree(m: Machine)
    requires |m.states| > 0
  {
    forall trace: seq<Transition>, n: nat | trace != [] && n <= |trace| ::
      Online(m, false, trace, n) == Offline(m, trace, n)
  }

  /** The tracker of a machine that is not one-time and the analyzer agree on every episode exactly
      when the machine is total. */
  lemma AgreeIffTotal(m: Machine)
    requires |m.states| >= 2
    ensures Total(m) <==> AlwaysAgree(m)
  {
    if s :| Highest(m, s) < 0 {
      var trace := [Transition(s, "", s)];
      assert Online(m, false, trace, 1) == |m.states| - 1 && Offline(m, trace, 1) == 0;
      assert Online(m, false, trace, 1) != Offline(m, trace, 1);
    }
  }

  /** A total one-time machine agrees with the analyzer on an episode exactly when the episode stays
      in the last state once a transition entered it. */
  lemma OneTimeAgrees(m: Machine, trace: seq<Transition>)
    requires |m.states| > 0 && Total(m) && trace != []
    ensures (forall n: nat | n <= |trace| :: Online(m, true, trace, n) == Offline(m, trace, n)) <==>
            (forall n: nat | n < |trace| && EnteredLast(m, trace, n) :: Highest(m, trace[n].next) == |m.states| - 1)
  {
    if forall n: nat | n <= |trace| :: Online(m, true, trace, n) == Offline(m, trace, n) {
      forall n: nat | n < |trace| && EnteredLast(m, trace, n) ensures Highest(m, trace[n].next) == |m.states| - 1 {
        assert Online(m, true, trace, n + 1) == Offline(m, trace, n + 1);
      }
    }
    if forall n: nat | n < |trace| && EnteredLast(m, trace, n) :: Highest(m, trace[n].next) == |m.states| - 1 {
      forall n: nat | n <= |trace| ensures Online(m, true, trace, n) == Offline(m, trace, n) {
        if n > 0 && EnteredLast(m, trace, n - 1) {
          assert Highest(m, trace[n - 1].next) == |m.states| - 1;
        }
      }
    }
  }

  /** A state of another name enters `s`. */
  ghost predicate EnteredElsewhere(m: Machine, name: string, s: State) {
    exists i :: 0 <= i < |m.states| && m.states[i] != name && Enters(m, i, s)
  }

  /** What a machine enters once a state is added, whether its name is new or not: a name in use
      gets the new predicate everywhere. */
  lemma AddedEnters(m: Machine, pred: Predicate, name: string, s: State)
    requires |m.states| > 0
    ensures Highest(Added(m, pred, name), s) >= 0 <==> pred(s) || EnteredElsewhere(m, name, s)
  {
    var m', l := Added(m, pred, name), |m.states| - 1;
    assert forall i | 0 <= i < l :: m'.states[i] == m.states[i];
    assert m'.states[l] == name && m'.states[l + 1] == m.states[l];
    assert Enters(m', l, s) == pred(s);
    var p := Highest(m', s);
    if p >= 0 && !pred(s) {
      var i := if p == l + 1 then l else p;
      assert m.states[i] != name && Enters(m, i, s);
    }
    if i :| 0 <= i < |m.states| && m.states[i] != name && Enters(m, i, s) {
      assert Enters(m', if i == l then l + 1 else i, s);
    }
  }

  /** Adding a state under any name, to any machine, leaves tracker and analyzer in agreement
      exactly when every state satisfies the new predicate or enters a state of another name. */
  lemma AgreeAfterAdding(m: Machine, pred: Predicate, name: string)
    requires |m.states| > 0
    ensures AlwaysAgree(Added(m, pred, name)) <==> forall s :: pred(s) || EnteredElsewhere(m, name, s)
  {
    hide Highest, AlwaysAgree, EnteredElsewhere;
    AgreeIffTotal(Added(m, pred, name));
    forall s ensures Highest(Added(m, pred, name), s) >= 0 <==> pred(s) || EnteredElsewhere(m, name, s) {
      AddedEnters(m, pred, name, s);
    }
  }

  /** Adding a state under the name of the first one overrides its predicate: the agreement survives
      exactly when every state satisfies the new predicate or enters a later state. */
  lemma OverriddenInit(m: Machine, pred: Predicate)
    requires WellFormed(m)
    ensures AlwaysAgree(Added(m, pred, INIT)) <==> forall s :: pred(s) || exists i | 0 < i < |m.states| :: Enters(m, i, s)
  {
    hide Highest, AlwaysAgree;
    AgreeAfterAdding(m, pred, INIT);
    assert forall s :: EnteredElsewhere(m, INIT, s) <==> exists i | 0 < i < |m.states| :: Enters(m, i, s);
  }

  /** An episode on which they disagree after such an addition. */
  lemma OverriddenInitExample()
    ensures var m := Added(Machine([INIT, FINAL], map[INIT := TruePred, FINAL := (s: State) => false]), _ => false, INIT);
            var trace := [Transition(State("a", 0), "x", State("b", 0))];
            Online(m, false, trace, 1) != Offline(m, trace, 1)
  {
    var m := Added(Machine([INIT, FINAL], map[INIT := TruePred, FINAL := (s: State) => false]), _ => false, INIT);
    assert m.states == [INIT, INIT, FINAL];
    assert forall i, s | 0 <= i < 3 :: !Enters(m, i, s);
  }

  // ----- segments -----

  /** The step the tracker records for transition `i`. */
  function StepOf(m: Machine, oneTime: bool, trace: seq<Transition>, i: nat): RmStep
    requires i < |trace| && |m.states| > 0
  {
    var before, after := Online(m, oneTime, trace, i), Highest(m, trace[i].next);
    var moves := !(oneTime && EnteredLast(m, trace, i));
    RmStep(trace[i], moves && after > before, moves && after >= 0 && after != before)
  }

  function Appended(segments: Segments, name: string, step: RmStep): Segments {
    segments[name := (if name in segments then segments[name] else []) + [step]]
  }

  /** The segments after `n` transitions. */
  function SegmentsOf(m: Machine, oneTime: bool, trace: seq<Transition>, n: nat): Segments
    requires n <= |trace| && |m.states| > 0
  {
    if n == 0 then map[]
    else Appended(SegmentsOf(m, oneTime, trace, n - 1), m.states[Online(m, oneTime, trace, n - 1)], StepOf(m, oneTime, trace, n - 1))
  }

  /** The transitions taken in state `name`, in order. */
  function TakenIn(m: Machine, oneTime: bool, trace: seq<Transition>, n: nat, name: string): (taken: seq<nat>)
    requires n <= |trace| && |m.states| > 0
    ensures forall k | 0 <= k < |taken| :: taken[k] < n
  {
    if n == 0 then []
    else TakenIn(m, oneTime, trace, n - 1, name) + if m.states[Online(m, oneTime, trace, n - 1)] == name then [n - 1] else []
  }

  function StepsOf(m: Machine, oneTime: bool, trace: seq<Transition>, taken: seq<nat>): seq<RmStep>
    requires |m.states| > 0 && forall k | 0 <= k < |taken| :: taken[k] < |trace|
  {
    seq(|taken|, k requires 0 <= k < |taken| => StepOf(m, oneTime, trace, taken[k]))
  }

  /** The names of the states the analyzer marks as visited. */
  function Visited(m: Machine, trace: seq<Transition>, n: nat): set<string>
    requires n <= |trace| && trace != [] && |m.states| > 0
  {
    if n == 0 then {} else Visited(m, trace, n - 1) + {m.states[Offline(m, trace, n - 1)]}
  }

  predicate Increasing(xs: seq<nat>) {
    forall j, k | 0 <= j < k < |xs| :: xs[j] < xs[k]
  }

  lemma {:induction false} TakenMeans(m: Machine, oneTime: bool, trace: seq<Transition>, n: nat, name: string)
    requires n <= |trace| && |m.states| > 0
    ensures forall i :: i in TakenIn(m, oneTime, trace, n, name) <==> 0 <= i < n && m.states[Online(m, oneTime, trace, i)] == name
    ensures Increasing(TakenIn(m, oneTime, trace, n, name))
  {
    hide Online;
    if n > 0 {
      TakenMeans(m, oneTime, trace, n - 1, name);
    }
  }

  /** The steps recorded for a state are those of the transitions taken in it. */
  lemma {:induction false} RecordedSteps(m: Machine, oneTime: bool, trace: seq<Transition>, n: nat, name: string)
    requires n <= |trace| && |m.states| > 0
    ensures Recorded(m, oneTime, trace, n, name) == StepsOf(m, oneTime, trace, TakenIn(m, oneTime, trace, n, name))
  {
    hide Online, StepOf;
    if n > 0 {
      RecordedSteps(m, oneTime, trace, n - 1, name);
      StepsOfNext(m, oneTime, trace, TakenIn(m, oneTime, trace, n - 1, name), n - 1);
    }
  }

  function Recorded(m: Machine, oneTime: bool, trace: seq<Transition>, n: nat, name: string): seq<RmStep>
    requires n <= |trace| && |m.states| > 0
  {
    if n == 0 then []
    else
      Recorded(m, oneTime, trace, n - 1, name) +
      if m.states[Online(m, oneTime, trace, n - 1)] == name then [StepOf(m, oneTime, trace, n - 1)] else []
  }

  lemma {:induction false} SegmentsRecord(m: Machine, oneTime: bool, trace: seq<Transition>, n: nat, name: string)
    requires n <= |trace| && |m.states| > 0
    ensures name in SegmentsOf(m, oneTime, trace, n) <==> Recorded(m, oneTime, trace, n, name) != []
    ensures name in SegmentsOf(m, oneTime, trace, n) ==> SegmentsOf(m, oneTime, trace, n)[name] == Recorded(m, oneTime, trace, n, name)
  {
    hide Online, StepOf, Appended;
    if n > 0 {
      SegmentsRecord(m, oneTime, trace, n - 1, name);
      AppendedMeans(SegmentsOf(m, oneTime, trace, n - 1), m.states[Online(m, oneTime, trace, n - 1)],
                    StepOf(m, oneTime, trace, n - 1), name);
    }
  }

  /** The segments split the episode: the segment of a state holds exactly the transitions taken in
      that state, in order, so every transition is in the one segment of the state it was taken in. */
  lemma {:induction false} SegmentsSplit(m: Machine, oneTime: bool, trace: seq<Transition>, n: nat, name: string)
    requires n <= |trace| && |m.states| > 0
    ensures name in SegmentsOf(m, oneTime, trace, n) <==> TakenIn(m, oneTime, trace, n, name) != []
    ensures name in SegmentsOf(m, oneTime, trace, n) ==>
              SegmentsOf(m, oneTime, trace, n)[name] == StepsOf(m, oneTime, trace, TakenIn(m, oneTime, trace, n, name))
  {
    TakenMeans(m, oneTime, trace, n, name);
    RecordedSteps(m, oneTime, trace, n, name);
    SegmentsRecord(m, oneTime, trace, n, name);
  }

  lemma AppendedMeans(segments: Segments, at: string, step: RmStep, name: string)
    ensures name in Appended(segments, at, step) <==> name in segments || name == at
    ensures name in segments && name != at ==> Appended(segments, at, step)[name] == segments[name]
    ensures name == at ==> Appended(segments, at, step)[name] == (if name in segments then segments[name] else []) + [step]
  {
  }

  lemma StepsOfNext(m: Machine, oneTime: bool, trace: seq<Transition>, taken: seq<nat>, i: nat)
    requires |m.states| > 0 && i < |trace| && forall k | 0 <= k < |taken| :: taken[k] < |trace|
    ensures StepsOf(m, oneTime, trace, taken + [i]) == StepsOf(m, oneTime, trace, taken) + [StepOf(m, oneTime, trace, i)]
  {
  }

  lemma {:induction false} SegmentsVisited(m: Machine, trace: seq<Transition>, n: nat)
    requires n <= |trace| && trace != [] && |m.states| > 0 && Total(m)
    ensures SegmentsOf(m, false, trace, n).Keys == Visited(m, trace, n)
  {
    if n > 0 {
      SegmentsVisited(m, trace, n - 1);
    }
  }

  /** On a total machine the reward of a transition is true exactly when the position rises. */
  lemma RewardMeansProgress(m: Machine, trace: seq<Transition>, i: nat)
    requires i < |trace| && |m.states| > 0 && Total(m)
    ensures StepOf(m, false, trace, i).reward <==> Offline(m, trace, i + 1) > Offline(m, trace, i)
    ensures StepOf(m, false, trace, i).outOfSpace <==> Offline(m, trace, i + 1) != Offline(m, trace, i)
  {
  }

  // ----- the tracker -----

  /** The last position whose predicate holds, or -1. */
  method SearchDown(rm: RewardMachine, s: State) returns (p: int)
    ensures p == Highest(rm.Model(), s)
  {
    p := |rm.states| - 1;
    while p >= 0
      invariant -1 <= p < |rm.states|
      invariant forall k | p < k < |rm.states| :: !Enters(rm.Model(), k, s)
      decreases p
    {
      var rmState := rm.states[p];
      if rmState in rm.predicates && rm.predicates[rmState](s) {
        break;
      }
      p := p - 1;
    }
    HighestIs(rm.Model(), s, p);
  }

  /** Adds a step to the segment of a state, starting the segment if there is none. */
  method AppendStep(segments: Segments, name: string, step: RmStep) returns (r: Segments)
    ensures r == Appended(segments, name, step)
  {
    r := segments;
    if name !in r {
      r := r[name := []];
    }
    r := r[name := r[name] + [step]];
  }

  class RewardMachinePolicy {
    const rm: RewardMachine
    const oneTime: bool
    var curRMState: string
    var curRmStatePos: int
    var reached: bool
    var curTraceSegments: Segments

    /** The position is one of the machine's and the state is the one there. */
    predicate Valid()
      reads this, rm
    {
      0 <= curRmStatePos < |rm.states| && curRMState == rm.states[curRmStatePos]
    }

    constructor (rm: RewardMachine, oneTime: bool)
      requires |rm.states| > 0 && rm.states[0] == INIT
      ensures this.rm == rm && this.oneTime == oneTime && Valid()
      ensures curRmStatePos == 0 && !reached && curTraceSegments == map[]
    {
      this.rm, this.oneTime := rm, oneTime;
      curRMState, curRmStatePos, reached, curTraceSegments := INIT, 0, false, map[];
    }

    /** The part of choosing an action that moves the machine: at the first step it is set from the
        state the episode starts in. */
    method BeforeAction(step: nat, state: State) returns (policy: string)
      requires Valid()
      modifies this`curRMState, this`curRmStatePos
      ensures Valid() && policy == curRMState
      ensures curRmStatePos == if step == 0 && Highest(rm.Model(), state) >= 0 then Highest(rm.Model(), state) else old(curRmStatePos)
    {
      if step == 0 {
        var i := SearchDown(rm, state);
        if i >= 0 {
          curRMState, curRmStatePos := rm.states[i], i;
        }
      }
      policy := curRMState;
    }

    /** Moves the machine and records the transition under the state it was taken in. */
    method Update(transition: Transition)
      requires Valid()
      modifies this
      ensures Valid()
      ensures var top := Highest(rm.Model(), transition.next);
              var last := |rm.states| - 1;
              && curRmStatePos == (if old(reached) || top < 0 then last else top)
              && (reached <==> old(reached) || (oneTime && top == last))
              && curTraceSegments == Appended(old(curTraceSegments), old(curRMState),
                   RmStep(transition, !old(reached) && top > old(curRmStatePos),
                          !old(reached) && top >= 0 && top != old(curRmStatePos)))
    {
      hide Enters, Highest;
      var reward, outOfSpace := false, false;
      var newPosition := |rm.states| - 1;
      var newState := rm.states[newPosition];
      if !reached {
        var i := SearchDown(rm, transition.next);
        if i >= 0 {
          reward := i > curRmStatePos;
          outOfSpace := i != curRmStatePos;
          newPosition, newState := i, rm.states[i];
          if oneTime && newPosition == |rm.states| - 1 {
            reached := true;
          }
        }
      }
      hide Appended;
      curTraceSegments := AppendStep(curTraceSegments, curRMState, RmStep(transition, reward, outOfSpace));
      curRMState, curRmStatePos := newState, newPosition;
    }

    /** Hands every segment to the policy of its state, in any order, and starts over. */
    method UpdateIteration() returns (handed: seq<(string, seq<RmStep>)>)
      requires Valid() && rm.states[0] == INIT
      modifies this
      ensures Valid() && curRmStatePos == 0 && !reached && curTraceSegments == map[]
      ensures |handed| == |old(curTraceSegments)|
      ensures forall name | name in old(curTraceSegments) :: (name, old(curTraceSegments)[name]) in handed
    {
      handed := [];
      var rest := curTraceSegments.Keys;
      while rest != {}
        invariant rest <= curTraceSegments.Keys && curTraceSegments == old(curTraceSegments)
        invariant |handed| + |rest| == |curTraceSegments.Keys|
        invariant forall name | name in curTraceSegments && name !in rest :: (name, curTraceSegments[name]) in handed
        decreases |rest|
      {
        var name :| name in rest;
        handed, rest := handed + [(name, curTraceSegments[name])], rest - {name};
      }
      assert |curTraceSegments| == |curTraceSegments.Keys|;
      curRMState, curRmStatePos, curTraceSegments, reached := INIT, 0, map[], false;
    }

    /** An episode as the agent runs it: choose, step, update. */
    method FollowEpisode(trace: seq<Transition>)
      requires Valid() && curRmStatePos == 0 && curTraceSegments == map[] && !reached
      requires trace != [] && forall i | 0 < i < |trace| :: trace[i].state == trace[i - 1].next
      modifies this
      ensures Valid() && curRmStatePos == Online(rm.Model(), oneTime, trace, |trace|)
      ensures curTraceSegments == SegmentsOf(rm.Model(), oneTime, trace, |trace|)
    {
      hide Highest, Appended;
      for i := 0 to |trace|
        invariant Valid() && (reached <==> oneTime && EnteredLast(rm.Model(), trace, i))
        invariant curRmStatePos == if i == 0 then 0 else Online(rm.Model(), oneTime, trace, i)
        invariant curTraceSegments == SegmentsOf(rm.Model(), oneTime, trace, i)
      {
        var _ := BeforeAction(i, trace[i].state);
        Update(trace[i]);
      }
    }
  }

  // ----- the analyzer -----

  datatype Dataset = Dataset(visits: map<string, nat>, finalStates: set<string>, first: int, accuracy: real)

  /** Whether the episode entered the final state within its first `n` transitions. */
  predicate ReachedBy(m: Machine, trace: seq<Transition>, n: nat)
    requires n <= |trace| && trace != []
  {
    var s := if n == 0 then trace[0].state else trace[n - 1].next;
    (Highest(m, s) >= 0 && m.states[Highest(m, s)] == FINAL) || (n > 0 && ReachedBy(m, trace, n - 1))
  }

  /** The states counted as explored in the final part of the episode. */
  function FinalSeen(m: Machine, oneTime: bool, trace: seq<Transition>, n: nat): set<string>
    requires n <= |trace| && trace != [] && FINAL in m.predicates
  {
    if n == 0 then {}
    else
      FinalSeen(m, oneTime, trace, n - 1) +
      if ReachedBy(m, trace, n) && (oneTime || m.predicates[FINAL](trace[n - 1].next)) then {trace[n - 1].next.hash} else {}
  }

  /** For a machine that is not one-time these are exactly the next states that satisfy the final predicate. */
  lemma {:induction false} FinalSeenMeans(m: Machine, trace: seq<Transition>, n: nat)
    requires n <= |trace| && trace != [] && WellFormed(m)
    ensures FinalSeen(m, false, trace, n) == set i | 0 <= i < n && m.predicates[FINAL](trace[i].next) :: trace[i].next.hash
  {
    if n > 0 {
      FinalSeenMeans(m, trace, n - 1);
      if m.predicates[FINAL](trace[n - 1].next) {
        assert Enters(m, |m.states| - 1, trace[n - 1].next);
      }
    }
  }

  /** An episode reaches the final state exactly when one of its states satisfies the final predicate. */
  lemma {:induction false} ReachedMeans(m: Machine, trace: seq<Transition>, n: nat)
    requires n <= |trace| && trace != [] && WellFormed(m)
    ensures ReachedBy(m, trace, n) <==> exists k :: 0 <= k <= n && m.predicates[FINAL](StateAt(trace, k))
  {
    var s := StateAt(trace, n);
    assert Enters(m, |m.states| - 1, s) == m.predicates[FINAL](s);
    if n > 0 {
      ReachedMeans(m, trace, n - 1);
    }
  }

  /** For a one-time machine every next state counts from the first that reaches the final state on. */
  lemma {:induction false} FinalSeenOnce(m: Machine, trace: seq<Transition>, n: nat)
    requires n <= |trace| && trace != [] && WellFormed(m)
    ensures FinalSeen(m, true, trace, n) ==
            set i | 0 <= i < n && (exists k :: 0 <= k <= i + 1 && m.predicates[FINAL](StateAt(trace, k))) :: trace[i].next.hash
  {
    if n > 0 {
      FinalSeenOnce(m, trace, n - 1);
      ReachedMeans(m, trace, n);
    }
  }

  predicate Reaches(m: Machine, trace: seq<Transition>)
    requires trace != []
  {
    ReachedBy(m, trace, |trace|)
  }

  function VisitCount(m: Machine, traces: seq<seq<Transition>>, name: string): nat
    requires |m.states| > 0 && forall i | 0 <= i < |traces| :: traces[i] != []
  {
    if traces == [] then 0
    else
      var l := |traces| - 1;
      VisitCount(m, traces[..l], name) + if name in Visited(m, traces[l], |traces[l]|) then 1 else 0
  }

  function ReachCount(m: Machine, traces: seq<seq<Transition>>): nat
    requires forall i | 0 <= i < |traces| :: traces[i] != []
  {
    if traces == [] then 0
    else
      var l := |traces| - 1;
      ReachCount(m, traces[..l]) + if Reaches(m, traces[l]) then 1 else 0
  }

  /** The numbers of the episodes that visit a state. */
  function Visiting(m: Machine, traces: seq<seq<Transition>>, name: string): set<nat>
    requires |m.states| > 0 && forall i | 0 <= i < |traces| :: traces[i] != []
  {
    set i: nat | i < |traces| && name in Visited(m, traces[i], |traces[i]|)
  }

  function Reaching(m: Machine, traces: seq<seq<Transition>>): set<nat>
    requires forall i | 0 <= i < |traces| :: traces[i] != []
  {
    set i: nat | i < |traces| && Reaches(m, traces[i])
  }

  lemma {:induction false} VisitCountMeans(m: Machine, traces: seq<seq<Transition>>, name: string)
    requires |m.states| > 0 && forall i | 0 <= i < |traces| :: traces[i] != []
    ensures VisitCount(m, traces, name) == |Visiting(m, traces, name)|
  {
    hide Visited;
    if traces != [] {
      var l := |traces| - 1;
      VisitCountMeans(m, traces[..l], name);
      assert Visiting(m, traces, name)
          == Visiting(m, traces[..l], name) + if name in Visited(m, traces[l], |traces[l]|) then {l} else {};
    }
  }

  lemma {:induction false} ReachCountMeans(m: Machine, traces: seq<seq<Transition>>)
    requires forall i | 0 <= i < |traces| :: traces[i] != []
    ensures ReachCount(m, traces) == |Reaching(m, traces)|
  {
    hide Reaches;
    if traces != [] {
      var l := |traces| - 1;
      ReachCountMeans(m, traces[..l]);
      assert Reaching(m, traces) == Reaching(m, traces[..l]) + if Reaches(m, traces[l]) then {l} else {};
    }
  }

  /** `first` is the index of the first episode that reaches the final state, or -1. */
  predicate IsFirst(m: Machine, traces: seq<seq<Transition>>, first: int)
    requires forall i | 0 <= i < |traces| :: traces[i] != []
  {
    && -1 <= first < |traces|
    && (first >= 0 ==> Reaches(m, traces[first]))
    && forall i | 0 <= i < (if first < 0 then |traces| else first) :: !Reaches(m, traces[i])
  }

  /** No more episodes reach the final state than there are from the first that does. */
  lemma {:induction false} ReachBound(m: Machine, traces: seq<seq<Transition>>, first: int)
    requires forall i | 0 <= i < |traces| :: traces[i] != []
    requires IsFirst(m, traces, first)
    ensures if first < 0 then ReachCount(m, traces) == 0 else 1 <= ReachCount(m, traces) <= |traces| - first
  {
    if traces != [] {
      var l := |traces| - 1;
      assert forall i | 0 <= i < l :: traces[..l][i] == traces[i];
      ReachBound(m, traces[..l], if first == l then -1 else first);
    }
  }

  /** Walks one recorded episode. */
  method AnalyzeTrace(rm: RewardMachine, oneTime: bool, trace: seq<Transition>, seen: set<string>)
    returns (visited: set<string>, seen': set<string>, reached: bool)
    requires trace != [] && |rm.states| > 0 && FINAL in rm.predicates
    ensures visited == Visited(rm.Model(), trace, |trace|)
    ensures seen' == seen + FinalSeen(rm.Model(), oneTime, trace, |trace|)
    ensures reached <==> Reaches(rm.Model(), trace)
  {
    hide Enters, Highest;
    visited, seen' := {}, seen;
    var top := SearchDown(rm, trace[0].state);
    var position := if top >= 0 then top else 0;
    reached := top >= 0 && rm.states[top] == FINAL;
    for i := 0 to |trace|
      invariant position == Offline(rm.Model(), trace, i)
      invariant visited == Visited(rm.Model(), trace, i)
      invariant seen' == seen + FinalSeen(rm.Model(), oneTime, trace, i)
      invariant reached <==> ReachedBy(rm.Model(), trace, i)
    {
      visited := visited + {rm.states[position]};
      top := SearchDown(rm, trace[i].next);
      if top >= 0 {
        position := top;
        if rm.states[top] == FINAL {
          reached := true;
        }
      }
      if reached && (oneTime || rm.predicates[FINAL](trace[i].next)) {
        seen' := seen' + {trace[i].next.hash};
      }
    }
  }

  /** Adds one visit to every state of an episode. */
  method CountVisits(visits: map<string, nat>, visited: set<string>) returns (r: map<string, nat>)
    ensures forall name :: Times(r, name) == Times(visits, name) + if name in visited then 1 else 0
  {
    r := visits;
    var rest := visited;
    while rest != {}
      invariant rest <= visited
      invariant forall name :: Times(r, name) == Times(visits, name) + if name in visited - rest then 1 else 0
      decreases |rest|
    {
      var name :| name in rest;
      rest := rest - {name};
      r := r[name := Times(r, name) + 1];
    }
  }

  function Times(visits: map<string, nat>, name: string): nat {
    if name in visits then visits[name] else 0
  }

  function AllFinalSeen(m: Machine, oneTime: bool, traces: seq<seq<Transition>>): set<string>
    requires FINAL in m.predicates && forall i | 0 <= i < |traces| :: traces[i] != []
  {
    if traces == [] then {}
    else
      var l := |traces| - 1;
      AllFinalSeen(m, oneTime, traces[..l]) + FinalSeen(m, oneTime, traces[l], |traces[l]|)
  }

  /** Analyzes all episodes of a run. */
  method Analyze(rm: RewardMachine, oneTime: bool, traces: seq<seq<Transition>>) returns (ds: Dataset)
    requires |rm.states| > 0 && FINAL in rm.predicates && forall i | 0 <= i < |traces| :: traces[i] != []
    ensures forall name :: Times(ds.visits, name) == VisitCount(rm.Model(), traces, name)
    ensures ds.finalStates == AllFinalSeen(rm.Model(), oneTime, traces)
    ensures IsFirst(rm.Model(), traces, ds.first)
    ensures if ds.first < 0 then ds.accuracy == 0.0
            else 0.0 < ds.accuracy <= 1.0 && ds.accuracy * (|traces| - ds.first) as real == ReachCount(rm.Model(), traces) as real
  {
    hide Visited, FinalSeen, ReachedBy, Reaches, VisitCount, ReachCount, AllFinalSeen, IsFirst;
    var visits: map<string, nat>, seen: set<string>, first: int, total: nat := map[], {}, -1, 0;
    NoEpisodes(rm.Model(), oneTime);
    for i := 0 to |traces|
      invariant forall name :: Times(visits, name) == VisitCount(rm.Model(), traces[..i], name)
      invariant seen == AllFinalSeen(rm.Model(), oneTime, traces[..i])
      invariant -1 <= first < i && IsFirst(rm.Model(), traces[..i], first) && total == ReachCount(rm.Model(), traces[..i])
    {
      NextEpisode(rm.Model(), oneTime, traces, i, first);
      var visited, reached;
      visited, seen, reached := AnalyzeTrace(rm, oneTime, traces[i], seen);
      visits := CountVisits(visits, visited);
      if reached {
        if first == -1 {
          first := i;
        }
        total := total + 1;
      }
    }
    assert traces[..|traces|] == traces;
    ReachBound(rm.Model(), traces, first);
    var accuracy := 0.0;
    if first != -1 {
      accuracy := total as real / (|traces| - first) as real;
      Fraction(total, |traces| - first);
    }
    ds := Dataset(visits, seen, first, accuracy);
  }

  lemma NoEpisodes(m: Machine, oneTime: bool)
    requires |m.states| > 0 && FINAL in m.predicates
    ensures forall name :: VisitCount(m, [], name) == 0
    ensures ReachCount(m, []) == 0 && AllFinalSeen(m, oneTime, []) == {} && IsFirst(m, [], -1)
  {
  }

  /** What one more episode adds. */
  lemma NextEpisode(m: Machine, oneTime: bool, traces: seq<seq<Transition>>, i: nat, first: int)
    requires |m.states| > 0 && FINAL in m.predicates && forall k | 0 <= k < |traces| :: traces[k] != []
    requires i < |traces| && -1 <= first < i && IsFirst(m, traces[..i], first)
    ensures forall name :: VisitCount(m, traces[..i + 1], name) ==
              VisitCount(m, traces[..i], name) + if name in Visited(m, traces[i], |traces[i]|) then 1 else 0
    ensures ReachCount(m, traces[..i + 1]) == ReachCount(m, traces[..i]) + if Reaches(m, traces[i]) then 1 else 0
    ensures AllFinalSeen(m, oneTime, traces[..i + 1]) ==
              AllFinalSeen(m, oneTime, traces[..i]) + FinalSeen(m, oneTime, traces[i], |traces[i]|)
    ensures IsFirst(m, traces[..i + 1], if first == -1 && Reaches(m, traces[i]) then i else first)
  {
    hide Visited, FinalSeen, ReachedBy, Reaches;
    assert traces[..i + 1][..i] == traces[..i];
    assert forall k | 0 <= k < i :: traces[..i + 1][k] == traces[..i][k];
  }

  lemma Fraction(a: nat, b: nat)
    requires 1 <= a <= b
    ensures 0.0 < a as real / b as real <= 1.0 && (a as real / b as real) * b as real == a as real
  {
  }

  /** What the tracker recorded online and what the analyzer finds in the recorded episode: the
      same states, for a total machine that is not one-time, such as any built with fresh names. */
  method TrackAndAnalyze(rp: RewardMachinePolicy, trace: seq<Transition>) returns (visited: set<string>)
    requires rp.Valid() && rp.curRmStatePos == 0 && rp.curTraceSegments == map[] && !rp.reached && !rp.oneTime
    requires |rp.rm.states| > 0 && FINAL in rp.rm.predicates && Total(rp.rm.Model())
    requires trace != [] && forall i | 0 < i < |trace| :: trace[i].state == trace[i - 1].next
    modifies rp
    ensures visited == rp.curTraceSegments.Keys
    ensures rp.curTraceSegments == SegmentsOf(rp.rm.Model(), false, trace, |trace|)
  {
    rp.FollowEpisode(trace);
    var seen, reached;
    visited, seen, reached := AnalyzeTrace(rp.rm, false, trace, {});
    SegmentsVisited(rp.rm.Model(), trace, |trace|);
  }
}
