/** The two checks run over traces, proved against what they look for, and what the
    protocol's safety says about their verdicts. */
module RslBugs {
  import opened RslTypes
  import opened RslNodeSpec
  import opened RslSystem
  import opened RslInvariant
  import opened RslSafety

  type States = map<nat, NodeState>

  // ----- multiple primaries -----

  /** Two primaries whose accepted proposals carry the same ballot number. */
  ghost predicate TwoPrimaries(states: States) {
    exists a, b :: IsPrimaryOf(states, a) && IsPrimaryOf(states, b) && a != b
                   && states[a].local.maxAccepted.ballot.num == states[b].local.maxAccepted.ballot.num
  }

  predicate IsPrimaryOf(states: States, a: nat) {
    a in states && states[a].local.state == StablePrimary
  }

  method PrimariesClash(states: States) returns (clash: bool)
    ensures clash <==> TwoPrimaries(states)
  {
    var primaries: map<int, nat> := map[];
    var todo := states.Keys;
    while todo != {}
      invariant todo <= states.Keys
      invariant forall k | k in primaries ::
          IsPrimaryOf(states, primaries[k]) && primaries[k] !in todo
          && states[primaries[k]].local.maxAccepted.ballot.num == k
      invariant forall a | IsPrimaryOf(states, a) && a !in todo ::
          && states[a].local.maxAccepted.ballot.num in primaries
          && primaries[states[a].local.maxAccepted.ballot.num] == a
      decreases |todo|
    {
      var node :| node in todo;
      todo := todo - {node};
      if states[node].local.state == StablePrimary {
        var ballot := states[node].local.maxAccepted.ballot.num;
        if ballot in primaries {
          assert IsPrimaryOf(states, node) && IsPrimaryOf(states, primaries[ballot]);
          return true;
        }
        primaries := primaries[ballot := node];
      }
    }
    clash := false;
  }

  /** Scans a trace for the first state with two primaries of one ballot number. */
  method MultiplePrimaries(trace: seq<States>) returns (found: bool, at: int)
    ensures found ==> 0 <= at < |trace| && TwoPrimaries(trace[at]) && forall i | 0 <= i < at :: !TwoPrimaries(trace[i])
    ensures !found ==> at == -1 && forall i | 0 <= i < |trace| :: !TwoPrimaries(trace[i])
  {
    for i := 0 to |trace|
      invariant forall j | 0 <= j < i :: !TwoPrimaries(trace[j])
    {
      var clash := PrimariesClash(trace[i]);
      if clash {
        return true, i;
      }
    }
    return false, -1;
  }

  /** No reachable state of the cluster has two primaries of one ballot number, so the scan
      never reports on a run without restarts. */
  lemma NeverTwoPrimaries(config: NodeConfig, sys: System)
    requires Reachable(config, sys)
    ensures !TwoPrimaries(sys.nodes)
  {
    hide Reachable;
    forall a, b | IsPrimaryOf(sys.nodes, a) && IsPrimaryOf(sys.nodes, b)
                  && sys.nodes[a].local.maxAccepted.ballot.num == sys.nodes[b].local.maxAccepted.ballot.num
      ensures a == b
    {
      NoTwoPrimaries(config, sys, a, b);
    }
  }

  // ----- inconsistent logs -----

  type DecidedLogs = map<nat, seq<Command>>

  ghost predicate DisagreeAt(logs: DecidedLogs, a: nat, b: nat, j: int) {
    a in logs && b in logs && 0 <= j < |logs[a]| && j < |logs[b]| && logs[a][j] != logs[b][j]
  }

  /** Two nodes hold different commands at the same index of their decided logs. */
  ghost predicate IndexDisagreement(logs: DecidedLogs) {
    exists a, b, j :: DisagreeAt(logs, a, b, j)
  }

  /** The distinct commands the logs hold at index `j`. */
  function CommandsAt(logs: DecidedLogs, nodes: set<nat>, j: nat): set<Command>
    requires nodes <= logs.Keys
  {
    set n | n in nodes && j < |logs[n]| :: logs[n][j]
  }

  lemma SeveralMeansDisagreement(logs: DecidedLogs, j: nat)
    ensures |CommandsAt(logs, logs.Keys, j)| > 1 <==> exists a, b :: DisagreeAt(logs, a, b, j)
  {
    var found := CommandsAt(logs, logs.Keys, j);
    if |found| > 1 {
      var c :| c in found;
      assert |found - {c}| > 0;
      var d :| d in found - {c};
      var a :| a in logs && j < |logs[a]| && logs[a][j] == c;
      var b :| b in logs && j < |logs[b]| && logs[b][j] == d;
      assert DisagreeAt(logs, a, b, j);
    }
    if a, b :| DisagreeAt(logs, a, b, j) {
      var c, d := logs[a][j], logs[b][j];
      assert {c, d} <= found;
      assert found == {c, d} + (found - {c, d});
      assert |{c, d}| == 2;
    }
  }

  method LongestLog(logs: DecidedLogs) returns (maxLogLength: nat)
    ensures forall n | n in logs :: |logs[n]| <= maxLogLength
    ensures maxLogLength == 0 || exists n :: n in logs && |logs[n]| == maxLogLength
  {
    maxLogLength := 0;
    var todo := logs.Keys;
    while todo != {}
      invariant todo <= logs.Keys
      invariant forall n | n in logs && n !in todo :: |logs[n]| <= maxLogLength
      invariant maxLogLength == 0 || exists n :: n in logs && |logs[n]| == maxLogLength
      decreases |todo|
    {
      var n :| n in todo;
      todo := todo - {n};
      if |logs[n]| > maxLogLength {
        maxLogLength := |logs[n]|;
      }
    }
  }

  method CollectCommands(logs: DecidedLogs, j: nat) returns (commands: set<Command>)
    ensures commands == CommandsAt(logs, logs.Keys, j)
  {
    commands := {};
    var todo := logs.Keys;
    while todo != {}
      invariant todo <= logs.Keys
      invariant commands == CommandsAt(logs, logs.Keys - todo, j)
      decreases |todo|
    {
      var n :| n in todo;
      todo := todo - {n};
      if j < |logs[n]| {
        commands := commands + {logs[n][j]};
      }
    }
    assert logs.Keys - todo == logs.Keys;
  }

  method InconsistentLogState(logs: DecidedLogs) returns (bad: bool)
    ensures bad <==> IndexDisagreement(logs)
  {
    var maxLogLength := LongestLog(logs);
    for j := 0 to maxLogLength
      invariant forall a, b, i | DisagreeAt(logs, a, b, i) :: i >= j
    {
      var commands := CollectCommands(logs, j);
      SeveralMeansDisagreement(logs, j);
      if |commands| > 1 {
        return true;
      }
    }
    bad := false;
  }

  function DecidedOf(states: States): DecidedLogs {
    map n | n in states :: states[n].log.decided
  }

  /** Node `n` executed some decree twice in a row. */
  ghost predicate Reexecuted(s: NodeState) {
    exists i :: 0 <= i < |s.log.decidedAt| - 1 && s.log.decidedAt[i] == s.log.decidedAt[i + 1]
  }

  lemma {:induction false} StepByStep(at: seq<int>, i: nat)
    requires DecreesInOrder(at) && i < |at|
    requires forall k | 0 <= k < |at| - 1 :: at[k] != at[k + 1]
    ensures at[i] == i
  {
    if i > 0 {
      StepByStep(at, i - 1);
      assert at[i - 1] != at[i - 1 + 1];
    }
  }

  /** The index-by-index comparison reports only when some node has executed a decree twice:
      on runs where none has, it stays silent. */
  lemma AlarmMeansReexecution(config: NodeConfig, sys: System)
    requires Reachable(config, sys)
    requires IndexDisagreement(DecidedOf(sys.nodes))
    ensures exists n :: n in sys.nodes && Reexecuted(sys.nodes[n])
  {
    hide Reachable;
    var logs := DecidedOf(sys.nodes);
    var a, b, j :| DisagreeAt(logs, a, b, j);
    ExecutedInOrder(config, sys, a);
    ExecutedInOrder(config, sys, b);
    if !Reexecuted(sys.nodes[a]) && !Reexecuted(sys.nodes[b]) {
      StepByStep(sys.nodes[a].log.decidedAt, j);
      StepByStep(sys.nodes[b].log.decidedAt, j);
      Agreement(config, sys, a, j, b, j);
    }
  }

  /** The decided log with repeated executions of a decree dropped. */
  function FirstExecutions(decided: seq<Command>, at: seq<int>): seq<Command>
    requires |decided| == |at|
  {
    if at == [] then []
    else
      var n := |at| - 1;
      var before := FirstExecutions(decided[..n], at[..n]);
      if n > 0 && at[n] == at[n - 1] then before else before + [decided[n]]
  }

  lemma InOrderPrefix(at: seq<int>, n: nat)
    requires DecreesInOrder(at) && n <= |at|
    ensures DecreesInOrder(at[..n])
  {
  }

  lemma {:induction false} DistilledLength(decided: seq<Command>, at: seq<int>)
    requires |decided| == |at| && DecreesInOrder(at)
    ensures |FirstExecutions(decided, at)| == if at == [] then 0 else at[|at| - 1] + 1
  {
    if at != [] {
      var n := |at| - 1;
      InOrderPrefix(at, n);
      DistilledLength(decided[..n], at[..n]);
    }
  }

  /** Position `d` of the distilled log holds what was executed for decree `d`. */
  lemma {:induction false} FirstExecutionOf(decided: seq<Command>, at: seq<int>, d: nat) returns (i: nat)
    requires |decided| == |at| && DecreesInOrder(at)
    requires d < |FirstExecutions(decided, at)|
    ensures i < |at| && at[i] == d && FirstExecutions(decided, at)[d] == decided[i]
  {
    var n := |at| - 1;
    InOrderPrefix(at, n);
    DistilledLength(decided[..n], at[..n]);
    if d < |FirstExecutions(decided[..n], at[..n])| {
      i := FirstExecutionOf(decided[..n], at[..n], d);
    } else {
      i := n;
    }
  }

  /** Distilled logs agree index by index on all nodes: re-execution is the only source of
      the differences the comparison can see. */
  lemma DistilledLogsAgree(config: NodeConfig, sys: System, a: nat, b: nat, d: nat)
    requires Reachable(config, sys) && a in sys.nodes && b in sys.nodes
    requires |sys.nodes[a].log.decided| == |sys.nodes[a].log.decidedAt|
    requires |sys.nodes[b].log.decided| == |sys.nodes[b].log.decidedAt|
    requires d < |FirstExecutions(sys.nodes[a].log.decided, sys.nodes[a].log.decidedAt)|
    requires d < |FirstExecutions(sys.nodes[b].log.decided, sys.nodes[b].log.decidedAt)|
    ensures FirstExecutions(sys.nodes[a].log.decided, sys.nodes[a].log.decidedAt)[d]
         == FirstExecutions(sys.nodes[b].log.decided, sys.nodes[b].log.decidedAt)[d]
  {
    hide Reachable;
    var la, lb := sys.nodes[a].log, sys.nodes[b].log;
    ExecutedInOrder(config, sys, a);
    ExecutedInOrder(config, sys, b);
    var i := FirstExecutionOf(la.decided, la.decidedAt, d);
    var j := FirstExecutionOf(lb.decided, lb.decidedAt, d);
    Agreement(config, sys, a, i, b, j);
  }

  // ----- exactly when the comparison reports -----

  /** How many of the executions up to number `j` did the decree of the one before again. */
  function RepeatsUpTo(at: seq<int>, j: nat): nat
    requires j < |at|
  {
    if j == 0 then 0 else RepeatsUpTo(at, j - 1) + if at[j] == at[j - 1] then 1 else 0
  }

  /** Execution `j` is late by one decree for every repetition so far. */
  lemma {:induction false} LateByRepeats(at: seq<int>, j: nat)
    requires DecreesInOrder(at) && j < |at|
    ensures at[j] == j - RepeatsUpTo(at, j) && RepeatsUpTo(at, j) <= j
  {
    if j > 0 {
      LateByRepeats(at, j - 1);
      assert at[j - 1] <= at[j - 1 + 1] <= at[j - 1] + 1;
    } else {
      assert at[0] == 0;
    }
  }

  /** One command per decree, of which every node has executed a first part. */
  ghost predicate IsAgreedLog(states: States, agreed: seq<Command>) {
    forall n | n in states ::
      && |states[n].log.decided| == |states[n].log.decidedAt|
      && FirstExecutions(states[n].log.decided, states[n].log.decidedAt) <= agreed
  }

  lemma {:induction false} AgreedAmong(config: NodeConfig, sys: System, some: set<nat>) returns (agreed: seq<Command>)
    requires Reachable(config, sys) && some <= sys.nodes.Keys
    ensures forall n | n in some :: |sys.nodes[n].log.decided| == |sys.nodes[n].log.decidedAt|
    ensures forall n | n in some :: FirstExecutions(sys.nodes[n].log.decided, sys.nodes[n].log.decidedAt) <= agreed
    ensures agreed == [] || exists n :: n in some && agreed == FirstExecutions(sys.nodes[n].log.decided, sys.nodes[n].log.decidedAt)
    decreases |some|
  {
    hide Reachable, FirstExecutions;
    if some == {} {
      agreed := [];
    } else {
      var n :| n in some;
      var rest := AgreedAmong(config, sys, some - {n});
      ExecutedInOrder(config, sys, n);
      var mine := FirstExecutions(sys.nodes[n].log.decided, sys.nodes[n].log.decidedAt);
      if rest != [] {
        var k :| k in some - {n} && rest == FirstExecutions(sys.nodes[k].log.decided, sys.nodes[k].log.decidedAt);
        forall d: nat | d < |mine| && d < |rest| ensures mine[d] == rest[d] {
          DistilledLogsAgree(config, sys, n, k, d);
        }
      }
      agreed := if |mine| > |rest| then mine else rest;
    }
  }

  lemma AgreedLogExists(config: NodeConfig, sys: System) returns (agreed: seq<Command>)
    requires Reachable(config, sys)
    ensures IsAgreedLog(sys.nodes, agreed)
  {
    hide Reachable, FirstExecutions;
    agreed := AgreedAmong(config, sys, sys.nodes.Keys);
  }

  /** Execution number `j` of a node is of the agreed command of the decree it has come to. */
  lemma ExecutesAgreed(config: NodeConfig, sys: System, agreed: seq<Command>, n: nat, j: nat)
    requires Reachable(config, sys) && IsAgreedLog(sys.nodes, agreed)
    requires n in sys.nodes && j < |sys.nodes[n].log.decided|
    ensures var at := sys.nodes[n].log.decidedAt;
            && j < |at| && RepeatsUpTo(at, j) <= j && j - RepeatsUpTo(at, j) < |agreed|
            && at[j] == j - RepeatsUpTo(at, j)
            && sys.nodes[n].log.decided[j] == agreed[j - RepeatsUpTo(at, j)]
  {
    hide Reachable;
    var decided, at := sys.nodes[n].log.decided, sys.nodes[n].log.decidedAt;
    ExecutedInOrder(config, sys, n);
    LateByRepeats(at, j);
    DistilledLength(decided, at);
    NeverPastLast(at, j);
    var i := FirstExecutionOf(decided, at, at[j]);
    Agreement(config, sys, n, i, n, j);
  }

  lemma {:induction false} NeverPastLast(at: seq<int>, j: nat)
    requires DecreesInOrder(at) && j < |at|
    ensures at[j] <= at[|at| - 1]
    decreases |at| - j
  {
    if j < |at| - 1 {
      assert at[j] <= at[j + 1];
      NeverPastLast(at, j + 1);
    }
  }

  /** Two nodes have reached index `j` with so many repetitions each that the agreed log holds
      different commands where they have come to. */
  ghost predicate ShiftedApart(states: States, agreed: seq<Command>, a: nat, b: nat, j: nat) {
    && a in states && b in states && j < |states[a].log.decidedAt| && j < |states[b].log.decidedAt|
    && var i, k := j - RepeatsUpTo(states[a].log.decidedAt, j), j - RepeatsUpTo(states[b].log.decidedAt, j);
       0 <= i < |agreed| && 0 <= k < |agreed| && agreed[i] != agreed[k]
  }

  /** The comparison reports exactly when repetitions have shifted two nodes apart. */
  lemma AlarmExactly(config: NodeConfig, sys: System, agreed: seq<Command>)
    requires Reachable(config, sys) && IsAgreedLog(sys.nodes, agreed)
    ensures IndexDisagreement(DecidedOf(sys.nodes)) <==> exists a: nat, b: nat, j: nat :: ShiftedApart(sys.nodes, agreed, a, b, j)
  {
    hide Reachable, FirstExecutions;
    var logs := DecidedOf(sys.nodes);
    if IndexDisagreement(logs) {
      var a, b, j :| DisagreeAt(logs, a, b, j);
      ExecutesAgreed(config, sys, agreed, a, j);
      ExecutesAgreed(config, sys, agreed, b, j);
      assert ShiftedApart(sys.nodes, agreed, a, b, j);
    }
    if a: nat, b: nat, j: nat :| ShiftedApart(sys.nodes, agreed, a, b, j) {
      ExecutesAgreed(config, sys, agreed, a, j);
      ExecutesAgreed(config, sys, agreed, b, j);
      assert DisagreeAt(logs, a, b, j);
    }
  }

  /** Different decrees were decided on different commands. */
  ghost predicate OneDecreePerCommand(states: States) {
    forall a: nat, i: nat, b: nat, j: nat | DisagreeInDecree(states, a, i, b, j) :: states[a].log.decided[i] != states[b].log.decided[j]
  }

  ghost predicate DisagreeInDecree(states: States, a: nat, i: nat, b: nat, j: nat) {
    && a in states && i < |states[a].log.decidedAt| && i < |states[a].log.decided|
    && b in states && j < |states[b].log.decidedAt| && j < |states[b].log.decided|
    && states[a].log.decidedAt[i] != states[b].log.decidedAt[j]
  }

  /** When no command is decided twice, the comparison reports exactly when two nodes have reached
      the same index after a different number of repetitions. */
  lemma AlarmByRepetitions(config: NodeConfig, sys: System)
    requires Reachable(config, sys) && OneDecreePerCommand(sys.nodes)
    ensures IndexDisagreement(DecidedOf(sys.nodes)) <==>
            exists a, b, j: nat ::
              && a in sys.nodes && b in sys.nodes
              && j < |sys.nodes[a].log.decidedAt| && j < |sys.nodes[b].log.decidedAt|
              && RepeatsUpTo(sys.nodes[a].log.decidedAt, j) != RepeatsUpTo(sys.nodes[b].log.decidedAt, j)
  {
    hide Reachable, FirstExecutions, RepeatsUpTo;
    var agreed := AgreedLogExists(config, sys);
    var logs := DecidedOf(sys.nodes);
    if IndexDisagreement(logs) {
      var a, b, j :| DisagreeAt(logs, a, b, j);
      ExecutesAgreed(config, sys, agreed, a, j);
      ExecutesAgreed(config, sys, agreed, b, j);
    }
    if a, b, j: nat :| && a in sys.nodes && b in sys.nodes
                       && j < |sys.nodes[a].log.decidedAt| && j < |sys.nodes[b].log.decidedAt|
                       && RepeatsUpTo(sys.nodes[a].log.decidedAt, j) != RepeatsUpTo(sys.nodes[b].log.decidedAt, j) {
      ExecutesAgreed(config, sys, agreed, a, j);
      ExecutesAgreed(config, sys, agreed, b, j);
      assert DisagreeInDecree(sys.nodes, a, j, b, j);
      assert DisagreeAt(logs, a, b, j);
    }
  }
}
