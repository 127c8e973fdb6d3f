/** When a node executes, and what it has executed along a run. */
module RslExecution {
  import opened RslTypes
  import opened RslNodeSpec
  import opened RslSystem
  import opened RslInvariant
  import opened RslVotes
  import opened RslSafety

  // ----- one step -----

  ghost predicate SameDecided(s: NodeState, t: NodeState) {
    t.log.decided == s.log.decided && t.log.decidedAt == s.log.decidedAt
  }

  /** `t` has executed what `s` has, and then the proposal `s` had accepted. */
  ghost predicate ExecutedAccepted(s: NodeState, t: NodeState) {
    && t.log.decided == s.log.decided + [s.local.maxAccepted.command]
    && t.log.decidedAt == s.log.decidedAt + [s.local.maxAccepted.decree]
  }

  ghost predicate DecidedGrows(s: NodeState, t: NodeState) {
    s.log.decided <= t.log.decided && s.log.decidedAt <= t.log.decidedAt
  }

  /** A follower is asked to move on to the next decree under the ballot it accepted. */
  predicate FollowsOn(s: NodeState, m: Message) {
    && m.kind == AcceptReq && m.ballot.node == m.from && m.from != s.id
    && s.local.state != Inactive && s.local.state != Initializing
    && s.local.maxAccepted.ballot.num <= s.local.maxPrepared.num <= m.ballot.num
    && m.decree == s.local.maxAccepted.decree + 1 && m.ballot.num == s.local.maxAccepted.ballot.num
  }

  /** The owner of a ballot gets the vote that completes a majority for its proposal. */
  predicate WinsVote(s: NodeState, m: Message) {
    && m.kind == AcceptResp && m.accept && IsStable(s) && !s.readyToPropose
    && s.local.maxPrepared.node == s.id && s.local.maxPrepared.num == m.ballot.num == s.local.maxAccepted.ballot.num
    && s.local.maxAccepted.decree == m.decree
    && IsMajority(s, |s.remoteStates.Keys + {m.from}| + 1)
  }

  lemma QuietCalls(s: NodeState)
    ensures SameDecided(s, Initialize(s)) && SameDecided(s, PrepareBallot(s)) && SameDecided(s, SendNextCommand(s))
  {
  }

  lemma TickExecutesNothing(s: NodeState)
    ensures SameDecided(s, Tick(s))
  {
    hide Initialize, PrepareBallot, SendNextCommand;
    var t := s.(timers := s.timers.(ticks := Wrap64(s.timers.ticks + 1)));
    QuietCalls(t);
    QuietCalls(TickElection(t));
    QuietCalls(TickHeartBeat(TickElection(t)));
  }

  lemma AcceptRequestExecutes(s: NodeState, m: Message)
    requires s.local.state != Inactive && m.kind == AcceptReq
    ensures var t := HandleAcceptRequest(s, m);
            if FollowsOn(s, m) then ExecutedAccepted(s, t) else SameDecided(s, t)
  {
    hide Copies, Wrap64;
  }

  lemma AcceptResponseExecutes(s: NodeState, m: Message)
    requires s.local.state != Inactive && m.kind == AcceptResp && m.accept
    ensures var t := HandleAcceptResponse(s, m);
            if WinsVote(s, m) then ExecutedAccepted(s, t) else SameDecided(s, t)
  {
    assert RecordVote(s, m).remoteStates.Keys == s.remoteStates.Keys + {m.from};
    assert |RecordVote(s, m).remoteStates| == |RecordVote(s, m).remoteStates.Keys|;
  }

  lemma QuietPrepares(s: NodeState, m: Message)
    ensures SameDecided(s, HandlePrepareRequest(s, m)) && SameDecided(s, HandlePrepareResponse(s, m))
  {
    hide Copies, Wrap64;
  }

  lemma QuietStatuses(s: NodeState, m: Message, draw: nat)
    ensures SameDecided(s, HandleStatusRequest(s, m)) && SameDecided(s, HandleStatusResponse(s, m, draw))
  {
    hide Copies, Wrap64, MaxChosenTime;
  }

  lemma QuietRefusal(s: NodeState, m: Message)
    ensures SameDecided(s, HandleNotAccept(s, m)) && SameDecided(s, HandleFetchRequest(s, m))
  {
    hide Copies, Wrap64;
  }

  /** A delivered message makes a node execute exactly in these two cases, and then exactly the
      proposal it had accepted. Fetch answers are the subject of `FetchNeverAccepts`. */
  lemma StepExecutes(s: NodeState, m: Message, draw: nat)
    requires m.kind != FetchResp
    ensures if FollowsOn(s, m) || WinsVote(s, m) then ExecutedAccepted(s, Step(s, m, draw)) else SameDecided(s, Step(s, m, draw))
  {
    hide HandleAcceptRequest, HandleAcceptResponse, HandleNotAccept, HandleFetchRequest, HandlePrepareRequest,
      HandlePrepareResponse, HandleStatusRequest, HandleStatusResponse, HandleFetchResponse;
    QuietPrepares(s, m);
    QuietStatuses(s, m, draw);
    QuietRefusal(s, m);
    if s.local.state != Inactive && m.kind == AcceptReq {
      AcceptRequestExecutes(s, m);
    } else if s.local.state != Inactive && m.kind == AcceptResp && m.accept {
      AcceptResponseExecutes(s, m);
    }
  }

  /** What an event makes a node execute in a reachable state. */
  lemma MoveExecutes(config: NodeConfig, sys: System, e: Event)
    requires Reachable(config, sys) && Enabled(sys, e)
    ensures var s, t := sys.nodes[Site(e)], Move(sys.nodes[Site(e)], e);
            if e.Deliver? && (FollowsOn(s, e.m) || WinsVote(s, e.m)) then ExecutedAccepted(s, t) else SameDecided(s, t)
  {
    hide Reachable, Step, Tick, DrawOk;
    var s := sys.nodes[Site(e)];
    match e
    case TickNode(_) => TickExecutesNothing(s);
    case Submit(_, _) =>
    case Collect(_) =>
    case Deliver(m, draw) =>
      if m.kind != FetchResp {
        StepExecutes(s, m, draw);
      } else {
        FetchExecutesNothing(config, sys, m, draw);
      }
  }

  lemma FetchExecutesNothing(config: NodeConfig, sys: System, m: Message, draw: nat)
    requires Reachable(config, sys) && m in sys.sent && m.kind == FetchResp
    ensures m.to in sys.nodes && SameDecided(sys.nodes[m.to], Step(sys.nodes[m.to], m, draw))
  {
    hide Reachable, HandleFetchResponse, Initialize;
    FetchNeverAccepts(config, sys, m);
    InitializeKeepsLog(sys.nodes[m.to]);
  }

  // ----- executing a decree again -----

  /** The step executes the decree executed last once more. */
  ghost predicate Repeats(s: NodeState, t: NodeState) {
    && |t.log.decidedAt| > |s.log.decidedAt| > 0
    && t.log.decidedAt[|s.log.decidedAt|] == s.log.decidedAt[|s.log.decidedAt| - 1]
  }

  /** A step repeats a decree exactly when it executes at a node that has already executed the
      decree it accepted: a former primary that follows on past it, or a primary that wins the vote
      for it again after another election. */
  lemma RepeatsExactlyWhen(config: NodeConfig, sys: System, e: Event)
    requires Reachable(config, sys) && Enabled(sys, e)
    ensures var s := sys.nodes[Site(e)];
            Repeats(s, Move(s, e)) <==>
            && e.Deliver? && (FollowsOn(s, e.m) || WinsVote(s, e.m))
            && CaughtUp(s.log.decidedAt, s.local.maxAccepted.decree)
  {
    hide Reachable, Enabled, Move, FollowsOn, WinsVote;
    MoveExecutes(config, sys, e);
  }

  /** Winning an election keeps the accepted decree and what was executed, and takes the proposal
      up for voting again. */
  lemma ElectionReopens(s: NodeState, m: Message)
    requires s.local.state == Preparing && HandlePrepareResponse(s, m).local.state == StablePrimary
    requires s.local.oldFreshest.decree == s.local.maxAccepted.decree
    ensures var t := HandlePrepareResponse(s, m);
            && !t.readyToPropose && SameDecided(s, t) && t.local.maxAccepted.decree == s.local.maxAccepted.decree
            && (CaughtUp(s.log.decidedAt, s.local.maxAccepted.decree) ==> CaughtUp(t.log.decidedAt, t.local.maxAccepted.decree))
  {
    hide Copies, Wrap64;
  }

  // ----- a whole run -----

  lemma {:induction false} ExecutionDecides(config: NodeConfig, trace: seq<System>, events: seq<Event>, i: nat, j: nat, n: nat)
    requires Execution(config, trace, events) && i <= j <= |events| && n in trace[i].nodes
    ensures n in trace[j].nodes && DecidedGrows(trace[i].nodes[n], trace[j].nodes[n])
    decreases j
  {
    hide Init, Move, Enabled;
    if i < j {
      ExecutionDecides(config, trace, events, i, j - 1, n);
      assert Next(trace[j - 1], events[j - 1], trace[j - 1 + 1]);
      assert Execution(config, trace[..j], events[..j - 1]);
      assert Reachable(config, trace[j - 1]) by {
        assert trace[..j][|events[..j - 1]|] == trace[j - 1];
      }
      hide Reachable;
      MoveExecutes(config, trace[j - 1], events[j - 1]);
    }
  }

  /** Two executions of one decree, on any nodes and at any two moments of a run, are of the same
      command. */
  lemma AgreementOverRun(config: NodeConfig, trace: seq<System>, events: seq<Event>,
                         i: nat, n1: nat, p: nat, j: nat, n2: nat, q: nat)
    requires Execution(config, trace, events) && i <= |events| && j <= |events|
    requires n1 in trace[i].nodes && n2 in trace[j].nodes
    requires p < |trace[i].nodes[n1].log.decided| && p < |trace[i].nodes[n1].log.decidedAt|
    requires q < |trace[j].nodes[n2].log.decided| && q < |trace[j].nodes[n2].log.decidedAt|
    requires trace[i].nodes[n1].log.decidedAt[p] == trace[j].nodes[n2].log.decidedAt[q]
    ensures trace[i].nodes[n1].log.decided[p] == trace[j].nodes[n2].log.decided[q]
  {
    hide Init, Next;
    var last := trace[|events|];
    assert Reachable(config, last);
    ExecutionDecides(config, trace, events, i, |events|, n1);
    ExecutionDecides(config, trace, events, j, |events|, n2);
    hide Reachable, Execution;
    Agreement(config, last, n1, p, n2, q);
  }
}
