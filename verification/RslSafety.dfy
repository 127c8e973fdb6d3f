/** Safety of the cluster over every run. */
module RslSafety {
  import opened RslTypes
  import opened RslNodeSpec
  import opened RslSystem
  import opened RslInvariant
  import opened RslVotes
  import opened RslGrowth
  import opened RslSteps
  import opened RslHandlers

  // ----- the invariant holds in every reachable state -----

  lemma StartOk(logs: Logs, config: NodeConfig, n: nat)
    requires n in Peers(config) && logs.Keys == Peers(config)
    requires logs[n] == []
    ensures NodeOk(logs, Peers(config), Start(FreshNode(n, config)))
    ensures Start(FreshNode(n, config)).log.entries == [] && Start(FreshNode(n, config)).id == n
  {
    hide Initialize, StateOk;
    var s := FreshNode(n, config);
    var t := s.(timers := s.timers.(action := MAX_INT, nextElection := MAX_INT, lastChosen := 0,
                                    noProgress := config.noProgressTimeout));
    assert CoreOk(logs, Peers(config), t);
    InitializeOk(logs, Peers(config), t);
    InitializeKeepsLog(t);
  }

  lemma InitializeKeepsLog(s: NodeState)
    ensures Initialize(s).log == s.log && Initialize(s).id == s.id
  {
  }

  lemma FlushedOk(logs: Logs, peers: set<nat>, s: NodeState)
    requires NodeOk(logs, peers, s)
    ensures NodeOk(logs, peers, s.(pending := []))
    ensures forall m | m in PendingOf(s) :: MsgOk(logs, m)
  {
    hide LogOk, DecidedOk, CandidateOk, CountOk, PrimaryOk, MsgOk;
  }

  lemma InitInv(config: NodeConfig, sys: System)
    requires Init(config, sys)
    ensures Inv(Peers(config), sys)
  {
    hide NodeOk, Start, MsgOk, FreshNode;
    var logs, peers := LogsOf(sys.nodes), Peers(config);
    forall n | n in sys.nodes ensures sys.nodes[n].log.entries == [] {
      StartOk(map p | p in peers :: [], config, n);
    }
    forall n | n in sys.nodes ensures sys.nodes[n].id == n && NodeOk(logs, peers, sys.nodes[n]) {
      StartOk(logs, config, n);
    }
    assert LogsOk(logs, peers);
  }

  /** Installing a good move of one node keeps the invariant of the whole cluster. */
  lemma FlushInv(peers: set<nat>, sys: System, n: nat, s': NodeState)
    requires Inv(peers, sys) && n in sys.nodes
    requires Good(LogsOf(sys.nodes), peers, sys.nodes[n], s')
    ensures Inv(peers, Flush(sys, n, s'))
  {
    hide NodeOk, LogsOk, MsgOk, Grows;
    var logs := LogsOf(sys.nodes);
    var logs' := logs[n := s'.log.entries];
    var sys' := Flush(sys, n, s');
    assert LogsOf(sys'.nodes) == logs';
    forall p | p in sys'.nodes
      ensures sys'.nodes[p].id == p && NodeOk(logs', peers, sys'.nodes[p])
    {
      if p == n {
        FlushedOk(logs', peers, s');
      } else {
        NodeKept(logs, logs', peers, sys.nodes[p]);
      }
    }
    forall m | m in sys'.sent ensures MsgOk(logs', m) {
      if m in sys.sent {
        MsgKept(logs, logs', m);
      } else {
        FlushedOk(logs', peers, s');
      }
    }
  }

  lemma ReadyInSystem(peers: set<nat>, sys: System, n: nat)
    requires Inv(peers, sys) && n in sys.nodes
    ensures Ready(LogsOf(sys.nodes), peers, sys.nodes[n]) && sys.nodes[n].id == n
    ensures forall m | m in sys.sent :: MsgOk(LogsOf(sys.nodes), m)
  {
    hide NodeOk, LogsOk, MsgOk;
  }

  lemma StayGood(logs: Logs, peers: set<nat>, s: NodeState)
    requires Ready(logs, peers, s)
    ensures Good(logs, peers, s, s)
  {
    hide NodeOk, LogsOk, Grows;
    GoodInPlace(logs, peers, s, s);
  }

  lemma MoveGood(logs: Logs, peers: set<nat>, s: NodeState, e: Event)
    requires Ready(logs, peers, s) && PlainEvent(e) && Site(e) == s.id
    requires e.Deliver? ==> MsgOk(logs, e.m) && DrawOk(s, e.m, e.draw)
    ensures Good(logs, peers, s, Move(s, e))
  {
    hide Ready, Good, Step, Tick, Propose, DrawOk, MsgOk;
    match e
    case Deliver(m, draw) => StepGood(logs, peers, s, m, draw);
    case TickNode(_) => TickGood(logs, peers, s);
    case Submit(_, c) => ProposeGood(logs, peers, s, c);
    case Collect(_) => StayGood(logs, peers, s);
  }

  lemma NextInv(peers: set<nat>, sys: System, e: Event, sys': System)
    requires Inv(peers, sys) && Next(sys, e, sys') && PlainEvent(e)
    ensures Inv(peers, sys')
    ensures Grows(LogsOf(sys.nodes), LogsOf(sys'.nodes))
  {
    hide Inv, Ready, Move, DrawOk, MsgOk, LogsOk, NodeOk;
    var n := Site(e);
    var s' := Move(sys.nodes[n], e);
    ReadyInSystem(peers, sys, n);
    MoveGood(LogsOf(sys.nodes), peers, sys.nodes[n], e);
    FlushInv(peers, sys, n, s');
    assert LogsOf(sys'.nodes) == LogsOf(sys.nodes)[n := s'.log.entries];
  }

  lemma {:induction false} ExecutionInv(config: NodeConfig, trace: seq<System>, events: seq<Event>, i: nat)
    requires Execution(config, trace, events) && i <= |events|
    ensures Inv(Peers(config), trace[i])
  {
    hide Inv, Next, Init;
    if i == 0 {
      InitInv(config, trace[0]);
    } else {
      ExecutionInv(config, trace, events, i - 1);
      NextInv(Peers(config), trace[i - 1], events[i - 1], trace[i]);
    }
  }

  lemma {:induction false} ExecutionGrows(config: NodeConfig, trace: seq<System>, events: seq<Event>, i: nat, j: nat)
    requires Execution(config, trace, events) && i <= j <= |events|
    ensures Grows(LogsOf(trace[i].nodes), LogsOf(trace[j].nodes))
    decreases j
  {
    hide Inv, Next, Init;
    if i < j {
      ExecutionGrows(config, trace, events, i, j - 1);
      ExecutionInv(config, trace, events, j - 1);
      NextInv(Peers(config), trace[j - 1], events[j - 1], trace[j]);
    }
  }

  lemma ReachableInv(config: NodeConfig, sys: System)
    requires Reachable(config, sys)
    ensures Inv(Peers(config), sys)
  {
    hide Inv, Next, Init;
    var trace, events :| Execution(config, trace, events) && trace[|events|] == sys;
    ExecutionInv(config, trace, events, |events|);
  }

  // ----- agreement -----

  /** In a reachable state, two executions of the same decree, on any nodes, are of the same command.
      `RslExecution.AgreementOverRun` compares any two moments of a run. */
  lemma Agreement(config: NodeConfig, sys: System, n1: nat, i: nat, n2: nat, j: nat)
    requires Reachable(config, sys)
    requires n1 in sys.nodes && n2 in sys.nodes
    requires i < |sys.nodes[n1].log.decided| && j < |sys.nodes[n2].log.decided|
    requires |sys.nodes[n1].log.decidedAt| > i && |sys.nodes[n2].log.decidedAt| > j
    requires sys.nodes[n1].log.decidedAt[i] == sys.nodes[n2].log.decidedAt[j]
    ensures sys.nodes[n1].log.decided[i] == sys.nodes[n2].log.decided[j]
  {
    hide Reachable, LogsOk, LogOk, PendingOk, StateOk, MsgOk, Decreed;
    ReachableInv(config, sys);
    DecreedAgree(LogsOf(sys.nodes), Peers(config), sys.nodes[n1].log.decidedAt[i],
                 sys.nodes[n1].log.decided[i], sys.nodes[n2].log.decided[j]);
  }

  /** Each node executes decrees from zero on, never going back and never skipping one, and
      has executed every decree before the one it has accepted. */
  lemma ExecutedInOrder(config: NodeConfig, sys: System, n: nat)
    requires Reachable(config, sys) && n in sys.nodes
    ensures var log, d := sys.nodes[n].log, sys.nodes[n].local.maxAccepted.decree;
            && |log.decidedAt| == |log.decided|
            && (|log.decidedAt| > 0 ==> log.decidedAt[0] == 0)
            && (forall i | 0 <= i < |log.decidedAt| - 1 ::
                  log.decidedAt[i] <= log.decidedAt[i + 1] <= log.decidedAt[i] + 1)
            && (if log.decidedAt == [] then d == 0 else d - 1 <= log.decidedAt[|log.decidedAt| - 1] <= d)
  {
    hide Reachable, LogsOk, LogOk, PendingOk, StateOk, MsgOk, Decreed;
    ReachableInv(config, sys);
  }

  // ----- proposals -----

  /** All requests to accept under one ballot number come from one node, and for one decree
      they carry one command. */
  lemma OneCommandPerSlot(config: NodeConfig, sys: System, m1: Message, m2: Message)
    requires Reachable(config, sys)
    requires m1 in sys.sent && m1.kind == AcceptReq && m2 in sys.sent && m2.kind == AcceptReq
    requires m1.ballot.num == m2.ballot.num
    ensures m1.from == m2.from
    ensures m1.decree == m2.decree ==> m1.command == m2.command
  {
    hide Reachable, LogsOk, NodeOk;
    ReachableInv(config, sys);
    var logs, peers := LogsOf(sys.nodes), Peers(config);
    var e1, e2 := Accept(ProposalIn(m1)), Accept(ProposalIn(m2));
    assert Own(logs, m1.from, e1) && Own(logs, m2.from, e2);
    SameOwner(logs, peers, m1.from, e1, m2.from, e2);
    if m1.decree == m2.decree {
      SameSlot(logs, peers, m1.from, e1, m2.from, e2);
    }
  }

  /** Once a majority has logged a command as accepted, every request to accept under a higher
      ballot number is for the same decree or a later one, and repeats it for the same decree. */
  lemma ChosenValuePersists(config: NodeConfig, sys: System, k: int, d: int, c: Command, m: Message)
    requires Reachable(config, sys)
    requires Chosen(LogsOf(sys.nodes), Peers(config), k, d, c)
    requires m in sys.sent && m.kind == AcceptReq && m.ballot.num > k
    ensures m.decree >= d
    ensures m.decree == d ==> m.command == c
  {
    hide Reachable, LogsOk, NodeOk, Chosen;
    ReachableInv(config, sys);
    assert Own(LogsOf(sys.nodes), m.from, Accept(ProposalIn(m)));
    ChosenPersists(LogsOf(sys.nodes), Peers(config), k, d, c, Accept(ProposalIn(m)));
  }

  // ----- primaries -----

  /** Event `i` of the run makes a node primary: it is in the majority branch of the handler. */
  ghost predicate Wins(trace: seq<System>, events: seq<Event>, i: nat, n: nat, k: int)
    requires |trace| == |events| + 1 && i < |events|
  {
    && n in trace[i].nodes && n in trace[i + 1].nodes
    && trace[i].nodes[n].local.state == Preparing
    && trace[i + 1].nodes[n].local.state == StablePrimary
    && trace[i + 1].nodes[n].local.maxPrepared.num == k
  }

  /** A primary has logged a proposal under its own ballot, which it holds both as prepared
      and as accepted. */
  lemma PrimaryOwnsBallot(peers: set<nat>, sys: System, n: nat)
    requires Inv(peers, sys) && n in sys.nodes && sys.nodes[n].local.state == StablePrimary
    ensures var acc := sys.nodes[n].local.maxAccepted;
            && acc.ballot == sys.nodes[n].local.maxPrepared && acc.ballot.node == n
            && Own(LogsOf(sys.nodes), n, Accept(acc))
  {
    hide LogsOk, PendingOk, DecidedOk, MsgOk, Chosen, Ordered, Gapless, Bounded;
  }

  /** Election safety: whatever two elections a run contains, equal ballot numbers mean one winner. */
  lemma ElectionSafety(config: NodeConfig, trace: seq<System>, events: seq<Event>,
                       i: nat, n1: nat, j: nat, n2: nat, k: int)
    requires Execution(config, trace, events) && i < |events| && j < |events|
    requires Wins(trace, events, i, n1, k) && Wins(trace, events, j, n2, k)
    ensures n1 == n2
  {
    hide Next, Init, LogsOk, NodeOk, MsgOk, Own, Inv;
    var logs := LogsOf(trace[|events|].nodes);
    ExecutionInv(config, trace, events, i + 1);
    ExecutionInv(config, trace, events, j + 1);
    ExecutionInv(config, trace, events, |events|);
    ExecutionGrows(config, trace, events, i + 1, |events|);
    ExecutionGrows(config, trace, events, j + 1, |events|);
    PrimaryOwnsBallot(Peers(config), trace[i + 1], n1);
    PrimaryOwnsBallot(Peers(config), trace[j + 1], n2);
    var e1 := Accept(trace[i + 1].nodes[n1].local.maxAccepted);
    var e2 := Accept(trace[j + 1].nodes[n2].local.maxAccepted);
    OwnStays(LogsOf(trace[i + 1].nodes), logs, n1, e1);
    OwnStays(LogsOf(trace[j + 1].nodes), logs, n2, e2);
    LogsInSystem(Peers(config), trace[|events|]);
    SameOwner(logs, Peers(config), n1, e1, n2, e2);
  }

  lemma OwnStays(logs: Logs, logs': Logs, o: nat, e: Entry)
    requires Grows(logs, logs') && Own(logs, o, e)
    ensures Own(logs', o, e)
  {
    assert logs[o] <= logs'[o];
  }

  lemma LogsInSystem(peers: set<nat>, sys: System)
    requires Inv(peers, sys)
    ensures LogsOk(LogsOf(sys.nodes), peers)
  {
  }

  lemma OnePrimary(peers: set<nat>, sys: System, n1: nat, n2: nat)
    requires Inv(peers, sys) && n1 in sys.nodes && n2 in sys.nodes
    requires sys.nodes[n1].local.state == StablePrimary && sys.nodes[n2].local.state == StablePrimary
    requires sys.nodes[n1].local.maxAccepted.ballot.num == sys.nodes[n2].local.maxAccepted.ballot.num
    ensures n1 == n2
  {
    hide LogsOk, Inv, Own;
    PrimaryOwnsBallot(peers, sys, n1);
    PrimaryOwnsBallot(peers, sys, n2);
    LogsInSystem(peers, sys);
    SameOwner(LogsOf(sys.nodes), peers, n1, Accept(sys.nodes[n1].local.maxAccepted),
              n2, Accept(sys.nodes[n2].local.maxAccepted));
  }

  /** Two primaries never hold an accepted proposal of the same ballot number. */
  lemma NoTwoPrimaries(config: NodeConfig, sys: System, n1: nat, n2: nat)
    requires Reachable(config, sys) && n1 in sys.nodes && n2 in sys.nodes
    requires sys.nodes[n1].local.state == StablePrimary && sys.nodes[n2].local.state == StablePrimary
    requires sys.nodes[n1].local.maxAccepted.ballot.num == sys.nodes[n2].local.maxAccepted.ballot.num
    ensures n1 == n2
  {
    hide Reachable, Inv;
    ReachableInv(config, sys);
    OnePrimary(Peers(config), sys, n1, n2);
  }

  // ----- the log -----

  lemma InvReplays(peers: set<nat>, sys: System, n: nat)
    requires Inv(peers, sys) && n in sys.nodes
    ensures LogOk(sys.nodes[n].log.entries, sys.nodes[n].local.maxAccepted, sys.nodes[n].local.maxPrepared)
  {
    hide LogsOk, LogOk, DecidedOk, PendingOk, StateOk, MsgOk;
  }

  /** Replaying a node's log from empty rebuilds exactly what it has accepted and prepared. */
  lemma LogReplays(config: NodeConfig, sys: System, n: nat)
    requires Reachable(config, sys) && n in sys.nodes
    ensures var s := sys.nodes[n];
            && s.local.maxAccepted == ReplayAccepted(s.log.entries)
            && s.local.maxPrepared == ReplayPrepared(s.log.entries)
            && s.local.maxPrepared.num >= s.local.maxAccepted.ballot.num
            && Ordered(s.log.entries) && Gapless(s.log.entries)
  {
    hide Reachable, Inv;
    ReachableInv(config, sys);
    InvReplays(Peers(config), sys, n);
  }

  lemma {:induction false} ReplayedBallotRises(log: Entries, log': Entries)
    requires log <= log'
    ensures ReplayPrepared(log') == ReplayPrepared(log) || ReplayPrepared(log').num > ReplayPrepared(log).num
    decreases |log'|
  {
    if |log| < |log'| {
      ReplayedBallotRises(log, log'[..|log'| - 1]);
    } else {
      assert log' == log;
    }
  }

  /** Along a run a node's prepared ballot changes only to one of a higher number. */
  lemma PreparedBallotRises(config: NodeConfig, trace: seq<System>, events: seq<Event>, i: nat, j: nat, n: nat)
    requires Execution(config, trace, events) && i <= j <= |events|
    requires n in trace[i].nodes && n in trace[j].nodes
    ensures var b, b' := trace[i].nodes[n].local.maxPrepared, trace[j].nodes[n].local.maxPrepared;
            b' == b || b'.num > b.num
  {
    hide Next, Init, Inv;
    ExecutionInv(config, trace, events, i);
    ExecutionInv(config, trace, events, j);
    ExecutionGrows(config, trace, events, i, j);
    InvReplays(Peers(config), trace[i], n);
    InvReplays(Peers(config), trace[j], n);
    assert LogsOf(trace[i].nodes)[n] <= LogsOf(trace[j].nodes)[n];
    ReplayedBallotRises(trace[i].nodes[n].log.entries, trace[j].nodes[n].log.entries);
  }

  /** Delivering a fetch response never changes what a node has accepted, prepared or executed. */
  lemma FetchNeverAccepts(config: NodeConfig, sys: System, m: Message)
    requires Reachable(config, sys) && m in sys.sent && m.kind == FetchResp
    ensures m.to in sys.nodes
    ensures var s := sys.nodes[m.to];
            || HandleFetchResponse(s, m) == s
            || HandleFetchResponse(s, m) == s.(learningFrom := 0)
            || (m.proposals == [] && HandleFetchResponse(s, m) == Initialize(s).(learningFrom := 0))
  {
    hide Reachable, LogsOk, NodeOk, HandleFetchResponse, Initialize;
    ReachableInv(config, sys);
    FetchChangesNothing(LogsOf(sys.nodes), Peers(config), sys.nodes[m.to], m);
  }
}
