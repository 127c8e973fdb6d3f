/** A run without restarts in which the index-by-index comparison of decided logs reports a
    difference although no decree is ever decided two ways: a former primary executes a decree
    a second time when it follows its successor past it. */
module RslDoubleExecution {
  import opened RslTypes
  import opened RslNodeSpec
  import opened RslSystem
  import opened RslBugs
  import Runs = RslRuns

  const CONFIG := NodeConfig([1, 2], 100, 100, 0, 100, 0, 100, 100, 10, 100)

  const COMMAND := Plain("1")

  const FIRST := Ballot(1, 1)
  const SECOND := Ballot(2, 2)
  const UNDER_FIRST := Proposal(FIRST, 0, NO_COMMAND)
  const UNDER_SECOND := Proposal(SECOND, 0, NO_COMMAND)
  const NEXT := Proposal(SECOND, 1, COMMAND)

  function At(id: nat, local: LocalState, log: LogState, commandQ: seq<Command>, ready: bool, timers: Timers,
              counted: map<nat, RemoteState>): NodeState {
    NodeState(id, CONFIG, local, log, commandQ, [], ready, timers, counted, 0, [])
  }

  function Local(state: RslState, acc: Proposal, prep: Ballot, fr: Proposal, count: nat): LocalState {
    LocalState(state, acc, prep, fr, count, RslConfig(0, 0, {1, 2}))
  }

  // ----- the states the two nodes pass through -----

  const NO_LOG := LogState([], [], [])
  const PREPARED := [Prepare(FIRST)]
  const ACCEPTED := [Prepare(FIRST), Accept(UNDER_FIRST)]
  const PREPARED_AGAIN := [Prepare(FIRST), Accept(UNDER_FIRST), Prepare(SECOND)]
  const ACCEPTED_AGAIN := [Prepare(FIRST), Accept(UNDER_FIRST), Prepare(SECOND), Accept(UNDER_SECOND)]
  const ACCEPTED_NEXT := [Prepare(FIRST), Accept(UNDER_FIRST), Prepare(SECOND), Accept(UNDER_SECOND), Accept(NEXT)]

  const IDLE := Local(Initializing, ZERO_PROPOSAL, ZERO_BALLOT, ZERO_PROPOSAL, 0)

  const A0 := At(1, IDLE, NO_LOG, [], false, Timers(100, 100, MAX_INT, 0, 0), map[])
  const A1 := At(1, IDLE, NO_LOG, [], false, Timers(100, 100, MAX_INT, 0, 1), map[])
  const A2 := At(1, Local(Preparing, ZERO_PROPOSAL, FIRST, ZERO_PROPOSAL, 0), LogState(PREPARED, [], []),
                 [], false, Timers(101, 100, 1, 0, 1), map[])
  const A3 := At(1, Local(StablePrimary, UNDER_FIRST, FIRST, UNDER_FIRST, 0), LogState(ACCEPTED, [], []),
                 [], false, Timers(101, 101, 1, 1, 1), map[])
  const A4 := At(1, Local(StablePrimary, UNDER_FIRST, FIRST, UNDER_FIRST, 1), LogState(ACCEPTED, [NO_COMMAND], [0]),
                 [], true, Timers(MAX_INT, 101, 1, 1, 1), map[2 := RemoteState(2, FIRST, 0, 0)])
  const A5 := At(1, Local(StableSecondary, UNDER_FIRST, SECOND, UNDER_FIRST, 1),
                 LogState(PREPARED_AGAIN, [NO_COMMAND], [0]), [], true, Timers(MAX_INT, 101, 1, 1, 1), map[])
  const A6 := At(1, Local(StableSecondary, UNDER_SECOND, SECOND, UNDER_FIRST, 1),
                 LogState(ACCEPTED_AGAIN, [NO_COMMAND], [0]), [], true, Timers(MAX_INT, 101, 1, 1, 1), map[])
  const A7 := At(1, Local(StableSecondary, NEXT, SECOND, UNDER_FIRST, 2),
                 LogState(ACCEPTED_NEXT, [NO_COMMAND, NO_COMMAND], [0, 0]), [], true,
                 Timers(MAX_INT, 101, 1, 1, 1), map[])

  const B0 := At(2, IDLE, NO_LOG, [], false, Timers(100, 100, MAX_INT, 0, 0), map[])
  const B1 := At(2, Local(StableSecondary, ZERO_PROPOSAL, ZERO_BALLOT, ZERO_PROPOSAL, 0), NO_LOG,
                 [], false, Timers(MAX_INT, 100, 0, 0, 0), map[])
  const B2 := At(2, Local(StableSecondary, ZERO_PROPOSAL, FIRST, ZERO_PROPOSAL, 0), LogState(PREPARED, [], []),
                 [], false, Timers(MAX_INT, 100, 0, 0, 0), map[])
  const B3 := At(2, Local(StableSecondary, UNDER_FIRST, FIRST, ZERO_PROPOSAL, 0), LogState(ACCEPTED, [], []),
                 [], false, Timers(MAX_INT, 100, 0, 0, 0), map[])
  const B4 := At(2, Local(Initializing, UNDER_FIRST, FIRST, ZERO_PROPOSAL, 0), LogState(ACCEPTED, [], []),
                 [], false, Timers(101, 100, 0, 0, 1), map[])
  const B5 := At(2, Local(Preparing, UNDER_FIRST, SECOND, UNDER_FIRST, 0), LogState(PREPARED_AGAIN, [], []),
                 [], false, Timers(101, 100, 1, 0, 1), map[])
  const B6 := At(2, Local(StablePrimary, UNDER_SECOND, SECOND, UNDER_SECOND, 0), LogState(ACCEPTED_AGAIN, [], []),
                 [], false, Timers(101, 101, 1, 1, 1), map[])
  const B7 := At(2, Local(StablePrimary, UNDER_SECOND, SECOND, UNDER_SECOND, 1),
                 LogState(ACCEPTED_AGAIN, [NO_COMMAND], [0]), [], true, Timers(MAX_INT, 101, 1, 1, 1),
                 map[1 := RemoteState(1, SECOND, 0, 0)])
  const B8 := B7.(commandQ := [COMMAND])
  const B9 := At(2, Local(StablePrimary, NEXT, SECOND, UNDER_SECOND, 1), LogState(ACCEPTED_NEXT, [NO_COMMAND], [0]),
                 [], false, Timers(102, 102, 1, 2, 2), map[])
  const B10 := At(2, Local(StablePrimary, NEXT, SECOND, UNDER_SECOND, 2),
                  LogState(ACCEPTED_NEXT, [NO_COMMAND, COMMAND], [0, 1]), [], true,
                  Timers(MAX_INT, 102, 1, 2, 2), map[1 := RemoteState(1, SECOND, 1, 0)])

  // ----- the messages they exchange -----

  function Msg(from: nat, to: nat, kind: MessageType, ballot: Ballot, decree: int, command: Command,
               proposalBallot: Ballot, accept: bool): Message {
    Message(from, to, kind, ballot, decree, command, proposalBallot, 0, accept, [])
  }

  const ASK_2 := Msg(1, 2, StatusReq, ZERO_BALLOT, 0, NO_COMMAND, ZERO_BALLOT, false)
  const ASK_1 := Msg(2, 1, StatusReq, ZERO_BALLOT, 0, NO_COMMAND, ZERO_BALLOT, false)
  const STATUS_1 := Msg(2, 1, StatusResp, ZERO_BALLOT, 0, NO_COMMAND, ZERO_BALLOT, false)
  const STATUS_2 := Msg(1, 2, StatusResp, ZERO_BALLOT, 0, NO_COMMAND, ZERO_BALLOT, false)
  const STATUS_LATER := Msg(1, 2, StatusResp, FIRST, 0, NO_COMMAND, ZERO_BALLOT, false).(timestamp := 1)
  const PREPARE_2 := Msg(1, 2, PrepareReq, FIRST, 0, NO_COMMAND, ZERO_BALLOT, false)
  const PREPARE_1 := Msg(2, 1, PrepareReq, SECOND, 0, NO_COMMAND, ZERO_BALLOT, false)
  const PROMISE_1 := Msg(2, 1, PrepareResp, FIRST, 0, NO_COMMAND, ZERO_BALLOT, true)
  const PROMISE_2 := Msg(1, 2, PrepareResp, SECOND, 0, NO_COMMAND, FIRST, true)
  const ACCEPT_2 := Msg(1, 2, AcceptReq, FIRST, 0, NO_COMMAND, ZERO_BALLOT, false)
  const ACCEPT_1 := Msg(2, 1, AcceptReq, SECOND, 0, NO_COMMAND, ZERO_BALLOT, false)
  const VOTE_1 := Msg(2, 1, AcceptResp, FIRST, 0, NO_COMMAND, ZERO_BALLOT, true)
  const VOTE_2 := Msg(1, 2, AcceptResp, SECOND, 0, NO_COMMAND, ZERO_BALLOT, true)
  const ACCEPT_NEXT := Msg(2, 1, AcceptReq, SECOND, 1, COMMAND, ZERO_BALLOT, false)
  const VOTE_NEXT := Msg(1, 2, AcceptResp, SECOND, 1, NO_COMMAND, ZERO_BALLOT, true)

  // ----- each step, node by node -----

  lemma OneCopy(m: Message)
    ensures m.from == 1 ==> Copies(CONFIG.peers, m) == [m.(to := 2)]
    ensures m.from == 2 ==> Copies(CONFIG.peers, m) == [m.(to := 1)]
  {
    assert CONFIG.peers[1..] == [2] && [2][1..] == [];
    assert Copies([2], m) == if m.from == 2 then [] else [m.(to := 2)] + Copies([], m);
  }

  lemma StartSteps()
    ensures Start(FreshNode(1, CONFIG)) == A0.(pending := [ASK_2])
    ensures Start(FreshNode(2, CONFIG)) == B0.(pending := [ASK_1])
  {
    assert Peers(CONFIG) == {1, 2};
    OneCopy(Blank(StatusReq).(from := 1));
    OneCopy(Blank(StatusReq).(from := 2));
  }

  lemma AnswerSteps()
    ensures Step(B0, ASK_2, 0) == B0.(pending := [STATUS_1])
    ensures Step(A0, ASK_1, 0) == A0.(pending := [STATUS_2])
  {
  }

  lemma NoneAhead(id: nat, acc: Proposal)
    requires acc.ballot.num >= 0 && acc.decree == 0
    ensures AheadNodes(map[id := RemoteState(id, ZERO_BALLOT, 0, 0)], acc) == {}
    ensures MaxChosenTime(map[id := RemoteState(id, ZERO_BALLOT, 0, 0)]) == 0
  {
    assert IsMaxChosenTime(map[id := RemoteState(id, ZERO_BALLOT, 0, 0)],
                           MaxChosenTime(map[id := RemoteState(id, ZERO_BALLOT, 0, 0)]));
  }

  lemma SettleStep()
    ensures DrawOk(B0, STATUS_2, 0)
    ensures Step(B0, STATUS_2, 0) == B1
  {
    NoneAhead(1, ZERO_PROPOSAL);
    var t := RecordStatus(B0, STATUS_2);
    assert PlanAfterStatus(t) == Proceed;
  }

  lemma FirstTick()
    ensures Tick(A0) == A1
  {
  }

  lemma CandidacyStep()
    ensures DrawOk(A1, STATUS_1, 0)
    ensures Step(A1, STATUS_1, 0) == A2.(pending := [PREPARE_2])
  {
    NoneAhead(2, ZERO_PROPOSAL);
    var t := RecordStatus(A1, STATUS_1);
    assert PlanAfterStatus(t) == Proceed;
    OneCopy(Blank(PrepareReq).(decree := 0, ballot := FIRST, from := 1));
  }

  lemma PromiseStep()
    ensures Step(B1, PREPARE_2, 0) == B2.(pending := [PROMISE_1])
  {
  }

  lemma VictoryStep()
    ensures Step(A2, PROMISE_1, 0) == A3.(pending := [ACCEPT_2])
  {
    OneCopy(AcceptReqFor(UNDER_FIRST).(from := 1));
  }

  lemma AcceptStep()
    ensures Step(B2, ACCEPT_2, 0) == B3.(pending := [VOTE_1])
  {
  }

  lemma ExecuteStep()
    ensures Step(A3, VOTE_1, 0) == A4
  {
  }

  lemma TimeoutStep()
    ensures Tick(B3) == B4.(pending := [ASK_1])
  {
    OneCopy(Blank(StatusReq).(from := 2));
  }

  lemma AnswerLaterStep()
    ensures Step(A4, ASK_1, 0) == A4.(pending := [STATUS_LATER])
  {
  }

  lemma SecondCandidacyStep()
    ensures DrawOk(B4, STATUS_LATER, 0)
    ensures Step(B4, STATUS_LATER, 0) == B5.(pending := [PREPARE_1])
  {
    var t := RecordStatus(B4, STATUS_LATER);
    assert AheadNodes(t.remoteStates, UNDER_FIRST) == {};
    assert PlanAfterStatus(t) == Proceed;
    OneCopy(Blank(PrepareReq).(decree := 0, ballot := SECOND, from := 2));
  }

  lemma SecondPromiseStep()
    ensures Step(A4, PREPARE_1, 0) == A5.(pending := [PROMISE_2])
  {
  }

  lemma SecondVictoryStep()
    ensures Step(B5, PROMISE_2, 0) == B6.(pending := [ACCEPT_1])
  {
    OneCopy(AcceptReqFor(UNDER_SECOND).(from := 2));
  }

  lemma SecondAcceptStep()
    ensures Step(A5, ACCEPT_1, 0) == A6.(pending := [VOTE_2])
  {
  }

  lemma SecondExecuteStep()
    ensures Step(B6, VOTE_2, 0) == B7
    ensures Propose(B7, COMMAND) == B8
  {
  }

  lemma NextCommandStep()
    ensures Tick(B8) == B9.(pending := [ACCEPT_NEXT])
  {
    OneCopy(AcceptReqFor(NEXT).(from := 2));
  }

  /** The former primary executes decree zero for the second time. */
  lemma ExecuteAgainStep()
    ensures Step(A6, ACCEPT_NEXT, 0) == A7.(pending := [VOTE_NEXT])
  {
  }

  lemma ExecuteNextStep()
    ensures Step(B9, VOTE_NEXT, 0) == B10
  {
  }

  // ----- the run -----

  /** A run without restarts brings the two nodes into these states, with at least these messages in transit. */
  ghost predicate Visits(a: NodeState, b: NodeState, known: set<Message>) {
    Runs.Visits(CONFIG, {}, map[1 := a, 2 := b], known)
  }

  /** One event at node 1, which moves from `a` to `a'`. */
  lemma AtOne(a: NodeState, b: NodeState, known: set<Message>, e: Event, a': NodeState, known': set<Message>)
    requires Visits(a, b, known) && Site(e) == 1 && PlainEvent(e)
    requires e.Deliver? ==> e.m in known && DrawOk(a, e.m, e.draw)
    requires e.Submit? ==> a.local.state == StablePrimary
    requires Move(a, e).(pending := []) == a'
    requires known' <= (known - Runs.Taken(e)) + PendingOf(Move(a, e))
    ensures Visits(a', b, known')
  {
    hide Move, DrawOk, Runs.Visits;
    Runs.Take(CONFIG, {}, map[1 := a, 2 := b], known, e, a', known');
    assert map[1 := a, 2 := b][1 := a'] == map[1 := a', 2 := b];
  }

  /** One event at node 2, which moves from `b` to `b'`. */
  lemma AtTwo(a: NodeState, b: NodeState, known: set<Message>, e: Event, b': NodeState, known': set<Message>)
    requires Visits(a, b, known) && Site(e) == 2 && PlainEvent(e)
    requires e.Deliver? ==> e.m in known && DrawOk(b, e.m, e.draw)
    requires e.Submit? ==> b.local.state == StablePrimary
    requires Move(b, e).(pending := []) == b'
    requires known' <= (known - Runs.Taken(e)) + PendingOf(Move(b, e))
    ensures Visits(a, b', known')
  {
    hide Move, DrawOk, Runs.Visits;
    Runs.Take(CONFIG, {}, map[1 := a, 2 := b], known, e, b', known');
    assert map[1 := a, 2 := b][2 := b'] == map[1 := a, 2 := b'];
  }

  lemma Begin()
    ensures Visits(A0, B0, {ASK_2, ASK_1})
  {
    hide Runs.Visits, Start, FreshNode;
    var a, b := A0.(pending := [ASK_2]), B0.(pending := [ASK_1]);
    var nodes := Runs.Begin(CONFIG, {});
    StartSteps();
    assert Peers(CONFIG) == {1, 2};
    assert nodes == map[1 := a, 2 := b];
    BeginSending(a, b);
  }

  lemma BeginSending(a: NodeState, b: NodeState)
    requires a == A0.(pending := [ASK_2]) && b == B0.(pending := [ASK_1])
    requires Visits(a, b, {})
    ensures Visits(A0, B0, {ASK_2, ASK_1})
  {
    hide Visits;
    AtOne(a, b, {}, Collect(1), A0, {ASK_2});
    AtTwo(A0, b, {ASK_2}, Collect(2), B0, {ASK_2, ASK_1});
  }

  /** Node 1 stands for election and node 2 settles as a follower. */
  lemma StandForElection()
    ensures Visits(A2, B1, {PREPARE_2})
  {
    hide Step, Tick, Visits, PlanAfterStatus;
    Begin();
    AnswerSteps();
    SettleStep();
    FirstTick();
    CandidacyStep();
    AtTwo(A0, B0, {ASK_2, ASK_1}, Deliver(ASK_2, 0), B0, {ASK_1, STATUS_1});
    AtOne(A0, B0, {ASK_1, STATUS_1}, Deliver(ASK_1, 0), A0, {STATUS_1, STATUS_2});
    AtTwo(A0, B0, {STATUS_1, STATUS_2}, Deliver(STATUS_2, 0), B1, {STATUS_1});
    AtOne(A0, B1, {STATUS_1}, TickNode(1), A1, {STATUS_1});
    AtOne(A1, B1, {STATUS_1}, Deliver(STATUS_1, 0), A2, {PREPARE_2});
  }

  /** Node 1 wins its ballot; node 2 has not heard of it yet. */
  lemma Win()
    ensures Visits(A3, B2, {ACCEPT_2})
  {
    hide Step, Tick, Visits, PlanAfterStatus;
    StandForElection();
    PromiseStep();
    VictoryStep();
    AtTwo(A2, B1, {PREPARE_2}, Deliver(PREPARE_2, 0), B2, {PROMISE_1});
    AtOne(A2, B2, {PROMISE_1}, Deliver(PROMISE_1, 0), A3, {ACCEPT_2});
  }

  /** Node 2 votes for the proposal of node 1. */
  lemma Vote()
    ensures Visits(A3, B3, {VOTE_1})
  {
    hide Step, Tick, Visits, PlanAfterStatus;
    Win();
    AcceptStep();
    AtTwo(A3, B2, {ACCEPT_2}, Deliver(ACCEPT_2, 0), B3, {VOTE_1});
  }

  /** Node 1 executes decree zero. */
  lemma WinAndExecute()
    ensures Visits(A4, B3, {})
  {
    hide Step, Tick, Visits, PlanAfterStatus;
    Vote();
    ExecuteStep();
    AtOne(A3, B3, {VOTE_1}, Deliver(VOTE_1, 0), A4, {});
  }

  /** Node 2 times out and node 1 gives way to it. */
  lemma GiveWay()
    ensures Visits(A5, B5, {PROMISE_2})
  {
    hide Step, Tick, Visits, PlanAfterStatus;
    WinAndExecute();
    TimeoutStep();
    AnswerLaterStep();
    SecondCandidacyStep();
    SecondPromiseStep();
    AtTwo(A4, B3, {}, TickNode(2), B4, {ASK_1});
    AtOne(A4, B4, {ASK_1}, Deliver(ASK_1, 0), A4, {STATUS_LATER});
    AtTwo(A4, B4, {STATUS_LATER}, Deliver(STATUS_LATER, 0), B5, {PREPARE_1});
    AtOne(A4, B5, {PREPARE_1}, Deliver(PREPARE_1, 0), A5, {PROMISE_2});
  }

  /** Node 2 wins the next ballot and executes decree zero too. */
  lemma Succeed()
    ensures Visits(A6, B7, {})
  {
    hide Step, Tick, Visits, PlanAfterStatus;
    GiveWay();
    SecondVictoryStep();
    SecondAcceptStep();
    SecondExecuteStep();
    AtTwo(A5, B5, {PROMISE_2}, Deliver(PROMISE_2, 0), B6, {ACCEPT_1});
    AtOne(A5, B6, {ACCEPT_1}, Deliver(ACCEPT_1, 0), A6, {VOTE_2});
    AtTwo(A6, B6, {VOTE_2}, Deliver(VOTE_2, 0), B7, {});
  }

  /** A command follows; node 1 executes decree zero again and node 2 executes the command. */
  lemma CommandFollows()
    ensures Visits(A7, B10, {})
  {
    hide Step, Tick, Visits, PlanAfterStatus;
    Succeed();
    SecondExecuteStep();
    NextCommandStep();
    ExecuteAgainStep();
    ExecuteNextStep();
    AtTwo(A6, B7, {}, Submit(2, COMMAND), B8, {});
    AtTwo(A6, B8, {}, TickNode(2), B9, {ACCEPT_NEXT});
    AtOne(A6, B9, {ACCEPT_NEXT}, Deliver(ACCEPT_NEXT, 0), A7, {VOTE_NEXT});
    AtTwo(A7, B9, {VOTE_NEXT}, Deliver(VOTE_NEXT, 0), B10, {});
  }

  /** The index-by-index comparison can report on a run without restarts. */
  lemma AlarmWithoutConflict() returns (sys: System)
    ensures Reachable(CONFIG, sys)
    ensures IndexDisagreement(DecidedOf(sys.nodes))
  {
    hide Reachable, Runs.Visits;
    CommandFollows();
    sys := Runs.Visited(CONFIG, {}, map[1 := A7, 2 := B10], {});
    assert DisagreeAt(DecidedOf(sys.nodes), 1, 2, 1);
  }
}
