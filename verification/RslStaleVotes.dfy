/** What votes left in transit by a reset can do: the primary of the next episode counts them. Three
    nodes come to execute two different commands for one decree. */
module RslStaleVotes {
  import opened RslTypes
  import opened RslNodeSpec
  import opened RslSystem
  import opened RslInvariant
  import opened RslReset
  import D = RslDoubleExecution
  import Runs = RslRuns

  // ----- one stale vote, two nodes -----

  /** A vote left over from one episode makes the primary of the next execute a decree that no
      majority has accepted. The vote is one a fresh cluster can have in transit. */
  lemma StaleVoteExecutes() returns (before: System, after: System)
    ensures Reachable(D.CONFIG, before) && D.VOTE_1 in before.sent
    ensures ReachableAfter(D.CONFIG, {D.VOTE_1}, after)
    ensures 1 in after.nodes && after.nodes[1].log.decided == [NO_COMMAND] && after.nodes[1].log.decidedAt == [0]
    ensures !Decreed(LogsOf(after.nodes), Peers(D.CONFIG), 0, NO_COMMAND)
  {
    hide Step, Reachable, ReachableAfter, Decreed, Runs.Visits;
    D.Vote();
    before := Runs.Visited(D.CONFIG, {}, map[1 := D.A3, 2 := D.B3], {D.VOTE_1});
    D.Win();
    var sys := Runs.Visited(D.CONFIG, {}, map[1 := D.A3, 2 := D.B2], {D.ACCEPT_2});
    WidenReachable(D.CONFIG, sys, {D.VOTE_1});
    D.ExecuteStep();
    var wide, e := Widen(sys, {D.VOTE_1}), Deliver(D.VOTE_1, 0);
    after := Flush(wide, 1, D.A4);
    ExtendEpisode(D.CONFIG, {D.VOTE_1}, wide, e, after);
    NotDecreed(LogsOf(after.nodes));
  }

  lemma NotDecreed(logs: Logs)
    requires logs.Keys == {1, 2} && logs[2] == D.PREPARED
    ensures !Decreed(logs, Peers(D.CONFIG), 0, NO_COMMAND)
  {
    assert Peers(D.CONFIG) == {1, 2};
    forall q: set<nat> | IsQuorum(q, {1, 2}) ensures 2 in q {
      if 2 !in q {
        assert q <= {1};
        assert |q| <= 1 by { SmallSet(q); }
      }
    }
    assert !D.PREPARED[0].accepted;
  }

  lemma SmallSet(q: set<nat>)
    requires q <= {1}
    ensures |q| <= 1
  {
    if q != {} {
      assert q == {1};
    }
  }

  // ----- two stale votes, three nodes -----

  const CONFIG := NodeConfig([1, 2, 3], 100, 100, 0, 100, 0, 100, 100, 10, 100)

  const FIRST_COMMAND := Plain("1")
  const OTHER_COMMAND := Plain("2")

  const FIRST := Ballot(1, 1)
  const SECOND := Ballot(2, 3)
  const UNDER_FIRST := Proposal(FIRST, 0, NO_COMMAND)
  const UNDER_SECOND := Proposal(SECOND, 0, NO_COMMAND)
  const NEXT_FIRST := Proposal(FIRST, 1, FIRST_COMMAND)
  const NEXT_SECOND := Proposal(SECOND, 1, OTHER_COMMAND)

  function At(id: nat, local: LocalState, log: LogState, ready: bool, timers: Timers, counted: map<nat, RemoteState>): NodeState {
    NodeState(id, CONFIG, local, log, [], [], ready, timers, counted, 0, [])
  }

  function Local(state: RslState, acc: Proposal, prep: Ballot, fr: Proposal, count: nat): LocalState {
    LocalState(state, acc, prep, fr, count, RslConfig(0, 0, {1, 2, 3}))
  }

  const NO_LOG := LogState([], [], [])
  const IDLE := Local(Initializing, ZERO_PROPOSAL, ZERO_BALLOT, ZERO_PROPOSAL, 0)

  // ----- node 1: elected, executes two decrees -----

  const LOG_FIRST := [Prepare(FIRST), Accept(UNDER_FIRST)]
  const LOG_NEXT := [Prepare(FIRST), Accept(UNDER_FIRST), Accept(NEXT_FIRST)]

  const A0 := At(1, IDLE, NO_LOG, false, Timers(100, 100, MAX_INT, 0, 0), map[])
  const A1 := At(1, IDLE, NO_LOG, false, Timers(100, 100, MAX_INT, 0, 1), map[])
  const A2 := At(1, Local(Preparing, ZERO_PROPOSAL, FIRST, ZERO_PROPOSAL, 0), LogState([Prepare(FIRST)], [], []),
                 false, Timers(101, 100, 1, 0, 1), map[])
  const A3 := At(1, Local(StablePrimary, UNDER_FIRST, FIRST, UNDER_FIRST, 0), LogState(LOG_FIRST, [], []),
                 false, Timers(101, 101, 1, 1, 1), map[])
  const A5 := At(1, Local(StablePrimary, NEXT_FIRST, FIRST, UNDER_FIRST, 1), LogState(LOG_NEXT, [NO_COMMAND], [0]),
                 false, Timers(102, 102, 1, 2, 2), map[])
  const A6 := At(1, Local(StablePrimary, NEXT_FIRST, FIRST, UNDER_FIRST, 2), LogState(LOG_NEXT, [NO_COMMAND, FIRST_COMMAND], [0, 1]),
                 true, Timers(MAX_INT, 102, 1, 2, 2), map[2 := RemoteState(2, FIRST, 1, 0)])

  /** After the vote of `voter` for decree zero. */
  function A4(voter: nat): NodeState {
    At(1, Local(StablePrimary, UNDER_FIRST, FIRST, UNDER_FIRST, 1), LogState(LOG_FIRST, [NO_COMMAND], [0]),
       true, Timers(MAX_INT, 101, 1, 1, 1), map[voter := RemoteState(voter, FIRST, 0, 0)])
  }

  // ----- node 2: votes in the first episode, elects node 3 in the second -----

  const B0 := At(2, IDLE, NO_LOG, false, Timers(100, 100, MAX_INT, 0, 0), map[])
  const B1 := At(2, Local(StableSecondary, ZERO_PROPOSAL, ZERO_BALLOT, ZERO_PROPOSAL, 0), NO_LOG,
                 false, Timers(MAX_INT, 100, 0, 0, 0), map[])
  const B2 := At(2, Local(StableSecondary, UNDER_FIRST, FIRST, ZERO_PROPOSAL, 0), LogState([Accept(UNDER_FIRST)], [], []),
                 false, Timers(MAX_INT, 100, 0, 0, 0), map[])
  const B3 := At(2, Local(StableSecondary, NEXT_FIRST, FIRST, ZERO_PROPOSAL, 1),
                 LogState([Accept(UNDER_FIRST), Accept(NEXT_FIRST)], [NO_COMMAND], [0]),
                 false, Timers(MAX_INT, 100, 0, 0, 0), map[])

  const B4 := At(2, Local(StableSecondary, ZERO_PROPOSAL, SECOND, ZERO_PROPOSAL, 0), LogState([Prepare(SECOND)], [], []),
                 false, Timers(MAX_INT, 100, 0, 0, 0), map[])
  const B5 := At(2, Local(StableSecondary, UNDER_SECOND, SECOND, ZERO_PROPOSAL, 0),
                 LogState([Prepare(SECOND), Accept(UNDER_SECOND)], [], []), false, Timers(MAX_INT, 100, 0, 0, 0), map[])
  const B6 := At(2, Local(StableSecondary, NEXT_SECOND, SECOND, ZERO_PROPOSAL, 1),
                 LogState([Prepare(SECOND), Accept(UNDER_SECOND), Accept(NEXT_SECOND)], [NO_COMMAND], [0]),
                 false, Timers(MAX_INT, 100, 0, 0, 0), map[])

  // ----- node 3: votes in the first episode, is elected in the second -----

  const LOG_SECOND := [Prepare(FIRST), Prepare(SECOND), Accept(UNDER_SECOND)]
  const LOG_THIRD := [Prepare(FIRST), Prepare(SECOND), Accept(UNDER_SECOND), Accept(NEXT_SECOND)]

  const C0 := At(3, IDLE, NO_LOG, false, Timers(100, 100, MAX_INT, 0, 0), map[])
  const C1 := At(3, Local(StableSecondary, ZERO_PROPOSAL, ZERO_BALLOT, ZERO_PROPOSAL, 0), NO_LOG,
                 false, Timers(MAX_INT, 100, 0, 0, 0), map[])
  const C2 := At(3, Local(StableSecondary, ZERO_PROPOSAL, FIRST, ZERO_PROPOSAL, 0), LogState([Prepare(FIRST)], [], []),
                 false, Timers(MAX_INT, 100, 0, 0, 0), map[])
  const C3 := At(3, Local(StableSecondary, UNDER_FIRST, FIRST, ZERO_PROPOSAL, 0), LogState(LOG_FIRST, [], []),
                 false, Timers(MAX_INT, 100, 0, 0, 0), map[])

  const C4 := At(3, Local(Initializing, ZERO_PROPOSAL, FIRST, ZERO_PROPOSAL, 0), LogState([Prepare(FIRST)], [], []),
                 false, Timers(101, 100, 0, 0, 1), map[])
  const C5 := At(3, Local(Preparing, ZERO_PROPOSAL, SECOND, ZERO_PROPOSAL, 0), LogState([Prepare(FIRST), Prepare(SECOND)], [], []),
                 false, Timers(101, 100, 1, 0, 1), map[])
  const C6 := At(3, Local(StablePrimary, UNDER_SECOND, SECOND, UNDER_SECOND, 0), LogState(LOG_SECOND, [], []),
                 false, Timers(101, 101, 1, 1, 1), map[])
  const C7 := At(3, Local(StablePrimary, UNDER_SECOND, SECOND, UNDER_SECOND, 1), LogState(LOG_SECOND, [NO_COMMAND], [0]),
                 true, Timers(MAX_INT, 101, 1, 1, 1), map[2 := RemoteState(2, SECOND, 0, 0)])
  const C8 := At(3, Local(StablePrimary, NEXT_SECOND, SECOND, UNDER_SECOND, 1), LogState(LOG_THIRD, [NO_COMMAND], [0]),
                 false, Timers(102, 102, 1, 2, 2), map[])
  const C9 := At(3, Local(StablePrimary, NEXT_SECOND, SECOND, UNDER_SECOND, 2), LogState(LOG_THIRD, [NO_COMMAND, OTHER_COMMAND], [0, 1]),
                 true, Timers(MAX_INT, 102, 1, 2, 2), map[2 := RemoteState(2, SECOND, 1, 0)])

  // ----- the messages -----

  function Msg(from: nat, to: nat, kind: MessageType, p: Proposal, accept: bool): Message {
    Message(from, to, kind, p.ballot, p.decree, p.command, ZERO_BALLOT, 0, accept, [])
  }

  function Ask(from: nat, to: nat): Message { Msg(from, to, StatusReq, ZERO_PROPOSAL, false) }

  function Status(from: nat, to: nat): Message { Msg(from, to, StatusResp, ZERO_PROPOSAL, false) }

  function PrepareFor(from: nat, to: nat, p: Proposal): Message { Msg(from, to, PrepareReq, p, false) }

  function PromiseFor(from: nat, to: nat, p: Proposal): Message { Msg(from, to, PrepareResp, p, true) }

  function Request(from: nat, to: nat, p: Proposal): Message { Msg(from, to, AcceptReq, p, false) }

  function Vote(from: nat, to: nat, p: Proposal): Message {
    Msg(from, to, AcceptResp, p.(command := NO_COMMAND), true)
  }

  const VOTE_FIRST := Vote(2, 1, UNDER_FIRST)
  const VOTE_NEXT := Vote(2, 1, NEXT_FIRST)

  // ----- each step -----

  lemma TwoCopies(m: Message)
    ensures m.from == 1 ==> Copies(CONFIG.peers, m) == [m.(to := 2), m.(to := 3)]
    ensures m.from == 2 ==> Copies(CONFIG.peers, m) == [m.(to := 1), m.(to := 3)]
    ensures m.from == 3 ==> Copies(CONFIG.peers, m) == [m.(to := 1), m.(to := 2)]
  {
    assert CONFIG.peers[1..] == [2, 3] && [2, 3][1..] == [3] && [3][1..] == [];
    assert Copies([3], m) == if m.from == 3 then [] else [m.(to := 3)] + Copies([], m);
    assert Copies([2, 3], m) == if m.from == 2 then Copies([3], m) else [m.(to := 2)] + Copies([3], m);
  }

  lemma StartSteps()
    ensures Start(FreshNode(1, CONFIG)) == A0.(pending := [Ask(1, 2), Ask(1, 3)])
    ensures Start(FreshNode(2, CONFIG)) == B0.(pending := [Ask(2, 1), Ask(2, 3)])
    ensures Start(FreshNode(3, CONFIG)) == C0.(pending := [Ask(3, 1), Ask(3, 2)])
  {
    assert Peers(CONFIG) == {1, 2, 3};
    TwoCopies(Blank(StatusReq).(from := 1));
    TwoCopies(Blank(StatusReq).(from := 2));
    TwoCopies(Blank(StatusReq).(from := 3));
  }

  lemma AnswerSteps()
    ensures Step(C0, Ask(1, 3), 0) == C0.(pending := [Status(3, 1)])
    ensures Step(A0, Ask(3, 1), 0) == A0.(pending := [Status(1, 3)])
    ensures Step(A0, Ask(2, 1), 0) == A0.(pending := [Status(1, 2)])
    ensures Step(B1, Ask(3, 2), 0) == B1.(pending := [Status(2, 3)])
  {
  }

  lemma NobodyAhead(s: NodeState, from: nat, to: nat)
    requires s.local.state == Initializing && s.proposalQ == [] && s.remoteStates == map[]
    requires s.local.maxAccepted == ZERO_PROPOSAL
    ensures PlanAfterStatus(RecordStatus(s, Status(from, to))) == Proceed && DrawOk(s, Status(from, to), 0)
    ensures MaxChosenTime(RecordStatus(s, Status(from, to)).remoteStates) == 0
  {
    var t := RecordStatus(s, Status(from, to));
    assert AheadNodes(t.remoteStates, ZERO_PROPOSAL) == {};
    assert IsMaxChosenTime(t.remoteStates, MaxChosenTime(t.remoteStates));
  }

  lemma SettleSteps()
    ensures DrawOk(C0, Status(1, 3), 0) && Step(C0, Status(1, 3), 0) == C1
    ensures DrawOk(B0, Status(1, 2), 0) && Step(B0, Status(1, 2), 0) == B1
  {
    NobodyAhead(C0, 1, 3);
    NobodyAhead(B0, 1, 2);
  }

  lemma FirstTick()
    ensures Tick(A0) == A1
  {
  }

  lemma CandidacyStep()
    ensures DrawOk(A1, Status(3, 1), 0)
    ensures Step(A1, Status(3, 1), 0)
         == A2.(pending := [PrepareFor(1, 2, UNDER_FIRST), PrepareFor(1, 3, UNDER_FIRST)])
  {
    NobodyAhead(A1, 3, 1);
    TwoCopies(Blank(PrepareReq).(decree := 0, ballot := FIRST, from := 1));
  }

  lemma VictorySteps()
    ensures Step(C1, PrepareFor(1, 3, UNDER_FIRST), 0) == C2.(pending := [PromiseFor(3, 1, UNDER_FIRST)])
    ensures Step(A2, PromiseFor(3, 1, UNDER_FIRST), 0)
         == A3.(pending := [Request(1, 2, UNDER_FIRST), Request(1, 3, UNDER_FIRST)])
  {
    TwoCopies(AcceptReqFor(UNDER_FIRST).(from := 1));
  }

  lemma VoteSteps()
    ensures Step(B1, Request(1, 2, UNDER_FIRST), 0) == B2.(pending := [VOTE_FIRST])
    ensures Step(C2, Request(1, 3, UNDER_FIRST), 0) == C3.(pending := [Vote(3, 1, UNDER_FIRST)])
  {
  }

  lemma ExecuteSteps()
    ensures Step(A3, Vote(3, 1, UNDER_FIRST), 0) == A4(3)
    ensures Step(A3, VOTE_FIRST, 0) == A4(2)
  {
  }

  lemma CommandSteps(voter: nat)
    ensures Propose(A4(voter), FIRST_COMMAND) == A4(voter).(commandQ := [FIRST_COMMAND])
    ensures Tick(A4(voter).(commandQ := [FIRST_COMMAND]))
         == A5.(pending := [Request(1, 2, NEXT_FIRST), Request(1, 3, NEXT_FIRST)])
  {
    TwoCopies(AcceptReqFor(NEXT_FIRST).(from := 1));
  }

  lemma NextVoteStep()
    ensures Step(B2, Request(1, 2, NEXT_FIRST), 0) == B3.(pending := [VOTE_NEXT])
  {
  }

  lemma StaleStep()
    ensures Step(A5, VOTE_NEXT, 0) == A6
  {
  }

  lemma TimeoutStep()
    ensures Tick(C2) == C4.(pending := [Ask(3, 1), Ask(3, 2)])
  {
    TwoCopies(Blank(StatusReq).(from := 3));
  }

  lemma OtherCandidacyStep()
    ensures DrawOk(C4, Status(2, 3), 0)
    ensures Step(C4, Status(2, 3), 0)
         == C5.(pending := [PrepareFor(3, 1, UNDER_SECOND), PrepareFor(3, 2, UNDER_SECOND)])
  {
    NobodyAhead(C4, 2, 3);
    TwoCopies(Blank(PrepareReq).(decree := 0, ballot := SECOND, from := 3));
  }

  lemma OtherVictorySteps()
    ensures Step(B1, PrepareFor(3, 2, UNDER_SECOND), 0) == B4.(pending := [PromiseFor(2, 3, UNDER_SECOND)])
    ensures Step(C5, PromiseFor(2, 3, UNDER_SECOND), 0)
         == C6.(pending := [Request(3, 1, UNDER_SECOND), Request(3, 2, UNDER_SECOND)])
  {
    TwoCopies(AcceptReqFor(UNDER_SECOND).(from := 3));
  }

  lemma OtherVoteSteps()
    ensures Step(B4, Request(3, 2, UNDER_SECOND), 0) == B5.(pending := [Vote(2, 3, UNDER_SECOND)])
    ensures Step(C6, Vote(2, 3, UNDER_SECOND), 0) == C7
  {
  }

  lemma OtherCommandSteps()
    ensures Propose(C7, OTHER_COMMAND) == C7.(commandQ := [OTHER_COMMAND])
    ensures Tick(C7.(commandQ := [OTHER_COMMAND]))
         == C8.(pending := [Request(3, 1, NEXT_SECOND), Request(3, 2, NEXT_SECOND)])
  {
    TwoCopies(AcceptReqFor(NEXT_SECOND).(from := 3));
  }

  lemma OtherNextSteps()
    ensures Step(B5, Request(3, 2, NEXT_SECOND), 0) == B6.(pending := [Vote(2, 3, NEXT_SECOND)])
    ensures Step(C8, Vote(2, 3, NEXT_SECOND), 0) == C9
  {
  }

  // ----- the runs -----

  ghost predicate Visits(left: set<Message>, a: NodeState, b: NodeState, c: NodeState, known: set<Message>) {
    Runs.Visits(CONFIG, left, map[1 := a, 2 := b, 3 := c], known)
  }

  /** The event `e` takes a node from `s` to `t`. */
  ghost predicate Moves(s: NodeState, known: set<Message>, e: Event, t: NodeState, known': set<Message>) {
    && PlainEvent(e)
    && (e.Deliver? ==> e.m in known && DrawOk(s, e.m, e.draw))
    && (e.Submit? ==> s.local.state == StablePrimary)
    && Move(s, e).(pending := []) == t
    && known' <= (known - Runs.Taken(e)) + PendingOf(Move(s, e))
  }

  lemma AtOne(left: set<Message>, a: NodeState, b: NodeState, c: NodeState, known: set<Message>,
              e: Event, t: NodeState, known': set<Message>)
    requires Visits(left, a, b, c, known) && Site(e) == 1 && Moves(a, known, e, t, known')
    ensures Visits(left, t, b, c, known')
  {
    hide Move, DrawOk, Runs.Visits;
    Runs.Take(CONFIG, left, map[1 := a, 2 := b, 3 := c], known, e, t, known');
    assert map[1 := a, 2 := b, 3 := c][1 := t] == map[1 := t, 2 := b, 3 := c];
  }

  lemma AtTwo(left: set<Message>, a: NodeState, b: NodeState, c: NodeState, known: set<Message>,
              e: Event, t: NodeState, known': set<Message>)
    requires Visits(left, a, b, c, known) && Site(e) == 2 && Moves(b, known, e, t, known')
    ensures Visits(left, a, t, c, known')
  {
    hide Move, DrawOk, Runs.Visits;
    Runs.Take(CONFIG, left, map[1 := a, 2 := b, 3 := c], known, e, t, known');
    assert map[1 := a, 2 := b, 3 := c][2 := t] == map[1 := a, 2 := t, 3 := c];
  }

  lemma AtThree(left: set<Message>, a: NodeState, b: NodeState, c: NodeState, known: set<Message>,
                e: Event, t: NodeState, known': set<Message>)
    requires Visits(left, a, b, c, known) && Site(e) == 3 && Moves(c, known, e, t, known')
    ensures Visits(left, a, b, t, known')
  {
    hide Move, DrawOk, Runs.Visits;
    Runs.Take(CONFIG, left, map[1 := a, 2 := b, 3 := c], known, e, t, known');
    assert map[1 := a, 2 := b, 3 := c][3 := t] == map[1 := a, 2 := b, 3 := t];
  }

  /** Nothing in transit but votes. */
  predicate Votes(left: set<Message>) {
    forall m | m in left :: m.kind == AcceptResp
  }

  lemma Begin(left: set<Message>)
    requires Votes(left)
    ensures Visits(left, A0, B0, C0, left + {Ask(1, 3), Ask(2, 1), Ask(3, 1)})
  {
    hide Runs.Visits, Start, FreshNode;
    var a := A0.(pending := [Ask(1, 2), Ask(1, 3)]);
    var b := B0.(pending := [Ask(2, 1), Ask(2, 3)]);
    var c := C0.(pending := [Ask(3, 1), Ask(3, 2)]);
    var nodes := Runs.Begin(CONFIG, left);
    StartSteps();
    assert Peers(CONFIG) == {1, 2, 3};
    assert nodes == map[1 := a, 2 := b, 3 := c];
    AtOne(left, a, b, c, left, Collect(1), A0, left + {Ask(1, 3)});
    AtTwo(left, A0, b, c, left + {Ask(1, 3)}, Collect(2), B0, left + {Ask(1, 3), Ask(2, 1)});
    AtThree(left, A0, B0, c, left + {Ask(1, 3), Ask(2, 1)}, Collect(3), C0, left + {Ask(1, 3), Ask(2, 1), Ask(3, 1)});
  }

  lemma Answer(left: set<Message>)
    requires Votes(left)
    ensures Visits(left, A0, B0, C0, left + {Status(3, 1), Status(1, 3), Status(1, 2)})
  {
    hide Step, Tick, Visits, PlanAfterStatus;
    Begin(left);
    AnswerSteps();
    AtThree(left, A0, B0, C0, left + {Ask(1, 3), Ask(2, 1), Ask(3, 1)}, Deliver(Ask(1, 3), 0), C0,
            left + {Ask(2, 1), Ask(3, 1), Status(3, 1)});
    AtOne(left, A0, B0, C0, left + {Ask(2, 1), Ask(3, 1), Status(3, 1)}, Deliver(Ask(3, 1), 0), A0,
          left + {Ask(2, 1), Status(3, 1), Status(1, 3)});
    AtOne(left, A0, B0, C0, left + {Ask(2, 1), Status(3, 1), Status(1, 3)}, Deliver(Ask(2, 1), 0), A0,
          left + {Status(3, 1), Status(1, 3), Status(1, 2)});
  }

  /** Nodes 2 and 3 settle as followers. */
  lemma Settle(left: set<Message>)
    requires Votes(left)
    ensures Visits(left, A0, B1, C1, left + {Status(3, 1)})
  {
    hide Step, Tick, Visits, PlanAfterStatus;
    Answer(left);
    SettleSteps();
    AtThree(left, A0, B0, C0, left + {Status(3, 1), Status(1, 3), Status(1, 2)}, Deliver(Status(1, 3), 0), C1,
            left + {Status(3, 1), Status(1, 2)});
    AtTwo(left, A0, B0, C1, left + {Status(3, 1), Status(1, 2)}, Deliver(Status(1, 2), 0), B1, left + {Status(3, 1)});
  }

  /** Node 1 is elected with the promise of node 3. */
  lemma Elect(left: set<Message>)
    requires Votes(left)
    ensures Visits(left, A3, B1, C2, left + {Request(1, 2, UNDER_FIRST), Request(1, 3, UNDER_FIRST)})
  {
    hide Step, Tick, Visits, PlanAfterStatus;
    Settle(left);
    FirstTick();
    CandidacyStep();
    VictorySteps();
    AtOne(left, A0, B1, C1, left + {Status(3, 1)}, TickNode(1), A1, left + {Status(3, 1)});
    AtOne(left, A1, B1, C1, left + {Status(3, 1)}, Deliver(Status(3, 1), 0), A2, left + {PrepareFor(1, 3, UNDER_FIRST)});
    AtThree(left, A2, B1, C1, left + {PrepareFor(1, 3, UNDER_FIRST)}, Deliver(PrepareFor(1, 3, UNDER_FIRST), 0), C2,
            left + {PromiseFor(3, 1, UNDER_FIRST)});
    AtOne(left, A2, B1, C2, left + {PromiseFor(3, 1, UNDER_FIRST)}, Deliver(PromiseFor(3, 1, UNDER_FIRST), 0), A3,
          left + {Request(1, 2, UNDER_FIRST), Request(1, 3, UNDER_FIRST)});
  }

  /** The first episode: node 2 votes for two decrees and the votes stay in transit. */
  lemma VotesInTransit()
    ensures Visits({}, A5, B3, C3, {VOTE_FIRST, VOTE_NEXT})
  {
    hide Step, Tick, Visits, PlanAfterStatus;
    Elect({});
    VoteSteps();
    ExecuteSteps();
    CommandSteps(3);
    NextVoteStep();
    AtTwo({}, A3, B1, C2, {} + {Request(1, 2, UNDER_FIRST), Request(1, 3, UNDER_FIRST)}, Deliver(Request(1, 2, UNDER_FIRST), 0), B2,
          {Request(1, 3, UNDER_FIRST), VOTE_FIRST});
    AtThree({}, A3, B2, C2, {Request(1, 3, UNDER_FIRST), VOTE_FIRST}, Deliver(Request(1, 3, UNDER_FIRST), 0), C3,
            {VOTE_FIRST, Vote(3, 1, UNDER_FIRST)});
    AtOne({}, A3, B2, C3, {VOTE_FIRST, Vote(3, 1, UNDER_FIRST)}, Deliver(Vote(3, 1, UNDER_FIRST), 0), A4(3), {VOTE_FIRST});
    AtOne({}, A4(3), B2, C3, {VOTE_FIRST}, Submit(1, FIRST_COMMAND), A4(3).(commandQ := [FIRST_COMMAND]), {VOTE_FIRST});
    AtOne({}, A4(3).(commandQ := [FIRST_COMMAND]), B2, C3, {VOTE_FIRST}, TickNode(1), A5, {VOTE_FIRST, Request(1, 2, NEXT_FIRST)});
    AtTwo({}, A5, B2, C3, {VOTE_FIRST, Request(1, 2, NEXT_FIRST)}, Deliver(Request(1, 2, NEXT_FIRST), 0), B3,
          {VOTE_FIRST, VOTE_NEXT});
  }

  const LEFT := {VOTE_FIRST, VOTE_NEXT}

  /** The second episode: node 1 counts the votes of the first one. */
  lemma StaleVotesCounted()
    ensures Visits(LEFT, A6, B1, C2, {})
  {
    hide Step, Tick, Visits, PlanAfterStatus;
    Elect(LEFT);
    ExecuteSteps();
    CommandSteps(2);
    StaleStep();
    AtOne(LEFT, A3, B1, C2, LEFT + {Request(1, 2, UNDER_FIRST), Request(1, 3, UNDER_FIRST)}, Deliver(VOTE_FIRST, 0), A4(2), {VOTE_NEXT});
    AtOne(LEFT, A4(2), B1, C2, {VOTE_NEXT}, Submit(1, FIRST_COMMAND), A4(2).(commandQ := [FIRST_COMMAND]), {VOTE_NEXT});
    AtOne(LEFT, A4(2).(commandQ := [FIRST_COMMAND]), B1, C2, {VOTE_NEXT}, TickNode(1), A5, {VOTE_NEXT});
    AtOne(LEFT, A5, B1, C2, {VOTE_NEXT}, Deliver(VOTE_NEXT, 0), A6, {});
  }

  /** Nodes 2 and 3 elect node 3, knowing of no vote. */
  lemma OtherElected()
    ensures Visits(LEFT, A6, B4, C6, {Request(3, 2, UNDER_SECOND)})
  {
    hide Step, Tick, Visits, PlanAfterStatus;
    StaleVotesCounted();
    TimeoutStep();
    AnswerSteps();
    OtherCandidacyStep();
    OtherVictorySteps();
    AtThree(LEFT, A6, B1, C2, {}, TickNode(3), C4, {Ask(3, 2)});
    AtTwo(LEFT, A6, B1, C4, {Ask(3, 2)}, Deliver(Ask(3, 2), 0), B1, {Status(2, 3)});
    AtThree(LEFT, A6, B1, C4, {Status(2, 3)}, Deliver(Status(2, 3), 0), C5, {PrepareFor(3, 2, UNDER_SECOND)});
    AtTwo(LEFT, A6, B1, C5, {PrepareFor(3, 2, UNDER_SECOND)}, Deliver(PrepareFor(3, 2, UNDER_SECOND), 0), B4,
          {PromiseFor(2, 3, UNDER_SECOND)});
    AtThree(LEFT, A6, B4, C5, {PromiseFor(2, 3, UNDER_SECOND)}, Deliver(PromiseFor(2, 3, UNDER_SECOND), 0), C6,
            {Request(3, 2, UNDER_SECOND)});
  }

  /** Nodes 2 and 3 decide two decrees of their own. */
  lemma OtherDecides()
    ensures Visits(LEFT, A6, B6, C9, {})
  {
    hide Step, Tick, Visits, PlanAfterStatus;
    OtherElected();
    OtherVoteSteps();
    OtherCommandSteps();
    OtherNextSteps();
    AtTwo(LEFT, A6, B4, C6, {Request(3, 2, UNDER_SECOND)}, Deliver(Request(3, 2, UNDER_SECOND), 0), B5, {Vote(2, 3, UNDER_SECOND)});
    AtThree(LEFT, A6, B5, C6, {Vote(2, 3, UNDER_SECOND)}, Deliver(Vote(2, 3, UNDER_SECOND), 0), C7, {});
    AtThree(LEFT, A6, B5, C7, {}, Submit(3, OTHER_COMMAND), C7.(commandQ := [OTHER_COMMAND]), {});
    AtThree(LEFT, A6, B5, C7.(commandQ := [OTHER_COMMAND]), {}, TickNode(3), C8, {Request(3, 2, NEXT_SECOND)});
    AtTwo(LEFT, A6, B5, C8, {Request(3, 2, NEXT_SECOND)}, Deliver(Request(3, 2, NEXT_SECOND), 0), B6, {Vote(2, 3, NEXT_SECOND)});
    AtThree(LEFT, A6, B6, C8, {Vote(2, 3, NEXT_SECOND)}, Deliver(Vote(2, 3, NEXT_SECOND), 0), C9, {});
  }

  /** Two votes that one episode leaves in transit break agreement in the next: nodes 1 and 3
      execute different commands for decree one. */
  lemma StaleVotesBreakAgreement() returns (before: System, after: System)
    ensures Reachable(CONFIG, before) && Runs.Visits(CONFIG, {}, before.nodes, LEFT)
    ensures ReachableAfter(CONFIG, LEFT, after) && 1 in after.nodes && 3 in after.nodes
    ensures after.nodes[1].log.decidedAt == after.nodes[3].log.decidedAt == [0, 1]
    ensures after.nodes[1].log.decided == [NO_COMMAND, FIRST_COMMAND]
    ensures after.nodes[3].log.decided == [NO_COMMAND, OTHER_COMMAND]
  {
    hide Reachable, ReachableAfter, Runs.Visits;
    VotesInTransit();
    OtherDecides();
    before := Runs.Visited(CONFIG, {}, map[1 := A5, 2 := B3, 3 := C3], LEFT);
    after := Runs.Visited(CONFIG, LEFT, map[1 := A6, 2 := B6, 3 := C9], {});
  }
}
