/** The remaining handlers, the timer and the message dispatch keep the invariants. */
module RslHandlers {
  import opened RslTypes
  import opened RslNodeSpec
  import opened RslSystem
  import opened RslInvariant
  import opened RslVotes
  import opened RslGrowth
  import opened RslSteps

  // ----- accepting -----

  /** The primary of a ballot moves to the next decree only after the previous one is chosen. */
  lemma PreviousIsChosen(logs: Logs, peers: set<nat>, s: NodeState, m: Message)
    requires LogsOk(logs, peers) && CoreOk(logs, peers, s)
    requires MsgOk(logs, m) && m.kind == AcceptReq
    requires m.decree == s.local.maxAccepted.decree + 1 && m.ballot.num == s.local.maxAccepted.ballot.num
    ensures Decreed(logs, peers, s.local.maxAccepted.decree, s.local.maxAccepted.command)
    ensures s.local.maxAccepted.command.Plain?
  {
    hide CoreOk, Elected, Chosen, VotedSomewhere, Reached, Ordered;
    var acc, e := s.local.maxAccepted, Accept(ProposalIn(m));
    AcceptedInLog(logs, peers, s);
    LogIsOwn(logs, peers, s);
    assert Own(logs, m.from, e);
    ProposalNumbered(logs, peers, m.from, e);
    SameOwner(logs, peers, acc.ballot.node, Accept(acc), m.from, e);
    assert Chosen(logs, peers, acc.ballot.num, acc.decree, acc.command);
    assert Decreed(logs, peers, acc.decree, acc.command);
  }

  lemma ProposalNumbered(logs: Logs, peers: set<nat>, o: nat, e: Entry)
    requires LogsOk(logs, peers) && Own(logs, o, e)
    ensures e.ballot.num >= 1
  {
    assert Elected(logs, peers, e);
  }

  lemma ExecuteBeforeCore(logs: Logs, peers: set<nat>, s: NodeState, m: Message)
    requires LogsOk(logs, peers) && CoreOk(logs, peers, s)
    requires MsgOk(logs, m) && m.kind == AcceptReq
    requires m.decree == s.local.maxAccepted.decree + 1 ==> m.ballot.num == s.local.maxAccepted.ballot.num
    ensures var t := ExecuteBefore(s, m.decree);
            && CoreOk(logs, peers, t) && t.id == s.id && t.log.entries == s.log.entries
            && t.local.maxAccepted == s.local.maxAccepted && t.local.maxPrepared == s.local.maxPrepared
            && (m.decree == s.local.maxAccepted.decree + 1 ==>
                  CaughtUp(t.log.decidedAt, s.local.maxAccepted.decree))
  {
    hide LogsOk, LogOk, MsgOk, DecidedOk, PendingOk, Decreed;
    if m.decree == s.local.maxAccepted.decree + 1 {
      PreviousIsChosen(logs, peers, s, m);
      ExecuteCore(logs, peers, s);
    }
  }

  lemma FollowGood(logs: Logs, peers: set<nat>, s: NodeState, m: Message)
    requires Ready(logs, peers, s)
    requires MsgOk(logs, m) && m.to == s.id && m.kind == AcceptReq
    requires m.ballot.num >= s.local.maxPrepared.num
    requires || (m.decree == s.local.maxAccepted.decree && m.ballot.num > s.local.maxAccepted.ballot.num)
             || (m.decree == s.local.maxAccepted.decree + 1 && m.ballot.num == s.local.maxAccepted.ballot.num)
    ensures Good(logs, peers, s, Follow(s, m))
  {
    hide LogsOk, CoreOk, StateOk, Grows, LogOk;
    var t, p := ExecuteBefore(s, m.decree), ProposalIn(m);
    var logs' := Append(logs, s.id, Accept(p));
    LogIsOwn(logs, peers, s);
    assert Own(logs, m.from, Accept(p));
    ProposalNumbered(logs, peers, m.from, Accept(p));
    ExecuteBeforeCore(logs, peers, s, m);
    LogIsOk(logs, peers, s);
    OrderedAppend(s.log.entries, s.local.maxAccepted, s.local.maxPrepared, Accept(p));
    LogsFollow(logs, peers, s.id, Accept(p));
    LogProposalCore(logs, peers, t, p);
    AppendGrows(logs, s.id, Accept(p));
    var u := LogProposal(t, p);
    var reply := Blank(AcceptResp).(to := m.from, accept := true, ballot := m.ballot, decree := m.decree);
    assert Accept(p) == logs'[s.id][|logs[s.id]|];
    assert VotedSlot(logs'[s.id], m.ballot.num, m.decree);
    SendCore(logs', peers, u, reply);
    SecondaryOk(logs', peers, Send(u, reply));
    assert Follow(s, m) == Stabilize(Send(u, reply), false);
  }

  lemma LogIsOk(logs: Logs, peers: set<nat>, s: NodeState)
    requires CoreOk(logs, peers, s)
    ensures LogOk(s.log.entries, s.local.maxAccepted, s.local.maxPrepared)
  {
  }

  lemma AcceptWhenActiveGood(logs: Logs, peers: set<nat>, s: NodeState, m: Message)
    requires Ready(logs, peers, s)
    requires MsgOk(logs, m) && m.to == s.id && m.kind == AcceptReq
    requires s.local.state != Initializing
    ensures Good(logs, peers, s, AcceptWhenActive(s, m))
  {
    hide LogsOk, CoreOk, StateOk, Grows, Follow, Initialize;
    var acc := s.local.maxAccepted;
    if m.decree < acc.decree || m.ballot.num < s.local.maxPrepared.num {
      SendOk(logs, peers, s, Blank(AcceptResp).(to := m.from, ballot := s.local.maxPrepared, decree := acc.decree));
      GoodInPlace(logs, peers, s, RefuseAccept(s, m));
    } else if m.decree == acc.decree && m.ballot.num == acc.ballot.num {
      GoodInPlace(logs, peers, s, s);
    } else if || (m.decree == acc.decree && m.ballot.num >= acc.ballot.num)
              || (m.decree == acc.decree + 1 && m.ballot.num == acc.ballot.num) {
      FollowGood(logs, peers, s, m);
    } else {
      InitializeGood(logs, peers, s);
    }
  }

  lemma InitializeGood(logs: Logs, peers: set<nat>, s: NodeState)
    requires Ready(logs, peers, s)
    ensures Good(logs, peers, s, Initialize(s))
  {
    hide LogsOk, CoreOk, StateOk, Grows;
    InitializeOk(logs, peers, s);
    GoodInPlace(logs, peers, s, Initialize(s));
  }

  lemma SecondaryGood(logs: Logs, peers: set<nat>, s: NodeState)
    requires Ready(logs, peers, s)
    ensures Good(logs, peers, s, Stabilize(s, false))
  {
    hide LogsOk, CoreOk, StateOk, Grows;
    SecondaryOk(logs, peers, s);
    GoodInPlace(logs, peers, s, Stabilize(s, false));
  }

  /** The fields no invariant mentions may change freely. */
  lemma SideFieldsOk(logs: Logs, peers: set<nat>, s: NodeState, t: NodeState)
    requires NodeOk(logs, peers, s)
    requires t == s.(proposalQ := t.proposalQ, timers := t.timers, learningFrom := t.learningFrom)
    ensures NodeOk(logs, peers, t)
  {
    hide LogOk, DecidedOk, PendingOk, CandidateOk, CountOk, PrimaryOk;
  }

  lemma AcceptWhenInitializingGood(logs: Logs, peers: set<nat>, s: NodeState, m: Message)
    requires Ready(logs, peers, s)
    requires MsgOk(logs, m) && m.to == s.id && m.kind == AcceptReq
    ensures Good(logs, peers, s, AcceptWhenInitializing(s, m))
  {
    hide LogsOk, CoreOk, StateOk, Grows;
    var t := AcceptWhenInitializing(s, m);
    if t == RefuseAccept(s, m) {
      SendOk(logs, peers, s, Blank(AcceptResp).(to := m.from, ballot := s.local.maxPrepared,
                                                decree := s.local.maxAccepted.decree));
    } else {
      SideFieldsOk(logs, peers, s, t);
    }
    GoodInPlace(logs, peers, s, t);
  }

  lemma HandleAcceptRequestGood(logs: Logs, peers: set<nat>, s: NodeState, m: Message)
    requires Ready(logs, peers, s)
    requires MsgOk(logs, m) && m.to == s.id && m.kind == AcceptReq
    ensures Good(logs, peers, s, HandleAcceptRequest(s, m))
  {
    hide LogsOk, CoreOk, StateOk, MsgOk, Grows, AcceptWhenActive, AcceptWhenInitializing;
    if s.local.state == Initializing {
      AcceptWhenInitializingGood(logs, peers, s, m);
    } else {
      AcceptWhenActiveGood(logs, peers, s, m);
    }
    GoodInPlace(logs, peers, s, s);
  }

  lemma HandleNotAcceptGood(logs: Logs, peers: set<nat>, s: NodeState, m: Message)
    requires Ready(logs, peers, s)
    ensures Good(logs, peers, s, HandleNotAccept(s, m))
  {
    hide LogsOk, CoreOk, StateOk, Grows, Initialize;
    GoodInPlace(logs, peers, s, s);
    InitializeGood(logs, peers, s);
    if m.ballot.num > s.local.maxPrepared.num {
      LogIsOwn(logs, peers, s);
      RaiseCore(logs, peers, s, m.ballot);
      AppendGrows(logs, s.id, Prepare(m.ballot));
      SecondaryOk(Append(logs, s.id, Prepare(m.ballot)), peers, RaisePrepared(s, m.ballot));
    }
  }

  // ----- counting votes -----

  lemma RecordVoteOk(logs: Logs, peers: set<nat>, s: NodeState, m: Message)
    requires Ready(logs, peers, s)
    requires MsgOk(logs, m) && m.to == s.id && m.kind == AcceptResp && m.accept
    requires IsStable(s)
    requires s.local.maxAccepted.ballot.num == m.ballot.num && s.local.maxAccepted.decree == m.decree
    ensures NodeOk(logs, peers, RecordVote(s, m))
  {
    hide LogsOk, LogOk, DecidedOk, PendingOk, CandidateOk, PrimaryOk, VotedSlot;
  }

  /** A majority of votes for the accepted slot means its command is chosen. */
  lemma MajorityChooses(logs: Logs, peers: set<nat>, s: NodeState)
    requires Ready(logs, peers, s)
    requires IsStable(s) && IsMajority(s, |s.remoteStates| + 1)
    requires s.local.maxAccepted.ballot.num >= 1
    ensures Chosen(logs, peers, s.local.maxAccepted.ballot.num, s.local.maxAccepted.decree, s.local.maxAccepted.command)
  {
    hide LogsOk, LogOk, DecidedOk, PendingOk, PrimaryOk, VotedSomewhere, Own, Reached;
    var acc := s.local.maxAccepted;
    AcceptedInLog(logs, peers, s);
    var q := s.remoteStates.Keys + {s.id};
    assert |q| == |s.remoteStates.Keys| + 1 && |s.remoteStates.Keys| == |s.remoteStates|;
    forall a | a in q ensures a in logs && Voted(logs[a], acc.ballot.num, acc.decree, acc.command) {
      if a != s.id {
        var e :| e in logs[a] && e.accepted && e.ballot.num == acc.ballot.num && e.decree == acc.decree;
        SameSlot(logs, peers, a, e, s.id, Accept(acc));
      }
    }
    assert ChosenBy(logs, q, acc.ballot.num, acc.decree, acc.command);
  }

  lemma VoteIsNumbered(logs: Logs, peers: set<nat>, m: Message)
    requires LogsOk(logs, peers) && MsgOk(logs, m) && m.kind == AcceptResp && m.accept
    ensures m.ballot.num >= 1
  {
    hide Elected, Chosen;
    var e :| e in logs[m.from] && e.accepted && e.ballot.num == m.ballot.num && e.decree == m.decree;
    ProposalNumbered(logs, peers, e.ballot.node, e);
  }

  /** Executing the decree whose vote count just reached a majority. */
  lemma ConcludeOk(logs: Logs, peers: set<nat>, s: NodeState)
    requires Ready(logs, peers, s)
    requires IsStable(s) && IsMajority(s, |s.remoteStates| + 1)
    requires s.local.maxAccepted.ballot.num >= 1
    ensures NodeOk(logs, peers, AddToExecutionQueue(s.(readyToPropose := true, timers := s.timers.(action := MAX_INT)),
                                                    s.local.maxAccepted))
  {
    hide LogsOk, LogOk, DecidedOk, PendingOk, CountOk, Chosen, Own, VotedSomewhere, Reached, IsMajority;
    var acc := s.local.maxAccepted;
    MajorityChooses(logs, peers, s);
    AcceptedInLog(logs, peers, s);
    assert Decreed(logs, peers, acc.decree, acc.command);
    var t := s.(readyToPropose := true, timers := s.timers.(action := MAX_INT));
    ExecuteCore(logs, peers, t);
  }

  lemma HandleAcceptResponseGood(logs: Logs, peers: set<nat>, s: NodeState, m: Message)
    requires Ready(logs, peers, s)
    requires MsgOk(logs, m) && m.to == s.id && m.kind == AcceptResp && m.accept
    ensures Good(logs, peers, s, HandleAcceptResponse(s, m))
  {
    hide LogsOk, CoreOk, StateOk, MsgOk, Grows;
    var t := HandleAcceptResponse(s, m);
    if t != s {
      RecordVoteOk(logs, peers, s, m);
      VoteIsNumbered(logs, peers, m);
      if IsMajority(RecordVote(s, m), |RecordVote(s, m).remoteStates| + 1) {
        ConcludeOk(logs, peers, RecordVote(s, m));
      }
    }
    GoodInPlace(logs, peers, s, t);
  }

  // ----- proposing -----

  /** The next proposal of a ready primary inherits the election of the one before it. */
  lemma NextIsElected(logs: Logs, peers: set<nat>, acc: Proposal, c: Command)
    requires LogsOk(logs, peers) && Own(logs, acc.ballot.node, Accept(acc))
    ensures Elected(logs, peers, Accept(Proposal(acc.ballot, acc.decree + 1, c)))
  {
    assert Elected(logs, peers, Accept(acc));
    var q, d0, pb :| ElectedBy(logs, peers, Accept(acc), q, d0, pb);
    assert ElectedBy(logs, peers, Accept(Proposal(acc.ballot, acc.decree + 1, c)), q, d0, pb);
  }

  lemma ProposeNextGood(logs: Logs, peers: set<nat>, s: NodeState)
    requires Ready(logs, peers, s)
    requires s.local.state == StablePrimary && s.readyToPropose && |s.commandQ| > 0
    ensures Good(logs, peers, s, SendNextCommand(s))
  {
    hide LogsOk, LogOk, PendingOk, DecidedOk, Elected, Chosen, Reached, VotedSomewhere, Grows, Own, CandidateOk;
    var acc := s.local.maxAccepted;
    var p := Proposal(acc.ballot, acc.decree + 1, s.commandQ[0]);
    AcceptedInLog(logs, peers, s);
    NextIsElected(logs, peers, acc, s.commandQ[0]);
    forall x | Own(logs, s.id, x) && x.ballot.num == p.ballot.num && x.decree == p.decree - 1
      ensures Chosen(logs, peers, x.ballot.num, x.decree, x.command)
    {
      OwnIsAccepted(logs, s.id, x);
      SameSlot(logs, peers, s.id, x, s.id, Accept(acc));
    }
    var t := s.(remoteStates := map[]);
    ProposeCore(logs, peers, t, p);
    AppendGrows(logs, s.id, Accept(p));
    var u := LogProposal(Broadcast(t, AcceptReqFor(p)), p);
    ResetOk(Append(logs, s.id, Accept(p)), peers, u, SendNextCommand(s));
  }

  lemma OwnIsAccepted(logs: Logs, o: nat, e: Entry)
    requires Own(logs, o, e)
    ensures o in logs && e in logs[o] && e.accepted
  {
  }

  /** A primary that has just proposed waits with an empty count. */
  lemma ResetOk(logs: Logs, peers: set<nat>, u: NodeState, t: NodeState)
    requires CoreOk(logs, peers, u)
    requires u.local.state == StablePrimary && u.remoteStates == map[] && |u.commandQ| > 0
    requires t == u.(commandQ := u.commandQ[1..], readyToPropose := false, timers := t.timers)
    requires u.local.maxAccepted.ballot == u.local.maxPrepared
    requires u.local.maxPrepared.node == u.id && u.local.maxPrepared.num >= 1
    ensures NodeOk(logs, peers, t)
  {
    hide LogOk, DecidedOk, PendingOk;
  }

  lemma ResendGood(logs: Logs, peers: set<nat>, s: NodeState)
    requires Ready(logs, peers, s)
    requires s.local.state == StablePrimary && (!s.readyToPropose || |s.commandQ| == 0)
    ensures Good(logs, peers, s, SendNextCommand(s))
  {
    hide LogsOk, LogOk, DecidedOk, PendingOk, CandidateOk, Chosen, Reached, VotedSomewhere, Grows, Own;
    var acc := s.local.maxAccepted;
    var t := s.(remoteStates := map[]);
    AcceptedInLog(logs, peers, s);
    BroadcastCore(logs, peers, t, AcceptReqFor(acc));
    GoodInPlace(logs, peers, s, SendNextCommand(s));
  }

  lemma SendNextCommandGood(logs: Logs, peers: set<nat>, s: NodeState)
    requires Ready(logs, peers, s)
    ensures Good(logs, peers, s, SendNextCommand(s))
  {
    hide NodeOk, LogsOk, Grows;
    if s.local.state != StablePrimary {
      GoodInPlace(logs, peers, s, s);
    } else if s.readyToPropose && |s.commandQ| > 0 {
      ProposeNextGood(logs, peers, s);
    } else {
      ResendGood(logs, peers, s);
    }
  }

  // ----- timers -----

  lemma TickElectionGood(logs: Logs, peers: set<nat>, s: NodeState)
    requires Ready(logs, peers, s)
    ensures Good(logs, peers, s, TickElection(s))
  {
    hide NodeOk, LogsOk, Grows, Initialize;
    InitializeGood(logs, peers, s);
    GoodInPlace(logs, peers, s, s);
  }

  lemma TickHeartBeatGood(logs: Logs, peers: set<nat>, s: NodeState)
    requires Ready(logs, peers, s)
    ensures Good(logs, peers, s, TickHeartBeat(s))
  {
    hide NodeOk, LogsOk, Grows, SendNextCommand;
    SendNextCommandGood(logs, peers, s);
    GoodInPlace(logs, peers, s, s);
  }

  lemma TickActionGood(logs: Logs, peers: set<nat>, s: NodeState)
    requires Ready(logs, peers, s)
    ensures Good(logs, peers, s, TickAction(s))
  {
    hide NodeOk, LogsOk, Grows, SendNextCommand, Initialize, PrepareBallot;
    SendNextCommandGood(logs, peers, s);
    InitializeGood(logs, peers, s);
    PrepareBallotGood(logs, peers, s);
    GoodInPlace(logs, peers, s, s);
  }

  lemma TickGood(logs: Logs, peers: set<nat>, s: NodeState)
    requires Ready(logs, peers, s)
    ensures Good(logs, peers, s, Tick(s))
  {
    hide NodeOk, LogsOk, Grows, TickElection, TickHeartBeat, TickAction;
    var t0 := s.(timers := s.timers.(ticks := Wrap64(s.timers.ticks + 1)));
    SideFieldsOk(logs, peers, s, t0);
    GoodInPlace(logs, peers, s, t0);
    KeepLogs(logs, peers, s, t0);
    var t1 := TickElection(t0);
    TickElectionGood(logs, peers, t0);
    var logs1 := logs[s.id := t1.log.entries];
    var t2 := TickHeartBeat(t1);
    TickHeartBeatGood(logs1, peers, t1);
    var logs2 := logs1[s.id := t2.log.entries];
    TickActionGood(logs2, peers, t2);
    GoodThen(logs, peers, t0, t1, t2);
    assert logs[s.id := t2.log.entries] == logs2;
    GoodThen(logs, peers, t0, t2, TickAction(t2));
  }

  lemma ProposeGood(logs: Logs, peers: set<nat>, s: NodeState, c: Command)
    requires Ready(logs, peers, s) && c.Plain?
    ensures Good(logs, peers, s, Propose(s, c))
  {
    hide LogsOk, LogOk, DecidedOk, PendingOk, CandidateOk, CountOk, PrimaryOk, Grows;
    GoodInPlace(logs, peers, s, Propose(s, c));
  }

  // ----- statuses -----

  lemma HandleStatusRequestGood(logs: Logs, peers: set<nat>, s: NodeState, m: Message)
    requires Ready(logs, peers, s)
    requires MsgOk(logs, m) && m.to == s.id
    ensures Good(logs, peers, s, HandleStatusRequest(s, m))
  {
    hide LogsOk, CoreOk, StateOk, Grows;
    SendOk(logs, peers, s, Blank(StatusResp).(to := m.from, ballot := s.local.maxAccepted.ballot,
                                              decree := s.local.maxAccepted.decree, timestamp := s.timers.lastChosen));
    GoodInPlace(logs, peers, s, HandleStatusRequest(s, m));
  }

  lemma RecordStatusOk(logs: Logs, peers: set<nat>, s: NodeState, m: Message)
    requires NodeOk(logs, peers, s) && s.local.state == Initializing
    requires MsgOk(logs, m) && m.to == s.id
    ensures NodeOk(logs, peers, RecordStatus(s, m))
  {
    hide LogOk, DecidedOk, PendingOk, CandidateOk, CountOk, PrimaryOk;
  }

  lemma CountedArePeers(logs: Logs, peers: set<nat>, s: NodeState)
    requires NodeOk(logs, peers, s)
    ensures s.remoteStates.Keys <= peers - {s.id}
  {
  }

  lemma ActOnStatusesGood(logs: Logs, peers: set<nat>, s: NodeState, draw: nat)
    requires Ready(logs, peers, s)
    requires PlanAfterStatus(s).Learn? ==> draw in PlanAfterStatus(s).candidates
    ensures Good(logs, peers, s, ActOnStatuses(s, draw))
  {
    hide NodeOk, LogsOk, Grows, PrepareBallot, Stabilize;
    match PlanAfterStatus(s)
    case Return => GoodInPlace(logs, peers, s, s);
    case Learn(_) =>
      CountedArePeers(logs, peers, s);
      assert draw in s.remoteStates.Keys;
      LearnVotesOk(logs, peers, s, draw);
      GoodInPlace(logs, peers, s, LearnVotes(s, draw));
    case Proceed =>
      var t := SetElectionTime(s);
      SideFieldsOk(logs, peers, s, t);
      KeepLogs(logs, peers, s, t);
      PrepareBallotGood(logs, peers, t);
      SecondaryGood(logs, peers, t);
  }

  lemma HandleStatusResponseGood(logs: Logs, peers: set<nat>, s: NodeState, m: Message, draw: nat)
    requires Ready(logs, peers, s)
    requires MsgOk(logs, m) && m.to == s.id && m.kind == StatusResp && DrawOk(s, m, draw)
    ensures Good(logs, peers, s, HandleStatusResponse(s, m, draw))
  {
    hide NodeOk, LogsOk, Grows, ActOnStatuses, PlanAfterStatus, IsMajority;
    if s.local.state != Initializing {
      NodeIsPeer(logs, peers, s);
      LearnVotesOk(logs, peers, s, m.from);
      GoodInPlace(logs, peers, s, LearnVotes(s, m.from));
      GoodInPlace(logs, peers, s, s);
    } else {
      var t := RecordStatus(s, m);
      RecordStatusOk(logs, peers, s, m);
      GoodInPlace(logs, peers, s, t);
      KeepLogs(logs, peers, s, t);
      if IsMajority(t, 1 + |t.remoteStates|) {
        ActOnStatusesGood(logs, peers, t, draw);
      }
    }
  }

  lemma NodeIsPeer(logs: Logs, peers: set<nat>, s: NodeState)
    requires NodeOk(logs, peers, s)
    ensures s.id in peers && logs.Keys == peers
  {
  }

  // ----- fetching -----

  lemma FetchFindsEarlier(log: Entries, d: int, j: nat)
    requires j < |log| && log[j].accepted && log[j].decree >= d
    ensures AcceptedFrom(log, d) != []
  {
    if j < |log| - 1 {
      FetchFindsEarlier(log[..|log| - 1], d, j);
    }
  }

  /** A gapless log answers a fetch from a decree it has reached with that decree first. */
  lemma {:induction false} FetchStartsThere(log: Entries, d: int)
    requires Gapless(log) && 0 <= d
    requires AcceptedFrom(log, d) != []
    ensures AcceptedFrom(log, d)[0].decree == d
  {
    var n := |log| - 1;
    var before := log[..n];
    if AcceptedFrom(before, d) != [] {
      GaplessPrefix(log, n);
      FetchStartsThere(before, d);
    } else if log[n].decree > d {
      var j :| 0 <= j < n && log[j].accepted && log[j].decree == log[n].decree - 1;
      FetchFindsEarlier(before, d, j);
    }
  }

  lemma GaplessPrefix(log: Entries, n: nat)
    requires Gapless(log) && n <= |log|
    ensures Gapless(log[..n])
  {
    forall i | 0 <= i < n && log[..n][i].accepted && log[..n][i].decree != 0
      ensures AcceptedBefore(log[..n], i, log[..n][i].decree - 1)
    {
      var j :| 0 <= j < i && log[j].accepted && log[j].decree == log[i].decree - 1;
      assert log[..n][j] == log[j];
    }
  }

  lemma HandleFetchRequestGood(logs: Logs, peers: set<nat>, s: NodeState, m: Message)
    requires Ready(logs, peers, s)
    requires MsgOk(logs, m) && m.to == s.id && m.kind == FetchReq
    ensures Good(logs, peers, s, HandleFetchRequest(s, m))
  {
    hide LogsOk, CoreOk, StateOk, Grows, LogOk, AcceptedFrom;
    LogIsOk(logs, peers, s);
    var found := AcceptedFrom(s.log.entries, m.decree);
    if found != [] {
      LogIsGapless(s.log.entries, s.local.maxAccepted, s.local.maxPrepared);
      FetchStartsThere(s.log.entries, m.decree);
    }
    SendOk(logs, peers, s, Blank(FetchResp).(to := m.from, proposals := found));
    GoodInPlace(logs, peers, s, HandleFetchRequest(s, m));
  }

  lemma LogIsGapless(log: Entries, acc: Proposal, prep: Ballot)
    requires LogOk(log, acc, prep)
    ensures Gapless(log)
  {
  }

  /** A fetch response that can be delivered never changes what is accepted, prepared or
      executed: it is dropped, or it sends the node back to asking for statuses. */
  lemma FetchChangesNothing(logs: Logs, peers: set<nat>, s: NodeState, m: Message)
    requires NodeOk(logs, peers, s)
    requires MsgOk(logs, m) && m.to == s.id && m.kind == FetchResp
    ensures || HandleFetchResponse(s, m) == s
            || HandleFetchResponse(s, m) == s.(learningFrom := 0)
            || (m.proposals == [] && HandleFetchResponse(s, m) == Initialize(s).(learningFrom := 0))
  {
    hide DecidedOk, PendingOk, StateOk, Ordered, Gapless, Initialize;
    if m.proposals != [] {
      var d := m.proposals[0].decree;
      if d > 0 {
        var e :| e in logs[s.id] && e.accepted && e.decree >= d;
      }
      assert d <= s.local.maxAccepted.decree;
    }
  }

  lemma HandleFetchResponseGood(logs: Logs, peers: set<nat>, s: NodeState, m: Message)
    requires Ready(logs, peers, s)
    requires MsgOk(logs, m) && m.to == s.id && m.kind == FetchResp
    ensures Good(logs, peers, s, HandleFetchResponse(s, m))
  {
    hide LogsOk, CoreOk, StateOk, Grows, HandleFetchResponse, MsgOk;
    var t := HandleFetchResponse(s, m);
    FetchChangesNothing(logs, peers, s, m);
    InitializeOk(logs, peers, s);
    SideFieldsOk(logs, peers, s, s.(learningFrom := 0));
    SideFieldsOk(logs, peers, Initialize(s), Initialize(s).(learningFrom := 0));
    GoodInPlace(logs, peers, s, t);
  }

  // ----- dispatch -----

  lemma StepGood(logs: Logs, peers: set<nat>, s: NodeState, m: Message, draw: nat)
    requires Ready(logs, peers, s)
    requires MsgOk(logs, m) && m.to == s.id && DrawOk(s, m, draw)
    ensures Good(logs, peers, s, Step(s, m, draw))
  {
    hide NodeOk, LogsOk, Grows, MsgOk, DrawOk, HandleAcceptRequest, HandleAcceptResponse, HandleNotAccept,
         HandleFetchRequest, HandleFetchResponse, HandlePrepareRequest, HandlePrepareResponse,
         HandleStatusRequest, HandleStatusResponse;
    GoodInPlace(logs, peers, s, s);
    match m.kind
    case AcceptReq => HandleAcceptRequestGood(logs, peers, s, m);
    case AcceptResp =>
      HandleNotAcceptGood(logs, peers, s, m);
      if m.accept {
        HandleAcceptResponseGood(logs, peers, s, m);
      }
    case FetchReq => HandleFetchRequestGood(logs, peers, s, m);
    case FetchResp => HandleFetchResponseGood(logs, peers, s, m);
    case PrepareReq => HandlePrepareRequestGood(logs, peers, s, m);
    case PrepareResp =>
      HandleNotAcceptGood(logs, peers, s, m);
      if m.accept {
        HandlePrepareResponseGood(logs, peers, s, m);
      }
    case StatusReq => HandleStatusRequestGood(logs, peers, s, m);
    case StatusResp => HandleStatusResponseGood(logs, peers, s, m, draw);
    case CommandMessage =>
  }
}
