/** Every operation of a node keeps the invariants of the node and of the logs. */
module RslSteps {
  import opened RslTypes
  import opened RslNodeSpec
  import opened RslSystem
  import opened RslInvariant
  import opened RslVotes
  import opened RslGrowth

  /** Node `s` moves to `s'`; the joint logs grow accordingly and everything still holds. */
  ghost predicate Good(logs: Logs, peers: set<nat>, s: NodeState, s': NodeState) {
    && s.id in logs
    && s'.id == s.id
    && var logs' := logs[s.id := s'.log.entries];
    && Grows(logs, logs')
    && LogsOk(logs', peers)
    && NodeOk(logs', peers, s')
  }

  /** The facts every operation starts from. */
  ghost predicate Ready(logs: Logs, peers: set<nat>, s: NodeState) {
    LogsOk(logs, peers) && NodeOk(logs, peers, s)
  }

  lemma GoodThen(logs: Logs, peers: set<nat>, s: NodeState, t: NodeState, u: NodeState)
    requires Good(logs, peers, s, t) && Good(logs[s.id := t.log.entries], peers, t, u)
    ensures Good(logs, peers, s, u)
  {
    hide LogsOk, NodeOk;
    var l1 := logs[s.id := t.log.entries];
    assert l1[t.id := u.log.entries] == logs[s.id := u.log.entries];
  }

  /** A move that leaves the log alone is good when it keeps the node invariant. */
  lemma GoodInPlace(logs: Logs, peers: set<nat>, s: NodeState, s': NodeState)
    requires Ready(logs, peers, s)
    requires s'.id == s.id && s'.log.entries == s.log.entries
    requires NodeOk(logs, peers, s')
    ensures Good(logs, peers, s, s')
  {
    hide LogsOk, DecidedOk, PendingOk, LogOk, StateOk;
    assert logs[s.id := s'.log.entries] == logs;
  }

  // ----- steps shared by the handlers -----

  lemma CopiesOk(logs: Logs, peers: seq<nat>, m: Message)
    requires forall p | p in peers && p != m.from :: MsgOk(logs, m.(to := p))
    ensures PendingOk(logs, Copies(peers, m))
  {
    hide MsgOk;
  }

  lemma BroadcastCore(logs: Logs, peers: set<nat>, s: NodeState, m: Message)
    requires CoreOk(logs, peers, s)
    requires forall p | p in peers && p != s.id :: MsgOk(logs, m.(from := s.id, to := p))
    ensures CoreOk(logs, peers, Broadcast(s, m))
  {
    hide MsgOk, LogOk, DecidedOk;
    var stamped := m.(from := s.id);
    forall p | p in s.config.peers && p != stamped.from ensures MsgOk(logs, stamped.(to := p)) {
      assert p in Peers(s.config);
      assert stamped.(to := p) == m.(from := s.id, to := p);
    }
    CopiesOk(logs, s.config.peers, stamped);
  }

  lemma SendCore(logs: Logs, peers: set<nat>, s: NodeState, m: Message)
    requires CoreOk(logs, peers, s)
    requires MsgOk(logs, m.(from := s.id))
    ensures CoreOk(logs, peers, Send(s, m))
  {
    hide MsgOk, LogOk, DecidedOk;
  }

  lemma SendOk(logs: Logs, peers: set<nat>, s: NodeState, m: Message)
    requires NodeOk(logs, peers, s)
    requires MsgOk(logs, m.(from := s.id))
    ensures NodeOk(logs, peers, Send(s, m))
  {
    hide CoreOk, MsgOk, CandidateOk, CountOk, PrimaryOk;
    SendCore(logs, peers, s, m);
  }

  lemma InitializeOk(logs: Logs, peers: set<nat>, s: NodeState)
    requires CoreOk(logs, peers, s)
    ensures NodeOk(logs, peers, Initialize(s))
  {
    hide DecidedOk, PendingOk, LogOk;
    var t := s.(local := s.local.(state := Initializing), remoteStates := map[]);
    BroadcastCore(logs, peers, t, Blank(StatusReq));
  }

  lemma SecondaryOk(logs: Logs, peers: set<nat>, s: NodeState)
    requires CoreOk(logs, peers, s)
    ensures NodeOk(logs, peers, Stabilize(s, false))
  {
    hide DecidedOk, PendingOk, LogOk;
  }

  lemma DecidedAppend(logs: Logs, peers: set<nat>, decided: seq<Command>, at: seq<int>, decree: int, c: Command)
    requires DecidedOk(logs, peers, decided, at, decree) && Decreed(logs, peers, decree, c)
    ensures DecidedOk(logs, peers, decided + [c], at + [decree], decree) && CaughtUp(at + [decree], decree)
  {
    hide Decreed;
  }

  /** Executing the accepted proposal, once its command is known to be chosen. */
  lemma ExecuteCore(logs: Logs, peers: set<nat>, s: NodeState)
    requires CoreOk(logs, peers, s)
    requires Decreed(logs, peers, s.local.maxAccepted.decree, s.local.maxAccepted.command)
    requires s.local.maxAccepted.command.Plain?
    ensures CoreOk(logs, peers, AddToExecutionQueue(s, s.local.maxAccepted))
    ensures CaughtUp(AddToExecutionQueue(s, s.local.maxAccepted).log.decidedAt, s.local.maxAccepted.decree)
  {
    hide Decreed, LogOk, PendingOk, DecidedOk;
    DecidedAppend(logs, peers, s.log.decided, s.log.decidedAt, s.local.maxAccepted.decree, s.local.maxAccepted.command);
  }

  lemma LogProposalCore(logs: Logs, peers: set<nat>, s: NodeState, p: Proposal)
    requires LogsOk(logs, peers) && CoreOk(logs, peers, s)
    requires p.ballot.num >= s.local.maxPrepared.num && p.ballot.num >= 1
    requires || (p.decree == s.local.maxAccepted.decree && p.ballot.num > s.local.maxAccepted.ballot.num)
             || (p.decree == s.local.maxAccepted.decree + 1 && p.ballot.num == s.local.maxAccepted.ballot.num
                 && CaughtUp(s.log.decidedAt, s.local.maxAccepted.decree))
    ensures CoreOk(Append(logs, s.id, Accept(p)), peers, LogProposal(s, p))
  {
    hide LogsOk, LogOk, PendingOk, Grows, Decreed;
    var logs' := Append(logs, s.id, Accept(p));
    AppendGrows(logs, s.id, Accept(p));
    LogAppendAccept(s.log.entries, s.local.maxAccepted, s.local.maxPrepared, p);
    DecidedKept(logs, logs', peers, s.log.decided, s.log.decidedAt, s.local.maxAccepted.decree);
    PendingKept(logs, logs', s.pending);
  }

  lemma RaiseCore(logs: Logs, peers: set<nat>, s: NodeState, b: Ballot)
    requires LogsOk(logs, peers) && CoreOk(logs, peers, s)
    requires b.num > s.local.maxPrepared.num
    ensures LogsOk(Append(logs, s.id, Prepare(b)), peers)
    ensures CoreOk(Append(logs, s.id, Prepare(b)), peers, RaisePrepared(s, b))
    ensures Promised(s.log.entries + [Prepare(b)], b, s.local.maxAccepted.decree, s.local.maxAccepted.ballot.num)
  {
    hide LogsOk, LogOk, PendingOk, Grows, DecidedOk, Ordered, Promised;
    var acc, prep := s.local.maxAccepted, s.local.maxPrepared;
    var logs' := Append(logs, s.id, Prepare(b));
    AppendGrows(logs, s.id, Prepare(b));
    LogAppendPrepare(s.log.entries, acc, prep, b);
    LogIsOrdered(s.log.entries + [Prepare(b)], acc, b);
    LogsPrepare(logs, peers, s.id, b);
    DecidedKept(logs, logs', peers, s.log.decided, s.log.decidedAt, acc.decree);
    PendingKept(logs, logs', s.pending);
    RaisePromises(s.log.entries, acc, prep, b);
  }

  lemma LogIsOrdered(log: Entries, acc: Proposal, prep: Ballot)
    requires LogOk(log, acc, prep)
    ensures Ordered(log)
  {
  }

  /** Raising the prepared ballot promises it: nothing in the log has reached it before. */
  lemma RaisePromises(log: Entries, acc: Proposal, prep: Ballot, b: Ballot)
    requires LogOk(log, acc, prep) && b.num > prep.num
    ensures Promised(log + [Prepare(b)], b, acc.decree, acc.ballot.num)
  {
    var log' := log + [Prepare(b)];
    assert forall j | 0 <= j < |log| :: log'[j] == log[j] && log[j] in log;
    assert PromisedAt(log', |log|, b, acc.decree, acc.ballot.num);
  }

  lemma AcceptedInLog(logs: Logs, peers: set<nat>, s: NodeState)
    requires LogsOk(logs, peers) && CoreOk(logs, peers, s)
    ensures var acc := s.local.maxAccepted;
            && 0 <= acc.ballot.num <= s.local.maxPrepared.num && 0 <= acc.decree
            && acc.command.Plain?
            && Reached(s.log.entries, acc.decree)
            && (acc.ballot.num != 0 ==>
                  && Accept(acc) in logs[s.id] && Own(logs, acc.ballot.node, Accept(acc))
                  && VotedSomewhere(logs, acc.ballot.num, acc.decree, acc.command))
  {
    hide DecidedOk, PendingOk, Ordered, Gapless;
    var acc := s.local.maxAccepted;
    if acc != ZERO_PROPOSAL {
      assert Accept(acc) in s.log.entries;
      assert Voted(logs[s.id], acc.ballot.num, acc.decree, acc.command);
    }
  }

  lemma LearnVotesOk(logs: Logs, peers: set<nat>, s: NodeState, n: nat)
    requires Ready(logs, peers, s)
    requires n in peers && n != s.id
    ensures NodeOk(logs, peers, LearnVotes(s, n))
  {
    hide LogsOk, LogOk, DecidedOk, PendingOk, CandidateOk, CountOk, PrimaryOk, Reached;
    var acc := s.local.maxAccepted;
    AcceptedInLog(logs, peers, s);
    SendOk(logs, peers, s, Blank(FetchReq).(to := n, decree := acc.decree, ballot := acc.ballot));
  }

  // ----- elections -----

  lemma AskPromises(logs: Logs, peers: set<nat>, s: NodeState)
    requires LogsOk(logs, peers) && CoreOk(logs, peers, s)
    requires s.local.state == Preparing
    requires s.local.maxPrepared.node == s.id
    requires s.local.maxAccepted.ballot.num < s.local.maxPrepared.num
    requires Promised(logs[s.id], s.local.maxPrepared, s.local.maxAccepted.decree, s.local.maxAccepted.ballot.num)
    ensures NodeOk(logs, peers, PrepareBallot(s))
  {
    hide LogsOk, LogOk, DecidedOk, PendingOk, Promised, VotedSomewhere, Reached;
    var acc := s.local.maxAccepted;
    var t := s.(local := s.local.(oldFreshest := acc), remoteStates := map[]);
    AcceptedInLog(logs, peers, s);
    BroadcastCore(logs, peers, t, Blank(PrepareReq).(decree := acc.decree, ballot := t.local.maxPrepared));
  }

  lemma PrepareBallotGood(logs: Logs, peers: set<nat>, s: NodeState)
    requires Ready(logs, peers, s)
    ensures Good(logs, peers, s, PrepareBallot(s))
  {
    hide LogsOk, LogOk, PendingOk, DecidedOk, Grows, Promised, AllPromised, CountOk, PrimaryOk;
    if s.local.state == Initializing {
      var b := Ballot(s.local.maxPrepared.num + 1, s.id);
      var t := TakeBallot(s);
      RaiseCore(logs, peers, s, b);
      AcceptedInLog(logs, peers, s);
      AskPromises(Append(logs, s.id, Prepare(b)), peers, t);
      AppendGrows(logs, s.id, Prepare(b));
      assert PrepareBallot(s) == PrepareBallot(t);
    } else if s.local.state == Preparing {
      AskPromises(logs, peers, s);
      GoodInPlace(logs, peers, s, PrepareBallot(s));
    } else {
      GoodInPlace(logs, peers, s, s);
    }
  }

  lemma PromiseCore(logs: Logs, peers: set<nat>, s: NodeState, m: Message)
    requires LogsOk(logs, peers) && CoreOk(logs, peers, s)
    requires MsgOk(logs, m) && m.to == s.id
    requires m.ballot.num > s.local.maxPrepared.num
    ensures LogsOk(Append(logs, s.id, Prepare(m.ballot)), peers)
    ensures CoreOk(Append(logs, s.id, Prepare(m.ballot)), peers, Promise(s, m))
  {
    hide LogsOk, LogOk, PendingOk, DecidedOk, Promised, Reached, VotedSomewhere, Own;
    var acc := s.local.maxAccepted;
    RaiseCore(logs, peers, s, m.ballot);
    AcceptedInLog(logs, peers, s);
    SendCore(Append(logs, s.id, Prepare(m.ballot)), peers, RaisePrepared(s, m.ballot),
             Blank(PrepareResp).(to := m.from, accept := true, ballot := m.ballot, proposalBallot := acc.ballot,
                                 decree := acc.decree, command := acc.command));
  }

  lemma HandlePrepareRequestGood(logs: Logs, peers: set<nat>, s: NodeState, m: Message)
    requires Ready(logs, peers, s)
    requires MsgOk(logs, m) && m.to == s.id
    ensures Good(logs, peers, s, HandlePrepareRequest(s, m))
  {
    hide LogsOk, CoreOk, StateOk, Grows;
    if m.ballot.num < s.local.maxPrepared.num || m.decree < s.local.maxAccepted.decree {
      SendOk(logs, peers, s, Blank(PrepareResp).(to := m.from, ballot := s.local.maxPrepared,
                                                 decree := s.local.maxAccepted.decree));
      GoodInPlace(logs, peers, s, RefusePrepare(s, m));
    } else if s.local.state == Initializing {
      GoodInPlace(logs, peers, s, s);
    } else if m.ballot.num > s.local.maxPrepared.num {
      LogIsOwn(logs, peers, s);
      PromiseCore(logs, peers, s, m);
      var t, logs' := Promise(s, m), Append(logs, s.id, Prepare(m.ballot));
      InitializeOk(logs', peers, t);
      SecondaryOk(logs', peers, t);
      AppendGrows(logs, s.id, Prepare(m.ballot));
    } else {
      InitializeOk(logs, peers, s);
      SecondaryOk(logs, peers, s);
      GoodInPlace(logs, peers, s, HandlePrepareRequest(s, m));
    }
  }

  lemma LogIsOwn(logs: Logs, peers: set<nat>, s: NodeState)
    requires CoreOk(logs, peers, s)
    ensures s.id in peers && logs.Keys == peers && logs[s.id] == s.log.entries
  {
  }

  /** Counting a promise keeps the candidate's evidence about its quorum. */
  lemma RecordPromiseOk(logs: Logs, peers: set<nat>, s: NodeState, m: Message)
    requires Ready(logs, peers, s)
    requires MsgOk(logs, m) && m.to == s.id
    requires m.kind == PrepareResp && m.accept
    requires s.local.state == Preparing && s.local.maxPrepared == m.ballot && s.local.maxAccepted.decree == m.decree
    ensures NodeOk(logs, peers, RecordPromise(s, m))
  {
    hide LogOk, DecidedOk, PendingOk, Promised, VotedSlot, CountOk, PrimaryOk, Elected, Chosen, Ordered;
    var t := RecordPromise(s, m);
    var prep, d := s.local.maxPrepared, s.local.maxAccepted.decree;
    var pb := t.local.oldFreshest.ballot.num;
    AcceptedInLog(logs, peers, s);
    if pb != s.local.oldFreshest.ballot.num {
      assert Accept(Proposal(m.proposalBallot, m.decree, m.command)) in logs[m.from];
      assert Voted(logs[m.from], pb, d, m.command);
      assert VotedSomewhere(logs, pb, d, m.command);
    }
    forall r | r in t.remoteStates ensures r in logs && Promised(logs[r], prep, d, pb) {
      if r == m.from {
        PromisedWeaker(logs[r], prep, d, m.proposalBallot.num, pb);
      } else {
        PromisedWeaker(logs[r], prep, d, s.local.oldFreshest.ballot.num, pb);
      }
    }
    assert AllPromised(logs, t.remoteStates.Keys, prep, d, pb);
  }

  /** A majority of promises elects the freshest proposal under the candidate's ballot. */
  lemma MajorityElects(logs: Logs, peers: set<nat>, s: NodeState)
    requires Ready(logs, peers, s)
    requires s.local.state == Preparing && IsMajority(s, |s.remoteStates| + 1)
    ensures Elected(logs, peers, Accept(s.local.oldFreshest.(ballot := s.local.maxPrepared)))
  {
    hide LogsOk, DecidedOk, PendingOk, Promised, LogOk;
    var f, prep := s.local.oldFreshest, s.local.maxPrepared;
    AcceptedInLog(logs, peers, s);
    var q := s.remoteStates.Keys + {s.id};
    PromisedWeaker(logs[s.id], prep, f.decree, s.local.maxAccepted.ballot.num, f.ballot.num);
    assert |q| == |s.remoteStates.Keys| + 1 && |s.remoteStates.Keys| == |s.remoteStates|;
    assert ElectedBy(logs, peers, Accept(f.(ballot := prep)), q, f.decree, f.ballot.num);
  }

  lemma BroadcastThenLog(s: NodeState, m: Message, p: Proposal)
    ensures LogProposal(Broadcast(s, m), p) == Broadcast(LogProposal(s, p), m)
  {
  }

  /** Proposing under a ballot of the node's own: the log grows by `p` and everyone is asked to accept it. */
  lemma ProposeCore(logs: Logs, peers: set<nat>, s: NodeState, p: Proposal)
    requires LogsOk(logs, peers) && CoreOk(logs, peers, s)
    requires p.ballot == s.local.maxPrepared && p.ballot.node == s.id && p.ballot.num >= 1 && p.command.Plain?
    requires || (p.decree == s.local.maxAccepted.decree && p.ballot.num > s.local.maxAccepted.ballot.num)
             || (p.decree == s.local.maxAccepted.decree + 1 && p.ballot.num == s.local.maxAccepted.ballot.num
                 && CaughtUp(s.log.decidedAt, s.local.maxAccepted.decree))
    requires Elected(logs, peers, Accept(p))
    requires forall x | Own(logs, s.id, x) && x.ballot.num == p.ballot.num && x.decree == p.decree - 1 ::
               Chosen(logs, peers, x.ballot.num, x.decree, x.command)
    ensures LogsOk(Append(logs, s.id, Accept(p)), peers)
    ensures CoreOk(Append(logs, s.id, Accept(p)), peers, LogProposal(Broadcast(s, AcceptReqFor(p)), p))
  {
    hide LogsOk, PendingOk, DecidedOk, Elected, Chosen, Gapless, Bounded, ReplayPrepared, ReplayAccepted;
    var logs' := Append(logs, s.id, Accept(p));
    OrderedAppend(s.log.entries, s.local.maxAccepted, s.local.maxPrepared, Accept(p));
    LogsPropose(logs, peers, s.id, Accept(p));
    LogProposalCore(logs, peers, s, p);
    BroadcastThenLog(s, AcceptReqFor(p), p);
    var t := LogProposal(s, p);
    forall r | r in peers && r != t.id ensures MsgOk(logs', AcceptReqFor(p).(from := t.id, to := r)) {
      assert Accept(p) == logs'[s.id][|logs[s.id]|];
    }
    BroadcastCore(logs', peers, t, AcceptReqFor(p));
  }

  lemma BecomePrimaryGood(logs: Logs, peers: set<nat>, s: NodeState)
    requires Ready(logs, peers, s)
    requires s.local.state == Preparing && IsMajority(s, |s.remoteStates| + 1)
    ensures Good(logs, peers, s, BecomePrimary(s))
  {
    hide LogsOk, PendingOk, DecidedOk, Elected, Chosen, Promised, AllPromised, VotedSomewhere, Ordered, Gapless, Grows,
         ReplayPrepared, ReplayAccepted;
    var p := s.local.oldFreshest.(ballot := s.local.maxPrepared);
    MajorityElects(logs, peers, s);
    AcceptedInLog(logs, peers, s);
    var s1 := s.(local := s.local.(oldFreshest := p));
    ProposeCore(logs, peers, s1, p);
    AppendGrows(logs, s.id, Accept(p));
    var t := LogProposal(Broadcast(s1, AcceptReqFor(p)), p).(readyToPropose := false);
    assert BecomePrimary(s) == Stabilize(t, true);
    PrimaryStateOk(Append(logs, s.id, Accept(p)), peers, t);
  }

  lemma PrimaryStateOk(logs: Logs, peers: set<nat>, t: NodeState)
    requires CoreOk(logs, peers, t)
    requires !t.readyToPropose
    requires t.local.maxAccepted.ballot == t.local.maxPrepared
    requires t.local.maxPrepared.node == t.id && t.local.maxPrepared.num >= 1
    ensures NodeOk(logs, peers, Stabilize(t, true))
  {
    hide LogOk, DecidedOk, PendingOk;
  }

  lemma HandlePrepareResponseGood(logs: Logs, peers: set<nat>, s: NodeState, m: Message)
    requires Ready(logs, peers, s)
    requires MsgOk(logs, m) && m.to == s.id
    requires m.kind == PrepareResp && m.accept
    ensures Good(logs, peers, s, HandlePrepareResponse(s, m))
  {
    hide LogsOk, CoreOk, MsgOk, Promised, AllPromised, FreshOk, CountOk, PrimaryOk, Grows, BecomePrimary, IsMajority;
    if s.local.state != Preparing || s.local.maxPrepared.num != m.ballot.num
       || s.local.maxAccepted.decree != m.decree || m.ballot.node != s.id {
      GoodInPlace(logs, peers, s, s);
    } else {
      var t := RecordPromise(s, m);
      RecordPromiseOk(logs, peers, s, m);
      GoodInPlace(logs, peers, s, t);
      if IsMajority(t, |t.remoteStates| + 1) {
        KeepLogs(logs, peers, s, t);
        BecomePrimaryGood(logs, peers, t);
        GoodThen(logs, peers, s, t, BecomePrimary(t));
      }
    }
  }

  lemma KeepLogs(logs: Logs, peers: set<nat>, s: NodeState, t: NodeState)
    requires Ready(logs, peers, s) && t.log == s.log
    ensures logs[s.id := t.log.entries] == logs
  {
  }
}
