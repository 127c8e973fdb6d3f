/** An RSL node as the object the environment drives: handlers update fields in
    place, append to the durable log and queue messages to send. */
module RslNode {
  import opened RslTypes
  import Spec = RslNodeSpec

  /** The durable log: every prepared ballot and accepted proposal in order, and the
      commands queued for execution. */
  class Log {
    var entries: seq<Entry>
    var decided: seq<Command>
    ghost var decidedAt: seq<int>  // the decree of each decided command

    constructor ()
      ensures entries == [] && decided == [] && decidedAt == []
    {
      entries, decided, decidedAt := [], [], [];
    }

    method Add(e: Entry)
      modifies this`entries
      ensures entries == old(entries) + [e]
    {
      entries := entries + [e];
    }

    method AddDecided(c: Command, ghost decree: int)
      modifies this`decided, this`decidedAt
      ensures decided == old(decided) + [c] && decidedAt == old(decidedAt) + [decree]
    {
      decided := decided + [c];
      decidedAt := decidedAt + [decree];
    }

    function NumDecided(): nat
      reads this
    {
      |decided|
    }
  }

  class Node {
    const id: nat
    const config: NodeConfig
    const log: Log

    var local: LocalState

    var commandQ: seq<Command>
    var proposalQ: seq<Proposal>
    var readyToPropose: bool

    var timers: Timers

    var remoteStates: map<nat, RemoteState>
    var learningFrom: nat
    var pending: seq<Message>

    ghost function Model(): NodeState
      reads this, log
    {
      NodeState(id, config, local, LogState(log.entries, log.decided, log.decidedAt), commandQ, proposalQ,
                readyToPropose, timers, remoteStates, learningFrom, pending)
    }

    lemma LocalOf()
      ensures Model().local == local
    {
    }

    constructor (id: nat, config: NodeConfig)
      ensures Model() == Spec.FreshNode(id, config)
      ensures fresh(log) && this.id == id && this.config == config
    {
      this.id := id;
      this.config := config;
      this.log := new Log();
      local := LocalState(Inactive, ZERO_PROPOSAL, ZERO_BALLOT, ZERO_PROPOSAL, 0,
                          RslConfig(0, 0, set p | p in config.peers));
      commandQ, proposalQ, readyToPropose := [], [], false;
      timers := Timers(MAX_INT, MAX_INT, MAX_INT, 0, 0);
      remoteStates, learningFrom, pending := map[], 0, [];
    }

    predicate IsPrimary()
      reads this`local
    {
      local.state == StablePrimary
    }

    method Start()
      modifies this, log
      ensures Model() == Spec.Start(old(Model()))
    {
      timers := timers.(action := MAX_INT, nextElection := MAX_INT, lastChosen := 0,
                        noProgress := config.noProgressTimeout);
      Initialize();
    }

    method Broadcast(m: Message)
      modifies this`pending
      ensures Model() == Spec.Broadcast(old(Model()), m)
    {
      var stamped := m.(from := id);
      for i := 0 to |config.peers|
        invariant pending + Spec.Copies(config.peers[i..], stamped)
               == old(pending) + Spec.Copies(config.peers, stamped)
      {
        assert config.peers[i..][1..] == config.peers[i + 1..];
        if config.peers[i] != id {
          pending := pending + [stamped.(to := config.peers[i])];
        }
      }
    }

    method Send(m: Message)
      modifies this`pending
      ensures Model() == Spec.Send(old(Model()), m)
    {
      pending := pending + [m.(from := id)];
    }

    /** Hands over the queued messages and empties the queue. */
    method Ready() returns (messages: seq<Message>)
      modifies this`pending
      ensures messages == old(Model()).pending
      ensures Model() == old(Model()).(pending := []) && pending == []
    {
      messages := pending;
      pending := [];
    }

    method Initialize()
      modifies this, log
      ensures Model() == Spec.Initialize(old(Model()))
    {
      local := local.(state := Initializing);
      remoteStates := map[];
      Broadcast(Blank(StatusReq));
      timers := timers.(action := Wrap64(timers.ticks + config.initializeRetryInterval));
    }

    method Tick()
      modifies this, log
      ensures Model() == Spec.Tick(old(Model()))
    {
      timers := timers.(ticks := Wrap64(timers.ticks + 1));
      if timers.ticks > timers.noProgress {
        return;
      }
      TickElection();
      TickHeartBeat();
      TickAction();
    }

    method TickElection()
      modifies this, log
      ensures Model() == Spec.TickElection(old(Model()))
    {
      if (local.state == StablePrimary || local.state == StableSecondary)
         && local.maxPrepared.node != id && timers.ticks > timers.nextElection {
        Initialize();
      }
    }

    method TickHeartBeat()
      modifies this, log
      ensures Model() == Spec.TickHeartBeat(old(Model()))
    {
      if (local.state == StablePrimary || local.state == StableSecondary)
         && local.maxPrepared.node == id && readyToPropose {
        if Wrap64(timers.ticks - timers.lastChosen) > config.heartBeatInterval || |commandQ| > 0 {
          SendNextCommand();
        }
      }
    }

    method TickAction()
      modifies this, log
      ensures Model() == Spec.TickAction(old(Model()))
    {
      if timers.ticks > timers.action {
        if local.state == StablePrimary && local.maxPrepared.node == id {
          SendNextCommand();
        } else if local.state == Initializing {
          Initialize();
        } else if local.state == Preparing {
          PrepareBallot();
        }
      }
    }

    method Propose(c: Command)
      modifies this`commandQ
      ensures Model() == Spec.Propose(old(Model()), c)
    {
      commandQ := commandQ + [c];
    }

    method SendNextCommand()
      modifies this, log
      ensures Model() == Spec.SendNextCommand(old(Model()))
    {
      if local.state != StablePrimary || local.maxPrepared.node != id {
        return;
      }
      if local.maxPrepared.num != local.maxAccepted.ballot.num {
        return;
      }
      remoteStates := map[];
      if readyToPropose && |commandQ| > 0 {
        var p := Proposal(local.maxAccepted.ballot, local.maxAccepted.decree + 1, commandQ[0]);
        Broadcast(Blank(AcceptReq).(ballot := p.ballot, decree := p.decree, command := p.command));
        LogProposal(p);
        commandQ := commandQ[1..];
        readyToPropose := false;
      } else {
        Broadcast(Blank(AcceptReq).(ballot := local.maxAccepted.ballot, decree := local.maxAccepted.decree,
                                    command := local.maxAccepted.command));
      }
      timers := timers.(action := Wrap64(timers.ticks + config.proposalRetryInterval));
    }

    /** `draw` is the node selected by the random source, meaningful for a status response only. */
    method Step(m: Message) returns (ghost draw: nat)
      modifies this, log
      ensures Spec.DrawOk(old(Model()), m, draw)
      ensures Model() == Spec.Step(old(Model()), m, draw)
    {
      draw := 0;
      if local.state == Inactive {
        return;
      }
      match m.kind {
        case AcceptReq => HandleAcceptRequest(m);
        case AcceptResp =>
          if !m.accept {
            HandleNotAccept(m);
          } else {
            HandleAcceptResponse(m);
          }
        case FetchReq => HandleFetchRequest(m);
        case FetchResp => HandleFetchResponse(m);
        case PrepareReq => HandlePrepareRequest(m);
        case PrepareResp =>
          if !m.accept {
            HandleNotAccept(m);
          } else {
            HandlePrepareResponse(m);
          }
        case StatusReq => HandleStatusRequest(m);
        case StatusResp => draw := HandleStatusResponse(m);
        case CommandMessage =>
      }
    }

    method HandleStatusRequest(m: Message)
      modifies this
      ensures Model() == Spec.HandleStatusRequest(old(Model()), m)
    {
      Send(Blank(StatusResp).(to := m.from, ballot := local.maxAccepted.ballot, decree := local.maxAccepted.decree,
                              timestamp := timers.lastChosen));
    }

    /** Collects the nodes whose reported decree is at least `d`. */
    method CollectHigher(d: int) returns (nodes: set<nat>)
      ensures nodes == Spec.HigherNodes(remoteStates, d)
    {
      nodes := {};
      var todo := remoteStates.Keys;
      while todo != {}
        invariant todo <= remoteStates.Keys
        invariant nodes == set r | r in remoteStates && r !in todo && remoteStates[r].maxChosen >= d
        decreases |todo|
      {
        var r :| r in todo;
        if remoteStates[r].maxChosen >= d {
          nodes := nodes + {r};
        }
        todo := todo - {r};
      }
    }

    /** Collects the nodes that report being ahead of what this node has accepted. */
    method CollectAhead() returns (nodes: set<nat>)
      ensures nodes == Spec.AheadNodes(remoteStates, local.maxAccepted)
    {
      nodes := {};
      var todo := remoteStates.Keys;
      while todo != {}
        invariant todo <= remoteStates.Keys
        invariant nodes == set r | r in remoteStates && r !in todo && Spec.IsAhead(remoteStates[r], local.maxAccepted)
        decreases |todo|
      {
        var r :| r in todo;
        var rs := remoteStates[r];
        if rs.maxChosen == local.maxAccepted.decree && rs.maxBallot.num > local.maxAccepted.ballot.num {
          nodes := nodes + {r};
        } else if rs.maxChosen > local.maxAccepted.decree && rs.maxBallot.num >= local.maxAccepted.ballot.num {
          nodes := nodes + {r};
        }
        todo := todo - {r};
      }
    }

    method LatestChosenTime() returns (latest: int)
      ensures latest == Spec.MaxChosenTime(remoteStates)
    {
      latest := 0;
      var todo := remoteStates.Keys;
      while todo != {}
        invariant todo <= remoteStates.Keys
        invariant latest >= 0
        invariant forall r | r in remoteStates && r !in todo :: remoteStates[r].lastChosenTime <= latest
        invariant latest == 0 || exists r :: r in remoteStates && remoteStates[r].lastChosenTime == latest
        decreases |todo|
      {
        var r :| r in todo;
        if remoteStates[r].lastChosenTime > latest {
          latest := remoteStates[r].lastChosenTime;
        }
        todo := todo - {r};
      }
      assert Spec.IsMaxChosenTime(remoteStates, latest);
    }

    method HandleStatusResponse(m: Message) returns (ghost draw: nat)
      modifies this, log
      ensures m.kind == StatusResp ==> Spec.DrawOk(old(Model()), m, draw)
      ensures Model() == Spec.HandleStatusResponse(old(Model()), m, draw)
    {
      draw := 0;
      if local.state != Initializing {
        if m.ballot.num >= local.maxAccepted.ballot.num && m.decree == local.maxAccepted.decree && |proposalQ| == 0 {
          LearnVotes(m.from);
        }
        return;
      }
      remoteStates := remoteStates[m.from := RemoteState(m.from, m.ballot, m.decree, m.timestamp)];
      if IsMajority(1 + |remoteStates|) {
        draw := ActOnStatuses();
      }
    }

    /** What an initializing node does once a majority has answered. */
    method ActOnStatuses() returns (ghost draw: nat)
      modifies this, log
      ensures Spec.PlanAfterStatus(old(Model())).Learn? ==> draw in Spec.PlanAfterStatus(old(Model())).candidates
      ensures Model() == Spec.ActOnStatuses(old(Model()), draw)
    {
      draw := 0;
      if |proposalQ| > 0 {
        var minDecreeNeeded := proposalQ[0].decree;
        if minDecreeNeeded < local.maxAccepted.decree {
          return;
        }
        var higherNodes := CollectHigher(minDecreeNeeded);
        if higherNodes != {} {
          var node :| node in higherNodes;
          draw := node;
          LearnVotes(node);
          return;
        }
      }
      var filteredNodes := CollectAhead();
      if filteredNodes != {} {
        var node :| node in filteredNodes;
        draw := node;
        LearnVotes(node);
        return;
      }
      ProceedFromStatus();
    }

    /** Nobody is ahead: starts an election of its own or follows. */
    method ProceedFromStatus()
      modifies this, log
      ensures Model() == Spec.ProceedFromStatus(old(Model()))
    {
      if timers.nextElection == MAX_INT {
        var maxChosen := LatestChosenTime();
        timers := timers.(nextElection := Wrap64(Min(timers.ticks, maxChosen) + config.baseElectionDelay));
      }
      if timers.ticks > timers.nextElection || local.maxPrepared.node == id {
        PrepareBallot();
      } else {
        Stabilize(false);
      }
    }

    predicate IsMajority(count: nat)
      reads this
    {
      count >= local.peerConfig.QuorumSize()
    }

    method LearnVotes(toLearnFrom: nat)
      modifies this
      ensures Model() == Spec.LearnVotes(old(Model()), toLearnFrom)
    {
      Send(Blank(FetchReq).(to := toLearnFrom, decree := local.maxAccepted.decree, ballot := local.maxAccepted.ballot));
      learningFrom := toLearnFrom;
    }

    method AddToExecutionQueue(p: Proposal)
      modifies this, log
      ensures Model() == Spec.AddToExecutionQueue(old(Model()), p)
    {
      if p.command.Reconfigure? {
        local := local.(peerConfig := RslConfig(local.peerConfig.number + 1, p.decree, p.command.members));
      }
      log.AddDecided(p.command, p.decree);
      local := local.(decidedCount := log.NumDecided());
    }

    method LogProposal(p: Proposal)
      modifies this, log
      ensures Model() == Spec.LogProposal(old(Model()), p)
    {
      log.Add(Entry(true, p.ballot, p.decree, p.command));
      local := local.(maxAccepted := p);
      timers := timers.(lastChosen := timers.ticks);
      timers := timers.(noProgress := Wrap64(timers.ticks + config.noProgressTimeout));
      if p.ballot.num > local.maxPrepared.num {
        local := local.(maxPrepared := p.ballot);
        timers := timers.(nextElection := Wrap64(Max(timers.nextElection, timers.ticks) + config.newLeaderGracePeriod));
      }
    }

    method Stabilize(asPrimary: bool)
      modifies this
      ensures Model() == Spec.Stabilize(old(Model()), asPrimary)
    {
      var oldState := local.state;
      if asPrimary {
        local := local.(state := StablePrimary);
      } else {
        local := local.(state := StableSecondary);
      }
      remoteStates := map[];
      if local.maxPrepared.node == id {
        if oldState != Preparing {
          return;
        }
        timers := timers.(action := Wrap64(timers.ticks + config.voteRetryInterval));
      } else {
        timers := timers.(action := MAX_INT);
      }
    }

    method PrepareBallot()
      modifies this, log
      ensures Model() == Spec.PrepareBallot(old(Model()))
    {
      if local.state == Initializing {
        local := local.(state := Preparing);
        local := local.(maxPrepared := Ballot(local.maxPrepared.num + 1, id));
        log.Add(Prepare(local.maxPrepared));
        timers := timers.(nextElection := Wrap64(timers.ticks + config.newLeaderGracePeriod));
      } else if local.state != Preparing {
        return;
      }
      local := local.(oldFreshest := local.maxAccepted);
      remoteStates := map[];
      Broadcast(Blank(PrepareReq).(decree := local.maxAccepted.decree, ballot := local.maxPrepared));
      timers := timers.(action := Wrap64(timers.ticks + config.prepareRetryInterval));
    }

    method HandlePrepareRequest(m: Message)
      modifies this, log
      ensures Model() == Spec.HandlePrepareRequest(old(Model()), m)
    {
      if m.ballot.num < local.maxPrepared.num || m.decree < local.maxAccepted.decree {
        Send(Blank(PrepareResp).(to := m.from, ballot := local.maxPrepared, decree := local.maxAccepted.decree));
      } else if local.state != Initializing {
        if m.ballot.num > local.maxPrepared.num {
          Promise(m);
        }
        if m.decree > local.maxAccepted.decree {
          Initialize();
        } else {
          Stabilize(false);
        }
      }
    }

    /** Moves to the candidate's ballot and reports what this node has accepted. */
    method Promise(m: Message)
      modifies this, log
      ensures Model() == Spec.Promise(old(Model()), m)
    {
      local := local.(maxPrepared := m.ballot);
      log.Add(Prepare(m.ballot));
      timers := timers.(nextElection := Wrap64(Max(timers.ticks, timers.nextElection) + config.newLeaderGracePeriod));
      Send(Blank(PrepareResp).(to := m.from, accept := true, ballot := m.ballot,
                               proposalBallot := local.maxAccepted.ballot, decree := local.maxAccepted.decree,
                               command := local.maxAccepted.command));
    }

    method HandlePrepareResponse(m: Message)
      modifies this, log
      ensures Model() == Spec.HandlePrepareResponse(old(Model()), m)
    {
      if local.state == Preparing && local.maxPrepared.num == m.ballot.num && local.maxAccepted.decree == m.decree {
        if m.ballot.node != id {
          return;
        }
        if m.decree == local.oldFreshest.decree && m.proposalBallot.num > local.oldFreshest.ballot.num {
          local := local.(oldFreshest := Proposal(m.proposalBallot, m.decree, m.command));
        }
        remoteStates := remoteStates[m.from := RemoteState(m.from, m.proposalBallot, m.decree, 0)];
        if IsMajority(|remoteStates| + 1) {
          local := local.(oldFreshest := local.oldFreshest.(ballot := local.maxPrepared));
          Broadcast(Blank(AcceptReq).(ballot := local.oldFreshest.ballot, decree := local.oldFreshest.decree,
                                      command := local.oldFreshest.command));
          LogProposal(local.oldFreshest);
          readyToPropose := false;
          Stabilize(true);
        }
      }
    }

    method HandleAcceptRequest(m: Message)
      modifies this, log
      ensures Model() == Spec.HandleAcceptRequest(old(Model()), m)
    {
      if m.ballot.node != m.from || m.from == id {
        return;
      }
      if local.maxPrepared.num < local.maxAccepted.ballot.num {
        return;
      }
      if local.state != Initializing {
        if m.decree < local.maxAccepted.decree || m.ballot.num < local.maxPrepared.num {
          Send(Blank(AcceptResp).(to := m.from, ballot := local.maxPrepared, decree := local.maxAccepted.decree));
          return;
        } else if m.decree == local.maxAccepted.decree && m.ballot.num == local.maxAccepted.ballot.num {
          if m.command != local.maxAccepted.command {
            return;
          }
        } else if (m.decree == local.maxAccepted.decree && m.ballot.num >= local.maxAccepted.ballot.num)
               || (m.decree == local.maxAccepted.decree + 1 && m.ballot.num == local.maxAccepted.ballot.num) {
          Follow(m);
        } else {
          Initialize();
        }
      } else {
        CacheProposal(m);
      }
    }

    /** Accepts what the primary proposes, executing the previous decree when moving past it. */
    method Follow(m: Message)
      modifies this, log
      ensures Model() == Spec.Follow(old(Model()), m)
    {
      ExecuteBefore(m.decree);
      LogProposal(Proposal(m.ballot, m.decree, m.command));
      Send(Blank(AcceptResp).(to := m.from, accept := true, ballot := m.ballot, decree := m.decree));
      Stabilize(false);
    }

    /** Queues the accepted proposal for execution when `decree` is the next one. */
    method ExecuteBefore(decree: int)
      modifies this, log
      ensures Model() == Spec.ExecuteBefore(old(Model()), decree)
    {
      if decree == local.maxAccepted.decree + 1 {
        AddToExecutionQueue(local.maxAccepted);
        timers := timers.(nextElection := Wrap64(timers.ticks + config.baseElectionDelay));
      }
    }

    /** The branch of the accept handler taken while initializing. */
    method CacheProposal(m: Message)
      modifies this
      ensures Model() == Spec.AcceptWhenInitializing(old(Model()), m)
    {
      if |proposalQ| > 0 {
        var lastP := proposalQ[|proposalQ| - 1];
        if m.decree < lastP.decree || m.ballot.num < lastP.ballot.num {
          if m.decree < local.maxAccepted.decree || m.ballot.num < local.maxAccepted.ballot.num {
            Send(Blank(AcceptResp).(to := m.from, ballot := local.maxPrepared, decree := local.maxAccepted.decree));
          }
          return;
        }
        if m.decree == lastP.decree && m.ballot.num == lastP.ballot.num {
          return;
        }
        if |proposalQ| == config.maxCachedLength {
          proposalQ := [];
        }
        if (m.decree == lastP.decree && m.ballot.num > lastP.ballot.num)
           || (m.decree == lastP.decree + 1 && m.ballot.num == lastP.ballot.num) {
          proposalQ := proposalQ + [Proposal(m.ballot, m.decree, m.command)];
        } else {
          proposalQ := [];
          proposalQ := proposalQ + [Proposal(m.ballot, m.decree, m.command)];
        }
      } else {
        proposalQ := proposalQ + [Proposal(m.ballot, m.decree, m.command)];
      }
    }

    method HandleNotAccept(m: Message)
      modifies this, log
      ensures Model() == Spec.HandleNotAccept(old(Model()), m)
    {
      if m.decree < local.maxAccepted.decree || m.ballot.num < local.maxAccepted.ballot.num {
        return;
      }
      if local.state != Initializing {
        if m.decree > local.maxAccepted.decree {
          Initialize();
        } else if m.ballot.num > local.maxPrepared.num {
          local := local.(maxPrepared := m.ballot);
          log.Add(Prepare(m.ballot));
          timers := timers.(nextElection := Wrap64(Max(timers.nextElection, timers.ticks) + config.newLeaderGracePeriod));
          Stabilize(false);
        }
      }
    }

    method HandleAcceptResponse(m: Message)
      modifies this, log
      ensures Model() == Spec.HandleAcceptResponse(old(Model()), m)
    {
      if (local.state == StablePrimary || local.state == StableSecondary)
         && local.maxPrepared.num == m.ballot.num
         && local.maxAccepted.decree == m.decree
         && local.maxPrepared.node == id
         && !readyToPropose {
        if local.maxPrepared.num != local.maxAccepted.ballot.num {
          return;
        }
        remoteStates := remoteStates[m.from := RemoteState(m.from, m.ballot, m.decree, 0)];
        if IsMajority(|remoteStates| + 1) {
          AddToExecutionQueue(local.maxAccepted);
          readyToPropose := true;
          timers := timers.(action := MAX_INT);
        }
      }
    }

    method HandleFetchRequest(m: Message)
      modifies this
      ensures Model() == Spec.HandleFetchRequest(old(Model()), m)
    {
      var valid: seq<Proposal> := [];
      for i := 0 to |log.entries|
        invariant valid == Spec.AcceptedFrom(log.entries[..i], m.decree)
      {
        assert log.entries[..i + 1][..i] == log.entries[..i];
        var e := log.entries[i];
        if e.accepted && e.decree >= m.decree {
          valid := valid + [Proposal(e.ballot, e.decree, e.command)];
        }
      }
      assert log.entries[..|log.entries|] == log.entries;
      Send(Blank(FetchResp).(to := m.from, proposals := valid));
    }

    /** Logs every cached proposal, executing what each step forward leaves behind. */
    method LogCached()
      modifies this, log
      ensures Model() == Spec.LogCached(old(Model()), old(proposalQ))
    {
      ghost var start := Model();
      var cached := proposalQ;
      for i := 0 to |cached|
        invariant Spec.LogCached(Model(), cached[i..]) == Spec.LogCached(start, cached)
      {
        assert cached[i..][0] == cached[i] && cached[i..][1..] == cached[i + 1..];
        ExecuteBefore(cached[i].decree);
        LogProposal(cached[i]);
      }
    }

    /** Logs one fetched proposal unless it does not continue what is accepted. */
    method LogFetched(p: Proposal) returns (advanced: bool)
      modifies this, log
      ensures advanced == Spec.Continues(p, Spec.SkipAhead(old(Model()), p))
      ensures Model() == if advanced then Spec.LogNext(Spec.SkipAhead(old(Model()), p), p)
                         else Spec.SkipAhead(old(Model()), p)
    {
      if p.decree == local.maxAccepted.decree + 1 && p.ballot.num > local.maxAccepted.ballot.num {
        ExecuteBefore(p.decree);
        LogProposal(Proposal(local.maxAccepted.ballot, local.maxAccepted.decree + 1, p.command));
      }
      if !((p.decree == local.maxAccepted.decree && p.ballot.num >= local.maxAccepted.ballot.num)
           || (p.decree == local.maxAccepted.decree + 1 && p.ballot.num == local.maxAccepted.ballot.num)) {
        return false;
      }
      ExecuteBefore(p.decree);
      LogProposal(p);
      advanced := true;
    }

    method HandleFetchResponse(m: Message)
      modifies this, log
      ensures Model() == Spec.HandleFetchResponse(old(Model()), m)
    {
      if learningFrom == 0 || learningFrom != m.from {
        return;
      }
      var minNeeded := ZERO_PROPOSAL;
      var haveMinNeeded := false;
      if |proposalQ| > 0 {
        minNeeded := proposalQ[0];
        haveMinNeeded := true;
      }
      var flush := !haveMinNeeded || minNeeded.decree <= m.decree;
      ghost var start := Model();
      for i := 0 to |m.proposals|
        invariant Spec.LogFetched(Model(), m.proposals[i..], flush) == Spec.LogFetched(start, m.proposals, flush)
      {
        var p := m.proposals[i];
        assert m.proposals[i..][0] == p && m.proposals[i..][1..] == m.proposals[i + 1..];
        if p.decree <= local.maxAccepted.decree || p.ballot.num <= local.maxAccepted.ballot.num {
          learningFrom := 0;
          return;
        }
        var advanced := LogFetched(p);
        if !advanced {
          learningFrom := 0;
          return;
        }
        if flush {
          LogCached();
          Stabilize(false);
          learningFrom := 0;
          return;
        }
      }
      Initialize();
      learningFrom := 0;
    }
  }
}
