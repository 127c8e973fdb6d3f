/** Client commands reach the log of the primary they were given to in the order in which they were
    given to it, none twice and none left out. */
module RslQueue {
  import opened RslTypes
  import opened RslNodeSpec
  import opened RslSystem
  import opened RslInvariant
  import opened RslSafety

  /** The commands that node `n` has logged for a new decree under a ballot of its own, in order. A
      decree is new when it lies past everything accepted before it in the log. */
  function Proposed(n: nat, log: Entries): seq<Command> {
    if log == [] then []
    else
      var l := |log| - 1;
      var e := log[l];
      Proposed(n, log[..l])
      + if e.accepted && e.ballot.node == n && e.decree > ReplayAccepted(log[..l]).decree then [e.command] else []
  }

  /** The commands submitted to node `n`, in order. */
  function Submitted(n: nat, events: seq<Event>): seq<Command> {
    if events == [] then []
    else
      var l := |events| - 1;
      Submitted(n, events[..l]) + if events[l].Submit? && events[l].n == n then [events[l].c] else []
  }

  /** What a node has taken up so far, and what waits. */
  function Line(s: NodeState): seq<Command> {
    Proposed(s.id, s.log.entries) + s.commandQ
  }

  /** What the order of commands rests on within one node. */
  predicate Settled(s: NodeState) {
    && ReplayAccepted(s.log.entries) == s.local.maxAccepted
    && s.local.maxAccepted.ballot.num <= s.local.maxPrepared.num
    && (s.local.state == StablePrimary ==> s.local.maxAccepted.ballot == s.local.maxPrepared)
    && (s.local.state == Preparing ==>
          s.local.oldFreshest.decree == s.local.maxAccepted.decree && s.local.maxPrepared.node == s.id)
  }

  /** The node is the same, and so is the line. */
  predicate InLine(s: NodeState, t: NodeState) {
    t.id == s.id && Line(t) == Line(s)
  }

  lemma ProposedSnoc(n: nat, log: Entries, e: Entry)
    ensures Proposed(n, log + [e]) ==
            Proposed(n, log) + if e.accepted && e.ballot.node == n && e.decree > ReplayAccepted(log).decree then [e.command] else []
  {
    assert (log + [e])[..|log|] == log;
  }

  lemma QuietInLine(s: NodeState, t: NodeState)
    requires t.id == s.id && t.log.entries == s.log.entries && t.commandQ == s.commandQ
    ensures InLine(s, t)
  {
  }

  /** Logging one entry keeps the line unless it is a proposal of the node's own for a new decree. */
  lemma EntryInLine(s: NodeState, t: NodeState, e: Entry)
    requires t.id == s.id && t.log.entries == s.log.entries + [e] && t.commandQ == s.commandQ
    requires !e.accepted || e.ballot.node != s.id || e.decree <= ReplayAccepted(s.log.entries).decree
    ensures InLine(s, t)
  {
    ProposedSnoc(s.id, s.log.entries, e);
  }

  lemma SendsInLine(s: NodeState)
    requires Settled(s)
    ensures InLine(s, SendNextCommand(s)) && Settled(SendNextCommand(s))
  {
    hide Copies, Wrap64, Proposed;
    var p := Proposal(s.local.maxAccepted.ballot, s.local.maxAccepted.decree + 1, if s.commandQ == [] then NO_COMMAND else s.commandQ[0]);
    ProposedSnoc(s.id, s.log.entries, Accept(p));
    AcceptedLast(s.log.entries, p);
  }

  lemma AcceptedLast(log: Entries, p: Proposal)
    ensures ReplayAccepted(log + [Accept(p)]) == p
  {
    assert (log + [Accept(p)])[..|log|] == log;
  }

  lemma CallsInLine(s: NodeState)
    ensures InLine(s, Initialize(s))
    ensures InLine(s, PrepareBallot(s))
  {
    hide Copies, Wrap64, Proposed;
    ProposedSnoc(s.id, s.log.entries, Prepare(Ballot(s.local.maxPrepared.num + 1, s.id)));
  }

  lemma TickInLine(s: NodeState)
    requires Settled(s)
    ensures InLine(s, Tick(s))
  {
    hide SendNextCommand, Initialize, PrepareBallot, Line;
    var t := s.(timers := s.timers.(ticks := Wrap64(s.timers.ticks + 1)));
    QuietInLine(s, t);
    CallsInLine(t);
    RestartSettled(t);
    SendsInLine(t);
    SendsInLine(TickElection(t));
    var u := TickHeartBeat(TickElection(t));
    CallsInLine(u);
    SendsInLine(u);
  }

  lemma RestartSettled(s: NodeState)
    requires Settled(s)
    ensures Settled(Initialize(s))
  {
  }

  lemma RequestInLine(s: NodeState, m: Message)
    requires Settled(s)
    ensures InLine(s, HandleAcceptRequest(s, m))
  {
    hide Copies, Wrap64, Line, AcceptWhenActive, AcceptWhenInitializing;
    QuietInLine(s, s);
    CallsInLine(s);
    if s.local.state == Initializing {
      QuietInLine(s, AcceptWhenInitializing(s, m)) by { CachingIsQuiet(s, m); }
    } else if m.ballot.node == m.from && m.from != s.id {
      ActiveInLine(s, m);
    }
  }

  lemma CachingIsQuiet(s: NodeState, m: Message)
    ensures var t := AcceptWhenInitializing(s, m); t.id == s.id && t.log == s.log && t.commandQ == s.commandQ
  {
  }

  lemma ActiveInLine(s: NodeState, m: Message)
    requires m.ballot.node == m.from && m.from != s.id
    ensures InLine(s, AcceptWhenActive(s, m))
  {
    hide Line, Follow, Initialize;
    QuietInLine(s, s);
    QuietInLine(s, RefuseAccept(s, m));
    CallsInLine(s);
    FollowLogs(s, m);
    EntryInLine(s, Follow(s, m), Accept(ProposalIn(m)));
  }

  lemma FollowLogs(s: NodeState, m: Message)
    ensures var t := Follow(s, m);
            t.id == s.id && t.commandQ == s.commandQ && t.log.entries == s.log.entries + [Accept(ProposalIn(m))]
  {
    hide Wrap64;
  }

  lemma PromiseInLine(s: NodeState, m: Message)
    requires Settled(s)
    ensures InLine(s, HandlePrepareResponse(s, m))
  {
    hide Copies, Wrap64, Proposed;
    var t := RecordPromise(s, m);
    ProposedSnoc(s.id, s.log.entries, Accept(t.local.oldFreshest.(ballot := s.local.maxPrepared)));
  }

  lemma BallotsInLine(s: NodeState, m: Message)
    ensures InLine(s, HandlePrepareRequest(s, m)) && InLine(s, HandleNotAccept(s, m))
  {
    hide Line, Initialize, Stabilize, RaisePrepared, Wrap64;
    var t := RaisePrepared(s, m.ballot);
    RaiseLogs(s, m.ballot);
    EntryInLine(s, t, Prepare(m.ballot));
    EntryInLine(s, Promise(s, m), Prepare(m.ballot));
    QuietInLine(s, s);
    QuietInLine(s, RefusePrepare(s, m));
    forall u | u in {s, t, Promise(s, m)} ensures InLine(u, Initialize(u)) && InLine(u, Stabilize(u, false)) {
      CallsInLine(u);
      StabilizeIsQuiet(u);
    }
  }

  lemma RaiseLogs(s: NodeState, b: Ballot)
    ensures var t := RaisePrepared(s, b); t.id == s.id && t.commandQ == s.commandQ && t.log.entries == s.log.entries + [Prepare(b)]
  {
    hide Wrap64;
  }

  lemma StabilizeIsQuiet(s: NodeState)
    ensures InLine(s, Stabilize(s, false))
  {
    hide Line, Wrap64;
    QuietInLine(s, Stabilize(s, false));
  }

  lemma AnswersInLine(s: NodeState, m: Message)
    ensures InLine(s, HandleAcceptResponse(s, m)) && InLine(s, HandleFetchRequest(s, m)) && InLine(s, HandleStatusRequest(s, m))
  {
    hide Copies, Wrap64, Proposed;
  }

  lemma StatusInLine(s: NodeState, m: Message, draw: nat)
    ensures InLine(s, HandleStatusResponse(s, m, draw))
  {
    hide Copies, Wrap64, Line, PrepareBallot, MaxChosenTime;
    var t := RecordStatus(s, m);
    CallsInLine(SetElectionTime(t));
    QuietInLine(s, SetElectionTime(t));
    if s.local.state != Initializing || !IsMajority(t, 1 + |t.remoteStates|) || PlanAfterStatus(t) != Proceed {
      QuietInLine(s, HandleStatusResponse(s, m, draw));
    } else {
      QuietInLine(s, Stabilize(SetElectionTime(t), false));
    }
  }

  lemma SettledNode(config: NodeConfig, sys: System, n: nat)
    requires Reachable(config, sys) && n in sys.nodes
    ensures Settled(sys.nodes[n]) && sys.nodes[n].id == n
  {
    hide Reachable, LogsOk, DecidedOk, PendingOk, MsgOk, Chosen, Ordered, Gapless, Bounded, Promised, VotedSomewhere, AllPromised;
    ReachableInv(config, sys);
  }

  /** An event changes the line only by a submission, which joins its end. */
  lemma MoveInLine(config: NodeConfig, sys: System, e: Event)
    requires Reachable(config, sys) && Enabled(sys, e)
    ensures var s, t := sys.nodes[Site(e)], Move(sys.nodes[Site(e)], e);
            t.id == s.id && Line(t) == Line(s) + if e.Submit? then [e.c] else []
  {
    hide Reachable, Step, Tick, DrawOk, Proposed;
    var s := sys.nodes[Site(e)];
    SettledNode(config, sys, Site(e));
    match e
    case TickNode(_) => TickInLine(s);
    case Submit(_, c) =>
      assert Line(Propose(s, c)) == Line(s) + [c];
    case Collect(_) =>
    case Deliver(m, draw) => StepInLine(config, sys, m, draw);
  }

  lemma StepInLine(config: NodeConfig, sys: System, m: Message, draw: nat)
    requires Reachable(config, sys) && m in sys.sent && m.to in sys.nodes
    ensures InLine(sys.nodes[m.to], Step(sys.nodes[m.to], m, draw))
  {
    hide Reachable, HandleAcceptRequest, HandleAcceptResponse, HandleNotAccept, HandleFetchRequest, HandlePrepareRequest,
      HandlePrepareResponse, HandleStatusRequest, HandleStatusResponse, HandleFetchResponse, Line, Settled, Initialize;
    var s := sys.nodes[m.to];
    SettledNode(config, sys, m.to);
    RequestInLine(s, m);
    PromiseInLine(s, m);
    BallotsInLine(s, m);
    AnswersInLine(s, m);
    StatusInLine(s, m, draw);
    QuietInLine(s, s);
    if m.kind == FetchResp {
      FetchNeverAccepts(config, sys, m);
      QuietInLine(s, s.(learningFrom := 0));
      CallsInLine(s);
      QuietInLine(Initialize(s), Initialize(s).(learningFrom := 0));
    }
  }

  /** At any moment of a run, the commands a node has proposed for new decrees under its own ballots,
      followed by those that wait in its queue, are exactly the commands submitted to it, in order. */
  lemma {:induction false} FirstInFirstOut(config: NodeConfig, trace: seq<System>, events: seq<Event>, i: nat, n: nat)
    requires Execution(config, trace, events) && i <= |events| && n in trace[i].nodes
    ensures Proposed(n, trace[i].nodes[n].log.entries) + trace[i].nodes[n].commandQ == Submitted(n, events[..i])
  {
    hide Move, DrawOk, Proposed;
    if i == 0 {
      StartsEmpty(config, trace[0], n);
    } else {
      var before, e := trace[i - 1], events[i - 1];
      assert Next(before, e, trace[i - 1 + 1]);
      assert events[..i][..i - 1] == events[..i - 1] && events[..i][i - 1] == e;
      FirstInFirstOut(config, trace, events, i - 1, n);
      assert Reachable(config, before) by {
        assert Execution(config, trace[..i], events[..i - 1]) && trace[..i][|events[..i - 1]|] == before;
      }
      hide Execution, Reachable;
      SettledNode(config, before, n);
      MoveInLine(config, before, e);
    }
  }

  lemma StartsEmpty(config: NodeConfig, sys: System, n: nat)
    requires Init(config, sys) && n in sys.nodes
    ensures Proposed(n, sys.nodes[n].log.entries) == [] && sys.nodes[n].commandQ == []
  {
  }
}
