/** What each operation of an RSL node computes, as functions from the old node
    state to the new one. The class `Node` is proved against these functions and
    the protocol's safety is proved about them. */
module RslNodeSpec {
  import opened RslTypes

  // ----- sending -----

  /** One copy of `m` for every peer except the sender. */
  function Copies(peers: seq<nat>, m: Message): seq<Message> {
    if peers == [] then []
    else if peers[0] == m.from then Copies(peers[1..], m)
    else [m.(to := peers[0])] + Copies(peers[1..], m)
  }

  function Broadcast(s: NodeState, m: Message): NodeState {
    s.(pending := s.pending + Copies(s.config.peers, m.(from := s.id)))
  }

  function Send(s: NodeState, m: Message): NodeState {
    s.(pending := s.pending + [m.(from := s.id)])
  }

  // ----- steps shared by the handlers -----

  function FreshNode(id: nat, config: NodeConfig): NodeState {
    NodeState(id, config,
              LocalState(Inactive, ZERO_PROPOSAL, ZERO_BALLOT, ZERO_PROPOSAL, 0,
                         RslConfig(0, 0, set p | p in config.peers)),
              LogState([], [], []), [], [], false,
              Timers(MAX_INT, MAX_INT, MAX_INT, 0, 0), map[], 0, [])
  }

  function SetAction(s: NodeState, interval: int): NodeState {
    s.(timers := s.timers.(action := Wrap64(s.timers.ticks + interval)))
  }

  /** Grants a new leader its grace period from time `t` on. */
  function GraceAfter(s: NodeState, t: int): NodeState {
    s.(timers := s.timers.(nextElection := Wrap64(t + s.config.newLeaderGracePeriod)))
  }

  function SetElection(s: NodeState, t: int): NodeState {
    s.(timers := s.timers.(nextElection := Wrap64(t + s.config.baseElectionDelay)))
  }

  predicate IsMajority(s: NodeState, count: nat) {
    count >= s.local.peerConfig.QuorumSize()
  }

  function Initialize(s: NodeState): NodeState {
    var t := Broadcast(s.(local := s.local.(state := Initializing), remoteStates := map[]), Blank(StatusReq));
    SetAction(t, s.config.initializeRetryInterval)
  }

  function Start(s: NodeState): NodeState {
    Initialize(s.(timers := s.timers.(action := MAX_INT, nextElection := MAX_INT, lastChosen := 0,
                                      noProgress := s.config.noProgressTimeout)))
  }

  function AddToExecutionQueue(s: NodeState, p: Proposal): NodeState {
    var peerConfig :=
      if p.command.Reconfigure? then RslConfig(s.local.peerConfig.number + 1, p.decree, p.command.members)
      else s.local.peerConfig;
    s.(local := s.local.(peerConfig := peerConfig, decidedCount := |s.log.decided| + 1),
       log := s.log.(decided := s.log.decided + [p.command], decidedAt := s.log.decidedAt + [p.decree]))
  }

  function AddEntry(log: LogState, e: Entry): LogState {
    log.(entries := log.entries + [e])
  }

  function LogProposal(s: NodeState, p: Proposal): NodeState {
    var t := s.(log := AddEntry(s.log, Accept(p)),
                local := s.local.(maxAccepted := p),
                timers := s.timers.(lastChosen := s.timers.ticks,
                                    noProgress := Wrap64(s.timers.ticks + s.config.noProgressTimeout)));
    if p.ballot.num > s.local.maxPrepared.num then
      GraceAfter(t.(local := t.local.(maxPrepared := p.ballot)), Max(s.timers.nextElection, s.timers.ticks))
    else t
  }

  /** Records a higher ballot of another node as prepared. */
  function RaisePrepared(s: NodeState, b: Ballot): NodeState {
    GraceAfter(s.(local := s.local.(maxPrepared := b), log := AddEntry(s.log, Prepare(b))),
               Max(s.timers.nextElection, s.timers.ticks))
  }

  function Stabilize(s: NodeState, asPrimary: bool): NodeState {
    var t := s.(local := s.local.(state := if asPrimary then StablePrimary else StableSecondary), remoteStates := map[]);
    if s.local.maxPrepared.node != s.id then t.(timers := t.timers.(action := MAX_INT))
    else if s.local.state != Preparing then t
    else SetAction(t, s.config.voteRetryInterval)
  }

  function LearnVotes(s: NodeState, toLearnFrom: nat): NodeState {
    Send(s, Blank(FetchReq).(to := toLearnFrom, decree := s.local.maxAccepted.decree, ballot := s.local.maxAccepted.ballot))
      .(learningFrom := toLearnFrom)
  }

  /** Moves an initializing node to a ballot of its own. */
  function TakeBallot(s: NodeState): NodeState {
    var b := Ballot(s.local.maxPrepared.num + 1, s.id);
    GraceAfter(s.(local := s.local.(state := Preparing, maxPrepared := b), log := AddEntry(s.log, Prepare(b))),
               s.timers.ticks)
  }

  function PrepareBallot(s: NodeState): NodeState {
    if s.local.state != Initializing && s.local.state != Preparing then s
    else
      var t := if s.local.state == Initializing then TakeBallot(s) else s;
      SetAction(Broadcast(t.(local := t.local.(oldFreshest := t.local.maxAccepted), remoteStates := map[]),
                          Blank(PrepareReq).(decree := t.local.maxAccepted.decree, ballot := t.local.maxPrepared)),
                t.config.prepareRetryInterval)
  }

  function AcceptReqFor(p: Proposal): Message {
    Blank(AcceptReq).(ballot := p.ballot, decree := p.decree, command := p.command)
  }

  function SendNextCommand(s: NodeState): NodeState {
    if s.local.state != StablePrimary || s.local.maxPrepared.node != s.id then s
    else if s.local.maxPrepared.num != s.local.maxAccepted.ballot.num then s
    else
      var t := s.(remoteStates := map[]);
      var u :=
        if t.readyToPropose && |t.commandQ| > 0 then
          var p := Proposal(t.local.maxAccepted.ballot, t.local.maxAccepted.decree + 1, t.commandQ[0]);
          LogProposal(Broadcast(t, AcceptReqFor(p)), p).(commandQ := t.commandQ[1..], readyToPropose := false)
        else Broadcast(t, AcceptReqFor(t.local.maxAccepted));
      SetAction(u, s.config.proposalRetryInterval)
  }

  // ----- timers and client commands -----

  predicate IsStable(s: NodeState) {
    s.local.state == StablePrimary || s.local.state == StableSecondary
  }

  function TickElection(s: NodeState): NodeState {
    if IsStable(s) && s.local.maxPrepared.node != s.id && s.timers.ticks > s.timers.nextElection then Initialize(s) else s
  }

  function TickHeartBeat(s: NodeState): NodeState {
    if IsStable(s) && s.local.maxPrepared.node == s.id && s.readyToPropose
       && (Wrap64(s.timers.ticks - s.timers.lastChosen) > s.config.heartBeatInterval || |s.commandQ| > 0)
    then SendNextCommand(s) else s
  }

  function TickAction(s: NodeState): NodeState {
    if s.timers.ticks <= s.timers.action then s
    else if s.local.state == StablePrimary && s.local.maxPrepared.node == s.id then SendNextCommand(s)
    else if s.local.state == Initializing then Initialize(s)
    else if s.local.state == Preparing then PrepareBallot(s)
    else s
  }

  function Tick(s: NodeState): NodeState {
    var t := s.(timers := s.timers.(ticks := Wrap64(s.timers.ticks + 1)));
    if t.timers.ticks > t.timers.noProgress then t
    else TickAction(TickHeartBeat(TickElection(t)))
  }

  function Propose(s: NodeState, c: Command): NodeState {
    s.(commandQ := s.commandQ + [c])
  }

  // ----- handlers -----

  function HandleStatusRequest(s: NodeState, m: Message): NodeState {
    Send(s, Blank(StatusResp).(to := m.from, ballot := s.local.maxAccepted.ballot, decree := s.local.maxAccepted.decree,
                               timestamp := s.timers.lastChosen))
  }

  /** Nodes known to have reached decree `d`. */
  function HigherNodes(rs: map<nat, RemoteState>, d: int): set<nat> {
    set r | r in rs && rs[r].maxChosen >= d
  }

  predicate IsAhead(r: RemoteState, p: Proposal) {
    || (r.maxChosen == p.decree && r.maxBallot.num > p.ballot.num)
    || (r.maxChosen > p.decree && r.maxBallot.num >= p.ballot.num)
  }

  function AheadNodes(rs: map<nat, RemoteState>, p: Proposal): set<nat> {
    set r | r in rs && IsAhead(rs[r], p)
  }

  /** The largest reported time, or zero. */
  ghost predicate IsMaxChosenTime(rs: map<nat, RemoteState>, v: int) {
    && v >= 0
    && (forall r | r in rs :: rs[r].lastChosenTime <= v)
    && (v == 0 || exists r :: r in rs && rs[r].lastChosenTime == v)
  }

  lemma MaxChosenTimeExists(rs: map<nat, RemoteState>)
    ensures exists v :: IsMaxChosenTime(rs, v)
    decreases |rs|
  {
    if rs == map[] {
      assert IsMaxChosenTime(rs, 0);
    } else {
      var r :| r in rs;
      var rest := rs - {r};
      assert rest.Keys == rs.Keys - {r};
      MaxChosenTimeExists(rest);
      var v :| IsMaxChosenTime(rest, v);
      var w := Max(v, rs[r].lastChosenTime);
      assert forall q | q in rs :: q != r ==> q in rest && rest[q] == rs[q];
      assert v != 0 ==> exists q :: q in rest && rest[q].lastChosenTime == v && q in rs;
      assert IsMaxChosenTime(rs, w);
    }
  }

  ghost function MaxChosenTime(rs: map<nat, RemoteState>): (v: int)
    ensures IsMaxChosenTime(rs, v)
  {
    MaxChosenTimeExists(rs);
    var v :| IsMaxChosenTime(rs, v);
    v
  }

  function RecordStatus(s: NodeState, m: Message): NodeState {
    s.(remoteStates := s.remoteStates[m.from := RemoteState(m.from, m.ballot, m.decree, m.timestamp)])
  }

  /** The nodes among which an initializing node with a majority of statuses draws one to
      learn from; `None` when it goes on without learning, or returns. */
  datatype Plan = Return | Learn(candidates: set<nat>) | Proceed

  function PlanAfterStatus(s: NodeState): Plan {
    if |s.proposalQ| > 0 && s.proposalQ[0].decree < s.local.maxAccepted.decree then Return
    else if |s.proposalQ| > 0 && HigherNodes(s.remoteStates, s.proposalQ[0].decree) != {} then
      Learn(HigherNodes(s.remoteStates, s.proposalQ[0].decree))
    else if AheadNodes(s.remoteStates, s.local.maxAccepted) != {} then
      Learn(AheadNodes(s.remoteStates, s.local.maxAccepted))
    else Proceed
  }

  ghost function SetElectionTime(s: NodeState): NodeState {
    if s.timers.nextElection == MAX_INT
    then SetElection(s, Min(s.timers.ticks, MaxChosenTime(s.remoteStates)))
    else s
  }

  ghost function ProceedFromStatus(s: NodeState): NodeState {
    var t := SetElectionTime(s);
    if t.timers.ticks > t.timers.nextElection || t.local.maxPrepared.node == t.id then PrepareBallot(t)
    else Stabilize(t, false)
  }

  /** `draw` is the node the random source selects when there are candidates. */
  ghost function ActOnStatuses(s: NodeState, draw: nat): NodeState {
    match PlanAfterStatus(s)
    case Return => s
    case Learn(_) => LearnVotes(s, draw)
    case Proceed => ProceedFromStatus(s)
  }

  ghost function HandleStatusResponse(s: NodeState, m: Message, draw: nat): NodeState {
    if s.local.state != Initializing then
      if m.ballot.num >= s.local.maxAccepted.ballot.num && m.decree == s.local.maxAccepted.decree && |s.proposalQ| == 0
      then LearnVotes(s, m.from) else s
    else
      var t := RecordStatus(s, m);
      if IsMajority(t, 1 + |t.remoteStates|) then ActOnStatuses(t, draw) else t
  }

  /** Holds when `draw` is a possible outcome of the random choice made while handling `m`. */
  predicate DrawOk(s: NodeState, m: Message, draw: nat) {
    s.local.state == Initializing && m.kind == StatusResp ==>
      var t := RecordStatus(s, m);
      IsMajority(t, 1 + |t.remoteStates|) && PlanAfterStatus(t).Learn? ==> draw in PlanAfterStatus(t).candidates
  }

  function RefusePrepare(s: NodeState, m: Message): NodeState {
    Send(s, Blank(PrepareResp).(to := m.from, ballot := s.local.maxPrepared, decree := s.local.maxAccepted.decree))
  }

  function Promise(s: NodeState, m: Message): NodeState {
    var t := RaisePrepared(s, m.ballot);
    Send(t, Blank(PrepareResp).(to := m.from, accept := true, ballot := m.ballot, proposalBallot := t.local.maxAccepted.ballot,
                                decree := t.local.maxAccepted.decree, command := t.local.maxAccepted.command))
  }

  function HandlePrepareRequest(s: NodeState, m: Message): NodeState {
    if m.ballot.num < s.local.maxPrepared.num || m.decree < s.local.maxAccepted.decree then RefusePrepare(s, m)
    else if s.local.state == Initializing then s
    else
      var t := if m.ballot.num > s.local.maxPrepared.num then Promise(s, m) else s;
      if m.decree > s.local.maxAccepted.decree then Initialize(t) else Stabilize(t, false)
  }

  /** Counts one promise and keeps the freshest proposal reported so far. */
  function RecordPromise(s: NodeState, m: Message): NodeState {
    var freshest :=
      if m.decree == s.local.oldFreshest.decree && m.proposalBallot.num > s.local.oldFreshest.ballot.num
      then Proposal(m.proposalBallot, m.decree, m.command) else s.local.oldFreshest;
    s.(local := s.local.(oldFreshest := freshest),
       remoteStates := s.remoteStates[m.from := RemoteState(m.from, m.proposalBallot, m.decree, 0)])
  }

  /** A candidate with a majority of promises proposes the freshest proposal under its own ballot. */
  function BecomePrimary(s: NodeState): NodeState {
    var p := s.local.oldFreshest.(ballot := s.local.maxPrepared);
    var t := LogProposal(Broadcast(s.(local := s.local.(oldFreshest := p)), AcceptReqFor(p)), p);
    Stabilize(t.(readyToPropose := false), true)
  }

  function HandlePrepareResponse(s: NodeState, m: Message): NodeState {
    if s.local.state != Preparing || s.local.maxPrepared.num != m.ballot.num || s.local.maxAccepted.decree != m.decree
       || m.ballot.node != s.id
    then s
    else
      var t := RecordPromise(s, m);
      if IsMajority(t, |t.remoteStates| + 1) then BecomePrimary(t) else t
  }

  function RefuseAccept(s: NodeState, m: Message): NodeState {
    Send(s, Blank(AcceptResp).(to := m.from, ballot := s.local.maxPrepared, decree := s.local.maxAccepted.decree))
  }

  function ProposalIn(m: Message): Proposal {
    Proposal(m.ballot, m.decree, m.command)
  }

  /** Executes the accepted proposal when `decree` is the next one. */
  function ExecuteBefore(s: NodeState, decree: int): NodeState {
    if decree == s.local.maxAccepted.decree + 1
    then SetElection(AddToExecutionQueue(s, s.local.maxAccepted), s.timers.ticks)
    else s
  }

  /** A follower accepts `m`; moving on to the next decree executes the previous one. */
  function Follow(s: NodeState, m: Message): NodeState {
    Stabilize(Send(LogProposal(ExecuteBefore(s, m.decree), ProposalIn(m)),
                   Blank(AcceptResp).(to := m.from, accept := true, ballot := m.ballot, decree := m.decree)), false)
  }

  function AcceptWhenActive(s: NodeState, m: Message): NodeState {
    if m.decree < s.local.maxAccepted.decree || m.ballot.num < s.local.maxPrepared.num then RefuseAccept(s, m)
    else if m.decree == s.local.maxAccepted.decree && m.ballot.num == s.local.maxAccepted.ballot.num then s
    else if || (m.decree == s.local.maxAccepted.decree && m.ballot.num >= s.local.maxAccepted.ballot.num)
            || (m.decree == s.local.maxAccepted.decree + 1 && m.ballot.num == s.local.maxAccepted.ballot.num)
    then Follow(s, m)
    else Initialize(s)
  }

  /** An initializing node only caches what it is asked to accept. */
  function AcceptWhenInitializing(s: NodeState, m: Message): NodeState {
    if |s.proposalQ| == 0 then s.(proposalQ := [ProposalIn(m)])
    else
      var last := s.proposalQ[|s.proposalQ| - 1];
      if m.decree < last.decree || m.ballot.num < last.ballot.num then
        if m.decree < s.local.maxAccepted.decree || m.ballot.num < s.local.maxAccepted.ballot.num then RefuseAccept(s, m) else s
      else if m.decree == last.decree && m.ballot.num == last.ballot.num then s
      else
        var kept := if |s.proposalQ| == s.config.maxCachedLength then [] else s.proposalQ;
        if || (m.decree == last.decree && m.ballot.num > last.ballot.num)
           || (m.decree == last.decree + 1 && m.ballot.num == last.ballot.num)
        then s.(proposalQ := kept + [ProposalIn(m)])
        else s.(proposalQ := [ProposalIn(m)])
  }

  function HandleAcceptRequest(s: NodeState, m: Message): NodeState {
    if m.ballot.node != m.from || m.from == s.id then s
    else if s.local.maxPrepared.num < s.local.maxAccepted.ballot.num then s
    else if s.local.state != Initializing then AcceptWhenActive(s, m)
    else AcceptWhenInitializing(s, m)
  }

  function HandleNotAccept(s: NodeState, m: Message): NodeState {
    if m.decree < s.local.maxAccepted.decree || m.ballot.num < s.local.maxAccepted.ballot.num then s
    else if s.local.state == Initializing then s
    else if m.decree > s.local.maxAccepted.decree then Initialize(s)
    else if m.ballot.num > s.local.maxPrepared.num then Stabilize(RaisePrepared(s, m.ballot), false)
    else s
  }

  function RecordVote(s: NodeState, m: Message): NodeState {
    s.(remoteStates := s.remoteStates[m.from := RemoteState(m.from, m.ballot, m.decree, 0)])
  }

  function HandleAcceptResponse(s: NodeState, m: Message): NodeState {
    if !IsStable(s) || s.local.maxPrepared.num != m.ballot.num || s.local.maxAccepted.decree != m.decree
       || s.local.maxPrepared.node != s.id || s.readyToPropose || s.local.maxPrepared.num != s.local.maxAccepted.ballot.num
    then s
    else
      var t := RecordVote(s, m);
      if IsMajority(t, |t.remoteStates| + 1)
      then AddToExecutionQueue(t.(readyToPropose := true, timers := t.timers.(action := MAX_INT)), t.local.maxAccepted)
      else t
  }

  /** The accepted entries of a log at or above decree `d`, in log order. */
  function AcceptedFrom(entries: seq<Entry>, d: int): seq<Proposal> {
    if entries == [] then []
    else
      var rest := AcceptedFrom(entries[..|entries| - 1], d);
      var e := entries[|entries| - 1];
      if e.accepted && e.decree >= d then rest + [Proposal(e.ballot, e.decree, e.command)] else rest
  }

  function HandleFetchRequest(s: NodeState, m: Message): NodeState {
    Send(s, Blank(FetchResp).(to := m.from, proposals := AcceptedFrom(s.log.entries, m.decree)))
  }

  function LogNext(s: NodeState, p: Proposal): NodeState {
    LogProposal(ExecuteBefore(s, p.decree), p)
  }

  function LogCached(s: NodeState, cached: seq<Proposal>): NodeState
    decreases |cached|
  {
    if cached == [] then s
    else LogCached(LogNext(s, cached[0]), cached[1..])
  }

  function SkipAhead(s: NodeState, p: Proposal): NodeState {
    if p.decree == s.local.maxAccepted.decree + 1 && p.ballot.num > s.local.maxAccepted.ballot.num
    then LogProposal(ExecuteBefore(s, p.decree), Proposal(s.local.maxAccepted.ballot, s.local.maxAccepted.decree + 1, p.command))
    else s
  }

  predicate Continues(p: Proposal, s: NodeState) {
    || (p.decree == s.local.maxAccepted.decree && p.ballot.num >= s.local.maxAccepted.ballot.num)
    || (p.decree == s.local.maxAccepted.decree + 1 && p.ballot.num == s.local.maxAccepted.ballot.num)
  }

  /** Replays fetched proposals from the first to the last; `flush` says whether the cached
      proposals can be logged right after one of them. */
  function LogFetched(s: NodeState, fetched: seq<Proposal>, flush: bool): NodeState
    decreases |fetched|
  {
    if fetched == [] then Initialize(s)
    else
      var p := fetched[0];
      if p.decree <= s.local.maxAccepted.decree || p.ballot.num <= s.local.maxAccepted.ballot.num then s
      else
        var t := SkipAhead(s, p);
        if !Continues(p, t) then t
        else
          var u := LogNext(t, p);
          if flush then Stabilize(LogCached(u, u.proposalQ), false)
          else LogFetched(u, fetched[1..], flush)
  }

  function HandleFetchResponse(s: NodeState, m: Message): NodeState {
    if s.learningFrom == 0 || s.learningFrom != m.from then s
    else
      var flush := |s.proposalQ| == 0 || s.proposalQ[0].decree <= m.decree;
      LogFetched(s, m.proposals, flush).(learningFrom := 0)
  }

  ghost function Step(s: NodeState, m: Message, draw: nat): NodeState {
    if s.local.state == Inactive then s
    else match m.kind
      case AcceptReq => HandleAcceptRequest(s, m)
      case AcceptResp => if m.accept then HandleAcceptResponse(s, m) else HandleNotAccept(s, m)
      case FetchReq => HandleFetchRequest(s, m)
      case FetchResp => HandleFetchResponse(s, m)
      case PrepareReq => HandlePrepareRequest(s, m)
      case PrepareResp => if m.accept then HandlePrepareResponse(s, m) else HandleNotAccept(s, m)
      case StatusReq => HandleStatusRequest(s, m)
      case StatusResp => HandleStatusResponse(s, m, draw)
      case CommandMessage => s
  }
}
