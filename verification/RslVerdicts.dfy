/** What a node does with requests to promise and to accept, with the answers to its own, and with a
    fetched log, case by case over the fields; and what a refusal comes to at a deposed primary. */
module RslVerdicts {
  import opened RslTypes
  import opened RslNodeSpec
  import opened RslInvariant
  import opened RslAnswers

  /** `t` is `s` after it took ballot `b` of another node or its own as prepared and logged it. */
  predicate Raises(s: NodeState, t: NodeState, b: Ballot) {
    && t.local.maxPrepared == b
    && t.log == s.log.(entries := s.log.entries + [Entry(false, b, 0, NO_COMMAND)])
    && t.timers.nextElection == Wrap64((if s.timers.nextElection > s.timers.ticks then s.timers.nextElection else s.timers.ticks)
                                       + s.config.newLeaderGracePeriod)
  }

  predicate SamePromise(s: NodeState, t: NodeState) {
    t.local.maxPrepared == s.local.maxPrepared && t.log == s.log && t.timers.nextElection == s.timers.nextElection
  }

  /** Following resets the action timer, except at the owner of the ballot: there only one that was
      preparing sets it, to the time to ask for votes again. */
  predicate Follows(s: NodeState, t: NodeState) {
    && t.local.state == StableSecondary && t.remoteStates == map[]
    && t.timers.action == if t.local.maxPrepared.node != s.id then MAX_INT
                          else if s.local.state == Preparing then Wrap64(s.timers.ticks + s.config.voteRetryInterval)
                          else s.timers.action
  }

  /** Nothing else: neither what is accepted, nor the queues, nor the other timers. */
  predicate KeepsRest(s: NodeState, t: NodeState) {
    && t.id == s.id && t.config == s.config && t.commandQ == s.commandQ && t.proposalQ == s.proposalQ
    && t.readyToPropose == s.readyToPropose && t.learningFrom == s.learningFrom
    && t.local.maxAccepted == s.local.maxAccepted && t.local.oldFreshest == s.local.oldFreshest
    && t.local.decidedCount == s.local.decidedCount && t.local.peerConfig == s.local.peerConfig
    && t.timers == s.timers.(action := t.timers.action, nextElection := t.timers.nextElection)
  }

  // ----- requests to promise -----

  /** A request for a lower ballot or decree is refused. An initializing node is silent otherwise. */
  lemma PrepareRefused(s: NodeState, m: Message, draw: nat)
    requires Active(s) && m.kind == PrepareReq
    ensures var t := Step(s, m, draw);
            var lower := m.ballot.num < s.local.maxPrepared.num || m.decree < s.local.maxAccepted.decree;
            && (lower ==>
                  t == Sending(s, Short(s.id, m.from, PrepareResp, s.local.maxPrepared, s.local.maxAccepted.decree, false)))
            && (!lower && s.local.state == Initializing ==> t == s)
  {
  }

  /** Any other node promises a higher ballot and reports what it has accepted; when it is behind, it
      asks for statuses too. */
  lemma PrepareGranted(s: NodeState, m: Message, draw: nat)
    requires Active(s) && s.local.state != Initializing && m.kind == PrepareReq
    requires m.ballot.num >= s.local.maxPrepared.num && m.decree >= s.local.maxAccepted.decree
    ensures var t := Step(s, m, draw);
            var raise, behind := m.ballot.num > s.local.maxPrepared.num, m.decree > s.local.maxAccepted.decree;
            var answer := Short(s.id, m.from, PrepareResp, m.ballot, s.local.maxAccepted.decree, true)
                            .(proposalBallot := s.local.maxAccepted.ballot, command := s.local.maxAccepted.command);
            var asked := Copies(s.config.peers, Short(s.id, 0, StatusReq, ZERO_BALLOT, 0, false));
            && t.pending == s.pending + (if raise then [answer] else []) + (if behind then asked else [])
            && (if raise then Raises(s, t, m.ballot) else SamePromise(s, t))
  {
    hide Copies, Wrap64, HandleAcceptRequest, HandleAcceptResponse, HandleNotAccept,
      HandlePrepareResponse, HandleStatusResponse, HandleFetchResponse;
  }

  /** Then it follows if it has accepted the same decree, and is initializing if it is behind. */
  lemma PrepareSettles(s: NodeState, m: Message, draw: nat)
    requires Active(s) && s.local.state != Initializing && m.kind == PrepareReq
    requires m.ballot.num >= s.local.maxPrepared.num && m.decree >= s.local.maxAccepted.decree
    ensures var t := Step(s, m, draw);
            && KeepsRest(s, t)
            && if m.decree > s.local.maxAccepted.decree then
                 && t.local.state == Initializing && t.remoteStates == map[]
                 && t.timers.action == Wrap64(s.timers.ticks + s.config.initializeRetryInterval)
               else Follows(s, t)
  {
    hide Copies, Wrap64, HandleAcceptRequest, HandleAcceptResponse, HandleNotAccept,
      HandlePrepareResponse, HandleStatusResponse, HandleFetchResponse;
  }

  // ----- requests to accept -----

  /** A request that a node does not take from another node's own ballot, or whose receiver holds a
      proposal above its prepared ballot, has no effect. */
  predicate Ignored(s: NodeState, m: Message) {
    m.ballot.node != m.from || m.from == s.id || s.local.maxPrepared.num < s.local.maxAccepted.ballot.num
  }

  /** The refusal a node sends: the ballot it has prepared and the decree it has accepted. */
  function Refusal(s: NodeState, to: nat): Message {
    Short(s.id, to, AcceptResp, s.local.maxPrepared, s.local.maxAccepted.decree, false)
  }

  /** A node that is not initializing refuses a request for a lower ballot or decree, with exactly one
      answer and no other effect; one it has accepted already is passed over. */
  lemma AcceptRefused(s: NodeState, m: Message, draw: nat)
    requires Active(s) && s.local.state != Initializing && m.kind == AcceptReq
    ensures var t, acc := Step(s, m, draw), s.local.maxAccepted;
            var lower := m.ballot.num < s.local.maxPrepared.num || m.decree < acc.decree;
            && (Ignored(s, m) ==> t == s)
            && (!Ignored(s, m) && lower ==> t == Sending(s, Refusal(s, m.from)))
            && (!Ignored(s, m) && !lower && m.ballot.num == acc.ballot.num && m.decree == acc.decree ==> t == s)
  {
  }

  /** A request that is neither refused nor passed over. */
  predicate Considered(s: NodeState, m: Message) {
    && Active(s) && s.local.state != Initializing && m.kind == AcceptReq && !Ignored(s, m)
    && m.ballot.num >= s.local.maxPrepared.num && m.decree >= s.local.maxAccepted.decree
    && !(m.ballot.num == s.local.maxAccepted.ballot.num && m.decree == s.local.maxAccepted.decree)
  }

  predicate MovesOn(s: NodeState, m: Message) {
    m.decree == s.local.maxAccepted.decree + 1 && m.ballot.num == s.local.maxAccepted.ballot.num
  }

  /** The rest is accepted and voted for when it is for the accepted decree under a higher ballot, or
      for the next decree under the same ballot, in which case the accepted decree is executed first.
      Anything further makes the node ask for statuses. */
  lemma AcceptTaken(s: NodeState, m: Message, draw: nat)
    requires Considered(s, m)
    ensures var t := Step(s, m, draw);
            if m.decree == s.local.maxAccepted.decree || MovesOn(s, m) then
              && t.local.maxAccepted == Proposal(m.ballot, m.decree, m.command)
              && t.log.entries == s.log.entries + [Entry(true, m.ballot, m.decree, m.command)]
              && t.local.maxPrepared == (if m.ballot.num > s.local.maxPrepared.num then m.ballot else s.local.maxPrepared)
              && t.pending == s.pending + [Short(s.id, m.from, AcceptResp, m.ballot, m.decree, true)]
            else Restarts(s, t)
  {
    hide Copies, Wrap64, HandlePrepareRequest, HandleAcceptResponse, HandleNotAccept,
      HandlePrepareResponse, HandleStatusResponse, HandleFetchResponse;
  }

  lemma AcceptSettles(s: NodeState, m: Message, draw: nat)
    requires Considered(s, m) && (m.decree == s.local.maxAccepted.decree || MovesOn(s, m))
    ensures var t := Step(s, m, draw);
            && Follows(s, t) && Accepts(s, t)
            && t.timers.nextElection == AcceptElection(s, MovesOn(s, m), m.ballot.num > s.local.maxPrepared.num)
  {
    hide Copies, Wrap64, HandlePrepareRequest, HandleAcceptResponse, HandleNotAccept,
      HandlePrepareResponse, HandleStatusResponse, HandleFetchResponse;
  }

  lemma AcceptExecutes(s: NodeState, m: Message, draw: nat)
    requires Considered(s, m) && (m.decree == s.local.maxAccepted.decree || MovesOn(s, m))
    ensures var t := Step(s, m, draw);
            && t.log.decided == s.log.decided + (if MovesOn(s, m) then [s.local.maxAccepted.command] else [])
            && t.local.peerConfig == (if MovesOn(s, m) then Adopted(s) else s.local.peerConfig)
  {
    hide Copies, Wrap64;
  }

  /** The times that an accepted proposal sets, and what it leaves alone. */
  predicate Accepts(s: NodeState, t: NodeState) {
    && t.timers.lastChosen == s.timers.ticks && t.timers.ticks == s.timers.ticks
    && t.timers.noProgress == Wrap64(s.timers.ticks + s.config.noProgressTimeout)
    && t.id == s.id && t.config == s.config && t.commandQ == s.commandQ && t.proposalQ == s.proposalQ
    && t.readyToPropose == s.readyToPropose && t.learningFrom == s.learningFrom
    && t.local.oldFreshest == s.local.oldFreshest
  }

  /** The election is put off by a delay when a decree is executed, and for a new leader by its grace period. */
  function AcceptElection(s: NodeState, executes: bool, newLeader: bool): int {
    var base := if executes then Wrap64(s.timers.ticks + s.config.baseElectionDelay) else s.timers.nextElection;
    if newLeader then Wrap64((if base > s.timers.ticks then base else s.timers.ticks) + s.config.newLeaderGracePeriod) else base
  }

  /** The configuration after the accepted proposal is executed. */
  function Adopted(s: NodeState): RslConfig {
    match s.local.maxAccepted.command
    case Plain(_) => s.local.peerConfig
    case Reconfigure(members) => RslConfig(s.local.peerConfig.number + 1, s.local.maxAccepted.decree, members)
  }

  // ----- the cache of an initializing node -----

  /** `q` comes right after `p`: the next decree of its ballot, or its decree under a higher ballot. */
  predicate Succeeds(p: Proposal, q: Proposal) {
    || (q.decree == p.decree && q.ballot.num > p.ballot.num)
    || (q.decree == p.decree + 1 && q.ballot.num == p.ballot.num)
  }

  /** The cached proposals follow each other. */
  predicate IsSuccession(ps: seq<Proposal>) {
    forall i | 0 <= i < |ps| - 1 :: Succeeds(ps[i], ps[i + 1])
  }

  /** An initializing node accepts nothing. What lies below the last cached proposal is not cached,
      and refused when it lies below what the node has accepted. */
  lemma CacheRefuses(s: NodeState, m: Message, draw: nat)
    requires s.local.state == Initializing && m.kind == AcceptReq && !Ignored(s, m) && s.proposalQ != []
    requires var last := s.proposalQ[|s.proposalQ| - 1]; m.decree < last.decree || m.ballot.num < last.ballot.num
    ensures Step(s, m, draw) ==
            if m.decree < s.local.maxAccepted.decree || m.ballot.num < s.local.maxAccepted.ballot.num
            then Sending(s, Refusal(s, m.from)) else s
  {
  }

  /** Anything else becomes the last cached proposal, and the cache stays a succession no longer than
      its bound: it is extended when there is room, and begun anew when not or when there is a gap. */
  lemma CacheTakes(s: NodeState, m: Message, draw: nat)
    requires s.local.state == Initializing && m.kind == AcceptReq && !Ignored(s, m)
    requires s.proposalQ != [] ==>
               var last := s.proposalQ[|s.proposalQ| - 1]; m.decree >= last.decree && m.ballot.num >= last.ballot.num
    ensures var t, p := Step(s, m, draw), Proposal(m.ballot, m.decree, m.command);
            && t == s.(proposalQ := t.proposalQ)
            && t.proposalQ != []
            && t.proposalQ[|t.proposalQ| - 1].decree == m.decree && t.proposalQ[|t.proposalQ| - 1].ballot.num == m.ballot.num
            && (t.proposalQ == s.proposalQ || t.proposalQ == [p] || t.proposalQ == s.proposalQ + [p])
            && (IsSuccession(s.proposalQ) ==> IsSuccession(t.proposalQ))
            && (1 <= s.config.maxCachedLength && |s.proposalQ| <= s.config.maxCachedLength ==> |t.proposalQ| <= s.config.maxCachedLength)
            && (s.proposalQ != [] && |s.proposalQ| != s.config.maxCachedLength && Succeeds(s.proposalQ[|s.proposalQ| - 1], p) ==>
                  t.proposalQ == s.proposalQ + [p])
  {
  }

  lemma CacheIgnores(s: NodeState, m: Message, draw: nat)
    requires s.local.state == Initializing && m.kind == AcceptReq && Ignored(s, m)
    ensures Step(s, m, draw) == s
  {
  }

  // ----- refusals -----

  predicate IsRefusal(m: Message) {
    (m.kind == AcceptResp || m.kind == PrepareResp) && !m.accept
  }

  /** A refusal of a later decree makes a node ask for statuses; one that names a higher ballot for its
      own decree makes it follow that ballot; anything else has no effect. */
  lemma RefusalHeeded(s: NodeState, m: Message, draw: nat)
    requires Active(s) && IsRefusal(m)
    ensures var t, acc := Step(s, m, draw), s.local.maxAccepted;
            if s.local.state == Initializing || m.decree < acc.decree || m.ballot.num < acc.ballot.num then t == s
            else if m.decree > acc.decree then Restarts(s, t)
            else if m.ballot.num > s.local.maxPrepared.num then
              Raises(s, t, m.ballot) && Follows(s, t) && KeepsRest(s, t) && t.pending == s.pending
            else t == s
  {
    hide Copies, Wrap64;
  }

  /** A primary whose request to accept reaches a node that has since promised a higher ballot gets a
      refusal, and on its delivery steps down and takes that ballot as prepared. */
  lemma DeposedPrimaryStepsDown(p: NodeState, s: NodeState, request: Message, draw: nat)
    requires p.local.state == StablePrimary && p.local.maxPrepared.node == p.id
    requires p.local.maxAccepted.ballot == p.local.maxPrepared
    requires request.kind == AcceptReq && request.from == p.id && request.ballot == p.local.maxAccepted.ballot
    requires request.decree == p.local.maxAccepted.decree
    requires Active(s) && s.local.state != Initializing && s.id != p.id && s.pending == []
    requires s.local.maxAccepted.ballot.num <= s.local.maxPrepared.num
    requires s.local.maxAccepted.decree == p.local.maxAccepted.decree
    requires s.local.maxPrepared.num > p.local.maxPrepared.num && s.local.maxPrepared.node != p.id
    ensures var answers := Step(s, request, 0).pending;
            && |answers| == 1 && answers[0].to == p.id && IsRefusal(answers[0])
            && var p' := Step(p, answers[0], draw);
               && p'.local.state == StableSecondary && p'.local.maxPrepared == s.local.maxPrepared
               && p'.local.maxAccepted == p.local.maxAccepted
               && p'.log.entries == p.log.entries + [Entry(false, s.local.maxPrepared, 0, NO_COMMAND)]
  {
    hide Step;
    AcceptRefused(s, request, 0);
    RefusalHeeded(p, Refusal(s, p.id), draw);
  }

  // ----- promises and votes -----

  /** A promise for the ballot and decree a candidate stands for is counted, and a fresher proposal it
      reports is kept. With a majority the candidate is primary: it accepts that proposal under its own
      ballot and asks everybody else to. Any other promise has no effect. */
  lemma PromiseCounted(s: NodeState, m: Message, draw: nat)
    requires Active(s) && m.kind == PrepareResp && m.accept
    ensures var t := Step(s, m, draw);
            var fits := s.local.state == Preparing && m.ballot.num == s.local.maxPrepared.num && m.ballot.node == s.id
                        && m.decree == s.local.maxAccepted.decree;
            var freshest := if m.decree == s.local.oldFreshest.decree && m.proposalBallot.num > s.local.oldFreshest.ballot.num
                         then Proposal(m.proposalBallot, m.decree, m.command) else s.local.oldFreshest;
            var counted := s.remoteStates[m.from := RemoteState(m.from, m.proposalBallot, m.decree, 0)];
            var p := Proposal(s.local.maxPrepared, freshest.decree, freshest.command);
            if !fits then t == s
            else if |counted| + 1 < s.local.peerConfig.QuorumSize() then
              t == s.(local := s.local.(oldFreshest := freshest), remoteStates := counted)
            else
              t == s.(local := s.local.(state := StablePrimary, oldFreshest := p, maxAccepted := p),
                      log := s.log.(entries := s.log.entries + [Entry(true, p.ballot, p.decree, p.command)]),
                      pending := s.pending + Copies(s.config.peers,
                        Short(s.id, 0, AcceptReq, p.ballot, p.decree, false).(command := p.command)),
                      remoteStates := map[], readyToPropose := false,
                      timers := s.timers.(lastChosen := s.timers.ticks, noProgress := Wrap64(s.timers.ticks + s.config.noProgressTimeout),
                                          action := t.timers.action))
              && (s.local.maxPrepared.node == s.id ==> t.timers.action == Wrap64(s.timers.ticks + s.config.voteRetryInterval))
  {
    hide Copies, Wrap64;
  }

  /** A vote for the proposal a node waits for under its own ballot is counted; with a majority the
      proposal is executed and the node is ready for the next. Any other vote has no effect. */
  lemma VoteCounted(s: NodeState, m: Message, draw: nat)
    requires Active(s) && m.kind == AcceptResp && m.accept
    ensures var t, acc := Step(s, m, draw), s.local.maxAccepted;
            var fits := (s.local.state == StablePrimary || s.local.state == StableSecondary) && !s.readyToPropose
                        && s.local.maxPrepared.node == s.id && m.ballot.num == s.local.maxPrepared.num == acc.ballot.num
                        && m.decree == acc.decree;
            var counted := s.remoteStates[m.from := RemoteState(m.from, m.ballot, m.decree, 0)];
            if !fits then t == s
            else if |counted| + 1 < s.local.peerConfig.QuorumSize() then t == s.(remoteStates := counted)
            else
              t == s.(remoteStates := counted, readyToPropose := true, timers := s.timers.(action := MAX_INT),
                      log := s.log.(decided := s.log.decided + [acc.command], decidedAt := s.log.decidedAt + [acc.decree]),
                      local := s.local.(peerConfig := Adopted(s), decidedCount := |s.log.decided| + 1))
  {
  }

  // ----- a fetched log -----

  /** `ps` climbs from `p`: every proposal is for the next decree under a higher ballot. */
  predicate Climbs(p: Proposal, ps: seq<Proposal>)
    decreases |ps|
  {
    ps == [] || (ps[0].decree == p.decree + 1 && ps[0].ballot.num > p.ballot.num && Climbs(ps[0], ps[1..]))
  }

  /** How many of the fetched proposals are taken: as long as they climb. */
  function Taken(p: Proposal, ps: seq<Proposal>): nat
    decreases |ps|
  {
    if ps != [] && ps[0].decree == p.decree + 1 && ps[0].ballot.num > p.ballot.num then 1 + Taken(ps[0], ps[1..]) else 0
  }

  lemma NextTaken(s: NodeState, p: Proposal)
    ensures var t, moves := LogNext(s, p), p.decree == s.local.maxAccepted.decree + 1;
            && t.log.entries == s.log.entries + [Entry(true, p.ballot, p.decree, p.command)]
            && t.log.decided == s.log.decided + (if moves then [s.local.maxAccepted.command] else [])
            && t.local.maxAccepted == p && t.local.state == s.local.state && t.proposalQ == s.proposalQ
  {
    hide Wrap64;
  }

  /** A proposal that climbs is taken in two steps: for its decree under the old ballot, then as it is. */
  lemma ClimbTaken(s: NodeState, p: Proposal)
    requires p.decree == s.local.maxAccepted.decree + 1 && p.ballot.num > s.local.maxAccepted.ballot.num
    ensures Continues(p, SkipAhead(s, p))
    ensures var t, l := LogNext(SkipAhead(s, p), p), |s.log.entries|;
            && |t.log.entries| == l + 2 && s.log.entries <= t.log.entries
            && t.log.entries[l + 1] == Entry(true, p.ballot, p.decree, p.command)
            && |t.log.decided| == |s.log.decided| + 1
            && t.local.maxAccepted == p && t.local.state == s.local.state && t.proposalQ == s.proposalQ
  {
    hide Wrap64, LogNext;
    NextTaken(SkipAhead(s, p), p);
  }

  lemma AsksAgain(s: NodeState)
    ensures Initialize(s).log == s.log && Initialize(s).local == s.local.(state := Initializing)
  {
  }

  /** While the cached proposals cannot follow yet, replaying a fetched log accepts exactly the proposals
      that climb from the accepted one, each after a proposal for its decree under the old ballot, executes
      each decree passed on the way, and asks for statuses again when none of the fetched ones is left. */
  lemma {:induction false} FetchedTaken(s: NodeState, ps: seq<Proposal>)
    ensures var t, n, l := LogFetched(s, ps, false), Taken(s.local.maxAccepted, ps), |s.log.entries|;
            && n <= |ps|
            && t.local.maxAccepted == (if n == 0 then s.local.maxAccepted else ps[n - 1])
            && |t.log.entries| == l + 2 * n && s.log.entries <= t.log.entries
            && (forall k | 0 <= k < n :: t.log.entries[l + 2 * k + 1] == Entry(true, ps[k].ballot, ps[k].decree, ps[k].command))
            && |t.log.decided| == |s.log.decided| + n
            && (t.local.state == if n == |ps| then Initializing else s.local.state)
    decreases |ps|
  {
    hide Initialize, LogNext;
    if ps != [] {
      var p := ps[0];
      if p.decree == s.local.maxAccepted.decree + 1 && p.ballot.num > s.local.maxAccepted.ballot.num {
        hide SkipAhead;
        ClimbTaken(s, p);
        FetchedTaken(LogNext(SkipAhead(s, p), p), ps[1..]);
      }
    } else {
      AsksAgain(s);
    }
  }

  /** The cached proposals are accepted one after the other; where they succeed each other, every decree
      passed on the way is executed. */
  lemma {:induction false} CachedTaken(s: NodeState, cached: seq<Proposal>)
    ensures var t, l, n := LogCached(s, cached), |s.log.entries|, |cached|;
            && |t.log.entries| == l + n && s.log.entries <= t.log.entries
            && (forall k | 0 <= k < n :: t.log.entries[l + k] == Entry(true, cached[k].ballot, cached[k].decree, cached[k].command))
            && t.local.maxAccepted == (if n == 0 then s.local.maxAccepted else cached[n - 1])
            && (IsSuccession([s.local.maxAccepted] + cached) ==>
                  |t.log.decided| == |s.log.decided| + t.local.maxAccepted.decree - s.local.maxAccepted.decree)
    decreases |cached|
  {
    hide LogNext;
    if cached != [] {
      var p := cached[0];
      NextTaken(s, p);
      CachedTaken(LogNext(s, p), cached[1..]);
      var all, rest := [s.local.maxAccepted] + cached, [p] + cached[1..];
      assert all[0] == s.local.maxAccepted && all[1] == p;
      assert forall i | 0 <= i < |rest| :: rest[i] == all[i + 1];
    }
  }

  /** Once they can follow, a single fetched proposal that climbs is accepted and the cached ones after it,
      and the node follows. */
  lemma FlushedAfter(s: NodeState, ps: seq<Proposal>)
    requires ps != []
    ensures var t, p := LogFetched(s, ps, true), ps[0];
            var last := if s.proposalQ == [] then p else s.proposalQ[|s.proposalQ| - 1];
            if p.decree == s.local.maxAccepted.decree + 1 && p.ballot.num > s.local.maxAccepted.ballot.num
            then t.local.maxAccepted == last && t.local.state == StableSecondary
                 && |t.log.entries| == |s.log.entries| + 2 + |s.proposalQ|
            else t == s
  {
    hide LogNext, LogCached, Wrap64;
    var p := ps[0];
    if p.decree == s.local.maxAccepted.decree + 1 && p.ballot.num > s.local.maxAccepted.ballot.num {
      hide SkipAhead;
      ClimbTaken(s, p);
      var u := LogNext(SkipAhead(s, p), p);
      CachedTaken(u, s.proposalQ);
      assert LogFetched(s, ps, true) == Stabilize(LogCached(u, u.proposalQ), false);
    }
  }

  /** A fetch answer from the node learned from ends the learning; any other has no effect. The cached
      proposals can follow when there are none, or when they start no later than the answer's decree. */
  lemma FetchResponse(s: NodeState, m: Message, draw: nat)
    requires Active(s) && m.kind == FetchResp
    ensures Step(s, m, draw) ==
            if s.learningFrom == 0 || m.from != s.learningFrom then s
            else LogFetched(s, m.proposals, s.proposalQ == [] || s.proposalQ[0].decree <= m.decree).(learningFrom := 0)
    ensures m.proposals == [] && m.from == s.learningFrom != 0 ==> Restarts(s.(learningFrom := 0), Step(s, m, draw))
  {
    hide Copies, Wrap64;
  }
}
