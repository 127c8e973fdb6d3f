/** What a node does with each message and each tick, case by case over the fields it holds and the
    fields of the message, and what the cases come to when messages meet. */
module RslAnswers {
  import opened RslTypes
  import opened RslNodeSpec
  import opened RslInvariant

  /** A message that carries a ballot, a decree and a verdict only. */
  function Short(from: nat, to: nat, kind: MessageType, ballot: Ballot, decree: int, accept: bool): Message {
    Message(from, to, kind, ballot, decree, NO_COMMAND, ZERO_BALLOT, 0, accept, [])
  }

  predicate Active(s: NodeState) {
    s.local.state != Inactive
  }

  function Sending(s: NodeState, m: Message): NodeState {
    s.(pending := s.pending + [m])
  }

  // ----- who gets a broadcast -----

  /** How often a sequence holds a value. */
  function Times<T(==)>(xs: seq<T>, x: T): nat {
    if xs == [] then 0 else Times(xs[1..], x) + if xs[0] == x then 1 else 0
  }

  /** A broadcast queues one copy for each peer other than the sender, and nothing else. */
  lemma {:induction false} BroadcastReachesOthers(peers: seq<nat>, m: Message)
    ensures forall c | c in Copies(peers, m) :: c.to in peers && c.to != m.from && c == m.(to := c.to)
    ensures forall p: nat :: Times(Copies(peers, m), m.(to := p)) == if p == m.from then 0 else Times(peers, p)
  {
    if peers != [] {
      BroadcastReachesOthers(peers[1..], m);
      assert peers[0] != m.from ==> Copies(peers, m)[1..] == Copies(peers[1..], m);
      assert forall p: nat :: m.(to := p) == m.(to := peers[0]) <==> p == peers[0];
    }
  }

  /** `t` is `s` asking everybody for their status. */
  predicate Restarts(s: NodeState, t: NodeState) {
    t == s.(local := s.local.(state := Initializing), remoteStates := map[],
            pending := s.pending + Copies(s.config.peers, Short(s.id, 0, StatusReq, ZERO_BALLOT, 0, false)),
            timers := s.timers.(action := Wrap64(s.timers.ticks + s.config.initializeRetryInterval)))
  }

  // ----- questions -----

  lemma StatusAnswered(s: NodeState, m: Message, draw: nat)
    requires Active(s) && m.kind == StatusReq
    ensures Step(s, m, draw)
         == Sending(s, Short(s.id, m.from, StatusResp, s.local.maxAccepted.ballot, s.local.maxAccepted.decree, false)
                         .(timestamp := s.timers.lastChosen))
  {
  }

  /** `picked` are the positions of exactly the accepted entries at or above decree `d`, in log order. */
  ghost predicate Picks(entries: seq<Entry>, d: int, picked: seq<nat>) {
    && (forall k | 0 <= k < |picked| :: picked[k] < |entries|)
    && (forall j, k | 0 <= j < k < |picked| :: picked[j] < picked[k])
    && (forall i :: i in picked <==> 0 <= i < |entries| && entries[i].accepted && entries[i].decree >= d)
  }

  lemma {:induction false} AcceptedFromPicks(entries: seq<Entry>, d: int) returns (picked: seq<nat>)
    ensures Picks(entries, d, picked)
    ensures |AcceptedFrom(entries, d)| == |picked|
    ensures forall k | 0 <= k < |picked| ::
              var e := entries[picked[k]]; AcceptedFrom(entries, d)[k] == Proposal(e.ballot, e.decree, e.command)
  {
    picked := [];
    if entries != [] {
      var l := |entries| - 1;
      picked := AcceptedFromPicks(entries[..l], d);
      assert forall i | i in picked :: i < l;
      if entries[l].accepted && entries[l].decree >= d {
        picked := picked + [l];
      }
    }
  }

  /** A fetch is answered with all accepted entries from the decree asked for on, in log order. */
  lemma FetchAnswered(s: NodeState, m: Message, draw: nat) returns (picked: seq<nat>, proposals: seq<Proposal>)
    requires Active(s) && m.kind == FetchReq
    ensures Picks(s.log.entries, m.decree, picked) && |proposals| == |picked|
    ensures forall k | 0 <= k < |picked| ::
              var e := s.log.entries[picked[k]]; proposals[k] == Proposal(e.ballot, e.decree, e.command)
    ensures Step(s, m, draw)
         == Sending(s, Short(s.id, m.from, FetchResp, ZERO_BALLOT, 0, false).(proposals := proposals))
  {
    picked := AcceptedFromPicks(s.log.entries, m.decree);
    proposals := AcceptedFrom(s.log.entries, m.decree);
  }

  // ----- statuses -----

  /** The statuses counted once `m` is. */
  function Counted(s: NodeState, m: Message): map<nat, RemoteState> {
    s.remoteStates[m.from := RemoteState(m.from, m.ballot, m.decree, m.timestamp)]
  }

  /** Node `r` has reported more than `s` has accepted. */
  predicate ReportsMore(s: NodeState, counted: map<nat, RemoteState>, r: nat) {
    && r in counted
    && counted[r].maxBallot.num >= s.local.maxAccepted.ballot.num
    && counted[r].maxChosen >= s.local.maxAccepted.decree
    && (counted[r].maxBallot.num > s.local.maxAccepted.ballot.num || counted[r].maxChosen > s.local.maxAccepted.decree)
  }

  predicate StaleCache(s: NodeState) {
    s.proposalQ != [] && s.proposalQ[0].decree < s.local.maxAccepted.decree
  }

  /** Node `r` has reached the first cached proposal. */
  predicate HasCached(s: NodeState, counted: map<nat, RemoteState>, r: nat) {
    r in counted && s.proposalQ != [] && counted[r].maxChosen >= s.proposalQ[0].decree
  }

  function FetchFrom(s: NodeState, r: nat): NodeState {
    Sending(s, Short(s.id, r, FetchReq, s.local.maxAccepted.ballot, s.local.maxAccepted.decree, false)).(learningFrom := r)
  }

  /** An initializing node that has heard from fewer than a majority only counts; with a majority it
      asks a node that has what it lacks, if one reported so, and stays initializing. */
  lemma StatusCounted(s: NodeState, m: Message, draw: nat)
    requires s.local.state == Initializing && m.kind == StatusResp && DrawOk(s, m, draw)
    ensures var t, counted := Step(s, m, draw), Counted(s, m);
            && (|counted| + 1 < s.local.peerConfig.QuorumSize() || StaleCache(s) ==> t == s.(remoteStates := counted))
            && (|counted| + 1 >= s.local.peerConfig.QuorumSize() && !StaleCache(s)
                && (exists r :: HasCached(s, counted, r) || ReportsMore(s, counted, r)) ==>
                  && t == FetchFrom(s, draw).(remoteStates := counted)
                  && (HasCached(s, counted, draw) || ReportsMore(s, counted, draw))
                  && ((exists r :: HasCached(s, counted, r)) ==> HasCached(s, counted, draw)))
  {
    var t, counted := RecordStatus(s, m), Counted(s, m);
    assert t.remoteStates == counted;
    forall r | r in counted ensures r in AheadNodes(counted, s.local.maxAccepted) <==> ReportsMore(s, counted, r) {
    }
    if s.proposalQ != [] {
      forall r | r in counted ensures r in HigherNodes(counted, s.proposalQ[0].decree) <==> HasCached(s, counted, r) {
      }
    }
  }

  /** The time by which an initializing node without an election time expects a leader: nothing has
      been chosen for a while by then, as far as the statuses tell. */
  ghost predicate ElectionTime(s: NodeState, counted: map<nat, RemoteState>, time: int) {
    if s.timers.nextElection != MAX_INT then time == s.timers.nextElection
    else exists latest :: LatestReport(counted, latest)
           && time == Wrap64((if latest < s.timers.ticks then latest else s.timers.ticks) + s.config.baseElectionDelay)
  }

  ghost predicate LatestReport(counted: map<nat, RemoteState>, latest: int) {
    && latest >= 0
    && (forall r | r in counted :: counted[r].lastChosenTime <= latest)
    && (latest == 0 || exists r :: r in counted && counted[r].lastChosenTime == latest)
  }

  /** `t` is `s` standing for election under the next ballot number, whatever its election time was. */
  predicate Stands(s: NodeState, t: NodeState) {
    var b := Ballot(s.local.maxPrepared.num + 1, s.id);
    t == s.(local := s.local.(state := Preparing, maxPrepared := b, oldFreshest := s.local.maxAccepted),
            log := s.log.(entries := s.log.entries + [Entry(false, b, 0, NO_COMMAND)]), remoteStates := map[],
            pending := s.pending + Copies(s.config.peers, Short(s.id, 0, PrepareReq, b, s.local.maxAccepted.decree, false)),
            timers := s.timers.(nextElection := Wrap64(s.timers.ticks + s.config.newLeaderGracePeriod),
                                action := Wrap64(s.timers.ticks + s.config.prepareRetryInterval)))
  }

  /** `t` is `s` going on when nobody is ahead: standing or following. */
  predicate GoesOn(s: NodeState, t: NodeState, time: int) {
    if s.timers.ticks > time || s.local.maxPrepared.node == s.id then Stands(s, t)
    else t == s.(local := s.local.(state := StableSecondary), remoteStates := map[],
                 timers := s.timers.(nextElection := time, action := MAX_INT))
  }

  /** An initializing node leaves that state exactly when a majority answered and nobody reported
      anything it lacks. Then it stands for election if its time is over or it owns the ballot it
      prepared, and follows otherwise. */
  lemma LeavesInitializing(s: NodeState, m: Message, draw: nat)
    requires s.local.state == Initializing && m.kind == StatusResp && DrawOk(s, m, draw)
    ensures var t, counted := Step(s, m, draw), Counted(s, m);
            && (t.local.state != Initializing <==>
                  && |counted| + 1 >= s.local.peerConfig.QuorumSize() && !StaleCache(s)
                  && forall r :: !HasCached(s, counted, r) && !ReportsMore(s, counted, r))
            && (t.local.state != Initializing ==> exists time :: ElectionTime(s, counted, time) && GoesOn(s, t, time))
  {
    hide ProceedFromStatus, StaleCache, HasCached, ReportsMore, ElectionTime, GoesOn;
    var t, counted := RecordStatus(s, m), Counted(s, m);
    assert t.remoteStates == counted;
    PlanMeans(s, counted);
    if IsMajority(t, 1 + |t.remoteStates|) && PlanAfterStatus(t) == Proceed {
      NobodyAhead(s, counted);
    }
  }

  lemma PlanMeans(s: NodeState, counted: map<nat, RemoteState>)
    ensures var t := s.(remoteStates := counted);
            && (PlanAfterStatus(t) == Return <==> StaleCache(s))
            && (PlanAfterStatus(t).Learn? <==> !StaleCache(s) && exists r :: HasCached(s, counted, r) || ReportsMore(s, counted, r))
  {
    forall r | r in counted ensures r in AheadNodes(counted, s.local.maxAccepted) <==> ReportsMore(s, counted, r) {
    }
    if s.proposalQ != [] {
      forall r | r in counted ensures r in HigherNodes(counted, s.proposalQ[0].decree) <==> HasCached(s, counted, r) {
      }
    }
  }

  lemma NobodyAhead(s: NodeState, counted: map<nat, RemoteState>)
    requires s.local.state == Initializing
    ensures var t := ProceedFromStatus(s.(remoteStates := counted));
            t.local.state != Initializing && exists time :: ElectionTime(s, counted, time) && GoesOn(s, t, time)
  {
    hide Copies, Wrap64;
    var t := s.(remoteStates := counted);
    var time := SetElectionTime(t).timers.nextElection;
    if s.timers.nextElection == MAX_INT {
      assert LatestReport(counted, MaxChosenTime(counted));
    }
    assert ElectionTime(s, counted, time);
    assert GoesOn(s, ProceedFromStatus(t), time);
  }

  /** Any other node answers a status by a fetch exactly when the sender has accepted the same decree
      under no lower ballot and nothing is cached. */
  lemma StatusWhenSettled(s: NodeState, m: Message, draw: nat)
    requires Active(s) && s.local.state != Initializing && m.kind == StatusResp
    ensures Step(s, m, draw) ==
            if m.decree == s.local.maxAccepted.decree && m.ballot.num >= s.local.maxAccepted.ballot.num && s.proposalQ == []
            then FetchFrom(s, m.from) else s
  {
  }
}
