/** What holds in every reachable state of the cluster. All evidence about votes and
    promises is read off the durable logs, which only grow. */
module RslInvariant {
  import opened RslTypes
  import opened RslNodeSpec
  import opened RslSystem

  type Entries = seq<Entry>
  type Logs = map<nat, seq<Entry>>

  // ----- one log -----

  /** Rebuilds the accepted proposal by replaying a log from empty. */
  function ReplayAccepted(log: Entries): Proposal {
    if log == [] then ZERO_PROPOSAL
    else
      var e := log[|log| - 1];
      if e.accepted then Proposal(e.ballot, e.decree, e.command) else ReplayAccepted(log[..|log| - 1])
  }

  /** Rebuilds the prepared ballot by replaying a log from empty. */
  function ReplayPrepared(log: Entries): Ballot {
    if log == [] then ZERO_BALLOT
    else
      var before := ReplayPrepared(log[..|log| - 1]);
      var e := log[|log| - 1];
      if e.ballot.num > before.num then e.ballot else before
  }

  /** Ballot numbers never fall, and each accepted entry moves strictly past the one before. */
  ghost predicate Ordered(log: Entries) {
    forall i, j | 0 <= i < j < |log| ::
      && log[i].ballot.num <= log[j].ballot.num
      && (log[i].accepted && log[j].accepted ==>
            && log[i].decree <= log[j].decree
            && (log[i].ballot.num < log[j].ballot.num || log[i].decree < log[j].decree))
  }

  /** Some entry before `i` is accepted for decree `d`. */
  ghost predicate AcceptedBefore(log: Entries, i: int, d: int) {
    exists j :: 0 <= j < i && j < |log| && log[j].accepted && log[j].decree == d
  }

  /** Accepted decrees start at zero and skip none. */
  ghost predicate Gapless(log: Entries) {
    forall i | 0 <= i < |log| && log[i].accepted && log[i].decree != 0 ::
      AcceptedBefore(log, i, log[i].decree - 1)
  }

  /** Every entry lies at or below the accepted proposal and the prepared ballot. */
  ghost predicate Bounded(log: Entries, acc: Proposal, prep: Ballot) {
    forall e | e in log ::
      && 1 <= e.ballot.num <= prep.num
      && (e.accepted ==> 0 <= e.decree <= acc.decree && e.ballot.num <= acc.ballot.num)
  }

  ghost predicate LogOk(log: Entries, acc: Proposal, prep: Ballot) {
    && acc == ReplayAccepted(log)
    && prep == ReplayPrepared(log)
    && 0 <= acc.ballot.num <= prep.num
    && 0 <= acc.decree
    && (acc == ZERO_PROPOSAL || (Accept(acc) in log && acc.ballot.num >= 1))
    && Ordered(log)
    && Gapless(log)
    && Bounded(log, acc, prep)
  }

  /** The log accepts command `c` for decree `d` under ballot number `k`. */
  ghost predicate Voted(log: Entries, k: int, d: int, c: Command) {
    exists e :: e in log && e.accepted && e.ballot.num == k && e.decree == d && e.command == c
  }

  ghost predicate VotedSlot(log: Entries, k: int, d: int) {
    exists e :: e in log && e.accepted && e.ballot.num == k && e.decree == d
  }

  /** Entry `i` is the first to reach ballot number `b.num`, it belongs to `b`, and everything
      accepted before it lies at or below decree `d` and ballot number `pb`. */
  ghost predicate PromisedAt(log: Entries, i: nat, b: Ballot, d: int, pb: int) {
    && i < |log|
    && log[i].ballot == b
    && (forall j | 0 <= j < i ::
          && log[j].ballot.num < b.num
          && (log[j].accepted ==> log[j].decree <= d && log[j].ballot.num <= pb))
  }

  ghost predicate Promised(log: Entries, b: Ballot, d: int, pb: int) {
    exists i: nat :: PromisedAt(log, i, b, d, pb)
  }

  /** The log has reached decree `d`. */
  ghost predicate Reached(log: Entries, d: int) {
    d <= 0 || exists e :: e in log && e.accepted && e.decree >= d
  }

  // ----- all logs -----

  ghost predicate IsQuorum(q: set<nat>, peers: set<nat>) {
    q <= peers && |q| >= |peers| / 2 + 1
  }

  ghost predicate ChosenBy(logs: Logs, q: set<nat>, k: int, d: int, c: Command) {
    forall a | a in q :: a in logs && Voted(logs[a], k, d, c)
  }

  /** A majority has logged command `c` as accepted for decree `d` under ballot number `k`. */
  ghost predicate Chosen(logs: Logs, peers: set<nat>, k: int, d: int, c: Command) {
    exists q :: IsQuorum(q, peers) && ChosenBy(logs, q, k, d, c)
  }

  ghost predicate Decreed(logs: Logs, peers: set<nat>, d: int, c: Command) {
    exists k :: Chosen(logs, peers, k, d, c)
  }

  ghost predicate VotedSomewhere(logs: Logs, k: int, d: int, c: Command) {
    exists a :: a in logs && Voted(logs[a], k, d, c)
  }

  /** Quorum `q` promised the ballot of proposal `e`; the freshest proposal it had accepted
      was for decree `d0` under number `pb`, and `e` repeats it when it is for the same decree. */
  ghost predicate ElectedBy(logs: Logs, peers: set<nat>, e: Entry, q: set<nat>, d0: int, pb: int) {
    && IsQuorum(q, peers)
    && 0 <= pb < e.ballot.num
    && d0 <= e.decree
    && (forall a | a in q :: a in logs && Promised(logs[a], e.ballot, d0, pb))
    && (e.decree == d0 ==> pb == 0 || VotedSomewhere(logs, pb, d0, e.command))
  }

  ghost predicate Elected(logs: Logs, peers: set<nat>, e: Entry) {
    exists q, d0, pb :: ElectedBy(logs, peers, e, q, d0, pb)
  }

  /** `e` is a proposal that node `o` made under a ballot of its own. */
  ghost predicate Own(logs: Logs, o: nat, e: Entry) {
    o in logs && e in logs[o] && e.accepted && e.ballot.node == o
  }

  ghost predicate LogsOk(logs: Logs, peers: set<nat>) {
    && logs.Keys == peers
    && (forall a, e | a in peers && e in logs[a] && e.accepted :: Own(logs, e.ballot.node, e))
    && (forall o, e | Own(logs, o, e) :: Elected(logs, peers, e))
    && (forall o, e, e' | Own(logs, o, e) && Own(logs, o, e')
                          && e'.ballot.num == e.ballot.num && e'.decree == e.decree + 1 ::
          Chosen(logs, peers, e.ballot.num, e.decree, e.command))
    && (forall a | a in peers :: Ordered(logs[a]))
    && (forall a, e | a in peers && e in logs[a] :: e.command.Plain?)
  }

  // ----- one message -----

  ghost predicate MsgOk(logs: Logs, m: Message) {
    && m.from in logs && m.to in logs && m.from != m.to
    && (m.kind == AcceptReq ==> m.ballot.node == m.from && Accept(ProposalIn(m)) in logs[m.from])
    && (m.kind == AcceptResp && m.accept ==> VotedSlot(logs[m.from], m.ballot.num, m.decree))
    && (m.kind == PrepareResp && m.accept ==>
          && 0 <= m.proposalBallot.num < m.ballot.num
          && Promised(logs[m.from], m.ballot, m.decree, m.proposalBallot.num)
          && (m.proposalBallot.num == 0
              || Accept(Proposal(m.proposalBallot, m.decree, m.command)) in logs[m.from]))
    && (m.kind == FetchReq ==> 0 <= m.decree && Reached(logs[m.from], m.decree))
    && (m.kind == FetchResp ==> m.proposals == [] || Reached(logs[m.to], m.proposals[0].decree))
  }

  // ----- one node -----

  /** Executed decrees start at zero, never fall and skip none, up to the accepted decree. */
  ghost predicate DecreesInOrder(at: seq<int>) {
    && (|at| > 0 ==> at[0] == 0)
    && (forall i | 0 <= i < |at| - 1 :: at[i] <= at[i + 1] <= at[i] + 1)
  }

  ghost predicate CaughtUp(at: seq<int>, decree: int) {
    |at| > 0 && at[|at| - 1] == decree
  }

  ghost predicate DecidedOk(logs: Logs, peers: set<nat>, decided: seq<Command>, at: seq<int>, decree: int) {
    && |at| == |decided|
    && DecreesInOrder(at)
    && (if at == [] then decree == 0 else CaughtUp(at, decree) || CaughtUp(at, decree - 1))
    && (forall i | 0 <= i < |decided| :: Decreed(logs, peers, at[i], decided[i]))
  }

  ghost predicate PendingOk(logs: Logs, pending: seq<Message>) {
    forall m | m in pending :: MsgOk(logs, m)
  }

  predicate AllPlain(q: seq<Command>) {
    forall c | c in q :: c.Plain?
  }

  /** What holds whatever state the node is in. */
  ghost predicate CoreOk(logs: Logs, peers: set<nat>, s: NodeState) {
    && s.id in peers && logs.Keys == peers
    && Peers(s.config) == peers
    && s.local.peerConfig.members == peers
    && logs[s.id] == s.log.entries
    && LogOk(s.log.entries, s.local.maxAccepted, s.local.maxPrepared)
    && AllPlain(s.commandQ)
    && PendingOk(logs, s.pending)
    && DecidedOk(logs, peers, s.log.decided, s.log.decidedAt, s.local.maxAccepted.decree)
  }

  /** The proposal `f` a candidate would repeat if it won now. */
  ghost predicate FreshOk(logs: Logs, f: Proposal, acc: Proposal, prep: Ballot) {
    && f.decree == acc.decree
    && acc.ballot.num <= f.ballot.num < prep.num
    && f.command.Plain?
    && (f.ballot.num == 0 || VotedSomewhere(logs, f.ballot.num, f.decree, f.command))
  }

  /** Everyone in `counted` promised `b` and had accepted nothing past decree `d` and number `pb`. */
  ghost predicate AllPromised(logs: Logs, counted: set<nat>, b: Ballot, d: int, pb: int) {
    forall r | r in counted :: r in logs && Promised(logs[r], b, d, pb)
  }

  ghost predicate CandidateOk(logs: Logs, id: nat, local: LocalState, counted: set<nat>) {
    && local.maxPrepared.node == id
    && id in logs && Promised(logs[id], local.maxPrepared, local.maxAccepted.decree, local.maxAccepted.ballot.num)
    && FreshOk(logs, local.oldFreshest, local.maxAccepted, local.maxPrepared)
    && AllPromised(logs, counted, local.maxPrepared, local.maxAccepted.decree, local.oldFreshest.ballot.num)
  }

  /** The answers a stable node counts are votes for what it has accepted. */
  ghost predicate CountOk(logs: Logs, counted: set<nat>, acc: Proposal) {
    forall r | r in counted :: r in logs && VotedSlot(logs[r], acc.ballot.num, acc.decree)
  }

  ghost predicate PrimaryOk(logs: Logs, peers: set<nat>, id: nat, acc: Proposal, prep: Ballot,
                            ready: bool, decidedAt: seq<int>) {
    && acc.ballot == prep
    && acc.ballot.node == id
    && acc.ballot.num >= 1
    && (ready ==>
          && Chosen(logs, peers, acc.ballot.num, acc.decree, acc.command)
          && CaughtUp(decidedAt, acc.decree))
  }

  ghost predicate StateOk(logs: Logs, peers: set<nat>, s: NodeState) {
    && s.local.state != Inactive
    && s.remoteStates.Keys <= peers - {s.id}
    && (s.local.state == Preparing ==> CandidateOk(logs, s.id, s.local, s.remoteStates.Keys))
    && (IsStable(s) ==> CountOk(logs, s.remoteStates.Keys, s.local.maxAccepted))
    && (s.local.state == StablePrimary ==>
          PrimaryOk(logs, peers, s.id, s.local.maxAccepted, s.local.maxPrepared, s.readyToPropose, s.log.decidedAt))
  }

  ghost predicate NodeOk(logs: Logs, peers: set<nat>, s: NodeState) {
    CoreOk(logs, peers, s) && StateOk(logs, peers, s)
  }

  // ----- the system -----

  ghost function LogsOf(nodes: map<nat, NodeState>): Logs {
    map n | n in nodes :: nodes[n].log.entries
  }

  ghost predicate Inv(peers: set<nat>, sys: System) {
    && sys.nodes.Keys == peers
    && LogsOk(LogsOf(sys.nodes), peers)
    && (forall n | n in sys.nodes ::
          sys.nodes[n].id == n && NodeOk(LogsOf(sys.nodes), peers, sys.nodes[n]))
    && (forall m | m in sys.sent :: MsgOk(LogsOf(sys.nodes), m))
  }
}
