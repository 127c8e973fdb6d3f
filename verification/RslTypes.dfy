/** The values an RSL node stores and exchanges: ballots, proposals, log entries,
    messages, and the record of one node's whole state. */
module RslTypes {

  const MAX_INT: int := 0x7FFF_FFFF_FFFF_FFFF

  /** Wrap-around of Go's 64-bit `int` for the sum or difference of two such integers,
      needed because a disabled timer holds the largest integer and is still added to. */
  function Wrap64(x: int): int {
    if x > MAX_INT then x - 0x1_0000_0000_0000_0000
    else if x < -MAX_INT - 1 then x + 0x1_0000_0000_0000_0000
    else x
  }

  function Min(a: int, b: int): int {
    if a < b then a else b
  }

  function Max(a: int, b: int): int {
    if a > b then a else b
  }

  datatype RslState = Inactive | StablePrimary | StableSecondary | Initializing | Preparing

  /** A client command. `Plain` data does not decode as a configuration;
      `Reconfigure` stands for data that does, together with what it decodes to. */
  datatype Command = Plain(data: string) | Reconfigure(members: set<nat>)

  const NO_COMMAND := Plain("")

  datatype Ballot = Ballot(num: int, node: nat)

  const ZERO_BALLOT := Ballot(0, 0)

  datatype Proposal = Proposal(ballot: Ballot, decree: int, command: Command)

  const ZERO_PROPOSAL := Proposal(ZERO_BALLOT, 0, NO_COMMAND)

  datatype Entry = Entry(accepted: bool, ballot: Ballot, decree: int, command: Command)

  /** The entry that records `p` as accepted. */
  function Accept(p: Proposal): Entry {
    Entry(true, p.ballot, p.decree, p.command)
  }

  /** The entry that records `b` as prepared. */
  function Prepare(b: Ballot): Entry {
    Entry(false, b, 0, NO_COMMAND)
  }

  datatype RemoteState = RemoteState(node: nat, maxBallot: Ballot, maxChosen: int, lastChosenTime: int)

  datatype RslConfig = RslConfig(number: int, initialDecree: int, members: set<nat>) {
    function QuorumSize(): nat {
      |members| / 2 + 1
    }
  }

  datatype NodeConfig = NodeConfig(
    peers: seq<nat>,
    heartBeatInterval: int,
    noProgressTimeout: int,
    baseElectionDelay: int,
    initializeRetryInterval: int,
    newLeaderGracePeriod: int,
    voteRetryInterval: int,
    prepareRetryInterval: int,
    maxCachedLength: int,
    proposalRetryInterval: int)

  datatype MessageType =
    AcceptReq | AcceptResp | StatusReq | StatusResp | PrepareReq | PrepareResp | FetchReq | FetchResp | CommandMessage

  datatype Message = Message(
    from: nat,
    to: nat,
    kind: MessageType,
    ballot: Ballot,
    decree: int,
    command: Command,
    proposalBallot: Ballot,
    timestamp: int,
    accept: bool,
    proposals: seq<Proposal>)

  /** A message of the given kind with every other field at its zero value. */
  function Blank(kind: MessageType): Message {
    Message(0, 0, kind, ZERO_BALLOT, 0, NO_COMMAND, ZERO_BALLOT, 0, false, [])
  }

  datatype Timers = Timers(action: int, noProgress: int, nextElection: int, lastChosen: int, ticks: int)

  /** What a node holds in memory about the protocol. */
  datatype LocalState = LocalState(
    state: RslState,
    maxAccepted: Proposal,
    maxPrepared: Ballot,
    oldFreshest: Proposal,
    decidedCount: nat,
    peerConfig: RslConfig)

  /** The durable log. `decidedAt` tags each element of `decided` with the decree of the
      proposal that was queued for execution. */
  datatype LogState = LogState(entries: seq<Entry>, decided: seq<Command>, decidedAt: seq<int>)

  /** Everything one node knows. */
  datatype NodeState = NodeState(
    id: nat,
    config: NodeConfig,
    local: LocalState,
    log: LogState,
    commandQ: seq<Command>,
    proposalQ: seq<Proposal>,
    readyToPropose: bool,
    timers: Timers,
    remoteStates: map<nat, RemoteState>,
    learningFrom: nat,
    pending: seq<Message>)
}
