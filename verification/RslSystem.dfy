/** A cluster of RSL nodes and the network between them, as a transition system.
    `sent` only grows, so a message may be delivered late, out of order, repeatedly or never. */
module RslSystem {
  import opened RslTypes
  import opened RslNodeSpec

  datatype System = System(nodes: map<nat, NodeState>, sent: set<Message>)

  datatype Event =
    | Deliver(m: Message, draw: nat)
    | TickNode(n: nat)
    | Submit(n: nat, c: Command)
    | Collect(n: nat)

  function Peers(config: NodeConfig): set<nat> {
    set p | p in config.peers
  }

  function PendingOf(s: NodeState): set<Message> {
    set m | m in s.pending
  }

  /** Installs the new state of node `n` and sends what it queued. */
  function Flush(sys: System, n: nat, s: NodeState): System {
    System(sys.nodes[n := s.(pending := [])], sys.sent + PendingOf(s))
  }

  /** Every node has started; its first questions are queued but not yet sent. */
  ghost predicate Init(config: NodeConfig, sys: System) {
    && sys.nodes.Keys == Peers(config)
    && (forall n | n in sys.nodes :: sys.nodes[n] == Start(FreshNode(n, config)))
    && sys.sent == {}
  }

  /** The node an event happens at. */
  function Site(e: Event): nat {
    match e
    case Deliver(m, _) => m.to
    case TickNode(n) => n
    case Submit(n, _) => n
    case Collect(n) => n
  }

  /** What the event does to that node. */
  ghost function Move(s: NodeState, e: Event): NodeState {
    match e
    case Deliver(m, draw) => Step(s, m, draw)
    case TickNode(_) => Tick(s)
    case Submit(_, c) => Propose(s, c)
    case Collect(_) => s
  }

  /** A message must have been sent, the random choice must be possible, and commands go to primaries. */
  ghost predicate Enabled(sys: System, e: Event) {
    && Site(e) in sys.nodes
    && (e.Deliver? ==> e.m in sys.sent && DrawOk(sys.nodes[e.m.to], e.m, e.draw))
    && (e.Submit? ==> sys.nodes[e.n].local.state == StablePrimary)
  }

  ghost predicate Next(sys: System, e: Event, sys': System) {
    Enabled(sys, e) && sys' == Flush(sys, Site(e), Move(sys.nodes[Site(e)], e))
  }

  /** Client commands do not decode as configurations. */
  predicate PlainEvent(e: Event) {
    e.Submit? ==> e.c.Plain?
  }

  /** `trace` is a run from an initial system through `events`. */
  ghost predicate Execution(config: NodeConfig, trace: seq<System>, events: seq<Event>) {
    && |trace| == |events| + 1
    && Init(config, trace[0])
    && (forall i | 0 <= i < |events| :: PlainEvent(events[i]) && Next(trace[i], events[i], trace[i + 1]))
  }

  ghost predicate Reachable(config: NodeConfig, sys: System) {
    exists trace, events :: Execution(config, trace, events) && trace[|events|] == sys
  }
}
