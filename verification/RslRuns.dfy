/** Runs in which a message is taken out of transit when it is delivered, as the environment does:
    nothing is delivered twice unless it was sent twice. The concrete runs are all of this kind. */
module RslRuns {
  import opened RslTypes
  import opened RslNodeSpec
  import opened RslSystem
  import opened RslReset

  function Taken(e: Event): set<Message> {
    if e.Deliver? then {e.m} else {}
  }

  /** What is in transit after `i` events if nothing is dropped. */
  ghost function Transit(left: set<Message>, trace: seq<System>, events: seq<Event>, i: nat): set<Message>
    requires i <= |events| < |trace|
  {
    if i == 0 then left
    else
      var e, sys := events[i - 1], trace[i - 1];
      (Transit(left, trace, events, i - 1) - Taken(e))
      + if Site(e) in sys.nodes then PendingOf(Move(sys.nodes[Site(e)], e)) else {}
  }

  /** Every delivery is of a message in transit. */
  ghost predicate FromTransit(left: set<Message>, trace: seq<System>, events: seq<Event>)
    requires |events| < |trace|
  {
    forall i | 0 <= i < |events| && events[i].Deliver? :: events[i].m in Transit(left, trace, events, i)
  }

  /** The episode ends with the nodes in these states and at least the messages `known` in transit. */
  ghost predicate Leads(config: NodeConfig, left: set<Message>, trace: seq<System>, events: seq<Event>,
                        nodes: map<nat, NodeState>, known: set<Message>) {
    && Episode(config, left, trace, events) && FromTransit(left, trace, events)
    && trace[|events|].nodes == nodes && known <= Transit(left, trace, events, |events|)
  }

  ghost predicate Visits(config: NodeConfig, left: set<Message>, nodes: map<nat, NodeState>, known: set<Message>) {
    exists trace, events :: Leads(config, left, trace, events, nodes, known)
  }

  lemma {:induction false} TransitPrefix(left: set<Message>, trace: seq<System>, events: seq<Event>, sys: System, e: Event, i: nat)
    requires i <= |events| < |trace|
    ensures Transit(left, trace + [sys], events + [e], i) == Transit(left, trace, events, i)
  {
    hide Move, PendingOf;
    if i > 0 {
      TransitPrefix(left, trace, events, sys, e, i - 1);
    }
  }

  lemma {:induction false} TransitSent(config: NodeConfig, left: set<Message>, trace: seq<System>, events: seq<Event>, i: nat)
    requires Episode(config, left, trace, events) && i <= |events|
    ensures Transit(left, trace, events, i) <= trace[i].sent
  {
    hide Move, PendingOf, Init;
    if i > 0 {
      TransitSent(config, left, trace, events, i - 1);
      assert Next(trace[i - 1], events[i - 1], trace[i - 1 + 1]);
    }
  }

  /** One more event, at the node it is for. */
  lemma Take(config: NodeConfig, left: set<Message>, nodes: map<nat, NodeState>, known: set<Message>,
             e: Event, s: NodeState, known': set<Message>)
    requires Visits(config, left, nodes, known) && Site(e) in nodes && PlainEvent(e)
    requires e.Deliver? ==> e.m in known && DrawOk(nodes[e.m.to], e.m, e.draw)
    requires e.Submit? ==> nodes[e.n].local.state == StablePrimary
    requires Move(nodes[Site(e)], e).(pending := []) == s
    requires known' <= (known - Taken(e)) + PendingOf(Move(nodes[Site(e)], e))
    ensures Visits(config, left, nodes[Site(e) := s], known')
  {
    hide Move, DrawOk, PendingOf, ResetTo;
    var trace, events :| Leads(config, left, trace, events, nodes, known);
    var sys := trace[|events|];
    var sys' := Flush(sys, Site(e), Move(nodes[Site(e)], e));
    TransitSent(config, left, trace, events, |events|);
    var trace', events' := trace + [sys'], events + [e];
    assert Next(sys, e, sys');
    Extended(config, left, trace, events, e, sys');
    forall i | 0 <= i <= |events| ensures Transit(left, trace', events', i) == Transit(left, trace, events, i) {
      TransitPrefix(left, trace, events, sys', e, i);
    }
    assert Leads(config, left, trace', events', nodes[Site(e) := s], known');
  }

  /** The start: every node has been started and its first questions have not been collected. */
  lemma Begin(config: NodeConfig, left: set<Message>) returns (nodes: map<nat, NodeState>)
    ensures nodes == map n | n in Peers(config) :: Start(FreshNode(n, config))
    ensures Visits(config, left, nodes, left)
  {
    hide Start, FreshNode;
    nodes := map n | n in Peers(config) :: Start(FreshNode(n, config));
    var trace, events: seq<Event> := [System(nodes, left)], [];
    assert ResetTo(config, trace[0], left);
    assert Leads(config, left, trace, events, nodes, left);
  }

  /** A visited state is one the protocol can reach. */
  lemma Visited(config: NodeConfig, left: set<Message>, nodes: map<nat, NodeState>, known: set<Message>) returns (sys: System)
    requires Visits(config, left, nodes, known)
    ensures ReachableAfter(config, left, sys) && sys.nodes == nodes && known <= sys.sent
    ensures left == {} ==> Reachable(config, sys)
  {
    hide Next, ResetTo, Reachable, Transit;
    var trace, events :| Leads(config, left, trace, events, nodes, known);
    sys := trace[|events|];
    TransitSent(config, left, trace, events, |events|);
    if left == {} {
      ReachableAfresh(config, sys);
    }
  }
}
