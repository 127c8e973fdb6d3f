/** The environment that owns the nodes and the messages in transit. A reset begins an episode of the
    transition system and every other call extends it, so whatever holds of all episodes holds after
    any calls. */
module RslEnv {
  import opened RslTypes
  import opened RslNode
  import Spec = RslNodeSpec
  import Sys = RslSystem
  import RslReset

  /** The system with the state of one node replaced. */
  function Installed(sys: Sys.System, n: nat, s: NodeState): Sys.System {
    sys.(nodes := sys.nodes[n := s])
  }

  lemma FlushInstalled(sys: Sys.System, n: nat, s: NodeState)
    ensures Sys.Flush(Installed(sys, n, s), n, s) == Sys.Flush(sys, n, s)
  {
  }

  /** What the events from position `i` on have put in transit. */
  ghost function Queued(trace: seq<Sys.System>, events: seq<Sys.Event>, i: nat): set<Message>
    decreases |events| - i
  {
    if i >= |events| || i >= |trace| || Sys.Site(events[i]) !in trace[i].nodes then {}
    else Sys.PendingOf(Sys.Move(trace[i].nodes[Sys.Site(events[i])], events[i])) + Queued(trace, events, i + 1)
  }

  lemma EpisodeBegins(config: NodeConfig, sys: Sys.System)
    requires sys.nodes.Keys == Sys.Peers(config)
    requires forall n | n in sys.nodes :: sys.nodes[n] == Spec.Start(Spec.FreshNode(n, config))
    ensures RslReset.Episode(config, sys.sent, [sys], [])
  {
    hide Spec.Start, Spec.FreshNode, Sys.Next;
  }

  /** All the leftover messages are harmless. */
  ghost predicate AllHarmless(config: NodeConfig, left: set<Message>) {
    forall m | m in left :: RslReset.Harmless(Sys.Peers(config), m)
  }

  /** The run so far and the messages in transit. */
  datatype Progress = Progress(trace: seq<Sys.System>, events: seq<Sys.Event>, messages: set<Message>)

  /** A call has extended the run, taken `removed` out of transit, and put in what the new events queued. */
  ghost predicate Took(p: Progress, p': Progress, removed: set<Message>) {
    var q := Queued(p'.trace, p'.events, |p.events|);
    p.trace <= p'.trace && p.events <= p'.events && (p.messages + q) - removed <= p'.messages <= (p.messages - removed) + q
  }

  lemma TookNothing(p: Progress)
    ensures Took(p, p, {})
  {
  }

  lemma {:induction false} QueuedJoin(trace: seq<Sys.System>, events: seq<Sys.Event>,
      trace': seq<Sys.System>, events': seq<Sys.Event>, i: nat)
    requires trace <= trace' && events <= events' && i <= |events| && |trace| == |events| + 1
    requires forall k | 0 <= k < |events| :: Sys.Site(events[k]) in trace[k].nodes
    ensures Queued(trace', events', i) == Queued(trace, events, i) + Queued(trace', events', |events|)
    decreases |events| - i
  {
    hide Sys.Move, Sys.PendingOf;
    if i < |events| {
      assert trace'[i] == trace[i] && events'[i] == events[i];
      QueuedJoin(trace, events, trace', events', i + 1);
    }
  }

  /** Every event so far happened at a node. */
  ghost predicate Sited(p: Progress) {
    |p.trace| == |p.events| + 1 && forall k | 0 <= k < |p.events| :: Sys.Site(p.events[k]) in p.trace[k].nodes
  }

  /** Two calls in a row. */
  lemma TookThen(p: Progress, p1: Progress, p2: Progress, r1: set<Message>, r2: set<Message>)
    requires Took(p, p1, r1) && Took(p1, p2, r2) && Sited(p1)
    ensures Took(p, p2, r1 + r2)
  {
    hide Queued;
    QueuedJoin(p1.trace, p1.events, p2.trace, p2.events, |p.events|);
  }

  lemma TookOne(p: Progress, e: Sys.Event, sys: Sys.System, messages': set<Message>, removed: set<Message>)
    requires |p.trace| == |p.events| + 1 && Sys.Site(e) in p.trace[|p.events|].nodes
    requires messages' == (p.messages - removed) + Sys.PendingOf(Sys.Move(p.trace[|p.events|].nodes[Sys.Site(e)], e))
    ensures Took(p, Progress(p.trace + [sys], p.events + [e], messages'), removed)
  {
    hide Sys.Move, Sys.PendingOf;
    assert Queued(p.trace + [sys], p.events + [e], |p.events| + 1) == {};
  }

  lemma SitesKnown(config: NodeConfig, left: set<Message>, p: Progress)
    requires RslReset.Episode(config, left, p.trace, p.events)
    ensures Sited(p)
  {
    hide Sys.Move, Sys.Flush, RslReset.ResetTo;
    forall k | 0 <= k < |p.events| ensures Sys.Site(p.events[k]) in p.trace[k].nodes {
      assert Sys.Next(p.trace[k], p.events[k], p.trace[k + 1]);
    }
  }

  predicate AllCollect(events: seq<Sys.Event>) {
    forall e | e in events :: e.Collect?
  }

  /** One tick of each of the nodes `order`. */
  function Ticks(order: seq<nat>): (r: seq<Sys.Event>)
    ensures |r| == |order| && forall i | 0 <= i < |order| :: r[i] == Sys.TickNode(order[i])
  {
    seq(|order|, i requires 0 <= i < |order| => Sys.TickNode(order[i]))
  }

  /** One submission of a command to each of the nodes `order`. */
  function Submissions(order: seq<nat>, c: Command): (r: seq<Sys.Event>)
    ensures |r| == |order| && forall i | 0 <= i < |order| :: r[i] == Sys.Submit(order[i], c)
  {
    seq(|order|, i requires 0 <= i < |order| => Sys.Submit(order[i], c))
  }

  /** `order` names every member of `nodes`, each once. */
  ghost predicate EachOnce(order: seq<nat>, nodes: set<nat>) {
    |order| == |nodes| && forall n :: n in order <==> n in nodes
  }

  /** Looking at one more node of `nodes`, of which `todo` are left. */
  lemma NextOnce(order: seq<nat>, nodes: set<nat>, todo: set<nat>, n: nat)
    requires EachOnce(order, nodes - todo) && n in todo
    ensures EachOnce(if n in nodes then order + [n] else order, nodes - (todo - {n}))
  {
    if n in nodes {
      assert nodes - (todo - {n}) == (nodes - todo) + {n};
    } else {
      assert nodes - (todo - {n}) == nodes - todo;
    }
  }

  lemma SomeOrNone(order: seq<nat>, nodes: set<nat>)
    requires EachOnce(order, nodes)
    ensures order == [] <==> nodes == {}
  {
  }

  lemma NoneYet(nodes: set<nat>, all: set<nat>)
    requires nodes <= all
    ensures EachOnce([], nodes - all)
  {
    assert nodes - all == {};
  }

  lemma EventsNext(e: seq<Sys.Event>, order: seq<nat>, n: nat, c: Command)
    ensures (e + Ticks(order)) + [Sys.TickNode(n)] == e + Ticks(order + [n])
    ensures (e + Submissions(order, c)) + [Sys.Submit(n, c)] == e + Submissions(order + [n], c)
    ensures e + Ticks([]) == e && e + Submissions([], c) == e
  {
    assert Ticks(order + [n]) == Ticks(order) + [Sys.TickNode(n)];
    assert Submissions(order + [n], c) == Submissions(order, c) + [Sys.Submit(n, c)];
  }

  function OnlyIf(b: bool, m: Message): set<Message> {
    if b then {m} else {}
  }

  lemma OneOrNone(m: Message, a: bool, b: bool)
    ensures OnlyIf(a, m) + OnlyIf(b, m) == OnlyIf(a || b, m)
    ensures OnlyIf(false, m) == {} && OnlyIf(true, m) == {m}
  {
  }

  /** The events by which the nodes take a message: one delivery, or one submission per primary. */
  ghost predicate Handled(m: Message, nodes: set<nat>, primaries: set<nat>, handled: seq<Sys.Event>) {
    if m.kind == CommandMessage then
      EachOnce(Sites(handled), primaries) && handled == Submissions(Sites(handled), m.command)
    else if m.to in nodes then |handled| == 1 && handled[0].Deliver? && handled[0].m == m
    else handled == []
  }

  function Sites(events: seq<Sys.Event>): (r: seq<nat>)
    ensures |r| == |events| && forall i | 0 <= i < |events| :: r[i] == Sys.Site(events[i])
  {
    seq(|events|, i requires 0 <= i < |events| => Sys.Site(events[i]))
  }

  lemma TookWithout(p: Progress, left: set<Message>, p': Progress, r: set<Message>)
    requires Took(p.(messages := left), p', {}) && left == p.messages - r
    ensures Took(p, p', r)
  {
    hide Queued;
  }

  class Environment {
    const config: NodeConfig
    var nodes: map<nat, Node>
    var messages: set<Message>      // in transit; the source keys them by hash
    var requests: seq<Command>      // client commands not yet handed to a primary
    ghost var left: set<Message>    // in transit when the nodes were created
    ghost var sent: set<Message>    // everything sent since, and what was left
    ghost var trace: seq<Sys.System>
    ghost var events: seq<Sys.Event>

    ghost function Repr(): set<object>
      reads `nodes
    {
      (set n | n in nodes :: nodes[n] as object) + (set n | n in nodes :: nodes[n].log as object)
    }

    ghost function Now(): Progress
      reads `trace, `events, `messages
    {
      Progress(trace, events, messages)
    }

    ghost predicate Apart()
      reads `nodes
    {
      && (forall n | n in nodes :: nodes[n].id == n && nodes[n].config == config)
      && (forall a, b | a in nodes && b in nodes && a != b :: nodes[a] != nodes[b] && nodes[a].log != nodes[b].log)
    }

    ghost function View(): Sys.System
      reads `nodes, `sent, Repr()
    {
      Sys.System(map n | n in nodes :: nodes[n].Model(), sent)
    }

    ghost predicate Valid()
      reads `nodes, `messages, `left, `sent, `trace, `events, Repr()
    {
      && Apart()
      && nodes.Keys == Sys.Peers(config)
      && messages <= sent
      && RslReset.Episode(config, left, trace, events)
      && trace[|events|] == View()
    }

    /** Creates and starts the nodes named by the configuration. */
    constructor (config: NodeConfig, requests: seq<Command>)
      ensures Valid() && this.config == config && this.requests == requests
      ensures messages == {} && left == {} && events == []
      ensures fresh(Repr())
    {
      hide Node.Model, Spec.Start, Spec.FreshNode, RslReset.Episode;
      var created := CreateNodes(config);
      this.config := config;
      this.requests := requests;
      messages := {};
      new;
      Install(created);
    }

    /** Creates new nodes. The messages in transit stay, and a new episode begins with them. */
    method Reset(requests: seq<Command>)
      requires Valid()
      modifies this
      ensures Valid() && forall n | n in nodes :: fresh(nodes[n])
      ensures messages == left == old(messages) && this.requests == requests && events == []
    {
      hide Valid, Node.Model, Spec.Start, Spec.FreshNode;
      var created := CreateNodes(config);
      this.requests := requests;
      Install(created);
    }

    method Install(created: map<nat, Node>)
      requires created.Keys == Sys.Peers(config)
      requires forall n | n in created :: created[n].id == n && created[n].config == config
      requires forall a, b | a in created && b in created && a != b ::
                created[a] != created[b] && created[a].log != created[b].log
      requires forall n | n in created :: created[n].Model() == Spec.Start(Spec.FreshNode(n, config))
      modifies this`nodes, this`left, this`sent, this`trace, this`events
      ensures Valid() && nodes == created && left == messages && events == []
    {
      hide Valid, View, Repr, Node.Model, Spec.Start, Spec.FreshNode;
      nodes := created;
      left, sent, events := messages, messages, [];
      trace := [Sys.System(map n | n in created.Keys :: Spec.Start(Spec.FreshNode(n, config)), messages)];
      Begun();
    }

    /** With nothing in transit a reset starts a run anew: the episode is a run from the beginning. */
    lemma StartsAnew()
      requires Valid() && left == {}
      ensures Sys.Execution(config, trace, events)
    {
      hide RslReset.Episode, Sys.Execution, View;
      RslReset.FreshEpisode(config, trace, events);
    }

    lemma Begun()
      requires Apart() && nodes.Keys == Sys.Peers(config)
      requires forall n | n in nodes :: nodes[n].Model() == Spec.Start(Spec.FreshNode(n, config))
      requires messages == left == sent && events == []
      requires |trace| == 1 && trace[0].sent == sent && trace[0].nodes.Keys == nodes.Keys
      requires forall n | n in nodes :: trace[0].nodes[n] == Spec.Start(Spec.FreshNode(n, config))
      ensures Valid()
    {
      hide Node.Model, Spec.Start, Spec.FreshNode, RslReset.Episode;
      assert trace[0].nodes == View().nodes;
      assert trace == [View()] && events == [];
      EpisodeBegins(config, View());
    }

    static method CreateNodes(config: NodeConfig) returns (created: map<nat, Node>)
      ensures created.Keys == Sys.Peers(config)
      ensures forall n | n in created :: created[n].id == n && created[n].config == config
      ensures forall n | n in created :: fresh(created[n]) && fresh(created[n].log)
      ensures forall a, b | a in created && b in created && a != b ::
                created[a] != created[b] && created[a].log != created[b].log
      ensures forall n | n in created :: created[n].Model() == Spec.Start(Spec.FreshNode(n, config))
    {
      hide Spec.Start, Spec.FreshNode;
      created := map[];
      for i := 0 to |config.peers|
        invariant created.Keys == set k | 0 <= k < i :: config.peers[k]
        invariant forall n | n in created :: created[n].id == n && created[n].config == config
        invariant forall n | n in created :: fresh(created[n]) && fresh(created[n].log)
        invariant forall a, b | a in created && b in created && a != b ::
            created[a] != created[b] && created[a].log != created[b].log
        invariant forall n | n in created :: created[n].Model() == Spec.Start(Spec.FreshNode(n, config))
      {
        var id := config.peers[i];
        var node := new Node(id, config);
        node.Start();
        created := created[id := node];
      }
    }

    /** Records that node `n` has moved by `e` and its queue has been taken over. */
    ghost method Record(e: Sys.Event)
      requires RslReset.Episode(config, left, trace, events)
      requires Sys.PlainEvent(e) && Sys.Next(trace[|events|], e, View())
      modifies this`trace, this`events
      ensures RslReset.Episode(config, left, trace, events)
      ensures trace[|events|] == View()
      ensures trace == old(trace) + [View()] && events == old(events) + [e]
    {
      trace := trace + [View()];
      events := events + [e];
    }

    /** Moves the queued messages of a node into transit. */
    method Collect(node: Node)
      requires node.id in nodes && nodes[node.id] == node && Apart()
      modifies this`messages, this`sent, node`pending
      ensures messages == old(messages) + Sys.PendingOf(old(node.Model()))
      ensures sent == old(sent) + Sys.PendingOf(old(node.Model()))
      ensures View() == Sys.Flush(old(View()), node.id, old(node.Model())) && node.pending == []
    {
      hide Node.Model;
      ghost var before, moved := View(), node.Model();
      var ready := node.Ready();
      messages := messages + set m | m in ready;
      sent := sent + set m | m in ready;
      assert View().nodes == before.nodes[node.id := moved.(pending := [])];
    }

    /** Node `node` has moved by `e` since the last recorded state: takes over what it sends
        and records the event. */
    method Settle(node: Node, ghost e: Sys.Event)
      requires node.id in nodes && nodes[node.id] == node
      requires Apart() && nodes.Keys == Sys.Peers(config) && messages <= sent
      requires RslReset.Episode(config, left, trace, events) && Sys.Enabled(trace[|events|], e) && Sys.PlainEvent(e)
      requires Sys.Site(e) == node.id
      requires View() == Installed(trace[|events|], node.id, Sys.Move(trace[|events|].nodes[node.id], e))
      modifies this`messages, this`sent, this`trace, this`events, node`pending
      ensures Valid() && events == old(events) + [e] && trace == old(trace) + [View()] && node.pending == []
      ensures messages == old(messages) + Sys.PendingOf(old(node.Model()))
    {
      hide RslReset.ResetTo, Sys.Next, Sys.Flush, Sys.Move, Node.Model;
      ghost var before := trace[|events|];
      assert node.Model() == View().nodes[node.id];
      FlushInstalled(before, node.id, Sys.Move(before.nodes[node.id], e));
      Collect(node);
      Record(e);
    }

    /** What the loops need to know of one node. */
    lemma Known(n: nat)
      requires Valid() && n in nodes
      ensures nodes[n].id == n && nodes[n] in Repr() && nodes[n].log in Repr()
      ensures Sited(Now())
    {
      SitesKnown(config, left, Now());
    }

    /** Advances every node's clock by one and puts what they send in transit. */
    method Tick()
      requires Valid()
      modifies this`messages, this`sent, this`trace, this`events, Repr()
      ensures Valid() && nodes == old(nodes) && requests == old(requests)
      ensures Took(old(Now()), Now(), {})
      ensures exists order :: EachOnce(order, nodes.Keys) && events == old(events) + Ticks(order)
    {
      hide Valid, Apart, View, Repr, Took, EachOnce, Ticks;
      TookNothing(Now());
      ghost var order: seq<nat> := [];
      var todo := nodes.Keys;
      NoneYet(nodes.Keys, todo);
      EventsNext(events, order, 0, NO_COMMAND);
      while todo != {}
        invariant todo <= nodes.Keys
        invariant Valid() && nodes == old(nodes) && requests == old(requests)
        invariant Took(old(Now()), Now(), {})
        invariant EachOnce(order, nodes.Keys - todo) && events == old(events) + Ticks(order)
        decreases |todo|
      {
        var n :| n in todo;
        ghost var p := Now();
        Known(n);
        TickOne(nodes[n]);
        TookThen(old(Now()), p, Now(), {}, {});
        NextOnce(order, nodes.Keys, todo, n);
        EventsNext(old(events), order, n, NO_COMMAND);
        order, todo := order + [n], todo - {n};
      }
      assert nodes.Keys - todo == nodes.Keys;
    }

    method TickOne(node: Node)
      requires Valid() && node.id in nodes && nodes[node.id] == node
      modifies this`messages, this`sent, this`trace, this`events, node, node.log
      ensures Valid() && events == old(events) + [Sys.TickNode(node.id)]
      ensures Took(old(Now()), Now(), {})
    {
      hide RslReset.Episode, Spec.Tick, Node.Model, Took;
      ghost var before, s := View(), node.Model();
      SitesKnown(config, left, Now());
      node.Tick();
      assert View() == Installed(before, node.id, Spec.Tick(s));
      Settle(node, Sys.TickNode(node.id));
      TookOne(old(Now()), Sys.TickNode(node.id), View(), messages, {});
    }

    /** The nodes that are primary. */
    ghost function Primaries(): set<nat>
      reads `nodes, Repr()
    {
      set n | n in nodes && nodes[n].IsPrimary()
    }

    lemma WhoIsPrimary()
      ensures Primaries() <= nodes.Keys
      ensures forall n | n in nodes :: nodes[n].IsPrimary() == (n in Primaries())
    {
    }

    /** Delivers one message: a client command to every primary, anything else to its addressee;
        then all nodes' queued messages are put in transit. A message nobody takes stays in transit. */
    method DeliverMessage(m: Message)
      requires Valid()
      requires m.kind == CommandMessage ==> m.command.Plain?
      requires m.kind != CommandMessage ==> m in sent
      modifies this`messages, this`sent, this`trace, this`events, Repr()
      ensures Valid() && nodes == old(nodes) && requests == old(requests)
      ensures forall n | n in nodes :: nodes[n].pending == []
      ensures exists handled, rest ::
                && Handled(m, nodes.Keys, old(Primaries()), handled) && AllCollect(rest)
                && events == old(events) + handled + rest
      ensures var taken := if m.kind == CommandMessage then old(Primaries()) != {} else m.to in nodes;
              Took(old(Now()), Now(), OnlyIf(taken, m))
    {
      hide RslReset.Episode, View, Node.Model, Took, Primaries, Handled;
      ghost var handled := Handle(m);
      ghost var p := Now();
      SitesKnown(config, left, p);
      ghost var rest := CollectAll();
      ghost var taken := if m.kind == CommandMessage then old(Primaries()) != {} else m.to in nodes;
      TookThen(old(Now()), p, Now(), OnlyIf(taken, m), {});
      OneOrNone(m, taken, false);
      assert events == old(events) + handled + rest;
    }

    /** Hands the message to the nodes it is for. */
    method Handle(m: Message) returns (ghost handled: seq<Sys.Event>)
      requires Valid()
      requires m.kind == CommandMessage ==> m.command.Plain?
      requires m.kind != CommandMessage ==> m in sent
      modifies this`messages, this`sent, this`trace, this`events, Repr()
      ensures Valid() && nodes == old(nodes) && requests == old(requests)
      ensures Handled(m, nodes.Keys, old(Primaries()), handled) && events == old(events) + handled
      ensures var taken := if m.kind == CommandMessage then old(Primaries()) != {} else m.to in nodes;
              Took(old(Now()), Now(), OnlyIf(taken, m))
    {
      hide RslReset.Episode, View, Node.Model, Took, Primaries;
      handled := [];
      TookNothing(Now());
      if m.kind == CommandMessage {
        ghost var order := ProposeToAll(m);
        handled := Submissions(order, m.command);
        assert Sites(handled) == order;
      } else if m.to in nodes {
        ghost var draw := DeliverTo(nodes[m.to], m);
        handled := [Sys.Deliver(m, draw)];
      }
    }

    method DeliverTo(node: Node, m: Message) returns (ghost draw: nat)
      requires Valid() && m in sent && m.to == node.id && node.id in nodes && nodes[node.id] == node
      modifies this`messages, this`sent, this`trace, this`events, node, node.log
      ensures Valid() && events == old(events) + [Sys.Deliver(m, draw)]
      ensures Took(old(Now()), Now(), {m})
    {
      hide RslReset.Episode, Sys.Move, Spec.DrawOk, Node.Model, Took;
      SitesKnown(config, left, Now());
      draw := StepNode(node, m);
      messages := messages - {m};
      Settle(node, Sys.Deliver(m, draw));
      TookOne(old(Now()), Sys.Deliver(m, draw), View(), messages, {m});
    }

    method StepNode(node: Node, m: Message) returns (ghost draw: nat)
      requires Apart() && m.to == node.id && node.id in nodes && nodes[node.id] == node
      modifies node, node.log
      ensures Spec.DrawOk(old(View()).nodes[node.id], m, draw) && Apart()
      ensures View() == Installed(old(View()), node.id, Sys.Move(old(View()).nodes[node.id], Sys.Deliver(m, draw)))
      ensures node.Model() == Sys.Move(old(View()).nodes[node.id], Sys.Deliver(m, draw))
    {
      hide Spec.Step, Spec.DrawOk, Node.Model;
      draw := node.Step(m);
    }

    method ProposeTo(node: Node, c: Command)
      requires Valid() && c.Plain? && node.id in nodes && nodes[node.id] == node
      requires node.IsPrimary()
      modifies this`messages, this`sent, this`trace, this`events, node`commandQ, node`pending
      ensures Valid() && events == old(events) + [Sys.Submit(node.id, c)]
      ensures Took(old(Now()), Now(), {})
      ensures node.local == old(node.local)
    {
      hide RslReset.Episode, Spec.Propose, Took, Node.Model;
      node.LocalOf();
      ghost var before, s := View(), node.Model();
      SitesKnown(config, left, Now());
      node.Propose(c);
      assert View() == Installed(before, node.id, Spec.Propose(s, c));
      Settle(node, Sys.Submit(node.id, c));
      TookOne(old(Now()), Sys.Submit(node.id, c), View(), messages, {});
    }

    method ProposeIfPrimary(node: Node, m: Message)
      requires Valid() && m.command.Plain? && node.id in nodes && nodes[node.id] == node
      modifies this`messages, this`sent, this`trace, this`events, node`commandQ, node`pending
      ensures Valid() && node.local == old(node.local)
      ensures events == if node.IsPrimary() then old(events) + [Sys.Submit(node.id, m.command)] else old(events)
      ensures Took(old(Now()), Now(), OnlyIf(node.IsPrimary(), m))
    {
      hide RslReset.Episode, Node.Model, Took;
      TookNothing(Now());
      if node.IsPrimary() {
        messages := messages - {m};
        ghost var left := messages;
        ProposeTo(node, m.command);
        TookWithout(old(Now()), left, Now(), {m});
      }
    }

    /** One turn of the loop over all nodes: `order` are the primaries served so far. */
    method ProposeNext(node: Node, m: Message, ghost start: Progress, ghost primaries: set<nat>, ghost todo: set<nat>, ghost order: seq<nat>)
      returns (ghost order': seq<nat>)
      requires Valid() && m.command.Plain? && node.id in nodes && nodes[node.id] == node
      requires node.id in todo && node.IsPrimary() == (node.id in primaries)
      requires EachOnce(order, primaries - todo) && events == start.events + Submissions(order, m.command)
      requires Took(start, Now(), OnlyIf(order != [], m))
      modifies this`messages, this`sent, this`trace, this`events, node`commandQ, node`pending
      ensures Valid() && EachOnce(order', primaries - (todo - {node.id}))
      ensures events == start.events + Submissions(order', m.command) && Took(start, Now(), OnlyIf(order' != [], m))
      ensures Primaries() == old(Primaries())
    {
      hide Valid, Apart, View, Took, EachOnce, Submissions, Sited, OnlyIf, Now, Node.Model;
      ghost var p, n := Now(), node.id;
      Known(n);
      ProposeIfPrimary(node, m);
      TookThen(start, p, Now(), OnlyIf(order != [], m), OnlyIf(n in primaries, m));
      OneOrNone(m, order != [], n in primaries);
      NextOnce(order, primaries, todo, n);
      EventsNext(start.events, order, n, m.command);
      order' := if n in primaries then order + [n] else order;
    }

    /** Submits the command to every primary, each once. */
    method ProposeToAll(m: Message) returns (ghost order: seq<nat>)
      requires Valid() && m.command.Plain?
      modifies this`messages, this`sent, this`trace, this`events, Repr()
      ensures Valid() && nodes == old(nodes) && requests == old(requests)
      ensures EachOnce(order, old(Primaries())) && events == old(events) + Submissions(order, m.command)
      ensures Took(old(Now()), Now(), OnlyIf(old(Primaries()) != {}, m))
    {
      hide Valid, Apart, View, Repr, Took, EachOnce, Submissions, Primaries, Sited, OnlyIf, Node.Model, Node.IsPrimary;
      TookNothing(Now());
      OneOrNone(m, false, false);
      order := [];
      var todo := nodes.Keys;
      ghost var primaries := Primaries();
      WhoIsPrimary();
      NoneYet(primaries, todo);
      EventsNext(events, order, 0, m.command);
      while todo != {}
        invariant todo <= nodes.Keys
        invariant Valid() && nodes == old(nodes) && requests == old(requests)
        invariant Primaries() == primaries
        invariant EachOnce(order, primaries - todo) && events == old(events) + Submissions(order, m.command)
        invariant Took(old(Now()), Now(), OnlyIf(order != [], m))
        decreases |todo|
      {
        var n :| n in todo;
        Known(n);
        WhoIsPrimary();
        order := ProposeNext(nodes[n], m, old(Now()), primaries, todo, order);
        todo := todo - {n};
      }
      assert primaries - todo == primaries;
      SomeOrNone(order, primaries);
    }

    method CollectAll() returns (ghost rest: seq<Sys.Event>)
      requires Valid()
      modifies this`messages, this`sent, this`trace, this`events, Repr()
      ensures Valid() && nodes == old(nodes) && requests == old(requests)
      ensures forall n | n in nodes :: nodes[n].pending == []
      ensures AllCollect(rest) && events == old(events) + rest
      ensures Took(old(Now()), Now(), {})
    {
      hide Valid, Apart, View, Repr, Took, Node.Model;
      TookNothing(Now());
      rest := [];
      var todo := nodes.Keys;
      while todo != {}
        invariant todo <= nodes.Keys
        invariant Valid() && nodes == old(nodes) && requests == old(requests)
        invariant forall n | n in nodes && n !in todo :: nodes[n].pending == []
        invariant AllCollect(rest) && events == old(events) + rest
        invariant Took(old(Now()), Now(), {})
        decreases |todo|
      {
        var n :| n in todo;
        todo := todo - {n};
        if |nodes[n].pending| != 0 {
          ghost var p := Now();
          Known(n);
          CollectOne(nodes[n]);
          TookThen(old(Now()), p, Now(), {}, {});
          rest := rest + [Sys.Collect(n)];
        }
      }
    }

    method CollectOne(node: Node)
      requires Valid() && node.id in nodes && nodes[node.id] == node
      modifies this`messages, this`sent, this`trace, this`events, node`pending
      ensures Valid() && events == old(events) + [Sys.Collect(node.id)] && node.pending == []
      ensures Took(old(Now()), Now(), {})
    {
      hide RslReset.Episode, Node.Model, Took;
      SitesKnown(config, left, Now());
      assert View() == Installed(View(), node.id, node.Model());
      Settle(node, Sys.Collect(node.id));
      TookOne(old(Now()), Sys.Collect(node.id), View(), messages, {});
    }

    /** Removes a message from transit. */
    method DropMessage(m: Message)
      requires Valid()
      modifies this`messages
      ensures Valid() && messages == old(messages) - {m}
    {
      hide RslReset.Episode;
      messages := messages - {m};
    }

    /** Some primary, if there is one. */
    method FindPrimary() returns (found: bool, n: nat)
      ensures found ==> n in nodes && nodes[n].IsPrimary()
      ensures found <==> Primaries() != {}
    {
      var todo := nodes.Keys;
      while todo != {}
        invariant todo <= nodes.Keys
        invariant forall k | k in nodes && k !in todo :: !nodes[k].IsPrimary()
        decreases |todo|
      {
        n :| n in todo;
        todo := todo - {n};
        if nodes[n].IsPrimary() {
          assert n in Primaries();
          return true, n;
        }
      }
      found, n := false, 0;
    }

    /** Hands a client command to one primary, if there is one, and takes it off the list. */
    method ReceiveRequest(c: Command)
      requires Valid() && c.Plain? && |requests| > 0
      modifies this, Repr()
      ensures Valid() && nodes == old(nodes) && left == old(left)
      ensures Took(old(Now()), Now(), {})
      ensures if old(Primaries()) != {}
              then requests == old(requests)[1..]
                   && exists n :: n in old(Primaries()) && events == old(events) + [Sys.Submit(n, c)]
              else requests == old(requests) && events == old(events)
    {
      hide RslReset.Episode, View, Node.Model, Took, Node.IsPrimary;
      TookNothing(Now());
      var found, n := FindPrimary();
      if found {
        Known(n);
        ProposeTo(nodes[n], c);
        requests := requests[1..];
      }
    }

    /** Whatever calls were made, the nodes are in a state reachable in an episode that began with
        the messages left in transit; when there were none, in a reachable state. */
    lemma IsReachable()
      requires Valid()
      ensures RslReset.ReachableAfter(config, left, View())
      ensures left == {} ==> Sys.Reachable(config, View())
    {
      hide RslReset.Episode, View, Sys.Reachable;
      assert RslReset.ReachableAfter(config, left, View());
      if left == {} {
        RslReset.ReachableAfresh(config, View());
      }
    }

    /** Whatever calls were made since the last reset, if what was in transit then is harmless, two
        nodes that executed the same decree executed the same command. */
    lemma NodesAgree(a: nat, i: nat, b: nat, j: nat)
      requires Valid() && AllHarmless(config, left) && a in nodes && b in nodes
      requires i < |nodes[a].log.decided| && i < |nodes[a].log.decidedAt|
      requires j < |nodes[b].log.decided| && j < |nodes[b].log.decidedAt|
      requires nodes[a].log.decidedAt[i] == nodes[b].log.decidedAt[j]
      ensures nodes[a].log.decided[i] == nodes[b].log.decided[j]
    {
      hide RslReset.ReachableAfter, RslReset.Episode, RslReset.Harmless;
      IsReachable();
      RslReset.AgreementAfterReset(config, left, View(), a, i, b, j);
    }

    /** Whatever calls were made since the last reset, if what was in transit then is harmless, two
        primaries never share a ballot number. */
    lemma PrimariesDiffer(a: nat, b: nat)
      requires Valid() && AllHarmless(config, left) && a in nodes && b in nodes && a != b
      requires nodes[a].IsPrimary() && nodes[b].IsPrimary()
      ensures nodes[a].local.maxAccepted.ballot.num != nodes[b].local.maxAccepted.ballot.num
    {
      hide RslReset.ReachableAfter, RslReset.Episode, RslReset.Harmless;
      IsReachable();
      if nodes[a].local.maxAccepted.ballot.num == nodes[b].local.maxAccepted.ballot.num {
        RslReset.PrimariesAfterReset(config, left, View(), a, b);
      }
    }
  }
}
