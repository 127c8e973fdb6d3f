/** Resetting the environment creates new nodes but leaves the messages in transit. The invariant
    behind the safety proofs survives exactly when none of them is evidence from before: a vote, a
    promise, a proposal or a fetch. `RslStaleVotes` shows what such evidence can do. */
module RslReset {
  import opened RslTypes
  import opened RslNodeSpec
  import opened RslSystem
  import opened RslInvariant
  import opened RslVotes
  import opened RslSafety

  /** New nodes, and `left` still in transit. */
  ghost predicate ResetTo(config: NodeConfig, sys: System, left: set<Message>) {
    sys.sent == left && Init(config, sys.(sent := {}))
  }

  /** A run that starts from a reset with `left` in transit. */
  ghost predicate Episode(config: NodeConfig, left: set<Message>, trace: seq<System>, events: seq<Event>) {
    && |trace| == |events| + 1
    && ResetTo(config, trace[0], left)
    && (forall i | 0 <= i < |events| :: PlainEvent(events[i]) && Next(trace[i], events[i], trace[i + 1]))
  }

  ghost predicate ReachableAfter(config: NodeConfig, left: set<Message>, sys: System) {
    exists trace, events :: Episode(config, left, trace, events) && trace[|events|] == sys
  }

  /** A message between two peers that claims nothing about what its sender has logged. */
  predicate Harmless(peers: set<nat>, m: Message) {
    && m.from in peers && m.to in peers && m.from != m.to
    && m.kind != AcceptReq
    && (m.kind == AcceptResp ==> !m.accept)
    && (m.kind == PrepareResp ==> !m.accept)
    && (m.kind == FetchReq ==> m.decree == 0)
    && (m.kind == FetchResp ==> m.proposals == [] || m.proposals[0].decree <= 0)
  }

  lemma HarmlessIsOk(peers: set<nat>, logs: Logs, m: Message)
    requires logs.Keys == peers && forall n | n in peers :: logs[n] == []
    ensures MsgOk(logs, m) <==> Harmless(peers, m)
  {
    if m.from in peers && m.to in peers {
      assert logs[m.from] == [] && logs[m.to] == [];
    }
  }

  lemma NewLogs(config: NodeConfig, sys: System)
    requires Init(config, sys.(sent := {}))
    ensures LogsOf(sys.nodes).Keys == Peers(config) && forall n | n in Peers(config) :: LogsOf(sys.nodes)[n] == []
    ensures Inv(Peers(config), sys.(sent := {}))
  {
    hide Inv, NodeOk, MsgOk, Start, FreshNode;
    InitInv(config, sys.(sent := {}));
    forall n | n in sys.nodes ensures sys.nodes[n].log.entries == [] {
      StartOk(map p | p in Peers(config) :: [], config, n);
    }
  }

  /** After a reset the invariant holds exactly when every message left is harmless. */
  lemma ResetInv(config: NodeConfig, sys: System, left: set<Message>)
    requires ResetTo(config, sys, left)
    ensures Inv(Peers(config), sys) <==> forall m | m in left :: Harmless(Peers(config), m)
  {
    hide NodeOk, LogsOk, MsgOk, Init, Harmless;
    NewLogs(config, sys);
    forall m | m in left ensures MsgOk(LogsOf(sys.nodes), m) <==> Harmless(Peers(config), m) {
      HarmlessIsOk(Peers(config), LogsOf(sys.nodes), m);
    }
  }

  lemma {:induction false} EpisodeInv(config: NodeConfig, left: set<Message>, trace: seq<System>, events: seq<Event>, i: nat)
    requires Episode(config, left, trace, events) && i <= |events|
    requires forall m | m in left :: Harmless(Peers(config), m)
    ensures Inv(Peers(config), trace[i])
  {
    hide Inv, Next, ResetTo, Harmless;
    if i == 0 {
      ResetInv(config, trace[0], left);
    } else {
      EpisodeInv(config, left, trace, events, i - 1);
      NextInv(Peers(config), trace[i - 1], events[i - 1], trace[i]);
    }
  }

  lemma AfterInv(config: NodeConfig, left: set<Message>, sys: System)
    requires ReachableAfter(config, left, sys) && forall m | m in left :: Harmless(Peers(config), m)
    ensures Inv(Peers(config), sys)
  {
    hide Inv, Harmless, Next, ResetTo;
    var trace, events :| Episode(config, left, trace, events) && trace[|events|] == sys;
    EpisodeInv(config, left, trace, events, |events|);
  }

  /** In an episode whose leftover messages are harmless, whatever a node has executed a majority
      has accepted. */
  lemma ExecutedIsDecreed(config: NodeConfig, left: set<Message>, sys: System, n: nat, i: nat)
    requires ReachableAfter(config, left, sys) && forall m | m in left :: Harmless(Peers(config), m)
    requires n in sys.nodes && i < |sys.nodes[n].log.decided|
    ensures i < |sys.nodes[n].log.decidedAt|
    ensures Decreed(LogsOf(sys.nodes), Peers(config), sys.nodes[n].log.decidedAt[i], sys.nodes[n].log.decided[i])
  {
    hide LogsOk, LogOk, PendingOk, StateOk, MsgOk, Decreed, Harmless, ReachableAfter;
    AfterInv(config, left, sys);
  }

  /** Agreement in every episode whose leftover messages are harmless. */
  lemma AgreementAfterReset(config: NodeConfig, left: set<Message>, sys: System, n1: nat, i: nat, n2: nat, j: nat)
    requires ReachableAfter(config, left, sys) && forall m | m in left :: Harmless(Peers(config), m)
    requires n1 in sys.nodes && n2 in sys.nodes
    requires i < |sys.nodes[n1].log.decided| && j < |sys.nodes[n2].log.decided|
    requires |sys.nodes[n1].log.decidedAt| > i && |sys.nodes[n2].log.decidedAt| > j
    requires sys.nodes[n1].log.decidedAt[i] == sys.nodes[n2].log.decidedAt[j]
    ensures sys.nodes[n1].log.decided[i] == sys.nodes[n2].log.decided[j]
  {
    hide LogsOk, NodeOk, MsgOk, Decreed, Harmless, ReachableAfter;
    AfterInv(config, left, sys);
    ExecutedIsDecreed(config, left, sys, n1, i);
    ExecutedIsDecreed(config, left, sys, n2, j);
    DecreedAgree(LogsOf(sys.nodes), Peers(config), sys.nodes[n1].log.decidedAt[i],
                 sys.nodes[n1].log.decided[i], sys.nodes[n2].log.decided[j]);
  }

  /** At most one primary per ballot number in every episode whose leftover messages are harmless. */
  lemma PrimariesAfterReset(config: NodeConfig, left: set<Message>, sys: System, n1: nat, n2: nat)
    requires ReachableAfter(config, left, sys) && forall m | m in left :: Harmless(Peers(config), m)
    requires n1 in sys.nodes && n2 in sys.nodes
    requires sys.nodes[n1].local.state == StablePrimary && sys.nodes[n2].local.state == StablePrimary
    requires sys.nodes[n1].local.maxAccepted.ballot.num == sys.nodes[n2].local.maxAccepted.ballot.num
    ensures n1 == n2
  {
    hide Inv, Harmless, ReachableAfter;
    AfterInv(config, left, sys);
    OnePrimary(Peers(config), sys, n1, n2);
  }

  // ----- episodes and runs -----

  /** An episode that starts with nothing in transit is a run from the beginning. */
  lemma FreshEpisode(config: NodeConfig, trace: seq<System>, events: seq<Event>)
    ensures Episode(config, {}, trace, events) <==> Execution(config, trace, events)
  {
    hide Next;
    if |trace| > 0 && trace[0].sent == {} {
      assert trace[0].(sent := {}) == trace[0];
    }
  }

  lemma ReachableAfresh(config: NodeConfig, sys: System)
    requires ReachableAfter(config, {}, sys)
    ensures Reachable(config, sys)
  {
    hide Next, ResetTo, Init;
    var trace, events :| Episode(config, {}, trace, events) && trace[|events|] == sys;
    FreshEpisode(config, trace, events);
  }

  function Widen(sys: System, left: set<Message>): System {
    sys.(sent := sys.sent + left)
  }

  lemma WidenNext(sys: System, e: Event, sys': System, left: set<Message>)
    requires Next(sys, e, sys')
    ensures Next(Widen(sys, left), e, Widen(sys', left))
  {
    hide Move, DrawOk;
    var pending := PendingOf(Move(sys.nodes[Site(e)], e));
    assert (sys.sent + pending) + left == (sys.sent + left) + pending;
  }

  /** Leftover messages take no step away: what a fresh cluster can reach, one after a reset can. */
  lemma WidenReachable(config: NodeConfig, sys: System, left: set<Message>)
    requires Reachable(config, sys)
    ensures ReachableAfter(config, left, Widen(sys, left))
  {
    hide Next, Init;
    var trace, events :| Execution(config, trace, events) && trace[|events|] == sys;
    var wide := seq(|trace|, i requires 0 <= i < |trace| => Widen(trace[i], left));
    forall i | 0 <= i < |events| ensures Next(wide[i], events[i], wide[i + 1]) {
      WidenNext(trace[i], events[i], trace[i + 1], left);
    }
    assert wide[0].(sent := {}) == trace[0] && wide[0].sent == left by {
      InitSentNothing(config, trace[0]);
    }
    assert Episode(config, left, wide, events) && wide[|events|] == Widen(sys, left);
  }

  lemma InitSentNothing(config: NodeConfig, sys: System)
    requires Init(config, sys)
    ensures sys.sent == {} && Widen(sys, {}) == sys
  {
  }

  lemma ExtendEpisode(config: NodeConfig, left: set<Message>, sys: System, e: Event, sys': System)
    requires ReachableAfter(config, left, sys) && Next(sys, e, sys') && PlainEvent(e)
    ensures ReachableAfter(config, left, sys')
  {
    hide Next, ResetTo;
    var trace, events :| Episode(config, left, trace, events) && trace[|events|] == sys;
    Extended(config, left, trace, events, e, sys');
    assert Episode(config, left, trace + [sys'], events + [e]);
  }

  lemma Extended(config: NodeConfig, left: set<Message>, trace: seq<System>, events: seq<Event>, e: Event, sys: System)
    requires Episode(config, left, trace, events) && Next(trace[|events|], e, sys) && PlainEvent(e)
    ensures Episode(config, left, trace + [sys], events + [e])
  {
    hide Next, ResetTo;
  }
}
