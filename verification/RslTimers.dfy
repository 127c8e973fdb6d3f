/** What the clock does to a node, case by case: who asks again, who stands again, and how a primary
    gets its commands out. */
module RslTimers {
  import opened RslTypes
  import opened RslNodeSpec
  import opened RslInvariant
  import opened RslAnswers

  /** The time after one more tick. */
  function Now(s: NodeState): int {
    Wrap64(s.timers.ticks + 1)
  }

  /** The node with its clock advanced and nothing else done. */
  function Waited(s: NodeState): NodeState {
    s.(timers := s.timers.(ticks := Now(s)))
  }

  predicate Stable(s: NodeState) {
    s.local.state == StablePrimary || s.local.state == StableSecondary
  }

  predicate Owns(s: NodeState) {
    s.local.maxPrepared.node == s.id
  }

  /** A new node is blank, and starts by asking for statuses with nothing but a deadline for progress set. */
  lemma StartsBlank(id: nat, config: NodeConfig)
    ensures var s := FreshNode(id, config);
            var t := s.(timers := s.timers.(noProgress := config.noProgressTimeout));
            && s.id == id && s.config == config && s.local.state == Inactive
            && s.log == LogState([], [], []) && s.commandQ == [] && s.proposalQ == [] && s.pending == []
            && s.remoteStates == map[] && s.learningFrom == 0 && !s.readyToPropose
            && s.timers == Timers(MAX_INT, MAX_INT, MAX_INT, 0, 0)
            && s.local.maxAccepted == Proposal(Ballot(0, 0), 0, Plain("")) && s.local.maxPrepared == Ballot(0, 0)
            && (forall p :: p in s.local.peerConfig.members <==> p in config.peers)
            && Restarts(t, Start(s))
  {
    hide Copies, Wrap64;
  }

  /** After the deadline without progress only the clock advances, and so it does for a node that is
      not active. */
  lemma NoProgress(s: NodeState)
    requires Now(s) > s.timers.noProgress || !Active(s)
    ensures Tick(s) == Waited(s)
  {
  }

  /** An initializing node asks for statuses again when its timer has run out, and keeps its ballot. */
  lemma InitializingWaits(s: NodeState)
    requires s.local.state == Initializing && Now(s) <= s.timers.noProgress
    ensures if Now(s) > s.timers.action then Restarts(Waited(s), Tick(s)) else Tick(s) == Waited(s)
    ensures Tick(s).local == s.local && Tick(s).log == s.log
  {
    hide Copies, Wrap64;
  }

  /** A candidate whose timer has run out asks for the same promises again: it keeps its ballot, and
      counts from the start. */
  lemma CandidateWaits(s: NodeState)
    requires s.local.state == Preparing && Now(s) <= s.timers.noProgress
    ensures Tick(s) ==
            if Now(s) <= s.timers.action then Waited(s)
            else Waited(s).(local := s.local.(oldFreshest := s.local.maxAccepted), remoteStates := map[],
                            pending := s.pending + Copies(s.config.peers,
                              Short(s.id, 0, PrepareReq, s.local.maxPrepared, s.local.maxAccepted.decree, false)),
                            timers := s.timers.(ticks := Now(s), action := Wrap64(Now(s) + s.config.prepareRetryInterval)))
  {
    hide Copies, Wrap64;
  }

  /** A node that follows another gives up on it exactly when its election time is over. It asks for
      statuses then, once if its retry interval does not lie in the past. */
  lemma FollowerWaits(s: NodeState)
    requires Stable(s) && !Owns(s) && Now(s) <= s.timers.noProgress
    ensures Now(s) <= s.timers.nextElection ==> Tick(s) == Waited(s)
    ensures Now(s) > s.timers.nextElection ==>
              && Tick(s).local == s.local.(state := Initializing) && Tick(s).log == s.log
              && (Wrap64(Now(s) + s.config.initializeRetryInterval) >= Now(s) ==> Restarts(Waited(s), Tick(s)))
  {
    hide Copies, Wrap64;
  }

  /** A node that owns its ballot only waits unless it is primary and has accepted a proposal under it. */
  lemma OwnerWaits(s: NodeState)
    requires Stable(s) && Owns(s) && Now(s) <= s.timers.noProgress
    requires s.local.state == StableSecondary || s.local.maxAccepted.ballot.num != s.local.maxPrepared.num
    ensures Tick(s) == Waited(s)
  {
  }

  /** A primary that is ready and has a command proposes the oldest one for the next decree to everybody
      else, accepts it itself, and takes it off its queue. */
  lemma PrimaryProposes(s: NodeState)
    requires s.local.state == StablePrimary && Owns(s) && Now(s) <= s.timers.noProgress
    requires s.local.maxAccepted.ballot.num == s.local.maxPrepared.num && s.readyToPropose && s.commandQ != []
    ensures var t := Tick(s);
            var p := Proposal(s.local.maxAccepted.ballot, s.local.maxAccepted.decree + 1, s.commandQ[0]);
            var asked := Copies(s.config.peers, Short(s.id, 0, AcceptReq, p.ballot, p.decree, false).(command := p.command));
            && t.local == s.local.(maxAccepted := p) && t.commandQ == s.commandQ[1..] && !t.readyToPropose
            && t.log == s.log.(entries := s.log.entries + [Entry(true, p.ballot, p.decree, p.command)])
            && s.pending + asked <= t.pending
            && (Wrap64(Now(s) + s.config.proposalRetryInterval) >= Now(s) ==> t.pending == s.pending + asked)
            && t.timers.noProgress == Wrap64(Now(s) + s.config.noProgressTimeout) && t.timers.lastChosen == Now(s)
  {
    hide Copies, Wrap64;
  }

  /** A primary that waits for votes, or has no command, sends its last proposal again when its timer has
      run out, or when it is ready and has been idle longer than the heart beat; otherwise it waits. */
  lemma PrimaryWaits(s: NodeState)
    requires s.local.state == StablePrimary && Owns(s) && Now(s) <= s.timers.noProgress
    requires s.local.maxAccepted.ballot.num == s.local.maxPrepared.num && !(s.readyToPropose && s.commandQ != [])
    ensures var t, p := Tick(s), s.local.maxAccepted;
            var again := Copies(s.config.peers, Short(s.id, 0, AcceptReq, p.ballot, p.decree, false).(command := p.command));
            var beats := s.readyToPropose && Wrap64(Now(s) - s.timers.lastChosen) > s.config.heartBeatInterval;
            && t.local == s.local && t.log == s.log && t.commandQ == s.commandQ && t.readyToPropose == s.readyToPropose
            && (if beats || Now(s) > s.timers.action then
                  && s.pending + again <= t.pending && t.remoteStates == map[]
                  && t.timers.action == Wrap64(Now(s) + s.config.proposalRetryInterval)
                  && (t.timers.action >= Now(s) ==> t.pending == s.pending + again)
                else t == Waited(s))
  {
    hide Copies, Wrap64;
  }

  /** No tick ever changes what a node has promised or whom, unless it proposes as primary: the ballot
      prepared stays, and the log only grows by a proposal. */
  lemma TickKeepsBallot(s: NodeState)
    requires s.local.maxAccepted.ballot.num <= s.local.maxPrepared.num
    ensures Tick(s).local.maxPrepared == s.local.maxPrepared
    ensures s.local.state != StablePrimary ==> Tick(s).log == s.log && Tick(s).local.maxAccepted == s.local.maxAccepted
  {
    hide Copies, Wrap64;
  }
}
