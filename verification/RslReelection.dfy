/** The other way to execute a decree twice: the former primary of `RslDoubleExecution` does not
    follow its successor but is elected again, which takes the decree it has executed up for
    voting once more. */
module RslReelection {
  import opened RslTypes
  import opened RslNodeSpec
  import opened RslSystem
  import opened RslInvariant
  import opened RslExecution
  import opened RslDoubleExecution
  import Runs = RslRuns

  const THIRD := Ballot(3, 1)
  const UNDER_THIRD := Proposal(THIRD, 0, NO_COMMAND)

  const PREPARED_THIRD := PREPARED_AGAIN + [Prepare(THIRD)]
  const ACCEPTED_THIRD := PREPARED_THIRD + [Accept(UNDER_THIRD)]

  // ----- the states from where node 1 has given way to node 2 -----

  const C6 := At(1, Local(Initializing, UNDER_FIRST, SECOND, UNDER_FIRST, 1),
                 LogState(PREPARED_AGAIN, [NO_COMMAND], [0]), [], true, Timers(102, 101, 1, 1, 2), map[])
  const C7 := At(1, Local(Preparing, UNDER_FIRST, THIRD, UNDER_FIRST, 1),
                 LogState(PREPARED_THIRD, [NO_COMMAND], [0]), [], true, Timers(102, 101, 2, 1, 2), map[])
  const C8 := At(1, Local(StablePrimary, UNDER_THIRD, THIRD, UNDER_THIRD, 1),
                 LogState(ACCEPTED_THIRD, [NO_COMMAND], [0]), [], false, Timers(102, 102, 2, 2, 2), map[])

  const D6 := At(2, Local(StableSecondary, UNDER_FIRST, THIRD, UNDER_FIRST, 0), LogState(PREPARED_THIRD, [], []),
                 [], false, Timers(MAX_INT, 100, 1, 0, 1), map[])
  const D7 := At(2, Local(StableSecondary, UNDER_THIRD, THIRD, UNDER_FIRST, 0), LogState(ACCEPTED_THIRD, [], []),
                 [], false, Timers(MAX_INT, 101, 1, 1, 1), map[])

  const STATUS_AGAIN := Msg(2, 1, StatusResp, FIRST, 0, NO_COMMAND, ZERO_BALLOT, false)
  const PREPARE_3 := Msg(1, 2, PrepareReq, THIRD, 0, NO_COMMAND, ZERO_BALLOT, false)
  const PROMISE_3 := Msg(2, 1, PrepareResp, THIRD, 0, NO_COMMAND, FIRST, true)
  const ACCEPT_3 := Msg(1, 2, AcceptReq, THIRD, 0, NO_COMMAND, ZERO_BALLOT, false)
  const VOTE_3 := Msg(2, 1, AcceptResp, THIRD, 0, NO_COMMAND, ZERO_BALLOT, true)

  // ----- each step -----

  lemma TimeoutStepAtOne()
    ensures Tick(A5) == C6.(pending := [ASK_2])
  {
    OneCopy(Blank(StatusReq).(from := 1));
  }

  lemma AnswerAgainStep()
    ensures Step(B5, ASK_2, 0) == B5.(pending := [STATUS_AGAIN])
  {
  }

  lemma ThirdCandidacyStep()
    ensures DrawOk(C6, STATUS_AGAIN, 0)
    ensures Step(C6, STATUS_AGAIN, 0) == C7.(pending := [PREPARE_3])
  {
    var t := RecordStatus(C6, STATUS_AGAIN);
    assert AheadNodes(t.remoteStates, UNDER_FIRST) == {};
    assert PlanAfterStatus(t) == Proceed;
    OneCopy(Blank(PrepareReq).(decree := 0, ballot := THIRD, from := 1));
  }

  lemma ThirdPromiseStep()
    ensures Step(B5, PREPARE_3, 0) == D6.(pending := [PROMISE_3])
  {
  }

  lemma ThirdVictoryStep()
    ensures Step(C7, PROMISE_3, 0) == C8.(pending := [ACCEPT_3])
  {
    OneCopy(AcceptReqFor(UNDER_THIRD).(from := 1));
  }

  lemma ThirdAcceptStep()
    ensures Step(D6, ACCEPT_3, 0) == D7.(pending := [VOTE_3])
  {
  }

  lemma RepeatStep()
    ensures WinsVote(C8, VOTE_3) && Repeats(C8, Step(C8, VOTE_3, 0))
  {
    assert WinsVote(C8, VOTE_3);
    AcceptResponseExecutes(C8, VOTE_3);
  }

  // ----- the run -----

  lemma StandAgain()
    ensures Visits(C7, B5, {PREPARE_3})
  {
    hide Step, Tick, Visits, PlanAfterStatus;
    GiveWay();
    TimeoutStepAtOne();
    AnswerAgainStep();
    ThirdCandidacyStep();
    AtOne(A5, B5, {PROMISE_2}, TickNode(1), C6, {ASK_2});
    AtTwo(C6, B5, {ASK_2}, Deliver(ASK_2, 0), B5, {STATUS_AGAIN});
    AtOne(C6, B5, {STATUS_AGAIN}, Deliver(STATUS_AGAIN, 0), C7, {PREPARE_3});
  }

  lemma WinAgain()
    ensures Visits(C8, D7, {VOTE_3})
  {
    hide Step, Tick, Visits, PlanAfterStatus;
    StandAgain();
    ThirdPromiseStep();
    ThirdVictoryStep();
    ThirdAcceptStep();
    AtTwo(C7, B5, {PREPARE_3}, Deliver(PREPARE_3, 0), D6, {PROMISE_3});
    AtOne(C7, D6, {PROMISE_3}, Deliver(PROMISE_3, 0), C8, {ACCEPT_3});
    AtTwo(C8, D6, {ACCEPT_3}, Deliver(ACCEPT_3, 0), D7, {VOTE_3});
  }

  /** A primary elected again for a decree it has executed executes it again. */
  lemma ReelectionRepeats() returns (sys: System)
    ensures Reachable(CONFIG, sys) && Enabled(sys, Deliver(VOTE_3, 0)) && 1 in sys.nodes
    ensures WinsVote(sys.nodes[1], VOTE_3) && Repeats(sys.nodes[1], Move(sys.nodes[1], Deliver(VOTE_3, 0)))
  {
    hide Reachable, Runs.Visits, Step, WinsVote, Repeats;
    WinAgain();
    sys := Runs.Visited(CONFIG, {}, map[1 := C8, 2 := D7], {VOTE_3});
    RepeatStep();
  }
}
