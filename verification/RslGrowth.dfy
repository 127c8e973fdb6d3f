/** Appending to a log keeps all evidence other nodes and messages rely on. */
module RslGrowth {
  import opened RslTypes
  import opened RslNodeSpec
  import opened RslSystem
  import opened RslInvariant
  import opened RslVotes

  ghost predicate Grows(logs: Logs, logs': Logs) {
    logs.Keys == logs'.Keys && forall a | a in logs :: logs[a] <= logs'[a]
  }

  function Append(logs: Logs, n: nat, e: Entry): Logs
    requires n in logs
  {
    logs[n := logs[n] + [e]]
  }

  // ----- evidence is kept -----

  lemma PromisedKept(log: Entries, log': Entries, b: Ballot, d: int, pb: int)
    requires log <= log' && Promised(log, b, d, pb)
    ensures Promised(log', b, d, pb)
  {
    var i: nat :| PromisedAt(log, i, b, d, pb);
    assert forall j | 0 <= j <= i :: log'[j] == log[j];
    assert PromisedAt(log', i, b, d, pb);
  }

  lemma PromisedWeaker(log: Entries, b: Ballot, d: int, pb: int, pb': int)
    requires Promised(log, b, d, pb) && pb <= pb'
    ensures Promised(log, b, d, pb')
  {
    var i: nat :| PromisedAt(log, i, b, d, pb);
    assert PromisedAt(log, i, b, d, pb');
  }

  lemma VotedKept(log: Entries, log': Entries, k: int, d: int, c: Command)
    requires log <= log' && Voted(log, k, d, c)
    ensures Voted(log', k, d, c)
  {
    var e :| e in log && e.accepted && e.ballot.num == k && e.decree == d && e.command == c;
    assert e in log';
  }

  lemma SlotKept(log: Entries, log': Entries, k: int, d: int)
    requires log <= log' && VotedSlot(log, k, d)
    ensures VotedSlot(log', k, d)
  {
    var e :| e in log && e.accepted && e.ballot.num == k && e.decree == d;
    assert e in log';
  }

  lemma ReachedKept(log: Entries, log': Entries, d: int)
    requires log <= log' && Reached(log, d)
    ensures Reached(log', d)
  {
    if d > 0 {
      var e :| e in log && e.accepted && e.decree >= d;
      assert e in log';
    }
  }

  lemma SomewhereKept(logs: Logs, logs': Logs, k: int, d: int, c: Command)
    requires Grows(logs, logs') && VotedSomewhere(logs, k, d, c)
    ensures VotedSomewhere(logs', k, d, c)
  {
    var a :| a in logs && Voted(logs[a], k, d, c);
    VotedKept(logs[a], logs'[a], k, d, c);
  }

  lemma ChosenKept(logs: Logs, logs': Logs, peers: set<nat>, k: int, d: int, c: Command)
    requires Grows(logs, logs') && Chosen(logs, peers, k, d, c)
    ensures Chosen(logs', peers, k, d, c)
  {
    var q :| IsQuorum(q, peers) && ChosenBy(logs, q, k, d, c);
    forall a | a in q ensures a in logs' && Voted(logs'[a], k, d, c) {
      VotedKept(logs[a], logs'[a], k, d, c);
    }
    assert ChosenBy(logs', q, k, d, c);
  }

  lemma DecreedKept(logs: Logs, logs': Logs, peers: set<nat>, d: int, c: Command)
    requires Grows(logs, logs') && Decreed(logs, peers, d, c)
    ensures Decreed(logs', peers, d, c)
  {
    var k :| Chosen(logs, peers, k, d, c);
    ChosenKept(logs, logs', peers, k, d, c);
  }

  lemma ElectedKept(logs: Logs, logs': Logs, peers: set<nat>, e: Entry)
    requires Grows(logs, logs') && Elected(logs, peers, e)
    ensures Elected(logs', peers, e)
  {
    var q, d0, pb :| ElectedBy(logs, peers, e, q, d0, pb);
    forall a | a in q ensures a in logs' && Promised(logs'[a], e.ballot, d0, pb) {
      PromisedKept(logs[a], logs'[a], e.ballot, d0, pb);
    }
    if e.decree == d0 && pb != 0 {
      SomewhereKept(logs, logs', pb, d0, e.command);
    }
    assert ElectedBy(logs', peers, e, q, d0, pb);
  }

  lemma MsgKept(logs: Logs, logs': Logs, m: Message)
    requires Grows(logs, logs') && MsgOk(logs, m)
    ensures MsgOk(logs', m)
  {
    var log, log' := logs[m.from], logs'[m.from];
    assert log <= log' && logs[m.to] <= logs'[m.to];
    assert forall e | e in log :: e in log';
    if m.kind == AcceptResp && m.accept {
      SlotKept(log, log', m.ballot.num, m.decree);
    }
    if m.kind == PrepareResp && m.accept {
      PromisedKept(log, log', m.ballot, m.decree, m.proposalBallot.num);
    }
    if m.kind == FetchReq {
      ReachedKept(log, log', m.decree);
    }
    if m.kind == FetchResp && m.proposals != [] {
      ReachedKept(logs[m.to], logs'[m.to], m.proposals[0].decree);
    }
  }

  lemma DecidedKept(logs: Logs, logs': Logs, peers: set<nat>, decided: seq<Command>, at: seq<int>, decree: int)
    requires Grows(logs, logs') && DecidedOk(logs, peers, decided, at, decree)
    ensures DecidedOk(logs', peers, decided, at, decree)
  {
    forall i | 0 <= i < |decided| ensures Decreed(logs', peers, at[i], decided[i]) {
      DecreedKept(logs, logs', peers, at[i], decided[i]);
    }
  }

  lemma PendingKept(logs: Logs, logs': Logs, pending: seq<Message>)
    requires Grows(logs, logs') && PendingOk(logs, pending)
    ensures PendingOk(logs', pending)
  {
    forall m | m in pending ensures MsgOk(logs', m) {
      MsgKept(logs, logs', m);
    }
  }

  lemma AllPromisedKept(logs: Logs, logs': Logs, counted: set<nat>, b: Ballot, d: int, pb: int)
    requires Grows(logs, logs') && AllPromised(logs, counted, b, d, pb)
    ensures AllPromised(logs', counted, b, d, pb)
  {
    forall r | r in counted ensures r in logs' && Promised(logs'[r], b, d, pb) {
      PromisedKept(logs[r], logs'[r], b, d, pb);
    }
  }

  lemma CandidateKept(logs: Logs, logs': Logs, id: nat, local: LocalState, counted: set<nat>)
    requires Grows(logs, logs') && CandidateOk(logs, id, local, counted)
    ensures CandidateOk(logs', id, local, counted)
  {
    var acc, prep, f := local.maxAccepted, local.maxPrepared, local.oldFreshest;
    if f.ballot.num != 0 {
      SomewhereKept(logs, logs', f.ballot.num, f.decree, f.command);
    }
    PromisedKept(logs[id], logs'[id], prep, acc.decree, acc.ballot.num);
    AllPromisedKept(logs, logs', counted, prep, acc.decree, f.ballot.num);
  }

  lemma CountKept(logs: Logs, logs': Logs, counted: set<nat>, acc: Proposal)
    requires Grows(logs, logs') && CountOk(logs, counted, acc)
    ensures CountOk(logs', counted, acc)
  {
    forall r | r in counted ensures r in logs' && VotedSlot(logs'[r], acc.ballot.num, acc.decree) {
      SlotKept(logs[r], logs'[r], acc.ballot.num, acc.decree);
    }
  }

  lemma PrimaryKept(logs: Logs, logs': Logs, peers: set<nat>, id: nat, acc: Proposal, prep: Ballot,
                    ready: bool, decidedAt: seq<int>)
    requires Grows(logs, logs') && PrimaryOk(logs, peers, id, acc, prep, ready, decidedAt)
    ensures PrimaryOk(logs', peers, id, acc, prep, ready, decidedAt)
  {
    if ready {
      ChosenKept(logs, logs', peers, acc.ballot.num, acc.decree, acc.command);
    }
  }

  /** A node that does not move stays as good as it was when the others' logs grow. */
  lemma NodeKept(logs: Logs, logs': Logs, peers: set<nat>, s: NodeState)
    requires Grows(logs, logs') && NodeOk(logs, peers, s)
    requires logs'[s.id] == logs[s.id]
    ensures NodeOk(logs', peers, s)
  {
    hide Grows, LogOk, DecidedOk, PendingOk, CandidateOk, CountOk, PrimaryOk;
    assert logs'.Keys == logs.Keys by { GrowsKeys(logs, logs'); }
    DecidedKept(logs, logs', peers, s.log.decided, s.log.decidedAt, s.local.maxAccepted.decree);
    PendingKept(logs, logs', s.pending);
    if s.local.state == Preparing {
      CandidateKept(logs, logs', s.id, s.local, s.remoteStates.Keys);
    }
    if IsStable(s) {
      CountKept(logs, logs', s.remoteStates.Keys, s.local.maxAccepted);
    }
    if s.local.state == StablePrimary {
      PrimaryKept(logs, logs', peers, s.id, s.local.maxAccepted, s.local.maxPrepared, s.readyToPropose, s.log.decidedAt);
    }
  }

  lemma GrowsKeys(logs: Logs, logs': Logs)
    requires Grows(logs, logs')
    ensures logs'.Keys == logs.Keys
  {
  }

  // ----- appending to one log -----

  lemma AppendGrows(logs: Logs, n: nat, e: Entry)
    requires n in logs
    ensures Grows(logs, Append(logs, n, e))
  {
  }

  lemma ReplayAppend(log: Entries, e: Entry)
    ensures ReplayAccepted(log + [e])
         == if e.accepted then Proposal(e.ballot, e.decree, e.command) else ReplayAccepted(log)
    ensures ReplayPrepared(log + [e])
         == if e.ballot.num > ReplayPrepared(log).num then e.ballot else ReplayPrepared(log)
  {
    assert (log + [e])[..|log|] == log;
  }

  lemma BoundedAppend(log: Entries, acc: Proposal, prep: Ballot, e: Entry, acc': Proposal, prep': Ballot)
    requires Bounded(log, acc, prep)
    requires acc.decree <= acc'.decree && acc.ballot.num <= acc'.ballot.num && prep.num <= prep'.num
    requires 1 <= e.ballot.num <= prep'.num
    requires e.accepted ==> 0 <= e.decree <= acc'.decree && e.ballot.num <= acc'.ballot.num
    ensures Bounded(log + [e], acc', prep')
  {
    assert forall x | x in log + [e] :: x in log || x == e;
  }

  lemma LogAppendPrepare(log: Entries, acc: Proposal, prep: Ballot, b: Ballot)
    requires LogOk(log, acc, prep)
    requires b.num > prep.num
    ensures LogOk(log + [Prepare(b)], acc, b)
  {
    hide Ordered, Gapless, Bounded, ReplayAccepted, ReplayPrepared;
    ReplayAppend(log, Prepare(b));
    OrderedAppend(log, acc, prep, Prepare(b));
    GaplessKept(log, Prepare(b));
    BoundedAppend(log, acc, prep, Prepare(b), acc, b);
  }

  lemma LogAppendAccept(log: Entries, acc: Proposal, prep: Ballot, p: Proposal)
    requires LogOk(log, acc, prep)
    requires p.ballot.num >= prep.num && p.ballot.num >= 1
    requires || (p.decree == acc.decree && p.ballot.num > acc.ballot.num)
             || (p.decree == acc.decree + 1 && p.ballot.num == acc.ballot.num)
    ensures LogOk(log + [Accept(p)], p, if p.ballot.num > prep.num then p.ballot else prep)
  {
    hide Ordered, Gapless, Bounded, ReplayAccepted, ReplayPrepared;
    ReplayAppend(log, Accept(p));
    OrderedAppend(log, acc, prep, Accept(p));
    GaplessAppend(log, acc, prep, p);
    BoundedAppend(log, acc, prep, Accept(p), p, if p.ballot.num > prep.num then p.ballot else prep);
    assert Accept(p) == (log + [Accept(p)])[|log|];
  }

  lemma OrderedAppend(log: Entries, acc: Proposal, prep: Ballot, e: Entry)
    requires LogOk(log, acc, prep)
    requires e.ballot.num >= prep.num
    requires e.accepted ==> || (e.decree == acc.decree && e.ballot.num > acc.ballot.num)
                            || (e.decree == acc.decree + 1 && e.ballot.num == acc.ballot.num)
    ensures Ordered(log + [e])
  {
    assert forall i | 0 <= i < |log| :: log[i] in log;
  }

  lemma BeforeKept(log: Entries, e: Entry, i: int, i': int, d: int)
    requires AcceptedBefore(log, i, d) && i <= i'
    ensures AcceptedBefore(log + [e], i', d)
  {
    var j :| 0 <= j < i && j < |log| && log[j].accepted && log[j].decree == d;
    assert (log + [e])[j] == log[j];
  }

  /** A gapless log stays gapless when the new entry is not an acceptance, or its decree is
      zero, already accepted, or one past an accepted one. */
  lemma GaplessKept(log: Entries, e: Entry)
    requires Gapless(log)
    requires e.accepted && e.decree != 0 ==> AcceptedBefore(log, |log|, e.decree - 1)
    ensures Gapless(log + [e])
  {
    var log' := log + [e];
    forall i | 0 <= i < |log'| && log'[i].accepted && log'[i].decree != 0
      ensures AcceptedBefore(log', i, log'[i].decree - 1)
    {
      if i < |log| {
        BeforeKept(log, e, i, i, log[i].decree - 1);
      } else {
        BeforeKept(log, e, |log|, i, e.decree - 1);
      }
    }
  }

  lemma GaplessAppend(log: Entries, acc: Proposal, prep: Ballot, p: Proposal)
    requires LogOk(log, acc, prep)
    requires || p.decree == acc.decree
             || (p.decree == acc.decree + 1 && acc.ballot.num >= 1)
    ensures Gapless(log + [Accept(p)])
  {
    if p.decree != 0 {
      var k :| 0 <= k < |log| && log[k] == Accept(acc);
      if p.decree == acc.decree {
        assert AcceptedBefore(log, k, acc.decree - 1);
      }
    }
    GaplessKept(log, Accept(p));
  }

  // ----- the joint log invariant -----

  /** Recording a prepared ballot cannot create or change a proposal. */
  lemma LogsPrepare(logs: Logs, peers: set<nat>, n: nat, b: Ballot)
    requires LogsOk(logs, peers) && n in peers
    requires Ordered(logs[n] + [Prepare(b)])
    ensures LogsOk(Append(logs, n, Prepare(b)), peers)
  {
    var logs' := Append(logs, n, Prepare(b));
    forall o, e | Own(logs', o, e) ensures Own(logs, o, e) {
    }
    OwnKept(logs, logs', peers);
  }

  /** A vote for a proposal of another node. */
  lemma LogsFollow(logs: Logs, peers: set<nat>, n: nat, e: Entry)
    requires LogsOk(logs, peers) && n in peers
    requires Own(logs, e.ballot.node, e) && e.ballot.node != n
    requires Ordered(logs[n] + [e])
    ensures LogsOk(Append(logs, n, e), peers)
  {
    var logs' := Append(logs, n, e);
    forall o, x | Own(logs', o, x) ensures Own(logs, o, x) {
    }
    OwnKept(logs, logs', peers);
    assert Own(logs', e.ballot.node, e);
  }

  /** A proposal under a ballot of the node's own. */
  lemma LogsPropose(logs: Logs, peers: set<nat>, n: nat, e: Entry)
    requires LogsOk(logs, peers) && n in peers
    requires e.accepted && e.ballot.node == n && e.command.Plain?
    requires Elected(logs, peers, e)
    requires Ordered(logs[n] + [e])
    requires forall x | Own(logs, n, x) && x.ballot.num == e.ballot.num && x.decree == e.decree - 1 ::
               Chosen(logs, peers, x.ballot.num, x.decree, x.command)
    ensures LogsOk(Append(logs, n, e), peers)
  {
    hide Elected, Chosen, Grows, Ordered;
    var logs' := Append(logs, n, e);
    AppendGrows(logs, n, e);
    forall o, x | Own(logs', o, x) ensures Elected(logs', peers, x) {
      assert x == e || Own(logs, o, x);
      ElectedKept(logs, logs', peers, x);
    }
    forall o, x, x' | Own(logs', o, x) && Own(logs', o, x')
                      && x'.ballot.num == x.ballot.num && x'.decree == x.decree + 1
      ensures Chosen(logs', peers, x.ballot.num, x.decree, x.command)
    {
      ProposeAfterChosen(logs, peers, n, e, o, x, x');
    }
    forall a, x: Entry | a in peers && x in logs'[a] && x.accepted ensures Own(logs', x.ballot.node, x) {
      assert x == e || Own(logs, x.ballot.node, x);
      assert e in logs'[n];
    }
  }

  lemma LastIsLargest(log: Entries, e: Entry, x: Entry)
    requires Ordered(log + [e])
    requires e.accepted && x in log && x.accepted
    ensures x.decree <= e.decree && x.ballot.num <= e.ballot.num
  {
    var i :| 0 <= i < |log| && log[i] == x;
    assert (log + [e])[i] == x && (log + [e])[|log|] == e;
  }

  lemma ProposeAfterChosen(logs: Logs, peers: set<nat>, n: nat, e: Entry, o: nat, x: Entry, x': Entry)
    requires LogsOk(logs, peers) && n in peers
    requires e.accepted && e.ballot.node == n
    requires Ordered(logs[n] + [e])
    requires forall x | Own(logs, n, x) && x.ballot.num == e.ballot.num && x.decree == e.decree - 1 ::
               Chosen(logs, peers, x.ballot.num, x.decree, x.command)
    requires Own(Append(logs, n, e), o, x) && Own(Append(logs, n, e), o, x')
    requires x'.ballot.num == x.ballot.num && x'.decree == x.decree + 1
    ensures Chosen(Append(logs, n, e), peers, x.ballot.num, x.decree, x.command)
  {
    AppendGrows(logs, n, e);
    assert x == e || Own(logs, o, x);
    assert x' == e || Own(logs, o, x');
    if x' in logs[n] {
      LastIsLargest(logs[n], e, x');
    }
    ChosenKept(logs, Append(logs, n, e), peers, x.ballot.num, x.decree, x.command);
  }

  /** When no new proposals appear, what was known of the old ones carries over. */
  lemma OwnKept(logs: Logs, logs': Logs, peers: set<nat>)
    requires LogsOk(logs, peers) && Grows(logs, logs')
    requires forall o, e | Own(logs', o, e) :: Own(logs, o, e)
    ensures forall o, e | Own(logs', o, e) :: Elected(logs', peers, e)
    ensures forall o, e, e' | Own(logs', o, e) && Own(logs', o, e')
                              && e'.ballot.num == e.ballot.num && e'.decree == e.decree + 1 ::
              Chosen(logs', peers, e.ballot.num, e.decree, e.command)
    ensures forall o, e | Own(logs, o, e) :: Own(logs', o, e)
  {
    forall o, e | Own(logs', o, e) ensures Elected(logs', peers, e) {
      ElectedKept(logs, logs', peers, e);
    }
    forall o, e, e' | Own(logs', o, e) && Own(logs', o, e')
                      && e'.ballot.num == e.ballot.num && e'.decree == e.decree + 1
      ensures Chosen(logs', peers, e.ballot.num, e.decree, e.command)
    {
      ChosenKept(logs, logs', peers, e.ballot.num, e.decree, e.command);
    }
    forall o, e | Own(logs, o, e) ensures Own(logs', o, e) {
      assert logs[o] <= logs'[o];
    }
  }
}
