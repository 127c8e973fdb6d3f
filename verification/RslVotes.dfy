/** Consequences of the log invariants alone: at most one owner per ballot number, at most
    one command per slot, and a chosen command survives every later ballot. */
module RslVotes {
  import opened RslTypes
  import opened RslNodeSpec
  import opened RslSystem
  import opened RslInvariant

  lemma QuorumsMeet(q1: set<nat>, q2: set<nat>, peers: set<nat>) returns (a: nat)
    requires IsQuorum(q1, peers) && IsQuorum(q2, peers)
    ensures a in q1 && a in q2
  {
    var both, common := q1 + q2, q1 * q2;
    assert peers == both + (peers - both);
    assert |both| + |common| == |q1| + |q2|;
    a :| a in common;
  }

  /** A log promises each ballot number to one ballot only. */
  lemma PromiseIsUnique(log: Entries, b1: Ballot, d1: int, p1: int, b2: Ballot, d2: int, p2: int)
    requires Promised(log, b1, d1, p1) && Promised(log, b2, d2, p2)
    requires b1.num == b2.num
    ensures b1 == b2
  {
    var i1: nat :| PromisedAt(log, i1, b1, d1, p1);
    var i2: nat :| PromisedAt(log, i2, b2, d2, p2);
    assert i1 == i2;
  }

  /** Election safety: proposals under the same ballot number have the same owner. */
  lemma SameOwner(logs: Logs, peers: set<nat>, o1: nat, e1: Entry, o2: nat, e2: Entry)
    requires LogsOk(logs, peers)
    requires Own(logs, o1, e1) && Own(logs, o2, e2)
    requires e1.ballot.num == e2.ballot.num
    ensures o1 == o2
  {
    assert Elected(logs, peers, e1) && Elected(logs, peers, e2);
    var q1, d1, p1 :| ElectedBy(logs, peers, e1, q1, d1, p1);
    var q2, d2, p2 :| ElectedBy(logs, peers, e2, q2, d2, p2);
    var a := QuorumsMeet(q1, q2, peers);
    PromiseIsUnique(logs[a], e1.ballot, d1, p1, e2.ballot, d2, p2);
  }

  /** One command per slot: equal ballot number and decree mean the same accepted entry. */
  lemma SameSlot(logs: Logs, peers: set<nat>, a1: nat, e1: Entry, a2: nat, e2: Entry)
    requires LogsOk(logs, peers)
    requires a1 in peers && e1 in logs[a1] && e1.accepted
    requires a2 in peers && e2 in logs[a2] && e2.accepted
    requires e1.ballot.num == e2.ballot.num && e1.decree == e2.decree
    ensures e1 == e2
  {
    assert Own(logs, e1.ballot.node, e1) && Own(logs, e2.ballot.node, e2);
    SameOwner(logs, peers, e1.ballot.node, e1, e2.ballot.node, e2);
    var log := logs[e1.ballot.node];
    assert e1.ballot.node in peers && Ordered(log);
    var i :| 0 <= i < |log| && log[i] == e1;
    var j :| 0 <= j < |log| && log[j] == e2;
    assert i == j;
  }

  /** A vote below a promised ballot was cast before the promise, so the promise bounds it. */
  lemma PromiseBoundsVote(log: Entries, b: Ballot, d0: int, pb: int, e: Entry)
    requires Ordered(log) && Promised(log, b, d0, pb)
    requires e in log && e.accepted && e.ballot.num < b.num
    ensures e.decree <= d0 && e.ballot.num <= pb
  {
    var i: nat :| PromisedAt(log, i, b, d0, pb);
    var j :| 0 <= j < |log| && log[j] == e;
    assert j < i;
  }

  /** A chosen command persists: every proposal under a higher number is for the same decree
      or a later one, and repeats the command when it is for the same decree. */
  lemma {:induction false} ChosenPersists(logs: Logs, peers: set<nat>, k: int, d: int, c: Command, e: Entry)
    requires LogsOk(logs, peers)
    requires Chosen(logs, peers, k, d, c)
    requires Own(logs, e.ballot.node, e) && e.ballot.num > k
    ensures e.decree >= d
    ensures e.decree == d ==> e.command == c
    decreases e.ballot.num - k, 0
  {
    var q :| IsQuorum(q, peers) && ChosenBy(logs, q, k, d, c);
    assert Elected(logs, peers, e);
    var q', d0, pb :| ElectedBy(logs, peers, e, q', d0, pb);
    var a := QuorumsMeet(q, q', peers);
    var v :| v in logs[a] && v.accepted && v.ballot.num == k && v.decree == d && v.command == c;
    assert a in peers && Ordered(logs[a]);
    PromiseBoundsVote(logs[a], e.ballot, d0, pb, v);
    if e.decree == d {
      assert Own(logs, v.ballot.node, v);
      FreshestRepeats(logs, peers, k, d, c, a, v, e.command, pb);
    }
  }

  /** The freshest proposal a promise quorum reports for decree `d`, at or above number `k`,
      carries the command chosen under `k`. */
  lemma {:induction false} FreshestRepeats(logs: Logs, peers: set<nat>, k: int, d: int, c: Command,
                                           a: nat, v: Entry, c': Command, pb: int)
    requires LogsOk(logs, peers)
    requires Chosen(logs, peers, k, d, c)
    requires a in peers && v in logs[a] && v == Entry(true, v.ballot, d, c) && v.ballot.num == k
    requires k <= pb
    requires VotedSomewhere(logs, pb, d, c')
    ensures c' == c
    decreases pb - k, 1
  {
    var a' :| a' in logs && Voted(logs[a'], pb, d, c');
    var v' :| v' in logs[a'] && v'.accepted && v'.ballot.num == pb && v'.decree == d && v'.command == c';
    if pb == k {
      SameSlot(logs, peers, a, v, a', v');
    } else {
      assert Own(logs, v'.ballot.node, v');
      ChosenPersists(logs, peers, k, d, c, v');
    }
  }

  /** Two commands chosen for the same decree are equal, whatever their ballots. */
  lemma ChosenAgree(logs: Logs, peers: set<nat>, k1: int, c1: Command, k2: int, c2: Command, d: int)
    requires LogsOk(logs, peers)
    requires Chosen(logs, peers, k1, d, c1) && Chosen(logs, peers, k2, d, c2)
    ensures c1 == c2
  {
    if k2 < k1 {
      ChosenAgree(logs, peers, k2, c2, k1, c1, d);
    } else {
      var q1 :| IsQuorum(q1, peers) && ChosenBy(logs, q1, k1, d, c1);
      var q2 :| IsQuorum(q2, peers) && ChosenBy(logs, q2, k2, d, c2);
      var a := QuorumsMeet(q1, q2, peers);
      var v1 :| v1 in logs[a] && v1.accepted && v1.ballot.num == k1 && v1.decree == d && v1.command == c1;
      var v2 :| v2 in logs[a] && v2.accepted && v2.ballot.num == k2 && v2.decree == d && v2.command == c2;
      if k1 == k2 {
        SameSlot(logs, peers, a, v1, a, v2);
      } else {
        assert Own(logs, v2.ballot.node, v2);
        ChosenPersists(logs, peers, k1, d, c1, v2);
      }
    }
  }

  lemma DecreedAgree(logs: Logs, peers: set<nat>, d: int, c1: Command, c2: Command)
    requires LogsOk(logs, peers)
    requires Decreed(logs, peers, d, c1) && Decreed(logs, peers, d, c2)
    ensures c1 == c2
  {
    var k1 :| Chosen(logs, peers, k1, d, c1);
    var k2 :| Chosen(logs, peers, k2, d, c2);
    ChosenAgree(logs, peers, k1, c1, k2, c2, d);
  }
}
