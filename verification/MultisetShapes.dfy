/** What the listing of `MultisetSpec` means without its recursion: a partition is any sequence
    of nonzero parts, in descending order, whose columns add up to the multiplicities, and every
    way to divide the multiset occurs in the listing exactly once, whatever the order its parts
    are given in. */
module MultisetShapes {
  import opened Vectors
  import opened MultisetSpec

  // ----- partitions without recursion -----

  /** How often the component `c` is taken by all parts together. */
  function Column(ps: Parts, c: nat): nat
    requires forall p | p in ps :: c < |p|
  {
    if ps == [] then 0 else ps[0][c] + Column(ps[1..], c)
  }

  predicate PartsOk(ps: Parts, m: nat) {
    forall p | p in ps :: |p| == m && !IsZero(p)
  }

  predicate Descends(ps: Parts, m: nat)
    requires PartsOk(ps, m)
  {
    forall i, j | 0 <= i < j < |ps| :: LexLeq(ps[j], ps[i])
  }

  predicate Totals(ps: Parts, u: Vec)
    requires PartsOk(ps, |u|)
  {
    forall c | 0 <= c < |u| :: Column(ps, c) == u[c]
  }

  /** The recursive and the flat description of a partition agree. */
  lemma {:induction false} PartitionMeans(u: Vec, bound: Vec, ps: Parts)
    requires |u| == |bound|
    ensures IsPartitionBelow(u, bound, ps) <==>
            && PartsOk(ps, |u|) && Descends(ps, |u|) && Totals(ps, u)
            && (ps != [] ==> LexLeq(ps[0], bound))
    decreases |ps|
  {
    if ps != [] {
      var p, rest := ps[0], ps[1..];
      assert ps == [p] + rest;
      if Leq(p, u) && !IsZero(p) {
        PartitionMeans(Sub(u, p), p, rest);
        if PartsOk(rest, |u|) {
          assert PartsOk(ps, |u|);
          TotalsCons(u, p, rest);
          DescendsCons(p, rest, |u|);
        } else {
          assert !PartsOk(ps, |u|);
        }
      } else if PartsOk(ps, |u|) {
        var c :| 0 <= c < |u| && p[c] > u[c];
        assert Column(ps, c) >= p[c];
      }
    }
  }

  lemma TotalsCons(u: Vec, p: Vec, rest: Parts)
    requires Leq(p, u) && PartsOk([p] + rest, |u|) && PartsOk(rest, |u|)
    ensures Totals(rest, Sub(u, p)) <==> Totals([p] + rest, u)
  {
    assert ([p] + rest)[1..] == rest;
    assert forall c | 0 <= c < |u| :: Column([p] + rest, c) == p[c] + Column(rest, c);
  }

  lemma DescendsCons(p: Vec, rest: Parts, m: nat)
    requires PartsOk(rest, m) && PartsOk([p] + rest, m)
    ensures Descends([p] + rest, m) <==> Descends(rest, m) && (rest != [] ==> |rest[0]| == |p| && LexLeq(rest[0], p))
  {
    hide LexLeq, Descends;
    assert p in [p] + rest;
    if Descends([p] + rest, m) {
      DescendsRest(p, rest, m);
    } else if Descends(rest, m) && (rest != [] ==> LexLeq(rest[0], p)) {
      DescendsFrom(p, rest, m);
    }
  }

  lemma DescendsRest(p: Vec, rest: Parts, m: nat)
    requires |p| == m && PartsOk(rest, m) && PartsOk([p] + rest, m)
    requires Descends([p] + rest, m)
    ensures Descends(rest, m) && (rest != [] ==> LexLeq(rest[0], p))
  {
    hide LexLeq;
    var ps := [p] + rest;
    forall i, j | 0 <= i < j < |rest| ensures LexLeq(rest[j], rest[i]) {
      assert LexLeq(ps[j + 1], ps[i + 1]);
    }
    if rest != [] {
      assert LexLeq(ps[1], ps[0]);
    }
  }

  lemma DescendsFrom(p: Vec, rest: Parts, m: nat)
    requires |p| == m && PartsOk(rest, m) && PartsOk([p] + rest, m)
    requires Descends(rest, m) && (rest != [] ==> LexLeq(rest[0], p))
    ensures Descends([p] + rest, m)
  {
    hide LexLeq;
    var ps := [p] + rest;
    forall i, j | 0 <= i < j < |ps| ensures LexLeq(ps[j], ps[i]) {
      assert ps[j] == rest[j - 1];
      if i > 0 {
        assert ps[i] == rest[i - 1];
      } else if j > 1 {
        assert LexLeq(rest[j - 1], rest[0]);
        LexTransitive(rest[j - 1], rest[0], p);
      }
    }
  }

  /** The listing holds exactly the partitions of the multiset. */
  lemma ListsExactlyPartitions(u: Vec, ps: Parts)
    requires |u| > 0
    ensures LexLeq(u, u)
    ensures ps in Enumerate(u, u) <==> PartsOk(ps, |u|) && Descends(ps, |u|) && Totals(ps, u)
  {
    hide Enumerate, LexLeq, Totals, Descends, IsPartitionBelow;
    LexReflexive(u);
    PartitionMeans(u, u, ps);
    if PartsOk(ps, |u|) && Descends(ps, |u|) && Totals(ps, u) {
      if ps != [] {
        FirstFits(u, ps);
      }
      EnumerateComplete(u, u, ps);
    }
    if ps in Enumerate(u, u) {
      var i :| 0 <= i < |Enumerate(u, u)| && Enumerate(u, u)[i] == ps;
      EnumerateSound(u, u, i);
    }
  }

  lemma FirstFits(u: Vec, ps: Parts)
    requires ps != [] && PartsOk(ps, |u|) && Totals(ps, u)
    ensures LexLeq(ps[0], u)
  {
    assert forall c | 0 <= c < |u| :: ps[0][c] <= Column(ps, c);
    LeqIsLexLeq(ps[0], u);
  }

  /** Nothing is listed twice. */
  lemma ListedOnce(u: Vec, i: nat, j: nat)
    requires |u| > 0 && i < |Enumerate(u, u)| && j < |Enumerate(u, u)|
    requires Enumerate(u, u)[i] == Enumerate(u, u)[j]
    ensures i == j
  {
    hide Enumerate;
    PrecedesIsStrict(Enumerate(u, u)[i]);
    if i < j {
      EnumerateOrdered(u, u, i, j);
    } else if j < i {
      EnumerateOrdered(u, u, j, i);
    }
  }

  // ----- putting parts into descending order -----

  function Insert(p: Vec, ps: Parts): (r: Parts)
    requires forall q | q in ps :: |q| == |p|
    ensures multiset(r) == multiset(ps) + multiset{p}
  {
    if ps == [] then [p]
    else if LexLeq(ps[0], p) then [p] + ps
    else
      assert ps == [ps[0]] + ps[1..];
      [ps[0]] + Insert(p, ps[1..])
  }

  function SortDown(ps: Parts, m: nat): (r: Parts)
    requires forall q | q in ps :: |q| == m
    ensures multiset(r) == multiset(ps)
  {
    if ps == [] then []
    else
      assert ps == [ps[0]] + ps[1..];
      var rest := SortDown(ps[1..], m);
      SameMembers(rest, ps[1..]);
      Insert(ps[0], rest)
  }

  lemma SameMembers<T>(a: seq<T>, b: seq<T>)
    requires multiset(a) == multiset(b)
    ensures forall x :: x in a <==> x in b
    ensures |a| == |b|
  {
    assert forall x :: x in a <==> x in multiset(a);
    assert forall x :: x in b <==> x in multiset(b);
    assert |multiset(a)| == |a| && |multiset(b)| == |b|;
  }

  lemma {:induction false} InsertDescends(p: Vec, ps: Parts, m: nat)
    requires |p| == m && !IsZero(p) && PartsOk(ps, m) && Descends(ps, m)
    ensures PartsOk(Insert(p, ps), m) && Descends(Insert(p, ps), m)
    ensures Insert(p, ps)[0] == p || (ps != [] && Insert(p, ps)[0] == ps[0] && LexLeq(p, ps[0]))
  {
    if ps == [] {
    } else if LexLeq(ps[0], p) {
      DescendsCons(p, ps, m);
    } else {
      assert ps == [ps[0]] + ps[1..];
      DescendsCons(ps[0], ps[1..], m);
      InsertDescends(p, ps[1..], m);
      LexTotal(p, ps[0]);
      DescendsCons(ps[0], Insert(p, ps[1..]), m);
    }
  }

  lemma {:induction false} InsertColumn(p: Vec, ps: Parts, c: nat)
    requires c < |p| && forall q | q in ps :: |q| == |p|
    ensures forall q | q in Insert(p, ps) :: |q| == |p|
    ensures Column(Insert(p, ps), c) == p[c] + Column(ps, c)
  {
    if ps == [] {
      assert [p][1..] == [];
    } else if LexLeq(ps[0], p) {
      assert ([p] + ps)[1..] == ps;
    } else {
      InsertColumn(p, ps[1..], c);
      assert Insert(p, ps)[1..] == Insert(p, ps[1..]);
    }
  }

  lemma {:induction false} SortDescends(ps: Parts, m: nat)
    requires PartsOk(ps, m)
    ensures PartsOk(SortDown(ps, m), m) && Descends(SortDown(ps, m), m)
    ensures forall c | 0 <= c < m :: Column(SortDown(ps, m), c) == Column(ps, c)
  {
    if ps != [] {
      var rest := SortDown(ps[1..], m);
      SortDescends(ps[1..], m);
      SameMembers(rest, ps[1..]);
      InsertDescends(ps[0], rest, m);
      forall c | 0 <= c < m ensures Column(SortDown(ps, m), c) == Column(ps, c) {
        InsertColumn(ps[0], rest, c);
      }
    }
  }

  lemma SameFirst(ps: Parts, qs: Parts, m: nat)
    requires PartsOk(ps, m) && Descends(ps, m) && PartsOk(qs, m) && Descends(qs, m)
    requires ps != [] && multiset(ps) == multiset(qs)
    ensures qs != [] && LexLeq(qs[0], ps[0])
  {
    hide LexLeq;
    SameMembers(ps, qs);
    var q := qs[0];
    assert q in ps;
    var j :| 0 <= j < |ps| && ps[j] == q;
    LexReflexive(q);
  }

  lemma SameTail<T>(ps: seq<T>, qs: seq<T>)
    requires ps != [] && qs != [] && ps[0] == qs[0] && multiset(ps) == multiset(qs)
    ensures multiset(ps[1..]) == multiset(qs[1..])
  {
    assert ps == [ps[0]] + ps[1..] && qs == [qs[0]] + qs[1..];
    assert multiset(ps[1..]) == multiset(ps) - multiset{ps[0]};
    assert multiset(qs[1..]) == multiset(qs) - multiset{qs[0]};
  }

  /** Two descending sequences of the same parts are the same sequence. */
  lemma {:induction false} DescendingIsUnique(ps: Parts, qs: Parts, m: nat)
    requires PartsOk(ps, m) && Descends(ps, m) && PartsOk(qs, m) && Descends(qs, m)
    requires multiset(ps) == multiset(qs)
    ensures ps == qs
  {
    hide LexLeq, Descends;
    SameMembers(ps, qs);
    if ps != [] {
      SameFirst(ps, qs, m);
      SameFirst(qs, ps, m);
      LexAntisymmetric(ps[0], qs[0]);
      SameTail(ps, qs);
      assert ps == [ps[0]] + ps[1..] && qs == [qs[0]] + qs[1..];
      DescendsCons(ps[0], ps[1..], m);
      DescendsCons(qs[0], qs[1..], m);
      DescendingIsUnique(ps[1..], qs[1..], m);
    }
  }

  /** Every way to divide the multiset is listed exactly once, up to the order of its parts. */
  lemma EveryDivisionOnce(u: Vec, ps: Parts) returns (i: nat)
    requires |u| > 0 && PartsOk(ps, |u|) && Totals(ps, u)
    ensures i < |Enumerate(u, u)| && multiset(Enumerate(u, u)[i]) == multiset(ps)
    ensures forall j | 0 <= j < |Enumerate(u, u)| && multiset(Enumerate(u, u)[j]) == multiset(ps) :: j == i
  {
    hide Enumerate, Descends, SortDown;
    var sorted := SortDown(ps, |u|);
    SortDescends(ps, |u|);
    ListsExactlyPartitions(u, sorted);
    i :| 0 <= i < |Enumerate(u, u)| && Enumerate(u, u)[i] == sorted;
    forall j | 0 <= j < |Enumerate(u, u)| && multiset(Enumerate(u, u)[j]) == multiset(ps) ensures j == i {
      ListsExactlyPartitions(u, Enumerate(u, u)[j]);
      DescendingIsUnique(Enumerate(u, u)[j], sorted, |u|);
      ListedOnce(u, i, j);
    }
  }
}
