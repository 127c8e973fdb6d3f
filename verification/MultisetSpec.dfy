/** What it means to partition a multiset, and the list of all its partitions in strictly
    decreasing lexicographic order. A multiset is given by the vector of its multiplicities,
    a partition by the sequence of its parts. */
module MultisetSpec {
  import opened Vectors

  type Parts = seq<Vec>

  /** The parts of `ps` are nonzero, add up to `u`, and descend lexicographically from `bound`. */
  predicate IsPartitionBelow(u: Vec, bound: Vec, ps: Parts)
    requires |u| == |bound|
    decreases |ps|
  {
    if ps == [] then IsZero(u)
    else
      && Leq(ps[0], u) && !IsZero(ps[0]) && LexLeq(ps[0], bound)
      && IsPartitionBelow(Sub(u, ps[0]), ps[0], ps[1..])
  }

  predicate Above(p: Vec, q: Vec) {
    |p| == |q| && LexLeq(q, p) && p != q
  }

  /** `ps` comes before `qs` in a lexicographically decreasing listing of partitions. */
  predicate Precedes(ps: Parts, qs: Parts) {
    ps != [] && qs != [] && (Above(ps[0], qs[0]) || (ps[0] == qs[0] && Precedes(ps[1..], qs[1..])))
  }

  function Extend(prefix: Parts, lists: seq<Parts>): (r: seq<Parts>)
    ensures |r| == |lists| && forall i | 0 <= i < |lists| :: r[i] == prefix + lists[i]
  {
    seq(|lists|, i requires 0 <= i < |lists| => prefix + lists[i])
  }

  /** All partitions of `u` into parts at or below `v`, where `v` itself fits into `u`:
      first those starting with `v`, then those starting lower. */
  function Enumerate(u: Vec, v: Vec): seq<Parts>
    requires Leq(v, u)
    decreases Sum(u), Rank(u, v)
  {
    if IsZero(u) then [[]]
    else if IsZero(v) then []
    else
      SumSub(u, v); SumZero(v); PredRank(u, v);
      Extend([v], EnumerateAfter(u, v)) + Enumerate(u, Pred(u, v))
  }

  /** The ways to go on after taking `v` out of `u`. */
  function EnumerateAfter(u: Vec, v: Vec): seq<Parts>
    requires Leq(v, u) && !IsZero(v)
    decreases Sum(u), Rank(u, v), 0
  {
    SumSub(u, v); SumZero(v);
    Enumerate(Sub(u, v), Fit(Sub(u, v), v))
  }

  // ----- soundness -----

  lemma LowerBound(u: Vec, b: Vec, b': Vec, ps: Parts)
    requires |u| == |b| == |b'| && LexLeq(b, b') && IsPartitionBelow(u, b, ps)
    ensures IsPartitionBelow(u, b', ps)
  {
    if ps != [] {
      LexTransitive(ps[0], b, b');
    }
  }

  lemma StartWith(u: Vec, v: Vec, ps: Parts)
    requires Leq(v, u) && !IsZero(v) && IsPartitionBelow(Sub(u, v), v, ps)
    ensures IsPartitionBelow(u, v, [v] + ps)
  {
    LexReflexive(v);
    assert ([v] + ps)[1..] == ps;
  }

  lemma NothingLeft(u: Vec, v: Vec)
    requires |u| == |v| && IsZero(u)
    ensures IsPartitionBelow(u, v, [])
  {
  }

  /** Everything listed is a partition into parts at or below the bound. */
  lemma {:induction false} EnumerateSound(u: Vec, v: Vec, i: nat)
    requires Leq(v, u) && i < |Enumerate(u, v)|
    ensures IsPartitionBelow(u, v, Enumerate(u, v)[i])
    decreases Sum(u), Rank(u, v)
  {
    hide Rank, Sum, Pred, Fit, LexLeq, Sub, IsPartitionBelow;
    if IsZero(u) {
      NothingLeft(u, v);
    } else {
      SumSub(u, v); SumZero(v); PredRank(u, v);
      var after := EnumerateAfter(u, v);
      if i < |after| {
        var rest := Sub(u, v);
        EnumerateSound(rest, Fit(rest, v), i);
        FitBelow(rest, v);
        LowerBound(rest, Fit(rest, v), v, after[i]);
        StartWith(u, v, after[i]);
      } else {
        EnumerateSound(u, Pred(u, v), i - |after|);
        PredBelow(u, v);
        LowerBound(u, Pred(u, v), v, Enumerate(u, v)[i]);
      }
    }
  }

  // ----- completeness -----

  /** Every partition into parts at or below the bound is listed. */
  lemma {:induction false} EnumerateComplete(u: Vec, v: Vec, ps: Parts)
    requires Leq(v, u) && IsPartitionBelow(u, v, ps)
    ensures ps in Enumerate(u, v)
    decreases Sum(u), Rank(u, v)
  {
    hide Rank, Sum, Pred, Fit, LexLeq, Sub;
    if ps == [] {
      assert Enumerate(u, v)[0] == ps;
    } else {
      var p := ps[0];
      NonzeroBelow(u, p);
      if p == v {
        SumSub(u, v); SumZero(v);
        var rest := Sub(u, v);
        FitsRest(rest, v, ps[1..]);
        EnumerateComplete(rest, Fit(rest, v), ps[1..]);
        var after := EnumerateAfter(u, v);
        var i :| 0 <= i < |after| && after[i] == ps[1..];
        assert Enumerate(u, v)[i] == [v] + after[i] == ps;
      } else {
        PredLargest(u, v, p);
        PredRank(u, v);
        EnumerateComplete(u, Pred(u, v), ps);
      }
    }
  }

  lemma NonzeroBelow(u: Vec, p: Vec)
    requires Leq(p, u) && !IsZero(p)
    ensures !IsZero(u)
  {
    var i :| 0 <= i < |p| && p[i] != 0;
    assert u[i] != 0;
  }

  lemma FitsRest(u: Vec, v: Vec, ps: Parts)
    requires |u| == |v| && IsPartitionBelow(u, v, ps)
    ensures IsPartitionBelow(u, Fit(u, v), ps)
  {
    if ps != [] {
      FitLargest(u, v, ps[0]);
    }
  }

  // ----- order -----

  lemma StartsBelow(u: Vec, v: Vec, i: nat)
    requires Leq(v, u) && !IsZero(u) && i < |Enumerate(u, v)|
    ensures Enumerate(u, v)[i] != [] && |Enumerate(u, v)[i][0]| == |v| && LexLeq(Enumerate(u, v)[i][0], v)
  {
    EnumerateSound(u, v, i);
  }

  lemma AboveIsStrict(p: Vec, q: Vec, r: Vec)
    requires |p| == |q| == |r| && LexLeq(p, q) && LexLeq(q, r) && q != r
    ensures Above(r, p)
  {
    LexTransitive(p, q, r);
    if p == r {
      LexAntisymmetric(q, r);
    }
  }

  /** The listing is strictly decreasing, so nothing is listed twice. */
  lemma {:induction false} EnumerateOrdered(u: Vec, v: Vec, i: nat, j: nat)
    requires Leq(v, u) && i < j < |Enumerate(u, v)|
    ensures Precedes(Enumerate(u, v)[i], Enumerate(u, v)[j])
    decreases Sum(u), Rank(u, v)
  {
    hide Rank, Sum, Pred, Fit, LexLeq, Sub, IsPartitionBelow;
    SumSub(u, v); SumZero(v); PredRank(u, v);
    var after := EnumerateAfter(u, v);
    var n := |after|;
    if j < n {
      EnumerateOrdered(Sub(u, v), Fit(Sub(u, v), v), i, j);
      assert ([v] + after[i])[1..] == after[i] && ([v] + after[j])[1..] == after[j];
    } else if i >= n {
      EnumerateOrdered(u, Pred(u, v), i - n, j - n);
    } else {
      StartsBelow(u, Pred(u, v), j - n);
      PredBelow(u, v);
      AboveIsStrict(Enumerate(u, v)[j][0], Pred(u, v), v);
    }
  }

  lemma {:induction false} PrecedesIsStrict(ps: Parts)
    ensures !Precedes(ps, ps)
    decreases |ps|
  {
    if ps != [] {
      PrecedesIsStrict(ps[1..]);
    }
  }

  // ----- dead ends -----

  /** `v` takes something from the first component of `u` that is not empty. */
  predicate TakesFirst(u: Vec, v: Vec)
    requires |u| == |v|
  {
    u != [] && if u[0] > 0 then v[0] > 0 else TakesFirst(u[1..], v[1..])
  }

  lemma {:induction false} TakesFirstNonzero(u: Vec, v: Vec)
    requires Leq(v, u) && TakesFirst(u, v)
    ensures !IsZero(v)
  {
    ZeroSplit(v);
    if u[0] == 0 {
      TakesFirstNonzero(u[1..], v[1..]);
    }
  }

  lemma {:induction false} MissesFirstBelow(u: Vec, v: Vec, w: Vec)
    requires Leq(v, u) && Leq(w, u) && LexLeq(w, v) && !TakesFirst(u, v)
    ensures !TakesFirst(u, w)
  {
    if u != [] && u[0] == 0 {
      MissesFirstBelow(u[1..], v[1..], w[1..]);
    }
  }

  /** Taking nothing from the first component leaves it first, and what is left as large there. */
  lemma {:induction false} MissesFirstAfter(u: Vec, v: Vec, w: Vec)
    requires Leq(v, u) && !TakesFirst(u, v)
    requires Leq(w, Sub(u, v)) && LexLeq(w, v)
    ensures !TakesFirst(Sub(u, v), w)
  {
    if u != [] && u[0] == 0 {
      assert Sub(u, v)[1..] == Sub(u[1..], v[1..]);
      MissesFirstAfter(u[1..], v[1..], w[1..]);
    }
  }

  lemma {:induction false} MissesFirstRest(u: Vec, v: Vec)
    requires Leq(v, u) && !IsZero(u) && !TakesFirst(u, v)
    ensures !IsZero(Sub(u, v))
  {
    ZeroSplit(u);
    ZeroSplit(Sub(u, v));
    assert Sub(u, v)[1..] == Sub(u[1..], v[1..]);
    if u[0] == 0 {
      MissesFirstRest(u[1..], v[1..]);
    }
  }

  /** No partition starts with a part that takes nothing from the first component. */
  lemma {:induction false} DeadEnd(u: Vec, v: Vec)
    requires Leq(v, u) && !IsZero(u) && !TakesFirst(u, v)
    ensures Enumerate(u, v) == []
    decreases Sum(u), Rank(u, v)
  {
    if !IsZero(v) {
      SumSub(u, v); SumZero(v); PredRank(u, v);
      var rest := Sub(u, v);
      MissesFirstRest(u, v);
      FitBelow(rest, v);
      MissesFirstAfter(u, v, Fit(rest, v));
      DeadEnd(rest, Fit(rest, v));
      PredBelow(u, v);
      MissesFirstBelow(u, v, Pred(u, v));
      DeadEnd(u, Pred(u, v));
    }
  }
}
