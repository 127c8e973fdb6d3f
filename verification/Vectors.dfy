/** Vectors of multiplicities: componentwise and lexicographic order, and the two operations
    that move between the vectors lying below a given one. */
module Vectors {

  type Vec = seq<nat>

  function Sum(v: Vec): nat {
    if v == [] then 0 else v[0] + Sum(v[1..])
  }

  predicate IsZero(v: Vec) {
    forall i | 0 <= i < |v| :: v[i] == 0
  }

  /** `v` lies componentwise at or below `u`. */
  predicate Leq(v: Vec, u: Vec) {
    |v| == |u| && forall i | 0 <= i < |u| :: v[i] <= u[i]
  }

  function Sub(u: Vec, v: Vec): (w: Vec)
    requires Leq(v, u)
    ensures |w| == |u| && forall i | 0 <= i < |u| :: w[i] == u[i] - v[i]
  {
    if u == [] then [] else [u[0] - v[0]] + Sub(u[1..], v[1..])
  }

  predicate LexLeq(v: Vec, w: Vec)
    requires |v| == |w|
  {
    v == [] || v[0] < w[0] || (v[0] == w[0] && LexLeq(v[1..], w[1..]))
  }

  /** The lexicographically largest vector at or below `u` componentwise and `v` lexicographically. */
  function Fit(u: Vec, v: Vec): (w: Vec)
    requires |u| == |v|
    ensures Leq(w, u)
  {
    if u == [] then []
    else if u[0] < v[0] then u
    else [v[0]] + Fit(u[1..], v[1..])
  }

  /** The lexicographic predecessor of a nonzero `v` among the vectors below `u`. */
  function Pred(u: Vec, v: Vec): (w: Vec)
    requires Leq(v, u) && !IsZero(v)
    ensures Leq(w, u)
  {
    if IsZero(v[1..]) then [v[0] - 1] + u[1..]
    else [v[0]] + Pred(u[1..], v[1..])
  }

  /** How many vectors lie below `u`. */
  function Size(u: Vec): (n: nat)
    ensures n >= 1
  {
    if u == [] then 1 else (u[0] + 1) * Size(u[1..])
  }

  /** The position of `v` in the lexicographic order of the vectors below `u`. */
  function Rank(u: Vec, v: Vec): nat
    requires Leq(v, u)
  {
    if u == [] then 0 else v[0] * Size(u[1..]) + Rank(u[1..], v[1..])
  }

  lemma {:induction false} RankOfZero(u: Vec, v: Vec)
    requires Leq(v, u) && IsZero(v)
    ensures Rank(u, v) == 0
  {
    if u != [] {
      RankOfZero(u[1..], v[1..]);
    }
  }

  lemma {:induction false} RankOfTop(u: Vec)
    ensures Rank(u, u) == Size(u) - 1
  {
    if u != [] {
      RankOfTop(u[1..]);
    }
  }

  /** `Pred` steps down by exactly one position. */
  lemma {:induction false} PredRank(u: Vec, v: Vec)
    requires Leq(v, u) && !IsZero(v)
    ensures Rank(u, Pred(u, v)) == Rank(u, v) - 1
  {
    if IsZero(v[1..]) {
      RankOfZero(u[1..], v[1..]);
      RankOfTop(u[1..]);
      assert Pred(u, v)[1..] == u[1..];
      assert (v[0] - 1) * Size(u[1..]) == v[0] * Size(u[1..]) - Size(u[1..]);
    } else {
      PredRank(u[1..], v[1..]);
      assert Pred(u, v)[1..] == Pred(u[1..], v[1..]);
    }
  }

  lemma {:induction false} SumSub(u: Vec, v: Vec)
    requires Leq(v, u)
    ensures Sum(Sub(u, v)) == Sum(u) - Sum(v)
  {
    if u != [] {
      SumSub(u[1..], v[1..]);
    }
  }

  lemma {:induction false} SumZero(v: Vec)
    ensures Sum(v) == 0 <==> IsZero(v)
  {
    if v != [] {
      SumZero(v[1..]);
      ZeroSplit(v);
    }
  }

  lemma ZeroSplit(v: Vec)
    requires v != []
    ensures IsZero(v) <==> v[0] == 0 && IsZero(v[1..])
  {
    assert forall i | 0 < i < |v| :: v[i] == v[1..][i - 1];
    assert forall i | 0 <= i < |v[1..]| :: v[1..][i] == v[i + 1];
  }

  // ----- the lexicographic order is total -----

  lemma {:induction false} LexReflexive(v: Vec)
    ensures LexLeq(v, v)
  {
    if v != [] {
      LexReflexive(v[1..]);
    }
  }

  lemma {:induction false} LexTransitive(u: Vec, v: Vec, w: Vec)
    requires |u| == |v| == |w| && LexLeq(u, v) && LexLeq(v, w)
    ensures LexLeq(u, w)
  {
    if u != [] && u[0] == v[0] == w[0] {
      LexTransitive(u[1..], v[1..], w[1..]);
    }
  }

  lemma {:induction false} LexAntisymmetric(v: Vec, w: Vec)
    requires |v| == |w| && LexLeq(v, w) && LexLeq(w, v)
    ensures v == w
  {
    if v != [] {
      LexAntisymmetric(v[1..], w[1..]);
      assert v == [v[0]] + v[1..] && w == [w[0]] + w[1..];
    }
  }

  lemma {:induction false} LexTotal(v: Vec, w: Vec)
    requires |v| == |w|
    ensures LexLeq(v, w) || LexLeq(w, v)
  {
    if v != [] {
      LexTotal(v[1..], w[1..]);
    }
  }

  lemma {:induction false} LeqIsLexLeq(v: Vec, u: Vec)
    requires Leq(v, u)
    ensures LexLeq(v, u)
  {
    if u != [] {
      LeqIsLexLeq(v[1..], u[1..]);
    }
  }

  // ----- Fit and Pred are the largest candidates -----

  lemma {:induction false} FitBelow(u: Vec, v: Vec)
    requires |u| == |v|
    ensures LexLeq(Fit(u, v), v)
  {
    if u != [] && u[0] >= v[0] {
      FitBelow(u[1..], v[1..]);
    }
  }

  lemma {:induction false} FitLargest(u: Vec, v: Vec, w: Vec)
    requires |v| == |u| && Leq(w, u) && LexLeq(w, v)
    ensures LexLeq(w, Fit(u, v))
  {
    if u != [] {
      if u[0] < v[0] {
        LeqIsLexLeq(w, u);
      } else if w[0] == v[0] {
        FitLargest(u[1..], v[1..], w[1..]);
      }
    }
  }

  lemma {:induction false} PredBelow(u: Vec, v: Vec)
    requires Leq(v, u) && !IsZero(v)
    ensures LexLeq(Pred(u, v), v) && Pred(u, v) != v
  {
    if !IsZero(v[1..]) {
      PredBelow(u[1..], v[1..]);
      assert Pred(u, v)[1..] == Pred(u[1..], v[1..]);
    }
  }

  lemma {:induction false} ZeroIsLeast(v: Vec, w: Vec)
    requires |v| == |w| && IsZero(v) && LexLeq(w, v)
    ensures w == v
  {
    if v != [] {
      ZeroIsLeast(v[1..], w[1..]);
      assert v == [v[0]] + v[1..] && w == [w[0]] + w[1..];
    }
  }

  lemma {:induction false} PredLargest(u: Vec, v: Vec, w: Vec)
    requires Leq(v, u) && Leq(w, u) && LexLeq(w, v) && w != v
    ensures !IsZero(v) && LexLeq(w, Pred(u, v))
  {
    if IsZero(v) {
      ZeroIsLeast(v, w);
    }
    assert v == [v[0]] + v[1..] && w == [w[0]] + w[1..];
    if IsZero(v[1..]) {
      LeqIsLexLeq(w[1..], u[1..]);
      if w[0] == v[0] {
        ZeroIsLeast(v[1..], w[1..]);
      }
    } else if w[0] == v[0] {
      PredLargest(u[1..], v[1..], w[1..]);
    }
  }
}
