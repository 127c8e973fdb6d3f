/** The layout of one frame of Algorithm M: only the components still to be distributed,
    each with how much is left and how much the current part takes. */
module Packing {
  import opened Vectors
  import opened MultisetSpec

  datatype Stack = Stack(c: nat, u: nat, v: nat)

  const EMPTY := Stack(0, 0, 0)

  /** The frame for remainder `u` and part `v`; `k` counts the components already passed. */
  function Pack(u: Vec, v: Vec, k: nat): seq<Stack>
    requires |u| == |v|
  {
    if u == [] then []
    else (if u[0] > 0 then [Stack(k + 1, u[0], v[0])] else []) + Pack(u[1..], v[1..], k + 1)
  }

  lemma {:induction false} PackLength(u: Vec, v: Vec, k: nat)
    requires |u| == |v|
    ensures |Pack(u, v, k)| <= |u|
    ensures Pack(u, v, k) == [] <==> IsZero(u)
  {
    if u != [] {
      PackLength(u[1..], v[1..], k + 1);
      assert forall i | 0 < i < |u| :: u[i] == u[1..][i - 1];
      assert forall i | 0 <= i < |u[1..]| :: u[1..][i] == u[i + 1];
    }
  }

  lemma {:induction false} PackEntries(u: Vec, v: Vec, k: nat, i: nat)
    requires Leq(v, u) && i < |Pack(u, v, k)|
    ensures var t := Pack(u, v, k)[i]; k < t.c <= k + |u| && t.u > 0 && t.v <= t.u
  {
    if u[0] == 0 {
      PackEntries(u[1..], v[1..], k + 1, i);
    } else if i > 0 {
      PackEntries(u[1..], v[1..], k + 1, i - 1);
    }
  }

  // ----- subtracting a part (step M2) -----

  /** What one component leaves. `x` says that the new part is already below the old one, so
      that the component is free. */
  function Reduced(t: Stack, x: bool): seq<Stack>
    requires t.v <= t.u
  {
    var d := t.u - t.v;
    if d == 0 then []
    else if x || d < t.v then [Stack(t.c, d, d)]
    else [Stack(t.c, d, t.v)]
  }

  predicate FreeAfter(t: Stack, x: bool)
    requires t.v <= t.u
  {
    x || t.u - t.v == 0 || t.u - t.v < t.v
  }

  /** No component takes more than is left of it. */
  predicate Bounded(frame: seq<Stack>) {
    forall i | 0 <= i < |frame| :: frame[i].v <= frame[i].u
  }

  predicate Labelled(frame: seq<Stack>, m: nat) {
    forall i | 0 <= i < |frame| :: 1 <= frame[i].c <= m
  }

  /** The frame after `frame` once its part is taken out. */
  function Subtracted(frame: seq<Stack>, x: bool): seq<Stack>
    requires Bounded(frame)
  {
    if frame == [] then []
    else Reduced(frame[0], x) + Subtracted(frame[1..], FreeAfter(frame[0], x))
  }

  lemma PackCons(u: Vec, v: Vec, k: nat)
    requires |u| == |v| && u != []
    ensures u[0] > 0 ==>
              && Pack(u, v, k) == [Stack(k + 1, u[0], v[0])] + Pack(u[1..], v[1..], k + 1)
              && Pack(u, v, k)[0] == Stack(k + 1, u[0], v[0])
              && Pack(u, v, k)[1..] == Pack(u[1..], v[1..], k + 1)
    ensures u[0] == 0 ==> Pack(u, v, k) == Pack(u[1..], v[1..], k + 1)
  {
  }

  lemma {:induction false} SubtractedFree(u: Vec, v: Vec, k: nat)
    requires Leq(v, u)
    requires Bounded(Pack(u, v, k))
    ensures Subtracted(Pack(u, v, k), true) == Pack(Sub(u, v), Sub(u, v), k)
  {
    if u != [] {
      var w := Sub(u, v);
      PackSound(u[1..], v[1..], k + 1);
      SubtractedFree(u[1..], v[1..], k + 1);
      assert w[1..] == Sub(u[1..], v[1..]);
      PackCons(u, v, k);
      PackCons(w, w, k);
    }
  }

  lemma PackSound(u: Vec, v: Vec, k: nat)
    requires Leq(v, u)
    ensures Bounded(Pack(u, v, k)) && Labelled(Pack(u, v, k), k + |u|)
  {
    forall i | 0 <= i < |Pack(u, v, k)|
      ensures var t := Pack(u, v, k)[i]; t.v <= t.u && t.u > 0 && k < t.c <= k + |u|
    {
      PackEntries(u, v, k, i);
    }
  }

  /** Step M2 lays out the frame of the largest part that can follow. */
  lemma {:induction false} SubtractedFits(u: Vec, v: Vec, k: nat)
    requires Leq(v, u)
    requires Bounded(Pack(u, v, k))
    ensures Subtracted(Pack(u, v, k), false) == Pack(Sub(u, v), Fit(Sub(u, v), v), k)
  {
    if u != [] {
      var w := Sub(u, v);
      PackSound(u[1..], v[1..], k + 1);
      SubtractedFree(u[1..], v[1..], k + 1);
      SubtractedFits(u[1..], v[1..], k + 1);
      assert w[1..] == Sub(u[1..], v[1..]);
      PackCons(u, v, k);
      PackCons(w, Fit(w, v), k);
      assert Fit(w, v)[1..] == if w[0] < v[0] then w[1..] else Fit(w[1..], v[1..]);
    }
  }

  // ----- lowering a part (step M5) -----

  /** Resets every component to all that is left of it. */
  function Refilled(frame: seq<Stack>): (r: seq<Stack>)
    ensures |r| == |frame| && forall i | 0 <= i < |frame| :: r[i] == frame[i].(v := frame[i].u)
  {
    if frame == [] then [] else [frame[0].(v := frame[0].u)] + Refilled(frame[1..])
  }

  predicate TakesNothing(frame: seq<Stack>) {
    frame == [] || (frame[0].v == 0 && TakesNothing(frame[1..]))
  }

  /** Takes one less of the last component taken and refills the components after it. */
  function Lowered(frame: seq<Stack>): seq<Stack>
    requires !TakesNothing(frame)
  {
    if TakesNothing(frame[1..]) then [frame[0].(v := frame[0].v - 1)] + Refilled(frame[1..])
    else [frame[0]] + Lowered(frame[1..])
  }

  /** `j` is the last component the part takes something from. */
  predicate IsLastTaken(frame: seq<Stack>, j: nat) {
    j < |frame| && frame[j].v > 0 && forall i | j < i < |frame| :: frame[i].v == 0
  }

  lemma {:induction false} NoneTaken(frame: seq<Stack>)
    requires forall i | 0 <= i < |frame| :: frame[i].v == 0
    ensures TakesNothing(frame)
  {
    if frame != [] {
      NoneTaken(frame[1..]);
    }
  }

  /** Lowering at the last component taken, found by scanning from the right. */
  lemma {:induction false} LoweredAt(frame: seq<Stack>, j: nat)
    requires IsLastTaken(frame, j)
    ensures !TakesNothing(frame)
    ensures Lowered(frame) == frame[..j] + [frame[j].(v := frame[j].v - 1)] + Refilled(frame[j + 1..])
    ensures TakesNothing(frame[1..]) <==> j == 0
  {
    hide Refilled;
    var rest := frame[1..];
    assert forall i | 0 <= i < |rest| :: rest[i] == frame[i + 1];
    if j == 0 {
      NoneTaken(rest);
    } else {
      LoweredAt(rest, j - 1);
      assert rest[j..] == frame[j + 1..];
      assert frame[..j] == [frame[0]] + rest[..j - 1];
    }
  }

  lemma LoweredByElement(frame: seq<Stack>, j: nat, r: seq<Stack>)
    requires IsLastTaken(frame, j) && |r| == |frame|
    requires forall i | 0 <= i < |frame| ::
        r[i] == if i < j then frame[i] else if i == j then frame[i].(v := frame[i].v - 1)
                else frame[i].(v := frame[i].u)
    ensures !TakesNothing(frame) && r == Lowered(frame)
  {
    LoweredAt(frame, j);
  }

  lemma {:induction false} RefilledPack(u: Vec, v: Vec, k: nat)
    requires |u| == |v|
    ensures Refilled(Pack(u, v, k)) == Pack(u, u, k)
  {
    if u != [] {
      RefilledPack(u[1..], v[1..], k + 1);
      PackCons(u, v, k);
    }
  }

  lemma {:induction false} NothingTaken(u: Vec, v: Vec, k: nat)
    requires Leq(v, u)
    ensures IsZero(v) <==> TakesNothing(Pack(u, v, k))
  {
    if u != [] {
      NothingTaken(u[1..], v[1..], k + 1);
      ZeroSplit(v);
      PackCons(u, v, k);
    }
  }

  /** Step M5 lays out the frame of the lexicographic predecessor. */
  lemma {:induction false} LoweredIsPred(u: Vec, v: Vec, k: nat)
    requires Leq(v, u) && !IsZero(v)
    requires !TakesNothing(Pack(u, v, k))
    ensures Lowered(Pack(u, v, k)) == Pack(u, Pred(u, v), k)
  {
    var p := Pred(u, v);
    PackCons(u, v, k);
    PackCons(u, p, k);
    NothingTaken(u[1..], v[1..], k + 1);
    ZeroSplit(v);
    if IsZero(v[1..]) {
      RefilledPack(u[1..], v[1..], k + 1);
      assert p[1..] == u[1..];
    } else {
      LoweredIsPred(u[1..], v[1..], k + 1);
      assert p[1..] == Pred(u[1..], v[1..]);
    }
  }

  // ----- the first component -----

  lemma {:induction false} FirstTaken(u: Vec, v: Vec, k: nat)
    requires Leq(v, u) && TakesFirst(u, v)
    ensures Pack(u, v, k) != [] && Pack(u, v, k)[0].v > 0
  {
    PackCons(u, v, k);
    if u[0] == 0 {
      FirstTaken(u[1..], v[1..], k + 1);
    }
  }

  /** Lowering a part keeps taking from the first component, unless the part is a single unit of it. */
  lemma {:induction false} LoweringTakesFirst(u: Vec, v: Vec, k: nat)
    requires Leq(v, u) && TakesFirst(u, v) && !IsZero(v)
    ensures Pack(u, v, k) != []
    ensures !TakesFirst(u, Pred(u, v))
       <==> Pack(u, v, k)[0].v == 1 && TakesNothing(Pack(u, v, k)[1..])
  {
    PackCons(u, v, k);
    NothingTaken(u[1..], v[1..], k + 1);
    ZeroSplit(v);
    if u[0] == 0 {
      LoweringTakesFirst(u[1..], v[1..], k + 1);
      assert Pred(u, v)[1..] == Pred(u[1..], v[1..]);
    }
  }

  /** The part that follows a part taking from the first component does so too. */
  lemma {:induction false} FitTakesFirst(u: Vec, v: Vec)
    requires Leq(v, u) && TakesFirst(u, v) && !IsZero(Sub(u, v))
    ensures TakesFirst(Sub(u, v), Fit(Sub(u, v), v))
  {
    var w := Sub(u, v);
    assert w[1..] == Sub(u[1..], v[1..]);
    if u[0] == 0 {
      ZeroSplit(w);
      FitTakesFirst(u[1..], v[1..]);
      assert Fit(w, v)[1..] == Fit(w[1..], v[1..]);
    } else if w[0] < v[0] {
      OwnFirst(w);
    }
  }

  lemma {:induction false} OwnFirst(w: Vec)
    requires !IsZero(w)
    ensures TakesFirst(w, w)
  {
    ZeroSplit(w);
    if w[0] == 0 {
      OwnFirst(w[1..]);
    }
  }

  // ----- spelling out a part (step M4) -----

  function Repeat(key: string, n: nat): seq<string> {
    if n == 0 then [] else Repeat(key, n - 1) + [key]
  }

  /** The keys of a part, each as often as the part takes it. */
  function Spell(v: Vec, keys: seq<string>): seq<string>
    requires |v| == |keys|
  {
    if v == [] then [] else Repeat(keys[0], v[0]) + Spell(v[1..], keys[1..])
  }

  function SpellFrame(frame: seq<Stack>, keys: seq<string>): seq<string>
    requires Labelled(frame, |keys|)
  {
    if frame == [] then []
    else Repeat(keys[frame[0].c - 1], frame[0].v) + SpellFrame(frame[1..], keys)
  }

  /** A frame spells its part. */
  lemma {:induction false} SpellPack(u: Vec, v: Vec, keys: seq<string>, k: nat)
    requires Leq(v, u) && k + |u| == |keys|
    requires Labelled(Pack(u, v, k), |keys|)
    ensures SpellFrame(Pack(u, v, k), keys) == Spell(v, keys[k..])
  {
    if u != [] {
      assert Repeat(keys[k], 0) == [];
      hide Repeat;
      PackCons(u, v, k);
      PackSound(u[1..], v[1..], k + 1);
      SpellPack(u[1..], v[1..], keys, k + 1);
      assert keys[k..][1..] == keys[k + 1..];
    }
  }

  /** `parts` spells out the parts of `ps`. */
  predicate Spelled(parts: seq<seq<string>>, ps: Parts, keys: seq<string>) {
    |parts| == |ps| && forall i | 0 <= i < |ps| :: |ps[i]| == |keys| && parts[i] == Spell(ps[i], keys)
  }
}
