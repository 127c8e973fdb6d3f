/** Algorithm M of section 7.2.1.5 of The Art of Computer Programming, over one packed array
    of frames, proved to visit exactly the partitions `Enumerate` lists, in that order. */
module AlgorithmM {
  import opened Vectors
  import opened MultisetSpec
  import opened Packing

  // ----- the abstract frames -----

  /** What one frame stands for: the remainder `u` and the part `v` taken from it. */
  datatype Frame = Frame(u: Vec, v: Vec)

  /** The frames start from `total`, each continuing with what the one before leaves. */
  predicate IsPath(total: Vec, fs: seq<Frame>) {
    && |fs| > 0
    && fs[0].u == total
    && (forall i | 0 <= i < |fs| :: Leq(fs[i].v, fs[i].u) && !IsZero(fs[i].v) && TakesFirst(fs[i].u, fs[i].v))
    && (forall i | 0 <= i < |fs| - 1 :: fs[i + 1].u == Sub(fs[i].u, fs[i].v))
  }

  predicate FramesOk(fs: seq<Frame>) {
    forall i | 0 <= i < |fs| :: Leq(fs[i].v, fs[i].u) && !IsZero(fs[i].v)
  }

  /** The parts chosen so far. */
  function Chosen(fs: seq<Frame>): (ps: Parts)
    ensures |ps| == |fs| && forall i | 0 <= i < |fs| :: ps[i] == fs[i].v
  {
    seq(|fs|, i requires 0 <= i < |fs| => fs[i].v)
  }

  /** What is still to be visited after everything that extends the chosen parts. */
  function Todo(fs: seq<Frame>): seq<Parts>
    requires FramesOk(fs)
  {
    if fs == [] then []
    else
      var l := |fs| - 1;
      Extend(Chosen(fs[..l]), Enumerate(fs[l].u, Pred(fs[l].u, fs[l].v))) + Todo(fs[..l])
  }

  /** Everything still to be visited when the last frame has just been laid out. */
  function Ahead(fs: seq<Frame>): seq<Parts>
    requires FramesOk(fs) && fs != []
  {
    var l := |fs| - 1;
    Extend(Chosen(fs), EnumerateAfter(fs[l].u, fs[l].v)) + Todo(fs)
  }

  lemma ExtendJoin(prefix: Parts, a: seq<Parts>, b: seq<Parts>)
    ensures Extend(prefix, a + b) == Extend(prefix, a) + Extend(prefix, b)
  {
  }

  lemma ExtendTwice(p: Parts, q: Parts, a: seq<Parts>)
    ensures Extend(p, Extend(q, a)) == Extend(p + q, a)
  {
    assert forall i | 0 <= i < |a| :: p + (q + a[i]) == (p + q) + a[i];
  }

  lemma ChosenSnoc(fs: seq<Frame>, f: Frame)
    ensures Chosen(fs + [f]) == Chosen(fs) + [f.v]
  {
  }

  lemma TodoSnoc(fs: seq<Frame>, u: Vec, v: Vec)
    requires FramesOk(fs) && Leq(v, u) && !IsZero(v)
    ensures FramesOk(fs + [Frame(u, v)])
    ensures Todo(fs + [Frame(u, v)]) == Extend(Chosen(fs), Enumerate(u, Pred(u, v))) + Todo(fs)
  {
    hide Enumerate, Extend, Chosen, Pred, IsZero, Leq;
    assert (fs + [Frame(u, v)])[..|fs|] == fs;
  }

  lemma Regroup<T>(a: seq<T>, b: seq<T>, c: seq<T>)
    ensures a + (b + c) == (a + b) + c
  {
  }

  /** Replacing the last frame by one that takes `v`: what lies ahead is what starts with `v` or lower. */
  lemma AheadOf(fs: seq<Frame>, u: Vec, v: Vec)
    requires FramesOk(fs) && Leq(v, u) && !IsZero(v) && !IsZero(u)
    ensures FramesOk(fs + [Frame(u, v)])
    ensures Ahead(fs + [Frame(u, v)]) == Extend(Chosen(fs), Enumerate(u, v)) + Todo(fs)
  {
    hide Enumerate, EnumerateAfter, Extend, Chosen, Todo, Pred, IsZero, Leq;
    TodoSnoc(fs, u, v);
    ChosenSnoc(fs, Frame(u, v));
    EnumerateUnfolds(u, v);
    var after, lower := EnumerateAfter(u, v), Enumerate(u, Pred(u, v));
    ExtendTwice(Chosen(fs), [v], after);
    ExtendJoin(Chosen(fs), Extend([v], after), lower);
    Regroup(Extend(Chosen(fs) + [v], after), Extend(Chosen(fs), lower), Todo(fs));
  }

  lemma EnumerateUnfolds(u: Vec, v: Vec)
    requires Leq(v, u) && !IsZero(v) && !IsZero(u)
    ensures Enumerate(u, v) == Extend([v], EnumerateAfter(u, v)) + Enumerate(u, Pred(u, v))
  {
  }

  /** Step M3 lays out the next frame without changing what lies ahead. */
  lemma PushKeepsAhead(fs: seq<Frame>)
    requires FramesOk(fs) && fs != []
    requires var f := fs[|fs| - 1]; !IsZero(Sub(f.u, f.v)) && !IsZero(Fit(Sub(f.u, f.v), f.v))
    ensures var f := fs[|fs| - 1]; var w := Sub(f.u, f.v);
            FramesOk(fs + [Frame(w, Fit(w, f.v))]) && Ahead(fs + [Frame(w, Fit(w, f.v))]) == Ahead(fs)
  {
    hide Enumerate, Extend, Todo;
    var f := fs[|fs| - 1];
    var w := Sub(f.u, f.v);
    AheadOf(fs, w, Fit(w, f.v));
  }

  lemma NothingAfter(u: Vec, v: Vec)
    requires Leq(v, u) && !IsZero(v) && IsZero(Sub(u, v))
    ensures EnumerateAfter(u, v) == [[]]
  {
    hide Sub, Fit, Pred;
  }

  /** At a visit the chosen parts are the next partition. */
  lemma VisitIsNext(fs: seq<Frame>)
    requires FramesOk(fs) && fs != []
    requires var f := fs[|fs| - 1]; IsZero(Sub(f.u, f.v))
    ensures Ahead(fs) == [Chosen(fs)] + Todo(fs)
  {
    hide Todo, EnumerateAfter, Enumerate, IsZero, Leq, Sub, Chosen;
    var f := fs[|fs| - 1];
    NothingAfter(f.u, f.v);
    assert Chosen(fs) + [] == Chosen(fs);
    assert Extend(Chosen(fs), [[]]) == [Chosen(fs)];
  }

  /** Step M6 drops a frame below which nothing is left. */
  lemma BacktrackKeepsTodo(fs: seq<Frame>)
    requires FramesOk(fs) && fs != []
    requires var f := fs[|fs| - 1]; !IsZero(f.u) && !TakesFirst(f.u, Pred(f.u, f.v))
    ensures Todo(fs) == Todo(fs[..|fs| - 1])
  {
    hide Enumerate;
    var f := fs[|fs| - 1];
    DeadEnd(f.u, Pred(f.u, f.v));
  }

  /** Step M5 lowers the last part: what is left to do is what lies ahead of the lowered frame. */
  lemma LowerKeepsTodo(fs: seq<Frame>)
    requires FramesOk(fs) && fs != []
    requires var f := fs[|fs| - 1]; !IsZero(f.u) && !IsZero(Pred(f.u, f.v))
    ensures var f := fs[|fs| - 1]; var gs := fs[..|fs| - 1] + [Frame(f.u, Pred(f.u, f.v))];
            FramesOk(gs) && Ahead(gs) == Todo(fs)
  {
    hide Enumerate, Extend;
    var f := fs[|fs| - 1];
    AheadOf(fs[..|fs| - 1], f.u, Pred(f.u, f.v));
  }

  // ----- the packed array -----

  /** The array holds the frames one after another; `f` marks where each starts. */
  ghost predicate Laid(stacks: seq<Stack>, f: seq<nat>, fs: seq<Frame>) {
    && |fs| < |f|
    && f[0] == 0
    && (forall i | 0 <= i < |fs| :: FrameLaid(stacks, f[i], f[i + 1], fs[i]))
  }

  ghost predicate FrameLaid(stacks: seq<Stack>, a: nat, b: nat, f: Frame) {
    |f.u| == |f.v| && a <= b <= |stacks| && stacks[a..b] == Pack(f.u, f.v, 0)
  }

  lemma {:induction false} FramesStayLow(stacks: seq<Stack>, f: seq<nat>, fs: seq<Frame>, m: nat, i: nat)
    requires Laid(stacks, f, fs) && i <= |fs|
    requires forall k | 0 <= k < |fs| :: |fs[k].u| == m
    ensures f[i] <= m * i
  {
    if i > 0 {
      FramesStayLow(stacks, f, fs, m, i - 1);
      assert FrameLaid(stacks, f[i - 1], f[i], fs[i - 1]);
      PackLength(fs[i - 1].u, fs[i - 1].v, 0);
      assert m * i == m * (i - 1) + m;
    }
  }

  lemma {:induction false} StartsRise(stacks: seq<Stack>, f: seq<nat>, fs: seq<Frame>, i: nat, j: nat)
    requires Laid(stacks, f, fs) && i <= j <= |fs|
    ensures f[i] <= f[j]
  {
    if i < j {
      StartsRise(stacks, f, fs, i, j - 1);
      assert FrameLaid(stacks, f[j - 1], f[j], fs[j - 1]);
    }
  }

  lemma SubSlice(s: seq<Stack>, n: nat, i: nat, j: nat)
    requires i <= j <= n <= |s|
    ensures s[i..j] == s[..n][i..j]
  {
  }

  /** Frames survive writes above them. */
  lemma LaidBelow(stacks: seq<Stack>, stacks': seq<Stack>, f: seq<nat>, fs: seq<Frame>)
    requires Laid(stacks, f, fs) && |stacks'| == |stacks| && f[|fs|] <= |stacks|
    requires stacks'[..f[|fs|]] == stacks[..f[|fs|]]
    ensures Laid(stacks', f, fs)
  {
    forall i | 0 <= i < |fs| ensures FrameLaid(stacks', f[i], f[i + 1], fs[i]) {
      assert FrameLaid(stacks, f[i], f[i + 1], fs[i]);
      StartsRise(stacks, f, fs, i + 1, |fs|);
      SubSlice(stacks, f[|fs|], f[i], f[i + 1]);
      SubSlice(stacks', f[|fs|], f[i], f[i + 1]);
    }
  }

  lemma {:induction false} RemainderShrinks(total: Vec, fs: seq<Frame>, i: nat)
    requires IsPath(total, fs) && i < |fs|
    ensures |fs[i].u| == |total| && Sum(fs[i].u) + i <= Sum(total)
  {
    if i > 0 {
      RemainderShrinks(total, fs, i - 1);
      SumSub(fs[i - 1].u, fs[i - 1].v);
      SumZero(fs[i - 1].v);
      assert fs[i - 1 + 1].u == Sub(fs[i - 1].u, fs[i - 1].v);
    }
  }

  // ----- the state between the steps -----

  /** The array and the counters hold a path of frames for `total`. */
  ghost predicate Ready(total: Vec, stacks: seq<Stack>, f: seq<nat>, fs: seq<Frame>, a: nat, b: nat) {
    && IsPath(total, fs)
    && |stacks| == |total| * Sum(total) + 1 && |f| == Sum(total) + 1
    && Laid(stacks, f, fs)
    && a == f[|fs| - 1] && b == f[|fs|]
  }

  function Last(fs: seq<Frame>): Frame
    requires fs != []
  {
    fs[|fs| - 1]
  }

  /** What the last frame leaves to be distributed. */
  function Remainder(fs: seq<Frame>): Vec
    requires FramesOk(fs) && fs != []
  {
    Sub(Last(fs).u, Last(fs).v)
  }

  /** The frame step M3 pushes. */
  function Pushed(fs: seq<Frame>): seq<Frame>
    requires FramesOk(fs) && fs != []
  {
    fs + [Frame(Remainder(fs), Fit(Remainder(fs), Last(fs).v))]
  }

  /** The frames once the last part is lowered. */
  function LoweredFrames(fs: seq<Frame>): seq<Frame>
    requires FramesOk(fs) && fs != []
  {
    fs[..|fs| - 1] + [Frame(Last(fs).u, Pred(Last(fs).u, Last(fs).v))]
  }

  lemma PathIsOk(total: Vec, fs: seq<Frame>)
    requires IsPath(total, fs)
    ensures FramesOk(fs) && fs != [] && |Last(fs).u| == |total|
  {
    RemainderShrinks(total, fs, |fs| - 1);
  }

  /** Pushing keeps the frames a path. */
  lemma PushIsPath(total: Vec, fs: seq<Frame>)
    requires IsPath(total, fs) && FramesOk(fs) && !IsZero(Remainder(fs))
    ensures IsPath(total, Pushed(fs)) && FramesOk(Pushed(fs))
    ensures !IsZero(Fit(Remainder(fs), Last(fs).v))
  {
    hide Sub, Fit, TakesFirst, IsZero;
    var w := Remainder(fs);
    FitTakesFirst(Last(fs).u, Last(fs).v);
    TakesFirstNonzero(w, Fit(w, Last(fs).v));
    var gs := Pushed(fs);
    assert forall i | 0 <= i < |fs| :: gs[i] == fs[i];
  }

  /** A path has at most as many frames as there are elements. */
  lemma PathIsShort(total: Vec, fs: seq<Frame>)
    requires IsPath(total, fs)
    ensures |fs| <= Sum(total)
  {
    RemainderShrinks(total, fs, |fs| - 1);
    NonzeroBelow(Last(fs).u, Last(fs).v);
    SumZero(Last(fs).u);
  }

  lemma SameWidth(total: Vec, fs: seq<Frame>)
    requires IsPath(total, fs)
    ensures forall i | 0 <= i < |fs| :: |fs[i].u| == |total|
  {
    forall i | 0 <= i < |fs| ensures |fs[i].u| == |total| {
      RemainderShrinks(total, fs, i);
    }
  }

  /** The frames and the next one fit into the array, which keeps one cell spare. */
  lemma RoomForNext(total: Vec, stacks: seq<Stack>, f: seq<nat>, fs: seq<Frame>, a: nat, b: nat)
    requires Ready(total, stacks, f, fs, a, b) && FramesOk(fs)
    ensures var w := Remainder(fs); b + |Pack(w, Fit(w, Last(fs).v), 0)| < |stacks|
    ensures !IsZero(Remainder(fs)) ==> |fs| + 1 < |f|
  {
    hide IsZero, Sub, Pack, Fit, Sum;
    var m, w := |total|, Remainder(fs);
    SameWidth(total, fs);
    FramesStayLow(stacks, f, fs, m, |fs|);
    PackLength(w, Fit(w, Last(fs).v), 0);
    PathIsShort(total, fs);
    if !IsZero(w) {
      PushIsPath(total, fs);
      PathIsShort(total, Pushed(fs));
    }
    CellsFit(m, |fs|, Sum(total), b, |Pack(w, Fit(w, Last(fs).v), 0)|);
  }

  lemma CellsFit(m: nat, i: nat, n: nat, b: nat, x: nat)
    requires b <= m * i && x <= m && if x == 0 then i <= n else i + 1 <= n
    ensures b + x <= m * n
  {
    assert m * (i + 1) == m * i + m;
    if i < n {
      assert m * (i + 1) <= m * n;
    }
  }

  lemma StillReady(total: Vec, stacks: seq<Stack>, stacks': seq<Stack>, f: seq<nat>, fs: seq<Frame>, a: nat, b: nat)
    requires Ready(total, stacks, f, fs, a, b) && b <= |stacks| == |stacks'| && stacks'[..b] == stacks[..b]
    ensures Ready(total, stacks', f, fs, a, b)
  {
    LaidBelow(stacks, stacks', f, fs);
  }

  /** Step M3. */
  lemma PushReady(total: Vec, stacks: seq<Stack>, stacks': seq<Stack>, f: seq<nat>, fs: seq<Frame>, a: nat, b: nat, k: nat)
    requires Ready(total, stacks, f, fs, a, b) && FramesOk(fs)
    requires !IsZero(Remainder(fs)) && |fs| + 1 < |f|
    requires b <= k < |stacks| == |stacks'| && stacks'[..b] == stacks[..b]
    requires var w := Remainder(fs); stacks'[b..k] == Pack(w, Fit(w, Last(fs).v), 0)
    ensures Ready(total, stacks', f[|fs| + 1 := k], Pushed(fs), b, k)
    ensures FramesOk(Pushed(fs)) && Ahead(Pushed(fs)) == Ahead(fs)
    ensures Sum(Remainder(Pushed(fs))) < Sum(Remainder(fs))
  {
    hide IsZero, Sub, Pack, Fit, Sum, Ahead, IsPath;
    PathIsOk(total, fs);
    var gs, f' := Pushed(fs), f[|fs| + 1 := k];
    PushIsPath(total, fs);
    PushKeepsAhead(fs);
    LaidBelow(stacks, stacks', f, fs);
    forall i | 0 <= i < |gs| ensures FrameLaid(stacks', f'[i], f'[i + 1], gs[i]) {
      if i < |fs| {
        assert FrameLaid(stacks', f[i], f[i + 1], fs[i]);
      }
    }
    SumSub(Last(gs).u, Last(gs).v);
    SumZero(Last(gs).v);
  }

  /** Step M5, lowering: the last frame is replaced by its predecessor. */
  lemma LowerReady(total: Vec, stacks: seq<Stack>, stacks': seq<Stack>, f: seq<nat>, fs: seq<Frame>, a: nat, b: nat)
    requires Ready(total, stacks, f, fs, a, b) && FramesOk(fs)
    requires TakesFirst(Last(fs).u, Pred(Last(fs).u, Last(fs).v))
    requires a <= b <= |stacks| == |stacks'| && stacks'[..a] == stacks[..a]
    requires stacks'[a..b] == Pack(Last(fs).u, Pred(Last(fs).u, Last(fs).v), 0)
    ensures var gs := LoweredFrames(fs);
            Ready(total, stacks', f, gs, a, b) && FramesOk(gs) && Ahead(gs) == Todo(fs)
  {
    hide Sub, Pack, Sum, Ahead, Todo, IsZero, TakesFirst, Pred;
    var u, v := Last(fs).u, Pred(Last(fs).u, Last(fs).v);
    var front := fs[..|fs| - 1];
    var gs := front + [Frame(u, v)];
    TakesFirstNonzero(u, v);
    NonzeroBelow(u, v);
    LowerKeepsTodo(fs);
    assert forall i | 0 <= i < |front| :: gs[i] == fs[i];
    assert gs[|front|] == Frame(u, v);
    assert forall i | 0 <= i < |gs| :: gs[i].u == fs[i].u;
    assert IsPath(total, gs);
    assert forall i | 0 <= i < |front| :: FrameLaid(stacks, f[i], f[i + 1], fs[i]);
    LaidBelow(stacks, stacks', f, front);
    assert FrameLaid(stacks', a, b, Frame(u, v));
  }

  /** Step M6, backtracking: the frames below the last one still make a state. */
  lemma BacktrackReady(total: Vec, stacks: seq<Stack>, f: seq<nat>, fs: seq<Frame>, a: nat, b: nat)
    requires Ready(total, stacks, f, fs, a, b) && |fs| > 1
    ensures |fs| < |f| && Ready(total, stacks, f, fs[..|fs| - 1], f[|fs| - 2], a)
    ensures FramesOk(fs[..|fs| - 1])
  {
  }

  // ----- the steps on the array -----

  /** One component of step M2: writes what component `j` leaves at position `k`. */
  method SubtractComponent(stacks: array<Stack>, j: nat, k: nat, x: bool) returns (k': nat, x': bool)
    requires j < k < stacks.Length && stacks[j].v <= stacks[j].u
    modifies stacks
    ensures stacks[..k] == old(stacks[..k])
    ensures k' == k + |Reduced(old(stacks[j]), x)| <= stacks.Length
    ensures stacks[k..k'] == Reduced(old(stacks[j]), x)
    ensures x' == FreeAfter(old(stacks[j]), x)
  {
    k', x' := k, x;
    stacks[k] := stacks[k].(u := stacks[j].u - stacks[j].v);
    if stacks[k].u == 0 {
      x' := true;
    } else if !x {
      stacks[k] := stacks[k].(c := stacks[j].c, v := stacks[j].v);
      if stacks[k].u < stacks[j].v {
        stacks[k] := stacks[k].(v := stacks[k].u);
        x' := true;
      }
      k' := k + 1;
    } else {
      stacks[k] := stacks[k].(c := stacks[j].c, v := stacks[k].u);
      k' := k + 1;
    }
  }

  /** Two arrays that agree below `k` agree on the slices below it. */
  lemma SameBelow(s: seq<Stack>, t: seq<Stack>, a: nat, b: nat, k: nat)
    requires a <= b <= k <= |s| == |t| && s[..k] == t[..k]
    ensures s[..b] == t[..b] && s[a..b] == t[a..b] && s[b..k] == t[b..k]
  {
    assert s[..b] == s[..k][..b] && t[..b] == t[..k][..b];
    assert s[a..b] == s[..k][a..b] && t[a..b] == t[..k][a..b];
    assert s[b..k] == s[..k][b..] && t[b..k] == t[..k][b..];
  }

  lemma SliceJoin(s: seq<Stack>, a: nat, b: nat, k: nat)
    requires a <= b <= k <= |s|
    ensures s[a..k] == s[a..b] + s[b..k]
  {
  }

  /** Step M2: lays out after position `b` the frame that remains once the part of the frame
      between `a` and `b` is taken out. */
  method SubtractFrame(stacks: array<Stack>, a: nat, b: nat) returns (k: nat)
    requires a <= b < stacks.Length
    requires Bounded(stacks[a..b])
    requires b + |Subtracted(stacks[a..b], false)| < stacks.Length
    modifies stacks
    ensures k == b + |Subtracted(old(stacks[a..b]), false)| < stacks.Length
    ensures stacks[..b] == old(stacks[..b])
    ensures stacks[b..k] == Subtracted(old(stacks[a..b]), false)
  {
    hide Reduced, FreeAfter;
    ghost var frame := stacks[a..b];
    ghost var goal := Subtracted(frame, false);
    var j, x := a, false;
    k := b;
    assert frame[0..] == frame;
    while j < b
      invariant a <= j <= b <= k < stacks.Length
      invariant stacks[..b] == old(stacks[..b])
      invariant stacks[a..b] == frame
      invariant stacks[b..k] + Subtracted(frame[j - a..], x) == goal
    {
      ghost var before := stacks[..];
      ghost var rest := frame[j - a..];
      assert stacks[j] == stacks[a..b][j - a] == rest[0];
      assert rest[1..] == frame[j + 1 - a..];
      Regroup(before[b..k], Reduced(rest[0], x), Subtracted(rest[1..], FreeAfter(rest[0], x)));
      var k', x' := SubtractComponent(stacks, j, k, x);
      SameBelow(before, stacks[..], a, b, k);
      SliceJoin(stacks[..], b, k, k');
      k, x, j := k', x', j + 1;
    }
    assert frame[j - a..] == [];
  }

  /** Step M4 for one component. */
  method AppendKey(part: seq<string>, key: string, n: nat) returns (r: seq<string>)
    ensures r == part + Repeat(key, n)
  {
    r := part;
    for i := 0 to n
      invariant r == part + Repeat(key, i)
    {
      r := r + [key];
    }
  }

  /** Step M4 for one frame. */
  method SpellPart(stacks: array<Stack>, a: nat, b: nat, keys: seq<string>) returns (part: seq<string>)
    requires a <= b <= stacks.Length
    requires Labelled(stacks[a..b], |keys|)
    ensures part == SpellFrame(stacks[a..b], keys)
  {
    hide Repeat;
    ghost var frame := stacks[a..b];
    assert frame[0..] == frame;
    part := [];
    for q := a to b
      invariant part + SpellFrame(frame[q - a..], keys) == SpellFrame(frame, keys)
    {
      ghost var rest := frame[q - a..];
      assert stacks[q] == frame[q - a] == rest[0];
      assert rest[1..] == frame[q + 1 - a..];
      Regroup(part, Repeat(keys[rest[0].c - 1], rest[0].v), SpellFrame(rest[1..], keys));
      part := AppendKey(part, keys[stacks[q].c - 1], stacks[q].v);
    }
    assert frame[b - a..] == [];
  }

  /** Step M4: spells out the part of every frame. */
  method SpellParts(total: Vec, stacks: array<Stack>, f: array<nat>, keys: seq<string>, l: nat, ghost fs: seq<Frame>,
      ghost a: nat, ghost b: nat)
    returns (parts: seq<seq<string>>)
    requires Ready(total, stacks[..], f[..], fs, a, b) && |total| == |keys| && l + 1 == |fs|
    ensures Spelled(parts, Chosen(fs), keys)
  {
    hide Spell, SpellFrame, Pack;
    SameWidth(total, fs);
    parts := [];
    for p := 0 to l + 1
      invariant |parts| == p
      invariant forall i | 0 <= i < p :: parts[i] == Spell(fs[i].v, keys)
    {
      assert FrameLaid(stacks[..], f[p], f[p + 1], fs[p]);
      assert stacks[..][f[p]..f[p + 1]] == stacks[f[p]..f[p + 1]];
      PackSound(fs[p].u, fs[p].v, 0);
      SpellPack(fs[p].u, fs[p].v, keys, 0);
      assert keys[0..] == keys;
      var part := SpellPart(stacks, f[p], f[p + 1], keys);
      parts := parts + [part];
    }
  }

  /** Step M5, searching: the last component the part takes something from. The search stays
      within the frame because the part always takes from its first component. */
  method FindLastTaken(stacks: array<Stack>, a: nat, b: nat) returns (j: nat)
    requires a < b <= stacks.Length && stacks[a].v > 0
    ensures a <= j < b && IsLastTaken(stacks[a..b], j - a)
  {
    j := b - 1;
    while stacks[j].v == 0
      invariant a <= j < b
      invariant forall i | j < i < b :: stacks[i].v == 0
      decreases j
    {
      j := j - 1;
    }
  }

  /** Step M5, lowering: takes one less of component `j` and resets the ones after it. */
  method LowerFrame(stacks: array<Stack>, a: nat, j: nat, b: nat)
    requires a <= j < b <= stacks.Length && IsLastTaken(stacks[a..b], j - a)
    modifies stacks
    ensures stacks[..a] == old(stacks[..a])
    ensures !TakesNothing(old(stacks[a..b])) && stacks[a..b] == Lowered(old(stacks[a..b]))
  {
    hide Lowered, TakesNothing;
    ghost var before := stacks[..];
    stacks[j] := stacks[j].(v := stacks[j].v - 1);
    for k := j + 1 to b
      invariant forall i | 0 <= i < stacks.Length ::
          stacks[i] == if i == j then before[i].(v := before[i].v - 1)
                       else if j < i < k then before[i].(v := before[i].u) else before[i]
    {
      stacks[k] := stacks[k].(v := stacks[k].u);
    }
    LoweredByElement(before[a..b], j - a, stacks[a..b]);
  }

  // ----- the whole algorithm -----

  /** `visits` spells out the partitions of `list`, one call of the visitor each. */
  predicate Visits(visits: seq<seq<seq<string>>>, list: seq<Parts>, keys: seq<string>) {
    |visits| == |list| && forall i | 0 <= i < |list| :: Spelled(visits[i], list[i], keys)
  }

  predicate AllPositive(v: Vec) {
    forall i | 0 <= i < |v| :: v[i] > 0
  }

  lemma {:induction false} PackPositive(u: Vec, k: nat)
    requires AllPositive(u)
    ensures |Pack(u, u, k)| == |u| && forall i | 0 <= i < |u| :: Pack(u, u, k)[i] == Stack(k + i + 1, u[i], u[i])
  {
    if u != [] {
      PackPositive(u[1..], k + 1);
      PackCons(u, u, k);
    }
  }

  /** The first frame takes everything, and everything lies ahead of it. */
  lemma StartReady(total: Vec, stacks: seq<Stack>, f: seq<nat>)
    requires |total| > 0 && AllPositive(total)
    requires |stacks| == |total| * Sum(total) + 1 && |f| == Sum(total) + 1
    requires |total| <= |stacks| && |f| > 1 && f[0] == 0 && f[1] == |total|
    requires forall i | 0 <= i < |total| :: stacks[i] == Stack(i + 1, total[i], total[i])
    ensures Ready(total, stacks, f, [Frame(total, total)], 0, |total|)
    ensures Ahead([Frame(total, total)]) == Enumerate(total, total)
  {
    hide Enumerate, Ahead, Todo, Pack, TakesFirst;
    PackPositive(total, 0);
    assert stacks[0..|total|] == Pack(total, total, 0);
    assert FrameLaid(stacks, 0, |total|, Frame(total, total));
    OwnFirst(total);
    EverythingAhead(total);
  }

  lemma EverythingAhead(total: Vec)
    requires !IsZero(total)
    ensures Ahead([Frame(total, total)]) == Enumerate(total, total)
  {
    hide Enumerate, Ahead;
    AheadOf([], total, total);
    assert [] + [Frame(total, total)] == [Frame(total, total)];
    ExtendNone(Enumerate(total, total));
    assert Chosen([]) == [];
  }

  lemma ExtendNone(lists: seq<Parts>)
    ensures Extend([], lists) == lists
  {
    assert forall i | 0 <= i < |lists| :: [] + lists[i] == lists[i];
  }

  /** Step M1. */
  method Initialize(multiplicities: Vec, n: nat) returns (stacks: array<Stack>, f: array<nat>)
    requires |multiplicities| > 0 && AllPositive(multiplicities) && n == Sum(multiplicities)
    ensures fresh(stacks) && fresh(f)
    ensures Ready(multiplicities, stacks[..], f[..], [Frame(multiplicities, multiplicities)], 0, |multiplicities|)
    ensures Ahead([Frame(multiplicities, multiplicities)]) == Enumerate(multiplicities, multiplicities)
  {
    hide Enumerate, Ready, Ahead;
    var m := |multiplicities|;
    stacks := new Stack[m * n + 1](_ => EMPTY);
    SumZero(multiplicities);
    CellsFit(m, 1, n, m, 0);
    for i := 0 to m * n + 1
      invariant forall k | 0 <= k < i && k < m :: stacks[k] == Stack(k + 1, multiplicities[k], multiplicities[k])
    {
      if i < m {
        stacks[i] := Stack(i + 1, multiplicities[i], multiplicities[i]);
      } else {
        stacks[i] := EMPTY;
      }
    }
    f := new nat[n + 1](_ => 0);
    f[1] := m;
    StartReady(multiplicities, stacks[..], f[..]);
  }

  /** Where the last frame lies and what it holds. */
  lemma LastLaid(total: Vec, stacks: seq<Stack>, f: seq<nat>, fs: seq<Frame>, a: nat, b: nat)
    requires Ready(total, stacks, f, fs, a, b)
    ensures FramesOk(fs) && fs != [] && a < b <= |stacks|
    ensures var g := Last(fs); TakesFirst(g.u, g.v) && !IsZero(g.u) && !IsZero(g.v)
    ensures stacks[a..b] == Pack(Last(fs).u, Last(fs).v, 0)
    ensures Bounded(stacks[a..b])
    ensures stacks[a].v > 0
  {
    var g := Last(fs);
    NonzeroBelow(g.u, g.v);
    assert FrameLaid(stacks, f[|fs| - 1], f[|fs|], g);
    FirstTaken(g.u, g.v, 0);
    PackSound(g.u, g.v, 0);
    assert stacks[a] == stacks[a..b][0];
  }

  /** Steps M2 and M3, repeated: pushes frames until nothing is left to distribute. */
  method Descend(total: Vec, stacks: array<Stack>, f: array<nat>, ghost fs0: seq<Frame>, a0: nat, b0: nat, l0: nat)
    returns (a: nat, b: nat, l: nat, ghost fs: seq<Frame>)
    requires Ready(total, stacks[..], f[..], fs0, a0, b0) && FramesOk(fs0) && l0 + 1 == |fs0|
    modifies stacks, f
    ensures Ready(total, stacks[..], f[..], fs, a, b) && FramesOk(fs) && l + 1 == |fs|
    ensures IsZero(Remainder(fs)) && Ahead(fs) == Ahead(fs0)
  {
    hide Ready, Ahead, Subtracted, Sum, Pack, Fit, Sub, FramesOk, TakesFirst, IsZero;
    a, b, l, fs := a0, b0, l0, fs0;
    while true
      invariant Ready(total, stacks[..], f[..], fs, a, b) && FramesOk(fs) && l + 1 == |fs|
      invariant Ahead(fs) == Ahead(fs0)
      decreases Sum(Remainder(fs))
    {
      ghost var before := stacks[..];
      LastLaid(total, stacks[..], f[..], fs, a, b);
      RoomForNext(total, stacks[..], f[..], fs, a, b);
      SubtractedFits(Last(fs).u, Last(fs).v, 0);
      var k := SubtractFrame(stacks, a, b);
      PackLength(Remainder(fs), Fit(Remainder(fs), Last(fs).v), 0);
      if k > b {
        PushReady(total, before, stacks[..], f[..], fs, a, b, k);
        a, b, l, fs := b, k, l + 1, Pushed(fs);
        f[l + 1] := b;
      } else {
        StillReady(total, before, stacks[..], f[..], fs, a, b);
        break;
      }
    }
  }

  /** The test of step M5: only a single unit of the first component cannot be lowered usefully. */
  lemma BacktrackTest(u: Vec, v: Vec, j: nat)
    requires Leq(v, u) && TakesFirst(u, v) && !IsZero(v) && IsLastTaken(Pack(u, v, 0), j)
    ensures j == 0 && Pack(u, v, 0)[j].v == 1 <==> !TakesFirst(u, Pred(u, v))
  {
    hide Pack, TakesNothing, Lowered, Pred;
    LoweredAt(Pack(u, v, 0), j);
    LoweringTakesFirst(u, v, 0);
  }

  /** Steps M5 and M6, repeated: lowers the last part that can be lowered, dropping the frames
      after it, unless there is none. */
  method Advance(total: Vec, stacks: array<Stack>, f: array<nat>, ghost fs0: seq<Frame>, a0: nat, b0: nat, l0: nat)
    returns (done: bool, a: nat, b: nat, l: nat, ghost fs: seq<Frame>)
    requires Ready(total, stacks[..], f[..], fs0, a0, b0) && FramesOk(fs0) && l0 + 1 == |fs0|
    modifies stacks
    ensures done ==> Todo(fs0) == []
    ensures !done ==> Ready(total, stacks[..], f[..], fs, a, b) && FramesOk(fs) && l + 1 == |fs|
    ensures !done ==> Ahead(fs) == Todo(fs0)
  {
    hide Ready, Ahead, Todo, Pack, Pred, FramesOk, TakesFirst, IsZero, IsPath, Lowered, TakesNothing;
    done, a, b, l, fs := false, a0, b0, l0, fs0;
    while true
      invariant Ready(total, stacks[..], f[..], fs, a, b) && FramesOk(fs) && l + 1 == |fs|
      invariant Todo(fs) == Todo(fs0)
      decreases l
    {
      ghost var before := stacks[..];
      LastLaid(total, stacks[..], f[..], fs, a, b);
      var j := FindLastTaken(stacks, a, b);
      BacktrackTest(Last(fs).u, Last(fs).v, j - a);
      assert stacks[j] == stacks[a..b][j - a];
      if j == a && stacks[j].v == 1 {
        BacktrackKeepsTodo(fs);
        if l == 0 {
          NothingTodo();
          done := true;
          return;
        }
        BacktrackReady(total, stacks[..], f[..], fs, a, b);
        l, b, fs := l - 1, a, fs[..|fs| - 1];
        a := f[l];
      } else {
        LowerFrame(stacks, a, j, b);
        LoweredIsPred(Last(fs).u, Last(fs).v, 0);
        LowerReady(total, before, stacks[..], f[..], fs, a, b);
        fs := LoweredFrames(fs);
        break;
      }
    }
  }

  lemma NothingTodo()
    ensures Todo([]) == []
  {
  }

  /** Algorithm M calls its visitor once for every partition of the multiset, in strictly
      decreasing lexicographic order, and stops. */
  method EnumeratePartitions(multiplicities: Vec, keys: seq<string>) returns (visits: seq<seq<seq<string>>>)
    requires |multiplicities| == |keys| > 0 && AllPositive(multiplicities)
    ensures Visits(visits, Enumerate(multiplicities, multiplicities), keys)
  {
    hide Ready, Ahead, Todo, IsPath, FramesOk, Enumerate, IsZero, TakesFirst, AllPositive;
    LexReflexive(multiplicities);
    var m, n := |multiplicities|, 0;
    assert multiplicities[0..] == multiplicities;
    for i := 0 to m
      invariant n + Sum(multiplicities[i..]) == Sum(multiplicities)
    {
      assert multiplicities[i..][1..] == multiplicities[i + 1..];
      n := n + multiplicities[i];
    }
    var stacks, f := Initialize(multiplicities, n);
    var a: nat, b: nat, l: nat := 0, m, 0;
    ghost var fs := [Frame(multiplicities, multiplicities)];
    ghost var goal := Enumerate(multiplicities, multiplicities);
    ghost var seen: seq<Parts> := [];
    visits := [];
    LastLaid(multiplicities, stacks[..], f[..], fs, a, b);
    while true
      invariant fresh(stacks) && fresh(f)
      invariant Ready(multiplicities, stacks[..], f[..], fs, a, b) && FramesOk(fs) && l + 1 == |fs|
      invariant seen + Ahead(fs) == goal && Visits(visits, seen, keys)
      decreases |goal| - |seen|
    {
      a, b, l, fs := Descend(multiplicities, stacks, f, fs, a, b, l);
      VisitIsNext(fs);
      var parts := SpellParts(multiplicities, stacks, f, keys, l, fs, a, b);
      Regroup(seen, [Chosen(fs)], Todo(fs));
      visits, seen := visits + [parts], seen + [Chosen(fs)];
      var done;
      done, a, b, l, fs := Advance(multiplicities, stacks, f, fs, a, b, l);
      if done {
        break;
      }
    }
  }
}
