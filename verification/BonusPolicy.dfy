/** The value table of the learning policies and the greedy bonus policy, with real numbers for
    floating point. */
module BonusPolicies {

  type Values = map<string, real>
  type Table = map<string, Values>

  const MIN: real := -9223372036854775808.0

  function Row(t: Table, state: string): Values {
    if state in t then t[state] else map[]
  }

  function Lookup(t: Table, state: string, action: string, def: real): real {
    if action in Row(t, state) then t[state][action] else def
  }

  /** The table with one value written. */
  function With(t: Table, state: string, action: string, val: real): Table {
    t[state := Row(t, state)[action := val]]
  }

  /** The table with the default written for every action of `actions` the state lacks. */
  ghost predicate Filled(t: Table, t': Table, state: string, actions: seq<string>, def: real) {
    forall s, a :: FilledAt(t, t', state, actions, def, s, a)
  }

  predicate FilledAt(t: Table, t': Table, state: string, actions: seq<string>, def: real, s: string, a: string) {
    && (a in Row(t', s) <==> a in Row(t, s) || (s == state && a in actions))
    && (a in Row(t', s) ==> t'[s][a] == Lookup(t, s, a, def))
  }

  /** `action` has the largest value of the row. */
  predicate IsMax(row: Values, action: string) {
    action in row && forall a | a in row :: row[a] <= row[action]
  }

  class QTable {
    var table: Table

    constructor ()
      ensures table == map[]
    {
      table := map[];
    }

    /** Reads a value, writing the default first when there is none. */
    method Get(state: string, action: string, def: real) returns (val: real)
      modifies this`table
      ensures val == Lookup(old(table), state, action, def)
      ensures table == With(old(table), state, action, val)
    {
      if state !in table {
        table := table[state := map[]];
      }
      if action !in table[state] {
        table := table[state := table[state][action := def]];
      }
      val := table[state][action];
      assert table[state] == Row(old(table), state)[action := val];
    }

    method Set(state: string, action: string, val: real)
      modifies this`table
      ensures table == With(old(table), state, action, val)
    {
      if state !in table {
        table := table[state := map[]];
      }
      table := table[state := table[state][action := val]];
    }

    /** The best action known for a state. A state without actions, and one whose best action has
        the empty name, give the default. */
    method Max(state: string, def: real) returns (action: string, val: real)
      modifies this`table
      ensures table == old(table)[state := Row(old(table), state)]
      ensures action != "" ==> IsMax(Row(old(table), state), action) && val == old(table)[state][action]
      ensures action == "" ==> val == def
      ensures action == "" && (exists a :: a in Row(old(table), state) && Row(old(table), state)[a] > MIN) ==>
                IsMax(Row(old(table), state), "")
    {
      if state !in table {
        table := table[state := map[]];
        return "", def;
      }
      var row := table[state];
      action, val := "", MIN;
      var rest := row.Keys;
      while rest != {}
        invariant rest <= row.Keys
        invariant forall a | a in row && a !in rest :: row[a] <= val
        invariant val >= MIN && (val > MIN ==> action in row && row[action] == val)
        invariant val == MIN ==> action == ""
        decreases |rest|
      {
        var a :| a in rest;
        rest := rest - {a};
        if row[a] > val {
          action, val := a, row[a];
        }
      }
      if action == "" {
        val := def;
      }
    }

    /** A best action among those available, any of them when several are best. */
    method MaxAmong(state: string, actions: seq<string>, def: real) returns (action: string, val: real)
      requires actions != []
      requires forall a | a in actions :: Lookup(table, state, a, def) >= MIN
      modifies this`table
      ensures action in actions && val == Lookup(old(table), state, action, def)
      ensures forall a | a in actions :: Lookup(old(table), state, a, def) <= val
      ensures Filled(old(table), table, state, actions, def)
    {
      if state !in table {
        table := table[state := map[]];
      }
      var maxActions: seq<string> := [];
      val := MIN;
      for i := 0 to |actions|
        invariant state in table
        invariant forall a | a in actions[..i] :: Lookup(old(table), state, a, def) <= val
        invariant forall a | a in maxActions :: a in actions && Lookup(old(table), state, a, def) == val
        invariant val >= MIN && (i > 0 ==> maxActions != []) && (i == 0 ==> val == MIN)
        invariant Filled(old(table), table, state, actions[..i], def)
      {
        var a := actions[i];
        assert actions[..i + 1] == actions[..i] + [a];
        ghost var before := table;
        if a !in table[state] {
          table := table[state := table[state][a := def]];
        }
        FilledNext(old(table), before, table, state, actions, i, def);
        var v := table[state][a];
        if v > val {
          maxActions, val := [], v;
        }
        if v == val {
          maxActions := maxActions + [a];
        }
      }
      assert actions[..|actions|] == actions;
      var pick :| 0 <= pick < |maxActions|;
      action := maxActions[pick];
      assert action in maxActions;
    }
  }

  lemma FilledNext(t: Table, mid: Table, t': Table, state: string, actions: seq<string>, i: nat, def: real)
    requires i < |actions| && Filled(t, mid, state, actions[..i], def) && state in mid
    requires t' == if actions[i] in mid[state] then mid else mid[state := mid[state][actions[i] := def]]
    ensures Filled(t, t', state, actions[..i + 1], def)
    ensures actions[i] in Row(t', state) && t'[state][actions[i]] == Lookup(t, state, actions[i], def)
  {
    assert actions[..i + 1] == actions[..i] + [actions[i]];
    var upTo := actions[..i + 1];
    forall s, a ensures FilledAt(t, t', state, upTo, def, s, a) {
      assert FilledAt(t, mid, state, actions[..i], def, s, a);
    }
    assert FilledAt(t, t', state, actions[..i + 1], def, state, actions[i]);
  }

  // ----- the bonus update -----

  /** A transition as the policy sees it. */
  datatype Transition = Transition(state: string, action: string, next: string)

  /** How often the pair was updated. */
  function Count(history: seq<Transition>, state: string, action: string): nat {
    if history == [] then 0
    else
      var last := history[|history| - 1];
      Count(history[..|history| - 1], state, action) + if last.state == state && last.action == action then 1 else 0
  }

  /** Every pair updated t times lies between 1/t and 1; a pair never updated is 1 if it is there. */
  ghost predicate Bounded(q: Table, history: seq<Transition>) {
    forall s, a :: BoundedAt(q, history, s, a)
  }

  predicate BoundedAt(q: Table, history: seq<Transition>, s: string, a: string) {
    var t := Count(history, s, a);
    && (t > 0 ==> a in Row(q, s) && 1.0 / t as real <= q[s][a] <= 1.0)
    && (t == 0 && a in Row(q, s) ==> q[s][a] == 1.0)
  }

  ghost predicate Counted(visits: Table, history: seq<Transition>) {
    forall s, a :: Lookup(visits, s, a, 0.0) == Count(history, s, a) as real
  }

  lemma Product(c: real, d: real)
    requires c >= 0.0 && d >= 0.0
    ensures c * d >= 0.0
  {
  }

  lemma MeanAbove(alpha: real, beta: real, x: real, y: real, z: real)
    requires alpha >= 0.0 && beta >= 0.0 && alpha + beta == 1.0 && z <= x && z <= y
    ensures z <= beta * x + alpha * y
  {
    Product(beta, x - z);
    Product(alpha, y - z);
    calc {
      beta * x + alpha * y;
      beta * (x - z) + alpha * (y - z) + (beta + alpha) * z;
      beta * (x - z) + alpha * (y - z) + z;
    }
  }

  lemma MeanBelow(alpha: real, beta: real, x: real, y: real, z: real)
    requires alpha >= 0.0 && beta >= 0.0 && alpha + beta == 1.0 && x <= z && y <= z
    ensures beta * x + alpha * y <= z
  {
    Product(beta, z - x);
    Product(alpha, z - y);
    calc {
      beta * x + alpha * y;
      (beta + alpha) * z - beta * (z - x) - alpha * (z - y);
      z - beta * (z - x) - alpha * (z - y);
    }
  }

  lemma InverseFalls(t: nat)
    requires t > 0
    ensures 0.0 < 1.0 / (t + 1) as real <= 1.0 / t as real <= 1.0
  {
  }

  lemma Discounted(discount: real, v: real)
    requires 0.0 <= discount <= 1.0 && v <= 1.0
    ensures discount * v <= 1.0
  {
    Product(discount, 1.0 - v);
    assert discount * v == discount - discount * (1.0 - v);
  }

  function NewValue(alpha: real, discount: real, t: real, cur: real, next: real): real
    requires t != 0.0
  {
    var target := if 1.0 / t > discount * next then 1.0 / t else discount * next;
    (1.0 - alpha) * cur + alpha * target
  }

  /** One update keeps the pair it writes within its new bounds. */
  lemma UpdateBounded(alpha: real, discount: real, t: nat, cur: real, next: real)
    requires 0.0 <= alpha <= 1.0 && 0.0 <= discount <= 1.0 && t > 0
    requires next <= 1.0 && if t == 1 then cur == 1.0 else 1.0 / (t - 1) as real <= cur <= 1.0
    ensures 1.0 / t as real <= NewValue(alpha, discount, t as real, cur, next) <= 1.0
  {
    var bonus := 1.0 / t as real;
    if t > 1 {
      InverseFalls(t - 1);
    }
    Discounted(discount, next);
    var target := if bonus > discount * next then bonus else discount * next;
    MeanAbove(alpha, 1.0 - alpha, cur, target, bonus);
    MeanBelow(alpha, 1.0 - alpha, cur, target, 1.0);
  }

  lemma CountSnoc(history: seq<Transition>, tr: Transition, s: string, a: string)
    ensures Count(history + [tr], s, a) == Count(history, s, a) + if tr.state == s && tr.action == a then 1 else 0
  {
    assert (history + [tr])[..|history|] == history;
  }

  /** A value in the table never exceeds 1. */
  lemma AtMostOne(q: Table, history: seq<Transition>, s: string, a: string)
    requires Bounded(q, history) && a in Row(q, s)
    ensures q[s][a] <= 1.0
  {
    assert BoundedAt(q, history, s, a);
  }

  lemma UpdatedBounded(q: Table, q': Table, history: seq<Transition>, tr: Transition, val: real)
    requires Bounded(q, history)
    requires q' == With(q, tr.state, tr.action, val)
    requires 1.0 / Count(history + [tr], tr.state, tr.action) as real <= val <= 1.0
    ensures Bounded(q', history + [tr])
  {
    forall s, a ensures BoundedAt(q', history + [tr], s, a) {
      CountSnoc(history, tr, s, a);
      assert BoundedAt(q, history, s, a);
      assert s != tr.state ==> Row(q', s) == Row(q, s);
    }
  }

  lemma CountedNext(visits: Table, history: seq<Transition>, tr: Transition)
    requires Counted(visits, history)
    ensures Counted(With(visits, tr.state, tr.action, Count(history, tr.state, tr.action) as real + 1.0), history + [tr])
  {
    forall s, a ensures
        Lookup(With(visits, tr.state, tr.action, Count(history, tr.state, tr.action) as real + 1.0), s, a, 0.0)
        == Count(history + [tr], s, a) as real
    {
      CountSnoc(history, tr, s, a);
    }
  }

  /** What the update takes for the value of the next state: that of a best action known there, or 1
      when none is known or the best one has the empty name. */
  ghost predicate IsNextValue(row: Values, v: real) {
    || (exists a :: a != "" && IsMax(row, a) && v == row[a])
    || (v == 1.0 && (row == map[] || IsMax(row, "")))
  }

  /** `val` is the old value moved by the rate `alpha` towards the larger of the bonus and the prospect. */
  predicate IsMix(alpha: real, cur: real, bonus: real, prospect: real, val: real) {
    && (bonus >= prospect ==> val - cur == alpha * (bonus - cur))
    && (prospect >= bonus ==> val - cur == alpha * (prospect - cur))
  }

  /** Only the value of the pair has moved, and the next state, worth `v`, has a row now. */
  predicate Moved(q: Table, q': Table, state: string, action: string, next: string, alpha: real, t: real, discount: real, v: real) {
    var val := Lookup(q', state, action, 1.0);
    && q' == With(q[next := Row(q, next)], state, action, val)
    && t != 0.0 && IsMix(alpha, Lookup(q, state, action, 1.0), 1.0 / t, discount * v, val)
  }

  class BonusPolicyGreedy {
    const qTable: QTable
    const visits: QTable
    const alpha: real
    const discount: real
    /** The updates made so far. */
    ghost var history: seq<Transition>

    ghost predicate Valid()
      reads this, qTable, visits
    {
      && qTable != visits && 0.0 <= alpha <= 1.0 && 0.0 <= discount <= 1.0
      && Bounded(qTable.table, history) && Counted(visits.table, history)
    }

    constructor (alpha: real, discount: real)
      requires 0.0 <= alpha <= 1.0 && 0.0 <= discount <= 1.0
      ensures Valid() && fresh(qTable) && fresh(visits) && history == []
      ensures this.alpha == alpha && this.discount == discount
    {
      qTable := new QTable();
      visits := new QTable();
      this.alpha, this.discount, history := alpha, discount, [];
    }

    /** Learns from one transition. */
    method Update(state: string, action: string, next: string)
      requires Valid()
      modifies this`history, qTable, visits
      ensures Valid() && history == old(history) + [Transition(state, action, next)]
      ensures var t := Count(old(history), state, action) as real + 1.0;
              var q := old(qTable.table);
              && visits.table == With(old(visits.table), state, action, t)
              && exists v :: IsNextValue(Row(q, next), v) && Moved(q, qTable.table, state, action, next, alpha, t, discount, v)
    {
      hide Bounded, Counted, IsMax, With, Count, Lookup, Row, NewValue, IsNextValue, IsMix, Moved;
      var seen := visits.Get(state, action, 0.0);
      var t := seen + 1.0;
      visits.Set(state, action, t);
      CountedAt(old(visits.table), history, state, action);
      var best, nextVal := qTable.Max(next, 1.0);
      NextAtMostOne(old(qTable.table), history, next);
      NextValueIs(old(qTable.table), history, next, best, nextVal);
      var cur := qTable.Get(state, action, 1.0);
      var bonus := 1.0 / t;
      var target := if bonus > discount * nextVal then bonus else discount * nextVal;
      var newVal := (1.0 - alpha) * cur + alpha * target;
      NewValueIs(alpha, discount, t, cur, nextVal);
      qTable.Set(state, action, newVal);
      Learned(old(visits.table), old(qTable.table), history, Transition(state, action, next), alpha, discount, seen, nextVal, cur);
      assert newVal == NewValue(alpha, discount, t, cur, nextVal);
      assert visits.table == With(With(old(visits.table), state, action, seen), state, action, t);
      assert qTable.table == With(With(old(qTable.table)[next := Row(old(qTable.table), next)], state, action, cur), state, action, newVal);
      WithTwice(old(visits.table), state, action, seen, t);
      WithTwice(old(qTable.table)[next := Row(old(qTable.table), next)], state, action, cur, newVal);
      SameLookup(old(qTable.table), next, state, action);
      MovedTo(old(qTable.table), qTable.table, state, action, next, alpha, t, discount, nextVal);
      history := history + [Transition(state, action, next)];
    }

    /** Learns from a segment of an episode, its last transition first. */
    method UpdateIterationRm(segment: seq<Transition>)
      requires Valid()
      modifies this`history, qTable, visits
      ensures Valid() && |history| == |old(history)| + |segment| && old(history) <= history
      ensures forall j | |old(history)| <= j < |history| :: history[j] == segment[|history| - 1 - j]
    {
      var i := |segment| - 1;
      while i > -1
        invariant -1 <= i < |segment| && Valid()
        invariant |history| == |old(history)| + (|segment| - 1 - i) && old(history) <= history
        invariant forall j | |old(history)| <= j < |history| :: history[j] == segment[|old(history)| + |segment| - 1 - j]
        decreases i
      {
        Update(segment[i].state, segment[i].action, segment[i].next);
        i := i - 1;
      }
    }

    /** The greedy choice: an available action whose value no other available action exceeds,
        where an action never tried counts as 1. */
    method GreedyAction(state: string, actions: seq<string>) returns (action: string)
      requires Valid() && actions != []
      modifies qTable
      ensures Valid() && action in actions
      ensures forall a | a in actions :: Lookup(old(qTable.table), state, a, 1.0) <= Lookup(old(qTable.table), state, action, 1.0)
    {
      forall a | a in actions ensures Lookup(qTable.table, state, a, 1.0) >= MIN {
        CurrentBounded(qTable.table, history, state, a);
      }
      var val;
      action, val := qTable.MaxAmong(state, actions, 1.0);
      TriedOrOne(old(qTable.table), qTable.table, history, state, actions);
    }

    /** Chooses an action: the one drawn when exploring, else a greedy one, which is refused when its
        name is empty. */
    method NextAction(state: string, actions: seq<string>, explore: bool, drawn: nat) returns (action: string, ok: bool)
      requires Valid() && drawn < |actions|
      modifies qTable
      ensures Valid() && action in actions
      ensures explore ==> ok && action == actions[drawn] && qTable.table == old(qTable.table)
      ensures !explore ==> (ok <==> action != "")
      ensures !explore ==> forall a | a in actions ::
                Lookup(old(qTable.table), state, a, 1.0) <= Lookup(old(qTable.table), state, action, 1.0)
    {
      if explore {
        return actions[drawn], true;
      }
      action := GreedyAction(state, actions);
      ok := action != "";
    }
  }

  lemma NewValueIs(alpha: real, discount: real, t: real, cur: real, next: real)
    requires t != 0.0
    ensures NewValue(alpha, discount, t, cur, next)
            == (1.0 - alpha) * cur + alpha * if 1.0 / t > discount * next then 1.0 / t else discount * next
  {
  }

  lemma MovedTo(q: Table, q': Table, state: string, action: string, next: string, alpha: real, t: real, discount: real, v: real)
    requires t != 0.0
    requires q' == With(q[next := Row(q, next)], state, action, NewValue(alpha, discount, t, Lookup(q, state, action, 1.0), v))
    ensures Moved(q, q', state, action, next, alpha, t, discount, v)
  {
    hide NewValue, IsMix;
    NewValueMixes(alpha, discount, t, Lookup(q, state, action, 1.0), v);
  }

  lemma NewValueMixes(alpha: real, discount: real, t: real, cur: real, next: real)
    requires t != 0.0
    ensures IsMix(alpha, cur, 1.0 / t, discount * next, NewValue(alpha, discount, t, cur, next))
  {
    var bonus, prospect := 1.0 / t, discount * next;
    var target := if bonus > prospect then bonus else prospect;
    assert (1.0 - alpha) * cur + alpha * target - cur == alpha * (target - cur);
  }

  /** The tables after an update keep the bounds and the counts. */
  lemma Learned(visits: Table, q: Table, history: seq<Transition>, tr: Transition, alpha: real, discount: real,
      seen: real, next: real, cur: real)
    requires Bounded(q, history) && Counted(visits, history)
    requires 0.0 <= alpha <= 1.0 && 0.0 <= discount <= 1.0 && next <= 1.0
    requires seen == Count(history, tr.state, tr.action) as real
    requires cur == Lookup(q[tr.next := Row(q, tr.next)], tr.state, tr.action, 1.0)
    ensures seen + 1.0 != 0.0
    ensures var t := seen + 1.0;
            && Counted(With(With(visits, tr.state, tr.action, seen), tr.state, tr.action, t), history + [tr])
            && Bounded(With(With(q[tr.next := Row(q, tr.next)], tr.state, tr.action, cur), tr.state, tr.action,
                            NewValue(alpha, discount, t, cur, next)), history + [tr])
  {
    hide Bounded, Counted, With, Lookup, Row, NewValue, Count;
    var n := Count(history, tr.state, tr.action) + 1;
    var t := seen + 1.0;
    assert t == n as real;
    WithTwice(visits, tr.state, tr.action, seen, t);
    CountedNext(visits, history, tr);
    var r := q[tr.next := Row(q, tr.next)];
    KeepRow(q, history, tr.next);
    CurrentBounded(r, history, tr.state, tr.action);
    UpdateBounded(alpha, discount, n, cur, next);
    var val := NewValue(alpha, discount, t, cur, next);
    WithTwice(r, tr.state, tr.action, cur, val);
    CountSnoc(history, tr, tr.state, tr.action);
    UpdatedBounded(r, With(r, tr.state, tr.action, val), history, tr, val);
  }

  lemma CountedAt(visits: Table, history: seq<Transition>, s: string, a: string)
    requires Counted(visits, history)
    ensures Lookup(visits, s, a, 0.0) == Count(history, s, a) as real
  {
  }

  lemma WithTwice(t: Table, s: string, a: string, v: real, w: real)
    ensures With(With(t, s, a, v), s, a, w) == With(t, s, a, w)
  {
    assert Row(t, s)[a := v][a := w] == Row(t, s)[a := w];
  }

  lemma NextAtMostOne(q: Table, history: seq<Transition>, s: string)
    requires Bounded(q, history)
    ensures forall a | a in Row(q, s) :: s in q && q[s][a] <= 1.0
  {
    hide Bounded;
    forall a | a in Row(q, s) ensures q[s][a] <= 1.0 {
      AtMostOne(q, history, s, a);
    }
  }

  lemma NextValueIs(q: Table, history: seq<Transition>, s: string, best: string, v: real)
    requires Bounded(q, history)
    requires best != "" ==> IsMax(Row(q, s), best) && v == q[s][best]
    requires best == "" ==> v == 1.0
    requires best == "" && (exists a :: a in Row(q, s) && Row(q, s)[a] > MIN) ==> IsMax(Row(q, s), "")
    ensures IsNextValue(Row(q, s), v)
  {
    hide Bounded;
    if best == "" && Row(q, s) != map[] {
      var a :| a in Row(q, s);
      CurrentBounded(q, history, s, a);
      assert Row(q, s)[a] > MIN;
    }
  }

  lemma SameLookup(q: Table, next: string, s: string, a: string)
    ensures Lookup(q[next := Row(q, next)], s, a, 1.0) == Lookup(q, s, a, 1.0)
  {
  }

  lemma KeepRow(q: Table, history: seq<Transition>, s: string)
    requires Bounded(q, history)
    ensures Bounded(q[s := Row(q, s)], history)
  {
    var r := q[s := Row(q, s)];
    forall s', a ensures BoundedAt(r, history, s', a) {
      assert BoundedAt(q, history, s', a);
      assert Row(r, s') == Row(q, s');
    }
  }

  lemma CurrentBounded(q: Table, history: seq<Transition>, s: string, a: string)
    requires Bounded(q, history)
    ensures var t := Count(history, s, a); var v := Lookup(q, s, a, 1.0);
            if t == 0 then v == 1.0 else 0.0 < 1.0 / t as real <= v <= 1.0
  {
    assert BoundedAt(q, history, s, a);
  }

  lemma TriedOrOne(q: Table, q': Table, history: seq<Transition>, s: string, actions: seq<string>)
    requires Bounded(q, history) && Filled(q, q', s, actions, 1.0)
    ensures Bounded(q', history)
  {
    forall s', a ensures BoundedAt(q', history, s', a) {
      assert BoundedAt(q, history, s', a) && FilledAt(q, q', s, actions, 1.0, s', a);
    }
  }
}
