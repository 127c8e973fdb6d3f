/** The actions a partition state offers: every way to regroup the active nodes by color, up to
    order, is offered exactly once, and everything offered can be carried out. */
module PartitionActions {
  import opened Vectors
  import opened MultisetSpec
  import opened MultisetShapes
  import opened Packing
  import opened MultisetBags
  import opened SortedStrings
  import opened MultisetPartitions
  import opened PartitionState

  // ----- iterating over a map -----

  function Members<T(==)>(xs: seq<T>): set<T> {
    set x | x in xs
  }

  /** The members of a set in any order, as a map or a set is iterated. */
  method AnyOrder<T(==)>(s: set<T>) returns (order: seq<T>)
    ensures Distinct(order) && Members(order) == s
  {
    order := [];
    var rest := s;
    while rest != {}
      invariant rest <= s && Distinct(order)
      invariant forall x | x in order :: x in s && x !in rest
      invariant forall x | x in s :: x in rest || x in order
      decreases |rest|
    {
      var x :| x in rest;
      order, rest := order + [x], rest - {x};
    }
  }

  function ColorOf(colors: map<nat, Color>, n: nat): Color {
    if n in colors then colors[n] else ""
  }

  function ColorsOf(colors: map<nat, Color>, nodes: seq<nat>): seq<Color> {
    Map(n => ColorOf(colors, n), nodes)
  }


  /** The colors of distinct nodes count the nodes of each color. */
  lemma {:induction false} CountColors(colors: map<nat, Color>, nodes: seq<nat>, h: Color)
    requires Distinct(nodes) && forall n | n in nodes :: n in colors
    ensures multiset(ColorsOf(colors, nodes))[h] == |Colored(colors, Members(nodes), h)|
  {
    if nodes == [] {
      assert Colored(colors, Members(nodes), h) == {};
    } else {
      var l := |nodes| - 1;
      var front, n := nodes[..l], nodes[l];
      CountColors(colors, front, h);
      assert ColorsOf(colors, nodes) == ColorsOf(colors, front) + [colors[n]];
      assert n !in front;
      var before := Colored(colors, Members(front), h);
      if colors[n] == h {
        assert Colored(colors, Members(nodes), h) == before + {n};
      } else {
        assert Colored(colors, Members(nodes), h) == before;
      }
    }
  }

  // ----- the partitions on offer -----

  function Uncolored(h: Color): Elem<()> {
    Elem(h, ())
  }

  function AsElems(colors: seq<Color>): seq<Elem<()>> {
    Map(h => Uncolored(h), colors)
  }

  function AsDivision(p: seq<seq<Color>>): seq<seq<Elem<()>>> {
    Map(part => AsElems(part), p)
  }

  function AsColors(p: seq<seq<Elem<()>>>): seq<seq<Color>> {
    Map((part: seq<Elem<()>>) => KeysOf(part), p)
  }

  lemma ElemsRoundTrip(s: seq<Elem<()>>)
    ensures AsElems(KeysOf(s)) == s
  {
    forall i | 0 <= i < |s| ensures AsElems(KeysOf(s))[i] == s[i] {
      assert s[i].body == ();
    }
  }

  lemma ColorsRoundTrip(colors: seq<Color>)
    ensures KeysOf(AsElems(colors)) == colors
  {
  }

  lemma {:induction false} FlattenColors(p: seq<seq<Elem<()>>>)
    ensures Flatten(AsColors(p)) == KeysOf(Flatten(p))
  {
    if p != [] {
      FlattenColors(p[1..]);
      assert AsColors(p)[1..] == AsColors(p[1..]);
      KeysOfJoin(p[0], Flatten(p[1..]));
    }
  }

  lemma {:induction false} FlattenDivision(p: seq<seq<Color>>)
    ensures Flatten(AsDivision(p)) == AsElems(Flatten(p))
  {
    if p != [] {
      FlattenDivision(p[1..]);
      assert AsDivision(p)[1..] == AsDivision(p[1..]);
      assert AsElems(p[0] + Flatten(p[1..])) == AsElems(p[0]) + AsElems(Flatten(p[1..]));
    }
  }

  function BagsOf(p: seq<seq<Color>>): multiset<multiset<Color>> {
    multiset(Map((part: seq<Color>) => multiset(part), p))
  }

  lemma ShapeOfColors(p: seq<seq<Elem<()>>>)
    ensures Shape(p) == BagsOf(AsColors(p))
  {
    hide KeysOf;
    assert Map((part: seq<Elem<()>>) => KeyBag(part), p) == Map((part: seq<Color>) => multiset(part), AsColors(p));
  }

  lemma ColorsOfDivision(p: seq<seq<Color>>)
    ensures AsColors(AsDivision(p)) == p
  {
    hide AsElems, KeysOf;
    forall i | 0 <= i < |p| ensures AsColors(AsDivision(p))[i] == p[i] {
      ColorsRoundTrip(p[i]);
    }
  }

  /** Two partitions group the colors alike, up to the order of parts and within parts. */
  predicate SameShape(p: seq<seq<Color>>, q: seq<seq<Color>>) {
    && p != [] && q != []
    && BagsOf(p[..|p| - 1]) == BagsOf(q[..|q| - 1])
    && multiset(p[|p| - 1]) == multiset(q[|q| - 1])
  }

  /** Exactly one of `creates` has the shape of `p`. */
  predicate Once(creates: seq<seq<seq<Color>>>, p: seq<seq<Color>>) {
    exists i | 0 <= i < |creates| ::
      SameShape(creates[i], p) && forall j | 0 <= j < |creates| && SameShape(creates[j], p) :: j == i
  }

  /** `creates` are the enumerated divisions `partitions`, each with the inactive colors added. */
  ghost predicate CreatesOf(st: Partition, creates: seq<seq<seq<Color>>>, partitions: seq<seq<seq<Elem<()>>>>) {
    && |creates| == |partitions|
    && forall i | 0 <= i < |creates| ::
         && creates[i] != [] && creates[i][..|creates[i]| - 1] == AsColors(partitions[i])
         && IsInactivePart(st, creates[i][|creates[i]| - 1])
  }

  ghost predicate IsInactivePart(st: Partition, part: seq<Color>) {
    forall h :: multiset(part)[h] == |Colored(st.replicaColors, st.replicaColors.Keys - st.activeNodes, h)|
  }

  ghost predicate IsActiveElems(st: Partition, elems: seq<Elem<()>>) {
    forall h :: multiset(KeysOf(elems))[h] == |Colored(st.replicaColors, st.replicaColors.Keys * st.activeNodes, h)|
  }

  lemma SpelledNonempty(v: Vec, keys: seq<string>)
    requires |v| == |keys| && !IsZero(v) && Distinct(keys)
    ensures Spell(v, keys) != []
  {
    var c :| 0 <= c < |v| && v[c] != 0;
    BagCount(v, keys, c);
  }

  lemma DivisionOffered(st: Partition, elems: seq<Elem<()>>, keys: seq<string>, ps: Parts, p: seq<seq<Elem<()>>>,
      create: seq<seq<Color>>)
    requires elems != [] && IsActiveElems(st, elems) && IsKeyList(keys, elems)
    requires PartsOk(ps, |keys|) && Divides(p, ps, keys, elems)
    requires create != [] && create[..|create| - 1] == AsColors(p) && IsInactivePart(st, create[|create| - 1])
    ensures OfferedPartition(st, create)
  {
    hide KeysOf, Spell, Flatten, Sorted, Colored;
    forall i | 0 <= i < |p| ensures create[i] != [] {
      assert create[i] == AsColors(p)[i];
      SpelledNonempty(ps[i], keys);
    }
    FlattenColors(p);
    MapBag((e: Elem<()>) => KeyOf(e), Flatten(p), elems);
    KeysAsMap(Flatten(p));
    KeysAsMap(elems);
    SomeActive(st, elems);
  }

  lemma KeysAsMap(s: seq<Elem<()>>)
    ensures KeysOf(s) == Map((e: Elem<()>) => KeyOf(e), s)
  {
  }

  lemma SomeActive(st: Partition, elems: seq<Elem<()>>)
    requires elems != [] && IsActiveElems(st, elems)
    ensures st.activeNodes * st.replicaColors.Keys != {}
  {
    var h := KeysOf(elems)[0];
    assert multiset(KeysOf(elems))[h] > 0;
    var n :| n in Colored(st.replicaColors, st.replicaColors.Keys * st.activeNodes, h);
    assert n in st.activeNodes * st.replicaColors.Keys;
  }

  lemma AllOffered(st: Partition, elems: seq<Elem<()>>, keys: seq<string>, partitions: seq<seq<seq<Elem<()>>>>,
      creates: seq<seq<seq<Color>>>, i: nat)
    requires elems != [] && IsActiveElems(st, elems)
    requires AllDivisions(partitions, keys, elems) && CreatesOf(st, creates, partitions) && i < |creates|
    ensures OfferedPartition(st, creates[i])
  {
    hide Enumerate, Divides, OfferedPartition, Totals, Descends, Counts, IsKeyList;
    var u := Counts(elems, keys);
    CountsPositive(elems, keys);
    CountsLength(elems, keys);
    LexReflexive(u);
    ListsExactlyPartitions(u, Enumerate(u, u)[i]);
    DivisionOffered(st, elems, keys, Enumerate(u, u)[i], partitions[i], creates[i]);
  }

  /** Every regrouping of the active nodes' colors is created exactly once. */
  lemma EachOfferedOnce(st: Partition, elems: seq<Elem<()>>, keys: seq<string>, partitions: seq<seq<seq<Elem<()>>>>,
      creates: seq<seq<seq<Color>>>, p: seq<seq<Color>>)
    requires elems != [] && IsActiveElems(st, elems)
    requires AllDivisions(partitions, keys, elems) && CreatesOf(st, creates, partitions)
    requires OfferedPartition(st, p)
    ensures Once(creates, p)
  {
    hide Enumerate, AllDivisions, KeysOf, Flatten, Colored, AsColors, AsDivision, AsElems, BagsOf, Shape;
    var n := |p| - 1;
    var d := AsDivision(p[..n]);
    OfferedDivides(st, elems, p);
    var i := EveryShapeOnce(partitions, keys, elems, d);
    ColorsOfDivision(p[..n]);
    ShapeOfColors(d);
    ShapeOfColors(partitions[i]);
    assert multiset(creates[i][|creates[i]| - 1]) == multiset(p[n]);
    assert SameShape(creates[i], p);
    forall j | 0 <= j < |creates| && SameShape(creates[j], p) ensures j == i {
      ShapeOfColors(partitions[j]);
    }
  }

  lemma OfferedDivides(st: Partition, elems: seq<Elem<()>>, p: seq<seq<Color>>)
    requires IsActiveElems(st, elems) && OfferedPartition(st, p)
    ensures var d := AsDivision(p[..|p| - 1]);
            multiset(Flatten(d)) == multiset(elems) && forall part | part in d :: part != []
  {
    hide KeysOf, Flatten, Colored;
    var n := |p| - 1;
    FlattenDivision(p[..n]);
    assert multiset(Flatten(p[..n])) == multiset(KeysOf(elems));
    MapBag(h => Uncolored(h), Flatten(p[..n]), KeysOf(elems));
    ElemsRoundTrip(elems);
    ElemsAsMap(Flatten(p[..n]));
    ElemsAsMap(KeysOf(elems));
    forall part | part in AsDivision(p[..n]) ensures part != [] {
      var i :| 0 <= i < n && part == AsElems(p[i]);
    }
  }

  lemma ElemsAsMap(colors: seq<Color>)
    ensures AsElems(colors) == Map(h => Uncolored(h), colors)
  {
  }

  // ----- computing the actions -----

  function WhoIs(st: Partition, active: bool): set<nat> {
    if active then st.replicaColors.Keys * st.activeNodes else st.replicaColors.Keys - st.activeNodes
  }

  /** The colors of the nodes that are, or are not, active. */
  method ColorsByActivity(st: Partition, active: bool) returns (colors: seq<Color>)
    ensures forall h :: multiset(colors)[h] ==
              |Colored(st.replicaColors, WhoIs(st, active), h)|
  {
    var order := AnyOrder(st.replicaColors.Keys);
    colors := [];
    ghost var kept: seq<nat> := [];
    for i := 0 to |order|
      invariant Distinct(kept) && colors == ColorsOf(st.replicaColors, kept)
      invariant forall n | n in kept :: n in order[..i] && n in st.replicaColors && (n in st.activeNodes <==> active)
      invariant forall n | n in order[..i] && (n in st.activeNodes <==> active) :: n in kept
    {
      assert order[..i + 1] == order[..i] + [order[i]];
      var n := order[i];
      if n in st.activeNodes <==> active {
        colors, kept := colors + [st.replicaColors[n]], kept + [n];
      }
    }
    assert order[..|order|] == order;
    assert Members(kept) == WhoIs(st, active);
    forall h ensures multiset(colors)[h] ==
              |Colored(st.replicaColors, WhoIs(st, active), h)| {
      CountColors(st.replicaColors, kept, h);
    }
  }

  method CreateActions(st: Partition) returns (creates: seq<seq<seq<Color>>>)
    ensures st.activeNodes * st.replicaColors.Keys == {} <==> creates == []
    ensures forall i | 0 <= i < |creates| :: OfferedPartition(st, creates[i])
    ensures forall p | OfferedPartition(st, p) :: Once(creates, p)
  {
    hide Colored, KeysOf, AllDivisions, OfferedPartition, Once, AsElems, AsColors;
    var colors := ColorsByActivity(st, true);
    creates := [];
    ActiveShown(st, colors);
    if colors == [] {
      assert st.activeNodes * st.replicaColors.Keys == {};
      NothingOffered(st);
      return;
    }
    var elems := AsElems(colors);
    ElemsLength(colors);
    ColorsRoundTrip(colors);
    assert IsActiveElems(st, elems);
    var partitions := EnumeratePartitions(elems);
    ghost var keys :| AllDivisions(partitions, keys, elems);
    SomeListed(partitions, keys, elems);
    for i := 0 to |partitions|
      invariant |creates| == i && CreatesOf(st, creates, partitions[..i])
    {
      var inactive := ColorsByActivity(st, false);
      assert partitions[..i + 1] == partitions[..i] + [partitions[i]];
      var create := AsColors(partitions[i]) + [inactive];
      assert create[..|create| - 1] == AsColors(partitions[i]);
      creates := creates + [create];
    }
    assert partitions[..|partitions|] == partitions;
    forall i | 0 <= i < |creates| ensures OfferedPartition(st, creates[i]) {
      AllOffered(st, elems, keys, partitions, creates, i);
    }
    forall p | OfferedPartition(st, p) ensures Once(creates, p) {
      EachOfferedOnce(st, elems, keys, partitions, creates, p);
    }
    SomeActive(st, elems);
  }

  lemma ElemsLength(colors: seq<Color>)
    ensures |AsElems(colors)| == |colors|
  {
  }

  lemma ActiveShown(st: Partition, colors: seq<Color>)
    requires forall h :: multiset(colors)[h] == |Colored(st.replicaColors, WhoIs(st, true), h)|
    ensures forall n | n in st.activeNodes * st.replicaColors.Keys :: st.replicaColors[n] in colors
  {
    forall n | n in st.activeNodes * st.replicaColors.Keys ensures st.replicaColors[n] in colors {
      assert n in Colored(st.replicaColors, WhoIs(st, true), st.replicaColors[n]);
      assert multiset(colors)[st.replicaColors[n]] > 0;
    }
  }

  lemma NothingOffered(st: Partition)
    requires st.activeNodes * st.replicaColors.Keys == {}
    ensures forall p :: !OfferedPartition(st, p)
  {
  }

  /** There is always at least the partition with a single part. */
  lemma SomeListed<T>(partitions: seq<seq<seq<Elem<T>>>>, keys: seq<string>, s: seq<Elem<T>>)
    requires s != [] && AllDivisions(partitions, keys, s)
    ensures partitions != []
  {
    hide AllDivisions;
    assert Flatten([s]) == s + Flatten<Elem<T>>([]) == s by {
      assert [s][1..] == [];
    }
    var i := EveryShapeOnce(partitions, keys, s, [s]);
  }

  /** The colors that label the stop actions: those of active nodes. */
  method ActiveColors(st: Partition) returns (colors: set<Color>)
    ensures forall c :: c in colors <==> exists n :: n in st.replicaColors && n in st.activeNodes && st.replicaColors[n] == c
  {
    colors := set n | n in st.replicaColors && n in st.activeNodes :: st.replicaColors[n];
  }

  method ByzantineColors(st: Partition) returns (colors: set<Color>)
    ensures forall c :: c in colors <==> exists n ::
              n in st.replicaColors && n in st.activeNodes && n !in st.byzantineNodes && st.replicaColors[n] == c
  {
    colors := set n | n in st.replicaColors && n !in st.byzantineNodes && n in st.activeNodes :: st.replicaColors[n];
  }

  /** What the agent is offered: exactly the actions that are `Offered`, a regrouping once for each shape. */
  method Actions(st: Partition) returns (actions: seq<Action>, ghost creates: seq<seq<seq<Color>>>)
    ensures forall a | a in actions :: Offered(st, a)
    ensures forall a | Offered(st, a) && !a.CreatePartition? :: a in actions
    ensures forall a | a in actions && a.CreatePartition? :: a.partition in creates
    ensures forall p | p in creates :: CreatePartition(p) in actions
    ensures forall p | OfferedPartition(st, p) :: Once(creates, p)
  {
    hide OfferedPartition, Once;
    actions := [];
    var offered := CreateActions(st);
    creates := offered;
    if offered != [] {
      actions := [KeepSamePartition];
      for i := 0 to |offered|
        invariant KeepSamePartition in actions
        invariant forall a | a in actions :: a == KeepSamePartition || (a.CreatePartition? && a.partition in offered)
        invariant forall k | 0 <= k < i :: CreatePartition(offered[k]) in actions
      {
        actions := actions + [CreatePartition(offered[i])];
      }
    }
    var more := OtherActions(st);
    actions := actions + more;
  }

  method StopActions(st: Partition) returns (actions: seq<Action>)
    requires StopsOffered(st)
    ensures forall a :: a in actions <==> a.StopStart? && a.action == "Stop" && Offered(st, a)
  {
    var colors := ActiveColors(st);
    var order := AnyOrder(colors);
    actions := [];
    for i := 0 to |order|
      invariant forall a | a in actions :: a.StopStart? && a.action == "Stop" && a.color in colors
      invariant forall k | 0 <= k < i :: StopStart(order[k], "Stop") in actions
    {
      actions := actions + [StopStart(order[i], "Stop")];
    }
    forall a: Action | a.StopStart? && a.action == "Stop" && a.color in colors ensures a in actions {
      var k :| 0 <= k < |order| && order[k] == a.color;
    }
  }

  method ByzantineActions(st: Partition) returns (actions: seq<Action>)
    requires st.withByzantine && st.remainingByzantine > 0
    ensures forall a :: a in actions <==> a.Byzantine? && Offered(st, a)
  {
    var colors := ByzantineColors(st);
    var order := AnyOrder(colors);
    actions := [];
    for i := 0 to |order|
      invariant forall a | a in actions :: a.Byzantine? && a.color in colors
      invariant forall k | 0 <= k < i :: Byzantine(order[k]) in actions
    {
      actions := actions + [Byzantine(order[i])];
    }
    forall a: Action | a.Byzantine? && a.color in colors ensures a in actions {
      var k :| 0 <= k < |order| && order[k] == a.color;
    }
  }

  /** The actions that do not regroup. */
  method OtherActions(st: Partition) returns (actions: seq<Action>)
    ensures forall a :: a in actions <==> Offered(st, a) && !a.CreatePartition? && !a.KeepSamePartition?
  {
    hide OfferedPartition;
    actions := [];
    if st.withCrashes {
      var total := |st.replicaColors|;
      var inactive := total - |st.activeNodes|;
      if st.remainingCrashes > 0 && (inactive < st.maxInactive || st.maxInactive == 0) {
        actions := StopActions(st);
      }
      if inactive > 0 {
        actions := actions + [StopStart("", "Start")];
      }
    }
    if st.canDeliverRequest && |st.pendingRequests| > 0 {
      actions := actions + [SendRequest];
    }
    if st.withByzantine && st.remainingByzantine > 0 {
      var more := ByzantineActions(st);
      actions := actions + more;
    }
  }

  // ----- partitions of nodes -----

  function AsColorParts(colors: map<nat, Color>, q: seq<seq<nat>>): seq<seq<Color>> {
    Map(part => ColorsOf(colors, part), q)
  }

  lemma {:induction false} FlattenColorParts(colors: map<nat, Color>, q: seq<seq<nat>>)
    ensures Flatten(AsColorParts(colors, q)) == ColorsOf(colors, Flatten(q))
  {
    if q != [] {
      FlattenColorParts(colors, q[1..]);
      assert AsColorParts(colors, q)[1..] == AsColorParts(colors, q[1..]);
      assert ColorsOf(colors, q[0] + Flatten(q[1..])) == ColorsOf(colors, q[0]) + ColorsOf(colors, Flatten(q[1..]));
    }
  }

  /** Whichever way the active nodes are divided into nonempty parts, exactly one action regroups
      the colors like that. */
  lemma NodePartitionOnce(st: Partition, creates: seq<seq<seq<Color>>>, q: seq<seq<nat>>, inactive: seq<nat>)
    requires st.activeNodes <= st.replicaColors.Keys && st.activeNodes != {}
    requires forall p | OfferedPartition(st, p) :: Once(creates, p)
    requires Distinct(Flatten(q)) && Members(Flatten(q)) == st.activeNodes && forall part | part in q :: part != []
    requires Distinct(inactive) && Members(inactive) == st.replicaColors.Keys - st.activeNodes
    ensures Once(creates, AsColorParts(st.replicaColors, q) + [ColorsOf(st.replicaColors, inactive)])
  {
    hide Once, Flatten, Colored;
    var colors := st.replicaColors;
    var p := AsColorParts(colors, q) + [ColorsOf(colors, inactive)];
    var n := |p| - 1;
    assert p[..n] == AsColorParts(colors, q);
    FlattenColorParts(colors, q);
    assert colors.Keys * st.activeNodes == st.activeNodes == Members(Flatten(q));
    InMembers(Flatten(q));
    InMembers(inactive);
    forall h ensures multiset(Flatten(p[..n]))[h] == |Colored(colors, colors.Keys * st.activeNodes, h)| {
      CountColors(colors, Flatten(q), h);
    }
    forall h ensures multiset(p[n])[h] == |Colored(colors, colors.Keys - st.activeNodes, h)| {
      CountColors(colors, inactive, h);
    }
    forall i | 0 <= i < n ensures p[i] != [] {
      assert q[i] in q;
    }
    assert OfferedPartition(st, p);
  }

  lemma InMembers(nodes: seq<nat>)
    ensures forall n | n in nodes :: n in Members(nodes)
  {
  }
}
