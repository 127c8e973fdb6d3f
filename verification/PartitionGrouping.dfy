/** The loops that group nodes into parts, hand nodes to the parts an action asks for, and show
    the parts as sorted colors. */
module PartitionGrouping {
  import opened MultisetBags
  import opened SortedStrings
  import opened PartitionState
  import opened PartitionActions

  /** `parts` lists, for every part, the nodes the map puts there, each once. */
  ghost predicate MapLists(parts: seq<seq<nat>>, pm: map<nat, nat>) {
    && (forall n | n in pm :: pm[n] < |parts| && n in parts[pm[n]])
    && (forall i | 0 <= i < |parts| :: Distinct(parts[i]) && forall n | n in parts[i] :: n in pm && pm[n] == i)
  }

  /** Groups the nodes by the map into `k` parts. */
  method GroupNodes(pm: map<nat, nat>, k: nat) returns (parts: seq<seq<nat>>)
    requires forall n | n in pm :: pm[n] < k
    ensures |parts| == k && MapLists(parts, pm)
  {
    parts := seq(k, _ => []);
    var order := AnyOrder(pm.Keys);
    for i := 0 to |order|
      invariant |parts| == k
      invariant forall p | 0 <= p < k :: Distinct(parts[p])
      invariant forall p, n | 0 <= p < k && n in parts[p] :: n in pm && pm[n] == p && n in order[..i]
      invariant forall j | 0 <= j < i :: order[j] in parts[pm[order[j]]]
    {
      var n := order[i];
      assert n in pm;
      assert order[..i + 1] == order[..i] + [n];
      parts := parts[pm[n] := parts[pm[n]] + [n]];
    }
  }

  lemma PartColors(parts: seq<seq<nat>>, colors: map<nat, Color>, pm: map<nat, nat>, i: nat, sorted: seq<Color>)
    requires MapLists(parts, pm) && pm.Keys <= colors.Keys && i < |parts|
    requires multiset(sorted) == multiset(ColorsOf(colors, parts[i]))
    ensures PartIs(sorted, colors, pm, i) && |sorted| == |parts[i]|
  {
    hide ColorsOf;
    forall h ensures multiset(sorted)[h] == |NodesOf(colors, pm, i, h)| {
      CountColors(colors, parts[i], h);
      assert Colored(colors, Members(parts[i]), h) == NodesOf(colors, pm, i, h);
    }
    ColorsOfLength(colors, parts[i]);
    assert |multiset(sorted)| == |sorted|;
    assert |multiset(ColorsOf(colors, parts[i]))| == |ColorsOf(colors, parts[i])|;
  }

  lemma ColorsOfLength(colors: map<nat, Color>, nodes: seq<nat>)
    ensures |ColorsOf(colors, nodes)| == |nodes|
  {
  }

  function Below(n: nat): (r: set<nat>)
    ensures |r| == n && forall i :: i in r <==> 0 <= i < n
  {
    if n == 0 then {} else Below(n - 1) + {n - 1}
  }

  lemma {:induction false} DistinctSize<T>(order: seq<T>)
    requires Distinct(order)
    ensures |Members(order)| == |order|
  {
    if order != [] {
      var l := |order| - 1;
      DistinctSize(order[..l]);
      assert Members(order) == Members(order[..l]) + {order[l]};
      assert order[l] !in order[..l];
    }
  }

  lemma BelowOrder(order: seq<nat>, n: nat)
    requires Distinct(order) && Members(order) == Below(n)
    ensures IsPermutation(order, n)
  {
    DistinctSize(order);
    assert forall i | 0 <= i < |order| :: order[i] in Members(order);
  }

  predicate Reordered<T(==)>(xs: seq<T>, ys: seq<T>, perm: seq<nat>) {
    IsPermutation(perm, |xs|) && |ys| == |xs| && forall i | 0 <= i < |ys| :: ys[i] == xs[perm[i]]
  }

  /** A sort whose order does not matter: some permutation. */
  method Reorder<T(==)>(xs: seq<T>) returns (ys: seq<T>)
    ensures exists perm :: Reordered(xs, ys, perm)
  {
    ys := [];
    var order := AnyOrder(Below(|xs|));
    BelowOrder(order, |xs|);
    for i := 0 to |order|
      invariant |ys| == i && forall j | 0 <= j < i :: ys[j] == xs[order[j]]
    {
      ys := ys + [xs[order[i]]];
    }
    assert Reordered(xs, ys, order);
  }

  /** Shows the parts as colors: sorted within each part, the parts in some order. */
  method ShowParts(parts: seq<seq<nat>>, colors: map<nat, Color>, ghost pm: map<nat, nat>) returns (partition: seq<seq<Color>>)
    requires MapLists(parts, pm) && pm.Keys <= colors.Keys
    ensures |partition| == |parts| && Arranged(partition, colors, pm)
    ensures forall part | part in partition :: Sorted(part)
    ensures (forall part | part in parts :: part != []) ==> forall i | 0 <= i < |partition| :: partition[i] != []
  {
    hide MapLists, Sorted, ColorsOf, PartIs;
    var shown: seq<seq<Color>> := [];
    for i := 0 to |parts|
      invariant |shown| == i
      invariant forall p | 0 <= p < i :: PartIs(shown[p], colors, pm, p) && Sorted(shown[p]) && |shown[p]| == |parts[p]|
    {
      var sorted := SortStrings(ColorsOf(colors, parts[i]));
      PartColors(parts, colors, pm, i, sorted);
      shown := shown + [sorted];
    }
    partition := Reorder(shown);
    ghost var perm :| Reordered(shown, partition, perm);
    assert ArrangedBy(partition, colors, pm, perm);
    InRange(parts, pm);
    assert forall i | 0 <= i < |partition| :: |partition[i]| == |parts[perm[i]]| && parts[perm[i]] in parts;
  }

  lemma InRange(parts: seq<seq<nat>>, pm: map<nat, nat>)
    requires MapLists(parts, pm)
    ensures forall n | n in pm :: pm[n] < |parts|
  {
  }

  // ----- handing out nodes by color -----

  /** The buckets hold, by color, the nodes not yet used. */
  ghost predicate BucketsOk(buckets: map<Color, seq<nat>>, colors: map<nat, Color>, used: set<nat>) {
    && (forall h | h in buckets :: Distinct(buckets[h]))
    && (forall h, n | h in buckets && n in buckets[h] :: n in colors && colors[n] == h && n !in used)
    && (forall n | n in colors && n !in used :: colors[n] in buckets && n in buckets[colors[n]])
  }

  method FillBuckets(colors: map<nat, Color>) returns (buckets: map<Color, seq<nat>>)
    ensures BucketsOk(buckets, colors, {})
  {
    buckets := map[];
    var order := AnyOrder(colors.Keys);
    for i := 0 to |order|
      invariant forall h | h in buckets :: Distinct(buckets[h])
      invariant forall h, n | h in buckets && n in buckets[h] :: n in colors && colors[n] == h && n in order[..i]
      invariant forall j | 0 <= j < i :: colors[order[j]] in buckets && order[j] in buckets[colors[order[j]]]
    {
      var r := order[i];
      assert r in colors;
      assert order[..i + 1] == order[..i] + [r];
      var h := colors[r];
      if h !in buckets {
        buckets := buckets[h := []];
      }
      buckets := buckets[h := buckets[h] + [r]];
    }
  }

  /** While a color is still owed, its bucket is not empty. */
  lemma BucketNotEmpty(buckets: map<Color, seq<nat>>, colors: map<nat, Color>, used: set<nat>, h: Color)
    requires BucketsOk(buckets, colors, used) && |Colored(colors, used, h)| < ColorCount(colors, h)
    ensures h in buckets && buckets[h] != []
  {
    if Colored(colors, colors.Keys, h) <= Colored(colors, used, h) {
      SubsetSize(Colored(colors, colors.Keys, h), Colored(colors, used, h));
    } else {
      var n :| n in Colored(colors, colors.Keys, h) && n !in Colored(colors, used, h);
      assert n in colors && n !in used;
    }
  }

  lemma {:induction false} SubsetSize(a: set<nat>, b: set<nat>)
    requires a <= b
    ensures |a| <= |b|
  {
    assert b == a + (b - a);
  }

  lemma UseNode(buckets: map<Color, seq<nat>>, colors: map<nat, Color>, used: set<nat>, h: Color)
    requires BucketsOk(buckets, colors, used) && h in buckets && buckets[h] != []
    ensures var n := buckets[h][0];
            && n in colors && colors[n] == h && n !in used
            && BucketsOk(buckets[h := buckets[h][1..]], colors, used + {n})
  {
    var n := buckets[h][0];
    assert n in buckets[h];
    assert buckets[h] == [n] + buckets[h][1..];
  }

  lemma CountUsed(colors: map<nat, Color>, used: set<nat>, n: nat, h: Color)
    requires n in colors && n !in used
    ensures |Colored(colors, used + {n}, h)| == |Colored(colors, used, h)| + if colors[n] == h then 1 else 0
  {
    if colors[n] == h {
      assert Colored(colors, used + {n}, h) == Colored(colors, used, h) + {n};
    } else {
      assert Colored(colors, used + {n}, h) == Colored(colors, used, h);
    }
  }

  lemma ListNext(parts: seq<seq<nat>>, nodes: seq<nat>, pm: map<nat, nat>, n: nat)
    requires MapLists(parts + [nodes], pm) && n !in pm
    ensures MapLists(parts + [nodes + [n]], pm[n := |parts|])
  {
    var before, after := parts + [nodes], parts + [nodes + [n]];
    assert forall i | 0 <= i < |parts| :: after[i] == before[i];
    assert before[|parts|] == nodes && after[|parts|] == nodes + [n];
    assert n !in nodes;
  }

  /** How often the nodes used so far have each color. */
  ghost predicate UsedUp(colors: map<nat, Color>, used: set<nat>, taken: seq<Color>) {
    forall h :: |Colored(colors, used, h)| == multiset(taken)[h]
  }

  lemma UseUp(colors: map<nat, Color>, used: set<nat>, taken: seq<Color>, n: nat)
    requires UsedUp(colors, used, taken) && n in colors && n !in used
    ensures UsedUp(colors, used + {n}, taken + [colors[n]])
  {
    forall h ensures |Colored(colors, used + {n}, h)| == multiset(taken + [colors[n]])[h] {
      CountUsed(colors, used, n, h);
    }
  }

  /** Takes a node for every color of one part. */
  method AssignPart(part: seq<Color>, buckets: map<Color, seq<nat>>, colors: map<nat, Color>, pm: map<nat, nat>,
      ghost taken: seq<Color>, parts: seq<seq<nat>>)
    returns (nodes: seq<nat>, buckets': map<Color, seq<nat>>, pm': map<nat, nat>)
    requires BucketsOk(buckets, colors, pm.Keys) && MapLists(parts, pm) && UsedUp(colors, pm.Keys, taken)
    requires pm.Keys <= colors.Keys
    requires forall h :: multiset(taken + part)[h] <= ColorCount(colors, h)
    ensures BucketsOk(buckets', colors, pm'.Keys) && MapLists(parts + [nodes], pm') && UsedUp(colors, pm'.Keys, taken + part)
    ensures pm'.Keys <= colors.Keys && ColorsOf(colors, nodes) == part
  {
    hide BucketsOk, MapLists, UsedUp, ColorCount, Colored;
    nodes, buckets', pm' := [], buckets, pm;
    NewPart(parts, pm);
    assert taken + part[..0] == taken;
    for j := 0 to |part|
      invariant BucketsOk(buckets', colors, pm'.Keys) && MapLists(parts + [nodes], pm')
      invariant UsedUp(colors, pm'.Keys, taken + part[..j])
      invariant pm'.Keys <= colors.Keys && ColorsOf(colors, nodes) == part[..j]
    {
      var h := part[j];
      Owed(colors, pm'.Keys, taken, part, j);
      BucketNotEmpty(buckets', colors, pm'.Keys, h);
      UseNode(buckets', colors, pm'.Keys, h);
      var n := buckets'[h][0];
      UseUp(colors, pm'.Keys, taken + part[..j], n);
      assert taken + part[..j] + [h] == taken + part[..j + 1];
      ListNext(parts, nodes, pm', n);
      assert pm'[n := |parts|].Keys == pm'.Keys + {n};
      buckets' := buckets'[h := buckets'[h][1..]];
      nodes := nodes + [n];
      pm' := pm'[n := |parts|];
    }
    assert part[..|part|] == part;
  }

  lemma NewPart(parts: seq<seq<nat>>, pm: map<nat, nat>)
    requires MapLists(parts, pm)
    ensures MapLists(parts + [[]], pm)
  {
    var after := parts + [[]];
    assert forall i | 0 <= i < |parts| :: after[i] == parts[i];
  }

  lemma Owed(colors: map<nat, Color>, used: set<nat>, taken: seq<Color>, part: seq<Color>, j: nat)
    requires j < |part| && UsedUp(colors, used, taken + part[..j])
    requires forall h :: multiset(taken + part)[h] <= ColorCount(colors, h)
    ensures |Colored(colors, used, part[j])| < ColorCount(colors, part[j])
  {
    hide ColorCount, Colored;
    assert taken + part == taken + part[..j] + ([part[j]] + part[j + 1..]);
  }

  /** Hands every part the nodes it asks for. The buckets never run dry when there are enough
      nodes of every color, and every node is used when the parts ask for all. */
  method AssignReplicas(colors: map<nat, Color>, p: seq<seq<Color>>) returns (parts: seq<seq<nat>>, pm: map<nat, nat>)
    requires Enough(colors, p)
    ensures |parts| == |p| && MapLists(parts, pm) && Regrouped(colors, p, pm)
    ensures UsesAll(colors, p) ==> pm.Keys == colors.Keys
  {
    hide BucketsOk, MapLists, UsedUp, Flatten, Regrouped, UsesAll, ColorsOf, ColorCount, Colored;
    var buckets := FillBuckets(colors);
    parts, pm := [], map[];
    NothingAssigned(colors, pm);
    assert p[..0] == [];
    for i := 0 to |p|
      invariant |parts| == i && pm.Keys <= colors.Keys
      invariant BucketsOk(buckets, colors, pm.Keys) && MapLists(parts, pm) && UsedUp(colors, pm.Keys, Flatten(p[..i]))
      invariant forall k | 0 <= k < i :: ColorsOf(colors, parts[k]) == p[k]
    {
      assert p[..i + 1] == p[..i] + [p[i]];
      FlattenSnoc(p[..i], p[i]);
      forall h ensures multiset(Flatten(p[..i]) + p[i])[h] <= ColorCount(colors, h) {
        FlattenPrefix(p, i + 1, h);
      }
      var nodes;
      nodes, buckets, pm := AssignPart(p[i], buckets, colors, pm, Flatten(p[..i]), parts);
      parts := parts + [nodes];
    }
    assert p[..|p|] == p;
    AssignedAll(colors, p, parts, pm);
  }

  lemma NothingAssigned(colors: map<nat, Color>, pm: map<nat, nat>)
    requires pm == map[]
    ensures pm.Keys == {} && MapLists([], pm) && UsedUp(colors, {}, Flatten([]))
  {
    assert pm.Keys == {};
    assert forall h :: Colored(colors, {}, h) == {};
  }

  lemma AssignedAll(colors: map<nat, Color>, p: seq<seq<Color>>, parts: seq<seq<nat>>, pm: map<nat, nat>)
    requires |parts| == |p| && MapLists(parts, pm) && pm.Keys <= colors.Keys && UsedUp(colors, pm.Keys, Flatten(p))
    requires forall k | 0 <= k < |p| :: ColorsOf(colors, parts[k]) == p[k]
    ensures Regrouped(colors, p, pm)
    ensures UsesAll(colors, p) ==> pm.Keys == colors.Keys
  {
    hide ColorsOf, Flatten;
    forall i | 0 <= i < |p| ensures PartIs(p[i], colors, pm, i) {
      PartColors(parts, colors, pm, i, p[i]);
    }
    if UsesAll(colors, p) {
      forall n | n in colors ensures n in pm {
        var h := colors[n];
        assert Colored(colors, pm.Keys, h) <= Colored(colors, colors.Keys, h);
        SameSize(Colored(colors, pm.Keys, h), Colored(colors, colors.Keys, h));
        assert n in Colored(colors, colors.Keys, h);
      }
    }
  }

  lemma SameSize(a: set<nat>, b: set<nat>)
    requires a <= b && |a| == |b|
    ensures a == b
  {
    assert b == a + (b - a);
  }

  // ----- removing empty parts -----

  /** The parts that hold a node, in order. */
  method DropEmpty(parts: seq<seq<nat>>) returns (r: seq<seq<nat>>)
    ensures exists kept :: Kept(r, parts, kept)
  {
    r := [];
    ghost var kept: seq<nat> := [];
    for i := 0 to |parts|
      invariant |r| == |kept| && Distinct(kept)
      invariant forall k | 0 <= k < |r| :: kept[k] < i && r[k] == parts[kept[k]] && r[k] != []
      invariant forall k | 0 <= k < i && parts[k] != [] :: k in kept
    {
      if |parts[i]| != 0 {
        r := r + [parts[i]];
        kept := kept + [i];
      }
    }
    assert Kept(r, parts, kept);
  }

  method NumberPart(part: seq<nat>, i: nat, base: map<nat, nat>) returns (pm: map<nat, nat>)
    ensures pm == base + map n | n in part :: i
  {
    pm := base;
    for j := 0 to |part|
      invariant pm == base + map n | n in part[..j] :: i
    {
      assert part[..j + 1] == part[..j] + [part[j]];
      pm := pm[part[j] := i];
    }
    assert part[..|part|] == part;
  }

  /** `parts` are the nonempty parts among `all`. */
  ghost predicate Kept(parts: seq<seq<nat>>, all: seq<seq<nat>>, kept: seq<nat>) {
    && |parts| == |kept| && Distinct(kept)
    && (forall i | 0 <= i < |parts| :: kept[i] < |all| && parts[i] == all[kept[i]] && parts[i] != [])
    && (forall i | 0 <= i < |all| && all[i] != [] :: i in kept)
  }

  lemma KeptApart(parts: seq<seq<nat>>, all: seq<seq<nat>>, kept: seq<nat>, places: map<nat, nat>, i: nat, k: nat, n: nat)
    requires MapLists(all, places) && Kept(parts, all, kept) && i < |parts| && k < |parts| && n in parts[i] && n in parts[k]
    ensures i == k && n in places
  {
    assert n in all[kept[i]] && n in all[kept[k]];
  }

  lemma KeptPlace(parts: seq<seq<nat>>, all: seq<seq<nat>>, kept: seq<nat>, places: map<nat, nat>, n: nat) returns (k: nat)
    requires MapLists(all, places) && Kept(parts, all, kept) && n in places
    ensures k < |kept| == |parts| && kept[k] == places[n] && n in parts[k]
  {
    assert n in all[places[n]];
    k :| 0 <= k < |kept| && kept[k] == places[n];
  }

  /** Numbers the parts: every node is mapped to the number of its part. */
  method NumberParts(parts: seq<seq<nat>>, base: map<nat, nat>, ghost places: map<nat, nat>, ghost kept: seq<nat>,
      ghost all: seq<seq<nat>>)
    returns (pm: map<nat, nat>)
    requires MapLists(all, places) && places.Keys == base.Keys && Kept(parts, all, kept)
    ensures pm.Keys == base.Keys && MapLists(parts, pm)
    ensures forall n | n in pm :: pm[n] < |kept| && kept[pm[n]] == places[n]
  {
    hide MapLists, Kept;
    pm := base;
    for i := 0 to |parts|
      invariant pm.Keys == base.Keys
      invariant forall k, n | 0 <= k < i && n in parts[k] :: n in pm && pm[n] == k
    {
      forall k, n | 0 <= k < |parts| && n in parts[k] && n in parts[i] ensures k == i && n in base {
        KeptApart(parts, all, kept, places, i, k, n);
      }
      assert forall n | n in parts[i] :: n in base;
      pm := NumberPart(parts[i], i, pm);
    }
    Numbered(parts, all, kept, places, pm);
  }

  lemma Numbered(parts: seq<seq<nat>>, all: seq<seq<nat>>, kept: seq<nat>, places: map<nat, nat>, pm: map<nat, nat>)
    requires MapLists(all, places) && Kept(parts, all, kept) && pm.Keys == places.Keys
    requires forall k, n | 0 <= k < |parts| && n in parts[k] :: n in pm && pm[n] == k
    ensures MapLists(parts, pm)
    ensures |parts| == |kept| && forall n | n in pm :: pm[n] < |kept| && kept[pm[n]] == places[n]
  {
    forall n | n in pm ensures pm[n] < |kept| == |parts| && kept[pm[n]] == places[n] && n in parts[pm[n]] {
      var k := KeptPlace(parts, all, kept, places, n);
      assert n in parts[k];
    }
  }

  // ----- the partition shown -----

  /** The nodes of color `h` in the parts with the given numbers. */
  function NodesIn(colors: map<nat, Color>, pm: map<nat, nat>, parts: set<nat>, h: Color): set<nat> {
    set n | n in pm && n in colors && pm[n] in parts && colors[n] == h
  }

  lemma {:induction false} ShownCount(partition: seq<seq<Color>>, colors: map<nat, Color>, pm: map<nat, nat>, perm: seq<nat>, k: nat, h: Color)
    requires ArrangedBy(partition, colors, pm, perm) && k <= |partition|
    ensures multiset(Flatten(partition[..k]))[h] == |NodesIn(colors, pm, Members(perm[..k]), h)|
  {
    if k == 0 {
      assert NodesIn(colors, pm, Members(perm[..0]), h) == {};
    } else {
      hide NodesIn, NodesOf;
      ShownCount(partition, colors, pm, perm, k - 1, h);
      assert partition[..k] == partition[..k - 1] + [partition[k - 1]];
      FlattenSnoc(partition[..k - 1], partition[k - 1]);
      NodesInNext(colors, pm, perm, k, h);
      assert PartIs(partition[k - 1], colors, pm, perm[k - 1]);
    }
  }

  lemma NodesInNext(colors: map<nat, Color>, pm: map<nat, nat>, perm: seq<nat>, k: nat, h: Color)
    requires Distinct(perm) && 0 < k <= |perm|
    ensures |NodesIn(colors, pm, Members(perm[..k]), h)|
         == |NodesIn(colors, pm, Members(perm[..k - 1]), h)| + |NodesOf(colors, pm, perm[k - 1], h)|
  {
    assert perm[..k] == perm[..k - 1] + [perm[k - 1]];
    var before, now := Members(perm[..k - 1]), Members(perm[..k]);
    assert now == before + {perm[k - 1]} && perm[k - 1] !in before;
    assert NodesIn(colors, pm, now, h) == NodesIn(colors, pm, before, h) + NodesOf(colors, pm, perm[k - 1], h);
  }

  lemma PermutationCovers(perm: seq<nat>, n: nat)
    requires IsPermutation(perm, n)
    ensures forall p: nat | p < n :: p in Members(perm)
  {
    DistinctSize(perm);
    SameSize(Members(perm), Below(n));
    assert forall p: nat | p < n :: p in Below(n);
  }

  /** The partition shown to the agent shows the color of every node exactly once. */
  lemma ShowsEveryNodeOnce(cfg: Config, st: Partition, h: Color)
    requires Inv(cfg, st)
    ensures multiset(Flatten(st.partition))[h] == |Colored(st.replicaColors, Ids(cfg.numReplicas), h)|
  {
    hide IsInactiveColor, Quarantined, WithinLimits, Settings;
    var perm :| ArrangedBy(st.partition, st.replicaColors, st.partitionMap, perm);
    var n := |st.partition|;
    ShownCount(st.partition, st.replicaColors, st.partitionMap, perm, n, h);
    assert st.partition[..n] == st.partition && perm[..n] == perm;
    PermutationCovers(perm, n);
    assert NodesIn(st.replicaColors, st.partitionMap, Members(perm), h) == Colored(st.replicaColors, Ids(cfg.numReplicas), h);
  }
}
