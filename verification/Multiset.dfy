/** The listing of all partitions of a multiset of elements: grouping by key, Algorithm M on the
    multiplicities, and the visitor that puts the elements in place of their keys. */
module MultisetPartitions {
  import opened Vectors
  import opened MultisetSpec
  import opened MultisetShapes
  import opened Packing
  import opened MultisetBags
  import opened SortedStrings
  import AlgorithmM

  /** An element with its key; different elements may share a key. */
  datatype Elem<T> = Elem(key: string, body: T)

  function KeyOf<T>(e: Elem<T>): string { e.key }

  function KeysOf<T>(s: seq<Elem<T>>): seq<string> {
    Map((e: Elem<T>) => KeyOf(e), s)
  }

  /** The elements of `s` with key `k`, in order. */
  function WithKey<T>(s: seq<Elem<T>>, k: string): seq<Elem<T>> {
    if s == [] then []
    else
      var n := |s| - 1;
      WithKey(s[..n], k) + if s[n].key == k then [s[n]] else []
  }

  predicate Grouped<T(==)>(groups: map<string, seq<Elem<T>>>, s: seq<Elem<T>>) {
    && groups.Keys == (set k | k in KeysOf(s))
    && (forall k | k in groups :: groups[k] == WithKey(s, k))
  }

  lemma {:induction false} WithKeyCount<T>(s: seq<Elem<T>>, e: Elem<T>)
    ensures multiset(WithKey(s, e.key))[e] == multiset(s)[e]
  {
    if s != [] {
      var n := |s| - 1;
      assert s == s[..n] + [s[n]];
      WithKeyCount(s[..n], e);
    }
  }

  lemma {:induction false} WithKeyLength<T>(s: seq<Elem<T>>, k: string)
    ensures |WithKey(s, k)| == multiset(KeysOf(s))[k]
    ensures |WithKey(s, k)| > 0 <==> k in KeysOf(s)
    ensures forall e | e in WithKey(s, k) :: e.key == k
  {
    if s != [] {
      var n := |s| - 1;
      assert KeysOf(s) == KeysOf(s[..n]) + [s[n].key];
      WithKeyLength(s[..n], k);
    }
  }

  method ToMap<T>(s: seq<Elem<T>>) returns (result: map<string, seq<Elem<T>>>)
    ensures Grouped(result, s)
  {
    result := map[];
    assert s[..0] == [];
    for i := 0 to |s|
      invariant Grouped(result, s[..i])
    {
      var e := s[i];
      assert s[..i + 1][..i] == s[..i];
      assert KeysOf(s[..i + 1]) == KeysOf(s[..i]) + [e.key];
      WithKeyLength(s[..i], e.key);
      if e.key !in result {
        result := result[e.key := []];
      }
      result := result[e.key := result[e.key] + [e]];
    }
    assert s[..|s|] == s;
  }

  // ----- keys and multiplicities -----

  /** The keys of `s`, each once, in ascending order. */
  predicate IsKeyList<T>(keys: seq<string>, s: seq<Elem<T>>) {
    && Distinct(keys) && Sorted(keys)
    && (forall k | k in keys :: k in KeysOf(s)) && (forall k | k in KeysOf(s) :: k in keys)
  }

  /** The multiplicity of every key. */
  function Counts<T>(s: seq<Elem<T>>, keys: seq<string>): (v: Vec)
    ensures |v| == |keys| && forall c | 0 <= c < |keys| :: v[c] == |WithKey(s, keys[c])|
  {
    seq(|keys|, c requires 0 <= c < |keys| => |WithKey(s, keys[c])|)
  }

  /** The keys of a map, in any order. */
  method CollectKeys<V>(groups: map<string, V>) returns (keys: seq<string>)
    ensures Distinct(keys) && forall k :: k in groups <==> k in keys
  {
    keys := [];
    var rest := groups.Keys;
    while rest != {}
      invariant Distinct(keys) && rest <= groups.Keys
      invariant forall k | k in keys :: k in groups && k !in rest
      invariant forall k | k in groups :: k in rest || k in keys
      decreases |rest|
    {
      var k :| k in rest;
      keys, rest := keys + [k], rest - {k};
    }
  }

  method KeysAndMultiplicities<T>(s: seq<Elem<T>>) returns (keys: seq<string>, multiplicities: Vec)
    ensures IsKeyList(keys, s) && multiplicities == Counts(s, keys)
  {
    hide KeysOf, WithKey, Sorted;
    var groups := ToMap(s);
    var collected := CollectKeys(groups);
    keys := SortStrings(collected);
    SameMembers(keys, collected);
    DistinctBag(collected, keys);
    multiplicities := [];
    for i := 0 to |keys|
      invariant |multiplicities| == i
      invariant forall c | 0 <= c < i :: multiplicities[c] == |WithKey(s, keys[c])|
    {
      assert keys[i] in groups;
      multiplicities := multiplicities + [|groups[keys[i]]|];
    }
  }

  // ----- the visitor: elements in place of keys -----

  /** The elements placed so far: of each key the first `used[k]`. */
  ghost predicate Used<T(!new)>(groups: map<string, seq<Elem<T>>>, used: map<string, nat>, placed: seq<Elem<T>>) {
    && used.Keys == groups.Keys
    && (forall k | k in groups :: used[k] <= |groups[k]|)
    && (forall e: Elem<T> :: multiset(placed)[e] == UsedCount(groups, used, e))
  }

  ghost function UsedCount<T>(groups: map<string, seq<Elem<T>>>, used: map<string, nat>, e: Elem<T>): nat {
    if e.key in groups && e.key in used && used[e.key] <= |groups[e.key]|
    then multiset(groups[e.key][..used[e.key]])[e] else 0
  }

  lemma AppendCount<X>(a: seq<X>, e: X, x: X)
    ensures multiset(a + [e])[x] == multiset(a)[x] + if e == x then 1 else 0
  {
  }

  lemma TakeCount<X>(a: seq<X>, i: nat, x: X)
    requires i < |a|
    ensures multiset(a[..i + 1])[x] == multiset(a[..i])[x] + if a[i] == x then 1 else 0
  {
    assert a[..i + 1] == a[..i] + [a[i]];
  }

  /** Taking the next element of a key. */
  lemma UseNext<T(!new)>(groups: map<string, seq<Elem<T>>>, s: seq<Elem<T>>, used: map<string, nat>, placed: seq<Elem<T>>, k: string)
    requires Grouped(groups, s) && Used(groups, used, placed) && k in groups && used[k] < |groups[k]|
    ensures groups[k][used[k]].key == k
    ensures Used(groups, used[k := used[k] + 1], placed + [groups[k][used[k]]])
  {
    hide WithKey, UsedCount;
    WithKeyLength(s, k);
    var e, i := groups[k][used[k]], used[k];
    assert e in WithKey(s, k);
    forall x: Elem<T> ensures multiset(placed + [e])[x] == UsedCount(groups, used[k := i + 1], x) {
      UseNextCount(groups, used, placed, k, x);
    }
  }

  lemma UseNextCount<T(!new)>(groups: map<string, seq<Elem<T>>>, used: map<string, nat>, placed: seq<Elem<T>>, k: string, x: Elem<T>)
    requires k in groups && k in used && used[k] < |groups[k]| && groups[k][used[k]].key == k
    requires multiset(placed)[x] == UsedCount(groups, used, x)
    ensures multiset(placed + [groups[k][used[k]]])[x] == UsedCount(groups, used[k := used[k] + 1], x)
  {
    AppendCount(placed, groups[k][used[k]], x);
    TakeCount(groups[k], used[k], x);
  }

  method PlacePart<T(!new)>(part: seq<string>, groups: map<string, seq<Elem<T>>>, used: map<string, nat>,
      ghost s: seq<Elem<T>>, ghost placed: seq<Elem<T>>)
    returns (ePart: seq<Elem<T>>, used': map<string, nat>)
    requires Grouped(groups, s) && Used(groups, used, placed)
    requires forall k | k in part :: k in groups
    requires forall k | k in groups :: used[k] + multiset(part)[k] <= |groups[k]|
    ensures KeysOf(ePart) == part && Used(groups, used', placed + ePart)
    ensures forall k | k in groups :: used'[k] == used[k] + multiset(part)[k]
  {
    hide Used, Grouped;
    ePart, used' := [], used;
    assert placed + [] == placed;
    UsedKeys(groups, used, placed);
    for j := 0 to |part|
      invariant used'.Keys == groups.Keys
      invariant KeysOf(ePart) == part[..j] && Used(groups, used', placed + ePart)
      invariant forall k | k in groups :: used'[k] == used[k] + multiset(part[..j])[k]
    {
      var k := part[j];
      assert part[..j + 1] == part[..j] + [k];
      StillRoom(part, j);
      UseNext(groups, s, used', placed + ePart, k);
      var i := used'[k];
      assert placed + (ePart + [groups[k][i]]) == placed + ePart + [groups[k][i]];
      ePart, used' := ePart + [groups[k][i]], used'[k := i + 1];
    }
    assert part[..|part|] == part;
  }

  lemma UsedKeys<T(!new)>(groups: map<string, seq<Elem<T>>>, used: map<string, nat>, placed: seq<Elem<T>>)
    requires Used(groups, used, placed)
    ensures used.Keys == groups.Keys
  {
  }

  lemma StillRoom(part: seq<string>, j: nat)
    requires j < |part|
    ensures multiset(part[..j])[part[j]] < multiset(part)[part[j]]
  {
    assert part == part[..j] + [part[j]] + part[j + 1..];
  }

  /** The visitor: each element of the multiset is placed exactly once, and the index never runs
      past the elements of a key. */
  method PlacePartition<T(!new)>(partition: seq<seq<string>>, groups: map<string, seq<Elem<T>>>, ghost s: seq<Elem<T>>)
    returns (ePartition: seq<seq<Elem<T>>>)
    requires Grouped(groups, s)
    requires forall k :: multiset(Flatten(partition))[k] == |WithKey(s, k)|
    ensures |ePartition| == |partition| && forall i | 0 <= i < |partition| :: KeysOf(ePartition[i]) == partition[i]
    ensures multiset(Flatten(ePartition)) == multiset(s)
  {
    hide Used, KeysOf, WithKey;
    ePartition := [];
    var used := map k | k in groups :: 0;
    NothingUsed(groups, used);
    hide Flatten, Grouped;
    for i := 0 to |partition|
      invariant |ePartition| == i && forall p | 0 <= p < i :: KeysOf(ePartition[p]) == partition[p]
      invariant used.Keys == groups.Keys && Used(groups, used, Flatten(ePartition))
      invariant forall k | k in groups :: used[k] == multiset(Flatten(partition[..i]))[k]
    {
      PartFits(partition, i, groups, s);
      var ePart;
      ePart, used := PlacePart(partition[i], groups, used, s, Flatten(ePartition));
      UsedKeys(groups, used, Flatten(ePartition) + ePart);
      FlattenSnoc(ePartition, ePart);
      ePartition := ePartition + [ePart];
    }
    assert partition[..|partition|] == partition;
    AllUsed(groups, s, used, Flatten(ePartition));
  }

  lemma NothingUsed<T(!new)>(groups: map<string, seq<Elem<T>>>, used: map<string, nat>)
    requires used == map k | k in groups :: 0
    ensures Used(groups, used, Flatten([])) && multiset(Flatten<string>([])) == multiset{}
  {
    assert forall k | k in groups :: groups[k][..0] == [];
  }

  lemma PartFits<T>(partition: seq<seq<string>>, i: nat, groups: map<string, seq<Elem<T>>>, s: seq<Elem<T>>)
    requires i < |partition| && Grouped(groups, s)
    requires forall k :: multiset(Flatten(partition))[k] == |WithKey(s, k)|
    ensures Flatten(partition[..i + 1]) == Flatten(partition[..i]) + partition[i]
    ensures forall k | k in partition[i] :: k in groups
    ensures forall k | k in groups :: multiset(Flatten(partition[..i]))[k] + multiset(partition[i])[k] <= |groups[k]|
  {
    hide WithKey, KeysOf, Flatten;
    assert partition[..i + 1] == partition[..i] + [partition[i]];
    FlattenSnoc(partition[..i], partition[i]);
    forall k ensures multiset(Flatten(partition[..i]))[k] + multiset(partition[i])[k] <= |WithKey(s, k)| {
      FlattenPrefix(partition, i + 1, k);
    }
    forall k | k in partition[i] ensures k in groups {
      assert multiset(partition[i])[k] > 0;
      WithKeyLength(s, k);
    }
  }

  lemma AllUsed<T(!new)>(groups: map<string, seq<Elem<T>>>, s: seq<Elem<T>>, used: map<string, nat>, placed: seq<Elem<T>>)
    requires Grouped(groups, s) && Used(groups, used, placed)
    requires forall k | k in groups :: used[k] == |groups[k]|
    ensures multiset(placed) == multiset(s)
  {
    hide WithKey, KeysOf;
    forall e: Elem<T> ensures multiset(placed)[e] == multiset(s)[e] {
      WithKeyCount(s, e);
      WithKeyLength(s, e.key);
      if e.key in groups {
        assert groups[e.key][..|groups[e.key]|] == groups[e.key];
      }
    }
  }

  // ----- all partitions of a multiset of elements -----

  /** `p` divides `s` in the way the vectors `ps` say. */
  predicate Divides<T(==)>(p: seq<seq<Elem<T>>>, ps: Parts, keys: seq<string>, s: seq<Elem<T>>) {
    && |p| == |ps| && multiset(Flatten(p)) == multiset(s)
    && forall i | 0 <= i < |ps| :: |ps[i]| == |keys| && KeysOf(p[i]) == Spell(ps[i], keys)
  }

  /** One division of `s` for every partition of its multiplicities, in the order of the listing. */
  predicate AllDivisions<T(==)>(partitions: seq<seq<seq<Elem<T>>>>, keys: seq<string>, s: seq<Elem<T>>) {
    LexReflexive(Counts(s, keys));
    var list := Enumerate(Counts(s, keys), Counts(s, keys));
    && IsKeyList(keys, s) && |partitions| == |list|
    && forall i | 0 <= i < |list| :: Divides(partitions[i], list[i], keys, s)
  }

  /** A visit spells every key as often as it occurs. */
  lemma VisitCounts<T>(s: seq<Elem<T>>, keys: seq<string>, parts: seq<seq<string>>, ps: Parts, k: string)
    requires IsKeyList(keys, s) && Spelled(parts, ps, keys) && PartsOk(ps, |keys|) && Totals(ps, Counts(s, keys))
    ensures multiset(Flatten(parts))[k] == |WithKey(s, k)|
  {
    hide Flatten, WithKey, Spelled, Sorted;
    WithKeyLength(s, k);
    if k in keys {
      var c :| 0 <= c < |keys| && keys[c] == k;
      SpelledColumn(parts, ps, keys, c);
    } else {
      NeverSpelled(parts, ps, keys, k);
    }
  }

  lemma CountsPositive<T>(s: seq<Elem<T>>, keys: seq<string>)
    requires s != [] && IsKeyList(keys, s)
    ensures keys != [] && AlgorithmM.AllPositive(Counts(s, keys))
  {
    assert KeysOf(s)[0] in keys;
    forall c | 0 <= c < |keys| ensures Counts(s, keys)[c] > 0 {
      WithKeyLength(s, keys[c]);
    }
  }

  method EnumeratePartitions<T(!new)>(s: seq<Elem<T>>) returns (partitions: seq<seq<seq<Elem<T>>>>)
    requires s != []
    ensures exists keys :: AllDivisions(partitions, keys, s)
  {
    hide Enumerate, Flatten, KeysOf, WithKey, Spell, Spelled, Grouped, IsKeyList, Counts, Totals, Descends, PartsOk;
    var groups := ToMap(s);
    var keys, multiplicities := KeysAndMultiplicities(s);
    CountsPositive(s, keys);
    CountsLength(s, keys);
    var visits := AlgorithmM.EnumeratePartitions(multiplicities, keys);
    LexReflexive(multiplicities);
    ghost var list := Enumerate(multiplicities, multiplicities);
    partitions := [];
    for i := 0 to |visits|
      invariant |partitions| == i
      invariant forall p | 0 <= p < i :: Divides(partitions[p], list[p], keys, s)
    {
      ListsExactlyPartitions(multiplicities, list[i]);
      forall k ensures multiset(Flatten(visits[i]))[k] == |WithKey(s, k)| {
        VisitCounts(s, keys, visits[i], list[i], k);
      }
      var partition := PlacePartition(visits[i], groups, s);
      PlacedDivides(partition, visits[i], list[i], keys, s);
      partitions := partitions + [partition];
    }
    assert AllDivisions(partitions, keys, s);
  }

  lemma CountsLength<T>(s: seq<Elem<T>>, keys: seq<string>)
    ensures |Counts(s, keys)| == |keys|
  {
  }

  lemma PlacedDivides<T>(p: seq<seq<Elem<T>>>, parts: seq<seq<string>>, ps: Parts, keys: seq<string>, s: seq<Elem<T>>)
    requires Spelled(parts, ps, keys) && |p| == |parts| && multiset(Flatten(p)) == multiset(s)
    requires forall i | 0 <= i < |parts| :: KeysOf(p[i]) == parts[i]
    ensures Divides(p, ps, keys, s)
  {
  }

  // ----- every division, once -----

  function KeyBag<T>(part: seq<Elem<T>>): multiset<string> {
    multiset(KeysOf(part))
  }

  /** The shape of a division: its parts as bags of keys, in no order. */
  function Shape<T>(p: seq<seq<Elem<T>>>): multiset<multiset<string>> {
    multiset(Map((part: seq<Elem<T>>) => KeyBag(part), p))
  }

  function Bags(ps: Parts, keys: seq<string>): seq<multiset<string>> {
    Map((v: Vec) => if |v| == |keys| then Bag(v, keys) else multiset{}, ps)
  }

  function Measures(bags: seq<multiset<string>>, keys: seq<string>): seq<Vec> {
    Map((b: multiset<string>) => Measure(b, keys), bags)
  }

  lemma ShapeOfDivision<T>(p: seq<seq<Elem<T>>>, ps: Parts, keys: seq<string>, s: seq<Elem<T>>)
    requires Divides(p, ps, keys, s)
    ensures Shape(p) == multiset(Bags(ps, keys))
  {
    hide KeysOf, Spell;
    assert Map((part: seq<Elem<T>>) => KeyBag(part), p) == Bags(ps, keys);
  }

  lemma MeasuresOfBags(ps: Parts, keys: seq<string>)
    requires Distinct(keys) && PartsOk(ps, |keys|)
    ensures Measures(Bags(ps, keys), keys) == ps
  {
    hide Measure, Bag;
    forall i | 0 <= i < |ps| ensures Measures(Bags(ps, keys), keys)[i] == ps[i] {
      MeasureOfBag(ps[i], keys);
    }
  }

  lemma BagsOfMeasures(bags: seq<multiset<string>>, keys: seq<string>)
    requires Distinct(keys) && forall b, k | b in bags && k in b :: k in keys
    ensures Bags(Measures(bags, keys), keys) == bags
  {
    hide Measure, Bag;
    forall i | 0 <= i < |bags| ensures Bags(Measures(bags, keys), keys)[i] == bags[i] {
      BagOfMeasure(bags[i], keys);
      MeasureLength(bags[i], keys);
    }
  }

  lemma MeasureLength(bag: multiset<string>, keys: seq<string>)
    ensures |Measure(bag, keys)| == |keys|
  {
  }

  /** The bags of keys of the parts of a division. */
  function PartBags<T>(p: seq<seq<Elem<T>>>): seq<multiset<string>> {
    Map((part: seq<Elem<T>>) => KeyBag(part), p)
  }

  lemma {:induction false} MeasuredColumn<T>(p: seq<seq<Elem<T>>>, keys: seq<string>, c: nat)
    requires c < |keys|
    ensures forall v | v in Measures(PartBags(p), keys) :: |v| == |keys|
    ensures Column(Measures(PartBags(p), keys), c) == multiset(KeysOf(Flatten(p)))[keys[c]]
  {
    hide KeysOf;
    if p != [] {
      MeasuredColumn(p[1..], keys, c);
      assert Measures(PartBags(p), keys)[1..] == Measures(PartBags(p[1..]), keys);
      KeysOfJoin(p[0], Flatten(p[1..]));
    } else {
      KeysOfNone<T>();
    }
  }

  lemma KeysOfJoin<T>(a: seq<Elem<T>>, b: seq<Elem<T>>)
    ensures KeysOf(a + b) == KeysOf(a) + KeysOf(b)
  {
  }

  lemma KeysOfNone<T>()
    ensures KeysOf<T>([]) == []
  {
  }

  lemma KeyOfPart<T>(p: seq<seq<Elem<T>>>, keys: seq<string>, s: seq<Elem<T>>, i: nat, k: string)
    requires IsKeyList(keys, s) && multiset(Flatten(p)) == multiset(s) && i < |p| && k in KeysOf(p[i])
    ensures k in keys
  {
    hide Sorted, Distinct, Flatten;
    SameMembers(Flatten(p), s);
    var j :| 0 <= j < |p[i]| && KeysOf(p[i])[j] == k;
    InFlatten(p, i, p[i][j]);
    var t :| 0 <= t < |s| && s[t] == p[i][j];
    assert KeysOf(s)[t] == k;
  }

  /** A division into nonempty parts, measured, is a partition of the multiplicities. */
  lemma MeasuredDivision<T>(p: seq<seq<Elem<T>>>, keys: seq<string>, s: seq<Elem<T>>)
    requires IsKeyList(keys, s) && multiset(Flatten(p)) == multiset(s) && forall part | part in p :: part != []
    ensures forall b, k | b in PartBags(p) && k in b :: k in keys
    ensures var ps := Measures(PartBags(p), keys); PartsOk(ps, |keys|) && Totals(ps, Counts(s, keys))
  {
    hide Sorted, Distinct, Flatten, WithKey, Column;
    var ps, bags := Measures(PartBags(p), keys), PartBags(p);
    forall i, k | 0 <= i < |p| && k in bags[i] ensures k in keys {
      KeyOfPart(p, keys, s, i, k);
    }
    forall i | 0 <= i < |p| ensures !IsZero(ps[i]) {
      assert p[i] in p;
      var k := KeysOf(p[i])[0];
      KeyOfPart(p, keys, s, i, k);
      var c :| 0 <= c < |keys| && keys[c] == k;
      assert ps[i][c] == bags[i][k];
    }
    forall c | 0 <= c < |keys| ensures Column(ps, c) == Counts(s, keys)[c] {
      MeasuredColumn(p, keys, c);
      MapBag((e: Elem<T>) => KeyOf(e), Flatten(p), s);
      WithKeyLength(s, keys[c]);
    }
  }

  /** Every division of the multiset into nonempty parts has the shape of exactly one of the
      enumerated partitions. */
  lemma EveryShapeOnce<T>(partitions: seq<seq<seq<Elem<T>>>>, keys: seq<string>, s: seq<Elem<T>>, p: seq<seq<Elem<T>>>)
    returns (i: nat)
    requires s != [] && AllDivisions(partitions, keys, s)
    requires multiset(Flatten(p)) == multiset(s) && forall part | part in p :: part != []
    ensures i < |partitions| && Shape(partitions[i]) == Shape(p)
    ensures forall j | 0 <= j < |partitions| && Shape(partitions[j]) == Shape(p) :: j == i
  {
    hide Enumerate, Flatten, Totals, Descends, PartsOk, Counts, Sorted, Distinct;
    var u := Counts(s, keys);
    CountsPositive(s, keys);
    CountsLength(s, keys);
    LexReflexive(u);
    MeasuredDivision(p, keys, s);
    var ps := Measures(PartBags(p), keys);
    BagsOfMeasures(PartBags(p), keys);
    i := EveryDivisionOnce(u, ps);
    var list := Enumerate(u, u);
    MapBag((v: Vec) => if |v| == |keys| then Bag(v, keys) else multiset{}, list[i], ps);
    ShapeOfDivision(partitions[i], list[i], keys, s);
    forall j | 0 <= j < |partitions| && Shape(partitions[j]) == Shape(p) ensures j == i {
      ListsExactlyPartitions(u, list[j]);
      ShapeOfDivision(partitions[j], list[j], keys, s);
      MeasuresOfBags(list[j], keys);
      MapBag((b: multiset<string>) => Measure(b, keys), Bags(list[j], keys), PartBags(p));
    }
  }
}
