/** Counting: parts spelled out as keys, and what does not depend on the order things are listed in. */
module MultisetBags {
  import opened Vectors
  import opened MultisetSpec
  import opened MultisetShapes
  import opened Packing

  function Flatten<X>(p: seq<seq<X>>): seq<X> {
    if p == [] then [] else p[0] + Flatten(p[1..])
  }

  function Map<A, B>(f: A -> B, xs: seq<A>): (ys: seq<B>)
    ensures |ys| == |xs| && forall i | 0 <= i < |xs| :: ys[i] == f(xs[i])
  {
    seq(|xs|, i requires 0 <= i < |xs| => f(xs[i]))
  }

  lemma {:induction false} FlattenSnoc<X>(p: seq<seq<X>>, x: seq<X>)
    ensures Flatten(p + [x]) == Flatten(p) + x
  {
    if p == [] {
      assert [x][1..] == [];
    } else {
      assert (p + [x])[1..] == p[1..] + [x];
      FlattenSnoc(p[1..], x);
    }
  }

  lemma {:induction false} FlattenPrefix<X>(p: seq<seq<X>>, i: nat, x: X)
    requires i <= |p|
    ensures multiset(Flatten(p[..i]))[x] <= multiset(Flatten(p))[x]
  {
    if i > 0 {
      assert p[..i][1..] == p[1..][..i - 1];
      FlattenPrefix(p[1..], i - 1, x);
    }
  }

  lemma {:induction false} InFlatten<X>(p: seq<seq<X>>, i: nat, x: X)
    requires i < |p| && x in p[i]
    ensures x in Flatten(p)
  {
    if i > 0 {
      InFlatten(p[1..], i - 1, x);
    }
  }

  function Without<X>(ys: seq<X>, j: nat): (r: seq<X>)
    requires j < |ys|
    ensures |r| == |ys| - 1 && multiset(r) == multiset(ys) - multiset{ys[j]}
    ensures multiset(ys) == multiset(r) + multiset{ys[j]}
  {
    assert ys == ys[..j] + [ys[j]] + ys[j + 1..];
    ys[..j] + ys[j + 1..]
  }

  lemma MapWithout<A, B>(f: A -> B, ys: seq<A>, j: nat)
    requires j < |ys|
    ensures multiset(Map(f, ys)) == multiset(Map(f, Without(ys, j))) + multiset{f(ys[j])}
  {
    assert Without(Map(f, ys), j) == Map(f, Without(ys, j));
  }

  /** Mapping sees only how often each value occurs. */
  lemma {:induction false} MapBag<A, B>(f: A -> B, xs: seq<A>, ys: seq<A>)
    requires multiset(xs) == multiset(ys)
    ensures multiset(Map(f, xs)) == multiset(Map(f, ys))
    decreases |xs|
  {
    hide Map, Without;
    SameMembers(xs, ys);
    if xs != [] {
      assert xs[0] in ys;
      var j :| 0 <= j < |ys| && ys[j] == xs[0];
      MapWithout(f, xs, 0);
      MapWithout(f, ys, j);
      MapBag(f, Without(xs, 0), Without(ys, j));
    } else {
      assert xs == ys;
    }
  }

  // ----- vectors as bags of keys -----

  predicate Distinct<X(==)>(keys: seq<X>) {
    forall i, j | 0 <= i < j < |keys| :: keys[i] != keys[j]
  }

  /** The bag of keys a vector stands for. */
  function Bag(v: Vec, keys: seq<string>): multiset<string>
    requires |v| == |keys|
  {
    multiset(Spell(v, keys))
  }

  /** The vector that stands for a bag of keys. */
  function Measure(bag: multiset<string>, keys: seq<string>): (v: Vec)
    ensures |v| == |keys| && forall c | 0 <= c < |keys| :: v[c] == bag[keys[c]]
  {
    seq(|keys|, c requires 0 <= c < |keys| => bag[keys[c]])
  }

  lemma {:induction false} RepeatCount(key: string, n: nat, k: string)
    ensures multiset(Repeat(key, n))[k] == if k == key then n else 0
  {
    if n > 0 {
      RepeatCount(key, n - 1, k);
    }
  }

  lemma {:induction false} NotSpelled(v: Vec, keys: seq<string>, k: string)
    requires |v| == |keys| && k !in keys
    ensures Bag(v, keys)[k] == 0
  {
    if v != [] {
      assert k != keys[0];
      RepeatCount(keys[0], v[0], k);
      NotSpelled(v[1..], keys[1..], k);
    }
  }

  /** A part spells each key as often as it takes it. */
  lemma {:induction false} BagCount(v: Vec, keys: seq<string>, c: nat)
    requires |v| == |keys| && c < |keys| && Distinct(keys)
    ensures Bag(v, keys)[keys[c]] == v[c]
  {
    RepeatCount(keys[0], v[0], keys[c]);
    if c == 0 {
      NotSpelled(v[1..], keys[1..], keys[0]);
    } else {
      BagCount(v[1..], keys[1..], c - 1);
    }
  }

  lemma MeasureOfBag(v: Vec, keys: seq<string>)
    requires |v| == |keys| && Distinct(keys)
    ensures Measure(Bag(v, keys), keys) == v
  {
    forall c | 0 <= c < |keys| ensures Measure(Bag(v, keys), keys)[c] == v[c] {
      BagCount(v, keys, c);
    }
  }

  lemma BagOfMeasure(bag: multiset<string>, keys: seq<string>)
    requires Distinct(keys) && forall k | k in bag :: k in keys
    ensures Bag(Measure(bag, keys), keys) == bag
  {
    var v := Measure(bag, keys);
    forall k ensures Bag(v, keys)[k] == bag[k] {
      if k in keys {
        var c :| 0 <= c < |keys| && keys[c] == k;
        BagCount(v, keys, c);
      } else {
        NotSpelled(v, keys, k);
      }
    }
  }

  /** All parts together spell each key as often as its column says. */
  lemma {:induction false} SpelledColumn(parts: seq<seq<string>>, ps: Parts, keys: seq<string>, c: nat)
    requires Spelled(parts, ps, keys) && Distinct(keys) && c < |keys|
    ensures (forall p | p in ps :: |p| == |keys|)
    ensures multiset(Flatten(parts))[keys[c]] == Column(ps, c)
  {
    if ps != [] {
      BagCount(ps[0], keys, c);
      SpelledColumn(parts[1..], ps[1..], keys, c);
    }
  }

  lemma {:induction false} NeverSpelled(parts: seq<seq<string>>, ps: Parts, keys: seq<string>, k: string)
    requires Spelled(parts, ps, keys) && k !in keys
    ensures multiset(Flatten(parts))[k] == 0
  {
    if ps != [] {
      NotSpelled(ps[0], keys, k);
      NeverSpelled(parts[1..], ps[1..], keys, k);
    }
  }
}
