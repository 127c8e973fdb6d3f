/** Sorting strings byte by byte, as the standard library does. */
module SortedStrings {
  import opened MultisetBags

  predicate StringLeq(a: string, b: string) {
    a == [] || (b != [] && (a[0] < b[0] || (a[0] == b[0] && StringLeq(a[1..], b[1..]))))
  }

  predicate Sorted(keys: seq<string>) {
    forall i, j | 0 <= i < j < |keys| :: StringLeq(keys[i], keys[j])
  }

  lemma {:induction false} StringTotal(a: string, b: string)
    ensures StringLeq(a, b) || StringLeq(b, a)
    ensures StringLeq(a, b) && StringLeq(b, a) ==> a == b
  {
    if a != [] && b != [] {
      StringTotal(a[1..], b[1..]);
      assert a == [a[0]] + a[1..] && b == [b[0]] + b[1..];
    }
  }

  lemma {:induction false} StringTransitive(a: string, b: string, c: string)
    requires StringLeq(a, b) && StringLeq(b, c)
    ensures StringLeq(a, c)
  {
    if a != [] && a[0] == b[0] == c[0] {
      StringTransitive(a[1..], b[1..], c[1..]);
    }
  }

  /** Whatever order a map is iterated in, the sorted keys are the same. */
  lemma {:induction false} SortedIsUnique(a: seq<string>, b: seq<string>)
    requires Distinct(a) && Sorted(a) && Distinct(b) && Sorted(b)
    requires (forall k | k in a :: k in b) && (forall k | k in b :: k in a)
    ensures a == b
  {
    NonemptyToo(b, a);
    if a != [] {
      assert a[0] in b;
      var i :| 0 <= i < |b| && b[i] == a[0];
      assert b[0] in a;
      var j :| 0 <= j < |a| && a[j] == b[0];
      StringTotal(a[0], b[0]);
      assert a[0] == b[0];
      Tail(a, b);
      Tail(b, a);
      SortedIsUnique(a[1..], b[1..]);
      assert a == [a[0]] + a[1..] && b == [b[0]] + b[1..];
    }
  }

  lemma NonemptyToo(b: seq<string>, a: seq<string>)
    requires forall k | k in b :: k in a
    ensures b != [] ==> a != []
  {
    if b != [] {
      assert b[0] in a;
    }
  }

  lemma Tail(a: seq<string>, b: seq<string>)
    requires a != [] && b != [] && a[0] == b[0] && Distinct(a) && forall k | k in a :: k in b
    ensures forall k | k in a[1..] :: k in b[1..]
  {
    forall k | k in a[1..] ensures k in b[1..] {
      assert k in a && k != a[0];
      assert b == [b[0]] + b[1..];
    }
  }

  /** The sort of the standard library, by insertion. */
  method SortStrings(keys: seq<string>) returns (r: seq<string>)
    ensures multiset(r) == multiset(keys) && Sorted(r)
  {
    r := [];
    assert keys[..0] == [];
    for i := 0 to |keys|
      invariant multiset(r) == multiset(keys[..i]) && Sorted(r)
    {
      assert keys[..i + 1] == keys[..i] + [keys[i]];
      r := InsertSorted(keys[i], r);
    }
    assert keys[..|keys|] == keys;
  }

  method InsertSorted(k: string, keys: seq<string>) returns (r: seq<string>)
    requires Sorted(keys)
    ensures multiset(r) == multiset(keys) + multiset{k} && Sorted(r)
  {
    var i := 0;
    while i < |keys| && StringLeq(keys[i], k)
      invariant 0 <= i <= |keys|
      invariant forall j | 0 <= j < i :: StringLeq(keys[j], k)
    {
      i := i + 1;
    }
    r := keys[..i] + [k] + keys[i..];
    assert keys == keys[..i] + keys[i..];
    forall a, b | 0 <= a < b < |r| ensures StringLeq(r[a], r[b]) {
      if i < |keys| {
        StringTotal(keys[i], k);
        if a == i && b > i + 1 {
          StringTransitive(k, keys[i], keys[b - 1]);
        }
      }
    }
  }

  lemma DistinctBag(a: seq<string>, b: seq<string>)
    requires Distinct(a) && multiset(a) == multiset(b)
    ensures Distinct(b)
  {
    forall i, j | 0 <= i < j < |b| ensures b[i] != b[j] {
      if b[i] == b[j] {
        assert b == b[..i] + [b[i]] + b[i + 1..j] + [b[j]] + b[j + 1..];
        assert multiset(b)[b[i]] >= 2;
        OnlyOnce(a, b[i]);
      }
    }
  }

  lemma {:induction false} OnlyOnce(a: seq<string>, k: string)
    requires Distinct(a)
    ensures multiset(a)[k] <= 1
  {
    if a != [] {
      assert a == [a[0]] + a[1..];
      OnlyOnce(a[1..], k);
      if k == a[0] {
        assert k !in a[1..];
      }
    }
  }
}
