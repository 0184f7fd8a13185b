/** Sequences, counters and bags shared by the backend and frontend models. */
module Collections {

  datatype Option<T> = None | Some(value: T)

  /** Some element of a non-empty set: the model leaves open the order in
      which a Python set or dict is traversed. */
  method Pick<T>(s: set<T>) returns (x: T)
    requires s != {}
    ensures x in s
  {
    x :| x in s;
  }

  /** `counter.get(key, 0)` on a Python dict of counts. */
  function Get<K>(m: map<K, nat>, k: K): nat
  {
    if k in m then m[k] else 0
  }

  /** No element occurs twice. */
  predicate NoDup<T(==)>(s: seq<T>)
  {
    forall i, j :: 0 <= i < j < |s| ==> s[i] != s[j]
  }

  /** All the inner sequences joined in order, as repeated `list.extend`. */
  function Flatten<T>(ss: seq<seq<T>>): (r: seq<T>)
    ensures ss == [] ==> r == []
  {
    if ss == [] then [] else Flatten(ss[..|ss| - 1]) + ss[|ss| - 1]
  }

  lemma FlattenSnoc<T>(ss: seq<seq<T>>, s: seq<T>)
    ensures Flatten(ss + [s]) == Flatten(ss) + s
  {
    assert (ss + [s])[..|ss|] == ss;
  }

  lemma {:induction false} FlattenAppend<T>(a: seq<seq<T>>, b: seq<seq<T>>)
    ensures Flatten(a + b) == Flatten(a) + Flatten(b)
    decreases |b|
  {
    if b == [] {
      assert a + b == a;
    } else {
      var b' := b[..|b| - 1];
      assert a + b == (a + b') + [b[|b| - 1]];
      FlattenSnoc(a + b', b[|b| - 1]);
      FlattenAppend(a, b');
      FlattenSnoc(b', b[|b| - 1]);
      assert b' + [b[|b| - 1]] == b;
    }
  }

  /** An element of the flattening comes from some inner sequence, and back. */
  lemma {:induction false} FlattenMember<T>(ss: seq<seq<T>>, x: T)
    ensures x in Flatten(ss) <==> exists i :: 0 <= i < |ss| && x in ss[i]
    decreases |ss|
  {
    if ss != [] {
      var p := ss[..|ss| - 1];
      FlattenMember(p, x);
      if x in Flatten(ss) && x !in ss[|ss| - 1] {
        var i :| 0 <= i < |p| && x in p[i];
        assert ss[i] == p[i];
      }
      if exists i :: 0 <= i < |ss| && x in ss[i] {
        var i :| 0 <= i < |ss| && x in ss[i];
        if i < |p| {
          assert p[i] == ss[i];
        }
      }
    }
  }

  /** Taking out one inner sequence takes its elements out of the flattening. */
  lemma FlattenRemove<T>(b: seq<seq<T>>, j: nat)
    requires j < |b|
    ensures multiset(Flatten(b)) == multiset(Flatten(b[..j] + b[j + 1..])) + multiset(b[j])
  {
    assert b == (b[..j] + [b[j]]) + b[j + 1..];
    FlattenAppend(b[..j] + [b[j]], b[j + 1..]);
    FlattenSnoc(b[..j], b[j]);
    FlattenAppend(b[..j], b[j + 1..]);
  }

  /** Dropping the last element of `a` and the same element from anywhere in
      `b` leaves two permutations of each other. */
  lemma PermutationRemove<T>(a: seq<T>, b: seq<T>, j: nat)
    requires multiset(a) == multiset(b)
    requires a != [] && j < |b| && b[j] == a[|a| - 1]
    ensures multiset(a[..|a| - 1]) == multiset(b[..j] + b[j + 1..])
  {
    var x := b[j];
    assert a == a[..|a| - 1] + [x];
    assert b == b[..j] + [x] + b[j + 1..];
    assert multiset(b) == multiset(b[..j]) + multiset{x} + multiset(b[j + 1..]);
    assert multiset(b[..j] + b[j + 1..]) == multiset(b[..j]) + multiset(b[j + 1..]);
    assert multiset(a) == multiset(a[..|a| - 1]) + multiset{x};
    assert multiset(a[..|a| - 1]) == multiset(a) - multiset{x};
    assert multiset(b[..j] + b[j + 1..]) == multiset(b) - multiset{x};
  }

  /** Rearranging the inner sequences does not change the bag of elements. */
  lemma {:induction false} FlattenPermutation<T>(a: seq<seq<T>>, b: seq<seq<T>>)
    requires multiset(a) == multiset(b)
    ensures multiset(Flatten(a)) == multiset(Flatten(b))
    decreases |a|
  {
    if a == [] {
      assert |multiset(b)| == 0;
    } else {
      var a', x := a[..|a| - 1], a[|a| - 1];
      assert x in multiset(b) by { assert a == a' + [x]; }
      var j :| 0 <= j < |b| && b[j] == x;
      PermutationRemove(a, b, j);
      FlattenPermutation(a', b[..j] + b[j + 1..]);
      FlattenRemove(b, j);
      assert a == a' + [x];
      FlattenSnoc(a', x);
    }
  }

  /** Permutations have the same elements. */
  lemma SameMembers<T>(a: seq<T>, b: seq<T>)
    requires multiset(a) == multiset(b)
    ensures forall x :: x in a <==> x in b
  {
    forall x ensures x in a <==> x in b {
      assert x in a <==> x in multiset(a);
      assert x in b <==> x in multiset(b);
    }
  }

  /** Each element once, in order of first occurrence: the key order of a
      Python dict filled from `s`, or of `list(dict.fromkeys(s))`. */
  function Distinct<T(==,!new)>(s: seq<T>): (r: seq<T>)
    ensures NoDup(r)
    ensures forall x :: x in r <==> x in s
  {
    if s == [] then []
    else
      var d := Distinct(s[..|s| - 1]);
      assert forall x :: x in s <==> x in s[..|s| - 1] || x == s[|s| - 1] by {
        assert s == s[..|s| - 1] + [s[|s| - 1]];
      }
      if s[|s| - 1] in d then d else d + [s[|s| - 1]]
  }

  lemma {:induction false} NoDupMultiplicity<T>(s: seq<T>, x: T)
    requires NoDup(s)
    ensures multiset(s)[x] == if x in s then 1 else 0
    decreases |s|
  {
    if s != [] {
      var p := s[1..];
      assert s == [s[0]] + p;
      assert NoDup(p) by {
        forall i, j | 0 <= i < j < |p| ensures p[i] != p[j] {
          assert p[i] == s[i + 1] && p[j] == s[j + 1];
        }
      }
      NoDupMultiplicity(p, x);
      if x == s[0] {
        assert x !in p;
      }
    }
  }

  /** A permutation of a duplicate-free sequence is duplicate-free. */
  lemma PermutationNoDup<T>(a: seq<T>, b: seq<T>)
    requires multiset(a) == multiset(b)
    requires NoDup(a)
    ensures NoDup(b)
  {
    forall i, j | 0 <= i < j < |b| ensures b[i] != b[j] {
      NoDupMultiplicity(a, b[i]);
      var x := b[i];
      assert b == b[..j] + [b[j]] + b[j + 1..];
      assert b[..j] == b[..i] + [x] + b[i + 1..j];
      assert multiset(b)[x] >= multiset(b[..j])[x] + multiset{b[j]}[x];
      assert multiset(b[..j])[x] >= 1;
    }
  }

  /** Two duplicate-free sequences with the same elements are permutations of
      each other: such a result is determined up to order. */
  lemma SameElementsPermutation<T>(a: seq<T>, b: seq<T>)
    requires NoDup(a) && NoDup(b)
    requires forall x :: x in a <==> x in b
    ensures multiset(a) == multiset(b)
  {
    forall x ensures multiset(a)[x] == multiset(b)[x] {
      NoDupMultiplicity(a, x);
      NoDupMultiplicity(b, x);
    }
  }

  /** The sum of the values of a counter (the order of the keys is immaterial). */
  ghost function SumValues<K>(m: map<K, nat>): nat
  {
    if m == map[] then 0
    else
      var k :| k in m;
      m[k] + SumValues(m - {k})
  }

  lemma {:induction false} SumValuesRemove<K>(m: map<K, nat>, k: K)
    requires k in m
    ensures SumValues(m) == m[k] + SumValues(m - {k})
    decreases |m|
  {
    var j :| j in m && SumValues(m) == m[j] + SumValues(m - {j});
    if j != k {
      assert |m - {j}| < |m| by { assert m.Keys - {j} < m.Keys; }
      SumValuesRemove(m - {j}, k);
      assert |m - {k}| < |m| by { assert m.Keys - {k} < m.Keys; }
      SumValuesRemove(m - {k}, j);
      assert m - {j} - {k} == m - {k} - {j};
    }
  }

  /** Setting one key changes the sum by the difference of the two values. */
  lemma SumValuesUpdate<K>(m: map<K, nat>, k: K, v: nat)
    ensures SumValues(m[k := v]) == SumValues(m) - Get(m, k) + v
  {
    var m' := m[k := v];
    SumValuesRemove(m', k);
    if k in m {
      SumValuesRemove(m, k);
      assert m' - {k} == m - {k};
    } else {
      assert m' - {k} == m;
    }
  }

  /** The value of `k` in a dict of lists, or `[]` where it has no key. */
  function Lookup<K, V>(m: map<K, seq<V>>, k: K): seq<V>
  {
    if k in m then m[k] else []
  }

  /** All the elements of all the lists of `m`, as one bag. */
  ghost function Bag<K, V>(m: map<K, seq<V>>): multiset<V>
  {
    if m == map[] then multiset{}
    else
      var k :| k in m;
      multiset(m[k]) + Bag(m - {k})
  }

  lemma {:induction false} BagRemove<K, V>(m: map<K, seq<V>>, k: K)
    requires k in m
    ensures Bag(m) == multiset(m[k]) + Bag(m - {k})
    decreases |m|
  {
    var j :| j in m && Bag(m) == multiset(m[j]) + Bag(m - {j});
    if j != k {
      assert |m - {j}| < |m| by { assert m.Keys - {j} < m.Keys; }
      BagRemove(m - {j}, k);
      assert |m - {k}| < |m| by { assert m.Keys - {k} < m.Keys; }
      BagRemove(m - {k}, j);
      assert m - {j} - {k} == m - {k} - {j};
    }
  }

  /** Replacing one list replaces its elements in the bag. */
  lemma BagUpdate<K, V>(m: map<K, seq<V>>, k: K, v: seq<V>)
    ensures multiset(Lookup(m, k)) <= Bag(m)
    ensures Bag(m[k := v]) == Bag(m) - multiset(Lookup(m, k)) + multiset(v)
  {
    var m' := m[k := v];
    BagRemove(m', k);
    if k in m {
      BagRemove(m, k);
      assert m' - {k} == m - {k};
    } else {
      assert m' - {k} == m;
    }
  }

  /** `m` counts exactly the elements of `bag`: a key per element, with its
      multiplicity. */
  ghost predicate Tallies<K(!new)>(m: map<K, nat>, bag: multiset<K>)
  {
    forall k :: (k in m <==> k in bag) && Get(m, k) == bag[k]
  }

  /** A counter is determined by the bag it counts. */
  lemma TalliesUnique<K(!new)>(m: map<K, nat>, m': map<K, nat>, bag: multiset<K>)
    requires Tallies(m, bag) && Tallies(m', bag)
    ensures m == m'
  {
    assert m.Keys == m'.Keys;
    forall k | k in m ensures m[k] == m'[k] {
      assert Get(m, k) == bag[k] == Get(m', k);
    }
  }

  /** A counter of `bag` that has counted `items` on top is a counter of both. */
  lemma TalliesAdd<K(!new)>(prior: map<K, nat>, bag: multiset<K>, items: seq<K>, counts: map<K, nat>)
    requires Tallies(prior, bag)
    requires forall k :: k in counts <==> k in prior || k in items
    requires forall k :: Get(counts, k) == Get(prior, k) + multiset(items)[k]
    ensures Tallies(counts, bag + multiset(items))
  {
  }

  /** The loop `for x in items: counts[x] = counts.get(x, 0) + 1`. */
  method Tally<K>(counts: map<K, nat>, items: seq<K>) returns (r: map<K, nat>)
    ensures forall k :: k in r <==> k in counts || k in items
    ensures forall k :: Get(r, k) == Get(counts, k) + multiset(items)[k]
    ensures SumValues(r) == SumValues(counts) + |items|
  {
    r := counts;
    for i := 0 to |items|
      invariant forall k :: k in r <==> k in counts || k in items[..i]
      invariant forall k :: Get(r, k) == Get(counts, k) + multiset(items[..i])[k]
      invariant SumValues(r) == SumValues(counts) + i
    {
      var x := items[i];
      assert items[..i + 1] == items[..i] + [x];
      SumValuesUpdate(r, x, Get(r, x) + 1);
      r := r[x := Get(r, x) + 1];
    }
    assert items[..|items|] == items;
  }
}
