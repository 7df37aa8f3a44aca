/** Lists up to order: Python's `sorted` under a total order, and comprehensions over permuted lists. */

module Lists {

  ghost predicate TotalOrder<T(!new)>(leq: (T, T) -> bool) {
    && (forall a, b :: leq(a, b) || leq(b, a))
    && (forall a, b :: leq(a, b) && leq(b, a) ==> a == b)
    && (forall a, b, c :: leq(a, b) && leq(b, c) ==> leq(a, c))
  }

  predicate Ordered<T>(leq: (T, T) -> bool, s: seq<T>) {
    forall i, j :: 0 <= i < j < |s| ==> leq(s[i], s[j])
  }

  function Inserted<T>(leq: (T, T) -> bool, x: T, s: seq<T>): (r: seq<T>)
    ensures multiset(r) == multiset(s) + multiset{x}
  {
    if s == [] then [x]
    else if leq(x, s[0]) then [x] + s
    else
      assert s == [s[0]] + s[1..];
      [s[0]] + Inserted(leq, x, s[1..])
  }

  function SortedBy<T>(leq: (T, T) -> bool, s: seq<T>): (r: seq<T>)
    ensures multiset(r) == multiset(s)
  {
    if s == [] then [] else
      assert s == [s[0]] + s[1..];
      Inserted(leq, s[0], SortedBy(leq, s[1..]))
  }

  lemma {:induction false} InsertedIsOrdered<T(!new)>(leq: (T, T) -> bool, x: T, s: seq<T>)
    requires TotalOrder(leq) && Ordered(leq, s)
    ensures Ordered(leq, Inserted(leq, x, s))
  {
    if s != [] && !leq(x, s[0]) {
      var rest := Inserted(leq, x, s[1..]);
      InsertedIsOrdered(leq, x, s[1..]);
      forall j | 0 <= j < |rest| ensures leq(s[0], rest[j]) {
        assert rest[j] in multiset(rest);
        assert rest[j] == x || rest[j] in s[1..];
      }
    } else if s != [] {
      forall j | 0 <= j < |s| ensures leq(x, s[j]) {
        assert leq(x, s[0]) && (j == 0 || leq(s[0], s[j]));
      }
    }
  }

  lemma {:induction false} SortedIsOrdered<T(!new)>(leq: (T, T) -> bool, s: seq<T>)
    requires TotalOrder(leq)
    ensures Ordered(leq, SortedBy(leq, s))
  {
    if s != [] {
      SortedIsOrdered(leq, s[1..]);
      InsertedIsOrdered(leq, s[0], SortedBy(leq, s[1..]));
    }
  }

  lemma SameLeast<T(!new)>(leq: (T, T) -> bool, s: seq<T>, t: seq<T>)
    requires TotalOrder(leq) && Ordered(leq, s) && s != [] && t != [] && t[0] in s
    ensures leq(s[0], t[0])
  {
    var i :| 0 <= i < |s| && s[i] == t[0];
    assert leq(s[0], s[0]) && (i == 0 || leq(s[0], s[i]));
  }

  lemma {:induction false} OrderedIsUnique<T(!new)>(leq: (T, T) -> bool, s: seq<T>, t: seq<T>)
    requires TotalOrder(leq) && Ordered(leq, s) && Ordered(leq, t) && multiset(s) == multiset(t)
    ensures s == t
  {
    assert |s| == |multiset(s)| == |multiset(t)| == |t|;
    if s != [] {
      assert s[0] in multiset(t) && t[0] in multiset(s);
      SameLeast(leq, s, t);
      SameLeast(leq, t, s);
      var x := s[0];
      assert t[0] == x;
      assert s == [x] + s[1..] && t == [x] + t[1..];
      assert multiset(s[1..]) == multiset(s) - multiset{x};
      assert multiset(t[1..]) == multiset(t) - multiset{x};
      OrderedIsUnique(leq, s[1..], t[1..]);
    }
  }

  function Filter<T(!new)>(keep: T -> bool, s: seq<T>): (r: seq<T>)
    ensures forall x :: multiset(r)[x] == if keep(x) then multiset(s)[x] else 0
  {
    if s == [] then [] else
      assert s == [s[0]] + s[1..];
      (if keep(s[0]) then [s[0]] else []) + Filter(keep, s[1..])
  }

  lemma {:induction false} FilterIsOrdered<T(!new)>(leq: (T, T) -> bool, keep: T -> bool, s: seq<T>)
    requires Ordered(leq, s)
    ensures Ordered(leq, Filter(keep, s))
  {
    if s != [] {
      FilterIsOrdered(leq, keep, s[1..]);
      var rest := Filter(keep, s[1..]);
      forall j | 0 <= j < |rest| ensures leq(s[0], rest[j]) {
        assert multiset(rest)[rest[j]] > 0;
        assert rest[j] in s[1..];
      }
    }
  }

  /** Filtering one sorted list gives another exactly when the kept elements are the same, as often. */
  lemma SortedComparison<T(!new)>(leq: (T, T) -> bool, keep: T -> bool, s: seq<T>, t: seq<T>)
    requires TotalOrder(leq)
    ensures Filter(keep, SortedBy(leq, s)) == SortedBy(leq, t) <==> multiset(Filter(keep, s)) == multiset(t)
  {
    SortedIsOrdered(leq, s);
    SortedIsOrdered(leq, t);
    FilterIsOrdered(leq, keep, SortedBy(leq, s));
    assert multiset(Filter(keep, SortedBy(leq, s))) == multiset(Filter(keep, s));
    if multiset(Filter(keep, s)) == multiset(t) {
      OrderedIsUnique(leq, Filter(keep, SortedBy(leq, s)), SortedBy(leq, t));
    }
  }

  /** A comprehension: what g makes of the elements, in order. */
  function Collect<S, T>(g: S -> seq<T>, s: seq<S>): seq<T> {
    if s == [] then [] else Collect(g, s[..|s| - 1]) + g(s[|s| - 1])
  }

  lemma {:induction false} CollectJoins<S, T>(g: S -> seq<T>, s: seq<S>, t: seq<S>)
    ensures Collect(g, s + t) == Collect(g, s) + Collect(g, t)
  {
    if t == [] {
      assert s + t == s;
    } else {
      var u := s + t;
      assert u[..|u| - 1] == s + t[..|t| - 1];
      CollectJoins(g, s, t[..|t| - 1]);
    }
  }

  lemma WithoutOne<S>(s: seq<S>, k: nat)
    requires k < |s|
    ensures multiset(s) == multiset(s[..k] + s[k + 1..]) + multiset{s[k]}
  {
    assert s == s[..k] + [s[k]] + s[k + 1..];
  }

  lemma {:induction false} CollectWithoutOne<S, T>(g: S -> seq<T>, s: seq<S>, k: nat)
    requires k < |s|
    ensures multiset(Collect(g, s)) == multiset(Collect(g, s[..k] + s[k + 1..])) + multiset(g(s[k]))
  {
    assert s == s[..k] + ([s[k]] + s[k + 1..]);
    CollectJoins(g, s[..k], [s[k]] + s[k + 1..]);
    CollectJoins(g, [s[k]], s[k + 1..]);
    CollectJoins(g, s[..k], s[k + 1..]);
    assert Collect(g, [s[k]]) == Collect(g, []) + g(s[k]) == g(s[k]) by { assert [s[k]][..0] == []; }
  }

  /** Permuting the elements permutes what is made of them. */
  lemma {:induction false} CollectPermuted<S, T>(g: S -> seq<T>, s: seq<S>, t: seq<S>)
    requires multiset(s) == multiset(t)
    ensures multiset(Collect(g, s)) == multiset(Collect(g, t))
    decreases |s|
  {
    assert |s| == |multiset(s)| == |multiset(t)| == |t|;
    if s != [] {
      var n := |s| - 1;
      assert s[n] in multiset(t);
      var k :| 0 <= k < |t| && t[k] == s[n];
      WithoutOne(s, n);
      WithoutOne(t, k);
      var rest := t[..k] + t[k + 1..];
      assert s[..n] + s[n + 1..] == s[..n];
      assert multiset(s[..n]) == multiset(s) - multiset{s[n]};
      assert multiset(rest) == multiset(t) - multiset{s[n]};
      CollectPermuted(g, s[..n], rest);
      CollectWithoutOne(g, s, n);
      CollectWithoutOne(g, t, k);
    }
  }

  lemma {:induction false} CollectMaps<S, T>(f: S -> T, s: seq<S>, t: seq<T>)
    requires |t| == |s| && forall i :: 0 <= i < |s| ==> t[i] == f(s[i])
    ensures Collect(x => [f(x)], s) == t
  {
    if s != [] {
      var n := |s| - 1;
      CollectMaps(f, s[..n], t[..n]);
      assert t == t[..n] + [t[n]];
    }
  }

  /** Mapping permuted lists gives permuted lists. */
  lemma MapPermuted<S, T>(f: S -> T, s: seq<S>, t: seq<T>, s': seq<S>, t': seq<T>)
    requires multiset(s) == multiset(s')
    requires |t| == |s| && forall i :: 0 <= i < |s| ==> t[i] == f(s[i])
    requires |t'| == |s'| && forall i :: 0 <= i < |s'| ==> t'[i] == f(s'[i])
    ensures multiset(t) == multiset(t')
  {
    CollectMaps(f, s, t);
    CollectMaps(f, s', t');
    CollectPermuted(x => [f(x)], s, s');
  }

  lemma {:induction false} CollectMembers<S, T>(g: S -> seq<T>, s: seq<S>, x: T)
    ensures x in Collect(g, s) <==> exists i :: 0 <= i < |s| && x in g(s[i])
  {
    if s != [] {
      var n := |s| - 1;
      CollectMembers(g, s[..n], x);
      if x in Collect(g, s[..n]) {
        var i :| 0 <= i < n && x in g(s[..n][i]);
        assert x in g(s[i]);
      } else if i :| 0 <= i < |s| && x in g(s[i]) {
        if i < n { assert s[..n][i] == s[i]; }
      }
    }
  }

  /** Sorting forgets the order. */
  lemma SortedAlike<T(!new)>(leq: (T, T) -> bool, s: seq<T>, t: seq<T>)
    requires TotalOrder(leq) && multiset(s) == multiset(t)
    ensures SortedBy(leq, s) == SortedBy(leq, t)
  {
    SortedIsOrdered(leq, s);
    SortedIsOrdered(leq, t);
    OrderedIsUnique(leq, SortedBy(leq, s), SortedBy(leq, t));
  }

  predicate Distinct<T(==)>(s: seq<T>) { forall i, j :: 0 <= i < j < |s| ==> s[i] != s[j] }

  lemma {:induction false} DistinctCounts<T(!new)>(s: seq<T>)
    ensures Distinct(s) <==> forall x :: multiset(s)[x] <= 1
  {
    if s != [] {
      var n := |s| - 1;
      DistinctCounts(s[..n]);
      assert s == s[..n] + [s[n]];
      if Distinct(s) {
        assert s[n] !in s[..n];
        assert multiset(s[..n])[s[n]] == 0;
      } else if Distinct(s[..n]) {
        var i, j :| 0 <= i < j < |s| && s[i] == s[j];
        assert s[..n][i] == s[n];
        assert s[n] in s[..n];
        assert multiset(s)[s[n]] >= 2;
      } else {
        var x :| multiset(s[..n])[x] > 1;
        assert multiset(s)[x] > 1;
      }
    }
  }
}
