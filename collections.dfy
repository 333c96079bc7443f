/** Generic sequence and map helpers shared by the game and the solvers:
    order-preserving filtering (Rust `iter().filter().collect()`, Python list
    comprehensions) and counting by key (the `HashMap` tallies of the solvers). */
module Collections {

  function Min(a: int, b: int): int
  {
    if a <= b then a else b
  }

  /** The elements of `s` that satisfy `p`, in their original order. */
  function Filter<T(!new)>(p: T -> bool, s: seq<T>): (r: seq<T>)
    ensures |r| <= |s|
    ensures forall x :: x in r <==> x in s && p(x)
  {
    if s == [] then []
    else (if p(s[0]) then [s[0]] else []) + Filter(p, s[1..])
  }

  /** Filtering distributes over concatenation; together with the one-element
      case this pins the result down as "the accepted elements, in order". */
  lemma {:induction false} FilterConcat<T(!new)>(p: T -> bool, a: seq<T>, b: seq<T>)
    ensures Filter(p, a + b) == Filter(p, a) + Filter(p, b)
  {
    if a == [] {
      assert a + b == b;
    } else {
      assert (a + b)[0] == a[0];
      assert (a + b)[1..] == a[1..] + b;
      FilterConcat(p, a[1..], b);
    }
  }

  lemma {:induction false} FilterIdempotent<T(!new)>(p: T -> bool, s: seq<T>)
    ensures Filter(p, Filter(p, s)) == Filter(p, s)
  {
    if s != [] {
      FilterIdempotent(p, s[1..]);
      FilterConcat(p, if p(s[0]) then [s[0]] else [], Filter(p, s[1..]));
      if p(s[0]) {
        assert Filter(p, [s[0]]) == [s[0]] by {
          assert [s[0]][1..] == [];
        }
      }
    }
  }

  /** An element that fails the test is dropped, so the result is strictly shorter. */
  lemma {:induction false} FilterDropsRejected<T(!new)>(p: T -> bool, s: seq<T>, x: T)
    requires x in s && !p(x)
    ensures |Filter(p, s)| < |s|
  {
    if s[0] != x {
      FilterDropsRejected(p, s[1..], x);
    }
  }

  function Get<K(==)>(m: map<K, nat>, k: K): nat
  {
    if k in m then m[k] else 0
  }

  /** One more occurrence of `k`: the in-place `*entry(k).or_insert(0) += 1`. */
  function Bump<K(==)>(m: map<K, nat>, k: K): (r: map<K, nat>)
    ensures r.Keys == m.Keys + {k} && r[k] == Get(m, k) + 1
    ensures forall j :: j in m && j != k ==> r[j] == m[j]
  {
    m[k := Get(m, k) + 1]
  }

  /** Occurrence count of every key of `ks`, counted from the front as the
      solvers' loops do (keys that do not occur are absent). */
  function Tally<K(==)>(ks: seq<K>): map<K, nat>
  {
    if ks == [] then map[] else Bump(Tally(ks[..|ks| - 1]), ks[|ks| - 1])
  }

  lemma TallySnoc<K>(ks: seq<K>, x: K)
    ensures Tally(ks + [x]) == Bump(Tally(ks), x)
  {
    assert (ks + [x])[..|ks|] == ks;
  }

  /** The keys of a tally are the keys counted, each with its number of occurrences. */
  lemma {:induction false} TallyMeaning<K>(ks: seq<K>)
    ensures forall k :: k in Tally(ks) <==> k in ks
    ensures forall k :: k in Tally(ks) ==> Tally(ks)[k] == multiset(ks)[k] && Tally(ks)[k] >= 1
  {
    if ks != [] {
      var init, x := ks[..|ks| - 1], ks[|ks| - 1];
      assert ks == init + [x];
      TallyMeaning(init);
      assert multiset(ks) == multiset(init) + multiset{x};
    }
  }

  /** The sum of the values of a map with natural values. */
  ghost function Total<K>(m: map<K, nat>): nat
    decreases |m|
  {
    if m == map[] then 0
    else
      var k :| k in m;
      assert |m - {k}| < |m| by { RemoveOne(m, k); }
      m[k] + Total(m - {k})
  }

  lemma RemoveOne<K, V>(m: map<K, V>, k: K)
    requires k in m
    ensures |m - {k}| == |m| - 1
  {
    assert (m - {k}).Keys == m.Keys - {k};
    assert |m.Keys - {k}| == |m.Keys| - 1;
  }

  /** The total does not depend on which key the definition takes out first. */
  lemma {:induction false} TotalRemove<K>(m: map<K, nat>, k: K)
    requires k in m
    ensures Total(m) == m[k] + Total(m - {k})
    decreases |m|
  {
    var j :| j in m && Total(m) == m[j] + Total(m - {j});
    if j != k {
      RemoveOne(m, j);
      RemoveOne(m, k);
      TotalRemove(m - {j}, k);
      TotalRemove(m - {k}, j);
      assert m - {j} - {k} == m - {k} - {j};
    }
  }

  lemma TotalUpdate<K>(m: map<K, nat>, k: K, v: nat)
    ensures Total(m[k := v]) == v + Total(m - {k})
  {
    TotalRemove(m[k := v], k);
    assert m[k := v] - {k} == m - {k};
  }

  /** The counts of a tally add up to the number of keys counted. */
  lemma {:induction false} TotalTally<K>(ks: seq<K>)
    ensures Total(Tally(ks)) == |ks|
  {
    if ks == [] {
      assert Tally(ks) == map[];
    } else {
      var init, x := ks[..|ks| - 1], ks[|ks| - 1];
      assert ks == init + [x];
      TotalTally(init);
      var t := Tally(init);
      TotalUpdate(t, x, Get(t, x) + 1);
      if x in t {
        TotalRemove(t, x);
      } else {
        assert t - {x} == t;
      }
    }
  }

  /** A map whose values are all at least one has no more keys than its total. */
  lemma {:induction false} SizeAtMostTotal<K>(m: map<K, nat>)
    requires forall k :: k in m ==> m[k] >= 1
    ensures |m| <= Total(m)
    decreases |m|
  {
    if m != map[] {
      var k :| k in m;
      TotalRemove(m, k);
      RemoveOne(m, k);
      SizeAtMostTotal(m - {k});
    }
  }

  /** A tally has at most as many distinct keys as keys were counted. */
  lemma TallySize<K>(ks: seq<K>)
    ensures |Tally(ks)| <= |ks|
  {
    TallyMeaning(ks);
    SizeAtMostTotal(Tally(ks));
    TotalTally(ks);
  }
}
