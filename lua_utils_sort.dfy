/** Properties of `ptree::sort()` as modelled by `SortByKey`: the result is
    ordered by key, is a permutation of the input, keeps the children under
    one key in their order, and is determined by the children alone when
    the keys are distinct. */
module LuaUtilsSort {
  import opened Base
  import opened LuaUtils

  /** The children under `k`, in order. */
  function WithKey(cs: seq<Child>, k: string): seq<Child>
  {
    if cs == [] then []
    else WithKey(cs[..|cs| - 1], k) + (if cs[|cs| - 1].key == k then [cs[|cs| - 1]] else [])
  }

  predicate DistinctKeys(cs: seq<Child>)
  {
    forall i, j :: 0 <= i < j < |cs| ==> cs[i].key != cs[j].key
  }

  /** The order `!(b < a)` on keys is transitive. */
  lemma KeyLeqTransitive(a: string, b: string, c: string)
    requires !StrLess(b, a) && !StrLess(c, b)
    ensures !StrLess(c, a)
  {
    if a != b && b != c {
      StrLessConnected(a, b);
      StrLessConnected(b, c);
      StrLessTransitive(a, b, c);
      StrLessAsymmetric(a, c);
    }
  }

  lemma {:induction false} InsertByKeySorted(s: seq<Child>, c: Child)
    requires KeySorted(s)
    ensures KeySorted(InsertByKey(s, c))
    decreases |s|
  {
    if s == [] || !StrLess(c.key, s[|s| - 1].key) {
      var r := s + [c];
      forall i, j | 0 <= i < j < |r| ensures !StrLess(r[j].key, r[i].key) {
        if j == |s| && i < |s| - 1 {
          KeyLeqTransitive(s[i].key, s[|s| - 1].key, c.key);
        }
      }
    } else {
      var p := s[..|s| - 1];
      var l := s[|s| - 1];
      InsertByKeySorted(p, c);
      var q := InsertByKey(p, c);
      assert forall x :: x in q ==> !StrLess(l.key, x.key) by {
        forall x | x in q ensures !StrLess(l.key, x.key) {
          assert x in multiset(q);
          if x == c {
            StrLessAsymmetric(c.key, l.key);
          } else {
            assert x in p;
          }
        }
      }
      var r := q + [l];
      forall i, j | 0 <= i < j < |r| ensures !StrLess(r[j].key, r[i].key) {
        if j == |q| { assert r[i] in q; }
        else { assert r[i] == q[i] && r[j] == q[j]; }
      }
    }
  }

  /** The sorted children are ordered by key and are the same children. */
  lemma {:induction false} SortByKeySorted(cs: seq<Child>)
    ensures KeySorted(SortByKey(cs)) && multiset(SortByKey(cs)) == multiset(cs)
    ensures |SortByKey(cs)| == |cs|
  {
    if cs != [] {
      SortByKeySorted(cs[..|cs| - 1]);
      InsertByKeySorted(SortByKey(cs[..|cs| - 1]), cs[|cs| - 1]);
    }
    assert |multiset(SortByKey(cs))| == |multiset(cs)|;
  }

  lemma WithKeySnoc(cs: seq<Child>, c: Child, k: string)
    ensures WithKey(cs + [c], k) == WithKey(cs, k) + (if c.key == k then [c] else [])
  {
    assert (cs + [c])[..|cs|] == cs;
  }

  lemma {:induction false} InsertByKeyWithKey(s: seq<Child>, c: Child, k: string)
    ensures WithKey(InsertByKey(s, c), k) == WithKey(s, k) + (if c.key == k then [c] else [])
    decreases |s|
  {
    if s == [] || !StrLess(c.key, s[|s| - 1].key) {
      InsertByKeyAppends(s, c);
      WithKeySnoc(s, c, k);
    } else {
      var p := s[..|s| - 1];
      var l := s[|s| - 1];
      var q := InsertByKey(p, c);
      InsertByKeyPasses(s, c);
      InsertByKeyWithKey(p, c, k);
      WithKeySnoc(q, l, k);
      WithKeyLast(s, k);
      if c.key == k && l.key == k {
        StrLessIrreflexive(k);
      }
      AtMostOneAppended(WithKey(p, k), c, l, k);
    }
  }

  /** Appending a child under `k` and one not under `k`, in either order,
      gives the same children under `k`. */
  lemma AtMostOneAppended(a: seq<Child>, c: Child, l: Child, k: string)
    requires !(c.key == k && l.key == k)
    ensures (a + (if c.key == k then [c] else [])) + (if l.key == k then [l] else [])
         == (a + (if l.key == k then [l] else [])) + (if c.key == k then [c] else [])
  {
    if c.key == k {
      assert (a + [c]) + [] == (a + []) + [c];
    } else if l.key == k {
      assert (a + []) + [l] == (a + [l]) + [];
    }
  }

  /** A child not below the last key goes at the end. */
  lemma InsertByKeyAppends(s: seq<Child>, c: Child)
    requires s == [] || !StrLess(c.key, s[|s| - 1].key)
    ensures InsertByKey(s, c) == s + [c]
  {
  }

  /** A child with a key below the last one goes before it. */
  lemma InsertByKeyPasses(s: seq<Child>, c: Child)
    requires s != [] && StrLess(c.key, s[|s| - 1].key)
    ensures InsertByKey(s, c) == InsertByKey(s[..|s| - 1], c) + [s[|s| - 1]]
  {
  }

  lemma WithKeyLast(s: seq<Child>, k: string)
    requires s != []
    ensures WithKey(s, k) == WithKey(s[..|s| - 1], k) + (if s[|s| - 1].key == k then [s[|s| - 1]] else [])
  {
  }

  /** The sort is stable: the children under each key keep their order. */
  lemma {:induction false} SortByKeyStable(cs: seq<Child>, k: string)
    ensures WithKey(SortByKey(cs), k) == WithKey(cs, k)
  {
    if cs != [] {
      var p, c := cs[..|cs| - 1], cs[|cs| - 1];
      assert SortByKey(cs) == InsertByKey(SortByKey(p), c);
      assert WithKey(cs, k) == WithKey(p, k) + (if c.key == k then [c] else []);
      SortByKeyStable(p, k);
      InsertByKeyWithKey(SortByKey(p), c, k);
    }
  }

  lemma {:induction false} InsertByKeyDistinct(s: seq<Child>, c: Child)
    requires DistinctKeys(s) && forall x :: x in s ==> x.key != c.key
    ensures DistinctKeys(InsertByKey(s, c))
    decreases |s|
  {
    if s == [] || !StrLess(c.key, s[|s| - 1].key) {
    } else {
      var p := s[..|s| - 1];
      var l := s[|s| - 1];
      InsertByKeyDistinct(p, c);
      var q := InsertByKey(p, c);
      forall x | x in q ensures x.key != l.key {
        assert x in multiset(q);
        if x != c {
          assert x in p;
          var i :| 0 <= i < |p| && p[i] == x;
          assert s[i] == x;
        }
      }
      var r := q + [l];
      forall i, j | 0 <= i < j < |r| ensures r[i].key != r[j].key {
        if j == |q| { assert r[i] in q; }
        else { assert r[i] == q[i] && r[j] == q[j]; }
      }
    }
  }

  lemma {:induction false} SortByKeyDistinct(cs: seq<Child>)
    requires DistinctKeys(cs)
    ensures DistinctKeys(SortByKey(cs))
  {
    if cs != [] {
      var p := cs[..|cs| - 1];
      var c := cs[|cs| - 1];
      SortByKeyDistinct(p);
      forall x | x in SortByKey(p) ensures x.key != c.key {
        assert x in multiset(SortByKey(p));
        var i :| 0 <= i < |p| && p[i] == x;
        assert cs[i] == x;
      }
      InsertByKeyDistinct(SortByKey(p), c);
    }
  }

  lemma SortedLastEqual(a: seq<Child>, b: seq<Child>)
    requires KeySorted(a) && KeySorted(b) && multiset(a) == multiset(b) && DistinctKeys(a)
    requires a != []
    ensures |a| == |b| && a[|a| - 1] == b[|b| - 1]
  {
    assert |b| == |multiset(b)| == |a|;
    var la, lb := a[|a| - 1], b[|b| - 1];
    assert lb in multiset(a) && la in multiset(b);
    var i :| 0 <= i < |a| && a[i] == lb;
    var j :| 0 <= j < |b| && b[j] == la;
    StrLessEquivalenceIsEquality(la.key, lb.key);
  }

  lemma DropLast(a: seq<Child>)
    requires a != []
    ensures KeySorted(a) ==> KeySorted(a[..|a| - 1])
    ensures DistinctKeys(a) ==> DistinctKeys(a[..|a| - 1])
    ensures multiset(a[..|a| - 1]) == multiset(a) - multiset{a[|a| - 1]}
  {
    assert a == a[..|a| - 1] + [a[|a| - 1]];
  }

  /** Two key-ordered lists of the same children, with distinct keys, are
      the same list. */
  lemma {:induction false} SortedUnique(a: seq<Child>, b: seq<Child>)
    requires KeySorted(a) && KeySorted(b) && multiset(a) == multiset(b) && DistinctKeys(a)
    ensures a == b
    decreases |a|
  {
    if a == [] {
      assert |multiset(b)| == 0;
    } else {
      SortedLastEqual(a, b);
      DropLast(a);
      DropLast(b);
      SortedUnique(a[..|a| - 1], b[..|b| - 1]);
      SameInitAndLast(a, b);
    }
  }

  lemma SameInitAndLast(a: seq<Child>, b: seq<Child>)
    requires a != [] && |a| == |b| && a[..|a| - 1] == b[..|b| - 1] && a[|a| - 1] == b[|b| - 1]
    ensures a == b
  {
    assert a == a[..|a| - 1] + [a[|a| - 1]];
    assert b == b[..|b| - 1] + [b[|b| - 1]];
  }

  /** Sorting children with distinct keys depends only on which children
      there are, not on their order. */
  lemma SortByKeyOrderIrrelevant(a: seq<Child>, b: seq<Child>)
    requires multiset(a) == multiset(b) && DistinctKeys(a)
    ensures SortByKey(a) == SortByKey(b)
  {
    SortByKeySorted(a);
    SortByKeySorted(b);
    SortByKeyDistinct(a);
    SortedUnique(SortByKey(a), SortByKey(b));
  }
}
