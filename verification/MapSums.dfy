/** Order-independent sums over finite maps. */
module MapSums {

  ghost function MapSum<K>(m: map<K, int>): int
    decreases |m|
  {
    if m.Keys == {} then 0 else
      var k :| k in m;
      m[k] + MapSum(m - {k})
  }

  lemma {:induction false} MapSumRemove<K>(m: map<K, int>, k: K)
    requires k in m
    ensures MapSum(m) == m[k] + MapSum(m - {k})
    decreases |m|
  {
    var c :| c in m && MapSum(m) == m[c] + MapSum(m - {c});
    if c != k {
      MapSumRemove(m - {c}, k);
      MapSumRemove(m - {k}, c);
      assert m - {c} - {k} == m - {k} - {c};
    }
  }

  lemma MapSumSet<K>(m: map<K, int>, k: K, v: int)
    ensures MapSum(m[k := v]) == MapSum(m) - (if k in m then m[k] else 0) + v
  {
    MapSumRemove(m[k := v], k);
    if k in m {
      MapSumRemove(m, k);
      assert m[k := v] - {k} == m - {k};
    } else {
      assert m[k := v] - {k} == m;
    }
  }

  /** A map whose entries are those of two disjoint maps sums to both. */
  lemma {:induction false} MapSumSplit<K>(u: map<K, int>, m: map<K, int>, n: map<K, int>)
    requires forall k :: k in m ==> k !in n && k in u && u[k] == m[k]
    requires forall k :: k in n ==> k in u && u[k] == n[k]
    requires forall k :: k in u ==> k in m || k in n
    ensures MapSum(u) == MapSum(m) + MapSum(n)
    decreases |n|
  {
    if n.Keys == {} {
      assert u == m;
    } else {
      var k :| k in n;
      MapSumSplit(u - {k}, m, n - {k});
      MapSumRemove(n, k);
      MapSumRemove(u, k);
    }
  }

  lemma {:induction false} MapSumNonNegative<K>(m: map<K, int>)
    requires forall k :: k in m ==> m[k] >= 0
    ensures MapSum(m) >= 0
    decreases |m|
  {
    if m.Keys != {} {
      var k :| k in m;
      MapSumRemove(m, k);
      MapSumNonNegative(m - {k});
    }
  }

  lemma {:induction false} MapSumNonPositive<K>(m: map<K, int>)
    requires forall k :: k in m ==> m[k] <= 0
    ensures MapSum(m) <= 0
    decreases |m|
  {
    if m.Keys != {} {
      var k :| k in m;
      MapSumRemove(m, k);
      MapSumNonPositive(m - {k});
    }
  }

  /** Entries of value zero do not count. */
  lemma {:induction false} MapSumZeros<K>(m: map<K, int>)
    requires forall k :: k in m ==> m[k] == 0
    ensures MapSum(m) == 0
  {
    MapSumNonNegative(m);
    MapSumNonPositive(m);
  }

  /** Renaming the keys one to one keeps the sum. */
  lemma {:induction false} MapSumRename<K(!new), L>(m: map<K, int>, n: map<L, int>, f: K -> L)
    requires forall k :: k in m ==> f(k) in n && n[f(k)] == m[k]
    requires forall l :: l in n ==> exists k :: k in m && f(k) == l
    requires forall k, k' :: k in m && k' in m && f(k) == f(k') ==> k == k'
    ensures MapSum(m) == MapSum(n)
    decreases |m|
  {
    if m.Keys == {} {
      assert n.Keys == {};
    } else {
      var k :| k in m;
      var m', n' := m - {k}, n - {f(k)};
      forall l | l in n'
        ensures exists k' :: k' in m' && f(k') == l
      {
        var k' :| k' in m && f(k') == l;
        assert k' in m';
      }
      MapSumRename(m', n', f);
      MapSumRemove(m, k);
      MapSumRemove(n, f(k));
    }
  }

  /** Renaming, when the renamed map keeps only the entries that are not zero. */
  lemma MapSumRenameNonZero<K(!new), L>(m: map<K, int>, n: map<L, int>, f: K -> L)
    requires forall k :: k in m && m[k] != 0 ==> f(k) in n && n[f(k)] == m[k]
    requires forall l :: l in n ==> exists k :: k in m && m[k] != 0 && f(k) == l
    requires forall k, k' :: k in m && k' in m && f(k) == f(k') ==> k == k'
    ensures MapSum(m) == MapSum(n)
  {
    var some := map k | k in m && m[k] != 0 :: m[k];
    var none := map k | k in m && m[k] == 0 :: m[k];
    MapSumSplit(m, some, none);
    MapSumZeros(none);
    forall l | l in n
      ensures exists k :: k in some && f(k) == l
    {
      var k :| k in m && m[k] != 0 && f(k) == l;
      assert k in some;
    }
    MapSumRename(some, n, f);
  }

  /** The entries of `m` whose keys are listed. */
  ghost function Among<K>(m: map<K, int>, ks: seq<K>): map<K, int> {
    map k | k in m && k in ks :: m[k]
  }

  lemma AmongNext<K>(m: map<K, int>, ks: seq<K>, n: nat)
    requires n < |ks| && forall i, j :: 0 <= i < j < |ks| ==> ks[i] != ks[j]
    ensures MapSum(Among(m, ks[..n + 1])) == MapSum(Among(m, ks[..n])) + (if ks[n] in m then m[ks[n]] else 0)
  {
    var k := ks[n];
    var before, after := Among(m, ks[..n]), Among(m, ks[..n + 1]);
    assert ks[..n + 1] == ks[..n] + [k];
    if k in m {
      MapSumRemove(after, k);
      assert after - {k} == before;
    } else {
      assert after == before;
    }
  }

  lemma AmongAll<K>(m: map<K, int>, ks: seq<K>)
    requires forall k :: k in m ==> k in ks
    ensures Among(m, ks) == m
  {
  }

  lemma AmongBounds<K>(m: map<K, int>, ks: seq<K>)
    requires forall k :: k in m ==> m[k] >= 0
    ensures 0 <= MapSum(Among(m, ks)) <= MapSum(m)
  {
    var rest := map k | k in m && k !in ks :: m[k];
    MapSumSplit(m, Among(m, ks), rest);
    MapSumNonNegative(Among(m, ks));
    MapSumNonNegative(rest);
  }
}
