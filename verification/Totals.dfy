/**
 Sums over dictionaries.  The audit adds up the values of Python dictionaries in whatever
 order the dictionary yields them, so a total is defined without fixing an order and the
 lemmas below let a proof take out any entry it likes.
 */
module Totals {

  /** The sum of the values of `m`. */
  ghost function Total<K(!new)>(m: map<K, real>): real
    decreases |m|
  {
    if m == map[] then 0.0 else
      var k :| k in m;
      assert (m - {k}).Keys == m.Keys - {k};
      m[k] + Total(m - {k})
  }

  /** Any entry can be taken out first. */
  lemma {:induction false} TotalAt<K(!new)>(m: map<K, real>, k: K)
    requires k in m
    ensures Total(m) == m[k] + Total(m - {k})
    decreases |m|
  {
    var j :| j in m && Total(m) == m[j] + Total(m - {j});
    if j != k {
      assert (m - {j}).Keys == m.Keys - {j};
      assert (m - {k}).Keys == m.Keys - {k};
      TotalAt(m - {j}, k);
      TotalAt(m - {k}, j);
      assert m - {j} - {k} == m - {k} - {j};
    }
  }

  lemma TotalOfTwo<K(!new)>(m: map<K, real>, j: K, k: K)
    requires m.Keys == {j, k} && j != k
    ensures Total(m) == m[j] + m[k]
  {
    TotalAt(m, j);
    TotalAt(m - {j}, k);
    assert m - {j} - {k} == map[];
  }

  lemma TotalOfThree<K(!new)>(m: map<K, real>, i: K, j: K, k: K)
    requires m.Keys == {i, j, k} && i != j && i != k && j != k
    ensures Total(m) == m[i] + m[j] + m[k]
  {
    TotalAt(m, i);
    assert (m - {i}).Keys == {j, k};
    TotalOfTwo(m - {i}, j, k);
  }

  /** Writing a new key adds its value; overwriting one replaces it. */
  lemma TotalPut<K(!new)>(m: map<K, real>, k: K, v: real)
    ensures Total(m[k := v]) == Total(m) - (if k in m then m[k] else 0.0) + v
  {
    TotalAt(m[k := v], k);
    if k in m {
      TotalAt(m, k);
      assert m[k := v] - {k} == m - {k};
    } else {
      assert m[k := v] - {k} == m;
    }
  }

  lemma {:induction false} TotalMono<K(!new)>(m: map<K, real>, n: map<K, real>)
    requires m.Keys == n.Keys
    requires forall k :: k in m ==> m[k] <= n[k]
    ensures Total(m) <= Total(n)
    decreases |m|
  {
    if m == map[] {
      assert n == map[];
    } else {
      var k :| k in m;
      assert (m - {k}).Keys == m.Keys - {k} == (n - {k}).Keys;
      TotalMono(m - {k}, n - {k});
      TotalAt(m, k);
      TotalAt(n, k);
    }
  }

  lemma {:induction false} TotalZero<K(!new)>(m: map<K, real>)
    requires forall k :: k in m ==> m[k] == 0.0
    ensures Total(m) == 0.0
    decreases |m|
  {
    if m != map[] {
      var k :| k in m;
      assert (m - {k}).Keys == m.Keys - {k};
      TotalZero(m - {k});
      TotalAt(m, k);
    }
  }

  /** With no negative value, a total is zero exactly when every value is. */
  lemma {:induction false} TotalZeroIff<K(!new)>(m: map<K, real>)
    requires forall k :: k in m ==> m[k] >= 0.0
    ensures Total(m) >= 0.0
    ensures Total(m) == 0.0 <==> forall k :: k in m ==> m[k] == 0.0
    decreases |m|
  {
    if m != map[] {
      var k :| k in m;
      assert (m - {k}).Keys == m.Keys - {k};
      TotalZeroIff(m - {k});
      TotalAt(m, k);
      assert forall j :: j in m ==> j == k || j in m - {k};
    }
  }

  ghost function Plus(p: real, q: real): real { p + q }

  ghost predicate Additive(f: real -> real)
  {
    f(0.0) == 0.0 && forall p, q {:trigger Plus(p, q)} :: f(Plus(p, q)) == f(p) + f(q)
  }

  /** An additive function of every value comes out of the total. */
  lemma {:induction false} TotalAdditive<K(!new)>(m: map<K, real>, a: map<K, real>, f: real -> real)
    requires m.Keys == a.Keys
    requires forall k :: k in m ==> m[k] == f(a[k])
    requires Additive(f)
    ensures Total(m) == f(Total(a))
    decreases |m|
  {
    if m == map[] {
      assert a == map[];
    } else {
      var k :| k in m;
      assert (m - {k}).Keys == m.Keys - {k} == (a - {k}).Keys;
      TotalAdditive(m - {k}, a - {k}, f);
      TotalAt(m, k);
      TotalAt(a, k);
      assert Plus(a[k], Total(a - {k})) == Total(a);
    }
  }

  function Portion(v: real, x: real): real
  {
    v * x
  }

  lemma PortionIsAdditive(x: real) returns (f: real -> real)
    ensures Additive(f)
    ensures forall v :: f(v) == Portion(v, x)
  {
    f := v => Portion(v, x);
    forall p, q {:trigger Plus(p, q)}
      ensures f(Plus(p, q)) == f(p) + f(q)
    {
      assert (p + q) * x == p * x + q * x;
    }
  }

  function Scaled<K>(m: map<K, real>, x: real): map<K, real>
  {
    map k | k in m :: Portion(m[k], x)
  }

  /** So does a common factor. */
  lemma TotalScaled<K(!new)>(m: map<K, real>, x: real)
    ensures Total(Scaled(m, x)) == Portion(Total(m), x)
  {
    hide Portion, Total;
    var f := PortionIsAdditive(x);
    TotalAdditive(Scaled(m, x), m, f);
  }

  lemma {:induction false} TotalMinus<K(!new)>(m: map<K, real>, a: map<K, real>, b: map<K, real>)
    requires m.Keys == a.Keys == b.Keys
    requires forall k :: k in m ==> m[k] == a[k] - b[k]
    ensures Total(m) == Total(a) - Total(b)
    decreases |m|
  {
    if m == map[] {
      assert a == map[] && b == map[];
    } else {
      var k :| k in m;
      assert (m - {k}).Keys == m.Keys - {k} == (a - {k}).Keys == (b - {k}).Keys;
      TotalMinus(m - {k}, a - {k}, b - {k});
      TotalAt(m, k);
      TotalAt(a, k);
      TotalAt(b, k);
    }
  }

  ghost function Among<K>(m: map<K, real>, ks: set<K>): map<K, real>
  {
    map k | k in m && k in ks :: m[k]
  }

  lemma NoneAmong<K>(m: map<K, real>, ks: set<K>)
    requires Among(m, ks) == map[]
    ensures m - ks == m
  {
    assert forall k :: k in m && k in ks ==> k in Among(m, ks);
  }

  lemma AmongOneLess<K>(m: map<K, real>, ks: set<K>, k: K)
    requires k in Among(m, ks)
    ensures k in m && Among(m, ks)[k] == m[k]
    ensures Among(m - {k}, ks) == Among(m, ks) - {k}
    ensures m - {k} - ks == m - ks
  {
  }

  /** Splitting the keys splits the total. */
  lemma {:induction false} TotalSplit<K(!new)>(m: map<K, real>, ks: set<K>)
    ensures Total(m) == Total(Among(m, ks)) + Total(m - ks)
    decreases |m|
  {
    hide Total, Among;
    var inside := Among(m, ks);
    if inside == map[] {
      TotalZero(inside);
      NoneAmong(m, ks);
    } else {
      var k :| k in inside;
      AmongOneLess(m, ks, k);
      assert (m - {k}).Keys == m.Keys - {k};
      TotalSplit(m - {k}, ks);
      TotalAt(m, k);
      TotalAt(inside, k);
    }
  }

  /** Naming heights one-to-one keeps the total; entries of `n` that name no height must be zero. */
  lemma {:induction false} TotalReindex<L(!new)>(m: map<int, real>, name: map<int, L>, n: map<L, real>)
    requires name.Keys == m.Keys
    requires forall j, k :: j in name && k in name && name[j] == name[k] ==> j == k
    requires forall k :: k in m ==> name[k] in n && n[name[k]] == m[k]
    requires forall l :: l in n && n[l] != 0.0 ==> exists k :: k in name && name[k] == l
    ensures Total(m) == Total(n)
    decreases |m|
  {
    if m == map[] {
      TotalZero(n);
    } else {
      assert m.Keys != {};
      var item :| item in m.Items;
      var k := item.0;
      var l := name[k];
      assert (m - {k}).Keys == m.Keys - {k} == (name - {k}).Keys;
      forall i | i in n - {l} && n[i] != 0.0
        ensures exists j :: j in name - {k} && (name - {k})[j] == i
      {
        var j :| j in name && name[j] == i;
        assert j in name - {k};
      }
      TotalReindex(m - {k}, name - {k}, n - {l});
      TotalAt(m, k);
      TotalAt(n, l);
    }
  }

  /** Pigeonhole: entries worth at least 1 are no more numerous than their total. */
  lemma {:induction false} SizeAtMostTotal<K(!new)>(m: map<K, real>)
    requires forall k :: k in m ==> m[k] >= 1.0
    ensures |m| as real <= Total(m)
    decreases |m|
  {
    if m != map[] {
      var k :| k in m;
      assert (m - {k}).Keys == m.Keys - {k};
      SizeAtMostTotal(m - {k});
      TotalAt(m, k);
    }
  }

  // ----- dictionaries filled one assignment at a time

  /** The dictionary left by assigning the entries of `es` in order. */
  ghost function Filled<K>(es: seq<(K, real)>): map<K, real>
  {
    if es == [] then map[]
    else var last := es[|es| - 1]; Filled(es[..|es| - 1])[last.0 := last.1]
  }

  lemma FilledAppend<K>(es: seq<(K, real)>, k: K, v: real)
    ensures Filled(es + [(k, v)]) == Filled(es)[k := v]
  {
    assert (es + [(k, v)])[..|es|] == es;
  }

  lemma OneEntry<K>(k: K, v: real)
    ensures Filled([(k, v)]) == map[k := v]
  {
    assert [(k, v)][..0] == [];
    assert Filled([(k, v)][..0]) == map[];
  }

  ghost function EntrySum<K>(es: seq<(K, real)>): real
  {
    if es == [] then 0.0 else EntrySum(es[..|es| - 1]) + es[|es| - 1].1
  }

  /** What the assignments of `es` overwrite, added up. */
  ghost function Overwritten<K(!new)>(es: seq<(K, real)>): real
  {
    if es == [] then 0.0
    else
      var before := Filled(es[..|es| - 1]);
      var k := es[|es| - 1].0;
      Overwritten(es[..|es| - 1]) + if k in before then before[k] else 0.0
  }

  lemma OverwrittenAppend<K(!new)>(es: seq<(K, real)>, k: K, v: real)
    ensures Overwritten(es + [(k, v)]) == Overwritten(es) + if k in Filled(es) then Filled(es)[k] else 0.0
  {
    assert (es + [(k, v)])[..|es|] == es;
  }

  ghost predicate DistinctKeys<K(!new)>(es: seq<(K, real)>)
  {
    forall i, j :: 0 <= i < j < |es| ==> es[i].0 != es[j].0
  }

  /** The last entry with the key. */
  ghost predicate LastFor<K(!new)>(es: seq<(K, real)>, k: K, i: int)
  {
    0 <= i < |es| && es[i].0 == k && forall j :: i < j < |es| ==> es[j].0 != k
  }

  lemma LastStays<K(!new)>(es: seq<(K, real)>, k: K, i: int)
    requires es != [] && es[|es| - 1].0 != k && LastFor(es[..|es| - 1], k, i)
    ensures LastFor(es, k, i) && es[i] == es[..|es| - 1][i]
  {
    var init := es[..|es| - 1];
    forall j | i < j < |es|
      ensures es[j].0 != k
    {
      if j < |es| - 1 { assert init[j].0 != k; }
    }
  }

  /** A key is present when some entry carries it, with the value of the last such entry. */
  lemma {:induction false} FilledLookup<K(!new)>(es: seq<(K, real)>)
    ensures forall i :: 0 <= i < |es| ==> es[i].0 in Filled(es)
    ensures forall k :: k in Filled(es) ==> exists i :: LastFor(es, k, i) && es[i].1 == Filled(es)[k]
  {
    if es != [] {
      var n := |es| - 1;
      var init := es[..n];
      FilledLookup(init);
      assert forall i :: 0 <= i < n ==> init[i] == es[i];
      forall k | k in Filled(es)
        ensures exists i :: LastFor(es, k, i) && es[i].1 == Filled(es)[k]
      {
        if k == es[n].0 {
          assert LastFor(es, k, n);
        } else {
          var i :| LastFor(init, k, i) && init[i].1 == Filled(init)[k];
          LastStays(es, k, i);
        }
      }
    }
  }

  /** A filled dictionary holds everything that was assigned, less what was overwritten. */
  lemma {:induction false} FilledTotal<K(!new)>(es: seq<(K, real)>)
    ensures Total(Filled(es)) == EntrySum(es) - Overwritten(es)
  {
    if es != [] {
      var init := es[..|es| - 1];
      FilledTotal(init);
      TotalPut(Filled(init), es[|es| - 1].0, es[|es| - 1].1);
    }
  }

  /** Nothing of value is overwritten exactly when every repeated key but its last carries zero. */
  lemma {:induction false} OverwrittenZeroIff<K(!new)>(es: seq<(K, real)>)
    requires forall i :: 0 <= i < |es| ==> es[i].1 >= 0.0
    ensures Overwritten(es) >= 0.0
    ensures Overwritten(es) == 0.0 <==> forall i, j :: 0 <= i < j < |es| && es[i].0 == es[j].0 ==> es[i].1 == 0.0
  {
    if es != [] {
      var n := |es| - 1;
      var init, k := es[..n], es[n].0;
      assert forall i :: 0 <= i < n ==> init[i] == es[i];
      OverwrittenZeroIff(init);
      FilledLookup(init);
      if Overwritten(es) == 0.0 {
        forall i, j | 0 <= i < j < |es| && es[i].0 == es[j].0
          ensures es[i].1 == 0.0
        {
          if j == n {
            var m :| LastFor(init, k, m) && init[m].1 == Filled(init)[k];
            assert init[i].0 == k;
            assert i <= m;
            assert es[m].1 == 0.0;
            if i < m { assert init[i].0 == init[m].0; }
          } else {
            assert init[i].0 == init[j].0;
          }
        }
      }
    }
  }

  lemma {:induction false} DistinctLosesNothing<K(!new)>(es: seq<(K, real)>)
    requires DistinctKeys(es)
    ensures Overwritten(es) == 0.0
    ensures forall i :: 0 <= i < |es| ==> es[i].0 in Filled(es) && Filled(es)[es[i].0] == es[i].1
  {
    FilledLookup(es);
    if es != [] {
      var init := es[..|es| - 1];
      DistinctLosesNothing(init);
      FilledLookup(init);
    }
  }
}
