/** Sums over finite maps, independent of the order in which the map is walked. */
module MapSum {
  ghost function Sum<K(!new)>(m: map<K, nat>): nat
    decreases |m|
  {
    if m == map[] then 0 else
      var k :| k in m;
      Smaller(m, k);
      m[k] + Sum(m - {k})
  }

  lemma {:induction false} Smaller<K(!new)>(m: map<K, nat>, k: K)
    requires k in m
    ensures |m - {k}| < |m|
  {
    assert m.Keys == (m - {k}).Keys + {k};
    assert |m.Keys| == |(m - {k}).Keys| + 1;
  }

  lemma {:induction false} SumNone<K(!new)>(m: map<K, nat>)
    requires m == map[]
    ensures Sum(m) == 0
  {
  }

  /** Any key may be taken out first. */
  lemma {:induction false} SumPick<K(!new)>(m: map<K, nat>, k: K)
    requires k in m
    ensures Sum(m) == m[k] + Sum(m - {k})
    decreases |m|
  {
    var j :| j in m && Sum(m) == m[j] + Sum(m - {j});
    if j != k {
      Smaller(m, j);
      Smaller(m, k);
      SumPick(m - {j}, k);
      SumPick(m - {k}, j);
      assert (m - {j}) - {k} == (m - {k}) - {j};
    }
  }

  lemma {:induction false} SumPut<K(!new)>(m: map<K, nat>, k: K, v: nat)
    ensures Sum(m[k := v]) == v + Sum(m - {k})
  {
    SumPick(m[k := v], k);
    assert m[k := v] - {k} == m - {k};
  }

  lemma {:induction false} SumSame<K(!new)>(m: map<K, nat>, k: K)
    requires k !in m
    ensures Sum(m - {k}) == Sum(m)
  {
    assert m - {k} == m;
  }

  /** `f` takes the keys of `a` one to one to the keys of `b`, with the same values. */
  ghost predicate Renames<A(!new), B(!new)>(a: map<A, nat>, b: map<B, nat>, f: map<A, B>) {
    && f.Keys == a.Keys && (forall x :: x in a ==> f[x] in b && b[f[x]] == a[x])
    && (forall x, y :: x in a && y in a && x != y ==> f[x] != f[y])
    && (forall k :: k in b ==> k in f.Values)
  }

  lemma {:induction false} RenamesLess<A(!new), B(!new)>(a: map<A, nat>, b: map<B, nat>, f: map<A, B>, x: A)
    requires Renames(a, b, f) && x in a
    ensures x in f && f[x] in b && b[f[x]] == a[x] && Renames(a - {x}, b - {f[x]}, f - {x})
  {
    forall k | k in b - {f[x]}
      ensures k in (f - {x}).Values
    {
      var y :| y in f && f[y] == k;
      assert y in f - {x} && (f - {x})[y] == k;
    }
  }

  lemma {:induction false} RenamesNone<A(!new), B(!new)>(a: map<A, nat>, b: map<B, nat>, f: map<A, B>)
    requires Renames(a, b, f) && a == map[]
    ensures b == map[]
  {
    assert f.Values == {};
  }

  /** Renaming the keys one to one does not change the sum. */
  lemma {:induction false} SumRenamed<A(!new), B(!new)>(a: map<A, nat>, b: map<B, nat>, f: map<A, B>)
    requires Renames(a, b, f)
    ensures Sum(a) == Sum(b)
    decreases |a|
  {
    hide Renames, Sum;
    if a == map[] {
      RenamesNone(a, b, f);
      SumNone(a);
      SumNone(b);
    } else {
      var x :| x in a;
      RenamesLess(a, b, f, x);
      Smaller(a, x);
      SumRenamed(a - {x}, b - {f[x]}, f - {x});
      SumPick(a, x);
      SumPick(b, f[x]);
    }
  }
}
