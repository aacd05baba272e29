/** Sums of integers over finite maps and sequences. */
module Sums {
  ghost function Sum<K>(m: map<K, int>): int
    decreases |m|
  {
    if m == map[] then 0
    else
      var k :| k in m;
      assert |m - {k}| < |m| by { assert (m - {k}).Keys == m.Keys - {k}; }
      m[k] + Sum(m - {k})
  }

  /** The value at one key counts once, whichever key the definition happens to pick. */
  lemma {:induction false} SumRemove<K>(m: map<K, int>, k: K)
    requires k in m
    ensures Sum(m) == m[k] + Sum(m - {k})
    decreases |m|
  {
    var j :| j in m && Sum(m) == m[j] + Sum(m - {j});
    if j != k {
      var rest := m - {j};
      assert rest.Keys == m.Keys - {j};
      SumRemove(rest, k);
      assert rest - {k} == m - {k} - {j};
      assert (m - {k}).Keys == m.Keys - {k};
      SumRemove(m - {k}, j);
    }
  }

  function At<K>(m: map<K, int>, k: K): int {
    if k in m then m[k] else 0
  }

  lemma SumUpdate<K>(m: map<K, int>, k: K, v: int)
    ensures Sum(m[k := v]) == Sum(m) - At(m, k) + v
  {
    SumRemove(m[k := v], k);
    if k in m {
      SumRemove(m, k);
      assert m[k := v] - {k} == m - {k};
    } else {
      assert m[k := v] - {k} == m;
    }
  }

  lemma {:induction false} SumAdd<K>(a: map<K, int>, b: map<K, int>, c: map<K, int>)
    requires a.Keys == b.Keys == c.Keys
    requires forall k | k in a :: a[k] == b[k] + c[k]
    ensures Sum(a) == Sum(b) + Sum(c)
    decreases |a|
  {
    if a == map[] {
      assert b == map[] && c == map[];
    } else {
      var k :| k in a;
      SumRemove(a, k);
      SumRemove(b, k);
      SumRemove(c, k);
      assert (a - {k}).Keys == a.Keys - {k};
      SumAdd(a - {k}, b - {k}, c - {k});
    }
  }

  function Times(x: int, c: int): int {
    x * c
  }

  lemma TimesAdd(x: int, y: int, c: int)
    ensures Times(x + y, c) == Times(x, c) + Times(y, c)
    ensures Times(0, c) == 0
  {
  }

  function Scale<K>(m: map<K, int>, c: int): map<K, int> {
    map k | k in m :: Times(m[k], c)
  }

  lemma {:induction false} SumScale<K>(m: map<K, int>, c: int)
    ensures Sum(Scale(m, c)) == Times(Sum(m), c)
    decreases |m|
  {
    hide Times, Sum;
    TimesAdd(0, 0, c);
    SumEmpty<K>();
    if m == map[] {
      assert Scale(m, c) == map[];
    } else {
      var k :| k in m;
      SumRemove(m, k);
      assert k in Scale(m, c);
      SumRemove(Scale(m, c), k);
      assert Scale(m, c) - {k} == Scale(m - {k}, c);
      assert (m - {k}).Keys == m.Keys - {k};
      SumScale(m - {k}, c);
      TimesAdd(m[k], Sum(m - {k}), c);
    }
  }

  lemma {:induction false} SumMonotone<K>(a: map<K, int>, b: map<K, int>)
    requires a.Keys == b.Keys
    requires forall k | k in a :: a[k] <= b[k]
    ensures Sum(a) <= Sum(b)
    decreases |a|
  {
    if a == map[] {
      assert b == map[];
    } else {
      var k :| k in a;
      SumRemove(a, k);
      SumRemove(b, k);
      assert (a - {k}).Keys == a.Keys - {k};
      SumMonotone(a - {k}, b - {k});
    }
  }

  lemma {:induction false} SumNonNegative<K>(m: map<K, int>)
    requires forall k | k in m :: 0 <= m[k]
    ensures 0 <= Sum(m)
    decreases |m|
  {
    if m != map[] {
      var k :| k in m;
      SumRemove(m, k);
      assert (m - {k}).Keys == m.Keys - {k};
      SumNonNegative(m - {k});
    }
  }

  lemma AtMostSum<K>(m: map<K, int>, k: K)
    requires forall k | k in m :: 0 <= m[k]
    ensures 0 <= At(m, k) <= Sum(m)
  {
    if k in m {
      SumRemove(m, k);
      SumNonNegative(m - {k});
    } else {
      SumNonNegative(m);
    }
  }

  lemma SumEmpty<K>()
    ensures Sum<K>(map[]) == 0
  {
  }

  function SeqSum(s: seq<int>): int {
    if s == [] then 0 else s[0] + SeqSum(s[1..])
  }

  lemma {:induction false} SeqSumAppend(s: seq<int>, t: seq<int>)
    ensures SeqSum(s + t) == SeqSum(s) + SeqSum(t)
  {
    if s == [] {
      assert s + t == t;
    } else {
      assert (s + t)[1..] == s[1..] + t;
      SeqSumAppend(s[1..], t);
    }
  }

  predicate NonNegative(s: seq<int>) {
    forall i | 0 <= i < |s| :: 0 <= s[i]
  }

  lemma {:induction false} SeqSumNonNegative(s: seq<int>)
    requires NonNegative(s)
    ensures 0 <= SeqSum(s)
    ensures SeqSum(s) == 0 <==> forall i | 0 <= i < |s| :: s[i] == 0
  {
    if s != [] {
      SeqSumNonNegative(s[1..]);
      assert forall i | 0 < i < |s| :: s[i] == s[1..][i - 1];
    }
  }
}
