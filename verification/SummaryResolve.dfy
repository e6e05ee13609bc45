/**
 What `resolve` shows for the observations of one summary: the nearest-rank value of
 every configured quantile, their number and their sum.
 */
module SummaryResolve {
  import opened Wrappers
  import opened Quantiles

  // ---------- samples ----------

  /** The values of a map, in ascending order. */
  ghost function Samples(m: map<nat, int>): seq<int> {
    if m == map[] then []
    else
      var k :| k in m;
      Insert(Samples(m - {k}), m[k])
  }

  lemma {:induction false} SamplesWithout(m: map<nat, int>, k: nat)
    requires k in m
    ensures Samples(m) == Insert(Samples(m - {k}), m[k])
    decreases |m|
  {
    hide Insert;
    var j :| j in m && Samples(m) == Insert(Samples(m - {j}), m[j]);
    if j != k {
      SamplesWithout(m - {j}, k);
      SamplesWithout(m - {k}, j);
      assert m - {j} - {k} == m - {k} - {j};
      InsertCommutes(Samples(m - {j} - {k}), m[j], m[k]);
    }
  }

  lemma {:induction false} SamplesAscend(m: map<nat, int>)
    ensures IsSorted(Samples(m)) && (Samples(m) == [] <==> m == map[]) && |Samples(m)| == |m|
    decreases |m|
  {
    if m != map[] {
      var k :| k in m && Samples(m) == Insert(Samples(m - {k}), m[k]);
      SamplesAscend(m - {k});
      InsertSorts(Samples(m - {k}), m[k]);
    }
  }

  function SumOf(s: seq<int>): int {
    if s == [] then 0 else SumOf(s[..|s| - 1]) + s[|s| - 1]
  }

  datatype Resolved = Resolved(percentiles: seq<(Ratio, int)>, total: nat, sum: int)

  /** What a summary shows for its samples: one nearest-rank value per configured quantile. */
  function Shown(samples: seq<int>, quantiles: seq<Ratio>): Resolved
    requires forall q | q in quantiles :: IsQuantile(q)
  {
    var percentiles :=
      if samples == [] then []
      else seq(|quantiles|, i requires 0 <= i < |quantiles| => (quantiles[i], Quantile(samples, quantiles[i])));
    Resolved(percentiles, |samples|, SumOf(samples))
  }

  // ---------- what a summary shows, in terms of its observations ----------

  function SumAlong(m: map<nat, int>, keys: seq<nat>): int
    requires forall k | k in keys :: k in m
  {
    if keys == [] then 0 else SumAlong(m, keys[..|keys| - 1]) + m[keys[|keys| - 1]]
  }

  ghost function NotAbove(m: map<nat, int>, v: int): set<nat> {
    set k | k in m && m[k] <= v
  }

  ghost function Below(m: map<nat, int>, v: int): set<nat> {
    set k | k in m && m[k] < v
  }

  /**
   `v` is the nearest-rank value for `p`: an observed one, with fewer than the share `p`
   of all observations below it and at least that share not above it; for 0 the least one.
   */
  ghost predicate IsNearestRank(m: map<nat, int>, p: Ratio, v: int) {
    && (exists k :: k in m && m[k] == v)
    && if p.num == 0 then forall k | k in m :: v <= m[k]
       else |Below(m, v)| * p.den < |m| * p.num <= |NotAbove(m, v)| * p.den
  }

  /**
   One entry per configured quantile, in order, with the nearest-rank value for that very
   quantile; the number of observations; and their sum, in whatever order they are added.
   */
  ghost predicate Summarizes(m: map<nat, int>, quantiles: seq<Ratio>, r: Resolved) {
    && |r.percentiles| == (if m == map[] then 0 else |quantiles|)
    && (forall i | 0 <= i < |r.percentiles| ::
          r.percentiles[i].0 == quantiles[i] && IsNearestRank(m, quantiles[i], r.percentiles[i].1))
    && r.total == |m|
    && (forall keys | Enumerates(keys, m.Keys) :: r.sum == SumAlong(m, keys))
  }

  lemma CountsInsert(s: seq<int>, x: int, v: int)
    ensures AtMost(Insert(s, x), v) == AtMost(s, v) + if x <= v then 1 else 0
    ensures AtLeast(Insert(s, x), v) == AtLeast(s, v) + if x >= v then 1 else 0
  {
    InsertPermutes(s, x);
    assert multiset(s + [x]) == multiset(s) + multiset{x};
    CountsPermute(Insert(s, x), s + [x], v);
    CountsConcat(s, [x], v);
    assert [x][..0] == [];
  }

  lemma NotAboveLess(m: map<nat, int>, k: nat, v: int)
    requires k in m
    ensures |NotAbove(m, v)| == |NotAbove(m - {k}, v)| + if m[k] <= v then 1 else 0
  {
    assert NotAbove(m, v) == NotAbove(m - {k}, v) + if m[k] <= v then {k} else {};
  }

  lemma BelowLess(m: map<nat, int>, k: nat, v: int)
    requires k in m
    ensures |Below(m, v)| == |Below(m - {k}, v)| + if m[k] < v then 1 else 0
  {
    assert Below(m, v) == Below(m - {k}, v) + if m[k] < v then {k} else {};
  }

  lemma OneLess(m: map<nat, int>, k: nat)
    requires k in m
    ensures |m| == |m - {k}| + 1
  {
    assert m.Keys == (m - {k}).Keys + {k};
  }

  /** Counting samples is counting observations. */
  lemma {:induction false} CountsOfSamples(m: map<nat, int>, v: int)
    ensures AtMost(Samples(m), v) == |NotAbove(m, v)|
    ensures AtLeast(Samples(m), v) == |m| - |Below(m, v)|
    decreases |m|
  {
    if m == map[] {
      assert NotAbove(m, v) == {} && Below(m, v) == {};
    } else {
      hide AtMost, AtLeast, Insert, Samples, NotAbove, Below;
      var k := SomeElement(m.Keys);
      SamplesWithout(m, k);
      NotAboveLess(m, k, v);
      BelowLess(m, k, v);
      OneLess(m, k);
      CountsOfSamples(m - {k}, v);
      CountsInsert(Samples(m - {k}), m[k], v);
    }
  }

  lemma {:induction false} SamplesAreObserved(m: map<nat, int>, v: int)
    ensures v in Samples(m) <==> exists k :: k in m && m[k] == v
    decreases |m|
  {
    if m != map[] {
      hide Insert, Samples;
      var k := SomeElement(m.Keys);
      var rest := m - {k};
      SamplesWithout(m, k);
      SamplesAreObserved(rest, v);
      InsertHolds(Samples(rest), m[k], v);
      if j :| j in rest && rest[j] == v {
        assert j in m && m[j] == v;
      }
      if j :| j in m && m[j] == v && j != k {
        assert j in rest && rest[j] == v;
      }
    }
  }

  lemma InsertHolds(s: seq<int>, x: int, v: int)
    ensures v in Insert(s, x) <==> v == x || v in s
  {
    InsertPermutes(s, x);
    assert v in Insert(s, x) <==> v in multiset(Insert(s, x));
    assert v in s <==> v in multiset(s);
  }

  lemma {:induction false} SumInsert(s: seq<int>, x: int)
    ensures SumOf(Insert(s, x)) == SumOf(s) + x
  {
    if s == [] || x <= s[0] {
      SumConcat([x], s);
      assert [x][..0] == [];
    } else {
      SumInsert(s[1..], x);
      SumConcat([s[0]], Insert(s[1..], x));
      SumConcat([s[0]], s[1..]);
      assert [s[0]] + s[1..] == s;
    }
  }

  lemma {:induction false} SumConcat(a: seq<int>, b: seq<int>)
    ensures SumOf(a + b) == SumOf(a) + SumOf(b)
    decreases |b|
  {
    if b == [] {
      assert a + b == a;
    } else {
      assert (a + b)[..|a + b| - 1] == a + b[..|b| - 1];
      SumConcat(a, b[..|b| - 1]);
    }
  }

  /** The sum of the samples is the sum of the observations in any order. */
  lemma {:induction false} SumInAnyOrder(m: map<nat, int>, keys: seq<nat>)
    requires Enumerates(keys, m.Keys)
    ensures SumOf(Samples(m)) == SumAlong(m, keys)
    decreases |keys|
  {
    if keys == [] {
      assert m == map[];
    } else {
      var n := |keys| - 1;
      var k, rest := keys[n], m - {keys[n]};
      EnumeratesLess(keys, m.Keys);
      assert rest.Keys == m.Keys - {k};
      SumInAnyOrder(rest, keys[..n]);
      SumAlongLess(m, k, keys[..n]);
      SamplesWithout(m, k);
      SumInsert(Samples(rest), m[k]);
    }
  }

  lemma {:induction false} SumAlongLess(m: map<nat, int>, k: nat, keys: seq<nat>)
    requires forall j | j in keys :: j in m && j != k
    ensures SumAlong(m - {k}, keys) == SumAlong(m, keys)
    decreases |keys|
  {
    if keys != [] {
      assert keys[|keys| - 1] in keys;
      SumAlongLess(m, k, keys[..|keys| - 1]);
    }
  }

  lemma LeastOfObservations(m: map<nat, int>, den: nat)
    requires den > 0 && Samples(m) != []
    ensures forall k | k in m :: Quantile(Samples(m), Ratio(0, den)) <= m[k]
  {
    ZeroIsMinimum(Samples(m), den);
    hide Samples, Quantile;
    forall k | k in m
      ensures Quantile(Samples(m), Ratio(0, den)) <= m[k]
    {
      SamplesAreObserved(m, m[k]);
    }
  }

  lemma RankOfObservations(m: map<nat, int>, p: Ratio)
    requires IsQuantile(p) && p.num > 0 && Samples(m) != []
    ensures var v := Quantile(Samples(m), p);
      |Below(m, v)| * p.den < |m| * p.num <= |NotAbove(m, v)| * p.den
  {
    QuantileIsNearestRank(Samples(m), p);
    SamplesAscend(m);
    hide Samples, Quantile, AtMost, AtLeast, CeilDiv, Below, NotAbove, IsSorted;
    var v, total := Quantile(Samples(m), p), |m| * p.num;
    CountsOfSamples(m, v);
    Share(total, p.den, |Below(m, v)|, |NotAbove(m, v)|);
  }

  lemma QuantileOfObservations(m: map<nat, int>, p: Ratio)
    requires IsQuantile(p) && Samples(m) != []
    ensures IsNearestRank(m, p, Quantile(Samples(m), p))
  {
    SamplesAreObserved(m, Quantile(Samples(m), p));
    QuantileIsASample(Samples(m), p);
    hide Samples, Quantile, Below, NotAbove;
    if p.num == 0 {
      assert p == Ratio(0, p.den);
      LeastOfObservations(m, p.den);
    } else {
      RankOfObservations(m, p);
    }
  }

  lemma QuantileIsASample(samples: seq<int>, p: Ratio)
    requires samples != [] && IsQuantile(p)
    ensures Quantile(samples, p) in samples
  {
    if p.num == 0 {
      assert p == Ratio(0, p.den);
      ZeroIsMinimum(samples, p.den);
    } else {
      QuantileIsNearestRank(samples, p);
    }
  }

  lemma Share(total: nat, den: nat, less: nat, most: nat)
    requires den > 0 && less < CeilDiv(total, den) <= most
    ensures less * den < total <= most * den
  {
    hide CeilDiv;
    CeilDivIsLeast(total, den, most);
    CeilDivIsLeast(total, den, less);
  }

  /** What a summary shows is a summary of its observations. */
  lemma ShownSummarizes(m: map<nat, int>, quantiles: seq<Ratio>)
    requires forall q | q in quantiles :: IsQuantile(q)
    ensures Summarizes(m, quantiles, Shown(Samples(m), quantiles))
  {
    SamplesAscend(m);
    var r := Shown(Samples(m), quantiles);
    hide Samples, Quantile, SumOf, IsNearestRank, Enumerates;
    forall i | 0 <= i < |r.percentiles|
      ensures r.percentiles[i].0 == quantiles[i] && IsNearestRank(m, quantiles[i], r.percentiles[i].1)
    {
      QuantileOfObservations(m, quantiles[i]);
    }
    forall keys | Enumerates(keys, m.Keys)
      ensures r.sum == SumAlong(m, keys)
    {
      SumInAnyOrder(m, keys);
    }
  }

  // ---------- resolving ----------

  /** The values of a map, in the order of iteration. */
  method Collect(m: map<nat, int>) returns (values: seq<int>)
    ensures Sorted(values) == Samples(m)
  {
    values := [];
    var keys := m.Keys;
    while keys != {}
      invariant keys <= m.Keys
      invariant Sorted(values) == Samples(m - keys)
    {
      ghost var some := SomeElement(keys);
      var k :| k in keys;
      SamplesWithout(m - (keys - {k}), k);
      assert m - (keys - {k}) - {k} == m - keys;
      SortedAppend(values, m[k]);
      values := values + [m[k]];
      keys := keys - {k};
    }
    assert m - keys == m;
  }

  /** The body of `resolve` for the values of one summary. */
  method ResolveValues(m: map<nat, int>, quantiles: seq<Ratio>) returns (r: Resolved)
    requires forall q | q in quantiles :: IsQuantile(q)
    ensures r == Shown(Samples(m), quantiles)
    ensures Summarizes(m, quantiles, r)
  {
    ShownSummarizes(m, quantiles);
    hide Sorted, QuantileIndex, Summarizes;
    var unsorted := Collect(m);
    var values := Sorted(unsorted);
    SamplesAscend(m);
    SortedOfSorted(values);
    var percentiles: seq<(Ratio, int)> := [];
    if |values| != 0 {
      for i := 0 to |quantiles|
        invariant |percentiles| == i
        invariant forall j | 0 <= j < i :: percentiles[j] == (quantiles[j], Quantile(values, quantiles[j]))
      {
        var p := quantiles[i];
        IndexInRange(|values|, p);
        percentiles := percentiles + [(p, values[QuantileIndex(|values|, p)])];
      }
    }
    var sum := SumUp(values);
    r := Resolved(percentiles, |values|, sum);
  }

  method SumUp(values: seq<int>) returns (sum: int)
    ensures sum == SumOf(values)
  {
    sum := 0;
    for i := 0 to |values|
      invariant sum == SumOf(values[..i])
    {
      assert values[..i + 1][..i] == values[..i];
      sum := sum + values[i];
    }
    assert values[..|values|] == values;
  }
}
