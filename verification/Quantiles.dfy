/**
 Nearest-rank quantiles as `resolve` computes them from sorted samples, over exact
 rational quantiles `num / den` between 0 and 1.
 */
module Quantiles {

  datatype Ratio = Ratio(num: nat, den: nat)

  predicate IsQuantile(p: Ratio) {
    0 < p.den && p.num <= p.den
  }

  function CeilDiv(a: nat, b: nat): nat
    requires b > 0
  {
    (a + b - 1) / b
  }

  /** `Math.ceil(n * p) - 1`, or 0 for `p === 0`. */
  function QuantileIndex(n: nat, p: Ratio): int
    requires IsQuantile(p)
  {
    if p.num == 0 then 0 else CeilDiv(n * p.num, p.den) - 1
  }

  // ---------- sorting ----------

  predicate IsSorted(s: seq<int>) {
    forall i, j | 0 <= i < j < |s| :: s[i] <= s[j]
  }

  function Insert(s: seq<int>, x: int): (r: seq<int>)
    ensures |r| == |s| + 1
  {
    if s == [] || x <= s[0] then [x] + s else [s[0]] + Insert(s[1..], x)
  }

  /** The samples in ascending order. */
  function Sorted(s: seq<int>): (r: seq<int>)
    ensures |r| == |s|
  {
    if s == [] then [] else Insert(Sorted(s[1..]), s[0])
  }

  lemma {:induction false} InsertPermutes(s: seq<int>, x: int)
    ensures multiset(Insert(s, x)) == multiset(s) + multiset{x}
  {
    if s != [] && x > s[0] {
      InsertPermutes(s[1..], x);
      assert s == [s[0]] + s[1..];
    }
  }

  /** What is inserted behind `low` is not below it. */
  lemma {:induction false} InsertAbove(s: seq<int>, x: int, low: int)
    requires low <= x && forall y | y in s :: low <= y
    ensures forall y | y in Insert(s, x) :: low <= y
  {
    if s != [] && x > s[0] {
      assert forall y | y in s[1..] :: y in s;
      InsertAbove(s[1..], x, low);
      assert s[0] in s;
    }
  }

  lemma ConsSorts(low: int, s: seq<int>)
    requires IsSorted(s) && forall y | y in s :: low <= y
    ensures IsSorted([low] + s)
  {
    forall i, j | 0 <= i < j < |[low] + s|
      ensures ([low] + s)[i] <= ([low] + s)[j]
    {
      assert s[j - 1] in s;
    }
  }

  lemma TailSorted(s: seq<int>)
    requires IsSorted(s) && s != []
    ensures IsSorted(s[1..]) && forall y | y in s :: s[0] <= y
  {
  }

  lemma {:induction false} InsertSorts(s: seq<int>, x: int)
    requires IsSorted(s)
    ensures IsSorted(Insert(s, x))
  {
    hide IsSorted;
    if s == [] || x <= s[0] {
      if s != [] {
        TailSorted(s);
      }
      ConsSorts(x, s);
    } else {
      TailSorted(s);
      InsertSorts(s[1..], x);
      assert forall y | y in s[1..] :: y in s;
      InsertAbove(s[1..], x, s[0]);
      ConsSorts(s[0], Insert(s[1..], x));
    }
  }

  lemma {:induction false} SortedIsSorted(s: seq<int>)
    ensures multiset(Sorted(s)) == multiset(s) && IsSorted(Sorted(s))
  {
    hide Insert, IsSorted;
    if s == [] {
      NothingIsSorted();
    } else {
      SortedIsSorted(s[1..]);
      InsertPermutes(Sorted(s[1..]), s[0]);
      InsertSorts(Sorted(s[1..]), s[0]);
      assert s == [s[0]] + s[1..];
    }
  }

  lemma NothingIsSorted()
    ensures IsSorted([])
  {
  }

  lemma {:induction false} InsertCommutes(s: seq<int>, x: int, y: int)
    ensures Insert(Insert(s, x), y) == Insert(Insert(s, y), x)
  {
    if s != [] && x > s[0] && y > s[0] {
      InsertCommutes(s[1..], x, y);
    }
  }

  lemma {:induction false} SortedAppend(s: seq<int>, x: int)
    ensures Sorted(s + [x]) == Insert(Sorted(s), x)
  {
    if s == [] {
      assert s + [x] == [x] && [x][1..] == [];
    } else {
      assert (s + [x])[1..] == s[1..] + [x];
      SortedAppend(s[1..], x);
      InsertCommutes(Sorted(s[1..]), x, s[0]);
    }
  }

  /** Sorting leaves samples in order as they are. */
  lemma {:induction false} SortedOfSorted(s: seq<int>)
    requires IsSorted(s)
    ensures Sorted(s) == s
  {
    if s != [] {
      SortedOfSorted(s[1..]);
    }
  }

  // ---------- counting ----------

  function AtMost(s: seq<int>, v: int): nat {
    if s == [] then 0 else AtMost(s[..|s| - 1], v) + if s[|s| - 1] <= v then 1 else 0
  }

  function AtLeast(s: seq<int>, v: int): nat {
    if s == [] then 0 else AtLeast(s[..|s| - 1], v) + if s[|s| - 1] >= v then 1 else 0
  }

  lemma {:induction false} CountsConcat(a: seq<int>, b: seq<int>, v: int)
    ensures AtMost(a + b, v) == AtMost(a, v) + AtMost(b, v)
    ensures AtLeast(a + b, v) == AtLeast(a, v) + AtLeast(b, v)
    decreases |b|
  {
    if b == [] {
      assert a + b == a;
    } else {
      assert (a + b)[..|a + b| - 1] == a + b[..|b| - 1];
      CountsConcat(a, b[..|b| - 1], v);
    }
  }

  /** Taking the last sample of `a` out of both lists keeps them permutations. */
  lemma FindLast(a: seq<int>, b: seq<int>) returns (j: nat)
    requires multiset(a) == multiset(b) && a != []
    ensures j < |b| && b[j] == a[|a| - 1]
    ensures multiset(a[..|a| - 1]) == multiset(b[..j] + b[j + 1..])
  {
    var n, x := |a| - 1, a[|a| - 1];
    assert a == a[..n] + [x];
    assert x in a;
    assert x in multiset(a);
    assert x in multiset(b);
    assert x in b;
    j :| 0 <= j < |b| && b[j] == x;
    assert b == b[..j] + [x] + b[j + 1..];
    assert multiset(b) == multiset(b[..j] + b[j + 1..]) + multiset{x};
    assert multiset(a[..n]) == multiset(a) - multiset{x};
  }

  /** Counts depend on the samples, not on their order. */
  lemma {:induction false} CountsPermute(a: seq<int>, b: seq<int>, v: int)
    requires multiset(a) == multiset(b)
    ensures AtMost(a, v) == AtMost(b, v) && AtLeast(a, v) == AtLeast(b, v)
    decreases |a|
  {
    if a == [] {
      assert |multiset(b)| == 0;
    } else {
      var n, x := |a| - 1, a[|a| - 1];
      var j := FindLast(a, b);
      CountsPermute(a[..n], b[..j] + b[j + 1..], v);
      hide AtMost, AtLeast;
      assert a == a[..n] + [x] && b == b[..j] + [x] + b[j + 1..];
      CountsConcat(a[..n], [x], v);
      CountsConcat(b[..j], b[j + 1..], v);
      CountsConcat(b[..j], [x], v);
      CountsConcat(b[..j] + [x], b[j + 1..], v);
    }
  }

  lemma {:induction false} AllAtMost(s: seq<int>, v: int)
    requires forall i | 0 <= i < |s| :: s[i] <= v
    ensures AtMost(s, v) == |s|
  {
    if s != [] {
      AllAtMost(s[..|s| - 1], v);
    }
  }

  lemma {:induction false} AllAtLeast(s: seq<int>, v: int)
    requires forall i | 0 <= i < |s| :: s[i] >= v
    ensures AtLeast(s, v) == |s|
  {
    if s != [] {
      AllAtLeast(s[..|s| - 1], v);
    }
  }

  // ---------- ranks ----------

  lemma Scale(a: int, b: int, k: nat)
    requires a <= b
    ensures a * k <= b * k
  {
  }

  lemma CeilDivBounds(a: nat, b: nat)
    requires b > 0
    ensures CeilDiv(a, b) >= 0 && a <= CeilDiv(a, b) * b < a + b
  {
  }

  /** `CeilDiv(a, b)` is the least multiple count of `b` that covers `a`. */
  lemma CeilDivIsLeast(a: nat, b: nat, k: nat)
    requires b > 0
    ensures CeilDiv(a, b) <= k <==> a <= k * b
  {
    CeilDivBounds(a, b);
    var q := CeilDiv(a, b);
    hide CeilDiv;
    if q <= k {
      Scale(q, k, b);
    } else {
      Scale(k + 1, q, b);
      assert (k + 1) * b == k * b + b;
    }
  }

  lemma IndexInRange(n: nat, p: Ratio)
    requires n > 0 && IsQuantile(p)
    ensures 0 <= QuantileIndex(n, p) < n
  {
    hide CeilDiv;
    if p.num > 0 {
      var m := n * p.num;
      CeilDivIsLeast(m, p.den, n);
      CeilDivIsLeast(m, p.den, 0);
      assert p.num * n <= p.den * n by { Scale(p.num, p.den, n); }
      assert p.num * 1 <= p.num * n by { Scale(1, n, p.num); }
    }
  }

  /** The value reported for quantile `p` of the samples. */
  function Quantile(samples: seq<int>, p: Ratio): int
    requires samples != [] && IsQuantile(p)
  {
    IndexInRange(|samples|, p);
    Sorted(samples)[QuantileIndex(|samples|, p)]
  }

  lemma RanksOfSorted(s: seq<int>, index: nat)
    requires IsSorted(s) && index < |s|
    ensures AtMost(s, s[index]) >= index + 1 && AtLeast(s, s[index]) >= |s| - index
  {
    hide AtMost, AtLeast;
    var v := s[index];
    var low, high := s[..index + 1], s[index..];
    AllAtMost(low, v);
    AllAtLeast(high, v);
    assert s == low + s[index + 1..] && s == s[..index] + high;
    CountsConcat(low, s[index + 1..], v);
    CountsConcat(s[..index], high, v);
  }

  /**
   Nearest rank: the reported value is one of the samples, at least `ceil(n * p)` samples
   are at most it, and at least `n - ceil(n * p) + 1` are at least it.
   */
  lemma QuantileIsNearestRank(samples: seq<int>, p: Ratio)
    requires samples != [] && IsQuantile(p) && p.num > 0
    ensures var n, v := |samples|, Quantile(samples, p);
      && v in samples
      && AtMost(samples, v) >= CeilDiv(n * p.num, p.den)
      && AtLeast(samples, v) >= n - CeilDiv(n * p.num, p.den) + 1
  {
    hide CeilDiv, Sorted, AtMost, AtLeast, IsSorted;
    var s := Sorted(samples);
    SortedIsSorted(samples);
    IndexInRange(|samples|, p);
    var index := QuantileIndex(|samples|, p);
    var v := s[index];
    assert v in multiset(s) && v in multiset(samples);
    RanksOfSorted(s, index);
    CountsPermute(samples, s, v);
  }

  /** `p === 0` reports the minimum. */
  lemma ZeroIsMinimum(samples: seq<int>, den: nat)
    requires samples != [] && den > 0
    ensures Quantile(samples, Ratio(0, den)) in samples
    ensures forall x | x in samples :: Quantile(samples, Ratio(0, den)) <= x
  {
    hide Sorted;
    var s := Sorted(samples);
    SortedIsSorted(samples);
    assert s[0] in multiset(s) && s[0] in multiset(samples);
    forall x | x in samples
      ensures s[0] <= x
    {
      assert x in multiset(samples) && x in multiset(s);
      var i :| 0 <= i < |s| && s[i] == x;
    }
  }

  /** A larger quantile never reports a smaller value. */
  lemma QuantilesAscend(samples: seq<int>, p: Ratio, q: Ratio)
    requires samples != [] && IsQuantile(p) && IsQuantile(q)
    requires p.num * q.den <= q.num * p.den
    ensures Quantile(samples, p) <= Quantile(samples, q)
  {
    hide CeilDiv, Sorted;
    SortedIsSorted(samples);
    IndexInRange(|samples|, p);
    IndexInRange(|samples|, q);
    if p.num > 0 {
      CeilAscends(|samples|, p, q);
    }
  }

  lemma CeilAscends(n: nat, p: Ratio, q: Ratio)
    requires IsQuantile(p) && IsQuantile(q) && p.num > 0
    requires p.num * q.den <= q.num * p.den
    ensures q.num > 0 && CeilDiv(n * p.num, p.den) <= CeilDiv(n * q.num, q.den)
  {
    hide CeilDiv;
    Scale(1, q.den, p.num);
    assert q.num > 0 by {
      assert p.num * q.den > 0;
    }
    var k := CeilDiv(n * q.num, q.den);
    CeilDivBounds(n * q.num, q.den);
    Cover(n, p.num, p.den, q.num, q.den, k);
    CeilDivIsLeast(n * p.num, p.den, k);
  }

  /** A multiple of one fraction covered by `k` also covers every smaller fraction. */
  lemma Cover(n: nat, a: nat, b: nat, c: nat, d: nat, k: nat)
    requires b > 0 && d > 0 && a * d <= c * b && n * c <= k * d
    ensures n * a <= k * b
  {
    assert (a * d) * n <= (c * b) * n by { Scale(a * d, c * b, n); }
    assert (n * c) * b <= (k * d) * b by { Scale(n * c, k * d, b); }
    assert (n * a) * d == (a * d) * n by { Swap(n, a, d); }
    assert (n * c) * b == (c * b) * n by { Swap(n, c, b); }
    assert (k * b) * d == (k * d) * b by { Swap(b, k, d); }
    Divide(n * a, k * b, d);
  }

  lemma Swap(n: nat, a: nat, d: nat)
    ensures (n * a) * d == (a * d) * n && (a * n) * d == (a * d) * n
  {
  }

  lemma Divide(x: int, y: int, d: nat)
    requires d > 0 && x * d <= y * d
    ensures x <= y
  {
    if y < x {
      assert (y + 1) * d == y * d + d;
      Scale(y + 1, x, d);
    }
  }
}
