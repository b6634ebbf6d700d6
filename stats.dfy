/** Exact versions, over `real`, of the numpy statistics the reducers call:
    `np.mean`, `np.median` and `np.percentile` with its default linear
    interpolation (definition 7 of Hyndman and Fan: position p(n-1)/100 in
    the sorted data). */
module Stats {

  function Sum(s: seq<real>): real
  {
    if s == [] then 0.0 else Sum(s[..|s| - 1]) + s[|s| - 1]
  }

  lemma {:induction false} SumAppend(a: seq<real>, b: seq<real>)
    ensures Sum(a + b) == Sum(a) + Sum(b)
    decreases |b|
  {
    if b == [] {
      assert a + b == a;
    } else {
      SumAppend(a, b[..|b| - 1]);
      assert (a + b)[..|a + b| - 1] == a + b[..|b| - 1];
    }
  }

  /** The sum does not depend on the order of the values. */
  lemma {:induction false} SumPermutation(a: seq<real>, b: seq<real>)
    requires multiset(a) == multiset(b)
    ensures Sum(a) == Sum(b)
    decreases |a|
  {
    if a != [] {
      var x := a[|a| - 1];
      assert x in multiset(b);
      var k :| 0 <= k < |b| && b[k] == x;
      var rest := b[..k] + b[k + 1..];
      assert b == b[..k] + [x] + b[k + 1..];
      assert a == a[..|a| - 1] + [x];
      assert multiset(a) == multiset(a[..|a| - 1]) + multiset{x};
      assert multiset(b) == multiset(b[..k]) + multiset{x} + multiset(b[k + 1..]);
      assert multiset(rest) == multiset(b[..k]) + multiset(b[k + 1..]);
      assert multiset(rest) == multiset(b) - multiset{x};
      assert multiset(a[..|a| - 1]) == multiset(a) - multiset{x};
      SumPermutation(a[..|a| - 1], rest);
      SumAppend(b[..k] + [x], b[k + 1..]);
      SumAppend(b[..k], [x]);
      SumAppend(b[..k], b[k + 1..]);
    }
  }

  /** Values all within `[lo, hi]` sum to within `[n lo, n hi]`. */
  lemma {:induction false} SumBounds(s: seq<real>, lo: real, hi: real)
    requires forall i :: 0 <= i < |s| ==> lo <= s[i] <= hi
    ensures |s| as real * lo <= Sum(s) <= |s| as real * hi
  {
    if s != [] {
      SumBounds(s[..|s| - 1], lo, hi);
    }
  }

  /** `np.mean`. */
  function Mean(s: seq<real>): real
    requires s != []
  {
    Sum(s) / |s| as real
  }

  /** The mean lies between the smallest and the largest value, and it does
      not depend on the order of the values. */
  lemma MeanBounds(s: seq<real>, lo: real, hi: real)
    requires s != []
    requires forall i :: 0 <= i < |s| ==> lo <= s[i] <= hi
    ensures lo <= Mean(s) <= hi
  {
    SumBounds(s, lo, hi);
    var n := |s| as real;
    assert Sum(s) / n >= lo by { assert Sum(s) >= n * lo; }
    assert Sum(s) / n <= hi by { assert Sum(s) <= n * hi; }
  }

  lemma MeanPermutation(a: seq<real>, b: seq<real>)
    requires a != [] && multiset(a) == multiset(b)
    ensures b != [] && Mean(a) == Mean(b)
  {
    SumPermutation(a, b);
    assert |a| == |multiset(a)| == |b|;
  }

  predicate Sorted(s: seq<real>)
  {
    forall i, j :: 0 <= i < j < |s| ==> s[i] <= s[j]
  }

  /** Inserts `x` into a sorted sequence before the first larger value. */
  function Insert(x: real, s: seq<real>): (r: seq<real>)
    requires Sorted(s)
    ensures Sorted(r) && multiset(r) == multiset(s) + multiset{x}
  {
    if s == [] then [x]
    else if x <= s[0] then InsertFront(x, s); [x] + s
    else
      var rest := Insert(x, s[1..]);
      assert s == [s[0]] + s[1..];
      InsertBehind(x, s[0], s[1..], rest);
      [s[0]] + rest
  }

  /** A value no larger than the first of a sorted sequence can go in front. */
  lemma InsertFront(x: real, s: seq<real>)
    requires Sorted(s) && s != [] && x <= s[0]
    ensures Sorted([x] + s)
  {
    forall i, j | 0 <= i < j < |[x] + s| ensures ([x] + s)[i] <= ([x] + s)[j] {
      assert ([x] + s)[j] == s[j - 1];
      if i > 0 {
        assert ([x] + s)[i] == s[i - 1];
      }
    }
  }

  /** A value no larger than `x` and than every value of the sorted
      sequence `t` can go in front of `x` inserted into `t`. */
  lemma InsertBehind(x: real, head: real, t: seq<real>, rest: seq<real>)
    requires head < x && Sorted([head] + t)
    requires Sorted(rest) && multiset(rest) == multiset(t) + multiset{x}
    ensures Sorted([head] + rest)
    ensures multiset([head] + rest) == multiset([head] + t) + multiset{x}
  {
    forall i | 0 <= i < |rest| ensures head <= rest[i] {
      assert rest[i] in multiset(t) + multiset{x};
      if rest[i] != x {
        assert rest[i] in t;
        var j :| 0 <= j < |t| && t[j] == rest[i];
        assert ([head] + t)[0] == head && ([head] + t)[j + 1] == t[j];
      }
    }
    forall i, j | 0 <= i < j < |[head] + rest| ensures ([head] + rest)[i] <= ([head] + rest)[j] {
      if i > 0 {
        assert ([head] + rest)[i] == rest[i - 1];
      }
      assert ([head] + rest)[j] == rest[j - 1];
    }
  }

  /** The values in ascending order (numpy sorts before taking a median or
      a percentile). */
  function Sort(s: seq<real>): (r: seq<real>)
    ensures Sorted(r) && multiset(r) == multiset(s) && |r| == |s|
  {
    if s == [] then []
    else
      assert s == [s[0]] + s[1..];
      Insert(s[0], Sort(s[1..]))
  }

  /** Two sorted orderings of the same values are the same sequence, so the
      sorted order of a list depends only on its values. */
  lemma {:induction false} SortedUnique(a: seq<real>, b: seq<real>)
    requires Sorted(a) && Sorted(b) && multiset(a) == multiset(b)
    ensures a == b
    decreases |a|
  {
    assert |a| == |multiset(a)| == |b|;
    if a != [] {
      SortedHeadIsLeast(a, b[0]);
      SortedHeadIsLeast(b, a[0]);
      var a', b' := a[1..], b[1..];
      assert a[0] == b[0];
      SortedTail(a);
      SortedTail(b);
      assert a == [a[0]] + a' && b == [b[0]] + b';
      assert multiset(a') == multiset(a) - multiset{a[0]};
      assert multiset(b') == multiset(b) - multiset{b[0]};
      SortedUnique(a', b');
    }
  }

  lemma SortedTail(a: seq<real>)
    requires Sorted(a) && a != []
    ensures Sorted(a[1..])
  {
    forall i, j | 0 <= i < j < |a| - 1 ensures a[1..][i] <= a[1..][j] {
      assert a[1..][i] == a[i + 1] && a[1..][j] == a[j + 1];
    }
  }

  /** The first value of a sorted sequence is at most any of its values. */
  lemma SortedHeadIsLeast(a: seq<real>, x: real)
    requires Sorted(a) && x in multiset(a)
    ensures a[0] <= x
  {
    var j :| 0 <= j < |a| && a[j] == x;
  }

  /** `np.median`: the middle value of the sorted data, or the mean of the
      two middle values when the count is even. */
  function Median(s: seq<real>): real
    requires s != []
  {
    Middle(Sort(s))
  }

  function Middle(t: seq<real>): real
    requires t != []
  {
    var n := |t|;
    if n % 2 == 1 then t[n / 2] else (t[n / 2 - 1] + t[n / 2]) / 2.0
  }

  /** The median lies between the smallest and the largest value; at least
      half of the values are at most the median and at least half are at
      least the median. */
  lemma MedianBounds(s: seq<real>)
    requires s != []
    ensures var t := Sort(s);
            && t[0] <= Median(s) <= t[|t| - 1]
            && (forall i :: 0 <= i < |t| / 2 ==> t[i] <= Median(s))
            && (forall i :: (|t| + 1) / 2 <= i < |t| ==> Median(s) <= t[i])
  {
    MiddleBounds(Sort(s));
  }

  lemma MiddleBounds(t: seq<real>)
    requires t != [] && Sorted(t)
    ensures && t[0] <= Middle(t) <= t[|t| - 1]
            && (forall i :: 0 <= i < |t| / 2 ==> t[i] <= Middle(t))
            && (forall i :: (|t| + 1) / 2 <= i < |t| ==> Middle(t) <= t[i])
  {
    var n := |t|;
    var h := n / 2;
    var m := Middle(t);
    if n % 2 == 1 {
      assert m == t[h];
    } else {
      assert t[h - 1] <= t[h];
      assert t[h - 1] <= m <= t[h];
    }
    forall i | 0 <= i < n / 2 ensures t[i] <= m {
      assert t[i] <= t[h - (if n % 2 == 1 then 0 else 1)];
    }
    forall i | (n + 1) / 2 <= i < n ensures m <= t[i] {
      assert t[h] <= t[i];
    }
  }

  /** The median does not depend on the order of the values. */
  lemma MedianPermutation(a: seq<real>, b: seq<real>)
    requires a != [] && multiset(a) == multiset(b)
    ensures b != [] && Median(a) == Median(b)
  {
    assert |a| == |multiset(a)| == |b|;
    SortedUnique(Sort(a), Sort(b));
  }

  /** Linear interpolation in sorted data at percentile `p`: the value at
      position `(n - 1) p / 100`, between the two neighbouring data points. */
  function Interpolate(t: seq<real>, p: nat): real
    requires t != [] && p <= 100
  {
    var h := Scaled(|t|, p);
    var lo := h / 100;
    var frac := (h % 100) as real / 100.0;
    if lo + 1 < |t| then Lerp(t[lo], t[lo + 1], frac) else t[lo]
  }

  /** The point a fraction `f` of the way from `a` to `b`. */
  function Lerp(a: real, b: real, f: real): real
  {
    a + f * (b - a)
  }

  /** A point part of the way from `a` to `b` lies between them. */
  lemma LerpBetween(a: real, b: real, f: real)
    requires a <= b && 0.0 <= f <= 1.0
    ensures a <= Lerp(a, b, f) <= b
  {
    var d := b - a;
    ScaleBetween(f, d);
    assert Lerp(a, b, f) == a + f * d;
  }

  /** Going further from `a` towards `b` never moves back. */
  lemma LerpMonotone(a: real, b: real, f: real, g: real)
    requires a <= b && f <= g
    ensures Lerp(a, b, f) <= Lerp(a, b, g)
  {
    var d := b - a;
    ScaleMonotone(f, g, d);
    assert Lerp(a, b, f) == a + f * d && Lerp(a, b, g) == a + g * d;
  }

  /** One hundred times the interpolation position, `(n - 1) p`; it is at
      most `100 (n - 1)`, so the position is an index of the data. */
  function Scaled(n: nat, p: nat): (h: nat)
    requires n >= 1 && p <= 100
    ensures h / 100 <= n - 1
  {
    Position(n - 1, p);
    (n - 1) * p
  }

  lemma Position(m: nat, p: nat)
    requires p <= 100
    ensures m * p / 100 <= m
  {
    assert m * p <= m * 100;
    DivMonotone(m * p, m * 100);
  }

  lemma DivMonotone(a: nat, b: nat)
    requires a <= b
    ensures a / 100 <= b / 100
    ensures a / 100 == b / 100 ==> a % 100 <= b % 100
  {
  }

  /** `np.percentile(data, p)`. */
  function Percentile(s: seq<real>, p: nat): real
    requires s != [] && p <= 100
  {
    Interpolate(Sort(s), p)
  }

  /** A percentile lies between the two data points it interpolates. */
  lemma InterpolateBetween(t: seq<real>, p: nat)
    requires t != [] && p <= 100 && Sorted(t)
    ensures var lo := Scaled(|t|, p) / 100;
            && t[lo] <= Interpolate(t, p)
            && (lo + 1 < |t| ==> Interpolate(t, p) <= t[lo + 1])
  {
    var h := Scaled(|t|, p);
    var lo := h / 100;
    var frac := (h % 100) as real / 100.0;
    if lo + 1 < |t| {
      assert t[lo] <= t[lo + 1];
      LerpBetween(t[lo], t[lo + 1], frac);
      assert Interpolate(t, p) == Lerp(t[lo], t[lo + 1], frac);
    }
  }

  lemma ScaleBetween(f: real, d: real)
    requires 0.0 <= f <= 1.0 && 0.0 <= d
    ensures 0.0 <= f * d <= d
  {
  }

  /** Percentiles grow with `p` on sorted data: a lower percentile never
      exceeds a higher one. */
  lemma InterpolateMonotone(t: seq<real>, p: nat, q: nat)
    requires t != [] && p <= q <= 100 && Sorted(t)
    ensures Interpolate(t, p) <= Interpolate(t, q)
  {
    var n := |t|;
    var hp, hq := Scaled(n, p), Scaled(n, q);
    ScaledMonotone(n, p, q);
    var lp, lq := hp / 100, hq / 100;
    InterpolateBetween(t, p);
    InterpolateBetween(t, q);
    if lp < lq {
      assert t[lp + 1] <= t[lq];
    } else if lp + 1 < n {
      var fp := (hp % 100) as real / 100.0;
      var fq := (hq % 100) as real / 100.0;
      assert t[lp] <= t[lp + 1];
      LerpMonotone(t[lp], t[lp + 1], fp, fq);
    }
  }

  lemma ScaledMonotone(n: nat, p: nat, q: nat)
    requires n >= 1 && p <= q <= 100
    ensures var hp, hq := Scaled(n, p), Scaled(n, q);
            hp / 100 <= hq / 100 && (hp / 100 == hq / 100 ==> hp % 100 <= hq % 100)
  {
    MulMonotone(n - 1, p, q);
    DivMonotone(Scaled(n, p), Scaled(n, q));
  }

  lemma MulMonotone(m: nat, p: nat, q: nat)
    requires p <= q
    ensures m * p <= m * q
  {
  }

  lemma ScaleMonotone(f: real, g: real, d: real)
    requires f <= g && 0.0 <= d
    ensures f * d <= g * d
  {
  }

  /** The percentile of any data lies between its smallest and largest
      value, and lower percentiles never exceed higher ones. */
  lemma PercentileProperties(s: seq<real>, p: nat, q: nat)
    requires s != [] && p <= q <= 100
    ensures var t := Sort(s);
            t[0] <= Percentile(s, p) <= Percentile(s, q) <= t[|t| - 1]
  {
    var t := Sort(s);
    InterpolateMonotone(t, p, q);
    InterpolateMonotone(t, 0, p);
    InterpolateMonotone(t, q, 100);
    InterpolateEnds(t);
  }

  /** The 0th percentile is the smallest value, the 100th the largest. */
  lemma InterpolateEnds(t: seq<real>)
    requires t != []
    ensures Interpolate(t, 0) == t[0]
    ensures Interpolate(t, 100) == t[|t| - 1]
  {
    var m := |t| - 1;
    assert Scaled(|t|, 0) == 0;
    assert Scaled(|t|, 100) == 100 * m;
    assert (100 * m) / 100 == m && (100 * m) % 100 == 0;
  }
}
