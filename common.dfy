/** Shared vocabulary of the model: an Option type, total real division
    standing in for JavaScript's non-finite quotients, sums, extrema and the
    stable sort that `Array.prototype.sort` performs. */
module Common {

  datatype Option<T> = None | Some(value: T)

  /** JavaScript's `a / b` on numbers. A zero divisor gives Infinity or NaN
      there; reals have neither, so the model yields 0 in that case. */
  function Div(a: real, b: real): (r: real)
    ensures b != 0.0 ==> r * b == a
    ensures b == 0.0 ==> r == 0.0
  {
    if b == 0.0 then 0.0 else a / b
  }

  function Abs(x: real): real { if x < 0.0 then -x else x }

  function Min(a: real, b: real): real { if a <= b then a else b }

  function Max(a: real, b: real): real { if a >= b then a else b }

  /** The index `Array.prototype.slice` makes of `k` on a list of length
      `n`: negative values count from the end, and both are clamped. */
  function SliceIndex(k: int, n: nat): (r: nat)
    ensures r <= n
    ensures k >= 0 ==> r == Min2(k, n)
    ensures k < 0 ==> r == if n + k < 0 then 0 else n + k
  {
    if k < 0 then (if n + k < 0 then 0 else n + k) else if k < n then k else n
  }

  function Min2(a: int, b: int): int { if a <= b then a else b }

  /** `s.slice(start, end)`; an empty result when end falls before start. */
  function Slice<T>(s: seq<T>, start: int, end: int): (r: seq<T>)
    ensures var i, j := SliceIndex(start, |s|), SliceIndex(end, |s|);
      r == if i <= j then s[i..j] else []
  {
    var i, j := SliceIndex(start, |s|), SliceIndex(end, |s|);
    if i <= j then s[i..j] else []
  }

  /** `s.slice(-p)`: the last p elements, or all of them when p is 0 or at least |s|. */
  function Last<T>(s: seq<T>, p: int): (r: seq<T>)
    ensures 0 < p <= |s| ==> r == s[|s| - p..]
    ensures p == 0 || p >= |s| ==> r == s
  {
    Slice(s, -p, |s|)
  }

  /** `values.reduce((sum, v) => sum + v, 0)` */
  function Sum(s: seq<real>): real
  {
    if |s| == 0 then 0.0 else Sum(s[..|s| - 1]) + s[|s| - 1]
  }

  /** `Math.min(...s)` for a non-empty list. */
  function MinOf(s: seq<real>): (m: real)
    requires |s| > 0
    ensures m in s
    ensures forall i :: 0 <= i < |s| ==> m <= s[i]
  {
    if |s| == 1 then s[0] else Min(MinOf(s[..|s| - 1]), s[|s| - 1])
  }

  /** `Math.max(...s)` for a non-empty list. */
  function MaxOf(s: seq<real>): (m: real)
    requires |s| > 0
    ensures m in s
    ensures forall i :: 0 <= i < |s| ==> s[i] <= m
  {
    if |s| == 1 then s[0] else Max(MaxOf(s[..|s| - 1]), s[|s| - 1])
  }

  lemma {:induction false} SumAppend(s: seq<real>, x: real)
    ensures Sum(s + [x]) == Sum(s) + x
  {
    assert (s + [x])[..|s|] == s;
  }

  lemma {:induction false} SumConcat(s: seq<real>, t: seq<real>)
    ensures Sum(s + t) == Sum(s) + Sum(t)
    decreases |t|
  {
    if |t| == 0 {
      assert s + t == s;
    } else {
      var t' := t[..|t| - 1];
      assert s + t == (s + t') + [t[|t| - 1]];
      SumAppend(s + t', t[|t| - 1]);
      SumConcat(s, t');
    }
  }

  /** A sum of values that all lie in [lo, hi] lies in [n*lo, n*hi]. */
  lemma {:induction false} SumBounds(s: seq<real>, lo: real, hi: real)
    requires forall i :: 0 <= i < |s| ==> lo <= s[i] <= hi
    ensures |s| as real * lo <= Sum(s)
    ensures Sum(s) <= |s| as real * hi
  {
    if |s| > 0 {
      SumBounds(s[..|s| - 1], lo, hi);
    }
  }

  /** A sum of n copies of c is n*c. */
  lemma {:induction false} SumConstant(s: seq<real>, c: real)
    requires forall i :: 0 <= i < |s| ==> s[i] == c
    ensures Sum(s) == |s| as real * c
  {
    if |s| > 0 {
      SumConstant(s[..|s| - 1], c);
    }
  }

  /** A sum of non-negative values is non-negative. */
  lemma {:induction false} SumNonNegative(s: seq<real>)
    requires forall i :: 0 <= i < |s| ==> 0.0 <= s[i]
    ensures 0.0 <= Sum(s)
  {
    if |s| > 0 {
      SumNonNegative(s[..|s| - 1]);
    }
  }

  /** The mean of a non-empty list lies between its minimum and maximum. */
  lemma {:induction false} MeanBetweenExtrema(s: seq<real>)
    requires |s| > 0
    ensures MinOf(s) <= Sum(s) / |s| as real
    ensures Sum(s) / |s| as real <= MaxOf(s)
  {
    MeanBetween(s, MinOf(s), MaxOf(s));
  }

  /** The mean of a non-empty list of values in [lo, hi] lies in [lo, hi]. */
  lemma MeanBetween(s: seq<real>, lo: real, hi: real)
    requires |s| > 0 && forall i :: 0 <= i < |s| ==> lo <= s[i] <= hi
    ensures lo <= Sum(s) / |s| as real
    ensures Sum(s) / |s| as real <= hi
  {
    SumBounds(s, lo, hi);
    ScaledBounds(Sum(s), |s| as real, lo, hi);
  }

  /** From n*lo <= x <= n*hi with n > 0, lo <= x/n <= hi. */
  lemma {:induction false} ScaledBounds(x: real, n: real, lo: real, hi: real)
    requires n > 0.0 && n * lo <= x && x <= n * hi
    ensures lo <= x / n
    ensures x / n <= hi
  {
    var q := x / n;
    assert q * n == x;
    assert (q - lo) * n >= 0.0;
    assert (hi - q) * n >= 0.0;
  }

  /** A sum of non-negative values with one positive value is positive. */
  lemma {:induction false} SumPositive(s: seq<real>, k: int)
    requires forall i :: 0 <= i < |s| ==> 0.0 <= s[i]
    requires 0 <= k < |s| && s[k] > 0.0
    ensures Sum(s) > 0.0
  {
    var init := s[..|s| - 1];
    if k == |s| - 1 {
      SumNonNegative(init);
    } else {
      SumPositive(init, k);
    }
  }

  /** Multiplying every element by c multiplies the sum by c. */
  lemma {:induction false} SumScale(s: seq<real>, t: seq<real>, c: real)
    requires |t| == |s| && forall i :: 0 <= i < |s| ==> t[i] == s[i] * c
    ensures Sum(t) == Sum(s) * c
  {
    if |s| > 0 {
      SumScale(s[..|s| - 1], t[..|t| - 1], c);
    }
  }

  // ----- Mean and population variance -----

  function Mean(s: seq<real>): real
  {
    Div(Sum(s), |s| as real)
  }

  function SquaredDeviations(s: seq<real>, m: real): (r: seq<real>)
    ensures |r| == |s|
    ensures forall i :: 0 <= i < |s| ==> r[i] == (s[i] - m) * (s[i] - m)
  {
    seq(|s|, i requires 0 <= i < |s| => (s[i] - m) * (s[i] - m))
  }

  /** Population variance: the mean squared deviation from the mean. */
  function Variance(s: seq<real>): real
  {
    Mean(SquaredDeviations(s, Mean(s)))
  }

  lemma {:induction false} VarianceNonNegative(s: seq<real>)
    ensures Variance(s) >= 0.0
  {
    var d := SquaredDeviations(s, Mean(s));
    assert forall i :: 0 <= i < |d| ==> 0.0 <= d[i] by {
      forall i | 0 <= i < |d| ensures 0.0 <= d[i] {
        var x := s[i] - Mean(s);
        assert d[i] == x * x;
      }
    }
    SumNonNegative(d);
  }

  /** A constant list has mean c and variance 0. */
  lemma {:induction false} VarianceOfConstant(s: seq<real>, c: real)
    requires |s| > 0 && forall i :: 0 <= i < |s| ==> s[i] == c
    ensures Mean(s) == c
    ensures Variance(s) == 0.0
  {
    SumConstant(s, c);
    var d := SquaredDeviations(s, c);
    SumConstant(d, 0.0);
  }

  // ----- Stable sorting by a numeric key -----

  /** Ascending by `key`; ties in any order. */
  ghost predicate SortedBy<T>(s: seq<T>, key: T -> real)
  {
    forall i, j :: 0 <= i < j < |s| ==> key(s[i]) <= key(s[j])
  }

  /** Inserts `x` after every element whose key is not greater than its own. */
  function Insert<T>(x: T, s: seq<T>, key: T -> real): seq<T>
  {
    if |s| == 0 then [x]
    else if key(x) < key(s[0]) then [x] + s
    else [s[0]] + Insert(x, s[1..], key)
  }

  /** The stable sort `s.sort((a, b) => key(a) - key(b))`, as insertion sort. */
  function SortBy<T>(s: seq<T>, key: T -> real): seq<T>
  {
    if |s| == 0 then [] else Insert(s[|s| - 1], SortBy(s[..|s| - 1], key), key)
  }

  lemma {:induction false} InsertPermutes<T>(x: T, s: seq<T>, key: T -> real)
    ensures multiset(Insert(x, s, key)) == multiset(s) + multiset{x}
  {
    if |s| > 0 && key(s[0]) <= key(x) {
      InsertPermutes(x, s[1..], key);
      assert s == [s[0]] + s[1..];
    }
  }

  lemma {:induction false} InsertSorted<T>(x: T, s: seq<T>, key: T -> real)
    requires SortedBy(s, key)
    ensures SortedBy(Insert(x, s, key), key)
  {
    if |s| > 0 && key(s[0]) <= key(x) {
      InsertSorted(x, s[1..], key);
      InsertPermutes(x, s[1..], key);
      var r := Insert(x, s[1..], key);
      forall k | 0 <= k < |r| ensures key(s[0]) <= key(r[k]) {
        assert r[k] in multiset(r);
        if r[k] in multiset(s[1..]) {
          var j :| 0 <= j < |s[1..]| && s[1..][j] == r[k];
          assert s[j + 1] == r[k];
        }
      }
    }
  }

  lemma InsertCorrect<T>(x: T, s: seq<T>, key: T -> real)
    requires SortedBy(s, key)
    ensures SortedBy(Insert(x, s, key), key)
    ensures multiset(Insert(x, s, key)) == multiset(s) + multiset{x}
  {
    InsertSorted(x, s, key);
    InsertPermutes(x, s, key);
  }

  /** SortBy returns a sorted permutation of its input. */
  lemma {:induction false} SortByCorrect<T>(s: seq<T>, key: T -> real)
    ensures SortedBy(SortBy(s, key), key)
    ensures multiset(SortBy(s, key)) == multiset(s)
    ensures |SortBy(s, key)| == |s|
  {
    if |s| > 0 {
      SortByCorrect(s[..|s| - 1], key);
      InsertCorrect(s[|s| - 1], SortBy(s[..|s| - 1], key), key);
      assert s == s[..|s| - 1] + [s[|s| - 1]];
    }
    assert |SortBy(s, key)| == |multiset(SortBy(s, key))| == |multiset(s)| == |s|;
  }

  lemma {:induction false} InsertEqualKeys<T>(x: T, s: seq<T>, key: T -> real)
    requires forall i :: 0 <= i < |s| ==> key(s[i]) == key(x)
    ensures Insert(x, s, key) == s + [x]
  {
    if |s| > 0 {
      InsertEqualKeys(x, s[1..], key);
      assert s == [s[0]] + s[1..];
    }
  }

  /** Stability: when all keys are equal the sort keeps the input order. */
  lemma {:induction false} SortByEqualKeys<T>(s: seq<T>, key: T -> real)
    requires forall i, j :: 0 <= i < |s| && 0 <= j < |s| ==> key(s[i]) == key(s[j])
    ensures SortBy(s, key) == s
  {
    if |s| > 0 {
      var init := s[..|s| - 1];
      SortByEqualKeys(init, key);
      InsertEqualKeys(s[|s| - 1], init, key);
      assert s == init + [s[|s| - 1]];
    }
  }

  /** No two elements share an identity. */
  ghost predicate DistinctBy<T, U>(s: seq<T>, id: T -> U)
  {
    forall i, j :: 0 <= i < j < |s| ==> id(s[i]) != id(s[j])
  }

  lemma DistinctCons<T, U>(h: T, t: seq<T>, id: T -> U)
    requires DistinctBy(t, id) && forall e :: e in t ==> id(e) != id(h)
    ensures DistinctBy([h] + t, id)
  {
    var s := [h] + t;
    forall i, j | 0 <= i < j < |s| ensures id(s[i]) != id(s[j]) {
      assert s[j] == t[j - 1];
      if i > 0 { assert s[i] == t[i - 1]; }
    }
  }

  lemma {:induction false} InsertKeepsDistinct<T, U>(x: T, s: seq<T>, key: T -> real, id: T -> U)
    requires DistinctBy(s, id) && forall e :: e in s ==> id(e) != id(x)
    ensures DistinctBy(Insert(x, s, key), id)
    ensures x in Insert(x, s, key) && forall e :: e in s ==> e in Insert(x, s, key)
    ensures forall e :: e in Insert(x, s, key) ==> e == x || e in s
  {
    if |s| > 0 && key(s[0]) <= key(x) {
      var t := s[1..];
      assert s == [s[0]] + t;
      InsertKeepsDistinct(x, t, key, id);
      forall e | e in t ensures id(e) != id(s[0]) {
        var j :| 0 <= j < |t| && t[j] == e;
        assert s[j + 1] == e;
      }
      assert s[0] in s;
      DistinctCons(s[0], Insert(x, t, key), id);
    } else {
      DistinctCons(x, s, id);
    }
  }

  /** Sorting keeps the same elements, so it keeps identities distinct. */
  lemma {:induction false} SortKeepsDistinct<T, U>(s: seq<T>, key: T -> real, id: T -> U)
    requires DistinctBy(s, id)
    ensures DistinctBy(SortBy(s, key), id)
    ensures forall e :: e in SortBy(s, key) ==> e in s
    ensures forall e :: e in s ==> e in SortBy(s, key)
  {
    if |s| > 0 {
      var init, x := s[..|s| - 1], s[|s| - 1];
      assert s == init + [x];
      SortKeepsDistinct(init, key, id);
      forall e | e in SortBy(init, key) ensures id(e) != id(x) {
        assert e in init;
        var j :| 0 <= j < |init| && init[j] == e;
        assert s[j] == e;
      }
      InsertKeepsDistinct(x, SortBy(init, key), key, id);
    }
  }

  // ----- Sums of a projection -----

  /** `s.map(f)` */
  function Project<T>(s: seq<T>, f: T -> real): (r: seq<real>)
    ensures |r| == |s|
    ensures forall i :: 0 <= i < |s| ==> r[i] == f(s[i])
  {
    seq(|s|, i requires 0 <= i < |s| => f(s[i]))
  }

  lemma {:induction false} SumProjectCons<T>(h: T, t: seq<T>, f: T -> real)
    ensures Sum(Project([h] + t, f)) == f(h) + Sum(Project(t, f))
  {
    assert Project([h] + t, f) == [f(h)] + Project(t, f);
    SumConcat([f(h)], Project(t, f));
    assert [f(h)][..0] == [];
  }

  lemma {:induction false} SumProjectInsert<T>(x: T, s: seq<T>, key: T -> real, f: T -> real)
    ensures Sum(Project(Insert(x, s, key), f)) == Sum(Project(s, f)) + f(x)
  {
    if |s| == 0 {
      assert Project([x], f) == [f(x)];
      assert [f(x)][..0] == [];
    } else if key(x) < key(s[0]) {
      SumProjectCons(x, s, f);
    } else {
      SumProjectInsert(x, s[1..], key, f);
      SumProjectCons(s[0], Insert(x, s[1..], key), f);
      SumProjectCons(s[0], s[1..], f);
      assert s == [s[0]] + s[1..];
    }
  }

  /** Sorting does not change a sum. */
  lemma {:induction false} SumProjectSortBy<T>(s: seq<T>, key: T -> real, f: T -> real)
    ensures Sum(Project(SortBy(s, key), f)) == Sum(Project(s, f))
  {
    if |s| > 0 {
      var init := s[..|s| - 1];
      SumProjectSortBy(init, key, f);
      SumProjectInsert(s[|s| - 1], SortBy(init, key), key, f);
      assert Project(s, f) == Project(init, f) + [f(s[|s| - 1])];
      SumAppend(Project(init, f), f(s[|s| - 1]));
    }
  }

  /** The same elements before and after a sort. */
  lemma SortBySameElements<T>(s: seq<T>, key: T -> real)
    ensures forall e :: e in SortBy(s, key) ==> e in s
    ensures forall e :: e in s ==> e in SortBy(s, key)
    ensures |SortBy(s, key)| == |s|
  {
    SortByCorrect(s, key);
    forall e | e in SortBy(s, key) ensures e in s {
      assert e in multiset(SortBy(s, key));
    }
    forall e | e in s ensures e in SortBy(s, key) {
      assert e in multiset(s);
    }
  }

  /** Two lists holding the same elements have the same largest and the
      same smallest projected value. */
  lemma ExtremesOfSameElements<T>(a: seq<T>, b: seq<T>, f: T -> real)
    requires |a| > 0 && |b| > 0
    requires forall e :: e in a ==> e in b
    requires forall e :: e in b ==> e in a
    ensures MaxOf(Project(a, f)) == MaxOf(Project(b, f))
    ensures MinOf(Project(a, f)) == MinOf(Project(b, f))
  {
    var pa, pb := Project(a, f), Project(b, f);
    var i :| 0 <= i < |pa| && pa[i] == MaxOf(pa);
    var j :| 0 <= j < |pb| && pb[j] == MaxOf(pb);
    assert a[i] in b && b[j] in a;
    var i' :| 0 <= i' < |b| && b[i'] == a[i];
    var j' :| 0 <= j' < |a| && a[j'] == b[j];
    assert pb[i'] == pa[i] && pa[j'] == pb[j];
    var k :| 0 <= k < |pa| && pa[k] == MinOf(pa);
    var l :| 0 <= l < |pb| && pb[l] == MinOf(pb);
    assert a[k] in b && b[l] in a;
    var k' :| 0 <= k' < |b| && b[k'] == a[k];
    var l' :| 0 <= l' < |a| && a[l'] == b[l];
    assert pb[k'] == pa[k] && pa[l'] == pb[l];
  }

  function Times<T>(v: T -> real, w: T -> real): T -> real
  {
    (e: T) => v(e) * w(e)
  }

  /** Every value lies in [lo, hi] and every weight is non-negative. */
  ghost predicate WeightsInRange<T>(s: seq<T>, v: T -> real, w: T -> real, lo: real, hi: real)
  {
    forall i :: 0 <= i < |s| ==> lo <= v(s[i]) <= hi && 0.0 <= w(s[i])
  }

  /** The sum of a measure over a list, element by element. */
  function SumOf<T>(s: seq<T>, f: T -> real): real
  {
    if |s| == 0 then 0.0 else SumOf(s[..|s| - 1], f) + f(s[|s| - 1])
  }

  lemma SumProjectSnoc<T>(s: seq<T>, f: T -> real)
    requires |s| > 0
    ensures Sum(Project(s, f)) == Sum(Project(s[..|s| - 1], f)) + f(s[|s| - 1])
  {
    assert Project(s, f) == Project(s[..|s| - 1], f) + [f(s[|s| - 1])];
    SumAppend(Project(s[..|s| - 1], f), f(s[|s| - 1]));
  }

  lemma {:induction false} SumProjectIsSumOf<T>(s: seq<T>, f: T -> real)
    ensures Sum(Project(s, f)) == SumOf(s, f)
  {
    if |s| > 0 {
      SumProjectIsSumOf(s[..|s| - 1], f);
      SumProjectSnoc(s, f);
    }
  }

  lemma {:induction false} WeightedSumOfLower<T>(s: seq<T>, v: T -> real, w: T -> real, lo: real, hi: real)
    requires WeightsInRange(s, v, w, lo, hi)
    ensures lo * SumOf(s, w) <= SumOf(s, Times(v, w))
  {
    if |s| > 0 {
      var init, x := s[..|s| - 1], s[|s| - 1];
      WeightsInRangePrefix(s, v, w, lo, hi);
      WeightedSumOfLower(init, v, w, lo, hi);
      assert Times(v, w)(x) == v(x) * w(x);
      WeightedStepLower(lo, SumOf(init, w), SumOf(init, Times(v, w)), v(x), w(x));
    }
  }

  lemma {:induction false} WeightedSumOfUpper<T>(s: seq<T>, v: T -> real, w: T -> real, lo: real, hi: real)
    requires WeightsInRange(s, v, w, lo, hi)
    ensures SumOf(s, Times(v, w)) <= hi * SumOf(s, w)
  {
    if |s| > 0 {
      var init, x := s[..|s| - 1], s[|s| - 1];
      WeightsInRangePrefix(s, v, w, lo, hi);
      WeightedSumOfUpper(init, v, w, lo, hi);
      assert Times(v, w)(x) == v(x) * w(x);
      WeightedStepUpper(hi, SumOf(init, w), SumOf(init, Times(v, w)), v(x), w(x));
    }
  }

  lemma WeightsInRangePrefix<T>(s: seq<T>, v: T -> real, w: T -> real, lo: real, hi: real)
    requires WeightsInRange(s, v, w, lo, hi) && |s| > 0
    ensures WeightsInRange(s[..|s| - 1], v, w, lo, hi)
    ensures lo <= v(s[|s| - 1]) <= hi && 0.0 <= w(s[|s| - 1])
  {
    var init := s[..|s| - 1];
    forall i | 0 <= i < |init| ensures lo <= v(init[i]) <= hi && 0.0 <= w(init[i]) {
      assert init[i] == s[i];
    }
  }

  /** lo*sum(w) <= sum(v*w) <= hi*sum(w) when every v lies in [lo, hi] and
      every weight w is non-negative. */
  lemma WeightedSumBounds<T>(s: seq<T>, v: T -> real, w: T -> real, lo: real, hi: real)
    requires WeightsInRange(s, v, w, lo, hi)
    ensures lo * Sum(Project(s, w)) <= Sum(Project(s, Times(v, w)))
    ensures Sum(Project(s, Times(v, w))) <= hi * Sum(Project(s, w))
  {
    WeightedSumOfLower(s, v, w, lo, hi);
    WeightedSumOfUpper(s, v, w, lo, hi);
    SumProjectIsSumOf(s, w);
    SumProjectIsSumOf(s, Times(v, w));
  }

  /** Adding one weighted value of at least lo keeps the weighted sum at
      least lo times the total weight. */
  lemma WeightedStepLower(lo: real, weights: real, weighted: real, value: real, weight: real)
    requires lo * weights <= weighted
    requires lo <= value && 0.0 <= weight
    ensures lo * (weights + weight) <= weighted + value * weight
  {
    assert (value - lo) * weight >= 0.0;
  }

  /** Adding one weighted value of at most hi keeps the weighted sum at
      most hi times the total weight. */
  lemma WeightedStepUpper(hi: real, weights: real, weighted: real, value: real, weight: real)
    requires weighted <= hi * weights
    requires value <= hi && 0.0 <= weight
    ensures weighted + value * weight <= hi * (weights + weight)
  {
    assert (hi - value) * weight >= 0.0;
  }

  /** `s.filter(p)`: the elements satisfying `p`, in their order. */
  function Keep<T>(s: seq<T>, p: T -> bool): (out: seq<T>)
    ensures |out| <= |s|
    ensures forall k :: 0 <= k < |out| ==> p(out[k]) && out[k] in s
  {
    if |s| == 0 then []
    else
      var rest := Keep(s[..|s| - 1], p);
      if p(s[|s| - 1]) then rest + [s[|s| - 1]] else rest
  }

  ghost predicate StrictlyIncreasing(idx: seq<nat>)
  {
    forall a, b :: 0 <= a < b < |idx| ==> idx[a] < idx[b]
  }

  /** The positions of `s` the filter keeps. */
  ghost function KeptIndices<T>(s: seq<T>, p: T -> bool): (idx: seq<nat>)
    ensures forall k :: 0 <= k < |idx| ==> idx[k] < |s|
  {
    if |s| == 0 then []
    else
      var n := |s| - 1;
      var rest := KeptIndices(s[..n], p);
      if p(s[n]) then rest + [n] else rest
  }

  /** The kept positions name the kept elements, one position per element. */
  lemma {:induction false} KeptIndicesMatch<T>(s: seq<T>, p: T -> bool)
    ensures |KeptIndices(s, p)| == |Keep(s, p)|
    ensures forall k :: 0 <= k < |KeptIndices(s, p)| ==> Keep(s, p)[k] == s[KeptIndices(s, p)[k]]
  {
    if |s| > 0 {
      var n := |s| - 1;
      KeptIndicesMatch(s[..n], p);
      var rest, kept := KeptIndices(s[..n], p), Keep(s[..n], p);
      forall k | 0 <= k < |rest| ensures kept[k] == s[rest[k]] {
        assert s[..n][rest[k]] == s[rest[k]];
      }
    }
  }

  lemma {:induction false} KeptIndicesIncrease<T>(s: seq<T>, p: T -> bool)
    ensures StrictlyIncreasing(KeptIndices(s, p))
  {
    if |s| > 0 {
      KeptIndicesIncrease(s[..|s| - 1], p);
    }
  }

  lemma {:induction false} KeptIndicesExact<T>(s: seq<T>, p: T -> bool)
    ensures forall i :: 0 <= i < |s| ==> (i in KeptIndices(s, p) <==> p(s[i]))
  {
    if |s| > 0 {
      KeptIndicesExact(s[..|s| - 1], p);
      KeptIndicesLast(s, p);
      PositionsStep(s, p, KeptIndices(s[..|s| - 1], p), KeptIndices(s, p));
    }
  }

  /** A position before the last is kept in `s` exactly when it is kept in
      the prefix; the last position is kept exactly when it passes. */
  lemma KeptIndicesLast<T>(s: seq<T>, p: T -> bool)
    requires |s| > 0
    ensures forall i :: 0 <= i < |s| - 1 ==> (i in KeptIndices(s, p) <==> i in KeptIndices(s[..|s| - 1], p))
    ensures |s| - 1 in KeptIndices(s, p) <==> p(s[|s| - 1])
  {
    var n := |s| - 1;
    var rest := KeptIndices(s[..n], p);
    assert forall k :: 0 <= k < |rest| ==> rest[k] < n;
    if p(s[n]) {
      assert KeptIndices(s, p) == rest + [n];
    } else {
      assert KeptIndices(s, p) == rest;
    }
  }

  /** Positions that agree with the prefix's before the last position, and
      take the last one exactly when it passes, are exactly the passing ones. */
  lemma PositionsStep<T>(s: seq<T>, p: T -> bool, rest: seq<nat>, idx: seq<nat>)
    requires |s| > 0
    requires forall i :: 0 <= i < |s| - 1 ==> (i in rest <==> p(s[..|s| - 1][i]))
    requires forall i :: 0 <= i < |s| - 1 ==> (i in idx <==> i in rest)
    requires |s| - 1 in idx <==> p(s[|s| - 1])
    ensures forall i :: 0 <= i < |s| ==> (i in idx <==> p(s[i]))
  {
    forall i | 0 <= i < |s| - 1
      ensures i in idx <==> p(s[i])
    {
      assert s[..|s| - 1][i] == s[i];
    }
  }

  /** `out` is the subsequence of `s` at the increasing positions `idx`,
      which are exactly the positions whose element passes `p`. */
  ghost predicate FilteredAt<T>(out: seq<T>, s: seq<T>, p: T -> bool, idx: seq<nat>)
  {
    |idx| == |out| && StrictlyIncreasing(idx) &&
    (forall k :: 0 <= k < |idx| ==> idx[k] < |s| && out[k] == s[idx[k]]) &&
    (forall i :: 0 <= i < |s| ==> (i in idx <==> p(s[i])))
  }

  /** A filter keeps exactly the elements satisfying its test, as an
      order-preserving subsequence. */
  lemma KeepIsSubsequence<T>(s: seq<T>, p: T -> bool)
    ensures FilteredAt(Keep(s, p), s, p, KeptIndices(s, p))
  {
    KeptIndicesMatch(s, p);
    KeptIndicesIncrease(s, p);
    KeptIndicesExact(s, p);
  }

  /** A sequence whose every element passes the test is kept whole. */
  lemma {:induction false} KeepAll<T>(s: seq<T>, p: T -> bool)
    requires forall i :: 0 <= i < |s| ==> p(s[i])
    ensures Keep(s, p) == s
  {
    if |s| > 0 {
      KeepAll(s[..|s| - 1], p);
      assert s[..|s| - 1] + [s[|s| - 1]] == s;
    }
  }
}
