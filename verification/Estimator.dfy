/** Welford's algorithm with deletion, over exact reals. */
module Estimator {
  import opened Optional
  datatype Outcome = Done | RangeError(message: string)

  // ---------------------------------------------------------------- moments of a multiset

  function Sq(x: real): real {
    x * x
  }

  ghost function Pick(m: multiset<real>): (x: real)
    requires |m| > 0
    ensures x in m
  {
    Inhabited(m);
    var x :| x in m;
    x
  }

  lemma Inhabited(m: multiset<real>)
    requires |m| > 0
    ensures exists x :: x in m
  {
    assert (forall x :: x !in m) ==> m == multiset{};
  }

  ghost function Sum(m: multiset<real>): real
    decreases |m|
  {
    if |m| == 0 then 0.0 else Pick(m) + Sum(m - multiset{Pick(m)})
  }

  ghost function Squares(m: multiset<real>): real
    decreases |m|
  {
    if |m| == 0 then 0.0 else Sq(Pick(m)) + Squares(m - multiset{Pick(m)})
  }

  /** The sum of the squared deviations from `c`. */
  ghost function Deviations(m: multiset<real>, c: real): real
    decreases |m|
  {
    if |m| == 0 then 0.0 else Sq(Pick(m) - c) + Deviations(m - multiset{Pick(m)}, c)
  }

  /** The order in which samples are picked does not matter. */
  lemma {:induction false} Without(m: multiset<real>, x: real)
    requires x in m
    ensures Sum(m) == x + Sum(m - multiset{x}) && Squares(m) == Sq(x) + Squares(m - multiset{x})
    decreases |m|
  {
    hide Sq;
    var y := Pick(m);
    if x != y {
      var a, b := m - multiset{y}, m - multiset{x};
      assert a - multiset{x} == b - multiset{y};
      WithoutTwo(m, x, y, a, b);
    }
  }

  lemma {:induction false} WithoutTwo(m: multiset<real>, x: real, y: real, a: multiset<real>, b: multiset<real>)
    requires x in m && y in m && x != y && |m| > 0 && y == Pick(m)
    requires a == m - multiset{y} && b == m - multiset{x} && a - multiset{x} == b - multiset{y}
    ensures Sum(m) == x + Sum(b) && Squares(m) == Sq(x) + Squares(b)
    decreases |m|, 0
  {
    hide Sq;
    assert |a| < |m| && |b| < |m|;
    Without(a, x);
    Without(b, y);
  }

  lemma With(m: multiset<real>, x: real)
    ensures Sum(m + multiset{x}) == Sum(m) + x && Squares(m + multiset{x}) == Squares(m) + Sq(x)
  {
    Without(m + multiset{x}, x);
    assert m + multiset{x} - multiset{x} == m;
  }

  function Expanded(squares: real, sum: real, n: real, c: real): real {
    squares - 2.0 * c * sum + c * c * n
  }

  lemma ExpandStep(squares: real, sum: real, n: real, c: real, x: real)
    ensures Sq(x - c) + Expanded(squares, sum, n, c) == Expanded(Sq(x) + squares, x + sum, n + 1.0, c)
  {
  }

  lemma {:induction false} DeviationsExpand(m: multiset<real>, c: real)
    ensures Deviations(m, c) == Expanded(Squares(m), Sum(m), |m| as real, c)
    decreases |m|
  {
    hide Expanded, Sq;
    if |m| == 0 {
      ExpandedNone(c);
    } else {
      var x, rest := Pick(m), m - multiset{Pick(m)};
      DeviationsExpand(rest, c);
      assert |m| as real == |rest| as real + 1.0;
      ExpandStep(Squares(rest), Sum(rest), |rest| as real, c, x);
    }
  }

  lemma ExpandedNone(c: real)
    ensures Expanded(0.0, 0.0, 0.0, c) == 0.0
  {
  }

  lemma {:induction false} SumUnion(a: multiset<real>, b: multiset<real>)
    ensures Sum(a + b) == Sum(a) + Sum(b) && Squares(a + b) == Squares(a) + Squares(b)
    decreases |b|
  {
    if |b| == 0 {
      assert a + b == a;
    } else {
      var x := Pick(b);
      SumUnion(a, b - multiset{x});
      With(a + (b - multiset{x}), x);
      assert a + (b - multiset{x}) + multiset{x} == a + b;
      Without(b, x);
    }
  }

  /** The deviations from the mean in terms of the raw moments. */
  lemma AboutMean(m: multiset<real>, mean: real)
    requires Times(mean, |m| as real) == Sum(m)
    ensures Deviations(m, mean) == Squares(m) - Times(Sq(mean), |m| as real)
  {
    DeviationsExpand(m, mean);
    hide Deviations, Squares, Sum;
    ExpandedMean(Squares(m), Sum(m), |m| as real, mean);
  }

  lemma ExpandedMean(squares: real, sum: real, n: real, mean: real)
    requires Times(mean, n) == sum
    ensures Expanded(squares, sum, n, mean) == squares - Times(Sq(mean), n)
  {
    assert mean * sum == mean * (mean * n);
  }

  // ---------------------------------------------------------------- the formulas of the source

  function Times(a: real, b: real): real {
    a * b
  }

  /** The product of the deviations from two means. */
  function Cross(x: real, a: real, b: real): real {
    (x - a) * (x - b)
  }

  function NextMean(mean: real, x: real, count: real): real
    requires count != 0.0
  {
    mean + (x - mean) / count
  }

  function OldMean(mean: real, x: real, count: real): real
    requires count != 1.0
  {
    (count * mean - x) / (count - 1.0)
  }

  function SwappedMean(mean: real, removed: real, added: real, count: real): real
    requires count != 0.0
  {
    (mean * count - removed + added) / count
  }

  function CombinedMean(m: real, n: real, k: real): real
    requires n + k != 0.0
  {
    (n * m + k * m) / (n + k)
  }

  function CombinedDeviations(s: real, s': real, delta: real, n: real, k: real): real
    requires n + k != 0.0
  {
    s + s' + (delta * delta * n * k) / (n + k)
  }

  // ---------------------------------------------------------------- the algebra of each update

  /** `mean` and `mS` are the mean and the squared deviations of `n` samples with these raw moments. */
  ghost predicate Tracks(n: real, sum: real, squares: real, mean: real, mS: real) {
    Times(mean, n) == sum && mS == squares - Times(Sq(mean), n)
  }

  lemma AddAlgebra(n: real, mean: real, x: real, next: real)
    requires next * (n + 1.0) == mean * n + x
    ensures Cross(x, mean, next) == Sq(x) + n * Sq(mean) - (n + 1.0) * Sq(next)
  {
    assert next * (next * (n + 1.0)) == next * (mean * n + x);
    assert mean * (next * (n + 1.0)) == mean * (mean * n + x);
  }

  lemma ReplaceAlgebra(n: real, mean: real, removed: real, added: real, next: real)
    requires next * n == mean * n - removed + added
    ensures Cross(added, mean, next) - Cross(removed, mean, next) ==
            Sq(added) - Sq(removed) + n * Sq(mean) - n * Sq(next)
  {
    assert next * (next * n) == next * (mean * n - removed + added);
    assert mean * (next * n) == mean * (mean * n - removed + added);
  }

  lemma CombineAlgebra(n: real, a: real, k: real, b: real, mean: real, delta: real)
    requires n + k > 0.0 && mean * (n + k) == a * n + b * k && delta == a - b
    ensures n * Sq(a) + k * Sq(b) - (n + k) * Sq(mean) == delta * delta * n * k / (n + k)
  {
    var both := n + k;
    var lhs := n * a * a + k * b * b - both * mean * mean;
    assert both * mean * mean * both == (mean * both) * (mean * both);
    assert lhs * both == delta * delta * n * k by {
      assert (a * n + b * k) * (a * n + b * k) == a * a * n * n + 2.0 * (a * b * n * k) + b * b * k * k;
      assert (n * a * a + k * b * b) * (n + k) == a * a * n * n + a * a * n * k + b * b * k * n + b * b * k * k;
      assert delta * delta * n * k == a * a * n * k - 2.0 * (a * b * n * k) + b * b * n * k;
    }
    assert lhs == lhs * both / both;
  }

  lemma Cancel(a: real, n: real)
    requires n != 0.0
    ensures a / n * n == a
  {
  }

  lemma TracksAdd(n: real, sum: real, squares: real, mean: real, mS: real, x: real)
    requires n >= 0.0 && Tracks(n, sum, squares, mean, mS)
    ensures var next := NextMean(mean, x, n + 1.0);
            Tracks(n + 1.0, sum + x, squares + Sq(x), next, mS + Cross(x, mean, next))
  {
    var next := NextMean(mean, x, n + 1.0);
    Cancel(x - mean, n + 1.0);
    assert next * (n + 1.0) == mean * (n + 1.0) + (x - mean);
    AddAlgebra(n, mean, x, next);
  }

  /** Removing is adding read backwards. */
  lemma TracksRemove(n: real, sum: real, squares: real, mean: real, mS: real, x: real)
    requires n > 0.0 && Tracks(n + 1.0, sum + x, squares + Sq(x), mean, mS)
    ensures var before := OldMean(mean, x, n + 1.0);
            Tracks(n, sum, squares, before, mS - Cross(x, mean, before))
  {
    var before := OldMean(mean, x, n + 1.0);
    Cancel((n + 1.0) * mean - x, n);
    assert before * n == (n + 1.0) * mean - x;
    AddAlgebra(n, before, x, mean);
    assert Cross(x, mean, before) == Cross(x, before, mean);
  }

  lemma TracksReplace(n: real, sum: real, squares: real, mean: real, mS: real, removed: real, added: real)
    requires n > 0.0 && Tracks(n, sum + removed, squares + Sq(removed), mean, mS)
    ensures var next := SwappedMean(mean, removed, added, n);
            Tracks(n, sum + added, squares + Sq(added), next,
                   mS - Cross(removed, mean, next) + Cross(added, mean, next))
  {
    var next := SwappedMean(mean, removed, added, n);
    Cancel(mean * n - removed + added, n);
    assert next * n == mean * n - removed + added;
    ReplaceAlgebra(n, mean, removed, added, next);
  }

  /** The deviations are exact about the true common mean, whatever the stored one. */
  lemma TracksCombine(n: real, sum: real, squares: real, a: real, s: real,
                      k: real, sum': real, squares': real, b: real, s': real)
    requires n + k > 0.0 && Tracks(n, sum, squares, a, s) && Tracks(k, sum', squares', b, s')
    ensures Tracks(n + k, sum + sum', squares + squares', (sum + sum') / (n + k),
                   CombinedDeviations(s, s', a - b, n, k))
  {
    var mean := (sum + sum') / (n + k);
    Cancel(sum + sum', n + k);
    CombineAlgebra(n, a, k, b, mean, a - b);
    assert Times(mean, n + k) == sum + sum';
    assert Times(Sq(a), n) + Times(Sq(b), k) - Times(Sq(mean), n + k) == CombinedDeviations(0.0, 0.0, a - b, n, k);
    CombinedApart(s, s', a - b, n, k);
    hide Times, Sq, CombinedDeviations;
  }

  lemma CombinedApart(s: real, s': real, delta: real, n: real, k: real)
    requires n + k > 0.0
    ensures CombinedDeviations(s, s', delta, n, k) == s + s' + CombinedDeviations(0.0, 0.0, delta, n, k)
  {
  }

  lemma CombinedMeanExact(n: real, sum: real, a: real, k: real, sum': real, b: real)
    requires n + k > 0.0 && Times(a, n) == sum && Times(b, k) == sum'
    ensures CombinedMean(a, n, k) == (sum + sum') / (n + k) <==> k == 0.0 || a == b
  {
    Cancel(n * a + k * a, n + k);
    Cancel(sum + sum', n + k);
    assert (n * a + k * a) - (sum + sum') == k * (a - b);
  }

  // ---------------------------------------------------------------- updates of a multiset

  /** Count, mean and sum of squared deviations, as the estimator keeps them. */
  ghost predicate Describes(m: multiset<real>, count: int, mean: real, mS: real) {
    count == |m| && Times(mean, count as real) == Sum(m) && mS == Deviations(m, mean)
  }

  lemma DescribesTracks(m: multiset<real>, mean: real, mS: real)
    ensures Describes(m, |m|, mean, mS) <==> Tracks(|m| as real, Sum(m), Squares(m), mean, mS)
  {
    hide Times, Sq, Sum, Squares, Deviations;
    if Times(mean, |m| as real) == Sum(m) {
      AboutMean(m, mean);
    }
  }

  lemma AddStep(m: multiset<real>, mean: real, mS: real, x: real)
    requires Describes(m, |m|, mean, mS)
    ensures var next := NextMean(mean, x, (|m| + 1) as real);
            Describes(m + multiset{x}, |m| + 1, next, mS + Cross(x, mean, next))
  {
    hide Describes, Tracks, Sum, Squares, NextMean, Cross;
    var n, next := |m| as real, NextMean(mean, x, (|m| + 1) as real);
    assert |m + multiset{x}| == |m| + 1;
    assert (|m| + 1) as real == n + 1.0;
    DescribesTracks(m, mean, mS);
    With(m, x);
    TracksAdd(n, Sum(m), Squares(m), mean, mS, x);
    DescribesTracks(m + multiset{x}, next, mS + Cross(x, mean, next));
  }

  lemma RemoveStep(rest: multiset<real>, mean: real, mS: real, x: real)
    requires |rest| > 0 && Describes(rest + multiset{x}, |rest| + 1, mean, mS)
    ensures var before := OldMean(mean, x, (|rest| + 1) as real);
            Describes(rest, |rest|, before, mS - Cross(x, mean, before))
  {
    hide Describes, Tracks, Sum, Squares, OldMean, Cross;
    var n, before := |rest| as real, OldMean(mean, x, (|rest| + 1) as real);
    assert |rest + multiset{x}| == |rest| + 1;
    assert (|rest| + 1) as real == n + 1.0;
    DescribesTracks(rest + multiset{x}, mean, mS);
    With(rest, x);
    TracksRemove(n, Sum(rest), Squares(rest), mean, mS, x);
    DescribesTracks(rest, before, mS - Cross(x, mean, before));
  }

  lemma ReplaceStep(rest: multiset<real>, mean: real, mS: real, removed: real, added: real)
    requires Describes(rest + multiset{removed}, |rest| + 1, mean, mS)
    ensures var next := SwappedMean(mean, removed, added, (|rest| + 1) as real);
            Describes(rest + multiset{added}, |rest| + 1, next,
                      mS - Cross(removed, mean, next) + Cross(added, mean, next))
  {
    hide Describes, Tracks, Sum, Squares, SwappedMean, Cross;
    var n, next := (|rest| + 1) as real, SwappedMean(mean, removed, added, (|rest| + 1) as real);
    var m, m' := rest + multiset{removed}, rest + multiset{added};
    assert |m| == |rest| + 1 && |m'| == |rest| + 1;
    DescribesTracks(m, mean, mS);
    With(rest, removed);
    With(rest, added);
    TracksReplace(n, Sum(rest), Squares(rest), mean, mS, removed, added);
    DescribesTracks(m', next, mS - Cross(removed, mean, next) + Cross(added, mean, next));
  }

  /** The mean a multiset really has. */
  ghost function Mean(m: multiset<real>): real
    requires |m| > 0
  {
    Sum(m) / (|m| as real)
  }

  lemma CombineStep(m: multiset<real>, a: real, s: real, m': multiset<real>, b: real, s': real)
    requires Describes(m, |m|, a, s) && Describes(m', |m'|, b, s') && |m| + |m'| > 0
    ensures |m + m'| == |m| + |m'|
    ensures CombinedDeviations(s, s', a - b, |m| as real, |m'| as real) == Deviations(m + m', Mean(m + m'))
    ensures CombinedMean(a, |m| as real, |m'| as real) == Mean(m + m') <==> |m'| == 0 || a == b
  {
    hide Deviations, Sum, Squares, CombinedDeviations, CombinedMean, Times;
    var n, k, mean := |m| as real, |m'| as real, Mean(m + m');
    SumUnion(m, m');
    DescribesTracks(m, a, s);
    DescribesTracks(m', b, s');
    TracksCombine(n, Sum(m), Squares(m), a, s, k, Sum(m'), Squares(m'), b, s');
    DescribesTracks(m + m', mean, CombinedDeviations(s, s', a - b, n, k));
    CombinedMeanExact(n, Sum(m), a, k, Sum(m'), b);
  }

  /** Only one mean and one sum of squared deviations describe a non-empty multiset. */
  lemma DescribesMean(m: multiset<real>, mean: real, mS: real)
    requires |m| > 0
    ensures Describes(m, |m|, mean, mS) <==> mean == Mean(m) && mS == Deviations(m, Mean(m))
  {
    hide Deviations, Sum;
    DividesBack(mean, |m| as real, Sum(m));
  }

  lemma DividesBack(mean: real, n: real, sum: real)
    requires n > 0.0
    ensures Times(mean, n) == sum <==> mean == sum / n
  {
    Cancel(sum, n);
    if Times(mean, n) == sum {
      assert (mean - sum / n) * n == 0.0;
    }
  }

  // ---------------------------------------------------------------- the estimator

  class OnlineNormalEstimator {
    var count: int
    var mean: real
    var mS: real
    /** Whether the mean and `mS` are NaN, as dividing zero by zero leaves them. */
    var nan: bool
    ghost var samples: multiset<real>

    ghost predicate Valid()
      reads this
    {
      !nan && Describes(samples, count, mean, mS) && (count == 0 ==> mean == 0.0)
    }

    constructor ()
      ensures Valid() && samples == multiset{}
    {
      count, mean, mS, nan := 0, 0.0, 0.0, false;
      samples := multiset{};
    }

    method Reset()
      modifies this
      ensures Valid() && samples == multiset{}
    {
      count, mean, mS, nan := 0, 0.0, 0.0, false;
      samples := multiset{};
    }

    method Add(x: real)
      requires Valid()
      modifies this
      ensures Valid() && samples == old(samples) + multiset{x}
    {
      assert count == |samples|;
      hide Describes, NextMean, Cross;
      AddStep(samples, mean, mS, x);
      count := count + 1;
      var nextMean := NextMean(mean, x, count as real);
      mS := mS + Cross(x, mean, nextMean);
      mean := nextMean;
      samples := samples + multiset{x};
    }

    /** Removes a value that is among the samples, in whatever order the samples came. */
    method Remove(x: real) returns (r: Outcome)
      requires Valid() && (count > 0 ==> x in samples)
      modifies this
      ensures Valid() && (r.RangeError? <==> |old(samples)| == 0)
      ensures samples == if r.Done? then old(samples) - multiset{x} else old(samples)
    {
      assert count == |samples|;
      DescribesNone();
      hide Describes, OldMean, Cross;
      if count == 0 {
        return RangeError("Cannot remove after 0 samples.");
      }
      ghost var rest := samples - multiset{x};
      assert samples == rest + multiset{x};
      assert |rest| == count - 1;
      if count == 1 {
        count, mean, mS := 0, 0.0, 0.0;
        assert rest == multiset{};
      } else {
        RemoveStep(rest, mean, mS, x);
        var oldMean := OldMean(mean, x, count as real);
        mS := mS - Cross(x, mean, oldMean);
        mean := oldMean;
        count := count - 1;
      }
      samples := rest;
      return Done;
    }

    method Replace(oldValue: Option<real>, newValue: real)
      requires Valid() && (count > 0 && oldValue.Some? ==> oldValue.value in samples)
      modifies this
      ensures Valid()
      ensures samples == (if |old(samples)| == 0 || oldValue.None? then old(samples)
                          else old(samples) - multiset{oldValue.value}) + multiset{newValue}
    {
      assert count == |samples|;
      hide Describes, SwappedMean, Cross;
      if count == 0 || oldValue == None {
        Add(newValue);
        return;
      }
      var prevM, removed := mean, oldValue.value;
      ghost var rest := samples - multiset{removed};
      assert samples == rest + multiset{removed};
      assert |rest| == count - 1;
      ReplaceStep(rest, mean, mS, removed, newValue);
      mean := SwappedMean(prevM, removed, newValue, count as real);
      mS := mS - Cross(removed, prevM, mean);
      mS := mS + Cross(newValue, prevM, mean);
      samples := rest + multiset{newValue};
    }

    /** The combined sum of squared deviations is that of both sample sets together; the mean, which
        weights both counts by one mean, is right only if the other estimator is empty or has the
        same mean. Two empty estimators combine to one that is no number any more. */
    method Combine(that: OnlineNormalEstimator)
      requires Valid() && that.Valid()
      modifies this
      ensures samples == old(samples + that.samples) && count == |samples|
      ensures nan <==> |samples| == 0
      ensures |samples| > 0 ==> mS == Deviations(samples, Mean(samples))
      ensures Valid() <==> |samples| > 0 && (|old(that.samples)| == 0 || old(that.mean == mean))
    {
      assert count == |samples| && that.count == |that.samples|;
      hide Describes, CombinedMean, CombinedDeviations, Deviations, Mean;
      ghost var both := samples + that.samples;
      if count + that.count == 0 {
        nan := true;
      } else {
        CombineStep(samples, mean, mS, that.samples, that.mean, that.mS);
        var n, k, delta := count as real, that.count as real, mean - that.mean;
        mS := CombinedDeviations(mS, that.mS, delta, n, k);
        mean := CombinedMean(mean, n, k);
        count := count + that.count;
        DescribesMean(both, mean, mS);
      }
      samples := both;
    }

    /** The average squared deviation; zero below two samples. */
    function Variance(): (v: real)
      requires Valid()
      reads this
      ensures count > 0 ==> v == Deviations(samples, Mean(samples)) / (count as real)
    {
      assert count == 1 ==> Deviations(samples, Mean(samples)) == 0.0 by {
        if count == 1 { AloneAtMean(samples); }
      }
      assert count > 0 ==> mS == Deviations(samples, Mean(samples)) by {
        if count > 0 { DescribesMean(samples, mean, mS); }
      }
      if count > 1 then mS / (count as real) else 0.0
    }

    function VarianceUnbiased(): (v: real)
      requires Valid()
      reads this
      ensures v == if count > 1 then Deviations(samples, Mean(samples)) / ((count - 1) as real) else 0.0
    {
      assert count > 0 ==> mS == Deviations(samples, Mean(samples)) by {
        if count > 0 { DescribesMean(samples, mean, mS); }
      }
      if count > 1 then mS / ((count - 1) as real) else 0.0
    }
  }

  lemma DescribesNone()
    ensures Describes(multiset{}, 0, 0.0, 0.0)
  {
  }

  lemma AloneAtMean(m: multiset<real>)
    requires |m| == 1
    ensures Deviations(m, Mean(m)) == 0.0
  {
    var x := Pick(m);
    var rest := m - multiset{x};
    assert |rest| == 0;
    assert Sum(m) == x + Sum(rest) == x;
    assert Mean(m) == x / 1.0 == x;
    assert Sq(x - x) == 0.0;
  }
}
