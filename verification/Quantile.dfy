/** Quantiles, the median and the median absolute deviation of a sample, over exact reals. */
module Quantile {
  import opened Optional
  import opened Rounding

  /** What the functions return: a number, `undefined`, `NaN`, or a thrown TypeError. */
  datatype Outcome = Value(value: real) | Undefined | NotANumber | TypeError

  // ---------------------------------------------------------------- sorting a copy

  predicate Ascending(s: seq<real>) {
    forall i, j :: 0 <= i <= j < |s| ==> s[i] <= s[j]
  }

  function Insert(x: real, s: seq<real>): (r: seq<real>)
    ensures |r| == |s| + 1
  {
    if s == [] || x <= s[0] then [x] + s else [s[0]] + Insert(x, s[1..])
  }

  function SortedCopy(s: seq<real>): (r: seq<real>)
    ensures |r| == |s|
  {
    if s == [] then [] else Insert(s[0], SortedCopy(s[1..]))
  }

  lemma {:induction false} InsertAbove(x: real, s: seq<real>, low: real)
    requires low <= x && forall k :: 0 <= k < |s| ==> low <= s[k]
    ensures forall k :: 0 <= k < |Insert(x, s)| ==> low <= Insert(x, s)[k]
  {
    if s != [] && x > s[0] {
      InsertAbove(x, s[1..], low);
    }
  }

  lemma {:induction false} InsertAscending(x: real, s: seq<real>)
    requires Ascending(s)
    ensures Ascending(Insert(x, s))
  {
    if s != [] && x > s[0] {
      InsertAscending(x, s[1..]);
      InsertAbove(x, s[1..], s[0]);
    }
  }

  lemma {:induction false} InsertSame(x: real, s: seq<real>)
    ensures multiset(Insert(x, s)) == multiset(s) + multiset{x}
  {
    if s != [] && x > s[0] {
      InsertSame(x, s[1..]);
      assert s == [s[0]] + s[1..];
    }
  }

  /** The copy is the same sample in ascending order. */
  lemma {:induction false} SortedCopySorts(s: seq<real>)
    ensures Ascending(SortedCopy(s)) && multiset(SortedCopy(s)) == multiset(s)
  {
    if s != [] {
      SortedCopySorts(s[1..]);
      InsertAscending(s[0], SortedCopy(s[1..]));
      InsertSame(s[0], SortedCopy(s[1..]));
      assert s == [s[0]] + s[1..];
    }
  }

  // ---------------------------------------------------------------- the functions of the source

  /** `arr[i]`, which is undefined out of range. */
  function At(s: seq<real>, i: int): Option<real> {
    if 0 <= i < |s| then Some(s[i]) else None
  }

  function Found(x: Option<real>): Outcome {
    if x.Some? then Value(x.value) else Undefined
  }

  /** The mean of two places; adding `undefined` gives `NaN`. */
  function Midway(a: Option<real>, b: Option<real>): Outcome {
    if a.Some? && b.Some? then Value((a.value + b.value) / 2.0) else NotANumber
  }

  function Position(n: int, p: real): real {
    n as real * p
  }

  function Quantile(arr: seq<real>, p: real, sorted: bool): Outcome {
    if p < 0.0 || p > 1.0 then TypeError
    else
      var s := if sorted then arr else SortedCopy(arr);
      if p == 0.0 then Found(At(s, 0))
      else if p == 1.0 then Found(At(s, |s| - 1))
      else
        var id := Position(|s|, p) - 1.0;
        if id == id.Floor as real then Midway(At(s, id.Floor), At(s, id.Floor + 1))
        else Found(At(s, Ceil(id)))
  }

  function Median(arr: seq<real>, sorted: bool): Outcome {
    var n := |arr|;
    if n == 0 then Undefined
    else if n == 1 then Value(arr[0])
    else if n == 2 then Value((arr[0] + arr[1]) / 2.0)
    else
      var s := if sorted then arr else SortedCopy(arr);
      if n % 2 == 1 then Found(At(s, n / 2)) else Midway(At(s, n / 2 - 1), At(s, n / 2))
  }

  function Abs(x: real): real {
    if x < 0.0 then -x else x
  }

  function Deviations(arr: seq<real>, center: real): (r: seq<real>)
    ensures |r| == |arr| && forall i :: 0 <= i < |arr| ==> r[i] == Abs(arr[i] - center)
  {
    seq(|arr|, i requires 0 <= i < |arr| => Abs(arr[i] - center))
  }

  /** A data median of zero counts as none given. */
  function Center(arr: seq<real>, sorted: bool, dataMedian: Option<real>): Outcome {
    if dataMedian.Some? && dataMedian.value != 0.0 then Value(dataMedian.value) else Median(arr, sorted)
  }

  function MedianAbsoluteDeviation(arr: seq<real>, sorted: bool, dataMedian: Option<real>): Outcome {
    if |arr| == 0 then Undefined
    else if |arr| == 1 then Value(0.0)
    else
      var c := Center(arr, sorted, dataMedian);
      if c.Value? then Median(Deviations(arr, c.value), false) else NotANumber
  }

  // ---------------------------------------------------------------- counting

  function AtMost(s: seq<real>, r: real): nat {
    if s == [] then 0 else AtMost(s[1..], r) + if s[0] <= r then 1 else 0
  }

  function AtLeast(s: seq<real>, r: real): nat {
    if s == [] then 0 else AtLeast(s[1..], r) + if s[0] >= r then 1 else 0
  }

  lemma {:induction false} InsertCounts(x: real, s: seq<real>, r: real)
    ensures AtMost(Insert(x, s), r) == AtMost(s, r) + (if x <= r then 1 else 0)
    ensures AtLeast(Insert(x, s), r) == AtLeast(s, r) + (if x >= r then 1 else 0)
  {
    if s == [] || x <= s[0] {
      assert ([x] + s)[1..] == s;
    } else {
      InsertCounts(x, s[1..], r);
      assert ([s[0]] + Insert(x, s[1..]))[1..] == Insert(x, s[1..]);
    }
  }

  lemma {:induction false} SortedCopyCounts(s: seq<real>, r: real)
    ensures AtMost(SortedCopy(s), r) == AtMost(s, r) && AtLeast(SortedCopy(s), r) == AtLeast(s, r)
  {
    if s != [] {
      SortedCopyCounts(s[1..], r);
      InsertCounts(s[0], SortedCopy(s[1..]), r);
    }
  }

  lemma {:induction false} PrefixCounts(s: seq<real>, r: real, k: nat)
    requires k <= |s| && forall i :: 0 <= i < k ==> s[i] <= r
    ensures AtMost(s, r) >= k
  {
    if k > 0 {
      PrefixCounts(s[1..], r, k - 1);
    }
  }

  lemma {:induction false} SuffixCounts(s: seq<real>, r: real, k: nat)
    requires k <= |s| && forall i :: k <= i < |s| ==> s[i] >= r
    ensures AtLeast(s, r) >= |s| - k
  {
    if s != [] {
      SuffixCounts(s[1..], r, if k == 0 then 0 else k - 1);
    }
  }

  // ---------------------------------------------------------------- what a quantile is

  /** At least a `p`-th of the sample is at most `r` and at least the rest is at least `r`. */
  predicate IsQuantile(s: seq<real>, p: real, r: real) {
    AtMost(s, r) as real >= Position(|s|, p) && AtLeast(s, r) as real >= Position(|s|, 1.0 - p)
  }

  /** The places a quantile is read from are in range, and `n * p` is where it should be. */
  lemma IndicesInRange(n: int, p: real)
    requires n > 0 && 0.0 < p < 1.0
    ensures var id := Position(n, p) - 1.0;
            var k := id.Floor;
            && (id == k as real ==> 0 <= k && k + 1 < n && (k + 1) as real == Position(n, p))
            && (id != k as real ==> 0 <= Ceil(id) < n && Ceil(id) as real <= Position(n, p) <= (Ceil(id) + 1) as real)
  {
    Scaled(n as real, p);
    var x := Position(n, p);
    assert 0.0 < x < n as real;
    hide Position;
    var id := x - 1.0;
    var k := id.Floor;
    assert k as real <= id < (k + 1) as real;
    if id != k as real {
      assert (-id).Floor == -k - 1;
    }
  }

  lemma Between(s: seq<real>, k: nat, r: real)
    requires Ascending(s) && k < |s|
    ensures s[k] <= r ==> AtMost(s, r) >= k + 1
    ensures s[k] >= r ==> AtLeast(s, r) >= |s| - k
  {
    if s[k] <= r {
      PrefixCounts(s, r, k + 1);
    }
    if s[k] >= r {
      SuffixCounts(s, r, k);
    }
  }

  lemma Rest(n: int, p: real)
    ensures Position(n, 1.0 - p) == n as real - Position(n, p)
  {
  }

  /** The three ways in which the result is read off an ascending sample. */
  lemma ReadAtIndex(s: seq<real>, p: real, k: nat)
    requires Ascending(s) && k < |s| && k as real <= Position(|s|, p) <= (k + 1) as real
    ensures IsQuantile(s, p, s[k])
  {
    Rest(|s|, p);
    hide Position;
    Between(s, k, s[k]);
  }

  lemma ReadMidway(s: seq<real>, p: real, k: nat)
    requires Ascending(s) && k + 1 < |s| && (k + 1) as real == Position(|s|, p)
    ensures IsQuantile(s, p, (s[k] + s[k + 1]) / 2.0)
  {
    var r := (s[k] + s[k + 1]) / 2.0;
    assert s[k] <= r <= s[k + 1];
    Rest(|s|, p);
    hide Position;
    Between(s, k, r);
    Between(s, k + 1, r);
  }

  lemma Ends(n: int)
    ensures Position(n, 0.0) == 0.0 && Position(n, 1.0) == n as real
  {
  }

  lemma PositionNone(p: real)
    ensures Position(0, p) == 0.0
  {
  }

  lemma QuantileOfAscending(s: seq<real>, p: real)
    requires Ascending(s) && s != [] && 0.0 <= p <= 1.0
    ensures var q := Quantile(s, p, true);
            q.Value? && IsQuantile(s, p, q.value)
  {
    Ends(|s|);
    hide IsQuantile, Ascending, SortedCopy, Position;
    var n := |s|;
    if p == 0.0 {
      ReadAtIndex(s, p, 0);
    } else if p == 1.0 {
      ReadAtIndex(s, p, n - 1);
    } else {
      IndicesInRange(n, p);
      var id := Position(n, p) - 1.0;
      if id == id.Floor as real {
        ReadMidway(s, p, id.Floor);
      } else {
        ReadAtIndex(s, p, Ceil(id));
      }
    }
  }

  lemma SameShare(s: seq<real>, arr: seq<real>, p: real, r: real)
    requires |s| == |arr| && AtMost(s, r) == AtMost(arr, r) && AtLeast(s, r) == AtLeast(arr, r)
    requires IsQuantile(s, p, r)
    ensures IsQuantile(arr, p, r)
  {
    hide Position, AtMost, AtLeast;
  }

  /** For a non-empty sample every probability in range has a value, with the right share of the
      sample on each side; `sorted` must be true of the sample if it is claimed. */
  lemma QuantileCorrect(arr: seq<real>, p: real, sorted: bool)
    requires sorted ==> Ascending(arr)
    ensures Quantile(arr, p, sorted) == TypeError <==> p < 0.0 || p > 1.0
    ensures arr != [] && 0.0 <= p <= 1.0 ==>
              Quantile(arr, p, sorted).Value? && IsQuantile(arr, p, Quantile(arr, p, sorted).value)
    ensures arr == [] && 0.0 <= p <= 1.0 ==>
              Quantile(arr, p, sorted) == if p == 0.0 || p == 1.0 then Undefined else NotANumber
  {
    hide Ascending, SortedCopy, AtMost, AtLeast, IsQuantile, Position;
    Ends(0);
    PositionNone(p);
    CopyLength(arr);
    if arr != [] && 0.0 <= p <= 1.0 {
      var s := if sorted then arr else SortedCopy(arr);
      SortedCopySorts(arr);
      SortedFirst(arr, p, sorted, s);
      QuantileOfAscending(s, p);
      SortedCopyCounts(arr, Quantile(s, p, true).value);
      SameShare(s, arr, p, Quantile(s, p, true).value);
    }
  }

  /** The two places, often the same, that a quantile is the mean of. */
  function LowPlace(n: int, p: real): int {
    var x := Position(n, p);
    if p == 0.0 then 0 else if p == 1.0 then n - 1 else if x == x.Floor as real then x.Floor - 1 else x.Floor
  }

  function HighPlace(n: int, p: real): int {
    if p == 0.0 then 0 else if p == 1.0 then n - 1 else Position(n, p).Floor
  }

  lemma QuantilePlaces(s: seq<real>, p: real)
    requires s != [] && 0.0 <= p <= 1.0
    ensures var lo, hi := LowPlace(|s|, p), HighPlace(|s|, p);
            0 <= lo <= hi < |s| && Quantile(s, p, true) == Value((s[lo] + s[hi]) / 2.0)
  {
    if 0.0 < p < 1.0 {
      IndicesInRange(|s|, p);
      hide Position;
      var x := Position(|s|, p);
      assert (x - 1.0).Floor == x.Floor - 1;
      assert x != x.Floor as real ==> (-(x - 1.0)).Floor == -x.Floor;
    }
  }

  lemma PositionMono(n: int, p: real, q: real)
    requires n > 0 && p <= q
    ensures Position(n, p) <= Position(n, q)
  {
    assert (q - p) * n as real >= 0.0;
  }

  /** A higher probability never gives a lower quantile. */
  lemma QuantileMonotone(arr: seq<real>, p: real, q: real, sorted: bool)
    requires arr != [] && 0.0 <= p <= q <= 1.0 && (sorted ==> Ascending(arr))
    ensures Quantile(arr, p, sorted).Value? && Quantile(arr, q, sorted).Value?
    ensures Quantile(arr, p, sorted).value <= Quantile(arr, q, sorted).value
  {
    var s := if sorted then arr else SortedCopy(arr);
    SortedCopySorts(arr);
    QuantilePlaces(s, p);
    QuantilePlaces(s, q);
    PlacesMono(|s|, p, q);
    hide LowPlace, HighPlace, Position, SortedCopy;
    assert Quantile(arr, p, sorted) == Quantile(s, p, true) && Quantile(arr, q, sorted) == Quantile(s, q, true);
  }

  lemma PlacesMono(n: int, p: real, q: real)
    requires n > 0 && 0.0 <= p <= q <= 1.0
    ensures LowPlace(n, p) <= LowPlace(n, q) && HighPlace(n, p) <= HighPlace(n, q)
  {
    PositionMono(n, p, q);
    if 0.0 < p < 1.0 {
      IndicesInRange(n, p);
    }
    if 0.0 < q < 1.0 {
      IndicesInRange(n, q);
    }
    hide Position;
    var x, y := Position(n, p), Position(n, q);
    assert x.Floor <= y.Floor;
    assert (x - 1.0).Floor == x.Floor - 1 && (y - 1.0).Floor == y.Floor - 1;
  }

  /** The median is the quantile at one half, though it is computed differently. */
  lemma MedianIsHalfQuantile(arr: seq<real>, sorted: bool)
    requires arr != [] && (sorted ==> Ascending(arr))
    ensures Median(arr, sorted) == Quantile(arr, 0.5, sorted)
  {
    var n := |arr|;
    var s := if sorted then arr else SortedCopy(arr);
    var id := Position(n, 0.5) - 1.0;
    var m := n / 2;
    if n % 2 == 1 {
      assert n as real == 2.0 * m as real + 1.0;
      assert id == m as real - 0.5;
      assert id.Floor == m - 1 && (-id).Floor == -m;
    } else {
      assert n as real == 2.0 * m as real;
      assert id == m as real - 1.0;
      assert id.Floor == m - 1;
    }
    if n == 1 {
      assert SortedCopy(arr) == [arr[0]];
    } else if n == 2 {
      SortedPair(arr);
    }
  }

  lemma SortedPair(arr: seq<real>)
    requires |arr| == 2
    ensures var s := SortedCopy(arr); s[0] + s[1] == arr[0] + arr[1]
  {
    var one := arr[1..];
    assert one == [arr[1]] && one[1..] == [];
    assert SortedCopy(one) == Insert(arr[1], []) == [arr[1]];
    assert [arr[1]][1..] == [];
    assert Insert(arr[0], []) == [arr[0]];
    assert Insert(arr[0], [arr[1]]) == if arr[0] <= arr[1] then [arr[0]] + [arr[1]] else [arr[1]] + [arr[0]];
  }

  // ---------------------------------------------------------------- the middle of a sample

  /** `v` is at place `k` of the sample in ascending order, the first place being 0. */
  predicate IsPlace(s: seq<real>, k: int, v: real) {
    v in s && AtMost(s, v) >= k + 1 && AtLeast(s, v) >= |s| - k
  }

  lemma {:induction false} CountsApart(s: seq<real>, v: real, w: real)
    requires v < w
    ensures AtMost(s, v) + AtLeast(s, w) <= |s|
  {
    if s != [] {
      CountsApart(s[1..], v, w);
    }
  }

  lemma PlaceUnique(s: seq<real>, k: int, v: real, w: real)
    requires IsPlace(s, k, v) && IsPlace(s, k, w)
    ensures v == w
  {
    if v < w {
      CountsApart(s, v, w);
    } else if w < v {
      CountsApart(s, w, v);
    }
  }

  lemma PlaceInCopy(arr: seq<real>, sorted: bool, k: nat)
    requires k < |arr| && (sorted ==> Ascending(arr))
    ensures IsPlace(arr, k, (if sorted then arr else SortedCopy(arr))[k])
  {
    var s := if sorted then arr else SortedCopy(arr);
    SortedCopySorts(arr);
    SortedCopyCounts(arr, s[k]);
    assert s[k] in multiset(s) && multiset(s) == multiset(arr);
    Between(s, k, s[k]);
  }

  /** The two middle places, which are one if the sample is odd. */
  predicate AreMiddle(s: seq<real>, lo: real, hi: real) {
    IsPlace(s, (|s| - 1) / 2, lo) && IsPlace(s, |s| / 2, hi)
  }

  ghost predicate IsMedian(s: seq<real>, m: real) {
    exists lo, hi :: AreMiddle(s, lo, hi) && m == (lo + hi) / 2.0
  }

  lemma MedianUnique(s: seq<real>, m: real, m': real)
    requires IsMedian(s, m) && IsMedian(s, m')
    ensures m == m'
  {
    hide IsPlace;
    var lo, hi :| AreMiddle(s, lo, hi) && m == (lo + hi) / 2.0;
    var lo', hi' :| AreMiddle(s, lo', hi') && m' == (lo' + hi') / 2.0;
    PlaceUnique(s, (|s| - 1) / 2, lo, lo');
    PlaceUnique(s, |s| / 2, hi, hi');
  }

  lemma HalfPlaces(n: int)
    requires n > 0
    ensures LowPlace(n, 0.5) == (n - 1) / 2 && HighPlace(n, 0.5) == n / 2
  {
    var m := n / 2;
    if n % 2 == 1 {
      assert Position(n, 0.5) == m as real + 0.5 && (m as real + 0.5).Floor == m;
    } else {
      assert Position(n, 0.5) == m as real && (m as real).Floor == m;
    }
  }

  lemma SortedFirst(arr: seq<real>, p: real, sorted: bool, s: seq<real>)
    requires s == if sorted then arr else SortedCopy(arr)
    ensures |s| == |arr| && Quantile(arr, p, sorted) == Quantile(s, p, true)
  {
    hide SortedCopy, Position;
    CopyLength(arr);
  }

  lemma CopyLength(arr: seq<real>)
    ensures |SortedCopy(arr)| == |arr|
  {
    hide SortedCopy;
    SortedCopySorts(arr);
    SameSize(SortedCopy(arr), arr);
  }

  lemma SameSize(a: seq<real>, b: seq<real>)
    requires multiset(a) == multiset(b)
    ensures |a| == |b|
  {
    assert |multiset(a)| == |a| && |multiset(b)| == |b|;
  }

  lemma MedianOfPlaces(arr: seq<real>, sorted: bool, s: seq<real>)
    requires arr != [] && (sorted ==> Ascending(arr)) && s == if sorted then arr else SortedCopy(arr)
    ensures |s| == |arr| && Median(arr, sorted) == Value((s[(|s| - 1) / 2] + s[|s| / 2]) / 2.0)
  {
    hide *;
    SortedFirst(arr, 0.5, sorted, s);
    MedianIsHalfQuantile(arr, sorted);
    QuantilePlaces(s, 0.5);
    HalfPlaces(|s|);
  }

  /** The median is midway between the middle places, and nothing else is. */
  lemma MedianExact(arr: seq<real>, sorted: bool)
    requires arr != [] && (sorted ==> Ascending(arr))
    ensures Median(arr, sorted).Value?
    ensures forall m :: Median(arr, sorted) == Value(m) <==> IsMedian(arr, m)
  {
    hide Median, SortedCopy, IsPlace, Ascending;
    var n := |arr|;
    var s := if sorted then arr else SortedCopy(arr);
    PlaceInCopy(arr, sorted, (n - 1) / 2);
    PlaceInCopy(arr, sorted, n / 2);
    MedianOfPlaces(arr, sorted, s);
    assert AreMiddle(arr, s[(n - 1) / 2], s[n / 2]);
    var m := (s[(n - 1) / 2] + s[n / 2]) / 2.0;
    assert IsMedian(arr, m);
    hide IsMedian, AreMiddle;
    forall m' | IsMedian(arr, m')
      ensures m' == m
    {
      MedianUnique(arr, m, m');
    }
  }

  // ---------------------------------------------------------------- the median absolute deviation

  /** How many samples lie within `m` of `center`. */
  function Within(arr: seq<real>, center: real, m: real): nat {
    if arr == [] then 0 else Within(arr[1..], center, m) + if Abs(arr[0] - center) <= m then 1 else 0
  }

  function Beyond(arr: seq<real>, center: real, m: real): nat {
    if arr == [] then 0 else Beyond(arr[1..], center, m) + if Abs(arr[0] - center) >= m then 1 else 0
  }

  lemma {:induction false} WithinCounts(arr: seq<real>, center: real, m: real)
    ensures AtMost(Deviations(arr, center), m) == Within(arr, center, m)
    ensures AtLeast(Deviations(arr, center), m) == Beyond(arr, center, m)
  {
    if arr != [] {
      WithinCounts(arr[1..], center, m);
      assert Deviations(arr, center)[1..] == Deviations(arr[1..], center);
    }
  }

  /** At least half of the sample lies within the deviation of the centre, and at least half lies no
      nearer. The centre is the given data median, or the median if none, or zero, is given. */
  lemma HalfWithinDeviation(arr: seq<real>, sorted: bool, dataMedian: Option<real>)
    requires |arr| > 1 && (sorted ==> Ascending(arr))
    ensures var c, mad := Center(arr, sorted, dataMedian), MedianAbsoluteDeviation(arr, sorted, dataMedian);
            && c.Value? && mad.Value?
            && (if dataMedian.Some? && dataMedian.value != 0.0 then c == Value(dataMedian.value)
                else IsMedian(arr, c.value))
            && 2 * Within(arr, c.value, mad.value) >= |arr| && 2 * Beyond(arr, c.value, mad.value) >= |arr|
  {
    hide Median, IsMedian, Ascending, SortedCopy, AtMost, AtLeast, Within, Beyond, Position, IsQuantile;
    MedianExact(arr, sorted);
    var c := Center(arr, sorted, dataMedian).value;
    var d := Deviations(arr, c);
    MedianExact(d, false);
    MedianIsHalfQuantile(d, false);
    QuantileCorrect(d, 0.5, false);
    var mad := MedianAbsoluteDeviation(arr, sorted, dataMedian).value;
    WithinCounts(arr, c, mad);
    SharesOfHalf(d, mad);
  }

  lemma SharesOfHalf(d: seq<real>, r: real)
    requires IsQuantile(d, 0.5, r)
    ensures 2 * AtMost(d, r) >= |d| && 2 * AtLeast(d, r) >= |d|
  {
    hide AtMost, AtLeast;
    Halves(AtMost(d, r), AtLeast(d, r), |d|);
  }

  /** Each sample's distance from `c`. */
  predicate AreDistances(arr: seq<real>, c: real, ds: seq<real>) {
    |ds| == |arr| &&
    forall i :: 0 <= i < |arr| ==> ds[i] >= 0.0 && (ds[i] == arr[i] - c || ds[i] == c - arr[i])
  }

  /** The deviation is the median of the distances from the given median, or from the true one if
      none, or zero, is given. */
  lemma DeviationExact(arr: seq<real>, sorted: bool, dataMedian: Option<real>) returns (c: real, ds: seq<real>)
    requires |arr| > 1 && (sorted ==> Ascending(arr))
    ensures if dataMedian.Some? && dataMedian.value != 0.0 then c == dataMedian.value else IsMedian(arr, c)
    ensures AreDistances(arr, c, ds)
    ensures forall m :: MedianAbsoluteDeviation(arr, sorted, dataMedian) == Value(m) <==> IsMedian(ds, m)
  {
    hide Median, IsMedian, Ascending;
    MedianExact(arr, sorted);
    c := Center(arr, sorted, dataMedian).value;
    ds := Deviations(arr, c);
    MedianExact(ds, false);
  }

  /** The given data median is the centre exactly if it is not zero, or the true median is zero too. */
  lemma CenterExact(arr: seq<real>, sorted: bool, m: real)
    requires arr != []
    ensures Center(arr, sorted, Some(m)) == Value(m) <==> m != 0.0 || Median(arr, sorted) == Value(0.0)
  {
  }

  /** So the deviation about a given zero can be wrong: half of this sample lies within 1.5 of zero,
      and the result is 0.5. */
  lemma ZeroMedianIgnored()
    ensures var arr := [1.0, 2.0];
            && Center(arr, true, Some(0.0)) == Value(1.5)
            && MedianAbsoluteDeviation(arr, true, Some(0.0)) == Value(0.5)
            && Median(Deviations(arr, 0.0), false) == Value(1.5)
  {
    var arr := [1.0, 2.0];
    assert Deviations(arr, 0.0)[0] == 1.0 && Deviations(arr, 0.0)[1] == 2.0;
    assert Deviations(arr, 1.5)[0] == 0.5 && Deviations(arr, 1.5)[1] == 0.5;
  }

  lemma Halves(a: nat, b: nat, n: nat)
    requires a as real >= Position(n, 0.5) && b as real >= Position(n, 1.0 - 0.5)
    ensures 2 * a >= n && 2 * b >= n
  {
    assert (2 * a) as real >= n as real && (2 * b) as real >= n as real;
  }

  /** A single sample has deviation zero whatever median is claimed, so the claimed median need not be
      near it; about the true median the share holds for every non-empty sample. */
  lemma SingleSample(arr: seq<real>, sorted: bool, dataMedian: Option<real>)
    requires |arr| == 1
    ensures MedianAbsoluteDeviation(arr, sorted, dataMedian) == Value(0.0)
    ensures var c := Center(arr, sorted, dataMedian);
            c.Value? && (2 * Within(arr, c.value, 0.0) >= |arr| <==> c.value == arr[0])
  {
    assert arr[1..] == [];
  }
}
