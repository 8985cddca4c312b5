/** Change over two windows: the newest window against an equally long one further back. */
module ChangeEvaluator {
  import opened Alignment
  import opened Timeline
  import opened ChunkedStore
  import ChunkLayout
  import ChunkRuns
  import opened Optional

  const TRIM_THRESHOLD := 15

  /** Intervals are as the design assumes them: windows and shifts of whole samples. */
  datatype Options = Options(windowSize: int, timeShift: int, sampleInterval: int, usePercentage: bool) {
    predicate Valid() {
      && sampleInterval > 0 && windowSize > 0 && timeShift >= 0
      && Multiple(windowSize, sampleInterval) && Multiple(timeShift, sampleInterval)
    }

    function FullWindow(): int {
      2 * windowSize + timeShift
    }

    /** How many samples a window has. */
    function Samples(): (n: nat)
      requires Valid()
    {
      windowSize / sampleInterval
    }
  }

  // ---------------------------------------------------------------- recomputing from the complete log

  predicate Measurements(o: Options, all: seq<Entry<real>>)
    requires o.Valid()
  {
    Sorted(all) && forall i :: 0 <= i < |all| ==> all[i].ts >= 0 && Multiple(all[i].ts, o.sampleInterval)
  }

  lemma MeasurementsSorted(o: Options, all: seq<Entry<real>>)
    requires o.Valid() && Measurements(o, all)
    ensures Sorted(all)
  {
  }

  predicate Spans(o: Options, all: seq<Entry<real>>) {
    all != [] && all[|all| - 1].ts - all[0].ts >= o.FullWindow()
  }

  function Delta(o: Options, current: real, previous: real): real {
    if o.usePercentage then if previous == 0.0 then 0.0 else (current - previous) / previous
    else current - previous
  }

  /** The differences of the values last written exactly `timeShift + windowSize` apart, for the
      first `n` samples of the window that ends before `now`. */
  function Diffs(o: Options, all: seq<Entry<real>>, now: int, n: nat): seq<real>
  {
    if n == 0 then []
    else
      var at := now - o.windowSize + o.sampleInterval * (n - 1);
      var current, previous := LastAt(all, at), LastAt(all, at - o.timeShift - o.windowSize);
      Diffs(o, all, now, n - 1) +
      (if current.Some? && previous.Some? then [Delta(o, current.value, previous.value)] else [])
  }

  function Recompute(o: Options, calculate: seq<real> -> real, all: seq<Entry<real>>): real
    requires o.Valid()
  {
    if !Spans(o, all) then 0.0
    else
      var diffs := Diffs(o, all, all[|all| - 1].ts, o.Samples());
      if diffs == [] then 0.0 else calculate(diffs)
  }

  lemma {:induction false} DiffsAgree(o: Options, a: seq<Entry<real>>, b: seq<Entry<real>>, now: int, n: nat)
    requires o.Valid() && n <= o.Samples()
    requires forall k :: now - o.FullWindow() <= k < now ==> LastAt(a, k) == LastAt(b, k)
    ensures Diffs(o, a, now, n) == Diffs(o, b, now, n)
  {
    if n > 0 {
      DiffsAgree(o, a, b, now, n - 1);
      MulMono(o.sampleInterval, 0, n - 1);
      MulMono(o.sampleInterval, n, o.Samples());
      assert o.sampleInterval * (n - 1) == o.sampleInterval * n - o.sampleInterval;
    }
  }

  /** Writing the newest timestamp again changes no answer: the window ends before it. */
  lemma RepeatedTimestamp(o: Options, calculate: seq<real> -> real, all: seq<Entry<real>>, e: Entry<real>)
    requires o.Valid() && all != [] && e.ts == all[|all| - 1].ts
    ensures Recompute(o, calculate, all + [e]) == Recompute(o, calculate, all)
  {
    forall k | k < e.ts ensures LastAt(all + [e], k) == LastAt(all, k) {
      assert (all + [e])[..|all + [e]| - 1] == all;
    }
    DiffsAgree(o, all + [e], all, e.ts, o.Samples());
  }

  // ---------------------------------------------------------------- what a change is

  /** `r` is the change from `previous` to `current`, as a difference or as a share of `previous`. */
  predicate IsDelta(percentage: bool, previous: real, current: real, r: real) {
    if !percentage then previous + r == current
    else if previous == 0.0 then r == 0.0
    else previous * (1.0 + r) == current
  }

  /** The value last written for sample `k` of the window that starts at `from`. */
  function SampleAt(o: Options, all: seq<Entry<real>>, from: int, k: int): Option<real> {
    LastAt(all, from + o.sampleInterval * k)
  }

  /** The samples that both windows have, of the first `n`. */
  function InBoth(o: Options, all: seq<Entry<real>>, now: int, n: nat): seq<nat> {
    if n == 0 then []
    else
      InBoth(o, all, now, n - 1) +
      (if && SampleAt(o, all, now - o.windowSize, n - 1).Some?
          && SampleAt(o, all, now - 2 * o.windowSize - o.timeShift, n - 1).Some? then [n - 1] else [])
  }

  predicate BothHave(o: Options, all: seq<Entry<real>>, now: int, k: int) {
    && SampleAt(o, all, now - o.windowSize, k).Some?
    && SampleAt(o, all, now - 2 * o.windowSize - o.timeShift, k).Some?
  }

  lemma {:induction false} InBothExact(o: Options, all: seq<Entry<real>>, now: int, n: nat)
    ensures var ks := InBoth(o, all, now, n);
            && (forall i, j :: 0 <= i < j < |ks| ==> ks[i] < ks[j])
            && (forall k :: k in ks <==> 0 <= k < n && BothHave(o, all, now, k))
  {
    if n > 0 {
      InBothExact(o, all, now, n - 1);
      var before, ks := InBoth(o, all, now, n - 1), InBoth(o, all, now, n);
      hide SampleAt;
      assert ks == before + if BothHave(o, all, now, n - 1) then [n - 1] else [];
      hide BothHave, InBoth;
      assert forall i :: 0 <= i < |before| ==> before[i] in before;
    }
  }

  /** One change for every sample that both windows have, in order. */
  ghost predicate AreChanges(o: Options, all: seq<Entry<real>>, now: int, n: nat, ds: seq<real>) {
    var ks := InBoth(o, all, now, n);
    |ds| == |ks| &&
    forall j :: 0 <= j < |ds| ==>
      var current := SampleAt(o, all, now - o.windowSize, ks[j]);
      var previous := SampleAt(o, all, now - 2 * o.windowSize - o.timeShift, ks[j]);
      current.Some? && previous.Some? && IsDelta(o.usePercentage, previous.value, current.value, ds[j])
  }

  /** Nothing until the log spans both windows and the shift, then the aggregate of the changes. */
  ghost predicate IsChange(o: Options, calculate: seq<real> -> real, all: seq<Entry<real>>, answer: real)
    requires o.Valid()
  {
    if all == [] || all[|all| - 1].ts - all[0].ts < 2 * o.windowSize + o.timeShift then answer == 0.0
    else
      var now, n := all[|all| - 1].ts, o.windowSize / o.sampleInterval;
      exists ds :: AreChanges(o, all, now, n, ds) && answer == Aggregate(calculate, ds)
  }

  function Aggregate(calculate: seq<real> -> real, ds: seq<real>): real {
    if ds == [] then 0.0 else calculate(ds)
  }

  lemma DeltaIs(o: Options, current: real, previous: real)
    ensures IsDelta(o.usePercentage, previous, current, Delta(o, current, previous))
  {
    if o.usePercentage && previous != 0.0 {
      var r := (current - previous) / previous;
      assert previous * r == current - previous;
    }
  }

  /** There is only one. */
  lemma DeltaUnique(percentage: bool, previous: real, current: real, r: real, r': real)
    requires IsDelta(percentage, previous, current, r) && IsDelta(percentage, previous, current, r')
    ensures r == r'
  {
    if percentage && previous != 0.0 {
      assert previous * (r - r') == 0.0;
    }
  }

  lemma {:induction false} DiffsAreChanges(o: Options, all: seq<Entry<real>>, now: int, n: nat)
    ensures AreChanges(o, all, now, n, Diffs(o, all, now, n))
  {
    if n > 0 {
      DiffsAreChanges(o, all, now, n - 1);
      var at, shifted := now - o.windowSize, now - 2 * o.windowSize - o.timeShift;
      var current, previous := SampleAt(o, all, at, n - 1), SampleAt(o, all, shifted, n - 1);
      if current.Some? && previous.Some? {
        DeltaIs(o, current.value, previous.value);
      }
      hide IsDelta, Delta, LastAt;
    }
  }

  /** The answers are determined: there is one list of changes. */
  lemma ChangesUnique(o: Options, all: seq<Entry<real>>, now: int, n: nat, ds: seq<real>, ds': seq<real>)
    requires AreChanges(o, all, now, n, ds) && AreChanges(o, all, now, n, ds')
    ensures ds == ds'
  {
    var ks := InBoth(o, all, now, n);
    forall j | 0 <= j < |ds|
      ensures ds[j] == ds'[j]
    {
      DeltaUnique(o.usePercentage, SampleAt(o, all, now - 2 * o.windowSize - o.timeShift, ks[j]).value,
                  SampleAt(o, all, now - o.windowSize, ks[j]).value, ds[j], ds'[j]);
    }
  }

  /** Recomputing from the log gives the aggregate of the changes from the previous to the current window. */
  lemma RecomputeIsChange(o: Options, calculate: seq<real> -> real, all: seq<Entry<real>>)
    requires o.Valid()
    ensures forall answer :: IsChange(o, calculate, all, answer) <==> answer == Recompute(o, calculate, all)
  {
    hide AreChanges, Diffs;
    if Spans(o, all) {
      var now, n := all[|all| - 1].ts, o.windowSize / o.sampleInterval;
      var ds := Diffs(o, all, now, n);
      DiffsAreChanges(o, all, now, n);
      assert n == o.Samples() && Recompute(o, calculate, all) == Aggregate(calculate, ds);
      hide Aggregate;
      forall answer | IsChange(o, calculate, all, answer)
        ensures answer == Recompute(o, calculate, all)
      {
        var ds' :| AreChanges(o, all, now, n, ds') && answer == Aggregate(calculate, ds');
        ChangesUnique(o, all, now, n, ds, ds');
      }
      assert IsChange(o, calculate, all, Recompute(o, calculate, all));
    }
  }

  function Total(vs: seq<real>): real {
    if vs == [] then 0.0 else Total(vs[..|vs| - 1]) + vs[|vs| - 1]
  }

  /** The total over the given samples of the window that starts at `from`. */
  function TotalAt(o: Options, all: seq<Entry<real>>, from: int, ks: seq<nat>): real {
    if ks == [] then 0.0
    else
      var v := SampleAt(o, all, from, ks[|ks| - 1]);
      TotalAt(o, all, from, ks[..|ks| - 1]) + if v.Some? then v.value else 0.0
  }

  lemma {:induction false} TotalOfChanges(o: Options, all: seq<Entry<real>>, at: int, shifted: int, ks: seq<nat>,
                                          ds: seq<real>)
    requires |ds| == |ks|
    requires forall j :: 0 <= j < |ds| ==>
               var current, previous := SampleAt(o, all, at, ks[j]), SampleAt(o, all, shifted, ks[j]);
               current.Some? && previous.Some? && IsDelta(false, previous.value, current.value, ds[j])
    ensures Total(ds) == TotalAt(o, all, at, ks) - TotalAt(o, all, shifted, ks)
  {
    if ds != [] {
      hide SampleAt;
      TotalOfChanges(o, all, at, shifted, ks[..|ks| - 1], ds[..|ds| - 1]);
      var k := ks[|ks| - 1];
      assert IsDelta(false, SampleAt(o, all, shifted, k).value, SampleAt(o, all, at, k).value, ds[|ds| - 1]);
    }
  }

  /** Without percentages, the summed change is the total of the current window less that of the
      previous one, over the samples that both have. */
  lemma SummedChange(o: Options, calculate: seq<real> -> real, all: seq<Entry<real>>)
    requires o.Valid() && !o.usePercentage && forall ds :: calculate(ds) == Total(ds)
    requires all != [] && all[|all| - 1].ts - all[0].ts >= 2 * o.windowSize + o.timeShift
    ensures var now := all[|all| - 1].ts;
            var ks := InBoth(o, all, now, o.Samples());
            Recompute(o, calculate, all) ==
            TotalAt(o, all, now - o.windowSize, ks) - TotalAt(o, all, now - 2 * o.windowSize - o.timeShift, ks)
  {
    hide Options.Samples, LastAt, Diffs, InBoth, TotalAt;
    var now, n := all[|all| - 1].ts, o.Samples();
    var ds := Diffs(o, all, now, n);
    assert Total([]) == 0.0;
    assert Recompute(o, calculate, all) == Total(ds);
    hide Recompute, SampleAt, Total;
    TotalOfDiffs(o, all, now, n);
  }

  lemma TotalOfDiffs(o: Options, all: seq<Entry<real>>, now: int, n: nat)
    requires !o.usePercentage
    ensures var ks := InBoth(o, all, now, n);
            Total(Diffs(o, all, now, n)) ==
            TotalAt(o, all, now - o.windowSize, ks) - TotalAt(o, all, now - 2 * o.windowSize - o.timeShift, ks)
  {
    hide SampleAt, LastAt, Diffs, Total, TotalAt, InBoth, IsDelta;
    DiffsAreChanges(o, all, now, n);
    TotalOfChanges(o, all, now - o.windowSize, now - 2 * o.windowSize - o.timeShift, InBoth(o, all, now, n),
                   Diffs(o, all, now, n));
  }

  function At(result: map<int, real>, k: int): Option<real> {
    if k in result then Some(result[k]) else None
  }

  lemma SampleIndex(start: int, ts: int, interval: int)
    requires interval > 0 && Multiple(start, interval) && Multiple(ts, interval)
    ensures ts == start + interval * ((ts - start) / interval)
    ensures forall k :: start + interval * k == ts ==> k == (ts - start) / interval
  {
    MultiplesAdd(ts, start, interval);
    var q := (ts - start) / interval;
    forall k | start + interval * k == ts ensures k == q {
      MultipleOf(interval, k);
    }
  }

  /** Samples by their index in the window; a later value at the same index replaces an earlier one. */
  method Normalize(es: seq<Entry<real>>, start: int, interval: int) returns (result: map<int, real>)
    requires interval > 0 && Multiple(start, interval)
    requires forall i :: 0 <= i < |es| ==> Multiple(es[i].ts, interval)
    ensures forall k :: At(result, k) == LastAt(es, start + interval * k)
  {
    result := map[];
    for i := 0 to |es|
      invariant forall k :: At(result, k) == LastAt(es[..i], start + interval * k)
    {
      var ts, v := es[i].ts, es[i].val;
      SampleIndex(start, ts, interval);
      ghost var before := result;
      result := result[(ts - start) / interval := v];
      forall k ensures At(result, k) == LastAt(es[..i + 1], start + interval * k) {
        assert es[..i + 1][..i] == es[..i];
        assert At(before, k) == LastAt(es[..i], start + interval * k);
      }
    }
    assert es[..|es|] == es;
  }

  // ---------------------------------------------------------------- the evaluator

  /** `log` is what is left of the complete log after trims that no later window reaches back to;
      nothing is trimmed before the log spans the full window. */
  predicate Kept(o: Options, all: seq<Entry<real>>, log: seq<Entry<real>>, full: bool, cutKey: int, cut: nat)
    requires o.Valid()
  {
    && Measurements(o, all)
    && cut <= |all| && log == all[cut..] && (all != [] ==> log != [])
    && (full ==> Spans(o, all))
    && (cut > 0 ==> full && CutAt(all, cutKey, cut) && cutKey <= all[|all| - 1].ts - o.FullWindow())
  }

  lemma KeptPut(o: Options, all: seq<Entry<real>>, log: seq<Entry<real>>, full: bool, cutKey: int, cut: nat,
                e: Entry<real>)
    requires o.Valid() && Kept(o, all, log, full, cutKey, cut)
    requires e.ts >= 0 && Multiple(e.ts, o.sampleInterval) && (all != [] ==> all[|all| - 1].ts <= e.ts)
    ensures Measurements(o, all) && Kept(o, all + [e], log + [e], full, cutKey, cut)
    ensures log != [] ==> log[|log| - 1].ts <= e.ts
  {
    if all != [] {
      assert log[|log| - 1] == all[|all| - 1];
    }
  }

  lemma KeptMeasurements(o: Options, all: seq<Entry<real>>, log: seq<Entry<real>>, full: bool, cutKey: int, cut: nat)
    requires o.Valid() && Kept(o, all, log, full, cutKey, cut)
    ensures Measurements(o, all) && (all != [] ==> log != [])
  {
  }

  /** A log that spans the full window ends after a whole one, and no trim came near it. */
  lemma KeptSpans(o: Options, all: seq<Entry<real>>, log: seq<Entry<real>>, full: bool, cutKey: int, cut: nat)
    requires o.Valid() && Kept(o, all, log, full, cutKey, cut) && Spans(o, all)
    ensures var now := all[|all| - 1].ts;
            now >= o.FullWindow() && Multiple(now, o.sampleInterval) && (cut > 0 ==> cutKey <= now - o.FullWindow())
  {
    assert all[0].ts >= 0;
    hide Sorted, Multiple;
  }

  lemma KeptTrim(o: Options, all: seq<Entry<real>>, log: seq<Entry<real>>, cutKey: int, cut: nat, start: int,
                 log': seq<Entry<real>>)
    returns (cutKey': int, cut': nat)
    requires o.Valid() && Kept(o, all, log, true, cutKey, cut) && start <= all[|all| - 1].ts - o.FullWindow()
    requires IsCut(log, start, log')
    ensures Kept(o, all, log', true, cutKey', cut')
  {
    hide Sorted;
    KeptMeasurements(o, all, log, true, cutKey, cut);
    MeasurementsSorted(o, all);
    var q: nat :| CutAt(log, start, q) && log' == log[q..];
    hide Measurements, IsCut, CutAt;
    CutMore(all, cutKey, cut, start, q);
    cutKey', cut' := cutKey, cut;
    if cut == 0 || cutKey <= start {
      cutKey', cut' := start, cut + q;
    }
  }

  class ChangeConditionEvaluator {
    const options: Options
    const calculationMethod: seq<real> -> real
    const measurements: Store<real>
    var isFullWindow: bool
    var value: Option<real>
    var count: int
    var lastTick: Option<int>
    ghost var all: seq<Entry<real>>
    ghost var cutKey: int
    ghost var cut: nat
    /** What was done with the store. */
    ghost var history: seq<ChunkRuns.Action<real>>
    ghost var Repr: set<object>

    /** The store holds the complete log from a cut on that no window reaches back to. */
    ghost predicate Stored()
      reads this, Repr
    {
      && this in Repr && measurements in Repr && measurements.Repr <= Repr && this !in measurements.Repr
      && measurements.Valid() && options.Valid()
      && Kept(options, all, measurements.log, isFullWindow, cutKey, cut)
      && measurements.defaultChunkSize == ChunkLayout.DEFAULT_CHUNK_SIZE
      && ChunkRuns.Recorded(BlocksOf(measurements.chunks), all, history, measurements.defaultChunkSize)
    }

    ghost predicate Valid()
      reads this, Repr
    {
      && Stored()
      && lastTick == (if all == [] then None else Some(all[|all| - 1].ts))
      && value == (if all == [] then None else Some(Recompute(options, calculationMethod, all)))
    }

    constructor (options: Options, calculate: seq<real> -> real)
      requires options.Valid()
      ensures Valid() && fresh(Repr) && all == []
      ensures this.options == options && calculationMethod == calculate
    {
      this.options := options;
      calculationMethod := calculate;
      measurements := new Store(ChunkLayout.DEFAULT_CHUNK_SIZE);
      isFullWindow, value, count, lastTick := false, None, 0, None;
      all, cutKey, cut, history := [], 0, 0, [];
      new;
      ChunkRuns.NothingRecorded<real>(ChunkLayout.DEFAULT_CHUNK_SIZE);
      Repr := {this} + measurements.Repr;
    }

    method IsFullWindow() returns (full: bool)
      requires Stored() && all != [] && (lastTick.None? ==> |all| == 1)
      modifies this`isFullWindow
      ensures Stored() && full == Spans(options, all) && (full ==> isFullWindow)
    {
      hide Sorted, Multiple, BlocksOf, ChunkRuns.Recorded, Store.Valid;
      if isFullWindow {
        return true;
      }
      if lastTick == None {
        return false;
      }
      var first := measurements.FirstKey();
      var last := measurements.LastKey();
      assert measurements.log == all;
      isFullWindow := last.value - first.value >= options.FullWindow();
      return isFullWindow;
    }

    /** The window that starts at `from`, normalized; it may be sparse. */
    method GetNormalizedRange(from: int) returns (result: map<int, real>)
      requires Stored() && (cut > 0 ==> cutKey <= from) && from >= 0 && Multiple(from, options.sampleInterval)
      ensures forall k :: 0 <= k < options.Samples() ==>
                At(result, k) == LastAt(all, from + options.sampleInterval * k)
    {
      hide Sorted, LastAt, IsRange, Kept, Store.Valid, Align, Multiple;
      var start, interval := Align(from, options.sampleInterval), options.sampleInterval;
      AlignMultiple(from, interval);
      var end := start + options.windowSize - 1;
      var es := measurements.Range(start, end);
      RangeSamples(start, end, es);
      result := Normalize(es, start, interval);
      WindowKept(start, es);
    }

    /** What the store has in a range are samples. */
    lemma RangeSamples(start: int, end: int, es: seq<Entry<real>>)
      requires Stored() && IsRange(measurements.log, start, end, es)
      ensures forall i :: 0 <= i < |es| ==> Multiple(es[i].ts, options.sampleInterval)
    {
      hide Sorted, IsRange, Multiple, BlocksOf, ChunkRuns.Recorded;
      RangeIsPart(measurements.log, start, end, es);
      forall i | 0 <= i < |es| ensures Multiple(es[i].ts, options.sampleInterval) {
        assert es[i] in measurements.log;
        var j :| 0 <= j < |measurements.log| && measurements.log[j] == es[i];
        assert measurements.log[j] == all[cut + j];
      }
    }

    /** The range of a window has the values last written in it, as no trim reached it. */
    lemma WindowKept(start: int, es: seq<Entry<real>>)
      requires Stored() && (cut > 0 ==> cutKey <= start)
      requires IsRange(measurements.log, start, start + options.windowSize - 1, es)
      ensures forall k :: 0 <= k < options.Samples() ==>
                LastAt(es, start + options.sampleInterval * k) == LastAt(all, start + options.sampleInterval * k)
    {
      hide LastAt, IsRange, Multiple, Kept, Store.Valid, BlocksOf, ChunkRuns.Recorded;
      assert Sorted(measurements.log) by {
        LogSorted();
      }
      hide Sorted;
      var i, end := options.sampleInterval, start + options.windowSize - 1;
      forall k | 0 <= k < options.Samples() ensures LastAt(es, start + i * k) == LastAt(all, start + i * k) {
        WindowKey(options, k);
        RangeKeepsLast(measurements.log, start, end, es, start + i * k);
        StoreKeepsLast(start + i * k);
      }
    }

    lemma LogSorted()
      requires Stored()
      ensures Sorted(measurements.log)
    {
      hide Kept, BlocksOf, ChunkRuns.Recorded;
    }

    /** The differences at the samples that both windows have. */
    method GetDiffs(now: int) returns (diffs: seq<real>)
      requires Stored() && Spans(options, all) && now == all[|all| - 1].ts
      ensures diffs == Diffs(options, all, now, options.Samples())
    {
      hide LastAt, Sorted, Multiple, Align, Options.Samples, Store.Valid, BlocksOf, ChunkRuns.Recorded;
      var i, w := options.sampleInterval, options.windowSize;
      WindowStarts(now);
      var currentWindowStart := Align(now - w, i);
      var previousWindowStart := Align(currentWindowStart - options.timeShift - w, i);
      var previous := GetNormalizedRange(previousWindowStart);
      var current := GetNormalizedRange(currentWindowStart);
      diffs := [];
      for index := 0 to options.Samples()
        invariant diffs == Diffs(options, all, now, index)
      {
        assert At(current, index) == LastAt(all, currentWindowStart + i * index);
        assert At(previous, index) == LastAt(all, previousWindowStart + i * index);
        if index in current && index in previous {
          diffs := diffs + [Delta(options, current[index], previous[index])];
        }
      }
    }

    /** Once the log spans the full window both windows start at aligned, nonnegative times that no
        trim has reached. */
    lemma WindowStarts(now: int)
      requires Stored() && Spans(options, all) && now == all[|all| - 1].ts
      ensures var i, w := options.sampleInterval, options.windowSize;
              var c, p := now - w, now - options.FullWindow();
              && 0 <= p <= c && Multiple(c, i) && Multiple(p, i) && Align(c, i) == c
              && Align(c - options.timeShift - w, i) == p && (cut > 0 ==> cutKey <= p)
    {
      hide Multiple, Align, Kept, Measurements, Store.Valid, BlocksOf, ChunkRuns.Recorded;
      KeptSpans(options, all, measurements.log, isFullWindow, cutKey, cut);
      AlignedWindows(options, now);
    }

    /** Where a trim starts: at or before the previous window. */
    function TrimStart(now: int): int
      requires options.Valid()
    {
      var i, w := options.sampleInterval, options.windowSize;
      var previousWindowStart := Align(Align(now - w, i) - options.timeShift - w, i);
      var fudge := options.Samples() * 2;
      Align(previousWindowStart - fudge, i)
    }

    lemma TrimStartBounds(now: int)
      requires Stored() && Spans(options, all) && now == all[|all| - 1].ts
      ensures TrimStart(now) <= now - options.FullWindow() < now
    {
      hide Multiple, Align, Kept, Measurements, Spans, BlocksOf, ChunkRuns.Recorded, Store.Valid, Options.Samples;
      WindowStarts(now);
      assert options.FullWindow() > 0;
      BelowPreviousWindow(now - options.FullWindow(), options.Samples() * 2, options.sampleInterval);
    }

    method Trim(now: int)
      requires Stored() && all != [] && now == all[|all| - 1].ts && (lastTick.None? ==> |all| == 1)
      modifies this`isFullWindow, this`cut, this`cutKey, this`history, measurements.Repr
      ensures Stored() && measurements.Repr == old(measurements.Repr) && old(history) <= history
    {
      hide Kept, TrimStart, IsCut, Store.Valid, BlocksOf, ChunkRuns.Recorded;
      var full := IsFullWindow();
      if full {
        TrimStartBounds(now);
        ghost var log := measurements.log;
        var start := TrimStart(now);
        ghost var bs := BlocksOf(measurements.chunks);
        measurements.Trim(start);
        ghost var a := ChunkRuns.Trim(start);
        ChunkRuns.RecordedMore(bs, all, history, measurements.defaultChunkSize, a, BlocksOf(measurements.chunks));
        history := history + [a];
        cutKey, cut := KeptTrim(options, all, log, cutKey, cut, start, measurements.log);
      }
    }

    /** Nothing before a full window; the last answer within one sample interval; otherwise the
        aggregate of the differences. */
    method GetChange(now: int, ghost before: seq<Entry<real>>) returns (change: Option<real>)
      requires Stored() && all != [] && now == all[|all| - 1].ts && all == before + [all[|all| - 1]]
      requires lastTick == (if before == [] then None else Some(before[|before| - 1].ts))
      requires Measurements(options, before)
      requires value == (if before == [] then None else Some(Recompute(options, calculationMethod, before)))
      modifies this`isFullWindow
      ensures Stored() && change == Some(Recompute(options, calculationMethod, all))
    {
      hide Sorted, Diffs, LastAt;
      var full := IsFullWindow();
      if !full {
        return Some(0.0);
      }
      if now - (if lastTick.Some? then lastTick.value else now) < options.sampleInterval {
        SameSample(before, now);
        return value;
      }
      var diffs := GetDiffs(now);
      return Some(if diffs == [] then 0.0 else calculationMethod(diffs));
    }

    lemma SameSample(before: seq<Entry<real>>, now: int)
      requires Stored() && all != [] && now == all[|all| - 1].ts && all == before + [all[|all| - 1]]
      requires Spans(options, all)
      requires before != [] ==> now - before[|before| - 1].ts < options.sampleInterval
      ensures before != [] &&
              Recompute(options, calculationMethod, all) == Recompute(options, calculationMethod, before)
    {
      assert before != [];
      var last := before[|before| - 1];
      assert last == all[|all| - 2];
      if last.ts < now {
        MultiplesApart(last.ts, now, options.sampleInterval);
      }
      RepeatedTimestamp(options, calculationMethod, before, all[|all| - 1]);
    }

    method CountAndTrim(now: int)
      requires Stored() && all != [] && now == all[|all| - 1].ts && (lastTick.None? ==> |all| == 1)
      modifies this`count, this`isFullWindow, this`cut, this`cutKey, this`history, measurements.Repr
      ensures Stored() && measurements.Repr == old(measurements.Repr) && old(history) <= history
    {
      hide Kept, Store.Valid, BlocksOf, ChunkRuns.Recorded;
      KeptMeasurements(options, all, measurements.log, isFullWindow, cutKey, cut);
      count := count + 1;
      if count % TRIM_THRESHOLD == 0 {
        var first := measurements.FirstKey();
        if now - first.value > options.FullWindow() {
          Trim(now);
          count := measurements.Size();
        }
      }
    }

    method PutMeasurement(at: int, v: real)
      requires Stored() && at >= 0 && Multiple(at, options.sampleInterval)
      requires all != [] ==> all[|all| - 1].ts <= at
      modifies this`all, this`history, this`Repr, measurements.Repr
      ensures Stored() && fresh(Repr - old(Repr)) && all == old(all) + [Entry(at, v)]
      ensures history == old(history) + [ChunkRuns.Put(Entry(at, v))]
    {
      hide *;
      Parts();
      ghost var e, bs, size := Entry(at, v), BlocksOf(measurements.chunks), measurements.defaultChunkSize;
      ghost var before, log := history, measurements.log;
      KeptPut(options, all, log, isFullWindow, cutKey, cut, e);
      var ok := measurements.Put(at, v);
      Recording(bs, before, size, e, BlocksOf(measurements.chunks));
      history := before + [ChunkRuns.Put(e)];
      all := all + [e];
      Repr := Repr + measurements.Repr;
      Whole();
    }

    lemma Recording(bs: seq<ChunkLayout.Block<real>>, before: seq<ChunkRuns.Action<real>>, size: nat, e: Entry<real>,
                    bs': seq<ChunkLayout.Block<real>>)
      requires ChunkRuns.Recorded(bs, all, before, size) && bs' == ChunkLayout.PutBlocks(bs, e, size)
      ensures ChunkRuns.Recorded(bs', all + [e], before + [ChunkRuns.Put(e)], size)
    {
      hide ChunkLayout.PutBlocks, ChunkRuns.Recorded;
      ChunkRuns.RecordedMore(bs, all, before, size, ChunkRuns.Put(e), bs');
    }

    /** What `Stored` says, part by part, and back. */
    lemma Parts()
      requires Stored()
      ensures this in Repr && measurements in Repr && measurements.Repr <= Repr && this !in measurements.Repr
      ensures measurements.Valid() && options.Valid()
      ensures Kept(options, all, measurements.log, isFullWindow, cutKey, cut)
      ensures measurements.defaultChunkSize == ChunkLayout.DEFAULT_CHUNK_SIZE
      ensures ChunkRuns.Recorded(BlocksOf(measurements.chunks), all, history, measurements.defaultChunkSize)
    {
    }

    lemma Whole()
      requires this in Repr && measurements in Repr && measurements.Repr <= Repr && this !in measurements.Repr
      requires measurements.Valid() && options.Valid()
      requires Kept(options, all, measurements.log, isFullWindow, cutKey, cut)
      requires measurements.defaultChunkSize == ChunkLayout.DEFAULT_CHUNK_SIZE
      requires ChunkRuns.Recorded(BlocksOf(measurements.chunks), all, history, measurements.defaultChunkSize)
      ensures Stored()
    {
    }

    /** Adds a measurement; the answer is what recomputing from the complete log gives, however
        often the store was trimmed. As coded, the store takes chunks into use again without taking
        them out of its cache; `AsCoded` says exactly when it holds the same entries at every moment,
        and so gives the same answers. */
    method Update(v: real, ts: int) returns (r: Option<real>)
      requires Valid() && ts >= 0 && (all != [] ==> all[|all| - 1].ts <= Align(ts, options.sampleInterval))
      modifies Repr
      ensures Valid() && fresh(Repr - old(Repr))
      ensures all == old(all) + [Entry(Align(ts, options.sampleInterval), v)]
      ensures r == Some(Recompute(options, calculationMethod, all))
      ensures IsChange(options, calculationMethod, all, r.value)
      ensures old(history) + [ChunkRuns.Put(Entry(Align(ts, options.sampleInterval), v))] <= history
      ensures AsCoded()
    {
      hide Kept, Recompute, IsChange, Multiple, Measurements, Align, Store.Valid;
      hide BlocksOf, ChunkRuns.Recorded, AsCoded;
      var at := Align(ts, options.sampleInterval);
      AlignBounds(ts, options.sampleInterval);
      ghost var before := all;
      KeptMeasurements(options, all, measurements.log, isFullWindow, cutKey, cut);
      PutMeasurement(at, v);
      CountAndTrim(at);
      value := GetChange(at, before);
      lastTick := Some(at);
      r := value;
      RecomputeIsChange(options, calculationMethod, all);
      HistoryAsCoded();
    }

    /** The store as coded would have held, at every moment so far, what the documented one held, if and
        only if no put spoiled a chunk, for one thing if none needed a chunk while the one at the back
        of the cache was in use; then it has the same entries in every chunk now. */
    ghost predicate AsCoded()
      reads this, measurements, measurements.chunks
    {
      var size := measurements.defaultChunkSize;
      && (ChunkRuns.FollowsCode(history, size) <==> ChunkRuns.NeverSpoiled(ChunkRuns.EmptyHeap(size), history))
      && (ChunkRuns.NeverTakesLive(ChunkRuns.Cache(0, None), [], history, size) ==>
            ChunkRuns.FollowsCode(history, size))
      && (ChunkRuns.FollowsCode(history, size) ==>
            ChunkLayout.Mirrors(ChunkRuns.RunCoded(ChunkRuns.EmptyHeap(size), history),
                                BlocksOf(measurements.chunks)))
    }

    lemma HistoryAsCoded()
      requires Stored()
      ensures AsCoded()
    {
      hide BlocksOf, Kept, ChunkRuns.RunCoded, ChunkRuns.NeverTakesLive, ChunkRuns.NeverSpoiled;
      hide ChunkRuns.FollowsCode, ChunkLayout.Mirrors;
      ChunkRuns.HistoryExact(BlocksOf(measurements.chunks), all, history, measurements.defaultChunkSize);
    }

    lemma StoreKeepsLast(k: int)
      requires Stored() && (cut > 0 ==> cutKey <= k)
      ensures LastAt(measurements.log, k) == LastAt(all, k)
    {
      if cut == 0 {
        assert all[0..] == all;
      } else {
        CutKeepsLast(all, cutKey, cut, k);
      }
    }
  }

  lemma AlignedWindows(o: Options, now: int)
    requires o.Valid() && Multiple(now, o.sampleInterval) && now >= o.FullWindow()
    ensures var i, w := o.sampleInterval, o.windowSize;
            var c, p := now - w, now - o.FullWindow();
            && 0 <= p <= c && Multiple(c, i) && Multiple(p, i) && Align(c, i) == c && Align(c - o.timeShift - w, i) == p
  {
    var i, w := o.sampleInterval, o.windowSize;
    hide Multiple, Align;
    MultiplesAdd(now, w, i);
    MultiplesAdd(now - w, o.timeShift, i);
    MultiplesAdd(now - w - o.timeShift, w, i);
    AlignMultiple(now - w, i);
    AlignMultiple(now - o.FullWindow(), i);
  }

  lemma BelowPreviousWindow(p: int, fudge: int, i: int)
    requires p >= 0 && fudge >= 0 && i > 0
    ensures Align(p - fudge, i) <= p
  {
    hide Multiple;
    if p - fudge >= 0 {
      AlignBounds(p - fudge, i);
    } else {
      AlignNegative(p - fudge, i);
    }
  }

  /** Cutting again at a later key cuts the whole; at an earlier key it does nothing. */
  lemma CutMore(all: seq<Entry<real>>, k: int, p: nat, k': int, q: nat)
    requires Sorted(all) && p < |all| && (p > 0 ==> CutAt(all, k, p)) && CutAt(all[p..], k', q)
    requires all != [] && all[|all| - 1].ts > k'
    ensures p + q < |all| && all[p..][q..] == all[p + q..]
    ensures p == 0 || k <= k' ==> CutAt(all, k', p + q)
    ensures p > 0 && k' < k ==> q == 0
  {
    var tail := all[p..];
    if p == 0 {
      assert tail == all;
    } else if k <= k' {
      CutTwice(all, k, p, k', q);
    } else {
      assert |tail| > 0 ==> tail[0] == all[p] && tail[0].ts >= k;
    }
    assert tail != [] ==> tail[|tail| - 1] == all[|all| - 1];
  }

  lemma WindowKey(o: Options, k: int)
    requires o.Valid() && 0 <= k < o.Samples()
    ensures 0 <= o.sampleInterval * k <= o.windowSize - o.sampleInterval
  {
    MulMono(o.sampleInterval, 0, k);
    MulMono(o.sampleInterval, k + 1, o.Samples());
    assert o.sampleInterval * (k + 1) == o.sampleInterval * k + o.sampleInterval;
  }
}
