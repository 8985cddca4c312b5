/** Sum, maximum and minimum over a sliding time window that advances in ticks. */
module Aggregators {
  import opened Alignment
  import opened Timeline
  import opened ChunkedStore
  import ChunkLayout
  import ChunkRuns
  import opened Optional

  datatype Kind = SumKind | MaxKind | MinKind

  /** A JavaScript number as these aggregators meet it. */
  datatype Num = Undefined | NegativeInfinity | PositiveInfinity | Fin(v: real)

  const TRIM_THRESHOLD := 5

  // ---------------------------------------------------------------- aggregates by definition

  function Total(vs: seq<real>): real {
    if vs == [] then 0.0 else Total(vs[..|vs| - 1]) + vs[|vs| - 1]
  }

  function Larger(a: Num, v: real): Num {
    match a
    case Fin(w) => Fin(if w > v then w else v)
    case PositiveInfinity => a
    case _ => Fin(v)
  }

  function Smaller(a: Num, v: real): Num {
    match a
    case Fin(w) => Fin(if w < v then w else v)
    case NegativeInfinity => a
    case _ => Fin(v)
  }

  /** `Math.max(...vs)` */
  function MaxOf(vs: seq<real>): Num {
    if vs == [] then NegativeInfinity else Larger(MaxOf(vs[..|vs| - 1]), vs[|vs| - 1])
  }

  /** `Math.min(...vs)` */
  function MinOf(vs: seq<real>): Num {
    if vs == [] then PositiveInfinity else Smaller(MinOf(vs[..|vs| - 1]), vs[|vs| - 1])
  }

  lemma {:induction false} MaxIsMaximum(vs: seq<real>)
    requires vs != []
    ensures MaxOf(vs).Fin? && MaxOf(vs).v in vs && forall v :: v in vs ==> v <= MaxOf(vs).v
  {
    var front := vs[..|vs| - 1];
    assert vs == front + [vs[|vs| - 1]];
    if front != [] {
      MaxIsMaximum(front);
    }
  }

  lemma {:induction false} MinIsMinimum(vs: seq<real>)
    requires vs != []
    ensures MinOf(vs).Fin? && MinOf(vs).v in vs && forall v :: v in vs ==> v >= MinOf(vs).v
  {
    var front := vs[..|vs| - 1];
    assert vs == front + [vs[|vs| - 1]];
    if front != [] {
      MinIsMinimum(front);
    }
  }

  function SumOf(es: seq<Entry<real>>): real {
    Total(Values(es))
  }

  lemma {:induction false} TotalAppend(a: seq<real>, b: seq<real>)
    ensures Total(a + b) == Total(a) + Total(b)
    decreases |b|
  {
    if b == [] {
      assert a + b == a;
    } else {
      assert (a + b)[..|a + b| - 1] == a + b[..|b| - 1];
      TotalAppend(a, b[..|b| - 1]);
    }
  }

  // ---------------------------------------------------------------- when the window ticks

  /** What the tick logic remembers after a run, and the window start at the last tick. `leaked` is
      what left the window without being subtracted, less what was subtracted without leaving. */
  datatype Ticks = Ticks(firstTick: Option<int>, lastTick: int, start: int, leaked: real)

  datatype Config = Config(windowSize: int, granularity: int)

  predicate Configured(c: Config) {
    c.windowSize > 0 && c.granularity > 0
  }

  function WindowStart(c: Config, now: int): int
    requires Configured(c)
  {
    Align(if now - c.windowSize > 0 then now - c.windowSize else 0, c.granularity)
  }

  predicate TicksAt(c: Config, t: Ticks, now: int) {
    t.lastTick != 0 && t.firstTick.Some? && now - t.lastTick >= c.granularity && now - t.firstTick.value > c.windowSize
  }

  /** The slice that left, as far as the sum looks at it. */
  function PreviousSlice(c: Config, start: int, all: seq<Entry<real>>): seq<Entry<real>> {
    if start - c.granularity > 0 then Between(all, start - c.granularity, start - 1) else []
  }

  function Advance(c: Config, t: Ticks, now: int, all: seq<Entry<real>>): Ticks
    requires Configured(c) && now >= 0
  {
    if t.lastTick == 0 then t.(firstTick := Some(now), lastTick := Align(now, c.granularity))
    else if TicksAt(c, t, now) then
      var start := WindowStart(c, now);
      Ticks(t.firstTick, Align(now, c.granularity), start,
            t.leaked + SumOf(Between(all, t.start, start - 1)) - SumOf(PreviousSlice(c, start, all)))
    else t
  }

  predicate Samples(all: seq<Entry<real>>) {
    StrictlySorted(all) && forall i :: 0 <= i < |all| ==> all[i].ts >= 0
  }

  /** The ticks of a run, computed from the complete log. */
  function Replay(c: Config, all: seq<Entry<real>>): Ticks
    requires Configured(c) && Samples(all)
  {
    if all == [] then Ticks(None, 0, 0, 0.0)
    else
      var before := all[..|all| - 1];
      Advance(c, Replay(c, before), all[|all| - 1].ts, before)
  }

  lemma WindowStartMono(c: Config, a: int, b: int)
    requires Configured(c) && 0 <= a <= b
    ensures 0 <= WindowStart(c, a) <= WindowStart(c, b) <= b
  {
    var x := if a - c.windowSize > 0 then a - c.windowSize else 0;
    var y := if b - c.windowSize > 0 then b - c.windowSize else 0;
    AlignMono(x, y, c.granularity);
    AlignBounds(x, c.granularity);
    AlignBounds(y, c.granularity);
  }

  /** The window start only moves forward, and never past the newest sample. */
  lemma {:induction false} StartBounds(c: Config, all: seq<Entry<real>>)
    requires Configured(c) && Samples(all)
    ensures 0 <= Replay(c, all).start
    ensures all != [] ==> Replay(c, all).start <= WindowStart(c, all[|all| - 1].ts)
    ensures all == [] ==> Replay(c, all).start == 0
  {
    if all != [] {
      var before, now := all[..|all| - 1], all[|all| - 1].ts;
      StartBounds(c, before);
      WindowStartMono(c, now, now);
      if before != [] {
        WindowStartMono(c, before[|before| - 1].ts, now);
      }
    }
  }

  /** The next sample may tick first; its window start is not behind the last one. */
  lemma AdvanceStart(c: Config, all: seq<Entry<real>>, now: int)
    requires Configured(c) && Samples(all) && now >= 0 && (all != [] ==> all[|all| - 1].ts < now)
    ensures var t, t' := Replay(c, all), Advance(c, Replay(c, all), now, all);
            0 <= t.start <= t'.start <= now && (TicksAt(c, t, now) ==> t'.start == WindowStart(c, now))
    ensures all == [] ==> Advance(c, Replay(c, all), now, all).leaked == 0.0
  {
    StartBounds(c, all);
    WindowStartMono(c, now, now);
    if all != [] {
      WindowStartMono(c, all[|all| - 1].ts, now);
    }
  }

  /** What leaves the window when it starts later. */
  lemma {:induction false} SumLeaving(es: seq<Entry<real>>, a: int, b: int)
    requires a <= b
    ensures SumOf(From(es, a)) == SumOf(Between(es, a, b - 1)) + SumOf(From(es, b))
  {
    if es != [] {
      var e, rest := es[0], es[1..];
      SumLeaving(rest, a, b);
      SumHead(e, From(rest, a));
      SumHead(e, Between(rest, a, b - 1));
      SumHead(e, From(rest, b));
    }
  }

  lemma SumHead(e: Entry<real>, es: seq<Entry<real>>)
    ensures SumOf([e] + es) == e.val + SumOf(es)
  {
    ValuesAppend([e], es);
    TotalAppend(Values([e]), Values(es));
    assert Values([e]) == [e.val] && [e.val][..0] == [];
  }

  lemma SumOfNone()
    ensures SumOf([]) == 0.0
  {
  }

  lemma SumPush(es: seq<Entry<real>>, e: Entry<real>)
    ensures SumOf(es + [e]) == SumOf(es) + e.val
  {
    ValuesAppend(es, [e]);
    assert Values(es + [e]) == Values(es) + [e.val];
  }

  // ---------------------------------------------------------------- the aggregator

  /** The value, and the count of the extrema, are those of the samples in the window that started at
      the last tick, taken from the complete log. */
  predicate IsAnswer(kind: Kind, all: seq<Entry<real>>, t: Ticks, value: Num, count: int) {
    var window := From(all, t.start);
    if all == [] then value == Undefined && count == 0
    else
      match kind
      case SumKind => value == Fin(SumOf(window) + t.leaked)
      case MaxKind => value == MaxOf(Values(window)) && count == |window|
      case MinKind => value == MinOf(Values(window)) && count == |window|
  }

  lemma {:induction false} FromIsTail(es: seq<Entry<real>>, lo: int) returns (p: nat)
    requires Sorted(es)
    ensures p <= |es| && From(es, lo) == es[p..] && forall i :: 0 <= i < |es| ==> (p <= i <==> es[i].ts >= lo)
  {
    if es == [] || es[0].ts >= lo {
      p := 0;
      AllFrom(es, lo);
    } else {
      p := FromIsTail(es[1..], lo);
      p := p + 1;
      assert es[1..][p - 1..] == es[p..];
      assert forall i :: 0 < i < |es| ==> es[i] == es[1..][i - 1];
    }
  }

  /** `v` is the largest, or the smallest, value of the samples from `start` on, of which there are `count`. */
  ghost predicate IsExtremum(largest: bool, all: seq<Entry<real>>, start: int, v: real, count: int) {
    && (exists i :: 0 <= i < |all| && all[i].ts >= start && all[i].val == v)
    && (forall i :: 0 <= i < |all| && all[i].ts >= start ==> if largest then all[i].val <= v else all[i].val >= v)
    && 0 < count <= |all| && forall i :: 0 <= i < |all| ==> (all[i].ts >= start <==> |all| - count <= i)
  }

  /** What the answer of the two extremal aggregators is, sample by sample. */
  lemma AnswerIsExtremum(kind: Kind, c: Config, all: seq<Entry<real>>, value: Num, count: int)
    requires Configured(c) && Samples(all) && all != [] && !kind.SumKind?
    requires IsAnswer(kind, all, Replay(c, all), value, count)
    ensures value.Fin? && IsExtremum(kind.MaxKind?, all, Replay(c, all).start, value.v, count)
  {
    hide Replay, MaxOf, MinOf, WindowStart;
    var start, last := Replay(c, all).start, all[|all| - 1];
    StartBounds(c, all);
    WindowStartMono(c, last.ts, last.ts);
    var p := FromIsTail(all, start);
    var vs := Values(all[p..]);
    assert vs[|vs| - 1] == last.val;
    MaxIsMaximum(vs);
    MinIsMinimum(vs);
    var v := value.v;
    var j :| 0 <= j < |vs| && vs[j] == v;
    assert all[p + j].val == v;
    forall i | 0 <= i < |all| && all[i].ts >= start
      ensures if kind.MaxKind? then all[i].val <= v else all[i].val >= v
    {
      assert vs[i - p] == all[i].val && vs[i - p] in vs;
    }
  }

  /** `values.reduce((acc, val) => acc - val, acc)` */
  method SubtractAll(acc: real, vs: seq<real>) returns (r: real)
    ensures r == acc - Total(vs)
  {
    r := acc;
    for i := 0 to |vs|
      invariant r == acc - Total(vs[..i])
    {
      assert vs[..i + 1][..i] == vs[..i];
      r := r - vs[i];
    }
    assert vs[..|vs|] == vs;
  }

  lemma StartsEmpty(kind: Kind, config: Config)
    requires Configured(config)
    ensures Samples([]) && Replay(config, []) == Ticks(None, 0, 0, 0.0) && From<real>([], 0) == []
    ensures IsAnswer(kind, [], Replay(config, []), Undefined, 0)
  {
  }

  class SlidingTimeWindowAggregator {
    const kind: Kind
    const config: Config
    const data: Store<real>
    var tickCount: nat
    var firstTick: Option<int>
    var lastTick: int
    var value: Num
    var count: int
    ghost var all: seq<Entry<real>>
    ghost var trimmed: int
    /** What was done with the store. */
    ghost var history: seq<ChunkRuns.Action<real>>
    ghost var Repr: set<object>

    ghost predicate Answers(t: Ticks)
      reads this
    {
      IsAnswer(kind, all, t, value, count)
    }

    /** The store holds what was not yet trimmed, and no trim came near a window from `start` on. */
    ghost predicate Stored(start: int)
      reads this, Repr
    {
      && this in Repr && data in Repr && data.Repr <= Repr && this !in data.Repr && data.Valid()
      && Configured(config) && Samples(all)
      && data.log == From(all, trimmed)
      && (trimmed <= 0 || trimmed + config.granularity <= start)
      && data.defaultChunkSize == ChunkLayout.DEFAULT_CHUNK_SIZE
      && ChunkRuns.Recorded(BlocksOf(data.chunks), all, history, data.defaultChunkSize)
    }

    /** The fields agree with the tick state `t`. */
    ghost predicate Holds(t: Ticks)
      reads this, Repr
    {
      Stored(t.start) && firstTick == t.firstTick && lastTick == t.lastTick && Answers(t)
    }

    ghost predicate Valid()
      reads this, Repr
    {
      Configured(config) && Samples(all) && Holds(Replay(config, all))
    }

    constructor (kind: Kind, config: Config)
      requires Configured(config)
      ensures Valid() && fresh(Repr) && all == [] && this.kind == kind && this.config == config
    {
      this.kind := kind;
      this.config := config;
      data := new Store(ChunkLayout.DEFAULT_CHUNK_SIZE);
      tickCount, firstTick, lastTick := 0, None, 0;
      value, count := Undefined, 0;
      all, trimmed, history := [], 0, [];
      new;
      ChunkRuns.NothingRecorded<real>(ChunkLayout.DEFAULT_CHUNK_SIZE);
      hide Replay, Samples, From, IsAnswer, BlocksOf, ChunkRuns.Recorded;
      StartsEmpty(kind, config);
      Repr := {this} + data.Repr;
    }

    lemma StoreReads(start: int)
      requires Stored(start) && start >= 0
      ensures StrictlySorted(data.log)
      ensures From(data.log, start) == From(all, start)
      ensures start - config.granularity > 0 ==>
                Between(data.log, start - config.granularity, start - 1) == PreviousSlice(config, start, all)
    {
      FromStrict(all, trimmed);
      FromFrom(all, trimmed, start);
      if start - config.granularity > 0 {
        BetweenFrom(all, trimmed, start - config.granularity, start - 1);
      }
    }

    /** `getPreviousSlice` */
    method GetPreviousSlice(start: int) returns (values: seq<real>)
      requires Stored(start) && start >= 0
      ensures values == Values(PreviousSlice(config, start, all))
    {
      hide Replay, From, Between, UpTo, CutAt;
      if start - config.granularity > 0 {
        StoreReads(start);
        values := data.GetValues(start - config.granularity, start - 1);
        ghost var es :| IsRange(data.log, start - config.granularity, start - 1, es) && values == Values(es);
        RangeIsExact(data.log, start - config.granularity, start - 1, es);
      } else {
        values := [];
      }
    }

    /** `getCurrentValues` */
    method GetCurrentValues(start: int) returns (values: seq<real>)
      requires Stored(start) && start >= 0
      ensures values == Values(From(all, start))
    {
      StoreReads(start);
      values := data.GetValuesFrom(start);
      ghost var es :| IsCut(data.log, start, es) && values == Values(es);
      TrimIsExact(data.log, start, es);
    }

    /** Recomputes the extremum, or subtracts from the sum the slice that left. */
    method OnTick(start: int, ghost t: Ticks)
      requires Valid() && all != [] && 0 <= Replay(config, all).start <= start == t.start
      requires t.leaked == Replay(config, all).leaked + SumOf(Between(all, Replay(config, all).start, start - 1))
                           - SumOf(PreviousSlice(config, start, all))
      modifies this`value, this`count
      ensures Answers(t)
    {
      if kind == SumKind {
        SumLeaving(all, Replay(config, all).start, start);
        var values := GetPreviousSlice(start);
        var r := SubtractAll(value.v, values);
        value := Fin(r);
        count := |values|;
      } else {
        var values := GetCurrentValues(start);
        value := if kind == MaxKind then MaxOf(values) else MinOf(values);
        count := |values|;
      }
    }

    /** `trim`, while the last timestamp is that of the tick. */
    method Trim(start: int)
      requires Stored(start)
      modifies this`trimmed, this`history, data.Repr
      ensures Stored(start) && data.Repr == old(data.Repr) && old(history) <= history
    {
      hide From, BlocksOf, ChunkRuns.Recorded;
      var deleteBefore := start - config.granularity;
      if deleteBefore > 0 {
        FromStrict(all, trimmed);
        FromFrom(all, trimmed, deleteBefore);
        ghost var bs := BlocksOf(data.chunks);
        data.Trim(deleteBefore);
        ghost var a := ChunkRuns.Trim(deleteBefore);
        ChunkRuns.RecordedMore(bs, all, history, data.defaultChunkSize, a, BlocksOf(data.chunks));
        history := history + [a];
        TrimIsExact(old(data.log), deleteBefore, data.log);
        trimmed := deleteBefore;
      }
    }

    method TickIfNeeded(now: int) returns (ticked: bool)
      requires Valid() && now >= 0 && (all != [] ==> all[|all| - 1].ts < now)
      modifies this, data.Repr
      ensures unchanged(this`all) && unchanged(this`Repr) && data.Repr == old(data.Repr) && old(history) <= history
      ensures ticked == TicksAt(config, Replay(config, all), now)
      ensures Holds(Advance(config, Replay(config, all), now, all))
    {
      hide Replay, From, Samples, SumOf, Between, PreviousSlice, WindowStart, Align, IsAnswer;
      hide BlocksOf, ChunkRuns.Recorded;
      TickFields();
      if lastTick == 0 {
        SameAnswer(Replay(config, all));
        firstTick := Some(now);
        lastTick := Align(now, config.granularity);
        return false;
      }
      if now - lastTick >= config.granularity && now - firstTick.value > config.windowSize {
        Tick(now);
        return true;
      }
      return false;
    }

    /** Moves the window. */
    method Tick(now: int)
      requires Valid() && now >= 0 && all != [] && all[|all| - 1].ts < now && TicksAt(config, Replay(config, all), now)
      modifies this, data.Repr
      ensures unchanged(this`all) && unchanged(this`Repr) && data.Repr == old(data.Repr) && old(history) <= history
      ensures Holds(Advance(config, Replay(config, all), now, all))
    {
      hide Replay, From, Samples, SumOf, Between, PreviousSlice, WindowStart, Align, IsAnswer;
      hide BlocksOf, ChunkRuns.Recorded;
      ghost var t := Advance(config, Replay(config, all), now, all);
      AdvanceStart(config, all, now);
      var start := WindowStart(config, now);
      OnTick(start, t);
      assert Stored(start);
      hide Advance;
      tickCount := tickCount + 1;
      if tickCount % TRIM_THRESHOLD == 0 {
        tickCount := 0;
        Trim(start);
      }
      lastTick := Align(now, config.granularity);
    }

    lemma SameAnswer(t: Ticks)
      requires Answers(t)
      ensures forall f, l :: Answers(t.(firstTick := f, lastTick := l))
    {
    }

    lemma TickFields()
      requires Valid()
      ensures lastTick != 0 ==> firstTick.Some? && all != []
    {
      ReplayFields(config, all);
    }

    method PutSample(v: real, now: int, ghost start: int)
      requires Stored(start) && 0 <= start <= now && (all != [] ==> all[|all| - 1].ts < now)
      requires Samples(all + [Entry(now, v)])
      modifies this`all, this`history, this`Repr, data.Repr
      ensures Stored(start) && fresh(Repr - old(Repr)) && all == old(all) + [Entry(now, v)]
      ensures history == old(history) + [ChunkRuns.Put(Entry(now, v))]
    {
      hide *;
      Parts(start);
      ghost var e, bs, size := Entry(now, v), BlocksOf(data.chunks), data.defaultChunkSize;
      ghost var before := history;
      StoreBelow(start, now);
      FromPush(all, e, trimmed);
      var ok := data.Put(now, v);
      Recording(bs, before, size, e, BlocksOf(data.chunks));
      history := before + [ChunkRuns.Put(e)];
      all := all + [e];
      Repr := Repr + data.Repr;
      Whole(start);
    }

    lemma Recording(bs: seq<ChunkLayout.Block<real>>, before: seq<ChunkRuns.Action<real>>, size: nat, e: Entry<real>,
                    bs': seq<ChunkLayout.Block<real>>)
      requires ChunkRuns.Recorded(bs, all, before, size) && bs' == ChunkLayout.PutBlocks(bs, e, size)
      ensures ChunkRuns.Recorded(bs', all + [e], before + [ChunkRuns.Put(e)], size)
    {
      hide ChunkLayout.PutBlocks, ChunkRuns.Recorded;
      ChunkRuns.RecordedMore(bs, all, before, size, ChunkRuns.Put(e), bs');
    }

    /** What `Stored` says, part by part, and back. */
    lemma Parts(start: int)
      requires Stored(start)
      ensures this in Repr && data in Repr && data.Repr <= Repr && this !in data.Repr && data.Valid()
      ensures Configured(config) && Samples(all) && data.log == From(all, trimmed)
      ensures trimmed <= 0 || trimmed + config.granularity <= start
      ensures data.defaultChunkSize == ChunkLayout.DEFAULT_CHUNK_SIZE
      ensures ChunkRuns.Recorded(BlocksOf(data.chunks), all, history, data.defaultChunkSize)
    {
    }

    lemma Whole(start: int)
      requires this in Repr && data in Repr && data.Repr <= Repr && this !in data.Repr && data.Valid()
      requires Configured(config) && Samples(all) && data.log == From(all, trimmed)
      requires trimmed <= 0 || trimmed + config.granularity <= start
      requires data.defaultChunkSize == ChunkLayout.DEFAULT_CHUNK_SIZE
      requires ChunkRuns.Recorded(BlocksOf(data.chunks), all, history, data.defaultChunkSize)
      ensures Stored(start)
    {
    }

    /** Puts the sample and updates the count and the value, in the window of the last tick. */
    method Record(v: real, now: int, ghost t: Ticks)
      requires Holds(t) && 0 <= t.start <= now && (all != [] ==> all[|all| - 1].ts < now)
      requires Samples(all + [Entry(now, v)]) && (all == [] ==> t.leaked == 0.0)
      modifies Repr
      ensures Holds(t) && fresh(Repr - old(Repr)) && all == old(all) + [Entry(now, v)]
      ensures history == old(history) + [ChunkRuns.Put(Entry(now, v))]
    {
      hide From, Samples, IsAnswer, BlocksOf, ChunkRuns.Recorded;
      AnswerPush(t, Entry(now, v));
      PutSample(v, now, t.start);
      count := count + 1;
      value := HandleUpdate(v);
    }

    /** Adds a sample. Whatever was trimmed, the answer is about all samples ever added. As coded, the
        store takes chunks into use again without taking them out of its cache; `AsCoded` says exactly
        when it holds the same entries at every moment, and so gives the same answers. */
    method Update(v: real, now: int) returns (r: Num)
      requires Valid() && now >= 0 && (all != [] ==> all[|all| - 1].ts < now)
      modifies Repr
      ensures Valid() && fresh(Repr - old(Repr))
      ensures all == old(all) + [Entry(now, v)]
      ensures IsAnswer(kind, all, Replay(config, all), r, count)
      ensures old(history) < history && history[|history| - 1] == ChunkRuns.Put(Entry(now, v))
      ensures AsCoded()
    {
      hide Replay, Samples, Advance, AsCoded;
      ghost var t := Advance(config, Replay(config, all), now, all);
      AdvanceStart(config, all, now);
      ReplayPush(config, all, Entry(now, v));
      var _ := TickIfNeeded(now);
      Record(v, now, t);
      HistoryAsCoded(t.start);
      r := value;
    }

    /** The store as coded would have held, at every moment so far, what the documented one held, if and
        only if no put needed a chunk while the one at the back of the cache was in use; then it has
        the same entries in every chunk now. */
    ghost predicate AsCoded()
      reads this, data, data.chunks
    {
      var size := data.defaultChunkSize;
      && (ChunkRuns.FollowsCode(history, size) <==>
            ChunkRuns.NeverTakesLive(ChunkRuns.Cache(0, None), [], history, size))
      && (ChunkRuns.FollowsCode(history, size) ==>
            ChunkLayout.Mirrors(ChunkRuns.RunCoded(ChunkRuns.EmptyHeap(size), history), BlocksOf(data.chunks)))
    }

    lemma HistoryAsCoded(start: int)
      requires Stored(start)
      ensures AsCoded()
    {
      hide BlocksOf, From, ChunkRuns.RunCoded, ChunkRuns.NeverTakesLive, ChunkRuns.FollowsCode, ChunkLayout.Mirrors;
      ChunkRuns.HistoryExact(BlocksOf(data.chunks), all, history, data.defaultChunkSize);
      ChunkRuns.DistinctHistory(history, data.defaultChunkSize);
    }

    function HandleUpdate(v: real): Num
      reads this
    {
      match kind
      case SumKind => if value.Fin? then Fin(value.v + v) else Fin(v)
      case MaxKind => if value == Undefined then Fin(v) else Larger(value, v)
      case MinKind => if value == Undefined then Fin(v) else Smaller(value, v)
    }

    lemma AnswerPush(t: Ticks, e: Entry<real>)
      requires Answers(t) && e.ts >= t.start && (all == [] ==> t.leaked == 0.0)
      ensures IsAnswer(kind, all + [e], t, HandleUpdate(e.val), count + 1)
    {
      hide From, SumOf, MaxOf, MinOf, Values;
      WindowPush(all, t.start, e);
    }

    lemma StoreBelow(start: int, now: int)
      requires Stored(start) && (all != [] ==> all[|all| - 1].ts < now) && 0 <= start <= now
      ensures trimmed <= now
      ensures data.log != [] ==> data.log[|data.log| - 1].ts <= now
    {
      FromStrict(all, trimmed);
      if data.log != [] {
        assert data.log[|data.log| - 1] in all;
      }
    }
  }

  lemma ReplayPush(c: Config, all: seq<Entry<real>>, e: Entry<real>)
    requires Configured(c) && Samples(all) && e.ts >= 0 && (all != [] ==> all[|all| - 1].ts < e.ts)
    ensures Samples(all + [e]) && Replay(c, all + [e]) == Advance(c, Replay(c, all), e.ts, all)
  {
    assert (all + [e])[..|all + [e]| - 1] == all;
  }

  /** One more sample in the window. */
  lemma WindowPush(all: seq<Entry<real>>, start: int, e: Entry<real>)
    requires e.ts >= start
    ensures var w, w' := From(all, start), From(all + [e], start);
            && SumOf(w') == SumOf(w) + e.val && |w'| == |w| + 1
            && MaxOf(Values(w')) == Larger(MaxOf(Values(w)), e.val)
            && MinOf(Values(w')) == Smaller(MinOf(Values(w)), e.val)
    ensures all == [] ==> From(all, start) == []
    ensures MaxOf(Values([])) == NegativeInfinity && MinOf(Values([])) == PositiveInfinity && SumOf([]) == 0.0
  {
    FromPush(all, e, start);
    var w := From(all, start);
    SumPush(w, e);
    var vs := Values(w + [e]);
    assert vs == Values(w) + [e.val] && vs[..|vs| - 1] == Values(w);
  }

  lemma {:induction false} ReplayFields(c: Config, all: seq<Entry<real>>)
    requires Configured(c) && Samples(all)
    ensures Replay(c, all).lastTick != 0 ==> Replay(c, all).firstTick.Some? && all != []
  {
    if all != [] {
      ReplayFields(c, all[..|all| - 1]);
    }
  }

  // ---------------------------------------------------------------- how current the window is

  /** Until the first tick nothing has left; then the window lags behind by less than two slots. */
  predicate Current(c: Config, t: Ticks, first: int, now: int)
    requires Configured(c)
  {
    && t.firstTick == Some(first) && t.lastTick >= c.granularity
    && (now - first <= c.windowSize ==> t.start == 0 && t.lastTick == Align(first, c.granularity))
    && (now - first > c.windowSize ==>
          && now - t.lastTick < c.granularity
          && t.lastTick - c.windowSize - c.granularity < t.start <= now - c.windowSize)
  }

  lemma CurrentStep(c: Config, t: Ticks, first: int, prev: int, now: int, all: seq<Entry<real>>)
    requires Configured(c) && c.windowSize >= c.granularity && c.granularity <= first <= prev < now
    requires Current(c, t, first, prev)
    ensures Current(c, Advance(c, t, now, all), first, now)
  {
    hide SumOf, Between, PreviousSlice, Align;
    var g, w := c.granularity, c.windowSize;
    AlignBounds(now, g);
    AlignBounds(first, g);
    if now - first > w {
      AlignBounds(now - w, g);
      AlignMono(g, now, g);
      OneSlot(g);
    }
  }

  lemma OneSlot(g: int)
    requires g > 0
    ensures Align(g, g) == g
  {
    MultipleOf(g, 1);
    AlignMultiple(g, g);
  }

  /** After every update the window starts where the design wants it, less than two slots late. */
  lemma {:induction false} WindowIsCurrent(c: Config, all: seq<Entry<real>>)
    requires Configured(c) && c.windowSize >= c.granularity && Samples(all) && all != [] && all[0].ts >= c.granularity
    ensures var t, first, now := Replay(c, all), all[0].ts, all[|all| - 1].ts;
            && Current(c, t, first, now)
            && (now - first <= c.windowSize ==> t.start == 0)
            && (now - first > c.windowSize ==>
                  now - c.windowSize - 2 * c.granularity < t.start <= now - c.windowSize)
  {
    var before, now := all[..|all| - 1], all[|all| - 1].ts;
    if before == [] {
      var g := c.granularity;
      assert Replay(c, before) == Ticks(None, 0, 0, 0.0);
      AlignBounds(now, g);
      AlignMono(g, now, g);
      OneSlot(g);
    } else {
      WindowIsCurrent(c, before);
      hide Current, Advance;
      CurrentStep(c, Replay(c, before), all[0].ts, before[|before| - 1].ts, now, before);
      CurrentBounds(c, Replay(c, all), all[0].ts, now);
    }
  }

  lemma CurrentBounds(c: Config, t: Ticks, first: int, now: int)
    requires Configured(c) && Current(c, t, first, now)
    ensures now - first <= c.windowSize ==> t.start == 0
    ensures now - first > c.windowSize ==> now - c.windowSize - 2 * c.granularity < t.start <= now - c.windowSize
  {
  }

  // ---------------------------------------------------------------- when the sum is exact

  /** No sample is more than one slot of the granularity after the one before. */
  predicate NoSlotSkipped(c: Config, all: seq<Entry<real>>)
    requires Configured(c)
  {
    forall i :: 0 < i < |all| ==>
      Align(all[i].ts, c.granularity) <= Align(all[i - 1].ts, c.granularity) + c.granularity
  }

  /** Before the first tick all samples lie within one window of the first; afterwards the newest
      one lies in the slot of the last tick. */
  predicate Steady(c: Config, t: Ticks, first: int, last: int)
    requires Configured(c)
  {
    && t.leaked == 0.0 && t.firstTick == Some(first) && 0 < c.granularity <= first <= last
    && if t.start == 0 then t.lastTick == Align(first, c.granularity) && last - first <= c.windowSize
       else t.start >= Align(first, c.granularity) && t.lastTick == t.start + c.windowSize == Align(last, c.granularity)
  }

  /** The first tick: at most the slot of the very first sample leaves. */
  lemma FirstTickStart(c: Config, first: int, prev: int, now: int)
    requires Configured(c) && Multiple(c.windowSize, c.granularity)
    requires c.granularity <= first <= prev < now && prev - first <= c.windowSize < now - first
    requires Align(now, c.granularity) <= Align(prev, c.granularity) + c.granularity
    ensures var f, start := Align(first, c.granularity), WindowStart(c, now);
            c.granularity <= f <= first && f <= start <= f + c.granularity && (start == f || start == f + c.granularity)
    ensures Align(now, c.granularity) == WindowStart(c, now) + c.windowSize
  {
    var g, w := c.granularity, c.windowSize;
    var f := Align(first, g);
    AlignBounds(first, g);
    AlignShift(now, w, g);
    AlignBounds(now - w, g);
    AlignMono(first, now - w, g);
    AlignMono(prev, first + w, g);
    AlignShift(first + w, w, g);
    MultipleOf(g, 1);
    MultiplesAdd(f, g, g);
    if f < WindowStart(c, now) {
      MultiplesApart(f, WindowStart(c, now), g);
    }
    AlignMultiple(g, g);
    AlignMono(g, first, g);
  }

  /** Every later tick moves the window by exactly one slot. */
  lemma NextTickStart(c: Config, start: int, prev: int, now: int)
    requires Configured(c) && Multiple(c.windowSize, c.granularity) && start > 0
    requires 0 <= prev < now && Align(prev, c.granularity) == start + c.windowSize
    requires Align(now, c.granularity) <= Align(prev, c.granularity) + c.granularity
    requires now - (start + c.windowSize) >= c.granularity
    ensures WindowStart(c, now) == start + c.granularity
    ensures Align(now, c.granularity) == WindowStart(c, now) + c.windowSize
  {
    var g, w := c.granularity, c.windowSize;
    AlignBounds(prev, g);
    AlignBounds(now, g);
    MultipleOf(g, 1);
    MultiplesAdd(Align(prev, g), g, g);
    if Align(now, g) < Align(prev, g) + g {
      MultiplesApart(Align(now, g), Align(prev, g) + g, g);
    }
    AlignShift(now, w, g);
  }

  /** A tick that moves the window by one slot, or over nothing, leaks nothing. */
  lemma NothingLeaks(c: Config, all: seq<Entry<real>>, before: int, start: int, from: int)
    requires Configured(c) && 0 <= before <= from <= start
    requires forall i :: 0 <= i < |all| ==> all[i].ts >= from || (all[i].ts < before)
    requires from == start - c.granularity > 0 || (from == start && forall i :: 0 <= i < |all| ==> all[i].ts >= start)
    ensures SumOf(Between(all, before, start - 1)) == SumOf(PreviousSlice(c, start, all))
  {
    if from == start {
      NoneBetween(all, before, start - 1);
      NoneBetween(all, start - c.granularity, start - 1);
    } else {
      SameBetween(all, before, from, start - 1);
    }
  }

  lemma {:induction false} SameBetween(all: seq<Entry<real>>, a: int, b: int, hi: int)
    requires a <= b && forall i :: 0 <= i < |all| ==> all[i].ts >= b || all[i].ts < a
    ensures Between(all, a, hi) == Between(all, b, hi)
  {
    if all != [] {
      SameBetween(all[1..], a, b, hi);
    }
  }

  lemma {:induction false} SteadyRun(c: Config, all: seq<Entry<real>>)
    requires Configured(c) && Multiple(c.windowSize, c.granularity) && Samples(all) && all != []
    requires all[0].ts >= c.granularity && NoSlotSkipped(c, all)
    ensures Steady(c, Replay(c, all), all[0].ts, all[|all| - 1].ts)
  {
    var g := c.granularity;
    var before, now := all[..|all| - 1], all[|all| - 1].ts;
    AlignBounds(all[0].ts, g);
    AlignMultiple(g, g) by { MultipleOf(g, 1); }
    AlignMono(g, all[0].ts, g) by { MultipleOf(g, 1); }
    if before == [] {
      assert Replay(c, before) == Ticks(None, 0, 0, 0.0);
    } else {
      SteadyRun(c, before);
      SteadyStep(c, before, now);
    }
  }

  lemma SteadyStep(c: Config, all: seq<Entry<real>>, now: int)
    requires Configured(c) && Multiple(c.windowSize, c.granularity) && Samples(all) && all != []
    requires all[0].ts >= c.granularity && all[|all| - 1].ts < now
    requires Align(now, c.granularity) <= Align(all[|all| - 1].ts, c.granularity) + c.granularity
    requires Steady(c, Replay(c, all), all[0].ts, all[|all| - 1].ts)
    ensures Steady(c, Advance(c, Replay(c, all), now, all), all[0].ts, now)
  {
    hide Replay, Between, SumOf, Align, WindowStart, PreviousSlice;
    var t, g, w, first, prev := Replay(c, all), c.granularity, c.windowSize, all[0].ts, all[|all| - 1].ts;
    AlignBounds(first, g);
    AlignBounds(prev, g);
    AtLeastOne(w, g);
    if t.start == 0 {
      if now - first > w {
        FirstTickStart(c, first, prev, now);
        var start := WindowStart(c, now);
        NothingLeaks(c, all, 0, start, Align(first, g));
      }
    } else if now - t.lastTick >= g {
      NextTickStart(c, t.start, prev, now);
      NothingLeaks(c, all, t.start, t.start + g, t.start);
    } else {
      AlignUnique(now, g, t.lastTick);
    }
  }

  lemma AtLeastOne(w: int, g: int)
    requires g > 0 && w > 0 && Multiple(w, g)
    ensures w >= g
  {
    MultipleOf(g, 0);
    MultiplesApart(0, w, g);
  }

  /** On runs that skip no slot, with a window of whole slots, every answer is the sum of the
      samples in the window. */
  lemma SumIsExact(c: Config, all: seq<Entry<real>>, value: Num, count: int)
    requires Configured(c) && Multiple(c.windowSize, c.granularity) && Samples(all) && all != []
    requires all[0].ts >= c.granularity && NoSlotSkipped(c, all)
    requires IsAnswer(SumKind, all, Replay(c, all), value, count)
    ensures value == Fin(SumOf(From(all, Replay(c, all).start)))
  {
    SteadyRun(c, all);
  }

  /** The samples a tick deals with wrongly: those it lets go without subtracting them, in the slots it
      passes over, or, if the window start stays put, those it subtracts although they left before. */
  function Overlooked(c: Config, t: Ticks, start: int, all: seq<Entry<real>>): seq<Entry<real>> {
    if start == t.start then PreviousSlice(c, start, all)
    else Between(all, t.start, (if start - c.granularity > 0 then start - c.granularity else start) - 1)
  }

  /** What one tick leaks, on any run and for any window: skipped samples stay in the sum, samples
      before a window start that stays put are subtracted once more. */
  lemma TickLeaksSkippedSlots(c: Config, all: seq<Entry<real>>, now: int)
    requires Configured(c) && Samples(all)
    requires now >= 0 && (all != [] ==> all[|all| - 1].ts < now) && TicksAt(c, Replay(c, all), now)
    ensures var t, t' := Replay(c, all), Advance(c, Replay(c, all), now, all);
            && (t'.start == t.start || t.start + c.granularity <= t'.start)
            && t'.leaked == t.leaked + (if t'.start == t.start then -SumOf(Overlooked(c, t, t'.start, all))
                                        else SumOf(Overlooked(c, t, t'.start, all)))
  {
    hide Replay, Align, SumOf, Between, Samples;
    var t, start, g := Replay(c, all), WindowStart(c, now), c.granularity;
    StartMoves(c, all, now);
    SumOfNone();
    if start == t.start {
      NothingBetween(all, t.start);
    } else if start - g > 0 {
      SplitBetween(all, t.start, start - g, start - 1);
    }
  }

  lemma NothingBetween(all: seq<Entry<real>>, k: int)
    ensures Between(all, k, k - 1) == []
  {
    NoneBetween(all, k, k - 1);
  }

  /** The window start moves by whole slots. */
  lemma StartMoves(c: Config, all: seq<Entry<real>>, now: int)
    requires Configured(c) && Samples(all) && now >= 0 && (all != [] ==> all[|all| - 1].ts < now)
    requires TicksAt(c, Replay(c, all), now)
    ensures 0 <= Replay(c, all).start <= WindowStart(c, now)
    ensures WindowStart(c, now) == Replay(c, all).start || Replay(c, all).start + c.granularity <= WindowStart(c, now)
  {
    hide Replay, Align, Samples;
    var start, start' := Replay(c, all).start, WindowStart(c, now);
    AdvanceStart(c, all, now);
    StartIsMultiple(c, all);
    AlignBounds(if now - c.windowSize > 0 then now - c.windowSize else 0, c.granularity);
    if start < start' {
      MultiplesApart(start, start', c.granularity);
    }
  }

  lemma {:induction false} StartIsMultiple(c: Config, all: seq<Entry<real>>)
    requires Configured(c) && Samples(all)
    ensures Multiple(Replay(c, all).start, c.granularity)
  {
    MultipleOf(c.granularity, 0);
    if all != [] {
      StartIsMultiple(c, all[..|all| - 1]);
      var now := all[|all| - 1].ts;
      AlignBounds(if now - c.windowSize > 0 then now - c.windowSize else 0, c.granularity);
    }
  }

  lemma {:induction false} SplitBetween(all: seq<Entry<real>>, a: int, b: int, hi: int)
    requires a <= b <= hi + 1
    ensures SumOf(Between(all, a, hi)) == SumOf(Between(all, a, b - 1)) + SumOf(Between(all, b, hi))
  {
    if all != [] {
      var e, rest := all[0], all[1..];
      SplitBetween(rest, a, b, hi);
      SumHead(e, Between(rest, a, hi));
      SumHead(e, Between(rest, a, b - 1));
      SumHead(e, Between(rest, b, hi));
    }
  }

  /** Every answer along the run is the sum of the samples in its window. */
  ghost predicate SumExactAlong(c: Config, all: seq<Entry<real>>)
    requires Configured(c) && Samples(all)
  {
    all == [] || (SumExactAlong(c, all[..|all| - 1]) && SumExactAt(c, all))
  }

  ghost predicate SumExactAt(c: Config, all: seq<Entry<real>>)
    requires Configured(c) && Samples(all)
  {
    forall value, count :: IsAnswer(SumKind, all, Replay(c, all), value, count) ==>
      value == Fin(SumOf(From(all, Replay(c, all).start)))
  }

  lemma SumExactAtNoLeak(c: Config, all: seq<Entry<real>>)
    requires Configured(c) && Samples(all) && all != []
    ensures SumExactAt(c, all) <==> Replay(c, all).leaked == 0.0
  {
    hide Replay, SumOf, From, Samples;
    var t := Replay(c, all);
    assert IsAnswer(SumKind, all, t, Fin(SumOf(From(all, t.start)) + t.leaked), 0);
  }

  /** What the tick that the next sample brings, if it brings one, overlooks. */
  function OverlookedAt(c: Config, all: seq<Entry<real>>, now: int): seq<Entry<real>>
    requires Configured(c) && Samples(all)
  {
    var t := Replay(c, all);
    if TicksAt(c, t, now) then Overlooked(c, t, WindowStart(c, now), all) else []
  }

  /** The overlooked samples of every tick cancel out. */
  predicate TicksBalance(c: Config, all: seq<Entry<real>>)
    requires Configured(c) && Samples(all)
  {
    all == [] ||
    (TicksBalance(c, all[..|all| - 1]) && SumOf(OverlookedAt(c, all[..|all| - 1], all[|all| - 1].ts)) == 0.0)
  }

  /** No tick passes over a sample, and no tick that leaves the window start where it is finds a sample
      in the slot before it. */
  predicate NothingOverlooked(c: Config, all: seq<Entry<real>>)
    requires Configured(c) && Samples(all)
  {
    all == [] ||
    (NothingOverlooked(c, all[..|all| - 1]) && OverlookedAt(c, all[..|all| - 1], all[|all| - 1].ts) == [])
  }

  lemma LeakOfNext(c: Config, all: seq<Entry<real>>)
    requires Configured(c) && Samples(all) && all != []
    ensures var before, now := all[..|all| - 1], all[|all| - 1].ts;
            var leak := Replay(c, all).leaked - Replay(c, before).leaked;
            leak == SumOf(OverlookedAt(c, before, now)) || leak == -SumOf(OverlookedAt(c, before, now))
  {
    var before, now := all[..|all| - 1], all[|all| - 1].ts;
    SumOfNone();
    assert Replay(c, all) == Advance(c, Replay(c, before), now, before);
    if TicksAt(c, Replay(c, before), now) {
      TickLeaksSkippedSlots(c, before, now);
    }
  }

  /** For every run and every window: all answers are exact if and only if what each tick overlooks
      sums to nothing. */
  lemma {:induction false} SumExactIff(c: Config, all: seq<Entry<real>>)
    requires Configured(c) && Samples(all)
    ensures SumExactAlong(c, all) <==> TicksBalance(c, all)
    ensures TicksBalance(c, all) ==> Replay(c, all).leaked == 0.0
  {
    if all != [] {
      var before := all[..|all| - 1];
      SumExactIff(c, before);
      LeakOfNext(c, all);
      SumExactAtNoLeak(c, all);
      hide Replay, SumExactAt, OverlookedAt, SumOf, Samples;
    }
  }

  predicate Positive(all: seq<Entry<real>>) {
    forall i :: 0 <= i < |all| ==> all[i].val > 0.0
  }

  lemma {:induction false} PositiveSum(es: seq<Entry<real>>)
    requires Positive(es)
    ensures SumOf(es) >= 0.0 && (SumOf(es) == 0.0 <==> es == [])
  {
    if es != [] {
      PositiveSum(es[1..]);
      SumHead(es[0], es[1..]);
      assert [es[0]] + es[1..] == es;
    } else {
      SumOfNone();
    }
  }

  lemma {:induction false} PositiveBetween(all: seq<Entry<real>>, lo: int, hi: int)
    requires Positive(all)
    ensures Positive(Between(all, lo, hi))
  {
    if all != [] {
      PositiveBetween(all[1..], lo, hi);
    }
  }

  /** For positive samples nothing cancels, so all answers are exact if and only if nothing is ever
      overlooked. */
  lemma {:induction false} PositiveSumExactIff(c: Config, all: seq<Entry<real>>)
    requires Configured(c) && Samples(all) && Positive(all)
    ensures SumExactAlong(c, all) <==> NothingOverlooked(c, all)
  {
    SumExactIff(c, all);
    BalanceIsNothing(c, all);
  }

  lemma {:induction false} BalanceIsNothing(c: Config, all: seq<Entry<real>>)
    requires Configured(c) && Samples(all) && Positive(all)
    ensures TicksBalance(c, all) <==> NothingOverlooked(c, all)
  {
    if all != [] {
      var before, now := all[..|all| - 1], all[|all| - 1].ts;
      BalanceIsNothing(c, before);
      var over := OverlookedAt(c, before, now);
      assert Positive(over) by {
        var t, start := Replay(c, before), WindowStart(c, now);
        PositiveBetween(before, start - c.granularity, start - 1);
        PositiveBetween(before, t.start, (if start - c.granularity > 0 then start - c.granularity else start) - 1);
      }
      PositiveSum(over);
    }
  }

  function Ones(times: seq<int>): (all: seq<Entry<real>>)
    ensures |all| == |times| && forall i :: 0 <= i < |all| ==> all[i] == Entry(times[i], 1.0)
  {
    seq(|times|, i requires 0 <= i < |times| => Entry(times[i], 1.0))
  }

  lemma ReplayNext(c: Config, all: seq<Entry<real>>, k: nat)
    requires Configured(c) && Samples(all) && k < |all|
    ensures Samples(all[..k]) && Samples(all[..k + 1])
    ensures Replay(c, all[..k + 1]) == Advance(c, Replay(c, all[..k]), all[k].ts, all[..k])
  {
    assert all[..k + 1][..k] == all[..k];
  }

  const SEVEN := [10, 17, 24, 31, 38, 45, 52]

  lemma UnmovedSums()
    ensures SumOf(Between(Ones(SEVEN)[..4], 0, 9)) == 0.0
    ensures SumOf(Between(Ones(SEVEN)[..6], 20, 19)) == 0.0
    ensures SumOf(Between(Ones(SEVEN)[..6], 10, 19)) == 2.0
  {
    var all := Ones(SEVEN);
    NoneBetween(all[..4], 0, 9);
    NothingBetween(all[..6], 20);
    SumOfNone();
    var es := all[..6];
    assert es == [Entry(10, 1.0)] + es[1..] && es[1..] == [Entry(17, 1.0)] + es[2..] && es[1..][1..] == es[2..];
    NoneBetween(es[2..], 10, 19);
    assert Between(es[1..], 10, 19) == [Entry(17, 1.0)];
    assert Between(es, 10, 19) == [Entry(10, 1.0), Entry(17, 1.0)];
    SumPush([], Entry(10, 1.0));
    SumPush([Entry(10, 1.0)], Entry(17, 1.0));
    assert [] + [Entry(10, 1.0)] == [Entry(10, 1.0)];
    assert [Entry(10, 1.0)] + [Entry(17, 1.0)] == [Entry(10, 1.0), Entry(17, 1.0)];
  }

  /** The ticks along that run. */
  function UnmovedTicks(k: nat): Ticks {
    if k == 0 then Ticks(None, 0, 0, 0.0)
    else if k <= 4 then Ticks(Some(10), 10, 0, 0.0)
    else if k == 5 then Ticks(Some(10), 30, 10, 0.0)
    else if k == 6 then Ticks(Some(10), 40, 20, 0.0)
    else Ticks(Some(10), 50, 20, -2.0)
  }

  lemma UnmovedStep(k: nat)
    requires k < 7
    ensures Advance(Config(25, 10), UnmovedTicks(k), SEVEN[k], Ones(SEVEN)[..k]) == UnmovedTicks(k + 1)
  {
    UnmovedSums();
    SumOfNone();
    hide SumOf, Between, Ones;
  }

  lemma {:induction false} UnmovedRun(k: nat)
    requires k <= 7 && Samples(Ones(SEVEN))
    ensures Samples(Ones(SEVEN)[..k]) && Replay(Config(25, 10), Ones(SEVEN)[..k]) == UnmovedTicks(k)
  {
    var c, all := Config(25, 10), Ones(SEVEN);
    if k == 0 {
      ReplayNone(c, all);
    } else {
      UnmovedRun(k - 1);
      ReplayNext(c, all, k - 1);
      UnmovedStep(k - 1);
      hide Replay, Advance, UnmovedTicks, Samples;
      assert all[k - 1].ts == SEVEN[k - 1];
    }
  }

  /** A window that is no whole number of slots: its start stays at 20 while the tick at 52 subtracts
      the samples at 10 and 17 for the second time. No slot is skipped. */
  lemma UnmovedStartSubtractsTwice()
    ensures var c, all := Config(25, 10), Ones(SEVEN);
            && Samples(all) && NoSlotSkipped(c, all)
            && Replay(c, all).start == 20 && Replay(c, all).leaked == -2.0
  {
    var all := Ones(SEVEN);
    assert Samples(all) && NoSlotSkipped(Config(25, 10), all);
    hide Replay, Samples, NoSlotSkipped;
    UnmovedRun(7);
    assert all[..7] == all;
  }

  lemma ReplayNone(c: Config, all: seq<Entry<real>>)
    requires Configured(c)
    ensures Samples(all[..0]) && Replay(c, all[..0]) == Ticks(None, 0, 0, 0.0)
  {
  }

  lemma TwoSamples()
    ensures var c, two := Config(10, 10), [Entry(10, 1.0), Entry(15, 1.0)];
            Samples(two) && Replay(c, two) == Ticks(Some(10), 10, 0, 0.0)
  {
    var c, two, one := Config(10, 10), [Entry(10, 1.0), Entry(15, 1.0)], [Entry(10, 1.0)];
    assert two[..1] == one && one[..0] == [];
    assert Replay(c, one) == Ticks(Some(10), 10, 0, 0.0);
  }

  lemma TwoSamplesLeave()
    ensures var two := [Entry(10, 1.0), Entry(15, 1.0)];
            SumOf(Between(two, 0, 29)) == 2.0 && SumOf(Between(two, 20, 29)) == 0.0
  {
    var two := [Entry(10, 1.0), Entry(15, 1.0)];
    AllBetween(two, 0, 29);
    NoneBetween(two, 20, 29);
    SumPush([], Entry(10, 1.0));
    SumPush([Entry(10, 1.0)], Entry(15, 1.0));
    assert two == [Entry(10, 1.0)] + [Entry(15, 1.0)] && [] + [Entry(10, 1.0)] == [Entry(10, 1.0)];
  }

  /** A run that skips slots: the samples at 10 and 15 leave the window without being subtracted. */
  lemma SkippedSlotLeaks()
    ensures var c, all := Config(10, 10), [Entry(10, 1.0), Entry(15, 1.0), Entry(40, 1.0)];
            Samples(all) && Replay(c, all).start == 30 && Replay(c, all).leaked == 2.0
  {
    hide Replay, SumOf, Between;
    var c, two := Config(10, 10), [Entry(10, 1.0), Entry(15, 1.0)];
    TwoSamples();
    TwoSamplesLeave();
    ReplayPush(c, two, Entry(40, 1.0));
    assert two + [Entry(40, 1.0)] == [Entry(10, 1.0), Entry(15, 1.0), Entry(40, 1.0)];
  }
}
