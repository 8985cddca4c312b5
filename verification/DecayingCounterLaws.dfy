/** What the decaying counter promises over every run of writes and reads. */
module DecayingCounterLaws {
  import opened DecayingCounter
  import opened Optional
  import opened Rounding

  datatype Event = Add(at: real, delta: int) | Read(at: real)

  /** The counter, and beside it which writes each active phase counts and all writes ever. */
  datatype Trace = Trace(creation: Option<real>, last: real, slots: seq<Slot>, live: seq<seq<Event>>, log: seq<Event>)

  function Init(g: Shape): Trace {
    Trace(None, 0.0, Blank(g.len), seq(g.len, i => []), [])
  }

  predicate Fitting(tr: Trace, g: Shape) {
    Sound(g) && |tr.slots| == g.len == |tr.live| && (tr.creation.Some? ==> tr.creation.value <= tr.last)
  }

  /** Clocks do not run backwards, and deltas are not negative. */
  predicate Follows(tr: Trace, e: Event) {
    (tr.creation.Some? ==> tr.last <= e.at) && (e.Add? ==> e.delta >= 0)
  }

  function Created(tr: Trace, now: real): real {
    if tr.creation.Some? then tr.creation.value else now
  }

  function Step(tr: Trace, e: Event, g: Shape): (r: Trace)
    requires Fitting(tr, g) && Follows(tr, e)
    ensures Fitting(r, g)
  {
    match e
    case Read(_) => tr.(slots := AllInitialised(tr.slots, tr.creation, g))
    case Add(now, delta) =>
      var created := Created(tr, now);
      var i := ChunkIndex(Some(created), now, g);
      var active := Initialised(tr.slots[i], Some(created), i, g);
      Trace(Some(created), now,
            tr.slots[i := Added(tr.slots[i], delta, now, created, i, g)],
            tr.live[i := if Before(now, active.deadline) then tr.live[i] + [e] else [e]],
            tr.log + [e])
  }

  ghost predicate Legal(tr: Trace, events: seq<Event>, g: Shape)
    requires Fitting(tr, g)
    decreases |events|
  {
    events == [] || (Follows(tr, events[0]) && Legal(Step(tr, events[0], g), events[1..], g))
  }

  ghost function Run(tr: Trace, events: seq<Event>, g: Shape): (r: Trace)
    requires Fitting(tr, g) && Legal(tr, events, g)
    ensures Fitting(r, g)
    decreases |events|
  {
    if events == [] then tr else Run(Step(tr, events[0], g), events[1..], g)
  }

  // ---------------------------------------------------------------- totals

  function Amount(e: Event): int {
    if e.Add? then e.delta else 0
  }

  function Total(es: seq<Event>): int {
    if es == [] then 0 else Total(es[..|es| - 1]) + Amount(es[|es| - 1])
  }

  /** The total of the deltas that are younger than `span` at time `t`. */
  function Young(es: seq<Event>, t: real, span: real): int {
    if es == [] then 0
    else Young(es[..|es| - 1], t, span) + (if t - es[|es| - 1].at < span then Amount(es[|es| - 1]) else 0)
  }

  function YoungAll(live: seq<seq<Event>>, t: real, span: real): int {
    if live == [] then 0 else YoungAll(live[..|live| - 1], t, span) + Young(live[|live| - 1], t, span)
  }

  lemma PushTotals(es: seq<Event>, e: Event, t: real, span: real)
    ensures Total(es + [e]) == Total(es) + Amount(e)
    ensures Young(es + [e], t, span) == Young(es, t, span) + (if t - e.at < span then Amount(e) else 0)
  {
    assert (es + [e])[..|es|] == es;
  }

  predicate NonNegative(es: seq<Event>) {
    forall k :: 0 <= k < |es| ==> Amount(es[k]) >= 0
  }

  lemma {:induction false} YoungBounds(es: seq<Event>, t: real, span: real)
    requires NonNegative(es)
    ensures 0 <= Young(es, t, span) <= Total(es)
    ensures (forall k :: 0 <= k < |es| ==> t - es[k].at < span) ==> Young(es, t, span) == Total(es)
  {
    if es != [] {
      YoungBounds(es[..|es| - 1], t, span);
    }
  }

  lemma {:induction false} YoungAllUpdate(live: seq<seq<Event>>, i: nat, es: seq<Event>, t: real, span: real)
    requires i < |live|
    ensures YoungAll(live[i := es], t, span) == YoungAll(live, t, span) - Young(live[i], t, span) + Young(es, t, span)
  {
    var k := |live| - 1;
    if i == k {
      assert live[i := es][..k] == live[..k];
    } else {
      YoungAllUpdate(live[..k], i, es, t, span);
      assert live[i := es][..k] == live[..k][i := es];
    }
  }

  // ---------------------------------------------------------------- the invariant of a run

  /** The longest a delta is counted: the rolling window and one interval. */
  function Reach(g: Shape): real {
    Times(g.len, g.interval)
  }

  /** The active phase of slot `i` counts exactly its live writes, and expires within reach of each. */
  ghost predicate Counts(s: Slot, es: seq<Event>, creation: Option<real>, last: real, i: nat, g: Shape) {
    && NonNegative(es)
    && (s.Unset? ==> es == [])
    && (s.Slot? ==>
          && s.total == Total(es)
          && (s.deadline.At? ==>
                && creation.Some?
                && (s.deadline == FirstDeadline(creation, i, g) || s.deadline.time <= last + Reach(g))
                && forall k :: 0 <= k < |es| ==> s.deadline.time <= es[k].at + Reach(g))
          && (s.deadline.Undefined? ==> es == [])
          && !s.deadline.Max?)
  }

  ghost predicate Invariant(tr: Trace, g: Shape)
    requires Fitting(tr, g)
  {
    forall i :: 0 <= i < g.len ==> Counts(tr.slots[i], tr.live[i], tr.creation, tr.last, i, g)
  }

  lemma TimesAdd(a: int, b: int, d: real)
    ensures Times(a + b, d) == Times(a, d) + Times(b, d)
  {
  }

  lemma NextDeadlineReach(creation: real, now: real, g: Shape)
    requires g.interval > 0.0
    ensures NextDeadline(creation, now, g) == now + Reach(g)
  {
    var x := (now - creation) / g.interval;
    assert x * g.interval == now - creation;
    assert (x + g.len as real) * g.interval == x * g.interval + g.len as real * g.interval;
  }

  lemma CountsAdd(s: Slot, es: seq<Event>, creation: Option<real>, last: real, i: nat, g: Shape, e: Event,
                  created: real)
    requires Sound(g) && Counts(s, es, creation, last, i, g)
    requires e.Add? && e.delta >= 0 && (creation.Some? ==> created == creation.value && last <= e.at)
    requires created + Times(i, g.interval) <= e.at
    ensures var active := Initialised(s, Some(created), i, g);
            Counts(Added(s, e.delta, e.at, created, i, g),
                   if Before(e.at, active.deadline) then es + [e] else [e], Some(created), e.at, i, g)
  {
    hide Times, NextDeadline, Total;
    if Before(e.at, Initialised(s, Some(created), i, g).deadline) {
      CountsJoined(s, es, creation, last, i, g, e, created);
    } else {
      CountsFlipped(s, i, g, e, created);
    }
  }

  lemma CountsJoined(s: Slot, es: seq<Event>, creation: Option<real>, last: real, i: nat, g: Shape, e: Event,
                     created: real)
    requires Sound(g) && Counts(s, es, creation, last, i, g)
    requires e.Add? && e.delta >= 0 && (creation.Some? ==> created == creation.value && last <= e.at)
    requires created + Times(i, g.interval) <= e.at
    requires Before(e.at, Initialised(s, Some(created), i, g).deadline)
    ensures Counts(Added(s, e.delta, e.at, created, i, g), es + [e], Some(created), e.at, i, g)
  {
    TimesAdd(g.len, i, g.interval);
    PushTotals(es, e, 0.0, 0.0);
    PushTotals([], e, 0.0, 0.0);
    assert [] + [e] == [e];
    hide Times, NextDeadline, Total;
  }

  lemma CountsFlipped(s: Slot, i: nat, g: Shape, e: Event, created: real)
    requires Sound(g) && e.Add? && e.delta >= 0
    requires !Before(e.at, Initialised(s, Some(created), i, g).deadline)
    ensures Counts(Added(s, e.delta, e.at, created, i, g), [e], Some(created), e.at, i, g)
  {
    NextDeadlineReach(created, e.at, g);
    PushTotals([], e, 0.0, 0.0);
    assert [] + [e] == [e];
    hide Times, NextDeadline, Total;
  }

  lemma InvariantStep(tr: Trace, e: Event, g: Shape)
    requires Fitting(tr, g) && Follows(tr, e) && Invariant(tr, g)
    ensures Invariant(Step(tr, e, g), g)
  {
    var r := Step(tr, e, g);
    forall i | 0 <= i < g.len
      ensures Counts(r.slots[i], r.live[i], r.creation, r.last, i, g)
    {
      var s := tr.slots[i];
      assert Counts(s, tr.live[i], tr.creation, tr.last, i, g);
      if e.Add? {
        var created := Created(tr, e.at);
        if i == ChunkIndex(Some(created), e.at, g) {
          CountsAdd(s, tr.live[i], tr.creation, tr.last, i, g, e, created);
        }
      }
    }
  }

  lemma YoungStep(tr: Trace, e: Event, g: Shape, t: real)
    requires Fitting(tr, g) && Follows(tr, e) && Invariant(tr, g)
    requires YoungAll(tr.live, t, Reach(g)) <= Young(tr.log, t, Reach(g))
    ensures var r := Step(tr, e, g); YoungAll(r.live, t, Reach(g)) <= Young(r.log, t, Reach(g))
  {
    if e.Add? {
      var r := Step(tr, e, g);
      var i := ChunkIndex(Some(Created(tr, e.at)), e.at, g);
      assert Counts(tr.slots[i], tr.live[i], tr.creation, tr.last, i, g);
      YoungAllUpdate(tr.live, i, r.live[i], t, Reach(g));
      PushTotals(tr.log, e, t, Reach(g));
      PushTotals(tr.live[i], e, t, Reach(g));
      PushTotals([], e, t, Reach(g));
      assert [] + [e] == [e];
      YoungBounds(tr.live[i], t, Reach(g));
    }
  }

  lemma {:induction false} InvariantRun(tr: Trace, events: seq<Event>, g: Shape, t: real)
    requires Fitting(tr, g) && Legal(tr, events, g) && Invariant(tr, g)
    requires YoungAll(tr.live, t, Reach(g)) <= Young(tr.log, t, Reach(g))
    ensures var r := Run(tr, events, g);
            Invariant(r, g) && YoungAll(r.live, t, Reach(g)) <= Young(r.log, t, Reach(g))
    decreases |events|
  {
    if events != [] {
      InvariantStep(tr, events[0], g);
      YoungStep(tr, events[0], g, t);
      InvariantRun(Step(tr, events[0], g), events[1..], g, t);
    }
  }

  // ---------------------------------------------------------------- the sum

  lemma DividedLess(a: real, b: real, n: real)
    requires n > 0.0 && a * n < b * n
    ensures a < b
  {
    assert (b - a) * n > 0.0;
  }

  lemma Fraction(total: int, left: real, interval: real)
    requires total >= 0 && interval > 0.0 && 0.0 < left < interval
    ensures 0 <= Decayed(total, left, interval) <= total && (total > 0 ==> Decayed(total, left, interval) > 0)
  {
    var q := left / interval;
    assert q * interval == left;
    DividedLess(q, 1.0, interval);
    DividedLess(0.0, q, interval);
    var x := total as real * q;
    Scaled(total as real, q);
    assert 0.0 <= x <= total as real && (total > 0 ==> x > 0.0);
    CeilBounds(x, total);
    CeilBounds(x, 0);
    CeilBounds(x, -1);
  }

  /** A slot sums to no more than its live writes, and to nothing once they are out of reach. */
  lemma SlotSumYoung(s: Slot, es: seq<Event>, creation: Option<real>, last: real, i: nat, g: Shape, t: real)
    requires Sound(g) && Counts(s, es, creation, last, i, g)
    ensures 0 <= SlotSum(s, t, g) <= Young(es, t, Reach(g))
  {
    YoungBounds(es, t, Reach(g));
    if s.Slot? && s.deadline.At? && t < s.deadline.time {
      var left := s.deadline.time - t;
      if left < g.interval {
        YoungBounds(es, t, 0.0);
        Fraction(s.total, left, g.interval);
      }
    }
  }

  lemma {:induction false} SlotsSumYoung(tr: Trace, g: Shape, t: real, n: nat)
    requires Fitting(tr, g) && Invariant(tr, g) && n <= g.len
    ensures 0 <= SlotsSum(tr.slots[..n], t, g) <= YoungAll(tr.live[..n], t, Reach(g))
  {
    if n > 0 {
      SlotsSumYoung(tr, g, t, n - 1);
      assert Counts(tr.slots[n - 1], tr.live[n - 1], tr.creation, tr.last, n - 1, g);
      SlotSumYoung(tr.slots[n - 1], tr.live[n - 1], tr.creation, tr.last, n - 1, g, t);
      assert tr.slots[..n][..n - 1] == tr.slots[..n - 1] && tr.live[..n][..n - 1] == tr.live[..n - 1];
    }
  }

  lemma {:induction false} NothingYoung(n: nat, t: real, span: real)
    ensures YoungAll(seq(n, i => []), t, span) == 0
  {
    var live: seq<seq<Event>> := seq(n, i => []);
    if n > 0 {
      NothingYoung(n - 1, t, span);
      assert live[..n - 1] == seq(n - 1, i => []);
    }
  }

  /** After any run of writes and reads the sum never exceeds the total of the deltas younger than
      the rolling window and one interval. */
  lemma SumWithinReach(g: Shape, events: seq<Event>, t: real)
    requires Sound(g) && Legal(Init(g), events, g)
    ensures var r := Run(Init(g), events, g);
            0 <= SlotsSum(r.slots, t, g) <= Young(r.log, t, Reach(g))
  {
    NothingYoung(g.len, t, Reach(g));
    InvariantRun(Init(g), events, g, t);
    var r := Run(Init(g), events, g);
    SlotsSumYoung(r, g, t, g.len);
    assert r.slots[..g.len] == r.slots && r.live[..g.len] == r.live;
  }

  // ---------------------------------------------------------------- no growth without writes

  lemma DecayedMono(total: int, left: real, left': real, interval: real)
    requires total >= 0 && interval > 0.0 && 0.0 < left' <= left
    ensures Decayed(total, left', interval) <= Decayed(total, left, interval)
  {
    var q, q' := left / interval, left' / interval;
    assert q * interval == left && q' * interval == left';
    assert q' <= q;
    assert total as real * q' <= total as real * q;
    CeilBounds(total as real * q', Ceil(total as real * q));
    CeilBounds(total as real * q, Ceil(total as real * q));
  }

  lemma SlotSumMono(s: Slot, g: Shape, t: real, t': real)
    requires g.interval > 0.0 && t <= t' && (s.Slot? ==> s.total >= 0)
    ensures SlotSum(s, t', g) <= SlotSum(s, t, g)
  {
    if s.Slot? && s.deadline.At? && t < s.deadline.time {
      var left, left' := s.deadline.time - t, s.deadline.time - t';
      if left < g.interval {
        Fraction(s.total, left, g.interval);
        if left' > 0.0 {
          DecayedMono(s.total, left, left', g.interval);
        }
      } else if 0.0 < left' < g.interval {
        Fraction(s.total, left', g.interval);
      }
    }
  }

  lemma {:induction false} SlotsSumMono(slots: seq<Slot>, g: Shape, t: real, t': real)
    requires g.interval > 0.0 && t <= t' && forall i :: 0 <= i < |slots| && slots[i].Slot? ==> slots[i].total >= 0
    ensures SlotsSum(slots, t', g) <= SlotsSum(slots, t, g)
  {
    if slots != [] {
      SlotsSumMono(slots[..|slots| - 1], g, t, t');
      SlotSumMono(slots[|slots| - 1], g, t, t');
    }
  }

  /** Setting up the phases of unused chunks, which reading does, changes no sum. */
  lemma {:induction false} InitialisedSum(slots: seq<Slot>, creation: Option<real>, g: Shape, t: real)
    requires g.interval > 0.0
    ensures SlotsSum(AllInitialised(slots, creation, g), t, g) == SlotsSum(slots, t, g)
  {
    if slots != [] {
      var k := |slots| - 1;
      InitialisedSum(slots[..k], creation, g, t);
      assert AllInitialised(slots, creation, g)[..k] == AllInitialised(slots[..k], creation, g);
      assert SlotSum(Initialised(slots[k], creation, k, g), t, g) == SlotSum(slots[k], t, g) by {
        UnusedSum(creation, k, g, t);
      }
    }
  }

  lemma UnusedSum(creation: Option<real>, i: nat, g: Shape, t: real)
    requires g.interval > 0.0
    ensures SlotSum(Initialised(Unset, creation, i, g), t, g) == 0
  {
    assert 0 as real == 0.0;
    CeilBounds(0.0, 0);
    CeilBounds(0.0, -1);
  }

  /** Between writes the sum never grows, however often it is read. */
  lemma SumNeverGrows(g: Shape, events: seq<Event>, t: real, t': real)
    requires Sound(g) && Legal(Init(g), events, g) && t <= t'
    ensures var r := Run(Init(g), events, g);
            SlotsSum(AllInitialised(r.slots, r.creation, g), t', g) <= SlotsSum(r.slots, t, g)
  {
    NothingYoung(g.len, t, Reach(g));
    InvariantRun(Init(g), events, g, t);
    var r := Run(Init(g), events, g);
    forall i | 0 <= i < |r.slots| && r.slots[i].Slot?
      ensures r.slots[i].total >= 0
    {
      assert Counts(r.slots[i], r.live[i], r.creation, r.last, i, g);
      YoungBounds(r.live[i], t, 0.0);
    }
    SlotsSumMono(r.slots, g, t, t');
    InitialisedSum(r.slots, r.creation, g, t');
  }

  // ---------------------------------------------------------------- no sudden changes

  function Clamped(left: real, interval: real): real {
    if left >= interval then interval else if left <= 0.0 then 0.0 else left
  }

  /** The share of its total that a phase counts: all, then less and less over its last interval. */
  function Share(dl: Deadline, t: real, interval: real): real
    requires interval > 0.0
  {
    if dl.At? then Clamped(dl.time - t, interval) / interval else 1.0
  }

  function Part(total: int, share: real): real {
    total as real * share
  }

  lemma SumIsShare(s: Slot, g: Shape, t: real)
    requires g.interval > 0.0 && s.Slot?
    ensures SlotSum(s, t, g) == Ceil(Part(s.total, Share(s.deadline, t, g.interval)))
  {
    assert 0.0 / g.interval == 0.0 && g.interval / g.interval == 1.0;
    assert s.total as real * 1.0 == s.total as real;
    assert s.total as real * 0.0 == 0.0;
    CeilBounds(0.0, 0);
    CeilBounds(0.0, -1);
    CeilBounds(s.total as real, s.total);
    CeilBounds(s.total as real, s.total - 1);
  }

  lemma Quotients(a: real, b: real, d: real)
    requires d > 0.0 && 0.0 <= a <= b
    ensures 0.0 <= a / d
    ensures a / d <= b / d
  {
    var q := (b - a) / d;
    assert q == b / d - a / d;
    DividedAtLeast(0.0, q, d);
    DividedAtLeast(0.0, a / d, d);
  }

  lemma DividedAtLeast(a: real, b: real, n: real)
    requires n > 0.0 && a * n <= b * n
    ensures a <= b
  {
    if a > b {
      MulLess(b, a, n);
      assert false;
    }
  }

  lemma ShareFalls(dl: Deadline, t: real, t': real, d: real)
    requires d > 0.0 && t <= t'
    ensures Share(dl, t, d) - Share(dl, t', d) <= (t' - t) / d
  {
    Quotients(0.0, t' - t, d);
    if dl.At? {
      var x, y := Clamped(dl.time - t, d), Clamped(dl.time - t', d);
      assert x / d - y / d == (x - y) / d;
      Quotients(x - y, t' - t, d);
    }
  }

  /** Over any stretch of time without writes a phase loses at most the proportionate part of its
      total, up to rounding: an observer sees no sudden change. */
  lemma DecayIsSmooth(s: Slot, g: Shape, t: real, t': real)
    requires g.interval > 0.0 && t <= t' && s.Slot? && s.total >= 0
    ensures (SlotSum(s, t, g) - SlotSum(s, t', g)) as real < Part(s.total, (t' - t) / g.interval) + 1.0
  {
    SumIsShare(s, g, t);
    SumIsShare(s, g, t');
    ShareFalls(s.deadline, t, t', g.interval);
    var a, b, c := Share(s.deadline, t, g.interval), Share(s.deadline, t', g.interval), (t' - t) / g.interval;
    hide Share, SlotSum, Ceil, Part;
    Spread(s.total, a, b, c);
    CeilApart(Part(s.total, a), Part(s.total, b));
  }

  function Totals(slots: seq<Slot>): int {
    if slots == [] then 0
    else
      var s := slots[|slots| - 1];
      Totals(slots[..|slots| - 1]) + if s.Slot? then s.total else 0
  }

  /** So does the whole counter, up to rounding of each chunk. */
  lemma {:induction false} SumIsSmooth(slots: seq<Slot>, g: Shape, t: real, t': real)
    requires g.interval > 0.0 && t <= t' && forall i :: 0 <= i < |slots| && slots[i].Slot? ==> slots[i].total >= 0
    ensures (SlotsSum(slots, t, g) - SlotsSum(slots, t', g)) as real <=
            Part(Totals(slots), (t' - t) / g.interval) + |slots| as real
  {
    var share := (t' - t) / g.interval;
    hide Part, SlotSum;
    PartsAdd(0, 0, share);
    if slots != [] {
      var rest, s := slots[..|slots| - 1], slots[|slots| - 1];
      SumIsSmooth(rest, g, t, t');
      PartsAdd(Totals(rest), if s.Slot? then s.total else 0, share);
      assert s.Unset? ==> SlotSum(s, t, g) == SlotSum(s, t', g) by {
        NeverUsed(g, t);
        NeverUsed(g, t');
      }
      if s.Slot? {
        DecayIsSmooth(s, g, t, t');
      }
    }
  }

  lemma NeverUsed(g: Shape, t: real)
    requires g.interval > 0.0
    ensures SlotSum(Unset, t, g) == 0
  {
  }

  lemma PartsAdd(a: int, b: int, share: real)
    ensures Part(a + b, share) == Part(a, share) + Part(b, share)
    ensures Part(0, share) == 0.0
  {
    assert (a as real + b as real) * share == a as real * share + b as real * share;
  }

  lemma Spread(total: int, a: real, b: real, c: real)
    requires total >= 0 && a - b <= c
    ensures Part(total, a) - Part(total, b) <= Part(total, c)
  {
    assert total as real * (c - (a - b)) >= 0.0;
  }

  lemma CeilApart(x: real, y: real)
    ensures (Ceil(x) - Ceil(y)) as real < x - y + 1.0
  {
  }

  // ---------------------------------------------------------------- how long a delta is counted

  function Window(g: Shape): real {
    Times(g.len - 1, g.interval)
  }

  /** A write is counted throughout the rolling window exactly when it starts a new phase, or joins
      one that outlives the window. */
  lemma CountedThroughWindow(s: Slot, delta: int, now: real, created: real, i: nat, g: Shape)
    requires Sound(g) && delta > 0 && (s.Slot? ==> s.total >= 0 && !s.deadline.Max?)
    ensures var active := Initialised(s, Some(created), i, g);
            (forall t :: now <= t < now + Window(g) ==> SlotSum(Added(s, delta, now, created, i, g), t, g) > 0) <==>
            match active.deadline
            case At(p) => p <= now || p >= now + Window(g)
            case _ => true
  {
    var active, s' := Initialised(s, Some(created), i, g), Added(s, delta, now, created, i, g);
    NextDeadlineReach(created, now, g);
    TimesAdd(g.len - 1, 1, g.interval);
    assert Times(1, g.interval) == g.interval;
    hide Times, NextDeadline, FirstDeadline;
    var p := s'.deadline.time;
    forall t
      ensures SlotSum(s', t, g) > 0 <==> t < p
    {
      if 0.0 < p - t < g.interval {
        Fraction(s'.total, p - t, g.interval);
      }
    }
    if now < p < now + Window(g) {
      assert SlotSum(s', p, g) == 0;
    }
  }

  lemma {:induction false} LastGrows(tr: Trace, events: seq<Event>, g: Shape)
    requires Fitting(tr, g) && Legal(tr, events, g) && tr.creation.Some?
    ensures tr.last <= Run(tr, events, g).last && Run(tr, events, g).creation == tr.creation
    decreases |events|
  {
    if events != [] {
      LastGrows(Step(tr, events[0], g), events[1..], g);
    }
  }

  /** A phase is not left before it expires: what it counts only grows. */
  lemma {:induction false} PhaseStays(tr: Trace, events: seq<Event>, g: Shape, i: nat, p: real)
    requires Fitting(tr, g) && Legal(tr, events, g) && tr.creation.Some? && i < g.len
    requires tr.slots[i].Slot? && tr.slots[i].deadline == At(p) && Run(tr, events, g).last < p
    ensures var r := Run(tr, events, g);
            && r.slots[i].Slot? && r.slots[i].deadline == At(p) && r.slots[i].total >= tr.slots[i].total
            && tr.live[i] <= r.live[i]
    decreases |events|
  {
    if events != [] {
      var next := Step(tr, events[0], g);
      LastGrows(next, events[1..], g);
      PhaseStays(next, events[1..], g, i, p);
    }
  }

  /** Whatever is written and read after it, a write in slot `i` at `now` is among the live ones and
      counted throughout the rolling window. */
  ghost predicate CountedAlways(tr: Trace, i: nat, now: real, g: Shape)
    requires Fitting(tr, g) && i < g.len
  {
    forall events: seq<Event>, t: real :: CountedAfter(tr, events, i, t, now, g)
  }

  ghost predicate CountedAfter(tr: Trace, events: seq<Event>, i: nat, t: real, now: real, g: Shape)
    requires Fitting(tr, g) && i < g.len
  {
    Legal(tr, events, g) && Run(tr, events, g).last <= t < now + Window(g) ==>
      tr.live[i] <= Run(tr, events, g).live[i] && SlotSum(Run(tr, events, g).slots[i], t, g) > 0
  }

  lemma {:induction false} TotalIsSum(es: seq<Event>)
    requires NonNegative(es)
    ensures Total(es) >= 0
  {
    YoungBounds(es, 0.0, 0.0);
  }

  lemma StepCounts(tr: Trace, e: Event, g: Shape, i: nat)
    requires Fitting(tr, g) && Invariant(tr, g) && Follows(tr, e) && e.Add? && e.delta > 0
    requires i == ChunkIndex(Some(Created(tr, e.at)), e.at, g)
    ensures var s := tr.slots[i]; s.Slot? ==> s.total >= 0 && !s.deadline.Max?
    ensures var s' := Step(tr, e, g).slots[i]; s'.Slot? && s'.deadline.At? && s'.total > 0
    ensures Step(tr, e, g).slots[i] == Added(tr.slots[i], e.delta, e.at, Created(tr, e.at), i, g)
  {
    assert Counts(tr.slots[i], tr.live[i], tr.creation, tr.last, i, g);
    TotalIsSum(tr.live[i]);
  }

  /** After every run, and for every continuation of it: a write is counted throughout the rolling
      window exactly when it starts a new phase, or joins one that outlives the window. */
  lemma CountedInEveryRun(g: Shape, before: seq<Event>, e: Event)
    requires Sound(g) && Legal(Init(g), before, g)
    requires Follows(Run(Init(g), before, g), e) && e.Add? && e.delta > 0
    ensures var tr := Run(Init(g), before, g);
            var created := Created(tr, e.at);
            var i := ChunkIndex(Some(created), e.at, g);
            var active := Initialised(tr.slots[i], Some(created), i, g);
            CountedAlways(Step(tr, e, g), i, e.at, g) <==>
            match active.deadline
            case At(p) => p <= e.at || p >= e.at + Window(g)
            case _ => true
  {
    NothingYoung(g.len, 0.0, Reach(g));
    InvariantRun(Init(g), before, g, 0.0);
    var tr := Run(Init(g), before, g);
    hide Run, Legal, Invariant;
    ContinuedExactly(tr, e, g);
  }

  lemma ContinuedExactly(tr: Trace, e: Event, g: Shape)
    requires Fitting(tr, g) && Invariant(tr, g) && Follows(tr, e) && e.Add? && e.delta > 0
    ensures var created := Created(tr, e.at);
            var i := ChunkIndex(Some(created), e.at, g);
            var active := Initialised(tr.slots[i], Some(created), i, g);
            CountedAlways(Step(tr, e, g), i, e.at, g) <==>
            match active.deadline
            case At(p) => p <= e.at || p >= e.at + Window(g)
            case _ => true
  {
    var created, now := Created(tr, e.at), e.at;
    var i := ChunkIndex(Some(created), now, g);
    var next := Step(tr, e, g);
    StepCounts(tr, e, g, i);
    CountedThroughWindow(tr.slots[i], e.delta, now, created, i, g);
    assert next.last == now && next.creation.Some?;
    hide Step, Added, ChunkIndex, Invariant, Window, Initialised;
    if CountedAlways(next, i, now, g) {
      forall t | now <= t < now + Window(g)
        ensures SlotSum(next.slots[i], t, g) > 0
      {
        var none: seq<Event> := [];
        assert CountedAfter(next, none, i, t, now, g);
        assert Legal(next, none, g) && Run(next, none, g) == next;
      }
    }
    if forall t :: now <= t < now + Window(g) ==> SlotSum(next.slots[i], t, g) > 0 {
      Outlives(next, i, now, g);
    }
  }

  lemma Outlives(tr: Trace, i: nat, now: real, g: Shape)
    requires Fitting(tr, g) && i < g.len && tr.creation.Some? && tr.last == now
    requires tr.slots[i].Slot? && tr.slots[i].deadline.At? && tr.slots[i].total > 0
    requires forall t :: now <= t < now + Window(g) ==> SlotSum(tr.slots[i], t, g) > 0
    ensures CountedAlways(tr, i, now, g)
  {
    forall events: seq<Event>, t: real | true
      ensures CountedAfter(tr, events, i, t, now, g)
    {
      if Legal(tr, events, g) && Run(tr, events, g).last <= t < now + Window(g) {
        LastGrows(tr, events, g);
        StaysCounted(tr, events, g, i, t);
      }
    }
  }

  lemma StaysCounted(tr: Trace, events: seq<Event>, g: Shape, i: nat, t: real)
    requires Fitting(tr, g) && Legal(tr, events, g) && tr.creation.Some? && i < g.len
    requires tr.slots[i].Slot? && tr.slots[i].deadline.At? && tr.slots[i].total > 0
    requires SlotSum(tr.slots[i], t, g) > 0 && Run(tr, events, g).last <= t
    ensures tr.live[i] <= Run(tr, events, g).live[i] && SlotSum(Run(tr, events, g).slots[i], t, g) > 0
  {
    var p := tr.slots[i].deadline.time;
    assert t < p;
    PhaseStays(tr, events, g, i, p);
    hide Run, Legal;
    if p - t < g.interval {
      Fraction(Run(tr, events, g).slots[i].total, p - t, g.interval);
    }
  }

  lemma VanishingRun()
    ensures var g := Shape(3, 100.0);
            var events := [Add(0.0, 1), Add(350.0, 1), Add(640.0, 5)];
            && Legal(Init(g), events, g)
            && Run(Init(g), events, g).slots == [Slot(6, At(650.0)), Unset, Unset]
            && Run(Init(g), events, g).log == events
  {
    var g := Shape(3, 100.0);
    var a, b, c := Add(0.0, 1), Add(350.0, 1), Add(640.0, 5);
    assert Times(3, 100.0) == 300.0 && Times(4, 100.0) == 400.0 && Times(2, 100.0) == 200.0;
    IndexZero(0.0, 0);
    IndexZero(350.0, 1);
    IndexZero(640.0, 2);
    NextDeadlineReach(0.0, 350.0, g);
    assert Reach(g) == 300.0 && Window(g) == 200.0;
    hide ChunkIndex, Times, NextDeadline, Remainder, Elapsed, Young, Total, SlotsSum, Reach, Window;
    var t0 := Init(g);
    var t1 := Step(t0, a, g);
    assert t1.slots == [Slot(1, At(300.0)), Unset, Unset];
    var t2 := Step(t1, b, g);
    assert t2.slots == [Slot(1, At(650.0)), Unset, Unset];
    var t3 := Step(t2, c, g);
    assert t3.slots == [Slot(6, At(650.0)), Unset, Unset];
    assert [a, b, c][1..] == [b, c] && [b, c][1..] == [c] && [c][1..] == [];
    assert [c][0] == c && Legal(t3, [], g) && Run(t3, [], g) == t3;
    assert Legal(t2, [c], g) && Run(t2, [c], g) == t3;
    assert Legal(t1, [b, c], g) && Run(t1, [b, c], g) == t3;
    assert Legal(t0, [a, b, c], g) && Run(t0, [a, b, c], g) == t3;
  }

  lemma VanishedIsYoung()
    ensures Young([Add(0.0, 1), Add(350.0, 1), Add(640.0, 5)], 650.0, 200.0) == 5
  {
    var a, b, c := Add(0.0, 1), Add(350.0, 1), Add(640.0, 5);
    var es := [a, b, c];
    assert es[..2] == [a, b] && [a, b][..1] == [a];
    assert Young([a], 650.0, 200.0) == 0;
    assert Young([a, b], 650.0, 200.0) == 0;
  }

  lemma IndexZero(now: real, turns: int)
    requires Times(turns, 300.0) <= now < Times(turns, 300.0) + 100.0 && turns >= 0
    ensures ChunkIndex(Some(0.0), now, Shape(3, 100.0)) == 0
  {
    var x := Elapsed(Some(0.0), now, 100.0);
    assert x == now / 100.0;
    assert turns as real <= x / 3.0 < turns as real + 1.0;
    assert (x / 3.0).Floor == turns;
  }

  lemma NothingLeft(slots: seq<Slot>, g: Shape)
    requires g.interval > 0.0 && slots == [Slot(6, At(650.0)), Unset, Unset]
    ensures SlotsSum(slots, 650.0, g) == 0
  {
    assert slots[..2] == [slots[0], Unset] && slots[..2][..1] == [slots[0]] && [slots[0]][..0] == [];
    assert SlotsSum([slots[0]], 650.0, g) == 0;
    assert SlotsSum(slots[..2], 650.0, g) == 0;
  }

  /** A phase restarted in mid-interval does not outlive the window of the last writes that join it:
      here a delta is forgotten ten units after it was written, the window being two hundred. */
  lemma DeltaMayVanish()
    ensures var g := Shape(3, 100.0);
            var events := [Add(0.0, 1), Add(350.0, 1), Add(640.0, 5)];
            && Legal(Init(g), events, g)
            && SlotsSum(Run(Init(g), events, g).slots, 650.0, g) == 0
            && Young(Run(Init(g), events, g).log, 650.0, Window(g)) == 5
  {
    var g := Shape(3, 100.0);
    VanishingRun();
    VanishedIsYoung();
    assert Window(g) == 200.0;
    hide Run, Legal, Young;
    NothingLeft(Run(Init(g), [Add(0.0, 1), Add(350.0, 1), Add(640.0, 5)], g).slots, g);
  }
}
