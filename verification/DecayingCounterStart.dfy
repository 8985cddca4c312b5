/** The decaying counter during its first turn, before any chunk is used again. */
module DecayingCounterStart {
  import opened DecayingCounter
  import opened DecayingCounterLaws
  import opened Optional

  /** Chunk `i` first stands for the `i`-th interval since the first write. */
  lemma IndexEarly(created: real, now: real, g: Shape)
    requires Sound(g) && created <= now < created + Times(g.len, g.interval)
    ensures var i := ChunkIndex(Some(created), now, g);
            created + Times(i, g.interval) <= now < created + Times(i + 1, g.interval)
  {
    var x := Elapsed(Some(created), now, g.interval);
    var i := ChunkIndex(Some(created), now, g);
    assert i == Remainder(x, g.len).Floor;
    hide ChunkIndex, Elapsed, Remainder, Times;
    ElapsedTimes(Some(created), now, g.interval);
    FirstTurn(x, g.len, g.interval, now - created);
    RemainderSmall(x, g.len);
    WithinIndex(x, i, g.interval, now - created);
  }

  lemma FirstTurn(x: real, n: nat, interval: real, d: real)
    requires n > 0 && interval > 0.0 && 0.0 <= x && x * interval == d && d < Times(n, interval)
    ensures x < n as real && (x / n as real).Floor == 0
  {
    Quotient(x, n as real, interval);
  }

  lemma WithinIndex(x: real, i: int, interval: real, d: real)
    requires interval > 0.0 && x * interval == d && i == x.Floor
    ensures d < Times(i + 1, interval)
  {
    Scales(x, (i + 1) as real, interval);
  }

  lemma RemainderSmall(x: real, n: nat)
    requires n > 0 && (x / n as real).Floor == 0
    ensures Remainder(x, n) == x
  {
    assert Times(0, n as real) == 0.0;
  }

  lemma Quotient(x: real, n: real, interval: real)
    requires n > 0.0 && interval > 0.0 && 0.0 <= x && x * interval < n * interval
    ensures x < n && (x / n).Floor == 0
  {
    DividedLess(x, n, interval);
    var q := x / n;
    assert q * n == x;
    DividedLess(q, 1.0, n);
    if q < 0.0 {
      Scales(q, 0.0, n);
    }
  }

  lemma Scales(a: real, b: real, n: real)
    requires a < b && n > 0.0
    ensures a * n < b * n
  {
  }

  function Amounts(s: Slot): int {
    if s.Slot? then s.total else 0
  }

  /** Nothing has expired: the phase of slot `i` lasts until the ring has come round to it, and was
      empty if it was set up before the first write. */
  ghost predicate SlotEarly(s: Slot, creation: Option<real>, i: nat, g: Shape) {
    match s
    case Unset => true
    case Slot(total, Undefined) => total == 0
    case Slot(total, At(p)) => creation.Some? && p >= creation.value + Times(g.len + i, g.interval)
    case Slot(_, Max) => false
  }

  ghost predicate Early(tr: Trace, g: Shape)
    requires Fitting(tr, g)
  {
    && (forall i :: 0 <= i < g.len ==> SlotEarly(tr.slots[i], tr.creation, i, g))
    && Totals(tr.slots) == Total(tr.log)
    && (tr.creation.None? ==> tr.log == [])
  }

  lemma {:induction false} TotalsUpdate(slots: seq<Slot>, i: nat, s: Slot)
    requires i < |slots|
    ensures Totals(slots[i := s]) == Totals(slots) - Amounts(slots[i]) + Amounts(s)
  {
    var k := |slots| - 1;
    if i == k {
      assert slots[i := s][..k] == slots[..k];
    } else {
      TotalsUpdate(slots[..k], i, s);
      assert slots[i := s][..k] == slots[..k][i := s];
    }
  }

  lemma {:induction false} TotalsSame(a: seq<Slot>, b: seq<Slot>)
    requires |a| == |b| && forall i :: 0 <= i < |a| ==> Amounts(a[i]) == Amounts(b[i])
    ensures Totals(a) == Totals(b)
  {
    if a != [] {
      TotalsSame(a[..|a| - 1], b[..|b| - 1]);
    }
  }

  lemma {:induction false} TotalsBlank(n: nat)
    ensures Totals(Blank(n)) == 0
  {
    if n > 0 {
      TotalsBlank(n - 1);
      assert Blank(n)[..n - 1] == Blank(n - 1);
    }
  }

  /** A write in the first turn adds to its slot, and its phase outlives the window. */
  lemma AddedEarly(s: Slot, delta: int, now: real, created: real, creation: Option<real>, i: nat, g: Shape)
    requires Sound(g) && i < g.len && SlotEarly(s, creation, i, g) && (creation.Some? ==> creation.value == created)
    requires created + Times(i, g.interval) <= now < created + Times(i + 1, g.interval)
    ensures var r := Added(s, delta, now, created, i, g);
            && SlotEarly(r, Some(created), i, g) && Amounts(r) == Amounts(s) + delta
            && r.deadline.At? && r.deadline.time >= now + Window(g)
  {
    TimesAdd(g.len, i, g.interval);
    TimesAdd(g.len - 1, i + 1, g.interval);
    TimesUpTo(i + 1, g.len + i, g.interval);
    NextDeadlineReach(created, now, g);
    TimesUpTo(g.len - 1, g.len, g.interval);
    hide Times, NextDeadline;
  }

  lemma TimesUpTo(a: int, b: int, interval: real)
    requires a <= b && interval > 0.0
    ensures Times(a, interval) <= Times(b, interval)
  {
    assert (b - a) as real * interval >= 0.0;
  }

  lemma EarlyRead(tr: Trace, e: Event, g: Shape)
    requires Fitting(tr, g) && DecayingCounterLaws.Follows(tr, e) && Early(tr, g) && e.Read?
    ensures Early(Step(tr, e, g), g)
  {
    var r := Step(tr, e, g);
    forall i | 0 <= i < g.len
      ensures SlotEarly(r.slots[i], r.creation, i, g) && Amounts(r.slots[i]) == Amounts(tr.slots[i])
    {
      assert SlotEarly(tr.slots[i], tr.creation, i, g);
    }
    TotalsSame(r.slots, tr.slots);
  }

  lemma EarlyAdd(tr: Trace, e: Event, g: Shape)
    requires Fitting(tr, g) && DecayingCounterLaws.Follows(tr, e) && Early(tr, g) && e.Add?
    requires e.at < Created(tr, e.at) + Times(g.len, g.interval)
    ensures Early(Step(tr, e, g), g)
    ensures var i := ChunkIndex(Some(Created(tr, e.at)), e.at, g);
            var s := Step(tr, e, g).slots[i];
            s.Slot? && s.deadline.At? && s.deadline.time >= e.at + Window(g)
  {
    var created, r := Created(tr, e.at), Step(tr, e, g);
    var i := ChunkIndex(Some(created), e.at, g);
    IndexEarly(created, e.at, g);
    assert SlotEarly(tr.slots[i], tr.creation, i, g);
    AddedEarly(tr.slots[i], e.delta, e.at, created, tr.creation, i, g);
    TotalsUpdate(tr.slots, i, r.slots[i]);
    PushTotals(tr.log, e, 0.0, 0.0);
    hide Times, Added, Total, Totals, ChunkIndex, Window;
    forall j | 0 <= j < g.len
      ensures SlotEarly(r.slots[j], r.creation, j, g)
    {
      assert SlotEarly(tr.slots[j], tr.creation, j, g);
    }
  }

  lemma {:induction false} EarlyRun(tr: Trace, events: seq<Event>, g: Shape)
    requires Fitting(tr, g) && Legal(tr, events, g) && Early(tr, g)
    requires var r := Run(tr, events, g); r.creation.Some? ==> r.last < r.creation.value + Times(g.len, g.interval)
    ensures Early(Run(tr, events, g), g)
    decreases |events|
  {
    if events != [] {
      var e := events[0];
      var next := Step(tr, e, g);
      if e.Read? {
        EarlyRead(tr, e, g);
      } else {
        LastGrows(next, events[1..], g);
        EarlyAdd(tr, e, g);
      }
      hide Early, Step, Times;
      EarlyRun(next, events[1..], g);
    }
  }

  lemma EarlyInit(g: Shape)
    requires Sound(g)
    ensures Early(Init(g), g)
  {
    TotalsBlank(g.len);
  }

  /** A write less than one turn of the ring after the first one is counted throughout the rolling
      window, whatever came before it and whatever follows. */
  lemma EarlyWriteCounted(g: Shape, before: seq<Event>, e: Event)
    requires Sound(g) && Legal(Init(g), before, g)
    requires DecayingCounterLaws.Follows(Run(Init(g), before, g), e) && e.Add? && e.delta > 0
    requires var tr := Run(Init(g), before, g);
             tr.creation.Some? ==> e.at - tr.creation.value < g.len as real * g.interval
    ensures var next := Step(Run(Init(g), before, g), e, g);
            exists i :: && 0 <= i < g.len && next.live[i] != [] && next.live[i][|next.live[i]| - 1] == e
                        && CountedAlways(next, i, e.at, g)
  {
    hide Run, Legal, Step, Times, Early, Invariant, CountedAlways, Window;
    ReachedEarly(g, before, g.len as real * g.interval);
    EarlyWriteOn(Run(Init(g), before, g), e, g);
  }

  lemma ReachedEarly(g: Shape, events: seq<Event>, span: real)
    requires Sound(g) && Legal(Init(g), events, g) && span <= g.len as real * g.interval
    requires var r := Run(Init(g), events, g); r.creation.Some? ==> r.last < r.creation.value + span
    ensures Early(Run(Init(g), events, g), g) && Invariant(Run(Init(g), events, g), g)
  {
    EarlyInit(g);
    NothingYoung(g.len, 0.0, Reach(g));
    assert Invariant(Init(g), g);
    assert span <= Times(g.len, g.interval);
    hide Early, Invariant, Times, Run, Legal, Init;
    EarlyRun(Init(g), events, g);
    InvariantRun(Init(g), events, g, 0.0);
  }

  lemma LiveLast(tr: Trace, e: Event, g: Shape)
    requires Fitting(tr, g) && DecayingCounterLaws.Follows(tr, e) && e.Add?
    ensures var live := Step(tr, e, g).live[ChunkIndex(Some(Created(tr, e.at)), e.at, g)];
            live != [] && live[|live| - 1] == e
  {
    hide ChunkIndex, Added, Initialised;
  }

  lemma EarlyWriteOn(tr: Trace, e: Event, g: Shape)
    requires Fitting(tr, g) && Early(tr, g) && Invariant(tr, g)
    requires DecayingCounterLaws.Follows(tr, e) && e.Add? && e.delta > 0
    requires tr.creation.Some? ==> e.at - tr.creation.value < g.len as real * g.interval
    ensures var next := Step(tr, e, g);
            exists i :: && 0 <= i < g.len && next.live[i] != [] && next.live[i][|next.live[i]| - 1] == e
                        && CountedAlways(next, i, e.at, g)
  {
    var created, next := Created(tr, e.at), Step(tr, e, g);
    var i := ChunkIndex(Some(created), e.at, g);
    Scales(0.0, g.len as real, g.interval);
    var turn := Times(g.len, g.interval);
    assert turn == g.len as real * g.interval > 0.0;
    hide Times, Early, Step, ChunkIndex, Window, Invariant, CountedAlways, Added, Initialised;
    LiveLast(tr, e, g);
    EarlyAdd(tr, e, g);
    EarlyCounted(tr, e, g, i);
  }

  lemma EarlyCounted(tr: Trace, e: Event, g: Shape, i: nat)
    requires Fitting(tr, g) && Invariant(tr, g) && DecayingCounterLaws.Follows(tr, e) && e.Add? && e.delta > 0
    requires i == ChunkIndex(Some(Created(tr, e.at)), e.at, g)
    requires var s := Step(tr, e, g).slots[i]; s.Slot? && s.deadline.At? && s.deadline.time >= e.at + Window(g)
    ensures CountedAlways(Step(tr, e, g), i, e.at, g)
  {
    var next := Step(tr, e, g);
    StepCounts(tr, e, g, i);
    var p := next.slots[i].deadline.time;
    assert next.last == e.at && next.creation.Some?;
    forall t | e.at <= t < e.at + Window(g)
      ensures SlotSum(next.slots[i], t, g) > 0
    {
      if p - t < g.interval {
        Fraction(next.slots[i].total, p - t, g.interval);
      }
    }
    hide Step, ChunkIndex, Invariant, Window;
    Outlives(next, i, e.at, g);
  }

  /** As long as the window reaches back to the first write, the sum is the total of all deltas. */
  lemma EarlySumExact(g: Shape, events: seq<Event>, t: real)
    requires Sound(g) && Legal(Init(g), events, g)
    requires var r := Run(Init(g), events, g);
             r.creation.Some? && r.last <= t <= r.creation.value + (g.len - 1) as real * g.interval
    ensures SlotsSum(Run(Init(g), events, g).slots, t, g) == Total(Run(Init(g), events, g).log)
  {
    hide Run, Legal, Step, Times, Early, Invariant, SlotsSum, Total;
    ReachedEarlier(g, events);
    EarlySum(Run(Init(g), events, g), g, t);
  }

  lemma ReachedEarlier(g: Shape, events: seq<Event>)
    requires Sound(g) && Legal(Init(g), events, g)
    requires var r := Run(Init(g), events, g);
             r.creation.Some? && r.last <= r.creation.value + (g.len - 1) as real * g.interval
    ensures Early(Run(Init(g), events, g), g)
  {
    hide Early, Invariant, Run, Legal;
    var turn := g.len as real * g.interval;
    OneLess(g.len, g.interval);
    ReachedEarly(g, events, turn);
  }

  lemma OneLess(n: int, d: real)
    ensures (n - 1) as real * d + d == n as real * d
  {
  }

  lemma EarlySum(r: Trace, g: Shape, t: real)
    requires Fitting(r, g) && Early(r, g) && r.creation.Some?
    requires t <= r.creation.value + (g.len - 1) as real * g.interval
    ensures SlotsSum(r.slots, t, g) == Total(r.log)
  {
    TimesAdd(g.len - 1, 1, g.interval);
    assert Times(1, g.interval) == g.interval && Times(g.len - 1, g.interval) == (g.len - 1) as real * g.interval;
    hide Times, Total, SlotsSum, Totals;
    forall i | 0 <= i < g.len
      ensures SlotSum(r.slots[i], t, g) == Amounts(r.slots[i])
    {
      assert SlotEarly(r.slots[i], r.creation, i, g);
      TimesUpTo(g.len, g.len + i, g.interval);
    }
    SumOfAll(r.slots, t, g);
  }

  lemma {:induction false} SumOfAll(slots: seq<Slot>, t: real, g: Shape)
    requires g.interval > 0.0 && forall i :: 0 <= i < |slots| ==> SlotSum(slots[i], t, g) == Amounts(slots[i])
    ensures SlotsSum(slots, t, g) == Totals(slots)
  {
    if slots != [] {
      SumOfAll(slots[..|slots| - 1], t, g);
    }
  }
}
