/** Windowed statistics: an estimator fed from a ring of buckets that a clock ticker rotates. */
module StreamingStatistics {
  import opened Estimator
  import opened Optional

  /** A value together with the clock reading of the call that brought it. */
  datatype Sample = Sample(at: int, value: real)

  datatype Summary = Summary(count: int, mean: real, populationVariance: real, sampleVariance: real)

  // ---------------------------------------------------------------- the contents of the ring

  ghost function Values(s: seq<Sample>): (v: seq<real>)
    ensures |v| == |s|
  {
    seq(|s|, i requires 0 <= i < |s| => s[i].value)
  }

  ghost function Flat(slots: seq<seq<Sample>>): seq<Sample> {
    if slots == [] then [] else Flat(slots[..|slots| - 1]) + slots[|slots| - 1]
  }

  lemma {:induction false} FlatAt(slots: seq<seq<Sample>>, p: nat)
    requires p < |slots|
    ensures Flat(slots) == Flat(slots[..p]) + slots[p] + Flat(slots[p + 1..])
  {
    var k := |slots| - 1;
    if p == k {
      assert slots[p + 1..] == [];
    } else {
      FlatAt(slots[..k], p);
      assert slots[..k][..p] == slots[..p];
      assert slots[..k][p + 1..] == slots[p + 1..][..k - p - 1];
      assert slots[p + 1..][k - p - 1] == slots[k];
    }
  }

  /** Emptying one slot takes away exactly its own samples. */
  lemma FlatClear(slots: seq<seq<Sample>>, p: nat)
    requires p < |slots|
    ensures multiset(Flat(slots)) == multiset(Flat(slots[p := []])) + multiset(slots[p])
    ensures multiset(Values(Flat(slots))) == multiset(Values(Flat(slots[p := []]))) + multiset(Values(slots[p]))
    ensures Values([]) == []
  {
    FlatAt(slots, p);
    FlatAt(slots[p := []], p);
    assert slots[p := []][..p] == slots[..p] && slots[p := []][p + 1..] == slots[p + 1..];
    var a, b := Flat(slots[..p]), Flat(slots[p + 1..]);
    hide Flat;
    assert Flat(slots[p := []]) == a + b;
    assert Values(a + b) == Values(a) + Values(b);
    assert Values(a + slots[p] + b) == Values(a) + Values(slots[p]) + Values(b);
  }

  /** Appending to one slot adds exactly that sample. */
  lemma FlatAppend(slots: seq<seq<Sample>>, p: nat, s: Sample)
    requires p < |slots|
    ensures multiset(Flat(slots[p := slots[p] + [s]])) == multiset(Flat(slots)) + multiset{s}
    ensures multiset(Values(Flat(slots[p := slots[p] + [s]]))) == multiset(Values(Flat(slots))) + multiset{s.value}
    ensures Values(slots[p] + [s]) == Values(slots[p]) + [s.value]
  {
    assert Values(slots[p] + [s]) == Values(slots[p]) + [s.value];
    hide Flat, Values;
    var after, cleared := slots[p := slots[p] + [s]], slots[p := []];
    FlatClear(slots, p);
    assert after[p := []] == cleared by {
      hide *;
    }
    FlatClear(after, p);
    var a, b, rest := Flat(slots), Flat(after), Flat(cleared);
    Appended(multiset(a), multiset(b), multiset(rest), slots[p], s);
    Appended(multiset(Values(a)), multiset(Values(b)), multiset(Values(rest)), Values(slots[p]), s.value);
  }

  lemma Appended<T>(before: multiset<T>, after: multiset<T>, rest: multiset<T>, items: seq<T>, x: T)
    requires before == rest + multiset(items) && after == rest + multiset(items + [x])
    ensures after == before + multiset{x}
  {
    assert multiset(items + [x]) == multiset(items) + multiset{x};
  }

  /** How many ticks ago slot `i` was the current one, on a ring of `n` slots. */
  function Distance(ptr: int, i: int, n: int): int {
    if i <= ptr then ptr - i else ptr - i + n
  }

  /** The slot after `ptr` on a ring of `n` slots. */
  function Next(ptr: int, n: int): (next: int)
    requires 0 <= ptr < n
    ensures next == if ptr + 1 == n then 0 else ptr + 1
  {
    (ptr + 1) % n
  }

  function Span(ticks: int, interval: int): int {
    ticks * interval
  }

  /** A sample last current `j` ticks before the tick at `tick` was added within these bounds. */
  predicate InAge(at: int, tick: int, j: int, interval: int) {
    j >= 0 && Span(j - 1, interval) < tick - at <= Span(2 * j, interval)
  }

  /** Every sample's age fits its slot, `behind` of the ring's ticks not yet being on the clock. */
  ghost predicate Aged(slots: seq<seq<Sample>>, ptr: int, tick: int, interval: int, behind: int) {
    forall i, k :: 0 <= i < |slots| && 0 <= k < |slots[i]| ==>
      InAge(slots[i][k].at, tick, Distance(ptr, i, |slots|) - behind, interval)
  }

  /** Until the ring has come round, the slots ahead of the pointer are empty. */
  ghost predicate Unused(slots: seq<seq<Sample>>, ptr: int, rotated: bool) {
    !rotated ==> forall i :: 0 <= i < |slots| && ptr < i ==> slots[i] == []
  }

  /** One tick: the slot that becomes current is emptied, the others are one tick older. */
  lemma AgedTick(slots: seq<seq<Sample>>, ptr: int, tick: int, interval: int, behind: int)
    requires 0 <= ptr < |slots| && Aged(slots, ptr, tick, interval, behind)
    ensures Aged(slots[Next(ptr, |slots|) := []], Next(ptr, |slots|), tick, interval, behind + 1)
  {
    var n: int, next: int := |slots|, Next(ptr, |slots|);
    hide InAge, Next;
    var after: seq<seq<Sample>> := slots[next := []];
    forall i, k | 0 <= i < n && 0 <= k < |after[i]|
      ensures InAge(after[i][k].at, tick, Distance(next, i, n) - (behind + 1), interval)
    {
      assert i != next && after[i] == slots[i] && Distance(next, i, n) == Distance(ptr, i, n) + 1;
      assert InAge(slots[i][k].at, tick, Distance(ptr, i, n) - behind, interval);
    }
  }

  /** What sits in the slot that becomes current is older than all the other slots' ticks. */
  lemma DroppedAge(slots: seq<seq<Sample>>, ptr: int, tick: int, interval: int, behind: int, k: int)
    requires 0 <= ptr < |slots| && Aged(slots, ptr, tick, interval, behind)
    requires 0 <= k < |slots[Next(ptr, |slots|)]|
    ensures Span(|slots| - 2 - behind, interval) < tick - slots[Next(ptr, |slots|)][k].at
  {
    var n: int, next: int := |slots|, Next(ptr, |slots|);
    assert Distance(ptr, next, n) == n - 1;
    hide Next, Span;
    assert InAge(slots[next][k].at, tick, Distance(ptr, next, n) - behind, interval);
  }

  lemma SpanAdd(a: int, b: int, interval: int)
    ensures Span(a, interval) + Span(b, interval) == Span(a + b, interval)
  {
  }

  lemma SpanMono(a: int, b: int, interval: int)
    requires a <= b && interval > 0
    ensures Span(a, interval) <= Span(b, interval)
  {
    assert (b - a) * interval >= 0;
  }

  /** After all the ticks of one clock advance the ring is on the clock again: the ticker discards
      less than one interval, and ticks at least once. */
  lemma InAgeSettles(at: int, tick: int, j: int, interval: int, ticks: int, tick': int)
    requires interval > 0 && ticks > 0 && InAge(at, tick, j - ticks, interval)
    requires Span(ticks, interval) <= tick' - tick < Span(ticks + 1, interval)
    ensures InAge(at, tick', j, interval)
  {
    hide Span;
    SpanAdd(j - ticks - 1, ticks, interval);
    SpanAdd(2 * (j - ticks), ticks + 1, interval);
    SpanMono(2 * (j - ticks) + (ticks + 1), 2 * j, interval);
  }

  lemma AgedSettles(slots: seq<seq<Sample>>, ptr: int, tick: int, interval: int, ticks: int, tick': int)
    requires interval > 0 && ticks > 0 && Aged(slots, ptr, tick, interval, ticks)
    requires Span(ticks, interval) <= tick' - tick < Span(ticks + 1, interval)
    ensures Aged(slots, ptr, tick', interval, 0)
  {
    hide InAge, Span, Distance;
    forall i, k | 0 <= i < |slots| && 0 <= k < |slots[i]|
      ensures InAge(slots[i][k].at, tick', Distance(ptr, i, |slots|) - 0, interval)
    {
      InAgeSettles(slots[i][k].at, tick, Distance(ptr, i, |slots|), interval, ticks, tick');
    }
  }

  lemma AgedPush(slots: seq<seq<Sample>>, ptr: int, tick: int, interval: int, s: Sample)
    requires 0 <= ptr < |slots| && interval > 0 && Aged(slots, ptr, tick, interval, 0)
    requires tick <= s.at < tick + interval
    ensures Aged(slots[ptr := slots[ptr] + [s]], ptr, tick, interval, 0)
  {
    assert InAge(s.at, tick, 0, interval);
    hide InAge;
  }

  /** Every sample still held is younger than (2 * capacity - 1) intervals. */
  lemma HeldAge(slots: seq<seq<Sample>>, ptr: int, tick: int, interval: int, now: int, i: int, k: int)
    requires 0 <= ptr < |slots| && interval > 0 && Aged(slots, ptr, tick, interval, 0)
    requires now - tick < interval && 0 <= i < |slots| && 0 <= k < |slots[i]|
    ensures now - slots[i][k].at < Span(2 * |slots| - 1, interval)
  {
    var j := Distance(ptr, i, |slots|);
    assert InAge(slots[i][k].at, tick, j - 0, interval);
    SpanMono(2 * j, 2 * |slots| - 2, interval);
    SpanAdd(2 * |slots| - 2, 1, interval);
  }

  ghost predicate AllBefore(m: multiset<Sample>, limit: int) {
    forall s :: s in m ==> s.at < limit
  }

  lemma {:induction false} FlatIn(slots: seq<seq<Sample>>, s: Sample) returns (i: int, k: int)
    requires s in Flat(slots)
    ensures 0 <= i < |slots| && 0 <= k < |slots[i]| && slots[i][k] == s
  {
    var last := |slots| - 1;
    if s in slots[last] {
      i := last;
      k :| 0 <= k < |slots[last]| && slots[last][k] == s;
    } else {
      i, k := FlatIn(slots[..last], s);
    }
  }

  /** What is held comes from the log, keeps every sample of age up to (capacity - 1) intervals and
      none of (2 * capacity - 1) intervals or more. */
  ghost predicate Windowed(log: seq<Sample>, held: seq<seq<Sample>>, now: int, interval: int) {
    && multiset(Flat(held)) <= multiset(log)
    && (forall s: Sample :: now - s.at <= Span(|held| - 1, interval) ==> multiset(Flat(held))[s] == multiset(log)[s])
    && (forall s: Sample :: s in Flat(held) ==> now - s.at < Span(2 * |held| - 1, interval))
  }

  lemma Retained(log: seq<Sample>, held: seq<seq<Sample>>, gone: multiset<Sample>, ptr: int, tick: int,
                 interval: int, now: int)
    requires 0 <= ptr < |held| && interval > 0 && tick <= now < tick + interval
    requires Aged(held, ptr, tick, interval, 0) && AllBefore(gone, tick - Span(|held| - 1, interval))
    requires multiset(log) == multiset(Flat(held)) + gone
    ensures Windowed(log, held, now, interval)
  {
    hide Span, Aged, Flat;
    forall s | s in Flat(held)
      ensures now - s.at < Span(2 * |held| - 1, interval)
    {
      var i, k := FlatIn(held, s);
      HeldAge(held, ptr, tick, interval, now, i, k);
    }
    forall s: Sample | now - s.at <= Span(|held| - 1, interval)
      ensures multiset(Flat(held))[s] == multiset(log)[s]
    {
      assert s !in gone;
    }
  }

  /** A clock advance keeps a slot whole or drops it whole, and drops only samples whose age
      exceeds (capacity - 1) intervals. */
  ghost predicate Expired(before: seq<seq<Sample>>, after: seq<seq<Sample>>, limit: int) {
    |after| == |before| && forall i :: 0 <= i < |before| ==>
      after[i] == before[i] || (after[i] == [] && forall k :: 0 <= k < |before[i]| ==> before[i][k].at < limit)
  }

  lemma ExpiredStep(before: seq<seq<Sample>>, slots: seq<seq<Sample>>, next: int, limit: int)
    requires Expired(before, slots, limit) && 0 <= next < |slots|
    requires forall k :: 0 <= k < |slots[next]| ==> slots[next][k].at < limit
    ensures Expired(before, slots[next := []], limit)
  {
    var after: seq<seq<Sample>> := slots[next := []];
    forall i | 0 <= i < |before|
      ensures after[i] == before[i] || (after[i] == [] && forall k :: 0 <= k < |before[i]| ==> before[i][k].at < limit)
    {
      assert slots[i] == before[i] || (slots[i] == [] && forall k :: 0 <= k < |before[i]| ==> before[i][k].at < limit);
    }
  }

  lemma TakeLast(rest: multiset<real>, items: seq<real>, x: real)
    ensures x in rest + multiset(items + [x])
    ensures rest + multiset(items + [x]) - multiset{x} == rest + multiset(items)
  {
    assert multiset(items + [x]) == multiset(items) + multiset{x};
    var all := rest + multiset(items + [x]);
    assert all == rest + multiset(items) + multiset{x};
    assert all[x] >= 1;
  }

  lemma SameRest<T>(a: multiset<T>, b: multiset<T>, c: multiset<T>)
    requires a + c == b + c
    ensures a == b
  {
    forall x | true
      ensures a[x] == b[x]
    {
      assert (a + c)[x] == (b + c)[x];
    }
  }

  /** Taking `c` out of the samples leaves `kept`, and moves `c` from what is held to what is gone. */
  lemma Moved<T>(whole: multiset<T>, kept: multiset<T>, c: multiset<T>, gone: multiset<T>, log: multiset<T>)
    requires whole == kept + c && log == whole + gone
    ensures log == kept + (gone + c)
  {
  }

  // ---------------------------------------------------------------- what a clock advance does

  /** The ring as the clock sees it: its slots, the current one and the time of the last tick. */
  datatype Ring = Ring(slots: seq<seq<Sample>>, ptr: int, tick: int) {
    predicate Shaped() {
      0 <= ptr < |slots|
    }
  }

  /** After how many ticks slot `i` becomes the current one, on a ring of `n` slots. */
  function Reach(ptr: int, i: int, n: int): int {
    if i > ptr then i - ptr else i - ptr + n
  }

  function Forward(ptr: int, ticks: nat, n: int): (p: int)
    requires 0 <= ptr < n
    ensures 0 <= p < n
  {
    if ticks == 0 then ptr else Next(Forward(ptr, ticks - 1, n), n)
  }

  lemma {:induction false} ForwardWithin(ptr: int, ticks: nat, n: int)
    requires 0 <= ptr < n && ticks <= n
    ensures Forward(ptr, ticks, n) == if ptr + ticks < n then ptr + ticks else ptr + ticks - n
  {
    if ticks > 0 {
      ForwardWithin(ptr, ticks - 1, n);
    }
  }

  /** Exactly the next `ticks` slots after the current one are emptied; all of them, if there are no more. */
  ghost function Turned(slots: seq<seq<Sample>>, ptr: int, ticks: int): (after: seq<seq<Sample>>)
    ensures |after| == |slots|
  {
    seq(|slots|, i requires 0 <= i < |slots| => if Reach(ptr, i, |slots|) <= ticks then [] else slots[i])
  }

  lemma TurnedNone(slots: seq<seq<Sample>>, ptr: int)
    requires 0 <= ptr < |slots|
    ensures Turned(slots, ptr, 0) == slots
  {
  }

  lemma TurnedMore(slots: seq<seq<Sample>>, ptr: int, ticks: nat)
    requires 0 <= ptr < |slots|
    ensures var n := |slots|;
            Turned(slots, ptr, ticks)[Next(Forward(ptr, ticks, n), n) := []] == Turned(slots, ptr, ticks + 1)
  {
    var n: int := |slots|;
    var next := Forward(ptr, ticks + 1, n);
    if ticks < n {
      ForwardWithin(ptr, ticks + 1, n);
    }
    forall i | 0 <= i < n && i != next
      ensures Reach(ptr, i, n) <= ticks + 1 <==> Reach(ptr, i, n) <= ticks
    {
    }
    assert Reach(ptr, next, n) <= ticks + 1;
  }

  function Ticks(tick: int, interval: int, now: int): (ticks: int)
    requires interval > 0
  {
    (now - tick) / interval
  }

  /** The ring at the time `now`. A tick moves the last tick to the clock, whatever was left of it. */
  ghost function Advanced(r: Ring, interval: int, now: int): (r': Ring)
    requires r.Shaped() && interval > 0 && now >= r.tick
    ensures r'.Shaped() && |r'.slots| == |r.slots| && now >= r'.tick
  {
    var ticks := Ticks(r.tick, interval, now);
    Ring(Turned(r.slots, r.ptr, ticks), Forward(r.ptr, ticks, |r.slots|), if ticks > 0 then now else r.tick)
  }

  ghost function Held(r: Ring): multiset<real> {
    multiset(Values(Flat(r.slots)))
  }

  /** Some slot that the clock advance empties holds a sample. */
  ghost predicate Drops(r: Ring, interval: int, now: int)
    requires interval > 0
  {
    exists i :: 0 <= i < |r.slots| && Reach(r.ptr, i, |r.slots|) <= Ticks(r.tick, interval, now) && r.slots[i] != []
  }

  lemma {:induction false} FlatFewer(a: seq<seq<Sample>>, b: seq<seq<Sample>>)
    requires |a| == |b| && forall i :: 0 <= i < |a| ==> a[i] == [] || a[i] == b[i]
    ensures |Flat(a)| <= |Flat(b)| && (|Flat(a)| == |Flat(b)| <==> a == b)
  {
    if a != [] {
      var k := |a| - 1;
      FlatFewer(a[..k], b[..k]);
      assert a == a[..k] + [a[k]] && b == b[..k] + [b[k]];
    }
  }

  /** The number of samples stays the same if and only if none of the emptied slots holds one. */
  lemma CountKept(r: Ring, interval: int, now: int)
    requires r.Shaped() && interval > 0 && now >= r.tick
    ensures |Held(Advanced(r, interval, now))| <= |Held(r)|
    ensures |Held(Advanced(r, interval, now))| == |Held(r)| <==> !Drops(r, interval, now)
  {
    var r' := Advanced(r, interval, now);
    FlatFewer(r'.slots, r.slots);
    hide Flat, Values;
    if Drops(r, interval, now) {
      var i :| 0 <= i < |r.slots| && Reach(r.ptr, i, |r.slots|) <= Ticks(r.tick, interval, now) && r.slots[i] != [];
      assert r'.slots[i] != r.slots[i];
    } else {
      assert r'.slots == r.slots;
    }
  }

  /** Once the ring is up to the clock, it stays as it is until the clock moves. */
  lemma AdvancedTwice(r: Ring, interval: int, now: int)
    requires r.Shaped() && interval > 0 && now >= r.tick
    ensures Advanced(Advanced(r, interval, now), interval, now) == Advanced(r, interval, now)
  {
    var r' := Advanced(r, interval, now);
    NoTicks(now - r'.tick, interval) by {
      if Ticks(r.tick, interval, now) <= 0 {
        Few(now - r.tick, interval);
      }
    }
    TurnedNone(r'.slots, r'.ptr);
  }

  lemma NoTicks(diff: int, interval: int)
    requires 0 <= diff < interval
    ensures diff / interval == 0
  {
  }

  lemma Few(diff: int, interval: int)
    requires interval > 0 && diff >= 0 && diff / interval <= 0
    ensures diff < interval
  {
    if diff >= interval {
      Quotient(diff, interval);
    }
  }

  // ---------------------------------------------------------------- the ticker

  class TimeTicker {
    var lastTick: int
    const interval: int

    constructor (interval: int, now: int)
      ensures this.interval == interval && lastTick == now
    {
      this.interval := interval;
      lastTick := now;
    }

    /** The number of whole intervals since the last tick, the remainder being discarded. */
    method TickIfNeeded(now: int) returns (ticks: int)
      requires interval > 0 && now >= lastTick
      modifies this
      ensures lastTick == (if ticks > 0 then now else old(lastTick))
      ensures Span(ticks, interval) <= now - old(lastTick) < Span(ticks + 1, interval)
      ensures ticks >= 0 && now - lastTick < interval && lastTick <= now
      ensures ticks == Ticks(old(lastTick), interval, now)
    {
      var diff := now - lastTick;
      if diff >= interval {
        lastTick := now;
        ticks := diff / interval;
        Quotient(diff, interval);
      } else {
        NoTicks(diff, interval);
        ticks := 0;
      }
    }
  }

  lemma Quotient(diff: int, interval: int)
    requires 0 < interval <= diff
    ensures diff / interval >= 1
    ensures Span(diff / interval, interval) <= diff < Span(diff / interval + 1, interval)
  {
    assert diff / interval * interval + diff % interval == diff;
    if diff / interval <= 0 {
      SpanMono(diff / interval, 0, interval);
    }
    SpanAdd(diff / interval, 1, interval);
  }

  /** The effect of tick number `i` of a clock advance to `now` on the ring's bookkeeping. */
  lemma TickStep(before: seq<seq<Sample>>, slots: seq<seq<Sample>>, ptr: int, tick: int, interval: int,
                 i: int, ticks: int, now: int, gone: multiset<Sample>)
    requires 0 <= ptr < |slots| && interval > 0 && i < ticks && Span(ticks, interval) <= now - tick
    requires Aged(slots, ptr, tick, interval, i)
    requires Expired(before, slots, now - Span(|slots| - 1, interval))
    requires AllBefore(gone, now - Span(|slots| - 1, interval))
    ensures var next, limit := Next(ptr, |slots|), now - Span(|slots| - 1, interval);
            && Aged(slots[next := []], next, tick, interval, i + 1)
            && Expired(before, slots[next := []], limit)
            && AllBefore(gone + multiset(slots[next]), limit)
  {
    var n, next, limit := |slots|, Next(ptr, |slots|), now - Span(|slots| - 1, interval);
    hide Aged, Expired, Span, Next;
    AgedTick(slots, ptr, tick, interval, i);
    forall k | 0 <= k < |slots[next]|
      ensures slots[next][k].at < limit
    {
      DroppedAge(slots, ptr, tick, interval, i, k);
      SpanAdd(n - 1 - ticks, ticks, interval);
      SpanMono(n - 1 - ticks, n - 2 - i, interval);
    }
    ExpiredStep(before, slots, next, limit);
  }

  // ---------------------------------------------------------------- the ring of buckets

  /** A double-ended queue of which only the tail is used. */
  class Bucket {
    var items: seq<real>

    constructor ()
      ensures items == []
    {
      items := [];
    }

    method Push(x: real)
      modifies this
      ensures items == old(items) + [x]
    {
      items := items + [x];
    }

    method Pop() returns (x: Option<real>)
      modifies this
      ensures old(items) == [] ==> x == None && items == []
      ensures old(items) != [] ==> x.Some? && old(items) == items + [x.value]
    {
      if items == [] {
        return None;
      }
      x := Some(items[|items| - 1]);
      items := items[..|items| - 1];
    }
  }

  method NewBuckets(n: nat) returns (slices: seq<Bucket>)
    ensures |slices| == n && fresh(slices)
    ensures forall b :: b in slices ==> b.items == []
    ensures forall i, j :: 0 <= i < j < n ==> slices[i] != slices[j]
  {
    slices := [];
    while |slices| < n
      invariant |slices| <= n && fresh(slices)
      invariant forall b :: b in slices ==> b.items == []
      invariant forall i, j :: 0 <= i < j < |slices| ==> slices[i] != slices[j]
    {
      var b := new Bucket();
      slices := slices + [b];
    }
  }

  class SlidingTimeWindow {
    var ptr: int
    var rotated: bool
    const slices: seq<Bucket>
    const capacity: int

    ghost predicate Shaped()
      reads this`ptr
    {
      && capacity == |slices| > 0
      && 0 <= ptr < capacity
      && forall i, j :: 0 <= i < j < |slices| ==> slices[i] != slices[j]
    }

    constructor (slices: seq<Bucket>)
      requires |slices| > 0 && forall i, j :: 0 <= i < j < |slices| ==> slices[i] != slices[j]
      ensures Shaped() && this.slices == slices && ptr == 0 && !rotated
    {
      this.slices := slices;
      capacity := |slices|;
      ptr := 0;
      rotated := false;
    }

    method Tick() returns (popped: Bucket?, current: Bucket)
      requires Shaped()
      modifies this
      ensures Shaped() && ptr == Next(old(ptr), capacity) && rotated == (old(rotated) || ptr == 0)
      ensures current == slices[ptr] && popped == if rotated then current else null
    {
      ptr := Next(ptr, capacity);
      rotated := rotated || ptr == 0;
      current := slices[ptr];
      popped := if rotated then current else null;
    }
  }

  // ---------------------------------------------------------------- the statistics

  ghost function MeanOf(m: multiset<real>): real {
    if |m| == 0 then 0.0 else Mean(m)
  }

  /** The mean squared deviation from the mean. */
  ghost function VarianceOf(m: multiset<real>): real {
    if |m| == 0 then 0.0 else Deviations(m, Mean(m)) / (|m| as real)
  }

  ghost function SampleVarianceOf(m: multiset<real>): real {
    if |m| <= 1 then 0.0 else Deviations(m, Mean(m)) / ((|m| - 1) as real)
  }

  class StreamingStats {
    const window: SlidingTimeWindow
    const ticker: TimeTicker
    const estimator: OnlineNormalEstimator
    var currentWindow: Bucket
    /** What each slot holds, every sample ever brought, and those the window has let go. */
    ghost var held: seq<seq<Sample>>
    ghost var log: seq<Sample>
    ghost var gone: multiset<Sample>

    ghost predicate Linked()
      reads this, window, window.slices
    {
      && window.Shaped()
      && |held| == |window.slices|
      && currentWindow == window.slices[window.ptr]
      && Unused(held, window.ptr, window.rotated)
      && forall i :: 0 <= i < |held| ==> window.slices[i].items == Values(held[i])
    }

    /** The estimator describes exactly what the ring holds; nothing is lost from the log. */
    ghost predicate Counted()
      reads this, estimator
    {
      && estimator.Valid()
      && estimator.samples == multiset(Values(Flat(held)))
      && multiset(log) == multiset(Flat(held)) + gone
    }

    ghost predicate Timed()
      reads this, window`ptr, ticker
    {
      && ticker.interval > 0
      && Aged(held, window.ptr, ticker.lastTick, ticker.interval, 0)
      && AllBefore(gone, ticker.lastTick - Span(|held| - 1, ticker.interval))
    }

    /** The ring with the samples in its slots. */
    ghost function Now(): (r: Ring)
      reads this, window`ptr, ticker
    {
      Ring(held, window.ptr, ticker.lastTick)
    }

    ghost predicate Valid()
      reads this, window, window.slices, ticker, estimator
      ensures Valid() ==> Now().Shaped() && ticker.interval > 0
    {
      Linked() && Counted() && Timed()
    }

    constructor (windowSize: int, interval: int, now: int)
      requires 0 < interval && 0 < windowSize
      ensures Valid() && log == [] && Flat(held) == []
      ensures fresh(window) && fresh(ticker) && fresh(estimator) && fresh(window.slices)
      ensures Span(|held| - 1, ticker.interval) < windowSize <= Span(|held|, ticker.interval)
      ensures ticker.interval == interval && Now() == Ring(Empty(|held|), 0, now)
    {
      var capacity := Ceiling(windowSize, interval);
      hide Span, InAge, Describes;
      var slices := NewBuckets(capacity);
      window := new SlidingTimeWindow(slices);
      ticker := new TimeTicker(interval, now);
      estimator := new OnlineNormalEstimator();
      currentWindow := slices[0];
      held := Empty(|slices|);
      log := [];
      gone := multiset{};
      new;
      FlatNone(|slices|);
    }

    /** Takes the samples of the slot that became current out of the estimator. */
    method Rotate(popped: Bucket?, current: Bucket)
      requires estimator.Valid()
      requires popped != null ==> multiset(popped.items) <= estimator.samples
      modifies this`currentWindow, popped, estimator
      ensures estimator.Valid() && currentWindow == current
      ensures popped != null ==> popped.items == [] &&
                                 old(estimator.samples) == estimator.samples + multiset(old(popped.items))
      ensures popped == null ==> estimator.samples == old(estimator.samples)
    {
      hide *;
      if popped != null {
        ghost var rest, pending := estimator.samples - multiset(popped.items), popped.items;
        assert estimator.samples == rest + multiset(pending);
        var value := popped.Pop();
        while value.Some?
          invariant estimator.Valid() && estimator.samples == rest + multiset(pending)
          invariant pending == if value.Some? then popped.items + [value.value] else popped.items
          invariant value.None? ==> popped.items == []
          decreases |pending|
        {
          TakeLast(rest, popped.items, value.value);
          var r := estimator.Remove(value.value);
          pending := popped.items;
          value := popped.Pop();
        }
      }
      currentWindow := current;
    }

    /** The tick handler: turns the ring by one slot and forgets what that slot held. */
    method OnTick()
      requires Linked() && Counted()
      modifies this, window, window.slices, estimator
      ensures Linked() && Counted() && log == old(log)
      ensures window.ptr == Next(old(window.ptr), |held|) < |held| == |old(held)|
      ensures held == old(held)[window.ptr := []]
      ensures gone == old(gone) + multiset(old(held)[window.ptr])
    {
      hide Flat, Values, Describes;
      var popped, current := window.Tick();
      ghost var p := window.ptr;
      FlatClear(held, p);
      assert popped == null ==> held[p] == [];
      assert popped != null ==> popped.items == Values(held[p]);
      ghost var rest := multiset(Values(Flat(held[p := []])));
      assert estimator.samples == rest + multiset(Values(held[p]));
      Rotate(popped, current);
      SameRest(estimator.samples, rest, multiset(Values(held[p])));
      Moved(multiset(Flat(held)), multiset(Flat(held[p := []])), multiset(held[p]), gone, multiset(log));
      gone := gone + multiset(held[p]);
      held := held[p := []];
    }

    /** The ticker's loop over its handler, for a clock advance from `tick` to `now`. */
    method Turn(ticks: int, ghost tick: int, ghost now: int)
      requires Linked() && Counted() && Aged(held, window.ptr, tick, ticker.interval, 0) && ticker.interval > 0
      requires 0 <= ticks && Span(ticks, ticker.interval) <= now - tick
      requires AllBefore(gone, now - Span(|held| - 1, ticker.interval))
      modifies this, window, window.slices, estimator
      ensures Linked() && Counted() && log == old(log) && |held| == |old(held)|
      ensures Aged(held, window.ptr, tick, ticker.interval, ticks)
      ensures Expired(old(held), held, now - Span(|held| - 1, ticker.interval))
      ensures AllBefore(gone, now - Span(|held| - 1, ticker.interval))
      ensures 0 <= old(window.ptr) < |held| && held == Turned(old(held), old(window.ptr), ticks)
      ensures window.ptr == Forward(old(window.ptr), ticks, |held|)
    {
      assert 0 <= window.ptr < |held|;
      TurnedNone(held, window.ptr);
      hide Aged, Expired, AllBefore, Span, Next, Linked, Counted, Turned;
      ghost var before, interval, from := held, ticker.interval, window.ptr;
      ghost var limit := now - Span(|held| - 1, interval);
      ExpiredNone(held, gone, limit, limit);
      var i := 0;
      while i < ticks
        invariant 0 <= i <= ticks && Linked() && Counted() && log == old(log)
        invariant 0 <= window.ptr < |held| == |before|
        invariant Aged(held, window.ptr, tick, interval, i)
        invariant Expired(before, held, limit) && AllBefore(gone, limit)
        invariant held == Turned(before, from, i) && window.ptr == Forward(from, i, |before|)
      {
        TurnedMore(before, from, i);
        TickStep(before, held, window.ptr, tick, interval, i, ticks, now, gone);
        OnTick();
        i := i + 1;
      }
    }

    /** Brings the ring up to the clock. As many slots as there were ticks are emptied, in turn; what
        goes is older than (capacity - 1) intervals, what stays younger than (2 * capacity - 1). */
    method TickIfNeeded(now: int)
      requires Valid() && now >= ticker.lastTick
      modifies this, window, window.slices, ticker, estimator
      ensures Valid() && log == old(log)
      ensures ticker.lastTick <= now < ticker.lastTick + ticker.interval
      ensures Now() == Advanced(old(Now()), ticker.interval, now)
      ensures Expired(old(held), held, ticker.lastTick - Span(|held| - 1, ticker.interval))
      ensures Windowed(log, held, now, ticker.interval)
    {
      TurnedNone(held, window.ptr);
      hide Windowed, Aged, Expired, AllBefore, Span, Next, Linked, Counted, Turned;
      ghost var tick, before, interval := ticker.lastTick, held, ticker.interval;
      var ticks := ticker.TickIfNeeded(now);
      ghost var reached := ticker.lastTick;
      ExpiredNone(held, gone, tick - Span(|held| - 1, interval), reached - Span(|held| - 1, interval));
      if ticks > 0 {
        Turn(ticks, tick, reached);
        AgedSettles(held, window.ptr, tick, interval, ticks, now);
      }
      InWindow(now);
    }

    lemma InWindow(now: int)
      requires Valid() && ticker.lastTick <= now < ticker.lastTick + ticker.interval
      ensures Windowed(log, held, now, ticker.interval)
    {
      hide Aged, AllBefore, Flat, Values, Describes, Windowed;
      Retained(log, held, gone, window.ptr, ticker.lastTick, ticker.interval, now);
    }

    method Update(newValue: real, now: int)
      requires Valid() && now >= ticker.lastTick
      modifies this, window, window.slices, ticker, estimator
      ensures Valid() && log == old(log) + [Sample(now, newValue)]
      ensures var r := Advanced(old(Now()), ticker.interval, now);
              Now() == r.(slots := r.slots[r.ptr := r.slots[r.ptr] + [Sample(now, newValue)]])
    {
      hide Advanced, Windowed, Expired, Aged, AllBefore, Linked, Counted;
      TickIfNeeded(now);
      Record(newValue, now);
    }

    method Record(newValue: real, ghost now: int)
      requires Valid() && ticker.lastTick <= now < ticker.lastTick + ticker.interval
      modifies this, window.slices, estimator
      ensures Valid() && log == old(log) + [Sample(now, newValue)]
      ensures held == old(held)[window.ptr := old(held)[window.ptr] + [Sample(now, newValue)]] && gone == old(gone)
    {
      hide Flat, Values, Describes, Aged, AllBefore;
      ghost var p, s := window.ptr, Sample(now, newValue);
      FlatAppend(held, p, s);
      AgedPush(held, p, ticker.lastTick, ticker.interval, s);
      currentWindow.Push(newValue);
      estimator.Add(newValue);
      held := held[p := held[p] + [s]];
      log := log + [s];
    }

    /** What the ring holds, as the estimator sees it. */
    ghost function Current(): (m: multiset<real>)
      reads this, window`ptr, ticker
    {
      Held(Now())
    }

    /** The number of samples still in the window; every getter first brings the ring up to the clock. */
    method Count(now: int) returns (r: int)
      requires Valid() && now >= ticker.lastTick
      modifies this, window, window.slices, ticker, estimator
      ensures Valid() && log == old(log) && Windowed(log, held, now, ticker.interval)
      ensures r == |Current()| && Now() == Advanced(old(Now()), ticker.interval, now)
    {
      TickIfNeeded(now);
      hide Flat, Windowed;
      r := estimator.count;
    }

    method GetMean(now: int) returns (r: real)
      requires Valid() && now >= ticker.lastTick
      modifies this, window, window.slices, ticker, estimator
      ensures Valid() && log == old(log) && Windowed(log, held, now, ticker.interval)
      ensures r == MeanOf(Current()) && Now() == Advanced(old(Now()), ticker.interval, now)
    {
      hide *;
      TickIfNeeded(now);
      r := ReadMean();
    }

    method ReadMean() returns (r: real)
      requires Valid()
      ensures r == MeanOf(Current())
    {
      hide Flat, Mean, Aged, AllBefore;
      if estimator.count > 0 {
        DescribesMean(Current(), estimator.mean, estimator.mS);
      }
      r := estimator.mean;
    }

    method PopulationVariance(now: int) returns (r: real)
      requires Valid() && now >= ticker.lastTick
      modifies this, window, window.slices, ticker, estimator
      ensures Valid() && log == old(log) && Windowed(log, held, now, ticker.interval)
      ensures r == VarianceOf(Current()) && Now() == Advanced(old(Now()), ticker.interval, now)
    {
      hide *;
      TickIfNeeded(now);
      r := ReadVariance();
    }

    method ReadVariance() returns (r: real)
      requires Valid()
      ensures r == VarianceOf(Current())
    {
      hide Flat, Mean, Deviations, Aged, AllBefore;
      r := estimator.Variance();
    }

    method SampleVariance(now: int) returns (r: real)
      requires Valid() && now >= ticker.lastTick
      modifies this, window, window.slices, ticker, estimator
      ensures Valid() && log == old(log) && Windowed(log, held, now, ticker.interval)
      ensures r == SampleVarianceOf(Current()) && Now() == Advanced(old(Now()), ticker.interval, now)
    {
      hide *;
      TickIfNeeded(now);
      r := ReadSampleVariance();
    }

    method ReadSampleVariance() returns (r: real)
      requires Valid()
      ensures r == SampleVarianceOf(Current())
    {
      hide Flat, Mean, Deviations, Aged, AllBefore;
      r := estimator.VarianceUnbiased();
    }

    /** The count is read as it stands; each other field first brings the ring up to its own reading of
        the clock. So the count is that of the samples behind the other fields if and only if no
        slot emptied on the way holds a sample. */
    method GetSummary(t1: int, t2: int, t3: int) returns (r: Summary)
      requires Valid() && ticker.lastTick <= t1 <= t2 <= t3
      modifies this, window, window.slices, ticker, estimator
      ensures Valid() && log == old(log) && Windowed(log, held, t3, ticker.interval)
      ensures var r0 := old(Now());
              var r1 := Advanced(r0, ticker.interval, t1);
              var r2 := Advanced(r1, ticker.interval, t2);
              var r3 := Advanced(r2, ticker.interval, t3);
              && Now() == r3
              && r == Summary(|Held(r0)|, MeanOf(Held(r1)), VarianceOf(Held(r2)), SampleVarianceOf(Held(r3)))
              && (r.count == |Held(r1)| <==> !Drops(r0, ticker.interval, t1))
              && (r.count == |Held(r3)| <==>
                    && !Drops(r0, ticker.interval, t1) && !Drops(r1, ticker.interval, t2)
                    && !Drops(r2, ticker.interval, t3))
    {
      var count := ReadCount();
      hide Advanced, Windowed, Held, Drops, Linked, Counted, Timed;
      CountKept(Now(), ticker.interval, t1);
      var mean := GetMean(t1);
      CountKept(Now(), ticker.interval, t2);
      var populationVariance := PopulationVariance(t2);
      CountKept(Now(), ticker.interval, t3);
      var sampleVariance := SampleVariance(t3);
      r := Summary(count, mean, populationVariance, sampleVariance);
    }

    method ReadCount() returns (r: int)
      requires Valid()
      ensures r == |Current()|
    {
      hide Flat, Values;
      r := estimator.count;
    }
  }

  // ---------------------------------------------------------------- a summary that disagrees with itself

  ghost function Start(): Ring {
    Ring([[], []], 0, 0)
  }

  ghost function Late(): Ring {
    Ring([[Sample(0, 5.0)], []], 0, 0)
  }

  ghost function Spent(): Ring {
    Ring([[], []], 0, 2)
  }

  lemma TwoSlots(n: nat)
    requires Span(n - 1, 1) < 2 <= Span(n, 1)
    ensures n == 2 && Ring(Empty(n), 0, 0) == Start()
  {
  }

  lemma StartStays()
    ensures Start().Shaped() && Start().tick == 0 && Advanced(Start(), 1, 0) == Start()
    ensures var r := Start(); r.(slots := r.slots[0 := r.slots[0] + [Sample(0, 5.0)]]) == Late()
  {
    TurnedNone(Start().slots, 0);
    assert Start().slots[0] + [Sample(0, 5.0)] == [Sample(0, 5.0)];
    assert Start().slots[0 := [Sample(0, 5.0)]] == Late().slots;
  }

  lemma LateExpires()
    ensures Late().Shaped() && Late().tick == 0 && Advanced(Late(), 1, 2) == Spent()
  {
    AllTurned(Late(), 2);
    ForwardWithin(0, 2, 2);
    hide Forward, Turned;
  }

  lemma AllTurned(r: Ring, ticks: nat)
    requires |r.slots| == 2 <= ticks && r.Shaped()
    ensures Turned(r.slots, r.ptr, ticks) == [[], []]
  {
    var after := Turned(r.slots, r.ptr, ticks);
    assert after[0] == [] && after[1] == [];
  }

  lemma SpentStays()
    ensures Spent().Shaped() && Spent().tick == 2 && Advanced(Spent(), 1, 2) == Spent()
  {
    TurnedNone(Spent().slots, 0);
  }

  lemma LateHeld()
    ensures |Held(Late())| == 1
    ensures var m := Held(Spent()); MeanOf(m) == VarianceOf(m) == SampleVarianceOf(m) == 0.0
  {
    assert Flat([[Sample(0, 5.0)], []]) == [Sample(0, 5.0)] by {
      assert [[Sample(0, 5.0)], []][..1] == [[Sample(0, 5.0)]] && [[Sample(0, 5.0)]][..0] == [];
    }
    assert Spent().slots == Empty(2);
    FlatNone(2);
  }

  /** A summary that counts a sample its other fields no longer include. */
  method LateSummary() returns (r: Summary)
    ensures r == Summary(1, 0.0, 0.0, 0.0)
  {
    var stats := new StreamingStats(2, 1, 0);
    hide *;
    TwoSlots(|stats.held|);
    StartStays();
    assert stats.Now() == Start();
    FirstUpdate(stats);
    r := SecondSummary(stats);
  }

  method FirstUpdate(stats: StreamingStats)
    requires stats.Valid() && stats.Now() == Start() && stats.ticker.interval == 1
    modifies stats, stats.window, stats.window.slices, stats.ticker, stats.estimator
    ensures stats.Valid() && stats.Now() == Late()
  {
    StartStays();
    hide Advanced, StreamingStats.Valid;
    stats.Update(5.0, 0);
  }

  method SecondSummary(stats: StreamingStats) returns (r: Summary)
    requires stats.Valid() && stats.Now() == Late() && stats.ticker.interval == 1
    modifies stats, stats.window, stats.window.slices, stats.ticker, stats.estimator
    ensures r == Summary(1, 0.0, 0.0, 0.0)
  {
    LateExpires();
    SpentStays();
    LateHeld();
    hide Advanced, StreamingStats.Valid, Late, Spent, Held, Drops;
    r := stats.GetSummary(2, 2, 2);
  }

  lemma ExpiredNone(slots: seq<seq<Sample>>, gone: multiset<Sample>, earlier: int, limit: int)
    requires earlier <= limit && AllBefore(gone, earlier)
    ensures Expired(slots, slots, limit) && AllBefore(gone, limit)
  {
  }

  ghost function Empty(n: nat): (slots: seq<seq<Sample>>)
    ensures |slots| == n && forall i :: 0 <= i < n ==> slots[i] == []
  {
    seq(n, i => [])
  }

  lemma {:induction false} FlatNone(n: nat)
    ensures Flat(Empty(n)) == []
  {
    if n > 0 {
      FlatNone(n - 1);
      assert Empty(n)[..n - 1] == Empty(n - 1);
    }
  }

  function Ceiling(windowSize: int, interval: int): (slots: int)
    requires 0 < interval && 0 < windowSize
    ensures slots > 0 && Span(slots - 1, interval) < windowSize <= Span(slots, interval)
  {
    Quotient(windowSize + interval - 1, interval);
    var c := (windowSize + interval - 1) / interval;
    SpanAdd(c - 1, 1, interval);
    SpanAdd(c, 1, interval);
    c
  }
}
