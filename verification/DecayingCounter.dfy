/** A rolling-window counter kept in a ring of chunks, the oldest of which fades out. */
module DecayingCounter {
  import opened Optional
  import opened Rounding

  /** When a phase expires: at a time, never, or (if it was set up before the first write) at a time
      that compares false with everything. */
  datatype Deadline = At(time: real) | Max | Undefined

  predicate Before(t: real, dl: Deadline) {
    match dl
    case At(p) => t < p
    case Max => true
    case Undefined => false
  }

  function Decayed(total: int, left: real, interval: real): int
    requires interval != 0.0
  {
    Ceil(total as real * (left / interval))
  }

  /** What a phase contributes at time `t`. */
  function PhaseSum(total: int, dl: Deadline, t: real, interval: real): int
    requires interval > 0.0
  {
    match dl
    case At(p) => if t >= p then 0 else if p - t < interval then Decayed(total, p - t, interval) else total
    case Max => total
    case Undefined => total
  }

  // ---------------------------------------------------------------- a chunk as a value

  /** The active phase of a chunk, if the chunk has been used at all. */
  datatype Slot = Unset | Slot(total: int, deadline: Deadline)

  /** The shape of a counter: how many chunks, and how long each is current. */
  datatype Shape = Shape(len: nat, interval: real)

  predicate Sound(g: Shape) {
    g.len >= 3 && g.interval > 0.0
  }

  function Times(k: int, interval: real): real {
    k as real * interval
  }

  function FirstDeadline(creation: Option<real>, i: nat, g: Shape): Deadline {
    if creation.None? then Undefined else At(creation.value + Times(g.len + i, g.interval))
  }

  function NextDeadline(creation: real, now: real, g: Shape): real
    requires g.interval > 0.0
  {
    creation + ((now - creation) / g.interval + g.len as real) * g.interval
  }

  function Initialised(s: Slot, creation: Option<real>, i: nat, g: Shape): Slot {
    if s.Unset? then Slot(0, FirstDeadline(creation, i, g)) else s
  }

  function Added(s: Slot, delta: int, now: real, creation: real, i: nat, g: Shape): Slot
    requires g.interval > 0.0
  {
    var active := Initialised(s, Some(creation), i, g);
    if Before(now, active.deadline) then Slot(active.total + delta, active.deadline)
    else Slot(delta, At(NextDeadline(creation, now, g)))
  }

  function SlotSum(s: Slot, t: real, g: Shape): int
    requires g.interval > 0.0
  {
    if s.Unset? then 0 else PhaseSum(s.total, s.deadline, t, g.interval)
  }

  function SlotsSum(slots: seq<Slot>, t: real, g: Shape): int
    requires g.interval > 0.0
  {
    if slots == [] then 0 else SlotsSum(slots[..|slots| - 1], t, g) + SlotSum(slots[|slots| - 1], t, g)
  }

  /** JavaScript's remainder of a non-negative number. */
  function Remainder(x: real, n: nat): real
    requires n > 0
  {
    x - Times((x / n as real).Floor, n as real)
  }

  lemma RemainderBounds(x: real, n: nat)
    requires n > 0 && x >= 0.0
    ensures 0.0 <= Remainder(x, n) < n as real && Remainder(x, n) <= x
  {
    var m := n as real;
    var q := x / m;
    assert q * m == x && q >= 0.0;
    var k := q.Floor;
    var f := k as real;
    assert f <= q < f + 1.0 && k >= 0;
    QuotientBounds(x, q, f, m);
    assert Remainder(x, n) == x - f * m;
  }

  lemma QuotientBounds(x: real, q: real, f: real, m: real)
    requires m > 0.0 && q * m == x && 0.0 <= f <= q < f + 1.0
    ensures 0.0 <= x - f * m
    ensures x - f * m < m
    ensures f * m >= 0.0
  {
    var d := q - f;
    assert x - f * m == d * m;
    assert 0.0 <= d < 1.0;
    MulMono(0.0, d, m);
    MulLess(d, 1.0, m);
    MulMono(0.0, f, m);
  }

  lemma MulMono(a: real, b: real, n: real)
    requires a <= b && n > 0.0
    ensures a * n <= b * n
  {
  }

  lemma MulLess(a: real, b: real, n: real)
    requires a < b && n > 0.0
    ensures a * n < b * n
  {
  }

  function Elapsed(creation: Option<real>, now: real, interval: real): real
    requires interval > 0.0
  {
    (now - (if creation.Some? then creation.value else now)) / interval
  }

  function ChunkIndex(creation: Option<real>, now: real, g: Shape): (i: int)
    requires Sound(g) && (creation.Some? ==> creation.value <= now)
    ensures 0 <= i < g.len
    ensures creation.Some? ==> creation.value + Times(i, g.interval) <= now
  {
    var x := Elapsed(creation, now, g.interval);
    ElapsedTimes(creation, now, g.interval);
    RemainderBounds(x, g.len);
    var i := Remainder(x, g.len).Floor;
    MulMono(i as real, x, g.interval);
    i
  }

  lemma ElapsedTimes(creation: Option<real>, now: real, interval: real)
    requires interval > 0.0 && (creation.Some? ==> creation.value <= now)
    ensures var x := Elapsed(creation, now, interval);
            x >= 0.0 && (creation.Some? ==> x * interval == now - creation.value)
  {
  }

  // ---------------------------------------------------------------- the classes

  class Phase {
    var total: int
    var deadline: Deadline
    const interval: real
    ghost const home: nat

    constructor (deadline: Deadline, interval: real, ghost home: nat)
      ensures total == 0 && this.deadline == deadline && this.interval == interval && this.home == home
    {
      total := 0;
      this.deadline := deadline;
      this.interval := interval;
      this.home := home;
    }

    method GetSum(t: real) returns (sum: int)
      requires interval > 0.0
      ensures sum == PhaseSum(total, deadline, t, interval)
    {
      if deadline.At? && t >= deadline.time {
        return 0;
      }
      sum := total;
      if deadline.At? {
        var beforeInvalidate := deadline.time - t;
        if beforeInvalidate < interval {
          sum := Decayed(total, beforeInvalidate, interval);
        }
      }
    }

    method Add(value: int)
      modifies this`total
      ensures total == old(total) + value
    {
      total := total + value;
    }

    method Reset()
      modifies this`total
      ensures total == 0
    {
      total := 0;
    }
  }

  class Chunk {
    const index: nat
    const g: Shape
    var left: Phase?
    var right: Phase?
    var currentPhase: Phase?

    /** The phase that is not current is empty and never expires. */
    ghost predicate Valid()
      reads this, left, right
    {
      && Sound(g)
      && (currentPhase == null ==> left == null && right == null)
      && (currentPhase != null ==>
            && left != null && right != null && left != right
            && left.home == index && right.home == index && left.interval == g.interval == right.interval
            && (currentPhase == left || currentPhase == right)
            && var other := if currentPhase == left then right else left;
               other.total == 0 && other.deadline == Max)
    }

    ghost function View(): Slot
      reads this, left, right
      requires Valid()
    {
      if currentPhase == null then Unset else Slot(currentPhase.total, currentPhase.deadline)
    }

    constructor (index: nat, g: Shape)
      requires Sound(g)
      ensures Valid() && View() == Unset && this.index == index && this.g == g
    {
      this.index := index;
      this.g := g;
      left, right, currentPhase := null, null, null;
    }

    method InitPhases(creation: Option<real>)
      requires Valid() && currentPhase == null
      modifies this
      ensures Valid() && View() == Initialised(Unset, creation, index, g)
      ensures currentPhase != null && fresh(left) && fresh(right)
    {
      left := new Phase(FirstDeadline(creation, index, g), g.interval, index);
      right := new Phase(Max, g.interval, index);
      currentPhase := left;
    }

    method GetSum(t: real, creation: Option<real>) returns (sum: int)
      requires Valid()
      modifies this
      ensures Valid() && View() == Initialised(old(View()), creation, index, g)
      ensures currentPhase != null && Moved()
      ensures sum == SlotSum(old(View()), t, g)
    {
      if currentPhase == null {
        InitPhases(creation);
      }
      sum := currentPhase.GetSum(t);
    }

    /** The phases are the old ones, or new. */
    twostate predicate Moved()
      reads this
    {
      && (left == old(left) || (left != null && fresh(left)))
      && (right == old(right) || (right != null && fresh(right)))
    }

    method Add(delta: int, now: real, creation: real)
      requires Valid()
      modifies this, left, right
      ensures Valid() && currentPhase != null && Moved()
      ensures View() == Added(old(View()), delta, now, creation, index, g)
    {
      if currentPhase == null {
        InitPhases(Some(creation));
      }
      var active := currentPhase;
      if Before(now, active.deadline) {
        active.Add(delta);
      } else {
        var next := if active == left then right else left;
        next.Add(delta);
        currentPhase := next;
        active.Reset();
        active.deadline := Max;
        next.deadline := At(NextDeadline(creation, now, g));
      }
    }
  }

  function OrElse(t: Option<real>, default: real): real {
    if t.Some? then t.value else default
  }

  class Counter {
    const g: Shape
    const chunks: seq<Chunk>
    var creation: Option<real>
    var lastWrite: Option<real>
    ghost var phases: set<Phase>
    ghost var slots: seq<Slot>

    ghost predicate Valid()
      reads this`phases, this`slots, chunks, phases
    {
      && Sound(g) && |chunks| == g.len == |slots|
      && forall i :: 0 <= i < |chunks| ==> Placed(i)
    }

    /** Chunk `i` stands at its place and shows slot `i`. */
    ghost predicate Placed(i: nat)
      requires i < |chunks| == |slots|
      reads this`phases, this`slots, chunks, phases
    {
      var c := chunks[i];
      && c.index == i && c.g == g
      && (c.left == null || c.left in phases) && (c.right == null || c.right in phases)
      && c.Valid() && c.View() == slots[i]
    }

    constructor (rollingWindow: real, numberChunks: nat)
      requires numberChunks >= 2 && rollingWindow > 0.0
      ensures Valid() && creation == None && lastWrite == None && fresh(chunks) && phases == {}
      ensures g == Shape(numberChunks + 1, rollingWindow / numberChunks as real)
      ensures slots == Blank(g.len)
    {
      var g' := Shape(numberChunks + 1, rollingWindow / numberChunks as real);
      g := g';
      creation, lastWrite, phases, slots := None, None, {}, Blank(g'.len);
      var cs: seq<Chunk> := [];
      while |cs| < g'.len
        invariant |cs| <= g'.len && fresh(cs)
        invariant forall i :: 0 <= i < |cs| ==>
                    cs[i].index == i && cs[i].g == g' && cs[i].Valid() && cs[i].View() == Unset
      {
        var c := new Chunk(|cs|, g');
        cs := cs + [c];
      }
      chunks := cs;
    }

    /** Adds at `ts`, by default at the clock's time; the default is not kept as the last write. */
    method Add(delta: int, ts: Option<real>, clock: real)
      requires Valid() && (creation.Some? ==> creation.value <= OrElse(ts, clock))
      modifies this, chunks, phases
      ensures Valid() && fresh(phases - old(phases))
      ensures creation == Some(OrElse(old(creation), OrElse(ts, clock))) && lastWrite == ts
      ensures var now := OrElse(ts, clock);
              var i := ChunkIndex(creation, now, g);
              slots == old(slots)[i := Added(old(slots)[i], delta, now, creation.value, i, g)]
    {
      var now := OrElse(ts, clock);
      if creation == None {
        creation := Some(now);
      }
      AddAt(ChunkIndex(creation, now, g), delta, now, creation.value);
      lastWrite := ts;
    }

    method AddAt(i: nat, delta: int, now: real, created: real)
      requires Valid() && i < |chunks|
      modifies this`phases, this`slots, chunks[i], phases
      ensures Valid() && fresh(phases - old(phases))
      ensures slots == old(slots)[i := Added(old(slots)[i], delta, now, created, i, g)]
    {
      hide Added, Initialised;
      assert Placed(i);
      var c := chunks[i];
      c.Add(delta, now, created);
      phases := phases + {c.left, c.right};
      slots := slots[i := c.View()];
      forall j | 0 <= j < |chunks|
        ensures Placed(j)
      {
        assert old(Placed(j));
      }
    }

    /** The sum at `t`, by default at the last write. With neither there is no chunk to start from,
        and the read ends in a type error: after a write that left its time to the clock, too. */
    method GetSum(t: Option<real>) returns (sum: Option<int>)
      requires Valid()
      requires var at := if t.Some? then t else lastWrite;
               creation.Some? && at.Some? ==> creation.value <= at.value
      modifies this`phases, this`slots, chunks
      ensures Valid() && fresh(phases - old(phases))
      ensures sum.None? <==> t.None? && lastWrite.None?
      ensures sum.None? ==> slots == old(slots)
      ensures sum.Some? ==> slots == AllInitialised(old(slots), creation, g)
      ensures sum.Some? ==> sum.value == SlotsSum(old(slots), if t.Some? then t.value else lastWrite.value, g)
    {
      var at := if t.Some? then t else lastWrite;
      if at == None {
        return None;
      }
      var total := SumAt(at.value);
      sum := Some(total);
    }

    /** The loop starts after the newest chunk, comes round, and reads each chunk once. */
    method SumAt(at: real) returns (sum: int)
      requires Valid() && (creation.Some? ==> creation.value <= at)
      modifies this`phases, this`slots, chunks
      ensures Valid() && fresh(phases - old(phases))
      ensures slots == AllInitialised(old(slots), creation, g)
      ensures sum == SlotsSum(old(slots), at, g)
    {
      var newest := ChunkIndex(creation, at, g);
      assert g.interval > 0.0 && |slots| == |chunks|;
      hide *;
      ghost var before := slots;
      TourStart(before, newest, creation, at, g);
      assert |chunks| > 0;
      sum := 0;
      var i, iteration := newest + 1, 0;
      while iteration < |chunks|
        invariant 0 <= iteration <= |chunks| == |slots| && Valid() && fresh(phases - old(phases))
        invariant Follows(i, newest, iteration, |chunks|)
        invariant Toured(before, slots, newest, iteration, creation, g)
        invariant sum == TourSum(before, newest, iteration, at, g)
      {
        var part;
        i, part := Visit(i, at, before, newest, iteration);
        sum := sum + part;
        iteration := iteration + 1;
      }
      TourEnd(before, slots, newest, creation, at, g);
    }

    /** One turn of the loop: wraps the index and reads the chunk there. */
    method Visit(i: int, at: real, ghost before: seq<Slot>, ghost newest: nat, ghost n: nat)
      returns (next: int, part: int)
      requires Valid() && newest < |before| == |chunks| == |slots| && n < |chunks| && g.interval > 0.0
      requires Follows(i, newest, n, |chunks|) && Toured(before, slots, newest, n, creation, g)
      modifies this`phases, this`slots, chunks
      ensures Valid() && fresh(phases - old(phases)) && |slots| == |before|
      ensures Follows(next, newest, n + 1, |chunks|) && Toured(before, slots, newest, n + 1, creation, g)
      ensures TourSum(before, newest, n + 1, at, g) == TourSum(before, newest, n, at, g) + part
    {
      FollowsNext(i, newest, n, |chunks|);
      TourStep(before, slots, newest, n, creation, at, g);
      ghost var turn := TurnAt(newest, n, |chunks|);
      hide *;
      var index := if i == |chunks| then 0 else i;
      assert index == turn;
      part := SumOf(index, at);
      next := index + 1;
    }

    method SumOf(i: nat, at: real) returns (part: int)
      requires Valid() && i < |chunks|
      modifies this`phases, this`slots, chunks[i]
      ensures Valid() && fresh(phases - old(phases))
      ensures slots == old(slots)[i := Initialised(old(slots)[i], creation, i, g)]
      ensures part == SlotSum(old(slots)[i], at, g)
    {
      hide SlotSum, Initialised;
      assert Placed(i);
      var c := chunks[i];
      part := c.GetSum(at, creation);
      phases := phases + {c.left, c.right};
      slots := slots[i := c.View()];
      forall j | 0 <= j < |chunks|
        ensures Placed(j)
      {
        assert old(Placed(j));
      }
    }
  }

  const MAX_CHUNKS := 1000
  const MIN_INTERVAL := 100.0

  /** Out-of-range shapes are refused; null stands for the RangeError. */
  method NewCounter(rollingWindow: real, numberChunks: int) returns (c: Counter?)
    ensures c == null <==>
            numberChunks < 2 || numberChunks > MAX_CHUNKS || rollingWindow / numberChunks as real < MIN_INTERVAL
    ensures c != null ==>
              fresh(c) && c.Valid() && c.creation == None && c.slots == Blank(c.g.len) &&
              c.g == Shape(numberChunks + 1, rollingWindow / numberChunks as real)
  {
    if numberChunks < 2 || numberChunks > MAX_CHUNKS {
      return null;
    }
    if rollingWindow / numberChunks as real < MIN_INTERVAL {
      return null;
    }
    PositiveQuotient(rollingWindow, numberChunks as real);
    c := new Counter(rollingWindow, numberChunks);
  }

  lemma PositiveQuotient(x: real, n: real)
    requires n > 0.0 && x / n > 0.0
    ensures x > 0.0
  {
    assert x == x / n * n;
  }

  function Blank(n: nat): (s: seq<Slot>)
    ensures |s| == n && forall i :: 0 <= i < n ==> s[i] == Unset
  {
    seq(n, i => Unset)
  }

  function AllInitialised(slots: seq<Slot>, creation: Option<real>, g: Shape): (s: seq<Slot>)
    ensures |s| == |slots| && forall i :: 0 <= i < |s| ==> s[i] == Initialised(slots[i], creation, i, g)
  {
    seq(|slots|, i requires 0 <= i < |slots| => Initialised(slots[i], creation, i, g))
  }

  /** The slots in the order of a tour that starts after `newest`. */
  function Around(slots: seq<Slot>, newest: nat): (tour: seq<Slot>)
    requires newest < |slots|
    ensures |tour| == |slots|
  {
    slots[newest + 1..] + slots[..newest + 1]
  }

  ghost function TourSum(slots: seq<Slot>, newest: nat, n: nat, t: real, g: Shape): int
    requires newest < |slots| && n <= |slots| && g.interval > 0.0
  {
    SlotsSum(Around(slots, newest)[..n], t, g)
  }

  /** The place of slot `j` in that tour. */
  function Turn(j: int, newest: int, len: int): int {
    if j > newest then j - newest - 1 else j - newest - 1 + len
  }

  /** The slot that the tour comes to after `n` others. */
  function TurnAt(newest: nat, n: nat, len: nat): (i: nat)
    requires newest < len && n < len
    ensures i < len
  {
    if newest + 1 + n < len then newest + 1 + n else newest + 1 + n - len
  }

  /** The loop's index, before it is wrapped, when `n` slots have been visited. */
  predicate Follows(i: int, newest: nat, n: nat, len: nat)
    requires newest < len
  {
    n < len ==> (if i == len then 0 else i) == TurnAt(newest, n, len)
  }

  lemma FollowsNext(i: int, newest: nat, n: nat, len: nat)
    requires newest < len && n < len && Follows(i, newest, n, len)
    ensures (if i == len then 0 else i) == TurnAt(newest, n, len)
    ensures Follows((if i == len then 0 else i) + 1, newest, n + 1, len)
  {
  }

  /** The tour has initialised its first `n` slots and left the others alone. */
  ghost predicate Toured(before: seq<Slot>, slots: seq<Slot>, newest: nat, n: int, creation: Option<real>, g: Shape) {
    |slots| == |before| && forall j :: 0 <= j < |before| ==>
      slots[j] == if Turn(j, newest, |before|) < n then Initialised(before[j], creation, j, g) else before[j]
  }

  lemma TourStart(before: seq<Slot>, newest: nat, creation: Option<real>, at: real, g: Shape)
    requires newest < |before| && g.interval > 0.0
    ensures Toured(before, before, newest, 0, creation, g)
    ensures TourSum(before, newest, 0, at, g) == 0
    ensures Follows(newest + 1, newest, 0, |before|)
  {
  }

  lemma TourStep(before: seq<Slot>, slots: seq<Slot>, newest: nat, n: nat, creation: Option<real>, at: real, g: Shape)
    requires newest < |before| && n < |before| && g.interval > 0.0
    requires Toured(before, slots, newest, n, creation, g)
    ensures var i := TurnAt(newest, n, |before|);
            && Toured(before, slots[i := Initialised(slots[i], creation, i, g)], newest, n + 1, creation, g)
            && TourSum(before, newest, n + 1, at, g) == TourSum(before, newest, n, at, g) + SlotSum(slots[i], at, g)
  {
    hide Initialised, SlotSum;
    var tour := Around(before, newest);
    assert tour[..n + 1][..n] == tour[..n];
  }

  lemma TourEnd(before: seq<Slot>, slots: seq<Slot>, newest: nat, creation: Option<real>, at: real, g: Shape)
    requires newest < |before| && g.interval > 0.0
    requires Toured(before, slots, newest, |before|, creation, g)
    ensures slots == AllInitialised(before, creation, g)
    ensures TourSum(before, newest, |before|, at, g) == SlotsSum(before, at, g)
  {
    assert slots == AllInitialised(before, creation, g) by {
      hide Initialised, SlotsSum;
    }
    hide Initialised, SlotsSum, Toured;
    var tour := Around(before, newest);
    assert tour[..|before|] == tour;
    SlotsSumRotated(before, newest + 1, at, g);
  }

  lemma {:induction false} SlotsSumConcat(a: seq<Slot>, b: seq<Slot>, t: real, g: Shape)
    requires g.interval > 0.0
    ensures SlotsSum(a + b, t, g) == SlotsSum(a, t, g) + SlotsSum(b, t, g)
  {
    if b == [] {
      assert a + b == a;
    } else {
      SlotsSumConcat(a, b[..|b| - 1], t, g);
      assert (a + b)[..|a + b| - 1] == a + b[..|b| - 1];
    }
  }

  /** Where the tour of the chunks starts does not matter. */
  lemma SlotsSumRotated(slots: seq<Slot>, k: nat, t: real, g: Shape)
    requires g.interval > 0.0 && k <= |slots|
    ensures SlotsSum(slots[k..] + slots[..k], t, g) == SlotsSum(slots, t, g)
  {
    SlotsSumConcat(slots[k..], slots[..k], t, g);
    SlotsSumConcat(slots[..k], slots[k..], t, g);
    assert slots[..k] + slots[k..] == slots;
  }
}
