/** Any number of write caches on one store, over every interleaving of their steps. */
module WriteCacheRuns {
  import opened WriteCaching
  import opened Optional

  /** The store, the caches, and what has become of every write so far. */
  datatype System = System(
    store: Store,
    caches: seq<Instance>,
    requested: seq<Write>,
    executed: seq<Buffer>,
    discarded: seq<Buffer>,
    lost: seq<Buffer>)

  datatype Action =
    | Request(i: nat, w: Write)
    | FlushStart(i: nat, hasLock: bool, sends: bool)
    | FlushDone(i: nat, succeeded: bool)

  function Update(s: System, i: nat, x: Instance): System
    requires i < |s.caches|
  {
    s.(caches := s.caches[i := x])
  }

  function Executed(store: Store, b: Buffer): Store {
    c => AfterBatch(b, c, store(c))
  }

  /** A flush that comes to no commands loses nothing only if its buffer is quiet. */
  ghost function Step(s: System, a: Action): System {
    if a.i >= |s.caches| then s
    else
      var x := s.caches[a.i];
      match a
      case Request(i, w) => Update(s, i, Wrote(x, w)).(requested := s.requested + [w])
      case FlushStart(i, hasLock, sends) =>
        var s' := Update(s, i, Begun(x, hasLock, sends || !Quiet(x.buf)));
        if !x.flushing && !hasLock then s'.(discarded := s.discarded + [x.buf]) else s'
      case FlushDone(i, succeeded) =>
        if x.inflight == [] then s
        else
          var s' := Update(s, i, Ended(x));
          if succeeded
          then s'.(store := Executed(s.store, x.inflight[0]), executed := s.executed + [x.inflight[0]])
          else s'.(lost := s.lost + [x.inflight[0]])
  }

  ghost function Run(s: System, actions: seq<Action>): System
    decreases |actions|
  {
    if actions == [] then s else Run(Step(s, actions[0]), actions[1..])
  }

  ghost predicate Initial(s: System) {
    && (forall i :: 0 <= i < |s.caches| ==> s.caches[i] == FRESH)
    && s.requested == [] && s.executed == [] && s.discarded == [] && s.lost == []
  }

  // ---------------------------------------------------------------- conservation of increments

  function Amount(bs: seq<Buffer>, c: Cell): int {
    if bs == [] then 0 else Amount(bs[..|bs| - 1], c) + bs[|bs| - 1].adds(c)
  }

  function Pending(caches: seq<Instance>, c: Cell): int {
    if caches == [] then 0
    else
      var x := caches[|caches| - 1];
      Pending(caches[..|caches| - 1], c) + x.buf.adds(c) + Amount(x.inflight, c)
  }

  lemma AmountPush(bs: seq<Buffer>, b: Buffer, c: Cell)
    ensures Amount(bs + [b], c) == Amount(bs, c) + b.adds(c)
  {
    assert (bs + [b])[..|bs|] == bs;
  }

  lemma {:induction false} PendingUpdate(caches: seq<Instance>, i: nat, x: Instance, c: Cell)
    requires i < |caches|
    ensures Pending(caches[i := x], c) ==
            Pending(caches, c) - caches[i].buf.adds(c) - Amount(caches[i].inflight, c) + x.buf.adds(c) +
              Amount(x.inflight, c)
  {
    var k := |caches| - 1;
    if i == k {
      assert caches[i := x][..k] == caches[..k];
    } else {
      PendingUpdate(caches[..k], i, x, c);
      assert caches[i := x][..k] == caches[..k][i := x];
    }
  }

  /** One batch at most is in flight from each cache, and exactly while it is flushing; a cache that
      has not changed since it was cleared holds nothing. */
  ghost predicate Orderly(s: System) {
    forall i :: 0 <= i < |s.caches| ==> Single(s.caches[i])
  }

  ghost predicate Single(x: Instance) {
    |x.inflight| == (if x.flushing then 1 else 0) && (!x.changed ==> Quiet(x.buf))
  }

  /** Every requested increment is in the store, under way, discarded for want of the lock, or lost. */
  ghost predicate Conserved(s: System, c: Cell) {
    Sum(s.requested, c) ==
    Amount(s.executed, c) + Pending(s.caches, c) + Amount(s.discarded, c) + Amount(s.lost, c)
  }

  lemma AmountOne(bs: seq<Buffer>, c: Cell)
    ensures |bs| == 1 ==> Amount(bs, c) == bs[0].adds(c) && Amount(bs[1..], c) == 0
    ensures |bs| == 0 ==> Amount(bs, c) == 0
  {
    if |bs| == 1 {
      assert bs == [] + [bs[0]];
      AmountPush([], bs[0], c);
    }
  }

  lemma RequestConserves(s: System, i: nat, w: Write, c: Cell)
    requires i < |s.caches| && Orderly(s) && Conserved(s, c)
    ensures Orderly(Step(s, Request(i, w))) && Conserved(Step(s, Request(i, w)), c)
  {
    hide EffectOf, Amount, Pending, Quiet;
    var x := s.caches[i];
    assert Single(x);
    PendingUpdate(s.caches, i, Wrote(x, w), c);
    assert (s.requested + [w])[..|s.requested|] == s.requested;
  }

  lemma StartConserves(s: System, i: nat, hasLock: bool, sends: bool, c: Cell)
    requires i < |s.caches| && Orderly(s) && Conserved(s, c)
    ensures Orderly(Step(s, FlushStart(i, hasLock, sends))) && Conserved(Step(s, FlushStart(i, hasLock, sends)), c)
  {
    hide Amount, Pending;
    var x := s.caches[i];
    assert Single(x);
    PendingUpdate(s.caches, i, Begun(x, hasLock, sends || !Quiet(x.buf)), c);
    AmountPush(s.discarded, x.buf, c);
    AmountPush(x.inflight, x.buf, c);
  }

  lemma DoneConserves(s: System, i: nat, succeeded: bool, c: Cell)
    requires i < |s.caches| && Orderly(s) && Conserved(s, c)
    ensures Orderly(Step(s, FlushDone(i, succeeded))) && Conserved(Step(s, FlushDone(i, succeeded)), c)
  {
    hide Amount, Pending, Quiet, Executed;
    var x := s.caches[i];
    assert Single(x);
    if x.inflight != [] {
      PendingUpdate(s.caches, i, Ended(x), c);
      AmountOne(x.inflight, c);
      AmountPush(s.executed, x.inflight[0], c);
      AmountPush(s.lost, x.inflight[0], c);
    }
  }

  lemma {:induction false} FreshPending(caches: seq<Instance>, c: Cell)
    requires forall i :: 0 <= i < |caches| ==> caches[i] == FRESH
    ensures Pending(caches, c) == 0
  {
    if caches != [] {
      FreshPending(caches[..|caches| - 1], c);
    }
  }

  lemma {:induction false} ConservedRun(s: System, actions: seq<Action>, c: Cell)
    requires Orderly(s) && Conserved(s, c)
    ensures Orderly(Run(s, actions)) && Conserved(Run(s, actions), c)
    decreases |actions|
  {
    if actions != [] {
      var a := actions[0];
      if a.i < |s.caches| {
        match a {
          case Request(i, w) => RequestConserves(s, i, w, c);
          case FlushStart(i, hasLock, sends) => StartConserves(s, i, hasLock, sends, c);
          case FlushDone(i, succeeded) => DoneConserves(s, i, succeeded, c);
        }
      }
      hide Step, Orderly, Conserved;
      ConservedRun(Step(s, a), actions[1..], c);
    }
  }

  /** Over every interleaving of requests, flush starts and flush results of any number of caches,
      with the lock gained and lost at will. */
  lemma IncrementsConserved(s: System, actions: seq<Action>, c: Cell)
    requires Initial(s)
    ensures var r := Run(s, actions);
            && Requested(r.requested, c) ==
               Amount(r.executed, c) + Pending(r.caches, c) + Amount(r.discarded, c) + Amount(r.lost, c)
            && forall i :: 0 <= i < |r.caches| ==> |r.caches[i].inflight| == if r.caches[i].flushing then 1 else 0
  {
    FreshPending(s.caches, c);
    ConservedRun(s, actions, c);
    hide Run;
    var r := Run(s, actions);
    SumIsRequested(r.requested, c);
    forall i | 0 <= i < |r.caches|
      ensures |r.caches[i].inflight| == if r.caches[i].flushing then 1 else 0
    {
      assert Single(r.caches[i]);
    }
  }

  /** A batch starts only by a flush with the lock, from a cache with none in flight. */
  lemma NoBatchWithoutLock(s: System, a: Action, i: nat)
    requires i < |s.caches| && Orderly(s) && |Step(s, a).caches[i].inflight| > |s.caches[i].inflight|
    ensures a.FlushStart? && a.i == i && a.hasLock && s.caches[i].inflight == []
  {
    hide Quiet;
    assert Single(s.caches[i]);
  }

  ghost predicate OnlyRequests(actions: seq<Action>) {
    forall k :: 0 <= k < |actions| ==> actions[k].Request? && actions[k].i == 0
  }

  lemma {:induction false} RequestsPend(s: System, actions: seq<Action>)
    requires |s.caches| == 1 && OnlyRequests(actions) && !s.caches[0].flushing && s.caches[0].inflight == []
    ensures var r := Run(s, actions);
            && |r.caches| == 1 && !r.caches[0].flushing && r.caches[0].inflight == []
            && r.store == s.store && r.executed == s.executed && r.discarded == s.discarded && r.lost == s.lost
    decreases |actions|
  {
    if actions != [] {
      assert actions[0].Request?;
      assert OnlyRequests(actions[1..]) by {
        assert forall k :: 0 <= k < |actions[1..]| ==> actions[1..][k] == actions[k + 1];
      }
      RequestsPend(Step(s, actions[0]), actions[1..]);
    }
  }

  /** A flush without the lock forgets for good what was requested before: the cache is as new, and what
      it forgot is all that was asked for. With the lock the same is under way until its result is in;
      success puts it into the store, and failure loses it. */
  lemma FlushDecides(s: System, actions: seq<Action>, c: Cell)
    requires Initial(s) && |s.caches| == 1 && OnlyRequests(actions) && actions != []
    ensures var r := Run(s, actions);
            var without, sent := Step(r, FlushStart(0, false, true)), Step(r, FlushStart(0, true, true));
            && without.caches == [FRESH] && without.store == s.store
            && Amount(without.discarded, c) == Requested(r.requested, c)
            && sent.store == s.store && sent.caches[0].flushing && Quiet(sent.caches[0].buf)
            && Step(sent, FlushStart(0, false, true)) == sent
            && Step(sent, FlushDone(0, true)).caches == [FRESH] && Step(sent, FlushDone(0, false)).caches == [FRESH]
            && Amount(Step(sent, FlushDone(0, true)).executed, c) == Requested(r.requested, c)
            && Step(sent, FlushDone(0, false)).store == s.store
            && Amount(Step(sent, FlushDone(0, false)).lost, c) == Requested(r.requested, c)
  {
    var r := Run(s, actions);
    RequestsPend(s, actions);
    IncrementsConserved(s, actions, c);
    RequestsChange(s, actions);
    hide Run;
    var x := r.caches[0];
    OneCache(r.caches, c);
    assert Amount([], c) == 0;
    AmountPush([], x.buf, c);
    assert [] + [x.buf] == [x.buf] && [x.buf][1..] == [];
    var sent := Step(r, FlushStart(0, true, true));
    assert r.executed == [] && r.discarded == [] && r.lost == [];
    assert sent.caches == [Instance(EmptyBuffer(), false, true, [x.buf])];
    assert Step(sent, FlushDone(0, true)).caches == [FRESH];
  }

  lemma {:induction false} RequestsChange(s: System, actions: seq<Action>)
    requires |s.caches| == 1 && OnlyRequests(actions)
    ensures var r := Run(s, actions);
            |r.caches| == 1 && (actions != [] || s.caches[0].changed ==> r.caches[0].changed)
    decreases |actions|
  {
    if actions != [] {
      assert actions[0].Request?;
      assert OnlyRequests(actions[1..]) by {
        assert forall k :: 0 <= k < |actions[1..]| ==> actions[1..][k] == actions[k + 1];
      }
      RequestsChange(Step(s, actions[0]), actions[1..]);
    }
  }

  lemma OneCache(caches: seq<Instance>, c: Cell)
    requires |caches| == 1 && caches[0].inflight == []
    ensures Pending(caches, c) == caches[0].buf.adds(c)
  {
    assert caches[..0] == [];
  }

  // ---------------------------------------------------------------- what arrives in the store

  /** Cell `c` is only counted, or only given values. */
  predicate OfKind(e: Effect, counted: bool) {
    if counted then !e.Put? else !e.Add?
  }

  ghost predicate RequestsOfKind(actions: seq<Action>, c: Cell, counted: bool) {
    forall k :: 0 <= k < |actions| && actions[k].Request? ==> OfKind(EffectOf(actions[k].w, c), counted)
  }

  predicate HoldsKind(b: Buffer, c: Cell, counted: bool) {
    if counted then b.puts(c).None? else b.adds(c) == 0
  }

  ghost predicate CachesOfKind(s: System, c: Cell, counted: bool) {
    forall i :: 0 <= i < |s.caches| ==>
      HoldsKind(s.caches[i].buf, c, counted) &&
      forall k :: 0 <= k < |s.caches[i].inflight| ==> HoldsKind(s.caches[i].inflight[k], c, counted)
  }

  lemma KindStep(s: System, a: Action, c: Cell, counted: bool)
    requires CachesOfKind(s, c, counted) && RequestsOfKind([a], c, counted)
    ensures CachesOfKind(Step(s, a), c, counted)
  {
    hide EffectOf, Quiet;
    assert a.Request? ==> OfKind(EffectOf([a][0].w, c), counted);
  }

  /** The counter in the store has received exactly the executed increments. */
  ghost predicate Received(s: System, c: Cell, initial: int) {
    Reading(s.store(c)) == Num(initial + Amount(s.executed, c))
  }

  lemma ReceivedStep(s: System, a: Action, c: Cell, initial: int)
    requires CachesOfKind(s, c, true) && Received(s, c, initial)
    ensures Received(Step(s, a), c, initial)
  {
    hide EffectOf, Quiet, Amount;
    if a.FlushDone? && a.i < |s.caches| && s.caches[a.i].inflight != [] && a.succeeded {
      AmountPush(s.executed, s.caches[a.i].inflight[0], c);
      assert HoldsKind(s.caches[a.i].inflight[0], c, true);
    }
  }

  lemma {:induction false} ReceivedRun(s: System, actions: seq<Action>, c: Cell, initial: int)
    requires CachesOfKind(s, c, true) && Received(s, c, initial) && RequestsOfKind(actions, c, true)
    ensures Received(Run(s, actions), c, initial)
    decreases |actions|
  {
    if actions != [] {
      var a := actions[0];
      assert RequestsOfKind([a], c, true);
      KindStep(s, a, c, true);
      ReceivedStep(s, a, c, initial);
      assert RequestsOfKind(actions[1..], c, true) by {
        assert forall k :: 0 <= k < |actions[1..]| ==> actions[1..][k] == actions[k + 1];
      }
      hide Step, CachesOfKind, Received, RequestsOfKind;
      ReceivedRun(Step(s, a), actions[1..], c, initial);
    }
  }

  /** A counter that nobody overwrites grows by the requested increments less those still under way,
      discarded for want of the lock, or lost with a failed batch. */
  lemma StoreCounts(s: System, actions: seq<Action>, c: Cell, initial: int)
    requires Initial(s) && Reading(s.store(c)) == Num(initial) && RequestsOfKind(actions, c, true)
    ensures var r := Run(s, actions);
            Reading(r.store(c)) ==
            Num(initial + Requested(r.requested, c) - Pending(r.caches, c) - Amount(r.discarded, c) - Amount(r.lost, c))
  {
    ReceivedRun(s, actions, c, initial);
    IncrementsConserved(s, actions, c);
  }

  // ---------------------------------------------------------------- one cache that keeps the lock

  ghost predicate Reliable(actions: seq<Action>) {
    forall k :: 0 <= k < |actions| ==>
      (actions[k].FlushStart? ==> actions[k].hasLock) && (actions[k].FlushDone? ==> actions[k].succeeded)
  }

  /** What the cell will hold when everything under way has arrived. */
  function Settled(x: Instance, c: Cell, d: Option<Datum>): Option<Datum> {
    AfterBatch(x.buf, c, if x.inflight == [] then d else AfterBatch(x.inflight[0], c, d))
  }

  /** One step keeps the settled reading in step with the separate writes. */
  ghost predicate InStep(s: System, c: Cell, before: Option<Datum>) {
    |s.caches| == 1 && Reading(Settled(s.caches[0], c, s.store(c))) == Reading(PerformAll(before, s.requested, c))
  }

  lemma BufferOneMore(b: Buffer, w: Write, c: Cell, counted: bool, d: Option<Datum>, direct: Option<Datum>)
    requires HoldsKind(b, c, counted) && OfKind(EffectOf(w, c), counted)
    requires Reading(AfterBatch(b, c, d)) == Reading(direct)
    ensures Reading(AfterBatch(Buffered(b, w), c, d)) == Reading(Perform(direct, EffectOf(w, c)))
  {
    hide EffectOf;
  }

  lemma RequestInStep(s: System, w: Write, c: Cell, counted: bool, before: Option<Datum>)
    requires InStep(s, c, before) && CachesOfKind(s, c, counted) && OfKind(EffectOf(w, c), counted)
    ensures InStep(Step(s, Request(0, w)), c, before)
  {
    hide EffectOf, AfterBatch, Quiet, Buffered;
    var x, d := s.caches[0], s.store(c);
    var d' := if x.inflight == [] then d else AfterBatch(x.inflight[0], c, d);
    assert HoldsKind(x.buf, c, counted);
    BufferOneMore(x.buf, w, c, counted, d', PerformAll(before, s.requested, c));
    assert (s.requested + [w])[..|s.requested|] == s.requested;
  }

  lemma FlushInStep(s: System, a: Action, c: Cell, before: Option<Datum>)
    requires InStep(s, c, before) && Orderly(s) && Reliable([a]) && !a.Request?
    ensures InStep(Step(s, a), c, before)
  {
    hide PerformAll, Perform, EffectOf;
    var x, d := s.caches[0], s.store(c);
    assert Single(x);
    assert [a][0] == a;
    if a.i == 0 && a.FlushDone? && x.inflight != [] {
      assert x.inflight[1..] == [];
    }
  }

  lemma {:induction false} InStepRun(s: System, actions: seq<Action>, c: Cell, counted: bool, before: Option<Datum>)
    requires InStep(s, c, before) && Orderly(s) && Conserved(s, c) && CachesOfKind(s, c, counted)
    requires Reliable(actions) && RequestsOfKind(actions, c, counted)
    ensures InStep(Run(s, actions), c, before)
    decreases |actions|
  {
    if actions != [] {
      var a, rest := actions[0], actions[1..];
      assert RequestsOfKind([a], c, counted) && Reliable([a]);
      assert RequestsOfKind(rest, c, counted) && Reliable(rest) by {
        assert forall k :: 0 <= k < |rest| ==> rest[k] == actions[k + 1];
      }
      assert a.Request? ==> OfKind(EffectOf(a.w, c), counted);
      ConservedRun(s, [a], c);
      assert [a][1..] == [];
      assert Run(s, [a]) == Run(Step(s, a), []) == Step(s, a);
      KindStep(s, a, c, counted);
      if a.i == 0 {
        if a.Request? {
          RequestInStep(s, a.w, c, counted, before);
        } else {
          FlushInStep(s, a, c, before);
        }
      }
      hide Step, CachesOfKind, RequestsOfKind, Reliable, Orderly, Conserved, InStep;
      InStepRun(Step(s, a), rest, c, counted, before);
    }
  }

  /** For a single cache that keeps the lock and whose batches succeed, the moments at which it
      flushes do not matter: once nothing is under way, the cell reads as if every write had been
      performed at once, when it was requested. */
  lemma FlushScheduleIrrelevant(s: System, actions: seq<Action>, c: Cell, counted: bool)
    requires Initial(s) && |s.caches| == 1 && Reliable(actions) && RequestsOfKind(actions, c, counted)
    ensures var r := Run(s, actions);
            |r.caches| == 1 &&
            (!r.caches[0].changed && !r.caches[0].flushing ==>
               Reading(r.store(c)) == Reading(PerformAll(s.store(c), r.requested, c)))
  {
    FreshPending(s.caches, c);
    InStepRun(s, actions, c, counted, s.store(c));
    ConservedRun(s, actions, c);
    var r := Run(s, actions);
    hide Run;
    assert Single(r.caches[0]);
  }
}
